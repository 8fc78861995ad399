/** What a rendered server.conf says: which setting stands behind which directive. */
module ServerDirectives {
  import opened Wrappers
  import opened Text
  import opened Ipv4
  import CcdMerge
  import CcdRoundTrip
  import opened ServerConfig

  /** Some block holds the line. */
  ghost predicate Says(blocks: seq<seq<Line>>, l: Line) {
    exists i :: 0 <= i < |blocks| && l in blocks[i]
  }

  lemma SaysAppend(xs: seq<seq<Line>>, ys: seq<seq<Line>>, l: Line)
    ensures Says(xs + ys, l) <==> Says(xs, l) || Says(ys, l)
  {
    var all := xs + ys;
    if i :| 0 <= i < |xs| && l in xs[i] { assert l in all[i]; }
    if i :| 0 <= i < |ys| && l in ys[i] { assert l in all[|xs| + i]; }
  }

  lemma BodySays(c: Config, ccdEnabled: bool, l: Line)
    requires Renderable(c)
    ensures Says(Body(c, ccdEnabled), l) <==>
            Says(Transport(c), l) || Says(Crypto(c), l) || Says(Pushes(c), l) || Says(Ending(c, ccdEnabled), l)
  {
    SaysAppend(Transport(c) + Crypto(c) + Pushes(c), Ending(c, ccdEnabled), l);
    SaysAppend(Transport(c) + Crypto(c), Pushes(c), l);
    SaysAppend(Transport(c), Crypto(c), l);
  }

  // ---- numbers ----

  lemma NumbersInTransport(c: Config, name: string, values: seq<int>)
    ensures Says(Transport(c), Numbers(name, values)) <==>
            || (name == "port" && values == [c.port]) || (name == "tun-mtu" && values == [c.tunMtu])
            || (c.mssFix > 0 && name == "mssfix" && values == [c.mssFix])
            || (name == "keepalive" && values == [c.keepaliveInterval, c.keepaliveTimeout])
            || (c.maxClients > 0 && name == "max-clients" && values == [c.maxClients])
  {
    var s, l := Transport(c), Numbers(name, values);
    assert l in s[2] <==> name == "port" && values == [c.port];
    assert l in s[5] <==> name == "tun-mtu" && values == [c.tunMtu];
    assert l in s[6] <==> c.mssFix > 0 && name == "mssfix" && values == [c.mssFix];
    assert l in s[7] <==> name == "keepalive" && values == [c.keepaliveInterval, c.keepaliveTimeout];
    assert l in s[10] <==> c.maxClients > 0 && name == "max-clients" && values == [c.maxClients];
  }

  /** Only the head and the end hold numbers, and only the end holds the operator's lines. */
  lemma InCrypto(c: Config, l: Line)
    requires Renderable(c) && Says(Crypto(c), l)
    ensures l.Fixed? || l.Words?
  {}

  lemma InPushes(c: Config, l: Line)
    requires Says(Pushes(c), l)
    ensures l.Fixed? || l.Words? || l.Addresses?
  {}

  lemma InTransport(c: Config, l: Line)
    requires Says(Transport(c), l)
    ensures l.Fixed? || l.Words? || l.Numbers?
  {}

  lemma InEnding(c: Config, ccdEnabled: bool, l: Line)
    requires Says(Ending(c, ccdEnabled), l)
    ensures l.Fixed? || l.Numbers? || l.Verbatim?
  {}

  lemma NumbersInEnding(c: Config, ccdEnabled: bool, name: string, values: seq<int>)
    ensures Says(Ending(c, ccdEnabled), Numbers(name, values)) <==> name == "verb" && values == [c.verb]
  {
    var s: seq<seq<Line>>, l := Ending(c, ccdEnabled), Numbers(name, values);
    assert l in s[0] <==> name == "verb" && values == [c.verb];
    assert l !in s[1] && l !in s[2] && l !in s[3] && l !in s[4];
  }

  /** Every numeric directive of server.conf, with the setting that it carries; mssfix and max-clients only when set. */
  lemma NumbersSaid(c: Config, ccdEnabled: bool, name: string, values: seq<int>)
    requires Renderable(c)
    ensures Says(Body(c, ccdEnabled), Numbers(name, values)) <==>
            || (name == "port" && values == [c.port]) || (name == "tun-mtu" && values == [c.tunMtu])
            || (c.mssFix > 0 && name == "mssfix" && values == [c.mssFix])
            || (name == "keepalive" && values == [c.keepaliveInterval, c.keepaliveTimeout])
            || (c.maxClients > 0 && name == "max-clients" && values == [c.maxClients])
            || (name == "verb" && values == [c.verb])
  {
    BodySays(c, ccdEnabled, Numbers(name, values));
    NumbersInTransport(c, name, values);
    NumbersInEnding(c, ccdEnabled, name, values);
    if Says(Crypto(c), Numbers(name, values)) { InCrypto(c, Numbers(name, values)); }
    if Says(Pushes(c), Numbers(name, values)) { InPushes(c, Numbers(name, values)); }
  }

  // ---- texts ----

  lemma WordsInTransport(c: Config, name: string, words: seq<string>)
    ensures Says(Transport(c), Words(name, words)) <==>
            name == "proto" && words == [if c.proto == "tcp" then "tcp-server" else "udp"]
  {
    assert Words(name, words) in Transport(c)[1] <==>
           name == "proto" && words == [if c.proto == "tcp" then "tcp-server" else "udp"];
  }

  lemma WordsInPushes(c: Config, name: string, words: seq<string>)
    ensures Says(Pushes(c), Words(name, words)) <==>
            name == "push" && exists i :: 0 <= i < |Elements(c.pushExtra)| && words == [Elements(c.pushExtra)[i]]
  {
    var l, pushes := Words(name, words), Pushes(c);
    assert l in pushes[3] <==> Says(pushes, l);
    if i :| 0 <= i < |Elements(c.pushExtra)| && name == "push" && words == [Elements(c.pushExtra)[i]] {
      assert pushes[3][i] == l;
    }
  }

  lemma WordsInCrypto(c: Config, name: string, words: seq<string>)
    requires Renderable(c)
    ensures Says(Crypto(c), Words(name, words)) <==>
            || (name == "data-ciphers" && words == Elements(c.dataCiphers))
            || (name == "data-ciphers-fallback" && words == [Elements(c.dataCiphers)[0]])
            || (name == "tls-version-min" && words == [c.tlsVersionMin])
            || (c.compression != "" && name == "compress" && words == [c.compression])
  {
    var s, l := Crypto(c), Words(name, words);
    assert l in s[1] <==> name == "data-ciphers" && words == Elements(c.dataCiphers);
    assert l in s[2] <==> name == "data-ciphers-fallback" && words == [Elements(c.dataCiphers)[0]];
    assert l in s[3] <==> name == "tls-version-min" && words == [c.tlsVersionMin];
    assert l in s[5] <==> c.compression != "" && name == "compress" && words == [c.compression];
  }

  /** Every directive that carries texts: the protocol (tcp is said as tcp-server), the ciphers and the first of them as
      the fallback, the TLS version, the compression if any, and the operator's own pushes. */
  lemma WordsSaid(c: Config, ccdEnabled: bool, name: string, words: seq<string>)
    requires Renderable(c)
    ensures Says(Body(c, ccdEnabled), Words(name, words)) <==>
            || (name == "proto" && words == [if c.proto == "tcp" then "tcp-server" else "udp"])
            || (name == "data-ciphers" && words == Elements(c.dataCiphers))
            || (name == "data-ciphers-fallback" && words == [Elements(c.dataCiphers)[0]])
            || (name == "tls-version-min" && words == [c.tlsVersionMin])
            || (c.compression != "" && name == "compress" && words == [c.compression])
            || (name == "push" && exists i :: 0 <= i < |Elements(c.pushExtra)| && words == [Elements(c.pushExtra)[i]])
  {
    BodySays(c, ccdEnabled, Words(name, words));
    WordsInTransport(c, name, words);
    WordsInPushes(c, name, words);
    if Says(Ending(c, ccdEnabled), Words(name, words)) { InEnding(c, ccdEnabled, Words(name, words)); }
    WordsInCrypto(c, name, words);
  }

  // ---- addresses ----

  lemma AddressesInPushes(c: Config, name: string, addresses: seq<AddrText>)
    ensures Says(Pushes(c), Addresses(name, addresses)) <==>
            || (name == "server" && addresses == [c.network, c.networkMask])
            || (name == "push dhcp-option DNS" &&
                  exists i :: 0 <= i < |Elements(c.dnsServers)| && addresses == [Elements(c.dnsServers)[i]])
  {
    var s, l := Pushes(c), Addresses(name, addresses);
    assert l in s[0] <==> name == "server" && addresses == [c.network, c.networkMask];
    var servers := Elements(c.dnsServers);
    if i :| 0 <= i < |servers| && name == "push dhcp-option DNS" && addresses == [servers[i]] { assert s[2][i] == l; }
  }

  /** Every directive that carries addresses: the tunnel network with its mask, and one push for each DNS server. */
  lemma AddressesSaid(c: Config, ccdEnabled: bool, name: string, addresses: seq<AddrText>)
    requires Renderable(c)
    ensures Says(Body(c, ccdEnabled), Addresses(name, addresses)) <==>
            || (name == "server" && addresses == [c.network, c.networkMask])
            || (name == "push dhcp-option DNS" &&
                  exists i :: 0 <= i < |Elements(c.dnsServers)| && addresses == [Elements(c.dnsServers)[i]])
  {
    BodySays(c, ccdEnabled, Addresses(name, addresses));
    AddressesInPushes(c, name, addresses);
    var l := Addresses(name, addresses);
    if Says(Transport(c), l) { InTransport(c, l); }
    if Says(Crypto(c), l) { InCrypto(c, l); }
    if Says(Ending(c, ccdEnabled), l) { InEnding(c, ccdEnabled, l); }
  }

  // ---- switches ----

  lemma SwitchesInTransport(c: Config, t: string)
    ensures Says(Transport(c), Fixed(t)) <==>
            || t in ["user nobody", "group nogroup", "mode server", "tls-server", "dev tun"]
            || t == "management 127.0.0.1 8989"
            || (c.mgmtClientAuth && t == "management-client-auth")
            || (c.passwordAuth && t in ["auth-user-pass-verify /etc/openvpn/scripts/auth.sh via-file",
                                        "auth-user-pass-optional", "script-security 2"])
            || (c.clientToClient && t == "client-to-client") || (c.duplicateCN && t == "duplicate-cn")
  {
    var s, l := Transport(c), Fixed(t);
    assert l in s[0] <==> t in ["user nobody", "group nogroup", "mode server", "tls-server", "dev tun"];
    assert l in s[2] <==> t == "management 127.0.0.1 8989";
    assert l in s[3] <==> c.mgmtClientAuth && t == "management-client-auth";
    assert l in s[4] <==> c.passwordAuth && t in ["auth-user-pass-verify /etc/openvpn/scripts/auth.sh via-file",
                                                  "auth-user-pass-optional", "script-security 2"];
    assert l in s[8] <==> c.clientToClient && t == "client-to-client";
    assert l in s[9] <==> c.duplicateCN && t == "duplicate-cn";
  }

  lemma SwitchesInCrypto(c: Config, t: string)
    requires Renderable(c)
    ensures Says(Crypto(c), Fixed(t)) <==> t in ["persist-key", "persist-tun"] || (!c.dcoEnabled && t == "disable-dco")
  {
    var s, l := Crypto(c), Fixed(t);
    assert l in s[0] <==> t in ["persist-key", "persist-tun"];
    assert l in s[4] <==> !c.dcoEnabled && t == "disable-dco";
  }

  lemma SwitchesInPushes(c: Config, t: string)
    ensures Says(Pushes(c), Fixed(t)) <==>
            || t in ["topology subnet", "push topology subnet", "push route-metric 9999"]
            || (c.redirectGateway && t == "push redirect-gateway def1")
  {
    var s, l := Pushes(c), Fixed(t);
    assert l in s[0] <==> t in ["topology subnet", "push topology subnet", "push route-metric 9999"];
    assert l in s[1] <==> c.redirectGateway && t == "push redirect-gateway def1";
  }

  lemma SwitchesInEnding(c: Config, ccdEnabled: bool, t: string)
    ensures Says(Ending(c, ccdEnabled), Fixed(t)) <==>
            || t in ["ifconfig-pool-persist /tmp/openvpn.ipp", "status /tmp/openvpn.status",
                     "ca /etc/openvpn/pki/ca.crt", "key /etc/openvpn/pki/private/server.key",
                     "cert /etc/openvpn/pki/issued/server.crt", "dh /etc/openvpn/pki/dh.pem",
                     "crl-verify /etc/openvpn/pki/crl.pem"]
            || (c.tlsAuthMode == "tls-auth" && t in ["tls-auth /etc/openvpn/pki/ta.key", "key-direction 0"])
            || (c.tlsAuthMode != "tls-auth" && t == "tls-crypt /etc/openvpn/pki/ta.key")
            || (ccdEnabled && t == "client-config-dir /etc/openvpn/ccd")
  {
    var s, l := Ending(c, ccdEnabled), Fixed(t);
    assert l in s[1] <==> t in ["ifconfig-pool-persist /tmp/openvpn.ipp", "status /tmp/openvpn.status",
                                "ca /etc/openvpn/pki/ca.crt", "key /etc/openvpn/pki/private/server.key",
                                "cert /etc/openvpn/pki/issued/server.crt", "dh /etc/openvpn/pki/dh.pem",
                                "crl-verify /etc/openvpn/pki/crl.pem"];
    assert l in s[2] <==> if c.tlsAuthMode == "tls-auth" then
                            t in ["tls-auth /etc/openvpn/pki/ta.key", "key-direction 0"]
                          else t == "tls-crypt /etc/openvpn/pki/ta.key";
    assert l in s[3] <==> ccdEnabled && t == "client-config-dir /etc/openvpn/ccd";
  }

  /** Every fixed directive: most always stand there, the switches just when they are on, one of the two key files by
      the TLS mode. */
  lemma SwitchesSaid(c: Config, ccdEnabled: bool, t: string)
    requires Renderable(c)
    ensures Says(Body(c, ccdEnabled), Fixed(t)) <==>
            || t in ["user nobody", "group nogroup", "mode server", "tls-server", "dev tun"]
            || t == "management 127.0.0.1 8989"
            || t in ["persist-key", "persist-tun", "topology subnet", "push topology subnet", "push route-metric 9999"]
            || t in ["ifconfig-pool-persist /tmp/openvpn.ipp", "status /tmp/openvpn.status",
                     "ca /etc/openvpn/pki/ca.crt", "key /etc/openvpn/pki/private/server.key",
                     "cert /etc/openvpn/pki/issued/server.crt", "dh /etc/openvpn/pki/dh.pem",
                     "crl-verify /etc/openvpn/pki/crl.pem"]
            || (c.mgmtClientAuth && t == "management-client-auth")
            || (c.passwordAuth && t in ["auth-user-pass-verify /etc/openvpn/scripts/auth.sh via-file",
                                        "auth-user-pass-optional", "script-security 2"])
            || (c.clientToClient && t == "client-to-client") || (c.duplicateCN && t == "duplicate-cn")
            || (!c.dcoEnabled && t == "disable-dco") || (c.redirectGateway && t == "push redirect-gateway def1")
            || (c.tlsAuthMode == "tls-auth" && t in ["tls-auth /etc/openvpn/pki/ta.key", "key-direction 0"])
            || (c.tlsAuthMode != "tls-auth" && t == "tls-crypt /etc/openvpn/pki/ta.key")
            || (ccdEnabled && t == "client-config-dir /etc/openvpn/ccd")
  {
    BodySays(c, ccdEnabled, Fixed(t));
    SwitchesInTransport(c, t);
    SwitchesInCrypto(c, t);
    SwitchesInPushes(c, t);
    SwitchesInEnding(c, ccdEnabled, t);
  }

  lemma VerbatimInEnding(c: Config, ccdEnabled: bool, t: string)
    ensures Says(Ending(c, ccdEnabled), Verbatim(t)) <==> t in Elements(c.customDirectives)
  {
    var s, own := Ending(c, ccdEnabled), Elements(c.customDirectives);
    assert s[4] == VerbatimLines(own);
    if i :| 0 <= i < |own| && own[i] == t { assert s[4][i] == Verbatim(t); }
  }

  /** The operator's own lines stand there as they are, and no other free text does. */
  lemma VerbatimSaid(c: Config, ccdEnabled: bool, t: string)
    requires Renderable(c)
    ensures Says(Body(c, ccdEnabled), Verbatim(t)) <==> t in Elements(c.customDirectives)
  {
    BodySays(c, ccdEnabled, Verbatim(t));
    VerbatimInEnding(c, ccdEnabled, t);
    if Says(Transport(c), Verbatim(t)) { InTransport(c, Verbatim(t)); }
    if Says(Crypto(c), Verbatim(t)) { InCrypto(c, Verbatim(t)); }
    if Says(Pushes(c), Verbatim(t)) { InPushes(c, Verbatim(t)); }
  }

  // ---- what a change asks for ----

  /** The blocks of keepalive, max-clients and verb. */
  predicate SoftBlock(i: nat) { i == 7 || i == 10 || i == 21 }

  lemma BodyAt(c: Config, ccdEnabled: bool)
    requires Renderable(c)
    ensures var s := Body(c, ccdEnabled);
            && |s| == 26 && s[..11] == Transport(c) && s[11..17] == Crypto(c) && s[17..21] == Pushes(c)
            && s[21..] == Ending(c, ccdEnabled)
  {}

  /** The numbers of the soft blocks taken from `a`. */
  function Softened(a: Config, b: Config): Config {
    b.(verb := a.verb, keepaliveInterval := a.keepaliveInterval, keepaliveTimeout := a.keepaliveTimeout,
       maxClients := a.maxClients)
  }

  lemma SoftenedTransport(a: Config, b: Config)
    ensures Transport(Softened(a, b)) == Transport(b)[7 := Transport(a)[7]][10 := Transport(a)[10]]
  {}

  lemma SoftenedRest(a: Config, b: Config, ccdEnabled: bool)
    requires Renderable(b)
    ensures var m := Softened(a, b); Renderable(m) && Crypto(m) == Crypto(b) && Pushes(m) == Pushes(b)
    ensures Ending(Softened(a, b), ccdEnabled) == Ending(b, ccdEnabled)[0 := Ending(a, ccdEnabled)[0]]
  {}

  lemma SoftenedBody(a: Config, b: Config, ccdEnabled: bool, i: nat)
    requires Renderable(a) && Renderable(b) && i < 26
    ensures |Body(a, ccdEnabled)| == |Body(b, ccdEnabled)| == |Body(Softened(a, b), ccdEnabled)| == 26
    ensures Body(Softened(a, b), ccdEnabled)[i] ==
            if SoftBlock(i) then Body(a, ccdEnabled)[i] else Body(b, ccdEnabled)[i]
  {
    var m := Softened(a, b);
    SoftenedTransport(a, b);
    SoftenedRest(a, b, ccdEnabled);
    BodyAt(a, ccdEnabled);
    BodyAt(b, ccdEnabled);
    BodyAt(m, ccdEnabled);
    var s, t, u := Body(a, ccdEnabled), Body(b, ccdEnabled), Body(m, ccdEnabled);
    if i < 11 {
      assert u[i] == u[..11][i] && t[i] == t[..11][i] && s[i] == s[..11][i];
    } else if i < 17 {
      assert u[i] == u[11..17][i - 11] && t[i] == t[11..17][i - 11];
    } else if i < 21 {
      assert u[i] == u[17..21][i - 17] && t[i] == t[17..21][i - 17];
    } else {
      assert u[i] == u[21..][i - 21] && t[i] == t[21..][i - 21] && s[i] == s[21..][i - 21];
    }
  }

  lemma SoftenedIsValid(a: Config, b: Config, w: Surroundings)
    requires Valid(a, w) && Valid(b, w) && Normalized(b)
    ensures Valid(Softened(a, b), w) && Normalized(Softened(a, b))
  {}

  lemma SoftenedChange(a: Config, b: Config)
    ensures HardChange(a, Softened(a, b)) <==> HardChange(a, b)
    ensures !SoftChange(a, Softened(a, b))
  {}

  lemma HardExactly(a: Config, b: Config, w: Surroundings, ccdEnabled: bool)
    requires Valid(a, w) && Valid(b, w) && Normalized(a) && Normalized(b)
    ensures HardChange(a, b) <==>
            Body(a, ccdEnabled) != Body(Softened(a, b), ccdEnabled) || a.exclusions != Softened(a, b).exclusions
  {
    var m := Softened(a, b);
    SoftenedIsValid(a, b, w);
    NoReloadExactly(a, m, w, ccdEnabled);
    SoftenedChange(a, b);
  }

  /** `u` takes the soft blocks from `s` and the others from `t`. */
  ghost predicate Mixes(s: seq<seq<Line>>, t: seq<seq<Line>>, u: seq<seq<Line>>) {
    |s| == |t| == |u| == 26 && forall i :: 0 <= i < 26 ==> u[i] == if SoftBlock(i) then s[i] else t[i]
  }

  ghost predicate DifferAt(s: seq<seq<Line>>, t: seq<seq<Line>>, soft: bool)
    requires |s| == |t| == 26
  {
    exists i :: 0 <= i < 26 && SoftBlock(i) == soft && s[i] != t[i]
  }

  lemma MixDecides(s: seq<seq<Line>>, t: seq<seq<Line>>, u: seq<seq<Line>>)
    requires Mixes(s, t, u)
    ensures s != u <==> DifferAt(s, t, false)
    ensures s != t <==> DifferAt(s, t, false) || DifferAt(s, t, true)
  {
    if s != u {
      var i :| 0 <= i < 26 && s[i] != u[i];
      assert !SoftBlock(i) && s[i] != t[i];
    }
    if s != t {
      var i :| 0 <= i < 26 && s[i] != t[i];
      assert SoftBlock(i) == true || SoftBlock(i) == false;
    }
  }

  lemma SoftenedMixes(a: Config, b: Config, ccdEnabled: bool)
    requires Renderable(a) && Renderable(b)
    ensures Renderable(Softened(a, b))
    ensures Mixes(Body(a, ccdEnabled), Body(b, ccdEnabled), Body(Softened(a, b), ccdEnabled))
  {
    SoftenedBody(a, b, ccdEnabled, 0);
    forall i | 0 <= i < 26
      ensures Body(Softened(a, b), ccdEnabled)[i] ==
              if SoftBlock(i) then Body(a, ccdEnabled)[i] else Body(b, ccdEnabled)[i]
    {
      SoftenedBody(a, b, ccdEnabled, i);
    }
  }

  /** A change restarts every connection exactly when it alters another block than those of keepalive, max-clients and
      verb, or the exclusions; otherwise it reloads softly exactly when it alters one of these. */
  lemma ReloadExactly(a: Config, b: Config, w: Surroundings, ccdEnabled: bool)
    requires Valid(a, w) && Valid(b, w) && Normalized(a) && Normalized(b)
    ensures var s, t := Body(a, ccdEnabled), Body(b, ccdEnabled);
            && |s| == |t| == 26
            && CategorizeChanges(a, b) ==
                 if a.exclusions != b.exclusions || DifferAt(s, t, false) then HardReload
                 else if DifferAt(s, t, true) then SoftReload else NoReload
  {
    HardExactly(a, b, w, ccdEnabled);
    NoReloadExactly(a, b, w, ccdEnabled);
    SoftenedMixes(a, b, ccdEnabled);
    MixDecides(Body(a, ccdEnabled), Body(b, ccdEnabled), Body(Softened(a, b), ccdEnabled));
  }

  // ---- accepted configurations ----

  /** The limits of the numbers: changing one number of an accepted configuration leaves it accepted exactly within
      them. */
  lemma SizeLimits(c: Config, w: Surroundings, x: int)
    requires Valid(c, w)
    ensures Valid(c.(port := x), w) <==> 1 <= x <= 65535
    ensures Valid(c.(publicPort := x), w) <==> 0 <= x <= 65535
    ensures Valid(c.(tunMtu := x), w) <==> 576 <= x <= 9000
    ensures Valid(c.(mssFix := x), w) <==> x == 0 || 100 <= x <= 9000
  {}

  lemma RateLimits(c: Config, w: Surroundings, x: int)
    requires Valid(c, w)
    ensures Valid(c.(keepaliveInterval := x), w) <==> 1 <= x <= 3600 && x < c.keepaliveTimeout
    ensures Valid(c.(keepaliveTimeout := x), w) <==> c.keepaliveInterval < x <= 86400
    ensures Valid(c.(maxClients := x), w) <==> x >= 0
    ensures Valid(c.(verb := x), w) <==> 0 <= x <= 11
  {}

  /** The choices of the texts. */
  lemma TextChoices(c: Config, w: Surroundings, t: string)
    requires Valid(c, w)
    ensures Valid(c.(proto := t), w) <==> t in ["udp", "tcp"]
    ensures Valid(c.(publicProto := t), w) <==> t in ["", "udp", "tcp"]
    ensures Valid(c.(tlsVersionMin := t), w) <==> t in ["1.2", "1.3"]
  {}

  lemma SecurityChoices(c: Config, w: Surroundings, t: string)
    requires Valid(c, w)
    ensures Valid(c.(tlsAuthMode := t), w) <==> t in ["tls-auth", "tls-crypt"]
    ensures Valid(c.(compression := t), w) <==> t in ["", "lz4-v2", "lzo"]
    ensures Valid(c.(publicHostname := t), w) <==> t == "" || w.hostnameOk(t)
  {}

  /** Traffic between clients excludes the firewall, which it would bypass; password checks exclude Kubernetes. */
  lemma SwitchLimits(c: Config, w: Surroundings)
    requires Valid(c, w)
    ensures Valid(c.(clientToClient := true), w) <==> !w.firewall
    ensures Valid(c.(passwordAuth := true), w) <==> !w.kubernetes
  {}

  /** The lists: every cipher a supported one and at least one of them, every DNS server an address, every line and
      every push a permitted directive, every exclusion an accepted one. */
  lemma ListLimits(c: Config, w: Surroundings, texts: seq<string>, servers: seq<AddrText>,
                   exclusions: seq<CcdMerge.Subnet>)
    requires Valid(c, w)
    ensures Valid(c.(dataCiphers := Items(texts)), w) <==>
            texts != [] && forall x :: x in texts ==>
              x in ["AES-256-GCM", "AES-128-GCM", "CHACHA20-POLY1305", "AES-256-CBC", "AES-128-CBC"]
    ensures Valid(c.(customDirectives := Items(texts)), w) <==> forall x :: x in texts ==> w.directiveOk(x)
    ensures Valid(c.(pushExtra := Items(texts)), w) <==> forall x :: x in texts ==> w.directiveOk(x)
    ensures Valid(c.(dnsServers := Items(servers)), w) <==> forall x :: x in servers ==> !x.NotAnAddress?
    ensures Valid(c.(exclusions := Items(exclusions)), w) <==> forall x :: x in exclusions ==> CcdRoundTrip.SubnetOk(x)
  {}

  /** The defaults of the program, without its list of exclusions. */
  function Defaults(firewall: bool): Config {
    Config("tcp", 1194, Dotted(0xAC10_6400), Dotted(0xFFFF_FF00), 1500, 1450,
           Items(["AES-256-GCM", "AES-128-GCM", "CHACHA20-POLY1305"]), "1.2", "tls-auth", false, false, false, 10, 60,
           0, !firewall, true, "", 3, false, Items([Dotted(0x0101_0101), Dotted(0x0808_0808)]), Items([]), Items([]),
           Items([]), "", 0, "", 24, "", "", false)
  }

  lemma DefaultNetworkAccepted()
    ensures ValidateNetworkMask(Dotted(0xAC10_6400), Dotted(0xFFFF_FF00)) == Ok(24)
  {
    assert Pow2(8) == 256;
    ValidateExact(Dotted(0xAC10_6400), Dotted(0xFFFF_FF00), 24);
  }

  /** The defaults are accepted, with the firewall on or off. */
  lemma DefaultsAreAccepted(w: Surroundings)
    ensures Valid(Defaults(w.firewall), w)
  {
    DefaultNetworkAccepted();
    var c := Defaults(w.firewall);
    assert NumbersOk(c) && TextsOk(c, w);
    assert CiphersOk(["AES-256-GCM", "AES-128-GCM", "CHACHA20-POLY1305"]);
    assert ListsOk([Dotted(0x0101_0101), Dotted(0x0808_0808)], [], [], [], w);
  }
}
