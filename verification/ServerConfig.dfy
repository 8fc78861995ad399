/** The server configuration and its commit protocol: a JSON source of truth, a copy in memory, and a server.conf
    that is rendered from it. */
module ServerConfig {
  import opened Wrappers
  import opened Text
  import opened Ipv4
  import CcdMerge
  import CcdRoundTrip

  /** A list as it is decoded: a missing one is not the same value as an empty one. */
  datatype List<+T> = NilList | Items(items: seq<T>)

  function Elements<T>(l: List<T>): seq<T> {
    if l.NilList? then [] else l.items
  }

  function NonNil<T>(l: List<T>): List<T> { Items(Elements(l)) }

  datatype Config = Config(
    proto: string, port: int, network: AddrText, networkMask: AddrText, tunMtu: int, mssFix: int,
    dataCiphers: List<string>, tlsVersionMin: string, tlsAuthMode: string, dcoEnabled: bool,
    mgmtClientAuth: bool, passwordAuth: bool, keepaliveInterval: int, keepaliveTimeout: int, maxClients: int,
    clientToClient: bool, duplicateCN: bool, compression: string, verb: int, redirectGateway: bool,
    dnsServers: List<AddrText>, pushExtra: List<string>, exclusions: List<CcdMerge.Subnet>,
        customDirectives: List<string>,
    publicHostname: string, publicPort: int, publicProto: string, domainRefreshIntervalHours: int,
    updatedAt: string, updatedBy: string, initialized: bool)

  function Normalize(c: Config): Config {
    c.(dataCiphers := NonNil(c.dataCiphers), dnsServers := NonNil(c.dnsServers), pushExtra := NonNil(c.pushExtra),
       exclusions := NonNil(c.exclusions), customDirectives := NonNil(c.customDirectives))
  }

  predicate Normalized(c: Config) { Normalize(c) == c }

  // ---- validation ----

  /** What validation asks of the surroundings: the firewall is on, the Kubernetes backend is in use, and the two checks
      of free text (the public hostname, one directive line against the whitelist). */
  datatype Surroundings = Surroundings(firewall: bool, kubernetes: bool, hostnameOk: string -> bool,
                                       directiveOk: string -> bool)

  predicate InRange(x: int, lo: int, hi: int) { lo <= x <= hi }

  predicate NumbersOk(c: Config) {
    && InRange(c.port, 1, 65535) && (c.publicPort == 0 || InRange(c.publicPort, 1, 65535))
    && InRange(c.tunMtu, 576, 9000) && (c.mssFix == 0 || InRange(c.mssFix, 100, 9000))
    && InRange(c.keepaliveInterval, 1, 3600)
    && c.keepaliveTimeout > c.keepaliveInterval && c.keepaliveTimeout <= 86400
    && c.maxClients >= 0 && InRange(c.verb, 0, 11)
  }

  predicate TextsOk(c: Config, w: Surroundings) {
    && (c.proto == "udp" || c.proto == "tcp")
    && (c.publicProto == "" || c.publicProto == "udp" || c.publicProto == "tcp")
    && (c.publicHostname == "" || w.hostnameOk(c.publicHostname))
    && (c.tlsVersionMin == "1.2" || c.tlsVersionMin == "1.3")
    && (c.tlsAuthMode == "tls-auth" || c.tlsAuthMode == "tls-crypt")
    && (c.compression == "" || c.compression == "lz4-v2" || c.compression == "lzo")
  }

  predicate CiphersOk(ciphers: seq<string>) {
    && ciphers != []
    && forall x :: x in ciphers ==>
         x in ["AES-256-GCM", "AES-128-GCM", "CHACHA20-POLY1305", "AES-256-CBC", "AES-128-CBC"]
  }

  predicate ListsOk(servers: seq<AddrText>, directives: seq<string>, pushes: seq<string>,
                    exclusions: seq<CcdMerge.Subnet>, w: Surroundings) {
    && (forall x :: x in servers ==> !x.NotAnAddress?)
    && (forall x :: x in directives ==> w.directiveOk(x))
    && (forall x :: x in pushes ==> w.directiveOk(x))
    && (forall x :: x in exclusions ==> CcdRoundTrip.SubnetOk(x))
  }

  predicate Valid(c: Config, w: Surroundings) {
    && NumbersOk(c) && TextsOk(c, w) && ValidateNetworkMask(c.network, c.networkMask).Ok?
    && CiphersOk(Elements(c.dataCiphers))
    && ListsOk(Elements(c.dnsServers), Elements(c.customDirectives), Elements(c.pushExtra), Elements(c.exclusions), w)
    && !(w.firewall && c.clientToClient) && !(w.kubernetes && c.passwordAuth)
  }

  // ---- rendering ----

  /** A directive: fixed text, a name with numbers, with texts, or with addresses. */
  datatype Line = Fixed(text: string) | Numbers(name: string, values: seq<int>)
    | Words(name: string, words: seq<string>)
                | Addresses(name: string, addresses: seq<AddrText>) | Verbatim(text: string)

  /** server.conf: the comment with the time, then the blocks of the template in order; an optional block is empty. */
  datatype Conf = Conf(generatedAt: string, blocks: seq<seq<Line>>)

  function When(b: bool, lines: seq<Line>): seq<Line> {
    if b then lines else []
  }

  function DnsLines(servers: seq<AddrText>): seq<Line> {
    seq(|servers|, i requires 0 <= i < |servers| => Addresses("push dhcp-option DNS", [servers[i]]))
  }

  function PushLines(lines: seq<string>): seq<Line> {
    seq(|lines|, i requires 0 <= i < |lines| => Words("push", [lines[i]]))
  }

  function VerbatimLines(lines: seq<string>): seq<Line> {
    seq(|lines|, i requires 0 <= i < |lines| => Verbatim(lines[i]))
  }

  function Transport(c: Config): seq<seq<Line>> {
    [[Fixed("user nobody"), Fixed("group nogroup"), Fixed("mode server"), Fixed("tls-server"), Fixed("dev tun")],
     [Words("proto", [if c.proto == "tcp" then "tcp-server" else "udp"])],
     [Numbers("port", [c.port]), Fixed("management 127.0.0.1 8989")],
     When(c.mgmtClientAuth, [Fixed("management-client-auth")]),
     When(c.passwordAuth, [Fixed("auth-user-pass-verify /etc/openvpn/scripts/auth.sh via-file"),
                           Fixed("auth-user-pass-optional"), Fixed("script-security 2")]),
     [Numbers("tun-mtu", [c.tunMtu])],
     When(c.mssFix > 0, [Numbers("mssfix", [c.mssFix])]),
     [Numbers("keepalive", [c.keepaliveInterval, c.keepaliveTimeout])],
     When(c.clientToClient, [Fixed("client-to-client")]),
     When(c.duplicateCN, [Fixed("duplicate-cn")]),
     When(c.maxClients > 0, [Numbers("max-clients", [c.maxClients])])]
  }

  function Crypto(c: Config): seq<seq<Line>>
    requires Elements(c.dataCiphers) != []
  {
    [[Fixed("persist-key"), Fixed("persist-tun")],
     [Words("data-ciphers", Elements(c.dataCiphers))],
     [Words("data-ciphers-fallback", [Elements(c.dataCiphers)[0]])],
     [Words("tls-version-min", [c.tlsVersionMin])],
     When(!c.dcoEnabled, [Fixed("disable-dco")]),
     When(c.compression != "", [Words("compress", [c.compression])])]
  }

  function Pushes(c: Config): seq<seq<Line>> {
    [[Addresses("server", [c.network, c.networkMask]), Fixed("topology subnet"), Fixed("push topology subnet"),
      Fixed("push route-metric 9999")],
     When(c.redirectGateway, [Fixed("push redirect-gateway def1")]),
     DnsLines(Elements(c.dnsServers)),
     PushLines(Elements(c.pushExtra))]
  }

  function Ending(c: Config, ccdEnabled: bool): seq<seq<Line>> {
    [[Numbers("verb", [c.verb])],
     [Fixed("ifconfig-pool-persist /tmp/openvpn.ipp"), Fixed("status /tmp/openvpn.status"),
         Fixed("ca /etc/openvpn/pki/ca.crt"),
      Fixed("key /etc/openvpn/pki/private/server.key"), Fixed("cert /etc/openvpn/pki/issued/server.crt"),
      Fixed("dh /etc/openvpn/pki/dh.pem"), Fixed("crl-verify /etc/openvpn/pki/crl.pem")],
     if c.tlsAuthMode == "tls-auth" then [Fixed("tls-auth /etc/openvpn/pki/ta.key"), Fixed("key-direction 0")]
     else [Fixed("tls-crypt /etc/openvpn/pki/ta.key")],
     When(ccdEnabled, [Fixed("client-config-dir /etc/openvpn/ccd")]),
     VerbatimLines(Elements(c.customDirectives))]
  }

  function Body(c: Config, ccdEnabled: bool): seq<seq<Line>>
    requires Elements(c.dataCiphers) != []
  {
    Transport(c) + Crypto(c) + Pushes(c) + Ending(c, ccdEnabled)
  }

  /** Rendering fails without a cipher: the template indexes the first one. */
  function Render(c: Config, ccdEnabled: bool): Option<Conf> {
    if Elements(c.dataCiphers) == [] then None else Some(Conf(c.updatedAt, Body(c, ccdEnabled)))
  }

  // ---- change categories ----

  datatype Kind = NoReload | SoftReload | HardReload

  predicate HardChange(a: Config, b: Config) {
    || a.proto != b.proto || a.port != b.port || a.tunMtu != b.tunMtu || a.mssFix != b.mssFix
    || a.dataCiphers != b.dataCiphers || a.tlsVersionMin != b.tlsVersionMin || a.tlsAuthMode != b.tlsAuthMode
    || a.dcoEnabled != b.dcoEnabled || a.mgmtClientAuth != b.mgmtClientAuth || a.passwordAuth != b.passwordAuth
    || a.redirectGateway != b.redirectGateway || a.exclusions != b.exclusions || a.dnsServers != b.dnsServers
    || a.pushExtra != b.pushExtra || a.customDirectives != b.customDirectives || a.compression != b.compression
    || a.clientToClient != b.clientToClient || a.duplicateCN != b.duplicateCN || a.network != b.network
    || a.networkMask != b.networkMask
  }

  predicate SoftChange(a: Config, b: Config) {
    a.verb != b.verb || a.keepaliveInterval != b.keepaliveInterval || a.keepaliveTimeout != b.keepaliveTimeout
    || a.maxClients != b.maxClients
  }

  function CategorizeChanges(a: Config, b: Config): Kind {
    if HardChange(a, b) then HardReload else if SoftChange(a, b) then SoftReload else NoReload
  }

  lemma DnsLinesInjective(xs: seq<AddrText>, ys: seq<AddrText>)
    ensures DnsLines(xs) == DnsLines(ys) ==> xs == ys
  {
    if DnsLines(xs) == DnsLines(ys) {
      assert |xs| == |DnsLines(xs)| == |DnsLines(ys)| == |ys|;
      forall i | 0 <= i < |xs| ensures xs[i] == ys[i] {
        assert DnsLines(xs)[i].addresses[0] == DnsLines(ys)[i].addresses[0];
      }
    }
  }

  lemma PushLinesInjective(xs: seq<string>, ys: seq<string>)
    ensures PushLines(xs) == PushLines(ys) ==> xs == ys
  {
    if PushLines(xs) == PushLines(ys) {
      assert |xs| == |PushLines(xs)| == |PushLines(ys)| == |ys|;
      forall i | 0 <= i < |xs| ensures xs[i] == ys[i] { assert PushLines(xs)[i].words[0] == PushLines(ys)[i].words[0]; }
    }
  }

  lemma VerbatimLinesInjective(xs: seq<string>, ys: seq<string>)
    ensures VerbatimLines(xs) == VerbatimLines(ys) ==> xs == ys
  {
    if VerbatimLines(xs) == VerbatimLines(ys) {
      assert |xs| == |VerbatimLines(xs)| == |VerbatimLines(ys)| == |ys|;
      forall i | 0 <= i < |xs| ensures xs[i] == ys[i] { assert VerbatimLines(xs)[i].text == VerbatimLines(ys)[i].text; }
    }
  }

  lemma TransportReads(a: Config, b: Config, w: Surroundings)
    requires Valid(a, w) && Valid(b, w)
    ensures Transport(a) == Transport(b) <==>
            && a.proto == b.proto && a.port == b.port && a.mgmtClientAuth == b.mgmtClientAuth &&
                 a.passwordAuth == b.passwordAuth
            && a.tunMtu == b.tunMtu && a.mssFix == b.mssFix && a.keepaliveInterval == b.keepaliveInterval
            && a.keepaliveTimeout == b.keepaliveTimeout && a.clientToClient == b.clientToClient
            && a.duplicateCN == b.duplicateCN && a.maxClients == b.maxClients
  {
    var s: seq<seq<Line>>, t: seq<seq<Line>> := Transport(a), Transport(b);
    if s == t {
      assert s[1][0].words[0] == t[1][0].words[0] && s[2][0].values[0] == t[2][0].values[0];
      assert |s[3]| == |t[3]| && |s[4]| == |t[4]| && |s[6]| == |t[6]| && |s[8]| == |t[8]| && |s[9]| == |t[9]| &&
          |s[10]| == |t[10]|;
      assert s[5][0].values[0] == t[5][0].values[0];
      assert s[7][0].values[0] == t[7][0].values[0] && s[7][0].values[1] == t[7][0].values[1];
      if a.mssFix > 0 { assert s[6][0].values[0] == t[6][0].values[0]; }
      if a.maxClients > 0 { assert s[10][0].values[0] == t[10][0].values[0]; }
    }
  }

  lemma CryptoReads(a: Config, b: Config, w: Surroundings)
    requires Valid(a, w) && Valid(b, w)
    ensures Crypto(a) == Crypto(b) <==>
            && Elements(a.dataCiphers) == Elements(b.dataCiphers) && a.tlsVersionMin == b.tlsVersionMin
            && a.dcoEnabled == b.dcoEnabled && a.compression == b.compression
  {
    var s: seq<seq<Line>>, t: seq<seq<Line>> := Crypto(a), Crypto(b);
    if s == t {
      assert s[1][0].words == t[1][0].words && s[3][0].words[0] == t[3][0].words[0];
      assert |s[4]| == |t[4]| && |s[5]| == |t[5]|;
      if a.compression != "" { assert s[5][0].words[0] == t[5][0].words[0]; }
    }
  }

  lemma PushesRead(a: Config, b: Config)
    ensures Pushes(a) == Pushes(b) <==>
            && a.network == b.network && a.networkMask == b.networkMask && a.redirectGateway == b.redirectGateway
            && Elements(a.dnsServers) == Elements(b.dnsServers) && Elements(a.pushExtra) == Elements(b.pushExtra)
  {
    var s: seq<seq<Line>>, t: seq<seq<Line>> := Pushes(a), Pushes(b);
    if s == t {
      assert s[0][0].addresses[0] == t[0][0].addresses[0] && s[0][0].addresses[1] == t[0][0].addresses[1];
      assert |s[1]| == |t[1]| && s[2] == t[2] && s[3] == t[3];
      DnsLinesInjective(Elements(a.dnsServers), Elements(b.dnsServers));
      PushLinesInjective(Elements(a.pushExtra), Elements(b.pushExtra));
    }
  }

  lemma EndingReads(a: Config, b: Config, w: Surroundings, ccdEnabled: bool)
    requires Valid(a, w) && Valid(b, w)
    ensures Ending(a, ccdEnabled) == Ending(b, ccdEnabled) <==>
            && a.verb == b.verb && a.tlsAuthMode == b.tlsAuthMode &&
                 Elements(a.customDirectives) == Elements(b.customDirectives)
  {
    var s: seq<seq<Line>>, t: seq<seq<Line>> := Ending(a, ccdEnabled), Ending(b, ccdEnabled);
    if s == t {
      assert s[0][0].values[0] == t[0][0].values[0] && |s[2]| == |t[2]| && s[4] == t[4];
      VerbatimLinesInjective(Elements(a.customDirectives), Elements(b.customDirectives));
    }
  }

  lemma BodySplits(a: Config, b: Config, ccdEnabled: bool)
    requires Elements(a.dataCiphers) != [] && Elements(b.dataCiphers) != []
    ensures Body(a, ccdEnabled) == Body(b, ccdEnabled) <==>
            Transport(a) == Transport(b) && Crypto(a) == Crypto(b) && Pushes(a) == Pushes(b)
            && Ending(a, ccdEnabled) == Ending(b, ccdEnabled)
  {
    var s: seq<seq<Line>>, t: seq<seq<Line>> := Body(a, ccdEnabled), Body(b, ccdEnabled);
    assert s[..11] == Transport(a) && s[11..17] == Crypto(a) && s[17..21] == Pushes(a) &&
        s[21..] == Ending(a, ccdEnabled);
    assert t[..11] == Transport(b) && t[11..17] == Crypto(b) && t[17..21] == Pushes(b) &&
        t[21..] == Ending(b, ccdEnabled);
  }

  /** A change needs no reload exactly when it leaves every rendered block and the exclusions as they are (a missing
      list counting as different from an empty one). */
  lemma NoReloadExactly(a: Config, b: Config, w: Surroundings, ccdEnabled: bool)
    requires Valid(a, w) && Valid(b, w) && Normalized(a) && Normalized(b)
    ensures CategorizeChanges(a, b) == NoReload <==>
        Body(a, ccdEnabled) == Body(b, ccdEnabled) && a.exclusions == b.exclusions
  {
    BodySplits(a, b, ccdEnabled);
    TransportReads(a, b, w);
    CryptoReads(a, b, w);
    PushesRead(a, b);
    EndingReads(a, b, w, ccdEnabled);
  }

  lemma SameTransport(a: Config, b: Config)
    requires CategorizeChanges(a, b) == NoReload
    ensures Transport(a) == Transport(b) && Pushes(a) == Pushes(b)
  {}

  lemma SameCrypto(a: Config, b: Config, ccdEnabled: bool)
    requires CategorizeChanges(a, b) == NoReload && Elements(a.dataCiphers) != []
    ensures Elements(b.dataCiphers) != [] && Crypto(a) == Crypto(b) && Ending(a, ccdEnabled) == Ending(b, ccdEnabled)
  {}

  /** A change without a reload never touches what the template reads, normalised or not. */
  lemma NoReloadSameBody(a: Config, b: Config, ccdEnabled: bool)
    requires CategorizeChanges(a, b) == NoReload && Elements(a.dataCiphers) != []
    ensures Elements(b.dataCiphers) != [] && Body(a, ccdEnabled) == Body(b, ccdEnabled)
  {
    SameTransport(a, b);
    SameCrypto(a, b, ccdEnabled);
  }

  lemma NormalizedSameBody(c: Config, ccdEnabled: bool)
    requires Elements(c.dataCiphers) != []
    ensures Elements(Normalize(c).dataCiphers) != [] && Body(Normalize(c), ccdEnabled) == Body(c, ccdEnabled)
  {
    NormalizedSameCrypto(c, ccdEnabled);
    NormalizedSamePushes(c);
  }

  lemma NormalizedSameCrypto(c: Config, ccdEnabled: bool)
    requires Elements(c.dataCiphers) != []
    ensures Elements(Normalize(c).dataCiphers) == Elements(c.dataCiphers) && Crypto(Normalize(c)) == Crypto(c)
    ensures Ending(Normalize(c), ccdEnabled) == Ending(c, ccdEnabled)
  {}

  lemma NormalizedSamePushes(c: Config)
    ensures Transport(Normalize(c)) == Transport(c) && Pushes(Normalize(c)) == Pushes(c)
  {}

  // ---- the commit protocol ----

  predicate Renderable(c: Config) { Elements(c.dataCiphers) != [] }

  /** The saved JSON (None before the first save), the copy in memory and the rendered file. */
  datatype State = State(json: Option<Config>, memory: Config, conf: Option<Conf>)

  /** Which writes succeed, and the bookkeeping of a save. */
  datatype Env = Env(persisted: bool, written: bool, rolledBack: bool, at: string, who: string)

  datatype Outcome = Rejected | Failed | Applied(kind: Kind)

  predicate SameIgnoringBookkeeping(a: Config, b: Config) {
    a.(updatedAt := "", updatedBy := "", initialized := false) ==
        b.(updatedAt := "", updatedBy := "", initialized := false)
  }

  /** What a save decides before it writes anything. */
  datatype Plan = Refuse | Nothing | SaveOnly(next: Config) | SaveAndRender(kind: Kind, next: Config, rendered: Conf)

  function Booked(c: Config, initialized: bool, at: string, who: string): Config {
    c.(initialized := initialized, updatedAt := at, updatedBy := who)
  }

  function PlanValid(memory: Config, c: Config, at: string, who: string, ccdEnabled: bool): Plan
    requires Renderable(c)
  {
    var kind := CategorizeChanges(memory, c);
    if kind == NoReload then
      var wantInitialized := c.initialized || memory.initialized;
      if SameIgnoringBookkeeping(memory, c) && memory.initialized == wantInitialized then Nothing
      else SaveOnly(Normalize(Booked(c, wantInitialized, at, who)))
    else
      var next := Booked(c, c.initialized, at, who);
      SaveAndRender(kind, Normalize(next), Conf(at, Body(next, ccdEnabled)))
  }

  function PlanFor(memory: Config, c: Config, at: string, who: string, w: Surroundings, ccdEnabled: bool): Plan {
    if !Valid(c, w) then Refuse else PlanValid(memory, c, at, who, ccdEnabled)
  }

  function Execute(s: State, plan: Plan, env: Env): State {
    match plan
    case Refuse => s
    case Nothing => s
    case SaveOnly(next) => if env.persisted then s.(json := Some(next), memory := next) else s
    case SaveAndRender(_, next, rendered) =>
      if !env.persisted then s
      else if env.written then State(Some(next), next, Some(rendered))
      else s.(json := if env.rolledBack then Some(s.memory) else Some(next))
  }

  function OutcomeOf(plan: Plan, env: Env): Outcome {
    match plan
    case Refuse => Rejected
    case Nothing => Applied(NoReload)
    case SaveOnly(_) => if env.persisted then Applied(NoReload) else Failed
    case SaveAndRender(kind, _, _) => if env.persisted && env.written then Applied(kind) else Failed
  }

  /** The writes that a plan attempts, with their outcomes. */
  function Writes(plan: Plan, env: Env): seq<bool> {
    match plan
    case Refuse => []
    case Nothing => []
    case SaveOnly(_) => [env.persisted]
    case SaveAndRender(_, _, _) =>
      if !env.persisted then [false] else if env.written then [true, true] else [true, false, env.rolledBack]
  }

  class Manager {
    const world: Surroundings
    const ccdEnabled: bool
    var json: Option<Config>
    var memory: Config
    var conf: Option<Conf>
    /** The outcome of every file write so far. */
    ghost var writes: seq<bool>

    function View(): State
      reads this
    {
      State(json, memory, conf)
    }

    /** A first start renders the defaults. */
    constructor (w: Surroundings, ccd: bool, initial: Config)
      ensures world == w && ccdEnabled == ccd && View() == State(None, initial, Render(initial, ccd))
    {
      world, ccdEnabled, json, memory := w, ccd, None, initial;
      conf, writes := Render(initial, ccd), [];
    }

    /** Both files are replaced by renaming: a failed write leaves the old file. */
    method Persist(c: Config) returns (ok: bool)
      modifies this`json, this`writes
      ensures json == (if ok then Some(c) else old(json)) && writes == old(writes) + [ok]
    {
      ok := *;
      writes := writes + [ok];
      if ok { json := Some(c); }
    }

    method WriteConf(rendered: Conf) returns (ok: bool)
      modifies this`conf, this`writes
      ensures conf == (if ok then Some(rendered) else old(conf)) && writes == old(writes) + [ok]
    {
      ok := *;
      writes := writes + [ok];
      if ok { conf := Some(rendered); }
    }

    method Plan(c: Config, at: string, who: string) returns (plan: Plan)
      ensures plan == PlanFor(memory, c, at, who, world, ccdEnabled)
    {
      if !Valid(c, world) { return Refuse; }
      var kind := CategorizeChanges(memory, c);
      if kind == NoReload {
        var wantInitialized := c.initialized || memory.initialized;
        if SameIgnoringBookkeeping(memory, c) && memory.initialized == wantInitialized { return Nothing; }
        return SaveOnly(Normalize(Booked(c, wantInitialized, at, who)));
      }
      var next := Booked(c, c.initialized, at, who);
      return SaveAndRender(kind, Normalize(next), Conf(at, Body(next, ccdEnabled)));
    }

    /** Persist first, then server.conf, then memory; a failed server.conf rolls the JSON back. */
    method Commit(plan: Plan, at: string, who: string) returns (outcome: Outcome, ghost env: Env)
      modifies this
      ensures env == Env(env.persisted, env.written, env.rolledBack, at, who)
      ensures View() == Execute(old(View()), plan, env) && outcome == OutcomeOf(plan, env)
      ensures writes == old(writes) + Writes(plan, env)
    {
      env := Env(true, true, true, at, who);
      match plan
      case Refuse => return Rejected, env;
      case Nothing => return Applied(NoReload), env;
      case SaveOnly(next) =>
        var persisted := Persist(next);
        env := env.(persisted := persisted);
        if !persisted { return Failed, env; }
        memory := next;
        return Applied(NoReload), env;
      case SaveAndRender(kind, next, rendered) =>
        var persisted := Persist(next);
        env := env.(persisted := persisted);
        if !persisted { return Failed, env; }
        var written := WriteConf(rendered);
        env := env.(written := written);
        if !written {
          var rolledBack := Persist(memory);
          env := env.(rolledBack := rolledBack);
          return Failed, env;
        }
        memory := next;
        return Applied(kind), env;
    }

    /** One save. */
    method Apply(c: Config, at: string, who: string) returns (outcome: Outcome, ghost env: Env)
      modifies this
      ensures env == Env(env.persisted, env.written, env.rolledBack, at, who)
      ensures var plan := PlanFor(old(memory), c, at, who, world, ccdEnabled);
              View() == Execute(old(View()), plan, env) && outcome == OutcomeOf(plan, env)
              && writes == old(writes) + Writes(plan, env)
    {
      var plan := Plan(c, at, who);
      outcome, env := Commit(plan, at, who);
    }
  }

  // ---- what every run keeps ----

  /** The saved JSON is the configuration in memory, and server.conf is its render up to the time in the comment. */
  predicate Consistent(s: State, ccdEnabled: bool) {
    && Renderable(s.memory) && (s.json.Some? ==> s.json.value == s.memory)
    && s.conf.Some? && s.conf.value.blocks == Body(s.memory, ccdEnabled)
  }

  /** The one way to lose agreement: server.conf could not be written and neither could the old JSON. */
  predicate Stuck(s: State, plan: Plan, env: Env) {
    plan.SaveAndRender? && env.persisted && !env.written && !env.rolledBack && plan.next != s.memory
  }

  /** What a plan stores is rendered, or renders as before. */
  predicate Faithful(plan: Plan, memory: Config, ccdEnabled: bool)
    requires Renderable(memory)
  {
    match plan
    case SaveOnly(next) => Renderable(next) && Body(next, ccdEnabled) == Body(memory, ccdEnabled)
    case SaveAndRender(_, next, rendered) => Renderable(next) && rendered.blocks == Body(next, ccdEnabled)
    case _ => true
  }

  lemma BookedSameBody(c: Config, initialized: bool, at: string, who: string, ccdEnabled: bool)
    requires Renderable(c)
    ensures Renderable(Normalize(Booked(c, initialized, at, who)))
    ensures Body(Normalize(Booked(c, initialized, at, who)), ccdEnabled) ==
        Body(Booked(c, initialized, at, who), ccdEnabled)
  {
    NormalizedSameBody(Booked(c, initialized, at, who), ccdEnabled);
  }

  lemma BookedNoReload(memory: Config, c: Config, initialized: bool, at: string, who: string)
    ensures CategorizeChanges(memory, Booked(c, initialized, at, who)) == CategorizeChanges(memory, c)
  {}

  lemma PlanValidIsFaithful(memory: Config, c: Config, at: string, who: string, ccdEnabled: bool)
    requires Renderable(memory) && Renderable(c)
    ensures Faithful(PlanValid(memory, c, at, who, ccdEnabled), memory, ccdEnabled)
  {
    var both := c.initialized || memory.initialized;
    BookedNoReload(memory, c, both, at, who);
    BookedSameBody(c, both, at, who, ccdEnabled);
    BookedSameBody(c, c.initialized, at, who, ccdEnabled);
    if CategorizeChanges(memory, c) == NoReload { NoReloadSameBody(memory, Booked(c, both, at, who), ccdEnabled); }
  }

  lemma PlanIsFaithful(memory: Config, c: Config, at: string, who: string, w: Surroundings, ccdEnabled: bool)
    requires Renderable(memory)
    ensures Faithful(PlanFor(memory, c, at, who, w, ccdEnabled), memory, ccdEnabled)
  {
    if Valid(c, w) { PlanValidIsFaithful(memory, c, at, who, ccdEnabled); }
  }

  lemma ExecuteKeepsConsistentExactly(s: State, plan: Plan, env: Env, ccdEnabled: bool)
    requires Consistent(s, ccdEnabled) && Faithful(plan, s.memory, ccdEnabled)
    ensures Consistent(Execute(s, plan, env), ccdEnabled) <==> !Stuck(s, plan, env)
  {}

  /** A save keeps the three copies in agreement exactly when it is not the failing write with the failing rollback. */
  lemma SaveKeepsConsistentExactly(s: State, c: Config, env: Env, w: Surroundings, ccdEnabled: bool)
    requires Consistent(s, ccdEnabled)
    ensures var plan := PlanFor(s.memory, c, env.at, env.who, w, ccdEnabled);
            Consistent(Execute(s, plan, env), ccdEnabled) <==> !Stuck(s, plan, env)
  {
    PlanIsFaithful(s.memory, c, env.at, env.who, w, ccdEnabled);
    ExecuteKeepsConsistentExactly(s, PlanFor(s.memory, c, env.at, env.who, w, ccdEnabled), env, ccdEnabled);
  }

  lemma BookedSame(c: Config, initialized: bool, at: string, who: string)
    ensures SameIgnoringBookkeeping(Normalize(Booked(c, initialized, at, who)), Normalize(c))
  {}

  lemma PlanValidCarries(memory: Config, c: Config, at: string, who: string, ccdEnabled: bool)
    requires Renderable(c)
    ensures match PlanValid(memory, c, at, who, ccdEnabled)
            case Refuse => false
            case Nothing => SameIgnoringBookkeeping(memory, c)
            case SaveOnly(next) => SameIgnoringBookkeeping(next, Normalize(c))
            case SaveAndRender(_, next, _) => SameIgnoringBookkeeping(next, Normalize(c))
  {
    BookedSame(c, c.initialized || memory.initialized, at, who);
    BookedSame(c, c.initialized, at, who);
  }

  lemma PlanCarries(memory: Config, c: Config, at: string, who: string, w: Surroundings, ccdEnabled: bool)
    ensures match PlanFor(memory, c, at, who, w, ccdEnabled)
            case Refuse => !Valid(c, w)
            case Nothing => SameIgnoringBookkeeping(memory, c)
            case SaveOnly(next) => SameIgnoringBookkeeping(next, Normalize(c))
            case SaveAndRender(_, next, _) => SameIgnoringBookkeeping(next, Normalize(c))
  {
    if Valid(c, w) { PlanValidCarries(memory, c, at, who, ccdEnabled); }
  }

  /** A save that is refused or fails leaves what is in effect alone; one that succeeds puts its own choice in
      effect. */
  lemma OutcomeTellsTheTruth(s: State, c: Config, env: Env, w: Surroundings, ccdEnabled: bool)
    requires Normalized(s.memory)
    ensures var plan := PlanFor(s.memory, c, env.at, env.who, w, ccdEnabled);
            var t := Execute(s, plan, env);
            match OutcomeOf(plan, env)
            case Rejected => t == s
            case Failed => t.memory == s.memory && t.conf == s.conf
            case Applied(_) => SameIgnoringBookkeeping(t.memory, Normalize(c))
  {
    PlanCarries(s.memory, c, env.at, env.who, w, ccdEnabled);
    var plan := PlanFor(s.memory, c, env.at, env.who, w, ccdEnabled);
    if plan.Nothing? { SameNormalizes(s.memory, c); }
  }

  lemma SameNormalizes(a: Config, b: Config)
    requires Normalized(a) && SameIgnoringBookkeeping(a, b)
    ensures SameIgnoringBookkeeping(a, Normalize(b))
  {}

  lemma FailsExactly(plan: Plan, env: Env)
    ensures OutcomeOf(plan, env) == Failed <==> false in Writes(plan, env)
  {
    if plan.SaveAndRender? && env.persisted && !env.written { assert Writes(plan, env)[1] == false; }
    if plan.SaveOnly? || (plan.SaveAndRender? && !env.persisted) { assert Writes(plan, env)[0] == env.persisted; }
  }

  lemma PlannedKind(memory: Config, c: Config, at: string, who: string, ccdEnabled: bool)
    requires Renderable(c)
    ensures match PlanValid(memory, c, at, who, ccdEnabled)
            case Refuse => false
            case SaveAndRender(kind, _, _) => kind == CategorizeChanges(memory, c)
            case _ => CategorizeChanges(memory, c) == NoReload
  {}

  /** A save is rejected exactly when its configuration is not valid, fails exactly when one of its writes does, and
      otherwise reports the kind of change that it made. */
  lemma OutcomeIsExact(s: State, c: Config, env: Env, w: Surroundings, ccdEnabled: bool)
    ensures var plan := PlanFor(s.memory, c, env.at, env.who, w, ccdEnabled);
            && (OutcomeOf(plan, env) == Rejected <==> !Valid(c, w))
            && (OutcomeOf(plan, env) == Failed <==> Valid(c, w) && false in Writes(plan, env))
            && (OutcomeOf(plan, env).Applied? ==> OutcomeOf(plan, env) == Applied(CategorizeChanges(s.memory, c)))
  {
    if Valid(c, w) { PlannedKind(s.memory, c, env.at, env.who, ccdEnabled); }
    FailsExactly(PlanFor(s.memory, c, env.at, env.who, w, ccdEnabled), env);
  }

  /** A valid save writes nothing exactly when it would change nothing but the time and the author. */
  lemma NothingExactly(memory: Config, c: Config, at: string, who: string, w: Surroundings, ccdEnabled: bool)
    requires Valid(c, w)
    ensures PlanFor(memory, c, at, who, w, ccdEnabled) == Nothing <==>
            memory == c.(updatedAt := memory.updatedAt, updatedBy := memory.updatedBy,
                         initialized := c.initialized || memory.initialized)
  {
    var merged := c.(updatedAt := memory.updatedAt, updatedBy := memory.updatedBy,
                     initialized := c.initialized || memory.initialized);
    if memory == merged { assert SameIgnoringBookkeeping(memory, c) && CategorizeChanges(memory, c) == NoReload; }
  }

  // ---- runs ----

  /** A restart reads the JSON and renders it; that write may fail too. */
  datatype Step = Change(config: Config, env: Env) | Restart(written: bool)

  function Restarted(s: State, written: bool, ccdEnabled: bool): State {
    var c := match s.json case Some(c) => c case None => s.memory;
    s.(memory := c, conf := if written && Renderable(c) then Render(c, ccdEnabled) else s.conf)
  }

  function Next(s: State, step: Step, w: Surroundings, ccdEnabled: bool): State {
    match step
    case Change(c, env) => Execute(s, PlanFor(s.memory, c, env.at, env.who, w, ccdEnabled), env)
    case Restart(written) => Restarted(s, written, ccdEnabled)
  }

  function After(s: State, steps: seq<Step>, w: Surroundings, ccdEnabled: bool): State
    decreases |steps|
  {
    if steps == [] then s else After(Next(s, steps[0], w, ccdEnabled), steps[1..], w, ccdEnabled)
  }

  /** No rollback write fails. */
  predicate RollbacksSucceed(steps: seq<Step>) {
    forall i :: 0 <= i < |steps| && steps[i].Change? ==> steps[i].env.rolledBack
  }

  lemma StepKeepsConsistent(s: State, step: Step, w: Surroundings, ccdEnabled: bool)
    requires Consistent(s, ccdEnabled) && (step.Change? ==> step.env.rolledBack)
    ensures Consistent(Next(s, step, w, ccdEnabled), ccdEnabled)
  {
    match step
    case Change(c, env) => SaveKeepsConsistentExactly(s, c, env, w, ccdEnabled);
    case Restart(written) =>
  }

  /** Over any run of saves, refused and failing ones included, and restarts, the three copies agree. */
  lemma {:induction false} RunKeepsConsistent(s: State, steps: seq<Step>, w: Surroundings, ccdEnabled: bool)
    requires Consistent(s, ccdEnabled) && RollbacksSucceed(steps)
    ensures Consistent(After(s, steps, w, ccdEnabled), ccdEnabled)
    decreases |steps|
  {
    if steps != [] {
      StepKeepsConsistent(s, steps[0], w, ccdEnabled);
      RunKeepsConsistent(Next(s, steps[0], w, ccdEnabled), steps[1..], w, ccdEnabled);
    }
  }

  /** After a failing rollback the configuration that was reported as failed takes effect at the next restart. */
  lemma FailedSaveComesBack(s: State, c: Config, env: Env, w: Surroundings, ccdEnabled: bool)
    requires Consistent(s, ccdEnabled) && Stuck(s, PlanFor(s.memory, c, env.at, env.who, w, ccdEnabled), env)
    ensures var plan := PlanFor(s.memory, c, env.at, env.who, w, ccdEnabled);
            var t := Restarted(Execute(s, plan, env), true, ccdEnabled);
            OutcomeOf(plan, env) == Failed && SameIgnoringBookkeeping(t.memory, Normalize(c))
            && t.conf == Render(t.memory, ccdEnabled) && t.conf.Some?
  {
    PlanCarries(s.memory, c, env.at, env.who, w, ccdEnabled);
    PlanIsFaithful(s.memory, c, env.at, env.who, w, ccdEnabled);
  }
}
