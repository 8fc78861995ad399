/** What the OpenVPN server reads in a written client file and hands to the client, against what the firewall allows. */
module CcdDirectives {
  import opened Wrappers
  import opened Text
  import opened Ipv4
  import opened RoutePolicy
  import opened CcdMerge
  import opened CcdFile
  import opened CcdRoundTrip
  import opened CcdText
  import opened CcdPolicy
  import OpenVpn = CommandLine

  // ---- one line ----

  lemma AddressIsPlain(t: string)
    requires AddressText(t)
    ensures OpenVpn.Plain(t)
  {
    assert t[0] in t && IsSpace(' ');
  }

  lemma PushReads(payload: string, comment: string)
    requires '"' !in payload
    ensures OpenVpn.Words(PushText(payload, comment)) == ["push", payload]
  {
    var quoted, rest := ['"'] + payload + ['"'], " # " + comment;
    assert "push " == "push" + [' '];
    assert PushText(payload, comment) == "push" + [' '] + (quoted + rest);
    OpenVpn.WordsFirst("push", quoted + rest);
    QuotedBeforeComment(payload, comment);
  }

  lemma QuotedBeforeComment(payload: string, comment: string)
    requires '"' !in payload
    ensures OpenVpn.Words(['"'] + payload + ['"'] + (" # " + comment)) == [payload]
  {
    var rest := " # " + comment;
    var s := ['"'] + payload + ['"'] + rest;
    assert s[1..] == payload + ['"'] + rest;
    IndexOfFirst(payload, '"', rest);
    assert s[1..][..|payload|] == payload && s[|payload| + 2..] == rest;
    CommentReads(comment);
  }

  lemma CommentReads(comment: string)
    ensures OpenVpn.Words(" # " + comment) == []
  {
    var s := " # " + comment;
    assert s[0] == ' ' && s[1..][0] == '#';
  }

  lemma RouteReads(c: Codec, k: Key)
    requires AddressText(c.show(k.address)) && AddressText(c.show(k.mask))
    ensures '"' !in RouteText(c, k)
    ensures OpenVpn.Words(RouteText(c, k)) == ["route", c.show(k.address), c.show(k.mask)]
  {
    var a, m := c.show(k.address), c.show(k.mask);
    AddressIsPlain(a);
    AddressIsPlain(m);
    assert RouteText(c, k) == "route" + [' '] + (a + [' '] + m);
    OpenVpn.WordsTwo("route", a, m);
    OpenVpn.WordsOnly(m);
  }

  lemma TwoPlain(a: string, b: string)
    requires OpenVpn.Plain(a) && OpenVpn.Plain(b)
    ensures OpenVpn.Words(a + [' '] + b) == [a, b] && '"' !in a + [' '] + b
  {
    OpenVpn.WordsFirst(a, b);
    OpenVpn.WordsOnly(b);
  }

  lemma FourPlain(a: string, b: string, d: string, e: string)
    requires OpenVpn.Plain(a) && OpenVpn.Plain(b) && OpenVpn.Plain(d) && OpenVpn.Plain(e)
    ensures var s := a + [' '] + (b + [' '] + (d + [' '] + e)); OpenVpn.Words(s) == [a, b, d, e] && '"' !in s
  {
    TwoPlain(d, e);
    OpenVpn.WordsTwo(a, b, d + [' '] + e);
  }

  lemma ExclusionShape(a: string, m: string)
    ensures CcdText.Words("route", CcdText.Words(a, CcdText.Words(m, NET_GATEWAY))) ==
            "route" + [' '] + (a + [' '] + (m + [' '] + "net_gateway"))
  {}

  lemma ExclusionReads(c: Codec, k: Key)
    requires AddressText(c.show(k.address)) && AddressText(c.show(k.mask))
    ensures '"' !in ExclusionText(c, k)
    ensures OpenVpn.Words(ExclusionText(c, k)) == ["route", c.show(k.address), c.show(k.mask), "net_gateway"]
  {
    AddressIsPlain(c.show(k.address));
    AddressIsPlain(c.show(k.mask));
    ExclusionShape(c.show(k.address), c.show(k.mask));
    FourPlain("route", c.show(k.address), c.show(k.mask), "net_gateway");
  }

  lemma RedirectReads()
    ensures '"' !in CcdText.Words(FULL_TUNNEL, "def1")
    ensures OpenVpn.Words(CcdText.Words(FULL_TUNNEL, "def1")) == ["redirect-gateway", "def1"]
  {
    assert CcdText.Words(FULL_TUNNEL, "def1") == "redirect-gateway" + [' '] + "def1";
    OpenVpn.WordsFirst("redirect-gateway", "def1");
    OpenVpn.WordsOnly("def1");
  }

  /** The option that a line makes the server push, as the client takes it apart. */
  function OptionIn(words: seq<string>): seq<seq<string>> {
    if |words| == 2 && words[0] == "push" then [OpenVpn.Words(words[1])] else []
  }

  /** What each line is for. */
  function OptionOf(c: Codec, line: Line): seq<seq<string>> {
    match line
    case RedirectPush => [["redirect-gateway", "def1"]]
    case ExclusionPush(p) => [["route", c.show(p.key.address), c.show(p.key.mask), "net_gateway"]]
    case RoutePush(p) => [["route", c.show(p.key.address), c.show(p.key.mask)]]
    case _ => []
  }

  lemma HashReads(s: string)
    ensures OpenVpn.Words(CcdText.Words("#", s)) == []
  {
    assert CcdText.Words("#", s)[0] == '#';
  }

  lemma IfconfigReads(c: Codec, client: Client, mask: Addr)
    requires Writable(c, IfconfigPush(client, mask))
    ensures OpenVpn.Words(WriteLine(c, IfconfigPush(client, mask))) ==
            ["ifconfig-push", c.show(client.address), c.showMask(mask)]
  {
    var a, m := c.show(client.address), c.showMask(mask);
    AddressIsPlain(a);
    AddressIsPlain(m);
    assert WriteLine(c, IfconfigPush(client, mask)) == "ifconfig-push" + [' '] + (a + [' '] + m);
    OpenVpn.WordsTwo("ifconfig-push", a, m);
    OpenVpn.WordsOnly(m);
  }

  lemma LineReads(c: Codec, line: Line)
    requires Writable(c, line)
    ensures OptionIn(OpenVpn.Words(WriteLine(c, line))) == OptionOf(c, line)
  {
    match line
    case IfconfigPush(client, mask) => IfconfigReads(c, client, mask);
    case RedirectPush =>
      RedirectReads();
      PushReads(CcdText.Words(FULL_TUNNEL, "def1"), REDIRECT);
    case ExclusionPush(p) =>
      ExclusionReads(c, p.key);
      PushReads(ExclusionText(c, p.key), p.source);
    case RoutePush(p) =>
      RouteReads(c, p.key);
      PushReads(RouteText(c, p.key), p.source);
    case StateLine(on) => HashReads(STATE + OnOff(on));
    case Declaration(domain, description) => HashReads(DECLARATION + DeclaredText(domain, description));
  }

  // ---- the whole file ----

  /** The options that the server pushes after reading the lines of a file. */
  function Options(raw: seq<string>): seq<seq<string>> {
    if raw == [] then [] else OptionIn(OpenVpn.Words(raw[0])) + Options(raw[1..])
  }

  function OptionsOf(c: Codec, lines: seq<Line>): seq<seq<string>> {
    if lines == [] then [] else OptionOf(c, lines[0]) + OptionsOf(c, lines[1..])
  }

  lemma {:induction false} WrittenOptions(c: Codec, lines: seq<Line>)
    requires AllWritable(c, lines)
    ensures Options(Written(c, lines)) == OptionsOf(c, lines)
    decreases |lines|
  {
    if lines == [] {
      assert Options([""]) == OptionIn(OpenVpn.Words("")) + Options([""][1..]);
    } else {
      LineReads(c, lines[0]);
      WrittenOptions(c, lines[1..]);
      assert Written(c, lines)[1..] == Written(c, lines[1..]);
    }
  }

  /** From the text of a file the server pushes exactly what its lines are for, in order: no comment leaves its line,
      and no state or declaration line pushes anything. */
  lemma ServerReads(c: Codec, lines: seq<Line>)
    requires AllWritable(c, lines)
    ensures Options(Split(WriteText(c, lines), '\n')) == OptionsOf(c, lines)
  {
    TextSplits(c, lines);
    WrittenOptions(c, lines);
    var raw := [""] + Written(c, lines);
    assert raw[1..] == Written(c, lines) && OpenVpn.Words("") == [];
  }

  // ---- the client's routes ----

  /** The line pushes the route with these texts. */
  ghost predicate Shows(c: Codec, line: Line, a: string, m: string) {
    line.RoutePush? && c.show(line.push.key.address) == a && c.show(line.push.key.mask) == m
  }

  ghost predicate AnyShows(c: Codec, lines: seq<Line>, a: string, m: string) {
    exists i :: 0 <= i < |lines| && Shows(c, lines[i], a, m)
  }

  lemma {:induction false} RouteOption(c: Codec, lines: seq<Line>, a: string, m: string)
    ensures ["route", a, m] in OptionsOf(c, lines) <==> AnyShows(c, lines, a, m)
    decreases |lines|
  {
    if lines != [] {
      var rest := lines[1..];
      RouteOption(c, rest, a, m);
      OptionShows(c, lines[0], a, m);
      if i :| 0 <= i < |rest| && Shows(c, rest[i], a, m) { assert lines[i + 1] == rest[i]; }
      if i :| 0 <= i < |lines| && Shows(c, lines[i], a, m) { assert i > 0 ==> rest[i - 1] == lines[i]; }
    }
  }

  lemma OptionShows(c: Codec, line: Line, a: string, m: string)
    ensures ["route", a, m] in OptionOf(c, line) <==> Shows(c, line, a, m)
  {
    if line.RedirectPush? { assert |OptionOf(c, line)[0]| == 2; }
    if line.RoutePush? {
      var option := OptionOf(c, line)[0];
      assert option[1] == c.show(line.push.key.address) && option[2] == c.show(line.push.key.mask);
    }
  }

  /** The client is told to route the prefix through the tunnel. */
  ghost predicate Routed(c: Codec, text: string, cidr: Cidr) {
    exists a, m :: ["route", a, m] in Options(Split(text, '\n')) && IpMaskToCidr(c.read(a), c.read(m)) == Ok(cidr)
  }

  lemma ShownIsPushed(c: Codec, lines: seq<Line>, a: string, m: string, cidr: Cidr)
    requires AllWritable(c, lines) && AnyShows(c, lines, a, m) && IpMaskToCidr(c.read(a), c.read(m)) == Ok(cidr)
    ensures PushesPrefix(lines, cidr)
  {
    var i :| 0 <= i < |lines| && Shows(c, lines[i], a, m);
    assert Writable(c, lines[i]) && Pushed(lines, lines[i].push.key);
  }

  lemma PushedIsShown(c: Codec, lines: seq<Line>, cidr: Cidr) returns (a: string, m: string)
    requires AllWritable(c, lines) && PushesPrefix(lines, cidr)
    ensures AnyShows(c, lines, a, m) && IpMaskToCidr(c.read(a), c.read(m)) == Ok(cidr)
  {
    var k :| Pushed(lines, k) && IpMaskToCidr(k.address, k.mask) == Ok(cidr);
    var i :| 0 <= i < |lines| && lines[i].RoutePush? && lines[i].push.key == k;
    a, m := c.show(k.address), c.show(k.mask);
    assert Writable(c, lines[i]) && Shows(c, lines[i], a, m);
  }

  lemma RoutedIsPushed(c: Codec, lines: seq<Line>, cidr: Cidr)
    requires AllWritable(c, lines)
    ensures Routed(c, WriteText(c, lines), cidr) <==> PushesPrefix(lines, cidr)
  {
    ServerReads(c, lines);
    if a, m :| ["route", a, m] in OptionsOf(c, lines) && IpMaskToCidr(c.read(a), c.read(m)) == Ok(cidr) {
      RouteOption(c, lines, a, m);
      ShownIsPushed(c, lines, a, m, cidr);
    }
    if PushesPrefix(lines, cidr) {
      var a, m := PushedIsShown(c, lines, cidr);
      RouteOption(c, lines, a, m);
    }
  }

  /** After an accepted save the client is told to route exactly the prefixes that the firewall, reading the same text,
      allows it. */
  lemma ClientRoutesAreAllowed(c: Codec, ccd: Ccd, stored: seq<CommonRoute>, g: Globals, free: bool, redirectNow: bool,
                               cidr: Cidr)
    requires ForAddresses(c) && Validated(ccd, g, free) && ResolvedIPv4(ccd.routes)
    requires forall i :: 0 <= i < |ExpandAll(stored)| ==> OneLineCommon(ExpandAll(stored)[i])
    requires forall i :: 0 <= i < |g.exclusions| ==> SubnetOk(g.exclusions[i])
    ensures var text := WriteText(c, Render(ccd, ExpandAll(stored), g));
            Routed(c, text, cidr) <==> cidr in AllowedCidrs(ParseText(c, text, redirectNow).routes, stored)
  {
    var common := ExpandAll(stored);
    var lines := Render(ccd, common, g);
    RenderWritable(c, ccd, common, g, free);
    SavedTextLoads(c, ccd, common, g, free, redirectNow);
    RoutedIsPushed(c, lines, cidr);
    FileIsPolicy(ccd, stored, g, redirectNow, 0);
  }
}
