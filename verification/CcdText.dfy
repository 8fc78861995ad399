/** Client-config files as texts: how the template writes each line, how the parser takes a line apart again, and that a
    saved text loads as the structured lines it was written from. */
module CcdText {
  import opened Wrappers
  import opened Text
  import opened Ipv4
  import opened RoutePolicy
  import opened CcdMerge
  import opened CcdFile
  import opened CcdRoundTrip

  const STATE := "__user_redirect__:"
  const DECLARATION := "__user_domain_decl__:"
  const REDIRECT := "__redirect_gateway__"
  const ON := "on"
  const OFF := "off"
  const NET_GATEWAY := "net_gateway"
  const FULL_TUNNEL := "redirect-gateway"

  /** The text of an address or mask, and the address that a field of the file stands for. */
  datatype Codec = Codec(show: AddrText -> string, read: string -> AddrText, showMask: Addr -> string)

  // ---- writing ----

  /** Two words, or a word and what follows it. */
  function Words(first: string, rest: string): string {
    first + ([' '] + rest)
  }

  function RouteText(c: Codec, k: Key): string {
    Words("route", Words(c.show(k.address), c.show(k.mask)))
  }

  function ExclusionText(c: Codec, k: Key): string {
    Words("route", Words(c.show(k.address), Words(c.show(k.mask), NET_GATEWAY)))
  }

  function Quoted(payload: string): string {
    "push " + ['"'] + (payload + ['"'])
  }

  /** A quoted directive with its comment. */
  function PushText(payload: string, comment: string): string {
    Quoted(payload) + (" # " + comment)
  }

  function OnOff(on: bool): string {
    if on then ON else OFF
  }

  /** The template's line. */
  function WriteLine(c: Codec, line: Line): string {
    match line
    case IfconfigPush(client, mask) =>
      Words("ifconfig-push", Words(if client.Static? then c.show(client.address) else "dynamic", c.showMask(mask)))
    case RedirectPush => PushText(Words(FULL_TUNNEL, "def1"), REDIRECT)
    case ExclusionPush(p) => PushText(ExclusionText(c, p.key), p.source)
    case RoutePush(p) => PushText(RouteText(c, p.key), p.source)
    case StateLine(on) => Words("#", STATE + OnOff(on))
    case Declaration(domain, description) => Words("#", DECLARATION + DeclaredText(domain, description))
  }

  /** Every line begins on a new one, and the file ends with a line break. */
  function WriteText(c: Codec, lines: seq<Line>): string {
    if lines == [] then "\n" else ['\n'] + (WriteLine(c, lines[0]) + WriteText(c, lines[1..]))
  }

  // ---- reading ----

  /** `strings.Index`. */
  function Find(s: string, sub: string): Option<nat> {
    if HasPrefix(s, sub) then Some(0)
    else if s == "" then None
    else match Find(s[1..], sub) case Some(n) => Some(n + 1) case None => None
  }

  lemma {:induction false} FindWithin(s: string, sub: string)
    ensures Find(s, sub).Some? ==> Find(s, sub).value + |sub| <= |s|
  {
    if !HasPrefix(s, sub) && s != "" { FindWithin(s[1..], sub); }
  }

  /** The position of the last occurrence, or -1. */
  function LastIndexOf(s: string, c: char): (n: int)
    ensures -1 <= n < |s|
  {
    if s == "" then -1 else if s[|s| - 1] == c then |s| - 1 else LastIndexOf(s[..|s| - 1], c)
  }

  /** The comment starts at the first " # ". */
  function SplitDirectiveComment(v: string): (string, string) {
    FindWithin(v, " # ");
    match Find(v, " # ")
    case Some(i) => (Trim(v[..i]), Trim(v[i + 3..]))
    case None => (Trim(v), "")
  }

  /** The text between the first and the last quote. */
  function QuotedPayload(s: string): string {
    var first, last := IndexOf(s, '"'), LastIndexOf(s, '"');
    if first == |s| || last <= first then "" else s[first + 1..last]
  }

  function ReadPush(c: Codec, v: string): Option<Line> {
    var (directive, comment) := SplitDirectiveComment(v);
    var pf := Fields(QuotedPayload(directive));
    if pf == [] then None
    else if pf[0] == FULL_TUNNEL && HasPrefix(comment, REDIRECT) then Some(RedirectPush)
    else if pf[0] != "route" || |pf| < 3 then None
    else
      var p := Push(Key(c.read(pf[1]), c.read(pf[2])), comment);
      if |pf| >= 4 && pf[3] == NET_GATEWAY then Some(ExclusionPush(p)) else Some(RoutePush(p))
  }

  function ReadState(v: string): Option<Line> {
    var content := Trim(if HasPrefix(v, "#") then v[1..] else v);
    if HasPrefix(content, STATE) then Some(StateLine(Trim(content[|STATE|..]) == ON))
    else if HasPrefix(content, DECLARATION) then Some(Declaration(content[|DECLARATION|..], ""))
    else None
  }

  /** What one line of a file says; None for a line that says nothing. The mask of a static address is not read. */
  function ReadLine(c: Codec, v: string): Option<Line> {
    var str := Fields(v);
    if str == [] then None
    else if HasPrefix(str[0], "#") then ReadState(v)
    else if HasPrefix(str[0], "ifconfig-push") then
      if |str| < 2 then None
      else Some(IfconfigPush(if str[1] == "dynamic" then Dynamic else Static(c.read(str[1])), 0))
    else if HasPrefix(str[0], "push") then ReadPush(c, v)
    else None
  }

  function ReadLines(c: Codec, raw: seq<string>): seq<Line> {
    if raw == [] then []
    else (match ReadLine(c, raw[0]) case Some(line) => [line] case None => []) + ReadLines(c, raw[1..])
  }

  lemma {:induction false} ReadLinesLast(c: Codec, raw: seq<string>, v: string)
    ensures ReadLines(c, raw + [v]) == ReadLines(c, raw) +
        match ReadLine(c, v) case Some(line) => [line] case None => []
  {
    if raw == [] {
      assert [v][1..] == [] && raw + [v] == [v];
    } else {
      assert (raw + [v])[1..] == raw[1..] + [v];
      ReadLinesLast(c, raw[1..], v);
    }
  }

  function ParseText(c: Codec, text: string, globalRedirect: bool): Ccd {
    Parse(ReadLines(c, Split(text, '\n')), globalRedirect)
  }

  method LoadCcd(c: Codec, text: string, globalRedirect: bool) returns (ccd: Ccd)
    ensures ccd == ParseText(c, text, globalRedirect)
  {
    var raw, lines := Split(text, '\n'), [];
    for i := 0 to |raw|
      invariant lines == ReadLines(c, raw[..i])
    {
      ReadLinesLast(c, raw[..i], raw[i]);
      assert raw[..i + 1] == raw[..i] + [raw[i]];
      match ReadLine(c, raw[i])
      case Some(line) => lines := lines + [line];
      case None =>
    }
    assert raw[..|raw|] == raw;
    ccd := ParseCcd(lines, globalRedirect);
  }

  lemma TrimSpaceBefore(s: string)
    ensures Trim([' '] + s) == Trim(s)
  {
    assert ([' '] + s)[1..] == s;
  }

  // ---- one line ----

  /** The text of an address: one field without quotes and comment signs. */
  ghost predicate AddressText(t: string) {
    Token(t) && '"' !in t && '#' !in t && ';' !in t && '\n' !in t && t != "dynamic"
  }

  /** Reading the written address gives it back. */
  ghost predicate Faithful(c: Codec, a: AddrText) {
    AddressText(c.show(a)) && c.read(c.show(a)) == a
  }

  /** A line that the template can write on one line. */
  ghost predicate Writable(c: Codec, line: Line) {
    match line
    case IfconfigPush(client, mask) => client.Static? && Faithful(c, client.address) && AddressText(c.showMask(mask))
    case RedirectPush => true
    case ExclusionPush(p) => WritablePush(c, p)
    case RoutePush(p) => WritablePush(c, p)
    case StateLine(_) => true
    case Declaration(domain, description) => '\n' !in domain && '\n' !in description
  }

  ghost predicate WritablePush(c: Codec, p: Push) {
    Faithful(c, p.key.address) && Faithful(c, p.key.mask) && '\n' !in p.source
  }

  lemma {:induction false} FindComment(directive: string, comment: string)
    requires '#' !in directive
    ensures Find(directive + (" # " + comment), " # ") == Some(|directive|)
  {
    var s := directive + (" # " + comment);
    if directive == "" {
      assert s == " # " + comment;
    } else {
      assert s[1..] == directive[1..] + (" # " + comment);
      FindComment(directive[1..], comment);
      assert s[1] == if |directive| > 1 then directive[1] else ' ';
      assert " # "[1] == '#';
    }
  }

  lemma QuotedShape(payload: string)
    requires '#' !in payload
    ensures '#' !in Quoted(payload) && Trim(Quoted(payload)) == Quoted(payload)
  {
    var q := Quoted(payload);
    assert q[0] == 'p' && q[|q| - 1] == '"';
    TrimSame(q);
  }

  lemma QuotedIs(payload: string)
    ensures QuotedPayload(Quoted(payload)) == payload
  {
    var q := Quoted(payload);
    IndexOfFirst("push ", '"', payload + ['"']);
    assert q[|q| - 1] == '"' && LastIndexOf(q, '"') == |q| - 1;
    assert q[6..|q| - 1] == payload;
  }

  lemma CommentSplits(directive: string, comment: string)
    requires '#' !in directive && Trim(directive) == directive
    ensures SplitDirectiveComment(directive + (" # " + comment)) == (directive, Trim(comment))
  {
    FindComment(directive, comment);
    var v := directive + (" # " + comment);
    assert v[..|directive|] == directive && v[|directive| + 3..] == comment;
  }

  lemma PushFields(payload: string, comment: string)
    ensures Fields(PushText(payload, comment)) != [] && Fields(PushText(payload, comment))[0] == "push"
  {
    var rest := ['"'] + (payload + ['"']) + (" # " + comment);
    assert PushText(payload, comment) == Words("push", rest);
    FieldsMore("push", rest);
  }

  lemma ReadPushed(c: Codec, payload: string, comment: string)
    requires '#' !in payload
    ensures ReadLine(c, PushText(payload, comment)) ==
            var pf := Fields(payload);
            if pf == [] then None
            else if pf[0] == FULL_TUNNEL && HasPrefix(Trim(comment), REDIRECT) then Some(RedirectPush)
            else if pf[0] != "route" || |pf| < 3 then None
            else
              var p := Push(Key(c.read(pf[1]), c.read(pf[2])), Trim(comment));
              if |pf| >= 4 && pf[3] == NET_GATEWAY then Some(ExclusionPush(p)) else Some(RoutePush(p))
  {
    QuotedShape(payload);
    QuotedIs(payload);
    CommentSplits(Quoted(payload), comment);
    PushFields(payload, comment);
    assert "push"[0] == 'p' && "#"[0] == '#' && "ifconfig-push"[0] == 'i';
  }

  lemma FieldsMore(tok: string, rest: string)
    requires Token(tok)
    ensures Fields(Words(tok, rest)) == [tok] + Fields(rest)
  {
    FieldsToken(tok, [' '] + rest);
    FieldsSpace(' ', rest);
  }

  lemma FieldsOne(tok: string)
    requires Token(tok)
    ensures Fields(tok) == [tok]
  {
    assert tok + "" == tok;
    FieldsToken(tok, "");
  }

  lemma WordsWithout(first: string, rest: string, ch: char)
    requires ch !in first && ch !in rest && ch != ' '
    ensures ch !in Words(first, rest)
  {}

  lemma FieldsThree(a: string, b: string, c: string)
    requires Token(a) && Token(b) && Token(c)
    ensures Fields(Words(a, Words(b, c))) == [a, b, c]
  {
    FieldsOne(c);
    FieldsMore(b, c);
    FieldsMore(a, Words(b, c));
  }

  lemma RouteFields(c: Codec, k: Key)
    requires Faithful(c, k.address) && Faithful(c, k.mask)
    ensures Fields(RouteText(c, k)) == ["route", c.show(k.address), c.show(k.mask)] && '#' !in RouteText(c, k)
  {
    var a, m := c.show(k.address), c.show(k.mask);
    FieldsThree("route", a, m);
    WordsWithout(a, m, '#');
    WordsWithout("route", Words(a, m), '#');
  }

  lemma GatewayWord()
    ensures Token(NET_GATEWAY) && '#' !in NET_GATEWAY
  {}

  lemma ExclusionFields(c: Codec, k: Key)
    requires Faithful(c, k.address) && Faithful(c, k.mask)
    ensures Fields(ExclusionText(c, k)) == ["route", c.show(k.address), c.show(k.mask), NET_GATEWAY]
  {
    var a, m := c.show(k.address), c.show(k.mask);
    GatewayWord();
    FieldsThree(a, m, NET_GATEWAY);
    FieldsMore("route", Words(a, Words(m, NET_GATEWAY)));
  }

  lemma ExclusionWithout(c: Codec, k: Key)
    requires Faithful(c, k.address) && Faithful(c, k.mask)
    ensures '#' !in ExclusionText(c, k)
  {
    var a, m := c.show(k.address), c.show(k.mask);
    GatewayWord();
    WordsWithout(m, NET_GATEWAY, '#');
    WordsWithout(a, Words(m, NET_GATEWAY), '#');
    WordsWithout("route", Words(a, Words(m, NET_GATEWAY)), '#');
  }

  /** What a read gives back for a written line: comments are trimmed, a declaration is one text. */
  ghost predicate SameLine(a: Line, b: Line) {
    match b
    case IfconfigPush(client, _) => a.IfconfigPush? && a.client == client
    case ExclusionPush(p) => a == ExclusionPush(Push(p.key, Trim(p.source)))
    case RoutePush(p) => a == RoutePush(Push(p.key, Trim(p.source)))
    case Declaration(domain, description) =>
      a.Declaration? && a.description == "" && Fields(a.domain) == Fields(DeclaredText(domain, description))
    case _ => a == b
  }

  /** A line that starts with a comment sign says what its trimmed content says. */
  lemma ReadComment(c: Codec, content: string)
    ensures ReadLine(c, Words("#", content)) == ReadState(Words("#", content))
    ensures Trim(Words("#", content)[1..]) == Trim(content) && HasPrefix(Words("#", content), "#")
  {
    FieldsMore("#", content);
    assert Words("#", content)[1..] == [' '] + content;
    TrimSpaceBefore(content);
  }

  lemma PrefixAndRest(prefix: string, rest: string)
    ensures HasPrefix(prefix + rest, prefix) && (prefix + rest)[|prefix|..] == rest
  {}

  lemma StateMarker()
    ensures STATE != "" && STATE[0] == '_'
  {}

  lemma OnOffTrimmed(on: bool)
    ensures Trim(OnOff(on)) == OnOff(on) && (OnOff(on) == ON <==> on)
    ensures Trim(STATE + OnOff(on)) == STATE + OnOff(on)
  {
    var word := OnOff(on);
    assert word[0] == 'o' && word[|word| - 1] == if on then 'n' else 'f';
    TrimSame(word);
    StateMarker();
    var content := STATE + word;
    assert content[0] == STATE[0] && content[|content| - 1] == word[|word| - 1];
    TrimSame(content);
  }

  lemma ReadStateOf(c: Codec, word: string)
    requires Trim(word) == word && Trim(STATE + word) == STATE + word
    ensures ReadLine(c, Words("#", STATE + word)) == Some(StateLine(word == ON))
  {
    ReadComment(c, STATE + word);
    PrefixAndRest(STATE, word);
  }

  lemma ReadStateLine(c: Codec, on: bool)
    ensures ReadLine(c, WriteLine(c, StateLine(on))) == Some(StateLine(on))
  {
    OnOffTrimmed(on);
    ReadStateOf(c, OnOff(on));
  }

  lemma DeclarationMarker()
    ensures Token(DECLARATION) && DECLARATION[7] == 'd' && STATE[7] == 'r'
  {}

  lemma ReadDeclaration(c: Codec, domain: string, description: string) returns (line: Line)
    ensures ReadLine(c, WriteLine(c, Declaration(domain, description))) == Some(line)
    ensures SameLine(line, Declaration(domain, description))
  {
    var x := DeclaredText(domain, description);
    DeclarationMarker();
    ReadComment(c, DECLARATION + x);
    var y := TrimAfterToken(DECLARATION, x);
    PrefixAndRest(DECLARATION, y);
    assert (DECLARATION + y)[7] == DECLARATION[7];
    line := Declaration(y, "");
  }

  lemma ReadIfconfig(c: Codec, client: Client, mask: Addr)
    requires Writable(c, IfconfigPush(client, mask))
    ensures ReadLine(c, WriteLine(c, IfconfigPush(client, mask))) == Some(IfconfigPush(client, 0))
  {
    assert Token("ifconfig-push");
    FieldsMore("ifconfig-push", Words(c.show(client.address), c.showMask(mask)));
    FieldsMore(c.show(client.address), c.showMask(mask));
    assert "#"[0] != "ifconfig-push"[0];
  }

  lemma FullTunnelWord()
    ensures Token(FULL_TUNNEL) && '#' !in FULL_TUNNEL
  {}

  lemma RedirectMarker()
    ensures Trim(REDIRECT) == REDIRECT
  {
    assert REDIRECT[0] == '_' && REDIRECT[|REDIRECT| - 1] == '_';
    TrimSame(REDIRECT);
  }

  lemma ReadRedirect(c: Codec)
    ensures ReadLine(c, WriteLine(c, RedirectPush)) == Some(RedirectPush)
  {
    RedirectMarker();
    FullTunnelWord();
    FieldsMore(FULL_TUNNEL, "def1");
    WordsWithout(FULL_TUNNEL, "def1", '#');
    ReadPushed(c, Words(FULL_TUNNEL, "def1"), REDIRECT);
  }

  /** A written line is read back as itself. */
  lemma ReadWritten(c: Codec, line: Line) returns (back: Line)
    requires Writable(c, line)
    ensures ReadLine(c, WriteLine(c, line)) == Some(back) && SameLine(back, line)
  {
    match line
    case IfconfigPush(client, mask) =>
      ReadIfconfig(c, client, mask);
      back := IfconfigPush(client, 0);
    case RedirectPush =>
      ReadRedirect(c);
      back := RedirectPush;
    case ExclusionPush(p) =>
      ExclusionFields(c, p.key);
      ExclusionWithout(c, p.key);
      ReadPushed(c, ExclusionText(c, p.key), p.source);
      back := ExclusionPush(Push(p.key, Trim(p.source)));
    case RoutePush(p) =>
      RouteFields(c, p.key);
      ReadPushed(c, RouteText(c, p.key), p.source);
      back := RoutePush(Push(p.key, Trim(p.source)));
    case StateLine(on) =>
      ReadStateLine(c, on);
      back := StateLine(on);
    case Declaration(domain, description) =>
      back := ReadDeclaration(c, domain, description);
  }

  // ---- the whole file ----

  ghost predicate AllWritable(c: Codec, lines: seq<Line>) {
    forall i :: 0 <= i < |lines| ==> Writable(c, lines[i])
  }

  function Written(c: Codec, lines: seq<Line>): seq<string> {
    if lines == [] then [""] else [WriteLine(c, lines[0])] + Written(c, lines[1..])
  }

  lemma WrittenOnOneLine(c: Codec, line: Line)
    requires Writable(c, line)
    ensures '\n' !in WriteLine(c, line)
  {
    match line
    case IfconfigPush(client, mask) =>
      WordsWithout(c.show(client.address), c.showMask(mask), '\n');
      WordsWithout("ifconfig-push", Words(c.show(client.address), c.showMask(mask)), '\n');
    case ExclusionPush(p) => ExclusionOnOneLine(c, p);
    case RoutePush(p) => RouteOnOneLine(c, p);
    case Declaration(domain, description) =>
      assert '\n' !in DECLARATION + DeclaredText(domain, description);
    case _ =>
  }

  lemma PushOnOneLine(payload: string, comment: string)
    requires '\n' !in payload && '\n' !in comment
    ensures '\n' !in PushText(payload, comment)
  {
    assert '\n' !in "push " && '\n' !in " # ";
  }

  lemma RouteOnOneLine(c: Codec, p: Push)
    requires WritablePush(c, p)
    ensures '\n' !in WriteLine(c, RoutePush(p))
  {
    var a, m := c.show(p.key.address), c.show(p.key.mask);
    WordsWithout(a, m, '\n');
    WordsWithout("route", Words(a, m), '\n');
    PushOnOneLine(RouteText(c, p.key), p.source);
  }

  lemma ExclusionOnOneLine(c: Codec, p: Push)
    requires WritablePush(c, p)
    ensures '\n' !in WriteLine(c, ExclusionPush(p))
  {
    var a, m := c.show(p.key.address), c.show(p.key.mask);
    assert '\n' !in NET_GATEWAY;
    WordsWithout(m, NET_GATEWAY, '\n');
    WordsWithout(a, Words(m, NET_GATEWAY), '\n');
    WordsWithout("route", Words(a, Words(m, NET_GATEWAY)), '\n');
    PushOnOneLine(ExclusionText(c, p.key), p.source);
  }

  lemma NextLine(first: string, rest: string)
    requires '\n' !in first && Split(rest, '\n')[0] == ""
    ensures Split(['\n'] + (first + rest), '\n') == [""] + ([first] + Split(rest, '\n')[1..])
  {
    SplitPrefix(first, rest, '\n');
    assert first + "" == first;
    SplitBreak(first + rest);
  }

  lemma SplitBreak(s: string)
    ensures Split(['\n'] + s, '\n') == [""] + Split(s, '\n')
  {
    SplitFirst("", '\n', s);
    assert "" + ['\n'] + s == ['\n'] + s;
  }

  /** Splitting a written file gives the written lines, after an empty one and before an empty one. */
  lemma {:induction false} TextSplits(c: Codec, lines: seq<Line>)
    requires AllWritable(c, lines)
    ensures Split(WriteText(c, lines), '\n') == [""] + Written(c, lines)
    decreases |lines|
  {
    if lines == [] {
      SplitFirst("", '\n', "");
      assert "" + ['\n'] + "" == "\n";
      SplitNone("", '\n');
    } else {
      WrittenOnOneLine(c, lines[0]);
      TextSplits(c, lines[1..]);
      var rest := Split(WriteText(c, lines[1..]), '\n');
      assert rest[0] == "" && rest[1..] == Written(c, lines[1..]);
      NextLine(WriteLine(c, lines[0]), WriteText(c, lines[1..]));
    }
  }

  lemma SameLineParses(st: Parsed, a: Line, b: Line)
    requires SameLine(a, b)
    ensures ParseLine(st, a) == ParseLine(st, b)
  {
    match b
    case ExclusionPush(p) => TrimTwice(p.source);
    case RoutePush(p) => TrimTwice(p.source);
    case Declaration(domain, description) =>
      FieldsTrim(a.domain);
      FieldsTrim(DeclaredText(domain, description));
    case _ =>
  }

  lemma {:induction false} WrittenParses(c: Codec, lines: seq<Line>, st: Parsed)
    requires AllWritable(c, lines)
    ensures ParseFrom(st, ReadLines(c, Written(c, lines))) == ParseFrom(st, lines)
    decreases |lines|
  {
    if lines == [] {
      assert Fields("") == [];
    } else {
      var back := ReadWritten(c, lines[0]);
      var more := Written(c, lines[1..]);
      assert Written(c, lines)[1..] == more;
      assert ReadLines(c, Written(c, lines)) == [back] + ReadLines(c, more);
      assert ([back] + ReadLines(c, more))[1..] == ReadLines(c, more);
      SameLineParses(st, back, lines[0]);
      WrittenParses(c, lines[1..], ParseLine(st, lines[0]));
    }
  }

  /** A file whose lines can be written loads from its text as from its lines. */
  lemma TextLoadsAsLines(c: Codec, lines: seq<Line>, globalRedirect: bool)
    requires AllWritable(c, lines)
    ensures ParseText(c, WriteText(c, lines), globalRedirect) == Parse(lines, globalRedirect)
  {
    TextSplits(c, lines);
    var raw := [""] + Written(c, lines);
    assert raw[1..] == Written(c, lines) && Fields("") == [];
    assert ReadLines(c, raw) == ReadLines(c, Written(c, lines));
    WrittenParses(c, lines, NOTHING);
  }

  // ---- what a save writes ----

  /** Every address is written as one field that is read back as that address. */
  ghost predicate ForAddresses(c: Codec) {
    && (forall a: AddrText :: !a.NotAnAddress? ==> Faithful(c, a))
    && (forall m: Addr :: AddressText(c.showMask(m)))
  }

  ghost predicate AllPushes(c: Codec, pushes: seq<Push>) {
    forall i :: 0 <= i < |pushes| ==> WritablePush(c, pushes[i])
  }

  /** An expanded common route that can be written on one line. */
  predicate OneLineCommon(r: ExpandedRoute) {
    !r.address.NotAnAddress? && !r.mask.NotAnAddress? && '\n' !in r.tag && '\n' !in r.description
  }

  lemma WithDescOnOneLine(prefix: string, desc: string)
    requires '\n' !in prefix && '\n' !in desc
    ensures '\n' !in WithDesc(prefix, desc)
  {
    var k := TrimStandsAt(desc);
    forall i | 0 <= i < |Trim(desc)| ensures Trim(desc)[i] != '\n' { assert Trim(desc)[i] == desc[k + i]; }
  }

  lemma AddPushWritable(c: Codec, out: seq<Push>, p: Push)
    requires AllPushes(c, out) && WritablePush(c, p)
    ensures AllPushes(c, AddPush(out, p))
  {}

  lemma {:induction false} MergeWritable(c: Codec, requests: seq<Push>)
    requires AllPushes(c, requests)
    ensures AllPushes(c, MergeAll(requests))
  {
    if requests != [] {
      var n := |requests| - 1;
      MergeWritable(c, requests[..n]);
      AddPushWritable(c, MergeAll(requests[..n]), requests[n]);
    }
  }

  lemma AddExclusionWritable(c: Codec, out: seq<Push>, s: Subnet, marker: string)
    requires AllPushes(c, out) && ForAddresses(c) && SubnetOk(s) && '\n' !in marker
    ensures AllPushes(c, AddExclusion(out, s, marker))
  {
    WithDescOnOneLine(marker, s.description);
    assert Faithful(c, s.key.address) && Faithful(c, s.key.mask);
  }

  lemma {:induction false} AddExclusionsWritable(c: Codec, out: seq<Push>, subnets: seq<Subnet>, marker: string)
    requires AllPushes(c, out) && ForAddresses(c) && '\n' !in marker
    requires forall i :: 0 <= i < |subnets| ==> SubnetOk(subnets[i])
    ensures AllPushes(c, AddExclusions(out, subnets, marker))
  {
    if subnets != [] {
      var n := |subnets| - 1;
      AddExclusionsWritable(c, out, subnets[..n], marker);
      AddExclusionWritable(c, AddExclusions(out, subnets[..n], marker), subnets[n], marker);
    }
  }

  lemma DomainOnOneLine(r: CcdRoute)
    requires RouteOk(r) && r.kind.DomainKind?
    ensures '\n' !in r.domain && '\n' !in WithDesc(USER_DOMAIN + r.domain, r.description)
  {
    ValidDomainIsToken(r.domain);
    assert IsSpace('\n');
    assert '\n' !in USER_DOMAIN;
    WithDescOnOneLine(USER_DOMAIN + r.domain, r.description);
  }

  lemma CustomWritable(c: Codec, r: CcdRoute)
    requires ForAddresses(c) && RouteOk(r)
    requires r.kind.DomainKind? ==> forall i :: 0 <= i < |r.resolvedIPs| ==> r.resolvedIPs[i].To4().Some?
    ensures AllPushes(c, CustomRequests(r))
  {
    if r.kind.DomainKind? {
      DomainOnOneLine(r);
      assert Faithful(c, HOST_MASK);
    } else {
      assert Faithful(c, r.address) && Faithful(c, r.mask);
    }
  }

  lemma PushesAppend(c: Codec, xs: seq<Push>, ys: seq<Push>)
    requires AllPushes(c, xs) && AllPushes(c, ys)
    ensures AllPushes(c, xs + ys)
  {}

  lemma StorableParts(custom: seq<CcdRoute>, n: nat)
    requires Storable(custom) && n < |custom|
    ensures Storable(custom[..n]) && RouteOk(custom[n])
    ensures custom[n].kind.DomainKind? ==>
              forall i :: 0 <= i < |custom[n].resolvedIPs| ==> custom[n].resolvedIPs[i].To4().Some?
  {}

  lemma {:induction false} AllCustomWritable(c: Codec, custom: seq<CcdRoute>)
    requires ForAddresses(c) && Storable(custom)
    ensures AllPushes(c, AllCustom(custom))
  {
    if custom != [] {
      var n := |custom| - 1;
      StorableParts(custom, n);
      AllCustomWritable(c, custom[..n]);
      CustomWritable(c, custom[n]);
      PushesAppend(c, AllCustom(custom[..n]), CustomRequests(custom[n]));
    }
  }

  lemma AllCommonWritable(c: Codec, common: seq<ExpandedRoute>)
    requires ForAddresses(c) && forall i :: 0 <= i < |common| ==> OneLineCommon(common[i])
    ensures AllPushes(c, AllCommon(common))
  {
    forall i | 0 <= i < |common| ensures WritablePush(c, AllCommon(common)[i]) {
      var r := common[i];
      assert '\n' !in COMMON;
      WithDescOnOneLine(COMMON + r.tag, r.description);
      assert Faithful(c, r.address) && Faithful(c, r.mask);
    }
  }

  lemma {:induction false} RouteLinesWritable(c: Codec, pushes: seq<Push>)
    requires AllPushes(c, pushes)
    ensures AllWritable(c, RouteLines(pushes)) && AllWritable(c, ExclusionLines(pushes))
  {
    if pushes != [] { RouteLinesWritable(c, pushes[1..]); }
  }

  lemma {:induction false} DeclarationsWritable(c: Codec, routes: seq<CcdRoute>)
    requires forall i :: 0 <= i < |routes| ==> RouteOk(routes[i])
    ensures AllWritable(c, Declarations(routes))
  {
    if routes != [] {
      if routes[0].kind.DomainKind? { DomainOnOneLine(routes[0]); }
      DeclarationsWritable(c, routes[1..]);
    }
  }

  lemma MergedWritable(c: Codec, custom: seq<CcdRoute>, common: seq<ExpandedRoute>)
    requires ForAddresses(c) && Storable(custom) && forall i :: 0 <= i < |common| ==> OneLineCommon(common[i])
    ensures AllPushes(c, Merged(custom, common))
  {
    AllCustomWritable(c, custom);
    AllCommonWritable(c, common);
    PushesAppend(c, AllCustom(custom), AllCommon(common));
    MergeWritable(c, AllCustom(custom) + AllCommon(common));
  }

  lemma ExclusionsWritable(c: Codec, global: seq<Subnet>, user: seq<Subnet>)
    requires ForAddresses(c) && forall i :: 0 <= i < |global| ==> SubnetOk(global[i])
    requires forall i :: 0 <= i < |user| ==> SubnetOk(user[i])
    ensures AllPushes(c, Exclusions(global, user))
  {
    assert '\n' !in EXCLUSION_GLOBAL && '\n' !in EXCLUSION_USER;
    AddExclusionsWritable(c, [], global, EXCLUSION_GLOBAL);
    AddExclusionsWritable(c, AddExclusions([], global, EXCLUSION_GLOBAL), user, EXCLUSION_USER);
  }

  lemma WritableAppend(c: Codec, xs: seq<Line>, ys: seq<Line>)
    requires AllWritable(c, xs) && AllWritable(c, ys)
    ensures AllWritable(c, xs + ys)
  {}

  lemma HeadWritable(c: Codec, ccd: Ccd, g: Globals)
    requires ForAddresses(c) && AllPushes(c, Exclusions(g.exclusions, ccd.exclusions))
    requires ccd.client.Static? ==> ccd.client.address.To4().Some?
    ensures AllWritable(c, Head(ccd, g))
  {
    var exclusions := ExclusionLines(Exclusions(g.exclusions, ccd.exclusions));
    RouteLinesWritable(c, Exclusions(g.exclusions, ccd.exclusions));
    WritableAppend(c, [RedirectPush], exclusions);
    var first: seq<Line> := if ccd.client.Static? then [IfconfigPush(ccd.client, g.mask)] else [];
    assert AllWritable(c, first);
    WritableAppend(c, first, if ccd.redirect || g.redirect then [RedirectPush] + exclusions else []);
  }

  lemma AllPartsWritable(c: Codec, ccd: Ccd, common: seq<ExpandedRoute>, g: Globals)
    requires AllWritable(c, Head(ccd, g)) && AllPushes(c, Merged(ccd.routes, common))
    requires AllWritable(c, Declarations(ccd.routes))
    ensures AllWritable(c, Render(ccd, common, g))
  {
    var pushes := Merged(ccd.routes, common);
    RouteLinesWritable(c, pushes);
    WritableAppend(c, [StateLine(ccd.redirect)], Declarations(ccd.routes));
    WritableAppend(c, RouteLines(pushes), Tail(ccd));
    WritableAppend(c, Head(ccd, g), RouteLines(pushes) + Tail(ccd));
  }

  lemma RenderWritable(c: Codec, ccd: Ccd, common: seq<ExpandedRoute>, g: Globals, free: bool)
    requires ForAddresses(c) && Validated(ccd, g, free) && ResolvedIPv4(ccd.routes)
    requires forall i :: 0 <= i < |common| ==> OneLineCommon(common[i])
    requires forall i :: 0 <= i < |g.exclusions| ==> SubnetOk(g.exclusions[i])
    ensures AllWritable(c, Render(ccd, common, g))
  {
    MergedWritable(c, ccd.routes, common);
    ExclusionsWritable(c, g.exclusions, ccd.exclusions);
    HeadWritable(c, ccd, g);
    DeclarationsWritable(c, ccd.routes);
    AllPartsWritable(c, ccd, common, g);
  }

  /** An accepted choice, written to a file and loaded from its text, gives what its lines give, whatever the merged
      descriptions contain: they cannot break a line, leave a comment or close a quote. */
  lemma SavedTextLoads(c: Codec, ccd: Ccd, common: seq<ExpandedRoute>, g: Globals, free: bool, redirectNow: bool)
    requires ForAddresses(c) && Validated(ccd, g, free) && ResolvedIPv4(ccd.routes)
    requires forall i :: 0 <= i < |common| ==> OneLineCommon(common[i])
    requires forall i :: 0 <= i < |g.exclusions| ==> SubnetOk(g.exclusions[i])
    ensures ParseText(c, WriteText(c, Render(ccd, common, g)), redirectNow) ==
        Parse(Render(ccd, common, g), redirectNow)
  {
    RenderWritable(c, ccd, common, g, free);
    TextLoadsAsLines(c, Render(ccd, common, g), redirectNow);
  }
}
