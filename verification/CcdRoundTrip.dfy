/** What a client-config file preserves over saves, loads and re-renders: the destinations of the user's own routes, the
    firewall policy, the user's full-tunnel choice, the declared domains, and which exclusions. */
module CcdRoundTrip {
  import opened Wrappers
  import opened Text
  import opened Ipv4
  import opened RoutePolicy
  import opened CcdMerge
  import opened CcdFile

  // ---- validation ----

  predicate AlnumChar(c: char) { 'a' <= c <= 'z' || 'A' <= c <= 'Z' || '0' <= c <= '9' }

  predicate DomainLabel(l: string) {
    && 1 <= |l| <= 63 && AlnumChar(l[0]) && AlnumChar(l[|l| - 1])
    && forall i :: 0 <= i < |l| ==> AlnumChar(l[i]) || l[i] == '-'
  }

  /** At least two labels. */
  predicate ValidDomain(d: string) {
    var labels := Split(d, '.');
    |labels| >= 2 && forall i :: 0 <= i < |labels| ==> DomainLabel(labels[i])
  }

  predicate DescriptionOk(d: string) {
    '\n' !in d && '\r' !in d && '"' !in d && !HasMarker(d) && |d| <= 200
  }

  predicate RouteOk(r: CcdRoute) {
    && DescriptionOk(r.description)
    && match r.kind
       case DomainKind => ValidDomain(r.domain)
       case IpKind => ValidateNetworkMask(r.address, r.mask).Ok?
       case NoKind => ValidateNetworkMask(r.address, r.mask).Ok?
       case OtherKind(_) => false
  }

  predicate SubnetOk(s: Subnet) {
    && ValidateNetworkMask(s.key.address, s.key.mask).Ok? && ValidateNetworkMask(s.key.address, s.key.mask).value > 0
    && DescriptionOk(s.description) && '\0' !in s.description
  }

  /** `free`: no other user holds the static address. */
  predicate Validated(ccd: Ccd, g: Globals, free: bool) {
    && (ccd.client.Static? ==> free && StaticAddressAccepted(g.netIP, g.mask, ccd.client.address))
    && (forall i :: 0 <= i < |ccd.routes| ==> RouteOk(ccd.routes[i]))
    && (forall i :: 0 <= i < |ccd.exclusions| ==> SubnetOk(ccd.exclusions[i]))
  }

  method ValidateCcd(ccd: Ccd, g: Globals, free: bool) returns (ok: bool)
    ensures ok == Validated(ccd, g, free)
  {
    if ccd.client.Static? {
      if !free || !StaticAddressAccepted(g.netIP, g.mask, ccd.client.address) { return false; }
    }
    for i := 0 to |ccd.routes|
      invariant forall j :: 0 <= j < i ==> RouteOk(ccd.routes[j])
    {
      if !RouteOk(ccd.routes[i]) { return false; }
    }
    for i := 0 to |ccd.exclusions|
      invariant forall j :: 0 <= j < i ==> SubnetOk(ccd.exclusions[j])
    {
      if !SubnetOk(ccd.exclusions[i]) { return false; }
    }
    return true;
  }

  /** Resolver answers are filtered to IPv4 before they are stored. */
  predicate ResolvedIPv4(routes: seq<CcdRoute>) {
    forall i, j :: 0 <= i < |routes| && routes[i].kind.DomainKind? && 0 <= j < |routes[i].resolvedIPs| ==>
      routes[i].resolvedIPs[j].To4().Some?
  }

  // ---- destinations ----

  ghost predicate RouteDest(r: CcdRoute, k: Key) {
    if r.kind.DomainKind? then k.mask == HOST_MASK && k.address in r.resolvedIPs else Key(r.address, r.mask) == k
  }

  /** A destination of the user's own routes; a domain counts as one host route per resolved address. */
  ghost predicate HasDest(routes: seq<CcdRoute>, k: Key) {
    exists i :: 0 <= i < |routes| && RouteDest(routes[i], k)
  }

  ghost predicate EntryDest(entries: seq<DomainEntry>, k: Key) {
    k.mask == HOST_MASK && exists i :: 0 <= i < |entries| && k.address in entries[i].ips
  }

  /** What one pushed line contributes to the destinations that a load sees. */
  ghost predicate PushDest(p: Push, k: Key) {
    match ProvenanceOf(Trim(p.source))
    case FromCommon => false
    case FromDomains => k == Key(p.key.address, HOST_MASK) && SegmentNames(Split(Trim(p.source), ',')) != []
    case Plain => k == p.key
  }

  ghost predicate AnyDest(lines: seq<Line>, k: Key) {
    exists i :: 0 <= i < |lines| && lines[i].RoutePush? && PushDest(lines[i].push, k)
  }

  ghost predicate ParsedDest(st: Parsed, k: Key) {
    HasDest(st.ipRoutes, k) || EntryDest(st.domains, k)
  }

  lemma SeedDest(entries: seq<DomainEntry>, n: Named, k: Key)
    ensures EntryDest(Seed(entries, n), k) <==> EntryDest(entries, k)
  {
    var after := Seed(entries, n);
    if EntryDest(entries, k) {
      var i :| 0 <= i < |entries| && k.address in entries[i].ips;
      assert after[i] == entries[i];
    }
  }

  lemma RegisterDest(entries: seq<DomainEntry>, n: Named, ip: AddrText, k: Key)
    ensures EntryDest(Register(entries, n, ip), k) <==> EntryDest(entries, k) || k == Key(ip, HOST_MASK)
  {
    SeedDest(entries, n, k);
    var seeded, at, after := Seed(entries, n), EntryAt(entries, n.domain), Register(entries, n, ip);
    assert ip in after[at].ips;
    if EntryDest(seeded, k) {
      var i :| 0 <= i < |seeded| && k.address in seeded[i].ips;
      assert k.address in after[i].ips;
    }
    if EntryDest(after, k) {
      var i :| 0 <= i < |after| && k.address in after[i].ips;
      assert k.address in seeded[i].ips || k.address == ip;
    }
  }

  lemma {:induction false} RegisterAllDest(entries: seq<DomainEntry>, names: seq<Named>, ip: AddrText, k: Key)
    ensures EntryDest(RegisterAll(entries, names, ip), k) <==>
        EntryDest(entries, k) || (names != [] && k == Key(ip, HOST_MASK))
    decreases |names|
  {
    if names != [] {
      RegisterDest(entries, names[0], ip, k);
      RegisterAllDest(Register(entries, names[0], ip), names[1..], ip, k);
    }
  }

  lemma HasDestAppend(routes: seq<CcdRoute>, more: seq<CcdRoute>, k: Key)
    ensures HasDest(routes + more, k) <==> HasDest(routes, k) || HasDest(more, k)
  {
    var all := routes + more;
    if i :| 0 <= i < |routes| && RouteDest(routes[i], k) { assert RouteDest(all[i], k); }
    if i :| 0 <= i < |more| && RouteDest(more[i], k) { assert RouteDest(all[|routes| + i], k); }
  }

  lemma ParseRouteDest(st: Parsed, p: Push, k: Key)
    ensures ParsedDest(ParseRoute(st, p), k) <==> ParsedDest(st, k) || PushDest(p, k)
  {
    var comment := Trim(p.source);
    match ProvenanceOf(comment)
    case FromCommon =>
    case FromDomains => RegisterAllDest(st.domains, SegmentNames(Split(comment, ',')), p.key.address, k);
    case Plain =>
      HasDestAppend(st.ipRoutes, [PlainRoute(p, comment)], k);
      assert [PlainRoute(p, comment)][0] == PlainRoute(p, comment);
      assert RouteDest(PlainRoute(p, comment), k) <==> k == p.key;
  }

  lemma ParseLineDest(st: Parsed, line: Line, k: Key)
    ensures ParsedDest(ParseLine(st, line), k) <==> ParsedDest(st, k) || (line.RoutePush? && PushDest(line.push, k))
  {
    match line
    case RoutePush(p) => ParseRouteDest(st, p, k);
    case Declaration(domain, description) =>
      match DeclaredName(domain, description) {
        case Some(n) => SeedDest(st.domains, n, k);
        case None =>
      }
    case _ =>
  }

  lemma AnyDestSplit(lines: seq<Line>, k: Key)
    requires lines != []
    ensures AnyDest(lines, k) <==> (lines[0].RoutePush? && PushDest(lines[0].push, k)) || AnyDest(lines[1..], k)
  {
    var rest := lines[1..];
    if i :| 0 <= i < |rest| && rest[i].RoutePush? && PushDest(rest[i].push, k) { assert lines[i + 1] == rest[i]; }
    if i :| 0 <= i < |lines| && lines[i].RoutePush? && PushDest(lines[i].push, k) {
      assert i > 0 ==> rest[i - 1] == lines[i];
    }
  }

  lemma {:induction false} ParseFromDest(st: Parsed, lines: seq<Line>, k: Key)
    ensures ParsedDest(ParseFrom(st, lines), k) <==> ParsedDest(st, k) || AnyDest(lines, k)
    decreases |lines|
  {
    if lines != [] {
      ParseLineDest(st, lines[0], k);
      ParseFromDest(ParseLine(st, lines[0]), lines[1..], k);
      AnyDestSplit(lines, k);
    }
  }

  lemma DomainRoutesDest(entries: seq<DomainEntry>, k: Key)
    ensures HasDest(DomainRoutes(entries), k) <==> EntryDest(entries, k)
  {
    if EntryDest(entries, k) {
      var i :| 0 <= i < |entries| && k.address in entries[i].ips;
      assert RouteDest(DomainRoutes(entries)[i], k);
    }
  }

  lemma ParseDest(lines: seq<Line>, g: bool, k: Key)
    ensures HasDest(Parse(lines, g).routes, k) <==> AnyDest(lines, k)
  {
    var st := ParseFrom(NOTHING, lines);
    ParseFromDest(NOTHING, lines, k);
    DomainRoutesDest(st.domains, k);
    HasDestAppend(st.ipRoutes, DomainRoutes(st.domains), k);
  }

  // ---- how a load classifies a merged line ----

  lemma {:induction false} LabelChars(d: string)
    requires forall i :: 0 <= i < |Split(d, '.')| ==> DomainLabel(Split(d, '.')[i])
    ensures forall i :: 0 <= i < |d| ==> AlnumChar(d[i]) || d[i] == '-' || d[i] == '.'
    decreases |d|
  {
    var labels, n := Split(d, '.'), IndexOf(d, '.');
    assert DomainLabel(labels[0]);
    if n < |d| {
      var rest := d[n + 1..];
      forall i | 0 <= i < |Split(rest, '.')| ensures DomainLabel(Split(rest, '.')[i]) {
        assert Split(rest, '.')[i] == labels[i + 1];
      }
      LabelChars(rest);
      forall i | 0 <= i < |d| ensures AlnumChar(d[i]) || d[i] == '-' || d[i] == '.' {
        if i < n { assert d[i] == labels[0][i]; } else if i > n { assert d[i] == rest[i - n - 1]; }
      }
    } else {
      assert labels[0] == d;
    }
  }

  lemma ValidDomainIsToken(d: string)
    requires ValidDomain(d)
    ensures Token(d) && ',' !in d
  {
    LabelChars(d);
    if d == "" { SplitNone("", '.'); }
  }

  /** A description without markers keeps a line a plain route, whatever other sources follow. */
  lemma PlainStays(desc: string, source: string)
    requires !HasMarker(desc) && BeginsWith(source, desc)
    ensures ProvenanceOf(Trim(source)) == Plain
  {
    if HasPrefix(Trim(source), COMMON) {
      NoForgedPrefix(desc, source, COMMON);
      OccursShorter(desc, COMMON, "__common__");
    }
    if HasPrefix(Trim(source), USER_DOMAIN) {
      NoForgedPrefix(desc, source, USER_DOMAIN);
      OccursShorter(desc, USER_DOMAIN, "__user_domain__");
    }
  }

  lemma {:induction false} OccursShorter(s: string, sub: string, short: string)
    requires Occurs(s, sub) && HasPrefix(sub, short)
    ensures Occurs(s, short)
  {
    if !HasPrefix(s, sub) { OccursShorter(s[1..], sub, short); }
  }

  lemma NoForgedPrefix(desc: string, source: string, marker: string)
    requires BeginsWith(source, desc) && HasPrefix(Trim(source), marker) && ',' !in marker && marker != ""
    ensures Occurs(desc, marker)
  {
    var k := TrimStandsAt(source);
    assert source[k..k + |marker|] == marker;
    if source != desc {
      var n := |desc|;
      assert source[n] == (desc + [','])[n] == ',';
      assert k <= n;
      forall i | k <= i < k + |marker| ensures source[i] != ',' { assert source[i] == marker[i - k]; }
      assert source[..n] == desc;
    }
    assert desc[k..k + |marker|] == marker;
    OccursAt(desc, marker, k);
  }

  lemma CommonStays(r: ExpandedRoute, source: string)
    requires BeginsWith(source, CommonRequest(r).source)
    ensures ProvenanceOf(Trim(source)) == FromCommon
  {
    assert Token(COMMON);
    assert HasPrefix(source, COMMON);
    TrimKeepsToken(COMMON, source);
  }

  /** The shape of a comment that starts with a domain source: the marked domain, then the end, a blank or a comma. */
  ghost predicate DomainFirst(source: string, d: string) {
    && HasPrefix(source, USER_DOMAIN + d)
    && var n := |USER_DOMAIN + d|; |source| == n || source[n] == ' ' || source[n] == ','
  }

  lemma DomainSourceShape(r: CcdRoute, source: string)
    requires BeginsWith(source, WithDesc(USER_DOMAIN + r.domain, r.description))
    ensures DomainFirst(source, r.domain)
  {}

  lemma TrimKeepsShape(source: string, d: string)
    requires Token(d) && DomainFirst(source, d)
    ensures DomainFirst(Trim(source), d)
  {
    ConcatToken(USER_DOMAIN, d);
    TrimKeepsToken(USER_DOMAIN + d, source);
    var t, n := Trim(source), |USER_DOMAIN + d|;
    if |t| > n { assert t[n] == source[n]; }
  }

  lemma ConcatToken(s: string, t: string)
    requires Token(s) && Token(t)
    ensures Token(s + t)
  {}

  lemma MarkedIsFromDomains(comment: string, d: string)
    requires DomainFirst(comment, d)
    ensures ProvenanceOf(comment) == FromDomains
  {
    assert comment[..|USER_DOMAIN + d|] == USER_DOMAIN + d;
    assert comment[2] == 'u' && COMMON[2] == 'c';
    assert HasPrefix(comment, USER_DOMAIN);
  }

  lemma DomainStays(r: CcdRoute, source: string)
    requires ValidDomain(r.domain) && BeginsWith(source, WithDesc(USER_DOMAIN + r.domain, r.description))
    ensures ProvenanceOf(Trim(source)) == FromDomains && SegmentNames(Split(Trim(source), ',')) != []
  {
    var d, comment := r.domain, Trim(source);
    ValidDomainIsToken(d);
    DomainSourceShape(r, source);
    TrimKeepsShape(source, d);
    MarkedIsFromDomains(comment, d);
    FirstSegment(comment, d);
    SegmentNamesDomain(Split(comment, ',')[0], d);
  }

  lemma FirstSegment(comment: string, d: string)
    requires DomainFirst(comment, d) && ',' !in d
    ensures var seg := Split(comment, ',')[0];
            DomainFirst(seg, d) && (|seg| > |USER_DOMAIN + d| ==> seg[|USER_DOMAIN + d|] == ' ')
  {
    var n, i := |USER_DOMAIN + d|, IndexOf(comment, ',');
    forall j | 0 <= j < n ensures comment[j] != ',' { assert comment[j] == (USER_DOMAIN + d)[j]; }
    assert comment[..i][..n] == comment[..n];
  }

  lemma SegmentNamesDomain(seg: string, d: string)
    requires Token(d) && DomainFirst(seg, d) && (|seg| > |USER_DOMAIN + d| ==> seg[|USER_DOMAIN + d|] == ' ')
    ensures SegmentName(seg).Some? && SegmentName(seg).value.domain == d
  {
    assert Token(USER_DOMAIN);
    TrimKeepsShape(seg, d);
    ConcatToken(USER_DOMAIN, d);
    TrimKeepsToken(USER_DOMAIN + d, seg);
    var s := Trim(seg);
    var rest := s[|USER_DOMAIN|..];
    assert HasPrefix(rest, d) && (|rest| > |d| ==> rest[|d|] == ' ') by {
      assert s[..|USER_DOMAIN + d|] == USER_DOMAIN + d;
      assert rest[..|d|] == d;
      if |rest| > |d| { assert rest[|d|] == s[|USER_DOMAIN + d|] == seg[|USER_DOMAIN + d|]; }
    }
    assert HasPrefix(s, USER_DOMAIN);
    TrimKeepsToken(d, rest);
    var t := Trim(rest);
    assert t == d + t[|d|..];
    if |t| > |d| { assert t[|d|] == rest[|d|]; }
    FieldsToken(d, t[|d|..]);
  }

  // ---- destinations over one save and load ----

  ghost predicate Requested(requests: seq<Push>, k: Key) {
    exists i :: 0 <= i < |requests| && requests[i].key == k
  }

  lemma RouteRequests(r: CcdRoute, k: Key)
    ensures Requested(CustomRequests(r), k) <==> RouteDest(r, k)
  {
    if r.kind.DomainKind? {
      if RouteDest(r, k) {
        var i :| 0 <= i < |r.resolvedIPs| && r.resolvedIPs[i] == k.address;
        assert CustomRequests(r)[i].key == k;
      }
    } else {
      assert CustomRequests(r)[0].key == Key(r.address, r.mask);
    }
  }

  lemma RequestedAppend(xs: seq<Push>, ys: seq<Push>, k: Key)
    ensures Requested(xs + ys, k) <==> Requested(xs, k) || Requested(ys, k)
  {
    var all := xs + ys;
    if i :| 0 <= i < |xs| && xs[i].key == k { assert all[i].key == k; }
    if i :| 0 <= i < |ys| && ys[i].key == k { assert all[|xs| + i].key == k; }
  }

  lemma {:induction false} CustomRequested(custom: seq<CcdRoute>, k: Key)
    ensures Requested(AllCustom(custom), k) <==> HasDest(custom, k)
  {
    if custom != [] {
      var n := |custom| - 1;
      CustomRequested(custom[..n], k);
      RouteRequests(custom[n], k);
      RequestedAppend(AllCustom(custom[..n]), CustomRequests(custom[n]), k);
      HasDestAppend(custom[..n], [custom[n]], k);
      assert custom == custom[..n] + [custom[n]];
      assert [custom[n]][0] == custom[n];
    }
  }

  lemma {:induction false} RequestOrigin(custom: seq<CcdRoute>, p: Push) returns (r: CcdRoute)
    requires p in AllCustom(custom)
    ensures r in custom && p in CustomRequests(r)
  {
    var n := |custom| - 1;
    r := custom[n];
    if p !in CustomRequests(r) { r := RequestOrigin(custom[..n], p); }
  }

  lemma SourceStays(r: CcdRoute, p: Push, source: string)
    requires RouteOk(r) && p in CustomRequests(r) && BeginsWith(source, p.source)
    ensures PushDest(Push(p.key, source), p.key)
    ensures forall k :: PushDest(Push(p.key, source), k) ==> k == p.key
  {
    if r.kind.DomainKind? { DomainStays(r, source); } else { PlainStays(r.description, source); }
  }

  ghost predicate Storable(routes: seq<CcdRoute>) {
    (forall i :: 0 <= i < |routes| ==> RouteOk(routes[i])) && ResolvedIPv4(routes)
  }

  lemma StoredNotBlank(custom: seq<CcdRoute>, k: Key)
    requires Storable(custom) && HasDest(custom, k)
    ensures !Blank(k) && k.address.To4().Some? && k.mask.To4().Some?
  {}

  lemma {:induction false} CommonOrigin(common: seq<ExpandedRoute>, p: Push) returns (r: ExpandedRoute)
    requires p in AllCommon(common)
    ensures p == CommonRequest(r)
  {
    var i :| 0 <= i < |common| && AllCommon(common)[i] == p;
    r := common[i];
  }

  /** A merged line counts for its own destination when the user asked for it, and for nothing otherwise. */
  lemma MergedLine(custom: seq<CcdRoute>, common: seq<ExpandedRoute>, i: nat, k: Key)
    requires Storable(custom) && i < |Merged(custom, common)|
    ensures var p := Merged(custom, common)[i]; PushDest(p, k) <==> k == p.key && HasDest(custom, k)
  {
    var requests, out := AllCustom(custom) + AllCommon(common), Merged(custom, common);
    var p := out[i];
    MergeKeys(requests);
    assert KeysOf(out)[i] == p.key;
    assert KeyAt(out, p.key) == i by {
      var j := KeyAt(out, p.key);
      assert j <= i && KeysOf(out)[j] == p.key;
    }
    MergeFirst(requests, p.key);
    FirstSourceConcat(AllCustom(custom), AllCommon(common), p.key);
    FirstSourceIsRequested(AllCustom(custom), p.key);
    FirstSourceIsRequested(AllCommon(common), p.key);
    CustomRequested(custom, p.key);
    MergedSource(custom, common, p, k);
  }

  lemma MergedSource(custom: seq<CcdRoute>, common: seq<ExpandedRoute>, p: Push, k: Key)
    requires Storable(custom)
    requires var own, shared := FirstSource(AllCustom(custom), p.key), FirstSource(AllCommon(common), p.key);
             if own != [] then BeginsWith(p.source, own[0]) else shared != [] && BeginsWith(p.source, shared[0])
    ensures PushDest(p, k) <==> k == p.key && HasDest(custom, k)
  {
    var own, shared := FirstSource(AllCustom(custom), p.key), FirstSource(AllCommon(common), p.key);
    FirstSourceIsRequested(AllCustom(custom), p.key);
    CustomRequested(custom, p.key);
    if own != [] {
      var q := Push(p.key, own[0]);
      var r := RequestOrigin(custom, q);
      SourceStays(r, q, p.source);
      assert Requested(AllCustom(custom), p.key) by {
        var i :| 0 <= i < |AllCustom(custom)| && AllCustom(custom)[i] == q;
      }
    } else {
      FirstSourceIsRequested(AllCommon(common), p.key);
      var r := CommonOrigin(common, Push(p.key, shared[0]));
      CommonStays(r, p.source);
    }
  }

  lemma {:induction false} RouteLinesAre(pushes: seq<Push>)
    ensures |RouteLines(pushes)| == |pushes|
    ensures forall i :: 0 <= i < |pushes| ==> RouteLines(pushes)[i] == RoutePush(pushes[i])
  {
    if pushes != [] { RouteLinesAre(pushes[1..]); }
  }

  lemma MergedDest(custom: seq<CcdRoute>, common: seq<ExpandedRoute>, k: Key)
    requires Storable(custom)
    ensures AnyDest(RouteLines(Merged(custom, common)), k) <==> HasDest(custom, k)
  {
    var out, lines := Merged(custom, common), RouteLines(Merged(custom, common));
    RouteLinesAre(out);
    if i :| 0 <= i < |lines| && lines[i].RoutePush? && PushDest(lines[i].push, k) { MergedLine(custom, common, i, k); }
    if HasDest(custom, k) {
      var requests := AllCustom(custom) + AllCommon(common);
      StoredNotBlank(custom, k);
      CustomRequested(custom, k);
      FirstSourceIsRequested(AllCustom(custom), k);
      FirstSourceConcat(AllCustom(custom), AllCommon(common), k);
      MergeFirst(requests, k);
      var i := KeyAt(out, k);
      MergedLine(custom, common, i, k);
      assert lines[i].RoutePush? && PushDest(lines[i].push, k);
    }
  }

  lemma AnyDestAppend(xs: seq<Line>, ys: seq<Line>, k: Key)
    ensures AnyDest(xs + ys, k) <==> AnyDest(xs, k) || AnyDest(ys, k)
  {
    var all := xs + ys;
    if i :| 0 <= i < |xs| && xs[i].RoutePush? && PushDest(xs[i].push, k) { assert all[i] == xs[i]; }
    if i :| 0 <= i < |ys| && ys[i].RoutePush? && PushDest(ys[i].push, k) { assert all[|xs| + i] == ys[i]; }
  }

  lemma {:induction false} NoRoutePush(pushes: seq<Push>, routes: seq<CcdRoute>)
    ensures forall i :: 0 <= i < |ExclusionLines(pushes)| ==> ExclusionLines(pushes)[i].ExclusionPush?
    ensures forall i :: 0 <= i < |Declarations(routes)| ==> Declarations(routes)[i].Declaration?
    decreases |pushes| + |routes|
  {
    if pushes != [] { NoRoutePush(pushes[1..], []); }
    if routes != [] { NoRoutePush([], routes[1..]); }
  }

  lemma NoDest(lines: seq<Line>, k: Key)
    requires forall i :: 0 <= i < |lines| ==> !lines[i].RoutePush?
    ensures !AnyDest(lines, k)
  {}

  lemma HeadAndTail(ccd: Ccd, g: Globals)
    ensures forall i :: 0 <= i < |Head(ccd, g)| ==> !Head(ccd, g)[i].RoutePush?
    ensures forall i :: 0 <= i < |Tail(ccd)| ==> !Tail(ccd)[i].RoutePush?
  {
    NoRoutePush(Exclusions(g.exclusions, ccd.exclusions), ccd.routes);
  }

  lemma RenderDest(ccd: Ccd, common: seq<ExpandedRoute>, g: Globals, k: Key)
    requires Storable(ccd.routes)
    ensures AnyDest(Render(ccd, common, g), k) <==> HasDest(ccd.routes, k)
  {
    var head, routes, tail := Head(ccd, g), RouteLines(Merged(ccd.routes, common)), Tail(ccd);
    MergedDest(ccd.routes, common, k);
    HeadAndTail(ccd, g);
    NoDest(head, k);
    NoDest(tail, k);
    AnyDestAppend(routes, tail, k);
    AnyDestAppend(head, routes + tail, k);
  }

  /** Saving and loading keeps the destinations of the user's own routes, whatever common routes are merged in and
      however sources collide on one line. */
  lemma DestinationsSurvive(ccd: Ccd, common: seq<ExpandedRoute>, g: Globals, redirectNow: bool, k: Key)
    requires Storable(ccd.routes)
    ensures HasDest(Parse(Render(ccd, common, g), redirectNow).routes, k) <==> HasDest(ccd.routes, k)
  {
    ParseDest(Render(ccd, common, g), redirectNow, k);
    RenderDest(ccd, common, g, k);
  }
}
