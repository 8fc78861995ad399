/** What a load hands back is accepted again: while descriptions are free of commas and no two IP routes share a
    destination, every route and exclusion of a loaded file passes validation, so re-renders go through. */
module CcdReloads {
  import opened Wrappers
  import opened Text
  import opened Ipv4
  import opened RoutePolicy
  import opened CcdMerge
  import opened CcdFile
  import opened CcdRoundTrip
  import opened CcdHistory
  import opened CcdComments
  import opened CcdIpRoutes
  import CcdDomains
  import CcdText
  import CommonRoutes

  // ---- what a user and the shared list ask for ----

  /** No two IP routes share a destination. */
  ghost predicate DistinctIps(routes: seq<CcdRoute>) {
    forall i, j :: 0 <= i < j < |routes| && !routes[i].kind.DomainKind? && !routes[j].kind.DomainKind? ==>
      Key(routes[i].address, routes[i].mask) != Key(routes[j].address, routes[j].mask)
  }

  ghost predicate NeatRoutes(routes: seq<CcdRoute>) {
    Storable(routes) && DistinctIps(routes) && forall i :: 0 <= i < |routes| ==> ',' !in routes[i].description
  }

  predicate NeatCommon(r: ExpandedRoute) {
    CcdDomains.CleanCommon(r) && ',' !in r.description
  }

  lemma WithDescTidy(name: string, desc: string, marker: string)
    requires Token(name) && HasPrefix(name, marker) && marker != "" && ',' !in name && ',' !in desc
    requires forall s :: Occurs(s, marker) ==> HasMarker(s)
    ensures ',' !in WithDesc(name, desc) && Marked(WithDesc(name, desc))
  {
    TrimWithin(desc);
    TrimKeepsToken(name, WithDesc(name, desc));
    assert HasPrefix(Trim(WithDesc(name, desc)), marker);
  }

  lemma DomainSourceTidy(r: CcdRoute)
    requires RouteOk(r) && r.kind.DomainKind? && ',' !in r.description
    ensures ',' !in SourceOf(r) && Marked(SourceOf(r))
  {
    ValidDomainIsToken(r.domain);
    assert Token(USER_DOMAIN) && ',' !in USER_DOMAIN && HasPrefix(USER_DOMAIN, "__user_domain__");
    ConcatToken(USER_DOMAIN, r.domain);
    assert HasPrefix(USER_DOMAIN + r.domain, "__user_domain__");
    WithDescTidy(USER_DOMAIN + r.domain, r.description, "__user_domain__");
  }

  lemma CommonSourceTidy(r: ExpandedRoute)
    requires NeatCommon(r)
    ensures ',' !in CommonRequest(r).source && Marked(CommonRequest(r).source)
  {
    var source := CommonRequest(r).source;
    assert Token(COMMON) && ',' !in COMMON && HasPrefix(COMMON, "__common__");
    TrimWithin(r.description);
    assert HasPrefix(source, COMMON);
    TrimKeepsToken(COMMON, source);
    assert HasPrefix(Trim(source), "__common__");
  }

  ghost predicate AllMarked(requests: seq<Push>) {
    forall i :: 0 <= i < |requests| ==> ',' !in requests[i].source && Marked(requests[i].source)
  }

  lemma TidyWithMarked(requests: seq<Push>, more: seq<Push>)
    requires TidyRequests(requests) && AllMarked(more)
    ensures TidyRequests(requests + more)
  {
    var all := requests + more;
    forall i | 0 <= i < |all| ensures ',' !in all[i].source && (i >= |requests| ==> Marked(all[i].source)) {
      assert all[i] == if i < |requests| then requests[i] else more[i - |requests|];
    }
  }

  lemma TidyWithIp(requests: seq<Push>, p: Push)
    requires TidyRequests(requests) && ',' !in p.source
    requires forall i :: 0 <= i < |requests| && requests[i].key == p.key ==> Marked(requests[i].source)
    ensures TidyRequests(requests + [p])
  {}

  /** Before an IP route only domain routes ask for its destination. */
  lemma EarlierAreDomains(custom: seq<CcdRoute>, n: nat)
    requires NeatRoutes(custom) && n < |custom| && !custom[n].kind.DomainKind?
    ensures forall p :: p in AllCustom(custom[..n]) && p.key == Key(custom[n].address, custom[n].mask) ==>
        Marked(p.source)
  {
    forall p | p in AllCustom(custom[..n]) && p.key == Key(custom[n].address, custom[n].mask) ensures Marked(p.source) {
      var r := RequestOrigin(custom[..n], p);
      var j :| 0 <= j < n && custom[..n][j] == r;
      assert custom[j] == r && r.kind.DomainKind?;
      DomainSourceTidy(r);
    }
  }

  lemma {:induction false} CustomTidy(custom: seq<CcdRoute>, n: nat)
    requires NeatRoutes(custom) && n <= |custom|
    ensures TidyRequests(AllCustom(custom[..n]))
  {
    if n > 0 {
      var r := custom[n - 1];
      assert custom[..n][..n - 1] == custom[..n - 1];
      CustomTidy(custom, n - 1);
      if r.kind.DomainKind? {
        DomainSourceTidy(r);
        TidyWithMarked(AllCustom(custom[..n - 1]), CustomRequests(r));
      } else {
        EarlierAreDomains(custom, n - 1);
        TidyWithIp(AllCustom(custom[..n - 1]), Push(Key(r.address, r.mask), r.description));
      }
    }
  }

  lemma RequestsTidy(custom: seq<CcdRoute>, common: seq<ExpandedRoute>)
    requires NeatRoutes(custom) && forall i :: 0 <= i < |common| ==> NeatCommon(common[i])
    ensures TidyRequests(AllCustom(custom) + AllCommon(common))
  {
    CustomTidy(custom, |custom|);
    assert custom[..|custom|] == custom;
    forall i | 0 <= i < |common| ensures ',' !in AllCommon(common)[i].source && Marked(AllCommon(common)[i].source) {
      CommonSourceTidy(common[i]);
    }
    TidyWithMarked(AllCustom(custom), AllCommon(common));
  }

  // ---- IP routes that are loaded ----

  lemma FirstPiece(source: string, first: string)
    requires BeginsWith(source, first) && ',' !in first
    ensures Split(source, ',')[0] == first
  {
    if source == first {
      SplitNone(first, ',');
    } else {
      var rest := source[|first| + 1..];
      assert source == first + [','] + rest;
      SplitFirst(first, ',', rest);
    }
  }

  /** The line of an IP route that asked first is read back with that route's description, trimmed. */
  lemma PlainDescription(custom: seq<CcdRoute>, common: seq<ExpandedRoute>, i: nat)
    requires NeatRoutes(custom) && forall j :: 0 <= j < |common| ==> NeatCommon(common[j])
    requires i < |Merged(custom, common)| && ProvenanceOf(Trim(Merged(custom, common)[i].source)) == Plain
    ensures var p, n := Merged(custom, common)[i], FirstRequester(custom, Merged(custom, common)[i].key);
            && n < |custom| && IsIp(custom[n], p.key)
            && PersonalDescription(Trim(p.source)) == Trim(custom[n].description)
  {
    var requests, p := AllCustom(custom) + AllCommon(common), Merged(custom, common)[i];
    RequestsTidy(custom, common);
    MergeTidy(requests);
    assert TidyLine(p, requests);
    MergedPlain(custom, common, p.key);
    IpFirstRequests(custom, p.key);
    var n := FirstRequester(custom, p.key);
    MergeKeys(requests);
    OnlyAt(Merged(custom, common), p.key, i);
    MergeFirst(requests, p.key);
    StoredNotBlank(custom, p.key);
    FirstSourceIs(custom, p.key);
    FirstSourceConcat(AllCustom(custom), AllCommon(common), p.key);
    FirstPiece(p.source, custom[n].description);
    TrimNeat(custom[n].description);
    TidyDescription(p, requests);
  }

  lemma {:induction false} IpOrigin(st: Parsed, lines: seq<Line>, r: CcdRoute)
    requires r in ParseFrom(st, lines).ipRoutes
    ensures r in st.ipRoutes || exists i :: 0 <= i < |lines| && ReadAs(lines[i], r)
    decreases |lines|
  {
    if lines != [] {
      IpOrigin(ParseLine(st, lines[0]), lines[1..], r);
      if r !in ParseLine(st, lines[0]).ipRoutes {
        var i :| 0 <= i < |lines[1..]| && ReadAs(lines[1..][i], r);
        assert ReadAs(lines[i + 1], r);
      } else if r !in st.ipRoutes {
        assert ReadAs(lines[0], r);
      }
    }
  }

  /** The line is plain and read as this IP route. */
  ghost predicate ReadAs(line: Line, r: CcdRoute) {
    && line.RoutePush? && ProvenanceOf(Trim(line.push.source)) == Plain
    && r == PlainRoute(line.push, Trim(line.push.source))
  }

  lemma RenderedPush(ccd: Ccd, common: seq<ExpandedRoute>, g: Globals, i: nat) returns (j: nat)
    requires i < |Render(ccd, common, g)| && Render(ccd, common, g)[i].RoutePush?
    ensures j < |Merged(ccd.routes, common)| && Render(ccd, common, g)[i] == RoutePush(Merged(ccd.routes, common)[j])
  {
    var head, routes, tail := Head(ccd, g), RouteLines(Merged(ccd.routes, common)), Tail(ccd);
    HeadAndTail(ccd, g);
    RouteLinesAre(Merged(ccd.routes, common));
    InThree(head, routes, tail, i);
    j := i - |head|;
  }

  lemma InThree(xs: seq<Line>, ys: seq<Line>, zs: seq<Line>, i: nat)
    requires i < |xs| + |ys| + |zs|
    ensures |xs + (ys + zs)| == |xs| + |ys| + |zs|
    ensures (xs + (ys + zs))[i] ==
            if i < |xs| then xs[i] else if i < |xs| + |ys| then ys[i - |xs|] else zs[i - |xs| - |ys|]
  {}

  lemma LoadedIpOk(ccd: Ccd, common: seq<ExpandedRoute>, g: Globals, r: CcdRoute)
    requires NeatRoutes(ccd.routes) && forall j :: 0 <= j < |common| ==> NeatCommon(common[j])
    requires r in ParseFrom(NOTHING, Render(ccd, common, g)).ipRoutes
    ensures RouteOk(r) && ',' !in r.description && r.kind.IpKind?
  {
    var lines := Render(ccd, common, g);
    IpOrigin(NOTHING, lines, r);
    var i :| 0 <= i < |lines| && ReadAs(lines[i], r);
    var j := RenderedPush(ccd, common, g, i);
    PlainDescription(ccd.routes, common, j);
    var asker := ccd.routes[FirstRequester(ccd.routes, lines[i].push.key)];
    TrimNeat(asker.description);
    assert RouteOk(asker) && r.address == asker.address && r.mask == asker.mask;
  }

  ghost predicate UniqueLines(lines: seq<Line>) {
    forall i, j :: 0 <= i < j < |lines| && lines[i].RoutePush? && lines[j].RoutePush? ==>
        lines[i].push.key != lines[j].push.key
  }

  lemma UniqueRender(ccd: Ccd, common: seq<ExpandedRoute>, g: Globals)
    ensures UniqueLines(Render(ccd, common, g))
  {
    var head, pushes, tail := Head(ccd, g), Merged(ccd.routes, common), Tail(ccd);
    HeadAndTail(ccd, g);
    MergeKeys(AllCustom(ccd.routes) + AllCommon(common));
    RouteLinesAre(pushes);
    var routes := RouteLines(pushes);
    forall i, j | 0 <= i < j < |routes| ensures routes[i].push.key != routes[j].push.key {
      assert KeysOf(pushes)[i] != KeysOf(pushes)[j];
    }
    UniqueBefore(routes, tail);
    UniqueAfter(head, routes + tail);
  }

  lemma UniqueBefore(xs: seq<Line>, ys: seq<Line>)
    requires UniqueLines(xs) && forall i :: 0 <= i < |ys| ==> !ys[i].RoutePush?
    ensures UniqueLines(xs + ys)
  {}

  lemma UniqueAfter(xs: seq<Line>, ys: seq<Line>)
    requires UniqueLines(ys) && forall i :: 0 <= i < |xs| ==> !xs[i].RoutePush?
    ensures UniqueLines(xs + ys)
  {
    var all := xs + ys;
    forall i, j | 0 <= i < j < |all| && all[i].RoutePush? && all[j].RoutePush?
        ensures all[i].push.key != all[j].push.key {
      assert all[i] == ys[i - |xs|] && all[j] == ys[j - |xs|];
    }
  }

  /** No line asks for a destination that is already there. */
  ghost predicate NewFor(routes: seq<CcdRoute>, lines: seq<Line>) {
    forall i, j :: 0 <= i < |lines| && lines[i].RoutePush? && 0 <= j < |routes| ==> !IsIp(routes[j], lines[i].push.key)
  }

  lemma {:induction false} ParsedDistinct(st: Parsed, lines: seq<Line>)
    requires DistinctIps(st.ipRoutes) && UniqueLines(lines) && NewFor(st.ipRoutes, lines)
    ensures DistinctIps(ParseFrom(st, lines).ipRoutes)
    decreases |lines|
  {
    if lines != [] {
      var next, rest := ParseLine(st, lines[0]), lines[1..];
      assert UniqueLines(rest);
      NextNew(st, lines);
      ParsedDistinct(next, rest);
    }
  }

  lemma NextNew(st: Parsed, lines: seq<Line>)
    requires lines != [] && DistinctIps(st.ipRoutes) && UniqueLines(lines) && NewFor(st.ipRoutes, lines)
    ensures DistinctIps(ParseLine(st, lines[0]).ipRoutes) && NewFor(ParseLine(st, lines[0]).ipRoutes, lines[1..])
  {
    var before, after, rest := st.ipRoutes, ParseLine(st, lines[0]).ipRoutes, lines[1..];
    forall i, j | 0 <= i < |rest| && rest[i].RoutePush? && 0 <= j < |after| ensures !IsIp(after[j], rest[i].push.key) {
      assert rest[i] == lines[i + 1];
      if j < |before| { assert after[j] == before[j]; }
    }
    forall i, j | 0 <= i < j < |after| && !after[i].kind.DomainKind? && !after[j].kind.DomainKind?
      ensures Key(after[i].address, after[i].mask) != Key(after[j].address, after[j].mask)
    {
      assert after[i] == before[i];
      if j == |before| { assert !IsIp(before[i], lines[0].push.key); } else { assert after[j] == before[j]; }
    }
  }

  // ---- domains that are loaded ----

  ghost predicate NeatEntries(entries: seq<DomainEntry>) {
    forall i :: 0 <= i < |entries| ==> Neat(entries[i].description)
  }

  ghost predicate NeatNames(names: seq<Named>) {
    forall i :: 0 <= i < |names| ==> Neat(names[i].description)
  }

  lemma {:induction false} RegisterAllNeat(entries: seq<DomainEntry>, names: seq<Named>, ip: AddrText)
    requires NeatEntries(entries) && NeatNames(names)
    ensures NeatEntries(RegisterAll(entries, names, ip))
    decreases |names|
  {
    if names != [] {
      assert Neat(names[0].description);
      assert NeatNames(names[1..]);
      RegisterAllNeat(Register(entries, names[0], ip), names[1..], ip);
    }
  }

  lemma ParseLineNeat(st: Parsed, line: Line)
    requires NeatEntries(st.domains) && NeatNames(CcdDomains.LineNames(line))
    ensures NeatEntries(ParseLine(st, line).domains)
  {
    match line
    case RoutePush(p) =>
      if ProvenanceOf(Trim(p.source)) == FromDomains {
        RegisterAllNeat(st.domains, SegmentNames(Split(Trim(p.source), ',')), p.key.address);
      }
    case Declaration(domain, description) =>
      match DeclaredName(domain, description) {
        case Some(n) => assert CcdDomains.LineNames(line)[0] == n;
        case None =>
      }
    case _ =>
  }

  lemma {:induction false} ParseFromNeat(st: Parsed, lines: seq<Line>)
    requires NeatEntries(st.domains) && forall i :: 0 <= i < |lines| ==> NeatNames(CcdDomains.LineNames(lines[i]))
    ensures NeatEntries(ParseFrom(st, lines).domains)
    decreases |lines|
  {
    if lines != [] {
      ParseLineNeat(st, lines[0]);
      ParseFromNeat(ParseLine(st, lines[0]), lines[1..]);
    }
  }

  /** A name and what follows it. */
  lemma NamedOf(d: string, desc: string)
    ensures NamedBy([d] + Fields(desc)) == Some(Named(d, ReadDescription(desc)))
  {
    assert ([d] + Fields(desc))[1..] == Fields(desc);
  }

  lemma DeclaredFields(d: string, desc: string)
    requires Token(d)
    ensures Fields(Trim(DeclaredText(d, desc))) == [d] + Fields(desc)
  {
    FieldsTrim(DeclaredText(d, desc));
    if desc == "" {
      assert d + "" == d;
      FieldsToken(d, "");
    } else {
      FieldsSpace(' ', desc);
      FieldsToken(d, [' '] + desc);
    }
  }

  lemma DeclarationNeat(r: CcdRoute)
    requires RouteOk(r) && r.kind.DomainKind? && Neat(r.description)
    ensures NeatNames(CcdDomains.LineNames(Declaration(r.domain, r.description)))
  {
    ValidDomainIsToken(r.domain);
    DeclaredFields(r.domain, r.description);
    NamedOf(r.domain, r.description);
    ReadDescriptionNeat(r.description);
  }

  lemma MarkedFields(d: string, desc: string)
    requires Token(d)
    ensures Fields(d + CcdDomains.DescTail(desc)) == [d] + Fields(desc)
  {
    var tail := CcdDomains.DescTail(desc);
    FieldsTrim(desc);
    FieldsToken(d, tail);
    if tail != "" {
      FieldsSpace(' ', Trim(desc));
      assert tail == [' '] + Trim(desc);
    }
  }

  lemma DomainPieceNames(d: string, desc: string)
    requires Token(d)
    ensures SegmentName(USER_DOMAIN + (d + CcdDomains.DescTail(desc))) == Some(Named(d, ReadDescription(desc)))
  {
    var x := d + CcdDomains.DescTail(desc);
    assert Token(USER_DOMAIN);
    var y := TrimAfterToken(USER_DOMAIN, x);
    assert (USER_DOMAIN + y)[|USER_DOMAIN|..] == y && HasPrefix(USER_DOMAIN + y, USER_DOMAIN);
    FieldsTrim(y);
    MarkedFields(d, desc);
    NamedOf(d, desc);
  }

  lemma DomainPieceNeat(r: CcdRoute)
    requires RouteOk(r) && r.kind.DomainKind? && Neat(r.description)
    ensures SegmentName(SourceOf(r)).Some? ==> Neat(SegmentName(SourceOf(r)).value.description)
  {
    ValidDomainIsToken(r.domain);
    assert SourceOf(r) == USER_DOMAIN + (r.domain + CcdDomains.DescTail(r.description));
    DomainPieceNames(r.domain, r.description);
    ReadDescriptionNeat(r.description);
  }

  /** What a requested source names, if anything, is neat. */
  lemma SourceNamesNeat(custom: seq<CcdRoute>, common: seq<ExpandedRoute>, k: Key, source: string)
    requires NeatRoutes(custom) && Asked(AllCustom(custom) + AllCommon(common), k, source)
    ensures SegmentName(source).Some? ==> Neat(SegmentName(source).value.description)
  {
    var own, shared := AllCustom(custom), AllCommon(common);
    var i :| 0 <= i < |own + shared| && (own + shared)[i] == Push(k, source);
    if i < |own| {
      assert own[i] == Push(k, source);
      var r := RequestOrigin(custom, Push(k, source));
      var j :| 0 <= j < |custom| && custom[j] == r;
      assert source == SourceOf(r);
      if r.kind.DomainKind? {
        DomainPieceNeat(r);
      } else {
        SplitNone(source, ',');
        CcdDomains.UnmarkedNamesNothing(source, source);
      }
    } else {
      assert shared[i - |own|] == Push(k, source);
      CcdDomains.MarkedCommonNamesNothing(source);
    }
  }

  lemma {:induction false} SegmentNamesNeat(pieces: seq<string>)
    requires forall i :: 0 <= i < |pieces| && SegmentName(pieces[i]).Some? ==>
        Neat(SegmentName(pieces[i]).value.description)
    ensures NeatNames(SegmentNames(pieces))
  {
    if pieces != [] {
      SegmentNamesNeat(pieces[1..]);
    }
  }

  lemma LineNeat(custom: seq<CcdRoute>, common: seq<ExpandedRoute>, p: Push)
    requires NeatRoutes(custom) && TidyLine(p, AllCustom(custom) + AllCommon(common))
    ensures NeatNames(CcdDomains.LineNames(RoutePush(p)))
  {
    var pieces := Split(p.source, ',');
    forall i | 0 <= i < |pieces| && SegmentName(pieces[i]).Some?
        ensures Neat(SegmentName(pieces[i]).value.description) {
      SourceNamesNeat(custom, common, p.key, pieces[i]);
    }
    SegmentNamesNeat(pieces);
    PiecesTrimmed(p.source);
  }

  // ---- exclusions that are loaded ----

  /** A merged exclusion begins with the global marker, or it is exactly one of the user's. */
  ghost predicate OneSource(p: Push, user: seq<Subnet>) {
    || HasPrefix(p.source, EXCLUSION_GLOBAL)
    || exists i :: 0 <= i < |user| && p == Push(user[i].key, WithDesc(EXCLUSION_USER, user[i].description))
  }

  ghost predicate OneSourceEach(out: seq<Push>, user: seq<Subnet>) {
    forall i :: 0 <= i < |out| ==> OneSource(out[i], user)
  }

  lemma AddGlobal(out: seq<Push>, s: Subnet)
    requires OneSourceEach(out, [])
    ensures OneSourceEach(AddExclusion(out, s, EXCLUSION_GLOBAL), [])
  {}

  lemma {:induction false} GlobalFirst(subnets: seq<Subnet>)
    ensures OneSourceEach(AddExclusions([], subnets, EXCLUSION_GLOBAL), [])
  {
    if subnets != [] {
      var n := |subnets| - 1;
      GlobalFirst(subnets[..n]);
      AddGlobal(AddExclusions([], subnets[..n], EXCLUSION_GLOBAL), subnets[n]);
    }
  }

  lemma MoreUsers(p: Push, user: seq<Subnet>, more: seq<Subnet>)
    requires OneSource(p, user) && user <= more
    ensures OneSource(p, more)
  {
    if i :| 0 <= i < |user| && p == Push(user[i].key, WithDesc(EXCLUSION_USER, user[i].description)) {
      assert more[i] == user[i];
    }
  }

  lemma UserMarked(s: Subnet)
    ensures Occurs(WithDesc(EXCLUSION_USER, s.description), EXCLUSION_USER)
  {
    assert HasPrefix(WithDesc(EXCLUSION_USER, s.description), EXCLUSION_USER);
  }

  lemma AddUser(out: seq<Push>, user: seq<Subnet>, n: nat)
    requires n < |user| && OneSourceEach(out, user[..n])
    ensures OneSourceEach(AddExclusion(out, user[n], EXCLUSION_USER), user)
  {
    var after := AddExclusion(out, user[n], EXCLUSION_USER);
    forall i | 0 <= i < |after| ensures OneSource(after[i], user) {
      if i < |out| {
        MoreUsers(out[i], user[..n], user);
        if after[i] != out[i] && !HasPrefix(out[i].source, EXCLUSION_GLOBAL) {
          var j :| 0 <= j < n && out[i] == Push(user[j].key, WithDesc(EXCLUSION_USER, user[j].description));
          UserMarked(user[j]);
        }
      }
    }
  }

  lemma {:induction false} UserAfter(base: seq<Push>, user: seq<Subnet>, n: nat)
    requires OneSourceEach(base, []) && n <= |user|
    ensures OneSourceEach(AddExclusions(base, user[..n], EXCLUSION_USER), user[..n])
  {
    if n > 0 {
      assert user[..n][..n - 1] == user[..n - 1];
      UserAfter(base, user, n - 1);
      AddUser(AddExclusions(base, user[..n - 1], EXCLUSION_USER), user[..n], n - 1);
    }
  }

  lemma ReadExclusion(s: Subnet)
    ensures ParseExclusion(Push(s.key, WithDesc(EXCLUSION_USER, s.description))) == [Subnet(s.key, Trim(s.description))]
  {
    var d := Trim(s.description);
    assert Token(EXCLUSION_USER);
    if d == "" {
      TrimSame(EXCLUSION_USER);
    } else {
      var source := EXCLUSION_USER + " " + d;
      assert source[|source| - 1] == d[|d| - 1] && source[0] == EXCLUSION_USER[0];
      TrimSame(source);
      assert source[|EXCLUSION_USER|..] == [' '] + d;
      TrimLead(' ', d);
      TrimTwice(s.description);
    }
  }

  lemma ExclusionOk(p: Push, user: seq<Subnet>)
    requires OneSource(p, user) && forall i :: 0 <= i < |user| ==> SubnetOk(user[i])
    ensures forall i :: 0 <= i < |ParseExclusion(p)| ==> SubnetOk(ParseExclusion(p)[i])
  {
    if HasPrefix(p.source, EXCLUSION_GLOBAL) {
      MarkerRead(p);
    } else {
      var i :| 0 <= i < |user| && p == Push(user[i].key, WithDesc(EXCLUSION_USER, user[i].description));
      ReadExclusion(user[i]);
      TrimNeat(user[i].description);
      TrimWithin(user[i].description);
    }
  }

  lemma {:induction false} UserExclusionsOk(pushes: seq<Push>, user: seq<Subnet>)
    requires OneSourceEach(pushes, user) && forall i :: 0 <= i < |user| ==> SubnetOk(user[i])
    ensures forall i :: 0 <= i < |UserExclusions(pushes)| ==> SubnetOk(UserExclusions(pushes)[i])
  {
    if pushes != [] {
      ExclusionOk(pushes[0], user);
      UserExclusionsOk(pushes[1..], user);
    }
  }

  lemma LoadedExclusionsOk(ccd: Ccd, common: seq<ExpandedRoute>, g: Globals, redirectNow: bool)
    requires forall i :: 0 <= i < |ccd.exclusions| ==> SubnetOk(ccd.exclusions[i])
    ensures var loaded := Parse(Render(ccd, common, g), redirectNow).exclusions;
            forall i :: 0 <= i < |loaded| ==> SubnetOk(loaded[i])
  {
    LoadedFields(ccd, common, g, redirectNow);
    GlobalFirst(g.exclusions);
    UserAfter(AddExclusions([], g.exclusions, EXCLUSION_GLOBAL), ccd.exclusions, |ccd.exclusions|);
    assert ccd.exclusions[..|ccd.exclusions|] == ccd.exclusions;
    UserExclusionsOk(Exclusions(g.exclusions, ccd.exclusions), ccd.exclusions);
  }

  // ---- re-renders go through ----

  lemma LoadedDomainOk(ccd: Ccd, common: seq<ExpandedRoute>, g: Globals, redirectNow: bool, i: nat)
    requires NeatRoutes(ccd.routes) && forall j :: 0 <= j < |common| ==> NeatCommon(common[j])
    requires i < |ParseFrom(NOTHING, Render(ccd, common, g)).domains|
    ensures var e := ParseFrom(NOTHING, Render(ccd, common, g)).domains[i]; ValidDomain(e.domain) && Neat(e.description)
  {
    var st := ParseFrom(NOTHING, Render(ccd, common, g));
    NamesNeat(ccd, common, g);
    ParseFromNeat(NOTHING, Render(ccd, common, g));
    CcdDomains.DomainsSurvive(ccd, common, g, redirectNow, st.domains[i].domain);
    var loaded := Parse(Render(ccd, common, g), redirectNow).routes;
    assert loaded[|st.ipRoutes| + i] == DomainRoutes(st.domains)[i];
    assert CcdDomains.HasDomain(loaded, st.domains[i].domain);
  }

  lemma NamesNeat(ccd: Ccd, common: seq<ExpandedRoute>, g: Globals)
    requires NeatRoutes(ccd.routes) && forall j :: 0 <= j < |common| ==> NeatCommon(common[j])
    ensures forall i :: 0 <= i < |Render(ccd, common, g)| ==> NeatNames(CcdDomains.LineNames(Render(ccd, common, g)[i]))
  {
    var lines := Render(ccd, common, g);
    var requests := AllCustom(ccd.routes) + AllCommon(common);
    RequestsTidy(ccd.routes, common);
    MergeTidy(requests);
    forall i | 0 <= i < |lines| ensures NeatNames(CcdDomains.LineNames(lines[i])) {
      if lines[i].RoutePush? {
        var j := RenderedPush(ccd, common, g, i);
        LineNeat(ccd.routes, common, Merged(ccd.routes, common)[j]);
      } else if lines[i].Declaration? {
        var r := RenderedDeclaration(ccd, common, g, i);
        DeclarationNeat(r);
      }
    }
  }

  lemma RenderedDeclaration(ccd: Ccd, common: seq<ExpandedRoute>, g: Globals, i: nat) returns (r: CcdRoute)
    requires i < |Render(ccd, common, g)| && Render(ccd, common, g)[i].Declaration?
    ensures r in ccd.routes && r.kind.DomainKind? && Render(ccd, common, g)[i] == Declaration(r.domain, r.description)
  {
    var head, routes, tail := Head(ccd, g), RouteLines(Merged(ccd.routes, common)), Tail(ccd);
    RouteLinesAre(Merged(ccd.routes, common));
    HeadDeclaresNothing(ccd, g);
    InThree(head, routes, tail, i);
    var k := i - |head| - |routes|;
    assert tail[k] == Declarations(ccd.routes)[k - 1];
    r := DeclaredBy(ccd.routes, k - 1);
  }

  lemma HeadDeclaresNothing(ccd: Ccd, g: Globals)
    ensures forall i :: 0 <= i < |Head(ccd, g)| ==> !Head(ccd, g)[i].Declaration?
  {
    NoRoutePush(Exclusions(g.exclusions, ccd.exclusions), []);
  }

  lemma {:induction false} DeclaredBy(routes: seq<CcdRoute>, i: nat) returns (r: CcdRoute)
    requires i < |Declarations(routes)|
    ensures r in routes && r.kind.DomainKind? && Declarations(routes)[i] == Declaration(r.domain, r.description)
  {
    r := routes[0];
    var n := if r.kind.DomainKind? then 1 else 0;
    if n <= i { r := DeclaredBy(routes[1..], i - n); }
  }

  /** A load of a neat choice is neat: each route passes validation, descriptions stay free of commas, and no two IP
      routes share a destination. */
  lemma LoadedNeat(ccd: Ccd, common: seq<ExpandedRoute>, g: Globals, redirectNow: bool)
    requires NeatRoutes(ccd.routes) && forall j :: 0 <= j < |common| ==> NeatCommon(common[j])
    ensures NeatRoutes(Parse(Render(ccd, common, g), redirectNow).routes)
  {
    var lines := Render(ccd, common, g);
    var st, loaded := ParseFrom(NOTHING, lines), Parse(lines, redirectNow).routes;
    var n := |st.ipRoutes|;
    forall i | 0 <= i < |loaded| ensures RouteOk(loaded[i]) && ',' !in loaded[i].description {
      if i < n {
        LoadedIpOk(ccd, common, g, st.ipRoutes[i]);
      } else {
        LoadedDomainOk(ccd, common, g, redirectNow, i - n);
      }
    }
    forall k: Key ensures HasDest(loaded, k) <==> HasDest(ccd.routes, k) {
      DestinationsSurvive(ccd, common, g, redirectNow, k);
    }
    LoadedIPv4(loaded, ccd.routes);
    UniqueRender(ccd, common, g);
    ParsedDistinct(NOTHING, lines);
    assert forall i :: 0 <= i < n ==> loaded[i] == st.ipRoutes[i];
    assert forall i :: n <= i < |loaded| ==> loaded[i].kind.DomainKind?;
  }

  /** The static address is still free and fits the network of the time. */
  predicate AddressFits(client: Client, env: Env) {
    client.Static? ==> env.free && StaticAddressAccepted(env.globals.netIP, env.globals.mask, client.address)
  }

  ghost predicate NeatFile(file: seq<Line>, ccd: Ccd, env: Env) {
    RenderOf(file, ccd, env) && NeatRoutes(ccd.routes) && forall j :: 0 <= j < |env.common| ==>
        NeatCommon(env.common[j])
  }

  /** A re-render of such a file is accepted exactly when it can be written and the static address still fits. */
  lemma ReloadAcceptedExactly(file: seq<Line>, ccd: Ccd, env: Env, e: Env)
    requires NeatFile(file, ccd, env)
    ensures Accepted(Load(file, e), e) <==> e.written && AddressFits(ccd.client, e)
    ensures NeatRoutes(Load(file, e).routes) && Load(file, e).client == ccd.client
  {
    LoadedNeat(ccd, env.common, env.globals, e.globals.redirect);
    LoadedExclusionsOk(ccd, env.common, env.globals, e.globals.redirect);
    LoadedFields(ccd, env.common, env.globals, e.globals.redirect);
  }

  ghost predicate EachAccepted(file: seq<Line>, events: seq<Event>)
    decreases |events|
  {
    events == [] ||
      (Accepted(Load(file, events[0].env), events[0].env) && EachAccepted(Step(file, events[0]), events[1..]))
  }

  ghost predicate Fits(client: Client, e: Event) {
    && e.Rerender? && e.env.written && AddressFits(client, e.env)
    && forall j :: 0 <= j < |e.env.common| ==> NeatCommon(e.env.common[j])
  }

  /** Any number of re-renders of a neat file are all accepted, whatever the common routes and globals become, as
      long as the static address fits and the writes succeed. */
  lemma {:induction false} RerendersGoThrough(file: seq<Line>, events: seq<Event>, ccd: Ccd, env: Env)
    requires NeatFile(file, ccd, env) && forall i :: 0 <= i < |events| ==> Fits(ccd.client, events[i])
    ensures EachAccepted(file, events)
    decreases |events|
  {
    if events != [] {
      var e := events[0].env;
      assert Fits(ccd.client, events[0]);
      ReloadAcceptedExactly(file, ccd, env, e);
      RerendersGoThrough(Step(file, events[0]), events[1..], Load(file, e), e);
    }
  }

  // ---- two IP routes with one destination ----

  /** Two routes of the user to one destination, with their descriptions. */
  function Twice(k: Key, a: string, b: string): Ccd {
    Ccd(Dynamic, [CcdRoute(IpKind, k.address, k.mask, "", a, []), CcdRoute(IpKind, k.address, k.mask, "", b, [])],
        false, [])
  }

  lemma TwoRequests(r: CcdRoute, q: CcdRoute)
    ensures AllCustom([r, q]) == CustomRequests(r) + CustomRequests(q)
  {
    assert [r, q][..1] == [r] && [r][..0] == [];
    assert AllCustom([r]) == [] + CustomRequests(r);
  }

  lemma TwoMerged(p: Push, q: Push)
    requires !Blank(p.key) && q.key == p.key && !Occurs(p.source, q.source)
    ensures MergeAll([p, q]) == [Push(p.key, p.source + [','] + q.source)]
  {
    MergeStep([], p);
    MergeStep([p], q);
    assert [] + [p] == [p] && [p] + [q] == [p, q];
  }

  lemma TwiceMerged(k: Key, a: string, b: string)
    requires !Blank(k) && !Occurs(a, b)
    ensures Merged(Twice(k, a, b).routes, []) == [Push(k, a + [','] + b)]
  {
    var custom := Twice(k, a, b).routes;
    TwoRequests(custom[0], custom[1]);
    assert [custom[0], custom[1]] == custom;
    assert AllCustom(custom) + AllCommon([]) == [Push(k, a), Push(k, b)];
    TwoMerged(Push(k, a), Push(k, b));
  }

  lemma TwoPersonal(a: string, b: string)
    requires a != "" && b != "" && Trim(a) == a && Trim(b) == b && !HasMarker(a) && !HasMarker(b)
    ensures JoinWith(Personal([a, b]), ',') == a + [','] + b
  {
    assert [a, b][1..] == [b] && [b][1..] == [];
    assert Personal([b]) == [b];
    assert Personal([a, b]) == [a, b];
  }

  lemma JoinTrimmed(a: string, b: string)
    requires a != "" && b != "" && Trim(a) == a && Trim(b) == b
    ensures Trim(a + [','] + b) == a + [','] + b
  {
    var s := a + [','] + b;
    assert s[0] == a[0] && s[|s| - 1] == b[|b| - 1];
    TrimSame(s);
  }

  lemma TwoPieces(a: string, b: string)
    requires Neat(a) && Neat(b) && a != "" && b != "" && Trim(a) == a && Trim(b) == b
    ensures PersonalDescription(Trim(a + [','] + b)) == a + [','] + b
  {
    JoinTrimmed(a, b);
    SplitTwo(a, ',', b);
    TwoPersonal(a, b);
  }

  lemma TwiceStorable(k: Key, a: string, b: string, g: Globals)
    requires DescriptionOk(a) && DescriptionOk(b) && ValidateNetworkMask(k.address, k.mask).Ok?
    ensures !Blank(k) && Storable(Twice(k, a, b).routes) && Validated(Twice(k, a, b), g, true)
    ensures IpFirst(Twice(k, a, b).routes, k)
  {
    var routes := Twice(k, a, b).routes;
    assert IsIp(routes[0], k) && NoneBefore(routes, 0, k);
  }

  /** Their descriptions are joined by every load; once the join outgrows the limit, every re-render is refused. */
  lemma JoinedDescriptionsRefused(k: Key, a: string, b: string, g: Globals, e: Env)
    requires Neat(a) && Neat(b) && a != "" && b != "" && Trim(a) == a && Trim(b) == b && !Occurs(a, b)
    requires ValidateNetworkMask(k.address, k.mask).Ok? && |a| + |b| >= 200
    ensures Validated(Twice(k, a, b), g, true) && !Accepted(Load(Render(Twice(k, a, b), [], g), e), e)
  {
    var ccd := Twice(k, a, b);
    var lines := Render(ccd, [], g);
    var loaded, st := Load(lines, e), ParseFrom(NOTHING, lines);
    TwiceStorable(k, a, b, g);
    IpRouteLoadedExactly(ccd, [], g, e.globals.redirect, k);
    var i :| 0 <= i < |loaded.routes| && IsIp(loaded.routes[i], k);
    assert loaded.routes[i] == st.ipRoutes[i];
    TwiceRead(k, a, b, g, st.ipRoutes[i]);
    assert !RouteOk(loaded.routes[i]);
  }

  lemma TwiceRead(k: Key, a: string, b: string, g: Globals, r: CcdRoute)
    requires Neat(a) && Neat(b) && a != "" && b != "" && Trim(a) == a && Trim(b) == b && !Occurs(a, b) && !Blank(k)
    requires r in ParseFrom(NOTHING, Render(Twice(k, a, b), [], g)).ipRoutes
    ensures r.description == a + [','] + b
  {
    var lines := Render(Twice(k, a, b), [], g);
    TwiceMerged(k, a, b);
    IpOrigin(NOTHING, lines, r);
    var n :| 0 <= n < |lines| && ReadAs(lines[n], r);
    var j := RenderedPush(Twice(k, a, b), [], g, n);
    TwoPieces(a, b);
  }

  // ---- what the shared list guarantees ----

  /** The resolver answers with addresses. */
  ghost predicate AnswersAreAddresses(answers: set<CommonRoutes.Answer>) {
    forall a, i :: a in answers && 0 <= i < |a.ips| ==> !a.ips[i].NotAnAddress?
  }

  lemma AnsweredAddresses(r: CommonRoute, answers: set<CommonRoutes.Answer>, i: nat)
    requires CommonRoutes.Answered(r, answers) && AnswersAreAddresses(answers) && i < |r.resolvedIPs|
    ensures !r.resolvedIPs[i].NotAnAddress?
  {
    var raw :| CommonRoutes.Answer(r.domain, raw) in answers
               && (r.resolvedIPs == raw || r.resolvedIPs == CommonRoutes.FilterIPv4(raw));
    var a := CommonRoutes.Answer(r.domain, raw);
    if r.resolvedIPs == raw { assert a.ips[i] == r.resolvedIPs[i]; }
  }

  lemma TagOk(d: string)
    requires ValidDomain(d)
    ensures ',' !in d && '\n' !in d
  {
    ValidDomainIsToken(d);
    assert IsSpace('\n');
  }

  lemma ExpandedOk(r: CommonRoute, answers: set<CommonRoutes.Answer>, e: ExpandedRoute)
    requires CommonRoutes.ValidRoute(r) && CommonRoutes.Answered(r, answers) && AnswersAreAddresses(answers)
    requires e in ExpandOne(r)
    ensures CcdDomains.CleanCommon(e) && CcdText.OneLineCommon(e) && e.description == r.description
  {
    if r.kind.DomainKind? {
      TagOk(r.domain);
      var i :| 0 <= i < |r.resolvedIPs| && e == ExpandHosts(r.resolvedIPs, r)[i];
      AnsweredAddresses(r, answers, i);
    }
  }

  /** What a sound store of common routes expands to can be merged into any user's file: it is written on one line,
      and it names no domain of the user. Without commas in the stored descriptions it is neat, so that re-renders go
      through. */
  lemma {:induction false} StoreExpandsNeatly(routes: seq<CommonRoute>, answers: set<CommonRoutes.Answer>, n: nat,
                                              e: ExpandedRoute)
    requires CommonRoutes.Sound(routes, answers) && AnswersAreAddresses(answers) && n <= |routes| &&
        e in ExpandAll(routes[..n])
    ensures CcdDomains.CleanCommon(e) && CcdText.OneLineCommon(e)
    ensures (forall i :: 0 <= i < n ==> ',' !in routes[i].description) ==> NeatCommon(e)
  {
    var init, r := routes[..n][..n - 1], routes[n - 1];
    assert init == routes[..n - 1] && routes[..n][n - 1] == r;
    if e in ExpandAll(init) { StoreExpandsNeatly(routes, answers, n - 1, e); } else { ExpandedOk(r, answers, e); }
  }
}
