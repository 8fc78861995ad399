/** The declared domains of a client-config file, and the descriptions that a load hands back. */
module CcdDomains {
  import opened Wrappers
  import opened Text
  import opened RoutePolicy
  import opened CcdMerge
  import opened CcdFile
  import opened CcdRoundTrip

  // ---- descriptions ----

  lemma {:induction false} JoinFree(parts: seq<string>, marker: string)
    requires ',' !in marker && marker != "" && forall i :: 0 <= i < |parts| ==> !Occurs(parts[i], marker)
    ensures !Occurs(JoinWith(parts, ','), marker)
  {
    if |parts| > 1 {
      var rest := parts[1..];
      JoinFree(rest, marker);
      if Occurs(JoinWith(parts, ','), marker) { OccursInJoin(parts[0], ',', JoinWith(rest, ','), marker); }
    }
  }

  lemma {:induction false} PersonalParts(segs: seq<string>)
    ensures forall i :: 0 <= i < |Personal(segs)| ==> !HasMarker(Personal(segs)[i])
  {
    if segs != [] { PersonalParts(segs[1..]); }
  }

  lemma PersonalFree(comment: string, marker: string)
    requires ',' !in marker && marker != "" && forall s :: Occurs(s, marker) ==> HasMarker(s)
    ensures !Occurs(PersonalDescription(comment), marker)
  {
    var parts := Personal(Split(comment, ','));
    PersonalParts(Split(comment, ','));
    JoinFree(parts, marker);
    if Occurs(PersonalDescription(comment), marker) { TrimOccurs(JoinWith(parts, ','), marker); }
  }

  /** Whatever provenance was merged into a line, the description handed back holds no reserved marker, so that the next
      save does not refuse it for one. */
  lemma PersonalDescriptionUnmarked(comment: string)
    ensures !HasMarker(PersonalDescription(comment))
  {
    PersonalFree(comment, "__redirect_gateway__");
    PersonalFree(comment, EXCLUSION_USER);
    PersonalFree(comment, EXCLUSION_GLOBAL);
    PersonalFree(comment, "__common__");
    PersonalFree(comment, "__user_domain__");
  }

  // ---- the set of domains ----

  ghost predicate HasDomain(routes: seq<CcdRoute>, d: string) {
    exists i :: 0 <= i < |routes| && routes[i].kind.DomainKind? && routes[i].domain == d
  }

  ghost predicate HasName(entries: seq<DomainEntry>, d: string) {
    exists i :: 0 <= i < |entries| && entries[i].domain == d
  }

  ghost predicate Names(names: seq<Named>, d: string) {
    exists i :: 0 <= i < |names| && names[i].domain == d
  }

  function LineNames(line: Line): seq<Named> {
    match line
    case RoutePush(p) =>
      if ProvenanceOf(Trim(p.source)) == FromDomains then SegmentNames(Split(Trim(p.source), ',')) else []
    case Declaration(domain, description) =>
      (match DeclaredName(domain, description) case Some(n) => [n] case None => [])
    case _ => []
  }

  lemma SeedNames(entries: seq<DomainEntry>, n: Named, d: string)
    ensures HasName(Seed(entries, n), d) <==> HasName(entries, d) || n.domain == d
  {
    var after := Seed(entries, n);
    assert after[EntryAt(entries, n.domain)].domain == n.domain;
    if i :| 0 <= i < |entries| && entries[i].domain == d { assert after[i] == entries[i]; }
  }

  lemma RegisterNames(entries: seq<DomainEntry>, n: Named, ip: Ipv4.AddrText, d: string)
    ensures HasName(Register(entries, n, ip), d) <==> HasName(entries, d) || n.domain == d
  {
    SeedNames(entries, n, d);
    var seeded, after := Seed(entries, n), Register(entries, n, ip);
    assert forall i :: 0 <= i < |seeded| ==> after[i].domain == seeded[i].domain;
  }

  lemma {:induction false} RegisterAllNames(entries: seq<DomainEntry>, names: seq<Named>, ip: Ipv4.AddrText, d: string)
    ensures HasName(RegisterAll(entries, names, ip), d) <==> HasName(entries, d) || Names(names, d)
    decreases |names|
  {
    if names != [] {
      RegisterNames(entries, names[0], ip, d);
      RegisterAllNames(Register(entries, names[0], ip), names[1..], ip, d);
      assert Names(names, d) <==> names[0].domain == d || Names(names[1..], d) by {
        if i :| 0 <= i < |names| && names[i].domain == d { assert i > 0 ==> names[1..][i - 1] == names[i]; }
        if i :| 0 <= i < |names[1..]| && names[1..][i].domain == d { assert names[i + 1] == names[1..][i]; }
      }
    }
  }

  lemma ParseLineNames(st: Parsed, line: Line, d: string)
    ensures HasName(ParseLine(st, line).domains, d) <==> HasName(st.domains, d) || Names(LineNames(line), d)
  {
    match line
    case RoutePush(p) => RegisterAllNames(st.domains, SegmentNames(Split(Trim(p.source), ',')), p.key.address, d);
    case Declaration(domain, description) => DeclarationAdds(st, domain, description, d);
    case _ =>
  }

  lemma DeclarationAdds(st: Parsed, domain: string, description: string, d: string)
    ensures HasName(ParseLine(st, Declaration(domain, description)).domains, d) <==>
            HasName(st.domains, d) || Names(LineNames(Declaration(domain, description)), d)
  {
    match DeclaredName(domain, description)
    case Some(n) =>
      SeedNames(st.domains, n, d);
      assert [n][0] == n;
    case None =>
  }

  ghost predicate AnyNames(lines: seq<Line>, d: string) {
    exists i :: 0 <= i < |lines| && Names(LineNames(lines[i]), d)
  }

  lemma {:induction false} ParseFromNames(st: Parsed, lines: seq<Line>, d: string)
    ensures HasName(ParseFrom(st, lines).domains, d) <==> HasName(st.domains, d) || AnyNames(lines, d)
    decreases |lines|
  {
    if lines != [] {
      var rest := lines[1..];
      ParseLineNames(st, lines[0], d);
      ParseFromNames(ParseLine(st, lines[0]), rest, d);
      if i :| 0 <= i < |lines| && Names(LineNames(lines[i]), d) { assert i > 0 ==> rest[i - 1] == lines[i]; }
      if i :| 0 <= i < |rest| && Names(LineNames(rest[i]), d) { assert lines[i + 1] == rest[i]; }
    }
  }

  // ---- no comment names a domain that the user did not list ----

  ghost predicate Clean(comment: string, custom: seq<CcdRoute>) {
    forall seg :: seg in Split(comment, ',') && SegmentName(seg).Some? ==>
        HasDomain(custom, SegmentName(seg).value.domain)
  }

  lemma CleanJoin(a: string, b: string, custom: seq<CcdRoute>)
    requires Clean(a, custom) && Clean(b, custom)
    ensures Clean(a + [','] + b, custom)
  {
    forall seg | seg in Split(a + [','] + b, ',') && SegmentName(seg).Some?
      ensures HasDomain(custom, SegmentName(seg).value.domain)
    {
      PieceOfJoin(a, ',', b, seg);
    }
  }

  lemma UnmarkedNamesNothing(s: string, seg: string)
    requires !Occurs(s, "__user_domain__") && seg in Split(s, ',')
    ensures SegmentName(seg).None?
  {
    if HasPrefix(Trim(seg), USER_DOMAIN) {
      OccursShorter(Trim(seg), USER_DOMAIN, "__user_domain__");
      TrimOccurs(seg, "__user_domain__");
      PieceOccurs(s, ',', seg, "__user_domain__");
    }
  }

  lemma MarkedCommonNamesNothing(seg: string)
    requires HasPrefix(seg, COMMON)
    ensures SegmentName(seg).None?
  {
    assert Token(COMMON);
    TrimKeepsToken(COMMON, seg);
    assert Trim(seg)[2] == COMMON[2] != USER_DOMAIN[2];
  }

  /** The text after a marked name: empty, or a blank and the description. */
  function DescTail(desc: string): string {
    if Trim(desc) == "" then "" else " " + Trim(desc)
  }

  lemma DescTailUnmarked(desc: string)
    requires !HasMarker(desc)
    ensures !Occurs(DescTail(desc), "__user_domain__")
  {
    if Occurs(DescTail(desc), "__user_domain__") {
      assert DescTail(desc)[1..] == Trim(desc);
      assert " "[0] != "__user_domain__"[0];
      TrimOccurs(desc, "__user_domain__");
    }
  }

  /** The first piece of a source is its marked name with a blank after it at most; the others are unmarked. */
  lemma PiecesOfSource(name: string, desc: string, seg: string)
    requires ',' !in name && !HasMarker(desc) && seg in Split(WithDesc(name, desc), ',')
    ensures (HasPrefix(seg, name) && (|seg| > |name| ==> seg[|name|] == ' ')) || SegmentName(seg).None?
  {
    var tail := DescTail(desc);
    assert WithDesc(name, desc) == name + tail;
    SplitPrefix(name, tail, ',');
    DescTailUnmarked(desc);
    var first := Split(tail, ',')[0];
    if seg != name + first {
      assert seg in Split(tail, ',');
      UnmarkedNamesNothing(tail, seg);
    } else {
      assert first == tail[..IndexOf(tail, ',')];
    }
  }

  lemma DomainSourceClean(r: CcdRoute, custom: seq<CcdRoute>)
    requires RouteOk(r) && r.kind.DomainKind? && r in custom
    ensures Clean(WithDesc(USER_DOMAIN + r.domain, r.description), custom)
  {
    var name := USER_DOMAIN + r.domain;
    ValidDomainIsToken(r.domain);
    assert ',' !in name;
    forall seg | seg in Split(WithDesc(name, r.description), ',') && SegmentName(seg).Some?
      ensures HasDomain(custom, SegmentName(seg).value.domain)
    {
      PiecesOfSource(name, r.description, seg);
      SegmentNamesDomain(seg, r.domain);
      var i :| 0 <= i < |custom| && custom[i] == r;
    }
  }

  lemma PlainSourceClean(desc: string, custom: seq<CcdRoute>)
    requires !HasMarker(desc)
    ensures Clean(desc, custom)
  {
    forall seg | seg in Split(desc, ',') ensures SegmentName(seg).None? { UnmarkedNamesNothing(desc, seg); }
  }

  /** What validation of the common routes guarantees: a tag is "static" or a hostname. */
  predicate CleanCommon(r: ExpandedRoute) {
    ',' !in r.tag && !HasMarker(r.description)
  }

  lemma CommonSourceClean(r: ExpandedRoute, custom: seq<CcdRoute>)
    requires CleanCommon(r)
    ensures Clean(CommonRequest(r).source, custom)
  {
    var name := COMMON + r.tag;
    assert ',' !in name;
    forall seg | seg in Split(WithDesc(name, r.description), ',') ensures SegmentName(seg).None? {
      PiecesOfSource(name, r.description, seg);
      if HasPrefix(seg, name) { MarkedCommonNamesNothing(seg); }
    }
  }

  lemma {:induction false} MergeClean(requests: seq<Push>, custom: seq<CcdRoute>)
    requires AllClean(requests, custom)
    ensures AllClean(MergeAll(requests), custom)
  {
    if requests != [] {
      var n := |requests| - 1;
      MergeClean(requests[..n], custom);
      AddPushClean(MergeAll(requests[..n]), requests[n], custom);
    }
  }

  lemma AddPushClean(out: seq<Push>, p: Push, custom: seq<CcdRoute>)
    requires AllClean(out, custom) && Clean(p.source, custom)
    ensures AllClean(AddPush(out, p), custom)
  {
    var i := KeyAt(out, p.key);
    if i < |out| { CleanJoin(out[i].source, p.source, custom); }
  }

  lemma {:induction false} CleanTrim(s: string, custom: seq<CcdRoute>)
    requires Clean(s, custom)
    ensures Clean(Trim(s), custom)
    decreases |s|
  {
    if s != "" && IsSpace(s[0]) {
      var rest := s[1..];
      assert s == [s[0]] + rest;
      SplitPrefix([s[0]], rest, ',');
      forall seg | seg in Split(rest, ',') && SegmentName(seg).Some?
          ensures HasDomain(custom, SegmentName(seg).value.domain) {
        if seg !in Split(s, ',') {
          assert seg == Split(rest, ',')[0];
          var longer := [s[0]] + seg;
          assert longer in Split(s, ',') && longer[1..] == seg && Trim(longer) == Trim(seg);
        }
      }
      CleanTrim(rest, custom);
    } else if s != "" && IsSpace(s[|s| - 1]) {
      var init, c := s[..|s| - 1], s[|s| - 1];
      assert s == init + [c];
      forall seg | seg in Split(init, ',') && SegmentName(seg).Some?
          ensures HasDomain(custom, SegmentName(seg).value.domain) {
        PieceOfPrefix(init, [c], ',', seg);
        TrimSuffix(seg, c);
      }
      CleanTrim(init, custom);
    }
  }

  lemma NamesSplit(segs: seq<string>, d: string)
    requires segs != []
    ensures Names(SegmentNames(segs), d) <==>
            (SegmentName(segs[0]).Some? && SegmentName(segs[0]).value.domain == d) || Names(SegmentNames(segs[1..]), d)
  {
    var rest := SegmentNames(segs[1..]);
    match SegmentName(segs[0])
    case None => assert SegmentNames(segs) == rest;
    case Some(n) =>
      assert SegmentNames(segs) == [n] + rest;
      assert ([n] + rest)[0] == n;
      if i :| 0 <= i < |rest| && rest[i].domain == d { assert ([n] + rest)[i + 1] == rest[i]; }
      if i :| 0 <= i < |[n] + rest| && ([n] + rest)[i].domain == d { assert i > 0 ==> rest[i - 1] == ([n] + rest)[i]; }
  }

  lemma {:induction false} NamesOfClean(segs: seq<string>, d: string) returns (seg: string)
    requires Names(SegmentNames(segs), d)
    ensures seg in segs && SegmentName(seg).Some? && SegmentName(seg).value.domain == d
  {
    NamesSplit(segs, d);
    if SegmentName(segs[0]).Some? && SegmentName(segs[0]).value.domain == d {
      seg := segs[0];
    } else {
      seg := NamesOfClean(segs[1..], d);
    }
  }

  lemma RouteClean(r: CcdRoute, custom: seq<CcdRoute>)
    requires RouteOk(r) && r in custom
    ensures forall i :: 0 <= i < |CustomRequests(r)| ==> Clean(CustomRequests(r)[i].source, custom)
  {
    if r.kind.DomainKind? { DomainSourceClean(r, custom); } else { PlainSourceClean(r.description, custom); }
  }

  ghost predicate AllClean(requests: seq<Push>, custom: seq<CcdRoute>) {
    forall i :: 0 <= i < |requests| ==> Clean(requests[i].source, custom)
  }

  lemma AllCleanAppend(xs: seq<Push>, ys: seq<Push>, custom: seq<CcdRoute>)
    requires AllClean(xs, custom) && AllClean(ys, custom)
    ensures AllClean(xs + ys, custom)
  {}

  lemma {:induction false} CustomClean(part: seq<CcdRoute>, custom: seq<CcdRoute>)
    requires forall i :: 0 <= i < |part| ==> RouteOk(part[i]) && part[i] in custom
    ensures AllClean(AllCustom(part), custom)
  {
    if part != [] {
      var n := |part| - 1;
      CustomClean(part[..n], custom);
      RouteClean(part[n], custom);
      AllCleanAppend(AllCustom(part[..n]), CustomRequests(part[n]), custom);
    }
  }

  lemma MergedClean(custom: seq<CcdRoute>, common: seq<ExpandedRoute>)
    requires forall i :: 0 <= i < |custom| ==> RouteOk(custom[i])
    requires forall i :: 0 <= i < |common| ==> CleanCommon(common[i])
    ensures AllClean(Merged(custom, common), custom)
  {
    CustomClean(custom, custom);
    forall i | 0 <= i < |common| ensures Clean(AllCommon(common)[i].source, custom) {
      CommonSourceClean(common[i], custom);
    }
    AllCleanAppend(AllCustom(custom), AllCommon(common), custom);
    MergeClean(AllCustom(custom) + AllCommon(common), custom);
  }

  lemma DeclarationNames(r: CcdRoute)
    requires RouteOk(r) && r.kind.DomainKind?
    ensures DeclaredName(r.domain, r.description).Some? &&
        DeclaredName(r.domain, r.description).value.domain == r.domain
  {
    ValidDomainIsToken(r.domain);
    var d := r.domain;
    var text := DeclaredText(d, r.description);
    TrimKeepsToken(d, text);
    var t := Trim(text);
    assert t == d + t[|d|..];
    if |t| > |d| { assert t[|d|] == text[|d|]; }
    FieldsToken(d, t[|d|..]);
  }

  lemma OneDeclares(r: CcdRoute, d: string)
    requires RouteOk(r) && r.kind.DomainKind?
    ensures AnyNames([Declaration(r.domain, r.description)], d) <==> r.domain == d
  {
    var one := [Declaration(r.domain, r.description)];
    DeclarationNames(r);
    assert LineNames(one[0])[0].domain == r.domain;
  }

  lemma {:induction false} DeclarationsName(routes: seq<CcdRoute>, d: string)
    requires forall i :: 0 <= i < |routes| ==> RouteOk(routes[i])
    ensures AnyNames(Declarations(routes), d) <==> HasDomain(routes, d)
  {
    if routes != [] {
      var r, rest := routes[0], Declarations(routes[1..]);
      DeclarationsName(routes[1..], d);
      HasDomainFirst(routes, d);
      if r.kind.DomainKind? {
        OneDeclares(r, d);
        AnyNamesAppend([Declaration(r.domain, r.description)], rest, d);
      } else {
        assert Declarations(routes) == [] + rest == rest;
      }
    }
  }

  lemma HasDomainFirst(routes: seq<CcdRoute>, d: string)
    requires routes != []
    ensures HasDomain(routes, d) <==> (routes[0].kind.DomainKind? && routes[0].domain == d) || HasDomain(routes[1..], d)
  {
    var rest := routes[1..];
    if i :| 0 <= i < |routes| && routes[i].kind.DomainKind? && routes[i].domain == d {
      assert i > 0 ==> rest[i - 1] == routes[i];
    }
    if i :| 0 <= i < |rest| && rest[i].kind.DomainKind? && rest[i].domain == d { assert routes[i + 1] == rest[i]; }
  }

  lemma AnyNamesAppend(xs: seq<Line>, ys: seq<Line>, d: string)
    ensures AnyNames(xs + ys, d) <==> AnyNames(xs, d) || AnyNames(ys, d)
  {
    var all := xs + ys;
    if i :| 0 <= i < |xs| && Names(LineNames(xs[i]), d) { assert all[i] == xs[i]; }
    if i :| 0 <= i < |ys| && Names(LineNames(ys[i]), d) { assert all[|xs| + i] == ys[i]; }
  }

  lemma RouteLinesName(custom: seq<CcdRoute>, common: seq<ExpandedRoute>, d: string)
    requires forall i :: 0 <= i < |custom| ==> RouteOk(custom[i])
    requires forall i :: 0 <= i < |common| ==> CleanCommon(common[i])
    ensures AnyNames(RouteLines(Merged(custom, common)), d) ==> HasDomain(custom, d)
  {
    var out, lines := Merged(custom, common), RouteLines(Merged(custom, common));
    RouteLinesAre(out);
    if i :| 0 <= i < |lines| && Names(LineNames(lines[i]), d) {
      MergedClean(custom, common);
      CleanTrim(out[i].source, custom);
      var seg := NamesOfClean(Split(Trim(out[i].source), ','), d);
    }
  }

  lemma HeadNames(ccd: Ccd, g: Globals, d: string)
    ensures !AnyNames(Head(ccd, g), d)
  {
    NoRoutePush(Exclusions(g.exclusions, ccd.exclusions), []);
  }

  lemma RenderNames(ccd: Ccd, common: seq<ExpandedRoute>, g: Globals, d: string)
    requires forall i :: 0 <= i < |ccd.routes| ==> RouteOk(ccd.routes[i])
    requires forall i :: 0 <= i < |common| ==> CleanCommon(common[i])
    ensures AnyNames(Render(ccd, common, g), d) <==> HasDomain(ccd.routes, d)
  {
    var head, routes := Head(ccd, g), RouteLines(Merged(ccd.routes, common));
    var state: seq<Line> := [StateLine(ccd.redirect)];
    HeadNames(ccd, g, d);
    RouteLinesName(ccd.routes, common, d);
    DeclarationsName(ccd.routes, d);
    assert !AnyNames(state, d);
    AnyNamesAppend(state, Declarations(ccd.routes), d);
    AnyNamesAppend(routes, Tail(ccd), d);
    AnyNamesAppend(head, routes + Tail(ccd), d);
  }

  /** A save and a load keep the set of domains exactly: one that resolves to nothing is not lost, and no comment,
      own or shared, brings in another. */
  lemma DomainsSurvive(ccd: Ccd, common: seq<ExpandedRoute>, g: Globals, redirectNow: bool, d: string)
    requires forall i :: 0 <= i < |ccd.routes| ==> RouteOk(ccd.routes[i])
    requires forall i :: 0 <= i < |common| ==> CleanCommon(common[i])
    ensures HasDomain(Parse(Render(ccd, common, g), redirectNow).routes, d) <==> HasDomain(ccd.routes, d)
  {
    var file := Render(ccd, common, g);
    RenderNames(ccd, common, g, d);
    ParseFromNames(NOTHING, file, d);
    IpRoutesArePlain(NOTHING, file);
    LoadedDomains(ParseFrom(NOTHING, file), redirectNow, d);
  }

  predicate AllPlain(routes: seq<CcdRoute>) {
    forall i :: 0 <= i < |routes| ==> !routes[i].kind.DomainKind?
  }

  lemma LoadedDomains(st: Parsed, redirectNow: bool, d: string)
    requires AllPlain(st.ipRoutes)
    ensures HasDomain(CcdFile.Result(st, redirectNow).routes, d) <==> HasName(st.domains, d)
  {
    var routes, n := CcdFile.Result(st, redirectNow).routes, |st.ipRoutes|;
    if i :| 0 <= i < |st.domains| && st.domains[i].domain == d { assert routes[n + i].domain == d; }
    if i :| 0 <= i < |routes| && routes[i].kind.DomainKind? && routes[i].domain == d {
      assert st.domains[i - n].domain == d;
    }
  }

  lemma {:induction false} IpRoutesArePlain(st: Parsed, lines: seq<Line>)
    requires AllPlain(st.ipRoutes)
    ensures AllPlain(ParseFrom(st, lines).ipRoutes)
    decreases |lines|
  {
    if lines != [] {
      var next := ParseLine(st, lines[0]);
      assert AllPlain(next.ipRoutes);
      IpRoutesArePlain(next, lines[1..]);
    }
  }
}
