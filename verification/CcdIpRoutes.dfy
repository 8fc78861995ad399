/** Which of a user's own IP routes survive saves, loads, re-renders and refreshes as IP routes. One line is written per
    destination, and a line that begins with a domain source is read back as domains only. */
module CcdIpRoutes {
  import opened Wrappers
  import opened Text
  import opened Ipv4
  import opened RoutePolicy
  import opened CcdMerge
  import opened CcdFile
  import opened CcdRoundTrip
  import opened CcdHistory
  import CcdDomains

  ghost predicate IsIp(r: CcdRoute, k: Key) {
    !r.kind.DomainKind? && Key(r.address, r.mask) == k
  }

  ghost predicate HasIp(routes: seq<CcdRoute>, k: Key) {
    exists i :: 0 <= i < |routes| && IsIp(routes[i], k)
  }

  ghost predicate DomainAsks(r: CcdRoute, k: Key) {
    r.kind.DomainKind? && RouteDest(r, k)
  }

  /** Some IP route has the destination, and no domain route before it asks for it. */
  ghost predicate IpFirst(routes: seq<CcdRoute>, k: Key) {
    exists i :: 0 <= i < |routes| && IsIp(routes[i], k) && NoneBefore(routes, i, k)
  }

  ghost predicate NoneBefore(routes: seq<CcdRoute>, i: nat, k: Key)
    requires i <= |routes|
  {
    forall j :: 0 <= j < i ==> !DomainAsks(routes[j], k)
  }

  // ---- the first requester of a destination ----

  ghost function FirstRequester(custom: seq<CcdRoute>, k: Key): (n: nat)
    ensures n <= |custom| && (n < |custom| ==> RouteDest(custom[n], k))
    ensures forall j :: 0 <= j < n ==> !RouteDest(custom[j], k)
  {
    if custom == [] then 0
    else
      var init := custom[..|custom| - 1];
      var n := FirstRequester(init, k);
      assert forall j :: 0 <= j < |init| ==> custom[j] == init[j];
      if n < |init| then n else if RouteDest(custom[|init|], k) then |init| else |custom|
  }

  function SourceOf(r: CcdRoute): string {
    if r.kind.DomainKind? then WithDesc(USER_DOMAIN + r.domain, r.description) else r.description
  }

  lemma {:induction false} FirstSourceOfHosts(ips: seq<AddrText>, source: string, k: Key)
    requires !Blank(k)
    ensures FirstSource(HostRequests(ips, source), k) ==
        if k.mask == HOST_MASK && k.address in ips then [source] else []
  {
    if ips != [] {
      var n := |ips| - 1;
      assert HostRequests(ips, source)[..n] == HostRequests(ips[..n], source);
      FirstSourceOfHosts(ips[..n], source, k);
      assert ips == ips[..n] + [ips[n]];
    }
  }

  lemma FirstSourceOfRoute(r: CcdRoute, k: Key)
    requires !Blank(k)
    ensures FirstSource(CustomRequests(r), k) == if RouteDest(r, k) then [SourceOf(r)] else []
  {
    if r.kind.DomainKind? {
      FirstSourceOfHosts(r.resolvedIPs, SourceOf(r), k);
    } else {
      assert CustomRequests(r)[..0] == [];
    }
  }

  lemma {:induction false} FirstSourceIs(custom: seq<CcdRoute>, k: Key)
    requires !Blank(k)
    ensures var n := FirstRequester(custom, k);
            FirstSource(AllCustom(custom), k) == if n < |custom| then [SourceOf(custom[n])] else []
  {
    if custom != [] {
      var n := |custom| - 1;
      FirstSourceIs(custom[..n], k);
      FirstSourceConcat(AllCustom(custom[..n]), CustomRequests(custom[n]), k);
      FirstSourceOfRoute(custom[n], k);
    }
  }

  lemma IpFirstRequests(custom: seq<CcdRoute>, k: Key)
    ensures var n := FirstRequester(custom, k); IpFirst(custom, k) <==> n < |custom| && !custom[n].kind.DomainKind?
  {
    var n := FirstRequester(custom, k);
    if n < |custom| && !custom[n].kind.DomainKind? { assert IsIp(custom[n], k) && NoneBefore(custom, n, k); }
    if i :| 0 <= i < |custom| && IsIp(custom[i], k) && NoneBefore(custom, i, k) { assert RouteDest(custom[i], k); }
  }

  // ---- the lines that are read back as IP routes ----

  ghost predicate PlainFor(out: seq<Push>, k: Key) {
    exists i :: 0 <= i < |out| && out[i].key == k && ProvenanceOf(Trim(out[i].source)) == Plain
  }

  lemma OnlyAt(out: seq<Push>, k: Key, i: nat)
    requires Unique(KeysOf(out)) && i < |out| && out[i].key == k
    ensures KeyAt(out, k) == i
  {
    var j := KeyAt(out, k);
    assert j <= i && KeysOf(out)[j] == KeysOf(out)[i];
  }

  /** The line of a destination is plain exactly when an IP route asked for it first. */
  lemma MergedPlain(custom: seq<CcdRoute>, common: seq<ExpandedRoute>, k: Key)
    requires Storable(custom)
    ensures PlainFor(Merged(custom, common), k) <==> IpFirst(custom, k)
  {
    var requests, out := AllCustom(custom) + AllCommon(common), Merged(custom, common);
    MergeKeys(requests);
    MergeFirst(requests, k);
    IpFirstRequests(custom, k);
    var i, n := KeyAt(out, k), FirstRequester(custom, k);
    if n < |custom| {
      StoredNotBlank(custom, k);
      FirstSourceIs(custom, k);
      FirstSourceConcat(AllCustom(custom), AllCommon(common), k);
      OwnLinePlain(custom[n], out[i].source);
    } else if i < |out| {
      NotOwnNotPlain(custom, common, k);
    }
    if j :| 0 <= j < |out| && out[j].key == k && ProvenanceOf(Trim(out[j].source)) == Plain { OnlyAt(out, k, j); }
  }

  lemma OwnLinePlain(r: CcdRoute, source: string)
    requires RouteOk(r) && BeginsWith(source, SourceOf(r))
    ensures ProvenanceOf(Trim(source)) == Plain <==> !r.kind.DomainKind?
  {
    if r.kind.DomainKind? { DomainStays(r, source); } else { PlainStays(r.description, source); }
  }

  lemma NotOwnNotPlain(custom: seq<CcdRoute>, common: seq<ExpandedRoute>, k: Key)
    requires FirstRequester(custom, k) == |custom| && KeyAt(Merged(custom, common), k) < |Merged(custom, common)|
    ensures var out := Merged(custom, common); ProvenanceOf(Trim(out[KeyAt(out, k)].source)) == FromCommon
  {
    var requests := AllCustom(custom) + AllCommon(common);
    MergeFirst(requests, k);
    FirstSourceIsRequested(requests, k);
    FirstSourceIs(custom, k);
    FirstSourceConcat(AllCustom(custom), AllCommon(common), k);
    FirstSourceIsRequested(AllCommon(common), k);
    var r := CommonOrigin(common, Push(k, FirstSource(AllCommon(common), k)[0]));
    CommonStays(r, Merged(custom, common)[KeyAt(Merged(custom, common), k)].source);
  }

  ghost predicate PlainLine(lines: seq<Line>, k: Key) {
    exists i :: 0 <= i < |lines| && IsPlainLine(lines[i], k)
  }

  ghost predicate IsPlainLine(line: Line, k: Key) {
    line.RoutePush? && line.push.key == k && ProvenanceOf(Trim(line.push.source)) == Plain
  }

  lemma ParseLineIp(st: Parsed, line: Line, k: Key)
    ensures HasIp(ParseLine(st, line).ipRoutes, k) <==> HasIp(st.ipRoutes, k) || IsPlainLine(line, k)
  {
    if line.RoutePush? && ProvenanceOf(Trim(line.push.source)) == Plain {
      HasIpAppend(st.ipRoutes, [PlainRoute(line.push, Trim(line.push.source))], k);
      assert [PlainRoute(line.push, Trim(line.push.source))][0] == PlainRoute(line.push, Trim(line.push.source));
    }
  }

  lemma HasIpAppend(xs: seq<CcdRoute>, ys: seq<CcdRoute>, k: Key)
    ensures HasIp(xs + ys, k) <==> HasIp(xs, k) || HasIp(ys, k)
  {
    var all := xs + ys;
    if i :| 0 <= i < |xs| && IsIp(xs[i], k) { assert IsIp(all[i], k); }
    if i :| 0 <= i < |ys| && IsIp(ys[i], k) { assert IsIp(all[|xs| + i], k); }
  }

  lemma PlainLineFirst(lines: seq<Line>, k: Key)
    requires lines != []
    ensures PlainLine(lines, k) <==> IsPlainLine(lines[0], k) || PlainLine(lines[1..], k)
  {
    if i :| 0 <= i < |lines| && IsPlainLine(lines[i], k) { assert i > 0 ==> lines[1..][i - 1] == lines[i]; }
    if i :| 0 <= i < |lines[1..]| && IsPlainLine(lines[1..][i], k) { assert IsPlainLine(lines[i + 1], k); }
  }

  lemma {:induction false} ParseFromIp(st: Parsed, lines: seq<Line>, k: Key)
    ensures HasIp(ParseFrom(st, lines).ipRoutes, k) <==> HasIp(st.ipRoutes, k) || PlainLine(lines, k)
    decreases |lines|
  {
    if lines != [] {
      ParseLineIp(st, lines[0], k);
      ParseFromIp(ParseLine(st, lines[0]), lines[1..], k);
      PlainLineFirst(lines, k);
    }
  }

  lemma PlainLineAppend(xs: seq<Line>, ys: seq<Line>, k: Key)
    ensures PlainLine(xs + ys, k) <==> PlainLine(xs, k) || PlainLine(ys, k)
  {
    var all := xs + ys;
    if i :| 0 <= i < |xs| && IsPlainLine(xs[i], k) { assert IsPlainLine(all[i], k); }
    if i :| 0 <= i < |ys| && IsPlainLine(ys[i], k) { assert IsPlainLine(all[|xs| + i], k); }
  }

  lemma RouteLinesPlain(pushes: seq<Push>, k: Key)
    ensures PlainLine(RouteLines(pushes), k) <==> PlainFor(pushes, k)
  {
    var lines := RouteLines(pushes);
    RouteLinesAre(pushes);
    if i :| 0 <= i < |pushes| && pushes[i].key == k && ProvenanceOf(Trim(pushes[i].source)) == Plain {
      assert IsPlainLine(lines[i], k);
    }
  }

  lemma RenderPlain(ccd: Ccd, common: seq<ExpandedRoute>, g: Globals, k: Key)
    ensures PlainLine(Render(ccd, common, g), k) <==> PlainFor(Merged(ccd.routes, common), k)
  {
    var head, routes, tail := Head(ccd, g), RouteLines(Merged(ccd.routes, common)), Tail(ccd);
    HeadAndTail(ccd, g);
    RouteLinesPlain(Merged(ccd.routes, common), k);
    PlainLineAppend(routes, tail, k);
    PlainLineAppend(head, routes + tail, k);
  }

  // ---- one save and load ----

  /** IP routes come before domain routes, as every load lists them. */
  ghost predicate IpsLead(routes: seq<CcdRoute>) {
    forall i, j :: 0 <= i < j < |routes| && routes[i].kind.DomainKind? ==> routes[j].kind.DomainKind?
  }

  lemma LeadingIpsAreFirst(routes: seq<CcdRoute>, k: Key)
    requires IpsLead(routes)
    ensures IpFirst(routes, k) <==> HasIp(routes, k)
  {
    if i :| 0 <= i < |routes| && IsIp(routes[i], k) { assert NoneBefore(routes, i, k); }
  }

  lemma LoadedIpsLead(lines: seq<Line>, redirectNow: bool, k: Key)
    ensures var loaded := Parse(lines, redirectNow).routes;
            IpsLead(loaded) && (HasIp(loaded, k) <==> PlainLine(lines, k))
  {
    var st := ParseFrom(NOTHING, lines);
    CcdDomains.IpRoutesArePlain(NOTHING, lines);
    ParseFromIp(NOTHING, lines, k);
    HasIpAppend(st.ipRoutes, DomainRoutes(st.domains), k);
  }

  /** A save and a load keep an IP route exactly when no domain route before it asks for its destination. */
  lemma IpRouteLoadedExactly(ccd: Ccd, common: seq<ExpandedRoute>, g: Globals, redirectNow: bool, k: Key)
    requires Storable(ccd.routes)
    ensures HasIp(Parse(Render(ccd, common, g), redirectNow).routes, k) <==> IpFirst(ccd.routes, k)
  {
    LoadedIpsLead(Render(ccd, common, g), redirectNow, k);
    RenderPlain(ccd, common, g, k);
    MergedPlain(ccd.routes, common, k);
  }

  // ---- histories ----

  /** Resolver answers are filtered to IPv4. */
  ghost predicate AnswersIPv4(answers: map<string, seq<AddrText>>) {
    forall d, i :: d in answers && 0 <= i < |answers[d]| ==> answers[d][i].To4().Some?
  }

  ghost predicate Background(e: Event) {
    e.Rerender? || (e.Refresh? && AnswersIPv4(e.answers))
  }

  lemma RefreshKeepsIps(ccd: Ccd, answers: map<string, seq<AddrText>>, k: Key)
    requires IpsLead(ccd.routes) && ResolvedIPv4(ccd.routes) && AnswersIPv4(answers)
    ensures var routes := RefreshedCcd(ccd, answers).routes;
            IpsLead(routes) && ResolvedIPv4(routes) && (HasIp(routes, k) <==> HasIp(ccd.routes, k))
  {
    var routes := RefreshedCcd(ccd, answers).routes;
    forall i | 0 <= i < |routes|
        ensures routes[i].kind == ccd.routes[i].kind && (IsIp(routes[i], k) <==> IsIp(ccd.routes[i], k)) {
    }
  }

  /** What a background event saves, if it saves anything: the loaded choice, perhaps with new answers. */
  function Chosen(file: seq<Line>, e: Event): Ccd {
    match e
    case Save(ccd, _) => ccd
    case Rerender(env) => Load(file, env)
    case Refresh(answers, env) => RefreshedCcd(Load(file, env), answers)
  }

  lemma BackgroundStep(file: seq<Line>, ccd: Ccd, env: Env, e: Event, k: Key)
    requires RenderOf(file, ccd, env) && Background(e)
    ensures if Step(file, e) == file then true else RenderOf(Step(file, e), Chosen(file, e), e.env)
    ensures IpFirst(Chosen(file, e).routes, k) <==> IpFirst(ccd.routes, k)
  {
    var loaded := Load(file, e.env);
    RenderShowsDest(file, ccd, env, e.env.globals.redirect);
    LoadedIPv4(loaded.routes, ccd.routes);
    IpRouteLoadedExactly(ccd, env.common, env.globals, e.env.globals.redirect, k);
    LoadedIpsLead(file, e.env.globals.redirect, k);
    if e.Refresh? { RefreshKeepsIps(loaded, e.answers, k); }
    LeadingIpsAreFirst(Chosen(file, e).routes, k);
  }

  /** After a save, over any number of re-renders and refreshes, refused and failing ones included: an IP route of
      the user is still one exactly when, in the saved list, no domain route before it asked for its destination. */
  lemma {:induction false} IpRouteSurvivesExactly(file: seq<Line>, events: seq<Event>, ccd: Ccd, env: Env,
                                                  redirectNow: bool, k: Key)
    requires RenderOf(file, ccd, env) && forall i :: 0 <= i < |events| ==> Background(events[i])
    ensures HasIp(Parse(After(file, events), redirectNow).routes, k) <==> IpFirst(ccd.routes, k)
    decreases |events|
  {
    if events == [] {
      IpRouteLoadedExactly(ccd, env.common, env.globals, redirectNow, k);
    } else {
      var e, next := events[0], Step(file, events[0]);
      BackgroundStep(file, ccd, env, e, k);
      if next == file {
        IpRouteSurvivesExactly(file, events[1..], ccd, env, redirectNow, k);
      } else {
        IpRouteSurvivesExactly(next, events[1..], Chosen(file, e), e.env, redirectNow, k);
      }
    }
  }

  /** A domain that resolves to x, and an IP route to x after it. */
  function Shadowed(d: string, x: AddrText): Ccd {
    Ccd(Dynamic, [CcdRoute(DomainKind, EMPTY_TEXT, EMPTY_TEXT, d, "", [x]), CcdRoute(IpKind, x, HOST_MASK, "", "", [])],
        false, [])
  }

  lemma ShadowedStorable(d: string, x: AddrText)
    requires ValidDomain(d) && ValidateNetworkMask(x, HOST_MASK).Ok?
    ensures Storable(Shadowed(d, x).routes) && HasIp(Shadowed(d, x).routes, Key(x, HOST_MASK))
    ensures forall k :: !IpFirst(Shadowed(d, x).routes, k)
    ensures forall k :: HasDest(Shadowed(d, x).routes, k) <==> k == Key(x, HOST_MASK)
  {
    var routes := Shadowed(d, x).routes;
    EmptyDescription();
    assert IsIp(routes[1], Key(x, HOST_MASK)) && RouteDest(routes[1], Key(x, HOST_MASK));
    forall k ensures !IpFirst(routes, k) {
      if i :| 0 <= i < |routes| && IsIp(routes[i], k) && NoneBefore(routes, i, k) { assert DomainAsks(routes[0], k); }
    }
  }

  lemma EmptyDescription()
    ensures DescriptionOk("")
  {}

  /** Every loaded route is a domain route of d. */
  lemma ShadowedLoads(d: string, x: AddrText, common: seq<ExpandedRoute>, g: Globals, redirectNow: bool, r: CcdRoute)
    requires ValidDomain(d) && ValidateNetworkMask(x, HOST_MASK).Ok?
    requires forall i :: 0 <= i < |common| ==> CcdDomains.CleanCommon(common[i])
    requires r in Parse(Render(Shadowed(d, x), common, g), redirectNow).routes
    ensures r.kind.DomainKind? && r.domain == d
  {
    var ccd := Shadowed(d, x);
    var loaded := Parse(Render(ccd, common, g), redirectNow).routes;
    ShadowedStorable(d, x);
    var i :| 0 <= i < |loaded| && loaded[i] == r;
    if r.kind.DomainKind? {
      CcdDomains.DomainsSurvive(ccd, common, g, redirectNow, r.domain);
      assert CcdDomains.HasDomain(loaded, r.domain);
    } else {
      assert IsIp(loaded[i], Key(r.address, r.mask));
      IpRouteLoadedExactly(ccd, common, g, redirectNow, Key(r.address, r.mask));
    }
  }

  /** Such a route is lost: after one load a refresh with another answer removes its destination. */
  lemma ShadowedRouteIsLost(d: string, x: AddrText, y: AddrText, common: seq<ExpandedRoute>, g: Globals,
                            redirectNow: bool)
    requires ValidDomain(d) && ValidateNetworkMask(x, HOST_MASK).Ok? && x != y
    requires forall i :: 0 <= i < |common| ==> CcdDomains.CleanCommon(common[i])
    ensures var loaded := Parse(Render(Shadowed(d, x), common, g), redirectNow);
            && HasDest(loaded.routes, Key(x, HOST_MASK))
            && !HasDest(RefreshedCcd(loaded, map[d := [y]]).routes, Key(x, HOST_MASK))
  {
    var loaded, k := Parse(Render(Shadowed(d, x), common, g), redirectNow), Key(x, HOST_MASK);
    ShadowedStorable(d, x);
    DestinationsSurvive(Shadowed(d, x), common, g, redirectNow, k);
    ValidDomainIsToken(d);
    var routes := RefreshedCcd(loaded, map[d := [y]]).routes;
    if i :| 0 <= i < |routes| && RouteDest(routes[i], k) {
      ShadowedLoads(d, x, common, g, redirectNow, loaded.routes[i]);
      AnswerTaken(loaded.routes[i], d, x, y);
    }
  }

  lemma AnswerTaken(r: CcdRoute, d: string, x: AddrText, y: AddrText)
    requires r.kind.DomainKind? && r.domain == d && d != "" && x != y
    ensures x !in Refreshed(r, map[d := [y]]).resolvedIPs
  {
    assert x !in multiset([y]);
    if multiset([y]) == multiset(r.resolvedIPs) { assert x !in multiset(r.resolvedIPs); }
  }
}
