/** Whole histories of one client-config file: user saves, re-renders after a change of the common routes or of the
    server configuration, and refreshes of the user's domains, any of which may be refused or fail to be written. */
module CcdHistory {
  import opened Wrappers
  import opened Text
  import opened Ipv4
  import opened RoutePolicy
  import opened CcdMerge
  import opened CcdFile
  import opened CcdRoundTrip

  // ---- the firewall policy ----

  /** The firewall's prefixes of a user's own routes are a function of the destinations alone. */
  lemma OwnCidrsByDest(routes: seq<CcdRoute>, c: Cidr)
    requires ResolvedIPv4(routes)
    ensures c in OwnCidrs(routes) <==> exists k :: HasDest(routes, k) && IpMaskToCidr(k.address, k.mask) == Ok(c)
  {
    OwnCidrsMember(routes, c);
    if r :| r in routes && c in CcdRouteCidrs(r) {
      var i :| 0 <= i < |routes| && routes[i] == r;
      if r.kind.DomainKind? {
        var ip :| ip in r.resolvedIPs && IpToHostCidr(ip).Ok? && IpToHostCidr(ip).value == c;
        HostRoute(ip);
        assert RouteDest(routes[i], Key(ip, HOST_MASK));
      } else {
        assert RouteDest(routes[i], Key(r.address, r.mask));
      }
    }
    if k :| HasDest(routes, k) && IpMaskToCidr(k.address, k.mask) == Ok(c) {
      var i :| 0 <= i < |routes| && RouteDest(routes[i], k);
      if routes[i].kind.DomainKind? { HostRoute(k.address); }
      assert c in CcdRouteCidrs(routes[i]);
    }
  }

  lemma LoadedIPv4(loaded: seq<CcdRoute>, saved: seq<CcdRoute>)
    requires Storable(saved) && forall k :: HasDest(loaded, k) <==> HasDest(saved, k)
    ensures ResolvedIPv4(loaded)
  {
    forall i, j | 0 <= i < |loaded| && loaded[i].kind.DomainKind? && 0 <= j < |loaded[i].resolvedIPs|
      ensures loaded[i].resolvedIPs[j].To4().Some?
    {
      var k := Key(loaded[i].resolvedIPs[j], HOST_MASK);
      assert RouteDest(loaded[i], k);
      StoredNotBlank(saved, k);
    }
  }

  /** Equal destinations mean an equal policy, whatever the stored common routes are. */
  lemma SameDestSamePolicy(loaded: seq<CcdRoute>, saved: seq<CcdRoute>, stored: seq<CommonRoute>)
    requires Storable(saved) && forall k :: HasDest(loaded, k) <==> HasDest(saved, k)
    ensures AllowedCidrs(loaded, stored) == AllowedCidrs(saved, stored)
  {
    LoadedIPv4(loaded, saved);
    forall c: Cidr ensures c in OwnCidrs(loaded) <==> c in OwnCidrs(saved) {
      OwnCidrsByDest(loaded, c);
      OwnCidrsByDest(saved, c);
    }
    assert OwnCidrs(loaded) == OwnCidrs(saved);
  }

  // ---- the other things a load recovers ----

  lemma {:induction false} FoldKeeps(st: Parsed, lines: seq<Line>)
    ensures var end := ParseFrom(st, lines);
            && ((forall i :: 0 <= i < |lines| ==> !lines[i].StateLine?) ==> end.state == st.state)
            && ((forall i :: 0 <= i < |lines| ==> !lines[i].IfconfigPush?) ==> end.client == st.client)
            && ((forall i :: 0 <= i < |lines| ==> !lines[i].ExclusionPush?) ==> end.exclusions == st.exclusions)
            && (end.sawPush <==> st.sawPush || exists i :: 0 <= i < |lines| && lines[i].RedirectPush?)
    decreases |lines|
  {
    if lines != [] {
      var rest := lines[1..];
      FoldKeeps(ParseLine(st, lines[0]), rest);
      if i :| 0 <= i < |lines| && lines[i].RedirectPush? { assert i > 0 ==> rest[i - 1] == lines[i]; }
      if i :| 0 <= i < |rest| && rest[i].RedirectPush? { assert lines[i + 1] == rest[i]; }
    }
  }

  function UserExclusions(pushes: seq<Push>): seq<Subnet> {
    if pushes == [] then [] else ParseExclusion(pushes[0]) + UserExclusions(pushes[1..])
  }

  lemma SubnetsAssociate(a: seq<Subnet>, b: seq<Subnet>, c: seq<Subnet>)
    ensures (a + b) + c == a + (b + c)
  {}

  lemma {:induction false} ExclusionsParsed(st: Parsed, pushes: seq<Push>)
    ensures ParseFrom(st, ExclusionLines(pushes)) == st.(exclusions := st.exclusions + UserExclusions(pushes))
    decreases |pushes|
  {
    if pushes == [] {
      assert st.exclusions + [] == st.exclusions;
    } else {
      var first, rest := ParseExclusion(pushes[0]), UserExclusions(pushes[1..]);
      ExclusionsParsed(st.(exclusions := st.exclusions + first), pushes[1..]);
      assert ExclusionLines(pushes)[1..] == ExclusionLines(pushes[1..]);
      SubnetsAssociate(st.exclusions, first, rest);
    }
  }

  /** What a load finds in the lines before the routes. */
  lemma HeadParsed(ccd: Ccd, g: Globals)
    ensures var st := ParseFrom(NOTHING, Head(ccd, g)); var on := ccd.redirect || g.redirect;
            && st.client == ccd.client && st.sawPush == on
            && st.exclusions == if on then UserExclusions(Exclusions(g.exclusions, ccd.exclusions)) else []
  {
    var on := ccd.redirect || g.redirect;
    var pushes := Exclusions(g.exclusions, ccd.exclusions);
    var first: seq<Line> := if ccd.client.Static? then [IfconfigPush(ccd.client, g.mask)] else [];
    var second: seq<Line> := if on then [RedirectPush] + ExclusionLines(pushes) else [];
    assert Head(ccd, g) == first + second;
    ParseConcat(NOTHING, first, second);
    var st := NOTHING.(client := ccd.client);
    assert ParseFrom(NOTHING, first) == st by { if ccd.client.Static? { assert first[1..] == []; } }
    if on {
      assert second[1..] == ExclusionLines(pushes);
      ExclusionsParsed(st.(sawPush := true), pushes);
    }
  }

  lemma {:induction false} TailLines(pushes: seq<Push>, routes: seq<CcdRoute>)
    ensures forall i :: 0 <= i < |RouteLines(pushes)| ==> RouteLines(pushes)[i].RoutePush?
    ensures forall i :: 0 <= i < |Declarations(routes)| ==> Declarations(routes)[i].Declaration?
  {
    RouteLinesAre(pushes);
    NoRoutePush([], routes);
  }

  lemma RoutesKeep(st: Parsed, custom: seq<CcdRoute>, common: seq<ExpandedRoute>)
    ensures var end := ParseFrom(st, RouteLines(Merged(custom, common)));
            end.client == st.client && end.exclusions == st.exclusions
  {
    TailLines(Merged(custom, common), custom);
    FoldKeeps(st, RouteLines(Merged(custom, common)));
  }

  lemma TailKeeps(st: Parsed, ccd: Ccd)
    ensures var end := ParseFrom(st, Tail(ccd));
            end.client == st.client && end.exclusions == st.exclusions && end.state == Some(ccd.redirect)
  {
    TailLines([], ccd.routes);
    assert Tail(ccd)[1..] == Declarations(ccd.routes);
    FoldKeeps(st.(state := Some(ccd.redirect)), Declarations(ccd.routes));
  }

  /** What a load finds in a rendered file. */
  lemma RenderParsed(ccd: Ccd, common: seq<ExpandedRoute>, g: Globals)
    ensures var st, head := ParseFrom(NOTHING, Render(ccd, common, g)), ParseFrom(NOTHING, Head(ccd, g));
            st.client == head.client && st.exclusions == head.exclusions && st.state == Some(ccd.redirect)
  {
    var head, routes := Head(ccd, g), RouteLines(Merged(ccd.routes, common));
    var st := ParseFrom(NOTHING, head);
    ParseConcat(NOTHING, head, routes + Tail(ccd));
    ParseConcat(st, routes, Tail(ccd));
    RoutesKeep(st, ccd.routes, common);
    TailKeeps(ParseFrom(st, routes), ccd);
  }

  /** The address, the user's own redirect choice and the rendered exclusions come back; the global force never
      shows. */
  lemma LoadedFields(ccd: Ccd, common: seq<ExpandedRoute>, g: Globals, redirectNow: bool)
    ensures var loaded := Parse(Render(ccd, common, g), redirectNow);
            && loaded.client == ccd.client && loaded.redirect == ccd.redirect
            && loaded.exclusions ==
                 if ccd.redirect || g.redirect then UserExclusions(Exclusions(g.exclusions, ccd.exclusions)) else []
  {
    HeadParsed(ccd, g);
    RenderParsed(ccd, common, g);
  }

  /** The legacy fallback: without a state line, and only then, a rendered redirect counts as the user's own choice
      while the global force is off. */
  lemma LegacyRedirect(lines: seq<Line>, redirectNow: bool)
    requires forall i :: 0 <= i < |lines| ==> !lines[i].StateLine?
    ensures Parse(lines, redirectNow).redirect <==>
        !redirectNow && exists i :: 0 <= i < |lines| && lines[i].RedirectPush?
  {
    FoldKeeps(NOTHING, lines);
  }

  lemma StateLineDecides(before: seq<Line>, on: bool, after: seq<Line>, redirectNow: bool)
    requires forall i :: 0 <= i < |after| ==> !after[i].StateLine?
    ensures Parse(before + ([StateLine(on)] + after), redirectNow).redirect == on
  {
    ParseConcat(NOTHING, before, [StateLine(on)] + after);
    assert ([StateLine(on)] + after)[1..] == after;
    FoldKeeps(ParseLine(ParseFrom(NOTHING, before), StateLine(on)), after);
  }

  // ---- exclusions ----

  lemma {:induction false} UserExclusionListed(pushes: seq<Push>, k: Key)
    ensures Listed(UserExclusions(pushes), k) <==>
            exists i :: 0 <= i < |pushes| && pushes[i].key == k && ParseExclusion(pushes[i]) != []
  {
    if pushes != [] {
      var first, rest := ParseExclusion(pushes[0]), pushes[1..];
      UserExclusionListed(rest, k);
      ListedAppend(first, UserExclusions(rest), k);
      assert first != [] ==> first[0].key == pushes[0].key;
      if i :| 0 <= i < |rest| && rest[i].key == k && ParseExclusion(rest[i]) != [] { assert pushes[i + 1] == rest[i]; }
      if i :| 0 <= i < |pushes| && pushes[i].key == k && ParseExclusion(pushes[i]) != [] {
        assert i > 0 ==> rest[i - 1] == pushes[i];
      }
    }
  }

  lemma ListedAppend(xs: seq<Subnet>, ys: seq<Subnet>, k: Key)
    ensures Listed(xs + ys, k) <==> Listed(xs, k) || Listed(ys, k)
  {
    var all := xs + ys;
    if i :| 0 <= i < |xs| && xs[i].key == k { assert all[i] == xs[i]; }
    if i :| 0 <= i < |ys| && ys[i].key == k { assert all[|xs| + i] == ys[i]; }
  }

  lemma MarkerRead(p: Push)
    ensures HasPrefix(p.source, EXCLUSION_USER) ==> ParseExclusion(p) != []
    ensures HasPrefix(p.source, EXCLUSION_GLOBAL) ==> ParseExclusion(p) == []
  {
    assert Token(EXCLUSION_USER) && Token(EXCLUSION_GLOBAL);
    if HasPrefix(p.source, EXCLUSION_USER) { TrimKeepsToken(EXCLUSION_USER, p.source); }
    if HasPrefix(p.source, EXCLUSION_GLOBAL) {
      TrimKeepsToken(EXCLUSION_GLOBAL, p.source);
      assert Trim(p.source)[12] == EXCLUSION_GLOBAL[12] != EXCLUSION_USER[12];
    }
  }

  lemma OnlyPush(pushes: seq<Push>, k: Key)
    requires Unique(KeysOf(pushes)) && KeyAt(pushes, k) < |pushes|
    ensures forall j :: 0 <= j < |pushes| && pushes[j].key == k ==> j == KeyAt(pushes, k)
  {
    forall j | 0 <= j < |pushes| && pushes[j].key == k ensures j == KeyAt(pushes, k) {
      assert KeysOf(pushes)[j] == KeysOf(pushes)[KeyAt(pushes, k)];
    }
  }

  lemma UserExclusionMerged(global: seq<Subnet>, user: seq<Subnet>, k: Key)
    requires !Blank(k)
    ensures Listed(UserExclusions(Exclusions(global, user)), k) <==> Listed(user, k) && !Listed(global, k)
  {
    var pushes := Exclusions(global, user);
    UserExclusionListed(pushes, k);
    ExclusionMarker(global, user, k);
    var i := KeyAt(pushes, k);
    if i < |pushes| {
      MarkerRead(pushes[i]);
      OnlyPush(pushes, k);
    }
  }

  /** A user's exclusion survives a save and a load exactly when full tunnel is in effect at the save and the global
      list does not hold the same destination. */
  lemma ExclusionSurvivesExactly(ccd: Ccd, common: seq<ExpandedRoute>, g: Globals, redirectNow: bool, k: Key)
    requires !Blank(k)
    ensures Listed(Parse(Render(ccd, common, g), redirectNow).exclusions, k) <==>
            (ccd.redirect || g.redirect) && Listed(ccd.exclusions, k) && !Listed(g.exclusions, k)
  {
    LoadedFields(ccd, common, g, redirectNow);
    if ccd.redirect || g.redirect { UserExclusionMerged(g.exclusions, ccd.exclusions, k); }
  }

  // ---- histories ----

  /** `free`: the static address is unused elsewhere; `written`: the file write succeeds. */
  datatype Env = Env(common: seq<ExpandedRoute>, globals: Globals, free: bool, written: bool)

  datatype Event =
    | Save(ccd: Ccd, env: Env)
    | Rerender(env: Env)
    | Refresh(answers: map<string, seq<AddrText>>, env: Env)

  predicate Accepted(ccd: Ccd, env: Env) {
    Validated(ccd, env.globals, env.free) && env.written
  }

  function Modify(file: seq<Line>, ccd: Ccd, env: Env): seq<Line> {
    if Accepted(ccd, env) then Render(ccd, env.common, env.globals) else file
  }

  function Load(file: seq<Line>, env: Env): Ccd {
    Parse(file, env.globals.redirect)
  }

  /** A route takes a new answer when it differs from the stored one as a set with repetitions. */
  function Refreshed(r: CcdRoute, answers: map<string, seq<AddrText>>): CcdRoute {
    if r.kind.DomainKind? && r.domain != "" && r.domain in answers &&
        multiset(answers[r.domain]) != multiset(r.resolvedIPs)
    then r.(resolvedIPs := answers[r.domain]) else r
  }

  function RefreshedCcd(ccd: Ccd, answers: map<string, seq<AddrText>>): Ccd {
    ccd.(routes := seq(|ccd.routes|, i requires 0 <= i < |ccd.routes| => Refreshed(ccd.routes[i], answers)))
  }

  function Step(file: seq<Line>, e: Event): seq<Line> {
    match e
    case Save(ccd, env) => Modify(file, ccd, env)
    case Rerender(env) => Modify(file, Load(file, env), env)
    case Refresh(answers, env) =>
      var ccd := Load(file, env);
      if RefreshedCcd(ccd, answers) == ccd then file else Modify(file, RefreshedCcd(ccd, answers), env)
  }

  function After(file: seq<Line>, events: seq<Event>): seq<Line>
    decreases |events|
  {
    if events == [] then file else After(Step(file, events[0]), events[1..])
  }

  /** The stored file and the one operation that writes it. */
  class CcdStore {
    var file: seq<Line>
    /** The outcome of every file write so far. */
    ghost var writes: seq<bool>

    constructor ()
      ensures file == []
    {
      file, writes := [], [];
    }

    method SaveCcd(lines: seq<Line>) returns (written: bool)
      modifies this
      ensures file == (if written then lines else old(file)) && writes == old(writes) + [written]
    {
      written := *;
      writes := writes + [written];
      if written { file := lines; }
    }

    method ModifyCcd(ccd: Ccd, common: seq<ExpandedRoute>, g: Globals, free: bool) returns (ok: bool, ghost env: Env)
      modifies this
      ensures env == Env(common, g, free, env.written) && ok == Accepted(ccd, env)
      ensures file == Modify(old(file), ccd, env)
      ensures writes == old(writes) + if Validated(ccd, g, free) then [env.written] else []
    {
      env := Env(common, g, free, true);
      ok := ValidateCcd(ccd, g, free);
      if !ok { return; }
      var merged := MergePushRoutes(ccd.routes, common);
      var exclusions := MergeExclusions(g.exclusions, ccd.exclusions);
      var lines := if ccd.client.Static? then [IfconfigPush(ccd.client, g.mask)] else [];
      if ccd.redirect || g.redirect {
        lines := lines + ([RedirectPush] + ExclusionLines(exclusions));
      }
      assert lines == Head(ccd, g);
      ok := SaveCcd(lines + (RouteLines(merged) + Tail(ccd)));
      env := Env(common, g, free, ok);
    }
  }

  /** The file is a render of an accepted choice. */
  ghost predicate RenderOf(file: seq<Line>, ccd: Ccd, env: Env) {
    Accepted(ccd, env) && Storable(ccd.routes) && file == Render(ccd, env.common, env.globals)
  }

  ghost predicate SameDest(a: seq<CcdRoute>, b: seq<CcdRoute>) {
    forall k :: HasDest(a, k) <==> HasDest(b, k)
  }

  lemma RenderShowsDest(file: seq<Line>, ccd: Ccd, env: Env, redirectNow: bool)
    requires RenderOf(file, ccd, env)
    ensures SameDest(Parse(file, redirectNow).routes, ccd.routes)
  {
    forall k: Key ensures HasDest(Parse(file, redirectNow).routes, k) <==> HasDest(ccd.routes, k) {
      DestinationsSurvive(ccd, env.common, env.globals, redirectNow, k);
    }
  }

  /** One re-render writes what it loaded, or leaves the file. */
  lemma RerenderStep(file: seq<Line>, ccd: Ccd, env: Env, e: Env)
    requires RenderOf(file, ccd, env)
    ensures var loaded := Load(file, e);
            if Accepted(loaded, e) then RenderOf(Step(file, Rerender(e)), loaded, e)
            else Step(file, Rerender(e)) == file
  {
    RenderShowsDest(file, ccd, env, e.globals.redirect);
    if Accepted(Load(file, e), e) { LoadedIPv4(Load(file, e).routes, ccd.routes); }
  }

  /** Re-rendering any number of times, with whatever common routes and server configuration, whether each save is
      accepted or not, leaves the destinations of the user's own routes as they were saved. */
  lemma {:induction false} RerendersKeepDest(file: seq<Line>, events: seq<Event>, ccd: Ccd, env: Env, redirectNow: bool)
    requires RenderOf(file, ccd, env) && forall i :: 0 <= i < |events| ==> events[i].Rerender?
    ensures SameDest(Parse(After(file, events), redirectNow).routes, ccd.routes)
    decreases |events|
  {
    if events == [] {
      RenderShowsDest(file, ccd, env, redirectNow);
    } else {
      var e := events[0].env;
      RerenderStep(file, ccd, env, e);
      if Accepted(Load(file, e), e) {
        RenderShowsDest(file, ccd, env, e.globals.redirect);
        RerendersKeepDest(Step(file, events[0]), events[1..], Load(file, e), e, redirectNow);
      } else {
        RerendersKeepDest(file, events[1..], ccd, env, redirectNow);
      }
    }
  }

  /** The firewall policy of a user is unchanged by any number of re-renders of the user's file. */
  lemma RerendersKeepPolicy(file: seq<Line>, events: seq<Event>, ccd: Ccd, env: Env, redirectNow: bool,
                            stored: seq<CommonRoute>)
    requires RenderOf(file, ccd, env) && forall i :: 0 <= i < |events| ==> events[i].Rerender?
    ensures AllowedCidrs(Parse(After(file, events), redirectNow).routes, stored) == AllowedCidrs(ccd.routes, stored)
  {
    RerendersKeepDest(file, events, ccd, env, redirectNow);
    SameDestSamePolicy(Parse(After(file, events), redirectNow).routes, ccd.routes, stored);
  }

  // ---- the full-tunnel choice over any history ----

  /** The user's own choice, None while no state line records one, and whether the file pushes the redirect. */
  datatype Intent = Intent(own: Option<bool>, pushed: bool)

  ghost predicate Pushes(file: seq<Line>) {
    exists i :: 0 <= i < |file| && file[i].RedirectPush?
  }

  /** What a file says; a user without a file has an empty one. */
  ghost function IntentOf(file: seq<Line>): Intent {
    Intent(ParseFrom(NOTHING, file).state, Pushes(file))
  }

  /** A recorded choice counts; without one, a rendered redirect does while the global force is off. */
  function Choice(intent: Intent, force: bool): bool {
    match intent.own
    case Some(on) => on
    case None => intent.pushed && !force
  }

  function Recorded(own: bool, force: bool): Intent { Intent(Some(own), own || force) }

  function StepIntent(file: seq<Line>, intent: Intent, e: Event): Intent {
    match e
    case Save(ccd, env) => if Accepted(ccd, env) then Recorded(ccd.redirect, env.globals.redirect) else intent
    case Rerender(env) =>
      if Accepted(Load(file, env), env) then Recorded(Choice(intent, env.globals.redirect), env.globals.redirect)
      else intent
    case Refresh(answers, env) =>
      var ccd := Load(file, env);
      if RefreshedCcd(ccd, answers) != ccd && Accepted(RefreshedCcd(ccd, answers), env)
      then Recorded(Choice(intent, env.globals.redirect), env.globals.redirect) else intent
  }

  function IntentAfter(file: seq<Line>, intent: Intent, events: seq<Event>): Intent
    decreases |events|
  {
    if events == [] then intent
    else IntentAfter(Step(file, events[0]), StepIntent(file, intent, events[0]), events[1..])
  }

  lemma LoadShowsChoice(file: seq<Line>, redirectNow: bool)
    ensures Parse(file, redirectNow).redirect == Choice(IntentOf(file), redirectNow)
  {
    FoldKeeps(NOTHING, file);
  }

  lemma RenderRecords(ccd: Ccd, common: seq<ExpandedRoute>, g: Globals)
    ensures IntentOf(Render(ccd, common, g)) == Recorded(ccd.redirect, g.redirect)
  {
    RenderedEffect(ccd, common, g);
    RenderParsed(ccd, common, g);
  }

  lemma RenderedEffect(ccd: Ccd, common: seq<ExpandedRoute>, g: Globals)
    ensures Pushes(Render(ccd, common, g)) <==> ccd.redirect || g.redirect
  {
    var file, head, routes := Render(ccd, common, g), Head(ccd, g), RouteLines(Merged(ccd.routes, common));
    TailLines(Merged(ccd.routes, common), ccd.routes);
    NoRoutePush(Exclusions(g.exclusions, ccd.exclusions), []);
    if ccd.redirect || g.redirect {
      var i := if ccd.client.Static? then 1 else 0;
      assert head[i] == RedirectPush && file[i] == head[i];
    }
    var rest := routes + Tail(ccd);
    forall i | |head| <= i < |file| ensures !file[i].RedirectPush? {
      assert file[i] == rest[i - |head|];
      assert i - |head| < |routes| ==> rest[i - |head|] == routes[i - |head|];
    }
    if i :| 0 <= i < |file| && file[i].RedirectPush? { assert file[i] == head[i]; }
  }

  lemma StepMovesIntent(file: seq<Line>, e: Event)
    ensures IntentOf(Step(file, e)) == StepIntent(file, IntentOf(file), e)
  {
    var env := e.env;
    var loaded := Load(file, env);
    LoadShowsChoice(file, env.globals.redirect);
    match e
    case Save(saved, _) => RenderRecords(saved, env.common, env.globals);
    case Rerender(_) => RenderRecords(loaded, env.common, env.globals);
    case Refresh(answers, _) => RenderRecords(RefreshedCcd(loaded, answers), env.common, env.globals);
  }

  /** From any file, an absent or a legacy one included, over any history of saves, global toggles, re-renders and
      refreshes, refused or failing ones included: a load shows the user's last accepted choice, and the file pushes
      the redirect exactly when that choice or the global force at the last accepted render was on. Until a choice is
      recorded the first accepted render fixes it from the pushed redirect, counted only while the global force is
      off. */
  lemma {:induction false} HistoryShowsIntent(file: seq<Line>, events: seq<Event>, redirectNow: bool)
    ensures var last, now := After(file, events), IntentAfter(file, IntentOf(file), events);
            && Parse(last, redirectNow).redirect == Choice(now, redirectNow)
            && (Pushes(last) <==> now.pushed)
    decreases |events|
  {
    if events == [] {
      LoadShowsChoice(file, redirectNow);
    } else {
      StepMovesIntent(file, events[0]);
      HistoryShowsIntent(Step(file, events[0]), events[1..], redirectNow);
    }
  }

  /** Once a choice is recorded only the user's own saves change it. */
  lemma {:induction false} OnlySavesChange(file: seq<Line>, intent: Intent, events: seq<Event>)
    requires intent.own.Some? && forall i :: 0 <= i < |events| ==> !events[i].Save?
    ensures IntentAfter(file, intent, events).own == intent.own
    decreases |events|
  {
    if events != [] { OnlySavesChange(Step(file, events[0]), StepIntent(file, intent, events[0]), events[1..]); }
  }
}
