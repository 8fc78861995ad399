/** The store of common routes: every change is computed on a working copy under the lock, persisted first and published
    only then, while a refresh resolves names outside the lock and commits through the same path. */
module CommonRoutes {
  import opened Wrappers
  import opened Text
  import opened Ipv4
  import opened RoutePolicy
  import CcdMerge
  import CcdRoundTrip

  /** One answer of the resolver. */
  datatype Answer = Answer(domain: string, ips: seq<AddrText>)

  /** One lookup with its result; None stands for a failed one. */
  datatype Lookup = Lookup(domain: string, ips: Option<seq<AddrText>>)

  datatype Error = Invalid | Duplicate | NotFound | PersistFailed

  /** What a refresh found for one route while the lock was free; None stands for a failed lookup. */
  datatype Resolution = Resolution(domain: string, ips: Option<seq<AddrText>>)

  predicate ValidRoute(r: CommonRoute) {
    && CcdRoundTrip.DescriptionOk(r.description)
    && match r.kind
       case IpKind => r.domain == "" && ValidateNetworkMask(r.address, r.mask).Ok?
       case DomainKind => r.address == CcdMerge.EMPTY_TEXT && r.mask == CcdMerge.EMPTY_TEXT &&
           CcdRoundTrip.ValidDomain(r.domain)
       case _ => false
  }

  function FilterIPv4(ips: seq<AddrText>): (r: seq<AddrText>)
    ensures forall i :: 0 <= i < |r| ==> r[i].To4().Some? && r[i] in ips
  {
    if ips == [] then [] else (if ips[0].To4().Some? then [ips[0]] else []) + FilterIPv4(ips[1..])
  }

  lemma FilterLast(ips: seq<AddrText>, ip: AddrText)
    ensures FilterIPv4(ips + [ip]) == FilterIPv4(ips) + if ip.To4().Some? then [ip] else []
  {
    if ips == [] {
      assert [ip][1..] == [];
    } else {
      assert (ips + [ip])[1..] == ips[1..] + [ip];
      FilterLast(ips[1..], ip);
    }
  }

  method KeepIPv4(ips: seq<AddrText>) returns (out: seq<AddrText>)
    ensures out == FilterIPv4(ips)
  {
    out := [];
    for i := 0 to |ips|
      invariant out == FilterIPv4(ips[..i])
    {
      FilterLast(ips[..i], ips[i]);
      assert ips[..i + 1] == ips[..i] + [ips[i]];
      if ips[i].To4().Some? { out := out + [ips[i]]; }
    }
    assert ips[..|ips|] == ips;
  }

  predicate SameTarget(a: CommonRoute, b: CommonRoute) {
    || (a.kind.IpKind? && b.kind.IpKind? && a.address == b.address && a.mask == b.mask)
    || (a.kind.DomainKind? && b.kind.DomainKind? && a.domain == b.domain)
  }

  ghost predicate DuplicateIn(routes: seq<CommonRoute>, e: CommonRoute) {
    exists i :: 0 <= i < |routes| && routes[i].id != e.id && SameTarget(e, routes[i])
  }

  // ---- what the store promises ----

  ghost predicate Distinct(routes: seq<CommonRoute>) {
    forall i, j :: 0 <= i < j < |routes| ==> routes[i].id != routes[j].id && !SameTarget(routes[i], routes[j])
  }

  /** The addresses of a route are none, or an answer obtained for the domain that it has now. */
  ghost predicate Answered(r: CommonRoute, answers: set<Answer>) {
    r.resolvedIPs == [] ||
        exists raw :: Answer(r.domain, raw) in answers && (r.resolvedIPs == raw || r.resolvedIPs == FilterIPv4(raw))
  }

  ghost predicate Sound(routes: seq<CommonRoute>, answers: set<Answer>) {
    && Distinct(routes)
    && forall i :: 0 <= i < |routes| ==> ValidRoute(routes[i]) && Answered(routes[i], answers)
  }

  ghost predicate RecordedIn(resolved: map<nat, Resolution>, answers: set<Answer>) {
    forall id :: id in resolved && resolved[id].ips.Some? ==>
      exists raw :: Answer(resolved[id].domain, raw) in answers && resolved[id].ips.value == FilterIPv4(raw)
  }

  /** Only resolved addresses differ: no route is added, removed, moved or renamed. */
  ghost predicate SameRoutes(before: seq<CommonRoute>, after: seq<CommonRoute>) {
    |after| == |before| && forall i :: 0 <= i < |before| ==> after[i] == before[i].(resolvedIPs := after[i].resolvedIPs)
  }

  lemma AnsweredLater(r: CommonRoute, answers: set<Answer>, later: set<Answer>)
    requires Answered(r, answers) && answers <= later
    ensures Answered(r, later)
  {
    if raw :| Answer(r.domain, raw) in answers && (r.resolvedIPs == raw || r.resolvedIPs == FilterIPv4(raw)) {
      assert Answer(r.domain, raw) in later;
    }
  }

  lemma SoundLater(routes: seq<CommonRoute>, answers: set<Answer>, later: set<Answer>)
    requires Sound(routes, answers) && answers <= later
    ensures Sound(routes, later)
  {
    forall i | 0 <= i < |routes| ensures Answered(routes[i], later) { AnsweredLater(routes[i], answers, later); }
  }

  lemma AppendSound(routes: seq<CommonRoute>, r: CommonRoute, answers: set<Answer>)
    requires Sound(routes, answers) && ValidRoute(r) && Answered(r, answers) && !DuplicateIn(routes, r)
    requires forall i :: 0 <= i < |routes| ==> routes[i].id != r.id
    ensures Sound(routes + [r], answers)
  {
    forall i | 0 <= i < |routes| ensures !SameTarget(routes[i], r) { assert !SameTarget(r, routes[i]); }
  }

  lemma ReplaceSound(routes: seq<CommonRoute>, idx: nat, r: CommonRoute, answers: set<Answer>)
    requires Sound(routes, answers) && idx < |routes| && r.id == routes[idx].id && ValidRoute(r) && Answered(r, answers)
    requires !DuplicateIn(Without(routes, idx), r)
    ensures Sound(routes[idx := r], answers)
  {
    forall i | 0 <= i < |routes| && i != idx ensures !SameTarget(routes[i], r) && !SameTarget(r, routes[i]) {
      var w := Without(routes, idx);
      assert w[if i < idx then i else i - 1] == routes[i];
    }
  }

  function Without(routes: seq<CommonRoute>, idx: nat): seq<CommonRoute>
    requires idx < |routes|
  {
    routes[..idx] + routes[idx + 1..]
  }

  lemma WithoutSound(routes: seq<CommonRoute>, idx: nat, answers: set<Answer>)
    requires Sound(routes, answers) && idx < |routes|
    ensures Sound(Without(routes, idx), answers)
  {
    var w := Without(routes, idx);
    forall i | 0 <= i < |w| ensures w[i] == routes[if i < idx then i else i + 1] {}
  }

  // ---- refresh ----

  /** A resolution applies to a route that still exists, is a domain and still has the domain that was resolved. */
  function Refreshed(r: CommonRoute, resolved: map<nat, Resolution>): CommonRoute {
    if r.id in resolved && r.kind.DomainKind? && r.domain == resolved[r.id].domain && resolved[r.id].ips.Some?
    then r.(resolvedIPs := resolved[r.id].ips.value) else r
  }

  function RefreshedAll(routes: seq<CommonRoute>, resolved: map<nat, Resolution>): seq<CommonRoute> {
    seq(|routes|, i requires 0 <= i < |routes| => Refreshed(routes[i], resolved))
  }

  /** Whatever happened to the store since the names were resolved, a refresh keeps every promise and touches nothing
      but resolved addresses; a route edited to another domain keeps its own. */
  lemma RefreshKeepsSound(routes: seq<CommonRoute>, resolved: map<nat, Resolution>, answers: set<Answer>)
    requires Sound(routes, answers) && RecordedIn(resolved, answers)
    ensures Sound(RefreshedAll(routes, resolved), answers) && SameRoutes(routes, RefreshedAll(routes, resolved))
    ensures forall i ::
              0 <= i < |routes| && routes[i].id in resolved && resolved[routes[i].id].domain != routes[i].domain ==>
              RefreshedAll(routes, resolved)[i] == routes[i]
  {
    var after := RefreshedAll(routes, resolved);
    forall i | 0 <= i < |routes| ensures ValidRoute(after[i]) && Answered(after[i], answers) {
      var r := routes[i];
      if after[i] != r {
        var raw :| Answer(resolved[r.id].domain, raw) in answers && resolved[r.id].ips.value == FilterIPv4(raw);
        assert Answer(after[i].domain, raw) in answers;
      }
    }
  }

  /** The working copy of a refresh, and whether the addresses of a route became another set. */
  method ApplyResolved(routes: seq<CommonRoute>, resolved: map<nat, Resolution>)
    returns (working: seq<CommonRoute>, changed: bool)
    ensures working == RefreshedAll(routes, resolved) && (changed <==> !SameAddresses(routes, working))
  {
    working, changed := routes, false;
    for i := 0 to |routes|
      invariant |working| == |routes| && forall j :: 0 <= j < |routes| ==>
                  working[j] == if j < i then Refreshed(routes[j], resolved) else routes[j]
      invariant changed <==> !SameAddresses(routes, working)
    {
      var r := working[i];
      if r.id !in resolved || !r.kind.DomainKind? { continue; }
      if r.domain != resolved[r.id].domain || resolved[r.id].ips.None? { continue; }
      if multiset(r.resolvedIPs) != multiset(resolved[r.id].ips.value) { changed := true; }
      OneAddressMore(routes, working, i, resolved[r.id].ips.value);
      working := working[i := r.(resolvedIPs := resolved[r.id].ips.value)];
    }
    assert working == RefreshedAll(routes, resolved);
  }

  lemma OneAddressMore(cfg: seq<CommonRoute>, before: seq<CommonRoute>, i: nat, ips: seq<AddrText>)
    requires i < |before| == |cfg| && before[i] == cfg[i] && SameRoutes(cfg, before)
    ensures var after := before[i := cfg[i].(resolvedIPs := ips)];
            SameAddresses(cfg, after) <==> SameAddresses(cfg, before) && multiset(ips) == multiset(cfg[i].resolvedIPs)
  {}

  // ---- import ----

  datatype Imported = ImportedDomain(domain: string) | ImportedIp(address: AddrText, mask: AddrText)

  datatype DedupKey = DomainKey(lower: string) | IpKey(address: AddrText, mask: AddrText)

  function KeyOf(r: CommonRoute): DedupKey {
    if r.kind.DomainKind? then DomainKey(Lower(Trim(r.domain))) else IpKey(r.address, r.mask)
  }

  function ImportedKey(p: Imported): DedupKey {
    match p
    case ImportedDomain(domain) => DomainKey(Lower(Trim(domain)))
    case ImportedIp(address, mask) => IpKey(address, mask)
  }

  function EntryFor(p: Imported, id: nat): CommonRoute {
    match p
    case ImportedDomain(domain) => CommonRoute(id, DomainKind, CcdMerge.EMPTY_TEXT, CcdMerge.EMPTY_TEXT, domain, "", [])
    case ImportedIp(address, mask) => CommonRoute(id, IpKind, address, mask, "", "", [])
  }

  /** A line is valid exactly when its network is a canonical one or its domain is a domain name. */
  lemma LineValidExactly(p: Imported, id: nat)
    ensures ValidRoute(EntryFor(p, id)) <==>
            match p
            case ImportedDomain(domain) => CcdRoundTrip.ValidDomain(domain)
            case ImportedIp(address, mask) => ValidateNetworkMask(address, mask).Ok?
  {
    EmptyDescription();
  }

  lemma EmptyDescription()
    ensures CcdRoundTrip.DescriptionOk("")
  {
    assert Trim("") == "";
  }

  ghost predicate Holds(routes: seq<CommonRoute>, k: DedupKey) {
    exists i :: 0 <= i < |routes| && KeyOf(routes[i]) == k
  }

  lemma SameTargetSameKey(a: CommonRoute, b: CommonRoute)
    requires SameTarget(a, b)
    ensures KeyOf(a) == KeyOf(b)
  {}

  /** Two valid routes have one key exactly when they are the same network, or the same domain up to case. */
  lemma SameKeyExactly(a: CommonRoute, b: CommonRoute)
    requires ValidRoute(a) && ValidRoute(b)
    ensures KeyOf(a) == KeyOf(b) <==>
            || (a.kind == IpKind && b.kind == IpKind && a.address == b.address && a.mask == b.mask)
            || (a.kind == DomainKind && b.kind == DomainKind && Lower(Trim(a.domain)) == Lower(Trim(b.domain)))
  {}

  lemma DuplicateIsHeld(routes: seq<CommonRoute>, e: CommonRoute)
    ensures DuplicateIn(routes, e) ==> Holds(routes, KeyOf(e))
  {
    if i :| 0 <= i < |routes| && routes[i].id != e.id && SameTarget(e, routes[i]) {
      SameTargetSameKey(e, routes[i]);
    }
  }

  ghost predicate KeysAre(existing: set<DedupKey>, routes: seq<CommonRoute>) {
    forall k :: k in existing <==> Holds(routes, k)
  }

  lemma HoldsAppend(routes: seq<CommonRoute>, r: CommonRoute, k: DedupKey)
    ensures Holds(routes + [r], k) <==> Holds(routes, k) || KeyOf(r) == k
  {
    var all := routes + [r];
    if i :| 0 <= i < |routes| && KeyOf(routes[i]) == k { assert all[i] == routes[i]; }
    assert all[|routes|] == r;
  }

  lemma KeysAppend(existing: set<DedupKey>, routes: seq<CommonRoute>, r: CommonRoute)
    requires KeysAre(existing, routes)
    ensures KeysAre(existing + {KeyOf(r)}, routes + [r])
  {
    forall k: DedupKey ensures Holds(routes + [r], k) <==> Holds(routes, k) || KeyOf(r) == k {
      HoldsAppend(routes, r, k);
    }
  }

  method CollectKeys(routes: seq<CommonRoute>) returns (existing: set<DedupKey>)
    ensures KeysAre(existing, routes)
  {
    existing := {};
    for i := 0 to |routes|
      invariant KeysAre(existing, routes[..i])
    {
      KeysAppend(existing, routes[..i], routes[i]);
      assert routes[..i + 1] == routes[..i] + [routes[i]];
      existing := existing + {KeyOf(routes[i])};
    }
    assert routes[..|routes|] == routes;
  }

  lemma RecordedMore(known: map<nat, Resolution>, before: set<Answer>, answers: set<Answer>, id: nat, res: Resolution)
    requires RecordedIn(known, before) && before <= answers
    requires res.ips.Some? ==> exists raw :: Answer(res.domain, raw) in answers && res.ips.value == FilterIPv4(raw)
    ensures RecordedIn(known[id := res], answers)
  {
    RecordedLater(known, before, answers);
  }

  lemma RecordedLater(known: map<nat, Resolution>, before: set<Answer>, answers: set<Answer>)
    requires RecordedIn(known, before) && before <= answers
    ensures RecordedIn(known, answers)
  {
    forall k | k in known && known[k].ips.Some?
      ensures exists raw :: Answer(known[k].domain, raw) in answers && known[k].ips.value == FilterIPv4(raw)
    {
      var raw :| Answer(known[k].domain, raw) in before && known[k].ips.value == FilterIPv4(raw);
      assert Answer(known[k].domain, raw) in answers;
    }
  }

  lemma AnswerSound(routes: seq<CommonRoute>, i: nat, raw: seq<AddrText>, answers: set<Answer>)
    requires Sound(routes, answers) && i < |routes| && Answer(routes[i].domain, raw) in answers
    ensures Sound(routes[i := routes[i].(resolvedIPs := raw)], answers)
  {
    assert Answered(routes[i].(resolvedIPs := raw), answers);
  }

  /** The identifiers from position i on are not in use. */
  ghost predicate UnusedFrom(routes: seq<CommonRoute>, ids: seq<nat>, i: nat) {
    forall j, m :: i <= j < |ids| && 0 <= m < |routes| ==> routes[m].id != ids[j]
  }

  lemma UnusedNext(before: seq<CommonRoute>, after: seq<CommonRoute>, ids: seq<nat>, i: nat)
    requires i < |ids| && UnusedFrom(before, ids, i) && forall j, k :: 0 <= j < k < |ids| ==> ids[j] != ids[k]
    requires after == before || (|after| == |before| + 1 && before <= after && after[|before|].id == ids[i])
    ensures UnusedFrom(after, ids, i + 1)
  {
    forall j, m | i + 1 <= j < |ids| && 0 <= m < |after| ensures after[m].id != ids[j] {
      assert m < |before| ==> after[m] == before[m];
    }
  }

  // A line that was not looked up has no answer, so `found` runs along the lines.

  ghost predicate Appends(routes: seq<CommonRoute>, p: Imported, id: nat) {
    !Holds(routes, ImportedKey(p)) && ValidRoute(EntryFor(p, id))
  }

  /** A domain line keeps the raw answer of its lookup, and no addresses when that failed. */
  function WithAnswer(e: CommonRoute, found: Option<seq<AddrText>>): CommonRoute {
    if e.kind.DomainKind? && found.Some? then e.(resolvedIPs := found.value) else e
  }

  ghost function ImportStep(routes: seq<CommonRoute>, p: Imported, id: nat,
                            found: Option<seq<AddrText>>): seq<CommonRoute> {
    if Appends(routes, p, id) then routes + [WithAnswer(EntryFor(p, id), found)] else routes
  }

  ghost function StepLookups(routes: seq<CommonRoute>, p: Imported, id: nat,
                             found: Option<seq<AddrText>>): seq<Lookup> {
    if Appends(routes, p, id) && p.ImportedDomain? then [Lookup(p.domain, found)] else []
  }

  /** The list after the lines of an import, each seen with those before it. */
  ghost function ImportedAll(routes: seq<CommonRoute>, parsed: seq<Imported>, ids: seq<nat>,
                             found: seq<Option<seq<AddrText>>>)
    : seq<CommonRoute>
    requires |ids| == |parsed| == |found|
  {
    if parsed == [] then routes
    else
      var n := |parsed| - 1;
      ImportStep(ImportedAll(routes, parsed[..n], ids[..n], found[..n]), parsed[n], ids[n], found[n])
  }

  ghost function ImportLookups(routes: seq<CommonRoute>, parsed: seq<Imported>, ids: seq<nat>,
                               found: seq<Option<seq<AddrText>>>): seq<Lookup>
    requires |ids| == |parsed| == |found|
  {
    if parsed == [] then []
    else
      var n := |parsed| - 1;
      ImportLookups(routes, parsed[..n], ids[..n], found[..n]) +
      StepLookups(ImportedAll(routes, parsed[..n], ids[..n], found[..n]), parsed[n], ids[n], found[n])
  }

  /** The first i lines are done: `found` holds their answers, `working` the list and `after` the lookups. */
  ghost predicate ImportedUpTo(routes: seq<CommonRoute>, parsed: seq<Imported>, ids: seq<nat>, i: nat,
                               found: seq<Option<seq<AddrText>>>, working: seq<CommonRoute>,
                               before: seq<Lookup>, after: seq<Lookup>)
    requires i <= |parsed| == |ids|
  {
    && |found| == i && working == ImportedAll(routes, parsed[..i], ids[..i], found)
    && after == before + ImportLookups(routes, parsed[..i], ids[..i], found)
  }

  lemma ImportedUpToNext(routes: seq<CommonRoute>, parsed: seq<Imported>, ids: seq<nat>, i: nat,
                         found: seq<Option<seq<AddrText>>>, working: seq<CommonRoute>, before: seq<Lookup>,
                         after: seq<Lookup>, next: Option<seq<AddrText>>)
    requires i < |parsed| == |ids| && ImportedUpTo(routes, parsed, ids, i, found, working, before, after)
    ensures ImportedUpTo(routes, parsed, ids, i + 1, found + [next], ImportStep(working, parsed[i], ids[i], next),
                         before, after + StepLookups(working, parsed[i], ids[i], next))
  {
    assert parsed[..i + 1][..i] == parsed[..i] && ids[..i + 1][..i] == ids[..i] && (found + [next])[..i] == found;
  }

  /** An IP line gives its address and mask, a domain line its domain with the answer of its lookup. */
  ghost predicate IsEntryOf(e: CommonRoute, p: Imported, id: nat, found: Option<seq<AddrText>>) {
    && e.id == id && e.description == ""
    && match p
       case ImportedIp(address, mask) =>
         e.kind == IpKind && e.address == address && e.mask == mask && e.domain == "" && e.resolvedIPs == []
       case ImportedDomain(domain) =>
         && e.kind == DomainKind && e.domain == domain && e.address == NotAnAddress("") && e.mask == NotAnAddress("")
         && e.resolvedIPs == match found case Some(ips) => ips case None => []
  }

  /** The entry comes from a line, with that line's identifier and answer. */
  ghost predicate FromLine(e: CommonRoute, parsed: seq<Imported>, ids: seq<nat>, found: seq<Option<seq<AddrText>>>)
    requires |ids| == |parsed| == |found|
  {
    exists i :: 0 <= i < |parsed| && IsEntryOf(e, parsed[i], ids[i], found[i])
  }

  lemma {:induction false} ImportKeeps(routes: seq<CommonRoute>, parsed: seq<Imported>, ids: seq<nat>,
                                       found: seq<Option<seq<AddrText>>>)
    requires |ids| == |parsed| == |found|
    ensures routes <= ImportedAll(routes, parsed, ids, found)
  {
    if parsed != [] {
      var n := |parsed| - 1;
      ImportKeeps(routes, parsed[..n], ids[..n], found[..n]);
    }
  }

  /** What an import adds comes from a line and repeats no key. */
  lemma {:induction false} ImportAdds(routes: seq<CommonRoute>, parsed: seq<Imported>, ids: seq<nat>,
                                      found: seq<Option<seq<AddrText>>>, m: nat)
    requires |ids| == |parsed| == |found| && m < |ImportedAll(routes, parsed, ids, found)|
    ensures var e := ImportedAll(routes, parsed, ids, found)[m];
            m >= |routes| ==>
              FromLine(e, parsed, ids, found) && !Holds(ImportedAll(routes, parsed, ids, found)[..m], KeyOf(e))
  {
    if parsed != [] {
      var n := |parsed| - 1;
      var front := ImportedAll(routes, parsed[..n], ids[..n], found[..n]);
      var all := ImportedAll(routes, parsed, ids, found);
      if m < |front| {
        ImportAdds(routes, parsed[..n], ids[..n], found[..n], m);
        assert all[..m] == front[..m];
      } else {
        ImportKeeps(routes, parsed[..n], ids[..n], found[..n]);
        assert all[..m] == front;
      }
    }
  }

  /** Generated identifiers: distinct and not in use. */
  predicate AllNew(ids: seq<nat>, routes: seq<CommonRoute>) {
    && (forall i, j :: 0 <= i < j < |ids| ==> ids[i] != ids[j])
    && (forall i, j :: 0 <= i < |ids| && 0 <= j < |routes| ==> routes[j].id != ids[i])
  }

  /** Every valid line before position i is held. */
  ghost predicate HeldUpTo(parsed: seq<Imported>, ids: seq<nat>, i: nat, existing: set<DedupKey>)
    requires |ids| == |parsed|
  {
    forall j :: 0 <= j < i && j < |parsed| && ValidRoute(EntryFor(parsed[j], ids[j])) ==>
        ImportedKey(parsed[j]) in existing
  }

  lemma ImportedNext(parsed: seq<Imported>, ids: seq<nat>, i: nat, before: set<DedupKey>, after: set<DedupKey>)
    requires |ids| == |parsed| && i < |parsed| && HeldUpTo(parsed, ids, i, before) && before <= after
    requires ValidRoute(EntryFor(parsed[i], ids[i])) ==> ImportedKey(parsed[i]) in after
    ensures HeldUpTo(parsed, ids, i + 1, after)
  {}

  /** A stored domain route has a name and neither address nor mask. */
  lemma DomainsAreNamed(r: CommonRoute)
    requires ValidRoute(r) && r.kind.DomainKind?
    ensures r.domain != "" && r.address == NotAnAddress("") && r.mask == NotAnAddress("")
  {
    if r.domain == "" { SplitNone("", '.'); }
  }

  /** What the answers make of each route. */
  lemma RefreshedByAnswers(routes: seq<CommonRoute>, found: seq<Option<seq<AddrText>>>)
    requires |found| == |routes| && Distinct(routes) && forall i :: 0 <= i < |routes| ==> ValidRoute(routes[i])
    ensures forall i :: 0 <= i < |routes| ==>
              var r := routes[i];
              && (r.id in Resolutions(routes, found) <==> r.kind.DomainKind?)
              && RefreshedAll(routes, Resolutions(routes, found))[i] ==
                   if r.kind.DomainKind? && found[i].Some? then r.(resolvedIPs := FilterIPv4(found[i].value)) else r
  {
    forall i | 0 <= i < |routes|
      ensures var r := routes[i];
              && (r.id in Resolutions(routes, found) <==> r.kind.DomainKind?)
              && Refreshed(r, Resolutions(routes, found)) ==
                   if r.kind.DomainKind? && found[i].Some? then r.(resolvedIPs := FilterIPv4(found[i].value)) else r
    {
      ResolutionsAt(routes, found, i);
      if routes[i].kind.DomainKind? { DomainsAreNamed(routes[i]); }
    }
  }

  // ---- the store ----

  /** The addresses come from one new lookup of the domain: none when it failed, the IPv4 ones otherwise. */
  ghost predicate LookedUp(before: seq<Lookup>, after: seq<Lookup>, domain: string, ips: seq<AddrText>) {
    && |after| == |before| + 1 && after[..|before|] == before && after[|before|].domain == domain
    && ips == match after[|before|].ips case Some(raw) => FilterIPv4(raw) case None => []
  }

  predicate Resolves(r: CommonRoute) { r.kind.DomainKind? && r.domain != "" }

  /** The lookups for a list of routes, in order, with their results. */
  function LookupsFor(routes: seq<CommonRoute>, found: seq<Option<seq<AddrText>>>): seq<Lookup>
    requires |found| == |routes|
  {
    if routes == [] then []
    else
      var n := |routes| - 1;
      LookupsFor(routes[..n], found[..n]) + if Resolves(routes[n]) then [Lookup(routes[n].domain, found[n])] else []
  }

  function ResolutionOf(domain: string, found: Option<seq<AddrText>>): Resolution {
    Resolution(domain, match found case Some(raw) => Some(FilterIPv4(raw)) case None => None)
  }

  /** What a refresh carries from its lookups to its commit. */
  function Resolutions(routes: seq<CommonRoute>, found: seq<Option<seq<AddrText>>>): map<nat, Resolution>
    requires |found| == |routes|
  {
    if routes == [] then map[]
    else
      var n := |routes| - 1;
      var before := Resolutions(routes[..n], found[..n]);
      if Resolves(routes[n]) then before[routes[n].id := ResolutionOf(routes[n].domain, found[n])] else before
  }

  /** What a refresh resolved for one route of its snapshot, identifiers being distinct. */
  lemma {:induction false} ResolutionsAt(routes: seq<CommonRoute>, found: seq<Option<seq<AddrText>>>, i: nat)
    requires |found| == |routes| && i < |routes| && Distinct(routes)
    ensures var all, r := Resolutions(routes, found), routes[i];
            && (r.id in all <==> r.kind.DomainKind? && r.domain != "")
            && (r.id in all ==> all[r.id].domain == r.domain && (all[r.id].ips.Some? <==> found[i].Some?))
            && (r.id in all && found[i].Some? ==> all[r.id].ips.value == FilterIPv4(found[i].value))
    decreases |routes|
  {
    var n := |routes| - 1;
    if i < n {
      ResolutionsAt(routes[..n], found[..n], i);
    } else {
      ResolvedAreListed(routes[..n], found[..n], routes[n].id);
    }
  }

  lemma {:induction false} ResolvedAreListed(routes: seq<CommonRoute>, found: seq<Option<seq<AddrText>>>, id: nat)
    requires |found| == |routes| && forall i :: 0 <= i < |routes| ==> routes[i].id != id
    ensures id !in Resolutions(routes, found)
  {
    if routes != [] { ResolvedAreListed(routes[..|routes| - 1], found[..|routes| - 1], id); }
  }

  lemma {:induction false} NothingToResolve(routes: seq<CommonRoute>, found: seq<Option<seq<AddrText>>>)
    requires |found| == |routes|
    ensures Resolutions(routes, found) == map[] <==> forall i :: 0 <= i < |routes| ==> !Resolves(routes[i])
  {
    if routes != [] {
      var n := |routes| - 1;
      NothingToResolve(routes[..n], found[..n]);
      assert Resolves(routes[n]) ==> routes[n].id in Resolutions(routes, found);
    }
  }

  /** The addresses of no route became another set. */
  ghost predicate SameAddresses(before: seq<CommonRoute>, after: seq<CommonRoute>) {
    && SameRoutes(before, after)
    && forall i :: 0 <= i < |before| ==> multiset(after[i].resolvedIPs) == multiset(before[i].resolvedIPs)
  }

  /** Some route expands to the entry. */
  ghost predicate FromSome(routes: seq<CommonRoute>, e: ExpandedRoute) {
    exists i :: 0 <= i < |routes| && e in ExpandOne(routes[i])
  }

  lemma FromSomeLast(routes: seq<CommonRoute>, e: ExpandedRoute)
    requires routes != []
    ensures FromSome(routes, e) <==>
            FromSome(routes[..|routes| - 1], e) || e in ExpandOne(routes[|routes| - 1])
  {
    var front := routes[..|routes| - 1];
    if i :| 0 <= i < |routes| && e in ExpandOne(routes[i]) { assert i < |front| ==> front[i] == routes[i]; }
    if i :| 0 <= i < |front| && e in ExpandOne(front[i]) { assert front[i] == routes[i]; }
  }

  lemma {:induction false} ExpandAllMember(routes: seq<CommonRoute>, e: ExpandedRoute)
    ensures e in ExpandAll(routes) <==> FromSome(routes, e)
  {
    if routes != [] {
      ExpandAllMember(routes[..|routes| - 1], e);
      FromSomeLast(routes, e);
    }
  }

  lemma SameExpansion(a: CommonRoute, b: CommonRoute, e: ExpandedRoute)
    requires b == a.(resolvedIPs := b.resolvedIPs) && multiset(b.resolvedIPs) == multiset(a.resolvedIPs)
    requires e in ExpandOne(a)
    ensures e in ExpandOne(b)
  {
    if a.kind.DomainKind? {
      assert e.address in multiset(a.resolvedIPs);
      var j :| 0 <= j < |b.resolvedIPs| && b.resolvedIPs[j] == e.address;
      assert ExpandOne(b)[j] == e;
    }
  }

  /** A refresh that reports no change leaves what every user may reach as it was, so neither the client files nor the
      firewall need to hear of it. */
  lemma SameAddressesSamePolicy(before: seq<CommonRoute>, after: seq<CommonRoute>, custom: seq<CcdRoute>)
    requires SameAddresses(before, after)
    ensures AllowedCidrs(custom, after) == AllowedCidrs(custom, before)
  {
    forall e: ExpandedRoute ensures e in ExpandAll(after) <==> e in ExpandAll(before) {
      ExpandAllMember(after, e);
      ExpandAllMember(before, e);
      if i :| 0 <= i < |before| && e in ExpandOne(before[i]) { SameExpansion(before[i], after[i], e); }
      if i :| 0 <= i < |after| && e in ExpandOne(after[i]) { SameExpansion(after[i], before[i], e); }
    }
    forall c: Cidr ensures c in CommonCidrs(ExpandAll(after)) <==> c in CommonCidrs(ExpandAll(before)) {
      CommonCidrsMember(ExpandAll(after), c);
      CommonCidrsMember(ExpandAll(before), c);
    }
  }

  /** The refresh under the lock: a new answer replaces the addresses when it is another set. */
  function Reresolved(r: CommonRoute, found: Option<seq<AddrText>>): CommonRoute {
    if Resolves(r) && found.Some? && multiset(r.resolvedIPs) != multiset(found.value)
    then r.(resolvedIPs := found.value) else r
  }

  function ReresolvedAll(routes: seq<CommonRoute>, found: seq<Option<seq<AddrText>>>): seq<CommonRoute>
    requires |found| == |routes|
  {
    seq(|routes|, i requires 0 <= i < |routes| => Reresolved(routes[i], found[i]))
  }

  lemma ReresolvedLast(routes: seq<CommonRoute>, found: seq<Option<seq<AddrText>>>, i: nat)
    requires i < |routes| && |found| == i
    ensures |ReresolvedAll(routes[..i], found) + routes[i..]| == |routes|
    ensures (ReresolvedAll(routes[..i], found) + routes[i..])[i] == routes[i]
  {}

  lemma LookupsNext(routes: seq<CommonRoute>, found: seq<Option<seq<AddrText>>>, next: Option<seq<AddrText>>, i: nat)
    requires i < |routes| && |found| == i
    ensures LookupsFor(routes[..i + 1], found + [next]) ==
            LookupsFor(routes[..i], found) + if Resolves(routes[i]) then [Lookup(routes[i].domain, next)] else []
  {
    var part, longer := routes[..i + 1], found + [next];
    assert part[..i] == routes[..i] && longer[..i] == found;
    LookupsSplit(part, longer, i);
  }

  lemma LookupsSplit(routes: seq<CommonRoute>, found: seq<Option<seq<AddrText>>>, n: nat)
    requires |found| == |routes| == n + 1
    ensures LookupsFor(routes, found) ==
            LookupsFor(routes[..n], found[..n]) +
                if Resolves(routes[n]) then [Lookup(routes[n].domain, found[n])] else []
  {}

  lemma ReresolvedNext(routes: seq<CommonRoute>, found: seq<Option<seq<AddrText>>>, next: Option<seq<AddrText>>, i: nat)
    requires i < |routes| && |found| == i
    ensures (ReresolvedAll(routes[..i], found) + routes[i..])[i := Reresolved(routes[i], next)] ==
            ReresolvedAll(routes[..i + 1], found + [next]) + routes[i + 1..]
  {}

  /** The first i routes are resolved again: `found` holds the answers, `working` the list and `after` the lookups. */
  ghost predicate ReresolvedUpTo(routes: seq<CommonRoute>, i: nat, found: seq<Option<seq<AddrText>>>,
                                 working: seq<CommonRoute>, before: seq<Lookup>, after: seq<Lookup>)
    requires i <= |routes|
  {
    && |found| == i && after == before + LookupsFor(routes[..i], found)
    && working == ReresolvedAll(routes[..i], found) + routes[i..]
  }

  lemma ReresolvedUpToNext(routes: seq<CommonRoute>, i: nat, found: seq<Option<seq<AddrText>>>,
                           working: seq<CommonRoute>, before: seq<Lookup>, after: seq<Lookup>)
    requires i < |routes| && ReresolvedUpTo(routes, i, found, working, before, after)
    ensures |working| == |routes| && working[i] == routes[i]
    ensures forall next ::
              ReresolvedUpTo(routes, i + 1, found + [next], working[i := Reresolved(routes[i], next)], before,
                             after + if Resolves(routes[i]) then [Lookup(routes[i].domain, next)] else [])
  {
    ReresolvedLast(routes, found, i);
    forall next
      ensures ReresolvedUpTo(routes, i + 1, found + [next], working[i := Reresolved(routes[i], next)], before,
                             after + if Resolves(routes[i]) then [Lookup(routes[i].domain, next)] else [])
    {
      LookupsNext(routes, found, next, i);
      ReresolvedNext(routes, found, next, i);
    }
  }

  /** The persist that a change attempted, with its outcome; a refused change attempts none. */
  function Tried<T>(r: Result<T, Error>): seq<bool> {
    match r
    case Ok(_) => [true]
    case Err(e) => if e == PersistFailed then [false] else []
  }

  class Store {
    var cfg: seq<CommonRoute>
    var disk: seq<CommonRoute>
    ghost var answers: set<Answer>
    /** The outcome of every persist so far. */
    ghost var writes: seq<bool>
    /** Every lookup so far. */
    ghost var lookups: seq<Lookup>

    /** Memory is what was persisted last, and the promises hold. */
    ghost predicate Valid()
      reads this
    {
      disk == cfg && Sound(cfg, answers)
    }

    constructor ()
      ensures Valid() && cfg == []
    {
      cfg, disk, answers, writes, lookups := [], [], {}, [], [];
    }

    // ---- the environment ----

    /** The write replaces the file by renaming, so a failed one leaves the old file. */
    method Persist(routes: seq<CommonRoute>) returns (ok: bool)
      modifies this`disk, this`writes
      ensures disk == (if ok then routes else old(disk)) && writes == old(writes) + [ok]
    {
      ok := *;
      writes := writes + [ok];
      if ok { disk := routes; }
    }

    method Resolve(domain: string) returns (ips: Option<seq<AddrText>>)
      modifies this`answers, this`lookups
      ensures answers == if ips.Some? then old(answers) + {Answer(domain, ips.value)} else old(answers)
      ensures lookups == old(lookups) + [Lookup(domain, ips)]
    {
      ips := *;
      lookups := lookups + [Lookup(domain, ips)];
      if ips.Some? { answers := answers + {Answer(domain, ips.value)}; }
    }

    // ---- the commit path ----

    /** Publishes a working copy once it is persisted. */
    method Commit(working: seq<CommonRoute>) returns (ok: bool)
      requires disk == cfg && Sound(working, answers) && Sound(cfg, answers)
      modifies this`cfg, this`disk, this`writes
      ensures Valid() && cfg == (if ok then working else old(cfg)) && writes == old(writes) + [ok]
    {
      ok := Persist(working);
      if ok { cfg := working; }
    }

    method RemoveAt(routes: seq<CommonRoute>, idx: nat) returns (out: seq<CommonRoute>)
      requires idx < |routes|
      ensures out == Without(routes, idx)
    {
      out := [];
      for i := 0 to |routes|
        invariant out == if i <= idx then routes[..i] else routes[..idx] + routes[idx + 1..i]
      {
        if i == idx { continue; }
        out := out + [routes[i]];
      }
    }

    method IsDuplicate(routes: seq<CommonRoute>, e: CommonRoute) returns (dup: bool)
      ensures dup == DuplicateIn(routes, e)
    {
      for i := 0 to |routes|
        invariant forall j :: 0 <= j < i ==> routes[j].id == e.id || !SameTarget(e, routes[j])
      {
        if routes[i].id != e.id && SameTarget(e, routes[i]) { return true; }
      }
      return false;
    }

    /** The addresses stored for a domain: none after a failed lookup. */
    method ResolveForStore(domain: string) returns (ips: seq<AddrText>)
      modifies this`answers, this`lookups
      ensures old(answers) <= answers && LookedUp(old(lookups), lookups, domain, ips)
      ensures ips == [] || exists raw :: Answer(domain, raw) in answers && ips == FilterIPv4(raw)
    {
      var raw := Resolve(domain);
      if raw.None? { return []; }
      assert Answer(domain, raw.value) in answers;
      ips := KeepIPv4(raw.value);
    }

    /** `id` is a fresh identifier. */
    method Create(input: CommonRoute, id: nat) returns (r: Result<CommonRoute, Error>)
      requires Valid() && forall i :: 0 <= i < |cfg| ==> cfg[i].id != id
      modifies this
      ensures old(answers) <= answers
      ensures Valid()
      ensures match r
              case Ok(x) => cfg == old(cfg) + [x] && x == input.(id := id, resolvedIPs := x.resolvedIPs)
              case Err(e) => cfg == old(cfg)
                             && (e == Invalid <==> !ValidRoute(input.(id := id, resolvedIPs := [])))
                             && (e == Duplicate ==> DuplicateIn(cfg, input.(id := id, resolvedIPs := [])))
      ensures writes == old(writes) + Tried(r)
      ensures r.Ok? ==>
          if r.value.kind.DomainKind? then LookedUp(old(lookups), lookups, r.value.domain, r.value.resolvedIPs)
                        else r.value.resolvedIPs == []
    {
      var entry := input.(id := id, resolvedIPs := []);
      if !ValidRoute(entry) { return Err(Invalid); }
      var dup := IsDuplicate(cfg, entry);
      if dup { return Err(Duplicate); }
      ghost var before := answers;
      if entry.kind.DomainKind? {
        var ips := ResolveForStore(entry.domain);
        entry := entry.(resolvedIPs := ips);
      }
      SoundLater(cfg, before, answers);
      assert !DuplicateIn(cfg, entry);
      AppendSound(cfg, entry, answers);
      var ok := Commit(cfg + [entry]);
      return if ok then Ok(entry) else Err(PersistFailed);
    }

    method Find(id: nat) returns (idx: nat)
      ensures idx <= |cfg| && (idx < |cfg| ==> cfg[idx].id == id)
      ensures forall j :: 0 <= j < idx ==> cfg[j].id != id
    {
      idx := 0;
      while idx < |cfg|
        invariant idx <= |cfg| && forall j :: 0 <= j < idx ==> cfg[j].id != id
      {
        if cfg[idx].id == id { return; }
        idx := idx + 1;
      }
    }

    /** The server's own addresses stay while the domain does; another domain is looked up. */
    method CarryOrResolve(entry: CommonRoute, current: CommonRoute) returns (out: CommonRoute)
      requires entry.resolvedIPs == [] && Answered(current, answers)
      modifies this`answers, this`lookups
      ensures old(answers) <= answers && Answered(out, answers) && out == entry.(resolvedIPs := out.resolvedIPs)
      ensures if !entry.kind.DomainKind? then out == entry
              else if current.kind.DomainKind? && current.domain == entry.domain
              then out.resolvedIPs == current.resolvedIPs
              else LookedUp(old(lookups), lookups, entry.domain, out.resolvedIPs)
    {
      out := entry;
      if entry.kind.DomainKind? && current.kind.DomainKind? && current.domain == entry.domain {
        out := entry.(resolvedIPs := current.resolvedIPs);
      } else if entry.kind.DomainKind? {
        var ips := ResolveForStore(entry.domain);
        out := entry.(resolvedIPs := ips);
      }
    }

    /** An edit keeps its place and its resolved addresses while the domain stays the same. */
    method Update(input: CommonRoute, id: nat) returns (r: Result<CommonRoute, Error>, ghost idx: nat)
      requires Valid()
      modifies this
      ensures old(answers) <= answers
      ensures Valid()
      ensures match r
              case Ok(x) =>
                && idx < |old(cfg)| && old(cfg)[idx].id == id && cfg == old(cfg)[idx := x]
                && x == input.(id := id, resolvedIPs := x.resolvedIPs)
                && (if !x.kind.DomainKind? then x.resolvedIPs == []
                    else if old(cfg)[idx].kind.DomainKind? && old(cfg)[idx].domain == x.domain
                    then x.resolvedIPs == old(cfg)[idx].resolvedIPs
                    else LookedUp(old(lookups), lookups, x.domain, x.resolvedIPs))
              case Err(e) => cfg == old(cfg) && (e == NotFound ==> forall i :: 0 <= i < |cfg| ==> cfg[i].id != id)
                             && (e == Invalid ==> !ValidRoute(input.(id := id, resolvedIPs := [])))
                             && (e == Duplicate ==> DuplicateIn(cfg, input.(id := id)))
      ensures writes == old(writes) + Tried(r)
    {
      idx := 0;
      var entry := input.(id := id, resolvedIPs := []);
      if !ValidRoute(entry) { return Err(Invalid), idx; }
      var at := Find(id);
      idx := at;
      if at == |cfg| { return Err(NotFound), idx; }
      ghost var before := answers;
      entry := CarryOrResolve(entry, cfg[at]);
      SoundLater(cfg, before, answers);
      var others := RemoveAt(cfg, at);
      var dup := IsDuplicate(others, entry);
      if dup { return Err(Duplicate), idx; }
      ReplaceSound(cfg, at, entry, answers);
      var ok := Commit(cfg[at := entry]);
      return if ok then Ok(entry) else Err(PersistFailed), idx;
    }

    method Delete(id: nat) returns (r: Result<nat, Error>)
      requires Valid()
      modifies this
      ensures old(answers) <= answers
      ensures Valid()
      ensures match r
              case Ok(at) => at < |old(cfg)| && old(cfg)[at].id == id && cfg == Without(old(cfg), at)
              case Err(e) => cfg == old(cfg) && (e == NotFound ==> forall i :: 0 <= i < |cfg| ==> cfg[i].id != id)
                             && (e == NotFound || e == PersistFailed)
      ensures writes == old(writes) + Tried(r)
    {
      var at := Find(id);
      if at == |cfg| { return Err(NotFound); }
      WithoutSound(cfg, at, answers);
      var ok := Commit(Without(cfg, at));
      return if ok then Ok(at) else Err(PersistFailed);
    }

    // ---- refresh: names outside the lock, commit inside ----

    /** Resolves the domains of a snapshot; nothing is locked meanwhile. */
    method ResolveSnapshot(snapshot: seq<CommonRoute>)
      returns (resolved: map<nat, Resolution>, ghost found: seq<Option<seq<AddrText>>>)
      modifies this`answers, this`lookups
      ensures old(answers) <= answers && RecordedIn(resolved, answers)
      ensures |found| == |snapshot| && lookups == old(lookups) + LookupsFor(snapshot, found)
      ensures resolved == Resolutions(snapshot, found)
    {
      resolved, found := map[], [];
      for i := 0 to |snapshot|
        invariant old(answers) <= answers && RecordedIn(resolved, answers)
        invariant |found| == i && lookups == old(lookups) + LookupsFor(snapshot[..i], found)
        invariant resolved == Resolutions(snapshot[..i], found)
      {
        var r := snapshot[i];
        assert snapshot[..i + 1][..i] == snapshot[..i];
        if !r.kind.DomainKind? || r.domain == "" {
          found := found + [None];
          assert found[..i] + [None] == found;
          continue;
        }
        ghost var before, known := answers, resolved;
        var raw := Resolve(r.domain);
        var ips := None;
        if raw.Some? {
          var kept := KeepIPv4(raw.value);
          ips := Some(kept);
        }
        assert raw.Some? ==> Answer(r.domain, raw.value) in answers;
        RecordedMore(known, before, answers, r.id, Resolution(r.domain, ips));
        resolved := resolved[r.id := Resolution(r.domain, ips)];
        found := found + [raw];
        assert found[..i] + [raw] == found;
      }
      assert snapshot[..|snapshot|] == snapshot;
    }

    /** A domain route that still has the domain that was resolved holds just the addresses that were found; every
        other route is as it was. Without a change the addresses of each route are the same set. */
    method CommitRefresh(resolved: map<nat, Resolution>) returns (ok: bool, changed: bool)
      requires Valid() && RecordedIn(resolved, answers)
      modifies this`cfg, this`disk, this`writes
      ensures Valid() && SameRoutes(old(cfg), cfg) && cfg == if ok then RefreshedAll(old(cfg), resolved) else old(cfg)
      ensures ok ==> forall i :: 0 <= i < |cfg| ==>
                var r := old(cfg)[i];
                cfg[i] == if r.kind.DomainKind? && r.id in resolved && resolved[r.id].domain == r.domain &&
                            resolved[r.id].ips.Some?
                          then r.(resolvedIPs := resolved[r.id].ips.value) else r
      ensures ok ==> (changed <==> !SameAddresses(old(cfg), cfg))
      ensures writes == old(writes) + [ok]
    {
      RefreshKeepsSound(cfg, resolved, answers);
      var working;
      working, changed := ApplyResolved(cfg, resolved);
      ok := Commit(working);
    }

    /** A scheduled refresh while nobody edits: each domain route whose lookup answered holds the IPv4 addresses of its
        answer, and nothing else differs. Nothing is written when there is no domain. When it reports no change every
        user may reach what was reachable before. */
    method RefreshOnce() returns (ok: bool, changed: bool, ghost found: seq<Option<seq<AddrText>>>)
      requires Valid()
      modifies this
      ensures Valid() && old(answers) <= answers && |found| == |old(cfg)| == |cfg|
      ensures lookups == old(lookups) + LookupsFor(old(cfg), found)
      ensures forall i :: 0 <= i < |cfg| ==>
                var r := old(cfg)[i];
                cfg[i] == if ok && r.kind.DomainKind? && found[i].Some?
                          then r.(resolvedIPs := FilterIPv4(found[i].value)) else r
      ensures ok && !changed ==>
                forall custom :: AllowedCidrs(custom, cfg) == AllowedCidrs(custom, old(cfg))
      ensures writes == if exists i :: 0 <= i < |old(cfg)| && old(cfg)[i].kind.DomainKind? then old(writes) + [ok]
                        else old(writes)
    {
      var resolved;
      ghost var before := cfg;
      ghost var known := answers;
      resolved, found := ResolveSnapshot(cfg);
      SoundLater(cfg, known, answers);
      RefreshedByAnswers(cfg, found);
      NothingToResolve(cfg, found);
      forall i | 0 <= i < |cfg| && cfg[i].kind.DomainKind? ensures Resolves(cfg[i]) { DomainsAreNamed(cfg[i]); }
      if resolved == map[] { return true, false, found; }
      ok, changed := CommitRefresh(resolved);
      if ok && !changed {
        forall custom ensures AllowedCidrs(custom, cfg) == AllowedCidrs(custom, before) {
          SameAddressesSamePolicy(before, cfg, custom);
        }
      }
    }

    /** Resolves one route under the lock. */
    method Reresolve(working: seq<CommonRoute>, i: nat)
      returns (out: seq<CommonRoute>, ghost found: Option<seq<AddrText>>)
      requires Sound(working, answers) && Sound(cfg, answers) && i < |working|
      modifies this`answers, this`lookups
      ensures old(answers) <= answers && Sound(out, answers) && Sound(cfg, answers)
      ensures out == working[i := Reresolved(working[i], found)]
      ensures lookups == old(lookups) + if Resolves(working[i]) then [Lookup(working[i].domain, found)] else []
    {
      out, found := working, None;
      var r := working[i];
      assert ValidRoute(r);
      if !r.kind.DomainKind? { return; }
      if r.domain == "" { SplitNone("", '.'); assert false; }
      ghost var known := answers;
      var raw := Resolve(r.domain);
      found := raw;
      SoundLater(cfg, known, answers);
      SoundLater(working, known, answers);
      if raw.None? { return; }
      if multiset(r.resolvedIPs) != multiset(raw.value) {
        AnswerSound(working, i, raw.value, answers);
        out := working[i := r.(resolvedIPs := raw.value)];
      }
    }

    method ReresolveAll() returns (working: seq<CommonRoute>, ghost found: seq<Option<seq<AddrText>>>)
      requires Sound(cfg, answers)
      modifies this`answers, this`lookups
      ensures old(answers) <= answers && Sound(cfg, answers) && Sound(working, answers)
      ensures |found| == |cfg| && lookups == old(lookups) + LookupsFor(cfg, found)
      ensures working == ReresolvedAll(cfg, found)
    {
      working, found := cfg, [];
      for i := 0 to |cfg|
        invariant old(answers) <= answers && Sound(cfg, answers) && Sound(working, answers)
        invariant ReresolvedUpTo(cfg, i, found, working, old(lookups), lookups)
      {
        ghost var answer;
        ghost var asked := lookups;
        ReresolvedUpToNext(cfg, i, found, working, old(lookups), asked);
        working, answer := Reresolve(working, i);
        found := found + [answer];
      }
      assert cfg[..|cfg|] == cfg && cfg[|cfg|..] == [];
    }

    /** The refresh that an operator asks for resolves under the lock and keeps addresses that are the same set. */
    method RefreshAll() returns (ok: bool, ghost found: seq<Option<seq<AddrText>>>)
      requires Valid()
      modifies this
      ensures old(answers) <= answers && writes == old(writes) + [ok]
      ensures |found| == |old(cfg)| && lookups == old(lookups) + LookupsFor(old(cfg), found)
      ensures Valid() && SameRoutes(old(cfg), cfg) && cfg == if ok then ReresolvedAll(old(cfg), found) else old(cfg)
      ensures forall i :: 0 <= i < |cfg| ==>
                var r := old(cfg)[i];
                cfg[i] == if ok && r.kind.DomainKind? && found[i].Some? &&
                            multiset(r.resolvedIPs) != multiset(found[i].value)
                          then r.(resolvedIPs := found[i].value) else r
    {
      var working;
      forall i | 0 <= i < |cfg| && cfg[i].kind.DomainKind? ensures Resolves(cfg[i]) { DomainsAreNamed(cfg[i]); }
      working, found := ReresolveAll();
      ok := Commit(working);
    }

    // ---- import ----

    method ImportOne(working: seq<CommonRoute>, existing: set<DedupKey>, p: Imported, id: nat)
      returns (working': seq<CommonRoute>, existing': set<DedupKey>, ghost found: Option<seq<AddrText>>)
      requires Sound(working, answers) && KeysAre(existing, working)
      requires forall i :: 0 <= i < |working| ==> working[i].id != id
      modifies this`answers, this`lookups
      ensures old(answers) <= answers && Sound(working', answers) && KeysAre(existing', working') &&
          existing <= existing'
      ensures working' == working ||
          (|working'| == |working| + 1 && working <= working' && working'[|working|].id == id)
      ensures ValidRoute(EntryFor(p, id)) ==> ImportedKey(p) in existing'
      ensures working' == ImportStep(working, p, id, found)
      ensures lookups == old(lookups) + StepLookups(working, p, id, found)
    {
      working', existing', found := working, existing, None;
      if ImportedKey(p) in existing { return; }
      var entry := EntryFor(p, id);
      if !ValidRoute(entry) { return; }
      ghost var before := answers;
      if entry.kind.DomainKind? {
        var raw := Resolve(entry.domain);
        found := raw;
        if raw.Some? {
          assert Answer(entry.domain, raw.value) in answers;
          entry := entry.(resolvedIPs := raw.value);
        }
      }
      SoundLater(working, before, answers);
      DuplicateIsHeld(working, entry);
      AppendSound(working, entry, answers);
      KeysAppend(existing, working, entry);
      working', existing' := working + [entry], existing + {KeyOf(entry)};
    }

    method ImportAll(parsed: seq<Imported>, ids: seq<nat>)
      returns (working: seq<CommonRoute>, ghost found: seq<Option<seq<AddrText>>>)
      requires Sound(cfg, answers) && |ids| == |parsed|
      requires AllNew(ids, cfg)
      modifies this`answers, this`lookups
      ensures old(answers) <= answers && Sound(working, answers) && cfg <= working
      ensures forall i :: 0 <= i < |parsed| && ValidRoute(EntryFor(parsed[i], ids[i])) ==>
          Holds(working, ImportedKey(parsed[i]))
      ensures |found| == |parsed| && working == ImportedAll(cfg, parsed, ids, found)
      ensures lookups == old(lookups) + ImportLookups(cfg, parsed, ids, found)
    {
      working, found := cfg, [];
      var existing := CollectKeys(cfg);
      for i := 0 to |parsed|
        invariant old(answers) <= answers && Sound(working, answers) && KeysAre(existing, working) && cfg <= working
        invariant UnusedFrom(working, ids, i) && HeldUpTo(parsed, ids, i, existing)
        invariant ImportedUpTo(cfg, parsed, ids, i, found, working, old(lookups), lookups)
      {
        ghost var before, known, asked := working, existing, lookups;
        ghost var next;
        working, existing, next := ImportOne(working, existing, parsed[i], ids[i]);
        ImportedUpToNext(cfg, parsed, ids, i, found, before, old(lookups), asked, next);
        found := found + [next];
        UnusedNext(before, working, ids, i);
        ImportedNext(parsed, ids, i, known, existing);
      }
      assert parsed[..|parsed|] == parsed && ids[..|parsed|] == ids;
    }

    /** Appends what is new and valid; the identifiers are fresh. On success every valid line of the import is held. */
    method Import(parsed: seq<Imported>, ids: seq<nat>) returns (ok: bool, ghost found: seq<Option<seq<AddrText>>>)
      requires Valid() && |ids| == |parsed|
      requires AllNew(ids, cfg)
      modifies this
      ensures old(answers) <= answers
      ensures |found| == |parsed| && lookups == old(lookups) + ImportLookups(old(cfg), parsed, ids, found)
      ensures cfg == if ok then ImportedAll(old(cfg), parsed, ids, found) else old(cfg)
      ensures Valid() && old(cfg) <= cfg && (!ok ==> cfg == old(cfg)) && writes == old(writes) + [ok]
      ensures ok ==> forall i :: 0 <= i < |parsed| && ValidRoute(EntryFor(parsed[i], ids[i])) ==>
          Holds(cfg, ImportedKey(parsed[i]))
    {
      ghost var before := answers;
      var working;
      working, found := ImportAll(parsed, ids);
      SoundLater(cfg, before, answers);
      ok := Commit(working);
    }

    /** Any interleaving of edits with a refresh in flight: the names of `pending` may have been resolved arbitrarily
        long ago, and every promise still holds after every step. */
    method Interleave(steps: nat)
      requires Valid()
      modifies this
      ensures Valid()
    {
      var pending: map<nat, Resolution> := map[];
      for k := 0 to steps
        invariant Valid() && RecordedIn(pending, answers)
      {
        ghost var before := answers;
        var choice: nat := *;
        if choice == 0 {
          ghost var found;
          pending, found := ResolveSnapshot(cfg);
          continue;
        } else if choice == 1 {
          var ok, changed := CommitRefresh(pending);
        } else if choice == 2 {
          var ok, found := RefreshAll();
        } else {
          Edit(choice);
        }
        RecordedLater(pending, before, answers);
      }
    }

    method Edit(choice: nat)
      requires Valid()
      modifies this
      ensures Valid() && old(answers) <= answers
    {
      var input: CommonRoute := *;
      var id: nat := *;
      if choice == 3 {
        if forall i :: 0 <= i < |cfg| ==> cfg[i].id != id { var r := Create(input, id); }
      } else if choice == 4 {
        var r, idx := Update(input, id);
      } else if choice == 5 {
        var r := Delete(id);
      } else {
        var parsed: seq<Imported> := *;
        var ids: seq<nat> := *;
        if |ids| == |parsed| && AllNew(ids, cfg) { var ok, found := Import(parsed, ids); }
      }
    }
  }
}
