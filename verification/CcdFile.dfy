/** Client-config files: rendering a configuration into structured lines, and parsing such lines. A file is the sequence
    of its lines; comments stay texts. */
module CcdFile {
  import opened Wrappers
  import opened Text
  import opened Ipv4
  import opened RoutePolicy
  import opened CcdMerge

  datatype Client = Dynamic | Static(address: AddrText)

  datatype Ccd = Ccd(client: Client, routes: seq<CcdRoute>, redirect: bool, exclusions: seq<Subnet>)

  /** What the server configuration contributes to a render. */
  datatype Globals = Globals(redirect: bool, exclusions: seq<Subnet>, netIP: Addr, mask: Addr)

  datatype Line =
    | IfconfigPush(client: Client, mask: Addr)
    | RedirectPush
    | ExclusionPush(push: Push)
    | RoutePush(push: Push)
    | StateLine(on: bool)
    | Declaration(domain: string, description: string)

  // ---- rendering ----

  function ExclusionLines(pushes: seq<Push>): seq<Line> {
    if pushes == [] then [] else [ExclusionPush(pushes[0])] + ExclusionLines(pushes[1..])
  }

  function RouteLines(pushes: seq<Push>): seq<Line> {
    if pushes == [] then [] else [RoutePush(pushes[0])] + RouteLines(pushes[1..])
  }

  function Declarations(routes: seq<CcdRoute>): seq<Line> {
    if routes == [] then []
    else
      (if routes[0].kind.DomainKind? then [Declaration(routes[0].domain, routes[0].description)] else []) +
      Declarations(routes[1..])
  }

  function Merged(custom: seq<CcdRoute>, common: seq<ExpandedRoute>): seq<Push> {
    MergeAll(AllCustom(custom) + AllCommon(common))
  }

  function Head(ccd: Ccd, g: Globals): seq<Line> {
    (if ccd.client.Static? then [IfconfigPush(ccd.client, g.mask)] else []) +
    (if ccd.redirect || g.redirect then [RedirectPush] + ExclusionLines(Exclusions(g.exclusions, ccd.exclusions))
        else [])
  }

  function Tail(ccd: Ccd): seq<Line> {
    [StateLine(ccd.redirect)] + Declarations(ccd.routes)
  }

  function Render(ccd: Ccd, common: seq<ExpandedRoute>, g: Globals): seq<Line> {
    Head(ccd, g) + (RouteLines(Merged(ccd.routes, common)) + Tail(ccd))
  }

  // ---- parsing ----

  datatype Provenance = FromCommon | FromDomains | Plain

  function ProvenanceOf(comment: string): Provenance {
    if HasPrefix(comment, COMMON) then FromCommon else if HasPrefix(comment, USER_DOMAIN) then FromDomains else Plain
  }

  predicate HasMarker(desc: string) {
    Occurs(desc, "__redirect_gateway__") || Occurs(desc, EXCLUSION_USER) || Occurs(desc, EXCLUSION_GLOBAL)
    || Occurs(desc, "__common__") || Occurs(desc, "__user_domain__")
  }

  function JoinWith(parts: seq<string>, sep: char): string {
    if parts == [] then "" else if |parts| == 1 then parts[0] else parts[0] + [sep] + JoinWith(parts[1..], sep)
  }

  function Personal(segs: seq<string>): seq<string> {
    if segs == [] then []
    else var s := Trim(segs[0]); (if s == "" || HasMarker(s) then [] else [s]) + Personal(segs[1..])
  }

  function PersonalDescription(comment: string): string {
    Trim(JoinWith(Personal(Split(comment, ',')), ','))
  }

  lemma {:induction false} PersonalLast(segs: seq<string>, seg: string)
    ensures Personal(segs + [seg]) == Personal(segs) + var s := Trim(seg); if s == "" || HasMarker(s) then [] else [s]
  {
    if segs == [] {
      assert [seg][1..] == [] && segs + [seg] == [seg];
    } else {
      assert (segs + [seg])[1..] == segs[1..] + [seg];
      PersonalLast(segs[1..], seg);
    }
  }

  method PersonalPart(comment: string) returns (desc: string)
    ensures desc == PersonalDescription(comment)
  {
    var keep, segs := [], Split(comment, ',');
    for i := 0 to |segs|
      invariant keep == Personal(segs[..i])
    {
      PersonalLast(segs[..i], segs[i]);
      assert segs[..i + 1] == segs[..i] + [segs[i]];
      var s := Trim(segs[i]);
      if s == "" || HasMarker(s) { continue; }
      keep := keep + [s];
    }
    assert segs[..|segs|] == segs;
    desc := Trim(JoinWith(keep, ','));
  }

  /** One per-user domain while its lines are being collapsed. */
  datatype DomainEntry = DomainEntry(domain: string, description: string, ips: seq<AddrText>)

  datatype Named = Named(domain: string, description: string)

  function NamedBy(fields: seq<string>): Option<Named> {
    if fields == [] then None else Some(Named(fields[0], Trim(JoinWith(fields[1..], ' '))))
  }

  /** A comment segment names a domain only when it starts with the marker. */
  function SegmentName(seg: string): Option<Named> {
    var s := Trim(seg);
    if HasPrefix(s, USER_DOMAIN) then NamedBy(Fields(Trim(s[|USER_DOMAIN|..]))) else None
  }

  function SegmentNames(segs: seq<string>): seq<Named> {
    if segs == [] then []
    else (match SegmentName(segs[0]) case Some(n) => [n] case None => []) + SegmentNames(segs[1..])
  }

  function EntryAt(entries: seq<DomainEntry>, domain: string): (n: nat)
    ensures n <= |entries| && (n < |entries| ==> entries[n].domain == domain)
    ensures forall j :: 0 <= j < n ==> entries[j].domain != domain
  {
    if entries == [] || entries[0].domain == domain then 0 else 1 + EntryAt(entries[1..], domain)
  }

  /** The first mention of a domain fixes its description. */
  function Seed(entries: seq<DomainEntry>, n: Named): (r: seq<DomainEntry>)
    ensures EntryAt(entries, n.domain) < |r| && r[EntryAt(entries, n.domain)].domain == n.domain
  {
    if EntryAt(entries, n.domain) < |entries| then entries else entries + [DomainEntry(n.domain, n.description, [])]
  }

  function Register(entries: seq<DomainEntry>, n: Named, ip: AddrText): seq<DomainEntry> {
    var seeded, i := Seed(entries, n), EntryAt(entries, n.domain);
    seeded[i := seeded[i].(ips := seeded[i].ips + [ip])]
  }

  function RegisterAll(entries: seq<DomainEntry>, names: seq<Named>, ip: AddrText): seq<DomainEntry>
    decreases |names|
  {
    if names == [] then entries else RegisterAll(Register(entries, names[0], ip), names[1..], ip)
  }

  datatype Parsed = Parsed(
    client: Client, ipRoutes: seq<CcdRoute>, domains: seq<DomainEntry>, exclusions: seq<Subnet>,
    state: Option<bool>, sawPush: bool)

  const NOTHING := Parsed(Dynamic, [], [], [], None, false)

  function PlainRoute(p: Push, comment: string): CcdRoute {
    CcdRoute(IpKind, p.key.address, p.key.mask, "", PersonalDescription(comment), [])
  }

  function ParseRoute(st: Parsed, p: Push): Parsed {
    var comment := Trim(p.source);
    match ProvenanceOf(comment)
    case FromCommon => st
    case FromDomains => st.(domains := RegisterAll(st.domains, SegmentNames(Split(comment, ',')), p.key.address))
    case Plain => st.(ipRoutes := st.ipRoutes + [PlainRoute(p, comment)])
  }

  function ParseExclusion(p: Push): seq<Subnet> {
    var comment := Trim(p.source);
    if HasPrefix(comment, EXCLUSION_USER) then [Subnet(p.key, Trim(comment[|EXCLUSION_USER|..]))] else []
  }

  function DeclaredText(domain: string, description: string): string {
    if description == "" then domain else domain + ([' '] + description)
  }

  function DeclaredName(domain: string, description: string): Option<Named> {
    NamedBy(Fields(Trim(DeclaredText(domain, description))))
  }

  function ParseLine(st: Parsed, line: Line): Parsed {
    match line
    case IfconfigPush(client, _) => st.(client := client)
    case RedirectPush => st.(sawPush := true)
    case ExclusionPush(p) => st.(exclusions := st.exclusions + ParseExclusion(p))
    case RoutePush(p) => ParseRoute(st, p)
    case StateLine(on) => st.(state := Some(on))
    case Declaration(domain, description) =>
      match DeclaredName(domain, description)
      case Some(n) => st.(domains := Seed(st.domains, n))
      case None => st
  }

  function ParseFrom(st: Parsed, lines: seq<Line>): Parsed
    decreases |lines|
  {
    if lines == [] then st else ParseFrom(ParseLine(st, lines[0]), lines[1..])
  }

  function DomainRoutes(entries: seq<DomainEntry>): seq<CcdRoute> {
    seq(|entries|, i requires 0 <= i < |entries| =>
      CcdRoute(DomainKind, EMPTY_TEXT, EMPTY_TEXT, entries[i].domain, entries[i].description, entries[i].ips))
  }

  /** The state line decides; without one, a rendered redirect counts as the user's own only while the global force is
      off. */
  function RedirectOf(st: Parsed, globalRedirect: bool): bool {
    match st.state
    case Some(on) => on
    case None => st.sawPush && !globalRedirect
  }

  function Result(st: Parsed, globalRedirect: bool): Ccd {
    Ccd(st.client, st.ipRoutes + DomainRoutes(st.domains), RedirectOf(st, globalRedirect), st.exclusions)
  }

  function Parse(lines: seq<Line>, globalRedirect: bool): Ccd {
    Result(ParseFrom(NOTHING, lines), globalRedirect)
  }

  lemma {:induction false} ParseConcat(st: Parsed, xs: seq<Line>, ys: seq<Line>)
    ensures ParseFrom(st, xs + ys) == ParseFrom(ParseFrom(st, xs), ys)
    decreases |xs|
  {
    if xs == [] {
      assert xs + ys == ys;
    } else {
      assert (xs + ys)[1..] == xs[1..] + ys;
      ParseConcat(ParseLine(st, xs[0]), xs[1..], ys);
    }
  }

  lemma ParseSnoc(st: Parsed, xs: seq<Line>, line: Line)
    ensures ParseFrom(st, xs + [line]) == ParseLine(ParseFrom(st, xs), line)
  {
    ParseConcat(st, xs, [line]);
    assert [line][1..] == [];
  }

  lemma ParseNext(lines: seq<Line>, i: nat)
    requires i < |lines|
    ensures ParseFrom(NOTHING, lines[..i + 1]) == ParseLine(ParseFrom(NOTHING, lines[..i]), lines[i])
  {
    ParseSnoc(NOTHING, lines[..i], lines[i]);
    assert lines[..i + 1] == lines[..i] + [lines[i]];
  }

  // ---- the parser as it runs: a map of entries and the order in which they appeared ----

  ghost predicate Entries(entries: seq<DomainEntry>, byDomain: map<string, DomainEntry>, order: seq<string>) {
    && |entries| == |order|
    && (forall i :: 0 <= i < |order| ==>
         order[i] in byDomain && byDomain[order[i]] == entries[i] && entries[i].domain == order[i])
    && (forall i, j :: 0 <= i < j < |order| ==> order[i] != order[j])
    && (forall d :: d in byDomain ==> d in order)
  }

  lemma EntryKnown(entries: seq<DomainEntry>, byDomain: map<string, DomainEntry>, order: seq<string>, domain: string)
    requires Entries(entries, byDomain, order)
    ensures EntryAt(entries, domain) < |entries| <==> domain in byDomain
  {}

  method SeedDomain(byDomain: map<string, DomainEntry>, order: seq<string>, n: Named, ghost entries: seq<DomainEntry>)
    returns (byDomain': map<string, DomainEntry>, order': seq<string>)
    requires Entries(entries, byDomain, order)
    ensures Entries(Seed(entries, n), byDomain', order') && n.domain in byDomain'
  {
    EntryKnown(entries, byDomain, order, n.domain);
    byDomain', order' := byDomain, order;
    if n.domain !in byDomain {
      byDomain' := byDomain[n.domain := DomainEntry(n.domain, n.description, [])];
      order' := order + [n.domain];
    }
  }

  method RegisterDomain(byDomain: map<string, DomainEntry>, order: seq<string>, n: Named, ip: AddrText,
                        ghost entries: seq<DomainEntry>)
    returns (byDomain': map<string, DomainEntry>, order': seq<string>)
    requires Entries(entries, byDomain, order)
    ensures Entries(Register(entries, n, ip), byDomain', order')
  {
    byDomain', order' := SeedDomain(byDomain, order, n, entries);
    var entry := byDomain'[n.domain];
    byDomain' := byDomain'[n.domain := entry.(ips := entry.ips + [ip])];
  }

  method RegisterSegments(byDomain: map<string, DomainEntry>, order: seq<string>, segs: seq<string>, ip: AddrText,
                          ghost entries: seq<DomainEntry>)
    returns (byDomain': map<string, DomainEntry>, order': seq<string>)
    requires Entries(entries, byDomain, order)
    ensures Entries(RegisterAll(entries, SegmentNames(segs), ip), byDomain', order')
  {
    byDomain', order' := byDomain, order;
    ghost var now := entries;
    for i := 0 to |segs|
      invariant Entries(now, byDomain', order')
      invariant RegisterAll(now, SegmentNames(segs[i..]), ip) == RegisterAll(entries, SegmentNames(segs), ip)
    {
      assert segs[i..][1..] == segs[i + 1..];
      match SegmentName(segs[i])
      case Some(n) =>
        assert SegmentNames(segs[i..])[1..] == SegmentNames(segs[i + 1..]);
        byDomain', order' := RegisterDomain(byDomain', order', n, ip, now);
        now := Register(now, n, ip);
      case None =>
        assert SegmentNames(segs[i..]) == SegmentNames(segs[i + 1..]);
    }
  }

  method CollectDomains(byDomain: map<string, DomainEntry>, order: seq<string>, ghost entries: seq<DomainEntry>)
    returns (routes: seq<CcdRoute>)
    requires Entries(entries, byDomain, order)
    ensures routes == DomainRoutes(entries)
  {
    routes := [];
    for i := 0 to |order|
      invariant |routes| == i && forall j :: 0 <= j < i ==> routes[j] == DomainRoutes(entries)[j]
    {
      var e := byDomain[order[i]];
      routes := routes + [CcdRoute(DomainKind, EMPTY_TEXT, EMPTY_TEXT, e.domain, e.description, e.ips)];
    }
  }

  method ParseCcd(lines: seq<Line>, globalRedirect: bool) returns (ccd: Ccd)
    ensures ccd == Parse(lines, globalRedirect)
  {
    var client, ipRoutes, exclusions := Dynamic, [], [];
    var byDomain: map<string, DomainEntry>, order: seq<string> := map[], [];
    var sawRedirectState, userRedirect, sawRedirectPush := false, false, false;
    ghost var st := NOTHING;
    for i := 0 to |lines|
      invariant st == ParseFrom(NOTHING, lines[..i]) && Entries(st.domains, byDomain, order)
      invariant st ==
          Parsed(client, ipRoutes, st.domains, exclusions, if sawRedirectState then Some(userRedirect) else None,
                             sawRedirectPush)
    {
      ParseNext(lines, i);
      match lines[i] {
        case IfconfigPush(c, _) => client := c;
        case RedirectPush => sawRedirectPush := true;
        case ExclusionPush(p) => exclusions := exclusions + ParseExclusion(p);
        case RoutePush(p) =>
          var comment := Trim(p.source);
          match ProvenanceOf(comment) {
            case FromCommon =>
            case FromDomains =>
              byDomain, order := RegisterSegments(byDomain, order, Split(comment, ','), p.key.address, st.domains);
            case Plain =>
              var desc := PersonalPart(comment);
              ipRoutes := ipRoutes + [CcdRoute(IpKind, p.key.address, p.key.mask, "", desc, [])];
          }
        case StateLine(on) => sawRedirectState, userRedirect := true, on;
        case Declaration(domain, description) =>
          match DeclaredName(domain, description) {
            case Some(n) => byDomain, order := SeedDomain(byDomain, order, n, st.domains);
            case None =>
          }
      }
      st := ParseLine(st, lines[i]);
    }
    assert lines[..|lines|] == lines;
    var domainRoutes := CollectDomains(byDomain, order, st.domains);
    var redirect := if sawRedirectState then userRedirect else if sawRedirectPush then !globalRedirect else false;
    ccd := Ccd(client, ipRoutes + domainRoutes, redirect, exclusions);
  }
}
