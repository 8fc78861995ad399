/** The routes an operator stores and the destinations they allow: expandCommonRoutes and computeAllowedCIDRs. */
module RoutePolicy {
  import opened Wrappers
  import opened Ipv4

  datatype RouteKind = IpKind | DomainKind | NoKind | OtherKind(text: string)

  /** One per-user route of a client-config file. */
  datatype CcdRoute = CcdRoute(
    kind: RouteKind, address: AddrText, mask: AddrText, domain: string, description: string,
    resolvedIPs: seq<AddrText>)

  /** One entry of the common-routes store. */
  datatype CommonRoute = CommonRoute(
    id: nat, kind: RouteKind, address: AddrText, mask: AddrText, domain: string, description: string,
    resolvedIPs: seq<AddrText>)

  /** A common route after its domain is replaced by the addresses it resolved to. */
  datatype ExpandedRoute = ExpandedRoute(address: AddrText, mask: AddrText, tag: string, description: string)

  const HOST_MASK: AddrText := Dotted(SPACE - 1)

  function ExpandHosts(ips: seq<AddrText>, r: CommonRoute): seq<ExpandedRoute> {
    seq(|ips|, i requires 0 <= i < |ips| => ExpandedRoute(ips[i], HOST_MASK, r.domain, r.description))
  }

  function ExpandOne(r: CommonRoute): seq<ExpandedRoute> {
    match r.kind
    case IpKind => [ExpandedRoute(r.address, r.mask, "static", r.description)]
    case DomainKind => ExpandHosts(r.resolvedIPs, r)
    case _ => []
  }

  function ExpandAll(routes: seq<CommonRoute>): seq<ExpandedRoute> {
    if routes == [] then [] else ExpandAll(routes[..|routes| - 1]) + ExpandOne(routes[|routes| - 1])
  }

  method ExpandCommonRoutes(routes: seq<CommonRoute>) returns (out: seq<ExpandedRoute>)
    ensures out == ExpandAll(routes)
  {
    out := [];
    for i := 0 to |routes|
      invariant out == ExpandAll(routes[..i])
    {
      var r := routes[i];
      assert routes[..i + 1][..i] == routes[..i];
      match r.kind
      case IpKind =>
        out := out + [ExpandedRoute(r.address, r.mask, "static", r.description)];
      case DomainKind =>
        ghost var before := out;
        for j := 0 to |r.resolvedIPs|
          invariant out == before + ExpandHosts(r.resolvedIPs[..j], r)
        {
          out := out + [ExpandedRoute(r.resolvedIPs[j], HOST_MASK, r.domain, r.description)];
        }
        assert r.resolvedIPs[..|r.resolvedIPs|] == r.resolvedIPs;
      case _ =>
    }
    assert routes[..|routes|] == routes;
  }

  // ---- the destinations a user may reach ----

  /** A destination of a stored route, before any conversion. */
  ghost predicate CcdRouteCovers(r: CcdRoute, x: Addr) {
    if r.kind.DomainKind? then exists i :: 0 <= i < |r.resolvedIPs| && r.resolvedIPs[i].To4() == Some(x)
    else IpMaskToCidr(r.address, r.mask).Ok? && RouteCovers(r.address, r.mask, x)
  }

  ghost predicate CommonRouteCovers(r: CommonRoute, x: Addr) {
    match r.kind
    case IpKind => IpMaskToCidr(r.address, r.mask).Ok? && RouteCovers(r.address, r.mask, x)
    case DomainKind => exists i :: 0 <= i < |r.resolvedIPs| && r.resolvedIPs[i].To4() == Some(x)
    case _ => false
  }

  function HostCidrs(ips: seq<AddrText>): set<Cidr> {
    set ip | ip in ips && IpToHostCidr(ip).Ok? :: IpToHostCidr(ip).value
  }

  function CcdRouteCidrs(r: CcdRoute): set<Cidr> {
    if r.kind.DomainKind? then HostCidrs(r.resolvedIPs)
    else if IpMaskToCidr(r.address, r.mask).Ok? then {IpMaskToCidr(r.address, r.mask).value} else {}
  }

  function ExpandedCidrs(r: ExpandedRoute): set<Cidr> {
    if IpMaskToCidr(r.address, r.mask).Ok? then {IpMaskToCidr(r.address, r.mask).value} else {}
  }

  function OwnCidrs(custom: seq<CcdRoute>): set<Cidr> {
    if custom == [] then {} else OwnCidrs(custom[..|custom| - 1]) + CcdRouteCidrs(custom[|custom| - 1])
  }

  function CommonCidrs(expanded: seq<ExpandedRoute>): set<Cidr> {
    if expanded == [] then {}
    else CommonCidrs(expanded[..|expanded| - 1]) + ExpandedCidrs(expanded[|expanded| - 1])
  }

  /** Everything a user may reach: the user's own routes and the common routes. */
  function AllowedCidrs(custom: seq<CcdRoute>, common: seq<CommonRoute>): set<Cidr> {
    OwnCidrs(custom) + CommonCidrs(ExpandAll(common))
  }

  method ComputeAllowedCidrs(custom: seq<CcdRoute>, common: seq<CommonRoute>) returns (out: set<Cidr>)
    ensures out == AllowedCidrs(custom, common)
  {
    out := {};
    for i := 0 to |custom|
      invariant out == OwnCidrs(custom[..i])
    {
      var r := custom[i];
      assert custom[..i + 1][..i] == custom[..i];
      if r.kind.DomainKind? {
        ghost var before := out;
        for j := 0 to |r.resolvedIPs|
          invariant out == before + HostCidrs(r.resolvedIPs[..j])
        {
          var cidr := IpToHostCidr(r.resolvedIPs[j]);
          assert r.resolvedIPs[..j + 1] == r.resolvedIPs[..j] + [r.resolvedIPs[j]];
          if cidr.Ok? { out := out + {cidr.value}; }
        }
        assert r.resolvedIPs[..|r.resolvedIPs|] == r.resolvedIPs;
      } else {
        var cidr := IpMaskToCidr(r.address, r.mask);
        if cidr.Ok? { out := out + {cidr.value}; }
      }
    }
    assert custom[..|custom|] == custom;
    var expanded := ExpandCommonRoutes(common);
    for i := 0 to |expanded|
      invariant out == OwnCidrs(custom) + CommonCidrs(expanded[..i])
    {
      assert expanded[..i + 1][..i] == expanded[..i];
      var cidr := IpMaskToCidr(expanded[i].address, expanded[i].mask);
      if cidr.Ok? { out := out + {cidr.value}; }
    }
    assert expanded[..|expanded|] == expanded;
  }

  lemma {:induction false} OwnCidrsMember(custom: seq<CcdRoute>, c: Cidr)
    ensures c in OwnCidrs(custom) <==> exists r :: r in custom && c in CcdRouteCidrs(r)
  {
    if custom != [] {
      var n := |custom| - 1;
      OwnCidrsMember(custom[..n], c);
      assert custom == custom[..n] + [custom[n]];
    }
  }

  lemma {:induction false} CommonCidrsMember(expanded: seq<ExpandedRoute>, c: Cidr)
    ensures c in CommonCidrs(expanded) <==> exists r :: r in expanded && c in ExpandedCidrs(r)
  {
    if expanded != [] {
      var n := |expanded| - 1;
      CommonCidrsMember(expanded[..n], c);
      assert expanded == expanded[..n] + [expanded[n]];
    }
  }

  lemma HostCidrsDenote(ips: seq<AddrText>, x: Addr)
    ensures (exists c :: c in HostCidrs(ips) && Contains(c, x)) <==>
            exists i :: 0 <= i < |ips| && ips[i].To4() == Some(x)
  {
    AndPrefixMask(x, 32);
    if i :| 0 <= i < |ips| && ips[i].To4() == Some(x) {
      assert ips[i] in ips && IpToHostCidr(ips[i]).value in HostCidrs(ips);
      assert Contains(IpToHostCidr(ips[i]).value, x);
    }
  }

  lemma CcdRouteDenotes(r: CcdRoute, x: Addr)
    ensures (exists c :: c in CcdRouteCidrs(r) && Contains(c, x)) <==> CcdRouteCovers(r, x)
  {
    if r.kind.DomainKind? {
      HostCidrsDenote(r.resolvedIPs, x);
    } else if IpMaskToCidr(r.address, r.mask).Ok? {
      CidrDenotesRoute(r.address, r.mask, x);
      assert IpMaskToCidr(r.address, r.mask).value in CcdRouteCidrs(r);
    }
  }

  lemma ExpandedDenotes(r: ExpandedRoute, x: Addr)
    ensures (exists c :: c in ExpandedCidrs(r) && Contains(c, x)) <==>
            IpMaskToCidr(r.address, r.mask).Ok? && RouteCovers(r.address, r.mask, x)
  {
    if IpMaskToCidr(r.address, r.mask).Ok? {
      CidrDenotesRoute(r.address, r.mask, x);
      assert IpMaskToCidr(r.address, r.mask).value in ExpandedCidrs(r);
    }
  }

  ghost predicate ExpandedCovers(rs: seq<ExpandedRoute>, x: Addr) {
    exists r :: r in rs && IpMaskToCidr(r.address, r.mask).Ok? && RouteCovers(r.address, r.mask, x)
  }

  lemma {:induction false} ExpandAllDenotes(routes: seq<CommonRoute>, x: Addr)
    ensures ExpandedCovers(ExpandAll(routes), x) <==> exists r :: r in routes && CommonRouteCovers(r, x)
  {
    if routes != [] {
      var n := |routes| - 1;
      ExpandAllDenotes(routes[..n], x);
      ExpandOneDenotes(routes[n], x);
      assert routes == routes[..n] + [routes[n]];
    }
  }

  lemma ExpandOneDenotes(r: CommonRoute, x: Addr)
    ensures ExpandedCovers(ExpandOne(r), x) <==> CommonRouteCovers(r, x)
  {
    if r.kind.IpKind? {
      assert ExpandOne(r)[0] in ExpandOne(r);
    } else if r.kind.DomainKind? {
      forall i | 0 <= i < |r.resolvedIPs|
        ensures var e := ExpandOne(r)[i];
                (IpMaskToCidr(e.address, e.mask).Ok? && RouteCovers(e.address, e.mask, x)) <==>
                    r.resolvedIPs[i].To4() == Some(x)
      {
        HostMaskCovers(r.resolvedIPs[i], x);
      }
      if CommonRouteCovers(r, x) {
        var i :| 0 <= i < |r.resolvedIPs| && r.resolvedIPs[i].To4() == Some(x);
        assert ExpandOne(r)[i] in ExpandOne(r);
      }
    }
  }

  lemma HostMaskCovers(ip: AddrText, x: Addr)
    ensures (IpMaskToCidr(ip, HOST_MASK).Ok? && RouteCovers(ip, HOST_MASK, x)) <==> ip.To4() == Some(x)
  {
    MaskSizeExact(SPACE - 1, 32);
    AndPrefixMask(x, 32);
    if ip.To4().Some? { AndPrefixMask(ip.To4().value, 32); }
  }

  /** The computed set denotes exactly the union of its inputs: no stored destination is lost and none is added. */
  lemma AllowedIsUnionOfRoutes(custom: seq<CcdRoute>, common: seq<CommonRoute>, x: Addr)
    ensures (exists c :: c in AllowedCidrs(custom, common) && Contains(c, x)) <==>
              || (exists r :: r in custom && CcdRouteCovers(r, x))
              || (exists r :: r in common && CommonRouteCovers(r, x))
  {
    forall c: Cidr ensures c in OwnCidrs(custom) <==> exists r :: r in custom && c in CcdRouteCidrs(r) {
      OwnCidrsMember(custom, c);
    }
    forall c: Cidr
      ensures c in CommonCidrs(ExpandAll(common)) <==> exists r :: r in ExpandAll(common) && c in ExpandedCidrs(r)
    {
      CommonCidrsMember(ExpandAll(common), c);
    }
    forall r: CcdRoute ensures (exists c :: c in CcdRouteCidrs(r) && Contains(c, x)) <==> CcdRouteCovers(r, x) {
      CcdRouteDenotes(r, x);
    }
    forall r: ExpandedRoute
      ensures (exists c :: c in ExpandedCidrs(r) && Contains(c, x)) <==>
              IpMaskToCidr(r.address, r.mask).Ok? && RouteCovers(r.address, r.mask, x)
    {
      ExpandedDenotes(r, x);
    }
    ExpandAllDenotes(common, x);
  }
}
