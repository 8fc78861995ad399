/** What a client file pushes against what the firewall allows: the two sides compute their destinations separately, and
    must agree. */
module CcdPolicy {
  import opened Wrappers
  import opened Ipv4
  import opened RoutePolicy
  import opened CcdMerge
  import opened CcdFile
  import opened CcdRoundTrip
  import opened CcdHistory

  /** Some line pushes the route. */
  ghost predicate Pushed(file: seq<Line>, k: Key) {
    exists i :: 0 <= i < |file| && file[i].RoutePush? && file[i].push.key == k
  }

  /** The destination of an expanded common route. */
  ghost predicate CommonDest(common: seq<ExpandedRoute>, k: Key) {
    exists i :: 0 <= i < |common| && common[i].address == k.address && common[i].mask == k.mask
  }

  lemma CommonRequested(common: seq<ExpandedRoute>, k: Key)
    ensures Requested(AllCommon(common), k) <==> CommonDest(common, k)
  {
    if i :| 0 <= i < |common| && common[i].address == k.address && common[i].mask == k.mask {
      assert AllCommon(common)[i].key == k;
    }
    if i :| 0 <= i < |AllCommon(common)| && AllCommon(common)[i].key == k {
      assert common[i].address == k.address && common[i].mask == k.mask;
    }
  }

  lemma MergedKey(requests: seq<Push>, k: Key)
    ensures (exists i :: 0 <= i < |MergeAll(requests)| && MergeAll(requests)[i].key == k) <==>
            !Blank(k) && Requested(requests, k)
  {
    MergeFirst(requests, k);
    FirstSourceIsRequested(requests, k);
    var n := KeyAt(MergeAll(requests), k);
    if FirstSource(requests, k) != [] {
      var i :| 0 <= i < |requests| && requests[i] == Push(k, FirstSource(requests, k)[0]);
      assert MergeAll(requests)[n].key == k;
    }
    if i :| 0 <= i < |requests| && requests[i].key == k { assert requests[i] in requests; }
  }

  /** The merge pushes exactly the user's own destinations and the common ones, unless a part is missing. */
  lemma MergedExactly(custom: seq<CcdRoute>, common: seq<ExpandedRoute>, k: Key)
    ensures (exists i :: 0 <= i < |Merged(custom, common)| && Merged(custom, common)[i].key == k) <==>
            k.address != NotAnAddress("") && k.mask != NotAnAddress("") && (HasDest(custom, k) || CommonDest(common, k))
  {
    var requests, out := AllCustom(custom) + AllCommon(common), Merged(custom, common);
    MergedKey(requests, k);
    assert out == MergeAll(requests);
    RequestedAppend(AllCustom(custom), AllCommon(common), k);
    CustomRequested(custom, k);
    CommonRequested(common, k);
    assert EMPTY_TEXT == NotAnAddress("");
    assert Blank(k) <==> k.address == NotAnAddress("") || k.mask == NotAnAddress("");
    assert (exists i :: 0 <= i < |out| && out[i].key == k) <==> !Blank(k) && Requested(requests, k);
  }

  lemma PushedInRender(ccd: Ccd, common: seq<ExpandedRoute>, g: Globals, k: Key)
    ensures var out := Merged(ccd.routes, common);
            Pushed(Render(ccd, common, g), k) <==> exists i :: 0 <= i < |out| && out[i].key == k
  {
    var head, out, tail := Head(ccd, g), Merged(ccd.routes, common), Tail(ccd);
    var lines, file := RouteLines(out), Render(ccd, common, g);
    RouteLinesAre(out);
    HeadAndTail(ccd, g);
    if i :| 0 <= i < |out| && out[i].key == k { assert file[|head| + i] == lines[i]; }
    if i :| 0 <= i < |file| && file[i].RoutePush? && file[i].push.key == k {
      assert |head| <= i < |head| + |lines| && file[i] == lines[i - |head|];
      assert out[i - |head|].key == k;
    }
  }

  /** A rendered file pushes exactly the user's own destinations and the common ones. */
  lemma PushedExactly(ccd: Ccd, common: seq<ExpandedRoute>, g: Globals, k: Key)
    ensures Pushed(Render(ccd, common, g), k) <==>
            k.address != NotAnAddress("") && k.mask != NotAnAddress("") &&
            (HasDest(ccd.routes, k) || CommonDest(common, k))
  {
    PushedInRender(ccd, common, g, k);
    MergedExactly(ccd.routes, common, k);
  }

  // ---- prefixes ----

  /** The prefixes of the pushed routes. */
  ghost predicate PushesPrefix(file: seq<Line>, c: Cidr) {
    exists k :: Pushed(file, k) && IpMaskToCidr(k.address, k.mask) == Ok(c)
  }

  lemma CommonCidrsByDest(common: seq<ExpandedRoute>, c: Cidr)
    ensures c in CommonCidrs(common) <==> exists k :: CommonDest(common, k) && IpMaskToCidr(k.address, k.mask) == Ok(c)
  {
    CommonCidrsMember(common, c);
    if r :| r in common && c in ExpandedCidrs(r) {
      var i :| 0 <= i < |common| && common[i] == r;
      assert CommonDest(common, Key(r.address, r.mask));
    }
    if k :| CommonDest(common, k) && IpMaskToCidr(k.address, k.mask) == Ok(c) {
      var i :| 0 <= i < |common| && common[i].address == k.address && common[i].mask == k.mask;
      assert c in ExpandedCidrs(common[i]);
    }
  }

  /** What a client file pushes is what the firewall allows, when the user's domains hold IPv4 answers. */
  lemma PushedIsAllowed(ccd: Ccd, stored: seq<CommonRoute>, g: Globals, c: Cidr)
    requires ResolvedIPv4(ccd.routes)
    ensures PushesPrefix(Render(ccd, ExpandAll(stored), g), c) <==> c in AllowedCidrs(ccd.routes, stored)
  {
    var common, file := ExpandAll(stored), Render(ccd, ExpandAll(stored), g);
    OwnCidrsByDest(ccd.routes, c);
    CommonCidrsByDest(common, c);
    if k :| Pushed(file, k) && IpMaskToCidr(k.address, k.mask) == Ok(c) { PushedExactly(ccd, common, g, k); }
    if k :| HasDest(ccd.routes, k) && IpMaskToCidr(k.address, k.mask) == Ok(c) { PushedExactly(ccd, common, g, k); }
    if k :| CommonDest(common, k) && IpMaskToCidr(k.address, k.mask) == Ok(c) { PushedExactly(ccd, common, g, k); }
  }

  /** The firewall reads the file: what a saved file pushes is what the firewall allows the client that is loaded from
      it, and by address, what some stored route covers. */
  lemma FileIsPolicy(ccd: Ccd, stored: seq<CommonRoute>, g: Globals, redirectNow: bool, x: Addr)
    requires Storable(ccd.routes)
    ensures var file := Render(ccd, ExpandAll(stored), g);
            var loaded := Parse(file, redirectNow).routes;
            && (forall c :: PushesPrefix(file, c) <==> c in AllowedCidrs(loaded, stored))
            && ((exists c :: PushesPrefix(file, c) && Contains(c, x)) <==>
                  || (exists r :: r in ccd.routes && CcdRouteCovers(r, x))
                  || (exists r :: r in stored && CommonRouteCovers(r, x)))
  {
    var file := Render(ccd, ExpandAll(stored), g);
    var loaded := Parse(file, redirectNow).routes;
    forall k: Key ensures HasDest(loaded, k) <==> HasDest(ccd.routes, k) {
      DestinationsSurvive(ccd, ExpandAll(stored), g, redirectNow, k);
    }
    SameDestSamePolicy(loaded, ccd.routes, stored);
    forall c: Cidr ensures PushesPrefix(file, c) <==> c in AllowedCidrs(ccd.routes, stored) {
      PushedIsAllowed(ccd, stored, g, c);
    }
    AllowedIsUnionOfRoutes(ccd.routes, stored, x);
  }

  /** With an IPv6 answer the two part: the firewall adds its host prefix, and no pushed route has that. */
  lemma Ipv6AnswerIsNotPushed(ccd: Ccd, stored: seq<CommonRoute>, g: Globals, r: CcdRoute, t: string)
    requires r in ccd.routes && r.kind.DomainKind? && V6(t) in r.resolvedIPs
    ensures Host6(t) in AllowedCidrs(ccd.routes, stored)
    ensures !PushesPrefix(Render(ccd, ExpandAll(stored), g), Host6(t))
  {
    OwnCidrsMember(ccd.routes, Host6(t));
    assert IpToHostCidr(V6(t)) == Ok(Host6(t));
    assert Host6(t) in CcdRouteCidrs(r);
  }
}
