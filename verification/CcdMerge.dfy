/** How the routes and exclusions of a client-config file are merged: one line per destination, its comment listing
    every source that asked for it. */
module CcdMerge {
  import opened Text
  import opened Ipv4
  import opened RoutePolicy

  const EMPTY_TEXT: AddrText := NotAnAddress("")
  const USER_DOMAIN := "__user_domain__:"
  const COMMON := "__common__:"
  const EXCLUSION_GLOBAL := "__exclusion_global__"
  const EXCLUSION_USER := "__exclusion_user__"

  datatype Key = Key(address: AddrText, mask: AddrText)

  /** A pushed line, or one request for it: a destination and its source comment. */
  datatype Push = Push(key: Key, source: string)

  datatype Subnet = Subnet(key: Key, description: string)

  predicate Blank(k: Key) { k.address == EMPTY_TEXT || k.mask == EMPTY_TEXT }

  function WithDesc(prefix: string, desc: string): string {
    var d := Trim(desc);
    if d == "" then prefix else prefix + " " + d
  }

  // ---- the requests, in order ----

  function HostRequests(ips: seq<AddrText>, source: string): seq<Push> {
    seq(|ips|, i requires 0 <= i < |ips| => Push(Key(ips[i], HOST_MASK), source))
  }

  function CustomRequests(r: CcdRoute): seq<Push> {
    if r.kind.DomainKind? then HostRequests(r.resolvedIPs, WithDesc(USER_DOMAIN + r.domain, r.description))
    else [Push(Key(r.address, r.mask), r.description)]
  }

  function CommonRequest(r: ExpandedRoute): Push {
    Push(Key(r.address, r.mask), WithDesc(COMMON + r.tag, r.description))
  }

  function AllCustom(custom: seq<CcdRoute>): seq<Push> {
    if custom == [] then [] else AllCustom(custom[..|custom| - 1]) + CustomRequests(custom[|custom| - 1])
  }

  function AllCommon(common: seq<ExpandedRoute>): seq<Push> {
    seq(|common|, i requires 0 <= i < |common| => CommonRequest(common[i]))
  }

  // ---- the merge ----

  function KeyAt(out: seq<Push>, k: Key): (n: nat)
    ensures n <= |out| && (n < |out| ==> out[n].key == k)
    ensures forall j :: 0 <= j < n ==> out[j].key != k
  {
    if out == [] || out[0].key == k then 0 else 1 + KeyAt(out[1..], k)
  }

  /** A new destination is appended; a known one gets the source added to its comment unless the comment contains it. */
  function AddPush(out: seq<Push>, p: Push): seq<Push> {
    if Blank(p.key) then out
    else
      var i := KeyAt(out, p.key);
      if i == |out| then out + [p]
      else if Occurs(out[i].source, p.source) then out
      else out[i := Push(p.key, out[i].source + [','] + p.source)]
  }

  function MergeAll(requests: seq<Push>): seq<Push> {
    if requests == [] then [] else AddPush(MergeAll(requests[..|requests| - 1]), requests[|requests| - 1])
  }

  ghost predicate Indexed(out: seq<Push>, seen: map<Key, nat>) {
    && (forall i :: 0 <= i < |out| ==> out[i].key in seen && seen[out[i].key] == i)
    && (forall k :: k in seen ==> seen[k] < |out| && out[seen[k]].key == k)
  }

  lemma IndexedKeyAt(out: seq<Push>, seen: map<Key, nat>, k: Key)
    requires Indexed(out, seen)
    ensures KeyAt(out, k) == if k in seen then seen[k] else |out|
  {}

  method Add(out: seq<Push>, seen: map<Key, nat>, p: Push) returns (out': seq<Push>, seen': map<Key, nat>)
    requires Indexed(out, seen)
    ensures out' == AddPush(out, p) && Indexed(out', seen')
  {
    IndexedKeyAt(out, seen, p.key);
    out', seen' := out, seen;
    if Blank(p.key) { return; }
    if p.key in seen {
      var i := seen[p.key];
      if !Occurs(out[i].source, p.source) {
        out' := out[i := Push(p.key, out[i].source + [','] + p.source)];
      }
      return;
    }
    seen' := seen[p.key := |out|];
    out' := out + [p];
  }

  lemma MergeStep(requests: seq<Push>, p: Push)
    ensures MergeAll(requests + [p]) == AddPush(MergeAll(requests), p)
  {
    assert (requests + [p])[..|requests|] == requests;
  }

  lemma MergeMore(requests: seq<Push>, more: seq<Push>, p: Push)
    ensures MergeAll(requests + (more + [p])) == AddPush(MergeAll(requests + more), p)
  {
    MergeStep(requests + more, p);
    assert requests + (more + [p]) == requests + more + [p];
  }

  method AddHosts(out: seq<Push>, seen: map<Key, nat>, ips: seq<AddrText>, source: string, ghost done: seq<Push>)
    returns (out': seq<Push>, seen': map<Key, nat>)
    requires Indexed(out, seen) && out == MergeAll(done)
    ensures Indexed(out', seen') && out' == MergeAll(done + HostRequests(ips, source))
  {
    out', seen' := out, seen;
    assert done + HostRequests(ips[..0], source) == done;
    for j := 0 to |ips|
      invariant Indexed(out', seen') && out' == MergeAll(done + HostRequests(ips[..j], source))
    {
      var p := Push(Key(ips[j], HOST_MASK), source);
      MergeMore(done, HostRequests(ips[..j], source), p);
      assert HostRequests(ips[..j + 1], source) == HostRequests(ips[..j], source) + [p];
      out', seen' := Add(out', seen', p);
    }
    assert ips[..|ips|] == ips;
  }

  method AddCustom(custom: seq<CcdRoute>) returns (out: seq<Push>, seen: map<Key, nat>)
    ensures Indexed(out, seen) && out == MergeAll(AllCustom(custom))
  {
    out, seen := [], map[];
    for i := 0 to |custom|
      invariant Indexed(out, seen) && out == MergeAll(AllCustom(custom[..i]))
    {
      var r := custom[i];
      assert custom[..i + 1][..i] == custom[..i];
      if r.kind.DomainKind? {
        out, seen := AddHosts(out, seen, r.resolvedIPs, WithDesc(USER_DOMAIN + r.domain, r.description),
            AllCustom(custom[..i]));
      } else {
        MergeStep(AllCustom(custom[..i]), Push(Key(r.address, r.mask), r.description));
        out, seen := Add(out, seen, Push(Key(r.address, r.mask), r.description));
      }
    }
    assert custom[..|custom|] == custom;
  }

  lemma AllCommonMore(common: seq<ExpandedRoute>, i: nat)
    requires i < |common|
    ensures AllCommon(common[..i + 1]) == AllCommon(common[..i]) + [CommonRequest(common[i])]
  {}

  method AddCommon(out: seq<Push>, seen: map<Key, nat>, common: seq<ExpandedRoute>, ghost done: seq<Push>)
    returns (out': seq<Push>, seen': map<Key, nat>)
    requires Indexed(out, seen) && out == MergeAll(done)
    ensures Indexed(out', seen') && out' == MergeAll(done + AllCommon(common))
  {
    out', seen' := out, seen;
    assert done + AllCommon(common[..0]) == done;
    for j := 0 to |common|
      invariant Indexed(out', seen') && out' == MergeAll(done + AllCommon(common[..j]))
    {
      var p := CommonRequest(common[j]);
      MergeMore(done, AllCommon(common[..j]), p);
      AllCommonMore(common, j);
      out', seen' := Add(out', seen', p);
    }
    assert common[..|common|] == common;
  }

  method MergePushRoutes(custom: seq<CcdRoute>, common: seq<ExpandedRoute>) returns (out: seq<Push>)
    ensures out == MergeAll(AllCustom(custom) + AllCommon(common))
  {
    var seen;
    out, seen := AddCustom(custom);
    out, seen := AddCommon(out, seen, common, AllCustom(custom));
  }

  // ---- what the merge is for ----

  /** The destinations in the order of their first request. */
  function FirstKeys(requests: seq<Push>): seq<Key> {
    if requests == [] then []
    else
      var before, p := FirstKeys(requests[..|requests| - 1]), requests[|requests| - 1];
      if Blank(p.key) || p.key in before then before else before + [p.key]
  }

  /** The source of the first request for a destination. */
  function FirstSource(requests: seq<Push>, k: Key): (r: seq<string>)
    ensures |r| <= 1
  {
    if requests == [] then []
    else
      var before, p := FirstSource(requests[..|requests| - 1], k), requests[|requests| - 1];
      if before == [] && p.key == k && !Blank(k) then [p.source] else before
  }

  function KeysOf(out: seq<Push>): seq<Key> {
    seq(|out|, i requires 0 <= i < |out| => out[i].key)
  }

  /** A comment that is a source, alone or with others after it. */
  predicate BeginsWith(comment: string, source: string) {
    comment == source || HasPrefix(comment, source + [','])
  }

  ghost predicate Unique(keys: seq<Key>) {
    forall i, j :: 0 <= i < j < |keys| ==> keys[i] != keys[j]
  }

  /** One line per destination, in the order in which the destinations were first asked for. */
  lemma {:induction false} MergeKeys(requests: seq<Push>)
    ensures KeysOf(MergeAll(requests)) == FirstKeys(requests) && Unique(FirstKeys(requests))
  {
    if requests != [] {
      var before, p := requests[..|requests| - 1], requests[|requests| - 1];
      MergeKeys(before);
      var out := MergeAll(before);
      var i := KeyAt(out, p.key);
      if i < |out| { assert KeysOf(out)[i] == p.key; }
      if p.key in FirstKeys(before) {
        var j :| 0 <= j < |out| && KeysOf(out)[j] == p.key;
        assert out[j].key == p.key;
      }
    }
  }

  /** Exactly the requested destinations are pushed, and a comment begins with the source of the first request. */
  lemma {:induction false} MergeFirst(requests: seq<Push>, k: Key)
    ensures var out := MergeAll(requests); var i := KeyAt(out, k);
            && (i < |out| <==> FirstSource(requests, k) != [])
            && (i < |out| ==> BeginsWith(out[i].source, FirstSource(requests, k)[0]))
  {
    if requests != [] {
      var before, p := requests[..|requests| - 1], requests[|requests| - 1];
      MergeFirst(before, k);
      AddPushAt(MergeAll(before), p, k);
    }
  }

  lemma {:induction false} KeyAtAppend(out: seq<Push>, p: Push, k: Key)
    ensures KeyAt(out + [p], k) ==
        if KeyAt(out, k) < |out| then KeyAt(out, k) else if p.key == k then |out| else |out| + 1
  {
    if out != [] && out[0].key != k {
      assert (out + [p])[1..] == out[1..] + [p];
      KeyAtAppend(out[1..], p, k);
    }
  }

  lemma {:induction false} KeyAtUpdate(out: seq<Push>, i: nat, p: Push, k: Key)
    requires i < |out| && out[i].key == p.key
    ensures KeyAt(out[i := p], k) == KeyAt(out, k)
  {
    if out[0].key != k && i > 0 {
      assert out[i := p][1..] == out[1..][i - 1 := p];
      KeyAtUpdate(out[1..], i - 1, p, k);
    }
  }

  lemma AddPushAt(out: seq<Push>, p: Push, k: Key)
    ensures var after := AddPush(out, p);
            var i, j := KeyAt(out, k), KeyAt(after, k);
            && (i < |out| ==> j == i && |after| >= |out| && BeginsMore(after[i].source, out[i].source))
            && (i == |out| ==> if p.key == k && !Blank(k) then j < |after| && after[j] == p else j == |after|)
  {
    if !Blank(p.key) {
      var n := KeyAt(out, p.key);
      if n == |out| {
        KeyAtAppend(out, p, k);
      } else if !Occurs(out[n].source, p.source) {
        KeyAtUpdate(out, n, Push(p.key, out[n].source + [','] + p.source), k);
      }
    }
  }

  predicate BeginsMore(after: string, before: string) {
    after == before || HasPrefix(after, before + [','])
  }

  lemma {:induction false} OccursSelf(s: string, t: string)
    ensures Occurs(s + t, t)
  {
    if s == "" {
      assert s + t == t;
    } else {
      assert (s + t)[1..] == s[1..] + t;
      OccursSelf(s[1..], t);
    }
  }

  lemma {:induction false} OccursExtend(s: string, more: string, t: string)
    requires Occurs(s, t)
    ensures Occurs(s + more, t)
  {
    if !HasPrefix(s, t) {
      assert (s + more)[1..] == s[1..] + more;
      OccursExtend(s[1..], more, t);
    }
  }

  /** Every source that asked for a destination is named in its comment. */
  lemma {:induction false} MergeNamesEverySource(requests: seq<Push>, p: Push)
    requires p in requests && !Blank(p.key)
    ensures var out := MergeAll(requests); var i := KeyAt(out, p.key); i < |out| && Occurs(out[i].source, p.source)
  {
    var before, q := requests[..|requests| - 1], requests[|requests| - 1];
    var out := MergeAll(before);
    AddPushAt(out, q, p.key);
    if p in before {
      MergeNamesEverySource(before, p);
      var i := KeyAt(out, p.key);
      var after := AddPush(out, q)[i].source;
      assert after == out[i].source + after[|out[i].source|..];
      OccursExtend(out[i].source, after[|out[i].source|..], p.source);
    } else {
      var i := KeyAt(out, p.key);
      if i == |out| {
        OccursSelf("", p.source);
        assert "" + p.source == p.source;
      } else if !Occurs(out[i].source, p.source) {
        OccursSelf(out[i].source + [','], p.source);
      }
    }
  }

  lemma {:induction false} FirstSourceConcat(xs: seq<Push>, ys: seq<Push>, k: Key)
    ensures FirstSource(xs + ys, k) == if FirstSource(xs, k) != [] then FirstSource(xs, k) else FirstSource(ys, k)
  {
    if ys == [] {
      assert xs + ys == xs;
    } else {
      assert (xs + ys)[..|xs + ys| - 1] == xs + ys[..|ys| - 1];
      FirstSourceConcat(xs, ys[..|ys| - 1], k);
    }
  }

  lemma {:induction false} FirstSourceIsRequested(requests: seq<Push>, k: Key)
    ensures FirstSource(requests, k) != [] ==> Push(k, FirstSource(requests, k)[0]) in requests && !Blank(k)
    ensures FirstSource(requests, k) == [] ==> Blank(k) || forall p :: p in requests ==> p.key != k
  {
    if requests != [] {
      FirstSourceIsRequested(requests[..|requests| - 1], k);
      assert requests == requests[..|requests| - 1] + [requests[|requests| - 1]];
    }
  }

  // ---- exclusions ----

  /** A known destination gets a marker once only. */
  function AddExclusion(out: seq<Push>, s: Subnet, marker: string): seq<Push> {
    if Blank(s.key) then out
    else
      var i := KeyAt(out, s.key);
      if i == |out| then out + [Push(s.key, WithDesc(marker, s.description))]
      else if Occurs(out[i].source, marker) then out
      else out[i := Push(s.key, out[i].source + [','] + WithDesc(marker, s.description))]
  }

  function AddExclusions(out: seq<Push>, subnets: seq<Subnet>, marker: string): seq<Push> {
    if subnets == [] then out
    else AddExclusion(AddExclusions(out, subnets[..|subnets| - 1], marker), subnets[|subnets| - 1], marker)
  }

  function Exclusions(global: seq<Subnet>, user: seq<Subnet>): seq<Push> {
    AddExclusions(AddExclusions([], global, EXCLUSION_GLOBAL), user, EXCLUSION_USER)
  }

  method AddOne(out: seq<Push>, seen: map<Key, nat>, s: Subnet, marker: string)
    returns (out': seq<Push>, seen': map<Key, nat>)
    requires Indexed(out, seen)
    ensures out' == AddExclusion(out, s, marker) && Indexed(out', seen')
  {
    IndexedKeyAt(out, seen, s.key);
    out', seen' := out, seen;
    if Blank(s.key) { return; }
    var source := WithDesc(marker, s.description);
    if s.key in seen {
      var i := seen[s.key];
      if !Occurs(out[i].source, marker) {
        out' := out[i := Push(s.key, out[i].source + [','] + source)];
      }
      return;
    }
    seen' := seen[s.key := |out|];
    out' := out + [Push(s.key, source)];
  }

  method MergeExclusions(global: seq<Subnet>, user: seq<Subnet>) returns (out: seq<Push>)
    ensures out == Exclusions(global, user)
  {
    var seen: map<Key, nat>;
    out, seen := [], map[];
    for i := 0 to |global|
      invariant Indexed(out, seen) && out == AddExclusions([], global[..i], EXCLUSION_GLOBAL)
    {
      assert global[..i + 1][..i] == global[..i];
      out, seen := AddOne(out, seen, global[i], EXCLUSION_GLOBAL);
    }
    assert global[..|global|] == global;
    ghost var base := out;
    for i := 0 to |user|
      invariant Indexed(out, seen) && out == AddExclusions(base, user[..i], EXCLUSION_USER)
    {
      assert user[..i + 1][..i] == user[..i];
      out, seen := AddOne(out, seen, user[i], EXCLUSION_USER);
    }
    assert user[..|user|] == user;
  }

  ghost predicate Listed(subnets: seq<Subnet>, k: Key) {
    exists i :: 0 <= i < |subnets| && subnets[i].key == k
  }

  lemma ListedLast(subnets: seq<Subnet>, k: Key)
    requires subnets != []
    ensures Listed(subnets, k) <==> Listed(subnets[..|subnets| - 1], k) || subnets[|subnets| - 1].key == k
  {
    var init := subnets[..|subnets| - 1];
    if i :| 0 <= i < |subnets| && subnets[i].key == k { assert i < |init| ==> init[i].key == k; }
    if i :| 0 <= i < |init| && init[i].key == k { assert subnets[i].key == k; }
  }

  lemma AddExclusionAt(out: seq<Push>, s: Subnet, marker: string, k: Key)
    ensures var after := AddExclusion(out, s, marker);
            var i, j := KeyAt(out, k), KeyAt(after, k);
            && (i < |out| ==> j == i && |after| >= |out| && BeginsMore(after[i].source, out[i].source))
            && (i == |out| ==>
                 if s.key == k && !Blank(k) then j < |after| && after[j] == Push(k, WithDesc(marker, s.description))
                               else j == |after|)
  {
    if !Blank(s.key) {
      var n := KeyAt(out, s.key);
      if n == |out| {
        KeyAtAppend(out, Push(s.key, WithDesc(marker, s.description)), k);
      } else if !Occurs(out[n].source, marker) {
        KeyAtUpdate(out, n, Push(s.key, out[n].source + [','] + WithDesc(marker, s.description)), k);
      }
    }
  }

  /** Which marker a merged exclusion starts with: the earlier list wins. */
  lemma {:induction false} AddExclusionsAt(out: seq<Push>, subnets: seq<Subnet>, marker: string, k: Key)
    requires !Blank(k)
    ensures var after := AddExclusions(out, subnets, marker);
            var i, j := KeyAt(out, k), KeyAt(after, k);
            && (i < |out| ==> j == i && |after| >= |out| && HasPrefix(after[i].source, out[i].source))
            && (i == |out| ==>
                 (j < |after| <==> Listed(subnets, k)) && (j < |after| ==> HasPrefix(after[j].source, marker)))
  {
    if subnets != [] {
      var n := |subnets| - 1;
      AddExclusionsAt(out, subnets[..n], marker, k);
      AddExclusionAt(AddExclusions(out, subnets[..n], marker), subnets[n], marker, k);
      ListedLast(subnets, k);
    }
  }

  lemma AddExclusionUnique(out: seq<Push>, s: Subnet, marker: string)
    requires Unique(KeysOf(out))
    ensures Unique(KeysOf(AddExclusion(out, s, marker)))
  {
    var after := AddExclusion(out, s, marker);
    forall i, j | 0 <= i < j < |after| ensures after[i].key != after[j].key {
      assert j < |out| ==> KeysOf(out)[i] != KeysOf(out)[j];
    }
  }

  lemma {:induction false} AddExclusionsUnique(out: seq<Push>, subnets: seq<Subnet>, marker: string)
    requires Unique(KeysOf(out))
    ensures Unique(KeysOf(AddExclusions(out, subnets, marker)))
  {
    if subnets != [] {
      var n := |subnets| - 1;
      AddExclusionsUnique(out, subnets[..n], marker);
      AddExclusionUnique(AddExclusions(out, subnets[..n], marker), subnets[n], marker);
    }
  }

  /** A destination is rendered as a user exclusion exactly when the user lists it and the global list does not. */
  lemma ExclusionMarker(global: seq<Subnet>, user: seq<Subnet>, k: Key)
    requires !Blank(k)
    ensures var out := Exclusions(global, user); var i := KeyAt(out, k);
            && (i < |out| <==> Listed(global, k) || Listed(user, k))
            && (i < |out| ==> HasPrefix(out[i].source, if Listed(global, k) then EXCLUSION_GLOBAL else EXCLUSION_USER))
    ensures Unique(KeysOf(Exclusions(global, user)))
  {
    AddExclusionsAt([], global, EXCLUSION_GLOBAL, k);
    AddExclusionsAt(AddExclusions([], global, EXCLUSION_GLOBAL), user, EXCLUSION_USER, k);
    AddExclusionsUnique([], global, EXCLUSION_GLOBAL);
    AddExclusionsUnique(AddExclusions([], global, EXCLUSION_GLOBAL), user, EXCLUSION_USER);
  }
}
