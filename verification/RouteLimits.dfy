/** Which domain names and exclusions are accepted. */
module RouteLimits {
  import opened Wrappers
  import opened Text
  import opened Ipv4
  import opened CcdMerge
  import opened CcdFile
  import opened CcdRoundTrip

  /** A name as its labels. */
  lemma {:induction false} JoinedSplits(labels: seq<string>, sep: char)
    requires labels != [] && forall i :: 0 <= i < |labels| ==> sep !in labels[i]
    ensures Split(JoinWith(labels, sep), sep) == labels
  {
    if |labels| == 1 {
      SplitNone(labels[0], sep);
    } else {
      JoinedSplits(labels[1..], sep);
      SplitFirst(labels[0], sep, JoinWith(labels[1..], sep));
    }
  }

  ghost predicate Lettered(part: string) {
    forall i :: 0 <= i < |part| ==> 'a' <= part[i] <= 'z' || 'A' <= part[i] <= 'Z' || '0' <= part[i] <= '9'
  }

  /** Labels of letters and digits make an accepted domain name exactly when there are at least two of them and each has
      1 to 63 characters. */
  lemma DomainExactly(labels: seq<string>)
    requires labels != [] && forall i :: 0 <= i < |labels| ==> Lettered(labels[i])
    ensures ValidDomain(JoinWith(labels, '.')) <==>
            |labels| >= 2 && forall i :: 0 <= i < |labels| ==> 1 <= |labels[i]| <= 63
  {
    forall i | 0 <= i < |labels| ensures '.' !in labels[i] && (DomainLabel(labels[i]) <==> 1 <= |labels[i]| <= 63) {
      assert Lettered(labels[i]);
    }
    JoinedSplits(labels, '.');
  }

  /** A dash may stand inside a part, not at its ends. */
  lemma DashExactly(before: string, after: string)
    requires Lettered(before) && Lettered(after) && |before| + |after| <= 62
    ensures DomainLabel(before + ['-'] + after) <==> before != "" && after != ""
  {
    var part := before + ['-'] + after;
    assert part[|before|] == '-';
    if before == "" { assert part[0] == '-'; }
    if after == "" { assert part[|part| - 1] == '-'; }
  }

  /** The mask has n leading ones and the address is a multiple of the block that they leave. */
  ghost predicate HasLength(k: Key, n: nat)
    requires n <= 32
  {
    k.mask.To4() == Some(SPACE - Pow2(32 - n)) && k.address.To4().Some? && k.address.To4().value % Pow2(32 - n) == 0
  }

  /** An exclusion is accepted for every prefix length from 1 to 32 with a matching base address. The empty mask is
      refused: it would cancel the full tunnel. */
  lemma ExclusionExactly(k: Key)
    ensures SubnetOk(Subnet(k, "")) <==> exists n :: 1 <= n <= 32 && HasLength(k, n)
  {
    assert DescriptionOk("");
    if n :| 1 <= n <= 32 && HasLength(k, n) { ValidateExact(k.address, k.mask, n); }
    if SubnetOk(Subnet(k, "")) {
      var n := ValidateNetworkMask(k.address, k.mask).value;
      ValidateExact(k.address, k.mask, n);
      assert HasLength(k, n);
    }
  }

  /** No accepted exclusion covers every address. */
  lemma ExclusionLeavesSome(s: Subnet) returns (x: Addr)
    requires SubnetOk(s)
    ensures !RouteCovers(s.key.address, s.key.mask, x)
  {
    var a, m := s.key.address.To4().value, s.key.mask.To4().value;
    var n := ValidateNetworkMask(s.key.address, s.key.mask).value;
    ValidateExact(s.key.address, s.key.mask, n);
    var p := Pow2(32 - n);
    HalfAtMost(n);
    x := if a == 0 then SPACE - p else 0;
    AndPrefixMask(a, n);
    AndPrefixMask(x, n);
  }

  lemma HalfAtMost(n: nat)
    requires 1 <= n <= 32
    ensures 2 * Pow2(32 - n) <= SPACE
  {
    Pow2At32();
    Pow2Monotone(32 - n, 31);
    assert Pow2(32) == 2 * Pow2(31);
  }
}
