/** IPv4 prefixes as the control plane computes them, with the prefix notation of section 3.1 of RFC 4632. */
module Ipv4 {
  import opened Wrappers

  const SPACE: int := 0x1_0000_0000

  /** A 4-byte address, or a 4-byte mask, as the number its bits spell. */
  type Addr = a: int | 0 <= a < SPACE

  /** What `net.ParseIP` makes of an address text. A dotted quad and any spelling of the IPv4-mapped IPv6 form
      give the same 4-byte address, so equal addresses may have different texts. */
  datatype AddrText =
    | Dotted(a: Addr)
    | Mapped(spelling: nat, a: Addr)
    | V6(text: string)
    | NotAnAddress(text: string)
  {
    function To4(): Option<Addr> {
      match this
      case Dotted(a) => Some(a)
      case Mapped(_, a) => Some(a)
      case _ => None
    }
  }

  /** A destination in prefix notation; the printed form `a.b.c.d/n` (or `text/128`) determines the value. */
  datatype Cidr = Prefix(base: Addr, ones: nat) | Host6(text: string)

  function Pow2(n: nat): (r: nat)
    ensures r > 0
  {
    if n == 0 then 1 else 2 * Pow2(n - 1)
  }

  /** Bitwise conjunction, one bit at a time. */
  function And(a: nat, b: nat): (r: nat)
    ensures r <= a && r <= b
  {
    if a == 0 || b == 0 then 0
    else 2 * And(a / 2, b / 2) + (if a % 2 == 1 && b % 2 == 1 then 1 else 0)
  }

  /** The number of leading ones of a mask of `n` bits. */
  function LeadingOnes(m: int, n: nat): (r: nat)
    ensures r <= n
  {
    if n == 0 || m < Pow2(n - 1) then 0 else 1 + LeadingOnes(m - Pow2(n - 1), n - 1)
  }

  /** The mask with `k` leading ones. */
  function PrefixMask(k: nat): (m: Addr)
    requires k <= 32
    ensures m == SPACE - Pow2(32 - k)
  {
    Pow2At32();
    Pow2Monotone(32 - k, 32);
    SPACE - Pow2(32 - k)
  }

  /** `net.IPMask.Size`: the count of leading ones, provided every bit after them is clear. */
  function MaskSize(m: Addr): Option<nat> {
    var k := LeadingOnes(m, 32);
    if m == PrefixMask(k) then Some(k) else None
  }

  predicate Contains(c: Cidr, x: Addr) {
    c.Prefix? && c.ones <= 32 && And(x, PrefixMask(c.ones)) == c.base
  }

  predicate Canonical(c: Cidr) {
    c.Prefix? && c.ones <= 32 && And(c.base, PrefixMask(c.ones)) == c.base
  }

  // ---- powers and bits ----

  lemma Pow2At32()
    ensures Pow2(32) == SPACE
  {
    assert Pow2(8) == 0x100;
    assert Pow2(16) == 0x1_0000;
    assert Pow2(24) == 0x100_0000;
  }

  lemma {:induction false} Pow2Monotone(i: nat, j: nat)
    requires i <= j
    ensures Pow2(i) <= Pow2(j)
    ensures i < j ==> Pow2(i) < Pow2(j)
  {
    if i < j { Pow2Monotone(i, j - 1); }
  }

  lemma ModDouble(a: nat, p: nat)
    requires p > 0
    ensures a % (2 * p) == 2 * ((a / 2) % p) + a % 2
  {
    var q, r := (a / 2) / p, (a / 2) % p;
    assert a / 2 == q * p + r;
    assert a == q * (2 * p) + (2 * r + a % 2);
    ModUnique(a, 2 * p, q, 2 * r + a % 2);
  }

  lemma ModUnique(a: nat, p: nat, q: nat, r: nat)
    requires p > 0 && a == q * p + r && r < p
    ensures a % p == r && a / p == q
  {
    var d := a / p - q;
    assert a % p == r - d * p;
    MultipleTooBig(d, p);
  }

  lemma MultipleTooBig(d: int, p: nat)
    ensures d > 0 ==> d * p >= p
    ensures d < 0 ==> d * p + p <= 0
  {}

  lemma AndHalves(a: nat, b: nat)
    ensures And(a, b) == 2 * And(a / 2, b / 2) + if a % 2 == 1 && b % 2 == 1 then 1 else 0
  {}

  /** The number that the low j bits spell. */
  function LowBits(a: nat, j: nat): (r: nat)
    ensures r <= a
  {
    if j == 0 then 0 else 2 * LowBits(a / 2, j - 1) + a % 2
  }

  lemma {:induction false} LowBitsIsMod(a: nat, j: nat)
    ensures LowBits(a, j) == a % Pow2(j)
  {
    if j > 0 {
      LowBitsIsMod(a / 2, j - 1);
      ModDouble(a, Pow2(j - 1));
    }
  }

  lemma AndEven(a: nat, m: nat)
    ensures And(a, 2 * m) == 2 * And(a / 2, m)
  {
    assert (2 * m) / 2 == m && (2 * m) % 2 == 0;
    AndHalves(a, 2 * m);
  }

  lemma AndOdd(a: nat, m: nat)
    ensures And(a, 2 * m + 1) == 2 * And(a / 2, m) + a % 2
  {
    assert (2 * m + 1) / 2 == m && (2 * m + 1) % 2 == 1;
    AndHalves(a, 2 * m + 1);
  }

  lemma {:induction false} AndOnes(a: nat, n: nat)
    requires a < Pow2(n)
    ensures And(a, Pow2(n) - 1) == a
  {
    if n > 0 {
      AndOnes(a / 2, n - 1);
      AndOdd(a, Pow2(n - 1) - 1);
    }
  }

  /** Anding with the mask of n bits whose low j are clear removes the low j bits. */
  lemma {:induction false} AndMask(a: nat, n: nat, j: nat)
    requires j <= n && a < Pow2(n)
    ensures Pow2(n) >= Pow2(j) && And(a, Pow2(n) - Pow2(j)) == a - LowBits(a, j)
  {
    Pow2Monotone(j, n);
    if j == 0 {
      AndOnes(a, n);
    } else {
      AndMask(a / 2, n - 1, j - 1);
      assert Pow2(n) == 2 * Pow2(n - 1) && Pow2(j) == 2 * Pow2(j - 1);
      AndEven(a, Pow2(n - 1) - Pow2(j - 1));
    }
  }

  lemma AndWidth(a: nat, n: nat, j: nat)
    requires j <= n && a < Pow2(n)
    ensures Pow2(n) >= Pow2(j) && And(a, Pow2(n) - Pow2(j)) == a - a % Pow2(j)
  {
    AndMask(a, n, j);
    LowBitsIsMod(a, j);
  }

  lemma AndPrefixMask(a: Addr, k: nat)
    requires k <= 32
    ensures And(a, PrefixMask(k)) == a - a % Pow2(32 - k)
  {
    Pow2At32();
    AndWidth(a, 32, 32 - k);
  }

  // ---- masks ----

  lemma {:induction false} LeadingOnesOfMask(n: nat, j: nat)
    requires j <= n
    ensures LeadingOnes(Pow2(n) - Pow2(j), n) == n - j
  {
    Pow2Monotone(j, n);
    if j < n {
      Pow2Monotone(j, n - 1);
      LeadingOnesOfMask(n - 1, j);
    }
  }

  /** Mask validation accepts exactly the values 2^32 - 2^(32-k), and reports that k. */
  lemma MaskSizeExact(m: Addr, k: nat)
    ensures MaskSize(m) == Some(k) <==> k <= 32 && m == SPACE - Pow2(32 - k)
  {
    if k <= 32 && m == SPACE - Pow2(32 - k) {
      Pow2At32();
      LeadingOnesOfMask(32, 32 - k);
    }
  }

  // ---- address sets ----

  /** The addresses of a prefix are the 2^(32-k) consecutive ones from its base. */
  lemma ContainsIsInterval(c: Cidr, x: Addr)
    requires Canonical(c)
    ensures Contains(c, x) <==> c.base <= x < c.base + Pow2(32 - c.ones)
    ensures c.base % Pow2(32 - c.ones) == 0 && c.base + Pow2(32 - c.ones) <= SPACE
  {
    AndPrefixMask(x, c.ones);
    AndPrefixMask(c.base, c.ones);
    BlockOf(x, c.base, Pow2(32 - c.ones));
    SpaceDivides(c.base, c.ones);
  }

  lemma BlockOf(x: nat, b: nat, p: nat)
    requires p > 0 && b % p == 0
    ensures x - x % p == b <==> b <= x < b + p
  {
    if b <= x < b + p { ModUnique(x, p, b / p, x - b); }
  }

  lemma SpaceDivides(b: Addr, k: nat)
    requires k <= 32 && b % Pow2(32 - k) == 0
    ensures b + Pow2(32 - k) <= SPACE
  {
    Pow2Sum(k, 32 - k);
    Pow2At32();
    NextMultiple(b, Pow2(32 - k), Pow2(k));
  }

  lemma NextMultiple(b: nat, p: nat, n: nat)
    requires p > 0 && b % p == 0 && b < n * p
    ensures b + p <= n * p
  {
    var q := b / p;
    if q < n { MulMonotone(q + 1, n, p); } else { MulMonotone(n, q, p); }
  }

  lemma MulMonotone(i: int, j: int, p: nat)
    requires i <= j
    ensures i * p <= j * p
  {}

  lemma {:induction false} Pow2Sum(i: nat, j: nat)
    ensures Pow2(i + j) == Pow2(i) * Pow2(j)
  {
    if i > 0 { Pow2Sum(i - 1, j); }
  }

  /** Two canonical prefixes are equal exactly when they hold the same addresses. */
  lemma CidrExtensional(c: Cidr, d: Cidr)
    requires Canonical(c) && Canonical(d)
    ensures c == d <==> forall x: Addr :: Contains(c, x) <==> Contains(d, x)
  {
    if forall x: Addr :: Contains(c, x) <==> Contains(d, x) {
      SubsetBounds(c, d);
      SubsetBounds(d, c);
      if c.ones < d.ones { Pow2Monotone(32 - d.ones, 32 - c.ones); }
      if d.ones < c.ones { Pow2Monotone(32 - c.ones, 32 - d.ones); }
    }
  }

  lemma SubsetBounds(c: Cidr, d: Cidr)
    requires Canonical(c) && Canonical(d)
    requires forall x: Addr :: Contains(c, x) ==> Contains(d, x)
    ensures d.base <= c.base && c.base + Pow2(32 - c.ones) <= d.base + Pow2(32 - d.ones)
  {
    ContainsIsInterval(c, c.base);
    ContainsIsInterval(d, c.base);
    var last := c.base + Pow2(32 - c.ones) - 1;
    ContainsIsInterval(c, last);
    ContainsIsInterval(d, last);
  }

  // ---- route validation and conversion ----

  datatype RouteError = NotIPv4 | BadMask | NotContiguous | HostBitsSet

  function ValidateNetworkMask(addr: AddrText, mask: AddrText): Result<nat, RouteError> {
    match (addr.To4(), mask.To4())
    case (None, _) => Err(NotIPv4)
    case (_, None) => Err(BadMask)
    case (Some(a), Some(m)) =>
      if MaskSize(m).None? then Err(NotContiguous)
      else if And(a, m) != a then Err(HostBitsSet)
      else Ok(MaskSize(m).value)
  }

  function IpMaskToCidr(addr: AddrText, mask: AddrText): Result<Cidr, RouteError> {
    match (addr.To4(), mask.To4())
    case (None, _) => Err(NotIPv4)
    case (_, None) => Err(BadMask)
    case (Some(a), Some(m)) =>
      if MaskSize(m).None? then Err(NotContiguous) else Ok(Prefix(And(a, m), MaskSize(m).value))
  }

  function IpToHostCidr(ip: AddrText): Result<Cidr, RouteError> {
    match ip
    case V6(t) => Ok(Host6(t))
    case NotAnAddress(_) => Err(NotIPv4)
    case _ => Ok(Prefix(ip.To4().value, 32))
  }

  /** The addresses that a pushed `route addr mask` covers. */
  predicate RouteCovers(addr: AddrText, mask: AddrText, x: Addr) {
    && addr.To4().Some? && mask.To4().Some?
    && And(x, mask.To4().value) == And(addr.To4().value, mask.To4().value)
  }

  /** A route is valid exactly when its mask is 2^32 - 2^(32-k) and its base is a multiple of 2^(32-k). */
  lemma ValidateExact(addr: AddrText, mask: AddrText, k: nat)
    ensures ValidateNetworkMask(addr, mask) == Ok(k) <==>
              && k <= 32 && addr.To4().Some?
              && mask.To4() == Some(SPACE - Pow2(32 - k))
              && addr.To4().value % Pow2(32 - k) == 0
  {
    if mask.To4().Some? {
      MaskSizeExact(mask.To4().value, k);
      if k <= 32 && addr.To4().Some? { AndPrefixMask(addr.To4().value, k); }
    }
  }

  /** The emitted prefix is canonical and holds exactly the addresses that the route covers. */
  lemma CidrDenotesRoute(addr: AddrText, mask: AddrText, x: Addr)
    requires IpMaskToCidr(addr, mask).Ok?
    ensures var c := IpMaskToCidr(addr, mask).value; Canonical(c) && (Contains(c, x) <==> RouteCovers(addr, mask, x))
  {
    var a, m := addr.To4().value, mask.To4().value;
    var k := MaskSize(m).value;
    AndPrefixMask(a, k);
    AndPrefixMask(And(a, m), k);
    DropRemainder(a, Pow2(32 - k));
  }

  lemma DropRemainder(a: nat, p: nat)
    requires p > 0
    ensures a - a % p >= 0 && (a - a % p) % p == 0
  {
    ModUnique(a - a % p, p, a / p, 0);
  }

  /** Two routes get the same prefix exactly when they cover the same addresses, however their texts are spelled. */
  lemma SameCidrIffSameAddresses(a: AddrText, m: AddrText, b: AddrText, n: AddrText)
    requires IpMaskToCidr(a, m).Ok? && IpMaskToCidr(b, n).Ok?
    ensures IpMaskToCidr(a, m) == IpMaskToCidr(b, n) <==>
            forall x: Addr :: RouteCovers(a, m, x) <==> RouteCovers(b, n, x)
  {
    var c, d := IpMaskToCidr(a, m).value, IpMaskToCidr(b, n).value;
    forall x: Addr
      ensures Canonical(c) && Canonical(d)
      ensures (Contains(c, x) <==> RouteCovers(a, m, x)) && (Contains(d, x) <==> RouteCovers(b, n, x))
    {
      CidrDenotesRoute(a, m, x);
      CidrDenotesRoute(b, n, x);
    }
    CidrDenotesRoute(a, m, 0);
    CidrDenotesRoute(b, n, 0);
    CidrExtensional(c, d);
  }

  /** A host mask and a host prefix agree: a resolved IPv4 address pushed with mask /32 gives its own prefix. */
  lemma HostRoute(ip: AddrText)
    requires ip.To4().Some?
    ensures IpMaskToCidr(ip, Dotted(SPACE - 1)) == IpToHostCidr(ip)
  {
    AndPrefixMask(ip.To4().value, 32);
    MaskSizeExact(SPACE - 1, 32);
  }

  // ---- static client addresses ----

  function Or(a: nat, b: nat): nat {
    if a == 0 then b else if b == 0 then a
    else 2 * Or(a / 2, b / 2) + (if a % 2 == 1 || b % 2 == 1 then 1 else 0)
  }

  datatype Reserved = NotReserved | NetworkAddress | BroadcastAddress | ServerAddress

  /** `server[3]++` touches the last byte only, so it wraps inside that byte. */
  function NextInLastByte(a: Addr): Addr {
    a - a % 256 + (a % 256 + 1) % 256
  }

  function ReservedVpnAddress(netIP: Addr, mask: Addr, addr: Addr): Reserved {
    var network := And(netIP, mask);
    if addr == network then NetworkAddress
    else if addr == Or(network, SPACE - 1 - mask) then BroadcastAddress
    else if addr == NextInLastByte(network) then ServerAddress
    else NotReserved
  }

  /** The address checks of CCD validation for a client that is not dynamic. */
  predicate StaticAddressAccepted(netIP: Addr, mask: Addr, client: AddrText) {
    && client.To4().Some?
    && And(client.To4().value, mask) == And(netIP, mask)
    && ReservedVpnAddress(netIP, mask, client.To4().value) == NotReserved
  }

  lemma {:induction false} OrDisjoint(a: nat, b: nat, j: nat)
    requires a % Pow2(j) == 0 && b < Pow2(j)
    ensures Or(a, b) == a + b
  {
    if j > 0 {
      ModDouble(a, Pow2(j - 1));
      OrDisjoint(a / 2, b / 2, j - 1);
    }
  }

  /** For every prefix length, an address is accepted exactly when it lies strictly between network+1 and broadcast;
      a /31 or /32 subnet therefore accepts none. */
  lemma StaticAddressRange(netIP: Addr, k: nat, client: AddrText)
    requires k <= 32
    ensures var n := And(netIP, PrefixMask(k));
            StaticAddressAccepted(netIP, PrefixMask(k), client) <==>
            client.To4().Some? && n + 1 < client.To4().value < n + Pow2(32 - k) - 1
  {
    var p, n := Pow2(32 - k), And(netIP, PrefixMask(k));
    AndPrefixMask(netIP, k);
    DropRemainder(netIP, p);
    BroadcastOf(n, k);
    if client.To4().Some? {
      AndPrefixMask(client.To4().value, k);
      BlockOf(client.To4().value, n, p);
      if k <= 31 { ServerIsNext(n, 31 - k); }
    }
  }

  lemma BroadcastOf(n: Addr, k: nat)
    requires k <= 32 && n % Pow2(32 - k) == 0
    ensures Or(n, SPACE - 1 - PrefixMask(k)) == n + Pow2(32 - k) - 1
  {
    OrDisjoint(n, Pow2(32 - k) - 1, 32 - k);
  }

  lemma ServerIsNext(n: Addr, j: nat)
    requires n % Pow2(j + 1) == 0
    ensures NextInLastByte(n) == n + 1
  {
    EvenBase(n, j);
  }

  lemma EvenBase(n: nat, j: nat)
    requires n % Pow2(j + 1) == 0
    ensures n % 2 == 0
  {
    ModDouble(n, Pow2(j));
  }
}
