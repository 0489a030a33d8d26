/** Addresses and prefixes as numbers (the arithmetic of crabscale-policy/src/routes.rs and compile.rs). */
module Net {

  function Pow2(n: nat): (p: nat)
    ensures p >= 1
  {
    if n == 0 then 1 else 2 * Pow2(n - 1)
  }

  /** An address with a prefix length; a bare address has the full length. */
  datatype Cidr = Cidr(v6: bool, addr: nat, bits: nat)

  function Width(v6: bool): nat { if v6 then 128 else 32 }

  /** What parsing accepts. */
  predicate Valid(c: Cidr) {
    c.addr < Pow2(Width(c.v6)) && c.bits <= Width(c.v6)
  }

  /** Clears the host bits below a prefix of the given length. */
  function Masked(addr: nat, hostBits: nat): (network: nat) {
    RemainderBelow(addr, Pow2(hostBits));
    addr - addr % Pow2(hostBits)
  }

  lemma RemainderBelow(x: nat, m: nat)
    requires m >= 1
    ensures x % m <= x
  {
    if x < m {
      assert x / m == 0;
    }
  }

  /** Host bits of a prefix; an overlong length is clamped to the full one. */
  function HostBits(c: Cidr): nat {
    if c.bits <= Width(c.v6) then Width(c.v6) - c.bits else 0
  }

  /** A prefix with its host bits zeroed. */
  function Canonical(c: Cidr): Cidr {
    c.(addr := Masked(c.addr, HostBits(c)))
  }

  /** Membership as the code decides it: both addresses masked to the network's length. */
  predicate AddrInCidr(a: Cidr, net: Cidr) {
    a.v6 == net.v6 && Masked(a.addr, HostBits(net)) == Masked(net.addr, HostBits(net))
  }

  /** Membership as the numbers mean it: the address lies in the network's block. */
  predicate InBlock(v6: bool, addr: nat, net: Cidr) {
    v6 == net.v6 && Masked(net.addr, HostBits(net)) <= addr < Masked(net.addr, HostBits(net)) + Pow2(HostBits(net))
  }

  lemma ModFloor(x: nat, base: nat, m: nat)
    requires m >= 1 && base % m == 0 && base <= x < base + m
    ensures x % m == x - base
  {
    var q := base / m;
    assert base == q * m;
    assert x / m == q by {
      DivUnique(x, m, q, x - base);
    }
  }

  lemma MultipleAtLeast(d: nat, m: nat)
    requires d >= 1
    ensures d * m >= m
  {
    assert d * m == (d - 1) * m + m;
  }

  lemma SmallMultiple(d: int, m: nat)
    requires d * m < m && -d * m < m
    ensures d == 0
  {
    if d >= 1 {
      MultipleAtLeast(d, m);
    } else if d <= -1 {
      MultipleAtLeast(-d, m);
    }
  }

  lemma QuotientUnique(m: nat, q: nat, r: nat, q': nat, r': nat)
    requires r < m && r' < m && q * m + r == q' * m + r'
    ensures q == q' && r == r'
  {
    assert (q - q') * m == r' - r;
    assert -(q - q') * m == r - r';
    SmallMultiple(q - q', m);
  }

  lemma DivUnique(x: nat, m: nat, q: nat, r: nat)
    requires m >= 1 && r < m && x == q * m + r
    ensures x / m == q && x % m == r
  {
    assert x == (x / m) * m + x % m;
    QuotientUnique(m, q, r, x / m, x % m);
  }

  lemma MaskedProps(addr: nat, hostBits: nat)
    ensures Masked(addr, hostBits) % Pow2(hostBits) == 0
    ensures Masked(addr, hostBits) <= addr < Masked(addr, hostBits) + Pow2(hostBits)
  {
    var m := Pow2(hostBits);
    var q := addr / m;
    assert Masked(addr, hostBits) == q * m + 0;
    DivUnique(Masked(addr, hostBits), m, q, 0);
  }

  /** Masking twice is masking once. */
  lemma MaskIdempotent(addr: nat, hostBits: nat)
    ensures Masked(Masked(addr, hostBits), hostBits) == Masked(addr, hostBits)
  {
    MaskedProps(addr, hostBits);
  }

  /** The masked comparison decides exactly membership in the block. */
  lemma MembershipIsBlock(a: Cidr, net: Cidr)
    ensures AddrInCidr(a, net) <==> InBlock(a.v6, a.addr, net)
  {
    var h := HostBits(net);
    MaskedProps(a.addr, h);
    MaskedProps(net.addr, h);
    if InBlock(a.v6, a.addr, net) {
      ModFloor(a.addr, Masked(net.addr, h), Pow2(h));
    }
  }

  lemma CanonicalValid(c: Cidr)
    ensures Valid(c) ==> Valid(Canonical(c))
    ensures Canonical(Canonical(c)) == Canonical(c)
  {
    MaskedProps(c.addr, HostBits(c));
    MaskIdempotent(c.addr, HostBits(c));
  }

  lemma {:induction false} PowMonotone(a: nat, b: nat)
    requires a <= b
    ensures Pow2(a) <= Pow2(b) && Pow2(b) % Pow2(a) == 0
    decreases b
  {
    if a == b {
      DivUnique(Pow2(b), Pow2(a), 1, 0);
    } else {
      PowMonotone(a, b - 1);
      var q := Pow2(b - 1) / Pow2(a);
      assert Pow2(b) == (2 * q) * Pow2(a);
      DivUnique(Pow2(b), Pow2(a), 2 * q, 0);
    }
  }

  lemma AlignedBlocks(x: nat, m: nat, h: nat, y: nat)
    requires m >= 1 && h >= 1 && h % m == 0 && x % m == 0 && y % h == 0 && y <= x < y + h
    ensures x + m <= y + h
  {
    var k := h / m;
    assert h == k * m;
    var b := y / h;
    assert y == b * h;
    assert y == (b * k) * m by {
      assert b * (k * m) == (b * k) * m;
    }
    var a := x / m;
    assert x == a * m;
    assert y + h == (b * k + k) * m;
    LessFactor(a, b * k + k, m);
    MulMonotone(a + 1, b * k + k, m);
    assert (a + 1) * m == a * m + m;
  }

  lemma MulMonotone(a: nat, c: nat, m: nat)
    requires a <= c
    ensures a * m <= c * m
  {
    assert c * m == a * m + (c - a) * m;
  }

  lemma LessFactor(a: nat, c: nat, m: nat)
    requires a * m < c * m
    ensures a < c
  {
    if c <= a {
      MulMonotone(c, a, m);
    }
  }

  lemma PowGrows(a: nat, b: nat)
    requires a < b
    ensures Pow2(a) < Pow2(b)
  {
    PowMonotone(a, b - 1);
  }
}
