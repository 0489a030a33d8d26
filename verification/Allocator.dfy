/** Random address allocation inside configured prefixes (crabscale-control/src/ip_allocator.rs). */
module Allocator {
  import opened Ordered
  import opened Net

  /** How many addresses are drawn before a prefix counts as exhausted. */
  const ATTEMPTS: nat := 1024

  datatype Range = NoAddresses | Hosts(first: nat, count: nat)

  /** First host and host count of an IPv4 prefix: the network and broadcast addresses are skipped. */
  function HostRange4(prefix: nat, len: nat): Range {
    if len == 0 || len > 32 || 32 - len < 2 then
      NoAddresses
    else
      var hostCount := Pow2(32 - len);
      if hostCount - 2 == 0 then NoAddresses else Hosts(Masked(prefix, 32 - len) + 1, hostCount - 2)
  }

  /** The same for IPv6: only the subnet-router anycast address is skipped. */
  function HostRange6(prefix: nat, len: nat): Range {
    if len == 0 || len > 128 || 128 - len < 1 then
      NoAddresses
    else
      var hostCount := Pow2(128 - len);
      if hostCount - 1 == 0 then NoAddresses else Hosts(Masked(prefix, 128 - len) + 1, hostCount - 1)
  }

  lemma {:induction false} PowStrict(a: nat, b: nat)
    requires a < b
    ensures 2 * Pow2(a) <= Pow2(b)
    decreases b
  {
    if a < b - 1 {
      PowStrict(a, b - 1);
    }
  }

  /** A masked block ends inside the address space its prefix lies in. */
  lemma BlockFits(prefix: nat, hostBits: nat, width: nat)
    requires prefix < Pow2(width) && hostBits <= width
    ensures Masked(prefix, hostBits) + Pow2(hostBits) <= Pow2(width)
  {
    MaskedProps(prefix, hostBits);
    PowMonotone(hostBits, width);
    AlignedBlocks(Masked(prefix, hostBits), Pow2(hostBits), Pow2(width), 0);
  }

  /**
   * IPv4 arithmetic for every prefix and length: no intermediate value leaves 32 bits, every drawn
   * address lies in the prefix, and it is neither the network nor the broadcast address.
   */
  lemma Range4Sound(prefix: nat, len: nat, offset: nat)
    requires prefix < Pow2(32)
    ensures HostRange4(prefix, len).Hosts? <==> 1 <= len <= 30
    ensures var r := HostRange4(prefix, len);
            r.Hosts? ==>
              && Pow2(32 - len) < Pow2(32) && r.first < Pow2(32) && 0 < r.count
              && (offset < r.count ==>
                    var a := r.first + offset;
                    var network := Masked(prefix, 32 - len);
                    a < Pow2(32) && InBlock(false, a, Cidr(false, prefix, len)) &&
                    a != network && a != network + Pow2(32 - len) - 1)
  {
    if 1 <= len <= 30 {
      var h := 32 - len;
      BlockFits(prefix, h, 32);
      PowStrict(1, h);
      PowStrict(h, 32);
      assert Pow2(1) == 2;
      assert HostRange4(prefix, len) == Hosts(Masked(prefix, h) + 1, Pow2(h) - 2);
    }
  }

  /** The same for IPv6, where only the anycast address is excluded. */
  lemma Range6Sound(prefix: nat, len: nat, offset: nat)
    requires prefix < Pow2(128)
    ensures HostRange6(prefix, len).Hosts? <==> 1 <= len <= 127
    ensures var r := HostRange6(prefix, len);
            r.Hosts? ==>
              && Pow2(128 - len) < Pow2(128) && r.first < Pow2(128) && 0 < r.count
              && (offset < r.count ==>
                    var a := r.first + offset;
                    a < Pow2(128) && InBlock(true, a, Cidr(true, prefix, len)) && a != Masked(prefix, 128 - len))
  {
    if 1 <= len <= 127 {
      var h := 128 - len;
      BlockFits(prefix, h, 128);
      PowStrict(0, h);
      PowStrict(h, 128);
      MaskedProps(prefix, h);
    }
  }

  /** The first drawn address that is free. */
  function FirstFree(r: Range, used: set<nat>, draws: seq<nat>): Option<nat>
    requires r.Hosts? && r.count > 0
  {
    if draws == [] then
      None
    else
      var candidate := r.first + draws[0] % r.count;
      if candidate !in used then Some(candidate) else FirstFree(r, used, draws[1..])
  }

  /** Draws until an address is free or the attempts run out; the draws are the random source. */
  method Allocate(r: Range, used: set<nat>, draws: seq<nat>) returns (a: Option<nat>)
    requires |draws| == ATTEMPTS && (r.Hosts? ==> r.count > 0)
    ensures r.NoAddresses? ==> a.None?
    ensures r.Hosts? ==> a == FirstFree(r, used, draws)
    ensures a.Some? ==> r.Hosts? && r.first <= a.value < r.first + r.count && a.value !in used
    ensures r.Hosts? && a.None? ==> forall i :: 0 <= i < |draws| ==> r.first + draws[i] % r.count in used
  {
    if r.NoAddresses? {
      return None;
    }
    for i := 0 to |draws|
      invariant FirstFree(r, used, draws) == FirstFree(r, used, draws[i..])
      invariant forall j :: 0 <= j < i ==> r.first + draws[j] % r.count in used
    {
      var candidate := r.first + draws[i] % r.count;
      if candidate !in used {
        return Some(candidate);
      }
      assert draws[i..][1..] == draws[i + 1..];
    }
    a := None;
  }

  /** A chosen address is always a free host of the range. */
  lemma {:induction false} FirstFreeIsFree(r: Range, used: set<nat>, draws: seq<nat>)
    requires r.Hosts? && r.count > 0
    ensures var a := FirstFree(r, used, draws);
            a.Some? ==> r.first <= a.value < r.first + r.count && a.value !in used
    decreases |draws|
  {
    if draws != [] {
      FirstFreeIsFree(r, used, draws[1..]);
    }
  }
}
