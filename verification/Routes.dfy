/** Subnet routes: canonical lists, auto-approval and their wire form (crabscale-policy/src/routes.rs, crabscale-control/src/lib.rs). */
module Routes {
  import opened Ordered
  import opened Net
  import opened Groups
  import opened Compile
  import opened Delta

  // ---------------------------------------------------------------------
  // Sorted, duplicate-free lists.

  /** A fixed total order on prefixes, standing for the order of their texts. */
  predicate Less(a: Cidr, b: Cidr) {
    (!a.v6 && b.v6) || (a.v6 == b.v6 && (a.addr < b.addr || (a.addr == b.addr && a.bits < b.bits)))
  }

  ghost predicate InOrder(s: seq<Cidr>) {
    forall i, j :: 0 <= i < j < |s| ==> Less(s[i], s[j])
  }

  function Insert(s: seq<Cidr>, c: Cidr): (r: seq<Cidr>)
    ensures forall x :: x in r <==> x in s || x == c
  {
    if s == [] then [c]
    else if s[|s| - 1] == c then s
    else if Less(s[|s| - 1], c) then s + [c]
    else
      assert s == s[..|s| - 1] + [s[|s| - 1]];
      Insert(s[..|s| - 1], c) + [s[|s| - 1]]
  }

  /** Sorts a list and drops duplicates. */
  function SortDedup(s: seq<Cidr>): (r: seq<Cidr>)
    ensures forall x :: x in r <==> x in s
  {
    if s == [] then
      []
    else
      assert s == s[..|s| - 1] + [s[|s| - 1]];
      Insert(SortDedup(s[..|s| - 1]), s[|s| - 1])
  }

  lemma {:induction false} InsertOrdered(s: seq<Cidr>, c: Cidr)
    requires InOrder(s)
    ensures InOrder(Insert(s, c))
    decreases |s|
  {
    if s != [] && s[|s| - 1] != c && !Less(s[|s| - 1], c) {
      var front, last := s[..|s| - 1], s[|s| - 1];
      InsertOrdered(front, c);
      var r := Insert(front, c);
      forall i | 0 <= i < |r|
        ensures Less(r[i], last)
      {
        assert r[i] in r;
        if r[i] in front {
          var j :| 0 <= j < |front| && front[j] == r[i];
          assert s[j] == r[i];
        }
      }
    } else if s != [] {
      assert forall i :: 0 <= i < |s| - 1 ==> Less(s[i], s[|s| - 1]);
    }
  }

  lemma {:induction false} SortDedupOrdered(s: seq<Cidr>)
    ensures InOrder(SortDedup(s))
    decreases |s|
  {
    if s != [] {
      SortDedupOrdered(s[..|s| - 1]);
      InsertOrdered(SortDedup(s[..|s| - 1]), s[|s| - 1]);
    }
  }

  lemma LessTotal(a: Cidr, b: Cidr)
    ensures a == b || Less(a, b) || Less(b, a)
    ensures !(Less(a, b) && Less(b, a)) && !Less(a, a)
  {
  }

  /** In an ordered list the last entry is above every other one. */
  lemma LastIsTop(a: seq<Cidr>, x: Cidr)
    requires InOrder(a) && a != [] && x in a
    ensures x == a[|a| - 1] || Less(x, a[|a| - 1])
  {
    var i :| 0 <= i < |a| && a[i] == x;
  }

  lemma FrontOf(a: seq<Cidr>, x: Cidr)
    requires InOrder(a) && a != []
    ensures x in a[..|a| - 1] <==> x in a && x != a[|a| - 1]
  {
    assert a == a[..|a| - 1] + [a[|a| - 1]];
    if x in a[..|a| - 1] {
      var i :| 0 <= i < |a| - 1 && a[i] == x;
      LessTotal(a[i], a[|a| - 1]);
    }
  }

  ghost predicate SameMembers(a: seq<Cidr>, b: seq<Cidr>) {
    forall x :: x in a <==> x in b
  }

  /** Two ordered lists with the same members are the same list. */
  lemma {:induction false} OrderedUnique(a: seq<Cidr>, b: seq<Cidr>)
    requires InOrder(a) && InOrder(b) && SameMembers(a, b)
    ensures a == b
    decreases |a|
  {
    EmptyTogether(a, b);
    if a != [] {
      var la, lb := a[|a| - 1], b[|b| - 1];
      assert la in b && lb in a;
      LastIsTop(b, la);
      LastIsTop(a, lb);
      LessTotal(la, lb);
      var fa, fb := a[..|a| - 1], b[..|b| - 1];
      forall x
        ensures x in fa <==> x in fb
      {
        FrontOf(a, x);
        FrontOf(b, x);
      }
      OrderedUnique(fa, fb);
      assert a == fa + [la] && b == fb + [lb];
    }
  }

  lemma EmptyTogether(a: seq<Cidr>, b: seq<Cidr>)
    requires SameMembers(a, b)
    ensures a == [] <==> b == []
  {
    if a != [] {
      assert a[0] in b;
    }
    if b != [] {
      assert b[0] in a;
    }
  }

  // ---------------------------------------------------------------------
  // Advertised routes.

  ghost predicate AllCanonical(s: seq<Cidr>) {
    forall c :: c in s ==> Net.Canonical(c) == c
  }

  /** The routes a client advertised: malformed entries dropped, the rest canonical, sorted, once each. */
  method RouteList(routable: Option<seq<Option<Cidr>>>) returns (routes: seq<Cidr>)
    ensures InOrder(routes) && AllCanonical(routes)
    ensures forall c :: c in routes <==> routable.Some? && exists r :: Some(r) in routable.value && Net.Canonical(r) == c
  {
    routes := [];
    if routable.Some? {
      var list := routable.value;
      for i := 0 to |list|
        invariant forall c :: c in routes <==> exists j :: 0 <= j < i && list[j].Some? && Net.Canonical(list[j].value) == c
      {
        if list[i].Some? {
          routes := routes + [Net.Canonical(list[i].value)];
        }
      }
      forall c
        ensures c in routes <==> exists r :: Some(r) in list && Net.Canonical(r) == c
      {
        if c in routes {
          var j :| 0 <= j < |list| && list[j].Some? && Net.Canonical(list[j].value) == c;
          assert Some(list[j].value) in list;
        }
      }
    }
    forall c | c in routes
      ensures Net.Canonical(c) == c
    {
      var r :| Some(r) in routable.value && Net.Canonical(r) == c;
      CanonicalValid(r);
    }
    SortDedupOrdered(routes);
    routes := SortDedup(routes);
  }

  // ---------------------------------------------------------------------
  // Auto-approval.

  /** A route prefix (absent when malformed) and the principals whose nodes may advertise it. */
  datatype Approver = Approver(prefix: Option<Cidr>, principals: seq<Target>)

  predicate ApproverMatches(names: Names, ghost rank: map<string, nat>, t: Target, n: CompileNode)
    requires Ranked(names, rank)
  {
    match t
    case Wildcard | AutoSelf => true
    case AutoMember => n.tags == []
    case AutoTagged => n.tags != []
    case AutoOther(_) => false
    case Group(_) => n.login.Some? && PrincipalMatches(names, rank, t, User(n.login.value))
    case Tag(text) => text in n.tags
    case User(login) => n.login == Some(login)
    case Host(alias) => n.login == Some(alias)
    case Network(net) => exists i :: 0 <= i < |n.addresses| && AddrInCidr(n.addresses[i], Net.Canonical(net))
  }

  predicate SomePrincipal(names: Names, ghost rank: map<string, nat>, ts: seq<Target>, n: CompileNode)
    requires Ranked(names, rank)
  {
    exists i :: 0 <= i < |ts| && ApproverMatches(names, rank, ts[i], n)
  }

  /** One entry approves a canonical route: only the route's network address is compared. */
  predicate Approves(names: Names, ghost rank: map<string, nat>, a: Approver, n: CompileNode, route: Cidr)
    requires Ranked(names, rank)
  {
    a.prefix.Some? && AddrInCidr(route, Net.Canonical(a.prefix.value)) && SomePrincipal(names, rank, a.principals, n)
  }

  ghost predicate AutoApproved(names: Names, rank: map<string, nat>, as_: seq<Approver>, n: CompileNode, advertised: seq<Cidr>, route: Cidr)
    requires Ranked(names, rank)
  {
    (exists r :: r in advertised && Net.Canonical(r) == route) &&
    exists i :: 0 <= i < |as_| && Approves(names, rank, as_[i], n, route)
  }

  ghost predicate ApprovedBy(names: Names, rank: map<string, nat>, a: Approver, n: CompileNode, advertised: seq<Cidr>, k: nat, route: Cidr)
    requires Ranked(names, rank) && k <= |advertised|
  {
    exists j :: 0 <= j < k && Net.Canonical(advertised[j]) == route && Approves(names, rank, a, n, route)
  }

  /** The routes one entry adds. */
  method Consider(names: Names, ghost rank: map<string, nat>, a: Approver, n: CompileNode, advertised: seq<Cidr>) returns (out: seq<Cidr>)
    requires Ranked(names, rank)
    ensures forall c :: c in out <==> ApprovedBy(names, rank, a, n, advertised, |advertised|, c)
  {
    out := [];
    if a.prefix.None? {
      return;
    }
    var prefix := Net.Canonical(a.prefix.value);
    for k := 0 to |advertised|
      invariant forall c :: c in out <==> ApprovedBy(names, rank, a, n, advertised, k, c)
    {
      var route := Net.Canonical(advertised[k]);
      ghost var before := out;
      if AddrInCidr(route, prefix) && SomePrincipal(names, rank, a.principals, n) {
        out := out + [route];
      }
      forall c
        ensures c in out <==> ApprovedBy(names, rank, a, n, advertised, k + 1, c)
      {
        ApprovedStep(names, rank, a, n, advertised, k, c);
        assert c in before <==> ApprovedBy(names, rank, a, n, advertised, k, c);
      }
    }
  }

  lemma ApprovedStep(names: Names, rank: map<string, nat>, a: Approver, n: CompileNode, advertised: seq<Cidr>, k: nat, c: Cidr)
    requires Ranked(names, rank) && k < |advertised|
    ensures ApprovedBy(names, rank, a, n, advertised, k + 1, c) <==>
            ApprovedBy(names, rank, a, n, advertised, k, c) || (Net.Canonical(advertised[k]) == c && Approves(names, rank, a, n, c))
  {
  }

  /** The advertised routes that the policy approves for a node, canonical, sorted, once each. */
  method AutoApprovedRoutes(names: Names, ghost rank: map<string, nat>, as_: seq<Approver>, n: CompileNode, advertised: seq<Cidr>)
      returns (routes: seq<Cidr>)
    requires Ranked(names, rank)
    ensures InOrder(routes)
    ensures forall c :: c in routes <==> AutoApproved(names, rank, as_, n, advertised, c)
  {
    routes := [];
    for i := 0 to |as_|
      invariant forall c :: c in routes <==> exists j :: 0 <= j < i && ApprovedBy(names, rank, as_[j], n, advertised, |advertised|, c)
    {
      var more := Consider(names, rank, as_[i], n, advertised);
      routes := routes + more;
    }
    forall c
      ensures c in routes <==> AutoApproved(names, rank, as_, n, advertised, c)
    {
      ApprovalSplits(names, rank, as_, n, advertised, c);
    }
    SortDedupOrdered(routes);
    routes := SortDedup(routes);
  }

  lemma ApprovalSplits(names: Names, rank: map<string, nat>, as_: seq<Approver>, n: CompileNode, advertised: seq<Cidr>, c: Cidr)
    requires Ranked(names, rank)
    ensures AutoApproved(names, rank, as_, n, advertised, c) <==>
            exists j :: 0 <= j < |as_| && ApprovedBy(names, rank, as_[j], n, advertised, |advertised|, c)
  {
    if AutoApproved(names, rank, as_, n, advertised, c) {
      var r :| r in advertised && Net.Canonical(r) == c;
      var i :| 0 <= i < |as_| && Approves(names, rank, as_[i], n, c);
      var j :| 0 <= j < |advertised| && advertised[j] == r;
      assert ApprovedBy(names, rank, as_[i], n, advertised, |advertised|, c);
    }
    if j :| 0 <= j < |as_| && ApprovedBy(names, rank, as_[j], n, advertised, |advertised|, c) {
      var k :| 0 <= k < |advertised| && Net.Canonical(advertised[k]) == c && Approves(names, rank, as_[j], n, c);
      assert advertised[k] in advertised;
    }
  }

  // ---------------------------------------------------------------------
  // How much an approved prefix really covers.

  ghost predicate BlockWithin(r: Cidr, p: Cidr) {
    forall x: nat :: InBlock(r.v6, x, r) ==> InBlock(r.v6, x, p)
  }

  /**
   * A route whose network address lies in an approved prefix is covered by it as a whole exactly when
   * the route is at least as long as the prefix.
   */
  lemma ApprovalCoversBlock(r: Cidr, p: Cidr)
    requires Net.Valid(r) && Net.Valid(p) && Net.Canonical(r) == r && AddrInCidr(r, p)
    ensures BlockWithin(r, p) <==> r.bits >= p.bits
  {
    var hr, hp := HostBits(r), HostBits(p);
    MembershipIsBlock(r, p);
    MaskedProps(r.addr, hr);
    MaskedProps(p.addr, hp);
    var base := Masked(p.addr, hp);
    if r.bits >= p.bits {
      PowMonotone(hr, hp);
      AlignedBlocks(r.addr, Pow2(hr), Pow2(hp), base);
    } else {
      PowGrows(hp, hr);
      var last := r.addr + Pow2(hr) - 1;
      assert InBlock(r.v6, last, r) && !InBlock(r.v6, last, p);
    }
  }

  lemma EightMoreBits(n: nat)
    ensures Pow2(n + 8) == 0x100 * Pow2(n)
  {
    assert Pow2(n + 2) == 4 * Pow2(n);
    assert Pow2(n + 4) == 4 * Pow2(n + 2);
    assert Pow2(n + 6) == 4 * Pow2(n + 4);
    assert Pow2(n + 8) == 4 * Pow2(n + 6);
  }

  /** The network address 10.0.0.0 fits an IPv4 address and has no bits below a /8, so none below a /24. */
  lemma TenAligned(c: Cidr)
    requires !c.v6 && c.addr == 0x0A00_0000 && (c.bits == 8 || c.bits == 24)
    ensures Net.Valid(c) && Net.Canonical(c) == c
  {
    EightMoreBits(0);
    EightMoreBits(8);
    EightMoreBits(16);
    EightMoreBits(24);
  }

  lemma WiderNotCovered(route: Cidr, p: Cidr)
    requires Net.Valid(route) && Net.Valid(p) && Net.Canonical(route) == route
    requires p.v6 == route.v6 && p.addr == route.addr && route.bits < p.bits
    ensures AddrInCidr(route, p) && !BlockWithin(route, p)
  {
    ApprovalCoversBlock(route, p);
  }

  /** A wider route with the network address of the approved prefix is approved too, and not covered by it. */
  lemma WiderRouteApproved(names: Names, rank: map<string, nat>, p: Cidr, principals: seq<Target>, n: CompileNode, route: Cidr)
    requires Ranked(names, rank) && SomePrincipal(names, rank, principals, n)
    requires Net.Valid(route) && Net.Valid(p) && Net.Canonical(route) == route && Net.Canonical(p) == p
    requires p.v6 == route.v6 && p.addr == route.addr && route.bits < p.bits
    ensures Approves(names, rank, Approver(Some(p), principals), n, route) && !BlockWithin(route, p)
  {
    WiderNotCovered(route, p);
  }

  /** The input 10.0.0.0/8: an entry for 10.0.0.0/24 approves it. */
  lemma TenNetworkApproved(names: Names, rank: map<string, nat>, p: Cidr, principals: seq<Target>, n: CompileNode, route: Cidr)
    requires Ranked(names, rank) && SomePrincipal(names, rank, principals, n)
    requires route == Cidr(false, 0x0A00_0000, 8) && p == Cidr(false, 0x0A00_0000, 24)
    ensures Approves(names, rank, Approver(Some(p), principals), n, route) && !BlockWithin(route, p)
  {
    TenAligned(route);
    TenAligned(p);
    WiderRouteApproved(names, rank, p, principals, n, route);
  }

  // ---------------------------------------------------------------------
  // Effective routes and their wire form.

  /** The advertised routes that some entry approves. */
  function ApprovedAmong(names: Names, ghost rank: map<string, nat>, as_: seq<Approver>, n: CompileNode, advertised: seq<Cidr>): seq<Cidr>
    requires Ranked(names, rank)
  {
    if advertised == [] then
      []
    else
      var rest := ApprovedAmong(names, rank, as_, n, advertised[..|advertised| - 1]);
      var route := Net.Canonical(advertised[|advertised| - 1]);
      if exists i :: 0 <= i < |as_| && Approves(names, rank, as_[i], n, route) then rest + [route] else rest
  }

  function Kept(approved: seq<Cidr>, advertised: seq<Cidr>): seq<Cidr> {
    if approved == [] then
      []
    else
      var rest, r := Kept(approved[..|approved| - 1], advertised), approved[|approved| - 1];
      if r in advertised then rest + [r] else rest
  }

  /** Explicit approvals still advertised, plus what the policy auto-approves. */
  function EffectiveRoutes(names: Names, ghost rank: map<string, nat>, as_: seq<Approver>, n: CompileNode,
      approved: seq<Cidr>, advertised: seq<Cidr>): seq<Cidr>
    requires Ranked(names, rank)
  {
    SortDedup(Kept(approved, advertised) + ApprovedAmong(names, rank, as_, n, advertised))
  }

  lemma {:induction false} ApprovedAmongAre(names: Names, rank: map<string, nat>, as_: seq<Approver>, n: CompileNode, advertised: seq<Cidr>, c: Cidr)
    requires Ranked(names, rank)
    ensures c in ApprovedAmong(names, rank, as_, n, advertised) <==> AutoApproved(names, rank, as_, n, advertised, c)
    decreases |advertised|
  {
    if advertised != [] {
      var front, last := advertised[..|advertised| - 1], advertised[|advertised| - 1];
      assert advertised == front + [last];
      ApprovedAmongAre(names, rank, as_, n, front, c);
    }
  }

  lemma {:induction false} KeptAre(approved: seq<Cidr>, advertised: seq<Cidr>, c: Cidr)
    ensures c in Kept(approved, advertised) <==> c in approved && c in advertised
    decreases |approved|
  {
    if approved != [] {
      assert approved == approved[..|approved| - 1] + [approved[|approved| - 1]];
      KeptAre(approved[..|approved| - 1], advertised, c);
    }
  }

  /** A node's effective routes are among the routes it advertises now, and are exactly the approved ones. */
  lemma EffectiveAreAdvertised(names: Names, rank: map<string, nat>, as_: seq<Approver>, n: CompileNode,
      approved: seq<Cidr>, advertised: seq<Cidr>, c: Cidr)
    requires Ranked(names, rank) && AllCanonical(advertised)
    ensures c in EffectiveRoutes(names, rank, as_, n, approved, advertised) <==>
            c in advertised && (c in approved || exists i :: 0 <= i < |as_| && Approves(names, rank, as_[i], n, c))
  {
    KeptAre(approved, advertised, c);
    ApprovedAmongAre(names, rank, as_, n, advertised, c);
  }

  /** The routes as the code gathers them, loop by loop. */
  method GatherEffectiveRoutes(names: Names, ghost rank: map<string, nat>, as_: seq<Approver>, n: CompileNode,
      approved: seq<Cidr>, advertised: seq<Cidr>)
      returns (routes: seq<Cidr>)
    requires Ranked(names, rank)
    ensures routes == EffectiveRoutes(names, rank, as_, n, approved, advertised)
  {
    var kept := Kept(approved, advertised);
    var auto := AutoApprovedRoutes(names, rank, as_, n, advertised);
    routes := SortDedup(SortDedup(kept) + auto);
    ghost var all := kept + ApprovedAmong(names, rank, as_, n, advertised);
    forall c
      ensures c in routes <==> c in SortDedup(all)
    {
      ApprovedAmongAre(names, rank, as_, n, advertised, c);
    }
    SortDedupOrdered(SortDedup(kept) + auto);
    SortDedupOrdered(all);
    OrderedUnique(routes, SortDedup(all));
  }

  /** Capability version from which an absent list means the node's own addresses. */
  const ALLOWED_IPS_NULL_CAPVER: nat := 112

  function AllowedIpsFor(version: nat, addresses: seq<Cidr>, allowed: Option<seq<Cidr>>): Option<seq<Cidr>> {
    var effective := if allowed.Some? then allowed.value else addresses;
    if version >= ALLOWED_IPS_NULL_CAPVER && effective == addresses then None else Some(effective)
  }

  function NonAddressRoutes(routes: seq<Cidr>, addresses: seq<Cidr>): seq<Cidr> {
    if routes == [] then
      []
    else
      var rest, r := NonAddressRoutes(routes[..|routes| - 1], addresses), routes[|routes| - 1];
      if r in addresses then rest else rest + [r]
  }

  /** The list a peer's node carries: its addresses and its effective routes. */
  function PeerAllowedIps(version: nat, addresses: seq<Cidr>, stored: Option<seq<Cidr>>, routes: seq<Cidr>): Option<seq<Cidr>> {
    AllowedIpsFor(version, addresses, if routes == [] then stored else Some(SortDedup(addresses + routes)))
  }

  function ClientReads(addresses: seq<Cidr>, wire: Option<seq<Cidr>>): seq<Cidr> {
    if wire.Some? then wire.value else addresses
  }

  /**
   * A client that reads an absent list as the addresses recovers exactly the addresses and the
   * effective routes, for every capability version.
   */
  lemma ClientRecoversRoutes(version: nat, addresses: seq<Cidr>, stored: Option<seq<Cidr>>, routes: seq<Cidr>, c: Cidr)
    requires stored.Some? ==> stored.value == addresses
    ensures c in ClientReads(addresses, PeerAllowedIps(version, addresses, stored, routes)) <==> c in addresses || c in routes
  {
    assert c in addresses + routes <==> c in addresses || c in routes;
  }
}
