/** Safety of registration over whole runs: addresses, routes, tags and single-use keys. */
module Safety {
  import opened Ordered
  import opened Net
  import opened Groups
  import opened Tags
  import opened Routes
  import opened Store
  import opened Allocator
  import opened Events
  import opened Delta
  import opened Plane
  import opened Coherence
  import Compile
  import Sessions

  // ---------------------------------------------------------------------
  // Rows.

  ghost predicate TagUsable(cfg: Config, tag: string)
    requires Ranked(cfg.policy.names, cfg.rank)
  {
    exists login :: UserCanUseTag(TagRules(cfg), cfg.rank, tag, login)
  }

  ghost predicate TagsUsable(cfg: Config, tags: seq<string>)
    requires Ranked(cfg.policy.names, cfg.rank)
  {
    forall t :: t in tags ==> TagUsable(cfg, t)
  }

  function OptTags(tags: Option<seq<string>>): seq<string> {
    if tags.Some? then tags.value else []
  }

  /** One IPv4 and one IPv6 host inside the configured prefixes, neither of them a reserved address. */
  ghost predicate AddressesOk(cfg: Config, addresses: seq<Cidr>) {
    && |addresses| == 2
    && addresses[0] == Cidr(false, addresses[0].addr, 32)
    && addresses[1] == Cidr(true, addresses[1].addr, 128)
    && InBlock(false, addresses[0].addr, cfg.prefix4)
    && InBlock(true, addresses[1].addr, cfg.prefix6)
    && addresses[0].addr != Masked(cfg.prefix4.addr, HostBits(cfg.prefix4))
    && addresses[0].addr != Masked(cfg.prefix4.addr, HostBits(cfg.prefix4)) + Pow2(HostBits(cfg.prefix4)) - 1
    && addresses[1].addr != Masked(cfg.prefix6.addr, HostBits(cfg.prefix6))
  }

  ghost predicate RoutesOk(routes: seq<Cidr>) {
    InOrder(routes) && AllCanonical(routes)
  }

  ghost predicate NodeSafe(cfg: Config, n: DomainNode)
    requires Ranked(cfg.policy.names, cfg.rank)
  {
    && AddressesOk(cfg, n.addresses)
    && n.allowedIps == Some(n.addresses)
    && RoutesOk(n.advertisedRoutes) && RoutesOk(n.approvedRoutes)
    && TagsUsable(cfg, TagsOf(n))
  }

  ghost predicate SharesAddress(n: DomainNode, m: DomainNode) {
    exists a, b :: a in n.addresses && b in m.addresses && a.v6 == b.v6 && a.addr == b.addr
  }

  ghost predicate DistinctAddresses(t: Table) {
    forall i, j :: 0 <= i < j < |t| ==> !SharesAddress(t[i], t[j])
  }

  ghost predicate Safe(cfg: Config, s: State)
    requires Ranked(cfg.policy.names, cfg.rank)
  {
    && TableValid(s.nodes)
    && (forall n :: n in s.nodes ==> NodeSafe(cfg, n))
    && DistinctAddresses(s.nodes)
    && (forall p :: p in s.keys ==> TagsUsable(cfg, OptTags(s.keys[p].tags)))
    && (forall a :: a in s.pending && s.pending[a].verdict.Approved? ==> TagsUsable(cfg, OptTags(s.pending[a].verdict.tags)))
  }

  /** A node that may be stored: its addresses are its row's own or are used by no row. */
  ghost predicate Admissible(cfg: Config, s: State, n: DomainNode)
    requires Ranked(cfg.policy.names, cfg.rank)
  {
    && NodeSafe(cfg, n)
    && ((forall x :: x in s.nodes ==> !SharesAddress(x, n)) ||
        (exists x :: x in s.nodes && x.nodeKey == n.nodeKey && x.addresses == n.addresses))
  }

  lemma ShareSymmetric(n: DomainNode, m: DomainNode)
    ensures SharesAddress(n, m) <==> SharesAddress(m, n)
  {
  }

  lemma ShareByAddresses(x: DomainNode, n: DomainNode, m: DomainNode)
    requires n.addresses == m.addresses
    ensures SharesAddress(x, n) <==> SharesAddress(x, m)
  {
  }

  lemma OwnRow(t: Table, x: DomainNode, key: Key)
    requires TableValid(t) && x in t && x.nodeKey == key
    ensures IndexOfKey(t, key).Some? && t[IndexOfKey(t, key).value] == x
  {
    var i :| 0 <= i < |t| && t[i] == x;
  }

  lemma RowAddresses(n: DomainNode, id: int)
    ensures Row(n, id).addresses == n.addresses
  {
  }

  lemma RowsApart(t: Table, i: nat, j: nat)
    requires DistinctAddresses(t) && i < |t| && j < |t| && i != j
    ensures !SharesAddress(t[i], t[j])
  {
    ShareSymmetric(t[i], t[j]);
  }

  lemma OwnRowApart(t: Table, x: DomainNode, n: DomainNode, i: nat)
    requires TableValid(t) && DistinctAddresses(t) && x in t && x.nodeKey == n.nodeKey && x.addresses == n.addresses
    requires i < |t| && IndexOfKey(t, n.nodeKey) != Some(i)
    ensures !SharesAddress(t[i], n)
  {
    OwnRow(t, x, n.nodeKey);
    RowsApart(t, i, IndexOfKey(t, n.nodeKey).value);
    ShareByAddresses(t[i], n, x);
  }

  /** The stored form of a node shares no address with another row. */
  lemma AdmittedApart(cfg: Config, s: State, n: DomainNode, i: nat)
    requires Ranked(cfg.policy.names, cfg.rank) && Safe(cfg, s) && Admissible(cfg, s, n)
    requires i < |s.nodes| && IndexOfKey(s.nodes, n.nodeKey) != Some(i)
    ensures !SharesAddress(s.nodes[i], n) && !SharesAddress(n, s.nodes[i])
  {
    ShareSymmetric(s.nodes[i], n);
    if x :| x in s.nodes && x.nodeKey == n.nodeKey && x.addresses == n.addresses {
      OwnRowApart(s.nodes, x, n, i);
    } else {
      assert s.nodes[i] in s.nodes;
    }
  }

  /** The stored row shares no address with any other row. */
  lemma StoredRowApart(cfg: Config, s: State, n: DomainNode, k: nat)
    requires Ranked(cfg.policy.names, cfg.rank) && Safe(cfg, s) && Admissible(cfg, s, n)
    requires k < |s.nodes| && IndexOfKey(s.nodes, n.nodeKey) != Some(k)
    ensures var row := Row(n, UpsertId(s.nodes, n));
            !SharesAddress(s.nodes[k], row) && !SharesAddress(row, s.nodes[k])
  {
    var row := Row(n, UpsertId(s.nodes, n));
    RowAddresses(n, UpsertId(s.nodes, n));
    AdmittedApart(cfg, s, n, k);
    ShareByAddresses(s.nodes[k], n, row);
    ShareSymmetric(s.nodes[k], row);
  }

  lemma UpsertDistinct(cfg: Config, s: State, n: DomainNode)
    requires Ranked(cfg.policy.names, cfg.rank) && Safe(cfg, s) && Admissible(cfg, s, n)
    ensures DistinctAddresses(Upsert(s.nodes, n))
  {
    var t := Upsert(s.nodes, n);
    var row := Row(n, UpsertId(s.nodes, n));
    forall i, j | 0 <= i < j < |t|
      ensures !SharesAddress(t[i], t[j])
    {
      if t[i] == row && j < |s.nodes| && IndexOfKey(s.nodes, n.nodeKey) != Some(j) {
        StoredRowApart(cfg, s, n, j);
      } else if i < |s.nodes| && IndexOfKey(s.nodes, n.nodeKey) != Some(i) && t[j] == row {
        StoredRowApart(cfg, s, n, i);
      }
    }
  }

  lemma UpsertSafe(cfg: Config, s: State, n: DomainNode)
    requires Ranked(cfg.policy.names, cfg.rank) && Safe(cfg, s) && Admissible(cfg, s, n)
    ensures Safe(cfg, s.(nodes := Upsert(s.nodes, n)))
  {
    UpsertKeepsValid(s.nodes, n);
    UpsertDistinct(cfg, s, n);
    forall x | x in Upsert(s.nodes, n)
      ensures NodeSafe(cfg, x)
    {
      UpsertRows(s.nodes, n, x);
    }
  }

  lemma DeleteSafe(cfg: Config, s: State, key: Key)
    requires Ranked(cfg.policy.names, cfg.rank) && Safe(cfg, s)
    ensures Safe(cfg, s.(nodes := Delete(s.nodes, key)))
  {
    DeleteKeepsValid(s.nodes, key);
    var t, i := Delete(s.nodes, key), IndexOfKey(s.nodes, key);
    forall x | x in t
      ensures NodeSafe(cfg, x)
    {
      DeleteRows(s.nodes, key, x);
    }
    if i.Some? {
      forall j, k | 0 <= j < k < |t|
        ensures !SharesAddress(t[j], t[k])
      {
        var j', k' := if j < i.value then j else j + 1, if k < i.value then k else k + 1;
        assert t[j] == s.nodes[j'] && t[k] == s.nodes[k'];
      }
    }
  }

  /** Safety does not look at the bus, the users or the sessions. */
  lemma SafeIgnoresRest(cfg: Config, s: State, s': State)
    requires Ranked(cfg.policy.names, cfg.rank) && Safe(cfg, s)
    requires s'.nodes == s.nodes && s'.keys == s.keys && s'.pending == s.pending
    ensures Safe(cfg, s')
  {
  }

  lemma SaveSafe(cfg: Config, s: State, n: DomainNode)
    requires Ranked(cfg.policy.names, cfg.rank) && Safe(cfg, s) && Admissible(cfg, s, n)
    ensures Safe(cfg, SaveNode(cfg, s, n))
  {
    UpsertSafe(cfg, s, n);
    SafeIgnoresRest(cfg, s.(nodes := Upsert(s.nodes, n)), SaveNode(cfg, s, n));
  }

  /** Rewriting a row with its own addresses is admissible when the new fields are safe. */
  lemma SameAddressesAdmissible(cfg: Config, s: State, x: DomainNode, n: DomainNode)
    requires Ranked(cfg.policy.names, cfg.rank) && x in s.nodes && NodeSafe(cfg, n)
    requires n.nodeKey == x.nodeKey && n.addresses == x.addresses
    ensures Admissible(cfg, s, n)
  {
  }

  // ---------------------------------------------------------------------
  // New nodes.

  lemma NewAddress4Ok(cfg: Config, a: nat)
    requires ConfigValid(cfg)
    requires var r := HostRange4(cfg.prefix4.addr, cfg.prefix4.bits); r.Hosts? && r.first <= a < r.first + r.count
    ensures var net, host := Masked(cfg.prefix4.addr, HostBits(cfg.prefix4)), HostBits(cfg.prefix4);
            InBlock(false, a, cfg.prefix4) && a != net && a != net + Pow2(host) - 1
  {
    Range4Sound(cfg.prefix4.addr, cfg.prefix4.bits, a - HostRange4(cfg.prefix4.addr, cfg.prefix4.bits).first);
    assert cfg.prefix4 == Cidr(false, cfg.prefix4.addr, cfg.prefix4.bits);
  }

  lemma NewAddress6Ok(cfg: Config, a: nat)
    requires ConfigValid(cfg)
    requires var r := HostRange6(cfg.prefix6.addr, cfg.prefix6.bits); r.Hosts? && r.first <= a < r.first + r.count
    ensures InBlock(true, a, cfg.prefix6) && a != Masked(cfg.prefix6.addr, HostBits(cfg.prefix6))
  {
    Range6Sound(cfg.prefix6.addr, cfg.prefix6.bits, a - HostRange6(cfg.prefix6.addr, cfg.prefix6.bits).first);
    assert cfg.prefix6 == Cidr(true, cfg.prefix6.addr, cfg.prefix6.bits);
  }

  lemma NewAddressesOk(cfg: Config, a4: nat, a6: nat)
    requires ConfigValid(cfg)
    requires var r := HostRange4(cfg.prefix4.addr, cfg.prefix4.bits); r.Hosts? && r.first <= a4 < r.first + r.count
    requires var r := HostRange6(cfg.prefix6.addr, cfg.prefix6.bits); r.Hosts? && r.first <= a6 < r.first + r.count
    ensures AddressesOk(cfg, [Cidr(false, a4, 32), Cidr(true, a6, 128)])
  {
    NewAddress4Ok(cfg, a4);
    NewAddress6Ok(cfg, a6);
  }

  lemma DrawSound(r: Range, used: set<nat>, draws: seq<nat>)
    ensures var a := Draw(r, used, draws);
            a.Some? ==> r.Hosts? && r.first <= a.value < r.first + r.count && a.value !in used
  {
    if r.Hosts? && r.count > 0 {
      FirstFreeIsFree(r, used, draws);
    }
  }

  lemma {:induction false} CanonicalAllIs(rs: seq<Option<Cidr>>)
    ensures AllCanonical(CanonicalAll(rs))
    decreases |rs|
  {
    if rs != [] {
      CanonicalAllIs(rs[..|rs| - 1]);
      if rs[|rs| - 1].Some? {
        CanonicalValid(rs[|rs| - 1].value);
      }
    }
  }

  lemma AdvertisedOk(h: Option<Hostinfo>)
    ensures RoutesOk(AdvertisedRoutes(h))
  {
    if h.Some? && h.value.routableIps.Some? {
      CanonicalAllIs(h.value.routableIps.value);
      SortDedupOrdered(CanonicalAll(h.value.routableIps.value));
    }
  }

  lemma FreshAddressUnshared(s: State, n: DomainNode, a4: nat, a6: nat)
    requires n.addresses == [Cidr(false, a4, 32), Cidr(true, a6, 128)]
    requires a4 !in UsedAddresses(s.nodes, false) && a6 !in UsedAddresses(s.nodes, true)
    ensures forall x :: x in s.nodes ==> !SharesAddress(x, n)
  {
  }

  lemma NewNodeAdmissible(cfg: Config, s: State, machineKey: Key, nodeKey: Key, h: Option<Hostinfo>, version: nat,
                          userId: int, tags: Option<seq<string>>, ephemeral: bool, now: Timestamp, chance: Chance)
    requires ConfigValid(cfg) && TagsUsable(cfg, OptTags(tags))
    ensures var node := NewNode(cfg, s, machineKey, nodeKey, h, version, userId, tags, ephemeral, now, chance);
            node.Some? ==> Admissible(cfg, s, node.value)
  {
    var r4, r6 := HostRange4(cfg.prefix4.addr, cfg.prefix4.bits), HostRange6(cfg.prefix6.addr, cfg.prefix6.bits);
    DrawSound(r4, UsedAddresses(s.nodes, false), chance.draws4);
    DrawSound(r6, UsedAddresses(s.nodes, true), chance.draws6);
    AdvertisedOk(h);
    var node := NewNode(cfg, s, machineKey, nodeKey, h, version, userId, tags, ephemeral, now, chance);
    if node.Some? {
      var a4, a6 := node.value.addresses[0].addr, node.value.addresses[1].addr;
      NewAddressesOk(cfg, a4, a6);
      FreshAddressUnshared(s, node.value, a4, a6);
    }
  }

  // ---------------------------------------------------------------------
  // Tags.

  lemma AuthorizedTagsUsable(cfg: Config, login: Option<string>, requested: seq<string>)
    requires Ranked(cfg.policy.names, cfg.rank) && UnauthorizedTags(TagRules(cfg), cfg.rank, login, requested) == []
    ensures TagsUsable(cfg, requested)
  {
    NothingUnauthorized(TagRules(cfg), cfg.rank, login, requested);
    forall t | t in requested
      ensures TagUsable(cfg, t)
    {
      var i :| 0 <= i < |requested| && requested[i] == t;
    }
  }

  lemma UserSafe(cfg: Config, s: State, login: string)
    requires Ranked(cfg.policy.names, cfg.rank) && Safe(cfg, s)
    ensures var s' := ResolveUser(s, login).0;
            Safe(cfg, s') && s'.nodes == s.nodes && s'.pending == s.pending && s'.keys == s.keys
  {
    SafeIgnoresRest(cfg, s, ResolveUser(s, login).0);
  }

  /** A tag change leaves a safe node with the same key and addresses. */
  lemma TagChangeSafe(cfg: Config, s: State, n: DomainNode, login: Option<string>, requested: seq<string>)
    requires Ranked(cfg.policy.names, cfg.rank) && Safe(cfg, s) && NodeSafe(cfg, n)
    ensures var (s', outcome) := ApplyRequestTags(cfg, s, n, login, requested);
            && Safe(cfg, s') && s'.nodes == s.nodes && s'.keys == s.keys
            && (outcome.TagsChanged? ==>
                  NodeSafe(cfg, outcome.node) && outcome.node.nodeKey == n.nodeKey && outcome.node.addresses == n.addresses)
  {
    var want := SortTexts(requested);
    if want == [] {
      if login.Some? {
        UserSafe(cfg, s, login.value);
      }
    } else if UnauthorizedTags(TagRules(cfg), cfg.rank, login, want) == [] {
      AuthorizedTagsUsable(cfg, login, want);
    }
  }

  // ---------------------------------------------------------------------
  // Operation by operation.

  lemma ReadySafe(cfg: Config, s: State)
    requires Ranked(cfg.policy.names, cfg.rank) && Safe(cfg, s)
    ensures var r := EnsureDefaultUser(cfg, s);
            r.Some? ==> Safe(cfg, r.value) && Safe(cfg, EnsureBootstrapKey(cfg, r.value)) && r.value.nodes == s.nodes && r.value.keys == s.keys
  {
    var r := EnsureDefaultUser(cfg, s);
    if r.Some? {
      SafeIgnoresRest(cfg, s, r.value);
    }
  }

  lemma ConsumeSafe(cfg: Config, s: State, prefix: string)
    requires Ranked(cfg.policy.names, cfg.rank) && Safe(cfg, s)
    ensures Safe(cfg, Consume(s, prefix))
  {
  }

  lemma LogoutSafe(cfg: Config, s: State, n: DomainNode, keyExpired: bool)
    requires Ranked(cfg.policy.names, cfg.rank) && Safe(cfg, s) && n in s.nodes
    ensures Safe(cfg, LogoutNode(cfg, s, n, keyExpired).0)
  {
    if n.tags.None? {
      if n.ephemeral {
        DeleteSafe(cfg, s, n.nodeKey);
        var deleted := s.(nodes := Delete(s.nodes, n.nodeKey));
        SafeIgnoresRest(cfg, deleted, Publish(cfg, deleted, NodeRemoved(n.id)));
      } else {
        SameAddressesAdmissible(cfg, s, n, n.(machineAuthorized := false));
        SaveSafe(cfg, s, n.(machineAuthorized := false));
      }
    }
  }

  lemma ReloginSafe(cfg: Config, s: State, n: DomainNode, h: Option<Hostinfo>)
    requires Ranked(cfg.policy.names, cfg.rank) && Safe(cfg, s) && n in s.nodes
    ensures Safe(cfg, Relogin(cfg, s, n, h).0)
  {
    TagChangeSafe(cfg, s, n, OwnerLogin(s, n), RequestedTags(h));
    var (s', outcome) := ApplyRequestTags(cfg, s, n, OwnerLogin(s, n), RequestedTags(h));
    if outcome.TagsChanged? {
      SameAddressesAdmissible(cfg, s', n, outcome.node);
      SaveSafe(cfg, s', outcome.node);
    }
  }

  lemma InteractiveSafe(cfg: Config, s: State, machineKey: Key, req: RegisterRequest, now: Timestamp, chance: Chance)
    requires Ranked(cfg.policy.names, cfg.rank) && Safe(cfg, s)
    ensures Safe(cfg, StartInteractive(cfg, s, machineKey, req, now, chance).0)
  {
  }

  lemma KnownSafe(cfg: Config, s: State, n: DomainNode, machineKey: Key, req: RegisterRequest, now: Timestamp, chance: Chance)
    requires Ranked(cfg.policy.names, cfg.rank) && Safe(cfg, s) && n in s.nodes
    ensures Safe(cfg, RegisterKnown(cfg, s, n, machineKey, req, now, chance).0)
  {
    var key := ValidKey(s, req.auth, now);
    if n.machineKey != machineKey {
    } else if req.expiry.Some? && req.expiry.value < now {
      LogoutSafe(cfg, s, n, true);
    } else if req.expiry.Some? && req.expiry.value > now {
    } else if n.machineAuthorized {
      ReloginSafe(cfg, s, n, req.hostinfo);
    } else if key.Some? {
      var node := n.(machineAuthorized := true, tags := key.value.tags, ephemeral := key.value.ephemeral);
      SameAddressesAdmissible(cfg, s, n, node);
      SaveSafe(cfg, s, node);
      ConsumeSafe(cfg, SaveNode(cfg, s, node), req.auth.prefix);
    } else {
      InteractiveSafe(cfg, s, machineKey, req, now, chance);
    }
  }

  /** Registering with a pre-auth key: the new node is stored and the key is consumed. */
  lemma KeyedSafe(cfg: Config, s: State, machineKey: Key, req: RegisterRequest, now: Timestamp, chance: Chance)
    requires ConfigValid(cfg) && Safe(cfg, s) && ValidKey(s, req.auth, now).Some?
    ensures var k := ValidKey(s, req.auth, now).value;
            var node := NewNode(cfg, s, machineKey, req.nodeKey, req.hostinfo, req.version, k.userId, k.tags, k.ephemeral, now, chance);
            node.Some? ==> Safe(cfg, Consume(SaveNode(cfg, s, node.value), req.auth.prefix))
  {
    var k := ValidKey(s, req.auth, now).value;
    NewNodeAdmissible(cfg, s, machineKey, req.nodeKey, req.hostinfo, req.version, k.userId, k.tags, k.ephemeral, now, chance);
    var node := NewNode(cfg, s, machineKey, req.nodeKey, req.hostinfo, req.version, k.userId, k.tags, k.ephemeral, now, chance);
    if node.Some? {
      SaveSafe(cfg, s, node.value);
      ConsumeSafe(cfg, SaveNode(cfg, s, node.value), req.auth.prefix);
    }
  }

  lemma NewSafe(cfg: Config, s: State, machineKey: Key, req: RegisterRequest, now: Timestamp, chance: Chance)
    requires ConfigValid(cfg) && Safe(cfg, s)
    ensures Safe(cfg, RegisterNew(cfg, s, machineKey, req, now, chance).0)
  {
    if ValidKey(s, req.auth, now).Some? {
      KeyedSafe(cfg, s, machineKey, req, now, chance);
    } else {
      InteractiveSafe(cfg, s, machineKey, req, now, chance);
    }
  }

  lemma DropSafe(cfg: Config, s: State, authId: string)
    requires Ranked(cfg.policy.names, cfg.rank) && Safe(cfg, s)
    ensures Safe(cfg, DropPending(s, authId))
  {
  }

  lemma EnrollSafe(cfg: Config, s: State, machineKey: Key, e: Pending, userId: int, tags: Option<seq<string>>, now: Timestamp,
                   chance: Chance)
    requires ConfigValid(cfg) && Safe(cfg, s) && TagsUsable(cfg, OptTags(tags))
    ensures Safe(cfg, Enroll(cfg, s, machineKey, e, userId, tags, now, chance).0)
  {
    NewNodeAdmissible(cfg, s, machineKey, e.nodeKey, e.hostinfo, e.version, userId, tags, e.ephemeral, now, chance);
    var node := NewNode(cfg, s, machineKey, e.nodeKey, e.hostinfo, e.version, userId, tags, e.ephemeral, now, chance);
    if node.Some? {
      SaveSafe(cfg, s, node.value);
    }
  }

  lemma FollowupSafe(cfg: Config, s: State, machineKey: Key, authId: string, now: Timestamp, chance: Chance)
    requires ConfigValid(cfg) && Safe(cfg, s)
    ensures Safe(cfg, PollFollowup(cfg, s, machineKey, authId, now, chance).0)
  {
    DropSafe(cfg, s, authId);
    if authId in s.pending && s.pending[authId].verdict.Approved? {
      var e := s.pending[authId];
      EnrollSafe(cfg, DropPending(s, authId), machineKey, e, e.verdict.userId, e.verdict.tags, now, chance);
    }
  }

  lemma RegisterSafe(cfg: Config, s: State, machineKey: Key, req: RegisterRequest, now: Timestamp, chance: Chance)
    requires ConfigValid(cfg) && Safe(cfg, s)
    ensures Safe(cfg, Register(cfg, s, machineKey, req, now, chance).0)
  {
    ReadySafe(cfg, s);
    var ready := EnsureDefaultUser(cfg, s);
    if ready.Some? {
      var s' := EnsureBootstrapKey(cfg, ready.value);
      match req.followup
      case BadFollowup =>
      case FollowupOf(authId) => FollowupSafe(cfg, s', machineKey, authId, now, chance);
      case NoFollowup =>
        var i := IndexOfKey(s'.nodes, req.nodeKey);
        if i.Some? {
          KnownSafe(cfg, s', s'.nodes[i.value], machineKey, req, now, chance);
        } else {
          NewSafe(cfg, s', machineKey, req, now, chance);
        }
    }
  }

  lemma ApproveSafe(cfg: Config, s: State, authId: string, login: string, now: Timestamp)
    requires Ranked(cfg.policy.names, cfg.rank) && Safe(cfg, s)
    ensures Safe(cfg, ApprovePending(cfg, s, authId, login, now).0)
  {
    DropSafe(cfg, s, authId);
    UserSafe(cfg, s, login);
    if authId in s.pending {
      var requested := RequestedTags(s.pending[authId].hostinfo);
      if UnauthorizedTags(TagRules(cfg), cfg.rank, Some(login), requested) == [] {
        AuthorizedTagsUsable(cfg, Some(login), requested);
      }
    }
  }

  lemma CreateKeySafe(cfg: Config, s: State, prefix: string, secret: string, reusable: bool, ephemeral: bool,
      expiration: Option<Timestamp>, tags: Option<seq<string>>)
    requires Ranked(cfg.policy.names, cfg.rank) && Safe(cfg, s)
    ensures Safe(cfg, CreateKey(cfg, s, prefix, secret, reusable, ephemeral, expiration, tags).0)
  {
    ReadySafe(cfg, s);
    if tags.Some? && UnauthorizedTags(TagRules(cfg), cfg.rank, Some(cfg.userLogin), tags.value) == [] {
      AuthorizedTagsUsable(cfg, Some(cfg.userLogin), tags.value);
    }
  }

  lemma ApproveRouteSafe(cfg: Config, s: State, nodeKey: Key, route: Option<Cidr>)
    requires Ranked(cfg.policy.names, cfg.rank) && Safe(cfg, s)
    ensures Safe(cfg, ApproveRoute(cfg, s, nodeKey, route).0)
  {
    var i := IndexOfKey(s.nodes, nodeKey);
    if i.Some? && route.Some? {
      var n, r := s.nodes[i.value], Net.Canonical(route.value);
      assert n in s.nodes;
      CanonicalValid(route.value);
      SortDedupOrdered(n.approvedRoutes + [r]);
      var more := n.(approvedRoutes := SortDedup(n.approvedRoutes + [r]));
      SameAddressesAdmissible(cfg, s, n, more);
      SaveSafe(cfg, s, more);
    }
  }

  lemma DisapproveRouteSafe(cfg: Config, s: State, nodeKey: Key, route: Option<Cidr>)
    requires Ranked(cfg.policy.names, cfg.rank) && Safe(cfg, s)
    ensures Safe(cfg, DisapproveRoute(cfg, s, nodeKey, route).0)
  {
    var i := IndexOfKey(s.nodes, nodeKey);
    if i.Some? && route.Some? {
      var n, r := s.nodes[i.value], Net.Canonical(route.value);
      assert n in s.nodes;
      WithoutOrdered(n.approvedRoutes, r);
      var fewer := n.(approvedRoutes := Without(n.approvedRoutes, r));
      SameAddressesAdmissible(cfg, s, n, fewer);
      SaveSafe(cfg, s, fewer);
    }
  }

  lemma {:induction false} WithoutOrdered(rs: seq<Cidr>, r: Cidr)
    requires InOrder(rs)
    ensures InOrder(Without(rs, r))
    decreases |rs|
  {
    if rs != [] {
      var front, last := rs[..|rs| - 1], rs[|rs| - 1];
      WithoutOrdered(front, r);
      var rest := Without(front, r);
      forall i | 0 <= i < |rest|
        ensures Less(rest[i], last)
      {
        assert rest[i] in rest;
        var j :| 0 <= j < |front| && front[j] == rest[i];
        assert rs[j] == rest[i];
      }
    }
  }

  lemma ObservedSafe(cfg: Config, n: DomainNode, req: MapRequest, now: Timestamp)
    requires Ranked(cfg.policy.names, cfg.rank) && NodeSafe(cfg, n)
    ensures var seen := Observed(n, req, now);
            NodeSafe(cfg, seen) && seen.nodeKey == n.nodeKey && seen.addresses == n.addresses
  {
    AdvertisedOk(req.hostinfo);
  }

  lemma MapSafe(cfg: Config, s: State, machineKey: Key, req: MapRequest, now: Timestamp)
    requires Ranked(cfg.policy.names, cfg.rank) && Safe(cfg, s)
    ensures Safe(cfg, HandleMap(cfg, s, machineKey, req, now).0)
  {
    MapStoredSafe(cfg, s, machineKey, req, now);
    MapStoresOnly(cfg, s, machineKey, req, now);
    SafeIgnoresRest(cfg, MapStored(cfg, s, machineKey, req, now).0, HandleMap(cfg, s, machineKey, req, now).0);
  }

  /** Opening the session and answering leave the stored nodes, keys and pending registrations alone. */
  lemma MapStoresOnly(cfg: Config, s: State, machineKey: Key, req: MapRequest, now: Timestamp)
    requires Ranked(cfg.policy.names, cfg.rank)
    ensures var stored, end := MapStored(cfg, s, machineKey, req, now).0, HandleMap(cfg, s, machineKey, req, now).0;
            end.nodes == stored.nodes && end.keys == stored.keys && end.pending == stored.pending
  {
    HandleMapSplits(cfg, s, machineKey, req, now);
  }

  lemma MapStoredSafe(cfg: Config, s: State, machineKey: Key, req: MapRequest, now: Timestamp)
    requires Ranked(cfg.policy.names, cfg.rank) && Safe(cfg, s)
    ensures Safe(cfg, MapStored(cfg, s, machineKey, req, now).0)
  {
    var i := IndexOfKey(s.nodes, req.nodeKey);
    if i.Some? {
      MapKnownSafe(cfg, s, i.value, req, now);
    }
  }

  lemma AfterTagsSafe(cfg: Config, s: State, n: DomainNode, req: MapRequest)
    requires Ranked(cfg.policy.names, cfg.rank) && Safe(cfg, s) && NodeSafe(cfg, n)
    ensures var (s', outcome) := AfterTags(cfg, s, n, req);
            && Safe(cfg, s') && s'.nodes == s.nodes && s'.keys == s.keys
            && (outcome.TagsChanged? ==>
                  NodeSafe(cfg, outcome.node) && outcome.node.nodeKey == n.nodeKey && outcome.node.addresses == n.addresses)
  {
    TagChangeSafe(cfg, s, n, OwnerLogin(s, n), RequestedTags(req.hostinfo));
  }

  lemma ObserveSafe(cfg: Config, s: State, before: DomainNode, node: DomainNode)
    requires Ranked(cfg.policy.names, cfg.rank) && Safe(cfg, s) && before in s.nodes && NodeSafe(cfg, node)
    requires node.nodeKey == before.nodeKey && node.addresses == before.addresses
    ensures Safe(cfg, Observe(cfg, s, before, node))
  {
    SameAddressesAdmissible(cfg, s, before, node);
    UpsertSafe(cfg, s, node);
    SafeIgnoresRest(cfg, s.(nodes := Upsert(s.nodes, node)), Observe(cfg, s, before, node));
  }

  lemma MapKnownSafe(cfg: Config, s: State, i: nat, req: MapRequest, now: Timestamp)
    requires Ranked(cfg.policy.names, cfg.rank) && Safe(cfg, s) && i < |s.nodes|
    ensures Safe(cfg, MapKnown(cfg, s, i, req, now).0)
  {
    var before := s.nodes[i];
    ObservedSafe(cfg, before, req, now);
    var seen := Observed(before, req, now);
    AfterTagsSafe(cfg, s, seen, req);
    var (s', outcome) := AfterTags(cfg, s, seen, req);
    if outcome.TagsKept? {
      ObserveSafe(cfg, s', before, seen);
    } else if outcome.TagsChanged? {
      ObserveSafe(cfg, s', before, outcome.node);
    }
  }

  lemma {:induction false} ReapEventsSafe(cfg: Config, s: State, evs: seq<Sessions.SessionEvent>)
    requires Ranked(cfg.policy.names, cfg.rank) && Safe(cfg, s)
    ensures Safe(cfg, ReapEvents(cfg, s, evs))
    decreases |evs|
  {
    if evs != [] {
      ReapEventsSafe(cfg, s, evs[..|evs| - 1]);
      var mid, e := ReapEvents(cfg, s, evs[..|evs| - 1]), evs[|evs| - 1];
      if e.EphemeralExpired? {
        var i := IndexOfId(mid.nodes, e.node);
        if i.Some? {
          DeleteSafe(cfg, mid, mid.nodes[i.value].nodeKey);
        }
        SafeIgnoresRest(cfg, mid.(nodes := DeleteById(mid.nodes, e.node)), ReapEvent(cfg, mid, e));
      } else {
        SafeIgnoresRest(cfg, mid, ReapEvent(cfg, mid, e));
      }
    }
  }

  /** What a client or the clock asks for. */
  predicate IsClientOp(op: Op) {
    op.OpRegister? || op.OpLogout? || op.OpMap? || op.OpClose? || op.OpReap?
  }

  lemma ClientOpSafe(cfg: Config, s: State, op: Op)
    requires ConfigValid(cfg) && Safe(cfg, s) && IsClientOp(op)
    ensures Safe(cfg, NextState(cfg, s, op))
  {
    if op.OpRegister? {
      RegisterSafe(cfg, s, op.machineKey, op.register, op.now, op.chance);
    } else if op.OpLogout? {
      LogoutOpSafe(cfg, s, op.machineKey, op.nodeKey);
    } else if op.OpMap? {
      MapSafe(cfg, s, op.machineKey, op.map_, op.now);
    } else if op.OpClose? {
      SafeIgnoresRest(cfg, s, CloseSession(cfg, s, op.sid, op.now));
    } else {
      ReapSafe(cfg, s, op.now, op.order);
    }
  }

  lemma ReapSafe(cfg: Config, s: State, now: Timestamp, order: seq<int>)
    requires Ranked(cfg.policy.names, cfg.rank) && Safe(cfg, s)
    ensures Safe(cfg, Reap(cfg, s, now, order))
  {
    var ticked := s.(reg := Sessions.Tick(s.reg, now));
    SafeIgnoresRest(cfg, s, ticked);
    ReapEventsSafe(cfg, ticked, Sessions.TickEvents(s.reg.nodes, now, order));
  }

  lemma LogoutOpSafe(cfg: Config, s: State, machineKey: Key, nodeKey: Key)
    requires Ranked(cfg.policy.names, cfg.rank) && Safe(cfg, s)
    ensures Safe(cfg, Logout(cfg, s, machineKey, nodeKey).0)
  {
    var i := IndexOfKey(s.nodes, nodeKey);
    if i.Some? {
      LogoutSafe(cfg, s, s.nodes[i.value], false);
    }
  }

  lemma AdminOpSafe(cfg: Config, s: State, op: Op)
    requires ConfigValid(cfg) && Safe(cfg, s) && !IsClientOp(op)
    ensures Safe(cfg, NextState(cfg, s, op))
  {
    if op.OpApprove? {
      ApproveSafe(cfg, s, op.authId, op.login, op.now);
    } else if op.OpReject? {
      DropSafe(cfg, s, op.authId);
    } else if op.OpCreateKey? {
      CreateKeySafe(cfg, s, op.prefix, op.secret, op.reusable, op.ephemeral, op.expiration, op.tags);
    } else if op.OpApproveRoute? || op.OpDisapproveRoute? {
      ApproveRouteSafe(cfg, s, op.nodeKey, op.route);
      DisapproveRouteSafe(cfg, s, op.nodeKey, op.route);
    } else if op.OpFlush? {
      SafeIgnoresRest(cfg, s, s.(bus := Flushed(s.bus)));
    } else if op.OpAnnounce? {
      SafeIgnoresRest(cfg, s, Publish(cfg, s, op.event));
    }
  }

  /** Every operation keeps addresses apart, routes canonical and tags owned. */
  lemma OpSafe(cfg: Config, s: State, op: Op)
    requires ConfigValid(cfg) && Safe(cfg, s)
    ensures Safe(cfg, NextState(cfg, s, op))
  {
    if IsClientOp(op) {
      ClientOpSafe(cfg, s, op);
    } else {
      AdminOpSafe(cfg, s, op);
    }
  }

  /** The states of a run of control-plane operations. */
  ghost predicate IsHistory(cfg: Config, ss: seq<State>, ops: seq<Op>)
    requires Ranked(cfg.policy.names, cfg.rank)
  {
    && |ss| == |ops| + 1
    && ss[0] == START.s
    && forall k :: 0 <= k < |ops| ==> ss[k + 1] == NextState(cfg, ss[k], ops[k])
  }

  /**
   * Over every run: all stored addresses are hosts of the configured prefixes and pairwise distinct,
   * both route lists are canonical, and every tag on a node, a key or an approved registration is one
   * that some user may use.
   */
  lemma {:induction false} EveryHistorySafe(cfg: Config, ss: seq<State>, ops: seq<Op>)
    requires ConfigValid(cfg) && IsHistory(cfg, ss, ops)
    ensures Safe(cfg, ss[|ops|])
    decreases |ops|
  {
    if ops != [] {
      var k := |ops| - 1;
      EveryHistorySafe(cfg, ss[..k + 1], ops[..k]);
      OpSafe(cfg, ss[k], ops[k]);
    }
  }

  // ---------------------------------------------------------------------
  // Single-use keys.

  predicate AuthorizedKey(t: Table, key: Key) {
    IndexOfKey(t, key).Some? && t[IndexOfKey(t, key).value].machineAuthorized
  }

  /** A registration in which a node key goes from not authorized to authorized without a followup. */
  ghost predicate Gains(cfg: Config, s: State, op: Op)
    requires Ranked(cfg.policy.names, cfg.rank)
  {
    && op.OpRegister? && op.register.followup.NoFollowup?
    && !AuthorizedKey(s.nodes, op.register.nodeKey)
    && AuthorizedKey(NextState(cfg, s, op).nodes, op.register.nodeKey)
  }

  predicate Spent(s: State, prefix: string) {
    prefix in s.keys && !s.keys[prefix].reusable && s.keys[prefix].used
  }

  /** Keys are never removed, never change kind, and are never unspent. */
  ghost predicate KeysKept(s: State, s': State) {
    forall p :: p in s.keys ==>
      p in s'.keys && s'.keys[p].reusable == s.keys[p].reusable && (s.keys[p].used ==> s'.keys[p].used)
  }

  lemma SameKeysKept(s: State, s': State)
    requires s'.keys == s.keys
    ensures KeysKept(s, s')
  {
  }

  lemma ReadyKeys(cfg: Config, s: State)
    ensures var r := EnsureDefaultUser(cfg, s);
            r.Some? ==> r.value.keys == s.keys && r.value.nodes == s.nodes && KeysKept(s, EnsureBootstrapKey(cfg, r.value)) &&
                        EnsureBootstrapKey(cfg, r.value).nodes == s.nodes
  {
  }

  lemma ConsumeKeys(s: State, prefix: string)
    ensures KeysKept(s, Consume(s, prefix)) && Consume(s, prefix).nodes == s.nodes
    ensures prefix in s.keys ==> Consume(s, prefix).keys[prefix].reusable || Consume(s, prefix).keys[prefix].used
  {
  }

  lemma TagChangeKeys(cfg: Config, s: State, n: DomainNode, login: Option<string>, requested: seq<string>)
    requires Ranked(cfg.policy.names, cfg.rank)
    ensures ApplyRequestTags(cfg, s, n, login, requested).0.keys == s.keys
  {
  }

  lemma LogoutKeys(cfg: Config, s: State, n: DomainNode, keyExpired: bool)
    ensures LogoutNode(cfg, s, n, keyExpired).0.keys == s.keys
  {
  }

  lemma ReloginKeys(cfg: Config, s: State, n: DomainNode, h: Option<Hostinfo>)
    requires Ranked(cfg.policy.names, cfg.rank)
    ensures Relogin(cfg, s, n, h).0.keys == s.keys
  {
    TagChangeKeys(cfg, s, n, OwnerLogin(s, n), RequestedTags(h));
  }

  lemma KnownKeys(cfg: Config, s: State, n: DomainNode, machineKey: Key, req: RegisterRequest, now: Timestamp, chance: Chance)
    requires Ranked(cfg.policy.names, cfg.rank)
    ensures KeysKept(s, RegisterKnown(cfg, s, n, machineKey, req, now, chance).0)
    ensures n.machineAuthorized ==> RegisterKnown(cfg, s, n, machineKey, req, now, chance).0.keys == s.keys
  {
    if n.machineKey != machineKey {
    } else if req.expiry.Some? && req.expiry.value < now {
      LogoutKeys(cfg, s, n, true);
    } else if req.expiry.Some? && req.expiry.value > now {
    } else if n.machineAuthorized {
      ReloginKeys(cfg, s, n, req.hostinfo);
    } else {
      var key := ValidKey(s, req.auth, now);
      if key.Some? {
        var node := n.(machineAuthorized := true, tags := key.value.tags, ephemeral := key.value.ephemeral);
        ConsumeKeys(SaveNode(cfg, s, node), req.auth.prefix);
      }
    }
  }

  lemma NewKeys(cfg: Config, s: State, machineKey: Key, req: RegisterRequest, now: Timestamp, chance: Chance)
    ensures KeysKept(s, RegisterNew(cfg, s, machineKey, req, now, chance).0)
  {
    var key := ValidKey(s, req.auth, now);
    if key.Some? {
      var k := key.value;
      var node := NewNode(cfg, s, machineKey, req.nodeKey, req.hostinfo, req.version, k.userId, k.tags, k.ephemeral, now, chance);
      if node.Some? {
        ConsumeKeys(SaveNode(cfg, s, node.value), req.auth.prefix);
      }
    }
  }

  lemma RegisterKeys(cfg: Config, s: State, machineKey: Key, req: RegisterRequest, now: Timestamp, chance: Chance)
    requires Ranked(cfg.policy.names, cfg.rank)
    ensures KeysKept(s, Register(cfg, s, machineKey, req, now, chance).0)
  {
    ReadyKeys(cfg, s);
    var ready := EnsureDefaultUser(cfg, s);
    if ready.Some? {
      var s' := EnsureBootstrapKey(cfg, ready.value);
      var i := IndexOfKey(s'.nodes, req.nodeKey);
      if req.followup.FollowupOf? {
        PollKeys(cfg, s', machineKey, req.followup.authId, now, chance);
      } else if req.followup.NoFollowup? {
        if i.Some? {
          KnownKeys(cfg, s', s'.nodes[i.value], machineKey, req, now, chance);
        } else {
          NewKeys(cfg, s', machineKey, req, now, chance);
        }
      }
    }
  }

  lemma PollKeys(cfg: Config, s: State, machineKey: Key, authId: string, now: Timestamp, chance: Chance)
    ensures PollFollowup(cfg, s, machineKey, authId, now, chance).0.keys == s.keys
  {
  }

  lemma {:induction false} ReapKeys(cfg: Config, s: State, evs: seq<Sessions.SessionEvent>)
    ensures ReapEvents(cfg, s, evs).keys == s.keys
    decreases |evs|
  {
    if evs != [] {
      ReapKeys(cfg, s, evs[..|evs| - 1]);
    }
  }

  lemma MapKnownKeys(cfg: Config, s: State, i: nat, req: MapRequest, now: Timestamp)
    requires Ranked(cfg.policy.names, cfg.rank) && i < |s.nodes|
    ensures MapKnown(cfg, s, i, req, now).0.keys == s.keys
  {
    var seen := Observed(s.nodes[i], req, now);
    TagChangeKeys(cfg, s, seen, OwnerLogin(s, seen), RequestedTags(req.hostinfo));
  }

  lemma MapStoredKeys(cfg: Config, s: State, machineKey: Key, req: MapRequest, now: Timestamp)
    requires Ranked(cfg.policy.names, cfg.rank)
    ensures MapStored(cfg, s, machineKey, req, now).0.keys == s.keys
  {
    var i := IndexOfKey(s.nodes, req.nodeKey);
    if i.Some? {
      MapKnownKeys(cfg, s, i.value, req, now);
    }
  }

  lemma MapKeys(cfg: Config, s: State, machineKey: Key, req: MapRequest, now: Timestamp)
    requires Ranked(cfg.policy.names, cfg.rank)
    ensures HandleMap(cfg, s, machineKey, req, now).0.keys == s.keys
  {
    HandleMapSplits(cfg, s, machineKey, req, now);
    MapStoredKeys(cfg, s, machineKey, req, now);
  }

  lemma RouteKeys(cfg: Config, s: State, nodeKey: Key, route: Option<Cidr>)
    ensures ApproveRoute(cfg, s, nodeKey, route).0.keys == s.keys
    ensures DisapproveRoute(cfg, s, nodeKey, route).0.keys == s.keys
  {
  }

  lemma ClientOpKeys(cfg: Config, s: State, op: Op)
    requires Ranked(cfg.policy.names, cfg.rank) && IsClientOp(op)
    ensures KeysKept(s, NextState(cfg, s, op))
  {
    if op.OpRegister? {
      RegisterKeys(cfg, s, op.machineKey, op.register, op.now, op.chance);
    } else if op.OpLogout? {
      var i := IndexOfKey(s.nodes, op.nodeKey);
      if i.Some? {
        LogoutKeys(cfg, s, s.nodes[i.value], false);
      }
    } else if op.OpMap? {
      MapKeys(cfg, s, op.machineKey, op.map_, op.now);
    } else if op.OpReap? {
      ReapKeys(cfg, s.(reg := Sessions.Tick(s.reg, op.now)), Sessions.TickEvents(s.reg.nodes, op.now, op.order));
    }
  }

  lemma AdminOpKeys(cfg: Config, s: State, op: Op)
    requires Ranked(cfg.policy.names, cfg.rank) && !IsClientOp(op)
    ensures KeysKept(s, NextState(cfg, s, op))
  {
    if op.OpApprove? {
      SameKeysKept(s, ApprovePending(cfg, s, op.authId, op.login, op.now).0);
    } else if op.OpReject? {
      SameKeysKept(s, RejectPending(s, op.authId, op.now).0);
    } else if op.OpCreateKey? {
      CreateKeeps(cfg, s, op.prefix, op.secret, op.reusable, op.ephemeral, op.expiration, op.tags);
    } else if op.OpRevokeKey? {
      RevokeKeeps(s, op.prefix);
    } else if op.OpApproveRoute? || op.OpDisapproveRoute? {
      RouteKeys(cfg, s, op.nodeKey, op.route);
    }
  }

  lemma CreateKeeps(cfg: Config, s: State, prefix: string, secret: string, reusable: bool, ephemeral: bool,
                    expiration: Option<Timestamp>, tags: Option<seq<string>>)
    requires Ranked(cfg.policy.names, cfg.rank)
    ensures KeysKept(s, CreateKey(cfg, s, prefix, secret, reusable, ephemeral, expiration, tags).0)
  {
    ReadyKeys(cfg, s);
  }

  lemma RevokeKeeps(s: State, prefix: string)
    ensures KeysKept(s, RevokeKey(s, prefix).0)
  {
  }

  lemma OpKeys(cfg: Config, s: State, op: Op)
    requires Ranked(cfg.policy.names, cfg.rank)
    ensures KeysKept(s, NextState(cfg, s, op))
  {
    if IsClientOp(op) {
      ClientOpKeys(cfg, s, op);
    } else {
      AdminOpKeys(cfg, s, op);
    }
  }

  /** Authorization gained without a followup comes from a key that was usable then and is spent after. */
  lemma GainSpendsKey(cfg: Config, s: State, op: Op)
    requires Ranked(cfg.policy.names, cfg.rank) && TableValid(s.nodes) && Gains(cfg, s, op)
    ensures op.register.auth.AuthKey? && EnsureDefaultUser(cfg, s).Some?
    ensures ValidKey(EnsureBootstrapKey(cfg, EnsureDefaultUser(cfg, s).value), op.register.auth, op.now).Some?
    ensures var p, s' := op.register.auth.prefix, NextState(cfg, s, op);
            && !Spent(s, p)
            && p in s'.keys && (s'.keys[p].reusable || s'.keys[p].used)
  {
    var req := op.register;
    ReadyKeys(cfg, s);
    var s1 := EnsureBootstrapKey(cfg, EnsureDefaultUser(cfg, s).value);
    var i := IndexOfKey(s1.nodes, req.nodeKey);
    if i.Some? {
      GainKnown(cfg, s1, i.value, op.machineKey, req, op.now, op.chance);
    } else {
      GainNew(cfg, s1, op.machineKey, req, op.now, op.chance);
    }
  }

  lemma GainKnown(cfg: Config, s: State, i: nat, machineKey: Key, req: RegisterRequest, now: Timestamp, chance: Chance)
    requires Ranked(cfg.policy.names, cfg.rank) && TableValid(s.nodes)
    requires IndexOfKey(s.nodes, req.nodeKey) == Some(i) && !s.nodes[i].machineAuthorized
    requires AuthorizedKey(RegisterKnown(cfg, s, s.nodes[i], machineKey, req, now, chance).0.nodes, req.nodeKey)
    ensures var s' := RegisterKnown(cfg, s, s.nodes[i], machineKey, req, now, chance).0;
            && ValidKey(s, req.auth, now).Some?
            && req.auth.prefix in s'.keys && (s'.keys[req.auth.prefix].reusable || s'.keys[req.auth.prefix].used)
  {
    var n, key := s.nodes[i], ValidKey(s, req.auth, now);
    if n.machineKey == machineKey && req.expiry.Some? && req.expiry.value < now {
      LogoutStaysOut(cfg, s, i, true);
    }
    if key.Some? {
      var node := n.(machineAuthorized := true, tags := key.value.tags, ephemeral := key.value.ephemeral);
      ConsumeKeys(SaveNode(cfg, s, node), req.auth.prefix);
    }
  }

  lemma LogoutStaysOut(cfg: Config, s: State, i: nat, keyExpired: bool)
    requires TableValid(s.nodes) && i < |s.nodes| && !s.nodes[i].machineAuthorized
    ensures !AuthorizedKey(LogoutNode(cfg, s, s.nodes[i], keyExpired).0.nodes, s.nodes[i].nodeKey)
  {
    var n := s.nodes[i];
    var t := Delete(s.nodes, n.nodeKey);
    OwnRow(s.nodes, n, n.nodeKey);
    if n.tags.None? && n.ephemeral {
      assert forall j :: 0 <= j < |t| ==> t[j].nodeKey != n.nodeKey;
    } else if n.tags.None? {
      var u := Upsert(s.nodes, n.(machineAuthorized := false));
      UpsertKeepsValid(s.nodes, n.(machineAuthorized := false));
      assert u[i].nodeKey == n.nodeKey && !u[i].machineAuthorized;
    }
  }

  lemma GainNew(cfg: Config, s: State, machineKey: Key, req: RegisterRequest, now: Timestamp, chance: Chance)
    requires IndexOfKey(s.nodes, req.nodeKey).None?
    requires AuthorizedKey(RegisterNew(cfg, s, machineKey, req, now, chance).0.nodes, req.nodeKey)
    ensures var s' := RegisterNew(cfg, s, machineKey, req, now, chance).0;
            && ValidKey(s, req.auth, now).Some?
            && req.auth.prefix in s'.keys && (s'.keys[req.auth.prefix].reusable || s'.keys[req.auth.prefix].used)
  {
    var key := ValidKey(s, req.auth, now);
    if key.Some? {
      var k := key.value;
      var node := NewNode(cfg, s, machineKey, req.nodeKey, req.hostinfo, req.version, k.userId, k.tags, k.ephemeral, now, chance);
      if node.Some? {
        ConsumeKeys(SaveNode(cfg, s, node.value), req.auth.prefix);
      }
    }
  }

  lemma StepKeepsKeys(cfg: Config, ss: seq<State>, ops: seq<Op>, k: nat)
    requires Ranked(cfg.policy.names, cfg.rank) && IsHistory(cfg, ss, ops) && k < |ops|
    ensures KeysKept(ss[k], ss[k + 1])
  {
    OpKeys(cfg, ss[k], ops[k]);
  }

  ghost predicate AllKept(ss: seq<State>) {
    forall k :: 0 < k < |ss| ==> KeysKept(ss[k - 1], ss[k])
  }

  /** Along states that keep their keys, a spent key stays spent. */
  lemma {:induction false} SpentAlong(ss: seq<State>, j: nat, k: nat, prefix: string)
    requires AllKept(ss) && j <= k < |ss| && Spent(ss[j], prefix)
    ensures Spent(ss[k], prefix)
    decreases k - j
  {
    if j < k {
      SpentAlong(ss, j, k - 1, prefix);
      assert KeysKept(ss[k - 1], ss[k]);
    }
  }

  lemma SpentStaysSpent(cfg: Config, ss: seq<State>, ops: seq<Op>, j: nat, k: nat, prefix: string)
    requires Ranked(cfg.policy.names, cfg.rank) && IsHistory(cfg, ss, ops) && j <= k <= |ops| && Spent(ss[j], prefix)
    ensures Spent(ss[k], prefix)
  {
    forall i | 0 < i < |ss|
      ensures KeysKept(ss[i - 1], ss[i])
    {
      StepKeepsKeys(cfg, ss, ops, i - 1);
    }
    SpentAlong(ss, j, k, prefix);
  }

  lemma SafeAlong(cfg: Config, ss: seq<State>, ops: seq<Op>, k: nat)
    requires ConfigValid(cfg) && IsHistory(cfg, ss, ops) && k <= |ops|
    ensures Safe(cfg, ss[k])
  {
    EveryHistorySafe(cfg, ss[..k + 1], ops[..k]);
  }

  ghost predicate GainsWith(cfg: Config, s: State, op: Op, prefix: string)
    requires Ranked(cfg.policy.names, cfg.rank)
  {
    Gains(cfg, s, op) && op.register.auth.AuthKey? && op.register.auth.prefix == prefix
  }

  /** Around a gain: the key it used was not spent before, and is reusable or spent after. */
  lemma GainAlong(cfg: Config, ss: seq<State>, ops: seq<Op>, k: nat, prefix: string)
    requires ConfigValid(cfg) && IsHistory(cfg, ss, ops) && k < |ops| && GainsWith(cfg, ss[k], ops[k], prefix)
    ensures !Spent(ss[k], prefix)
    ensures prefix in ss[k + 1].keys && (ss[k + 1].keys[prefix].reusable || Spent(ss[k + 1], prefix))
  {
    SafeAlong(cfg, ss, ops, k);
    GainSpendsKey(cfg, ss[k], ops[k]);
  }

  lemma SpentBetween(cfg: Config, ss: seq<State>, ops: seq<Op>, j: nat, k: nat, prefix: string)
    requires Ranked(cfg.policy.names, cfg.rank) && IsHistory(cfg, ss, ops) && j < k <= |ops|
    requires prefix in ss[j + 1].keys && (ss[j + 1].keys[prefix].reusable || Spent(ss[j + 1], prefix)) && !Spent(ss[k], prefix)
    ensures ss[j + 1].keys[prefix].reusable
  {
    if Spent(ss[j + 1], prefix) {
      SpentStaysSpent(cfg, ss, ops, j + 1, k, prefix);
    }
  }

  /**
   * Over every run, a non-reusable pre-auth key authorizes at most one registration or re-authorization:
   * two operations that gain authorization with the same key mean that the key is reusable.
   */
  lemma SingleUse(cfg: Config, ss: seq<State>, ops: seq<Op>, j: nat, k: nat, prefix: string)
    requires ConfigValid(cfg) && IsHistory(cfg, ss, ops) && j < k < |ops|
    requires GainsWith(cfg, ss[j], ops[j], prefix) && GainsWith(cfg, ss[k], ops[k], prefix)
    ensures prefix in ss[j + 1].keys && ss[j + 1].keys[prefix].reusable
  {
    GainAlong(cfg, ss, ops, j, prefix);
    GainAlong(cfg, ss, ops, k, prefix);
    SpentBetween(cfg, ss, ops, j, k, prefix);
  }

  /** Relogin of an authorized node consumes no key. */
  lemma ReloginConsumesNothing(cfg: Config, s: State, op: Op)
    requires Ranked(cfg.policy.names, cfg.rank) && op.OpRegister? && op.register.followup.NoFollowup?
    requires AuthorizedKey(s.nodes, op.register.nodeKey) && EnsureDefaultUser(cfg, s).Some?
    ensures NextState(cfg, s, op).keys == EnsureBootstrapKey(cfg, EnsureDefaultUser(cfg, s).value).keys
  {
    ReadyKeys(cfg, s);
    var s1 := EnsureBootstrapKey(cfg, EnsureDefaultUser(cfg, s).value);
    var i := IndexOfKey(s1.nodes, op.register.nodeKey).value;
    KnownKeys(cfg, s1, s1.nodes[i], op.machineKey, op.register, op.now, op.chance);
  }

  // ---------------------------------------------------------------------
  // End to end: who a client is shown.

  lemma CompiledRowHosts(cfg: Config, s: State, i: nat)
    requires ConfigValid(cfg) && Safe(cfg, s) && i < |s.nodes|
    ensures s.nodes[i].addresses != [] && forall a :: a in s.nodes[i].addresses ==> a.bits == Width(a.v6)
  {
    assert s.nodes[i] in s.nodes;
  }

  lemma CompiledRowsApart(s: State, i: nat, j: nat, a: Cidr, b: Cidr)
    requires DistinctAddresses(s.nodes) && i < |s.nodes| && j < |s.nodes|
    requires a in s.nodes[i].addresses && b in s.nodes[j].addresses && a.v6 == b.v6 && a.addr == b.addr
    ensures i == j
  {
    assert SharesAddress(s.nodes[i], s.nodes[j]);
    if i != j {
      RowsApart(s.nodes, i, j);
    }
  }

  lemma CompiledRowsDistinct(cfg: Config, s: State)
    requires ConfigValid(cfg) && Safe(cfg, s)
    ensures Compile.UniqueIds(CompileNodes(s.users, s.nodes))
    ensures Compile.HostAddresses(CompileNodes(s.users, s.nodes))
  {
    CompiledAddresses(cfg, s);
  }

  lemma CompiledAddresses(cfg: Config, s: State)
    requires ConfigValid(cfg) && Safe(cfg, s)
    ensures Compile.HostAddresses(CompileNodes(s.users, s.nodes))
  {
    var cs := CompileNodes(s.users, s.nodes);
    forall n | n in cs
      ensures n.addresses != [] && forall a :: a in n.addresses ==> a.bits == Width(a.v6)
    {
      var i :| 0 <= i < |cs| && cs[i] == n;
      CompiledRowHosts(cfg, s, i);
    }
    forall n, m, a, b | n in cs && m in cs && a in n.addresses && b in m.addresses && a.v6 == b.v6 && a.addr == b.addr
      ensures n == m
    {
      var i :| 0 <= i < |cs| && cs[i] == n;
      var j :| 0 <= j < |cs| && cs[j] == m;
      CompiledRowsApart(s, i, j, a, b);
    }
  }

  /**
   * In every safe state a client is shown a peer exactly when the peer is authorized and a compiled
   * network rule of one of the two nodes covers an address of the other.
   */
  lemma ShownIffFiltersCover(cfg: Config, s: State, i: nat, j: nat, version: nat)
    requires ConfigValid(cfg) && Good(s) && Safe(cfg, s) && i < |s.nodes| && j < |s.nodes| && i != j
    ensures var nodes := CompileNodes(s.users, s.nodes);
            s.nodes[j].id in View(cfg, s, s.nodes[i].id, version) <==>
            s.nodes[j].machineAuthorized &&
            (Compile.FilterCovers(cfg.policy, nodes, nodes[i], nodes[j]) || Compile.FilterCovers(cfg.policy, nodes, nodes[j], nodes[i]))
  {
    var nodes := CompileNodes(s.users, s.nodes);
    CompiledRowsDistinct(cfg, s);
    assert nodes[i] in nodes && nodes[j] in nodes;
    Compile.VisibilityIsFilterCover(cfg.policy, nodes, nodes[i], nodes[j]);
    ViewIsVisiblePeers(cfg, s, i, j, version);
  }

  /** In every safe state a peer's wire list, read by any client, is its addresses and effective routes. */
  lemma PeerRoutesRecovered(cfg: Config, s: State, i: nat, online: bool, version: nat, c: Cidr)
    requires ConfigValid(cfg) && Safe(cfg, s) && i < |s.nodes|
    ensures var n := s.nodes[i];
            var w := PeerNode(cfg, s.users, n, online, version);
            c in ClientReads(w.addresses, w.allowedIps) <==>
            c in n.addresses ||
            (c in n.advertisedRoutes && (c in n.approvedRoutes ||
              exists k :: 0 <= k < |cfg.approvers| && Approves(cfg.policy.names, cfg.rank, cfg.approvers[k], CompileNodeOf(s.users, n), c)))
  {
    var n := s.nodes[i];
    assert n in s.nodes;
    var cn := CompileNodeOf(s.users, n);
    var routes := EffectiveRoutes(cfg.policy.names, cfg.rank, cfg.approvers, cn, n.approvedRoutes, n.advertisedRoutes);
    EffectiveAreAdvertised(cfg.policy.names, cfg.rank, cfg.approvers, cn, n.approvedRoutes, n.advertisedRoutes, c);
    ClientRecoversRoutes(version, n.addresses, n.allowedIps, routes, c);
  }
}
