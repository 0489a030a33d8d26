/** Cache coherence of live map sessions over whole runs of the control plane. */
module Coherence {
  import opened Ordered
  import opened Net
  import opened Groups
  import opened Store
  import opened Events
  import opened Delta
  import opened Plane
  import Compile
  import Sessions
  import Routes

  // ---------------------------------------------------------------------
  // What every control-plane operation keeps and owes.

  /** Every user id in use names a user, and new user ids are unused. */
  ghost predicate UsersKnown(s: State) {
    && (forall n :: n in s.nodes && n.userId.Some? ==> n.userId.value in s.users)
    && (forall k :: k in s.keys ==> s.keys[k].userId in s.users)
    && (forall a :: a in s.pending && s.pending[a].verdict.Approved? ==> s.pending[a].verdict.userId in s.users)
    && (forall u :: u in s.users ==> u < s.nextUser)
  }

  ghost predicate AllSeen(t: Table) {
    forall n :: n in t ==> n.lastSeen.Some?
  }

  ghost predicate Good(s: State) {
    TableValid(s.nodes) && AllSeen(s.nodes) && UsersKnown(s) && NodesValid(s.bus.acc.nodes) && Sessions.Valid(s.reg)
  }

  /** A rescan is pending or sits in an undelivered batch. */
  ghost predicate Owed(bus: Bus, cursor: nat) {
    RescanPending(bus.acc) || exists k :: cursor <= k < |bus.sent| && NeedsPeerRescan(bus.sent[k])
  }

  /** Nothing any session could see has changed. */
  ghost predicate Quiet(s: State, s': State) {
    && s'.nodes == s.nodes
    && (forall u :: u in s.users ==> u in s'.users && s'.users[u] == s.users[u])
    && (forall id :: Sessions.IsOnline(s'.reg, id) == Sessions.IsOnline(s.reg, id))
  }

  ghost predicate Keeps(bus: Bus, bus': Bus) {
    && |bus.sent| <= |bus'.sent|
    && bus'.sent[..|bus.sent|] == bus.sent
    && (forall c: nat :: c <= |bus.sent| && Owed(bus, c) ==> Owed(bus', c))
  }

  /** The log only grows, no owed rescan is forgotten, and a visible change owes one to every session. */
  ghost predicate Advances(s: State, s': State) {
    Keeps(s.bus, s'.bus) && (Quiet(s, s') || Owed(s'.bus, |s.bus.sent|))
  }

  lemma KeepsTrans(a: Bus, b: Bus, c: Bus)
    requires Keeps(a, b) && Keeps(b, c)
    ensures Keeps(a, c)
  {
    assert c.sent[..|a.sent|] == c.sent[..|b.sent|][..|a.sent|];
  }

  lemma OwedEarlier(bus: Bus, c: nat, d: nat)
    requires c <= d && Owed(bus, d)
    ensures Owed(bus, c)
  {
  }

  lemma AdvancesTrans(a: State, b: State, c: State)
    requires Advances(a, b) && Advances(b, c)
    ensures Advances(a, c)
  {
    KeepsTrans(a.bus, b.bus, c.bus);
    if !Quiet(b, c) {
      OwedEarlier(c.bus, |a.bus.sent|, |b.bus.sent|);
    } else if !Quiet(a, b) {
      assert Owed(c.bus, |a.bus.sent|);
    }
  }

  lemma QuietAdvances(s: State, s': State)
    requires Quiet(s, s') && s'.bus == s.bus
    ensures Advances(s, s')
  {
    assert s.bus.sent[..|s.bus.sent|] == s.bus.sent;
  }

  lemma FlushKeeps(bus: Bus)
    requires NodesValid(bus.acc.nodes)
    ensures Keeps(bus, Flushed(bus)) && NodesValid(Flushed(bus).acc.nodes)
    ensures RescanPending(bus.acc) ==> Owed(Flushed(bus), |bus.sent|)
  {
    var b := Drained(bus.acc);
    DrainKeepsRescan(bus.acc);
    var bus' := Flushed(bus);
    assert bus'.sent[..|bus.sent|] == bus.sent;
    if RescanPending(bus.acc) {
      assert b != [];
      assert bus'.sent[|bus.sent|] == b;
      assert Owed(bus', |bus.sent|);
    }
    forall c: nat | c <= |bus.sent| && Owed(bus, c)
      ensures Owed(bus', c)
    {
      if RescanPending(bus.acc) {
        OwedEarlier(bus', c, |bus.sent|);
      } else {
        var k :| c <= k < |bus.sent| && NeedsPeerRescan(bus.sent[k]);
        assert bus'.sent[k] == bus.sent[k];
      }
    }
  }

  lemma ApplyRaisesRescan(a: Acc, e: ChangeEvent)
    ensures RescanPending(a) || Rescans(e) ==> RescanPending(Apply(a, e))
  {
    if IsNodeEvent(e) {
      assert e.id in Apply(a, e).nodes;
    } else if a.nodes != map[] {
      assert Apply(a, e).nodes == a.nodes;
    }
  }

  /** Publishing keeps what is owed, and publishing a rescan event owes a rescan to every session. */
  lemma PublishKeeps(max: nat, bus: Bus, e: ChangeEvent)
    requires NodesValid(bus.acc.nodes)
    ensures Keeps(bus, Published(max, bus, e)) && NodesValid(Published(max, bus, e).acc.nodes)
    ensures Rescans(e) ==> Owed(Published(max, bus, e), |bus.sent|)
  {
    var next := bus.(acc := Apply(bus.acc, e));
    ApplyKeepsValid(bus.acc, e);
    ApplyRaisesRescan(bus.acc, e);
    assert Keeps(bus, next) by {
      assert next.sent[..|bus.sent|] == bus.sent;
      forall c: nat | c <= |bus.sent| && Owed(bus, c)
        ensures Owed(next, c)
      {
        if !RescanPending(bus.acc) {
          var k :| c <= k < |bus.sent| && NeedsPeerRescan(bus.sent[k]);
          assert NeedsPeerRescan(next.sent[k]);
        }
      }
    }
    FlushKeeps(next);
    if Count(next.acc) >= max {
      KeepsTrans(bus, next, Flushed(next));
    }
  }

  /** Any change of nodes, users or sessions that is followed by a rescan event is owed. */
  lemma ChangeThenPublish(cfg: Config, s: State, s': State, e: ChangeEvent)
    requires Good(s') && s'.bus == s.bus && Rescans(e)
    ensures Good(Publish(cfg, s', e)) && Advances(s, Publish(cfg, s', e))
  {
    PublishKeeps(cfg.maxEvents, s.bus, e);
  }

  lemma PublishAny(cfg: Config, s: State, e: ChangeEvent)
    requires Good(s)
    ensures Good(Publish(cfg, s, e)) && Advances(s, Publish(cfg, s, e))
  {
    PublishKeeps(cfg.maxEvents, s.bus, e);
  }

  lemma UpsertGood(s: State, n: DomainNode)
    requires Good(s) && n.lastSeen.Some? && (n.userId.Some? ==> n.userId.value in s.users)
    ensures Good(s.(nodes := Upsert(s.nodes, n)))
  {
    UpsertKeepsValid(s.nodes, n);
    forall x | x in Upsert(s.nodes, n)
      ensures x.lastSeen.Some? && (x.userId.Some? ==> x.userId.value in s.users)
    {
      UpsertRows(s.nodes, n, x);
    }
  }

  lemma DeleteGood(s: State, key: Key)
    requires Good(s)
    ensures Good(s.(nodes := Delete(s.nodes, key)))
  {
    DeleteKeepsValid(s.nodes, key);
    forall x | x in Delete(s.nodes, key)
      ensures x in s.nodes
    {
      DeleteRows(s.nodes, key, x);
    }
  }

  lemma SaveAdvances(cfg: Config, s: State, n: DomainNode)
    requires Good(s) && n.lastSeen.Some? && (n.userId.Some? ==> n.userId.value in s.users)
    ensures Good(SaveNode(cfg, s, n)) && Advances(s, SaveNode(cfg, s, n))
  {
    UpsertGood(s, n);
    ChangeThenPublish(cfg, s, s.(nodes := Upsert(s.nodes, n)), NodeChanged(UpsertId(s.nodes, n)));
  }

  // ---------------------------------------------------------------------
  // Operation by operation.

  lemma DefaultUserAdvances(cfg: Config, s: State)
    requires Good(s)
    ensures var r := EnsureDefaultUser(cfg, s);
            r.Some? ==> Good(r.value) && Advances(s, r.value) && cfg.userId in r.value.users && r.value.nodes == s.nodes
  {
    var r := EnsureDefaultUser(cfg, s);
    if r.Some? {
      QuietAdvances(s, r.value);
    }
  }

  lemma BootstrapAdvances(cfg: Config, s: State)
    requires Good(s) && cfg.userId in s.users
    ensures Good(EnsureBootstrapKey(cfg, s)) && Advances(s, EnsureBootstrapKey(cfg, s))
  {
    QuietAdvances(s, EnsureBootstrapKey(cfg, s));
  }

  lemma ResolveUserAdvances(s: State, login: string)
    requires Good(s)
    ensures var (s', id) := ResolveUser(s, login);
            && Good(s') && Advances(s, s') && id in s'.users && s'.pending == s.pending && s'.nodes == s.nodes
            && (forall u :: u in s.users ==> u in s'.users)
  {
    var (s', id) := ResolveUser(s, login);
    QuietAdvances(s, s');
  }

  ghost predicate Storable(s: State, n: DomainNode) {
    n.lastSeen.Some? && (n.userId.Some? ==> n.userId.value in s.users)
  }

  lemma TagsAdvance(cfg: Config, s: State, n: DomainNode, login: Option<string>, requested: seq<string>)
    requires Ranked(cfg.policy.names, cfg.rank) && Good(s) && Storable(s, n)
    ensures var (s', outcome) := ApplyRequestTags(cfg, s, n, login, requested);
            && Good(s') && Advances(s, s') && s'.nodes == s.nodes && Storable(s', n)
            && (outcome.TagsChanged? ==> Storable(s', outcome.node) && outcome.node.nodeKey == n.nodeKey && outcome.node.id == n.id)
  {
    QuietAdvances(s, s);
    if login.Some? {
      ResolveUserAdvances(s, login.value);
    }
  }

  lemma InteractiveAdvances(cfg: Config, s: State, machineKey: Key, req: RegisterRequest, now: Timestamp, chance: Chance)
    requires Good(s)
    ensures var s' := StartInteractive(cfg, s, machineKey, req, now, chance).0;
            Good(s') && Advances(s, s')
  {
    QuietAdvances(s, StartInteractive(cfg, s, machineKey, req, now, chance).0);
  }

  lemma ConsumeAdvances(s: State, prefix: string)
    requires Good(s)
    ensures Good(Consume(s, prefix)) && Advances(s, Consume(s, prefix))
  {
    QuietAdvances(s, Consume(s, prefix));
  }

  lemma RowOf(s: State, i: nat)
    requires Good(s) && i < |s.nodes|
    ensures Storable(s, s.nodes[i])
  {
    assert s.nodes[i] in s.nodes;
  }

  lemma LogoutAdvances(cfg: Config, s: State, n: DomainNode, keyExpired: bool)
    requires Good(s) && Storable(s, n)
    ensures var s' := LogoutNode(cfg, s, n, keyExpired).0;
            Good(s') && Advances(s, s')
  {
    QuietAdvances(s, s);
    if n.ephemeral {
      DeleteGood(s, n.nodeKey);
      ChangeThenPublish(cfg, s, s.(nodes := Delete(s.nodes, n.nodeKey)), NodeRemoved(n.id));
    } else {
      SaveAdvances(cfg, s, n.(machineAuthorized := false));
    }
  }

  lemma ReloginAdvances(cfg: Config, s: State, n: DomainNode, h: Option<Hostinfo>)
    requires Ranked(cfg.policy.names, cfg.rank) && Good(s) && Storable(s, n)
    ensures var s' := Relogin(cfg, s, n, h).0;
            Good(s') && Advances(s, s')
  {
    TagsAdvance(cfg, s, n, OwnerLogin(s, n), RequestedTags(h));
    var (s', outcome) := ApplyRequestTags(cfg, s, n, OwnerLogin(s, n), RequestedTags(h));
    if outcome.TagsChanged? {
      SaveAdvances(cfg, s', outcome.node);
      AdvancesTrans(s, s', SaveNode(cfg, s', outcome.node));
    }
  }

  lemma SaveConsumeAdvances(cfg: Config, s: State, n: DomainNode, prefix: string)
    requires Good(s) && Storable(s, n)
    ensures var s' := Consume(SaveNode(cfg, s, n), prefix);
            Good(s') && Advances(s, s')
  {
    var saved := SaveNode(cfg, s, n);
    SaveAdvances(cfg, s, n);
    ConsumeAdvances(saved, prefix);
    AdvancesTrans(s, saved, Consume(saved, prefix));
  }

  lemma KnownAdvances(cfg: Config, s: State, n: DomainNode, machineKey: Key, req: RegisterRequest, now: Timestamp, chance: Chance)
    requires Ranked(cfg.policy.names, cfg.rank) && Good(s) && Storable(s, n)
    ensures var s' := RegisterKnown(cfg, s, n, machineKey, req, now, chance).0;
            Good(s') && Advances(s, s')
  {
    if n.machineKey != machineKey {
      QuietAdvances(s, s);
    } else if req.expiry.Some? && req.expiry.value < now {
      LogoutAdvances(cfg, s, n, true);
    } else if req.expiry.Some? && req.expiry.value > now {
      QuietAdvances(s, s);
    } else if n.machineAuthorized {
      ReloginAdvances(cfg, s, n, req.hostinfo);
    } else {
      var key := ValidKey(s, req.auth, now);
      if key.Some? {
        SaveConsumeAdvances(cfg, s, n.(machineAuthorized := true, tags := key.value.tags, ephemeral := key.value.ephemeral), req.auth.prefix);
      } else {
        InteractiveAdvances(cfg, s, machineKey, req, now, chance);
      }
    }
  }

  lemma NewNodeStorable(cfg: Config, s: State, machineKey: Key, nodeKey: Key, h: Option<Hostinfo>, version: nat,
                        userId: int, tags: Option<seq<string>>, ephemeral: bool, now: Timestamp, chance: Chance)
    requires userId in s.users
    ensures var node := NewNode(cfg, s, machineKey, nodeKey, h, version, userId, tags, ephemeral, now, chance);
            node.Some? ==> Storable(s, node.value)
  {
  }

  lemma NewAdvances(cfg: Config, s: State, machineKey: Key, req: RegisterRequest, now: Timestamp, chance: Chance)
    requires Good(s)
    ensures var s' := RegisterNew(cfg, s, machineKey, req, now, chance).0;
            Good(s') && Advances(s, s')
  {
    var key := ValidKey(s, req.auth, now);
    if key.None? {
      InteractiveAdvances(cfg, s, machineKey, req, now, chance);
      QuietAdvances(s, s);
    } else {
      NewWithKeyAdvances(cfg, s, machineKey, req, key.value, now, chance);
      QuietAdvances(s, s);
    }
  }

  lemma NewWithKeyAdvances(cfg: Config, s: State, machineKey: Key, req: RegisterRequest, k: PreAuthKey, now: Timestamp, chance: Chance)
    requires Good(s) && ValidKey(s, req.auth, now) == Some(k)
    ensures var node := NewNode(cfg, s, machineKey, req.nodeKey, req.hostinfo, req.version, k.userId, k.tags, k.ephemeral, now, chance);
            node.Some? ==>
              var s' := Consume(SaveNode(cfg, s, node.value), req.auth.prefix);
              Good(s') && Advances(s, s')
  {
    var node := NewNode(cfg, s, machineKey, req.nodeKey, req.hostinfo, req.version, k.userId, k.tags, k.ephemeral, now, chance);
    if node.Some? {
      NewNodeStorable(cfg, s, machineKey, req.nodeKey, req.hostinfo, req.version, k.userId, k.tags, k.ephemeral, now, chance);
      SaveConsumeAdvances(cfg, s, node.value, req.auth.prefix);
    }
  }

  lemma DropAdvances(s: State, authId: string)
    requires Good(s)
    ensures Good(DropPending(s, authId)) && Advances(s, DropPending(s, authId))
  {
    QuietAdvances(s, DropPending(s, authId));
  }

  lemma EnrollAdvances(cfg: Config, s: State, machineKey: Key, entry: Pending, userId: int, tags: Option<seq<string>>, now: Timestamp, chance: Chance)
    requires Good(s) && userId in s.users
    ensures var s' := Enroll(cfg, s, machineKey, entry, userId, tags, now, chance).0;
            Good(s') && Advances(s, s')
  {
    QuietAdvances(s, s);
    var node := NewNode(cfg, s, machineKey, entry.nodeKey, entry.hostinfo, entry.version, userId, tags, entry.ephemeral, now, chance);
    if node.Some? {
      SaveAdvances(cfg, s, node.value);
    }
  }

  lemma FollowupAdvances(cfg: Config, s: State, machineKey: Key, authId: string, now: Timestamp, chance: Chance)
    requires Good(s)
    ensures var s' := PollFollowup(cfg, s, machineKey, authId, now, chance).0;
            Good(s') && Advances(s, s')
  {
    QuietAdvances(s, s);
    var dropped := DropPending(s, authId);
    DropAdvances(s, authId);
    if authId in s.pending && s.pending[authId].verdict.Approved? {
      var entry := s.pending[authId];
      EnrollAdvances(cfg, dropped, machineKey, entry, entry.verdict.userId, entry.verdict.tags, now, chance);
      AdvancesTrans(s, dropped, Enroll(cfg, dropped, machineKey, entry, entry.verdict.userId, entry.verdict.tags, now, chance).0);
    }
  }

  lemma RegisterReadyAdvances(cfg: Config, s: State, machineKey: Key, req: RegisterRequest, now: Timestamp, chance: Chance)
    requires Ranked(cfg.policy.names, cfg.rank) && Good(s)
    ensures var i := IndexOfKey(s.nodes, req.nodeKey);
            var s' := (match req.followup
                       case BadFollowup => s
                       case FollowupOf(authId) => PollFollowup(cfg, s, machineKey, authId, now, chance).0
                       case NoFollowup =>
                         if i.Some? then RegisterKnown(cfg, s, s.nodes[i.value], machineKey, req, now, chance).0
                         else RegisterNew(cfg, s, machineKey, req, now, chance).0);
            Good(s') && Advances(s, s')
  {
    QuietAdvances(s, s);
    match req.followup
    case BadFollowup =>
    case FollowupOf(authId) => FollowupAdvances(cfg, s, machineKey, authId, now, chance);
    case NoFollowup =>
      var i := IndexOfKey(s.nodes, req.nodeKey);
      if i.Some? {
        RowOf(s, i.value);
        KnownAdvances(cfg, s, s.nodes[i.value], machineKey, req, now, chance);
      } else {
        NewAdvances(cfg, s, machineKey, req, now, chance);
      }
  }

  lemma RegisterAdvances(cfg: Config, s: State, machineKey: Key, req: RegisterRequest, now: Timestamp, chance: Chance)
    requires Ranked(cfg.policy.names, cfg.rank) && Good(s)
    ensures var s' := Register(cfg, s, machineKey, req, now, chance).0;
            Good(s') && Advances(s, s')
  {
    var ready := EnsureDefaultUser(cfg, s);
    DefaultUserAdvances(cfg, s);
    QuietAdvances(s, s);
    if ready.Some? {
      var s1 := EnsureBootstrapKey(cfg, ready.value);
      BootstrapAdvances(cfg, ready.value);
      AdvancesTrans(s, ready.value, s1);
      RegisterReadyAdvances(cfg, s1, machineKey, req, now, chance);
      AdvancesTrans(s, s1, Register(cfg, s, machineKey, req, now, chance).0);
    }
  }

  lemma ApproveAdvances(cfg: Config, s: State, authId: string, login: string, now: Timestamp)
    requires Ranked(cfg.policy.names, cfg.rank) && Good(s)
    ensures var s' := ApprovePending(cfg, s, authId, login, now).0;
            Good(s') && Advances(s, s')
  {
    QuietAdvances(s, s);
    DropAdvances(s, authId);
    ResolveUserAdvances(s, login);
    var s1 := ResolveUser(s, login).0;
    var s2 := ApprovePending(cfg, s, authId, login, now).0;
    if s2 != s && s2 != DropPending(s, authId) && s2 != s1 {
      QuietAdvances(s1, s2);
      AdvancesTrans(s, s1, s2);
    }
  }

  lemma PutKeyAdvances(s: State, prefix: string, key: PreAuthKey)
    requires Good(s) && key.userId in s.users
    ensures Good(s.(keys := s.keys[prefix := key])) && Advances(s, s.(keys := s.keys[prefix := key]))
  {
    QuietAdvances(s, s.(keys := s.keys[prefix := key]));
  }

  lemma RejectAdvances(s: State, authId: string, now: Timestamp)
    requires Good(s)
    ensures var s' := RejectPending(s, authId, now).0;
            Good(s') && Advances(s, s')
  {
    QuietAdvances(s, RejectPending(s, authId, now).0);
  }

  lemma RevokeAdvances(s: State, prefix: string)
    requires Good(s)
    ensures Good(RevokeKey(s, prefix).0) && Advances(s, RevokeKey(s, prefix).0)
  {
    QuietAdvances(s, s);
    if prefix in s.keys {
      PutKeyAdvances(s, prefix, s.keys[prefix].(revoked := true));
    }
  }

  lemma CreateKeyAdvances(cfg: Config, s: State, prefix: string, secret: string, reusable: bool, ephemeral: bool,
      expiration: Option<Timestamp>, tags: Option<seq<string>>)
    requires Ranked(cfg.policy.names, cfg.rank) && Good(s)
    ensures var s' := CreateKey(cfg, s, prefix, secret, reusable, ephemeral, expiration, tags).0;
            Good(s') && Advances(s, s')
  {
    QuietAdvances(s, s);
    DefaultUserAdvances(cfg, s);
    var ready := EnsureDefaultUser(cfg, s);
    if ready.Some? {
      var key := PreAuthKey(secret, reusable, ephemeral, expiration, false, false, tags, cfg.userId);
      PutKeyAdvances(ready.value, prefix, key);
      AdvancesTrans(s, ready.value, ready.value.(keys := ready.value.keys[prefix := key]));
    }
  }

  lemma RouteAdvances(cfg: Config, s: State, nodeKey: Key, route: Option<Cidr>)
    requires Good(s)
    ensures var s' := ApproveRoute(cfg, s, nodeKey, route).0;
            Good(s') && Advances(s, s')
    ensures var s' := DisapproveRoute(cfg, s, nodeKey, route).0;
            Good(s') && Advances(s, s')
  {
    QuietAdvances(s, s);
    var i := IndexOfKey(s.nodes, nodeKey);
    if i.Some? && route.Some? {
      RowOf(s, i.value);
      var n, r := s.nodes[i.value], Net.Canonical(route.value);
      SaveAdvances(cfg, s, n.(approvedRoutes := Routes.SortDedup(n.approvedRoutes + [r])));
      SaveAdvances(cfg, s, n.(approvedRoutes := Without(n.approvedRoutes, r)));
    }
  }

  lemma ObserveAdvances(cfg: Config, s: State, before: DomainNode, node: DomainNode)
    requires Good(s) && Storable(s, node)
    ensures var s' := Observe(cfg, s, before, node);
            Good(s') && Advances(s, s')
  {
    UpsertGood(s, node);
    var stored := s.(nodes := Upsert(s.nodes, node));
    if node != before {
      ChangeThenPublish(cfg, s, stored, NodeChanged(node.id));
      var told := Publish(cfg, stored, NodeChanged(node.id));
      PublishAny(cfg, told, PeerSeen(node.id));
      AdvancesTrans(s, told, Publish(cfg, told, PeerSeen(node.id)));
    } else {
      ChangeThenPublish(cfg, s, stored, PeerSeen(node.id));
    }
  }

  /** Opening a session changes only its own node's online state, and then says so. */
  lemma OpenOnline(r: Sessions.Registry, n: int, ephemeral: bool, now: int)
    requires Sessions.Valid(r)
    ensures var (r', evs) := Sessions.Open(r, n, ephemeral, now);
            && (Sessions.Online(n) !in evs ==> Sessions.IsOnline(r, n) == Sessions.IsOnline(r', n))
            && (forall id :: id != n ==> Sessions.IsOnline(r', id) == Sessions.IsOnline(r, id))
  {
  }

  lemma OpenAdvances(cfg: Config, s: State, id: int, ephemeral: bool, now: Timestamp)
    requires Good(s)
    ensures var s' := OpenSession(cfg, s, id, ephemeral, now).0;
            Good(s') && Advances(s, s')
  {
    OpenOnline(s.reg, id, ephemeral, now);
    Sessions.OpenKeeps(s.reg, id, ephemeral, now);
    var (reg, evs) := Sessions.Open(s.reg, id, ephemeral, now);
    var live := s.(reg := reg);
    if Sessions.Online(id) in evs {
      ChangeThenPublish(cfg, s, live, OnlineChanged(id, true));
    } else {
      assert Quiet(s, live);
      QuietAdvances(s, live);
    }
  }

  lemma CloseAdvances(cfg: Config, s: State, sid: int, now: Timestamp)
    requires Good(s)
    ensures var s' := CloseSession(cfg, s, sid, now);
            Good(s') && Advances(s, s')
  {
    Sessions.CloseKeeps(cfg.graceSeconds, s.reg, sid, now);
    QuietAdvances(s, CloseSession(cfg, s, sid, now));
  }

  lemma ReapEventGood(cfg: Config, s: State, e: Sessions.SessionEvent)
    requires Good(s)
    ensures var s' := ReapEvent(cfg, s, e);
            && Good(s') && Keeps(s.bus, s'.bus) && (!e.Online? ==> Owed(s'.bus, |s.bus.sent|))
            && s'.reg == s.reg && s'.users == s.users && (!e.EphemeralExpired? ==> s'.nodes == s.nodes)
  {
    match e
    case Offline(id) => PublishKeeps(cfg.maxEvents, s.bus, OnlineChanged(id, false));
    case EphemeralExpired(id) =>
      var i := IndexOfId(s.nodes, id);
      if i.Some? {
        DeleteGood(s, s.nodes[i.value].nodeKey);
      }
      PublishKeeps(cfg.maxEvents, s.bus, NodeRemoved(id));
    case Online(_) => QuietAdvances(s, s);
  }

  lemma {:induction false} ReapEventsGood(cfg: Config, s: State, evs: seq<Sessions.SessionEvent>)
    requires Good(s) && forall e :: e in evs ==> !e.Online?
    ensures var s' := ReapEvents(cfg, s, evs);
            && Good(s') && Keeps(s.bus, s'.bus) && s'.reg == s.reg && s'.users == s.users
            && (evs != [] ==> Owed(s'.bus, |s.bus.sent|))
            && (evs == [] ==> s' == s)
    decreases |evs|
  {
    if evs == [] {
      QuietAdvances(s, s);
    } else {
      var front, e := evs[..|evs| - 1], evs[|evs| - 1];
      assert e in evs && forall x :: x in front ==> x in evs;
      ReapEventsGood(cfg, s, front);
      var mid := ReapEvents(cfg, s, front);
      ReapEventGood(cfg, mid, e);
      KeepsTrans(s.bus, mid.bus, ReapEvent(cfg, mid, e).bus);
      OwedEarlier(ReapEvent(cfg, mid, e).bus, |s.bus.sent|, |mid.bus.sent|);
    }
  }

  lemma QuietTick(r: Sessions.Registry, now: int, order: seq<int>)
    requires Sessions.Visits(order, r.nodes.Keys) && Sessions.TickEvents(r.nodes, now, order) == []
    ensures forall id :: Sessions.IsOnline(Sessions.Tick(r, now), id) == Sessions.IsOnline(r, id)
  {
    forall id
      ensures Sessions.IsOnline(Sessions.Tick(r, now), id) == Sessions.IsOnline(r, id)
    {
      Sessions.OwnTick(r.nodes, now, order, id);
    }
  }

  lemma ReapAdvances(cfg: Config, s: State, now: Timestamp, order: seq<int>)
    requires Good(s) && Sessions.Visits(order, s.reg.nodes.Keys)
    ensures var s' := Reap(cfg, s, now, order);
            Good(s') && Advances(s, s')
  {
    Sessions.TickKeeps(s.reg, now);
    var evs := Sessions.TickEvents(s.reg.nodes, now, order);
    var ticked := s.(reg := Sessions.Tick(s.reg, now));
    forall e | e in evs
      ensures !e.Online?
    {
      Sessions.TickEventsDue(s.reg.nodes, now, order, e);
    }
    ReapEventsGood(cfg, ticked, evs);
    if evs == [] {
      QuietTick(s.reg, now, order);
      QuietAdvances(s, ticked);
    }
  }

  lemma ObservedStorable(s: State, n: DomainNode, req: MapRequest, now: Timestamp)
    requires Storable(s, n)
    ensures var seen := Observed(n, req, now);
            Storable(s, seen) && seen.id == n.id && seen.nodeKey == n.nodeKey
  {
  }

  lemma AfterTagsAdvances(cfg: Config, s: State, n: DomainNode, req: MapRequest)
    requires Ranked(cfg.policy.names, cfg.rank) && Good(s) && Storable(s, n)
    ensures var (s', outcome) := AfterTags(cfg, s, n, req);
            && Good(s') && Advances(s, s') && s'.nodes == s.nodes && Storable(s', n)
            && (outcome.TagsChanged? ==> Storable(s', outcome.node) && outcome.node.nodeKey == n.nodeKey && outcome.node.id == n.id)
  {
    QuietAdvances(s, s);
    TagsAdvance(cfg, s, n, OwnerLogin(s, n), RequestedTags(req.hostinfo));
  }

  /** What a map request from a known node stores; nothing when its tag change is refused. */
  ghost function MapKnown(cfg: Config, s: State, i: nat, req: MapRequest, now: Timestamp): (State, Option<DomainNode>)
    requires Ranked(cfg.policy.names, cfg.rank) && i < |s.nodes|
  {
    var seen := Observed(s.nodes[i], req, now);
    var (s', outcome) := AfterTags(cfg, s, seen, req);
    if outcome.TagsFailed? then
      (s', None)
    else
      var node := if outcome.TagsChanged? then outcome.node else seen;
      (Observe(cfg, s', s.nodes[i], node), Some(node))
  }

  /** The state and node a map request leaves before it opens a session; nothing when it fails. */
  ghost function MapStored(cfg: Config, s: State, machineKey: Key, req: MapRequest, now: Timestamp): (State, Option<DomainNode>)
    requires Ranked(cfg.policy.names, cfg.rank)
  {
    var i := IndexOfKey(s.nodes, req.nodeKey);
    if req.version < MIN_SUPPORTED_CAPVER || |req.endpointTypes| != |req.endpoints| || i.None? || s.nodes[i.value].machineKey != machineKey then
      (s, None)
    else
      MapKnown(cfg, s, i.value, req, now)
  }

  lemma ObservedRow(s: State, before: DomainNode, i: nat, node: DomainNode)
    requires Good(s) && i < |s.nodes| && s.nodes[i] == before && node.nodeKey == before.nodeKey && node.id == before.id
    ensures IndexOfId(Upsert(s.nodes, node), node.id).Some?
  {
    assert Upsert(s.nodes, node)[i].id == node.id;
  }

  lemma ThenObserved(cfg: Config, s: State, s1: State, i: nat, node: DomainNode)
    requires Good(s) && Good(s1) && Advances(s, s1) && s1.nodes == s.nodes && i < |s.nodes|
    requires Storable(s1, node) && node.nodeKey == s.nodes[i].nodeKey && node.id == s.nodes[i].id
    ensures var s' := Observe(cfg, s1, s.nodes[i], node);
            Good(s') && Advances(s, s') && IndexOfId(s'.nodes, node.id).Some?
  {
    ObservedRow(s1, s.nodes[i], i, node);
    ObserveAdvances(cfg, s1, s.nodes[i], node);
    AdvancesTrans(s, s1, Observe(cfg, s1, s.nodes[i], node));
  }

  lemma MapKnownAdvances(cfg: Config, s: State, i: nat, req: MapRequest, now: Timestamp)
    requires Ranked(cfg.policy.names, cfg.rank) && Good(s) && i < |s.nodes|
    ensures var (s', node) := MapKnown(cfg, s, i, req, now);
            && Good(s') && Advances(s, s')
            && (node.Some? ==> IndexOfId(s'.nodes, node.value.id).Some?)
  {
    var before := s.nodes[i];
    RowOf(s, i);
    ObservedStorable(s, before, req, now);
    var seen := Observed(before, req, now);
    AfterTagsAdvances(cfg, s, seen, req);
    var (s1, outcome) := AfterTags(cfg, s, seen, req);
    if !outcome.TagsFailed? {
      var node := if outcome.TagsChanged? then outcome.node else seen;
      ThenObserved(cfg, s, s1, i, node);
    }
  }

  lemma MapStoredAdvances(cfg: Config, s: State, machineKey: Key, req: MapRequest, now: Timestamp)
    requires Ranked(cfg.policy.names, cfg.rank) && Good(s)
    ensures var (s', node) := MapStored(cfg, s, machineKey, req, now);
            && Good(s') && Advances(s, s')
            && (node.Some? ==> IndexOfId(s'.nodes, node.value.id).Some?)
  {
    QuietAdvances(s, s);
    var i := IndexOfKey(s.nodes, req.nodeKey);
    if i.Some? {
      MapKnownAdvances(cfg, s, i.value, req, now);
    }
  }

  /** A map request is that stored state, followed by an opened session when it streams. */
  lemma HandleMapSplits(cfg: Config, s: State, machineKey: Key, req: MapRequest, now: Timestamp)
    requires Ranked(cfg.policy.names, cfg.rank)
    ensures var (s', node) := MapStored(cfg, s, machineKey, req, now);
            var (end, outcome) := HandleMap(cfg, s, machineKey, req, now);
            && (node.None? ==> end == s' && outcome.MapFailed?)
            && (node.Some? && !req.stream ==> end == s' && (outcome.LiteUpdate? || outcome.FullFrame?))
            && (node.Some? && req.stream ==>
                  (end, outcome) == (OpenSession(cfg, s', node.value.id, node.value.ephemeral, now).0, Stream(s'.reg.next, node.value.id)))
  {
  }

  lemma MapAdvances(cfg: Config, s: State, machineKey: Key, req: MapRequest, now: Timestamp)
    requires Ranked(cfg.policy.names, cfg.rank) && Good(s)
    ensures var s' := HandleMap(cfg, s, machineKey, req, now).0;
            Good(s') && Advances(s, s')
  {
    HandleMapSplits(cfg, s, machineKey, req, now);
    MapStoredAdvances(cfg, s, machineKey, req, now);
    var (s', node) := MapStored(cfg, s, machineKey, req, now);
    if node.Some? && req.stream {
      OpenAdvances(cfg, s', node.value.id, node.value.ephemeral, now);
      AdvancesTrans(s, s', OpenSession(cfg, s', node.value.id, node.value.ephemeral, now).0);
    }
  }

  // ---------------------------------------------------------------------
  // Views.

  lemma SameCompiled(s: State, s': State)
    requires s'.nodes == s.nodes && forall n :: n in s.nodes ==> CompileNodeOf(s'.users, n) == CompileNodeOf(s.users, n)
    ensures CompileNodes(s'.users, s'.nodes) == CompileNodes(s.users, s.nodes)
  {
    forall k | 0 <= k < |s.nodes|
      ensures CompileNodes(s'.users, s'.nodes)[k] == CompileNodes(s.users, s.nodes)[k]
    {
      assert s.nodes[k] in s.nodes;
    }
  }

  /** A row that compiles the same is a peer as before and looks as before. */
  lemma PeerSame(cfg: Config, s: State, s': State, self: DomainNode, n: DomainNode, version: nat)
    requires Ranked(cfg.policy.names, cfg.rank) && s'.nodes == s.nodes
    requires CompileNodes(s'.users, s'.nodes) == CompileNodes(s.users, s.nodes)
    requires CompileNodeOf(s'.users, self) == CompileNodeOf(s.users, self) && CompileNodeOf(s'.users, n) == CompileNodeOf(s.users, n)
    ensures IsPeer(cfg, s'.users, s'.nodes, self, n) == IsPeer(cfg, s.users, s.nodes, self, n)
    ensures forall online :: PeerNode(cfg, s'.users, n, online, version) == PeerNode(cfg, s.users, n, online, version)
  {
  }

  lemma LastPeerSame(cfg: Config, s: State, s': State, self: DomainNode, version: nat, rows: Table)
    requires Ranked(cfg.policy.names, cfg.rank) && s'.nodes == s.nodes && rows != []
    requires CompileNodes(s'.users, s'.nodes) == CompileNodes(s.users, s.nodes)
    requires CompileNodeOf(s'.users, self) == CompileNodeOf(s.users, self)
    requires var front, n := rows[..|rows| - 1], rows[|rows| - 1];
             && CompileNodeOf(s'.users, n) == CompileNodeOf(s.users, n)
             && (n.nodeKey != self.nodeKey ==> Sessions.IsOnline(s'.reg, n.id) == Sessions.IsOnline(s.reg, n.id))
             && PeersAmong(cfg, s'.users, s'.nodes, s'.reg, self, version, front) == PeersAmong(cfg, s.users, s.nodes, s.reg, self, version, front)
    ensures PeersAmong(cfg, s'.users, s'.nodes, s'.reg, self, version, rows) == PeersAmong(cfg, s.users, s.nodes, s.reg, self, version, rows)
  {
    PeerSame(cfg, s, s', self, rows[|rows| - 1], version);
  }

  lemma {:induction false} PeersAmongSame(cfg: Config, s: State, s': State, self: DomainNode, version: nat, rows: Table)
    requires Ranked(cfg.policy.names, cfg.rank)
    requires s'.nodes == s.nodes && forall n :: n in s.nodes ==> CompileNodeOf(s'.users, n) == CompileNodeOf(s.users, n)
    requires CompileNodes(s'.users, s'.nodes) == CompileNodes(s.users, s.nodes)
    requires self in s.nodes && forall n :: n in rows ==> n in s.nodes
    requires forall n :: n in rows && n.nodeKey != self.nodeKey ==> Sessions.IsOnline(s'.reg, n.id) == Sessions.IsOnline(s.reg, n.id)
    ensures PeersAmong(cfg, s'.users, s'.nodes, s'.reg, self, version, rows) == PeersAmong(cfg, s.users, s.nodes, s.reg, self, version, rows)
    decreases |rows|
  {
    if rows != [] {
      var front, n := rows[..|rows| - 1], rows[|rows| - 1];
      assert rows == front + [n];
      PeersAmongSame(cfg, s, s', self, version, front);
      assert n in s.nodes;
      LastPeerSame(cfg, s, s', self, version, rows);
    }
  }

  lemma SameCompileNodes(s: State, s': State)
    requires UsersKnown(s) && s'.nodes == s.nodes
    requires forall u :: u in s.users ==> u in s'.users && s'.users[u] == s.users[u]
    ensures forall n :: n in s.nodes ==> CompileNodeOf(s'.users, n) == CompileNodeOf(s.users, n)
  {
    forall n | n in s.nodes
      ensures CompileNodeOf(s'.users, n) == CompileNodeOf(s.users, n)
    {
      if n.userId.Some? {
        var u := n.userId.value;
        assert u in s.users && u in s'.users && s'.users[u] == s.users[u];
      }
    }
  }

  /** Quiet steps change no view. */
  lemma QuietView(cfg: Config, s: State, s': State, id: int, version: nat)
    requires Ranked(cfg.policy.names, cfg.rank) && Good(s) && Quiet(s, s')
    ensures View(cfg, s', id, version) == View(cfg, s, id, version)
  {
    SameCompileNodes(s, s');
    var i := IndexOfId(s.nodes, id);
    if i.Some? {
      SameCompiled(s, s');
      PeersAmongSame(cfg, s, s', s.nodes[i.value], version, s.nodes);
    }
  }

  /** A node's own online state is not part of its own view. */
  lemma OwnOnlineView(cfg: Config, s: State, s': State, id: int, version: nat)
    requires Ranked(cfg.policy.names, cfg.rank) && Good(s) && s'.nodes == s.nodes && s'.users == s.users
    requires forall x :: x != id ==> Sessions.IsOnline(s'.reg, x) == Sessions.IsOnline(s.reg, x)
    ensures View(cfg, s', id, version) == View(cfg, s, id, version)
  {
    var i := IndexOfId(s.nodes, id);
    if i.Some? {
      forall n | n in s.nodes && n.nodeKey != s.nodes[i.value].nodeKey
        ensures n.id != id
      {
        var j :| 0 <= j < |s.nodes| && s.nodes[j] == n;
      }
      SameCompiled(s, s');
      PeersAmongSame(cfg, s, s', s.nodes[i.value], version, s.nodes);
    }
  }

  /** Peers that can always be patched: both optional fields are present. */
  ghost predicate Patchable(peers: map<int, WireNode>) {
    forall id :: id in peers ==> peers[id].online.Some? && peers[id].lastSeen.Some?
  }

  lemma PutPeer(v: Current, w: WireNode, e: Option<Timestamp>)
    requires Keyed(v) && Patchable(Nodes(v)) && w.online.Some? && w.lastSeen.Some?
    ensures Keyed(v[w.id := (w, e)]) && Patchable(Nodes(v[w.id := (w, e)]))
  {
    var v' := v[w.id := (w, e)];
    forall id | id in Nodes(v')
      ensures Nodes(v')[id].online.Some? && Nodes(v')[id].lastSeen.Some?
    {
      if id != w.id {
        assert Nodes(v')[id] == Nodes(v)[id];
      }
    }
  }

  lemma PeerNodeShape(cfg: Config, s: State, n: DomainNode, online: bool, version: nat)
    requires Ranked(cfg.policy.names, cfg.rank)
    ensures var w := PeerNode(cfg, s.users, n, online, version);
            w.id == n.id && w.online == Some(online) && w.lastSeen == n.lastSeen
  {
  }

  lemma {:induction false} PeersAmongKeyed(cfg: Config, s: State, self: DomainNode, version: nat, rows: Table)
    requires Ranked(cfg.policy.names, cfg.rank) && AllSeen(rows)
    ensures var v := PeersAmong(cfg, s.users, s.nodes, s.reg, self, version, rows);
            Keyed(v) && Patchable(Nodes(v))
    decreases |rows|
  {
    if rows != [] {
      var front, n := rows[..|rows| - 1], rows[|rows| - 1];
      assert n in rows && forall x :: x in front ==> x in rows;
      PeersAmongKeyed(cfg, s, self, version, front);
      var online := Sessions.IsOnline(s.reg, n.id);
      PeerNodeShape(cfg, s, n, online, version);
      PutPeer(PeersAmong(cfg, s.users, s.nodes, s.reg, self, version, front), PeerNode(cfg, s.users, n, online, version), n.keyExpiry);
    }
  }

  lemma ViewKeyed(cfg: Config, s: State, id: int, version: nat)
    requires Ranked(cfg.policy.names, cfg.rank) && Good(s)
    ensures Keyed(View(cfg, s, id, version)) && Patchable(Nodes(View(cfg, s, id, version)))
  {
    var i := IndexOfId(s.nodes, id);
    if i.Some? {
      PeersAmongKeyed(cfg, s, s.nodes[i.value], version, s.nodes);
    }
  }

  lemma PatchableNeverClears(t: Tracking, next: Current)
    requires Patchable(Nodes(next))
    ensures NothingCleared(t, next)
  {
    forall id | id in t.peers && id in next
      ensures !Clears(t.peers[id], next[id].0)
    {
      assert Nodes(next)[id] == next[id].0;
    }
  }

  // ---------------------------------------------------------------------
  // The whole system: the control plane, its live streams and their clients.

  /** Batches a subscriber may fall behind before it loses the oldest. */
  const CHANNEL_CAPACITY: nat := 256

  /**
   * A live stream: what it tracks as sent, what its client holds, its place in the batch log, and whether it lost a
   * batch that may have asked for a rescan. It subscribes only after its first frame; until then its place is the end
   * of the log at the time its map was built.
   */
  datatype Live = Live(
    nodeId: int,
    version: nat,
    tracking: Tracking,
    client: map<int, WireNode>,
    cursor: nat,
    lagged: bool,
    subscribed: bool)

  datatype World = World(s: State, live: map<int, Live>)

  datatype Op =
    | OpRegister(machineKey: Key, register: RegisterRequest, now: Timestamp, chance: Chance)
    | OpApprove(authId: string, login: string, now: Timestamp)
    | OpReject(authId: string, now: Timestamp)
    | OpCreateKey(prefix: string, secret: string, reusable: bool, ephemeral: bool, expiration: Option<Timestamp>, tags: Option<seq<string>>)
    | OpRevokeKey(prefix: string)
    | OpLogout(machineKey: Key, nodeKey: Key)
    | OpApproveRoute(nodeKey: Key, route: Option<Cidr>)
    | OpDisapproveRoute(nodeKey: Key, route: Option<Cidr>)
    | OpMap(machineKey: Key, map_: MapRequest, now: Timestamp)
    | OpClose(sid: int, now: Timestamp)
    | OpReap(now: Timestamp, order: seq<int>)
    | OpFlush
    | OpAnnounce(event: ChangeEvent)
    | OpSubscribe(sid: int)
    | OpDeliver(sid: int, dns: Option<string>, derpMap: string, selfUpdate: string)

  /** A sweep visits every tracked node once. */
  ghost predicate Possible(s: State, op: Op) {
    op.OpReap? ==> Sessions.Visits(op.order, s.reg.nodes.Keys)
  }

  ghost function NextState(cfg: Config, s: State, op: Op): State
    requires Ranked(cfg.policy.names, cfg.rank)
  {
    match op
    case OpRegister(machineKey, req, now, chance) => Register(cfg, s, machineKey, req, now, chance).0
    case OpApprove(authId, login, now) => ApprovePending(cfg, s, authId, login, now).0
    case OpReject(authId, now) => RejectPending(s, authId, now).0
    case OpCreateKey(prefix, secret, reusable, ephemeral, expiration, tags) =>
      CreateKey(cfg, s, prefix, secret, reusable, ephemeral, expiration, tags).0
    case OpRevokeKey(prefix) => RevokeKey(s, prefix).0
    case OpLogout(machineKey, nodeKey) => Logout(cfg, s, machineKey, nodeKey).0
    case OpApproveRoute(nodeKey, route) => ApproveRoute(cfg, s, nodeKey, route).0
    case OpDisapproveRoute(nodeKey, route) => DisapproveRoute(cfg, s, nodeKey, route).0
    case OpMap(machineKey, req, now) => HandleMap(cfg, s, machineKey, req, now).0
    case OpClose(sid, now) => CloseSession(cfg, s, sid, now)
    case OpReap(now, order) => Reap(cfg, s, now, order)
    case OpFlush => s.(bus := Flushed(s.bus))
    case OpAnnounce(event) => Publish(cfg, s, event)
    case OpSubscribe(_) => s
    case OpDeliver(_, _, _, _) => s
  }

  /** The initial map of a stream: the client holds the current peers, and so does the tracking. */
  ghost function StartStream(cfg: Config, stored: State, end: State, id: int, version: nat): Live
    requires Ranked(cfg.policy.names, cfg.rank)
  {
    var peers := PutAll(map[], InIdOrder(View(cfg, stored, id, version)));
    Live(id, version, Tracking(peers, map[]), peers, |end.bus.sent|, false, false)
  }

  /** A batch that asks for a rescan stands in the log from a place on. */
  ghost predicate RescanSent(bus: Bus, from: nat) {
    exists k :: from <= k < |bus.sent| && NeedsPeerRescan(bus.sent[k])
  }

  /** The stream joins the broadcast: it will get the batches from now on, not those sent since its map was built. */
  ghost function Joined(s: State, l: Live): Live {
    if l.subscribed then l
    else l.(subscribed := true, cursor := |s.bus.sent|, lagged := l.lagged || RescanSent(s.bus, l.cursor))
  }

  ghost function InputsFor(cfg: Config, s: State, l: Live, op: Op): Inputs
    requires Ranked(cfg.policy.names, cfg.rank) && op.OpDeliver?
  {
    var i := IndexOfId(s.nodes, l.nodeId);
    Inputs(i.Some?, View(cfg, s, l.nodeId, l.version),
           if i.Some? then VisibleIds(cfg, s.users, s.nodes, s.nodes[i.value]) else {},
           op.dns, op.derpMap, op.selfUpdate)
  }

  /** A stream takes its next batch, or learns that it fell too far behind. */
  ghost function Delivered(cfg: Config, s: State, l: Live, op: Op): Live
    requires Ranked(cfg.policy.names, cfg.rank) && op.OpDeliver?
  {
    if !l.subscribed then
      l
    else if |s.bus.sent| > l.cursor + CHANNEL_CAPACITY then
      l.(cursor := |s.bus.sent| - CHANNEL_CAPACITY, lagged := true)
    else if l.cursor >= |s.bus.sent| then
      l
    else
      var batch, inputs := s.bus.sent[l.cursor], InputsFor(cfg, s, l, op);
      var (built, tracking) := Build(batch, inputs, l.tracking);
      Live(l.nodeId, l.version, tracking, Received(l.client, built), l.cursor + 1,
           l.lagged && !(NeedsPeerRescan(batch) && inputs.selfFound), true)
  }

  ghost function NextLive(cfg: Config, w: World, op: Op): map<int, Live>
    requires Ranked(cfg.policy.names, cfg.rank)
  {
    match op
    case OpMap(machineKey, req, now) =>
      var (stored, node) := MapStored(cfg, w.s, machineKey, req, now);
      if node.Some? && req.stream then
        w.live[stored.reg.next := StartStream(cfg, stored, NextState(cfg, w.s, op), node.value.id, req.version)]
      else
        w.live
    case OpClose(sid, _) => w.live - {sid}
    case OpSubscribe(sid) => if sid in w.live then w.live[sid := Joined(w.s, w.live[sid])] else w.live
    case OpDeliver(sid, _, _, _) => if sid in w.live then w.live[sid := Delivered(cfg, w.s, w.live[sid], op)] else w.live
    case _ => w.live
  }

  ghost function Step(cfg: Config, w: World, op: Op): World
    requires Ranked(cfg.policy.names, cfg.rank)
  {
    World(NextState(cfg, w.s, op), NextLive(cfg, w, op))
  }

  const START := World(State([], map[], 1, map[], map[], Sessions.NEW, Bus(EMPTY, [])), map[])

  ghost predicate IsRun(cfg: Config, ws: seq<World>, ops: seq<Op>)
    requires Ranked(cfg.policy.names, cfg.rank)
  {
    && |ws| == |ops| + 1
    && ws[0] == START
    && forall k :: 0 <= k < |ops| ==> Possible(ws[k].s, ops[k]) && ws[k + 1] == Step(cfg, ws[k], ops[k])
  }

  /** The client is current, or a rescan is on its way to it. */
  ghost predicate Fresh(cfg: Config, s: State, l: Live)
    requires Ranked(cfg.policy.names, cfg.rank)
  {
    l.lagged || IndexOfId(s.nodes, l.nodeId).None? || Owed(s.bus, l.cursor) ||
    l.client == Nodes(View(cfg, s, l.nodeId, l.version))
  }

  ghost predicate StreamOk(cfg: Config, s: State, l: Live)
    requires Ranked(cfg.policy.names, cfg.rank)
  {
    && l.client == l.tracking.peers
    && KeyedPeers(l.tracking.peers)
    && l.cursor <= |s.bus.sent|
    && Fresh(cfg, s, l)
  }

  ghost predicate Coherent(cfg: Config, w: World)
    requires Ranked(cfg.policy.names, cfg.rank)
  {
    Good(w.s) && forall sid :: sid in w.live ==> StreamOk(cfg, w.s, w.live[sid])
  }

  lemma FlushAdvances(s: State)
    requires Good(s)
    ensures Good(s.(bus := Flushed(s.bus))) && Advances(s, s.(bus := Flushed(s.bus)))
  {
    FlushKeeps(s.bus);
  }

  lemma AdminOpAdvances(cfg: Config, s: State, op: Op)
    requires Ranked(cfg.policy.names, cfg.rank) && Good(s) && Possible(s, op)
    requires op.OpApprove? || op.OpReject? || op.OpCreateKey? || op.OpRevokeKey? || op.OpApproveRoute? || op.OpDisapproveRoute?
    ensures Good(NextState(cfg, s, op)) && Advances(s, NextState(cfg, s, op))
  {
    if op.OpApprove? {
      ApproveAdvances(cfg, s, op.authId, op.login, op.now);
    } else if op.OpReject? {
      RejectAdvances(s, op.authId, op.now);
    } else if op.OpCreateKey? {
      CreateKeyAdvances(cfg, s, op.prefix, op.secret, op.reusable, op.ephemeral, op.expiration, op.tags);
    } else if op.OpRevokeKey? {
      RevokeAdvances(s, op.prefix);
    } else {
      RouteAdvances(cfg, s, op.nodeKey, op.route);
    }
  }

  /** Every operation keeps the control plane's invariants and owes sessions what it changed. */
  lemma OpAdvances(cfg: Config, s: State, op: Op)
    requires Ranked(cfg.policy.names, cfg.rank) && Good(s) && Possible(s, op)
    ensures Good(NextState(cfg, s, op)) && Advances(s, NextState(cfg, s, op))
  {
    if op.OpRegister? {
      RegisterAdvances(cfg, s, op.machineKey, op.register, op.now, op.chance);
    } else if op.OpLogout? {
      QuietAdvances(s, s);
      var i := IndexOfKey(s.nodes, op.nodeKey);
      if i.Some? {
        RowOf(s, i.value);
        LogoutAdvances(cfg, s, s.nodes[i.value], false);
      }
    } else if op.OpMap? {
      MapAdvances(cfg, s, op.machineKey, op.map_, op.now);
    } else if op.OpClose? {
      CloseAdvances(cfg, s, op.sid, op.now);
    } else if op.OpReap? {
      ReapAdvances(cfg, s, op.now, op.order);
    } else if op.OpFlush? {
      FlushAdvances(s);
    } else if op.OpAnnounce? {
      PublishAny(cfg, s, op.event);
    } else if op.OpDeliver? || op.OpSubscribe? {
      QuietAdvances(s, s);
    } else {
      AdminOpAdvances(cfg, s, op);
    }
  }

  /** A stream that does nothing stays coherent while the control plane moves on. */
  lemma StreamWaits(cfg: Config, s: State, s': State, l: Live)
    requires Ranked(cfg.policy.names, cfg.rank) && Good(s) && Advances(s, s') && StreamOk(cfg, s, l)
    ensures StreamOk(cfg, s', l)
  {
    if Quiet(s, s') {
      QuietView(cfg, s, s', l.nodeId, l.version);
      assert Fresh(cfg, s', l);
    } else {
      OwedEarlier(s'.bus, l.cursor, |s.bus.sent|);
    }
  }

  lemma StreamStarts(cfg: Config, s: State, machineKey: Key, req: MapRequest, now: Timestamp)
    requires Ranked(cfg.policy.names, cfg.rank) && Good(s)
    requires req.stream && MapStored(cfg, s, machineKey, req, now).1.Some?
    ensures var (stored, node) := MapStored(cfg, s, machineKey, req, now);
            var end := HandleMap(cfg, s, machineKey, req, now).0;
            var l := StartStream(cfg, stored, end, node.value.id, req.version);
            StreamOk(cfg, end, l) && l.client == Nodes(View(cfg, end, l.nodeId, l.version))
  {
    HandleMapSplits(cfg, s, machineKey, req, now);
    MapStoredAdvances(cfg, s, machineKey, req, now);
    var (stored, node) := MapStored(cfg, s, machineKey, req, now);
    var id := node.value.id;
    var end := OpenSession(cfg, stored, id, node.value.ephemeral, now).0;
    OpenOnline(stored.reg, id, node.value.ephemeral, now);
    OwnOnlineView(cfg, stored, end, id, req.version);
    ViewKeyed(cfg, stored, id, req.version);
    PutNodes(View(cfg, stored, id, req.version));
  }

  lemma OwedSplits(bus: Bus, c: nat)
    requires c < |bus.sent|
    ensures Owed(bus, c) <==> NeedsPeerRescan(bus.sent[c]) || Owed(bus, c + 1)
  {
  }

  lemma StreamDelivers(cfg: Config, s: State, l: Live, op: Op)
    requires Ranked(cfg.policy.names, cfg.rank) && Good(s) && StreamOk(cfg, s, l) && op.OpDeliver?
    ensures StreamOk(cfg, s, Delivered(cfg, s, l, op))
  {
    var view := View(cfg, s, l.nodeId, l.version);
    ViewKeyed(cfg, s, l.nodeId, l.version);
    PatchableNeverClears(l.tracking, view);
    if l.cursor < |s.bus.sent| <= l.cursor + CHANNEL_CAPACITY {
      var batch := s.bus.sent[l.cursor];
      BuildCoherent(batch, InputsFor(cfg, s, l, op), l.tracking);
      OwedSplits(s.bus, l.cursor);
    }
  }

  lemma StepCoherent(cfg: Config, w: World, op: Op)
    requires Ranked(cfg.policy.names, cfg.rank) && Coherent(cfg, w) && Possible(w.s, op)
    ensures Coherent(cfg, Step(cfg, w, op))
  {
    OpAdvances(cfg, w.s, op);
    var w' := Step(cfg, w, op);
    forall sid | sid in w'.live
      ensures StreamOk(cfg, w'.s, w'.live[sid])
    {
      StreamSteps(cfg, w, op, sid);
    }
  }

  lemma StreamJoins(cfg: Config, s: State, l: Live)
    requires Ranked(cfg.policy.names, cfg.rank) && Good(s) && StreamOk(cfg, s, l)
    ensures StreamOk(cfg, s, Joined(s, l))
  {
    assert Owed(s.bus, l.cursor) <==> RescanPending(s.bus.acc) || RescanSent(s.bus, l.cursor);
  }

  /** Each stream is new, has just been delivered a batch, has just subscribed, or waits. */
  lemma StreamSteps(cfg: Config, w: World, op: Op, sid: int)
    requires Ranked(cfg.policy.names, cfg.rank) && Good(w.s) && (sid in w.live ==> StreamOk(cfg, w.s, w.live[sid]))
    requires Advances(w.s, NextState(cfg, w.s, op)) && sid in NextLive(cfg, w, op)
    ensures StreamOk(cfg, NextState(cfg, w.s, op), NextLive(cfg, w, op)[sid])
  {
    if op.OpMap? {
      MapStreams(cfg, w, op, sid);
    } else if op.OpDeliver? && sid == op.sid {
      StreamDelivers(cfg, w.s, w.live[sid], op);
    } else if op.OpSubscribe? && sid == op.sid {
      StreamJoins(cfg, w.s, w.live[sid]);
    } else {
      assert NextLive(cfg, w, op)[sid] == w.live[sid];
      StreamWaits(cfg, w.s, NextState(cfg, w.s, op), w.live[sid]);
    }
  }

  /** A map request adds its own stream, under the next session id, and leaves the others. */
  lemma MapAdds(cfg: Config, w: World, op: Op, sid: int)
    requires Ranked(cfg.policy.names, cfg.rank) && op.OpMap? && sid in NextLive(cfg, w, op)
    ensures var (stored, node) := MapStored(cfg, w.s, op.machineKey, op.map_, op.now);
            if node.Some? && op.map_.stream && sid == stored.reg.next
            then NextLive(cfg, w, op)[sid] == StartStream(cfg, stored, NextState(cfg, w.s, op), node.value.id, op.map_.version)
            else sid in w.live && NextLive(cfg, w, op)[sid] == w.live[sid]
  {
  }

  lemma MapStreams(cfg: Config, w: World, op: Op, sid: int)
    requires Ranked(cfg.policy.names, cfg.rank) && Good(w.s) && (sid in w.live ==> StreamOk(cfg, w.s, w.live[sid]))
    requires op.OpMap? && Advances(w.s, NextState(cfg, w.s, op)) && sid in NextLive(cfg, w, op)
    ensures StreamOk(cfg, NextState(cfg, w.s, op), NextLive(cfg, w, op)[sid])
  {
    MapAdds(cfg, w, op, sid);
    var (stored, node) := MapStored(cfg, w.s, op.machineKey, op.map_, op.now);
    if node.Some? && op.map_.stream && sid == stored.reg.next {
      StreamStarts(cfg, w.s, op.machineKey, op.map_, op.now);
    } else {
      StreamWaits(cfg, w.s, NextState(cfg, w.s, op), w.live[sid]);
    }
  }

  lemma {:induction false} EveryRunCoherent(cfg: Config, ws: seq<World>, ops: seq<Op>)
    requires Ranked(cfg.policy.names, cfg.rank) && IsRun(cfg, ws, ops)
    ensures Coherent(cfg, ws[|ops|])
    decreases |ops|
  {
    if ops != [] {
      var k := |ops| - 1;
      EveryRunCoherent(cfg, ws[..k + 1], ops[..k]);
      assert Possible(ws[k].s, ops[k]) && ws[k + 1] == Step(cfg, ws[k], ops[k]);
      StepCoherent(cfg, ws[k], ops[k]);
    }
  }

  /**
   * No lost update: over every run, a stream that has not lost a batch since its last rescan, by falling behind or by
   * subscribing after the batch was sent, and whose node exists holds exactly the current visible peers, unless a
   * rescan is pending or undelivered; and every stream's client always holds exactly what the server tracks as sent.
   */
  lemma NoLostUpdate(cfg: Config, ws: seq<World>, ops: seq<Op>, sid: int)
    requires Ranked(cfg.policy.names, cfg.rank) && IsRun(cfg, ws, ops) && sid in ws[|ops|].live
    ensures var w := ws[|ops|];
            var l := w.live[sid];
            && l.client == l.tracking.peers
            && (!l.lagged && IndexOfId(w.s.nodes, l.nodeId).Some? && !Owed(w.s.bus, l.cursor) ==>
                  l.client == Nodes(View(cfg, w.s, l.nodeId, l.version)))
  {
    EveryRunCoherent(cfg, ws, ops);
    assert StreamOk(cfg, ws[|ops|].s, ws[|ops|].live[sid]);
  }

  // ---------------------------------------------------------------------
  // The gap between the first frame and the subscription.

  /** The client is current, or a rescan is still on its way to it. */
  ghost predicate UpToDate(cfg: Config, s: State, l: Live)
    requires Ranked(cfg.policy.names, cfg.rank)
  {
    Owed(s.bus, l.cursor) || l.client == Nodes(View(cfg, s, l.nodeId, l.version))
  }

  /** The operation is a streaming map request and opens this session. */
  ghost predicate Opens(cfg: Config, w: World, op: Op, sid: int)
    requires Ranked(cfg.policy.names, cfg.rank)
  {
    op.OpMap? && op.map_.stream &&
    var (stored, node) := MapStored(cfg, w.s, op.machineKey, op.map_, op.now);
    node.Some? && sid == stored.reg.next
  }

  /** The operation opens, closes or subscribes this session. */
  ghost predicate Touches(cfg: Config, w: World, op: Op, sid: int)
    requires Ranked(cfg.policy.names, cfg.rank)
  {
    Opens(cfg, w, op, sid) || (op.OpClose? && op.sid == sid) || (op.OpSubscribe? && op.sid == sid)
  }

  lemma OpenedHoldsView(cfg: Config, w: World, op: Op, sid: int)
    requires Ranked(cfg.policy.names, cfg.rank) && Good(w.s) && Opens(cfg, w, op, sid)
    ensures var w' := Step(cfg, w, op);
            && sid in w'.live && !w'.live[sid].subscribed
            && w'.live[sid].client == Nodes(View(cfg, w'.s, w'.live[sid].nodeId, w'.live[sid].version))
  {
    StreamStarts(cfg, w.s, op.machineKey, op.map_, op.now);
  }

  lemma UntouchedWaits(cfg: Config, w: World, op: Op, sid: int)
    requires Ranked(cfg.policy.names, cfg.rank) && sid in w.live && !w.live[sid].subscribed && !Touches(cfg, w, op, sid)
    ensures sid in NextLive(cfg, w, op) && NextLive(cfg, w, op)[sid] == w.live[sid]
  {
  }

  lemma {:induction false} UntouchedAlong(cfg: Config, ws: seq<World>, ops: seq<Op>, m: nat, k: nat, sid: int)
    requires Ranked(cfg.policy.names, cfg.rank) && IsRun(cfg, ws, ops) && m <= k <= |ops|
    requires sid in ws[m].live && !ws[m].live[sid].subscribed
    requires forall j :: m <= j < k ==> !Touches(cfg, ws[j], ops[j], sid)
    ensures sid in ws[k].live && ws[k].live[sid] == ws[m].live[sid]
    decreases k - m
  {
    if m < k {
      UntouchedAlong(cfg, ws, ops, m, k - 1, sid);
      UntouchedWaits(cfg, ws[k - 1], ops[k - 1], sid);
      assert ws[k - 1 + 1] == Step(cfg, ws[k - 1], ops[k - 1]);
    }
  }

  lemma JoinedUpToDateIff(cfg: Config, s: State, l: Live)
    requires Ranked(cfg.policy.names, cfg.rank) && !l.subscribed
    ensures UpToDate(cfg, s, Joined(s, l)) <==> RescanPending(s.bus.acc) || l.client == Nodes(View(cfg, s, l.nodeId, l.version))
  {
    assert Owed(s.bus, |s.bus.sent|) <==> RescanPending(s.bus.acc);
  }

  /**
   * Over every run: a stream opened by step m and subscribed by step k is up to date after it if and only if its
   * visible peers at step k are those of its map, or a rescan is pending at step k.
   */
  lemma LateSubscriptionIff(cfg: Config, ws: seq<World>, ops: seq<Op>, m: nat, k: nat, sid: int)
    requires Ranked(cfg.policy.names, cfg.rank) && IsRun(cfg, ws, ops) && m < k < |ops|
    requires Opens(cfg, ws[m], ops[m], sid) && ops[k] == OpSubscribe(sid)
    requires forall j :: m < j < k ==> !Touches(cfg, ws[j], ops[j], sid)
    ensures sid in ws[m + 1].live && sid in ws[k + 1].live
    ensures var l := ws[m + 1].live[sid];
            UpToDate(cfg, ws[k + 1].s, ws[k + 1].live[sid]) <==>
            || RescanPending(ws[k].s.bus.acc)
            || Nodes(View(cfg, ws[k].s, l.nodeId, l.version)) == Nodes(View(cfg, ws[m + 1].s, l.nodeId, l.version))
  {
    assert ws[m + 1] == Step(cfg, ws[m], ops[m]) && ws[k + 1] == Step(cfg, ws[k], ops[k]);
    GoodAlong(cfg, ws, ops, m);
    OpenedHoldsView(cfg, ws[m], ops[m], sid);
    UntouchedAlong(cfg, ws, ops, m + 1, k, sid);
    JoinedUpToDateIff(cfg, ws[k].s, ws[m + 1].live[sid]);
  }

  lemma GoodAlong(cfg: Config, ws: seq<World>, ops: seq<Op>, m: nat)
    requires Ranked(cfg.policy.names, cfg.rank) && IsRun(cfg, ws, ops) && m <= |ops|
    ensures Good(ws[m].s)
  {
    assert IsRun(cfg, ws[..m + 1], ops[..m]);
    EveryRunCoherent(cfg, ws[..m + 1], ops[..m]);
  }

  lemma FlushLeavesNothing(bus: Bus)
    ensures !RescanPending(Flushed(bus).acc) && !Owed(Flushed(bus), |Flushed(bus).sent|)
  {
  }

  /** A peer that logs out is authorized no longer, in the same row. */
  lemma LogoutRow(cfg: Config, s: State, j: nat)
    requires Good(s) && j < |s.nodes| && s.nodes[j].tags.None? && !s.nodes[j].ephemeral
    ensures var s' := Logout(cfg, s, s.nodes[j].machineKey, s.nodes[j].nodeKey).0;
            |s'.nodes| == |s.nodes| && !s'.nodes[j].machineAuthorized && forall k :: 0 <= k < |s.nodes| ==> s'.nodes[k].id == s.nodes[k].id
  {
    var i := IndexOfKey(s.nodes, s.nodes[j].nodeKey);
    assert i == Some(j);
  }

  lemma UnauthorizedUnseen(cfg: Config, s: State, i: nat, j: nat, version: nat)
    requires Ranked(cfg.policy.names, cfg.rank) && Good(s) && i < |s.nodes| && j < |s.nodes| && !s.nodes[j].machineAuthorized
    ensures s.nodes[j].id !in View(cfg, s.(bus := Flushed(s.bus)), s.nodes[i].id, version)
  {
    FlushAdvances(s);
    ViewIsVisiblePeers(cfg, s.(bus := Flushed(s.bus)), i, j, version);
  }

  lemma LogoutGood(cfg: Config, s: State, j: nat)
    requires Ranked(cfg.policy.names, cfg.rank) && Good(s) && j < |s.nodes|
    ensures Good(NextState(cfg, s, OpLogout(s.nodes[j].machineKey, s.nodes[j].nodeKey)))
  {
    OpAdvances(cfg, s, OpLogout(s.nodes[j].machineKey, s.nodes[j].nodeKey));
  }

  lemma LoggedOutUnseen(cfg: Config, s: State, i: nat, j: nat, version: nat)
    requires Ranked(cfg.policy.names, cfg.rank) && Good(s) && i < |s.nodes| && j < |s.nodes|
    requires s.nodes[j].tags.None? && !s.nodes[j].ephemeral
    ensures var s' := NextState(cfg, s, OpLogout(s.nodes[j].machineKey, s.nodes[j].nodeKey));
            s.nodes[j].id !in View(cfg, NextState(cfg, s', OpFlush), s.nodes[i].id, version)
  {
    LogoutGood(cfg, s, j);
    LogoutRow(cfg, s, j);
    UnauthorizedUnseen(cfg, NextState(cfg, s, OpLogout(s.nodes[j].machineKey, s.nodes[j].nodeKey)), i, j, version);
  }

  /**
   * The update that is lost: a peer logs out and the batch goes out after the map was built and before the stream
   * subscribes. The client keeps the peer, the view does not, and nothing is owed to the stream.
   */
  lemma LogoutInGapIsLost(cfg: Config, w: World, sid: int, i: nat, j: nat)
    requires Ranked(cfg.policy.names, cfg.rank) && Coherent(cfg, w) && sid in w.live && !w.live[sid].subscribed
    requires i < |w.s.nodes| && j < |w.s.nodes| && w.s.nodes[i].id == w.live[sid].nodeId
    requires var n := w.s.nodes[j]; n.tags.None? && !n.ephemeral && n.id in w.live[sid].client
    ensures var n := w.s.nodes[j];
            var end := Step(cfg, Step(cfg, Step(cfg, w, OpLogout(n.machineKey, n.nodeKey)), OpFlush), OpSubscribe(sid));
            && sid in end.live && n.id in end.live[sid].client
            && n.id !in View(cfg, end.s, end.live[sid].nodeId, end.live[sid].version)
            && !Owed(end.s.bus, end.live[sid].cursor)
  {
    LoggedOutUnseen(cfg, w.s, i, j, w.live[sid].version);
    FlushLeavesNothing(NextState(cfg, w.s, OpLogout(w.s.nodes[j].machineKey, w.s.nodes[j].nodeKey)).bus);
  }

  // ---------------------------------------------------------------------
  // What a view holds.

  lemma {:induction false} PeersAmongAre(cfg: Config, s: State, self: DomainNode, version: nat, rows: Table, i: nat)
    requires Ranked(cfg.policy.names, cfg.rank) && TableValid(rows) && i < |rows|
    ensures var v := PeersAmong(cfg, s.users, s.nodes, s.reg, self, version, rows);
            && (rows[i].id in v <==> IsPeer(cfg, s.users, s.nodes, self, rows[i]))
            && (rows[i].id in v ==>
                  v[rows[i].id] == (PeerNode(cfg, s.users, rows[i], Sessions.IsOnline(s.reg, rows[i].id), version), rows[i].keyExpiry))
    decreases |rows|
  {
    var front, n := rows[..|rows| - 1], rows[|rows| - 1];
    if i < |front| {
      PeersAmongAre(cfg, s, self, version, front, i);
      assert rows[i].id != n.id;
    } else {
      PeersAmongFrom(cfg, s, self, version, front, n.id);
    }
  }

  lemma {:induction false} PeersAmongFrom(cfg: Config, s: State, self: DomainNode, version: nat, rows: Table, id: int)
    requires Ranked(cfg.policy.names, cfg.rank)
    ensures id in PeersAmong(cfg, s.users, s.nodes, s.reg, self, version, rows) ==> exists n :: n in rows && n.id == id
    decreases |rows|
  {
    if rows != [] {
      PeersAmongFrom(cfg, s, self, version, rows[..|rows| - 1], id);
    }
  }

  /** A view holds exactly the authorized, policy-visible rows other than the node itself, as peers. */
  lemma ViewIsVisiblePeers(cfg: Config, s: State, i: nat, j: nat, version: nat)
    requires Ranked(cfg.policy.names, cfg.rank) && Good(s) && i < |s.nodes| && j < |s.nodes|
    ensures var v, n := View(cfg, s, s.nodes[i].id, version), s.nodes[j];
            && (n.id in v <==> i != j && n.machineAuthorized && n.id in VisibleIds(cfg, s.users, s.nodes, s.nodes[i]))
            && (n.id in v ==> v[n.id] == (PeerNode(cfg, s.users, n, Sessions.IsOnline(s.reg, n.id), version), n.keyExpiry))
  {
    assert IndexOfId(s.nodes, s.nodes[i].id) == Some(i);
    PeersAmongAre(cfg, s, s.nodes[i], version, s.nodes, j);
  }
}
