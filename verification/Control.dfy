/** The control plane as an object: its operations update the store in place and publish on the bus. */
module Control {
  import opened Ordered
  import opened Net
  import opened Groups
  import opened Tags
  import opened Routes
  import opened Store
  import opened Allocator
  import opened Events
  import opened Delta
  import opened Plane
  import Compile
  import Sessions

  /** No login belongs to two users. */
  ghost predicate LoginsUnique(users: map<int, string>) {
    forall a, b :: a in users && b in users && users[a] == users[b] ==> a == b
  }

  class ControlPlane {
    const cfg: Config
    const sessions: Sessions.SessionRegistry
    const bus: ChangeBus
    var nodes: Table
    var users: map<int, string>
    var nextUser: int
    var keys: map<string, PreAuthKey>
    var pending: map<string, Pending>

    ghost function State(): State
      reads this, sessions, bus, bus.pending
    {
      Plane.State(nodes, users, nextUser, keys, pending, sessions.State(), bus.State())
    }

    ghost predicate Valid()
      reads this, sessions, bus, bus.pending
    {
      && ConfigValid(cfg)
      && TableValid(nodes)
      && LoginsUnique(users)
      && (forall u :: u in users ==> u < nextUser)
      && Sessions.Valid(sessions.State())
      && bus.maxEvents == cfg.maxEvents
      && sessions.graceSeconds == cfg.graceSeconds
    }

    constructor (cfg: Config)
      requires ConfigValid(cfg)
      ensures Valid() && this.cfg == cfg
      ensures State() == Plane.State([], map[], 1, map[], map[], Sessions.NEW, Bus(EMPTY, []))
    {
      this.cfg := cfg;
      sessions := new Sessions.SessionRegistry(cfg.graceSeconds);
      bus := new ChangeBus(cfg.maxEvents);
      nodes, users, nextUser, keys, pending := [], map[], 1, map[], map[];
    }

    method PublishChange(e: ChangeEvent)
      requires Valid()
      modifies bus, bus.pending
      ensures Valid() && State() == Publish(cfg, old(State()), e)
    {
      bus.PublishEvent(e);
    }

    method EnsureUser() returns (ok: bool)
      requires Valid()
      modifies this
      ensures Valid()
      ensures ok <==> EnsureDefaultUser(cfg, old(State())).Some?
      ensures State() == if ok then EnsureDefaultUser(cfg, old(State())).value else old(State())
    {
      if cfg.userId in users {
        return true;
      }
      if HasLogin(users, cfg.userLogin) {
        return false;
      }
      users := users[cfg.userId := cfg.userLogin];
      if nextUser <= cfg.userId {
        nextUser := cfg.userId + 1;
      }
      ok := true;
    }

    method EnsureKey()
      requires Valid()
      modifies this
      ensures Valid() && State() == EnsureBootstrapKey(cfg, old(State()))
    {
      if cfg.bootstrap.Some? && cfg.bootstrap.value.0 !in keys {
        keys := keys[cfg.bootstrap.value.0 :=
          PreAuthKey(cfg.bootstrap.value.1, true, false, None, false, false, None, cfg.userId)];
      }
    }

    method ResolveUserId(login: string) returns (id: int)
      requires Valid()
      modifies this
      ensures Valid() && (State(), id) == ResolveUser(old(State()), login)
    {
      if HasLogin(users, login) {
        id :| id in users && users[id] == login;
      } else {
        id := nextUser;
        users := users[id := login];
        nextUser := nextUser + 1;
      }
    }

    method ApplyTags(n: DomainNode, login: Option<string>, requested: seq<string>) returns (outcome: TagOutcome)
      requires Valid()
      modifies this
      ensures Valid() && (State(), outcome) == ApplyRequestTags(cfg, old(State()), n, login, requested)
    {
      var current := SortTexts(TagsOf(n));
      var want := SortTexts(requested);
      if want == current {
        return TagsKept;
      }
      if want == [] {
        if n.userId.Some? {
          return TagsChanged(n.(tags := None));
        }
        if login.None? {
          return TagsFailed(PolicyFailure);
        }
        var id := ResolveUserId(login.value);
        return TagsChanged(n.(tags := None, userId := Some(id)));
      }
      var rejected := UnauthorizedTags(TagRules(cfg), cfg.rank, login, want);
      if rejected != [] {
        return TagsFailed(TagsRefused(rejected));
      }
      outcome := TagsChanged(n.(tags := Some(want), userId := None));
    }

    method Save(n: DomainNode)
      requires Valid()
      modifies this, bus, bus.pending
      ensures Valid() && State() == SaveNode(cfg, old(State()), n)
    {
      UpsertKeepsValid(nodes, n);
      var id := UpsertId(nodes, n);
      nodes := Upsert(nodes, n);
      PublishChange(NodeChanged(id));
    }

    method LogoutStored(n: DomainNode, keyExpired: bool) returns (r: RegisterResponse)
      requires Valid()
      modifies this, bus, bus.pending
      ensures Valid() && (State(), r) == LogoutNode(cfg, old(State()), n, keyExpired)
    {
      if n.tags.Some? {
        return Authorized;
      }
      if n.ephemeral {
        DeleteKeepsValid(nodes, n.nodeKey);
        nodes := Delete(nodes, n.nodeKey);
        PublishChange(NodeRemoved(n.id));
        return LoggedOut(keyExpired);
      }
      Save(n.(machineAuthorized := false));
      r := LoggedOut(keyExpired);
    }

    method StartPending(machineKey: Key, req: RegisterRequest, now: Timestamp, chance: Chance) returns (r: RegisterResponse)
      requires Valid()
      modifies this
      ensures Valid() && (State(), r) == StartInteractive(cfg, old(State()), machineKey, req, now, chance)
    {
      pending := pending[chance.authId :=
        Pending(machineKey, req.nodeKey, req.hostinfo, req.expiry, req.version, req.ephemeral, now + cfg.pendingTtl, Undecided)];
      r := Visit(chance.authId);
    }

    method MarkUsed(prefix: string)
      requires Valid()
      modifies this
      ensures Valid() && State() == Consume(old(State()), prefix)
    {
      if prefix in keys && !keys[prefix].reusable {
        keys := keys[prefix := keys[prefix].(used := true)];
      }
    }

    method DrawAddress4(used: set<nat>, draws: seq<nat>) returns (a: Option<nat>)
      requires ConfigValid(cfg) && |draws| == ATTEMPTS
      ensures a == Draw(HostRange4(cfg.prefix4.addr, cfg.prefix4.bits), used, draws)
    {
      Range4Sound(cfg.prefix4.addr, cfg.prefix4.bits, 0);
      a := Allocate(HostRange4(cfg.prefix4.addr, cfg.prefix4.bits), used, draws);
    }

    method DrawAddress6(used: set<nat>, draws: seq<nat>) returns (a: Option<nat>)
      requires ConfigValid(cfg) && |draws| == ATTEMPTS
      ensures a == Draw(HostRange6(cfg.prefix6.addr, cfg.prefix6.bits), used, draws)
    {
      Range6Sound(cfg.prefix6.addr, cfg.prefix6.bits, 0);
      a := Allocate(HostRange6(cfg.prefix6.addr, cfg.prefix6.bits), used, draws);
    }

    /** Draws a free address of each family and builds the node of a registration. */
    method CreateNode(machineKey: Key, nodeKey: Key, h: Option<Hostinfo>, version: nat, userId: int,
                      tags: Option<seq<string>>, ephemeral: bool, now: Timestamp, chance: Chance) returns (n: Option<DomainNode>)
      requires Valid() && |chance.draws4| == ATTEMPTS && |chance.draws6| == ATTEMPTS
      ensures n == NewNode(cfg, State(), machineKey, nodeKey, h, version, userId, tags, ephemeral, now, chance)
    {
      var a4 := DrawAddress4(UsedAddresses(nodes, false), chance.draws4);
      if a4.None? {
        return None;
      }
      var a6 := DrawAddress6(UsedAddresses(nodes, true), chance.draws6);
      if a6.None? {
        return None;
      }
      var addresses := [Cidr(false, a4.value, 32), Cidr(true, a6.value, 128)];
      var owner := if tags.Some? && tags.value != [] then None else Some(userId);
      n := Some(DomainNode(0, 0, Hostname(h) + "." + cfg.tailnet + ".", owner, nodeKey, machineKey, "", addresses, Some(addresses),
                           [], [], 1, h, now, version, tags, AdvertisedRoutes(h), [], true, ephemeral, Some(now), None));
    }

    method RegisterExisting(i: nat, machineKey: Key, req: RegisterRequest, now: Timestamp, chance: Chance) returns (r: RegisterResponse)
      requires Valid() && i < |nodes|
      modifies this, bus, bus.pending
      ensures Valid() && (State(), r) == RegisterKnown(cfg, old(State()), old(nodes[i]), machineKey, req, now, chance)
    {
      var n := nodes[i];
      if n.machineKey != machineKey {
        return Refused("node key is already registered to another machine");
      }
      if req.expiry.Some? {
        if req.expiry.value < now {
          r := LogoutStored(n, true);
          return;
        }
        if req.expiry.value > now {
          return Refused("clients may not extend their own key");
        }
      }
      if n.machineAuthorized {
        r := ReloginExisting(n, req.hostinfo);
        return;
      }
      var key := ValidKey(Plane.State(nodes, users, nextUser, keys, pending, Sessions.NEW, Bus(EMPTY, [])), req.auth, now);
      if key.Some? {
        Save(n.(machineAuthorized := true, tags := key.value.tags, ephemeral := key.value.ephemeral));
        MarkUsed(req.auth.prefix);
        return Authorized;
      }
      r := StartPending(machineKey, req, now, chance);
    }

    method ReloginExisting(n: DomainNode, h: Option<Hostinfo>) returns (r: RegisterResponse)
      requires Valid()
      modifies this, bus, bus.pending
      ensures Valid() && (State(), r) == Relogin(cfg, old(State()), n, h)
    {
      var login := if n.userId.Some? && n.userId.value in users then Some(users[n.userId.value]) else None;
      var outcome := ApplyTags(n, login, RequestedTags(h));
      match outcome {
        case TagsKept => r := Authorized;
        case TagsChanged(node) =>
          Save(node);
          r := Authorized;
        case TagsFailed(f) => r := Failed(f);
      }
    }

    method RegisterFresh(machineKey: Key, req: RegisterRequest, now: Timestamp, chance: Chance) returns (r: RegisterResponse)
      requires Valid() && |chance.draws4| == ATTEMPTS && |chance.draws6| == ATTEMPTS
      modifies this, bus, bus.pending
      ensures Valid() && (State(), r) == RegisterNew(cfg, old(State()), machineKey, req, now, chance)
    {
      var key := ValidKey(Plane.State(nodes, users, nextUser, keys, pending, Sessions.NEW, Bus(EMPTY, [])), req.auth, now);
      var tagged := key.Some? && key.value.tags.Some? && key.value.tags.value != [];
      if !tagged && req.expiry.Some? {
        if req.expiry.value < now {
          return KeyExpired("node key is expired");
        }
        if req.expiry.value > now {
          return Refused("clients may not extend their own key");
        }
      }
      if key.None? {
        r := StartPending(machineKey, req, now, chance);
        return;
      }
      if key.value.tags.None? && RequestedTags(req.hostinfo) != [] {
        return Failed(PolicyFailure);
      }
      r := EnrollWithKey(machineKey, req, key.value, now, chance);
    }

    method EnrollWithKey(machineKey: Key, req: RegisterRequest, key: PreAuthKey, now: Timestamp, chance: Chance) returns (r: RegisterResponse)
      requires Valid() && |chance.draws4| == ATTEMPTS && |chance.draws6| == ATTEMPTS && req.auth.AuthKey?
      modifies this, bus, bus.pending
      ensures Valid()
      ensures var node := NewNode(cfg, old(State()), machineKey, req.nodeKey, req.hostinfo, req.version, key.userId,
                                  key.tags, key.ephemeral, now, chance);
              (State(), r) == if node.None? then (old(State()), Failed(NoFreeAddress))
                              else (Consume(SaveNode(cfg, old(State()), node.value), req.auth.prefix), Authorized)
    {
      var node := CreateNode(machineKey, req.nodeKey, req.hostinfo, req.version, key.userId, key.tags, key.ephemeral, now, chance);
      if node.None? {
        return Failed(NoFreeAddress);
      }
      SaveAndMark(node.value, req.auth.prefix);
      r := Authorized;
    }

    method SaveAndMark(n: DomainNode, prefix: string)
      requires Valid()
      modifies this, bus, bus.pending
      ensures Valid() && State() == Consume(SaveNode(cfg, old(State()), n), prefix)
    {
      Save(n);
      MarkUsed(prefix);
    }

    method Poll(machineKey: Key, authId: string, now: Timestamp, chance: Chance) returns (r: RegisterResponse)
      requires Valid() && |chance.draws4| == ATTEMPTS && |chance.draws6| == ATTEMPTS
      modifies this, bus, bus.pending
      ensures Valid() && (State(), r) == PollFollowup(cfg, old(State()), machineKey, authId, now, chance)
    {
      if authId !in pending {
        return Refused("registration expired; start a new registration");
      }
      var entry := pending[authId];
      if entry.machineKey != machineKey {
        return Refused("auth id does not match machine key");
      }
      if entry.expiresAt < now {
        pending := pending - {authId};
        return Refused("registration expired; start a new registration");
      }
      match entry.verdict {
        case Undecided => r := Visit(authId);
        case Rejected =>
          pending := pending - {authId};
          r := Refused("registration rejected");
        case Approved(userId, tags) =>
          pending := pending - {authId};
          r := EnrollApproved(machineKey, entry, userId, tags, now, chance);
      }
    }

    method EnrollApproved(machineKey: Key, entry: Pending, userId: int, tags: Option<seq<string>>, now: Timestamp, chance: Chance)
        returns (r: RegisterResponse)
      requires Valid() && |chance.draws4| == ATTEMPTS && |chance.draws6| == ATTEMPTS
      modifies this, bus, bus.pending
      ensures Valid() && (State(), r) == Enroll(cfg, old(State()), machineKey, entry, userId, tags, now, chance)
    {
      var i := IndexOfKey(nodes, entry.nodeKey);
      if i.Some? && nodes[i.value].machineKey == machineKey && nodes[i.value].machineAuthorized {
        return Authorized;
      }
      var node := CreateNode(machineKey, entry.nodeKey, entry.hostinfo, entry.version, userId, tags, entry.ephemeral, now, chance);
      if node.None? {
        return Failed(NoFreeAddress);
      }
      Save(node.value);
      r := Authorized;
    }

    method RegisterNode(machineKey: Key, req: RegisterRequest, now: Timestamp, chance: Chance) returns (r: RegisterResponse)
      requires Valid() && |chance.draws4| == ATTEMPTS && |chance.draws6| == ATTEMPTS
      modifies this, bus, bus.pending
      ensures Valid() && (State(), r) == Register(cfg, old(State()), machineKey, req, now, chance)
    {
      var ok := EnsureUser();
      if !ok {
        return Failed(StoreFailure);
      }
      EnsureKey();
      match req.followup {
        case BadFollowup => r := Refused("invalid followup URL");
        case FollowupOf(authId) => r := Poll(machineKey, authId, now, chance);
        case NoFollowup =>
          var i := IndexOfKey(nodes, req.nodeKey);
          if i.Some? {
            r := RegisterExisting(i.value, machineKey, req, now, chance);
          } else {
            r := RegisterFresh(machineKey, req, now, chance);
          }
      }
    }

    method ApproveAuth(authId: string, login: string, now: Timestamp) returns (failure: Option<Failure>)
      requires Valid()
      modifies this
      ensures Valid() && (State(), failure) == ApprovePending(cfg, old(State()), authId, login, now)
    {
      if authId !in pending {
        return Some(Missing);
      }
      var entry := pending[authId];
      if entry.expiresAt < now {
        pending := pending - {authId};
        return Some(Missing);
      }
      var userId := ResolveUserId(login);
      var requested := RequestedTags(entry.hostinfo);
      if requested != [] {
        var rejected := UnauthorizedTags(TagRules(cfg), cfg.rank, Some(login), requested);
        if rejected != [] {
          return Some(TagsRefused(rejected));
        }
      }
      var tags := if requested == [] then None else Some(requested);
      pending := pending[authId := entry.(verdict := Approved(userId, tags))];
      failure := None;
    }

    method RejectAuth(authId: string, now: Timestamp) returns (failure: Option<Failure>)
      requires Valid()
      modifies this
      ensures Valid() && (State(), failure) == RejectPending(old(State()), authId, now)
    {
      if authId !in pending {
        return Some(Missing);
      }
      if pending[authId].expiresAt < now {
        pending := pending - {authId};
        return Some(Missing);
      }
      pending := pending[authId := pending[authId].(verdict := Rejected)];
      failure := None;
    }

    method CreateAuthKey(prefix: string, secret: string, reusable: bool, ephemeral: bool, expiration: Option<Timestamp>,
                         tags: Option<seq<string>>) returns (failure: Option<Failure>)
      requires Valid()
      modifies this
      ensures Valid()
      ensures (State(), failure) == CreateKey(cfg, old(State()), prefix, secret, reusable, ephemeral, expiration, tags)
    {
      var ok := EnsureUser();
      if !ok {
        return Some(StoreFailure);
      }
      if prefix == "" || !(forall i :: 0 <= i < |prefix| ==> IsAlnum(prefix[i])) {
        return Some(BadKeyPrefix);
      }
      if tags.Some? {
        var refused := UnauthorizedTags(TagRules(cfg), cfg.rank, Some(cfg.userLogin), tags.value);
        if refused != [] {
          return Some(PolicyFailure);
        }
      }
      if prefix in keys {
        return Some(StoreFailure);
      }
      keys := keys[prefix := PreAuthKey(secret, reusable, ephemeral, expiration, false, false, tags, cfg.userId)];
      failure := None;
    }

    method RevokeAuthKey(prefix: string) returns (failure: Option<Failure>)
      requires Valid()
      modifies this
      ensures Valid() && (State(), failure) == RevokeKey(old(State()), prefix)
    {
      if prefix !in keys {
        return Some(Missing);
      }
      keys := keys[prefix := keys[prefix].(revoked := true)];
      failure := None;
    }

    method LogoutKey(machineKey: Key, nodeKey: Key) returns (r: RegisterResponse)
      requires Valid()
      modifies this, bus, bus.pending
      ensures Valid() && (State(), r) == Logout(cfg, old(State()), machineKey, nodeKey)
    {
      var i := IndexOfKey(nodes, nodeKey);
      if i.None? || nodes[i.value].machineKey != machineKey {
        return Failed(Missing);
      }
      r := LogoutStored(nodes[i.value], false);
    }

    method ApproveNodeRoute(nodeKey: Key, route: Option<Cidr>) returns (failure: Option<Failure>)
      requires Valid()
      modifies this, bus, bus.pending
      ensures Valid() && (State(), failure) == ApproveRoute(cfg, old(State()), nodeKey, route)
    {
      if route.None? {
        return Some(BadRoute);
      }
      var i := IndexOfKey(nodes, nodeKey);
      if i.None? {
        return Some(Missing);
      }
      var n, r := nodes[i.value], Net.Canonical(route.value);
      if r !in n.approvedRoutes {
        Save(n.(approvedRoutes := SortDedup(n.approvedRoutes + [r])));
      }
      failure := None;
    }

    method DisapproveNodeRoute(nodeKey: Key, route: Option<Cidr>) returns (failure: Option<Failure>)
      requires Valid()
      modifies this, bus, bus.pending
      ensures Valid() && (State(), failure) == DisapproveRoute(cfg, old(State()), nodeKey, route)
    {
      if route.None? {
        return Some(BadRoute);
      }
      var i := IndexOfKey(nodes, nodeKey);
      if i.None? {
        return Some(Missing);
      }
      var n, r := nodes[i.value], Net.Canonical(route.value);
      if r in n.approvedRoutes {
        Save(n.(approvedRoutes := Without(n.approvedRoutes, r)));
      }
      failure := None;
    }

    method StoreObserved(before: DomainNode, node: DomainNode)
      requires Valid()
      modifies this, bus, bus.pending
      ensures Valid() && State() == Observe(cfg, old(State()), before, node)
    {
      UpsertKeepsValid(nodes, node);
      nodes := Upsert(nodes, node);
      if node != before {
        PublishChange(NodeChanged(node.id));
      }
      PublishChange(PeerSeen(node.id));
    }

    method AdmitSession(id: int, ephemeral: bool, now: Timestamp) returns (sid: int)
      requires Valid()
      modifies sessions, bus, bus.pending
      ensures Valid() && (State(), sid) == OpenSession(cfg, old(State()), id, ephemeral, now)
    {
      var events;
      sid, events := sessions.OpenSession(id, ephemeral, now);
      if Sessions.Online(id) in events {
        PublishChange(OnlineChanged(id, true));
      }
    }

    method ObserveRequest(before: DomainNode, req: MapRequest, now: Timestamp) returns (node: DomainNode, failure: Option<Failure>)
      requires Valid()
      modifies this
      ensures Valid()
      ensures var (s, outcome) := AfterTags(cfg, old(State()), Observed(before, req, now), req);
              && State() == s
              && (if outcome.TagsFailed? then failure == Some(outcome.failure)
                  else failure == None && node == if outcome.TagsChanged? then outcome.node else Observed(before, req, now))
    {
      node, failure := Observed(before, req, now), None;
      if (req.stream && req.version >= STREAMING_READ_ONLY_CAPVER) || req.hostinfo.None? {
        return;
      }
      var login := if node.userId.Some? && node.userId.value in users then Some(users[node.userId.value]) else None;
      var outcome := ApplyTags(node, login, RequestedTags(req.hostinfo));
      match outcome {
        case TagsKept =>
        case TagsChanged(changed) => node := changed;
        case TagsFailed(f) => failure := Some(f);
      }
    }

    method HandleMapRequest(machineKey: Key, req: MapRequest, now: Timestamp) returns (outcome: MapOutcome)
      requires Valid()
      modifies this, sessions, bus, bus.pending
      ensures Valid() && (State(), outcome) == HandleMap(cfg, old(State()), machineKey, req, now)
    {
      if req.version < MIN_SUPPORTED_CAPVER {
        return MapFailed(BadVersion);
      }
      if |req.endpointTypes| != |req.endpoints| {
        return MapFailed(BadEndpointTypes);
      }
      var i := IndexOfKey(nodes, req.nodeKey);
      if i.None? || nodes[i.value].machineKey != machineKey {
        return MapFailed(Missing);
      }
      var before := nodes[i.value];
      var node, failure := ObserveRequest(before, req, now);
      if failure.Some? {
        return MapFailed(failure.value);
      }
      StoreObserved(before, node);
      if req.stream {
        var sid := AdmitSession(node.id, node.ephemeral, now);
        return Stream(sid, node.id);
      }
      outcome := if req.omitPeers && !req.readOnly then LiteUpdate else FullFrame;
    }

    method DropSession(sid: int, now: Timestamp)
      requires Valid()
      modifies sessions
      ensures Valid() && State() == CloseSession(cfg, old(State()), sid, now)
    {
      var _ := sessions.CloseSession(sid, now);
    }

    method ReapOne(e: Sessions.SessionEvent)
      requires Valid()
      modifies this, bus, bus.pending
      ensures Valid() && State() == ReapEvent(cfg, old(State()), e)
    {
      match e {
        case Offline(id) => PublishChange(OnlineChanged(id, false));
        case EphemeralExpired(id) =>
          var i := IndexOfId(nodes, id);
          if i.Some? {
            DeleteKeepsValid(nodes, nodes[i.value].nodeKey);
            nodes := Delete(nodes, nodes[i.value].nodeKey);
          }
          PublishChange(NodeRemoved(id));
        case Online(_) =>
      }
    }

    method ReapSessions(now: Timestamp) returns (ghost order: seq<int>)
      requires Valid()
      modifies this, sessions, bus, bus.pending
      ensures Valid() && State() == Reap(cfg, old(State()), now, order)
      ensures Sessions.Visits(order, old(State()).reg.nodes.Keys)
    {
      var events;
      events, order := sessions.Sweep(now);
      ReapAll(events);
    }

    method ReapAll(events: seq<Sessions.SessionEvent>)
      requires Valid()
      modifies this, bus, bus.pending
      ensures Valid() && State() == ReapEvents(cfg, old(State()), events)
    {
      var k := 0;
      while k < |events|
        invariant k <= |events| && Valid() && State() == ReapEvents(cfg, old(State()), events[..k])
      {
        ReapEventsSnoc(cfg, old(State()), events, k);
        ReapOne(events[k]);
        k := k + 1;
      }
      assert events[..k] == events;
    }

    method CompiledVisibility(i: nat) returns (visible: set<int>)
      requires Valid() && i < |nodes|
      ensures visible == VisibleIds(cfg, users, nodes, nodes[i])
    {
      var compileNodes := CompileNodes(users, nodes);
      assert Compile.UniqueIds(compileNodes);
      var compiled := Compile.CompilePolicy(cfg.policy, compileNodes);
      assert Compile.CompiledFor(cfg.policy, compileNodes, compiled, compileNodes[i]);
      visible := compiled.visibility[nodes[i].id];
    }

    /** The peers a session's node may see now: the rows the compiled policy shows it. */
    method CurrentPeers(id: int, version: nat) returns (peers: Current)
      requires Valid()
      ensures peers == View(cfg, State(), id, version)
    {
      peers := map[];
      var i := IndexOfId(nodes, id);
      if i.None? {
        return;
      }
      var visible := CompiledVisibility(i.value);
      peers := GatherPeers(cfg, users, nodes, Sessions.Registry(sessions.nextSessionId, sessions.nodes, sessions.sessionToNode),
                           nodes[i.value], version, visible);
    }
  }

  /** The peer loop of the map builder, over the rows and the visibility set of one compile. */
  method GatherPeers(cfg: Config, users: map<int, string>, t: Table, reg: Sessions.Registry, self: DomainNode, version: nat, visible: set<int>)
      returns (peers: Current)
    requires Ranked(cfg.policy.names, cfg.rank) && visible == VisibleIds(cfg, users, t, self)
    ensures peers == PeersAmong(cfg, users, t, reg, self, version, t)
  {
    peers := map[];
    var k := 0;
    while k < |t|
      invariant 0 <= k <= |t| && peers == PeersAmong(cfg, users, t, reg, self, version, t[..k])
    {
      PeersAmongStep(cfg, users, t, reg, self, version, k);
      var n := t[k];
      if n.nodeKey != self.nodeKey && n.machineAuthorized && n.id in visible {
        peers := peers[n.id := (PeerNode(cfg, users, n, Sessions.IsOnline(reg, n.id), version), n.keyExpiry)];
      }
      k := k + 1;
    }
    assert t[..|t|] == t;
  }

  lemma ReapEventsSnoc(cfg: Config, s: State, events: seq<Sessions.SessionEvent>, k: nat)
    requires k < |events|
    ensures ReapEvents(cfg, s, events[..k + 1]) == ReapEvent(cfg, ReapEvents(cfg, s, events[..k]), events[k])
  {
    assert events[..k + 1][..k] == events[..k];
  }

  /** One more row: it joins the peers exactly when it is one. */
  lemma PeersAmongStep(cfg: Config, users: map<int, string>, t: Table, reg: Sessions.Registry, self: DomainNode, version: nat, k: nat)
    requires Ranked(cfg.policy.names, cfg.rank) && k < |t|
    ensures var rest := PeersAmong(cfg, users, t, reg, self, version, t[..k]);
            PeersAmong(cfg, users, t, reg, self, version, t[..k + 1]) ==
              if IsPeer(cfg, users, t, self, t[k])
              then rest[t[k].id := (PeerNode(cfg, users, t[k], Sessions.IsOnline(reg, t[k].id), version), t[k].keyExpiry)] else rest
  {
    assert t[..k + 1][..k] == t[..k];
  }
}
