/** The control plane's registration, logout, route and map operations (crabscale-control/src/lib.rs). */
module Plane {
  import opened Ordered
  import opened Net
  import opened Groups
  import opened Tags
  import opened Routes
  import opened Store
  import opened Allocator
  import opened Events
  import opened Delta
  import Compile
  import Sessions

  datatype Config = Config(
    policy: Compile.Policy,
    owners: Owners,
    approvers: seq<Approver>,
    rank: map<string, nat>,
    userId: int,
    userLogin: string,
    bootstrap: Option<(string, string)>,
    tailnet: string,
    prefix4: Cidr,
    prefix6: Cidr,
    pendingTtl: int,
    graceSeconds: int,
    maxEvents: nat)

  /** Group references are acyclic, and the configured prefixes are addresses of their family. */
  ghost predicate ConfigValid(cfg: Config) {
    && Ranked(cfg.policy.names, cfg.rank)
    && !cfg.prefix4.v6 && Net.Valid(cfg.prefix4)
    && cfg.prefix6.v6 && Net.Valid(cfg.prefix6)
  }

  function TagRules(cfg: Config): TagPolicy {
    TagPolicy(cfg.policy.names, cfg.owners)
  }

  datatype State = State(
    nodes: Table,
    users: map<int, string>,
    nextUser: int,
    keys: map<string, PreAuthKey>,
    pending: map<string, Pending>,
    reg: Sessions.Registry,
    bus: Bus)

  datatype Failure =
    | StoreFailure
    | Missing
    | PolicyFailure
    | TagsRefused(tags: seq<string>)
    | NoFreeAddress
    | BadRoute
    | BadVersion
    | BadEndpointTypes
    | BadKeyPrefix

  datatype Followup = NoFollowup | BadFollowup | FollowupOf(authId: string)

  datatype Auth = NoAuth | BadAuth | AuthKey(prefix: string, secret: string)

  datatype RegisterRequest = RegisterRequest(
    nodeKey: Key,
    followup: Followup,
    auth: Auth,
    expiry: Option<Timestamp>,
    hostinfo: Option<Hostinfo>,
    version: nat,
    ephemeral: bool)

  datatype RegisterResponse =
    | Authorized
    | Refused(reason: string)
    | KeyExpired(reason: string)
    | Visit(authId: string)
    | LoggedOut(keyExpired: bool)
    | Failed(failure: Failure)

  /** What chance supplies to one request: a fresh auth id and the address draws. */
  datatype Chance = Chance(authId: string, draws4: seq<nat>, draws6: seq<nat>)

  ghost function Publish(cfg: Config, s: State, e: ChangeEvent): State {
    s.(bus := Published(cfg.maxEvents, s.bus, e))
  }

  // ---------------------------------------------------------------------
  // Users, keys and tags.

  predicate HasLogin(users: map<int, string>, login: string) {
    exists id :: id in users && users[id] == login
  }

  /** The default user, created on demand; a login taken by another user makes the store refuse. */
  function EnsureDefaultUser(cfg: Config, s: State): Option<State> {
    if cfg.userId in s.users then
      Some(s)
    else if HasLogin(s.users, cfg.userLogin) then
      None
    else
      Some(s.(users := s.users[cfg.userId := cfg.userLogin],
              nextUser := if s.nextUser <= cfg.userId then cfg.userId + 1 else s.nextUser))
  }

  function EnsureBootstrapKey(cfg: Config, s: State): State {
    if cfg.bootstrap.None? || cfg.bootstrap.value.0 in s.keys then
      s
    else
      s.(keys := s.keys[cfg.bootstrap.value.0 :=
        PreAuthKey(cfg.bootstrap.value.1, true, false, None, false, false, None, cfg.userId)])
  }

  /** Finds a user by login, creating it on first use. */
  ghost function ResolveUser(s: State, login: string): (State, int) {
    if HasLogin(s.users, login) then
      var id :| id in s.users && s.users[id] == login;
      (s, id)
    else
      (s.(users := s.users[s.nextUser := login], nextUser := s.nextUser + 1), s.nextUser)
  }

  function OwnerLogin(s: State, n: DomainNode): Option<string> {
    if n.userId.Some? && n.userId.value in s.users then Some(s.users[n.userId.value]) else None
  }

  function RequestedTags(h: Option<Hostinfo>): seq<string> {
    if h.Some? && h.value.requestTags.Some? then h.value.requestTags.value else []
  }

  function TagsOf(n: DomainNode): seq<string> {
    if n.tags.Some? then n.tags.value else []
  }

  datatype TagOutcome = TagsKept | TagsChanged(node: DomainNode) | TagsFailed(failure: Failure)

  /** A request to change a node's tags, authorized against the given login. */
  ghost function ApplyRequestTags(cfg: Config, s: State, n: DomainNode, login: Option<string>, requested: seq<string>): (State, TagOutcome)
    requires Ranked(cfg.policy.names, cfg.rank)
  {
    var want := SortTexts(requested);
    if want == SortTexts(TagsOf(n)) then
      (s, TagsKept)
    else if want == [] then
      if n.userId.Some? then
        (s, TagsChanged(n.(tags := None)))
      else if login.None? then
        (s, TagsFailed(PolicyFailure))
      else
        var (s', id) := ResolveUser(s, login.value);
        (s', TagsChanged(n.(tags := None, userId := Some(id))))
    else
      var rejected := UnauthorizedTags(TagRules(cfg), cfg.rank, login, want);
      if rejected != [] then
        (s, TagsFailed(TagsRefused(rejected)))
      else
        (s, TagsChanged(n.(tags := Some(want), userId := None)))
  }

  /** A usable pre-auth key: known, with the right secret, not revoked, expired or spent. */
  function ValidKey(s: State, auth: Auth, now: Timestamp): Option<PreAuthKey> {
    if !auth.AuthKey? || auth.prefix !in s.keys then
      None
    else
      var key := s.keys[auth.prefix];
      if key.secret != auth.secret || key.revoked then None
      else if key.expiration.Some? && key.expiration.value < now then None
      else if !key.reusable && key.used then None
      else Some(key)
  }

  function Consume(s: State, prefix: string): State {
    if prefix in s.keys && !s.keys[prefix].reusable
    then s.(keys := s.keys[prefix := s.keys[prefix].(used := true)]) else s
  }

  // ---------------------------------------------------------------------
  // Creating nodes.

  function UsedAddresses(t: Table, v6: bool): set<nat> {
    set n, a | n in t && a in n.addresses && a.v6 == v6 :: a.addr
  }

  function Draw(r: Range, used: set<nat>, draws: seq<nat>): Option<nat> {
    if r.Hosts? && r.count > 0 then FirstFree(r, used, draws) else None
  }

  function Hostname(h: Option<Hostinfo>): string {
    if h.Some? && h.value.hostname != "" then h.value.hostname else "node"
  }

  /** The canonical, sorted routes of a client's report. */
  function AdvertisedRoutes(h: Option<Hostinfo>): seq<Cidr> {
    if h.Some? && h.value.routableIps.Some? then SortDedup(CanonicalAll(h.value.routableIps.value)) else []
  }

  function CanonicalAll(rs: seq<Option<Cidr>>): seq<Cidr> {
    if rs == [] then
      []
    else
      var rest, r := CanonicalAll(rs[..|rs| - 1]), rs[|rs| - 1];
      if r.Some? then rest + [Net.Canonical(r.value)] else rest
  }

  function NewNode(cfg: Config, s: State, machineKey: Key, nodeKey: Key, h: Option<Hostinfo>, version: nat,
                   userId: int, tags: Option<seq<string>>, ephemeral: bool, now: Timestamp, chance: Chance): Option<DomainNode> {
    var a4 := Draw(HostRange4(cfg.prefix4.addr, cfg.prefix4.bits), UsedAddresses(s.nodes, false), chance.draws4);
    var a6 := Draw(HostRange6(cfg.prefix6.addr, cfg.prefix6.bits), UsedAddresses(s.nodes, true), chance.draws6);
    if a4.None? || a6.None? then
      None
    else
      var addresses := [Cidr(false, a4.value, 32), Cidr(true, a6.value, 128)];
      Some(DomainNode(0, 0, Hostname(h) + "." + cfg.tailnet + ".",
                      if tags.Some? && tags.value != [] then None else Some(userId),
                      nodeKey, machineKey, "", addresses, Some(addresses), [], [], 1, h, now, version, tags,
                      AdvertisedRoutes(h), [], true, ephemeral, Some(now), None))
  }

  // ---------------------------------------------------------------------
  // Registration.

  function StartInteractive(cfg: Config, s: State, machineKey: Key, req: RegisterRequest, now: Timestamp, chance: Chance): (State, RegisterResponse) {
    (s.(pending := s.pending[chance.authId :=
        Pending(machineKey, req.nodeKey, req.hostinfo, req.expiry, req.version, req.ephemeral, now + cfg.pendingTtl, Undecided)]),
     Visit(chance.authId))
  }

  /** Stores a node and tells the sessions. */
  ghost function SaveNode(cfg: Config, s: State, n: DomainNode): State {
    Publish(cfg, s.(nodes := Upsert(s.nodes, n)), NodeChanged(UpsertId(s.nodes, n)))
  }

  ghost function LogoutNode(cfg: Config, s: State, n: DomainNode, keyExpired: bool): (State, RegisterResponse) {
    if n.tags.Some? then
      (s, Authorized)
    else if n.ephemeral then
      (Publish(cfg, s.(nodes := Delete(s.nodes, n.nodeKey)), NodeRemoved(n.id)), LoggedOut(keyExpired))
    else
      (SaveNode(cfg, s, n.(machineAuthorized := false)), LoggedOut(keyExpired))
  }

  /** Relogin of an authorized node: only its tags may change. */
  ghost function Relogin(cfg: Config, s: State, n: DomainNode, h: Option<Hostinfo>): (State, RegisterResponse)
    requires Ranked(cfg.policy.names, cfg.rank)
  {
    var (s', outcome) := ApplyRequestTags(cfg, s, n, OwnerLogin(s, n), RequestedTags(h));
    match outcome
    case TagsKept => (s', Authorized)
    case TagsChanged(node) => (SaveNode(cfg, s', node), Authorized)
    case TagsFailed(f) => (s', Failed(f))
  }

  ghost function RegisterKnown(cfg: Config, s: State, n: DomainNode, machineKey: Key, req: RegisterRequest,
      now: Timestamp, chance: Chance): (State, RegisterResponse)
    requires Ranked(cfg.policy.names, cfg.rank)
  {
    if n.machineKey != machineKey then
      (s, Refused("node key is already registered to another machine"))
    else if req.expiry.Some? && req.expiry.value < now then
      LogoutNode(cfg, s, n, true)
    else if req.expiry.Some? && req.expiry.value > now then
      (s, Refused("clients may not extend their own key"))
    else if n.machineAuthorized then
      Relogin(cfg, s, n, req.hostinfo)
    else
      var key := ValidKey(s, req.auth, now);
      if key.Some? then
        (Consume(SaveNode(cfg, s, n.(machineAuthorized := true, tags := key.value.tags, ephemeral := key.value.ephemeral)),
                 req.auth.prefix),
         Authorized)
      else
        StartInteractive(cfg, s, machineKey, req, now, chance)
  }

  ghost function RegisterNew(cfg: Config, s: State, machineKey: Key, req: RegisterRequest, now: Timestamp,
      chance: Chance): (State, RegisterResponse) {
    var key := ValidKey(s, req.auth, now);
    var tagged := key.Some? && key.value.tags.Some? && key.value.tags.value != [];
    if !tagged && req.expiry.Some? && req.expiry.value < now then
      (s, KeyExpired("node key is expired"))
    else if !tagged && req.expiry.Some? && req.expiry.value > now then
      (s, Refused("clients may not extend their own key"))
    else if key.None? then
      StartInteractive(cfg, s, machineKey, req, now, chance)
    else if key.value.tags.None? && RequestedTags(req.hostinfo) != [] then
      (s, Failed(PolicyFailure))
    else
      var node := NewNode(cfg, s, machineKey, req.nodeKey, req.hostinfo, req.version, key.value.userId,
                          key.value.tags, key.value.ephemeral, now, chance);
      if node.None? then
        (s, Failed(NoFreeAddress))
      else
        (Consume(SaveNode(cfg, s, node.value), req.auth.prefix), Authorized)
  }

  function DropPending(s: State, authId: string): State {
    s.(pending := s.pending - {authId})
  }

  ghost function PollFollowup(cfg: Config, s: State, machineKey: Key, authId: string, now: Timestamp, chance: Chance): (State, RegisterResponse) {
    if authId !in s.pending then
      (s, Refused("registration expired; start a new registration"))
    else
      var entry := s.pending[authId];
      if entry.machineKey != machineKey then
        (s, Refused("auth id does not match machine key"))
      else if entry.expiresAt < now then
        (DropPending(s, authId), Refused("registration expired; start a new registration"))
      else
        match entry.verdict
        case Undecided => (s, Visit(authId))
        case Rejected => (DropPending(s, authId), Refused("registration rejected"))
        case Approved(userId, tags) => Enroll(cfg, DropPending(s, authId), machineKey, entry, userId, tags, now, chance)
  }

  /** Creates the node of an approved registration; a repeated followup finds it done. */
  ghost function Enroll(cfg: Config, s: State, machineKey: Key, entry: Pending, userId: int,
      tags: Option<seq<string>>, now: Timestamp, chance: Chance): (State, RegisterResponse) {
    var i := IndexOfKey(s.nodes, entry.nodeKey);
    if i.Some? && s.nodes[i.value].machineKey == machineKey && s.nodes[i.value].machineAuthorized then
      (s, Authorized)
    else
      var node := NewNode(cfg, s, machineKey, entry.nodeKey, entry.hostinfo, entry.version, userId, tags, entry.ephemeral, now, chance);
      if node.None? then (s, Failed(NoFreeAddress)) else (SaveNode(cfg, s, node.value), Authorized)
  }

  ghost function Register(cfg: Config, s: State, machineKey: Key, req: RegisterRequest, now: Timestamp, chance: Chance): (State, RegisterResponse)
    requires Ranked(cfg.policy.names, cfg.rank)
  {
    var ready := EnsureDefaultUser(cfg, s);
    if ready.None? then
      (s, Failed(StoreFailure))
    else
      var s' := EnsureBootstrapKey(cfg, ready.value);
      match req.followup
      case BadFollowup => (s', Refused("invalid followup URL"))
      case FollowupOf(authId) => PollFollowup(cfg, s', machineKey, authId, now, chance)
      case NoFollowup =>
        var i := IndexOfKey(s'.nodes, req.nodeKey);
        if i.Some? then RegisterKnown(cfg, s', s'.nodes[i.value], machineKey, req, now, chance)
        else RegisterNew(cfg, s', machineKey, req, now, chance)
  }

  // ---------------------------------------------------------------------
  // Administration.

  ghost function ApprovePending(cfg: Config, s: State, authId: string, login: string, now: Timestamp): (State, Option<Failure>)
    requires Ranked(cfg.policy.names, cfg.rank)
  {
    if authId !in s.pending then
      (s, Some(Missing))
    else if s.pending[authId].expiresAt < now then
      (DropPending(s, authId), Some(Missing))
    else
      var entry := s.pending[authId];
      var (s', userId) := ResolveUser(s, login);
      var requested := RequestedTags(entry.hostinfo);
      var rejected := UnauthorizedTags(TagRules(cfg), cfg.rank, Some(login), requested);
      if requested != [] && rejected != [] then
        (s', Some(TagsRefused(rejected)))
      else
        var tags := if requested == [] then None else Some(requested);
        (s'.(pending := s'.pending[authId := entry.(verdict := Approved(userId, tags))]), None)
  }

  function RejectPending(s: State, authId: string, now: Timestamp): (State, Option<Failure>) {
    if authId !in s.pending then
      (s, Some(Missing))
    else if s.pending[authId].expiresAt < now then
      (DropPending(s, authId), Some(Missing))
    else
      (s.(pending := s.pending[authId := s.pending[authId].(verdict := Rejected)]), None)
  }

  function CreateKey(cfg: Config, s: State, prefix: string, secret: string, reusable: bool, ephemeral: bool,
                     expiration: Option<Timestamp>, tags: Option<seq<string>>): (State, Option<Failure>)
    requires Ranked(cfg.policy.names, cfg.rank)
  {
    var ready := EnsureDefaultUser(cfg, s);
    if ready.None? then
      (s, Some(StoreFailure))
    else if prefix == "" || !(forall i :: 0 <= i < |prefix| ==> IsAlnum(prefix[i])) then
      (ready.value, Some(BadKeyPrefix))
    else if tags.Some? && UnauthorizedTags(TagRules(cfg), cfg.rank, Some(cfg.userLogin), tags.value) != [] then
      (ready.value, Some(PolicyFailure))
    else if prefix in ready.value.keys then
      (ready.value, Some(StoreFailure))
    else
      (ready.value.(keys := ready.value.keys[prefix :=
         PreAuthKey(secret, reusable, ephemeral, expiration, false, false, tags, cfg.userId)]), None)
  }

  function RevokeKey(s: State, prefix: string): (State, Option<Failure>) {
    if prefix in s.keys then (s.(keys := s.keys[prefix := s.keys[prefix].(revoked := true)]), None)
    else (s, Some(Missing))
  }

  ghost function Logout(cfg: Config, s: State, machineKey: Key, nodeKey: Key): (State, RegisterResponse) {
    var i := IndexOfKey(s.nodes, nodeKey);
    if i.None? || s.nodes[i.value].machineKey != machineKey then (s, Failed(Missing))
    else LogoutNode(cfg, s, s.nodes[i.value], false)
  }

  ghost function ApproveRoute(cfg: Config, s: State, nodeKey: Key, route: Option<Cidr>): (State, Option<Failure>) {
    var i := IndexOfKey(s.nodes, nodeKey);
    if route.None? then
      (s, Some(BadRoute))
    else if i.None? then
      (s, Some(Missing))
    else
      var n, r := s.nodes[i.value], Net.Canonical(route.value);
      if r in n.approvedRoutes then (s, None)
      else (SaveNode(cfg, s, n.(approvedRoutes := SortDedup(n.approvedRoutes + [r]))), None)
  }

  function Without(rs: seq<Cidr>, r: Cidr): (out: seq<Cidr>)
    ensures forall x :: x in out <==> x in rs && x != r
  {
    if rs == [] then
      []
    else
      assert rs == rs[..|rs| - 1] + [rs[|rs| - 1]];
      var rest := Without(rs[..|rs| - 1], r);
      if rs[|rs| - 1] == r then rest else rest + [rs[|rs| - 1]]
  }

  ghost function DisapproveRoute(cfg: Config, s: State, nodeKey: Key, route: Option<Cidr>): (State, Option<Failure>) {
    var i := IndexOfKey(s.nodes, nodeKey);
    if route.None? then
      (s, Some(BadRoute))
    else if i.None? then
      (s, Some(Missing))
    else
      var n, r := s.nodes[i.value], Net.Canonical(route.value);
      if r !in n.approvedRoutes then (s, None)
      else (SaveNode(cfg, s, n.(approvedRoutes := Without(n.approvedRoutes, r))), None)
  }

  // ---------------------------------------------------------------------
  // Map requests and the session lifecycle.

  const MIN_SUPPORTED_CAPVER: nat := 113
  const STREAMING_READ_ONLY_CAPVER: nat := 68

  datatype MapRequest = MapRequest(
    version: nat,
    nodeKey: Key,
    discoKey: Key,
    endpoints: seq<string>,
    endpointTypes: seq<nat>,
    stream: bool,
    omitPeers: bool,
    readOnly: bool,
    hostinfo: Option<Hostinfo>)

  datatype MapOutcome =
    | LiteUpdate
    | FullFrame
    | Stream(sessionId: int, nodeId: int)
    | MapFailed(failure: Failure)

  /** The node's fields after a map request, before any tag change. */
  function Observed(n: DomainNode, req: MapRequest, now: Timestamp): DomainNode {
    var seen := n.(discoKey := req.discoKey, lastSeen := Some(now));
    if req.stream && req.version >= STREAMING_READ_ONLY_CAPVER then
      seen
    else
      var h := req.hostinfo;
      var told := if h.None? then seen else
        seen.(hostinfo := h, advertisedRoutes := AdvertisedRoutes(h),
              homeDerp := if h.value.preferredDerp.Some? && h.value.preferredDerp.value != 0 then h.value.preferredDerp.value else seen.homeDerp);
      told.(endpoints := req.endpoints, endpointTypes := req.endpointTypes)
  }

  ghost function AfterTags(cfg: Config, s: State, n: DomainNode, req: MapRequest): (State, TagOutcome)
    requires Ranked(cfg.policy.names, cfg.rank)
  {
    if (req.stream && req.version >= STREAMING_READ_ONLY_CAPVER) || req.hostinfo.None? then (s, TagsKept)
    else ApplyRequestTags(cfg, s, n, OwnerLogin(s, n), RequestedTags(req.hostinfo))
  }

  /** Stores what a map request reported and tells the sessions. */
  ghost function Observe(cfg: Config, s: State, before: DomainNode, node: DomainNode): State {
    var stored := s.(nodes := Upsert(s.nodes, node));
    var told := if node != before then Publish(cfg, stored, NodeChanged(node.id)) else stored;
    Publish(cfg, told, PeerSeen(node.id))
  }

  ghost function OpenSession(cfg: Config, s: State, id: int, ephemeral: bool, now: Timestamp): (State, int) {
    var (reg, evs) := Sessions.Open(s.reg, id, ephemeral, now);
    var admitted := s.(reg := reg);
    (if Sessions.Online(id) in evs then Publish(cfg, admitted, OnlineChanged(id, true)) else admitted, s.reg.next)
  }

  ghost function HandleMap(cfg: Config, s: State, machineKey: Key, req: MapRequest, now: Timestamp): (State, MapOutcome)
    requires Ranked(cfg.policy.names, cfg.rank)
  {
    var i := IndexOfKey(s.nodes, req.nodeKey);
    if req.version < MIN_SUPPORTED_CAPVER then
      (s, MapFailed(BadVersion))
    else if |req.endpointTypes| != |req.endpoints| then
      (s, MapFailed(BadEndpointTypes))
    else if i.None? || s.nodes[i.value].machineKey != machineKey then
      (s, MapFailed(Missing))
    else
      var before := s.nodes[i.value];
      var seen := Observed(before, req, now);
      var (s', outcome) := AfterTags(cfg, s, seen, req);
      if outcome.TagsFailed? then
        (s', MapFailed(outcome.failure))
      else
        var node := if outcome.TagsChanged? then outcome.node else seen;
        var told := Observe(cfg, s', before, node);
        if !req.stream && req.omitPeers && !req.readOnly then
          (told, LiteUpdate)
        else if req.stream then
          var (admitted, sid) := OpenSession(cfg, told, node.id, node.ephemeral, now);
          (admitted, Stream(sid, node.id))
        else
          (told, FullFrame)
  }

  function CloseSession(cfg: Config, s: State, sid: int, now: Timestamp): State {
    s.(reg := Sessions.Close(cfg.graceSeconds, s.reg, sid, now))
  }

  function DeleteById(t: Table, id: int): Table {
    var i := IndexOfId(t, id);
    if i.Some? then Delete(t, t[i.value].nodeKey) else t
  }

  ghost function ReapEvent(cfg: Config, s: State, e: Sessions.SessionEvent): State {
    match e
    case Offline(id) => Publish(cfg, s, OnlineChanged(id, false))
    case EphemeralExpired(id) => Publish(cfg, s.(nodes := DeleteById(s.nodes, id)), NodeRemoved(id))
    case Online(_) => s
  }

  ghost function ReapEvents(cfg: Config, s: State, evs: seq<Sessions.SessionEvent>): State {
    if evs == [] then s else ReapEvent(cfg, ReapEvents(cfg, s, evs[..|evs| - 1]), evs[|evs| - 1])
  }

  /** Offline transitions and ephemeral expiry; `order` is the order the registry visits its nodes in. */
  ghost function Reap(cfg: Config, s: State, now: Timestamp, order: seq<int>): State {
    ReapEvents(cfg, s.(reg := Sessions.Tick(s.reg, now)), Sessions.TickEvents(s.reg.nodes, now, order))
  }

  // ---------------------------------------------------------------------
  // What a session may see.

  function CompileNodeOf(users: map<int, string>, n: DomainNode): Compile.CompileNode {
    Compile.CompileNode(n.id,
      if n.userId.Some? && n.userId.value in users then Some(users[n.userId.value]) else None,
      n.addresses, TagsOf(n))
  }

  function CompileNodes(users: map<int, string>, t: Table): seq<Compile.CompileNode> {
    seq(|t|, i requires 0 <= i < |t| => CompileNodeOf(users, t[i]))
  }

  /** The wire form of a peer for one client version. */
  function PeerNode(cfg: Config, users: map<int, string>, n: DomainNode, online: bool, version: nat): WireNode
    requires Ranked(cfg.policy.names, cfg.rank)
  {
    var routes := EffectiveRoutes(cfg.policy.names, cfg.rank, cfg.approvers, CompileNodeOf(users, n), n.approvedRoutes, n.advertisedRoutes);
    WireNode(n.id, n.stableId, n.name, if n.userId.Some? then n.userId.value else 0, n.machineKey, n.addresses,
             PeerAllowedIps(version, n.addresses, n.allowedIps, routes), n.hostinfo, n.created, n.tags, map[],
             if routes == [] then [] else NonAddressRoutes(routes, n.addresses),
             n.machineAuthorized, [], n.endpoints, n.homeDerp, n.nodeKey, n.discoKey, Some(online), n.lastSeen, n.cap)
  }

  /** The ids a node sees under the compiled policy. */
  ghost function VisibleIds(cfg: Config, users: map<int, string>, t: Table, n: DomainNode): set<int> {
    var nodes := CompileNodes(users, t);
    Compile.VisibleTo(Compile.Entries(cfg.policy, nodes, cfg.policy.acls), nodes, CompileNodeOf(users, n))
  }

  /** Whether a stored node belongs in another node's peer list. */
  ghost predicate IsPeer(cfg: Config, users: map<int, string>, t: Table, self: DomainNode, n: DomainNode) {
    n.nodeKey != self.nodeKey && n.machineAuthorized && n.id in VisibleIds(cfg, users, t, self)
  }

  /** The authorized, visible peers of a node among the first rows of the table. */
  ghost function PeersAmong(cfg: Config, users: map<int, string>, t: Table, reg: Sessions.Registry, self: DomainNode,
      version: nat, rows: Table): Current
    requires Ranked(cfg.policy.names, cfg.rank)
  {
    if rows == [] then
      map[]
    else
      var rest, n := PeersAmong(cfg, users, t, reg, self, version, rows[..|rows| - 1]), rows[|rows| - 1];
      if IsPeer(cfg, users, t, self, n)
      then rest[n.id := (PeerNode(cfg, users, n, Sessions.IsOnline(reg, n.id), version), n.keyExpiry)] else rest
  }

  /** The current peers of the node with the given id; nothing when there is no such node. */
  ghost function View(cfg: Config, s: State, id: int, version: nat): Current
    requires Ranked(cfg.policy.names, cfg.rank)
  {
    var i := IndexOfId(s.nodes, id);
    if i.None? then map[] else PeersAmong(cfg, s.users, s.nodes, s.reg, s.nodes[i.value], version, s.nodes)
  }
}
