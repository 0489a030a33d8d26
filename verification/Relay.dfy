/** The DERP relay's connection registry, presence notices and packet routing (crabscale-derp/src/server.rs). */
module Relay {
  import opened Ordered
  import Frame

  const OUTBOUND_CAPACITY: nat := 256
  const MAX_PACKET_LEN: nat := 64 * 1024

  type NodeKey = string

  datatype GoneReason = Disconnected | NotHere

  datatype Notice =
    | Present(key: NodeKey)
    | Gone(key: NodeKey, reason: GoneReason)
    | Recv(src: NodeKey, packet: seq<Frame.Byte>)
    | Alive

  /**
   * A registered connection: its key, its bounded outbound queue, what its writer has put on the socket, and
   * whether a presence notice was ever dropped because the queue was full.
   */
  datatype Conn = Conn(node: NodeKey, queue: seq<Notice>, written: seq<Notice>, missed: bool)

  datatype Registry = Registry(nextId: int, byKey: map<NodeKey, set<int>>, conns: map<int, Conn>, relayed: nat, dropped: nat)

  const NEW: Registry := Registry(1, map[], map[], 0, 0)

  /** Everything the connection was told, in order. */
  function History(c: Conn): seq<Notice> {
    c.written + c.queue
  }

  /** The peers a client that reads these notices takes to be present. */
  function Known(notices: seq<Notice>): set<NodeKey> {
    if notices == [] then
      {}
    else
      Learn(Known(notices[..|notices| - 1]), notices[|notices| - 1])
  }

  function Learn(known: set<NodeKey>, n: Notice): set<NodeKey> {
    if n.Present? then known + {n.key} else if n.Gone? then known - {n.key} else known
  }

  predicate HasRoom(c: Conn) {
    |c.queue| < OUTBOUND_CAPACITY
  }

  /** A send that never waits: a full queue drops the notice. */
  function Push(c: Conn, n: Notice): (r: Conn)
    ensures r.node == c.node && r.written == c.written
    ensures History(r) == if HasRoom(c) then History(c) + [n] else History(c)
  {
    if HasRoom(c) then c.(queue := c.queue + [n]) else c.(missed := c.missed || n.Present? || n.Gone?)
  }

  function Broadcast(conns: map<int, Conn>, n: Notice): map<int, Conn> {
    map id | id in conns :: Push(conns[id], n)
  }

  /** A newcomer is told of the keys already registered; `order` is the order the registry visits them in. */
  function Snapshot(c: Conn, order: seq<NodeKey>): (r: Conn)
    ensures r.node == c.node && r.written == c.written
  {
    if order == [] then
      c
    else
      var d, last := Snapshot(c, order[..|order| - 1]), order[|order| - 1];
      if last == c.node then d else Push(d, Present(last))
  }

  function IdsOf(byKey: map<NodeKey, set<int>>, k: NodeKey): set<int> {
    if k in byKey then byKey[k] else {}
  }

  function Register(s: Registry, node: NodeKey, order: seq<NodeKey>): Registry {
    Registry(s.nextId + 1, s.byKey[node := IdsOf(s.byKey, node) + {s.nextId}],
             Broadcast(s.conns, Present(node))[s.nextId := Snapshot(Conn(node, [], [], false), order)],
             s.relayed, s.dropped)
  }

  function Deregister(s: Registry, id: int): Registry {
    if id !in s.conns then
      s
    else
      var node, conns := s.conns[id].node, s.conns - {id};
      if node !in s.byKey then
        s.(conns := conns)
      else if s.byKey[node] - {id} == {} then
        s.(byKey := s.byKey - {node}, conns := Broadcast(conns, Gone(node, Disconnected)))
      else
        s.(byKey := s.byKey[node := s.byKey[node] - {id}], conns := conns)
  }

  function Deliver(conns: map<int, Conn>, targets: set<int>, n: Notice): map<int, Conn> {
    map id | id in conns :: if id in targets then Push(conns[id], n) else conns[id]
  }

  predicate SomeRoom(conns: map<int, Conn>, targets: set<int>) {
    exists id :: id in targets && id in conns && HasRoom(conns[id])
  }

  function Route(s: Registry, from: int, dest: NodeKey, packet: seq<Frame.Byte>): Registry {
    if |packet| > MAX_PACKET_LEN then
      s.(dropped := s.dropped + 1)
    else if from !in s.conns then
      s
    else if IdsOf(s.byKey, dest) == {} then
      s.(dropped := s.dropped + 1, conns := s.conns[from := Push(s.conns[from], Gone(dest, NotHere))])
    else
      var routed := s.(conns := Deliver(s.conns, s.byKey[dest], Recv(s.conns[from].node, packet)));
      if SomeRoom(s.conns, s.byKey[dest]) then routed.(relayed := s.relayed + 1) else routed.(dropped := s.dropped + 1)
  }

  function KeepAlive(s: Registry, id: int): Registry {
    if id in s.conns then s.(conns := s.conns[id := Push(s.conns[id], Alive)]) else s
  }

  /** The connection's writer takes the oldest queued notice to the socket. */
  function WriteOne(s: Registry, id: int): Registry {
    if id in s.conns && s.conns[id].queue != [] then
      var c := s.conns[id];
      s.(conns := s.conns[id := c.(queue := c.queue[1..], written := c.written + [c.queue[0]])])
    else
      s
  }

  // ---------------------------------------------------------------------
  // The invariant.

  /** The two maps are inverse to each other, and no key is kept for nobody. */
  ghost predicate Inverse(s: Registry) {
    && (forall id :: id in s.conns ==> s.conns[id].node in s.byKey && id in s.byKey[s.conns[id].node])
    && (forall k, id :: k in s.byKey && id in s.byKey[k] ==> id in s.conns && s.conns[id].node == k)
    && (forall k :: k in s.byKey ==> s.byKey[k] != {})
  }

  /** What a connection was told, and its own key, are the registered keys. */
  ghost predicate Aware(c: Conn, keys: set<NodeKey>) {
    Known(History(c)) + {c.node} == keys
  }

  ghost predicate ConnOk(c: Conn, keys: set<NodeKey>) {
    |c.queue| <= OUTBOUND_CAPACITY && (!c.missed ==> Aware(c, keys))
  }

  ghost predicate Sound(s: Registry) {
    && Inverse(s)
    && (forall id :: id in s.conns ==> id < s.nextId && ConnOk(s.conns[id], s.byKey.Keys))
  }

  lemma KnownAppend(notices: seq<Notice>, n: Notice)
    ensures Known(notices + [n]) == Learn(Known(notices), n)
  {
    assert (notices + [n])[..|notices|] == notices;
  }

  lemma PushPresent(c: Conn, keys: set<NodeKey>, k: NodeKey)
    requires ConnOk(c, keys)
    ensures ConnOk(Push(c, Present(k)), keys + {k})
  {
    KnownAppend(History(c), Present(k));
  }

  lemma PushGone(c: Conn, keys: set<NodeKey>, k: NodeKey, reason: GoneReason)
    requires ConnOk(c, keys) && c.node != k
    ensures ConnOk(Push(c, Gone(k, reason)), keys - {k})
  {
    KnownAppend(History(c), Gone(k, reason));
  }

  lemma PushOther(c: Conn, keys: set<NodeKey>, n: Notice)
    requires ConnOk(c, keys) && !n.Present? && !n.Gone?
    ensures ConnOk(Push(c, n), keys)
  {
    KnownAppend(History(c), n);
  }

  lemma {:induction false} SnapshotOk(node: NodeKey, order: seq<NodeKey>)
    ensures ConnOk(Snapshot(Conn(node, [], [], false), order), (set k | k in order) + {node})
  {
    var c := Conn(node, [], [], false);
    if order == [] {
      assert (set k | k in order) == {};
    } else {
      var init, last := order[..|order| - 1], order[|order| - 1];
      SnapshotOk(node, init);
      assert order == init + [last];
      var keys := (set k | k in init) + {node};
      assert (set k | k in order) + {node} == keys + {last};
      if last == node {
        assert keys + {last} == keys;
      } else {
        PushPresent(Snapshot(c, init), keys, last);
      }
    }
  }

  lemma RegisterInverse(s: Registry, node: NodeKey, order: seq<NodeKey>)
    requires Sound(s)
    ensures Inverse(Register(s, node, order))
  {
    var s' := Register(s, node, order);
    forall id | id in s'.conns
      ensures s'.conns[id].node in s'.byKey && id in s'.byKey[s'.conns[id].node]
    {
      if id != s.nextId {
        assert id in s.byKey[s.conns[id].node];
      }
    }
    forall k, id | k in s'.byKey && id in s'.byKey[k]
      ensures id in s'.conns && s'.conns[id].node == k
    {
      if k != node || id != s.nextId {
        assert id in s.byKey[k];
        assert id in s.conns;
      }
    }
    assert s.nextId in s'.byKey[node];
  }

  lemma RegisterKeeps(s: Registry, node: NodeKey, order: seq<NodeKey>)
    requires Sound(s) && (forall k :: k in order <==> k in s.byKey)
    ensures Sound(Register(s, node, order))
  {
    RegisterInverse(s, node, order);
    var s' := Register(s, node, order);
    assert s'.byKey.Keys == s.byKey.Keys + {node};
    SnapshotOk(node, order);
    assert (set k | k in order) == s.byKey.Keys;
    forall id | id in s.conns
      ensures ConnOk(s'.conns[id], s'.byKey.Keys)
    {
      PushPresent(s.conns[id], s.byKey.Keys, node);
    }
  }

  lemma DeregisterKeeps(s: Registry, id: int)
    requires Sound(s)
    ensures Sound(Deregister(s, id)) && id !in Deregister(s, id).conns
  {
    if id in s.conns {
      var s', node := Deregister(s, id), s.conns[id].node;
      if s.byKey[node] - {id} == {} {
        assert s'.byKey.Keys == s.byKey.Keys - {node};
        forall other | other in s'.conns
          ensures other < s'.nextId && s'.conns[other].node in s'.byKey && ConnOk(s'.conns[other], s'.byKey.Keys)
        {
          assert other in s.byKey[s.conns[other].node];
          assert other !in s.byKey[node] - {id};
          PushGone(s.conns[other], s.byKey.Keys, node, Disconnected);
        }
      } else {
        assert s'.byKey.Keys == s.byKey.Keys;
      }
    }
  }

  lemma RouteKeeps(s: Registry, from: int, dest: NodeKey, packet: seq<Frame.Byte>)
    requires Sound(s)
    ensures Sound(Route(s, from, dest, packet))
  {
    if |packet| <= MAX_PACKET_LEN && from in s.conns {
      var s' := Route(s, from, dest, packet);
      if IdsOf(s.byKey, dest) == {} {
        PushGone(s.conns[from], s.byKey.Keys, dest, NotHere);
        assert s.byKey.Keys - {dest} == s.byKey.Keys;
      } else {
        forall id | id in s'.conns
          ensures ConnOk(s'.conns[id], s'.byKey.Keys)
        {
          PushOther(s.conns[id], s.byKey.Keys, Recv(s.conns[from].node, packet));
        }
      }
    }
  }

  lemma KeepAliveKeeps(s: Registry, id: int)
    requires Sound(s)
    ensures Sound(KeepAlive(s, id))
  {
    if id in s.conns {
      PushOther(s.conns[id], s.byKey.Keys, Alive);
    }
  }

  lemma WriteKeeps(s: Registry, id: int)
    requires Sound(s)
    ensures Sound(WriteOne(s, id))
  {
    if id in s.conns && s.conns[id].queue != [] {
      var c := s.conns[id];
      assert History(WriteOne(s, id).conns[id]) == History(c);
    }
  }

  // ---------------------------------------------------------------------
  // Packets.

  /**
   * A packet within the limit from a registered connection is appended once to what every connection of the
   * destination key with room was told, under the sender's registered key, and to nothing else; a packet for a key
   * nobody holds tells only the sender.
   */
  lemma RouteDelivers(s: Registry, from: int, dest: NodeKey, packet: seq<Frame.Byte>, id: int)
    requires Sound(s) && id in s.conns
    ensures var s' := Route(s, from, dest, packet);
            var routed := |packet| <= MAX_PACKET_LEN && from in s.conns;
            && id in s'.conns && s'.conns[id].node == s.conns[id].node
            && History(s'.conns[id]) == History(s.conns[id]) +
                 if routed && HasRoom(s.conns[id]) && s.conns[id].node == dest then [Recv(s.conns[from].node, packet)]
                 else if routed && HasRoom(s.conns[id]) && dest !in s.byKey && id == from then [Gone(dest, NotHere)]
                 else []
  {
    assert dest in s.byKey ==> (id in s.byKey[dest] <==> s.conns[id].node == dest);
    assert History(s.conns[id]) + [] == History(s.conns[id]);
  }

  /** Every packet counts as relayed or as dropped, never both; it is relayed exactly when some connection was handed it. */
  lemma RouteCounts(s: Registry, from: int, dest: NodeKey, packet: seq<Frame.Byte>)
    requires Sound(s)
    ensures var s' := Route(s, from, dest, packet);
            && (s'.relayed == s.relayed + 1 && s'.dropped == s.dropped <==>
                |packet| <= MAX_PACKET_LEN && from in s.conns &&
                exists id :: id in s.conns && s.conns[id].node == dest && HasRoom(s.conns[id]))
            && (s'.relayed + s'.dropped == s.relayed + s.dropped + 1 <==> |packet| > MAX_PACKET_LEN || from in s.conns)
            && (s'.relayed + s'.dropped == s.relayed + s.dropped || s'.relayed + s'.dropped == s.relayed + s.dropped + 1)
  {
    if exists id :: id in s.conns && s.conns[id].node == dest && HasRoom(s.conns[id]) {
      var id :| id in s.conns && s.conns[id].node == dest && HasRoom(s.conns[id]);
      assert id in s.byKey[dest];
      assert SomeRoom(s.conns, s.byKey[dest]);
    }
  }

  // ---------------------------------------------------------------------
  // Runs.

  datatype Op =
    | OpRegister(node: NodeKey, order: seq<NodeKey>)
    | OpDeregister(id: int)
    | OpSend(from: int, dest: NodeKey, packet: seq<Frame.Byte>)
    | OpKeepAlive(id: int)
    | OpWrite(id: int)

  datatype Sent = Sent(src: NodeKey, dest: NodeKey, packet: seq<Frame.Byte>)

  /** The relay, the packets registered connections have sent, and how many packets should have been counted. */
  datatype World = World(reg: Registry, sent: seq<Sent>, counted: nat)

  ghost predicate Step(w: World, op: Op, w': World) {
    match op
    case OpRegister(node, order) =>
      (forall k :: k in order <==> k in w.reg.byKey) && w' == w.(reg := Register(w.reg, node, order))
    case OpDeregister(id) => w' == w.(reg := Deregister(w.reg, id))
    case OpSend(from, dest, packet) =>
      w' == World(Route(w.reg, from, dest, packet),
                  if from in w.reg.conns then w.sent + [Sent(w.reg.conns[from].node, dest, packet)] else w.sent,
                  if |packet| > MAX_PACKET_LEN || from in w.reg.conns then w.counted + 1 else w.counted)
    case OpKeepAlive(id) => w' == w.(reg := KeepAlive(w.reg, id))
    case OpWrite(id) => w' == w.(reg := WriteOne(w.reg, id))
  }

  /** Every packet a connection was told of was sent to its key by a connection registered under the claimed source. */
  ghost predicate Genuine(w: World) {
    forall id, n :: id in w.reg.conns && n in History(w.reg.conns[id]) && n.Recv? ==>
      Sent(n.src, w.reg.conns[id].node, n.packet) in w.sent
  }

  ghost predicate Inv(w: World) {
    Sound(w.reg) && Genuine(w) && w.reg.relayed + w.reg.dropped == w.counted
  }

  ghost predicate IsRun(ws: seq<World>, ops: seq<Op>) {
    && |ws| == |ops| + 1
    && ws[0] == World(NEW, [], 0)
    && forall i :: 0 <= i < |ops| ==> Step(ws[i], ops[i], ws[i + 1])
  }

  /** Nothing a connection is newly told is a packet. */
  ghost predicate NoNewPackets(s: Registry, s': Registry) {
    forall id :: id in s'.conns ==>
      (forall n :: n in History(s'.conns[id]) && n.Recv? ==>
        id in s.conns && s.conns[id].node == s'.conns[id].node && n in History(s.conns[id]))
  }

  lemma {:induction false} SnapshotHasNoPackets(c: Conn, order: seq<NodeKey>, n: Notice)
    requires History(c) == [] && n in History(Snapshot(c, order))
    ensures n.Present?
  {
    if order != [] {
      var init := order[..|order| - 1];
      if n in History(Snapshot(c, init)) {
        SnapshotHasNoPackets(c, init, n);
      }
    }
  }

  lemma RegisterTells(s: Registry, node: NodeKey, order: seq<NodeKey>)
    requires Sound(s)
    ensures NoNewPackets(s, Register(s, node, order))
  {
    var s' := Register(s, node, order);
    forall id, n | id in s'.conns && n in History(s'.conns[id]) && n.Recv?
      ensures id in s.conns && s.conns[id].node == s'.conns[id].node && n in History(s.conns[id])
    {
      if id == s.nextId {
        SnapshotHasNoPackets(Conn(node, [], [], false), order, n);
      }
    }
  }

  lemma OtherTells(s: Registry, id: int)
    requires Sound(s)
    ensures NoNewPackets(s, Deregister(s, id)) && NoNewPackets(s, KeepAlive(s, id)) && NoNewPackets(s, WriteOne(s, id))
  {
    if id in s.conns && s.conns[id].queue != [] {
      assert History(WriteOne(s, id).conns[id]) == History(s.conns[id]);
    }
  }

  lemma QuietStepGenuine(w: World, w': World)
    requires Genuine(w) && w'.sent == w.sent && NoNewPackets(w.reg, w'.reg)
    ensures Genuine(w')
  {
  }

  lemma SendGenuine(w: World, op: Op, w': World)
    requires Inv(w) && op.OpSend? && Step(w, op, w')
    ensures Genuine(w')
  {
    forall id, n | id in w'.reg.conns && n in History(w'.reg.conns[id]) && n.Recv?
      ensures Sent(n.src, w'.reg.conns[id].node, n.packet) in w'.sent
    {
      assert id in w.reg.conns;
      RouteDelivers(w.reg, op.from, op.dest, op.packet, id);
      assert n in History(w.reg.conns[id]) || n == Recv(w.reg.conns[op.from].node, op.packet);
    }
  }

  lemma StepKeeps(w: World, op: Op, w': World)
    requires Inv(w) && Step(w, op, w')
    ensures Inv(w')
  {
    match op
    case OpRegister(node, order) =>
      RegisterKeeps(w.reg, node, order);
      RegisterTells(w.reg, node, order);
      QuietStepGenuine(w, w');
    case OpDeregister(id) =>
      DeregisterKeeps(w.reg, id);
      OtherTells(w.reg, id);
      QuietStepGenuine(w, w');
    case OpSend(from, dest, packet) =>
      RouteKeeps(w.reg, from, dest, packet);
      RouteCounts(w.reg, from, dest, packet);
      SendGenuine(w, op, w');
    case OpKeepAlive(id) =>
      KeepAliveKeeps(w.reg, id);
      OtherTells(w.reg, id);
      QuietStepGenuine(w, w');
    case OpWrite(id) =>
      WriteKeeps(w.reg, id);
      OtherTells(w.reg, id);
      QuietStepGenuine(w, w');
  }

  lemma {:induction false} EveryRun(ws: seq<World>, ops: seq<Op>, i: nat)
    requires IsRun(ws, ops) && i < |ws|
    ensures Inv(ws[i])
    decreases i
  {
    if i > 0 {
      EveryRun(ws, ops, i - 1);
      StepKeeps(ws[i - 1], ops[i - 1], ws[i]);
    }
  }

  /**
   * At any moment of any run, for every connection that lost no presence notice to a full queue: what it was told
   * together with its own key is exactly the set of keys some connection is registered under.
   */
  lemma PresenceIsExact(ws: seq<World>, ops: seq<Op>, i: nat, id: int, k: NodeKey)
    requires IsRun(ws, ops) && i < |ws| && id in ws[i].reg.conns && !ws[i].reg.conns[id].missed
    ensures var s := ws[i].reg;
            k in Known(History(s.conns[id])) || k == s.conns[id].node <==>
            exists other :: other in s.conns && s.conns[other].node == k
  {
    EveryRun(ws, ops, i);
    var s := ws[i].reg;
    var c := s.conns[id];
    assert Aware(c, s.byKey.Keys);
    assert k in Known(History(c)) || k == c.node <==> k in s.byKey.Keys;
    if k in s.byKey {
      EmptyOrInhabited(s.byKey[k]);
      var other :| other in s.byKey[k];
      assert other in s.conns && s.conns[other].node == k;
    }
  }

  // ---------------------------------------------------------------------
  // The object.

  class RelayServer {
    var nextId: int
    var byKey: map<NodeKey, set<int>>
    var conns: map<int, Conn>
    var relayed: nat
    var dropped: nat

    ghost function State(): Registry
      reads this
    {
      Registry(nextId, byKey, conns, relayed, dropped)
    }

    constructor ()
      ensures State() == NEW && Sound(State())
    {
      nextId, byKey, conns, relayed, dropped := 1, map[], map[], 0, 0;
    }

    method SendAll(n: Notice)
      modifies this
      ensures State() == old(State()).(conns := Broadcast(old(conns), n))
    {
      var rest := conns.Keys;
      while rest != {}
        invariant rest <= conns.Keys && conns.Keys == old(conns).Keys
        invariant State() == old(State()).(conns := conns)
        invariant forall id :: id in conns ==> conns[id] == if id in rest then old(conns)[id] else Push(old(conns)[id], n)
        decreases rest
      {
        EmptyOrInhabited(rest);
        var id :| id in rest;
        conns := conns[id := Push(conns[id], n)];
        rest := rest - {id};
      }
      SameMap(conns, Broadcast(old(conns), n));
    }

    method RegisterClient(node: NodeKey) returns (id: int, ghost order: seq<NodeKey>)
      requires Sound(State())
      modifies this
      ensures (forall k :: k in order <==> k in old(byKey)) && id == old(nextId) && id !in old(conns)
      ensures State() == Register(old(State()), node, order) && Sound(State())
    {
      id := nextId;
      nextId := nextId + 1;
      SendAll(Present(node));
      var newcomer := Conn(node, [], [], false);
      var rest := byKey.Keys;
      order := [];
      while rest != {}
        invariant rest <= byKey.Keys && State() == old(State()).(nextId := id + 1, conns := Broadcast(old(conns), Present(node)))
        invariant forall k :: k in order <==> k in byKey.Keys - rest
        invariant newcomer == Snapshot(Conn(node, [], [], false), order)
        decreases rest
      {
        var peer :| peer in rest;
        ghost var order' := order + [peer];
        assert order'[..|order|] == order;
        if peer != node {
          newcomer := Push(newcomer, Present(peer));
        }
        order := order';
        rest := rest - {peer};
      }
      RegisterKeeps(old(State()), node, order);
      byKey := byKey[node := (if node in byKey then byKey[node] else {}) + {id}];
      conns := conns[id := newcomer];
    }

    method DeregisterClient(id: int)
      requires Sound(State())
      modifies this
      ensures State() == Deregister(old(State()), id) && Sound(State())
    {
      DeregisterKeeps(State(), id);
      if id !in conns {
        return;
      }
      var node := conns[id].node;
      conns := conns - {id};
      var left := byKey[node] - {id};
      if left == {} {
        byKey := byKey - {node};
        SendAll(Gone(node, Disconnected));
      } else {
        byKey := byKey[node := left];
      }
    }

    method DeliverTo(targets: set<int>, n: Notice) returns (delivered: bool)
      modifies this
      ensures State() == old(State()).(conns := Deliver(old(conns), targets, n))
      ensures delivered <==> SomeRoom(old(conns), targets)
    {
      delivered := false;
      var rest := targets;
      while rest != {}
        invariant rest <= targets && conns.Keys == old(conns).Keys
        invariant State() == old(State()).(conns := conns)
        invariant forall id :: id in conns ==>
                    conns[id] == if id in targets && id !in rest then Push(old(conns)[id], n) else old(conns)[id]
        invariant delivered <==> SomeRoom(old(conns), targets - rest)
        decreases rest
      {
        EmptyOrInhabited(rest);
        var id :| id in rest;
        RoomStep(old(conns), targets - rest, id);
        assert targets - (rest - {id}) == (targets - rest) + {id};
        if id in conns {
          if HasRoom(conns[id]) {
            delivered := true;
          }
          conns := conns[id := Push(conns[id], n)];
        }
        rest := rest - {id};
      }
      assert targets - {} == targets;
      SameMap(conns, Deliver(old(conns), targets, n));
    }

    method RouteSendPacket(from: int, dest: NodeKey, packet: seq<Frame.Byte>)
      requires Sound(State())
      modifies this
      ensures State() == Route(old(State()), from, dest, packet) && Sound(State())
    {
      RouteKeeps(State(), from, dest, packet);
      if |packet| > MAX_PACKET_LEN {
        dropped := dropped + 1;
        return;
      }
      if from !in conns {
        return;
      }
      var src := conns[from].node;
      if dest !in byKey || byKey[dest] == {} {
        dropped := dropped + 1;
        conns := conns[from := Push(conns[from], Gone(dest, NotHere))];
        return;
      }
      var delivered := DeliverTo(byKey[dest], Recv(src, packet));
      if delivered {
        relayed := relayed + 1;
      } else {
        dropped := dropped + 1;
      }
    }

    method SendKeepAlive(id: int)
      requires Sound(State())
      modifies this
      ensures State() == KeepAlive(old(State()), id) && Sound(State())
    {
      KeepAliveKeeps(State(), id);
      if id in conns {
        conns := conns[id := Push(conns[id], Alive)];
      }
    }
  }

  lemma RoomStep(conns: map<int, Conn>, targets: set<int>, id: int)
    ensures SomeRoom(conns, targets + {id}) <==> SomeRoom(conns, targets) || (id in conns && HasRoom(conns[id]))
  {
    if id in conns && HasRoom(conns[id]) {
      assert id in targets + {id};
    }
  }
}
