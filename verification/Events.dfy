/** Coalescing of change events into ordered batches (crabscale-control/src/events.rs). */
module Events {
  import opened Ordered

  datatype ChangeEvent =
    | NodeChanged(id: int)
    | NodeRemoved(id: int)
    | PolicyChanged
    | DnsChanged
    | DerpMapChanged
    | OnlineChanged(id: int, online: bool)
    | PeerSeen(id: int)

  predicate IsNodeEvent(e: ChangeEvent) {
    e.NodeChanged? || e.NodeRemoved? || e.OnlineChanged? || e.PeerSeen?
  }

  type Batch = seq<ChangeEvent>

  predicate HasDns(b: Batch) { DnsChanged in b }

  predicate HasDerp(b: Batch) { DerpMapChanged in b }

  predicate HasPolicy(b: Batch) { PolicyChanged in b }

  /** Events after which a session must derive its peers again. */
  predicate Rescans(e: ChangeEvent) {
    match e
    case NodeChanged(_) | NodeRemoved(_) | PolicyChanged | OnlineChanged(_, _) | PeerSeen(_) => true
    case DnsChanged | DerpMapChanged => false
  }

  predicate NeedsPeerRescan(b: Batch) {
    exists i :: 0 <= i < |b| && Rescans(b[i])
  }

  /** Per-node coalescing state. */
  datatype NodeAcc = NodeAcc(changed: bool, removed: bool, seen: bool, online: Option<bool>)

  const EMPTY_NODE := NodeAcc(false, false, false, None)

  datatype Acc = Acc(nodes: map<int, NodeAcc>, policy: bool, dns: bool, derp: bool)

  const EMPTY := Acc(map[], false, false, false)

  function NodeOf(nodes: map<int, NodeAcc>, id: int): NodeAcc {
    if id in nodes then nodes[id] else EMPTY_NODE
  }

  function ApplyNode(n: NodeAcc, e: ChangeEvent): NodeAcc
    requires IsNodeEvent(e)
  {
    match e
    case NodeChanged(_) => if n.removed then n else n.(changed := true)
    case NodeRemoved(_) => NodeAcc(false, true, false, None)
    case OnlineChanged(_, online) => if n.removed then n else n.(online := Some(online))
    case PeerSeen(_) => if n.removed then n else n.(seen := true)
  }

  function Apply(a: Acc, e: ChangeEvent): Acc {
    match e
    case PolicyChanged => a.(policy := true)
    case DnsChanged => a.(dns := true)
    case DerpMapChanged => a.(derp := true)
    case _ => a.(nodes := a.nodes[e.id := ApplyNode(NodeOf(a.nodes, e.id), e)])
  }

  function One(b: bool): nat { if b then 1 else 0 }

  function NodeCount(n: NodeAcc): nat {
    One(n.removed || n.changed) + One(n.online.Some?) + One(n.seen)
  }

  function NodeEvents(id: int, n: NodeAcc): Batch {
    if n.removed then
      [NodeRemoved(id)]
    else
      (if n.changed then [NodeChanged(id)] else []) +
      (if n.online.Some? then [OnlineChanged(id, n.online.value)] else []) +
      (if n.seen then [PeerSeen(id)] else [])
  }

  function Globals(a: Acc): Batch {
    (if a.policy then [PolicyChanged] else []) +
    (if a.dns then [DnsChanged] else []) +
    (if a.derp then [DerpMapChanged] else [])
  }

  /** Per-node events in ascending node order. */
  ghost function EventsOf(nodes: map<int, NodeAcc>): Batch
    decreases |nodes|
  {
    if nodes == map[] then
      []
    else
      var m := Largest(nodes.Keys);
      EventsOf(nodes - {m}) + NodeEvents(m, nodes[m])
  }

  /** The batch a drain emits. */
  ghost function Drained(a: Acc): Batch {
    Globals(a) + EventsOf(a.nodes)
  }

  ghost function CountOf(nodes: map<int, NodeAcc>): nat
    decreases |nodes|
  {
    if nodes == map[] then
      0
    else
      var m := Largest(nodes.Keys);
      CountOf(nodes - {m}) + NodeCount(nodes[m])
  }

  ghost function Count(a: Acc): nat {
    CountOf(a.nodes) + One(a.policy) + One(a.dns) + One(a.derp)
  }

  // ---------------------------------------------------------------------
  // The declarative reading of a window of events.

  ghost function NodeIds(es: seq<ChangeEvent>): set<int> {
    set e | e in es && IsNodeEvent(e) :: e.id
  }

  /** The last online value reported for a node, if any. */
  function LastOnline(es: seq<ChangeEvent>, id: int): Option<bool> {
    if es == [] then
      None
    else
      var last := es[|es| - 1];
      if last.OnlineChanged? && last.id == id then Some(last.online) else LastOnline(es[..|es| - 1], id)
  }

  /** What a window says about one node: a removal absorbs everything else. */
  function SummaryNode(es: seq<ChangeEvent>, id: int): NodeAcc {
    if NodeRemoved(id) in es then
      NodeAcc(false, true, false, None)
    else
      NodeAcc(NodeChanged(id) in es, false, PeerSeen(id) in es, LastOnline(es, id))
  }

  ghost function SummaryAcc(es: seq<ChangeEvent>): Acc {
    Acc(map id | id in NodeIds(es) :: SummaryNode(es, id),
        PolicyChanged in es, DnsChanged in es, DerpMapChanged in es)
  }

  function ApplyAll(es: seq<ChangeEvent>): Acc {
    if es == [] then EMPTY else Apply(ApplyAll(es[..|es| - 1]), es[|es| - 1])
  }

  lemma NodeIdsSnoc(es: seq<ChangeEvent>, e: ChangeEvent)
    ensures NodeIds(es + [e]) == NodeIds(es) + (if IsNodeEvent(e) then {e.id} else {})
  {
    var all := es + [e];
    forall id | id in NodeIds(es)
      ensures id in NodeIds(all)
    {
      var x :| x in es && IsNodeEvent(x) && x.id == id;
      assert x in all;
    }
    if IsNodeEvent(e) {
      assert e in all;
    }
  }

  lemma SummaryNodeFresh(es: seq<ChangeEvent>, id: int)
    requires id !in NodeIds(es)
    ensures SummaryNode(es, id) == EMPTY_NODE
  {
    assert NodeRemoved(id) !in es && NodeChanged(id) !in es && PeerSeen(id) !in es;
    LastOnlineFresh(es, id);
  }

  lemma {:induction false} LastOnlineFresh(es: seq<ChangeEvent>, id: int)
    requires id !in NodeIds(es)
    ensures LastOnline(es, id) == None
  {
    if es != [] {
      var es', last := es[..|es| - 1], es[|es| - 1];
      assert last in es;
      assert forall x :: x in es' ==> x in es;
      LastOnlineFresh(es', id);
    }
  }

  lemma SummaryNodeSnoc(es: seq<ChangeEvent>, e: ChangeEvent, id: int)
    ensures SummaryNode(es + [e], id) ==
            if IsNodeEvent(e) && e.id == id then ApplyNode(SummaryNode(es, id), e) else SummaryNode(es, id)
  {
    var all := es + [e];
    assert all[..|all| - 1] == es;
    assert forall x :: x in all <==> x in es || x == e;
  }

  lemma SummarySnoc(es: seq<ChangeEvent>, e: ChangeEvent)
    ensures SummaryAcc(es + [e]) == Apply(SummaryAcc(es), e)
  {
    SummaryNodesSnoc(es, e);
    var all := es + [e];
    assert forall x :: x in all <==> x in es || x == e;
  }

  lemma SummaryNodesSnoc(es: seq<ChangeEvent>, e: ChangeEvent)
    ensures SummaryAcc(es + [e]).nodes == Apply(SummaryAcc(es), e).nodes
  {
    var want, got := SummaryAcc(es + [e]).nodes, Apply(SummaryAcc(es), e).nodes;
    NodeIdsSnoc(es, e);
    forall id | id in want
      ensures id in got && want[id] == got[id]
    {
      SummaryNodeSnoc(es, e, id);
      if id !in NodeIds(es) {
        SummaryNodeFresh(es, id);
      }
    }
    SameMap(want, got);
  }

  /** Event by event, the accumulator always equals the declarative reading of its window. */
  lemma {:induction false} CoalescingIsSummary(es: seq<ChangeEvent>)
    ensures ApplyAll(es) == SummaryAcc(es)
  {
    if es == [] {
      assert SummaryAcc(es).nodes == map[];
    } else {
      CoalescingIsSummary(es[..|es| - 1]);
      SummarySnoc(es[..|es| - 1], es[|es| - 1]);
      assert es == es[..|es| - 1] + [es[|es| - 1]];
    }
  }

  // ---------------------------------------------------------------------
  // Counting, order and duplicates.

  /** A removed node carries nothing else, and every entry carries something. */
  predicate WellFormed(n: NodeAcc) {
    (n.removed ==> !n.changed && !n.seen && n.online.None?) && NodeCount(n) > 0
  }

  ghost predicate NodesValid(nodes: map<int, NodeAcc>) {
    forall id :: id in nodes ==> WellFormed(nodes[id])
  }

  lemma ApplyKeepsValid(a: Acc, e: ChangeEvent)
    requires NodesValid(a.nodes)
    ensures NodesValid(Apply(a, e).nodes)
  {
  }

  lemma {:induction false} CountIsLength(nodes: map<int, NodeAcc>)
    requires NodesValid(nodes)
    ensures CountOf(nodes) == |EventsOf(nodes)|
    decreases |nodes|
  {
    if nodes != map[] {
      var m := Largest(nodes.Keys);
      CountIsLength(nodes - {m});
      assert |NodeEvents(m, nodes[m])| == NodeCount(nodes[m]);
    }
  }

  /** The running count is the length of the batch a drain would emit now. */
  lemma CountIsDrainedLength(a: Acc)
    requires NodesValid(a.nodes)
    ensures Count(a) == |Drained(a)|
  {
    CountIsLength(a.nodes);
  }

  lemma {:induction false} EventsOfMembers(nodes: map<int, NodeAcc>, e: ChangeEvent)
    ensures e in EventsOf(nodes) <==> IsNodeEvent(e) && e.id in nodes && e in NodeEvents(e.id, nodes[e.id])
    decreases |nodes|
  {
    if nodes != map[] {
      var m := Largest(nodes.Keys);
      EventsOfMembers(nodes - {m}, e);
    }
  }

  /** Position of an event inside a batch: global flags first, then nodes, then the kind within a node. */
  function Kind(e: ChangeEvent): int {
    match e
    case PolicyChanged | NodeRemoved(_) | NodeChanged(_) => 0
    case DnsChanged | OnlineChanged(_, _) => 1
    case DerpMapChanged | PeerSeen(_) => 2
  }

  predicate Before(d: ChangeEvent, e: ChangeEvent) {
    if IsNodeEvent(d) then
      IsNodeEvent(e) && (d.id < e.id || (d.id == e.id && Kind(d) < Kind(e)))
    else
      IsNodeEvent(e) || Kind(d) < Kind(e)
  }

  ghost predicate InBatchOrder(b: Batch) {
    forall i, j :: 0 <= i < j < |b| ==> Before(b[i], b[j])
  }

  lemma OrderedConcat(b: Batch, c: Batch)
    requires InBatchOrder(b) && InBatchOrder(c)
    requires forall d, e :: d in b && e in c ==> Before(d, e)
    ensures InBatchOrder(b + c)
  {
    var all := b + c;
    forall i, j | 0 <= i < j < |all|
      ensures Before(all[i], all[j])
    {
      if i < |b| <= j {
        assert all[i] in b && all[j] in c;
      }
    }
  }

  /** The events of one node are its own, in order. */
  lemma OrderedJoin(a: Batch, b: Batch)
    requires InBatchOrder(a) && InBatchOrder(b) && forall d, e :: d in a && e in b ==> Before(d, e)
    ensures InBatchOrder(a + b)
  {
    assert forall i :: 0 <= i < |a| ==> a[i] in a;
    assert forall i :: 0 <= i < |b| ==> b[i] in b;
  }

  lemma NodeEventsOrdered(id: int, n: NodeAcc)
    ensures InBatchOrder(NodeEvents(id, n))
    ensures forall e :: e in NodeEvents(id, n) ==> IsNodeEvent(e) && e.id == id
  {
    if !n.removed {
      var changed: Batch := if n.changed then [NodeChanged(id)] else [];
      var online: Batch := if n.online.Some? then [OnlineChanged(id, n.online.value)] else [];
      OrderedJoin(changed, online);
      OrderedJoin(changed + online, if n.seen then [PeerSeen(id)] else []);
    }
  }

  lemma {:induction false} EventsOfOrdered(nodes: map<int, NodeAcc>)
    ensures InBatchOrder(EventsOf(nodes))
    decreases |nodes|
  {
    if nodes != map[] {
      var m := Largest(nodes.Keys);
      var rest := nodes - {m};
      EventsOfOrdered(rest);
      NodeEventsOrdered(m, nodes[m]);
      forall d, e | d in EventsOf(rest) && e in NodeEvents(m, nodes[m])
        ensures Before(d, e)
      {
        EventsOfMembers(rest, d);
      }
      OrderedConcat(EventsOf(rest), NodeEvents(m, nodes[m]));
    }
  }

  /** A batch is in its fixed order; the order is strict, so the batch holds no event twice. */
  lemma DrainedInOrder(a: Acc)
    ensures InBatchOrder(Drained(a))
  {
    EventsOfOrdered(a.nodes);
    forall d, e | d in Globals(a) && e in EventsOf(a.nodes)
      ensures Before(d, e)
    {
      EventsOfMembers(a.nodes, e);
    }
    OrderedConcat(Globals(a), EventsOf(a.nodes));
  }

  /** Whether an event of a window survives coalescing. */
  ghost predicate Stands(es: seq<ChangeEvent>, e: ChangeEvent) {
    match e
    case PolicyChanged | DnsChanged | DerpMapChanged | NodeRemoved(_) => e in es
    case NodeChanged(id) => e in es && NodeRemoved(id) !in es
    case PeerSeen(id) => e in es && NodeRemoved(id) !in es
    case OnlineChanged(id, v) => LastOnline(es, id) == Some(v) && NodeRemoved(id) !in es
  }

  lemma NodeStands(es: seq<ChangeEvent>, e: ChangeEvent)
    requires IsNodeEvent(e)
    ensures e in EventsOf(SummaryAcc(es).nodes) <==> Stands(es, e)
  {
    EventsOfMembers(SummaryAcc(es).nodes, e);
    if e.id !in NodeIds(es) {
      LastOnlineFresh(es, e.id);
    }
  }

  lemma StandsIsEmitted(es: seq<ChangeEvent>, e: ChangeEvent)
    ensures e in Drained(SummaryAcc(es)) <==> Stands(es, e)
  {
    var a := SummaryAcc(es);
    if IsNodeEvent(e) {
      NodeStands(es, e);
      assert e !in Globals(a);
    } else {
      EventsOfMembers(a.nodes, e);
    }
  }

  /**
   * The batch emitted for a window of events, read declaratively: exactly the events the window
   * still stands for, in batch order and once each.
   */
  lemma BatchSummarizesWindow(es: seq<ChangeEvent>)
    ensures var b := Drained(ApplyAll(es));
            && InBatchOrder(b)
            && (forall i, j :: 0 <= i < j < |b| ==> b[i] != b[j])
            && (forall e :: e in b <==> Stands(es, e))
  {
    CoalescingIsSummary(es);
    DrainedInOrder(SummaryAcc(es));
    forall e
      ensures e in Drained(SummaryAcc(es)) <==> Stands(es, e)
    {
      StandsIsEmitted(es, e);
    }
  }

  lemma {:induction false} CountRemove(nodes: map<int, NodeAcc>, id: int)
    requires id in nodes
    ensures CountOf(nodes) == CountOf(nodes - {id}) + NodeCount(nodes[id])
    decreases |nodes|
  {
    var m := Largest(nodes.Keys);
    if m != id {
      var less := nodes - {m};
      CountRemove(less, id);
      var without := nodes - {id};
      assert m in without.Keys && m == Largest(without.Keys);
      assert without - {m} == less - {id};
    }
  }

  lemma CountReplace(nodes: map<int, NodeAcc>, id: int, n: NodeAcc)
    ensures CountOf(nodes[id := n]) == CountOf(nodes) - NodeCount(NodeOf(nodes, id)) + NodeCount(n)
  {
    CountRemove(nodes[id := n], id);
    assert nodes[id := n] - {id} == nodes - {id};
    if id in nodes {
      CountRemove(nodes, id);
    } else {
      assert nodes - {id} == nodes;
    }
  }

  /** Adding one event raises the count by at most one and leaves something pending. */
  lemma CountStep(a: Acc, e: ChangeEvent)
    requires NodesValid(a.nodes)
    ensures 1 <= Count(Apply(a, e)) <= Count(a) + 1
  {
    if IsNodeEvent(e) {
      var n := NodeOf(a.nodes, e.id);
      CountReplace(a.nodes, e.id, ApplyNode(n, e));
      if e.id in a.nodes {
        CountRemove(a.nodes, e.id);
      }
      assert 1 <= NodeCount(ApplyNode(n, e)) <= NodeCount(n) + 1;
    }
  }

  // ---------------------------------------------------------------------
  // The bus: publish coalesces and flushes early, flush drains, and every batch goes on one log.

  /** Pending events and the log of batches broadcast so far; a subscriber is a position in the log. */
  datatype Bus = Bus(acc: Acc, sent: seq<Batch>)

  function Broadcast(sent: seq<Batch>, b: Batch): seq<Batch> {
    if b == [] then sent else sent + [b]
  }

  ghost function Flushed(bus: Bus): Bus {
    Bus(EMPTY, Broadcast(bus.sent, Drained(bus.acc)))
  }

  ghost function Published(max: nat, bus: Bus, e: ChangeEvent): Bus {
    var next := bus.(acc := Apply(bus.acc, e));
    if Count(next.acc) >= max then Flushed(next) else next
  }

  datatype BusOp = DoPublish(e: ChangeEvent) | DoFlush

  ghost function RunBus(max: nat, ops: seq<BusOp>): Bus {
    if ops == [] then
      Bus(EMPTY, [])
    else
      var before, op := RunBus(max, ops[..|ops| - 1]), ops[|ops| - 1];
      match op
      case DoPublish(e) => Published(max, before, e)
      case DoFlush => Flushed(before)
  }

  function PublishedEvents(ops: seq<BusOp>): seq<ChangeEvent> {
    if ops == [] then
      []
    else
      var rest, op := PublishedEvents(ops[..|ops| - 1]), ops[|ops| - 1];
      if op.DoPublish? then rest + [op.e] else rest
  }

  function Concat(windows: seq<seq<ChangeEvent>>): seq<ChangeEvent> {
    if windows == [] then [] else Concat(windows[..|windows| - 1]) + windows[|windows| - 1]
  }

  /** The published stream is cut into closed windows, one per broadcast batch, and an open one. */
  ghost predicate CutInto(bus: Bus, published: seq<ChangeEvent>, closed: seq<seq<ChangeEvent>>, open: seq<ChangeEvent>) {
    && published == Concat(closed) + open
    && bus.acc == ApplyAll(open)
    && |closed| == |bus.sent|
    && forall k :: 0 <= k < |closed| ==> closed[k] != [] && bus.sent[k] == Drained(ApplyAll(closed[k]))
  }

  lemma {:induction false} ApplyAllValid(es: seq<ChangeEvent>)
    ensures NodesValid(ApplyAll(es).nodes)
    ensures es != [] ==> Count(ApplyAll(es)) >= 1
  {
    if es != [] {
      var es', e := es[..|es| - 1], es[|es| - 1];
      ApplyAllValid(es');
      ApplyKeepsValid(ApplyAll(es'), e);
      CountStep(ApplyAll(es'), e);
    }
  }

  lemma EmptyDrains()
    ensures Drained(EMPTY) == []
  {
  }

  lemma FlushCuts(bus: Bus, published: seq<ChangeEvent>, closed: seq<seq<ChangeEvent>>, open: seq<ChangeEvent>)
      returns (closed': seq<seq<ChangeEvent>>)
    requires CutInto(bus, published, closed, open)
    ensures CutInto(Flushed(bus), published, closed', [])
  {
    if open == [] {
      closed' := closed;
      EmptyDrains();
      assert published == Concat(closed);
    } else {
      closed' := closed + [open];
      ApplyAllValid(open);
      CountIsDrainedLength(bus.acc);
      assert closed'[..|closed'| - 1] == closed;
      assert published + [] == published;
    }
  }

  /**
   * Nothing published is lost, repeated or moved between batches: in every run the published
   * events are the concatenation of the windows of the broadcast batches and the pending one.
   */
  lemma {:induction false} BusConservation(max: nat, ops: seq<BusOp>)
      returns (closed: seq<seq<ChangeEvent>>, open: seq<ChangeEvent>)
    ensures CutInto(RunBus(max, ops), PublishedEvents(ops), closed, open)
  {
    if ops == [] {
      closed, open := [], [];
    } else {
      var ops', op := ops[..|ops| - 1], ops[|ops| - 1];
      closed, open := BusConservation(max, ops');
      var before := RunBus(max, ops');
      match op {
        case DoFlush =>
          closed := FlushCuts(before, PublishedEvents(ops'), closed, open);
          open := [];
        case DoPublish(e) =>
          var next := before.(acc := Apply(before.acc, e));
          var open' := open + [e];
          assert open'[..|open'| - 1] == open;
          assert Concat(closed) + open' == PublishedEvents(ops') + [e];
          assert CutInto(next, PublishedEvents(ops), closed, open');
          open := open';
          if Count(next.acc) >= max {
            closed := FlushCuts(next, PublishedEvents(ops), closed, open);
            open := [];
          }
      }
    }
  }

  /**
   * With an early-flush limit of at least one, fewer than that many events are ever pending, and
   * no batch is empty or longer than the limit.
   */
  lemma {:induction false} BusBounds(max: nat, ops: seq<BusOp>)
    requires max >= 1
    ensures Count(RunBus(max, ops).acc) < max && NodesValid(RunBus(max, ops).acc.nodes)
    ensures forall k :: 0 <= k < |RunBus(max, ops).sent| ==> 1 <= |RunBus(max, ops).sent[k]| <= max
  {
    if ops != [] {
      var ops', op := ops[..|ops| - 1], ops[|ops| - 1];
      BusBounds(max, ops');
      var before := RunBus(max, ops');
      CountIsDrainedLength(before.acc);
      if op.DoPublish? {
        var acc := Apply(before.acc, op.e);
        ApplyKeepsValid(before.acc, op.e);
        CountStep(before.acc, op.e);
        CountIsDrainedLength(acc);
      }
    }
  }

  /** A pending event that calls for a rescan is not lost by draining. */
  ghost predicate RescanPending(a: Acc) {
    a.policy || a.nodes != map[]
  }

  lemma DrainKeepsRescan(a: Acc)
    requires NodesValid(a.nodes)
    ensures NeedsPeerRescan(Drained(a)) <==> RescanPending(a)
  {
    var b := Drained(a);
    if a.policy {
      assert b[0] == PolicyChanged;
      assert Rescans(b[0]);
    } else if a.nodes != map[] {
      var m := Largest(a.nodes.Keys);
      var es := NodeEvents(m, a.nodes[m]);
      assert |es| == NodeCount(a.nodes[m]);
      EventsOfMembers(a.nodes, es[0]);
      assert es[0] in b;
      var i :| 0 <= i < |b| && b[i] == es[0];
      assert Rescans(b[i]);
    }
  }

  // ---------------------------------------------------------------------
  // The objects that hold this state.

  lemma EventsOfSnoc(nodes: map<int, NodeAcc>, m: int, n: NodeAcc)
    requires forall k :: k in nodes ==> k < m
    ensures EventsOf(nodes[m := n]) == EventsOf(nodes) + NodeEvents(m, n)
    ensures CountOf(nodes[m := n]) == CountOf(nodes) + NodeCount(n)
  {
    var nodes' := nodes[m := n];
    assert m in nodes'.Keys;
    assert Largest(nodes'.Keys) == m;
    assert nodes' - {m} == nodes;
  }

  method PushNodeEvents(events: Batch, id: int, n: NodeAcc) returns (out: Batch)
    ensures out == events + NodeEvents(id, n)
  {
    out := events;
    if n.removed {
      out := out + [NodeRemoved(id)];
      return;
    }
    if n.changed {
      out := out + [NodeChanged(id)];
    }
    if n.online.Some? {
      out := out + [OnlineChanged(id, n.online.value)];
    }
    if n.seen {
      out := out + [PeerSeen(id)];
    }
  }

  lemma PassedGrows(taken: map<int, NodeAcc>, rest: set<int>, id: int)
    requires PassAt(taken.Keys, rest) && IsSmallest(rest, id)
    ensures EventsOf(taken - (rest - {id})) == EventsOf(taken - rest) + NodeEvents(id, taken[id])
  {
    var done := taken - rest;
    EventsOfSnoc(done, id, taken[id]);
    SameMap(taken - (rest - {id}), done[id := taken[id]]);
  }

  /** The node loop of a drain, in ascending id order. */
  lemma DrainStep(taken: map<int, NodeAcc>, rest: set<int>, id: int, globals: Batch)
    requires PassAt(taken.Keys, rest) && IsSmallest(rest, id)
    ensures (globals + EventsOf(taken - rest)) + NodeEvents(id, taken[id]) == globals + EventsOf(taken - (rest - {id}))
    ensures PassAt(taken.Keys, rest - {id})
  {
    PassedGrows(taken, rest, id);
    PassStep(taken.Keys, rest, id);
    GlueBatches(globals, EventsOf(taken - rest), NodeEvents(id, taken[id]));
  }

  lemma GlueBatches(a: Batch, b: Batch, c: Batch)
    ensures (a + b) + c == a + (b + c)
  {
  }

  method DrainNodes(taken: map<int, NodeAcc>, globals: Batch) returns (events: Batch)
    ensures events == globals + EventsOf(taken)
  {
    events := globals;
    var rest := taken.Keys;
    SameMap(taken - rest, map[]);
    assert events == globals + EventsOf(map[]);
    while rest != {}
      invariant PassAt(taken.Keys, rest)
      invariant events == globals + EventsOf(taken - rest)
      decreases rest
    {
      var id := TakeSmallest(rest);
      DrainStep(taken, rest, id, globals);
      events := PushNodeEvents(events, id, taken[id]);
      rest := rest - {id};
    }
    SameMap(taken - rest, taken);
  }

  class Accumulator {
    var nodes: map<int, NodeAcc>
    var policy: bool
    var dns: bool
    var derp: bool

    ghost function State(): Acc
      reads this
    {
      Acc(nodes, policy, dns, derp)
    }

    constructor ()
      ensures State() == EMPTY
    {
      nodes, policy, dns, derp := map[], false, false, false;
    }

    method ApplyEvent(e: ChangeEvent)
      modifies this
      ensures State() == Apply(old(State()), e)
    {
      match e {
        case PolicyChanged => policy := true;
        case DnsChanged => dns := true;
        case DerpMapChanged => derp := true;
        case NodeRemoved(id) =>
          nodes := nodes[id := NodeAcc(false, true, false, None)];
        case NodeChanged(id) =>
          var n := NodeOf(nodes, id);
          nodes := nodes[id := if n.removed then n else n.(changed := true)];
        case OnlineChanged(id, online) =>
          var n := NodeOf(nodes, id);
          nodes := nodes[id := if n.removed then n else n.(online := Some(online))];
        case PeerSeen(id) =>
          var n := NodeOf(nodes, id);
          nodes := nodes[id := if n.removed then n else n.(seen := true)];
      }
    }

    method CountEvents() returns (n: nat)
      ensures n == Count(State())
    {
      n := One(policy) + One(dns) + One(derp);
      var rest := nodes.Keys;
      ghost var done := map[];
      while rest != {}
        invariant rest <= nodes.Keys && done == nodes - rest
        invariant forall k, r :: k in done && r in rest ==> k < r
        invariant n == CountOf(done) + One(policy) + One(dns) + One(derp)
        decreases rest
      {
        var m := TakeSmallest(rest);
        EventsOfSnoc(done, m, nodes[m]);
        n := n + NodeCount(nodes[m]);
        done := done[m := nodes[m]];
        rest := rest - {m};
      }
      assert done == nodes;
    }

    method TakeGlobals() returns (events: Batch)
      modifies this
      ensures events == Globals(old(State())) && State() == EMPTY.(nodes := old(nodes))
    {
      events := [];
      if policy {
        events := events + [PolicyChanged];
        policy := false;
      }
      if dns {
        events := events + [DnsChanged];
        dns := false;
      }
      if derp {
        events := events + [DerpMapChanged];
        derp := false;
      }
    }

    method DrainBatch() returns (events: Batch)
      modifies this
      ensures events == Drained(old(State())) && State() == EMPTY
    {
      events := TakeGlobals();
      var taken := nodes;
      nodes := map[];
      var globals := events;
      events := DrainNodes(taken, globals);
    }
  }

  class ChangeBus {
    const pending: Accumulator
    const maxEvents: nat
    var sent: seq<Batch>

    ghost function State(): Bus
      reads this, pending
    {
      Bus(pending.State(), sent)
    }

    constructor (maxEvents: nat)
      ensures State() == Bus(EMPTY, []) && this.maxEvents == maxEvents
      ensures fresh(pending)
    {
      pending := new Accumulator();
      this.maxEvents := maxEvents;
      sent := [];
    }

    method PublishEvent(e: ChangeEvent)
      modifies this, pending
      ensures State() == Published(maxEvents, old(State()), e)
    {
      pending.ApplyEvent(e);
      var n := pending.CountEvents();
      if n >= maxEvents {
        var batch := pending.DrainBatch();
        sent := Broadcast(sent, batch);
      }
    }

    method FlushPending()
      modifies this, pending
      ensures State() == Flushed(old(State()))
    {
      var batch := pending.DrainBatch();
      sent := Broadcast(sent, batch);
    }
  }
}
