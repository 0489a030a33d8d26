/** Live map sessions, online state and the reconnect grace (crabscale-control/src/session.rs). */
module Sessions {
  import opened Ordered

  datatype SessionEvent =
    | Online(node: int)
    | Offline(node: int)
    | EphemeralExpired(node: int)

  datatype Entry = Entry(live: nat, online: bool, offlineAt: Option<int>, ephemeral: bool)

  datatype Registry = Registry(next: int, nodes: map<int, Entry>, owner: map<int, int>)

  const NEW := Registry(1, map[], map[])

  predicate IsOnline(r: Registry, n: int) {
    n in r.nodes && r.nodes[n].online
  }

  function LiveSessions(r: Registry, n: int): nat {
    if n in r.nodes then r.nodes[n].live else 0
  }

  /** The grace deadline of an idle node has been reached. */
  predicate Due(e: Entry, now: int) {
    e.live == 0 && e.offlineAt.Some? && now >= e.offlineAt.value
  }

  function EntryFor(r: Registry, n: int, ephemeral: bool): Entry {
    if n in r.nodes then r.nodes[n].(ephemeral := ephemeral) else Entry(0, false, None, ephemeral)
  }

  /** The entry and events of a node that gains a session. */
  function Opened(n: int, e: Entry, now: int): (Entry, seq<SessionEvent>) {
    if e.live > 0 then
      (e.(live := e.live + 1), [])
    else
      var lapsed := Due(e, now) && e.online;
      var gone := if lapsed then [Offline(n)] else [];
      var back := if lapsed || !e.online then [Online(n)] else [];
      (Entry(1, true, None, e.ephemeral), gone + back)
  }

  function Open(r: Registry, n: int, ephemeral: bool, now: int): (Registry, seq<SessionEvent>) {
    var (e, evs) := Opened(n, EntryFor(r, n, ephemeral), now);
    (Registry(r.next + 1, r.nodes[n := e], r.owner[r.next := n]), evs)
  }

  function ClosedEntry(e: Entry, deadline: int): Entry {
    var live := if e.live == 0 then 0 else e.live - 1;
    if live == 0 then e.(live := 0, offlineAt := Some(deadline)) else e.(live := live)
  }

  function Close(grace: int, r: Registry, sid: int, now: int): Registry {
    if sid !in r.owner then
      r
    else
      var n := r.owner[sid];
      Registry(r.next,
               if n in r.nodes then r.nodes[n := ClosedEntry(r.nodes[n], now + grace)] else r.nodes,
               r.owner - {sid})
  }

  predicate Expires(e: Entry, now: int) {
    Due(e, now) && e.ephemeral
  }

  function TickEntry(e: Entry, now: int): Entry {
    if Due(e, now) then e.(online := false, offlineAt := None) else e
  }

  function Tick(r: Registry, now: int): Registry {
    r.(nodes := map n | n in r.nodes && !Expires(r.nodes[n], now) :: TickEntry(r.nodes[n], now))
  }

  function NodeTickEvents(n: int, e: Entry, now: int): seq<SessionEvent> {
    if !Due(e, now) then
      []
    else
      (if e.online then [Offline(n)] else []) + (if e.ephemeral then [EphemeralExpired(n)] else [])
  }

  /** Events of a sweep that visits the nodes in the given order. */
  function TickEvents(nodes: map<int, Entry>, now: int, order: seq<int>): seq<SessionEvent> {
    if order == [] then
      []
    else
      var n := order[|order| - 1];
      TickEvents(nodes, now, order[..|order| - 1]) +
      (if n in nodes then NodeTickEvents(n, nodes[n], now) else [])
  }

  /** A visiting order of a hash map: every key once, in no particular order. */
  ghost predicate Visits(order: seq<int>, keys: set<int>) {
    (forall n :: n in order <==> n in keys) &&
    forall i, j :: 0 <= i < j < |order| ==> order[i] != order[j]
  }

  // ---------------------------------------------------------------------
  // What every operation keeps.

  ghost function SessionsOf(owner: map<int, int>, n: int): set<int> {
    set sid | sid in owner && owner[sid] == n
  }

  predicate EntryValid(e: Entry) {
    (e.live > 0 ==> e.online && e.offlineAt.None?) &&
    (e.live == 0 ==> (e.online <==> e.offlineAt.Some?))
  }

  ghost predicate Valid(r: Registry) {
    && (forall sid :: sid in r.owner ==> sid < r.next && r.owner[sid] in r.nodes)
    && (forall n :: n in r.nodes ==> r.nodes[n].live == |SessionsOf(r.owner, n)| && EntryValid(r.nodes[n]))
  }

  /** In a valid registry the live count of any node, known or not, is its number of open session ids. */
  lemma LiveIsOpenSessions(r: Registry, n: int)
    requires Valid(r)
    ensures LiveSessions(r, n) == |SessionsOf(r.owner, n)|
  {
    if n !in r.nodes {
      assert forall sid :: sid in r.owner ==> r.owner[sid] != n;
      assert SessionsOf(r.owner, n) == {};
    }
  }

  lemma OpenKeeps(r: Registry, n: int, ephemeral: bool, now: int)
    requires Valid(r)
    ensures Valid(Open(r, n, ephemeral, now).0)
  {
    var r' := Open(r, n, ephemeral, now).0;
    LiveIsOpenSessions(r, n);
    assert r.next !in SessionsOf(r.owner, n);
    assert SessionsOf(r'.owner, n) == SessionsOf(r.owner, n) + {r.next};
    forall m | m in r'.nodes && m != n
      ensures r'.nodes[m].live == |SessionsOf(r'.owner, m)|
    {
      assert SessionsOf(r'.owner, m) == SessionsOf(r.owner, m);
    }
  }

  lemma CloseKeeps(grace: int, r: Registry, sid: int, now: int)
    requires Valid(r)
    ensures Valid(Close(grace, r, sid, now))
  {
    if sid in r.owner {
      var r' := Close(grace, r, sid, now);
      var n := r.owner[sid];
      assert sid in SessionsOf(r.owner, n);
      assert SessionsOf(r'.owner, n) == SessionsOf(r.owner, n) - {sid};
      forall m | m in r'.nodes && m != n
        ensures r'.nodes[m].live == |SessionsOf(r'.owner, m)|
      {
        assert SessionsOf(r'.owner, m) == SessionsOf(r.owner, m);
      }
    }
  }

  lemma TickKeeps(r: Registry, now: int)
    requires Valid(r)
    ensures Valid(Tick(r, now))
  {
    forall sid | sid in r.owner
      ensures r.owner[sid] in Tick(r, now).nodes
    {
      assert sid in SessionsOf(r.owner, r.owner[sid]);
    }
  }

  // ---------------------------------------------------------------------
  // Runs: emitted events with the facts that held when they were emitted.

  /** An emitted event, when it was emitted, the node's last close, and its open sessions then. */
  datatype Stamped = Stamped(event: SessionEvent, now: int, lastClose: Option<int>, open: nat)

  datatype Trace = Trace(reg: Registry, log: seq<Stamped>, closes: map<int, int>)

  datatype Op = OpOpen(n: int, ephemeral: bool, now: int) | OpClose(sid: int, now: int) | OpTick(now: int)

  ghost function Stamp(t: Trace, evs: seq<SessionEvent>, now: int): seq<Stamped> {
    seq(|evs|, i requires 0 <= i < |evs| =>
      Stamped(evs[i], now,
              if evs[i].node in t.closes then Some(t.closes[evs[i].node]) else None,
              |SessionsOf(t.reg.owner, evs[i].node)|))
  }

  ghost predicate Step(grace: int, t: Trace, op: Op, t': Trace) {
    match op
    case OpOpen(n, ephemeral, now) =>
      var (reg, evs) := Open(t.reg, n, ephemeral, now);
      t' == Trace(reg, t.log + Stamp(t, evs, now), t.closes)
    case OpClose(sid, now) =>
      t' == Trace(Close(grace, t.reg, sid, now), t.log,
                  if sid in t.reg.owner then t.closes[t.reg.owner[sid] := now] else t.closes)
    case OpTick(now) =>
      exists order :: Visits(order, t.reg.nodes.Keys) &&
        t' == Trace(Tick(t.reg, now), t.log + Stamp(t, TickEvents(t.reg.nodes, now, order), now), t.closes)
  }

  ghost predicate IsRun(grace: int, ts: seq<Trace>, ops: seq<Op>) {
    && |ts| == |ops| + 1
    && ts[0] == Trace(NEW, [], map[])
    && forall i :: 0 <= i < |ops| ==> Step(grace, ts[i], ops[i], ts[i + 1])
  }

  predicate IsTransition(e: SessionEvent, n: int) {
    e == Online(n) || e == Offline(n)
  }

  /** The online and offline transitions of one node, in order. */
  function Transitions(log: seq<Stamped>, n: int): seq<SessionEvent> {
    if log == [] then
      []
    else
      var e := log[|log| - 1].event;
      Transitions(log[..|log| - 1], n) + (if IsTransition(e, n) then [e] else [])
  }

  ghost predicate Alternates(es: seq<SessionEvent>, n: int) {
    forall i :: 0 <= i < |es| ==> es[i] == if i % 2 == 0 then Online(n) else Offline(n)
  }

  /** An offline or expiry event comes no sooner than a grace after the last close, with no session open. */
  predicate Justified(grace: int, s: Stamped) {
    !s.event.Online? ==> s.lastClose.Some? && s.now >= s.lastClose.value + grace && s.open == 0
  }

  /** A node's transitions alternate, and it is online exactly after an odd number of them. */
  ghost predicate InPhase(t: Trace, n: int) {
    && Alternates(Transitions(t.log, n), n)
    && (IsOnline(t.reg, n) <==> |Transitions(t.log, n)| % 2 == 1)
  }

  ghost predicate Inv(grace: int, t: Trace) {
    && Valid(t.reg)
    && (forall n :: InPhase(t, n))
    && AllJustified(grace, t.log)
    && (forall n :: n in t.reg.nodes && t.reg.nodes[n].offlineAt.Some? ==>
          n in t.closes && t.reg.nodes[n].offlineAt.value == t.closes[n] + grace)
  }

  lemma {:induction false} TransitionsConcat(a: seq<Stamped>, b: seq<Stamped>, n: int)
    ensures Transitions(a + b, n) == Transitions(a, n) + Transitions(b, n)
    decreases |b|
  {
    if b == [] {
      assert a + b == a;
    } else {
      var b', s := b[..|b| - 1], b[|b| - 1];
      TransitionsConcat(a, b', n);
      assert (a + b)[..|a + b| - 1] == a + b';
    }
  }

  /** The transitions of one node among plain events. */
  function Own(evs: seq<SessionEvent>, n: int): seq<SessionEvent> {
    if evs == [] then
      []
    else
      Own(evs[..|evs| - 1], n) + (if IsTransition(evs[|evs| - 1], n) then [evs[|evs| - 1]] else [])
  }

  lemma {:induction false} OwnConcat(a: seq<SessionEvent>, b: seq<SessionEvent>, n: int)
    ensures Own(a + b, n) == Own(a, n) + Own(b, n)
    decreases |b|
  {
    if b == [] {
      assert a + b == a;
    } else {
      OwnConcat(a, b[..|b| - 1], n);
      assert (a + b)[..|a + b| - 1] == a + b[..|b| - 1];
    }
  }

  lemma {:induction false} StampedTransitions(t: Trace, evs: seq<SessionEvent>, now: int, n: int)
    ensures Transitions(Stamp(t, evs, now), n) == Own(evs, n)
    decreases |evs|
  {
    if evs != [] {
      var s := Stamp(t, evs, now);
      StampedTransitions(t, evs[..|evs| - 1], now, n);
      assert s[..|s| - 1] == Stamp(t, evs[..|evs| - 1], now);
    }
  }

  lemma OwnShort(e: SessionEvent, n: int)
    ensures Own([], n) == []
    ensures Own([e], n) == if IsTransition(e, n) then [e] else []
  {
  }

  lemma OwnPair(d: SessionEvent, e: SessionEvent, n: int)
    ensures Own([d, e], n) == Own([d], n) + Own([e], n)
  {
    assert [d, e] == [d] + [e];
    OwnConcat([d], [e], n);
  }

  lemma OwnOpened(m: int, e: Entry, now: int, n: int)
    ensures var evs := Opened(m, e, now).1;
            Own(evs, n) == if n == m then evs else []
  {
    var evs := Opened(m, e, now).1;
    OwnShort(Online(m), n);
    OwnShort(Offline(m), n);
    OwnPair(Offline(m), Online(m), n);
    assert evs == [] || evs == [Online(m)] || evs == [Offline(m), Online(m)];
  }

  lemma OwnNodeTick(m: int, e: Entry, now: int, n: int)
    ensures Own(NodeTickEvents(m, e, now), n) == if n == m && Due(e, now) && e.online then [Offline(n)] else []
  {
    if Due(e, now) {
      var offline: seq<SessionEvent> := if e.online then [Offline(m)] else [];
      var expired: seq<SessionEvent> := if e.ephemeral then [EphemeralExpired(m)] else [];
      OwnShort(EphemeralExpired(m), n);
      OwnShort(Offline(m), n);
      OwnConcat(offline, expired, n);
    }
  }

  lemma {:induction false} OwnTick(nodes: map<int, Entry>, now: int, order: seq<int>, n: int)
    requires forall i, j :: 0 <= i < j < |order| ==> order[i] != order[j]
    ensures Own(TickEvents(nodes, now, order), n) ==
            if n in order && n in nodes && Due(nodes[n], now) && nodes[n].online then [Offline(n)] else []
    decreases |order|
  {
    if order != [] {
      var front, m := order[..|order| - 1], order[|order| - 1];
      OwnTick(nodes, now, front, n);
      assert order == front + [m];
      assert m !in front;
      if m in nodes {
        OwnConcat(TickEvents(nodes, now, front), NodeTickEvents(m, nodes[m], now), n);
        OwnNodeTick(m, nodes[m], now, n);
      } else {
        OwnConcat(TickEvents(nodes, now, front), [], n);
      }
    }
  }

  lemma {:induction false} TickEventsDue(nodes: map<int, Entry>, now: int, order: seq<int>, e: SessionEvent)
    requires e in TickEvents(nodes, now, order)
    ensures !e.Online? && e.node in nodes && Due(nodes[e.node], now)
    decreases |order|
  {
    var front, m := order[..|order| - 1], order[|order| - 1];
    if e in TickEvents(nodes, now, front) {
      TickEventsDue(nodes, now, front, e);
    }
  }

  lemma AppendTransition(a: seq<SessionEvent>, b: seq<SessionEvent>, n: int)
    requires Alternates(a, n)
    requires b == [] || b == [if |a| % 2 == 0 then Online(n) else Offline(n)] || (|a| % 2 == 1 && b == [Offline(n), Online(n)])
    ensures Alternates(a + b, n)
  {
  }

  lemma Extends(t: Trace, evs: seq<SessionEvent>, now: int, t': Trace, n: int)
    requires InPhase(t, n) && t'.log == t.log + Stamp(t, evs, now)
    requires var b := Own(evs, n);
             if IsOnline(t'.reg, n) then
               b == (if IsOnline(t.reg, n) then [] else [Online(n)]) || (IsOnline(t.reg, n) && b == [Offline(n), Online(n)])
             else
               b == if IsOnline(t.reg, n) then [Offline(n)] else []
    ensures InPhase(t', n)
  {
    TransitionsConcat(t.log, Stamp(t, evs, now), n);
    StampedTransitions(t, evs, now, n);
    AppendTransition(Transitions(t.log, n), Own(evs, n), n);
  }

  ghost predicate AllJustified(grace: int, log: seq<Stamped>) {
    forall i :: 0 <= i < |log| ==> Justified(grace, log[i])
  }

  /** Opening reports a transition of the node exactly when it changes whether the node is online. */
  lemma OpenedTransitions(r: Registry, m: int, ephemeral: bool, now: int, n: int)
    requires Valid(r)
    ensures var (r', evs) := Open(r, m, ephemeral, now);
            var b := Own(evs, n);
            if IsOnline(r', n) then
              b == (if IsOnline(r, n) then [] else [Online(n)]) || (IsOnline(r, n) && b == [Offline(n), Online(n)])
            else
              b == if IsOnline(r, n) then [Offline(n)] else []
  {
    OwnOpened(m, EntryFor(r, m, ephemeral), now, n);
  }

  lemma OpenPhase(grace: int, t: Trace, op: Op, t': Trace, n: int)
    requires Inv(grace, t) && op.OpOpen? && Step(grace, t, op, t')
    ensures InPhase(t', n)
  {
    assert InPhase(t, n);
    OpenedTransitions(t.reg, op.n, op.ephemeral, op.now, n);
    Extends(t, Open(t.reg, op.n, op.ephemeral, op.now).1, op.now, t', n);
  }

  lemma OpenJustified(grace: int, t: Trace, n: int, ephemeral: bool, now: int)
    requires Inv(grace, t)
    ensures AllJustified(grace, Stamp(t, Opened(n, EntryFor(t.reg, n, ephemeral), now).1, now))
  {
    LiveIsOpenSessions(t.reg, n);
  }

  lemma OpenStep(grace: int, t: Trace, op: Op, t': Trace)
    requires Inv(grace, t) && op.OpOpen? && Step(grace, t, op, t')
    ensures Inv(grace, t')
  {
    OpenKeeps(t.reg, op.n, op.ephemeral, op.now);
    forall n
      ensures InPhase(t', n)
    {
      OpenPhase(grace, t, op, t', n);
    }
    OpenJustified(grace, t, op.n, op.ephemeral, op.now);
  }

  lemma CloseStep(grace: int, t: Trace, op: Op, t': Trace)
    requires Inv(grace, t) && op.OpClose? && Step(grace, t, op, t')
    ensures Inv(grace, t')
  {
    CloseKeeps(grace, t.reg, op.sid, op.now);
    if op.sid in t.reg.owner {
      assert op.sid in SessionsOf(t.reg.owner, t.reg.owner[op.sid]);
    }
    forall n
      ensures InPhase(t', n)
    {
      assert InPhase(t, n);
    }
  }

  lemma TickPhase(t: Trace, now: int, order: seq<int>, t': Trace, n: int)
    requires InPhase(t, n) && Visits(order, t.reg.nodes.Keys) && Valid(t.reg)
    requires t' == Trace(Tick(t.reg, now), t.log + Stamp(t, TickEvents(t.reg.nodes, now, order), now), t.closes)
    ensures InPhase(t', n)
  {
    OwnTick(t.reg.nodes, now, order, n);
    Extends(t, TickEvents(t.reg.nodes, now, order), now, t', n);
  }

  lemma TickJustified(grace: int, t: Trace, now: int, order: seq<int>)
    requires Inv(grace, t)
    ensures AllJustified(grace, Stamp(t, TickEvents(t.reg.nodes, now, order), now))
  {
    var evs := TickEvents(t.reg.nodes, now, order);
    forall i | 0 <= i < |evs|
      ensures Justified(grace, Stamp(t, evs, now)[i])
    {
      assert evs[i] in evs;
      TickEventsDue(t.reg.nodes, now, order, evs[i]);
    }
  }

  lemma TickStep(grace: int, t: Trace, op: Op, t': Trace)
    requires Inv(grace, t) && op.OpTick? && Step(grace, t, op, t')
    ensures Inv(grace, t')
  {
    var order :| Visits(order, t.reg.nodes.Keys) &&
      t' == Trace(Tick(t.reg, op.now), t.log + Stamp(t, TickEvents(t.reg.nodes, op.now, order), op.now), t.closes);
    TickKeeps(t.reg, op.now);
    forall n
      ensures InPhase(t', n)
    {
      assert InPhase(t, n);
      TickPhase(t, op.now, order, t', n);
    }
    TickJustified(grace, t, op.now, order);
  }

  /**
   * In every run: live counts are open sessions, live nodes are online without a deadline, idle nodes
   * are online exactly while a deadline stands, each node's transitions alternate starting online, and
   * offline and expiry events are justified by an elapsed grace with no session open.
   */
  lemma {:induction false} EveryRun(grace: int, ts: seq<Trace>, ops: seq<Op>)
    requires IsRun(grace, ts, ops)
    ensures Inv(grace, ts[|ops|])
    decreases |ops|
  {
    if ops != [] {
      var k := |ops| - 1;
      EveryRun(grace, ts[..k + 1], ops[..k]);
      assert Step(grace, ts[k], ops[k], ts[k + 1]);
      match ops[k]
      case OpOpen(_, _, _) => OpenStep(grace, ts[k], ops[k], ts[k + 1]);
      case OpClose(_, _) => CloseStep(grace, ts[k], ops[k], ts[k + 1]);
      case OpTick(_) => TickStep(grace, ts[k], ops[k], ts[k + 1]);
    }
  }

  // ---------------------------------------------------------------------
  // The object that holds this state.

  /** Visiting one more node adds its events behind the others. */
  lemma TickEventsSnoc(nodes: map<int, Entry>, now: int, order: seq<int>, n: int)
    requires n in nodes
    ensures TickEvents(nodes, now, order + [n]) == TickEvents(nodes, now, order) + NodeTickEvents(n, nodes[n], now)
  {
    assert (order + [n])[..|order|] == order;
  }

  lemma VisitsSnoc(order: seq<int>, keys: set<int>, n: int)
    requires Visits(order, keys) && n !in keys
    ensures Visits(order + [n], keys + {n})
  {
  }

  class SessionRegistry {
    const graceSeconds: int
    var nextSessionId: int
    var nodes: map<int, Entry>
    var sessionToNode: map<int, int>

    ghost function State(): Registry
      reads this
    {
      Registry(nextSessionId, nodes, sessionToNode)
    }

    constructor (graceSeconds: int)
      ensures State() == NEW && Valid(State()) && this.graceSeconds == graceSeconds
    {
      this.graceSeconds := graceSeconds;
      nextSessionId, nodes, sessionToNode := 1, map[], map[];
    }

    method OpenSession(node: int, ephemeral: bool, now: int) returns (sid: int, events: seq<SessionEvent>)
      requires Valid(State())
      modifies this
      ensures (State(), events) == Open(old(State()), node, ephemeral, now)
      ensures Valid(State()) && sid == old(nextSessionId) && sid !in old(sessionToNode)
      ensures SessionsOf(sessionToNode, node) == old(SessionsOf(sessionToNode, node)) + {sid}
    {
      OpenKeeps(State(), node, ephemeral, now);
      sid := nextSessionId;
      nextSessionId := nextSessionId + 1;
      events := [];
      var entry := if node in nodes then nodes[node] else Entry(0, false, None, ephemeral);
      entry := entry.(ephemeral := ephemeral);
      if entry.live == 0 {
        if entry.offlineAt.Some? {
          if now >= entry.offlineAt.value && entry.online {
            entry := entry.(online := false);
            events := events + [Offline(node)];
          }
          entry := entry.(offlineAt := None);
        }
        if !entry.online {
          entry := entry.(online := true);
          events := events + [Online(node)];
        }
      }
      entry := entry.(live := entry.live + 1);
      ghost var (want, evs) := Opened(node, EntryFor(old(State()), node, ephemeral), now);
      assert entry == want;
      assert events == evs;
      nodes := nodes[node := entry];
      sessionToNode := sessionToNode[sid := node];
    }

    method CloseSession(sid: int, now: int) returns (closed: bool)
      requires Valid(State())
      modifies this
      ensures State() == Close(graceSeconds, old(State()), sid, now) && Valid(State())
      ensures closed <==> sid in old(sessionToNode)
    {
      CloseKeeps(graceSeconds, State(), sid, now);
      if sid !in sessionToNode {
        return false;
      }
      var node := sessionToNode[sid];
      sessionToNode := sessionToNode - {sid};
      if node in nodes {
        var entry := nodes[node];
        entry := entry.(live := if entry.live == 0 then 0 else entry.live - 1);
        if entry.live == 0 {
          entry := entry.(offlineAt := Some(now + graceSeconds));
        }
        nodes := nodes[node := entry];
      }
      closed := true;
    }

    method Sweep(now: int) returns (events: seq<SessionEvent>, ghost order: seq<int>)
      requires Valid(State())
      modifies this
      ensures State() == Tick(old(State()), now) && Valid(State())
      ensures Visits(order, old(nodes).Keys) && events == TickEvents(old(nodes), now, order)
    {
      TickKeeps(State(), now);
      events, order := [], [];
      var before := nodes;
      var rest := nodes.Keys;
      while rest != {}
        invariant rest <= before.Keys
        invariant Visits(order, before.Keys - rest)
        invariant events == TickEvents(before, now, order)
        invariant nextSessionId == old(nextSessionId) && sessionToNode == old(sessionToNode)
        invariant nodes.Keys == before.Keys
        invariant forall n :: n in before ==> nodes[n] == if n in rest then before[n] else TickEntry(before[n], now)
        decreases rest
      {
        EmptyOrInhabited(rest);
        var n :| n in rest;
        var entry := nodes[n];
        TickEventsSnoc(before, now, order, n);
        VisitsSnoc(order, before.Keys - rest, n);
        assert before.Keys - rest + {n} == before.Keys - (rest - {n});
        if entry.live == 0 && entry.offlineAt.Some? && now >= entry.offlineAt.value {
          if entry.online {
            events := events + [Offline(n)];
          }
          if entry.ephemeral {
            events := events + [EphemeralExpired(n)];
          }
          nodes := nodes[n := entry.(online := false, offlineAt := None)];
        }
        order := order + [n];
        rest := rest - {n};
      }
      var kept := map n | n in nodes && !Expires(before[n], now) :: nodes[n];
      SameMap(kept, Tick(old(State()), now).nodes);
      nodes := kept;
    }
  }
}
