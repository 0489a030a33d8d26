/** Incremental peer deltas against the peers a session last sent (crabscale-control/src/delta.rs). */
module Delta {
  import opened Ordered
  import opened Net
  import opened Events

  type Key = string
  type Timestamp = int

  datatype Hostinfo = Hostinfo(
    hostname: string,
    requestTags: Option<seq<string>>,
    routableIps: Option<seq<Option<Cidr>>>,
    preferredDerp: Option<nat>,
    rest: string)

  /** The wire form of a node: thirteen structural fields, seven patchable ones and the id. */
  datatype WireNode = WireNode(
    id: int,
    stableId: int,
    name: string,
    user: int,
    machine: Key,
    addresses: seq<Cidr>,
    allowedIps: Option<seq<Cidr>>,
    hostinfo: Option<Hostinfo>,
    created: Timestamp,
    tags: Option<seq<string>>,
    capMap: map<string, seq<string>>,
    primaryRoutes: seq<Cidr>,
    machineAuthorized: bool,
    capabilities: seq<string>,
    endpoints: seq<string>,
    homeDerp: nat,
    key: Key,
    discoKey: Key,
    online: Option<bool>,
    lastSeen: Option<Timestamp>,
    cap: nat)

  datatype PeerChange = PeerChange(
    nodeId: int,
    derpRegion: Option<nat>,
    endpoints: Option<seq<string>>,
    key: Option<Key>,
    discoKey: Option<Key>,
    online: Option<bool>,
    lastSeen: Option<Timestamp>,
    keyExpiry: Option<Timestamp>,
    cap: Option<nat>)

  datatype PeerDiff = Unchanged | Patch(change: PeerChange) | Full

  predicate StructuralEqual(prev: WireNode, next: WireNode) {
    && prev.stableId == next.stableId
    && prev.name == next.name
    && prev.user == next.user
    && prev.machine == next.machine
    && prev.addresses == next.addresses
    && prev.allowedIps == next.allowedIps
    && prev.hostinfo == next.hostinfo
    && prev.created == next.created
    && prev.tags == next.tags
    && prev.capMap == next.capMap
    && prev.primaryRoutes == next.primaryRoutes
    && prev.machineAuthorized == next.machineAuthorized
    && prev.capabilities == next.capabilities
  }

  function Carry<T(==)>(prev: T, next: T): Option<T> {
    if prev == next then None else Some(next)
  }

  /** The patch for two structurally equal snapshots: a field is carried only when it changed. */
  function PatchFor(prev: WireNode, next: WireNode, prevExpiry: Option<Timestamp>, nextExpiry: Option<Timestamp>): PeerChange {
    PeerChange(
      next.id,
      Carry(prev.homeDerp, next.homeDerp),
      Carry(prev.endpoints, next.endpoints),
      Carry(prev.key, next.key),
      Carry(prev.discoKey, next.discoKey),
      if prev.online == next.online then None else next.online,
      if prev.lastSeen == next.lastSeen then None else next.lastSeen,
      if prevExpiry == nextExpiry then None else nextExpiry,
      Carry(prev.cap, next.cap))
  }

  predicate PatchableEqual(prev: WireNode, next: WireNode) {
    && prev.endpoints == next.endpoints
    && prev.homeDerp == next.homeDerp
    && prev.key == next.key
    && prev.discoKey == next.discoKey
    && prev.online == next.online
    && prev.lastSeen == next.lastSeen
    && prev.cap == next.cap
  }

  function Diff(prev: WireNode, next: WireNode, prevExpiry: Option<Timestamp>, nextExpiry: Option<Timestamp>): PeerDiff {
    if !StructuralEqual(prev, next) then Full
    else if PatchableEqual(prev, next) && prevExpiry == nextExpiry then Unchanged
    else Patch(PatchFor(prev, next, prevExpiry, nextExpiry))
  }

  /** The comparison as the code runs it, field by field with a flag. */
  method DiffPeers(prev: WireNode, next: WireNode, prevExpiry: Option<Timestamp>, nextExpiry: Option<Timestamp>)
      returns (d: PeerDiff)
    ensures d == Diff(prev, next, prevExpiry, nextExpiry)
  {
    if !StructuralEqual(prev, next) {
      return Full;
    }
    var patch := PeerChange(next.id, None, None, None, None, None, None, None, None);
    var hasPatch := false;
    if prev.endpoints != next.endpoints {
      patch := patch.(endpoints := Some(next.endpoints));
      hasPatch := true;
    }
    if prev.homeDerp != next.homeDerp {
      patch := patch.(derpRegion := Some(next.homeDerp));
      hasPatch := true;
    }
    if prev.key != next.key {
      patch := patch.(key := Some(next.key));
      hasPatch := true;
    }
    if prev.discoKey != next.discoKey {
      patch := patch.(discoKey := Some(next.discoKey));
      hasPatch := true;
    }
    patch, hasPatch := DiffStatus(prev, next, prevExpiry, nextExpiry, patch, hasPatch);
    d := if hasPatch then Patch(patch) else Unchanged;
  }

  /** The rest of the comparison: what a peer reports of itself and when its key expires. */
  method DiffStatus(prev: WireNode, next: WireNode, prevExpiry: Option<Timestamp>, nextExpiry: Option<Timestamp>,
                    start: PeerChange, started: bool)
      returns (patch: PeerChange, hasPatch: bool)
    requires start.online.None? && start.lastSeen.None? && start.keyExpiry.None? && start.cap.None?
    ensures patch == start.(online := if prev.online == next.online then None else next.online,
                            lastSeen := if prev.lastSeen == next.lastSeen then None else next.lastSeen,
                            keyExpiry := if prevExpiry == nextExpiry then None else nextExpiry,
                            cap := Carry(prev.cap, next.cap))
    ensures hasPatch <==> started || !(prev.online == next.online && prev.lastSeen == next.lastSeen && prev.cap == next.cap &&
                                       prevExpiry == nextExpiry)
  {
    patch, hasPatch := start, started;
    if prev.online != next.online {
      patch := patch.(online := next.online);
      hasPatch := true;
    }
    if prev.lastSeen != next.lastSeen {
      patch := patch.(lastSeen := next.lastSeen);
      hasPatch := true;
    }
    if prev.cap != next.cap {
      patch := patch.(cap := Some(next.cap));
      hasPatch := true;
    }
    if prevExpiry != nextExpiry {
      patch := patch.(keyExpiry := nextExpiry);
      hasPatch := true;
    }
  }

  // ---------------------------------------------------------------------
  // The client.

  function Overwrite<T>(old_: T, carried: Option<T>): T {
    if carried.Some? then carried.value else old_
  }

  /** A client overwrites exactly the fields a patch carries. */
  function ApplyPatch(n: WireNode, p: PeerChange): WireNode {
    n.(endpoints := Overwrite(n.endpoints, p.endpoints),
       homeDerp := Overwrite(n.homeDerp, p.derpRegion),
       key := Overwrite(n.key, p.key),
       discoKey := Overwrite(n.discoKey, p.discoKey),
       online := if p.online.Some? then p.online else n.online,
       lastSeen := if p.lastSeen.Some? then p.lastSeen else n.lastSeen,
       cap := Overwrite(n.cap, p.cap))
  }

  /** An optional field that goes back to absent, which a patch has no way to say. */
  predicate Clears(prev: WireNode, next: WireNode) {
    (prev.online.Some? && next.online.None?) || (prev.lastSeen.Some? && next.lastSeen.None?)
  }

  /** What a client makes of one peer's diff. */
  function Reconcile(prev: WireNode, next: WireNode, d: PeerDiff): WireNode {
    match d
    case Unchanged => prev
    case Patch(p) => ApplyPatch(prev, p)
    case Full => next
  }

  /**
   * A diff brings the client to the new snapshot exactly when it is sent in full or clears no
   * optional field: the structural and the patched fields together are all fields but the id.
   */
  lemma DiffConverges(prev: WireNode, next: WireNode, prevExpiry: Option<Timestamp>, nextExpiry: Option<Timestamp>)
    requires prev.id == next.id
    ensures var d := Diff(prev, next, prevExpiry, nextExpiry);
            Reconcile(prev, next, d) == next <==> d.Full? || !Clears(prev, next)
  {
    if StructuralEqual(prev, next) {
      PatchReaches(prev, next, prevExpiry, nextExpiry);
    }
  }

  /** The patched fields reach the new snapshot unless an optional one is cleared; no other field differs. */
  lemma PatchReaches(prev: WireNode, next: WireNode, prevExpiry: Option<Timestamp>, nextExpiry: Option<Timestamp>)
    requires prev.id == next.id && StructuralEqual(prev, next)
    ensures ApplyPatch(prev, PatchFor(prev, next, prevExpiry, nextExpiry)) == next <==> !Clears(prev, next)
  {
    var p := ApplyPatch(prev, PatchFor(prev, next, prevExpiry, nextExpiry));
    assert StructuralEqual(p, next) && p.id == next.id;
    assert p.endpoints == next.endpoints && p.homeDerp == next.homeDerp && p.key == next.key && p.discoKey == next.discoKey && p.cap == next.cap;
    assert (p.online == next.online && p.lastSeen == next.lastSeen) <==> !Clears(prev, next);
  }

  /** The failing family is inhabited: a last-seen time that disappears is never told to the client. */
  lemma ClearedLastSeenIsLost(prev: WireNode)
    requires prev.lastSeen.Some?
    ensures var next := prev.(lastSeen := None);
            Reconcile(prev, next, Diff(prev, next, None, None)) != next
  {
    var next := prev.(lastSeen := None);
    DiffConverges(prev, next, None, None);
  }

  /** The current visible peers with their key expiry, by node id. */
  type Current = map<int, (WireNode, Option<Timestamp>)>

  ghost predicate Keyed(next: Current) {
    forall id :: id in next ==> next[id].0.id == id
  }

  ghost predicate KeyedPeers(peers: map<int, WireNode>) {
    forall id :: id in peers ==> peers[id].id == id
  }

  function Nodes(next: Current): map<int, WireNode> {
    map id | id in next :: next[id].0
  }

  function Expiries(next: Current): map<int, Option<Timestamp>> {
    map id | id in next :: next[id].1
  }

  datatype Tracking = Tracking(peers: map<int, WireNode>, expiry: map<int, Option<Timestamp>>)

  function PrevExpiry(t: Tracking, id: int): Option<Timestamp> {
    if id in t.expiry then t.expiry[id] else None
  }

  /** How one current peer relates to what was last sent. */
  function DiffOf(t: Tracking, next: Current, id: int): PeerDiff
    requires id in next
  {
    if id in t.peers then Diff(t.peers[id], next[id].0, PrevExpiry(t, id), next[id].1) else Full
  }

  /** Every current peer with its diff. */
  type Classified = map<int, (WireNode, PeerDiff)>

  function Classify(t: Tracking, next: Current): Classified {
    map id | id in next :: (next[id].0, DiffOf(t, next, id))
  }

  ghost function ChangedOf(k: Classified): seq<WireNode>
    decreases |k|
  {
    if k == map[] then
      []
    else
      var m := Largest(k.Keys);
      if k[m].1.Full? then ChangedOf(k - {m}) + [k[m].0] else ChangedOf(k - {m})
  }

  ghost function PatchesOf(k: Classified): seq<PeerChange>
    decreases |k|
  {
    if k == map[] then
      []
    else
      var m := Largest(k.Keys);
      if k[m].1.Patch? then PatchesOf(k - {m}) + [k[m].1.change] else PatchesOf(k - {m})
  }

  /** The current peers as a list in id order. */
  ghost function InIdOrder(next: Current): seq<WireNode>
    decreases |next|
  {
    if next == map[] then
      []
    else
      var m := Largest(next.Keys);
      InIdOrder(next - {m}) + [next[m].0]
  }

  ghost function Ascend(ids: set<int>): seq<int>
    decreases |ids|
  {
    if ids == {} then
      []
    else
      var m := Largest(ids);
      Ascend(ids - {m}) + [m]
  }

  datatype PeerDeltas = PeerDeltas(removed: seq<int>, changed: seq<WireNode>, patches: seq<PeerChange>, current: seq<WireNode>)

  ghost function DeltasOf(t: Tracking, next: Current): PeerDeltas {
    PeerDeltas(Ascend(t.peers.Keys - next.Keys), ChangedOf(Classify(t, next)), PatchesOf(Classify(t, next)), InIdOrder(next))
  }

  // The client's side of a delta, in the order the fields are applied.

  function DropAll(c: map<int, WireNode>, ids: seq<int>): map<int, WireNode> {
    if ids == [] then c else DropAll(c, ids[..|ids| - 1]) - {ids[|ids| - 1]}
  }

  function PutAll(c: map<int, WireNode>, ns: seq<WireNode>): map<int, WireNode> {
    if ns == [] then c else PutAll(c, ns[..|ns| - 1])[ns[|ns| - 1].id := ns[|ns| - 1]]
  }

  function PatchAll(c: map<int, WireNode>, ps: seq<PeerChange>): map<int, WireNode> {
    if ps == [] then
      c
    else
      var before, p := PatchAll(c, ps[..|ps| - 1]), ps[|ps| - 1];
      if p.nodeId in before then before[p.nodeId := ApplyPatch(before[p.nodeId], p)] else before
  }

  lemma {:induction false} DropAscend(c: map<int, WireNode>, ids: set<int>)
    ensures DropAll(c, Ascend(ids)) == c - ids
    decreases |ids|
  {
    if ids != {} {
      var m := Largest(ids);
      DropAscend(c, ids - {m});
      assert Ascend(ids)[..|Ascend(ids)| - 1] == Ascend(ids - {m});
      assert c - (ids - {m}) - {m} == c - ids;
    } else {
      assert c - ids == c;
    }
  }

  ghost predicate WellKeyed(k: Classified) {
    forall id :: id in k ==> k[id].0.id == id && (k[id].1.Patch? ==> k[id].1.change.nodeId == id)
  }

  ghost function FullMap(k: Classified): map<int, WireNode> {
    map id | id in k && k[id].1.Full? :: k[id].0
  }

  lemma PutLast(c: map<int, WireNode>, ns: seq<WireNode>, n: WireNode)
    ensures PutAll(c, ns + [n]) == PutAll(c, ns)[n.id := n]
  {
    assert (ns + [n])[..|ns|] == ns;
  }

  lemma FullMapWithout(k: Classified, m: int)
    requires m in k
    ensures FullMap(k) == if k[m].1.Full? then FullMap(k - {m})[m := k[m].0] else FullMap(k - {m})
  {
  }

  lemma MergeThenPut(c: map<int, WireNode>, d: map<int, WireNode>, m: int, n: WireNode)
    ensures (c + d)[m := n] == c + d[m := n]
  {
  }

  lemma {:induction false} PutChanged(c: map<int, WireNode>, k: Classified)
    requires WellKeyed(k)
    ensures PutAll(c, ChangedOf(k)) == c + FullMap(k)
    decreases |k|
  {
    if k == map[] {
      assert FullMap(k) == map[];
    } else {
      var m := Largest(k.Keys);
      var less := k - {m};
      PutChanged(c, less);
      FullMapWithout(k, m);
      if k[m].1.Full? {
        PutLast(c, ChangedOf(less), k[m].0);
        MergeThenPut(c, FullMap(less), m, k[m].0);
      }
    }
  }

  /** The entries of a client that a list of patches rewrites. */
  ghost function PatchMap(c: map<int, WireNode>, k: Classified): map<int, WireNode> {
    map id | id in k && id in c && k[id].1.Patch? :: ApplyPatch(c[id], k[id].1.change)
  }

  lemma PatchMapSnoc(c: map<int, WireNode>, k: Classified, m: int)
    requires m in k
    ensures PatchMap(c, k) ==
            if m in c && k[m].1.Patch? then PatchMap(c, k - {m})[m := ApplyPatch(c[m], k[m].1.change)]
            else PatchMap(c, k - {m})
  {
  }

  lemma OverlayPut(c: map<int, WireNode>, d: map<int, WireNode>, m: int, w: WireNode)
    ensures (c + d)[m := w] == c + d[m := w]
  {
  }

  lemma {:induction false} PatchPatches(c: map<int, WireNode>, k: Classified)
    requires WellKeyed(k)
    ensures PatchAll(c, PatchesOf(k)) == c + PatchMap(c, k)
    decreases |k|
  {
    if k == map[] {
      assert PatchMap(c, k) == map[];
    } else {
      var m := Largest(k.Keys);
      var less := k - {m};
      PatchPatches(c, less);
      PatchMapSnoc(c, k, m);
      if k[m].1.Patch? {
        var all := PatchesOf(k);
        assert all[..|all| - 1] == PatchesOf(less);
        assert m !in PatchMap(c, less);
        if m in c {
          OverlayPut(c, PatchMap(c, less), m, ApplyPatch(c[m], k[m].1.change));
        }
      }
    }
  }

  lemma {:induction false} PutInIdOrder(c: map<int, WireNode>, next: Current)
    requires Keyed(next)
    ensures PutAll(c, InIdOrder(next)) == c + Nodes(next)
    decreases |next|
  {
    if next == map[] {
      assert c + Nodes(next) == c;
    } else {
      var m := Largest(next.Keys);
      PutInIdOrder(c, next - {m});
      var all := InIdOrder(next);
      assert all[..|all| - 1] == InIdOrder(next - {m});
      assert (c + Nodes(next - {m}))[m := next[m].0] == c + Nodes(next);
    }
  }

  /** A full peer list is in ascending id order and holds each current peer once. */
  lemma {:induction false} InIdOrderAscends(next: Current)
    requires Keyed(next)
    ensures forall i, j :: 0 <= i < j < |InIdOrder(next)| ==> InIdOrder(next)[i].id < InIdOrder(next)[j].id
    ensures forall w :: w in InIdOrder(next) <==> w.id in next && next[w.id].0 == w
    decreases |next|
  {
    if next != map[] {
      var m := Largest(next.Keys);
      InIdOrderAscends(next - {m});
      var front := InIdOrder(next - {m});
      forall i | 0 <= i < |front|
        ensures front[i].id < m
      {
        assert front[i] in front;
      }
    }
  }

  /** No peer that would be patched loses an optional field. */
  ghost predicate NothingCleared(t: Tracking, next: Current) {
    forall id :: id in t.peers && id in next && StructuralEqual(t.peers[id], next[id].0) ==> !Clears(t.peers[id], next[id].0)
  }

  function ApplyDeltas(c: map<int, WireNode>, d: PeerDeltas): map<int, WireNode> {
    PatchAll(PutAll(DropAll(c, d.removed), d.changed), d.patches)
  }

  /** The client's peers after each part of a delta has been applied. */
  ghost function AfterDelta(t: Tracking, next: Current): map<int, WireNode> {
    var k := Classify(t, next);
    var put := (t.peers - (t.peers.Keys - next.Keys)) + FullMap(k);
    put + PatchMap(put, k)
  }

  predicate PatchClears(t: Tracking, next: Current, id: int)
    requires id in next
  {
    id in t.peers && StructuralEqual(t.peers[id], next[id].0) && Clears(t.peers[id], next[id].0)
  }

  lemma DeltaPointwise(t: Tracking, next: Current, id: int)
    requires Keyed(next) && KeyedPeers(t.peers)
    ensures id in AfterDelta(t, next) <==> id in next
    ensures id in next ==> (AfterDelta(t, next)[id] == next[id].0 <==> !PatchClears(t, next, id))
  {
    AfterDeltaAt(t, next, id);
    if id in t.peers && id in next {
      DiffConverges(t.peers[id], next[id].0, PrevExpiry(t, id), next[id].1);
    }
  }

  /** After a delta each current peer is what its own diff makes of the tracked one. */
  lemma AfterDeltaAt(t: Tracking, next: Current, id: int)
    ensures id in AfterDelta(t, next) <==> id in next
    ensures id in next ==>
              AfterDelta(t, next)[id] == Reconcile(if id in t.peers then t.peers[id] else next[id].0, next[id].0, DiffOf(t, next, id))
  {
    var k := Classify(t, next);
    var kept := t.peers - (t.peers.Keys - next.Keys);
    var put := kept + FullMap(k);
    assert id in kept <==> id in t.peers && id in next;
    assert id in put <==> id in kept || id in FullMap(k);
  }

  lemma AfterDeltaIsCurrent(t: Tracking, next: Current)
    requires Keyed(next) && KeyedPeers(t.peers)
    ensures AfterDelta(t, next) == Nodes(next) <==> NothingCleared(t, next)
  {
    forall id
      ensures id in AfterDelta(t, next) <==> id in Nodes(next)
      ensures id in next ==> (AfterDelta(t, next)[id] == Nodes(next)[id] <==> !PatchClears(t, next, id))
    {
      DeltaPointwise(t, next, id);
    }
    if NothingCleared(t, next) {
      SameMap(AfterDelta(t, next), Nodes(next));
    }
  }

  lemma ClassifyKeyed(t: Tracking, next: Current)
    requires Keyed(next)
    ensures WellKeyed(Classify(t, next))
  {
  }

  /**
   * Applying a delta to the peers last sent yields exactly the current peers, whatever was added,
   * removed, replaced or patched, if and only if no patched peer has an optional field go back to absent.
   */
  lemma DeltaConverges(t: Tracking, next: Current)
    requires Keyed(next) && KeyedPeers(t.peers)
    ensures ApplyDeltas(t.peers, DeltasOf(t, next)) == Nodes(next) <==> NothingCleared(t, next)
  {
    var k := Classify(t, next);
    var kept := t.peers - (t.peers.Keys - next.Keys);
    ClassifyKeyed(t, next);
    DropAscend(t.peers, t.peers.Keys - next.Keys);
    PutChanged(kept, k);
    PatchPatches(kept + FullMap(k), k);
    AfterDeltaIsCurrent(t, next);
  }

  // ---------------------------------------------------------------------
  // Responses.

  /** The parts of a map response a delta can carry; the policy-dependent self parts are one payload. */
  datatype Response = Response(
    dns: Option<string>,
    derpMap: Option<string>,
    peers: Option<seq<WireNode>>,
    selfUpdate: Option<string>,
    removed: Option<seq<int>>,
    changed: Option<seq<WireNode>>,
    patches: Option<seq<PeerChange>>,
    onlineChange: Option<map<int, bool>>,
    seenChange: Option<set<int>>)

  const DEFAULT := Response(None, None, None, None, None, None, None, None, None)

  function NonEmpty<T(==)>(s: seq<T>): Option<seq<T>> { if s == [] then None else Some(s) }

  function OrEmpty<T>(s: Option<seq<T>>): seq<T> { if s.Some? then s.value else [] }

  /** A client applies a full replacement first, then removals, full peers and patches. */
  function ApplyResponse(c: map<int, WireNode>, r: Response): map<int, WireNode> {
    var base := if r.peers.Some? then PutAll(map[], r.peers.value) else c;
    PatchAll(PutAll(DropAll(base, OrEmpty(r.removed)), OrEmpty(r.changed)), OrEmpty(r.patches))
  }

  /** Online changes of a batch that the session may see. */
  function OnlineIn(batch: Batch, visible: set<int>): map<int, bool> {
    if batch == [] then
      map[]
    else
      var rest, e := OnlineIn(batch[..|batch| - 1], visible), batch[|batch| - 1];
      if e.OnlineChanged? && e.id in visible then rest[e.id := e.online] else rest
  }

  function SeenIn(batch: Batch, visible: set<int>): set<int> {
    set e | e in batch && e.PeerSeen? && e.id in visible :: e.id
  }

  /** What the rest of the control plane supplies to a delta for one session. */
  datatype Inputs = Inputs(
    selfFound: bool,
    next: Current,
    visible: set<int>,
    dns: Option<string>,
    derpMap: string,
    selfUpdate: string)

  datatype Built = NotFound | Nothing | Frame(response: Response)

  function Wrap(r: Response): Built {
    if r == DEFAULT then Nothing else Frame(r)
  }

  function HeadOf(batch: Batch, i: Inputs): Response {
    DEFAULT.(dns := if HasDns(batch) then i.dns else None,
             derpMap := if HasDerp(batch) then Some(i.derpMap) else None)
  }

  function PolicyResponse(batch: Batch, i: Inputs, d: PeerDeltas): Response {
    HeadOf(batch, i).(peers := Some(d.current), selfUpdate := Some(i.selfUpdate))
  }

  function DeltaResponse(batch: Batch, i: Inputs, d: PeerDeltas): Response {
    var online, seen := OnlineIn(batch, i.visible), SeenIn(batch, i.visible);
    HeadOf(batch, i).(
      removed := NonEmpty(d.removed), changed := NonEmpty(d.changed), patches := NonEmpty(d.patches),
      onlineChange := if online == map[] then None else Some(online),
      seenChange := if seen == {} then None else Some(seen))
  }

  /** The response for one batch and the tracking it leaves behind. */
  ghost function Build(batch: Batch, i: Inputs, t: Tracking): (Built, Tracking) {
    if !NeedsPeerRescan(batch) then
      (Wrap(HeadOf(batch, i)), t)
    else if !i.selfFound then
      (NotFound, t)
    else
      var d := DeltasOf(t, i.next);
      (if HasPolicy(batch) then Frame(PolicyResponse(batch, i, d)) else Wrap(DeltaResponse(batch, i, d)),
       Tracking(Nodes(i.next), Expiries(i.next)))
  }

  function Received(c: map<int, WireNode>, b: Built): map<int, WireNode> {
    if b.Frame? then ApplyResponse(c, b.response) else c
  }

  lemma PutNodes(next: Current)
    requires Keyed(next)
    ensures PutAll(map[], InIdOrder(next)) == Nodes(next)
  {
    PutInIdOrder(map[], next);
    assert map[] + Nodes(next) == Nodes(next);
  }

  /**
   * One batch keeps the client equal to the tracking; after a rescan both are the current peers; and
   * a rescan that sends nothing means the client was current already.
   */
  lemma BuildCoherent(batch: Batch, i: Inputs, t: Tracking)
    requires Keyed(i.next) && KeyedPeers(t.peers) && NothingCleared(t, i.next)
    ensures var (b, t') := Build(batch, i, t);
            && Received(t.peers, b) == t'.peers
            && (NeedsPeerRescan(batch) && i.selfFound ==> t'.peers == Nodes(i.next))
            && (NeedsPeerRescan(batch) && b.Nothing? ==> t.peers == Nodes(i.next))
  {
    if NeedsPeerRescan(batch) && i.selfFound {
      var d := DeltasOf(t, i.next);
      if HasPolicy(batch) {
        PutNodes(i.next);
        PolicyReplaces(t.peers, batch, i, d);
      } else {
        DeltaConverges(t, i.next);
        DeltaApplies(t.peers, batch, i, d);
      }
    } else {
      HeadChangesNothing(t.peers, batch, i);
    }
  }

  /** A policy response carries the whole peer list. */
  lemma PolicyReplaces(c: map<int, WireNode>, batch: Batch, i: Inputs, d: PeerDeltas)
    ensures ApplyResponse(c, PolicyResponse(batch, i, d)) == PutAll(map[], d.current)
  {
  }

  /** A delta response carries the delta, and one that carries nothing stands for an empty delta. */
  lemma DeltaApplies(c: map<int, WireNode>, batch: Batch, i: Inputs, d: PeerDeltas)
    ensures Received(c, Wrap(DeltaResponse(batch, i, d))) == ApplyDeltas(c, d)
  {
  }

  lemma HeadChangesNothing(c: map<int, WireNode>, batch: Batch, i: Inputs)
    ensures Received(c, Wrap(HeadOf(batch, i))) == c
  {
  }

  // ---------------------------------------------------------------------
  // The object that tracks what a session has sent.

  /** The lists grow by at most one entry as the pass reaches the next id. */
  lemma Reach(k: Classified, rest: set<int>, id: int)
    requires PassAt(k.Keys, rest) && IsSmallest(rest, id)
    ensures ChangedOf(k - (rest - {id})) == ChangedOf(k - rest) + (if k[id].1.Full? then [k[id].0] else [])
    ensures PatchesOf(k - (rest - {id})) == PatchesOf(k - rest) + (if k[id].1.Patch? then [k[id].1.change] else [])
  {
    var low' := k - (rest - {id});
    assert low' - {id} == k - rest;
    assert id in low'.Keys && forall j :: j in low'.Keys ==> j <= id;
    assert Largest(low'.Keys) == id;
  }

  lemma ReachInOrder(next: Current, rest: set<int>, id: int)
    requires PassAt(next.Keys, rest) && IsSmallest(rest, id)
    ensures InIdOrder(next - (rest - {id})) == InIdOrder(next - rest) + [next[id].0]
  {
    var low' := next - (rest - {id});
    assert low' - {id} == next - rest;
    assert id in low'.Keys && forall j :: j in low'.Keys ==> j <= id;
    assert Largest(low'.Keys) == id;
  }

  lemma AscendSnoc(ids: set<int>, m: int)
    requires forall k :: k in ids ==> k < m
    ensures Ascend(ids + {m}) == Ascend(ids) + [m]
  {
    assert Largest(ids + {m}) == m;
    assert ids + {m} - {m} == ids;
  }

  class SessionPeers {
    var peers: map<int, WireNode>
    var keyExpiry: map<int, Option<Timestamp>>

    ghost function State(): Tracking
      reads this
    {
      Tracking(peers, keyExpiry)
    }

    ghost predicate Valid()
      reads this
    {
      KeyedPeers(peers) && keyExpiry.Keys <= peers.Keys
    }

    constructor FromPeers(nodes: seq<WireNode>)
      ensures State() == Tracking(PutAll(map[], nodes), map[]) && Valid()
    {
      var table: map<int, WireNode> := map[];
      for i := 0 to |nodes|
        invariant table == PutAll(map[], nodes[..i]) && KeyedPeers(table)
      {
        assert nodes[..i + 1][..i] == nodes[..i];
        table := table[nodes[i].id := nodes[i]];
      }
      assert nodes[..|nodes|] == nodes;
      peers, keyExpiry := table, map[];
    }

    /** Forgets the peers that left the visible set. */
    method RemoveGone(next: Current) returns (removed: seq<int>)
      requires Valid()
      modifies this
      ensures removed == Ascend(old(peers).Keys - next.Keys)
      ensures peers == old(peers) - (old(peers).Keys - next.Keys)
      ensures keyExpiry == old(keyExpiry) - (old(peers).Keys - next.Keys) && Valid()
    {
      removed := [];
      var rest := peers.Keys - next.Keys;
      ghost var gone := {};
      while rest != {}
        invariant rest !! gone && rest + gone == old(peers).Keys - next.Keys
        invariant forall k, r :: k in gone && r in rest ==> k < r
        invariant removed == Ascend(gone)
        invariant peers == old(peers) - gone && keyExpiry == old(keyExpiry) - gone
        decreases rest
      {
        var id := TakeSmallest(rest);
        AscendSnoc(gone, id);
        removed := removed + [id];
        peers := peers - {id};
        keyExpiry := keyExpiry - {id};
        gone := gone + {id};
        rest := rest - {id};
      }
      assert gone == old(peers).Keys - next.Keys;
    }

    /** Compares one current peer with what was sent and records it as sent. */
    method Track(id: int, node: WireNode, expiry: Option<Timestamp>) returns (diff: PeerDiff)
      modifies this
      ensures diff == if id in old(peers) then Diff(old(peers)[id], node, PrevExpiry(old(State()), id), expiry) else Full
      ensures peers == old(peers)[id := node] && keyExpiry == old(keyExpiry)[id := expiry]
    {
      if id in peers {
        var prevExpiry := if id in keyExpiry then keyExpiry[id] else None;
        diff := DiffPeers(peers[id], node, prevExpiry, expiry);
      } else {
        diff := Full;
      }
      peers := peers[id := node];
      keyExpiry := keyExpiry[id := expiry];
    }

    /** Diffs the current peers against what was sent, updating the tracking in place. */
    method ComputePeerDelta(next: Current) returns (d: PeerDeltas)
      requires Valid() && Keyed(next)
      modifies this
      ensures d == DeltasOf(old(State()), next)
      ensures State() == Tracking(Nodes(next), Expiries(next)) && Valid()
    {
      ghost var t := State();
      ghost var k := Classify(t, next);
      var removed := RemoveGone(next);
      ghost var kept := State();
      var changed: seq<WireNode>, patches: seq<PeerChange>, current: seq<WireNode> := [], [], [];
      var rest := next.Keys;
      Untouched(kept, k, next);
      while rest != {}
        invariant PassAt(next.Keys, rest)
        invariant changed == ChangedOf(k - rest) && patches == PatchesOf(k - rest)
        invariant current == InIdOrder(next - rest)
        invariant State() == Overlaid(kept, next, rest)
        decreases rest
      {
        var id := TakeSmallest(rest);
        PassStep(next.Keys, rest, id);
        Reach(k, rest, id);
        ReachInOrder(next, rest, id);
        Grow(kept, next, rest, id);
        StillTracked(t, kept, next, rest, id);
        var diff := Track(id, next[id].0, next[id].1);
        match diff {
          case Unchanged =>
          case Patch(p) => patches := patches + [p];
          case Full => changed := changed + [next[id].0];
        }
        current := current + [next[id].0];
        rest := rest - {id};
      }
      d := PeerDeltas(removed, changed, patches, current);
      Settled(t, kept, next);
    }
  }

  /** The delta response for one session after a change batch, updating its tracking in place. */
  method BuildDelta(batch: Batch, i: Inputs, last: SessionPeers) returns (b: Built)
    requires last.Valid() && Keyed(i.next)
    modifies last
    ensures last.Valid()
    ensures (b, last.State()) == Build(batch, i, old(last.State()))
  {
    var response := DEFAULT;
    if HasDns(batch) {
      response := response.(dns := i.dns);
    }
    if HasDerp(batch) {
      response := response.(derpMap := Some(i.derpMap));
    }
    assert response == HeadOf(batch, i);
    if !NeedsPeerRescan(batch) {
      return Wrap(response);
    }
    if !i.selfFound {
      return NotFound;
    }
    var deltas := last.ComputePeerDelta(i.next);
    if HasPolicy(batch) {
      return Frame(response.(peers := Some(deltas.current), selfUpdate := Some(i.selfUpdate)));
    }
    if deltas.removed != [] {
      response := response.(removed := Some(deltas.removed));
    }
    if deltas.changed != [] {
      response := response.(changed := Some(deltas.changed));
    }
    if deltas.patches != [] {
      response := response.(patches := Some(deltas.patches));
    }
    var online := OnlineIn(batch, i.visible);
    if online != map[] {
      response := response.(onlineChange := Some(online));
    }
    var seen := SeenIn(batch, i.visible);
    if seen != {} {
      response := response.(seenChange := Some(seen));
    }
    assert response == DeltaResponse(batch, i, deltas);
    b := Wrap(response);
  }

  /** The tracking once every peer outside `rest` has been recorded. */
  ghost function Overlaid(kept: Tracking, next: Current, rest: set<int>): Tracking {
    Tracking(kept.peers + Nodes(next - rest), kept.expiry + Expiries(next - rest))
  }

  lemma Untouched(kept: Tracking, k: Classified, next: Current)
    ensures Overlaid(kept, next, next.Keys) == kept
    ensures k.Keys == next.Keys ==> ChangedOf(k - next.Keys) == [] && PatchesOf(k - next.Keys) == []
    ensures InIdOrder(next - next.Keys) == []
  {
    assert next - next.Keys == map[];
    assert kept.peers + Nodes(map[]) == kept.peers && kept.expiry + Expiries(map[]) == kept.expiry;
    if k.Keys == next.Keys {
      assert k - next.Keys == map[];
    }
  }

  lemma GrowPeers(peers: map<int, WireNode>, next: Current, rest: set<int>, id: int)
    requires id in rest && rest <= next.Keys
    ensures (peers + Nodes(next - rest))[id := next[id].0] == peers + Nodes(next - (rest - {id}))
  {
    assert Nodes(next - (rest - {id})) == Nodes(next - rest)[id := next[id].0];
  }

  lemma GrowExpiry(expiry: map<int, Option<Timestamp>>, next: Current, rest: set<int>, id: int)
    requires id in rest && rest <= next.Keys
    ensures (expiry + Expiries(next - rest))[id := next[id].1] == expiry + Expiries(next - (rest - {id}))
  {
    assert Expiries(next - (rest - {id})) == Expiries(next - rest)[id := next[id].1];
  }

  lemma Grow(kept: Tracking, next: Current, rest: set<int>, id: int)
    requires id in rest && rest <= next.Keys
    ensures var now, then_ := Overlaid(kept, next, rest), Overlaid(kept, next, rest - {id});
            then_ == Tracking(now.peers[id := next[id].0], now.expiry[id := next[id].1])
  {
    GrowPeers(kept.peers, next, rest, id);
    GrowExpiry(kept.expiry, next, rest, id);
  }

  /** A peer not reached yet is still tracked as it was before the pass. */
  lemma StillTracked(t: Tracking, kept: Tracking, next: Current, rest: set<int>, id: int)
    requires kept.peers == t.peers - (t.peers.Keys - next.Keys)
    requires kept.expiry == t.expiry - (t.peers.Keys - next.Keys)
    requires rest <= next.Keys && id in rest
    ensures var now := Overlaid(kept, next, rest);
            Classify(t, next)[id].1 == if id in now.peers then Diff(now.peers[id], next[id].0, PrevExpiry(now, id), next[id].1) else Full
  {
  }

  lemma Settled(t: Tracking, kept: Tracking, next: Current)
    requires kept.peers == t.peers - (t.peers.Keys - next.Keys)
    requires kept.expiry == t.expiry - (t.peers.Keys - next.Keys) && t.expiry.Keys <= t.peers.Keys
    ensures Overlaid(kept, next, {}) == Tracking(Nodes(next), Expiries(next))
    ensures Classify(t, next) - {} == Classify(t, next) && next - {} == next
  {
    assert next - {} == next;
  }
}
