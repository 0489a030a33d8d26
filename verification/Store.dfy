/** Durable entities and the node table (crabscale-control/src/model.rs; the store keeps nodes ordered by id). */
module Store {
  import opened Ordered
  import opened Net
  import opened Delta

  datatype DomainNode = DomainNode(
    id: int,
    stableId: int,
    name: string,
    userId: Option<int>,
    nodeKey: Key,
    machineKey: Key,
    discoKey: Key,
    addresses: seq<Cidr>,
    allowedIps: Option<seq<Cidr>>,
    endpoints: seq<string>,
    endpointTypes: seq<nat>,
    homeDerp: nat,
    hostinfo: Option<Hostinfo>,
    created: Timestamp,
    cap: nat,
    tags: Option<seq<string>>,
    advertisedRoutes: seq<Cidr>,
    approvedRoutes: seq<Cidr>,
    machineAuthorized: bool,
    ephemeral: bool,
    lastSeen: Option<Timestamp>,
    keyExpiry: Option<Timestamp>)

  datatype PreAuthKey = PreAuthKey(
    secret: string,
    reusable: bool,
    ephemeral: bool,
    expiration: Option<Timestamp>,
    revoked: bool,
    used: bool,
    tags: Option<seq<string>>,
    userId: int)

  datatype Verdict = Undecided | Approved(userId: int, tags: Option<seq<string>>) | Rejected

  datatype Pending = Pending(
    machineKey: Key,
    nodeKey: Key,
    hostinfo: Option<Hostinfo>,
    expiry: Option<Timestamp>,
    version: nat,
    ephemeral: bool,
    expiresAt: Timestamp,
    verdict: Verdict)

  /** The node table in id order, one row per node key. */
  type Table = seq<DomainNode>

  ghost predicate TableValid(t: Table) {
    && (forall i, j :: 0 <= i < j < |t| ==> t[i].id < t[j].id)
    && (forall i, j :: 0 <= i < j < |t| ==> t[i].nodeKey != t[j].nodeKey)
  }

  function IndexOfKey(t: Table, key: Key): (r: Option<nat>)
    ensures r.Some? ==> r.value < |t| && t[r.value].nodeKey == key
    ensures r.None? ==> forall i :: 0 <= i < |t| ==> t[i].nodeKey != key
  {
    if t == [] then None
    else if t[|t| - 1].nodeKey == key then Some(|t| - 1)
    else IndexOfKey(t[..|t| - 1], key)
  }

  function IndexOfId(t: Table, id: int): (r: Option<nat>)
    ensures r.Some? ==> r.value < |t| && t[r.value].id == id
    ensures r.None? ==> forall i :: 0 <= i < |t| ==> t[i].id != id
  {
    if t == [] then None
    else if t[|t| - 1].id == id then Some(|t| - 1)
    else IndexOfId(t[..|t| - 1], id)
  }

  /** The id of a new row: one above the largest, so the id of a deleted last row comes back. */
  function NextId(t: Table): int {
    if t == [] then 1 else t[|t| - 1].id + 1
  }

  function Row(n: DomainNode, id: int): DomainNode {
    n.(id := id, stableId := if n.stableId == 0 then id else n.stableId)
  }

  /** Inserts a node, or rewrites the row with its key, whose id stays. */
  function Upsert(t: Table, n: DomainNode): Table {
    var i := IndexOfKey(t, n.nodeKey);
    if i.Some? then t[i.value := Row(n, t[i.value].id)] else t + [Row(n, NextId(t))]
  }

  function UpsertId(t: Table, n: DomainNode): int {
    var i := IndexOfKey(t, n.nodeKey);
    if i.Some? then t[i.value].id else NextId(t)
  }

  function Delete(t: Table, key: Key): Table {
    var i := IndexOfKey(t, key);
    if i.Some? then t[..i.value] + t[i.value + 1..] else t
  }

  lemma UpsertKeepsValid(t: Table, n: DomainNode)
    requires TableValid(t)
    ensures TableValid(Upsert(t, n))
  {
  }

  lemma DeleteKeepsValid(t: Table, key: Key)
    requires TableValid(t)
    ensures TableValid(Delete(t, key))
  {
    var i := IndexOfKey(t, key);
    if i.Some? {
      var d := Delete(t, key);
      forall j, k | 0 <= j < k < |d|
        ensures d[j].id < d[k].id && d[j].nodeKey != d[k].nodeKey
      {
        var j', k' := if j < i.value then j else j + 1, if k < i.value then k else k + 1;
        assert d[j] == t[j'] && d[k] == t[k'];
      }
    }
  }

  /** Where the rows of an updated table come from. */
  lemma UpsertRows(t: Table, n: DomainNode, x: DomainNode)
    requires x in Upsert(t, n)
    ensures x in t || x == Row(n, UpsertId(t, n))
  {
    var i :| 0 <= i < |Upsert(t, n)| && Upsert(t, n)[i] == x;
    if i < |t| && Upsert(t, n)[i] == t[i] {
      assert t[i] in t;
    }
  }

  lemma DeleteRows(t: Table, key: Key, x: DomainNode)
    requires x in Delete(t, key)
    ensures x in t
  {
  }
}
