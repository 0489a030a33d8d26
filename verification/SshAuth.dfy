/** SSH check-mode approvals (crabscale-control/src/ssh.rs). */
module SshAuth {
  import opened Ordered
  import opened Groups
  import opened Compile
  import opened SshPolicy

  const AUTH_TTL: int := 15 * 60
  const AUTH_LIMIT: nat := 1024

  datatype SshVerdict = Pending | Accepted(lastAuth: int) | Rejected

  datatype Request = Request(src: int, dst: int, sshUser: string, localUser: string, machineKey: string)

  datatype Auth = Auth(id: string, req: Request, created: int, expires: int, verdict: SshVerdict)

  datatype Answer =
    | AcceptConn
    | RejectConn
    | Hold(id: string)
    | Waiting
    | NotFound
    | Unauthorized
    | BadBinding

  /** The stored records, oldest first. */
  type Table = seq<Auth>

  ghost predicate TableValid(t: Table) {
    && (forall i, j :: 0 <= i < j < |t| ==> t[i].id != t[j].id)
    && (forall i, j :: 0 <= i < j < |t| ==> t[i].created <= t[j].created)
  }

  function IndexOf(t: Table, id: string): (r: Option<nat>)
    ensures r.Some? ==> r.value < |t| && t[r.value].id == id
    ensures r.None? ==> forall i :: 0 <= i < |t| ==> t[i].id != id
  {
    if t == [] then None
    else if t[|t| - 1].id == id then Some(|t| - 1)
    else IndexOf(t[..|t| - 1], id)
  }

  function Remove(t: Table, id: string): Table {
    var i := IndexOf(t, id);
    if i.None? then t else t[..i.value] + t[i.value + 1..]
  }

  /** A new record goes behind every record that is not younger. */
  function Insert(t: Table, a: Auth): (r: Table)
    ensures |r| == |t| + 1
    ensures forall x :: x in r <==> x in t || x == a
  {
    if t == [] || t[|t| - 1].created <= a.created then t + [a]
    else
      assert t == t[..|t| - 1] + [t[|t| - 1]];
      Insert(t[..|t| - 1], a) + [t[|t| - 1]]
  }

  function SetVerdict(t: Table, i: nat, v: SshVerdict): Table
    requires i < |t|
  {
    t[i := t[i].(verdict := v)]
  }

  predicate SameBinding(a: Request, b: Request) {
    a.src == b.src && a.dst == b.dst && a.sshUser == b.sshUser && a.localUser == b.localUser
  }

  // ---------------------------------------------------------------------
  // The operations on the store.

  /** An administrator's decision; an expired record is dropped instead. */
  function Decide(t: Table, id: string, now: int, approve: bool): (Table, bool) {
    var i := IndexOf(t, id);
    if i.None? then (t, false)
    else if t[i.value].expires < now then (Remove(t, id), false)
    else (SetVerdict(t, i.value, if approve then Accepted(now) else Rejected), true)
  }

  const TWO63: int := 0x8000_0000_0000_0000

  /** Conversion to a signed 64-bit number. */
  function WrapI64(x: int): int {
    (x + TWO63) % (2 * TWO63) - TWO63
  }

  /** The oldest approval time a check period still covers, in 64-bit arithmetic. */
  function Threshold(now: int, period: nat): int {
    WrapI64(now - WrapI64(period))
  }

  predicate IsTime(t: int) {
    0 <= t < TWO63
  }

  /** The 64-bit comparison never lets an approval through that is older than the period, and is exact while the period fits. */
  lemma ThresholdSound(now: int, last: int, period: nat)
    requires IsTime(now) && IsTime(last) && period < U64
    ensures last >= Threshold(now, period) ==> now - last <= period
    ensures period < TWO63 ==> (last >= Threshold(now, period) <==> now - last <= period)
  {
    if period < TWO63 {
      assert WrapI64(period) == period;
      assert WrapI64(now - period) == now - period;
    }
  }

  predicate Candidate(a: Auth, req: Request) {
    SameBinding(a.req, req) && a.verdict.Accepted?
  }

  /** The accepted record of the binding with the latest approval, the oldest of them on a tie. */
  function Best(t: Table, req: Request): (r: Option<nat>)
    ensures r.Some? ==> r.value < |t| && Candidate(t[r.value], req)
    ensures r.Some? ==> forall i :: 0 <= i < |t| && Candidate(t[i], req) ==> t[i].verdict.lastAuth <= t[r.value].verdict.lastAuth
    ensures r.None? ==> forall i :: 0 <= i < |t| ==> !Candidate(t[i], req)
  {
    if t == [] then
      None
    else
      var n := |t| - 1;
      var r := Best(t[..n], req);
      assert forall i :: 0 <= i < n ==> t[..n][i] == t[i];
      if Candidate(t[n], req) && (r.None? || t[n].verdict.lastAuth > t[r.value].verdict.lastAuth) then Some(n) else r
  }

  /** A recent approval of the binding admits the connection and starts its window again. */
  function Recent(t: Table, req: Request, now: int, period: nat): (Table, bool) {
    var i := Best(t, req);
    if i.None? || t[i.value].verdict.lastAuth < Threshold(now, period) then (t, false)
    else (SetVerdict(t, i.value, Accepted(now)), true)
  }

  function Unexpired(t: Table, now: int): (r: Table)
    ensures forall a :: a in r <==> a in t && a.expires >= now
    ensures |r| <= |t|
  {
    if t == [] then []
    else
      assert t == t[..|t| - 1] + [t[|t| - 1]];
      var before := Unexpired(t[..|t| - 1], now);
      if t[|t| - 1].expires < now then before else before + [t[|t| - 1]]
  }

  function Prune(t: Table, now: int, limit: nat): Table {
    var r := Unexpired(t, now);
    if |r| > limit then r[|r| - limit..] else r
  }

  /** Only the destination's own machine may ask, and both nodes must exist; `machines` holds each stored node's machine key. */
  function Refusal(machines: map<int, string>, req: Request): Option<Answer> {
    if req.dst !in machines then Some(NotFound)
    else if machines[req.dst] != req.machineKey then Some(Unauthorized)
    else if req.src !in machines then Some(NotFound)
    else None
  }

  /** A request without an auth id, given what the policy says about it. */
  function Initial(t: Table, action: Option<Action>, req: Request, now: int, authId: string): (Table, Answer) {
    match action
    case None => (t, RejectConn)
    case Some(Accept) => (t, AcceptConn)
    case Some(Check(period)) =>
      var (t', recent) := Recent(t, req, now, period);
      if recent then (t', AcceptConn)
      else (Insert(Prune(t', now, AUTH_LIMIT), Auth(authId, req, now, now + AUTH_TTL, Pending)), Hold(authId))
  }

  function VerdictAnswer(v: SshVerdict): Answer {
    match v
    case Pending => Waiting
    case Accepted(_) => AcceptConn
    case Rejected => RejectConn
  }

  /** A waiting request looks at its record again. */
  function Resume(t: Table, id: string, now: int): (Table, Answer) {
    var i := IndexOf(t, id);
    if i.None? then (t, NotFound)
    else if t[i.value].expires < now then (Remove(t, id), NotFound)
    else (t, VerdictAnswer(t[i.value].verdict))
  }

  /** A request with an auth id must repeat the binding of its record exactly. */
  function Followup(t: Table, req: Request, id: string, now: int): (Table, Answer) {
    var i := IndexOf(t, id);
    if i.Some? && t[i.value].expires >= now && t[i.value].req != req then (t, BadBinding) else Resume(t, id, now)
  }

  // ---------------------------------------------------------------------
  // What the store keeps.

  lemma {:induction false} InsertKeeps(t: Table, a: Auth)
    requires TableValid(t) && forall i :: 0 <= i < |t| ==> t[i].id != a.id
    ensures TableValid(Insert(t, a))
  {
    if t != [] && t[|t| - 1].created > a.created {
      var n := |t| - 1;
      FrontValid(t);
      InsertKeeps(t[..n], a);
      SnocValid(Insert(t[..n], a), t[n]);
    } else {
      if t != [] {
        FrontValid(t);
      }
      SnocValid(t, a);
    }
  }

  /** The last row may go behind rows of other ids that are not younger. */
  lemma SnocValid(r: Table, a: Auth)
    requires TableValid(r) && forall x :: x in r ==> x.id != a.id && x.created <= a.created
    ensures TableValid(r + [a])
  {
    assert forall i :: 0 <= i < |r| ==> r[i] in r;
  }

  lemma FrontValid(t: Table)
    requires TableValid(t) && t != []
    ensures TableValid(t[..|t| - 1]) && forall x :: x in t[..|t| - 1] ==> x.id != t[|t| - 1].id && x.created <= t[|t| - 1].created
  {
  }

  lemma {:induction false} UnexpiredKeeps(t: Table, now: int)
    requires TableValid(t)
    ensures TableValid(Unexpired(t, now))
  {
    if t != [] {
      var n := |t| - 1;
      FrontValid(t);
      UnexpiredKeeps(t[..n], now);
      SnocValid(Unexpired(t[..n], now), t[n]);
    }
  }

  lemma SuffixValid(r: Table, cut: nat)
    requires TableValid(r) && cut <= |r|
    ensures TableValid(r[cut..])
  {
    var p := r[cut..];
    assert forall i :: 0 <= i < |p| ==> p[i] == r[cut + i];
  }

  lemma PruneKeeps(t: Table, now: int, limit: nat)
    requires TableValid(t)
    ensures TableValid(Prune(t, now, limit)) && |Prune(t, now, limit)| <= limit
    ensures forall a :: a in Prune(t, now, limit) ==> a in t && a.expires >= now
  {
    UnexpiredKeeps(t, now);
    var r := Unexpired(t, now);
    if |r| > limit {
      SuffixValid(r, |r| - limit);
    }
    PruneWithin(t, now, limit);
  }

  lemma PruneWithin(t: Table, now: int, limit: nat)
    ensures forall a :: a in Prune(t, now, limit) ==> a in t && a.expires >= now
  {
    var r := Unexpired(t, now);
    assert forall a :: a in Prune(t, now, limit) ==> a in r;
  }

  /** In an ordered table, what a suffix leaves out is not younger than what it holds. */
  lemma SuffixYounger(r: Table, cut: nat, a: Auth, b: Auth)
    requires TableValid(r) && cut <= |r| && a in r && a !in r[cut..] && b in r[cut..]
    ensures a.created <= b.created
  {
    var i :| 0 <= i < |r| && r[i] == a;
    var j :| 0 <= j < |r[cut..]| && r[cut..][j] == b;
    assert forall k :: cut <= k < |r| ==> r[k] == r[cut..][k - cut];
    assert b == r[cut + j];
  }

  /** Pruning keeps at most the limit, only unexpired records, all of them when they are few enough and else the youngest. */
  lemma PruneBounds(t: Table, now: int, limit: nat)
    requires TableValid(t)
    ensures var p := Prune(t, now, limit);
            && TableValid(p) && |p| <= limit
            && (forall a :: a in p ==> a in t && a.expires >= now)
            && (|Unexpired(t, now)| <= limit ==> forall a :: a in t && a.expires >= now ==> a in p)
            && (forall a, b :: a in t && a.expires >= now && a !in p && b in p ==> a.created <= b.created)
  {
    PruneKeeps(t, now, limit);
    UnexpiredKeeps(t, now);
    var r, p := Unexpired(t, now), Prune(t, now, limit);
    forall a, b | a in t && a.expires >= now && a !in p && b in p
      ensures a.created <= b.created
    {
      SuffixYounger(r, if |r| > limit then |r| - limit else 0, a, b);
    }
  }

  lemma RemoveAt(t: Table, k: nat)
    requires TableValid(t) && k < |t|
    ensures TableValid(t[..k] + t[k + 1..])
  {
    var r := t[..k] + t[k + 1..];
    assert forall j :: 0 <= j < |r| ==> r[j] == t[if j < k then j else j + 1];
  }

  lemma RemovedRows(t: Table, k: nat, a: Auth)
    requires TableValid(t) && k < |t|
    ensures a in t[..k] + t[k + 1..] <==> a in t && a.id != t[k].id
  {
    var r := t[..k] + t[k + 1..];
    if a in t && a.id != t[k].id {
      var j :| 0 <= j < |t| && t[j] == a;
      assert a == r[if j < k then j else j - 1];
    }
  }

  lemma RemoveKeeps(t: Table, id: string)
    requires TableValid(t)
    ensures TableValid(Remove(t, id)) && forall a :: a in Remove(t, id) <==> a in t && a.id != id
  {
    var i := IndexOf(t, id);
    if i.Some? {
      RemoveAt(t, i.value);
      forall a
        ensures a in Remove(t, id) <==> a in t && a.id != id
      {
        RemovedRows(t, i.value, a);
      }
    }
  }

  /** A connection is admitted without a new decision exactly when the store holds an approval of its binding within the period. */
  lemma RecentIff(t: Table, req: Request, now: int, period: nat)
    requires IsTime(now) && period < TWO63
    requires forall a :: a in t && a.verdict.Accepted? ==> IsTime(a.verdict.lastAuth)
    ensures Recent(t, req, now, period).1 <==>
            exists a :: a in t && Candidate(a, req) && now - a.verdict.lastAuth <= period
  {
    var best := Best(t, req);
    if best.Some? {
      ThresholdSound(now, t[best.value].verdict.lastAuth, period);
      forall a | a in t && Candidate(a, req) && now - a.verdict.lastAuth <= period
        ensures Recent(t, req, now, period).1
      {
        var i :| 0 <= i < |t| && t[i] == a;
      }
    } else {
      forall a | a in t
        ensures !Candidate(a, req)
      {
        var i :| 0 <= i < |t| && t[i] == a;
      }
    }
  }

  lemma {:induction false} UnexpiredJoin(a: Table, b: Table, now: int)
    ensures Unexpired(a + b, now) == Unexpired(a, now) + Unexpired(b, now)
    decreases |b|
  {
    if b == [] {
      assert a + b == a;
    } else {
      var n := |b| - 1;
      assert (a + b)[..|a + b| - 1] == a + b[..n];
      UnexpiredJoin(a, b[..n], now);
    }
  }

  /** The unexpired records behind a record in age order. */
  function Behind(t: Table, i: nat, now: int): nat
    requires i < |t|
  {
    |Unexpired(t[i + 1..], now)|
  }

  /** The unexpired records of a table around one of them. */
  lemma UnexpiredAround(t: Table, i: nat, now: int)
    requires i < |t| && t[i].expires >= now
    ensures Unexpired(t, now) == Unexpired(t[..i], now) + [t[i]] + Unexpired(t[i + 1..], now)
  {
    assert t == t[..i] + [t[i]] + t[i + 1..];
    UnexpiredJoin(t[..i] + [t[i]], t[i + 1..], now);
    UnexpiredJoin(t[..i], [t[i]], now);
    assert Unexpired([t[i]], now) == [t[i]];
  }

  /** Pruning keeps a record exactly when it is unexpired and fewer unexpired records than the limit stand behind it. */
  lemma PruneKeepsIff(t: Table, now: int, limit: nat, i: nat)
    requires TableValid(t) && i < |t|
    ensures t[i] in Prune(t, now, limit) <==> t[i].expires >= now && Behind(t, i, now) < limit
  {
    PruneKeeps(t, now, limit);
    if t[i].expires >= now {
      UnexpiredKeeps(t, now);
      UnexpiredAround(t, i, now);
      var r, at := Unexpired(t, now), |Unexpired(t[..i], now)|;
      assert r[at] == t[i] && |r| == at + 1 + Behind(t, i, now);
      InSuffixIff(r, if |r| > limit then |r| - limit else 0, at);
    }
  }

  lemma InSuffixIff(r: Table, cut: nat, at: nat)
    requires TableValid(r) && cut <= |r| && at < |r|
    ensures r[at] in r[cut..] <==> cut <= at
  {
    if cut <= at {
      assert r[cut..][at - cut] == r[at];
    }
    if r[at] in r[cut..] {
      var j :| 0 <= j < |r[cut..]| && r[cut..][j] == r[at];
      assert r[cut + j] == r[at];
    }
  }

  /** A held request leaves a stored record in place exactly when it is unexpired and not crowded out by younger ones. */
  lemma HoldKeepsIff(t: Table, action: Option<Action>, req: Request, now: int, authId: string, i: nat)
    requires TableValid(t) && i < |t| && Initial(t, action, req, now, authId).1.Hold? && t[i].id != authId
    ensures t[i] in Initial(t, action, req, now, authId).0 <==> t[i].expires >= now && Behind(t, i, now) < AUTH_LIMIT
  {
    PruneKeepsIff(t, now, AUTH_LIMIT, i);
  }

  /** The record approves the binding within the period and survives a request held at `now`. */
  ghost predicate Survives(t: Table, i: int, now: int, other: Request, later: int, period: nat) {
    && 0 <= i < |t| && Candidate(t[i], other) && later - t[i].verdict.lastAuth <= period
    && t[i].expires >= now && Behind(t, i, now) < AUTH_LIMIT
  }

  /**
   * After one request was held, another is admitted without a decision exactly when an approval of its binding within
   * the period was still unexpired at the hold and was not crowded out by younger records.
   */
  lemma ApprovalSurvivesIff(t: Table, action: Option<Action>, req: Request, now: int, authId: string,
                            other: Request, later: int, period: nat)
    requires TableValid(t) && Initial(t, action, req, now, authId).1.Hold? && IsTime(later) && period < TWO63
    requires forall a :: a in t ==> a.id != authId && (a.verdict.Accepted? ==> IsTime(a.verdict.lastAuth))
    ensures Recent(Initial(t, action, req, now, authId).0, other, later, period).1 <==>
            exists i :: Survives(t, i, now, other, later, period)
  {
    var t' := Initial(t, action, req, now, authId).0;
    PruneKeeps(t, now, AUTH_LIMIT);
    RecentIff(t', other, later, period);
    forall i | 0 <= i < |t|
      ensures t[i] in t' <==> t[i].expires >= now && Behind(t, i, now) < AUTH_LIMIT
    {
      assert t[i] in t;
      HoldKeepsIff(t, action, req, now, authId, i);
    }
    if Recent(t', other, later, period).1 {
      var a :| a in t' && Candidate(a, other) && later - a.verdict.lastAuth <= period;
      assert a in t;
      var i :| 0 <= i < |t| && t[i] == a;
      assert Survives(t, i, now, other, later, period);
    }
  }

  /**
   * An approval forgotten inside its period: approved at 10 for twelve hours, the binding is admitted at 1001 unless
   * another binding was held at 1000, after which it is held itself.
   */
  lemma ApprovalForgotten(a: Request, b: Request)
    requires !SameBinding(a, b)
    ensures var t := [Auth("x", a, 0, AUTH_TTL, Accepted(10))];
            var check := Some(Check(DEFAULT_CHECK_PERIOD));
            var (held, answer) := Initial(t, check, b, 1000, "y");
            && answer == Hold("y")
            && Initial(t, check, a, 1001, "z").1 == AcceptConn
            && Initial(held, check, a, 1001, "z").1 == Hold("z")
  {
    var record := Auth("x", a, 0, AUTH_TTL, Accepted(10));
    var t := [record];
    var pending := Auth("y", b, 1000, 1000 + AUTH_TTL, Pending);
    ThresholdSound(1001, 10, DEFAULT_CHECK_PERIOD);
    assert t[..0] == [];
    assert Best(t, b) == None;
    assert Unexpired(t, 1000) == [];
    assert Best(t, a) == Some(0);
    assert [pending][..0] == [];
    assert Best([pending], a) == None;
  }

  // ---------------------------------------------------------------------
  // Runs.

  /** What happened to the records, in order. */
  datatype Event =
    | Created(id: string, req: Request)
    | Approved(id: string, at: int)
    | Refused(id: string)
    | Refreshed(id: string, period: nat, at: int)

  /** The last approval of a record: an administrator's, or one chained to it by refreshes within their periods. */
  ghost function LastAuth(log: seq<Event>, id: string): Option<int> {
    if log == [] then
      None
    else
      var before, e := LastAuth(log[..|log| - 1], id), log[|log| - 1];
      if e.id != id then before
      else match e
        case Created(_, _) => None
        case Approved(_, at) => Some(at)
        case Refused(_) => None
        case Refreshed(_, period, at) => if before.Some? && at - before.value <= period then Some(at) else None
  }

  ghost predicate ChainedAt(log: seq<Event>, id: string, j: int)
    requires 0 <= j < |log|
  {
    && log[j].Refreshed?
    && LastAuth(log[..j], id).Some?
    && log[j].at - LastAuth(log[..j], id).value <= log[j].period
  }

  /** The administrator's approve at this point is the latest decision on the record, and every refresh since is within its period. */
  ghost predicate StandsOn(log: seq<Event>, id: string, k: int) {
    && 0 <= k < |log| && log[k].Approved? && log[k].id == id
    && forall j :: k < j < |log| && log[j].id == id ==> ChainedAt(log, id, j)
  }

  /** An approval stands only on an administrator's approve as the latest decision, followed by refreshes each within its period. */
  lemma {:induction false} ChainMeaning(log: seq<Event>, id: string)
    requires LastAuth(log, id).Some?
    ensures exists k :: StandsOn(log, id, k)
  {
    var n := |log| - 1;
    var before := log[..n];
    if log[n].id == id && log[n].Approved? {
      assert StandsOn(log, id, n);
    } else {
      ChainMeaning(before, id);
      var k :| StandsOn(before, id, k);
      forall j | k < j < |log| && log[j].id == id
        ensures ChainedAt(log, id, j)
      {
        if j < n {
          assert ChainedAt(before, id, j);
          assert before[..j] == log[..j];
        }
      }
      assert StandsOn(log, id, k);
    }
  }

  datatype Op =
    | OpInitial(nodes: seq<CompileNode>, machines: map<int, string>, req: Request, now: int, authId: string)
    | OpFollowup(machines: map<int, string>, req: Request, id: string, now: int)
    | OpResume(req: Request, id: string, now: int)
    | OpDecide(id: string, now: int, approve: bool)

  /** The store, the requests that wait on a record, and the history. */
  datatype World = World(auths: Table, waiters: set<(string, Request)>, log: seq<Event>)

  /** The policy's choice for a request among the nodes that exist at that moment. */
  ghost predicate Chosen(names: Names, rules: seq<SshRule>, nodes: seq<CompileNode>, req: Request, action: Option<Action>) {
    if exists dst :: dst in nodes && dst.id == req.dst then
      exists dst, r :: dst in nodes && dst.id == req.dst && IsFirst(RulesFor(names, nodes, rules, dst), req.src, req.sshUser, r) &&
                       action == (if r.None? then None else Some(r.value.action))
    else
      action == None
  }

  ghost function InitialEvents(t: Table, action: Option<Action>, req: Request, now: int, authId: string): seq<Event> {
    if action.None? || action.value.Accept? then
      []
    else if Recent(t, req, now, action.value.period).1 then
      [Refreshed(t[Best(t, req).value].id, action.value.period, now)]
    else
      [Created(authId, req)]
  }

  ghost predicate IsFresh(log: seq<Event>, id: string) {
    forall i :: 0 <= i < |log| ==> log[i].id != id
  }

  ghost predicate Step(names: Names, rules: seq<SshRule>, w: World, op: Op, answer: Answer, w': World) {
    if (op.OpInitial? || op.OpFollowup?) && Refusal(op.machines, op.req).Some? then
      w' == w && answer == Refusal(op.machines, op.req).value
    else
      Admitted(names, rules, w, op, answer, w')
  }

  ghost predicate Admitted(names: Names, rules: seq<SshRule>, w: World, op: Op, answer: Answer, w': World) {
    match op
    case OpInitial(nodes, _, req, now, authId) =>
      && IsTime(now) && IsFresh(w.log, authId)
      && exists action :: Chosen(names, rules, nodes, req, action) &&
           (w'.auths, answer) == Initial(w.auths, action, req, now, authId) && w'.waiters == w.waiters &&
           w'.log == w.log + InitialEvents(w.auths, action, req, now, authId)
    case OpFollowup(_, req, id, now) =>
      && IsTime(now) && (w'.auths, answer) == Followup(w.auths, req, id, now) && w'.log == w.log
      && w'.waiters == if answer.Waiting? then w.waiters + {(id, req)} else w.waiters
    case OpResume(req, id, now) =>
      && IsTime(now) && (id, req) in w.waiters
      && (w'.auths, answer) == Resume(w.auths, id, now) && w'.log == w.log
      && w'.waiters == if answer.Waiting? then w.waiters else w.waiters - {(id, req)}
    case OpDecide(id, now, approve) =>
      && IsTime(now) && answer == NotFound
      && w'.auths == Decide(w.auths, id, now, approve).0 && w'.waiters == w.waiters
      && w'.log == w.log + if Decide(w.auths, id, now, approve).1 then [if approve then Approved(id, now) else Refused(id)] else []
  }

  ghost predicate RecordOk(log: seq<Event>, a: Auth) {
    && Created(a.id, a.req) in log
    && (a.verdict.Accepted? ==> LastAuth(log, a.id) == Some(a.verdict.lastAuth) && IsTime(a.verdict.lastAuth))
  }

  /** Every auth id was created once. */
  ghost predicate CreatedOnce(log: seq<Event>) {
    forall e, f :: e in log && f in log && e.Created? && f.Created? && e.id == f.id ==> e == f
  }

  ghost predicate Inv(w: World) {
    && TableValid(w.auths) && CreatedOnce(w.log)
    && (forall a :: a in w.auths ==> RecordOk(w.log, a))
    && (forall x :: x in w.waiters ==> Created(x.0, x.1) in w.log)
  }

  /** The policy decides for this request, and its first applicable rule is rule `i`. */
  ghost predicate RuleIs(names: Names, rules: seq<SshRule>, nodes: seq<CompileNode>, req: Request, i: int) {
    exists dst :: dst in nodes && dst.id == req.dst && Decides(names, nodes, rules, req.src, dst, req.sshUser, i)
  }

  /** Why a request may be admitted at this moment of the history. */
  ghost predicate Justified(names: Names, rules: seq<SshRule>, w: World, op: Op) {
    match op
    case OpInitial(nodes, machines, req, now, _) =>
      && Refusal(machines, req).None?
      && exists i :: RuleIs(names, rules, nodes, req, i) &&
           (ActionOf(rules[i]).Accept? || ApprovedWithin(w.log, req, now, ActionOf(rules[i]).period))
    case OpFollowup(machines, req, id, _) =>
      Refusal(machines, req).None? && Created(id, req) in w.log && LastAuth(w.log, id).Some?
    case OpResume(req, id, _) => Created(id, req) in w.log && LastAuth(w.log, id).Some?
    case OpDecide(_, _, _) => false
  }

  /** Some record of the same binding was approved, or its approval refreshed, no longer ago than the period. */
  ghost predicate ApprovedWithin(log: seq<Event>, req: Request, now: int, period: nat) {
    exists id, made :: Created(id, made) in log && SameBinding(made, req) &&
      LastAuth(log, id).Some? && now - LastAuth(log, id).value <= period
  }

  lemma LogStep(log: seq<Event>, e: Event, id: string)
    ensures e.id != id ==> LastAuth(log + [e], id) == LastAuth(log, id)
    ensures e.id == id && e.Approved? ==> LastAuth(log + [e], id) == Some(e.at)
    ensures e.id == id && e.Refreshed? && LastAuth(log, id).Some? && e.at - LastAuth(log, id).value <= e.period ==>
              LastAuth(log + [e], id) == Some(e.at)
  {
    assert (log + [e])[..|log|] == log;
  }

  lemma OthersKept(log: seq<Event>, e: Event, a: Auth)
    requires RecordOk(log, a) && e.id != a.id
    ensures RecordOk(log + [e], a)
  {
    LogStep(log, e, a.id);
  }

  lemma DecideKeeps(w: World, id: string, now: int, approve: bool, w': World)
    requires Inv(w) && IsTime(now)
    requires w'.auths == Decide(w.auths, id, now, approve).0 && w'.waiters == w.waiters
    requires w'.log == w.log + if Decide(w.auths, id, now, approve).1 then [if approve then Approved(id, now) else Refused(id)] else []
    ensures Inv(w')
  {
    var i := IndexOf(w.auths, id);
    if i.None? || w.auths[i.value].expires < now {
      RemoveKeeps(w.auths, id);
      assert w'.log == w.log;
    } else {
      var e := if approve then Approved(id, now) else Refused(id);
      VerdictKeeps(w, i.value, e, if approve then Accepted(now) else Rejected, w');
    }
  }

  /** Rewriting one verdict together with the event that explains it. */
  lemma VerdictKeeps(w: World, i: nat, e: Event, v: SshVerdict, w': World)
    requires Inv(w) && i < |w.auths| && e.id == w.auths[i].id && !e.Created?
    requires w'.auths == SetVerdict(w.auths, i, v) && w'.waiters == w.waiters && w'.log == w.log + [e]
    requires v.Accepted? ==> IsTime(v.lastAuth) && LastAuth(w'.log, e.id) == Some(v.lastAuth)
    ensures Inv(w')
  {
    forall a | a in w'.auths
      ensures RecordOk(w'.log, a)
    {
      var j :| 0 <= j < |w'.auths| && w'.auths[j] == a;
      assert RecordOk(w.log, w.auths[j]);
      if j != i {
        OthersKept(w.log, e, a);
      }
    }
  }

  lemma RefreshKeeps(w: World, req: Request, now: int, period: nat, w': World)
    requires Inv(w) && IsTime(now) && period < U64 && Recent(w.auths, req, now, period).1
    requires w'.auths == Recent(w.auths, req, now, period).0 && w'.waiters == w.waiters
    requires w'.log == w.log + [Refreshed(w.auths[Best(w.auths, req).value].id, period, now)]
    ensures Inv(w') && ApprovedWithin(w.log, req, now, period)
  {
    var i := Best(w.auths, req).value;
    var a := w.auths[i];
    assert RecordOk(w.log, a);
    ThresholdSound(now, a.verdict.lastAuth, period);
    assert Created(a.id, a.req) in w.log && SameBinding(a.req, req);
    var e := Refreshed(a.id, period, now);
    LogStep(w.log, e, a.id);
    VerdictKeeps(w, i, e, Accepted(now), w');
  }

  lemma HoldKeeps(w: World, req: Request, now: int, authId: string, w': World)
    requires Inv(w) && IsFresh(w.log, authId)
    requires w'.auths == Insert(Prune(w.auths, now, AUTH_LIMIT), Auth(authId, req, now, now + AUTH_TTL, Pending))
    requires w'.waiters == w.waiters && w'.log == w.log + [Created(authId, req)]
    ensures Inv(w')
  {
    PruneKeeps(w.auths, now, AUTH_LIMIT);
    var kept, made := Prune(w.auths, now, AUTH_LIMIT), Auth(authId, req, now, now + AUTH_TTL, Pending);
    forall i | 0 <= i < |kept|
      ensures kept[i].id != authId
    {
      assert kept[i] in kept;
      assert RecordOk(w.log, kept[i]);
    }
    InsertKeeps(kept, made);
    forall a | a in w'.auths
      ensures RecordOk(w'.log, a)
    {
      if a != made {
        assert a in kept;
        assert RecordOk(w.log, a);
        OthersKept(w.log, Created(authId, req), a);
      }
    }
  }

  lemma ChosenIsFirstRule(names: Names, rules: seq<SshRule>, nodes: seq<CompileNode>, req: Request, action: Option<Action>)
    requires Chosen(names, rules, nodes, req, action) && action.Some?
    ensures exists i :: RuleIs(names, rules, nodes, req, i) && action.value == ActionOf(rules[i])
  {
    var dst, r :| dst in nodes && dst.id == req.dst && IsFirst(RulesFor(names, nodes, rules, dst), req.src, req.sshUser, r) &&
                  action == (if r.None? then None else Some(r.value.action));
    FirstMatchIsNaiveScan(names, nodes, rules, req.src, dst, req.sshUser, r);
    var i :| Decides(names, nodes, rules, req.src, dst, req.sshUser, i) && r.value == CompileRule(names, nodes, rules[i]);
    assert RuleIs(names, rules, nodes, req, i);
  }

  /** The three things an initial request can do to the world. */
  lemma InitialKeeps(w: World, action: Option<Action>, req: Request, now: int, authId: string, answer: Answer, w': World)
    requires Inv(w) && IsTime(now) && IsFresh(w.log, authId) && (action.Some? && action.value.Check? ==> action.value.period < U64)
    requires (w'.auths, answer) == Initial(w.auths, action, req, now, authId) && w'.waiters == w.waiters
    requires w'.log == w.log + InitialEvents(w.auths, action, req, now, authId)
    ensures Inv(w')
    ensures answer.AcceptConn? ==> action.Some? && (action.value.Accept? || ApprovedWithin(w.log, req, now, action.value.period))
  {
    if action.None? || action.value.Accept? {
      assert w'.log == w.log;
      assert w' == w;
    } else if Recent(w.auths, req, now, action.value.period).1 {
      RefreshKeeps(w, req, now, action.value.period, w');
    } else {
      HoldKeeps(w, req, now, authId, w');
    }
  }

  lemma InitialStep(names: Names, rules: seq<SshRule>, w: World, op: Op, answer: Answer, w': World)
    requires Inv(w) && op.OpInitial? && Refusal(op.machines, op.req).None? && Admitted(names, rules, w, op, answer, w')
    ensures Inv(w') && (answer.AcceptConn? ==> Justified(names, rules, w, op))
  {
    var action :| Chosen(names, rules, op.nodes, op.req, action) &&
      (w'.auths, answer) == Initial(w.auths, action, op.req, op.now, op.authId) && w'.waiters == w.waiters &&
      w'.log == w.log + InitialEvents(w.auths, action, op.req, op.now, op.authId);
    if action.Some? {
      ChosenIsFirstRule(names, rules, op.nodes, op.req, action);
    }
    InitialKeeps(w, action, op.req, op.now, op.authId, answer, w');
  }

  lemma LookAgain(w: World, req: Request, id: string, now: int, answer: Answer)
    requires Inv(w) && answer == Resume(w.auths, id, now).1
    requires Created(id, req) in w.log
    ensures answer.AcceptConn? ==> LastAuth(w.log, id).Some?
  {
    var i := IndexOf(w.auths, id);
    if i.Some? {
      assert RecordOk(w.log, w.auths[i.value]);
    }
  }

  lemma FollowupStep(names: Names, rules: seq<SshRule>, w: World, op: Op, answer: Answer, w': World)
    requires Inv(w) && (op.OpFollowup? || op.OpResume?) && Admitted(names, rules, w, op, answer, w')
    requires op.OpFollowup? ==> Refusal(op.machines, op.req).None?
    ensures Inv(w') && (answer.AcceptConn? ==> Justified(names, rules, w, op))
  {
    RemoveKeeps(w.auths, op.id);
    var i := IndexOf(w.auths, op.id);
    if i.Some? {
      assert RecordOk(w.log, w.auths[i.value]);
    }
    if op.OpResume? {
      LookAgain(w, op.req, op.id, op.now, answer);
    } else if answer.AcceptConn? {
      assert Created(op.id, op.req) in w.log;
      LookAgain(w, op.req, op.id, op.now, answer);
    }
  }

  lemma StepOk(names: Names, rules: seq<SshRule>, w: World, op: Op, answer: Answer, w': World)
    requires Inv(w) && Step(names, rules, w, op, answer, w')
    ensures Inv(w') && (answer.AcceptConn? ==> Justified(names, rules, w, op))
  {
    if (op.OpInitial? || op.OpFollowup?) && Refusal(op.machines, op.req).Some? {
      assert !answer.AcceptConn?;
    } else if op.OpInitial? {
      InitialStep(names, rules, w, op, answer, w');
    } else if op.OpDecide? {
      DecideKeeps(w, op.id, op.now, op.approve, w');
    } else {
      FollowupStep(names, rules, w, op, answer, w');
    }
  }

  ghost predicate IsRun(names: Names, rules: seq<SshRule>, ws: seq<World>, ops: seq<Op>, answers: seq<Answer>) {
    && |ws| == |ops| + 1 && |answers| == |ops|
    && ws[0] == World([], {}, [])
    && forall i :: 0 <= i < |ops| ==> Step(names, rules, ws[i], ops[i], answers[i], ws[i + 1])
  }

  lemma {:induction false} EveryRunInv(names: Names, rules: seq<SshRule>, ws: seq<World>, ops: seq<Op>, answers: seq<Answer>, i: nat)
    requires IsRun(names, rules, ws, ops, answers) && i < |ws|
    ensures Inv(ws[i])
    decreases i
  {
    if i > 0 {
      EveryRunInv(names, rules, ws, ops, answers, i - 1);
      StepOk(names, rules, ws[i - 1], ops[i - 1], answers[i - 1], ws[i]);
    }
  }

  /** In every run, every admitted connection is justified by the policy or by an approval of its own binding. */
  lemma EveryAcceptJustified(names: Names, rules: seq<SshRule>, ws: seq<World>, ops: seq<Op>, answers: seq<Answer>, i: nat)
    requires IsRun(names, rules, ws, ops, answers) && i < |ops| && answers[i].AcceptConn?
    ensures Justified(names, rules, ws[i], ops[i])
  {
    EveryRunInv(names, rules, ws, ops, answers, i);
    StepOk(names, rules, ws[i], ops[i], answers[i], ws[i + 1]);
  }

  // ---------------------------------------------------------------------
  // The object.

  class SshAuths {
    var auths: seq<Auth>

    constructor ()
      ensures auths == [] && TableValid(auths)
    {
      auths := [];
    }

    method DecideAuth(id: string, now: int, approve: bool) returns (ok: bool)
      requires TableValid(auths)
      modifies this
      ensures (auths, ok) == Decide(old(auths), id, now, approve) && TableValid(auths)
    {
      RemoveKeeps(auths, id);
      var i := IndexOf(auths, id);
      if i.None? {
        return false;
      }
      if auths[i.value].expires < now {
        auths := Remove(auths, id);
        return false;
      }
      auths := auths[i.value := auths[i.value].(verdict := if approve then Accepted(now) else Rejected)];
      ok := true;
    }

    /** Tracks the latest accepted record of the binding; a hit slides its window. */
    method RecentAcceptance(req: Request, now: int, period: nat) returns (ok: bool)
      requires TableValid(auths)
      modifies this
      ensures (auths, ok) == Recent(old(auths), req, now, period) && TableValid(auths)
    {
      var best: Option<nat> := None;
      for k := 0 to |auths|
        invariant auths == old(auths) && best == Best(auths[..k], req)
      {
        assert auths[..k + 1][..k] == auths[..k];
        if SameBinding(auths[k].req, req) && auths[k].verdict.Accepted? {
          if best.None? || auths[k].verdict.lastAuth > auths[best.value].verdict.lastAuth {
            best := Some(k);
          }
        }
      }
      assert auths[..|auths|] == auths;
      if best.None? || auths[best.value].verdict.lastAuth < Threshold(now, period) {
        return false;
      }
      auths := auths[best.value := auths[best.value].(verdict := Accepted(now))];
      ok := true;
    }

    method UnexpiredAuths(now: int) returns (remaining: seq<Auth>)
      ensures remaining == Unexpired(auths, now)
    {
      remaining := [];
      for k := 0 to |auths|
        invariant remaining == Unexpired(auths[..k], now)
      {
        assert auths[..k + 1][..k] == auths[..k];
        if !(auths[k].expires < now) {
          remaining := remaining + [auths[k]];
        }
      }
      assert auths[..|auths|] == auths;
    }

    method PruneAuths(now: int, limit: nat)
      requires TableValid(auths)
      modifies this
      ensures auths == Prune(old(auths), now, limit) && TableValid(auths) && |auths| <= limit
    {
      PruneKeeps(auths, now, limit);
      var remaining := UnexpiredAuths(now);
      if |remaining| > limit {
        var overflow := |remaining| - limit;
        remaining := remaining[overflow..];
      }
      auths := remaining;
    }

    method RespondInitial(action: Option<Action>, req: Request, now: int, authId: string) returns (answer: Answer)
      requires TableValid(auths) && forall a :: a in auths ==> a.id != authId
      modifies this
      ensures (auths, answer) == Initial(old(auths), action, req, now, authId) && TableValid(auths)
      ensures answer.Hold? ==> |auths| <= AUTH_LIMIT + 1
    {
      if action.None? {
        return RejectConn;
      }
      if action.value.Accept? {
        return AcceptConn;
      }
      var recent := RecentAcceptance(req, now, action.value.period);
      if recent {
        return AcceptConn;
      }
      PruneKeeps(auths, now, AUTH_LIMIT);
      PruneAuths(now, AUTH_LIMIT);
      var entry := Auth(authId, req, now, now + AUTH_TTL, Pending);
      assert forall i :: 0 <= i < |auths| ==> auths[i] in auths;
      InsertKeeps(auths, entry);
      auths := Insert(auths, entry);
      answer := Hold(authId);
    }

    method RespondFollowup(req: Request, id: string, now: int) returns (answer: Answer)
      requires TableValid(auths)
      modifies this
      ensures (auths, answer) == Followup(old(auths), req, id, now) && TableValid(auths)
    {
      RemoveKeeps(auths, id);
      var i := IndexOf(auths, id);
      if i.None? {
        return NotFound;
      }
      if auths[i.value].expires < now {
        auths := Remove(auths, id);
        return NotFound;
      }
      if auths[i.value].req != req {
        return BadBinding;
      }
      answer := VerdictAnswer(auths[i.value].verdict);
    }
  }
}
