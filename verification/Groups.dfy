/** Policy principals and group expansion (crabscale-policy/src/compile.rs, tags.rs). */
module Groups {
  import opened Ordered
  import opened Net

  /** A principal as its text is classified; tags and users keep their full text. */
  datatype Target =
    | Wildcard
    | AutoSelf
    | AutoMember
    | AutoTagged
    | AutoOther(name: string)
    | Group(name: string)
    | Tag(text: string)
    | User(login: string)
    | Network(net: Cidr)
    | Host(alias: string)

  /** Group members by name, and host aliases with their parsed value when it is one. */
  datatype Names = Names(groups: map<string, seq<Target>>, hosts: map<string, Option<Cidr>>)

  datatype Resolved = Resolved(
    wildcard: bool,
    selfMatch: bool,
    memberMatch: bool,
    taggedMatch: bool,
    nets: set<Cidr>,
    identities: set<string>)

  const NOTHING := Resolved(false, false, false, false, {}, {})

  /** Group members pass on everything but the autogroup markers. */
  function MergeMember(r: Resolved, m: Resolved): Resolved {
    r.(wildcard := r.wildcard || m.wildcard, nets := r.nets + m.nets, identities := r.identities + m.identities)
  }

  function ResolveLeaf(names: Names, t: Target): Resolved {
    match t
    case Wildcard => NOTHING.(wildcard := true)
    case AutoSelf => NOTHING.(selfMatch := true)
    case AutoMember => NOTHING.(memberMatch := true)
    case AutoTagged => NOTHING.(taggedMatch := true)
    case AutoOther(_) | Group(_) => NOTHING
    case Tag(text) => NOTHING.(identities := {text})
    case User(login) => NOTHING.(identities := {login})
    case Network(net) => NOTHING.(nets := {net})
    case Host(alias) =>
      if alias in names.hosts && names.hosts[alias].Some? then NOTHING.(nets := {names.hosts[alias].value}) else NOTHING
  }

  /** Expansion of one target while the groups in `busy` are being expanded further up. */
  function Resolve(names: Names, t: Target, busy: set<string>): Resolved
    decreases |names.groups.Keys - busy|, 0
  {
    if !t.Group? then
      ResolveLeaf(names, t)
    else if t.name in busy || t.name !in names.groups then
      NOTHING
    else
      Smaller(names.groups.Keys, busy, t.name);
      ResolveMembers(names, names.groups[t.name], busy + {t.name})
  }

  function ResolveMembers(names: Names, ms: seq<Target>, busy: set<string>): Resolved
    decreases |names.groups.Keys - busy|, 1 + |ms|
  {
    if ms == [] then
      NOTHING
    else
      MergeMember(ResolveMembers(names, ms[..|ms| - 1], busy), Resolve(names, ms[|ms| - 1], busy))
  }

  lemma Smaller(all: set<string>, busy: set<string>, g: string)
    requires g in all && g !in busy
    ensures |all - (busy + {g})| < |all - busy|
  {
    assert all - busy == (all - (busy + {g})) + {g};
  }

  // ---------------------------------------------------------------------
  // What an expansion says, as single facts.

  datatype Fact = AnyNode | Within(net: Cidr) | Identity(text: string)

  predicate Says(r: Resolved, f: Fact) {
    match f
    case AnyNode => r.wildcard
    case Within(net) => net in r.nets
    case Identity(text) => text in r.identities
  }

  /** A walk along group membership. */
  ghost predicate Walk(names: Names, p: seq<string>) {
    && p != []
    && (forall i :: 0 <= i < |p| ==> p[i] in names.groups)
    && (forall i :: 0 <= i < |p| - 1 ==> Group(p[i + 1]) in names.groups[p[i]])
  }

  ghost predicate Distinct(p: seq<string>) {
    forall i, j :: 0 <= i < j < |p| ==> p[i] != p[j]
  }

  ghost predicate Avoids(p: seq<string>, busy: set<string>) {
    forall i :: 0 <= i < |p| ==> p[i] !in busy
  }

  /** Some non-group member of the last group on the walk says `f`. */
  ghost predicate LeafAt(names: Names, p: seq<string>, leaf: Target, f: Fact)
    requires Walk(names, p)
  {
    leaf in names.groups[p[|p| - 1]] && !leaf.Group? && Says(ResolveLeaf(names, leaf), f)
  }

  /** A fact follows from a target declaratively: directly, or at the end of some membership walk. */
  ghost predicate Reaches(names: Names, t: Target, f: Fact) {
    if t.Group? then
      exists p, leaf :: Walk(names, p) && p[0] == t.name && LeafAt(names, p, leaf, f)
    else
      Says(ResolveLeaf(names, t), f)
  }

  lemma {:induction false} MembersSay(names: Names, ms: seq<Target>, busy: set<string>, f: Fact)
    ensures Says(ResolveMembers(names, ms, busy), f) <==>
            exists i :: 0 <= i < |ms| && Says(Resolve(names, ms[i], busy), f)
    decreases |ms|
  {
    if ms != [] {
      var front, k := ms[..|ms| - 1], |ms| - 1;
      MembersSay(names, front, busy, f);
      if Says(ResolveMembers(names, front, busy), f) {
        var i :| 0 <= i < |front| && Says(Resolve(names, front[i], busy), f);
        assert ms[i] == front[i];
      }
      if exists i :: 0 <= i < |ms| && Says(Resolve(names, ms[i], busy), f) {
        var i :| 0 <= i < |ms| && Says(Resolve(names, ms[i], busy), f);
        if i < k {
          assert front[i] == ms[i];
        }
      }
    }
  }

  /** Soundness: whatever a guarded expansion says is found at the end of a walk. */
  lemma {:induction false} SaidIsReached(names: Names, g: string, busy: set<string>, f: Fact) returns (p: seq<string>, leaf: Target)
    requires Says(Resolve(names, Group(g), busy), f)
    ensures Walk(names, p) && p[0] == g && LeafAt(names, p, leaf, f)
    decreases |names.groups.Keys - busy|
  {
    Smaller(names.groups.Keys, busy, g);
    var ms := names.groups[g];
    MembersSay(names, ms, busy + {g}, f);
    var i :| 0 <= i < |ms| && Says(Resolve(names, ms[i], busy + {g}), f);
    if ms[i].Group? {
      var q, l := SaidIsReached(names, ms[i].name, busy + {g}, f);
      p, leaf := [g] + q, l;
      assert p[|p| - 1] == q[|q| - 1];
    } else {
      p, leaf := [g], ms[i];
    }
  }

  lemma TailWalk(names: Names, p: seq<string>)
    requires Walk(names, p) && |p| > 1
    ensures Walk(names, p[1..]) && p[1..][|p| - 2] == p[|p| - 1]
  {
    var q := p[1..];
    forall i | 0 <= i < |q| - 1
      ensures Group(q[i + 1]) in names.groups[q[i]]
    {
      assert q[i] == p[i + 1] && q[i + 1] == p[i + 2];
    }
  }

  /** Completeness along walks that repeat no group and meet no busy one. */
  lemma {:induction false} SimpleWalkIsSaid(names: Names, p: seq<string>, leaf: Target, busy: set<string>, f: Fact)
    requires Walk(names, p) && Distinct(p) && Avoids(p, busy) && LeafAt(names, p, leaf, f)
    ensures Says(Resolve(names, Group(p[0]), busy), f)
    decreases |p|
  {
    var g, ms := p[0], names.groups[p[0]];
    MembersSay(names, ms, busy + {g}, f);
    if |p| == 1 {
      var i :| 0 <= i < |ms| && ms[i] == leaf;
      assert Says(Resolve(names, ms[i], busy + {g}), f);
    } else {
      var q := p[1..];
      TailWalk(names, p);
      SimpleWalkIsSaid(names, q, leaf, busy + {g}, f);
      assert Group(p[1]) in names.groups[p[0]];
      var i :| 0 <= i < |ms| && ms[i] == Group(p[1]);
      assert Says(Resolve(names, ms[i], busy + {g}), f);
    }
  }

  /** Cutting a detour out of a walk. */
  lemma CutDetour(names: Names, p: seq<string>, i: nat, j: nat)
    requires Walk(names, p) && i < j < |p| && p[i] == p[j]
    ensures var q := p[..i] + p[j..];
            Walk(names, q) && |q| < |p| && q[0] == p[0] && q[|q| - 1] == p[|p| - 1]
  {
    var q := p[..i] + p[j..];
    forall k | 0 <= k < |q| - 1
      ensures Group(q[k + 1]) in names.groups[q[k]]
    {
      if k + 1 < i {
      } else if k + 1 == i {
        assert q[k + 1] == p[j] == p[i];
      } else {
        assert q[k] == p[k - i + j] && q[k + 1] == p[k + 1 - i + j];
      }
    }
  }

  /** Every walk has a repetition-free walk with the same ends. */
  lemma {:induction false} Straighten(names: Names, p: seq<string>) returns (q: seq<string>)
    requires Walk(names, p)
    ensures Walk(names, q) && Distinct(q) && q[0] == p[0] && q[|q| - 1] == p[|p| - 1]
    decreases |p|
  {
    if Distinct(p) {
      q := p;
    } else {
      var i, j :| 0 <= i < j < |p| && p[i] == p[j];
      CutDetour(names, p, i, j);
      q := Straighten(names, p[..i] + p[j..]);
    }
  }

  /**
   * On every policy, cyclic or not, expansion with the in-progress guard says exactly the facts
   * reachable through the group graph.
   */
  lemma ResolveIsReachability(names: Names, t: Target, f: Fact)
    ensures Says(Resolve(names, t, {}), f) <==> Reaches(names, t, f)
  {
    if t.Group? {
      if Says(Resolve(names, t, {}), f) {
        var p, leaf := SaidIsReached(names, t.name, {}, f);
      }
      if Reaches(names, t, f) {
        var p, leaf :| Walk(names, p) && p[0] == t.name && LeafAt(names, p, leaf, f);
        var q := Straighten(names, p);
        assert LeafAt(names, q, leaf, f);
        SimpleWalkIsSaid(names, q, leaf, {}, f);
      }
    }
  }

  // ---------------------------------------------------------------------
  // Lists of targets, destinations and logins.

  function Merge(r: Resolved, m: Resolved): Resolved {
    Resolved(r.wildcard || m.wildcard, r.selfMatch || m.selfMatch, r.memberMatch || m.memberMatch,
             r.taggedMatch || m.taggedMatch, r.nets + m.nets, r.identities + m.identities)
  }

  function ResolveAll(names: Names, ts: seq<Target>): Resolved {
    if ts == [] then NOTHING else Merge(ResolveAll(names, ts[..|ts| - 1]), Resolve(names, ts[|ts| - 1], {}))
  }

  predicate StartsWith(s: string, prefix: string) {
    |prefix| <= |s| && s[..|prefix|] == prefix
  }

  /** Strips every leading group prefix from a group name. */
  function TrimGroup(name: string): string {
    if StartsWith(name, "group:") then TrimGroup(name[6..]) else name
  }

  /** A port-free destination: a group's members are expanded without marking the group itself busy. */
  function ResolveBare(names: Names, t: Target): Resolved {
    if !t.Group? then
      ResolveLeaf(names, t)
    else if TrimGroup(t.name) in names.groups then
      ResolveMembers(names, names.groups[TrimGroup(t.name)], {})
    else
      NOTHING
  }

  lemma WalkFromMember(names: Names, g: string, m: Target, f: Fact)
    requires g in names.groups && m in names.groups[g] && Reaches(names, m, f)
    ensures Reaches(names, Group(g), f)
  {
    if m.Group? {
      var p, leaf :| Walk(names, p) && p[0] == m.name && LeafAt(names, p, leaf, f);
      var q := [g] + p;
      assert Walk(names, q) && q[0] == g && LeafAt(names, q, leaf, f);
    } else {
      assert Walk(names, [g]) && LeafAt(names, [g], m, f);
    }
  }

  lemma MemberOfWalk(names: Names, g: string, f: Fact) returns (i: nat)
    requires Reaches(names, Group(g), f)
    ensures g in names.groups && i < |names.groups[g]| && Reaches(names, names.groups[g][i], f)
  {
    var p, leaf :| Walk(names, p) && p[0] == g && LeafAt(names, p, leaf, f);
    if |p| == 1 {
      i :| 0 <= i < |names.groups[g]| && names.groups[g][i] == leaf;
    } else {
      TailWalk(names, p);
      assert LeafAt(names, p[1..], leaf, f);
      assert Group(p[0 + 1]) in names.groups[p[0]];
      i :| 0 <= i < |names.groups[g]| && names.groups[g][i] == Group(p[1]);
    }
  }

  /** A destination says exactly what its trimmed target reaches, on cyclic groups too. */
  lemma BareIsReachability(names: Names, t: Target, f: Fact)
    ensures Says(ResolveBare(names, t), f) <==> Reaches(names, if t.Group? then Group(TrimGroup(t.name)) else t, f)
  {
    if t.Group? {
      var g := TrimGroup(t.name);
      if g in names.groups {
        var ms := names.groups[g];
        MembersSay(names, ms, {}, f);
        if Says(ResolveBare(names, t), f) {
          var i :| 0 <= i < |ms| && Says(Resolve(names, ms[i], {}), f);
          ResolveIsReachability(names, ms[i], f);
          WalkFromMember(names, g, ms[i], f);
        }
        if Reaches(names, Group(g), f) {
          var i := MemberOfWalk(names, g, f);
          ResolveIsReachability(names, ms[i], f);
        }
      }
    }
  }

  /** The two expansions say the same for every target but a group name that itself starts with the prefix. */
  lemma BareAgrees(names: Names, t: Target, f: Fact)
    requires t.Group? ==> !StartsWith(t.name, "group:")
    ensures Says(ResolveBare(names, t), f) <==> Says(Resolve(names, t, {}), f)
  {
    BareIsReachability(names, t, f);
    ResolveIsReachability(names, t, f);
  }

  lemma {:induction false} TrimShortens(name: string)
    ensures |TrimGroup(name)| <= |name|
    ensures StartsWith(name, "group:") ==> |TrimGroup(name)| < |name|
    decreases |name|
  {
    if StartsWith(name, "group:") {
      TrimShortens(name[6..]);
    }
  }

  /** For every name with the prefix they differ on some policy: one expansion trims it, the other looks it up as written. */
  lemma BareTrims(name: string)
    requires StartsWith(name, "group:")
    ensures var names := Names(map[TrimGroup(name) := [User("a@b")]], map[]);
            Says(ResolveBare(names, Group(name)), Identity("a@b")) && !Says(Resolve(names, Group(name), {}), Identity("a@b"))
  {
    var names := Names(map[TrimGroup(name) := [User("a@b")]], map[]);
    TrimShortens(name);
    assert name !in names.groups;
    MembersSay(names, [User("a@b")], {}, Identity("a@b"));
    assert Says(Resolve(names, [User("a@b")][0], {}), Identity("a@b"));
  }

  /** The two expansions say the same of a group on every policy. */
  ghost predicate SameInBoth(name: string) {
    forall names, f :: Says(ResolveBare(names, Group(name)), f) <==> Says(Resolve(names, Group(name), {}), f)
  }

  /** A group means one thing in sources and destinations exactly when its name does not start with the prefix. */
  lemma GroupNameUnambiguousIff(name: string)
    ensures SameInBoth(name) <==> !StartsWith(name, "group:")
  {
    if StartsWith(name, "group:") {
      BareTrims(name);
    } else {
      forall names, f
        ensures Says(ResolveBare(names, Group(name)), f) <==> Says(Resolve(names, Group(name), {}), f)
      {
        BareAgrees(names, Group(name), f);
      }
    }
  }

  /** Groups may contain themselves but are otherwise acyclic. */
  ghost predicate Ranked(names: Names, rank: map<string, nat>) {
    forall g, i :: g in names.groups && 0 <= i < |names.groups[g]| ==>
      var m := names.groups[g][i];
      g in rank && (m.Group? && m.name in names.groups && m.name != g ==> m.name in rank && rank[m.name] < rank[g])
  }

  ghost function Height(names: Names, rank: map<string, nat>, p: Target): nat {
    if p.Group? && p.name in names.groups && p.name in rank then rank[p.name] + 1 else 0
  }

  /** Whether a principal designates a login; only direct self-membership is guarded against. */
  predicate PrincipalMatches(names: Names, ghost rank: map<string, nat>, p: Target, login: Target)
    requires Ranked(names, rank)
    decreases Height(names, rank, p)
  {
    p == login ||
    (p.Group? && p.name in names.groups &&
     exists i :: 0 <= i < |names.groups[p.name]| &&
       names.groups[p.name][i] != p && PrincipalMatches(names, rank, names.groups[p.name][i], login))
  }

  // ---------------------------------------------------------------------
  // When the unguarded recursion ends.

  datatype Search = Unfinished | Found | Absent

  function Answer(found: bool): Search {
    if found then Found else Absent
  }

  /** The recursion as it runs on any policy, with so many calls to spend; nothing when they do not suffice. */
  function Tries(names: Names, p: Target, login: Target, calls: nat): Search
    decreases calls, 0
  {
    if calls == 0 then Unfinished
    else if p == login then Found
    else if p.Group? && p.name in names.groups then TriesAny(names, p, names.groups[p.name], login, calls - 1)
    else Absent
  }

  function TriesAny(names: Names, p: Target, ms: seq<Target>, login: Target, calls: nat): Search
    decreases calls, 1, |ms|
  {
    if ms == [] then
      Absent
    else if ms[0] == p then
      TriesAny(names, p, ms[1..], login, calls)
    else
      var r := Tries(names, ms[0], login, calls);
      if r == Absent then TriesAny(names, p, ms[1..], login, calls) else r
  }

  /** Each target is a group that lists the next one, and no target follows itself. */
  ghost predicate Nested(names: Names, c: seq<Target>) {
    && c != []
    && forall i :: 0 <= i < |c| - 1 ==> Lists(names, c[i], c[i + 1])
  }

  ghost predicate Lists(names: Names, p: Target, m: Target) {
    p.Group? && p.name in names.groups && m in names.groups[p.name] && m != p
  }

  ghost predicate ChainsWithin(names: Names, p: Target, n: nat) {
    forall c :: Nested(names, c) && c[0] == p ==> |c| <= n
  }

  lemma ChainsFrom(names: Names, p: Target, n: nat)
    ensures ChainsWithin(names, p, n + 1) <==> forall m :: Lists(names, p, m) ==> ChainsWithin(names, m, n)
  {
    if ChainsWithin(names, p, n + 1) {
      forall m, c | Lists(names, p, m) && Nested(names, c) && c[0] == m
        ensures |c| <= n
      {
        var longer := [p] + c;
        assert forall i :: 0 < i < |longer| ==> longer[i] == c[i - 1];
        assert Nested(names, longer);
      }
    }
    if forall m :: Lists(names, p, m) ==> ChainsWithin(names, m, n) {
      forall c | Nested(names, c) && c[0] == p
        ensures |c| <= n + 1
      {
        if |c| > 1 {
          assert Lists(names, c[0], c[0 + 1]);
          var tail := c[1..];
          assert forall i :: 0 <= i < |tail| ==> tail[i] == c[i + 1];
          assert Nested(names, tail);
        }
      }
    }
  }

  lemma {:induction false} TriesAnyEnds(names: Names, p: Target, ms: seq<Target>, login: Target, calls: nat)
    ensures (forall m :: m in ms && m != p ==> !Tries(names, m, login, calls).Unfinished?) ==> !TriesAny(names, p, ms, login, calls).Unfinished?
    ensures !TriesAny(names, p, ms, login, calls).Unfinished? && (forall m :: m in ms && m != p ==> Tries(names, m, login, calls) != Found) ==>
              forall m :: m in ms && m != p ==> !Tries(names, m, login, calls).Unfinished?
    ensures TriesAny(names, p, ms, login, calls) == Found ==>
              exists m :: m in ms && m != p && Tries(names, m, login, calls) == Found
    decreases |ms|
  {
    if ms != [] {
      TriesAnyEnds(names, p, ms[1..], login, calls);
      assert forall m :: m in ms <==> m == ms[0] || m in ms[1..];
    }
  }

  /** Whoever is looked for, the recursion ends within so many calls when no chain of groups is longer. */
  lemma {:induction false} ShortChainsEnd(names: Names, p: Target, login: Target, calls: nat)
    requires ChainsWithin(names, p, calls)
    ensures !Tries(names, p, login, calls).Unfinished?
    decreases calls
  {
    if calls == 0 {
      assert Nested(names, [p]);
    } else if p != login && p.Group? && p.name in names.groups {
      ChainsFrom(names, p, calls - 1);
      forall m | m in names.groups[p.name] && m != p
        ensures !Tries(names, m, login, calls - 1).Unfinished?
      {
        assert Lists(names, p, m);
        ShortChainsEnd(names, m, login, calls - 1);
      }
      TriesAnyEnds(names, p, names.groups[p.name], login, calls - 1);
    }
  }

  /** No group lists the login. */
  ghost predicate Unlisted(names: Names, login: Target) {
    forall g, m :: g in names.groups && m in names.groups[g] ==> m != login
  }

  lemma {:induction false} UnlistedNeverFound(names: Names, p: Target, login: Target, calls: nat)
    requires Unlisted(names, login) && p != login
    ensures Tries(names, p, login, calls) != Found
    decreases calls
  {
    if calls > 0 && p.Group? && p.name in names.groups {
      forall m | m in names.groups[p.name]
        ensures Tries(names, m, login, calls - 1) != Found
      {
        UnlistedNeverFound(names, m, login, calls - 1);
      }
      TriesAnyEnds(names, p, names.groups[p.name], login, calls - 1);
    }
  }

  /** For a login no group lists, the recursion ends within so many calls exactly when no chain of groups is longer. */
  lemma {:induction false} RecursionEndsIff(names: Names, p: Target, login: Target, calls: nat)
    requires Unlisted(names, login) && p != login
    ensures !Tries(names, p, login, calls).Unfinished? <==> ChainsWithin(names, p, calls)
    decreases calls
  {
    if calls == 0 {
      assert Nested(names, [p]);
    } else {
      ChainsFrom(names, p, calls - 1);
      if p.Group? && p.name in names.groups {
        forall m | m in names.groups[p.name]
          ensures !Tries(names, m, login, calls - 1).Unfinished? <==> ChainsWithin(names, m, calls - 1)
          ensures Tries(names, m, login, calls - 1) != Found
        {
          RecursionEndsIff(names, m, login, calls - 1);
          UnlistedNeverFound(names, m, login, calls - 1);
        }
        TriesAnyEnds(names, p, names.groups[p.name], login, calls - 1);
        assert forall m :: Lists(names, p, m) <==> m in names.groups[p.name] && m != p;
      }
    }
  }

  /** Two groups that list each other: however many calls are spent, the recursion does not end. */
  lemma {:induction false} TwoGroupsNeverEnd(login: string, calls: nat)
    ensures var names := Names(map["a" := [Group("b")], "b" := [Group("a")]], map[]);
            Tries(names, Group("a"), User(login), calls) == Unfinished && Tries(names, Group("b"), User(login), calls) == Unfinished
    decreases calls
  {
    if calls > 0 {
      TwoGroupsNeverEnd(login, calls - 1);
    }
  }

  /** Where the groups are acyclic the recursion ends, and with the answer of the specification. */
  lemma {:induction false} RankedEnds(names: Names, rank: map<string, nat>, p: Target, login: Target, calls: nat)
    requires Ranked(names, rank) && calls > Height(names, rank, p)
    ensures Tries(names, p, login, calls) == Answer(PrincipalMatches(names, rank, p, login))
    decreases calls
  {
    if p != login && p.Group? && p.name in names.groups {
      var ms := names.groups[p.name];
      forall i | 0 <= i < |ms| && ms[i] != p
        ensures Tries(names, ms[i], login, calls - 1) == Answer(PrincipalMatches(names, rank, ms[i], login))
      {
        RankedEnds(names, rank, ms[i], login, calls - 1);
      }
      AnyAnswered(names, rank, p, ms, login, calls - 1);
    }
  }

  /** Every other member's search ends with the specification's answer. */
  ghost predicate MembersAnswered(names: Names, rank: map<string, nat>, p: Target, ms: seq<Target>, login: Target, calls: nat)
    requires Ranked(names, rank)
  {
    forall i :: 0 <= i < |ms| && ms[i] != p ==> Tries(names, ms[i], login, calls) == Answer(PrincipalMatches(names, rank, ms[i], login))
  }

  lemma {:induction false} AnyAnswered(names: Names, rank: map<string, nat>, p: Target, ms: seq<Target>, login: Target, calls: nat)
    requires Ranked(names, rank) && MembersAnswered(names, rank, p, ms, login, calls)
    ensures TriesAny(names, p, ms, login, calls) ==
            Answer(exists i :: 0 <= i < |ms| && ms[i] != p && PrincipalMatches(names, rank, ms[i], login))
    decreases |ms|
  {
    if ms != [] {
      var tail := ms[1..];
      assert forall i :: 0 <= i < |tail| ==> tail[i] == ms[i + 1];
      AnyAnswered(names, rank, p, tail, login, calls);
      if exists i :: 0 <= i < |tail| && tail[i] != p && PrincipalMatches(names, rank, tail[i], login) {
        var i :| 0 <= i < |tail| && tail[i] != p && PrincipalMatches(names, rank, tail[i], login);
        assert ms[i + 1] != p && PrincipalMatches(names, rank, ms[i + 1], login);
      }
      if exists i :: 0 <= i < |ms| && ms[i] != p && PrincipalMatches(names, rank, ms[i], login) {
        var i :| 0 <= i < |ms| && ms[i] != p && PrincipalMatches(names, rank, ms[i], login);
        assert i == 0 || tail[i - 1] == ms[i];
      }
    }
  }

  /** Tags carry their prefix in every group. */
  ghost predicate TagsPrefixed(names: Names) {
    forall g, m :: g in names.groups && m in names.groups[g] && m.Tag? ==> StartsWith(m.text, "tag:")
  }

  lemma {:induction false} MatchIsReached(names: Names, rank: map<string, nat>, p: Target, login: string)
    requires Ranked(names, rank) && PrincipalMatches(names, rank, p, User(login))
    ensures Reaches(names, p, Identity(login))
    decreases Height(names, rank, p)
  {
    if p != User(login) {
      var ms := names.groups[p.name];
      var i :| 0 <= i < |ms| && ms[i] != p && PrincipalMatches(names, rank, ms[i], User(login));
      MatchIsReached(names, rank, ms[i], login);
      WalkFromMember(names, p.name, ms[i], Identity(login));
    }
  }

  lemma {:induction false} WalkIsMatch(names: Names, rank: map<string, nat>, p: seq<string>, login: string)
    requires Ranked(names, rank) && Walk(names, p) && Distinct(p) && User(login) in names.groups[p[|p| - 1]]
    ensures PrincipalMatches(names, rank, Group(p[0]), User(login))
    decreases |p|
  {
    var ms := names.groups[p[0]];
    if |p| == 1 {
      var i :| 0 <= i < |ms| && ms[i] == User(login);
      assert PrincipalMatches(names, rank, ms[i], User(login));
    } else {
      TailWalk(names, p);
      WalkIsMatch(names, rank, p[1..], login);
      var i :| 0 <= i < |ms| && ms[i] == Group(p[1]);
      assert ms[i] != Group(p[0]);
    }
  }

  /** On acyclic groups, login membership and group expansion agree for every principal but a tag. */
  lemma LoginsAgree(names: Names, rank: map<string, nat>, p: Target, login: string)
    requires Ranked(names, rank) && TagsPrefixed(names) && !StartsWith(login, "tag:") && !p.Tag?
    ensures PrincipalMatches(names, rank, p, User(login)) <==> Says(Resolve(names, p, {}), Identity(login))
  {
    ResolveIsReachability(names, p, Identity(login));
    if PrincipalMatches(names, rank, p, User(login)) {
      MatchIsReached(names, rank, p, login);
    }
    if Reaches(names, p, Identity(login)) && p.Group? {
      var w, leaf :| Walk(names, w) && w[0] == p.name && LeafAt(names, w, leaf, Identity(login));
      assert leaf == User(login);
      var q := Straighten(names, w);
      WalkIsMatch(names, rank, q, login);
    }
  }

  // ---------------------------------------------------------------------
  // The resolution context, whose set of groups in progress every call restores.

  class Ctx {
    const names: Names
    var resolvingGroups: set<string>

    constructor (names: Names)
      ensures this.names == names && resolvingGroups == {}
    {
      this.names := names;
      resolvingGroups := {};
    }

    method ResolveSingle(t: Target) returns (r: Resolved)
      modifies this
      ensures r == Resolve(names, t, old(resolvingGroups)) && resolvingGroups == old(resolvingGroups)
      decreases |names.groups.Keys - resolvingGroups|, 0
    {
      if !t.Group? {
        return ResolveLeaf(names, t);
      }
      r := NOTHING;
      if t.name !in resolvingGroups {
        ghost var busy := resolvingGroups;
        resolvingGroups := resolvingGroups + {t.name};
        if t.name in names.groups {
          Smaller(names.groups.Keys, busy, t.name);
          r := ResolveGroupMembers(names.groups[t.name]);
        }
        resolvingGroups := resolvingGroups - {t.name};
        assert resolvingGroups == busy;
      }
    }

    method ResolveGroupMembers(ms: seq<Target>) returns (r: Resolved)
      modifies this
      ensures r == ResolveMembers(names, ms, old(resolvingGroups)) && resolvingGroups == old(resolvingGroups)
      decreases |names.groups.Keys - resolvingGroups|, 1
    {
      r := NOTHING;
      for i := 0 to |ms|
        invariant resolvingGroups == old(resolvingGroups)
        invariant r == ResolveMembers(names, ms[..i], resolvingGroups)
      {
        var m := ResolveSingle(ms[i]);
        assert ms[..i + 1][..i] == ms[..i];
        r := MergeMember(r, m);
      }
      assert ms[..|ms|] == ms;
    }

    method ResolveTargets(ts: seq<Target>) returns (r: Resolved)
      requires resolvingGroups == {}
      modifies this
      ensures r == ResolveAll(names, ts) && resolvingGroups == {}
    {
      r := NOTHING;
      for i := 0 to |ts|
        invariant resolvingGroups == {}
        invariant r == ResolveAll(names, ts[..i])
      {
        var m := ResolveSingle(ts[i]);
        assert ts[..i + 1][..i] == ts[..i];
        r := Merge(r, m);
      }
      assert ts[..|ts|] == ts;
    }

    method ResolveDestination(t: Target) returns (r: Resolved)
      requires resolvingGroups == {}
      modifies this
      ensures r == ResolveBare(names, t) && resolvingGroups == {}
    {
      if !t.Group? {
        return ResolveLeaf(names, t);
      }
      r := NOTHING;
      var group := TrimGroup(t.name);
      if group in names.groups {
        r := ResolveGroupMembers(names.groups[group]);
      }
    }
  }
}
