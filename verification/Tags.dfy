/** Tag ownership (crabscale-policy/src/tags.rs). */
module Tags {
  import opened Ordered
  import opened Groups

  /** Tag text to the principals that own the tag. */
  type Owners = map<string, seq<Target>>

  predicate IsAlnum(c: char) {
    'a' <= c <= 'z' || 'A' <= c <= 'Z' || '0' <= c <= '9'
  }

  predicate IsValidTag(tag: string) {
    StartsWith(tag, "tag:") && |tag| > 4 && forall i :: 4 <= i < |tag| ==> IsAlnum(tag[i]) || tag[i] == '-'
  }

  // ---------------------------------------------------------------------
  // Ownership through tags.

  predicate HeldOwner(owner: Target, held: set<string>) {
    owner.Tag? && owner.text in held
  }

  /** A chain of tags, each owning the one before it. */
  ghost predicate Chain(owners: Owners, p: seq<string>) {
    && p != []
    && (forall i :: 0 <= i < |p| ==> p[i] in owners)
    && (forall i :: 0 <= i < |p| - 1 ==> Tag(p[i + 1]) in owners[p[i]])
  }

  /** The last tag of the chain has an owner that the credential holds. */
  ghost predicate EndsHeld(owners: Owners, p: seq<string>, held: set<string>)
    requires Chain(owners, p)
  {
    exists o :: o in owners[p[|p| - 1]] && HeldOwner(o, held)
  }

  ghost predicate OwnedThroughTags(owners: Owners, tag: string, held: set<string>) {
    exists p :: Chain(owners, p) && p[0] == tag && EndsHeld(owners, p, held)
  }

  /** One visited tag leads nowhere new: none of its owners is held and all its tag owners are visited. */
  ghost predicate Exhausted(owners: Owners, x: string, held: set<string>, visited: set<string>) {
    x in owners ==>
      forall o :: o in owners[x] ==> !HeldOwner(o, held) && (o.Tag? ==> o.text in visited)
  }

  ghost predicate AllExhausted(owners: Owners, xs: set<string>, held: set<string>, visited: set<string>) {
    forall x :: x in xs ==> Exhausted(owners, x, held, visited)
  }

  lemma ExhaustedGrows(owners: Owners, xs: set<string>, held: set<string>, visited: set<string>, more: set<string>)
    requires AllExhausted(owners, xs, held, visited) && visited <= more
    ensures AllExhausted(owners, xs, held, more)
  {
    forall x | x in xs
      ensures Exhausted(owners, x, held, more)
    {
      assert Exhausted(owners, x, held, visited);
    }
  }

  lemma {:induction false} ExhaustedHasNoChain(owners: Owners, p: seq<string>, held: set<string>, visited: set<string>)
    requires AllExhausted(owners, visited, held, visited) && Chain(owners, p) && p[0] in visited
    ensures !EndsHeld(owners, p, held)
    decreases |p|
  {
    assert Exhausted(owners, p[0], held, visited);
    if |p| > 1 {
      var q := p[1..];
      assert Tag(p[0 + 1]) in owners[p[0]];
      forall i | 0 <= i < |q| - 1
        ensures Tag(q[i + 1]) in owners[q[i]]
      {
        assert q[i] == p[i + 1] && q[i + 1] == p[i + 2];
      }
      ExhaustedHasNoChain(owners, q, held, visited);
    }
  }

  lemma ExtendChain(owners: Owners, tag: string, next: string, held: set<string>)
    requires tag in owners && Tag(next) in owners[tag] && OwnedThroughTags(owners, next, held)
    ensures OwnedThroughTags(owners, tag, held)
  {
    var p :| Chain(owners, p) && p[0] == next && EndsHeld(owners, p, held);
    var q := [tag] + p;
    assert Chain(owners, q) && EndsHeld(owners, q, held);
  }

  lemma FewerUnvisited(all: set<string>, visited: set<string>, more: set<string>, tag: string)
    requires tag in all && tag !in visited && visited + {tag} <= more
    ensures |all - more| < |all - visited|
  {
    var less := (all - visited) - {tag};
    assert all - more <= less;
    SubsetSize(all - more, less);
  }

  lemma {:induction false} SubsetSize(a: set<string>, b: set<string>)
    requires a <= b
    ensures |a| <= |b|
    decreases |a|
  {
    if a != {} {
      var x :| x in a;
      SubsetSize(a - {x}, b - {x});
    }
  }

  /** The depth-first walk with a visited set that is never cleared. */
  class TagWalk {
    const owners: Owners
    const held: set<string>
    var visited: set<string>

    constructor (owners: Owners, held: set<string>)
      ensures this.owners == owners && this.held == held && visited == {}
    {
      this.owners, this.held, visited := owners, held, {};
    }

    method Walk(tag: string) returns (found: bool)
      modifies this
      ensures old(visited) <= visited
      ensures found ==> OwnedThroughTags(owners, tag, held)
      ensures !found ==> tag in visited && AllExhausted(owners, visited - old(visited), held, visited)
      decreases |owners.Keys - visited|, 1
    {
      if tag in visited {
        return false;
      }
      visited := visited + {tag};
      if tag !in owners {
        assert visited - old(visited) == {tag};
        return false;
      }
      FewerUnvisited(owners.Keys, old(visited), visited, tag);
      found := WalkOwners(tag);
      if !found {
        forall x | x in visited - old(visited)
          ensures Exhausted(owners, x, held, visited)
        {
          if x != tag {
            assert x in visited - (old(visited) + {tag});
          }
        }
      }
    }

    method WalkOwners(tag: string) returns (found: bool)
      requires tag in owners
      modifies this
      ensures old(visited) <= visited
      ensures found ==> OwnedThroughTags(owners, tag, held)
      ensures !found ==> AllExhausted(owners, (visited - old(visited)) + {tag}, held, visited)
      decreases |owners.Keys - visited|, 2
    {
      var os := owners[tag];
      for i := 0 to |os|
        invariant old(visited) <= visited
        invariant AllExhausted(owners, visited - old(visited), held, visited)
        invariant forall k :: 0 <= k < i ==> !HeldOwner(os[k], held) && (os[k].Tag? ==> os[k].text in visited)
      {
        if HeldOwner(os[i], held) {
          assert Chain(owners, [tag]) && EndsHeld(owners, [tag], held);
          return true;
        }
        if os[i].Tag? {
          ghost var before := visited;
          MoreVisited(owners.Keys, old(visited), visited);
          found := Walk(os[i].text);
          if found {
            assert Tag(os[i].text) in owners[tag];
            ExtendChain(owners, tag, os[i].text, held);
            return true;
          }
          ExhaustedGrows(owners, before - old(visited), held, before, visited);
          Union(owners, visited - before, before - old(visited), held, visited, visited - old(visited));
        }
      }
      found := false;
      assert Exhausted(owners, tag, held, visited);
    }
  }

  lemma MoreVisited(all: set<string>, visited: set<string>, more: set<string>)
    requires visited <= more
    ensures |all - more| <= |all - visited|
  {
    SubsetSize(all - more, all - visited);
  }

  lemma Union(owners: Owners, a: set<string>, b: set<string>, held: set<string>, visited: set<string>, c: set<string>)
    requires AllExhausted(owners, a, held, visited) && AllExhausted(owners, b, held, visited) && c <= a + b
    ensures AllExhausted(owners, c, held, visited)
  {
  }

  /**
   * The walk from a valid tag terminates on every policy and answers yes exactly when the tag is held
   * or a chain of owning tags ends at a held one.
   */
  method TagOwnedByTags(owners: Owners, tag: string, held: set<string>) returns (owned: bool)
    ensures owned <==> tag in held || (IsValidTag(tag) && OwnedThroughTags(owners, tag, held))
  {
    if tag in held {
      return true;
    }
    if !IsValidTag(tag) {
      return false;
    }
    var walk := new TagWalk(owners, held);
    owned := walk.Walk(tag);
    if !owned {
      var seen := walk.visited;
      assert seen - {} == seen;
      forall p | Chain(owners, p) && p[0] == tag
        ensures !EndsHeld(owners, p, held)
      {
        ExhaustedHasNoChain(owners, p, held, seen);
      }
    }
  }

  // ---------------------------------------------------------------------
  // Use of tags by users.

  datatype TagPolicy = TagPolicy(names: Names, owners: Owners)

  predicate UserCanUseTag(policy: TagPolicy, ghost rank: map<string, nat>, tag: string, login: string)
    requires Ranked(policy.names, rank)
  {
    IsValidTag(tag) && tag in policy.owners &&
    exists i :: 0 <= i < |policy.owners[tag]| && PrincipalMatches(policy.names, rank, policy.owners[tag][i], User(login))
  }

  /** The requested tags that a login may not use, in request order. */
  function UnauthorizedTags(policy: TagPolicy, ghost rank: map<string, nat>, login: Option<string>, requested: seq<string>): seq<string>
    requires Ranked(policy.names, rank)
  {
    if requested == [] then
      []
    else
      var rest, last := UnauthorizedTags(policy, rank, login, requested[..|requested| - 1]), requested[|requested| - 1];
      if login.Some? && UserCanUseTag(policy, rank, last, login.value) then rest else rest + [last]
  }

  /** An empty answer means every requested tag may be used; an absent user may use none. */
  lemma {:induction false} NothingUnauthorized(policy: TagPolicy, rank: map<string, nat>, login: Option<string>, requested: seq<string>)
    requires Ranked(policy.names, rank)
    ensures UnauthorizedTags(policy, rank, login, requested) == [] <==>
            forall i :: 0 <= i < |requested| ==> login.Some? && UserCanUseTag(policy, rank, requested[i], login.value)
    decreases |requested|
  {
    if requested != [] {
      var front := requested[..|requested| - 1];
      NothingUnauthorized(policy, rank, login, front);
      assert forall i :: 0 <= i < |front| ==> front[i] == requested[i];
    }
  }
}
