/** Ascending key order: the iteration order of the ordered maps the control plane keeps its state in. */
module Ordered {

  datatype Option<+T> = None | Some(value: T)

  /** A set of keys is empty or has a member to pick. */
  lemma EmptyOrInhabited(s: set<int>)
    ensures s == {} || exists y :: y in s
  {
    if forall y :: y !in s {
      assert s == {};
    }
  }

  ghost predicate IsLargest(s: set<int>, m: int) {
    m in s && forall x :: x in s ==> x <= m
  }

  ghost predicate IsSmallest(s: set<int>, m: int) {
    m in s && forall x :: x in s ==> m <= x
  }

  lemma {:induction false} LargestExists(s: set<int>)
    requires s != {}
    ensures exists m :: IsLargest(s, m)
    decreases |s|
  {
    EmptyOrInhabited(s);
    var y :| y in s;
    var rest := s - {y};
    if rest == {} {
      assert s == {y};
      assert IsLargest(s, y);
    } else {
      LargestExists(rest);
      var m :| IsLargest(rest, m);
      assert s == rest + {y};
      assert IsLargest(s, if m < y then y else m);
    }
  }

  ghost function Largest(s: set<int>): (m: int)
    requires s != {}
    ensures IsLargest(s, m)
  {
    LargestExists(s);
    var m :| IsLargest(s, m);
    m
  }

  /** Takes the next key of an ordered map. */
  method TakeSmallest(s: set<int>) returns (m: int)
    requires s != {}
    ensures IsSmallest(s, m)
  {
    EmptyOrInhabited(s);
    m :| m in s;
    var rest := s - {m};
    while rest != {}
      invariant rest <= s && m in s
      invariant forall x :: x in s && x !in rest ==> m <= x
      decreases rest
    {
      EmptyOrInhabited(rest);
      var y :| y in rest;
      if y < m {
        m := y;
      }
      rest := rest - {y};
    }
  }

  /** Equality of maps keyed by node id, from their lookups. */
  lemma SameMap<V(!new)>(a: map<int, V>, b: map<int, V>)
    requires forall id :: id in a <==> id in b
    requires forall id :: id in a ==> a[id] == b[id]
    ensures a == b
  {
    assert a.Keys == b.Keys by {
      assert forall id :: id in a.Keys <==> id in b.Keys;
    }
    assert forall id :: id in a ==> a[id] == b[id];
  }

  /** An ascending pass over the keys has visited exactly those below the remaining ones. */
  ghost predicate PassAt(keys: set<int>, rest: set<int>) {
    rest <= keys && forall j, r :: j in keys && j !in rest && r in rest ==> j < r
  }

  lemma PassStep(keys: set<int>, rest: set<int>, id: int)
    requires PassAt(keys, rest) && IsSmallest(rest, id)
    ensures PassAt(keys, rest - {id})
  {
  }

  // ---------------------------------------------------------------------
  // Lists of texts that are kept sorted and free of duplicates.

  predicate TextLess(a: string, b: string) {
    if b == [] then false
    else if a == [] then true
    else a[0] < b[0] || (a[0] == b[0] && TextLess(a[1..], b[1..]))
  }

  function InsertText(s: seq<string>, c: string): (r: seq<string>)
    ensures forall x :: x in r <==> x in s || x == c
  {
    if s == [] then [c]
    else if s[|s| - 1] == c then s
    else if TextLess(s[|s| - 1], c) then s + [c]
    else
      assert s == s[..|s| - 1] + [s[|s| - 1]];
      InsertText(s[..|s| - 1], c) + [s[|s| - 1]]
  }

  function SortTexts(s: seq<string>): (r: seq<string>)
    ensures forall x :: x in r <==> x in s
  {
    if s == [] then
      []
    else
      assert s == s[..|s| - 1] + [s[|s| - 1]];
      InsertText(SortTexts(s[..|s| - 1]), s[|s| - 1])
  }
}
