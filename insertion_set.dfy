/** The dirty-cell index sets of a layer are JavaScript `Set<number>` values.
    A JavaScript set iterates in insertion order, and render draws the dirty
    cells in that order, so a set is modelled here as a sequence without
    duplicates: `add` appends an absent element, `delete` removes it and keeps
    the order of the rest, `clear` is the empty sequence. */
module InsertionSet {

  /** No element occurs twice: the invariant every modelled set keeps. */
  predicate NoDup(s: seq<nat>) {
    forall i, j :: 0 <= i < j < |s| ==> s[i] != s[j]
  }

  /** The mathematical set of the elements, forgetting the insertion order. */
  function Elems(s: seq<nat>): set<nat> {
    set x | x in s
  }

  /** The elements of a concatenation are those of its parts. */
  lemma ElemsAppend(a: seq<nat>, b: seq<nat>)
    ensures Elems(a + b) == Elems(a) + Elems(b)
  {
    assert forall x :: x in a + b <==> x in a || x in b;
  }

  /** Concatenating two duplicate-free sequences with no common element gives
      a duplicate-free sequence. */
  lemma NoDupAppend(a: seq<nat>, b: seq<nat>)
    ensures NoDup(a) && NoDup(b) && Elems(a) !! Elems(b) ==> NoDup(a + b)
  {
    if NoDup(a) && NoDup(b) && Elems(a) !! Elems(b) {
      forall i, j | 0 <= i < j < |a + b|
        ensures (a + b)[i] != (a + b)[j]
      {
        if i < |a| && j >= |a| {
          assert (a + b)[i] in Elems(a) && (a + b)[j] in Elems(b);
        }
      }
    }
  }

  /** In a sequence without duplicates every element occurs exactly once. */
  lemma {:induction false} NoDupCount(s: seq<nat>, x: nat)
    requires NoDup(s)
    ensures multiset(s)[x] == if x in s then 1 else 0
  {
    if s != [] {
      var init := s[..|s| - 1];
      assert s == init + [s[|s| - 1]];
      assert s[|s| - 1] !in init;
      NoDupCount(init, x);
    }
  }

  /** `Set.prototype.add`: a new element goes last, an element already present
      changes nothing. */
  function Add(s: seq<nat>, x: nat): (r: seq<nat>)
    ensures Elems(r) == Elems(s) + {x}
    ensures NoDup(s) ==> NoDup(r)
    ensures |s| <= |r| && r[..|s|] == s
    ensures x in s <==> |r| == |s|
  {
    if x in s then s else s + [x]
  }

  /** `Set.prototype.delete`: removes the element, the others keep their order. */
  function Delete(s: seq<nat>, x: nat): (r: seq<nat>)
    ensures Elems(r) == Elems(s) - {x}
    ensures NoDup(s) ==> NoDup(r)
    ensures |r| <= |s|
    ensures x !in s ==> r == s
  {
    if s == [] then []
    else
      assert s == [s[0]] + s[1..];
      assert Elems(s) == {s[0]} + Elems(s[1..]);
      if s[0] == x then Delete(s[1..], x)
      else
        var rest := Delete(s[1..], x);
        assert NoDup(s) ==> s[0] !in Elems(s[1..]) && NoDup(s[1..]);
        assert Elems([s[0]] + rest) == {s[0]} + Elems(rest);
        [s[0]] + rest
  }

  /** `xs.forEach(x => set.add(x))`: adds the elements of `xs` left to right. */
  function AddAll(s: seq<nat>, xs: seq<nat>): (r: seq<nat>)
    ensures Elems(r) == Elems(s) + Elems(xs)
    ensures NoDup(s) ==> NoDup(r)
    ensures |s| <= |r| && r[..|s|] == s
  {
    if xs == [] then s
    else
      assert xs == xs[..|xs| - 1] + [xs[|xs| - 1]];
      Add(AddAll(s, xs[..|xs| - 1]), xs[|xs| - 1])
  }

  /** `xs.forEach(x => set.delete(x))`: removes the elements of `xs` left to right. */
  function DeleteAll(s: seq<nat>, xs: seq<nat>): (r: seq<nat>)
    ensures Elems(r) == Elems(s) - Elems(xs)
    ensures NoDup(s) ==> NoDup(r)
  {
    if xs == [] then s
    else
      assert xs == xs[..|xs| - 1] + [xs[|xs| - 1]];
      Delete(DeleteAll(s, xs[..|xs| - 1]), xs[|xs| - 1])
  }

  /** An element added and then deleted is absent, whatever else was added. */
  lemma AddThenDeleteAbsent(s: seq<nat>, adds: seq<nat>, dels: seq<nat>, x: nat)
    requires x in dels
    ensures x !in DeleteAll(AddAll(s, adds), dels)
  {
    assert x in Elems(dels);
    assert x !in Elems(DeleteAll(AddAll(s, adds), dels));
  }

  /** Adding an absent element and deleting it again restores the set, order
      included. */
  lemma {:induction false} DeleteUndoesAdd(s: seq<nat>, x: nat)
    requires x !in s
    ensures Delete(Add(s, x), x) == s
  {
    if s != [] {
      assert (s + [x])[1..] == s[1..] + [x];
      DeleteUndoesAdd(s[1..], x);
      assert s == [s[0]] + s[1..];
    }
  }

  /** `xs.forEach(x => set.add(x))` as the loop the source runs. */
  method AddEach(s: seq<nat>, xs: seq<nat>) returns (r: seq<nat>)
    ensures r == AddAll(s, xs)
  {
    r := s;
    for j := 0 to |xs|
      invariant r == AddAll(s, xs[..j])
    {
      assert xs[..j + 1][..j] == xs[..j];
      r := Add(r, xs[j]);
    }
    assert xs[..|xs|] == xs;
  }

  /** `xs.forEach(x => set.delete(x))` as the loop the source runs. */
  method DeleteEach(s: seq<nat>, xs: seq<nat>) returns (r: seq<nat>)
    ensures r == DeleteAll(s, xs)
  {
    r := s;
    for j := 0 to |xs|
      invariant r == DeleteAll(s, xs[..j])
    {
      assert xs[..j + 1][..j] == xs[..j];
      r := Delete(r, xs[j]);
    }
    assert xs[..|xs|] == xs;
  }
}
