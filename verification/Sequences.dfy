/** The ends of sequences, sequences without repeats, and reorderings of them. */
module Sequences {

  function Front<T>(xs: seq<T>): (r: seq<T>)
    requires xs != []
    ensures xs == r + [xs[|xs| - 1]]
  {
    xs[..|xs| - 1]
  }

  function Last<T>(xs: seq<T>): T
    requires xs != []
  {
    xs[|xs| - 1]
  }

  lemma TakeNext<T>(xs: seq<T>, i: nat)
    requires i < |xs|
    ensures xs[..i + 1] == xs[..i] + [xs[i]]
  {
  }

  ghost predicate NoRepeats<T>(xs: seq<T>) {
    forall i, j :: 0 <= i < j < |xs| ==> xs[i] != xs[j]
  }

  lemma NoRepeatsConcat<T>(xs: seq<T>, ys: seq<T>)
    requires NoRepeats(xs) && NoRepeats(ys) && forall x :: x in xs ==> x !in ys
    ensures NoRepeats(xs + ys)
  {
    forall i, j | 0 <= i < j < |xs + ys|
      ensures (xs + ys)[i] != (xs + ys)[j]
    {
      if i < |xs| <= j {
        assert xs[i] in xs && ys[j - |xs|] in ys;
      }
    }
  }

  lemma {:induction false} NoRepeatsSize<T>(xs: seq<T>)
    requires NoRepeats(xs)
    ensures |set x | x in xs| == |xs|
  {
    if xs == [] {
      assert (set x | x in xs) == {};
    } else {
      NoRepeatsSize(xs[1..]);
      assert (set x | x in xs) == {xs[0]} + set x | x in xs[1..];
    }
  }

  function IndexOf<T(==)>(xs: seq<T>, x: T): (i: nat)
    requires x in xs
    ensures i < |xs| && xs[i] == x
  {
    if xs[0] == x then 0 else 1 + IndexOf(xs[1..], x)
  }

  /** x comes somewhere before y. */
  ghost predicate Before<T>(xs: seq<T>, x: T, y: T) {
    exists i, j :: 0 <= i < j < |xs| && xs[i] == x && xs[j] == y
  }

  /** Of two lists joined in turn: x and y are both of the first in its order, or only y is of
      the second, or both are of the second in its order. */
  ghost predicate Precedes<T>(ours: seq<T>, theirs: seq<T>, x: T, y: T) {
    if y in ours then Before(ours, x, y)
    else if x in ours then y in theirs
    else Before(theirs, x, y)
  }

  // ----- Visiting a set in some order

  ghost predicate Split<T>(all: set<T>, done: set<T>, rest: set<T>) {
    done + rest == all && done !! rest
  }

  lemma SplitNext<T>(all: set<T>, done: set<T>, rest: set<T>, x: T)
    requires Split(all, done, rest) && x in rest
    ensures Split(all, done + {x}, rest - {x}) && x in all && x !in done
  {
  }

  lemma SplitDone<T>(all: set<T>, done: set<T>)
    requires Split(all, done, {})
    ensures done == all
  {
  }

  /** The order lists all but the rest, each once. */
  ghost predicate Ordered<T(!new)>(all: set<T>, order: seq<T>, rest: set<T>) {
    rest <= all && NoRepeats(order) && forall x :: x in order <==> x in all && x !in rest
  }

  lemma OrderedNext<T(!new)>(all: set<T>, order: seq<T>, rest: set<T>, x: T)
    requires Ordered(all, order, rest) && x in rest
    ensures Ordered(all, order + [x], rest - {x})
  {
  }

  // ----- Reorderings

  /** The numbers below n, in some order. */
  ghost predicate Permutation(p: seq<nat>, n: nat) {
    |p| == n && (forall i :: 0 <= i < n ==> p[i] < n) && NoRepeats(p)
  }

  /** Two orders of the same elements differ by a permutation. */
  lemma Reordering<T>(xs: seq<T>, ys: seq<T>) returns (p: seq<nat>)
    requires NoRepeats(xs) && NoRepeats(ys) && forall x :: x in xs <==> x in ys
    ensures |xs| == |ys| && Permutation(p, |xs|) && forall i :: 0 <= i < |xs| ==> ys[p[i]] == xs[i]
  {
    NoRepeatsSize(xs);
    NoRepeatsSize(ys);
    assert (set x | x in xs) == set x | x in ys;
    p := seq(|xs|, i requires 0 <= i < |xs| => IndexOf(ys, xs[i]));
    forall i, j | 0 <= i < j < |p|
      ensures p[i] != p[j]
    {
      assert ys[p[i]] == xs[i] && ys[p[j]] == xs[j];
    }
  }
}
