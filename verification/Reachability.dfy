/** Directed graphs given by successor lists, and the paths in them. A node without an
    entry is one whose successors cannot be read (an object missing from a store). */
module Reachability {

  type Graph<T(!new)> = map<T, seq<T>>

  predicate Edge<T(!new, ==)>(g: Graph<T>, x: T, y: T) {
    x in g && y in g[x]
  }

  ghost predicate IsPath<T(!new)>(g: Graph<T>, p: seq<T>) {
    && p != []
    && forall i :: 0 <= i < |p| - 1 ==> Edge(g, p[i], p[i + 1])
  }

  ghost predicate PathBetween<T(!new)>(g: Graph<T>, p: seq<T>, x: T, y: T) {
    IsPath(g, p) && p[0] == x && p[|p| - 1] == y
  }

  /** y is x or can be reached from x along edges. */
  ghost predicate Reaches<T(!new)>(g: Graph<T>, x: T, y: T) {
    exists p :: PathBetween(g, p, x, y)
  }

  ghost predicate ClosedUnder<T(!new)>(g: Graph<T>, s: set<T>) {
    forall x, y :: x in s && Edge(g, x, y) ==> y in s
  }

  lemma ReachesSelf<T(!new)>(g: Graph<T>, x: T)
    ensures Reaches(g, x, x)
  {
    assert PathBetween(g, [x], x, x);
  }

  lemma ReachesTransitive<T(!new)>(g: Graph<T>, x: T, y: T, z: T)
    requires Reaches(g, x, y) && Reaches(g, y, z)
    ensures Reaches(g, x, z)
  {
    var p :| PathBetween(g, p, x, y);
    var q :| PathBetween(g, q, y, z);
    var r := p + q[1..];
    forall i | 0 <= i < |r| - 1
      ensures Edge(g, r[i], r[i + 1])
    {
      if i >= |p| - 1 {
        assert r[i] == q[i - (|p| - 1)] && r[i + 1] == q[i + 1 - (|p| - 1)];
      }
    }
    assert PathBetween(g, r, x, z);
  }

  lemma ReachesByEdge<T(!new)>(g: Graph<T>, x: T, y: T)
    requires Edge(g, x, y)
    ensures Reaches(g, x, y)
  {
    assert PathBetween(g, [x, y], x, y);
  }

  lemma ReachesEdgeThen<T(!new)>(g: Graph<T>, x: T, y: T, z: T)
    requires Edge(g, x, y) && Reaches(g, y, z)
    ensures Reaches(g, x, z)
  {
    ReachesByEdge(g, x, y);
    ReachesTransitive(g, x, y, z);
  }

  lemma ReachesThenEdge<T(!new)>(g: Graph<T>, x: T, y: T, z: T)
    requires Reaches(g, x, y) && Edge(g, y, z)
    ensures Reaches(g, x, z)
  {
    ReachesByEdge(g, y, z);
    ReachesTransitive(g, x, y, z);
  }

  /** A nontrivial path leaves its start through one of the start's successors. */
  lemma FirstStep<T(!new)>(g: Graph<T>, x: T, z: T) returns (y: T)
    requires Reaches(g, x, z) && x != z
    ensures Edge(g, x, y) && Reaches(g, y, z)
  {
    var p :| PathBetween(g, p, x, z);
    y := p[1];
    assert PathBetween(g, p[1..], y, z);
  }

  lemma {:induction false} ClosedPath<T(!new)>(g: Graph<T>, s: set<T>, p: seq<T>)
    requires ClosedUnder(g, s) && IsPath(g, p) && p[0] in s
    ensures p[|p| - 1] in s
    decreases |p|
  {
    if |p| > 1 {
      assert Edge(g, p[0], p[1]);
      ClosedPath(g, s, p[1..]);
    }
  }

  /** A set closed under edges keeps everything reachable from its members. */
  lemma ClosedReaches<T(!new)>(g: Graph<T>, s: set<T>, x: T, y: T)
    requires ClosedUnder(g, s) && x in s && Reaches(g, x, y)
    ensures y in s
  {
    var p :| PathBetween(g, p, x, y);
    ClosedPath(g, s, p);
  }

  /** g' answers every question g answers, the same way. */
  ghost predicate Extends<T(!new)>(g: Graph<T>, g': Graph<T>) {
    forall x :: x in g ==> x in g' && g'[x] == g[x]
  }

  lemma ExtendsReaches<T(!new)>(g: Graph<T>, g': Graph<T>, x: T, y: T)
    requires Extends(g, g') && Reaches(g, x, y)
    ensures Reaches(g', x, y)
  {
    var p :| PathBetween(g, p, x, y);
    forall i | 0 <= i < |p| - 1
      ensures Edge(g', p[i], p[i + 1])
    {
      assert Edge(g, p[i], p[i + 1]);
    }
    assert PathBetween(g', p, x, y);
  }

  /** Every successor of a known node is known. */
  ghost predicate Complete<T(!new)>(g: Graph<T>) {
    ClosedUnder(g, g.Keys)
  }

  lemma {:induction false} ExtendsPathBack<T(!new)>(g: Graph<T>, g': Graph<T>, p: seq<T>)
    requires Extends(g, g') && Complete(g) && IsPath(g', p) && p[0] in g
    ensures IsPath(g, p) && p[|p| - 1] in g
    decreases |p|
  {
    if |p| > 1 {
      assert Edge(g', p[0], p[1]);
      assert Edge(g, p[0], p[1]);
      ExtendsPathBack(g, g', p[1..]);
      forall i | 0 <= i < |p| - 1
        ensures Edge(g, p[i], p[i + 1])
      {
        if i > 0 {
          assert Edge(g, p[1..][i - 1], p[1..][i]);
        }
      }
    }
  }

  /** Growing a complete graph reveals nothing new about its old nodes. */
  lemma ExtendsReachesBack<T(!new)>(g: Graph<T>, g': Graph<T>, x: T, y: T)
    requires Extends(g, g') && Complete(g) && x in g && Reaches(g', x, y)
    ensures Reaches(g, x, y) && y in g
  {
    var p :| PathBetween(g', p, x, y);
    ExtendsPathBack(g, g', p);
    assert PathBetween(g, p, x, y);
  }
}
