/** What a betweenness can be: how large at most, and which nodes have any. */
module Scores {
  import opened Sequences
  import opened Sums
  import opened Digraphs
  import opened Betweenness
  import opened ShortestWalks

  // ----- Sums that compare

  /** A sum is at most a larger one, and equal only if all terms are. */
  lemma {:induction false} TotalAtMost<T>(xs: seq<T>, f: T -> real, g: T -> real)
    requires forall x :: x in xs ==> f(x) <= g(x)
    ensures Total(xs, f) <= Total(xs, g)
    ensures Total(xs, f) == Total(xs, g) <==> forall x :: x in xs ==> f(x) == g(x)
  {
    if xs != [] {
      assert Last(xs) in xs;
      TotalAtMost(Front(xs), f, g);
      assert forall x :: x in xs <==> x in Front(xs) || x == Last(xs);
    }
  }

  /** One for every node. */
  function Each(): nat -> real {
    (x: nat) => 1.0
  }

  /** One for every node but v. */
  function Besides(v: nat): nat -> real {
    (x: nat) => if x == v then 0.0 else 1.0
  }

  /** One for every node but s and v. */
  function BesidesBoth(s: nat, v: nat): nat -> real {
    (x: nat) => if x == v || x == s then 0.0 else 1.0
  }

  lemma {:induction false} TotalOnes(xs: seq<nat>)
    ensures Total(xs, Each()) == |xs| as real
  {
    if xs != [] {
      TotalOnes(Front(xs));
    }
  }

  lemma AllButOne(xs: seq<nat>, n: nat, v: nat)
    requires NoRepeats(xs) && |xs| == n && v in xs
    ensures Total(xs, Besides(v)) == (n - 1) as real
  {
    TotalOnes(xs);
    TotalApart(xs, Each(), Besides(v), v);
  }

  lemma OneLess(n: nat, v: nat)
    requires v < n
    ensures Total(Nodes(n), Besides(v)) == (n - 1) as real
  {
    NodesAll(n);
    AllButOne(Nodes(n), n, v);
  }

  lemma TwoLess(n: nat, s: nat, v: nat)
    requires s < n && v < n && s != v
    ensures Total(Nodes(n), BesidesBoth(s, v)) == (n - 2) as real
  {
    OneLess(n, v);
    NodesAll(n);
    TotalApart(Nodes(n), Besides(v), BesidesBoth(s, v), s);
  }

  /** The terms lie between 0 and g, and these predicates say which are g and which positive. */
  ghost predicate Ranges<T(!new)>(xs: seq<T>, f: T -> real, g: T -> real, full: T -> bool, some: T -> bool) {
    forall x :: x in xs ==> 0.0 <= f(x) <= g(x) && (f(x) == g(x) <==> full(x)) && (f(x) > 0.0 <==> some(x))
  }

  lemma TotalRanges<T(!new)>(xs: seq<T>, f: T -> real, g: T -> real, full: T -> bool, some: T -> bool)
    requires Ranges(xs, f, g, full, some)
    ensures 0.0 <= Total(xs, f) <= Total(xs, g)
    ensures Total(xs, f) == Total(xs, g) <==> forall x :: x in xs ==> full(x)
    ensures Total(xs, f) > 0.0 <==> exists x :: x in xs && some(x)
  {
    TotalAtMost(xs, f, g);
    TotalPositive(xs, f);
  }

  // ----- Shares

  lemma Subset<T>(xs: seq<T>, ys: seq<T>)
    requires NoRepeats(xs) && NoRepeats(ys) && forall x :: x in xs ==> x in ys
    ensures |xs| <= |ys|
    ensures |xs| == |ys| <==> forall y :: y in ys ==> y in xs
  {
    NoRepeatsSize(xs);
    NoRepeatsSize(ys);
    var a, b := set x | x in xs, set y | y in ys;
    assert a <= b;
    assert b == a + (b - a) && |b| == |a| + |b - a|;
    assert |b - a| == 0 <==> b - a == {};
    assert b - a == {} <==> forall y :: y in b ==> y in a;
    assert forall y :: (y in b <==> y in ys) && (y in a <==> y in xs);
  }

  /** There are walks from s to t, and every shortest one visits v. */
  ghost predicate AllVisit(g: Digraph, s: nat, v: nat, t: nat) {
    Reached(g, s, t) && forall p :: |p| == Distance(g, s, t) && IsWalk(g, s, p, t) ==> Visits(g, s, p, v)
  }

  /** Some shortest walk from s to t visits v. */
  ghost predicate SomeVisits(g: Digraph, s: nat, v: nat, t: nat) {
    Reached(g, s, t) && exists p :: |p| == Distance(g, s, t) && IsWalk(g, s, p, t) && Visits(g, s, p, v)
  }

  /** A share lies between none of the shortest walks and all of them. */
  lemma ShareRange(g: Digraph, s: nat, v: nat, t: nat)
    ensures 0.0 <= Share(g, s, v, t) <= 1.0
    ensures Share(g, s, v, t) == 1.0 <==> AllVisit(g, s, v, t)
    ensures Share(g, s, v, t) > 0.0 <==> SomeVisits(g, s, v, t)
  {
    if Reached(g, s, t) {
      var all, visiting := ShareMeaning(g, s, v, t);
      Subset(visiting, all);
      Ratio(|visiting|, |all|);
      assert (forall p :: p in all ==> p in visiting) <==> AllVisit(g, s, v, t);
      assert SomeVisits(g, s, v, t) <==> visiting != [] by {
        if visiting != [] {
          assert visiting[0] in visiting;
        }
      }
    }
  }

  lemma Ratio(n: nat, m: nat)
    requires n <= m && m > 0
    ensures var q := n as real / m as real; 0.0 <= q <= 1.0 && (q == 1.0 <==> n == m) && (q > 0.0 <==> n > 0)
  {
    var q := n as real / m as real;
    assert q * m as real == n as real;
  }

  /** A shortest walk back to its start visits nothing else. */
  lemma NoRoundTrip(g: Digraph, s: nat, v: nat)
    requires s != v
    ensures Share(g, s, v, s) == 0.0
  {
    SourceReached(g, s);
  }

  // ----- Betweenness

  /** What s adds to the betweenness of v is at most one for each other node, and that only
      if all walks there go through v. */
  lemma OtherShareRange(g: Digraph, s: nat, v: nat, t: nat)
    requires s != v
    ensures 0.0 <= OtherShares(g, s, v)(t) <= BesidesBoth(s, v)(t)
    ensures OtherShares(g, s, v)(t) == BesidesBoth(s, v)(t) <==> t == s || t == v || AllVisit(g, s, v, t)
    ensures OtherShares(g, s, v)(t) > 0.0 <==> t != v && SomeVisits(g, s, v, t)
  {
    ShareRange(g, s, v, t);
    NoRoundTrip(g, s, v);
  }

  /** If t is not s, s reaches t only through v. */
  ghost function Only(g: Digraph, s: nat, v: nat): nat -> bool {
    (t: nat) => t == s || t == v || AllVisit(g, s, v, t)
  }

  ghost function Also(g: Digraph, s: nat, v: nat): nat -> bool {
    (t: nat) => t != v && SomeVisits(g, s, v, t)
  }

  /** s reaches all other nodes, and only through v. */
  ghost predicate AllThrough(g: Digraph, s: nat, v: nat) {
    forall t: nat :: t < g.size && t != s && t != v ==> AllVisit(g, s, v, t)
  }

  /** s reaches some other node on a shortest walk through v. */
  ghost predicate SomeThrough(g: Digraph, s: nat, v: nat) {
    exists t: nat :: t < g.size && t != v && SomeVisits(g, s, v, t)
  }

  lemma DependencyRange(g: Digraph, s: nat, v: nat)
    requires s < g.size && v < g.size && s != v
    ensures 0.0 <= Dependency(g, s, v) <= (g.size - 2) as real
    ensures Dependency(g, s, v) == (g.size - 2) as real <==> AllThrough(g, s, v)
    ensures Dependency(g, s, v) > 0.0 <==> SomeThrough(g, s, v)
  {
    var ns, f, most, only, also := Nodes(g.size), OtherShares(g, s, v), BesidesBoth(s, v), Only(g, s, v), Also(g, s, v);
    TwoLess(g.size, s, v);
    assert Ranges(ns, f, most, only, also) by {
      forall t: nat | t in ns
        ensures 0.0 <= f(t) <= most(t) && (f(t) == most(t) <==> only(t)) && (f(t) > 0.0 <==> also(t))
      {
        OtherShareRange(g, s, v, t);
      }
    }
    TotalRanges(ns, f, most, only, also);
    EveryNode(g, s, v);
  }

  lemma EveryNode(g: Digraph, s: nat, v: nat)
    ensures (forall t: nat :: t in Nodes(g.size) ==> Only(g, s, v)(t)) <==> AllThrough(g, s, v)
    ensures (exists t: nat :: t in Nodes(g.size) && Also(g, s, v)(t)) <==> SomeThrough(g, s, v)
  {
    NodesAll(g.size);
    if forall t: nat :: t in Nodes(g.size) ==> Only(g, s, v)(t) {
      forall t: nat | t < g.size && t != s && t != v
        ensures AllVisit(g, s, v, t)
      {
        assert Only(g, s, v)(t);
      }
    }
    if t: nat :| t < g.size && t != v && SomeVisits(g, s, v, t) {
      assert Also(g, s, v)(t);
    }
  }

  /** Every two other nodes are joined, and only through v. */
  ghost predicate Hub(g: Digraph, v: nat) {
    forall s: nat :: s < g.size && s != v ==> AllThrough(g, s, v)
  }

  /** Some shortest walk between two other nodes visits v. */
  ghost predicate Between(g: Digraph, v: nat) {
    exists s: nat :: s < g.size && s != v && SomeThrough(g, s, v)
  }

  function Most(n: nat, v: nat): nat -> real {
    (s: nat) => if s == v then 0.0 else (n - 2) as real
  }

  /** The number of ordered pairs of other nodes, of n in all. */
  function Pairs(n: nat): real {
    (n - 1) as real * (n - 2) as real
  }

  lemma PairsEitherWay(n: nat)
    ensures Pairs(n) == Times((n - 2) as real, (n - 1) as real)
  {
  }

  lemma MostInAll(n: nat, v: nat)
    requires v < n
    ensures Total(Nodes(n), Most(n, v)) == Times((n - 2) as real, (n - 1) as real)
  {
    var c := (n - 2) as real;
    forall s: nat
      ensures Most(n, v)(s) == Times(c, Besides(v)(s))
    {
      assert Times(c, 1.0) == c && Times(c, 0.0) == 0.0;
    }
    TotalScale(Nodes(n), c, Besides(v), Most(n, v));
    OneLess(n, v);
  }

  lemma MostPairs(n: nat, v: nat)
    requires v < n
    ensures Total(Nodes(n), Most(n, v)) == Pairs(n)
  {
    MostInAll(n, v);
    PairsEitherWay(n);
  }

  ghost function OnlyFrom(g: Digraph, v: nat): nat -> bool {
    (s: nat) => s == v || AllThrough(g, s, v)
  }

  ghost function AlsoFrom(g: Digraph, v: nat): nat -> bool {
    (s: nat) => s != v && SomeThrough(g, s, v)
  }

  /** The betweenness of a node is at most the number of pairs of other nodes, and that only
      of a hub; it is positive exactly if some shortest walk between two others visits it. */
  lemma BetweennessRange(g: Digraph, v: nat)
    requires v < g.size
    ensures 0.0 <= BetweennessOf(g, v) <= Pairs(g.size)
    ensures BetweennessOf(g, v) == Pairs(g.size) <==> Hub(g, v)
    ensures BetweennessOf(g, v) > 0.0 <==> Between(g, v)
  {
    var ns, f, most, only, also := Nodes(g.size), DependencyOn(g, v), Most(g.size, v), OnlyFrom(g, v), AlsoFrom(g, v);
    MostPairs(g.size, v);
    NodesAll(g.size);
    assert Ranges(ns, f, most, only, also) by {
      forall s: nat | s in ns
        ensures 0.0 <= f(s) <= most(s) && (f(s) == most(s) <==> only(s)) && (f(s) > 0.0 <==> also(s))
      {
        TermRange(g, s, v);
      }
    }
    TotalRanges(ns, f, most, only, also);
    EverySource(g, v);
  }

  lemma TermRange(g: Digraph, s: nat, v: nat)
    requires s < g.size && v < g.size
    ensures 0.0 <= DependencyOn(g, v)(s) <= Most(g.size, v)(s)
    ensures DependencyOn(g, v)(s) == Most(g.size, v)(s) <==> OnlyFrom(g, v)(s)
    ensures DependencyOn(g, v)(s) > 0.0 <==> AlsoFrom(g, v)(s)
  {
    if s != v {
      DependencyRange(g, s, v);
    }
  }

  lemma EverySource(g: Digraph, v: nat)
    ensures (forall s: nat :: s in Nodes(g.size) ==> OnlyFrom(g, v)(s)) <==> Hub(g, v)
    ensures (exists s: nat :: s in Nodes(g.size) && AlsoFrom(g, v)(s)) <==> Between(g, v)
  {
    NodesAll(g.size);
    if forall s: nat :: s in Nodes(g.size) ==> OnlyFrom(g, v)(s) {
      forall s: nat | s < g.size && s != v
        ensures AllThrough(g, s, v)
      {
        assert OnlyFrom(g, v)(s);
      }
    }
    if s: nat :| s < g.size && s != v && SomeThrough(g, s, v) {
      assert AlsoFrom(g, v)(s);
    }
  }

  /** What is no node of the graph has no betweenness. */
  lemma OutsideUnscored(g: Digraph, v: nat)
    requires g.Valid() && v >= g.size
    ensures BetweennessOf(g, v) == 0.0
  {
    forall s | s in Nodes(g.size)
      ensures DependencyOn(g, v)(s) == 0.0
    {
      NodesAll(g.size);
      forall t | t in Nodes(g.size)
        ensures OtherShares(g, s, v)(t) == 0.0
      {
        ShareRange(g, s, v, t);
        OutsideUnvisited(g, s, v, t);
      }
      TotalZero(Nodes(g.size), OtherShares(g, s, v));
    }
    TotalZero(Nodes(g.size), DependencyOn(g, v));
  }

  lemma OutsideUnvisited(g: Digraph, s: nat, v: nat, t: nat)
    requires g.Valid() && v >= g.size && s < g.size
    ensures !SomeVisits(g, s, v, t)
  {
  }

  // ----- A star

  /** Each other node has an edge to v and one from it, and there are no other edges. */
  ghost predicate Star(g: Digraph, v: nat) {
    && v < g.size && (forall e :: e in g.edges ==> e.from == v || e.to == v)
    && forall s: nat :: s < g.size && s != v ==> Edge(s, v) in g.edges && Edge(v, s) in g.edges
  }

  /** The centre of a star is a hub. */
  lemma StarHub(g: Digraph, v: nat)
    requires Star(g, v)
    ensures Hub(g, v)
  {
    forall s: nat, t: nat | s < g.size && t < g.size && s != t && s != v && t != v
      ensures AllVisit(g, s, v, t)
    {
      ThroughCentre(g, s, v, t);
    }
  }

  lemma ThroughCentre(g: Digraph, s: nat, v: nat, t: nat)
    requires Star(g, v) && s < g.size && t < g.size && s != t && s != v && t != v
    ensures AllVisit(g, s, v, t)
  {
    assert Edge(s, v) in g.edges && Edge(v, t) in g.edges;
    var i :| 0 <= i < |g.edges| && g.edges[i] == Edge(s, v);
    var j :| 0 <= j < |g.edges| && g.edges[j] == Edge(v, t);
    var q := [i, j];
    assert Front(q) == [i] && Front([i]) == [];
    assert IsWalk(g, s, [i], v);
    WalkIsReached(g, s, q, t);
    forall p | |p| == Distance(g, s, t) && IsWalk(g, s, p, t)
      ensures Visits(g, s, p, v)
    {
      ShortWalk(g, s, v, t, p);
    }
  }

  /** Of at most two edges, the first ends at the centre. */
  lemma ShortWalk(g: Digraph, s: nat, v: nat, t: nat, p: seq<nat>)
    requires Star(g, v) && s != t && s != v && t != v && |p| <= 2 && IsWalk(g, s, p, t)
    ensures Visits(g, s, p, v)
  {
    assert p != [];
    var e := g.edges[Last(p)];
    assert e in g.edges;
    assert e.from == v;
    assert IsWalk(g, s, Front(p), v);
    assert p[..|p| - 1] == Front(p);
  }
}
