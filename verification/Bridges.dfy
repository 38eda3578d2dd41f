/** Bridge nodes: the back-propagation of dependencies, and the ranking by betweenness. */
module Bridges {
  import opened Sequences
  import opened Sums
  import opened Digraphs
  import opened Betweenness
  import opened BridgeSearch
  import opened Scores

  // ----- One source

  /** What v receives of the nodes taken off the stack. */
  ghost function CreditsBeyond(g: Digraph, s: nat, v: nat, rest: seq<nat>): nat -> real {
    (w: nat) => if w in rest then 0.0 else Credits(g, s, v)(w)
  }

  ghost predicate DeltaAt(g: Digraph, s: nat, rest: seq<nat>, delta: map<nat, real>, v: nat) {
    Get(delta, v) == if Reached(g, s, v) then Total(Outgoing(g.edges, v), CreditsBeyond(g, s, v, rest)) else 0.0
  }

  ghost predicate Propagated(g: Digraph, s: nat, rest: seq<nat>, delta: map<nat, real>) {
    forall v: nat {:trigger DeltaAt(g, s, rest, delta, v)} :: DeltaAt(g, s, rest, delta, v)
  }

  lemma NothingPropagated(g: Digraph, s: nat, stack: seq<nat>)
    requires forall x: nat :: x in stack <==> Reached(g, s, x)
    ensures Propagated(g, s, stack, map[])
  {
    forall v: nat
      ensures DeltaAt(g, s, stack, map[], v)
    {
      var f := CreditsBeyond(g, s, v, stack);
      forall w | w in Outgoing(g.edges, v)
        ensures f(w) == 0.0
      {
        if w in stack {
          assert f(w) == 0.0;
        } else {
          assert !Follows(g, s, v, w);
          assert Credits(g, s, v)(w) == 0.0;
        }
      }
      TotalZero(Outgoing(g.edges, v), CreditsBeyond(g, s, v, stack));
    }
  }

  /** What is below a node on the stack does not follow it. */
  lemma NotAfter(g: Digraph, s: nat, stack: seq<nat>, j: nat, i: nat)
    requires j <= i < |stack| && Nearest(g, s, stack, j, i)
    ensures !Follows(g, s, stack[i], stack[j])
  {
  }

  /** The delta of the node taken off the stack is its dependency. */
  lemma LastIsFinal(g: Digraph, s: nat, stack: seq<nat>, sigma: map<nat, real>, preds: Predecessors, i: nat,
      delta: map<nat, real>)
    requires g.Valid() && Searched(g, s, stack, sigma, preds) && i < |stack|
    requires Propagated(g, s, stack[..i + 1], delta)
    ensures Reached(g, s, stack[i]) && Get(delta, stack[i]) == Dependency(g, s, stack[i])
  {
    var w, rest := stack[i], stack[..i + 1];
    assert Nearest(g, s, stack, i, i) && DeltaAt(g, s, rest, delta, w);
    forall x | x in Outgoing(g.edges, w)
      ensures CreditsBeyond(g, s, w, rest)(x) == Credits(g, s, w)(x)
    {
      if x in rest {
        var j :| 0 <= j < |rest| && rest[j] == x;
        NotAfter(g, s, stack, j, i);
      }
    }
    TotalSame(Outgoing(g.edges, w), CreditsBeyond(g, s, w, rest), Credits(g, s, w));
    DependencyStep(g, s, w);
  }

  /** delta' adds to delta the credit of w for each of the predecessors ps. */
  ghost predicate Received(g: Digraph, s: nat, w: nat, ps: seq<nat>, delta: map<nat, real>, delta': map<nat, real>) {
    forall v: nat {:trigger ReceivedAt(g, s, w, ps, delta, delta', v)} :: ReceivedAt(g, s, w, ps, delta, delta', v)
  }

  ghost predicate ReceivedAt(g: Digraph, s: nat, w: nat, ps: seq<nat>, delta: map<nat, real>, delta': map<nat, real>,
      v: nat)
  {
    Get(delta', v) == Get(delta, v) + Copies(Count(ps, v), Credits(g, s, v)(w))
  }

  lemma ReceivedNext(g: Digraph, s: nat, w: nat, ps: seq<nat>, v: nat, delta: map<nat, real>, delta': map<nat, real>)
    requires Received(g, s, w, ps, delta, delta')
    ensures Received(g, s, w, ps + [v], delta, delta'[v := Get(delta', v) + Credits(g, s, v)(w)])
  {
    var ps', delta'' := ps + [v], delta'[v := Get(delta', v) + Credits(g, s, v)(w)];
    forall x: nat
      ensures ReceivedAt(g, s, w, ps', delta, delta'', x)
    {
      assert ReceivedAt(g, s, w, ps, delta, delta', x);
      CountMore(ps, v, x);
    }
  }

  lemma {:induction false} CopiesOfZero(n: nat)
    ensures Copies(n, 0.0) == 0.0
  {
    if n > 0 {
      CopiesOfZero(n - 1);
    }
  }

  /** Once all predecessors of w have received their credit, w is accounted for. */
  lemma PropagatedNext(g: Digraph, s: nat, stack: seq<nat>, sigma: map<nat, real>, preds: Predecessors, rest: seq<nat>,
      w: nat, delta: map<nat, real>, delta': map<nat, real>)
    requires Searched(g, s, stack, sigma, preds) && w !in rest && Reached(g, s, w)
    requires Propagated(g, s, rest + [w], delta) && Received(g, s, w, PredsOf(preds, w), delta, delta')
    ensures Propagated(g, s, rest, delta')
  {
    forall v: nat
      ensures DeltaAt(g, s, rest, delta', v)
    {
      assert DeltaAt(g, s, rest + [w], delta, v) && ReceivedAt(g, s, w, PredsOf(preds, w), delta, delta', v);
      assert LedTo(g, s, preds, v, w);
      PropagatedAt(g, s, rest, w, v, Count(PredsOf(preds, w), v));
    }
  }

  lemma PropagatedAt(g: Digraph, s: nat, rest: seq<nat>, w: nat, v: nat, n: nat)
    requires w !in rest && n == if Follows(g, s, v, w) then Count(Outgoing(g.edges, v), w) else 0
    ensures Total(Outgoing(g.edges, v), CreditsBeyond(g, s, v, rest))
         == Total(Outgoing(g.edges, v), CreditsBeyond(g, s, v, rest + [w])) + Copies(n, Credits(g, s, v)(w))
  {
    var before, after := CreditsBeyond(g, s, v, rest + [w]), CreditsBeyond(g, s, v, rest);
    TotalChange(Outgoing(g.edges, v), before, after, w);
    CopiesOfZero(Count(Outgoing(g.edges, v), w));
  }

  /** Credits the predecessors of w with their parts of its dependency. */
  method CreditPredecessors(g: Digraph, s: nat, stack: seq<nat>, sigma: map<nat, real>, preds: Predecessors, w: nat,
      delta: map<nat, real>)
    returns (delta': map<nat, real>)
    requires Searched(g, s, stack, sigma, preds) && Reached(g, s, w) && Get(delta, w) == Dependency(g, s, w)
    ensures Received(g, s, w, PredsOf(preds, w), delta, delta') && Get(delta', w) == Dependency(g, s, w)
  {
    delta' := delta;
    var ps := PredsOf(preds, w);
    assert CountedAt(g, s, stack, sigma, w);
    var i := 0;
    assert ps[..0] == [];
    while i < |ps|
      invariant 0 <= i <= |ps|
      invariant Received(g, s, w, ps[..i], delta, delta') && Get(delta', w) == Dependency(g, s, w)
    {
      var v := ps[i];
      PredecessorCredit(g, s, stack, sigma, preds, v, w);
      ReceivedNext(g, s, w, ps[..i], v, delta, delta');
      delta' := delta'[v := Get(delta', v) + Credit(Get(sigma, v), sigma[w], Get(delta', w))];
      TakeNext(ps, i);
      i := i + 1;
    }
    assert ps[..i] == ps;
  }

  lemma PredecessorCredit(g: Digraph, s: nat, stack: seq<nat>, sigma: map<nat, real>, preds: Predecessors, v: nat,
      w: nat)
    requires Searched(g, s, stack, sigma, preds) && Reached(g, s, w) && v in PredsOf(preds, w)
    ensures v != w && w in sigma && sigma[w] > 0.0
    ensures Credits(g, s, v)(w) == Credit(Get(sigma, v), sigma[w], Dependency(g, s, w))
  {
    CountPositive(PredsOf(preds, w), v);
    assert LedTo(g, s, preds, v, w) && CountedAt(g, s, stack, sigma, v) && CountedAt(g, s, stack, sigma, w);
    assert Follows(g, s, v, w);
    ShortestPositive(g, s, w);
  }

  // ----- Centrality

  ghost predicate CreditedAt(g: Digraph, s: nat, stack: seq<nat>, rest: seq<nat>, c: map<nat, real>, c': map<nat, real>,
      v: nat)
  {
    Get(c', v) == Get(c, v) + if v in stack && v !in rest && v != s then Dependency(g, s, v) else 0.0
  }

  ghost predicate Credited(g: Digraph, s: nat, stack: seq<nat>, rest: seq<nat>, c: map<nat, real>, c': map<nat, real>) {
    forall v: nat {:trigger CreditedAt(g, s, stack, rest, c, c', v)} :: CreditedAt(g, s, stack, rest, c, c', v)
  }

  lemma CreditedNext(g: Digraph, s: nat, stack: seq<nat>, rest: seq<nat>, w: nat, c: map<nat, real>, c': map<nat, real>)
    requires Credited(g, s, stack, rest + [w], c, c') && w in stack && w !in rest
    ensures Credited(g, s, stack, rest, c, if w == s then c' else c'[w := Get(c', w) + Dependency(g, s, w)])
  {
    var c'' := if w == s then c' else c'[w := Get(c', w) + Dependency(g, s, w)];
    forall v: nat
      ensures CreditedAt(g, s, stack, rest, c, c'', v)
    {
      assert CreditedAt(g, s, stack, rest + [w], c, c', v);
    }
  }

  /** c' adds to c what the source s contributes to the betweenness of each node. */
  ghost predicate Contributed(g: Digraph, s: nat, c: map<nat, real>, c': map<nat, real>) {
    forall v: nat {:trigger Get(c', v)} :: Get(c', v) == Get(c, v) + DependencyOn(g, v)(s)
  }

  lemma NoDependency(g: Digraph, s: nat, v: nat)
    requires !Reached(g, s, v)
    ensures Dependency(g, s, v) == 0.0
  {
    TotalZero(Nodes(g.size), OtherShares(g, s, v));
  }

  lemma AllCredited(g: Digraph, s: nat, stack: seq<nat>, c: map<nat, real>, c': map<nat, real>)
    requires Credited(g, s, stack, [], c, c') && forall x: nat :: x in stack <==> Reached(g, s, x)
    ensures Contributed(g, s, c, c')
  {
    forall v: nat
      ensures Get(c', v) == Get(c, v) + DependencyOn(g, v)(s)
    {
      assert CreditedAt(g, s, stack, [], c, c', v);
      if !Reached(g, s, v) {
        NoDependency(g, s, v);
      }
    }
  }

  lemma StackFront(g: Digraph, s: nat, stack: seq<nat>, sigma: map<nat, real>, preds: Predecessors, i: nat)
    requires Searched(g, s, stack, sigma, preds) && i < |stack|
    ensures stack[..i + 1] == stack[..i] + [stack[i]] && stack[i] !in stack[..i] && stack[i] in stack
  {
  }

  lemma AllPropagated(g: Digraph, s: nat, delta: map<nat, real>)
    requires g.Valid() && Propagated(g, s, [], delta)
    ensures forall v: nat {:trigger Get(delta, v)} :: Reached(g, s, v) ==> Get(delta, v) == Dependency(g, s, v)
  {
    forall v: nat | Reached(g, s, v)
      ensures Get(delta, v) == Dependency(g, s, v)
    {
      assert DeltaAt(g, s, [], delta, v);
      TotalSame(Outgoing(g.edges, v), CreditsBeyond(g, s, v, []), Credits(g, s, v));
      DependencyStep(g, s, v);
    }
  }

  lemma {:induction false} TotalOnes(xs: seq<nat>, f: nat -> real)
    requires forall x :: f(x) == 1.0
    ensures Total(xs, f) == |xs| as real
  {
    if xs != [] {
      TotalOnes(Front(xs), f);
    }
  }

  /** The dependency on the source itself counts the other nodes reached. */
  lemma SourceDelta(g: Digraph, s: nat, stack: seq<nat>, sigma: map<nat, real>, preds: Predecessors)
    requires Searched(g, s, stack, sigma, preds)
    ensures Reached(g, s, s) && Dependency(g, s, s) == |stack| as real - 1.0
  {
    SourceReached(g, s);
    SourceDependency(g, s);
    NodesAll(g.size);
    var ns, keep, one := Nodes(g.size), (x: nat) => Reached(g, s, x), (x: nat) => 1.0;
    var other := (x: nat) => if x == s then 0.0 else 1.0;
    forall x: nat
      ensures Count(stack, x) == if keep(x) then Count(ns, x) else 0
    {
      OccursOnce(stack, x);
      OccursOnce(ns, x);
      assert CountedAt(g, s, stack, sigma, x);
    }
    TotalFiltered(ns, stack, keep, other, OtherReached(g, s));
    TotalApart(stack, one, other, s);
    TotalOnes(stack, one);
  }

  /** Takes the nodes off the stack, furthest first. Each node's delta ends as its dependency
      and the source's as the number of other nodes reached. */
  method BackPropagate(g: Digraph, s: nat, stack: seq<nat>, sigma: map<nat, real>, preds: Predecessors,
      centrality: map<nat, real>)
    returns (delta: map<nat, real>, centrality': map<nat, real>)
    requires g.Valid() && Searched(g, s, stack, sigma, preds)
    ensures Contributed(g, s, centrality, centrality')
    ensures forall v: nat {:trigger Get(delta, v)} :: Reached(g, s, v) ==> Get(delta, v) == Dependency(g, s, v)
    ensures Get(delta, s) == |stack| as real - 1.0
  {
    delta, centrality' := map[], centrality;
    var i := |stack|;
    assert stack[..i] == stack;
    NothingPropagated(g, s, stack);
    while i > 0
      invariant 0 <= i <= |stack|
      invariant Propagated(g, s, stack[..i], delta) && Credited(g, s, stack, stack[..i], centrality, centrality')
    {
      i := i - 1;
      var w := stack[i];
      LastIsFinal(g, s, stack, sigma, preds, i, delta);
      StackFront(g, s, stack, sigma, preds, i);
      var delta' := CreditPredecessors(g, s, stack, sigma, preds, w, delta);
      PropagatedNext(g, s, stack, sigma, preds, stack[..i], w, delta, delta');
      CreditedNext(g, s, stack, stack[..i], w, centrality, centrality');
      if w != s {
        centrality' := centrality'[w := Get(centrality', w) + Get(delta', w)];
      }
      delta := delta';
    }
    AllCredited(g, s, stack, centrality, centrality');
    AllPropagated(g, s, delta);
    SourceDelta(g, s, stack, sigma, preds);
  }

  // ----- All sources

  /** The centrality of every node after the first n sources. */
  ghost predicate SummedOver(g: Digraph, n: nat, c: map<nat, real>)
    requires n <= g.size
  {
    forall v: nat {:trigger Get(c, v)} :: Get(c, v) == Total(Nodes(g.size)[..n], DependencyOn(g, v))
  }

  lemma SummedNext(g: Digraph, n: nat, c: map<nat, real>, c': map<nat, real>)
    requires n < g.size && SummedOver(g, n, c) && Contributed(g, n, c, c')
    ensures SummedOver(g, n + 1, c')
  {
    TakeNext(Nodes(g.size), n);
    forall v: nat
      ensures Get(c', v) == Total(Nodes(g.size)[..n + 1], DependencyOn(g, v))
    {
      TotalMore(Nodes(g.size)[..n], n, DependencyOn(g, v));
    }
  }

  /** The betweenness of every node. */
  method Centralities(g: Digraph) returns (centrality: map<nat, real>)
    requires g.Valid()
    ensures forall v: nat {:trigger Get(centrality, v)} :: Get(centrality, v) == BetweennessOf(g, v)
  {
    centrality := map[];
    var s := 0;
    assert Nodes(g.size)[..0] == [];
    while s < g.size
      invariant 0 <= s <= g.size
      invariant SummedOver(g, s, centrality)
    {
      var stack, sigma, preds := Search(g, s);
      var delta, more := BackPropagate(g, s, stack, sigma, preds, centrality);
      SummedNext(g, s, centrality, more);
      centrality := more;
      s := s + 1;
    }
    assert Nodes(g.size)[..s] == Nodes(g.size);
  }

  // ----- Ranking

  /** A node and its score. */
  type Bridge = (nat, real)

  ghost predicate Descending(bs: seq<Bridge>) {
    forall i, j :: 0 <= i < j < |bs| ==> bs[i].1 >= bs[j].1
  }

  ghost predicate DistinctNodes(bs: seq<Bridge>) {
    forall i, j :: 0 <= i < j < |bs| ==> bs[i].0 != bs[j].0
  }

  function InsertBridge(bs: seq<Bridge>, b: Bridge): seq<Bridge> {
    if bs == [] || Last(bs).1 >= b.1 then bs + [b] else InsertBridge(Front(bs), b) + [Last(bs)]
  }

  /** The stable sort by descending score. */
  function SortBridges(bs: seq<Bridge>): seq<Bridge> {
    if bs == [] then [] else InsertBridge(SortBridges(Front(bs)), Last(bs))
  }

  lemma {:induction false} InsertMeaning(bs: seq<Bridge>, b: Bridge)
    requires Descending(bs)
    ensures Descending(InsertBridge(bs, b)) && |InsertBridge(bs, b)| == |bs| + 1
    ensures forall x :: x in InsertBridge(bs, b) <==> x in bs || x == b
  {
    if bs != [] && !(Last(bs).1 >= b.1) {
      InsertMeaning(Front(bs), b);
      assert forall x :: x in InsertBridge(Front(bs), b) ==> x.1 >= Last(bs).1;
    }
  }

  lemma {:induction false} InsertDistinct(bs: seq<Bridge>, b: Bridge)
    requires Descending(bs) && DistinctNodes(bs) && forall x :: x in bs ==> x.0 != b.0
    ensures DistinctNodes(InsertBridge(bs, b))
  {
    if bs != [] && !(Last(bs).1 >= b.1) {
      FrontApart(bs);
      InsertDistinct(Front(bs), b);
      InsertMeaning(Front(bs), b);
      assert Last(bs) in bs;
      AppendDistinct(InsertBridge(Front(bs), b), Last(bs));
    } else {
      AppendDistinct(bs, b);
    }
  }

  lemma FrontApart(bs: seq<Bridge>)
    requires DistinctNodes(bs) && bs != []
    ensures DistinctNodes(Front(bs)) && forall x :: x in Front(bs) ==> x.0 != Last(bs).0
  {
    forall x | x in Front(bs)
      ensures x.0 != Last(bs).0
    {
      var i :| 0 <= i < |Front(bs)| && Front(bs)[i] == x;
      assert bs[i] == x;
    }
  }

  lemma AppendDistinct(bs: seq<Bridge>, b: Bridge)
    requires DistinctNodes(bs) && forall x :: x in bs ==> x.0 != b.0
    ensures DistinctNodes(bs + [b])
  {
  }

  lemma {:induction false} SortMeaning(bs: seq<Bridge>)
    requires DistinctNodes(bs)
    ensures Descending(SortBridges(bs)) && DistinctNodes(SortBridges(bs)) && |SortBridges(bs)| == |bs|
    ensures forall x :: x in SortBridges(bs) <==> x in bs
  {
    if bs != [] {
      SortMeaning(Front(bs));
      InsertMeaning(SortBridges(Front(bs)), Last(bs));
      InsertDistinct(SortBridges(Front(bs)), Last(bs));
    }
  }

  function Norm(n: nat): real {
    if n > 2 then 1.0 / ((n - 1) as real * (n - 2) as real) else 1.0
  }

  ghost function Score(g: Digraph, v: nat): real {
    BetweennessOf(g, v) * Norm(g.size)
  }

  lemma NormPositive(n: nat, c: real)
    ensures Norm(n) > 0.0 && (c > 0.0 <==> c * Norm(n) > 0.0)
  {
    if n > 2 {
      assert (n - 1) as real * (n - 2) as real > 0.0;
    }
  }

  ghost predicate IsFraction(x: real) {
    0.0 <= x <= 1.0
  }

  /** A score is the part of all pairs of other nodes that the node lies between. */
  lemma ScoreRange(g: Digraph, v: nat)
    requires v < g.size
    ensures IsFraction(Score(g, v))
  {
    BetweennessRange(g, v);
    NormRange(g.size, BetweennessOf(g, v));
  }

  /** A node has a score exactly if it lies on some shortest walk between two others. */
  lemma ScoredBetween(g: Digraph, v: nat)
    requires v < g.size
    ensures Score(g, v) > 0.0 <==> Between(g, v)
  {
    BetweennessRange(g, v);
    NormPositive(g.size, BetweennessOf(g, v));
  }

  /** Times the number of pairs, a score is the betweenness. */
  lemma ScoreOfPairs(g: Digraph, v: nat)
    requires v < g.size && g.size > 2
    ensures Times(Pairs(g.size), Score(g, v)) == BetweennessOf(g, v)
  {
    NormUndone(g.size, BetweennessOf(g, v));
  }

  /** Of two nodes or fewer none lies between others. */
  lemma FewUnscored(g: Digraph, v: nat)
    requires v < g.size <= 2
    ensures BetweennessOf(g, v) == 0.0
  {
    BetweennessRange(g, v);
    assert Pairs(g.size) == 0.0;
  }

  /** A score of one is that of a hub, on every way between any two others. */
  lemma HubScoresOne(g: Digraph, v: nat)
    requires v < g.size && g.size > 2
    ensures Score(g, v) == 1.0 <==> Hub(g, v)
  {
    var full := Hub(g, v);
    BetweennessRange(g, v);
    NormOne(g.size, BetweennessOf(g, v), full);
  }

  lemma NormRange(n: nat, c: real)
    requires n > 0 && 0.0 <= c <= Pairs(n)
    ensures IsFraction(c * Norm(n))
  {
    if n > 2 {
      assert Pairs(n) > 0.0;
      PartOfAll(c, Pairs(n));
    }
  }

  lemma NormUndone(n: nat, c: real)
    requires n > 2
    ensures Times(Pairs(n), c * Norm(n)) == c
  {
    assert Pairs(n) > 0.0;
    OverAndTimes(c, Pairs(n));
  }

  lemma NormOne(n: nat, c: real, full: bool)
    requires n > 2 && 0.0 <= c <= Pairs(n) && (c == Pairs(n) <==> full)
    ensures c * Norm(n) == 1.0 <==> full
  {
    assert Pairs(n) > 0.0;
    PartOfAll(c, Pairs(n));
  }

  lemma PartOfAll(c: real, p: real)
    requires 0.0 <= c <= p && p > 0.0
    ensures var score := c * (1.0 / p); 0.0 <= score <= 1.0 && (score == 1.0 <==> c == p)
  {
    OverAndTimes(c, p);
  }

  lemma OverAndTimes(c: real, p: real)
    requires p != 0.0
    ensures p * (c * (1.0 / p)) == c
  {
    var q := 1.0 / p;
    assert q * p == 1.0;
    assert p * (c * q) == c * (q * p);
  }

  /** The centre of a star of more than two nodes scores one. */
  lemma StarScoresOne(g: Digraph, v: nat)
    requires Star(g, v) && g.size > 2
    ensures Score(g, v) == 1.0
  {
    StarHub(g, v);
    HubScoresOne(g, v);
  }

  /** The scored nodes among those done. */
  ghost predicate Scored(g: Digraph, done: set<nat>, bs: seq<Bridge>) {
    DistinctNodes(bs) && forall b: Bridge :: b in bs <==> b.0 in done && b.1 == Score(g, b.0) && b.1 > 0.0
  }

  lemma ScoredNext(g: Digraph, done: set<nat>, bs: seq<Bridge>, v: nat, c: real)
    requires Scored(g, done, bs) && v !in done && c == BetweennessOf(g, v)
    ensures Scored(g, done + {v}, if c > 0.0 then bs + [(v, c * Norm(g.size))] else bs)
  {
    NormPositive(g.size, c);
    var b: Bridge := (v, c * Norm(g.size));
    assert b.1 == Score(g, v);
    assert forall x: Bridge :: x in bs + [b] <==> x in bs || x == b;
    assert forall i :: 0 <= i < |bs| ==> bs[i] in bs;
  }

  /** The nodes of positive betweenness with their scores, in no particular order. */
  method CollectBridges(g: Digraph, centrality: map<nat, real>) returns (bs: seq<Bridge>)
    requires forall v: nat {:trigger Get(centrality, v)} :: Get(centrality, v) == BetweennessOf(g, v)
    ensures Scored(g, centrality.Keys, bs)
  {
    bs := [];
    var nodes := centrality.Keys;
    ghost var done: set<nat> := {};
    while nodes != {}
      invariant done + nodes == centrality.Keys && done !! nodes
      invariant Scored(g, done, bs)
      decreases nodes
    {
      var v :| v in nodes;
      var c := centrality[v];
      assert Get(centrality, v) == c;
      ScoredNext(g, done, bs, v, c);
      if c > 0.0 {
        bs := bs + [(v, c * Norm(g.size))];
      }
      nodes, done := nodes - {v}, done + {v};
    }
    assert done == centrality.Keys;
  }

  /** The node v is listed with its score, or the list is full of scores as high. */
  ghost predicate Accounted(g: Digraph, top: nat, bs: seq<Bridge>, v: nat) {
    || (v, Score(g, v)) in bs
    || (|bs| == top && forall b :: b in bs ==> b.1 >= Score(g, v))
  }

  lemma Truncated(g: Digraph, top: nat, bs: seq<Bridge>, v: nat)
    requires Descending(bs) && (v, Score(g, v)) in bs
    ensures Accounted(g, top, if |bs| <= top then bs else bs[..top], v)
  {
    if |bs| > top {
      var i :| 0 <= i < |bs| && bs[i] == (v, Score(g, v));
      if i < top {
        assert bs[..top][i] == bs[i];
      }
    }
  }

  lemma PositiveIsScored(g: Digraph, centrality: map<nat, real>, bs: seq<Bridge>, v: nat)
    requires Get(centrality, v) == BetweennessOf(g, v) && Scored(g, centrality.Keys, bs) && Score(g, v) > 0.0
    ensures (v, Score(g, v)) in bs
  {
    NormPositive(g.size, BetweennessOf(g, v));
    var b: Bridge := (v, Score(g, v));
    assert b.0 in centrality.Keys;
  }

  /** What a listed node and its score are in the graph. */
  ghost predicate Rated(g: Digraph, b: Bridge) {
    && b.0 < g.size && g.size > 2 && b.1 > 0.0 && IsFraction(b.1)
    && Pairs(g.size) * b.1 == BetweennessOf(g, b.0)
    && Between(g, b.0) && (b.1 == 1.0 <==> Hub(g, b.0))
  }

  lemma ListedRated(g: Digraph, b: Bridge)
    requires g.Valid() && b.1 == Score(g, b.0) && b.1 > 0.0
    ensures Rated(g, b)
  {
    NormPositive(g.size, BetweennessOf(g, b.0));
    if b.0 >= g.size {
      OutsideUnscored(g, b.0);
    } else {
      ScoreRange(g, b.0);
      ScoredBetween(g, b.0);
      if g.size <= 2 {
        FewUnscored(g, b.0);
        assert false;
      }
      ScoreOfPairs(g, b.0);
      HubListed(g, b);
    }
  }

  lemma HubListed(g: Digraph, b: Bridge)
    requires b.0 < g.size && b.1 == Score(g, b.0) && g.size > 2
    ensures b.1 == 1.0 <==> Hub(g, b.0)
  {
    HubScoresOne(g, b.0);
  }

  /** The nodes with the highest scores, at most top of them: distinct nodes of positive
      score, highest first, and none left out scores higher than one listed. A score is the
      betweenness as a part of all pairs of other nodes, so never above one. */
  method FindBridgeNodes(g: Digraph, top: nat) returns (bridges: seq<Bridge>)
    requires g.Valid()
    ensures |bridges| <= top && DistinctNodes(bridges) && Descending(bridges)
    ensures forall b :: b in bridges ==> b.1 == Score(g, b.0) && Rated(g, b)
    ensures forall v: nat {:trigger Score(g, v)} :: Score(g, v) > 0.0 ==> Accounted(g, top, bridges, v)
  {
    var centrality := Centralities(g);
    var bs := CollectBridges(g, centrality);
    SortMeaning(bs);
    var ranked := SortBridges(bs);
    bridges := if |ranked| <= top then ranked else ranked[..top];
    forall b | b in bridges
      ensures b.1 == Score(g, b.0) && Rated(g, b)
    {
      assert b in ranked && b in bs;
      ListedRated(g, b);
    }
    forall v: nat | Score(g, v) > 0.0
      ensures Accounted(g, top, bridges, v)
    {
      PositiveIsScored(g, centrality, bs, v);
      Truncated(g, top, ranked, v);
    }
  }
}
