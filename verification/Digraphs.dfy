/** Directed multigraphs, and the counting of walks in them. */
module Digraphs {
  import opened Sequences
  import opened Sums

  datatype Edge = Edge(from: nat, to: nat)

  /** Nodes are numbered from 0; parallel edges and loops are allowed. */
  datatype Digraph = Digraph(size: nat, edges: seq<Edge>) {
    ghost predicate Valid() {
      forall e :: e in edges ==> e.from < size && e.to < size
    }
  }

  /** The targets of the edges out of v, the newest edge first. */
  function Outgoing(edges: seq<Edge>, v: nat): seq<nat> {
    if edges == [] then []
    else if Last(edges).from == v then [Last(edges).to] + Outgoing(Front(edges), v)
    else Outgoing(Front(edges), v)
  }

  /** The sources of the edges into w, the newest edge first. */
  function Incoming(edges: seq<Edge>, w: nat): seq<nat> {
    if edges == [] then []
    else if Last(edges).to == w then [Last(edges).from] + Incoming(Front(edges), w)
    else Incoming(Front(edges), w)
  }

  lemma CountFirst(x: nat, xs: seq<nat>, z: nat)
    ensures Count([x] + xs, z) == Count(xs, z) + if x == z then 1 else 0
  {
    CountConcat([x], xs, z);
    assert Front([x]) == [];
  }

  /** An edge is out of its source as often as it is into its target. */
  lemma {:induction false} OutIsIn(edges: seq<Edge>, v: nat, w: nat)
    ensures Count(Outgoing(edges, v), w) == Count(Incoming(edges, w), v)
  {
    if edges != [] {
      var e, rest := Last(edges), Front(edges);
      OutIsIn(rest, v, w);
      CountFirst(e.to, Outgoing(rest, v), w);
      CountFirst(e.from, Incoming(rest, w), v);
    }
  }

  /** The targets of v are the ends of its edges. */
  lemma {:induction false} OutgoingMeaning(edges: seq<Edge>, v: nat, w: nat)
    ensures w in Outgoing(edges, v) <==> Edge(v, w) in edges
  {
    if edges != [] {
      OutgoingMeaning(Front(edges), v, w);
      assert edges == Front(edges) + [Last(edges)];
    }
  }

  lemma InOrOut(edges: seq<Edge>, v: nat, w: nat)
    ensures w in Outgoing(edges, v) <==> v in Incoming(edges, w)
  {
    OutIsIn(edges, v, w);
    CountPositive(Outgoing(edges, v), w);
    CountPositive(Incoming(edges, w), v);
  }

  lemma {:induction false} OutgoingValid(g: Digraph, v: nat, w: nat)
    requires g.Valid() && w in Outgoing(g.edges, v)
    ensures v < g.size && w < g.size
    decreases |g.edges|
  {
    if g.edges != [] {
      var e, rest := Last(g.edges), Front(g.edges);
      assert e in g.edges;
      if w in Outgoing(rest, v) {
        OutgoingValid(Digraph(g.size, rest), v, w);
      }
    }
  }

  // ----- Walks

  /** The number of walks of k edges from s to w, one for each choice of parallel edges. */
  ghost function Walks(g: Digraph, s: nat, k: nat, w: nat): real
    decreases k, 0
  {
    if k == 0 then (if s == w then 1.0 else 0.0)
    else Total(Incoming(g.edges, w), WalksTo(g, s, k - 1))
  }

  ghost function WalksTo(g: Digraph, s: nat, k: nat): nat -> real
    decreases k, 1
  {
    (v: nat) => Walks(g, s, k, v)
  }

  ghost function WalksFrom(g: Digraph, k: nat, w: nat): nat -> real {
    (v: nat) => Walks(g, v, k, w)
  }

  /** p lists the numbers of the edges of a walk from s to w. */
  ghost predicate IsWalk(g: Digraph, s: nat, p: seq<nat>, w: nat)
    decreases |p|
  {
    if p == [] then s == w
    else Last(p) < |g.edges| && g.edges[Last(p)].to == w && IsWalk(g, s, Front(p), g.edges[Last(p)].from)
  }

  /** The walks of k edges from s to w whose last edge is among the first i. */
  ghost predicate ListsWalks(g: Digraph, s: nat, k: nat, w: nat, i: nat, ps: seq<seq<nat>>) {
    && NoRepeats(ps)
    && forall p :: p in ps <==> |p| == k && IsWalk(g, s, p, w) && (k == 0 || Last(p) < i)
  }

  function Extended(ps: seq<seq<nat>>, e: nat): (qs: seq<seq<nat>>)
    ensures |qs| == |ps| && forall i :: 0 <= i < |ps| ==> qs[i] == ps[i] + [e]
  {
    seq(|ps|, i requires 0 <= i < |ps| => ps[i] + [e])
  }

  lemma ExtendedLists(g: Digraph, s: nat, k: nat, w: nat, i: nat, ps: seq<seq<nat>>, qs: seq<seq<nat>>)
    requires i < |g.edges| && g.edges[i].to == w
    requires ListsWalks(g, s, k + 1, w, i, ps) && ListsWalks(g, s, k, g.edges[i].from, |g.edges|, qs)
    ensures ListsWalks(g, s, k + 1, w, i + 1, ps + Extended(qs, i))
  {
    var longer := Extended(qs, i);
    forall p | p in longer
      ensures |p| == k + 1 && IsWalk(g, s, p, w) && Last(p) == i
    {
      var j :| 0 <= j < |longer| && longer[j] == p;
      assert p == qs[j] + [i] && qs[j] in qs && Front(p) == qs[j];
    }
    forall p | |p| == k + 1 && IsWalk(g, s, p, w) && Last(p) == i
      ensures p in longer
    {
      assert Front(p) in qs by {
        assert IsWalk(g, s, Front(p), g.edges[i].from);
        assert k == 0 || Last(Front(p)) < |g.edges|;
      }
      var j :| 0 <= j < |qs| && qs[j] == Front(p);
      assert longer[j] == p;
    }
    forall j, l | 0 <= j < l < |longer|
      ensures longer[j] != longer[l]
    {
      assert Front(longer[j]) == qs[j] && Front(longer[l]) == qs[l];
    }
    NoRepeatsConcat(ps, longer);
  }

  lemma TotalFirst<T>(x: T, xs: seq<T>, f: T -> real)
    ensures Total([x] + xs, f) == f(x) + Total(xs, f)
  {
    TotalConcat([x], xs, f);
    assert Front([x]) == [];
  }

  lemma IncomingNext(edges: seq<Edge>, w: nat, i: nat, f: nat -> real)
    requires i < |edges|
    ensures Total(Incoming(edges[..i + 1], w), f)
         == Total(Incoming(edges[..i], w), f) + if edges[i].to == w then f(edges[i].from) else 0.0
  {
    TakeNext(edges, i);
    assert Front(edges[..i + 1]) == edges[..i];
    if edges[i].to == w {
      TotalFirst(edges[i].from, Incoming(edges[..i], w), f);
    }
  }

  /** `Walks` counts walks: it is the length of a list that names each walk once. */
  lemma {:induction false} WalksCount(g: Digraph, s: nat, k: nat, w: nat) returns (ps: seq<seq<nat>>)
    ensures NoRepeats(ps) && forall p :: p in ps <==> |p| == k && IsWalk(g, s, p, w)
    ensures Walks(g, s, k, w) == |ps| as real
    decreases k, |g.edges| + 1
  {
    if k == 0 {
      ps := if s == w then [[]] else [];
    } else {
      ps := WalksBefore(g, s, k - 1, w, |g.edges|);
      assert g.edges[..|g.edges|] == g.edges;
    }
  }

  /** ps lists the walks of k + 1 edges whose last edge is among the first i, and their
      number is the sum over those edges. */
  ghost predicate Counted(g: Digraph, s: nat, k: nat, w: nat, i: nat, ps: seq<seq<nat>>)
    requires i <= |g.edges|
  {
    ListsWalks(g, s, k + 1, w, i, ps) && Total(Incoming(g.edges[..i], w), WalksTo(g, s, k)) == |ps| as real
  }

  lemma {:induction false} WalksBefore(g: Digraph, s: nat, k: nat, w: nat, i: nat) returns (ps: seq<seq<nat>>)
    requires i <= |g.edges|
    ensures Counted(g, s, k, w, i, ps)
    decreases k + 1, i
  {
    if i == 0 {
      ps := [];
    } else {
      ps := WalksBefore(g, s, k, w, i - 1);
      if g.edges[i - 1].to == w {
        var qs := WalksCount(g, s, k, g.edges[i - 1].from);
        ps := MoreWalks(g, s, k, w, i - 1, ps, qs);
      } else {
        OtherEdge(g, s, k, w, i - 1, ps);
      }
    }
  }

  lemma MoreWalks(g: Digraph, s: nat, k: nat, w: nat, i: nat, ps: seq<seq<nat>>, qs: seq<seq<nat>>)
    returns (rs: seq<seq<nat>>)
    requires i < |g.edges| && g.edges[i].to == w && Counted(g, s, k, w, i, ps)
    requires NoRepeats(qs) && forall p :: p in qs <==> |p| == k && IsWalk(g, s, p, g.edges[i].from)
    requires Walks(g, s, k, g.edges[i].from) == |qs| as real
    ensures Counted(g, s, k, w, i + 1, rs)
  {
    ListsAll(g, s, k, g.edges[i].from, qs);
    ExtendedLists(g, s, k, w, i, ps, qs);
    rs := ps + Extended(qs, i);
    IncomingNext(g.edges, w, i, WalksTo(g, s, k));
  }

  lemma OtherEdge(g: Digraph, s: nat, k: nat, w: nat, i: nat, ps: seq<seq<nat>>)
    requires i < |g.edges| && g.edges[i].to != w && Counted(g, s, k, w, i, ps)
    ensures Counted(g, s, k, w, i + 1, ps)
  {
    IncomingNext(g.edges, w, i, WalksTo(g, s, k));
  }

  lemma ListsAll(g: Digraph, s: nat, k: nat, w: nat, ps: seq<seq<nat>>)
    requires NoRepeats(ps) && forall p :: p in ps <==> |p| == k && IsWalk(g, s, p, w)
    ensures ListsWalks(g, s, k, w, |g.edges|, ps)
  {
  }

  lemma {:induction false} WalksNonNegative(g: Digraph, s: nat, k: nat, w: nat)
    ensures Walks(g, s, k, w) >= 0.0
    decreases k
  {
    if k > 0 {
      forall v | v in Incoming(g.edges, w)
        ensures Walks(g, s, k - 1, v) >= 0.0
      {
        WalksNonNegative(g, s, k - 1, v);
      }
      TotalPositive(Incoming(g.edges, w), WalksTo(g, s, k - 1));
    }
  }

  lemma {:induction false} SomePositive(xs: seq<nat>, f: nat -> real) returns (v: nat)
    requires Total(xs, f) > 0.0 && forall x :: x in xs ==> f(x) >= 0.0
    ensures v in xs && f(v) > 0.0
  {
    TotalPositive(xs, f);
    v :| v in xs && f(v) > 0.0;
  }

  lemma AllNonNegative(g: Digraph, s: nat, k: nat, xs: seq<nat>)
    ensures forall v :: v in xs ==> WalksTo(g, s, k)(v) >= 0.0
  {
    forall v | v in xs
      ensures WalksTo(g, s, k)(v) >= 0.0
    {
      WalksNonNegative(g, s, k, v);
    }
  }

  /** A walk ends with an edge after a shorter walk. */
  lemma StepBack(g: Digraph, s: nat, k: nat, w: nat) returns (v: nat)
    requires k > 0 && Walks(g, s, k, w) > 0.0
    ensures w in Outgoing(g.edges, v) && Walks(g, s, k - 1, v) > 0.0
  {
    AllNonNegative(g, s, k - 1, Incoming(g.edges, w));
    v := SomePositive(Incoming(g.edges, w), WalksTo(g, s, k - 1));
    InOrOut(g.edges, v, w);
  }

  lemma StepOn(g: Digraph, s: nat, k: nat, v: nat, w: nat)
    requires k > 0 && Walks(g, s, k - 1, v) > 0.0 && w in Outgoing(g.edges, v)
    ensures Walks(g, s, k, w) > 0.0
  {
    InOrOut(g.edges, v, w);
    var f := WalksTo(g, s, k - 1);
    assert f(v) > 0.0;
    AllNonNegative(g, s, k - 1, Incoming(g.edges, w));
    TotalPositive(Incoming(g.edges, w), f);
  }

  /** Walks may also be counted by their first edge. */
  lemma {:induction false} WalksByFirst(g: Digraph, s: nat, k: nat, w: nat)
    ensures Walks(g, s, k + 1, w) == Total(Outgoing(g.edges, s), WalksFrom(g, k, w))
    decreases k
  {
    var ins, outs := Incoming(g.edges, w), Outgoing(g.edges, s);
    if k == 0 {
      TotalIndicator(ins, s, WalksTo(g, s, 0));
      TotalIndicator(outs, w, WalksFrom(g, 0, w));
      OutIsIn(g.edges, s, w);
    } else {
      forall u | u in ins
        ensures Walks(g, s, k, u) == Total(outs, WalksFrom(g, k - 1, u))
      {
        WalksByFirst(g, s, k - 1, u);
      }
      SwapEnds(g, s, k, w, ins, outs);
    }
  }

  lemma SwapEnds(g: Digraph, s: nat, k: nat, w: nat, ins: seq<nat>, outs: seq<nat>)
    requires k > 0 && ins == Incoming(g.edges, w)
    requires forall u :: u in ins ==> Walks(g, s, k, u) == Total(outs, WalksFrom(g, k - 1, u))
    ensures Total(ins, WalksTo(g, s, k)) == Total(outs, WalksFrom(g, k, w))
  {
    var f := (u: nat, v: nat) => Walks(g, v, k - 1, u);
    forall u | u in ins
      ensures WalksTo(g, s, k)(u) == Rows<nat, nat>(outs, f)(u)
    {
      TotalSame(outs, WalksFrom(g, k - 1, u), Across<nat, nat>(f, u));
    }
    TotalSame(ins, WalksTo(g, s, k), Rows<nat, nat>(outs, f));
    TotalSwap(ins, outs, f);
    forall v | v in outs
      ensures WalksFrom(g, k, w)(v) == Columns<nat, nat>(ins, f)(v)
    {
      TotalSame(ins, WalksTo(g, v, k - 1), Down<nat, nat>(f, v));
    }
    TotalSame(outs, WalksFrom(g, k, w), Columns<nat, nat>(ins, f));
  }

  lemma TotalIndicator(xs: seq<nat>, a: nat, f: nat -> real)
    requires forall x :: f(x) == if x == a then 1.0 else 0.0
    ensures Total(xs, f) == Count(xs, a) as real
  {
    var zero := (x: nat) => 0.0;
    TotalZero(xs, zero);
    TotalChange(xs, zero, f, a);
    CopiesOfOne(Count(xs, a));
  }

  lemma {:induction false} CopiesOfOne(n: nat)
    ensures Copies(n, 1.0) == n as real
  {
    if n > 0 {
      CopiesOfOne(n - 1);
    }
  }

  /** Walks that meet join. */
  lemma {:induction false} WalksJoin(g: Digraph, s: nat, a: nat, w: nat, b: nat, t: nat, n: nat)
    requires Walks(g, s, a, w) > 0.0 && Walks(g, w, b, t) > 0.0 && n == a + b
    ensures Walks(g, s, n, t) > 0.0
    decreases b
  {
    if b == 0 {
      assert w == t && n == a;
    } else {
      var u := StepBack(g, w, b, t);
      WalksJoin(g, s, a, w, b - 1, u, n - 1);
      StepOn(g, s, n, u, t);
    }
  }

  // ----- Distances

  /** k is the number of edges of a shortest walk from s to w. */
  ghost predicate IsDistance(g: Digraph, s: nat, w: nat, k: nat) {
    Walks(g, s, k, w) > 0.0 && forall j: nat :: j < k ==> Walks(g, s, j, w) == 0.0
  }

  ghost predicate Reached(g: Digraph, s: nat, w: nat) {
    exists k :: IsDistance(g, s, w, k)
  }

  ghost function Distance(g: Digraph, s: nat, w: nat): (k: nat)
    requires Reached(g, s, w)
    ensures IsDistance(g, s, w, k)
  {
    var k :| IsDistance(g, s, w, k); k
  }

  lemma DistanceUnique(g: Digraph, s: nat, w: nat, k: nat)
    requires IsDistance(g, s, w, k)
    ensures Reached(g, s, w) && Distance(g, s, w) == k
  {
    var d := Distance(g, s, w);
    assert Walks(g, s, d, w) > 0.0 && Walks(g, s, k, w) > 0.0;
  }

  lemma {:induction false} WalkReaches(g: Digraph, s: nat, w: nat, k: nat)
    requires Walks(g, s, k, w) > 0.0
    ensures Reached(g, s, w) && Distance(g, s, w) <= k
    decreases k
  {
    if j: nat :| j < k && Walks(g, s, j, w) > 0.0 {
      WalkReaches(g, s, w, j);
    } else {
      forall j: nat | j < k
        ensures Walks(g, s, j, w) == 0.0
      {
        WalksNonNegative(g, s, j, w);
      }
      DistanceUnique(g, s, w, k);
    }
  }

  /** The number of shortest walks from s to w. */
  ghost function Shortest(g: Digraph, s: nat, w: nat): real {
    if Reached(g, s, w) then Walks(g, s, Distance(g, s, w), w) else 0.0
  }
}
