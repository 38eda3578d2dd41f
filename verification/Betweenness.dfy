/** Betweenness of the nodes of a multigraph, and the recurrence that computes it. */
module Betweenness {
  import opened Sequences
  import opened Sums
  import opened Digraphs

  function Nodes(n: nat): (ns: seq<nat>)
    ensures |ns| == n && forall i :: 0 <= i < n ==> ns[i] == i
  {
    seq(n, i requires 0 <= i < n => i)
  }

  lemma NodesAll(n: nat)
    ensures NoRepeats(Nodes(n)) && forall v: nat :: v in Nodes(n) <==> v < n
  {
    forall v: nat | v < n
      ensures v in Nodes(n)
    {
      assert Nodes(n)[v] == v;
    }
  }

  /** Of the shortest walks from s to t, the part that passes v: walks from s to v go on to
      t in as many ways as there are walks of the remaining length. */
  ghost function Share(g: Digraph, s: nat, v: nat, t: nat): real {
    if Reached(g, s, v) && Reached(g, s, t) && Distance(g, s, v) <= Distance(g, s, t)
    then Part(Shortest(g, s, v), Walks(g, v, Distance(g, s, t) - Distance(g, s, v), t), Shortest(g, s, t))
    else 0.0
  }

  function Part(before: real, after: real, all: real): real {
    if all == 0.0 then 0.0 else before * after / all
  }

  ghost function Shares(g: Digraph, s: nat, v: nat): nat -> real {
    (t: nat) => Share(g, s, v, t)
  }

  ghost function OtherShares(g: Digraph, s: nat, v: nat): nat -> real {
    (t: nat) => if t == v then 0.0 else Share(g, s, v, t)
  }

  /** How much the node s depends on v to reach the others. */
  ghost function Dependency(g: Digraph, s: nat, v: nat): real {
    Total(Nodes(g.size), OtherShares(g, s, v))
  }

  ghost function DependencyOn(g: Digraph, v: nat): nat -> real {
    (s: nat) => if s == v then 0.0 else Dependency(g, s, v)
  }

  /** The betweenness of v: over all pairs of other nodes, the part of the shortest walks
      between them that pass v. */
  ghost function BetweennessOf(g: Digraph, v: nat): real {
    Total(Nodes(g.size), DependencyOn(g, v))
  }

  lemma ShortestPositive(g: Digraph, s: nat, v: nat)
    requires Reached(g, s, v)
    ensures Shortest(g, s, v) > 0.0
  {
    var d := Distance(g, s, v);
  }

  lemma OwnShare(g: Digraph, s: nat, v: nat)
    requires Reached(g, s, v)
    ensures Share(g, s, v, v) == 1.0
  {
    ShortestPositive(g, s, v);
    assert Walks(g, v, 0, v) == 1.0;
    PartOfSelf(Shortest(g, s, v));
  }

  /** A node's dependency with its own share. */
  lemma WithOwnShare(g: Digraph, s: nat, v: nat)
    requires Reached(g, s, v) && v < g.size
    ensures Total(Nodes(g.size), Shares(g, s, v)) == 1.0 + Dependency(g, s, v)
  {
    NodesAll(g.size);
    OwnShare(g, s, v);
    TotalApart(Nodes(g.size), Shares(g, s, v), OtherShares(g, s, v), v);
  }

  // ----- The recurrence

  /** w comes right after v on some shortest walk from s. */
  ghost predicate Follows(g: Digraph, s: nat, v: nat, w: nat) {
    Reached(g, s, v) && Reached(g, s, w) && Distance(g, s, w) == Distance(g, s, v) + 1
  }

  /** What v receives of the dependency of a node w that follows it. */
  function Credit(sv: real, sw: real, dw: real): real {
    if sw == 0.0 then 0.0 else sv / sw * (1.0 + dw)
  }

  ghost function Credits(g: Digraph, s: nat, v: nat): nat -> real {
    (w: nat) => if Follows(g, s, v, w) then Credit(Shortest(g, s, v), Shortest(g, s, w), Dependency(g, s, w)) else 0.0
  }

  /** The shortest walks from s to t through v and then w, as a part of all. */
  ghost function Through(g: Digraph, s: nat, v: nat): (nat, nat) -> real {
    (w: nat, t: nat) =>
      if Follows(g, s, v, w) && Reached(g, s, t) && Distance(g, s, w) <= Distance(g, s, t)
      then Part(Shortest(g, s, v), Walks(g, w, Distance(g, s, t) - Distance(g, s, w), t), Shortest(g, s, t))
      else 0.0
  }

  lemma Rescaled(sv: real, sw: real, x: real, st: real)
    requires sw != 0.0
    ensures Part(sv, x, st) == Times(sv / sw, Part(sw, x, st))
  {
    if st != 0.0 {
      var q := sv / sw;
      assert q * sw == sv;
      Regroup(q, sw, x, st);
    }
  }

  lemma Regroup(q: real, y: real, x: real, z: real)
    requires z != 0.0
    ensures q * y * x / z == q * (y * x / z)
  {
    var r := y * x / z;
    assert r * z == y * x;
    assert q * y * x == q * (y * x) == q * (r * z) == (q * r) * z;
  }

  lemma ThroughScaled(g: Digraph, s: nat, v: nat, w: nat, t: nat)
    requires Follows(g, s, v, w)
    ensures Through(g, s, v)(w, t) ==
      Times(Shortest(g, s, v) / (ShortestPositive(g, s, w); Shortest(g, s, w)), Share(g, s, w, t))
  {
    ShortestPositive(g, s, w);
    if Reached(g, s, t) && Distance(g, s, w) <= Distance(g, s, t) {
      Rescaled(Shortest(g, s, v), Shortest(g, s, w),
               Walks(g, w, Distance(g, s, t) - Distance(g, s, w), t), Shortest(g, s, t));
    }
  }

  lemma CreditScaled(ns: seq<nat>, sv: real, sw: real, dw: real, shares: nat -> real, through: nat -> real)
    requires sw != 0.0 && Total(ns, shares) == 1.0 + dw
    requires forall t :: t in ns ==> through(t) == Times(sv / sw, shares(t))
    ensures Credit(sv, sw, dw) == Total(ns, through)
  {
    TotalScale(ns, sv / sw, shares, through);
  }

  /** What v receives of w is the walks through both. */
  lemma CreditIsThrough(g: Digraph, s: nat, v: nat, w: nat)
    requires w < g.size
    ensures Credits(g, s, v)(w) == Total(Nodes(g.size), Across<nat, nat>(Through(g, s, v), w))
  {
    var ns, through := Nodes(g.size), Across<nat, nat>(Through(g, s, v), w);
    if Follows(g, s, v, w) {
      ShortestPositive(g, s, w);
      forall t | t in ns
        ensures through(t) == Times(Shortest(g, s, v) / Shortest(g, s, w), Shares(g, s, w)(t))
      {
        ThroughScaled(g, s, v, w, t);
      }
      WithOwnShare(g, s, w);
      CreditScaled(ns, Shortest(g, s, v), Shortest(g, s, w), Dependency(g, s, w), Shares(g, s, w), through);
    } else {
      TotalZero(ns, through);
    }
  }

  /** After v, a shortest walk to t goes on through the nodes that follow v. */
  lemma OnlyFollowers(g: Digraph, s: nat, v: nat, w: nat, t: nat)
    requires w in Outgoing(g.edges, v) && Reached(g, s, v) && Reached(g, s, t)
    requires Distance(g, s, v) < Distance(g, s, t) && !Follows(g, s, v, w)
    ensures Walks(g, w, Distance(g, s, t) - Distance(g, s, v) - 1, t) == 0.0
  {
    var d, m := Distance(g, s, v), Distance(g, s, t) - Distance(g, s, v) - 1;
    StepOn(g, s, d + 1, v, w);
    WalkReaches(g, s, w, d + 1);
    WalksNonNegative(g, w, m, t);
    if Walks(g, w, m, t) > 0.0 {
      var e := Distance(g, s, w);
      WalksJoin(g, s, e, w, m, t, e + m);
      WalkReaches(g, s, t, e + m);
    }
  }

  lemma ThroughOut(g: Digraph, s: nat, v: nat, w: nat, t: nat)
    requires w in Outgoing(g.edges, v) && Reached(g, s, v) && Reached(g, s, t)
    requires Distance(g, s, v) < Distance(g, s, t)
    ensures Shortest(g, s, t) != 0.0
    ensures Through(g, s, v)(w, t) == Times(Shortest(g, s, v) / Shortest(g, s, t),
      Walks(g, w, Distance(g, s, t) - Distance(g, s, v) - 1, t))
  {
    ShortestPositive(g, s, t);
    if Follows(g, s, v, w) {
      PartIsTimes(Shortest(g, s, v), Walks(g, w, Distance(g, s, t) - Distance(g, s, v) - 1, t), Shortest(g, s, t));
    } else {
      OnlyFollowers(g, s, v, w, t);
    }
  }

  /** The walks through v to t are the walks through v and any node after it. */
  lemma ThroughAny(g: Digraph, s: nat, v: nat, t: nat)
    requires Reached(g, s, v)
    ensures OtherShares(g, s, v)(t) == Total(Outgoing(g.edges, v), Down<nat, nat>(Through(g, s, v), t))
  {
    var outs, through := Outgoing(g.edges, v), Down<nat, nat>(Through(g, s, v), t);
    if Reached(g, s, t) && Distance(g, s, v) < Distance(g, s, t) {
      var m := Distance(g, s, t) - Distance(g, s, v) - 1;
      var sv, st := Shortest(g, s, v), Shortest(g, s, t);
      ShortestPositive(g, s, t);
      WalksByFirst(g, v, m, t);
      forall w | w in outs
        ensures through(w) == Times(sv / st, WalksFrom(g, m, t)(w))
      {
        ThroughOut(g, s, v, w, t);
      }
      TotalScale(outs, sv / st, WalksFrom(g, m, t), through);
      PartIsTimes(sv, Walks(g, v, m + 1, t), st);
    } else {
      TotalZero(outs, through);
    }
  }

  lemma PartIsTimes(before: real, after: real, all: real)
    requires all != 0.0
    ensures Part(before, after, all) == Times(before / all, after)
  {
    var q := before / all;
    assert q * all == before;
    assert before * after == (q * after) * all;
  }

  /** A node's dependency is what it receives of the nodes that follow it, once for each
      edge. */
  lemma DependencyStep(g: Digraph, s: nat, v: nat)
    requires g.Valid() && Reached(g, s, v)
    ensures Dependency(g, s, v) == Total(Outgoing(g.edges, v), Credits(g, s, v))
  {
    var ns, outs, f := Nodes(g.size), Outgoing(g.edges, v), Through(g, s, v);
    forall w | w in outs
      ensures Credits(g, s, v)(w) == Rows<nat, nat>(ns, f)(w)
    {
      OutgoingValid(g, v, w);
      CreditIsThrough(g, s, v, w);
    }
    TotalSame(outs, Credits(g, s, v), Rows<nat, nat>(ns, f));
    TotalSwap(outs, ns, f);
    forall t | t in ns
      ensures OtherShares(g, s, v)(t) == Columns<nat, nat>(outs, f)(t)
    {
      ThroughAny(g, s, v, t);
    }
    TotalSame(ns, OtherShares(g, s, v), Columns<nat, nat>(outs, f));
  }

  // ----- Conservation

  ghost function OtherReached(g: Digraph, s: nat): nat -> real {
    (t: nat) => if t != s && Reached(g, s, t) then 1.0 else 0.0
  }

  /** All of what the source reaches depends on the source: its dependency is the number of
      other nodes reached. */
  lemma SourceDependency(g: Digraph, s: nat)
    ensures Dependency(g, s, s) == Total(Nodes(g.size), OtherReached(g, s))
  {
    SourceReached(g, s);
    forall t | t in Nodes(g.size)
      ensures OtherShares(g, s, s)(t) == OtherReached(g, s)(t)
    {
      if t != s && Reached(g, s, t) {
        ShortestPositive(g, s, t);
        PartOfSelf(Shortest(g, s, t));
      }
    }
    TotalSame(Nodes(g.size), OtherShares(g, s, s), OtherReached(g, s));
  }

  lemma PartOfSelf(x: real)
    requires x != 0.0
    ensures Part(1.0, x, x) == 1.0 && Part(x, 1.0, x) == 1.0
  {
  }

  lemma SourceReached(g: Digraph, s: nat)
    ensures Reached(g, s, s) && Distance(g, s, s) == 0 && Shortest(g, s, s) == 1.0
  {
    assert Walks(g, s, 0, s) == 1.0;
    DistanceUnique(g, s, s, 0);
  }
}
