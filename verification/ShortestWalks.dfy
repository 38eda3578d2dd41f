/** What a share of shortest walks counts: those of them that pass a node. */
module ShortestWalks {
  import opened Sequences
  import opened Sums
  import opened Digraphs
  import opened Betweenness

  /** The walk p from s is at v after some of its edges. */
  ghost predicate Visits(g: Digraph, s: nat, p: seq<nat>, v: nat) {
    exists i :: 0 <= i <= |p| && IsWalk(g, s, p[..i], v)
  }

  /** What follows a walk from s to v goes on from v. */
  lemma {:induction false} WalkSplits(g: Digraph, s: nat, p: seq<nat>, i: nat, v: nat, t: nat)
    requires i <= |p| && IsWalk(g, s, p[..i], v)
    ensures IsWalk(g, s, p, t) <==> IsWalk(g, v, p[i..], t)
    decreases |p|
  {
    if i == |p| {
      assert p[..i] == p;
    } else {
      assert Front(p)[..i] == p[..i] && Front(p[i..]) == Front(p)[i..] && Last(p[i..]) == Last(p);
      if Last(p) < |g.edges| {
        WalkSplits(g, s, Front(p), i, v, g.edges[Last(p)].from);
      }
    }
  }

  lemma WalkIsReached(g: Digraph, s: nat, p: seq<nat>, t: nat)
    requires IsWalk(g, s, p, t)
    ensures Reached(g, s, t) && Distance(g, s, t) <= |p| && Walks(g, s, |p|, t) > 0.0
  {
    var ps := WalksCount(g, s, |p|, t);
    assert p in ps;
    WalkReaches(g, s, t, |p|);
  }

  /** There is no shorter way to a node than along a shortest walk. */
  lemma NoShortcut(g: Digraph, s: nat, i: nat, v: nat, m: nat, t: nat)
    requires Walks(g, s, i, v) > 0.0 && Walks(g, v, m, t) > 0.0
    requires Reached(g, s, t) && Distance(g, s, t) == i + m
    ensures Reached(g, s, v) && Distance(g, s, v) == i
  {
    WalkReaches(g, s, v, i);
    var d := Distance(g, s, v);
    assert Walks(g, s, d, v) > 0.0;
    WalksJoin(g, s, d, v, m, t, d + m);
    WalkReaches(g, s, t, d + m);
  }

  /** A shortest walk visits a node after as many edges as the node is far. */
  lemma VisitedAtDistance(g: Digraph, s: nat, p: seq<nat>, v: nat, t: nat)
    requires IsWalk(g, s, p, t) && Visits(g, s, p, v) && Reached(g, s, t) && |p| == Distance(g, s, t)
    ensures Reached(g, s, v) && Distance(g, s, v) <= |p| && IsWalk(g, s, p[..Distance(g, s, v)], v)
  {
    var i :| 0 <= i <= |p| && IsWalk(g, s, p[..i], v);
    VisitedAfter(g, s, p, i, v, t);
  }

  lemma VisitedAfter(g: Digraph, s: nat, p: seq<nat>, i: nat, v: nat, t: nat)
    requires IsWalk(g, s, p, t) && Reached(g, s, t) && |p| == Distance(g, s, t)
    requires i <= |p| && IsWalk(g, s, p[..i], v)
    ensures Reached(g, s, v) && Distance(g, s, v) == i
  {
    WalkSplits(g, s, p, i, v, t);
    WalkIsReached(g, s, p[..i], v);
    WalkIsReached(g, v, p[i..], t);
    NoShortcut(g, s, i, v, |p| - i, t);
  }

  /** All of qs followed by each of rs. */
  function Joined(qs: seq<seq<nat>>, rs: seq<seq<nat>>): seq<seq<nat>> {
    if rs == [] then [] else Joined(qs, Front(rs)) + Followed(qs, Last(rs))
  }

  function Followed(qs: seq<seq<nat>>, r: seq<nat>): (ps: seq<seq<nat>>)
    ensures |ps| == |qs| && forall i :: 0 <= i < |ps| ==> ps[i] == qs[i] + r
  {
    seq(|qs|, i requires 0 <= i < |qs| => qs[i] + r)
  }

  ghost predicate AllOf(qs: seq<seq<nat>>, n: nat) {
    forall q :: q in qs ==> |q| == n
  }

  lemma FollowedAt(qs: seq<seq<nat>>, r: seq<nat>, n: nat, i: nat)
    requires AllOf(qs, n) && i < |qs|
    ensures var p := Followed(qs, r)[i]; |p| >= n && p[..n] == qs[i] && p[n..] == r
  {
    assert qs[i] in qs;
  }

  lemma FollowedContents(qs: seq<seq<nat>>, r: seq<nat>, n: nat, p: seq<nat>)
    requires AllOf(qs, n)
    ensures p in Followed(qs, r) <==> |p| >= n && p[..n] in qs && p[n..] == r
  {
    var ps := Followed(qs, r);
    if p in ps {
      var i :| 0 <= i < |ps| && ps[i] == p;
      FollowedAt(qs, r, n, i);
    }
    if |p| >= n && p[..n] in qs && p[n..] == r {
      var i :| 0 <= i < |qs| && qs[i] == p[..n];
      assert ps[i] == p;
    }
  }

  lemma FollowedMeaning(qs: seq<seq<nat>>, r: seq<nat>, n: nat)
    requires NoRepeats(qs) && AllOf(qs, n)
    ensures NoRepeats(Followed(qs, r))
    ensures forall p :: p in Followed(qs, r) <==> |p| >= n && p[..n] in qs && p[n..] == r
  {
    forall i, j | 0 <= i < j < |Followed(qs, r)|
      ensures Followed(qs, r)[i] != Followed(qs, r)[j]
    {
      FollowedAt(qs, r, n, i);
      FollowedAt(qs, r, n, j);
    }
    forall p
      ensures p in Followed(qs, r) <==> |p| >= n && p[..n] in qs && p[n..] == r
    {
      FollowedContents(qs, r, n, p);
    }
  }

  lemma {:induction false} JoinedSize(qs: seq<seq<nat>>, rs: seq<seq<nat>>)
    ensures |Joined(qs, rs)| == |rs| * |qs|
    decreases |rs|
  {
    if rs != [] {
      JoinedSize(qs, Front(rs));
      OneMoreTimes(|rs|, |qs|);
    }
  }

  lemma OneMoreTimes(m: nat, n: nat)
    requires m > 0
    ensures (m - 1) * n + n == m * n
  {
  }

  lemma {:induction false} JoinedMeaning(qs: seq<seq<nat>>, rs: seq<seq<nat>>, n: nat)
    requires NoRepeats(qs) && NoRepeats(rs) && AllOf(qs, n)
    ensures NoRepeats(Joined(qs, rs))
    ensures forall p :: p in Joined(qs, rs) <==> |p| >= n && p[..n] in qs && p[n..] in rs
    decreases |rs|
  {
    if rs != [] {
      var front, r := Front(rs), Last(rs);
      JoinedMeaning(qs, front, n);
      FollowedMeaning(qs, r, n);
      assert forall x :: x in rs <==> x in front || x == r;
      assert r !in front;
      NoRepeatsConcat(Joined(qs, front), Followed(qs, r));
    }
  }

  lemma JoinedProduct(qs: seq<seq<nat>>, rs: seq<seq<nat>>, x: real, y: real)
    requires x == |qs| as real && y == |rs| as real
    ensures |Joined(qs, rs)| as real == Times(x, y)
  {
    JoinedSize(qs, rs);
    assert (|rs| * |qs|) as real == |rs| as real * |qs| as real;
  }

  /** qs lists the walks of n edges from s to t, each once. */
  ghost predicate ListsWalks(g: Digraph, s: nat, n: nat, t: nat, qs: seq<seq<nat>>) {
    NoRepeats(qs) && forall q :: q in qs <==> |q| == n && IsWalk(g, s, q, t)
  }

  /** ps lists the shortest walks from s to t that visit v, each once. */
  ghost predicate ListsVisits(g: Digraph, s: nat, v: nat, t: nat, ps: seq<seq<nat>>)
    requires Reached(g, s, t)
  {
    NoRepeats(ps) && forall p :: p in ps <==> |p| == Distance(g, s, t) && IsWalk(g, s, p, t) && Visits(g, s, p, v)
  }

  lemma ListOfWalks(g: Digraph, s: nat, n: nat, t: nat) returns (qs: seq<seq<nat>>)
    ensures ListsWalks(g, s, n, t, qs) && |qs| as real == Walks(g, s, n, t)
  {
    qs := WalksCount(g, s, n, t);
  }

  /** The number of shortest walks from s to t that visit v is the number of shortest walks
      to v times the number of walks that go on from there. */
  lemma VisitingWalks(g: Digraph, s: nat, v: nat, t: nat) returns (ps: seq<seq<nat>>)
    requires Reached(g, s, v) && Reached(g, s, t) && Distance(g, s, v) <= Distance(g, s, t)
    ensures ListsVisits(g, s, v, t, ps)
    ensures |ps| as real == Times(Shortest(g, s, v), Walks(g, v, Distance(g, s, t) - Distance(g, s, v), t))
  {
    var m := Distance(g, s, t) - Distance(g, s, v);
    var qs := ListOfWalks(g, s, Distance(g, s, v), v);
    var rs := ListOfWalks(g, v, m, t);
    ps := Joined(qs, rs);
    JoinedVisits(g, s, v, t, qs, rs);
    JoinedProduct(qs, rs, Shortest(g, s, v), Walks(g, v, m, t));
  }

  lemma JoinedVisits(g: Digraph, s: nat, v: nat, t: nat, qs: seq<seq<nat>>, rs: seq<seq<nat>>)
    requires Reached(g, s, v) && Reached(g, s, t) && Distance(g, s, v) <= Distance(g, s, t)
    requires ListsWalks(g, s, Distance(g, s, v), v, qs)
    requires ListsWalks(g, v, Distance(g, s, t) - Distance(g, s, v), t, rs)
    ensures ListsVisits(g, s, v, t, Joined(qs, rs))
  {
    JoinedMeaning(qs, rs, Distance(g, s, v));
    forall p
      ensures p in Joined(qs, rs) <==> |p| == Distance(g, s, t) && IsWalk(g, s, p, t) && Visits(g, s, p, v)
    {
      VisitsMeaning(g, s, v, t, p, qs, rs);
    }
  }

  lemma VisitsMeaning(g: Digraph, s: nat, v: nat, t: nat, p: seq<nat>, qs: seq<seq<nat>>, rs: seq<seq<nat>>)
    requires Reached(g, s, v) && Reached(g, s, t) && Distance(g, s, v) <= Distance(g, s, t)
    requires ListsWalks(g, s, Distance(g, s, v), v, qs)
    requires ListsWalks(g, v, Distance(g, s, t) - Distance(g, s, v), t, rs)
    ensures (|p| >= Distance(g, s, v) && p[..Distance(g, s, v)] in qs && p[Distance(g, s, v)..] in rs)
       <==> (|p| == Distance(g, s, t) && IsWalk(g, s, p, t) && Visits(g, s, p, v))
  {
    var n := Distance(g, s, v);
    if |p| >= n && p[..n] in qs && p[n..] in rs {
      WalkSplits(g, s, p, n, v, t);
    } else if |p| == Distance(g, s, t) && IsWalk(g, s, p, t) && Visits(g, s, p, v) {
      VisitSplits(g, s, p, v, t);
    }
  }

  lemma VisitSplits(g: Digraph, s: nat, p: seq<nat>, v: nat, t: nat)
    requires IsWalk(g, s, p, t) && Visits(g, s, p, v) && Reached(g, s, t) && |p| == Distance(g, s, t)
    ensures Reached(g, s, v) && Distance(g, s, v) <= |p|
    ensures IsWalk(g, s, p[..Distance(g, s, v)], v) && IsWalk(g, v, p[Distance(g, s, v)..], t)
  {
    VisitedAtDistance(g, s, p, v, t);
    WalkSplits(g, s, p, Distance(g, s, v), v, t);
  }

  /** A share is the fraction of the shortest walks from s to t that visit v. */
  lemma ShareMeaning(g: Digraph, s: nat, v: nat, t: nat) returns (all: seq<seq<nat>>, visiting: seq<seq<nat>>)
    requires Reached(g, s, t)
    ensures ListsWalks(g, s, Distance(g, s, t), t, all)
    ensures ListsVisits(g, s, v, t, visiting)
    ensures all != [] && Share(g, s, v, t) == |visiting| as real / |all| as real
  {
    all := ListOfWalks(g, s, Distance(g, s, t), t);
    ShortestPositive(g, s, t);
    if Reached(g, s, v) && Distance(g, s, v) <= Distance(g, s, t) {
      visiting := VisitingWalks(g, s, v, t);
      PartIsRatio(Shortest(g, s, v), Walks(g, v, Distance(g, s, t) - Distance(g, s, v), t), |visiting|, |all|);
    } else {
      visiting := [];
      NoVisits(g, s, v, t);
    }
  }

  lemma PartIsRatio(x: real, y: real, n: nat, m: nat)
    requires m > 0 && n as real == Times(x, y)
    ensures Part(x, y, m as real) == n as real / m as real
  {
  }

  lemma NoVisits(g: Digraph, s: nat, v: nat, t: nat)
    requires Reached(g, s, t) && !(Reached(g, s, v) && Distance(g, s, v) <= Distance(g, s, t))
    ensures forall p :: |p| == Distance(g, s, t) && IsWalk(g, s, p, t) ==> !Visits(g, s, p, v)
  {
    forall p | |p| == Distance(g, s, t) && IsWalk(g, s, p, t)
      ensures !Visits(g, s, p, v)
    {
      if Visits(g, s, p, v) {
        VisitedAtDistance(g, s, p, v, t);
      }
    }
  }
}
