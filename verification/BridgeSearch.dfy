/** The breadth-first search from one source that counts shortest walks. */
module BridgeSearch {
  import opened Sequences
  import opened Sums
  import opened Digraphs
  import opened Betweenness

  type Predecessors = map<nat, seq<nat>>

  function Get(m: map<nat, real>, x: nat): real {
    if x in m then m[x] else 0.0
  }

  function PredsOf(preds: Predecessors, w: nat): seq<nat> {
    if w in preds then preds[w] else []
  }

  // ----- What the search maintains
  //
  // Each part of the state is a predicate on one node, said of all nodes. The triggers keep
  // a part out of sight until it is named.

  ghost predicate NotFurther(found: seq<nat>, dist: map<nat, nat>, i: nat, j: nat) {
    i <= j < |found| ==> found[i] in dist && found[j] in dist && dist[found[i]] <= dist[found[j]]
  }

  /** The nodes found, nearest first: those taken from the queue, then those waiting. */
  ghost predicate Ordered(s: nat, found: seq<nat>, dist: map<nat, nat>) {
    && NoRepeats(found) && (forall x :: x in found <==> x in dist)
    && (forall i: nat, j: nat {:trigger NotFurther(found, dist, i, j)} :: NotFurther(found, dist, i, j))
    && found != [] && found[0] == s && s in dist && dist[s] == 0
  }

  /** Distances are lengths of walks. */
  ghost predicate WalkedTo(g: Digraph, s: nat, dist: map<nat, nat>, x: nat) {
    x in dist ==> x < g.size && Walks(g, s, dist[x], x) > 0.0
  }

  ghost predicate Walked(g: Digraph, s: nat, dist: map<nat, nat>) {
    forall x: nat {:trigger WalkedTo(g, s, dist, x)} :: WalkedTo(g, s, dist, x)
  }

  /** The targets of v have been found, at most one step further than v. */
  ghost predicate Explored(v: nat, targets: seq<nat>, dist: map<nat, nat>) {
    v in dist && forall w :: w in targets ==> w in dist && dist[w] <= dist[v] + 1
  }

  ghost predicate DoneExplored(g: Digraph, done: seq<nat>, dist: map<nat, nat>, v: nat) {
    v in done ==> Explored(v, Outgoing(g.edges, v), dist)
  }

  ghost predicate AllExplored(g: Digraph, done: seq<nat>, dist: map<nat, nat>) {
    forall v: nat {:trigger DoneExplored(g, done, dist, v)} :: DoneExplored(g, done, dist, v)
  }

  /** Each node's sigma is the sum over its predecessors, and the source's is 1. */
  ghost predicate SumOf(g: Digraph, s: nat, d: nat, sum: real, ps: seq<nat>, w: nat) {
    if w == s then d == 0 && sum == 1.0 && ps == []
    else d > 0 && sum == Total(ps, WalksTo(g, s, d - 1))
  }

  ghost predicate SummedAt(g: Digraph, s: nat, dist: map<nat, nat>, sigma: map<nat, real>, preds: Predecessors, w: nat)
  {
    if w in dist then SumOf(g, s, dist[w], Get(sigma, w), PredsOf(preds, w), w) else w !in sigma && w !in preds
  }

  ghost predicate Summed(g: Digraph, s: nat, dist: map<nat, nat>, sigma: map<nat, real>, preds: Predecessors) {
    forall w: nat {:trigger SummedAt(g, s, dist, sigma, preds, w)} :: SummedAt(g, s, dist, sigma, preds, w)
  }

  /** x precedes w once for each edge from x to w, if w is one step further: all edges of a
      node that is done, and those looked at of the node v under way. */
  ghost function Due(g: Digraph, done: seq<nat>, v: nat, seen: seq<nat>, dist: map<nat, nat>, x: nat, w: nat): nat {
    if !(x in dist && w in dist && dist[x] + 1 == dist[w]) then 0
    else if x in done then Count(Incoming(g.edges, w), x)
    else if x == v then Count(seen, w)
    else 0
  }

  ghost predicate PrecededAt(g: Digraph, done: seq<nat>, v: nat, seen: seq<nat>, dist: map<nat, nat>,
      preds: Predecessors, x: nat, w: nat)
  {
    w in dist ==> Count(PredsOf(preds, w), x) == Due(g, done, v, seen, dist, x, w)
  }

  ghost predicate Preceded(g: Digraph, done: seq<nat>, v: nat, seen: seq<nat>, dist: map<nat, nat>, preds: Predecessors)
  {
    forall x: nat, w: nat {:trigger PrecededAt(g, done, v, seen, dist, preds, x, w)} ::
      PrecededAt(g, done, v, seen, dist, preds, x, w)
  }

  /** The distance and sigma of a node that is done are final. */
  ghost predicate Final(g: Digraph, s: nat, dist: map<nat, nat>, sigma: map<nat, real>, v: nat) {
    v in dist && IsDistance(g, s, v, dist[v]) && v in sigma && sigma[v] == Walks(g, s, dist[v], v)
  }

  ghost predicate AllFinal(g: Digraph, s: nat, done: seq<nat>, dist: map<nat, nat>, sigma: map<nat, real>) {
    forall v: nat {:trigger Final(g, s, dist, sigma, v)} :: v in done ==> Final(g, s, dist, sigma, v)
  }

  ghost predicate Within(dist: map<nat, nat>, d: nat) {
    forall x :: x in dist ==> dist[x] <= d
  }

  /** The state of the search between two nodes taken from the queue. */
  ghost predicate Searching(g: Digraph, s: nat, stack: seq<nat>, queue: seq<nat>, dist: map<nat, nat>,
      sigma: map<nat, real>, preds: Predecessors)
  {
    && Ordered(s, stack + queue, dist) && Walked(g, s, dist)
    && (queue != [] ==> queue[0] in dist && Within(dist, dist[queue[0]] + 1))
    && AllExplored(g, stack, dist) && AllFinal(g, s, stack, dist, sigma)
    && Summed(g, s, dist, sigma, preds) && Preceded(g, stack, s, [], dist, preds)
  }

  /** The state while v, just taken from the queue, has had the targets seen looked at. */
  ghost predicate Expanding(g: Digraph, s: nat, stack: seq<nat>, v: nat, seen: seq<nat>, queue: seq<nat>,
      dist: map<nat, nat>, sigma: map<nat, real>, preds: Predecessors)
  {
    && Ordered(s, stack + [v] + queue, dist) && Walked(g, s, dist)
    && v in dist && v !in stack && Within(dist, dist[v] + 1)
    && AllExplored(g, stack, dist) && Explored(v, seen, dist)
    && AllFinal(g, s, stack, dist, sigma) && Final(g, s, dist, sigma, v)
    && Summed(g, s, dist, sigma, preds) && Preceded(g, stack, v, seen, dist, preds)
  }

  lemma Starting(g: Digraph, s: nat)
    requires s < g.size
    ensures Searching(g, s, [], [s], map[s := 0], map[s := 1.0], map[])
  {
    assert [] + [s] == [s];
    assert Walks(g, s, 0, s) == 1.0;
  }

  // ----- Taking a node from the queue

  lemma QueueFurther(s: nat, stack: seq<nat>, queue: seq<nat>, dist: map<nat, nat>, x: nat)
    requires Ordered(s, stack + queue, dist) && x in queue
    ensures x !in stack && x in dist && queue[0] in dist && dist[queue[0]] <= dist[x]
  {
    var all := stack + queue;
    var i :| 0 <= i < |queue| && queue[i] == x;
    assert NotFurther(all, dist, |stack|, |stack| + i);
    assert all[|stack| + i] == x && all[|stack|] == queue[0];
    assert forall j :: 0 <= j < |stack| ==> all[j] == stack[j] && all[j] != all[|stack| + i];
  }

  /** Nodes within a shorter walk than the front of the queue are done. */
  lemma {:induction false} Nearer(g: Digraph, s: nat, stack: seq<nat>, queue: seq<nat>, dist: map<nat, nat>, k: nat,
      x: nat)
    requires Ordered(s, stack + queue, dist) && AllExplored(g, stack, dist)
    requires Walks(g, s, k, x) > 0.0 && (queue != [] ==> queue[0] in dist && k < dist[queue[0]])
    ensures x in stack && x in dist && dist[x] <= k
    decreases k
  {
    var all := stack + queue;
    if k == 0 {
      assert x == s && all[0] == s;
      if s in queue {
        QueueFurther(s, stack, queue, dist, s);
      }
    } else {
      var v := StepBack(g, s, k, x);
      Nearer(g, s, stack, queue, dist, k - 1, v);
      assert DoneExplored(g, stack, dist, v);
      assert x in all;
      if x in queue {
        QueueFurther(s, stack, queue, dist, x);
      }
    }
  }

  lemma FrontIsFinal(g: Digraph, s: nat, stack: seq<nat>, queue: seq<nat>, dist: map<nat, nat>, sigma: map<nat, real>,
      preds: Predecessors)
    requires queue != [] && Searching(g, s, stack, queue, dist, sigma, preds)
    ensures Final(g, s, dist, sigma, queue[0])
  {
    var v := queue[0];
    QueueFurther(s, stack, queue, dist, v);
    var d := dist[v];
    forall j: nat | j < d
      ensures Walks(g, s, j, v) == 0.0
    {
      WalksNonNegative(g, s, j, v);
      if Walks(g, s, j, v) > 0.0 {
        Nearer(g, s, stack, queue, dist, j, v);
      }
    }
    assert WalkedTo(g, s, dist, v);
    if v != s {
      FrontSum(g, s, stack, queue, dist, sigma, preds);
    } else {
      assert SummedAt(g, s, dist, sigma, preds, v);
    }
  }

  lemma FrontSum(g: Digraph, s: nat, stack: seq<nat>, queue: seq<nat>, dist: map<nat, nat>, sigma: map<nat, real>,
      preds: Predecessors)
    requires queue != [] && Searching(g, s, stack, queue, dist, sigma, preds) && queue[0] != s
    requires queue[0] in dist
    ensures Get(sigma, queue[0]) == Walks(g, s, dist[queue[0]], queue[0])
  {
    var v := queue[0];
    var d, ins, ps := dist[v], Incoming(g.edges, v), PredsOf(preds, v);
    assert SummedAt(g, s, dist, sigma, preds, v);
    var f := WalksTo(g, s, d - 1);
    var keep := (x: nat) => x in stack && x in dist && dist[x] + 1 == d;
    forall x | x in ins
      ensures f(x) == if keep(x) then f(x) else 0.0
    {
      FrontSource(g, s, stack, queue, dist, sigma, preds, x);
    }
    FrontFilters(g, s, stack, dist, preds, v, keep);
    TotalFiltered(ins, ps, keep, f, f);
  }

  /** An edge into the front of the queue ends a walk of the right length only if it comes from
      a node that has left the queue and is nearer by one. */
  lemma FrontSource(g: Digraph, s: nat, stack: seq<nat>, queue: seq<nat>, dist: map<nat, nat>, sigma: map<nat, real>,
      preds: Predecessors, x: nat)
    requires queue != [] && Searching(g, s, stack, queue, dist, sigma, preds) && queue[0] != s && queue[0] in dist
    requires x in Incoming(g.edges, queue[0]) && dist[queue[0]] > 0
    ensures (x in stack && x in dist && dist[x] + 1 == dist[queue[0]]) || Walks(g, s, dist[queue[0]] - 1, x) == 0.0
  {
    var d := dist[queue[0]];
    WalksNonNegative(g, s, d - 1, x);
    if Walks(g, s, d - 1, x) > 0.0 {
      Nearer(g, s, stack, queue, dist, d - 1, x);
      InOrOut(g.edges, x, queue[0]);
      assert DoneExplored(g, stack, dist, x);
    }
  }

  lemma FrontFilters(g: Digraph, s: nat, stack: seq<nat>, dist: map<nat, nat>, preds: Predecessors, v: nat,
      keep: nat -> bool)
    requires v in dist && Preceded(g, stack, s, [], dist, preds)
    requires forall x :: keep(x) <==> x in stack && x in dist && dist[x] + 1 == dist[v]
    ensures Filters(Incoming(g.edges, v), PredsOf(preds, v), keep)
  {
    forall x
      ensures Count(PredsOf(preds, v), x) == if keep(x) then Count(Incoming(g.edges, v), x) else 0
    {
      assert PrecededAt(g, stack, s, [], dist, preds, x, v);
    }
  }

  lemma BeginExpanding(g: Digraph, s: nat, stack: seq<nat>, queue: seq<nat>, dist: map<nat, nat>, sigma: map<nat, real>,
      preds: Predecessors)
    requires queue != [] && Searching(g, s, stack, queue, dist, sigma, preds)
    ensures Expanding(g, s, stack, queue[0], [], queue[1..], dist, sigma, preds)
  {
    var v := queue[0];
    QueueFurther(s, stack, queue, dist, v);
    FrontIsFinal(g, s, stack, queue, dist, sigma, preds);
    assert stack + [v] + queue[1..] == stack + queue;
    NothingSeen(g, stack, s, v, dist, preds);
  }

  lemma NothingSeen(g: Digraph, stack: seq<nat>, s: nat, v: nat, dist: map<nat, nat>, preds: Predecessors)
    requires Preceded(g, stack, s, [], dist, preds)
    ensures Preceded(g, stack, v, [], dist, preds)
  {
    forall x: nat, w: nat
      ensures PrecededAt(g, stack, v, [], dist, preds, x, w)
    {
      assert PrecededAt(g, stack, s, [], dist, preds, x, w);
    }
  }

  lemma EndExpanding(g: Digraph, s: nat, stack: seq<nat>, v: nat, queue: seq<nat>, dist: map<nat, nat>,
      sigma: map<nat, real>, preds: Predecessors)
    requires Expanding(g, s, stack, v, Outgoing(g.edges, v), queue, dist, sigma, preds)
    ensures Searching(g, s, stack + [v], queue, dist, sigma, preds)
  {
    AllSeen(g, stack, s, v, dist, preds);
    ExploredMore(g, stack, v, dist);
    if queue != [] {
      NextFurther(s, stack, v, queue, dist);
    }
  }

  lemma NextFurther(s: nat, stack: seq<nat>, v: nat, queue: seq<nat>, dist: map<nat, nat>)
    requires Ordered(s, stack + [v] + queue, dist) && queue != [] && v in dist && Within(dist, dist[v] + 1)
    ensures queue[0] in dist && Within(dist, dist[queue[0]] + 1)
  {
    var all := stack + [v] + queue;
    assert all[|stack|] == v && all[|stack| + 1] == queue[0];
    assert NotFurther(all, dist, |stack|, |stack| + 1);
  }

  lemma ExploredMore(g: Digraph, stack: seq<nat>, v: nat, dist: map<nat, nat>)
    requires AllExplored(g, stack, dist) && Explored(v, Outgoing(g.edges, v), dist)
    ensures AllExplored(g, stack + [v], dist)
  {
    forall x: nat
      ensures DoneExplored(g, stack + [v], dist, x)
    {
      assert DoneExplored(g, stack, dist, x);
    }
  }

  lemma AllSeen(g: Digraph, stack: seq<nat>, s: nat, v: nat, dist: map<nat, nat>, preds: Predecessors)
    requires v in dist && v !in stack && Preceded(g, stack, v, Outgoing(g.edges, v), dist, preds)
    ensures Preceded(g, stack + [v], s, [], dist, preds)
  {
    forall x: nat, w: nat
      ensures PrecededAt(g, stack + [v], s, [], dist, preds, x, w)
    {
      assert PrecededAt(g, stack, v, Outgoing(g.edges, v), dist, preds, x, w);
      OutIsIn(g.edges, v, w);
    }
  }

  // ----- Looking at a target

  /** A target not found before goes to the end of the queue, one step further than v. */
  lemma Discover(g: Digraph, s: nat, stack: seq<nat>, v: nat, seen: seq<nat>, queue: seq<nat>, dist: map<nat, nat>,
      sigma: map<nat, real>, preds: Predecessors, w: nat)
    requires g.Valid() && w in Outgoing(g.edges, v) && w !in dist
    requires Expanding(g, s, stack, v, seen, queue, dist, sigma, preds)
    ensures Expanding(g, s, stack, v, seen, queue + [w], dist[w := dist[v] + 1], sigma, preds)
  {
    assert stack + [v] + (queue + [w]) == stack + [v] + queue + [w];
    DiscoverOrdered(s, stack + [v] + queue, dist, w, dist[v] + 1);
    DiscoverWalked(g, s, dist, v, w);
    DiscoverExplored(g, stack, v, seen, dist, w, dist[v] + 1);
    DiscoverSummed(g, s, dist, sigma, preds, w, dist[v] + 1);
    DiscoverPreceded(g, stack, v, seen, dist, sigma, preds, s, w, dist[v] + 1);
    DiscoverFinal(g, s, stack, dist, sigma, v, w, dist[v] + 1);
  }

  lemma DiscoverOrdered(s: nat, found: seq<nat>, dist: map<nat, nat>, w: nat, d: nat)
    requires Ordered(s, found, dist) && w !in dist && Within(dist, d)
    ensures Ordered(s, found + [w], dist[w := d]) && Within(dist[w := d], d)
  {
    var found', dist' := found + [w], dist[w := d];
    forall i: nat, j: nat
      ensures NotFurther(found', dist', i, j)
    {
      assert NotFurther(found, dist, i, j) && NotFurther(found, dist, i, i);
    }
  }

  lemma DiscoverWalked(g: Digraph, s: nat, dist: map<nat, nat>, v: nat, w: nat)
    requires g.Valid() && w in Outgoing(g.edges, v) && Walked(g, s, dist) && v in dist
    ensures Walked(g, s, dist[w := dist[v] + 1])
  {
    var dist' := dist[w := dist[v] + 1];
    assert WalkedTo(g, s, dist, v);
    OutgoingValid(g, v, w);
    StepOn(g, s, dist[v] + 1, v, w);
    forall x: nat
      ensures WalkedTo(g, s, dist', x)
    {
      assert WalkedTo(g, s, dist, x);
    }
  }

  lemma DiscoverExplored(g: Digraph, stack: seq<nat>, v: nat, seen: seq<nat>, dist: map<nat, nat>, w: nat, d: nat)
    requires AllExplored(g, stack, dist) && Explored(v, seen, dist) && w !in dist
    ensures AllExplored(g, stack, dist[w := d]) && Explored(v, seen, dist[w := d])
  {
    var dist' := dist[w := d];
    forall x: nat
      ensures DoneExplored(g, stack, dist', x)
    {
      assert DoneExplored(g, stack, dist, x);
    }
  }

  lemma DiscoverFinal(g: Digraph, s: nat, done: seq<nat>, dist: map<nat, nat>, sigma: map<nat, real>, v: nat, w: nat,
      d: nat)
    requires AllFinal(g, s, done, dist, sigma) && Final(g, s, dist, sigma, v) && w !in dist
    ensures AllFinal(g, s, done, dist[w := d], sigma) && Final(g, s, dist[w := d], sigma, v)
  {
    var dist' := dist[w := d];
    forall x: nat | x in done
      ensures Final(g, s, dist', sigma, x)
    {
      assert Final(g, s, dist, sigma, x);
    }
  }

  lemma DiscoverSummed(g: Digraph, s: nat, dist: map<nat, nat>, sigma: map<nat, real>, preds: Predecessors, w: nat,
      d: nat)
    requires Summed(g, s, dist, sigma, preds) && w !in dist && d > 0 && s in dist
    ensures Summed(g, s, dist[w := d], sigma, preds)
  {
    var dist' := dist[w := d];
    forall x: nat
      ensures SummedAt(g, s, dist', sigma, preds, x)
    {
      assert SummedAt(g, s, dist, sigma, preds, x);
    }
  }

  lemma DiscoverPreceded(g: Digraph, stack: seq<nat>, v: nat, seen: seq<nat>, dist: map<nat, nat>,
      sigma: map<nat, real>, preds: Predecessors, s: nat, w: nat, d: nat)
    requires Preceded(g, stack, v, seen, dist, preds) && Summed(g, s, dist, sigma, preds) && w !in dist
    requires AllExplored(g, stack, dist) && Explored(v, seen, dist)
    ensures Preceded(g, stack, v, seen, dist[w := d], preds)
  {
    var dist' := dist[w := d];
    forall x: nat, z: nat
      ensures PrecededAt(g, stack, v, seen, dist', preds, x, z)
    {
      assert DoneExplored(g, stack, dist, x);
      if z == w {
        assert SummedAt(g, s, dist, sigma, preds, w);
        NoEdgeYet(g, stack, v, seen, dist, x, w);
      } else {
        assert PrecededAt(g, stack, v, seen, dist, preds, x, z);
      }
    }
  }

  /** No edge looked at leads to a node not found. */
  lemma NoEdgeYet(g: Digraph, stack: seq<nat>, v: nat, seen: seq<nat>, dist: map<nat, nat>, x: nat, w: nat)
    requires DoneExplored(g, stack, dist, x) && Explored(v, seen, dist) && w !in dist
    ensures x in stack ==> Count(Incoming(g.edges, w), x) == 0
    ensures Count(seen, w) == 0
  {
    CountPositive(seen, w);
    InOrOut(g.edges, x, w);
    CountPositive(Incoming(g.edges, w), x);
  }

  /** A target one step further than v gets v as a predecessor and what v has of sigma. */
  lemma Accumulate(g: Digraph, s: nat, stack: seq<nat>, v: nat, seen: seq<nat>, queue: seq<nat>, dist: map<nat, nat>,
      sigma: map<nat, real>, preds: Predecessors, w: nat)
    requires Expanding(g, s, stack, v, seen, queue, dist, sigma, preds)
    requires w in dist && dist[w] == dist[v] + 1 && v in sigma
    ensures Expanding(g, s, stack, v, seen + [w], queue, dist, sigma[w := Get(sigma, w) + sigma[v]],
                      preds[w := PredsOf(preds, w) + [v]])
  {
    NotBefore(s, stack, v, queue, dist, w);
    AccumulateFinal(g, s, stack, dist, sigma, w, Get(sigma, w) + sigma[v]);
    AccumulateSummed(g, s, dist, sigma, preds, v, w);
    AccumulatePreceded(g, stack, v, seen, dist, preds, w);
  }

  /** Nodes further than v are not done. */
  lemma NotBefore(s: nat, stack: seq<nat>, v: nat, queue: seq<nat>, dist: map<nat, nat>, w: nat)
    requires Ordered(s, stack + [v] + queue, dist) && v in dist && w in dist && dist[w] > dist[v]
    ensures w !in stack && w != v
  {
    var all := stack + [v] + queue;
    assert all[|stack|] == v;
    forall i | 0 <= i < |stack|
      ensures stack[i] != w
    {
      assert NotFurther(all, dist, i, |stack|) && all[i] == stack[i];
    }
  }

  lemma AccumulateFinal(g: Digraph, s: nat, done: seq<nat>, dist: map<nat, nat>, sigma: map<nat, real>, w: nat,
      sum: real)
    requires AllFinal(g, s, done, dist, sigma) && w !in done
    ensures AllFinal(g, s, done, dist, sigma[w := sum])
  {
    var sigma' := sigma[w := sum];
    forall x: nat | x in done
      ensures Final(g, s, dist, sigma', x)
    {
      assert Final(g, s, dist, sigma, x);
    }
  }

  lemma AccumulateSummed(g: Digraph, s: nat, dist: map<nat, nat>, sigma: map<nat, real>, preds: Predecessors, v: nat,
      w: nat)
    requires Summed(g, s, dist, sigma, preds) && v in dist && w in dist && dist[w] == dist[v] + 1
    requires v in sigma && sigma[v] == Walks(g, s, dist[v], v)
    ensures Summed(g, s, dist, sigma[w := Get(sigma, w) + sigma[v]], preds[w := PredsOf(preds, w) + [v]])
  {
    var sigma', preds' := sigma[w := Get(sigma, w) + sigma[v]], preds[w := PredsOf(preds, w) + [v]];
    TotalMore(PredsOf(preds, w), v, WalksTo(g, s, dist[v]));
    forall x: nat
      ensures SummedAt(g, s, dist, sigma', preds', x)
    {
      assert SummedAt(g, s, dist, sigma, preds, x);
    }
  }

  lemma AccumulatePreceded(g: Digraph, stack: seq<nat>, v: nat, seen: seq<nat>, dist: map<nat, nat>,
      preds: Predecessors, w: nat)
    requires Preceded(g, stack, v, seen, dist, preds) && v in dist && w in dist && dist[w] == dist[v] + 1 && v !in stack
    ensures Preceded(g, stack, v, seen + [w], dist, preds[w := PredsOf(preds, w) + [v]])
  {
    var seen', preds' := seen + [w], preds[w := PredsOf(preds, w) + [v]];
    forall x: nat, z: nat
      ensures PrecededAt(g, stack, v, seen', dist, preds', x, z)
    {
      assert PrecededAt(g, stack, v, seen, dist, preds, x, z);
      DueMore(g, stack, v, seen, dist, x, z, w);
      CountMore(PredsOf(preds, w), v, x);
    }
  }

  lemma DueMore(g: Digraph, stack: seq<nat>, v: nat, seen: seq<nat>, dist: map<nat, nat>, x: nat, z: nat, w: nat)
    requires v !in stack
    ensures Due(g, stack, v, seen + [w], dist, x, z) == Due(g, stack, v, seen, dist, x, z) +
            if x == v && z == w && v in dist && w in dist && dist[w] == dist[v] + 1 then 1 else 0
  {
    CountMore(seen, w, z);
  }

  lemma CountMore(xs: seq<nat>, y: nat, x: nat)
    ensures Count(xs + [y], x) == Count(xs, x) + if x == y then 1 else 0
  {
    assert Front(xs + [y]) == xs;
  }

  /** A target no further than v is passed over. */
  lemma PassOver(g: Digraph, s: nat, stack: seq<nat>, v: nat, seen: seq<nat>, queue: seq<nat>, dist: map<nat, nat>,
      sigma: map<nat, real>, preds: Predecessors, w: nat)
    requires Expanding(g, s, stack, v, seen, queue, dist, sigma, preds)
    requires w in dist && dist[w] != dist[v] + 1
    ensures Expanding(g, s, stack, v, seen + [w], queue, dist, sigma, preds)
  {
    var seen' := seen + [w];
    forall x: nat, z: nat
      ensures PrecededAt(g, stack, v, seen', dist, preds, x, z)
    {
      assert PrecededAt(g, stack, v, seen, dist, preds, x, z);
      DueMore(g, stack, v, seen, dist, x, z, w);
    }
  }

  // ----- The search

  /** What the search from s yields: the nodes reached, nearest first, with the number of
      shortest walks to each and, for each edge on such a walk, its source among the
      predecessors of its target. */
  ghost predicate Searched(g: Digraph, s: nat, stack: seq<nat>, sigma: map<nat, real>, preds: Predecessors) {
    && NoRepeats(stack) && stack != [] && stack[0] == s
    && (forall x: nat :: x in stack <==> Reached(g, s, x))
    && (forall i: nat, j: nat {:trigger Nearest(g, s, stack, i, j)} :: Nearest(g, s, stack, i, j))
    && (forall x: nat {:trigger CountedAt(g, s, stack, sigma, x)} :: CountedAt(g, s, stack, sigma, x))
    && (forall v: nat, w: nat {:trigger LedTo(g, s, preds, v, w)} :: LedTo(g, s, preds, v, w))
  }

  ghost predicate Nearest(g: Digraph, s: nat, stack: seq<nat>, i: nat, j: nat) {
    i <= j < |stack| ==>
      Reached(g, s, stack[i]) && Reached(g, s, stack[j]) && Distance(g, s, stack[i]) <= Distance(g, s, stack[j])
  }

  ghost predicate CountedAt(g: Digraph, s: nat, stack: seq<nat>, sigma: map<nat, real>, x: nat) {
    x in stack ==> x < g.size && x in sigma && sigma[x] == Shortest(g, s, x)
  }

  ghost predicate LedTo(g: Digraph, s: nat, preds: Predecessors, v: nat, w: nat) {
    Reached(g, s, w) ==>
      Count(PredsOf(preds, w), v) == if Follows(g, s, v, w) then Count(Outgoing(g.edges, v), w) else 0
  }

  lemma SearchDone(g: Digraph, s: nat, stack: seq<nat>, dist: map<nat, nat>, sigma: map<nat, real>, preds: Predecessors)
    requires Searching(g, s, stack, [], dist, sigma, preds)
    ensures Searched(g, s, stack, sigma, preds)
  {
    assert stack + [] == stack;
    forall x: nat
      ensures x in stack <==> x in dist && Reached(g, s, x) && Distance(g, s, x) == dist[x]
      ensures x in stack <==> Reached(g, s, x)
      ensures CountedAt(g, s, stack, sigma, x)
    {
      SearchDoneAt(g, s, stack, dist, sigma, x);
    }
    forall i: nat, j: nat
      ensures Nearest(g, s, stack, i, j)
    {
      assert NotFurther(stack, dist, i, j);
    }
    forall v: nat, w: nat
      ensures LedTo(g, s, preds, v, w)
    {
      assert PrecededAt(g, stack, s, [], dist, preds, v, w);
      OutIsIn(g.edges, v, w);
    }
  }

  lemma SearchDoneAt(g: Digraph, s: nat, stack: seq<nat>, dist: map<nat, nat>, sigma: map<nat, real>, x: nat)
    requires Ordered(s, stack + [], dist) && Walked(g, s, dist) && AllExplored(g, stack, dist)
    requires AllFinal(g, s, stack, dist, sigma)
    ensures x in stack <==> x in dist && Reached(g, s, x) && Distance(g, s, x) == dist[x]
    ensures x in stack <==> Reached(g, s, x)
    ensures CountedAt(g, s, stack, sigma, x)
  {
    assert stack + [] == stack;
    if x in stack {
      assert Final(g, s, dist, sigma, x) && WalkedTo(g, s, dist, x);
      DistanceUnique(g, s, x, dist[x]);
    }
    if Reached(g, s, x) {
      Nearer(g, s, stack, [], dist, Distance(g, s, x), x);
    }
  }

  /** One target of v. */
  method LookAt(g: Digraph, s: nat, ghost stack: seq<nat>, v: nat, ghost seen: seq<nat>, d: nat, w: nat,
      queue: seq<nat>, dist: map<nat, nat>, sigma: map<nat, real>, preds: Predecessors)
    returns (queue': seq<nat>, dist': map<nat, nat>, sigma': map<nat, real>, preds': Predecessors)
    requires g.Valid() && w in Outgoing(g.edges, v)
    requires Expanding(g, s, stack, v, seen, queue, dist, sigma, preds) && dist[v] == d
    ensures Expanding(g, s, stack, v, seen + [w], queue', dist', sigma', preds') && dist'[v] == d
  {
    queue', dist', sigma', preds' := queue, dist, sigma, preds;
    if w !in dist {
      Discover(g, s, stack, v, seen, queue, dist, sigma, preds, w);
      queue' := queue + [w];
      dist' := dist[w := d + 1];
    }
    if dist'[w] == d + 1 {
      Accumulate(g, s, stack, v, seen, queue', dist', sigma, preds, w);
      sigma' := sigma[w := Get(sigma, w) + sigma[v]];
      preds' := preds[w := PredsOf(preds, w) + [v]];
    } else {
      PassOver(g, s, stack, v, seen, queue', dist', sigma, preds, w);
    }
  }

  ghost function Left(g: Digraph, stack: seq<nat>): set<nat> {
    set x: nat | x < g.size && x !in stack
  }

  /** Takes a node from the queue and looks at all of its targets. */
  method Expand(g: Digraph, s: nat, stack: seq<nat>, queue: seq<nat>, dist: map<nat, nat>, sigma: map<nat, real>,
      preds: Predecessors)
    returns (stack': seq<nat>, queue': seq<nat>, dist': map<nat, nat>, sigma': map<nat, real>, preds': Predecessors)
    requires g.Valid() && queue != [] && Searching(g, s, stack, queue, dist, sigma, preds)
    ensures Searching(g, s, stack', queue', dist', sigma', preds')
    ensures Left(g, stack') < Left(g, stack)
  {
    BeginExpanding(g, s, stack, queue, dist, sigma, preds);
    var v := queue[0];
    assert WalkedTo(g, s, dist, v);
    assert v in Left(g, stack);
    stack' := stack + [v];
    queue', dist', sigma', preds' := queue[1..], dist, sigma, preds;
    var d, targets := dist[v], Outgoing(g.edges, v);
    var i := 0;
    assert targets[..0] == [];
    while i < |targets|
      invariant 0 <= i <= |targets|
      invariant Expanding(g, s, stack, v, targets[..i], queue', dist', sigma', preds') && dist'[v] == d
    {
      queue', dist', sigma', preds' :=
        LookAt(g, s, stack, v, targets[..i], d, targets[i], queue', dist', sigma', preds');
      TakeNext(targets, i);
      i := i + 1;
    }
    assert targets[..i] == targets;
    EndExpanding(g, s, stack, v, queue', dist', sigma', preds');
  }

  method Search(g: Digraph, s: nat) returns (stack: seq<nat>, sigma: map<nat, real>, preds: Predecessors)
    requires g.Valid() && s < g.size
    ensures Searched(g, s, stack, sigma, preds)
  {
    Starting(g, s);
    var queue, dist: map<nat, nat> := [s], map[s := 0];
    stack, sigma, preds := [], map[s := 1.0], map[];
    while queue != []
      invariant Searching(g, s, stack, queue, dist, sigma, preds)
      decreases Left(g, stack)
    {
      stack, queue, dist, sigma, preds := Expand(g, s, stack, queue, dist, sigma, preds);
    }
    SearchDone(g, s, stack, dist, sigma, preds);
  }
}
