/** Searches of the commit graph: common ancestors and history. */
module Graph {
  import opened Wrappers
  import opened Reachability
  import opened Sequences
  import opened Objects

  /** Reads the parents of a commit; any other object has none. */
  function CommitParents(s: Objects, h: Hash): Result<seq<Hash>, Error> {
    if h in s then Ok(Parents(s[h])) else Err(NotFound(h))
  }

  // ----- Two-sided breadth-first search, as a function of its four variables

  /** What scanning one commit's parents leads to: a meeting point, or more to explore. */
  datatype Scan = Met(at: Hash) | Pending(seen: set<Hash>, queue: seq<Hash>)

  function ScanParents(parents: seq<Hash>, mine: set<Hash>, theirs: set<Hash>, queue: seq<Hash>): Scan {
    if parents == [] then Pending(mine, queue)
    else if parents[0] in mine then ScanParents(parents[1..], mine, theirs, queue)
    else if parents[0] in theirs then Met(parents[0])
    else ScanParents(parents[1..], mine + {parents[0]}, theirs, queue + [parents[0]])
  }

  datatype Step = Stop(result: Result<Option<Hash>, Error>) | Go(seen: set<Hash>, queue: seq<Hash>)

  /** One side takes the front of its queue. */
  function ExpandOne(s: Objects, mine: set<Hash>, theirs: set<Hash>, queue: seq<Hash>): Step {
    if queue == [] then Go(mine, queue)
    else if queue[0] in theirs then Stop(Ok(Some(queue[0])))
    else match CommitParents(s, queue[0])
      case Err(e) => Stop(Err(e))
      case Ok(parents) =>
        match ScanParents(parents, mine, theirs, queue[1..])
        case Met(p) => Stop(Ok(Some(p)))
        case Pending(seen, rest) => Go(seen, rest)
  }

  function StoredCount(s: Objects, queue: seq<Hash>): nat {
    if queue == [] then 0 else (if queue[0] in s then 1 else 0) + StoredCount(s, queue[1..])
  }

  lemma {:induction false} StoredCountAppend(s: Objects, queue: seq<Hash>, h: Hash)
    ensures StoredCount(s, queue + [h]) == StoredCount(s, queue) + if h in s then 1 else 0
  {
    if queue == [] {
      assert queue + [h] == [h];
    } else {
      assert (queue + [h])[1..] == queue[1..] + [h];
      StoredCountAppend(s, queue[1..], h);
    }
  }

  /** Scanning either finds a stored commit not seen before or adds no stored commit to
      the queue. */
  lemma {:induction false} ScanProgress(s: Objects, parents: seq<Hash>, mine: set<Hash>, theirs: set<Hash>,
      queue: seq<Hash>)
    ensures var r := ScanParents(parents, mine, theirs, queue);
      r.Pending? ==>
        && mine <= r.seen
        && |s.Keys - r.seen| <= |s.Keys - mine|
        && (|s.Keys - r.seen| < |s.Keys - mine| || StoredCount(s, r.queue) == StoredCount(s, queue))
    decreases |parents|
  {
    if parents != [] {
      var p := parents[0];
      if p in mine {
        ScanProgress(s, parents[1..], mine, theirs, queue);
      } else if p !in theirs {
        ScanProgress(s, parents[1..], mine + {p}, theirs, queue + [p]);
        StoredCountAppend(s, queue, p);
        Shrinks(s.Keys, mine, p);
      }
    }
  }

  lemma Shrinks(keys: set<Hash>, seen: set<Hash>, p: Hash)
    requires p !in seen
    ensures p in keys ==> |keys - (seen + {p})| < |keys - seen|
    ensures p !in keys ==> keys - (seen + {p}) == keys - seen
  {
    if p in keys {
      assert keys - seen == (keys - (seen + {p})) + {p};
    }
  }

  lemma ExpandProgress(s: Objects, mine: set<Hash>, theirs: set<Hash>, queue: seq<Hash>)
    ensures var r := ExpandOne(s, mine, theirs, queue);
      r.Go? ==>
        && mine <= r.seen
        && |s.Keys - r.seen| <= |s.Keys - mine|
        && (|s.Keys - r.seen| < |s.Keys - mine| || StoredCount(s, r.queue) <= StoredCount(s, queue))
        && (queue != [] ==> |s.Keys - r.seen| < |s.Keys - mine| || StoredCount(s, r.queue) < StoredCount(s, queue))
  {
    if queue != [] && queue[0] in s {
      ScanProgress(s, Parents(s[queue[0]]), mine, theirs, queue[1..]);
    }
  }

  /** The search from the moment both sides hold their seen sets and queues. */
  function Search(s: Objects, seenA: set<Hash>, seenB: set<Hash>, queueA: seq<Hash>, queueB: seq<Hash>)
    : Result<Option<Hash>, Error>
    decreases |s.Keys - seenA| + |s.Keys - seenB|, StoredCount(s, queueA) + StoredCount(s, queueB)
  {
    if queueA == [] && queueB == [] then Ok(None)
    else
      match ExpandOne(s, seenA, seenB, queueA)
      case Stop(r) => r
      case Go(seenA', queueA') =>
        match ExpandOne(s, seenB, seenA', queueB)
        case Stop(r) => r
        case Go(seenB', queueB') =>
          ExpandProgress(s, seenA, seenB, queueA);
          ExpandProgress(s, seenB, seenA', queueB);
          Search(s, seenA', seenB', queueA', queueB')
  }

  function CommonAncestorFrom(s: Objects, a: Hash, b: Hash): Result<Option<Hash>, Error> {
    if a == b then Ok(Some(a)) else Search(s, {a}, {b}, [a], [b])
  }

  // ----- The search in place

  method ExpandSide(s: Objects, mine: set<Hash>, theirs: set<Hash>, queue: seq<Hash>) returns (step: Step)
    ensures step == ExpandOne(s, mine, theirs, queue)
  {
    if queue == [] {
      return Go(mine, queue);
    }
    var current := queue[0];
    if current in theirs {
      return Stop(Ok(Some(current)));
    }
    if current !in s {
      return Stop(Err(NotFound(current)));
    }
    var parents := Parents(s[current]);
    var seen, rest := mine, queue[1..];
    var i := 0;
    while i < |parents|
      invariant 0 <= i <= |parents|
      invariant ScanParents(parents[i..], seen, theirs, rest) == ScanParents(parents, mine, theirs, queue[1..])
    {
      var p := parents[i];
      if p !in seen {
        seen := seen + {p};
        if p in theirs {
          return Stop(Ok(Some(p)));
        }
        rest := rest + [p];
      }
      i := i + 1;
    }
    return Go(seen, rest);
  }

  method CommonAncestor(s: Objects, a: Hash, b: Hash) returns (r: Result<Option<Hash>, Error>)
    ensures r == CommonAncestorFrom(s, a, b)
  {
    if a == b {
      return Ok(Some(a));
    }
    var seenA, seenB, queueA, queueB := {a}, {b}, [a], [b];
    while queueA != [] || queueB != []
      invariant Search(s, seenA, seenB, queueA, queueB) == Search(s, {a}, {b}, [a], [b])
      decreases |s.Keys - seenA| + |s.Keys - seenB|, StoredCount(s, queueA) + StoredCount(s, queueB)
    {
      var stepA := ExpandSide(s, seenA, seenB, queueA);
      if stepA.Stop? {
        return stepA.result;
      }
      var stepB := ExpandSide(s, seenB, stepA.seen, queueB);
      if stepB.Stop? {
        return stepB.result;
      }
      ExpandProgress(s, seenA, seenB, queueA);
      ExpandProgress(s, seenB, stepA.seen, queueB);
      seenA, queueA, seenB, queueB := stepA.seen, stepA.queue, stepB.seen, stepB.queue;
    }
    return Ok(None);
  }

  // ----- What the search returns

  /** What scanning adds: exactly the parents not seen before, each queued once; a meeting
      point is a parent the other side knows and this side does not. */
  lemma {:induction false} ScanMeaning(parents: seq<Hash>, mine: set<Hash>, theirs: set<Hash>, queue: seq<Hash>)
    requires forall q :: q in queue ==> q in mine
    requires NoRepeats(queue)
    ensures var r := ScanParents(parents, mine, theirs, queue);
      match r
      case Met(p) => p in parents && p in theirs && p !in mine
      case Pending(seen, rest) =>
        && seen == mine + (set p | p in parents)
        && NoRepeats(rest)
        && |rest| <= |queue| + |parents|
        && (forall h :: h in rest <==> h in queue || (h in parents && h !in mine))
        && (forall h :: h in parents && h !in mine ==> h !in theirs)
    decreases |parents|
  {
    if parents != [] {
      var p := parents[0];
      assert parents == [p] + parents[1..];
      if p in mine {
        ScanMeaning(parents[1..], mine, theirs, queue);
      } else if p !in theirs {
        ScanMeaning(parents[1..], mine + {p}, theirs, queue + [p]);
      }
    }
  }

  /** A side of the search, started at `from`: it has seen only history of `from`, and has
      read the parents of everything seen that is not queued. */
  ghost predicate Side(s: Objects, from: Hash, seen: set<Hash>, queue: seq<Hash>) {
    && from in seen
    && NoRepeats(queue)
    && (forall q :: q in queue ==> q in seen)
    && (forall x :: x in seen ==> Ancestor(s, x, from))
    && (forall x :: x in seen && x !in queue ==> x in s)
    && (forall x, y :: x in seen && x !in queue && Edge(CommitGraph(s), x, y) ==> y in seen)
  }

  lemma StartSide(s: Objects, from: Hash)
    ensures Side(s, from, {from}, [from])
  {
    ReachesSelf(CommitGraph(s), from);
  }

  /** Once the queue is empty, the side has seen all of the history. */
  lemma SideComplete(s: Objects, from: Hash, seen: set<Hash>, c: Hash)
    requires Side(s, from, seen, []) && Ancestor(s, c, from)
    ensures c in seen
  {
    ClosedReaches(CommitGraph(s), seen, from, c);
  }

  /** Taking the front of the queue keeps the side's invariant, whichever way it ends. */
  lemma ExpandMeaning(s: Objects, from: Hash, mine: set<Hash>, theirs: set<Hash>, queue: seq<Hash>)
    requires Side(s, from, mine, queue) && mine !! theirs
    ensures var r := ExpandOne(s, mine, theirs, queue);
      && (r.Go? ==> Side(s, from, r.seen, r.queue) && r.seen !! theirs)
      && (r.Stop? && r.result.Err? ==> Missing(s, r.result.error) && Ancestor(s, r.result.error.hash, from))
      && (r.Stop? && r.result.Ok? ==>
            && r.result.value.Some? && r.result.value.value in theirs
            && queue != [] && queue[0] in s && r.result.value.value in Parents(s[queue[0]])
            && Ancestor(s, r.result.value.value, from))
  {
    if queue != [] && queue[0] in s {
      var g, current := CommitGraph(s), queue[0];
      assert queue == [current] + queue[1..];
      assert current in mine && Ancestor(s, current, from);
      ScanMeaning(Parents(s[current]), mine, theirs, queue[1..]);
      forall p | p in Parents(s[current])
        ensures Ancestor(s, p, from)
      {
        assert Edge(g, current, p);
        ReachesThenEdge(g, from, current, p);
      }
    }
  }

  /** The outcome of a search is right for the tips a and b. */
  ghost predicate Right(s: Objects, a: Hash, b: Hash, r: Result<Option<Hash>, Error>) {
    if r.Err? then Missing(s, r.error) && (Ancestor(s, r.error.hash, a) || Ancestor(s, r.error.hash, b))
    else if r.value.Some? then CommonAncestorOf(s, r.value.value, a, b)
    else forall c :: !CommonAncestorOf(s, c, a, b)
  }

  lemma {:induction false} SearchRight(s: Objects, a: Hash, b: Hash,
      seenA: set<Hash>, seenB: set<Hash>, queueA: seq<Hash>, queueB: seq<Hash>)
    requires Side(s, a, seenA, queueA) && Side(s, b, seenB, queueB) && seenA !! seenB
    ensures Right(s, a, b, Search(s, seenA, seenB, queueA, queueB))
    decreases |s.Keys - seenA| + |s.Keys - seenB|, StoredCount(s, queueA) + StoredCount(s, queueB)
  {
    if queueA == [] && queueB == [] {
      forall c | CommonAncestorOf(s, c, a, b)
        ensures false
      {
        SideComplete(s, a, seenA, c);
        SideComplete(s, b, seenB, c);
      }
    } else {
      ExpandMeaning(s, a, seenA, seenB, queueA);
      var stepA := ExpandOne(s, seenA, seenB, queueA);
      if stepA.Go? {
        ExpandMeaning(s, b, seenB, stepA.seen, queueB);
        var stepB := ExpandOne(s, seenB, stepA.seen, queueB);
        if stepB.Go? {
          ExpandProgress(s, seenA, seenB, queueA);
          ExpandProgress(s, seenB, stepA.seen, queueB);
          SearchRight(s, a, b, stepA.seen, stepB.seen, stepA.queue, stepB.queue);
        }
      }
    }
  }

  /** `CommonAncestor` returns a commit of both histories, returns None exactly when the
      histories are disjoint, and fails only on a commit that history names and the store
      lacks. */
  lemma CommonAncestorRight(s: Objects, a: Hash, b: Hash)
    ensures Right(s, a, b, CommonAncestorFrom(s, a, b))
  {
    StartSide(s, a);
    StartSide(s, b);
    if a == b {
      ReachesSelf(CommitGraph(s), a);
    } else {
      SearchRight(s, a, b, {a}, {b}, [a], [b]);
    }
  }

  /** On a closed commit graph the search never fails. */
  lemma CommonAncestorOfClosed(s: Objects, a: Hash, b: Hash)
    requires Complete(CommitGraph(s)) && a in s && b in s
    ensures CommonAncestorFrom(s, a, b).Ok?
  {
    CommonAncestorRight(s, a, b);
    var g, r := CommitGraph(s), CommonAncestorFrom(s, a, b);
    if r.Err? {
      if Ancestor(s, r.error.hash, a) {
        ClosedReaches(g, g.Keys, a, r.error.hash);
      } else {
        ClosedReaches(g, g.Keys, b, r.error.hash);
      }
    }
  }

  // ----- Growing stores

  lemma ExpandStable(s: Objects, s': Objects, mine: set<Hash>, theirs: set<Hash>, queue: seq<Hash>)
    requires Complete(CommitGraph(s)) && Extends(CommitGraph(s), CommitGraph(s'))
    requires mine <= s.Keys && forall q :: q in queue ==> q in s
    ensures ExpandOne(s', mine, theirs, queue) == ExpandOne(s, mine, theirs, queue)
    ensures var r := ExpandOne(s, mine, theirs, queue);
      r.Go? ==> r.seen <= s.Keys && forall q :: q in r.queue ==> q in s
  {
    if queue != [] {
      var parents := Parents(s[queue[0]]);
      assert queue[0] in CommitGraph(s) && Parents(s'[queue[0]]) == parents;
      assert forall p :: p in parents ==> Edge(CommitGraph(s), queue[0], p);
      ScanStays(parents, mine, theirs, queue[1..], s.Keys);
    }
  }

  lemma {:induction false} ScanStays(parents: seq<Hash>, mine: set<Hash>, theirs: set<Hash>, queue: seq<Hash>,
      all: set<Hash>)
    requires mine <= all && (forall q :: q in queue ==> q in all) && forall p :: p in parents ==> p in all
    ensures var r := ScanParents(parents, mine, theirs, queue);
      r.Pending? ==> r.seen <= all && forall q :: q in r.queue ==> q in all
    decreases |parents|
  {
    if parents != [] {
      if parents[0] in mine {
        ScanStays(parents[1..], mine, theirs, queue, all);
      } else if parents[0] !in theirs {
        ScanStays(parents[1..], mine + {parents[0]}, theirs, queue + [parents[0]], all);
      }
    }
  }

  lemma {:induction false} SearchStable(s: Objects, s': Objects, seenA: set<Hash>, seenB: set<Hash>, queueA: seq<Hash>,
      queueB: seq<Hash>)
    requires Complete(CommitGraph(s)) && Extends(CommitGraph(s), CommitGraph(s'))
    requires seenA <= s.Keys && seenB <= s.Keys
    requires (forall q :: q in queueA ==> q in s) && (forall q :: q in queueB ==> q in s)
    ensures Search(s', seenA, seenB, queueA, queueB) == Search(s, seenA, seenB, queueA, queueB)
    decreases |s.Keys - seenA| + |s.Keys - seenB|, StoredCount(s, queueA) + StoredCount(s, queueB)
  {
    if queueA != [] || queueB != [] {
      ExpandStable(s, s', seenA, seenB, queueA);
      var stepA := ExpandOne(s, seenA, seenB, queueA);
      if stepA.Go? {
        ExpandStable(s, s', seenB, stepA.seen, queueB);
        var stepB := ExpandOne(s, seenB, stepA.seen, queueB);
        if stepB.Go? {
          ExpandProgress(s, seenA, seenB, queueA);
          ExpandProgress(s, seenB, stepA.seen, queueB);
          SearchStable(s, s', stepA.seen, stepB.seen, stepA.queue, stepB.queue);
        }
      }
    }
  }

  /** What a store gains beside a closed commit graph does not change a search in it. */
  lemma CommonAncestorStable(s: Objects, s': Objects, a: Hash, b: Hash)
    requires Complete(CommitGraph(s)) && Extends(CommitGraph(s), CommitGraph(s')) && a in s && b in s
    ensures CommonAncestorFrom(s', a, b) == CommonAncestorFrom(s, a, b)
  {
    if a != b {
      SearchStable(s, s', {a}, {b}, [a], [b]);
    }
  }

  // ----- When the common ancestor is the lowest one

  /** Every common ancestor is in the history of c. */
  ghost predicate Lowest(s: Objects, c: Hash, a: Hash, b: Hash) {
    forall d :: CommonAncestorOf(s, d, a, b) ==> Ancestor(s, d, c)
  }

  /** x is in the history of one of the tips only. */
  ghost predicate InOne(s: Objects, x: Hash, a: Hash, b: Hash) {
    (Ancestor(s, x, a) || Ancestor(s, x, b)) && !CommonAncestorOf(s, x, a, b)
  }

  /** A place where the two histories join: a tip that lies in the other history, or a common
      ancestor with a child in one of the histories only. */
  ghost predicate Gateway(s: Objects, m: Hash, a: Hash, b: Hash) {
    CommonAncestorOf(s, m, a, b) && (m == a || m == b || exists x :: InOne(s, x, a, b) && Edge(CommitGraph(s), x, m))
  }

  ghost predicate OneGateway(s: Objects, a: Hash, b: Hash) {
    forall m, n :: Gateway(s, m, a, b) && Gateway(s, n, a, b) ==> m == n
  }

  lemma {:induction false} PathThroughGateway(s: Objects, a: Hash, b: Hash, p: seq<Hash>) returns (m: Hash)
    requires IsPath(CommitGraph(s), p) && Ancestor(s, p[0], a)
    requires CommonAncestorOf(s, p[|p| - 1], a, b) && !CommonAncestorOf(s, p[0], a, b)
    ensures Gateway(s, m, a, b) && Ancestor(s, p[|p| - 1], m)
    decreases |p|
  {
    var g := CommitGraph(s);
    assert Edge(g, p[0], p[1]);
    ReachesThenEdge(g, a, p[0], p[1]);
    if CommonAncestorOf(s, p[1], a, b) {
      m := p[1];
      assert PathBetween(g, p[1..], m, p[|p| - 1]);
    } else {
      m := PathThroughGateway(s, a, b, p[1..]);
    }
  }

  /** Every common ancestor lies behind a gateway. */
  lemma BehindGateway(s: Objects, a: Hash, b: Hash, c: Hash) returns (m: Hash)
    requires CommonAncestorOf(s, c, a, b)
    ensures Gateway(s, m, a, b) && Ancestor(s, c, m)
  {
    ReachesSelf(CommitGraph(s), a);
    if CommonAncestorOf(s, a, a, b) {
      m := a;
    } else {
      var p :| PathBetween(CommitGraph(s), p, a, c);
      m := PathThroughGateway(s, a, b, p);
    }
  }

  /** A side that has seen common history has seen the gateway. */
  ghost predicate Entered(s: Objects, a: Hash, b: Hash, l: Hash, seen: set<Hash>) {
    forall c :: c in seen && CommonAncestorOf(s, c, a, b) ==> l in seen
  }

  /** Taking the front of the queue enters common history through the gateway only, and the
      sides meet there. */
  lemma ExpandEnters(s: Objects, a: Hash, b: Hash, l: Hash, from: Hash, other: Hash, mine: set<Hash>, theirs: set<Hash>,
      queue: seq<Hash>)
    requires (from == a && other == b) || (from == b && other == a)
    requires Side(s, from, mine, queue) && mine !! theirs && forall x :: x in theirs ==> Ancestor(s, x, other)
    requires forall m :: Gateway(s, m, a, b) ==> m == l
    requires Entered(s, a, b, l, mine) && Entered(s, a, b, l, theirs)
    ensures var r := ExpandOne(s, mine, theirs, queue);
      && (r.Go? ==> Entered(s, a, b, l, r.seen))
      && (r.Stop? && r.result.Ok? ==> r.result.value == Some(l))
  {
    ExpandMeaning(s, from, mine, theirs, queue);
    if queue != [] && queue[0] in s {
      var current := queue[0];
      assert queue == [current] + queue[1..];
      ScanMeaning(Parents(s[current]), mine, theirs, queue[1..]);
      forall p | p in Parents(s[current]) && CommonAncestorOf(s, p, a, b)
        ensures p == l || l in mine
      {
        assert Edge(CommitGraph(s), current, p);
        if !CommonAncestorOf(s, current, a, b) {
          assert InOne(s, current, a, b);
          assert Gateway(s, p, a, b);
        }
      }
    }
  }

  lemma {:induction false} SearchGateway(s: Objects, a: Hash, b: Hash, l: Hash,
      seenA: set<Hash>, seenB: set<Hash>, queueA: seq<Hash>, queueB: seq<Hash>)
    requires Side(s, a, seenA, queueA) && Side(s, b, seenB, queueB) && seenA !! seenB
    requires forall m :: Gateway(s, m, a, b) ==> m == l
    requires Entered(s, a, b, l, seenA) && Entered(s, a, b, l, seenB)
    ensures var r := Search(s, seenA, seenB, queueA, queueB); r.Ok? && r.value.Some? ==> r.value == Some(l)
    decreases |s.Keys - seenA| + |s.Keys - seenB|, StoredCount(s, queueA) + StoredCount(s, queueB)
  {
    if queueA != [] || queueB != [] {
      ExpandMeaning(s, a, seenA, seenB, queueA);
      ExpandEnters(s, a, b, l, a, b, seenA, seenB, queueA);
      var stepA := ExpandOne(s, seenA, seenB, queueA);
      if stepA.Go? {
        ExpandMeaning(s, b, seenB, stepA.seen, queueB);
        ExpandEnters(s, a, b, l, b, a, seenB, stepA.seen, queueB);
        var stepB := ExpandOne(s, seenB, stepA.seen, queueB);
        if stepB.Go? {
          ExpandProgress(s, seenA, seenB, queueA);
          ExpandProgress(s, seenB, stepA.seen, queueB);
          SearchGateway(s, a, b, l, stepA.seen, stepB.seen, stepA.queue, stepB.queue);
        }
      }
    }
  }

  /** Where the histories join in one place only, the common ancestor found is that place,
      and it is the lowest. */
  lemma CommonAncestorLowest(s: Objects, a: Hash, b: Hash)
    requires OneGateway(s, a, b)
    ensures var r := CommonAncestorFrom(s, a, b);
      r.Ok? && r.value.Some? ==> Gateway(s, r.value.value, a, b) && Lowest(s, r.value.value, a, b)
  {
    var r := CommonAncestorFrom(s, a, b);
    if r.Ok? && r.value.Some? {
      CommonAncestorRight(s, a, b);
      var l := BehindGateway(s, a, b, r.value.value);
      StartSide(s, a);
      StartSide(s, b);
      if a != b {
        assert CommonAncestorOf(s, a, a, b) ==> Gateway(s, a, a, b);
        assert CommonAncestorOf(s, b, a, b) ==> Gateway(s, b, a, b);
        SearchGateway(s, a, b, l, {a}, {b}, [a], [b]);
      }
      forall d | CommonAncestorOf(s, d, a, b)
        ensures Ancestor(s, d, l)
      {
        var m := BehindGateway(s, a, b, d);
      }
    }
  }

  /** No commit of one history only has two parents: merges lie in the common part, or
      elsewhere. */
  ghost predicate Unmerged(s: Objects, a: Hash, b: Hash) {
    forall x :: x in s && InOne(s, x, a, b) ==> |Parents(s[x])| <= 1
  }

  /** Along a path within one history, the common ancestors stay behind. */
  lemma {:induction false} BehindBranch(s: Objects, a: Hash, b: Hash, p: seq<Hash>, c: Hash)
    requires Unmerged(s, a, b) && IsPath(CommitGraph(s), p) && (Ancestor(s, p[0], a) || Ancestor(s, p[0], b))
    requires CommonAncestorOf(s, c, a, b) && Ancestor(s, c, p[0]) && !CommonAncestorOf(s, p[|p| - 1], a, b)
    ensures Ancestor(s, c, p[|p| - 1])
    decreases |p|
  {
    var g, x := CommitGraph(s), p[|p| - 1];
    if |p| > 1 {
      assert PathBetween(g, p, p[0], x);
      assert Edge(g, p[0], p[1]);
      if CommonAncestorOf(s, p[0], a, b) {
        ReachesTransitive(g, a, p[0], x);
        ReachesTransitive(g, b, p[0], x);
        assert false;
      }
      assert InOne(s, p[0], a, b);
      var y := FirstStep(g, p[0], c);
      assert y == p[1];
      if Ancestor(s, p[0], a) {
        ReachesThenEdge(g, a, p[0], p[1]);
      } else {
        ReachesThenEdge(g, b, p[0], p[1]);
      }
      BehindBranch(s, a, b, p[1..], c);
    }
  }

  /** If no commit of one history only has two parents, every gateway is lowest. */
  lemma UnmergedLowest(s: Objects, a: Hash, b: Hash, m: Hash)
    requires Unmerged(s, a, b) && Gateway(s, m, a, b)
    ensures Lowest(s, m, a, b)
  {
    var g := CommitGraph(s);
    forall c | CommonAncestorOf(s, c, a, b)
      ensures Ancestor(s, c, m)
    {
      if m != a && m != b {
        var x :| InOne(s, x, a, b) && Edge(g, x, m);
        var tip := if Ancestor(s, x, a) then a else b;
        ReachesSelf(g, tip);
        var p :| PathBetween(g, p, tip, x);
        BehindBranch(s, a, b, p, c);
        var y := FirstStep(g, x, c);
        assert y == m;
      }
    }
  }

  // ----- When it is not

  lemma ExpandOnly(s: Objects, mine: set<Hash>, theirs: set<Hash>, h: Hash, rest: seq<Hash>, p: Hash)
    requires h in s && Parents(s[h]) == [p] && h !in theirs && p !in mine
    ensures ExpandOne(s, mine, theirs, [h] + rest) ==
      if p in theirs then Stop(Ok(Some(p))) else Go(mine + {p}, rest + [p])
  {
    var queue := [h] + rest;
    assert queue[1..] == rest && [p][1..] == [];
    assert ScanParents([], mine + {p}, theirs, rest + [p]) == Pending(mine + {p}, rest + [p]);
  }

  lemma ExpandBoth(s: Objects, mine: set<Hash>, theirs: set<Hash>, h: Hash, p: Hash, q: Hash)
    requires h in s && Parents(s[h]) == [p, q] && h !in theirs && p !in mine && q !in mine && p != q
    requires p !in theirs && q !in theirs
    ensures ExpandOne(s, mine, theirs, [h]) == Go(mine + {p} + {q}, [p, q])
  {
    assert [h][1..] == [] && [p, q][1..] == [q] && [q][1..] == [];
    assert ScanParents([], mine + {p} + {q}, theirs, [p] + [q]) == Pending(mine + {p} + {q}, [p] + [q]);
    assert ScanParents([q], mine + {p}, theirs, [] + [p]) == Pending(mine + {p} + {q}, [p, q]);
  }

  lemma ExpandRoot(s: Objects, mine: set<Hash>, theirs: set<Hash>, h: Hash)
    requires h in s && Parents(s[h]) == [] && h !in theirs
    ensures ExpandOne(s, mine, theirs, [h]) == Go(mine, [])
  {
    assert [h][1..] == [];
  }

  lemma SearchRound(s: Objects, seenA: set<Hash>, seenB: set<Hash>, queueA: seq<Hash>, queueB: seq<Hash>,
      seenA': set<Hash>, seenB': set<Hash>, queueA': seq<Hash>, queueB': seq<Hash>)
    requires queueA != [] && ExpandOne(s, seenA, seenB, queueA) == Go(seenA', queueA')
    requires ExpandOne(s, seenB, seenA', queueB) == Go(seenB', queueB')
    ensures Search(s, seenA, seenB, queueA, queueB) == Search(s, seenA', seenB', queueA', queueB')
  {
  }

  lemma SearchStops(s: Objects, seenA: set<Hash>, seenB: set<Hash>, queueA: seq<Hash>, queueB: seq<Hash>, p: Hash)
    requires queueA != [] && ExpandOne(s, seenA, seenB, queueA) == Stop(Ok(Some(p)))
    ensures Search(s, seenA, seenB, queueA, queueB) == Ok(Some(p))
  {
  }

  /** The commit h has exactly these parents. */
  predicate On(s: Objects, h: Hash, parents: seq<Hash>) {
    h in s && s[h].Commit? && s[h].parents == parents
  }

  /** Two lines of commits from r: b, m and x on one, y on the other. */
  predicate TwoLines(s: Objects, x: Hash, y: Hash, m: Hash, b: Hash, r: Hash) {
    && On(s, x, [m]) && On(s, m, [b]) && On(s, b, [r]) && On(s, y, [r]) && On(s, r, [])
    && x !in {y, m, b, r} && y !in {m, b, r} && m !in {b, r} && b != r
  }

  /** The same with a, the merge of y into x. */
  predicate MergedLines(s: Objects, a: Hash, x: Hash, y: Hash, m: Hash, b: Hash, r: Hash) {
    TwoLines(s, x, y, m, b, r) && On(s, a, [x, y]) && a !in {x, y, m, b, r}
  }

  /** The merge is called for: the search from x and y meets at r, where the lines part. */
  lemma LinesPart(s: Objects, x: Hash, y: Hash, m: Hash, b: Hash, r: Hash)
    requires TwoLines(s, x, y, m, b, r)
    ensures CommonAncestorFrom(s, x, y) == Ok(Some(r))
  {
    ExpandOnly(s, {x}, {y}, x, [], m);
    ExpandOnly(s, {y}, {x} + {m}, y, [], r);
    ExpandOnly(s, {x} + {m}, {y} + {r}, m, [], b);
    ExpandRoot(s, {y} + {r}, {x} + {m} + {b}, r);
    ExpandOnly(s, {x} + {m} + {b}, {y} + {r}, b, [], r);
    NoneAppended();
    SearchRound(s, {x}, {y}, [x], [y], {x} + {m}, {y} + {r}, [m], [r]);
    SearchRound(s, {x} + {m}, {y} + {r}, [m], [r], {x} + {m} + {b}, {y} + {r}, [b], []);
    SearchStops(s, {x} + {m} + {b}, {y} + {r}, [b], [], r);
  }

  lemma NoneAppended()
    ensures forall h: Hash :: [h] + [] == [h] && [] + [h] == [h]
  {
  }

  /** After a merge it need not be: b is in a's history, yet the search from a and b meets at r,
      an ancestor of b, coming down the other line. */
  lemma CommonAncestorNotLowest(s: Objects, a: Hash, x: Hash, y: Hash, m: Hash, b: Hash, r: Hash)
    requires MergedLines(s, a, x, y, m, b, r)
    ensures CommonAncestorFrom(s, a, b) == Ok(Some(r))
    ensures CommonAncestorOf(s, b, a, b) && !Ancestor(s, b, r)
  {
    MeetsAtRoot(s, a, x, y, m, b, r);
    var g := CommitGraph(s);
    assert Edge(g, a, x) && Edge(g, x, m) && Edge(g, m, b);
    ReachesByEdge(g, m, b);
    ReachesEdgeThen(g, x, m, b);
    ReachesEdgeThen(g, a, x, b);
    ReachesSelf(g, b);
    if Ancestor(s, b, r) {
      var z := FirstStep(g, r, b);
      assert false;
    }
  }

  lemma MeetsAtRoot(s: Objects, a: Hash, x: Hash, y: Hash, m: Hash, b: Hash, r: Hash)
    requires MergedLines(s, a, x, y, m, b, r)
    ensures CommonAncestorFrom(s, a, b) == Ok(Some(r))
  {
    ExpandBoth(s, {a}, {b}, a, x, y);
    ExpandOnly(s, {b}, {a} + {x} + {y}, b, [], r);
    ExpandOnly(s, {a} + {x} + {y}, {b} + {r}, x, [y], m);
    ExpandRoot(s, {b} + {r}, {a} + {x} + {y} + {m}, r);
    ExpandOnly(s, {a} + {x} + {y} + {m}, {b} + {r}, y, [m], r);
    NoneAppended();
    assert [x] + [y] == [x, y] && [y] + [m] == [y, m];
    SearchRound(s, {a}, {b}, [a], [b], {a} + {x} + {y}, {b} + {r}, [x, y], [r]);
    SearchRound(s, {a} + {x} + {y}, {b} + {r}, [x, y], [r], {a} + {x} + {y} + {m}, {b} + {r}, [y, m], []);
    SearchStops(s, {a} + {x} + {y} + {m}, {b} + {r}, [y, m], [], r);
  }

  // ----- History

  function Hashes(entries: seq<Entry>): (hs: seq<Hash>)
    ensures |hs| == |entries|
  {
    seq(|entries|, i requires 0 <= i < |entries| => entries[i].0)
  }

  /** What a walk still lists, given its queue, the commits ever queued, and how many it
      has listed. */
  function Walk(s: Objects, queue: seq<Hash>, visited: set<Hash>, limit: Option<nat>, taken: nat)
    : Result<seq<Entry>, Error>
    decreases |s.Keys - visited|, StoredCount(s, queue)
  {
    if queue == [] || (limit.Some? && taken >= limit.value) then Ok([])
    else if queue[0] !in s then Err(NotFound(queue[0]))
    else if s[queue[0]].Commit? then
      ScanProgress(s, Parents(s[queue[0]]), visited, {}, queue[1..]);
      var next := ScanParents(Parents(s[queue[0]]), visited, {}, queue[1..]);
      ScanNeverMeets(Parents(s[queue[0]]), visited, queue[1..]);
      var rest :- Walk(s, next.queue, next.seen, limit, taken + 1);
      Ok([(queue[0], s[queue[0]])] + rest)
    else Walk(s, queue[1..], visited, limit, taken)
  }

  /** The whole of `log`: the walk from a tip. */
  function History(s: Objects, from: Hash, limit: Option<nat>): Result<seq<Entry>, Error> {
    Walk(s, [from], {from}, limit, 0)
  }

  lemma {:induction false} ScanNeverMeets(parents: seq<Hash>, mine: set<Hash>, queue: seq<Hash>)
    ensures ScanParents(parents, mine, {}, queue).Pending?
    decreases |parents|
  {
    if parents != [] {
      if parents[0] in mine {
        ScanNeverMeets(parents[1..], mine, queue);
      } else {
        ScanNeverMeets(parents[1..], mine + {parents[0]}, queue + [parents[0]]);
      }
    }
  }

  function After(found: seq<Entry>, tail: Result<seq<Entry>, Error>): Result<seq<Entry>, Error> {
    if tail.Ok? then Ok(found + tail.value) else tail
  }

  /** Listing the front of the queue and walking on comes to the same list, and sooner to
      its end. */
  lemma WalkOn(s: Objects, found: seq<Entry>, queue: seq<Hash>, visited: set<Hash>, limit: Option<nat>,
      queue': seq<Hash>, visited': set<Hash>)
    requires queue != [] && (limit.Some? ==> |found| < limit.value) && queue[0] in s && s[queue[0]].Commit?
    requires ScanParents(s[queue[0]].parents, visited, {}, queue[1..]) == Pending(visited', queue')
    ensures After(found, Walk(s, queue, visited, limit, |found|))
         == After(found + [(queue[0], s[queue[0]])], Walk(s, queue', visited', limit, |found| + 1))
    ensures |s.Keys - visited'| <= |s.Keys - visited|
    ensures |s.Keys - visited'| < |s.Keys - visited| || StoredCount(s, queue') < StoredCount(s, queue)
  {
    ScanProgress(s, s[queue[0]].parents, visited, {}, queue[1..]);
    var e := (queue[0], s[queue[0]]);
    WalkFront(s, queue, visited, limit, |found|, queue', visited');
    AfterOne(found, e, Walk(s, queue', visited', limit, |found| + 1));
  }

  lemma WalkFront(s: Objects, queue: seq<Hash>, visited: set<Hash>, limit: Option<nat>, taken: nat,
      queue': seq<Hash>, visited': set<Hash>)
    requires queue != [] && (limit.Some? ==> taken < limit.value) && queue[0] in s && s[queue[0]].Commit?
    requires ScanParents(s[queue[0]].parents, visited, {}, queue[1..]) == Pending(visited', queue')
    ensures Walk(s, queue, visited, limit, taken)
         == After([(queue[0], s[queue[0]])], Walk(s, queue', visited', limit, taken + 1))
  {
  }

  lemma AfterOne(found: seq<Entry>, e: Entry, tail: Result<seq<Entry>, Error>)
    ensures After(found, After([e], tail)) == After(found + [e], tail)
  {
    if tail.Ok? {
      assert found + [e] + tail.value == found + ([e] + tail.value);
    }
  }

  method QueueParents(parents: seq<Hash>, seen: set<Hash>, waiting: seq<Hash>)
    returns (visited: set<Hash>, queue: seq<Hash>)
    ensures ScanParents(parents, seen, {}, waiting) == Pending(visited, queue)
  {
    visited, queue := seen, waiting;
    var i := 0;
    while i < |parents|
      invariant 0 <= i <= |parents|
      invariant ScanParents(parents[i..], visited, {}, queue) == ScanParents(parents, seen, {}, waiting)
    {
      if parents[i] !in visited {
        visited := visited + {parents[i]};
        queue := queue + [parents[i]];
      }
      i := i + 1;
    }
  }

  /** Lists the history of `from`, at most `limit` commits of it. */
  method WalkHistory(s: Objects, from: Hash, limit: Option<nat>) returns (r: Result<seq<Entry>, Error>)
    ensures r == History(s, from, limit)
  {
    var queue, visited := [from], {from};
    var found: seq<Entry> := [];
    ghost var whole := History(s, from, limit);
    AfterNone(whole);
    while queue != []
      invariant whole == After(found, Walk(s, queue, visited, limit, |found|))
      decreases |s.Keys - visited|, StoredCount(s, queue)
    {
      if limit.Some? && |found| >= limit.value {
        break;
      }
      var h := queue[0];
      if h !in s {
        return Err(NotFound(h));
      }
      if s[h].Commit? {
        var visited', queue' := QueueParents(s[h].parents, visited, queue[1..]);
        WalkOn(s, found, queue, visited, limit, queue', visited');
        visited, queue := visited', queue';
        found := found + [(h, s[h])];
      } else {
        WalkSkip(s, queue, visited, limit, |found|);
        queue := queue[1..];
      }
    }
    WalkEnd(s, found, queue, visited, limit);
    return Ok(found);
  }

  lemma AfterNone(tail: Result<seq<Entry>, Error>)
    ensures After([], tail) == tail
  {
    if tail.Ok? {
      assert [] + tail.value == tail.value;
    }
  }

  lemma WalkSkip(s: Objects, queue: seq<Hash>, visited: set<Hash>, limit: Option<nat>, taken: nat)
    requires queue != [] && (limit.Some? ==> taken < limit.value) && queue[0] in s && !s[queue[0]].Commit?
    ensures Walk(s, queue, visited, limit, taken) == Walk(s, queue[1..], visited, limit, taken)
    ensures StoredCount(s, queue[1..]) < StoredCount(s, queue)
  {
  }

  lemma WalkEnd(s: Objects, found: seq<Entry>, queue: seq<Hash>, visited: set<Hash>, limit: Option<nat>)
    requires queue == [] || (limit.Some? && |found| >= limit.value)
    ensures After(found, Walk(s, queue, visited, limit, |found|)) == Ok(found)
  {
    assert found + [] == found;
  }

  /** The commit h is still to be listed. */
  ghost predicate Unlisted(s: Objects, from: Hash, queue: seq<Hash>, visited: set<Hash>, h: Hash) {
    h in s && s[h].Commit? && (h in queue || (h !in visited && Ancestor(s, h, from)))
  }

  /** An object that is not a commit leads nowhere. */
  lemma SkipQueued(s: Objects, from: Hash, visited: set<Hash>, queue: seq<Hash>)
    requires Side(s, from, visited, queue)
    requires queue != [] && queue[0] in s && !s[queue[0]].Commit?
    ensures Side(s, from, visited, queue[1..])
    ensures forall h :: Unlisted(s, from, queue[1..], visited, h) <==> Unlisted(s, from, queue, visited, h)
  {
    assert queue == [queue[0]] + queue[1..];
  }

  /** Queueing the parents of the front lists the front and leaves the rest to list. */
  lemma ListFront(s: Objects, from: Hash, queue: seq<Hash>, visited: set<Hash>)
    requires Side(s, from, visited, queue)
    requires queue != [] && queue[0] in s && s[queue[0]].Commit?
    ensures var next := ScanParents(Parents(s[queue[0]]), visited, {}, queue[1..]);
      && next.Pending?
      && Side(s, from, next.seen, next.queue)
      && !Unlisted(s, from, next.queue, next.seen, queue[0])
      && forall h :: Unlisted(s, from, queue, visited, h) <==>
                     h == queue[0] || Unlisted(s, from, next.queue, next.seen, h)
  {
    assert queue == [queue[0]] + queue[1..];
    assert queue[0] in visited;
    ScanMeaning(Parents(s[queue[0]]), visited, {}, queue[1..]);
    ScanNeverMeets(Parents(s[queue[0]]), visited, queue[1..]);
    ExpandMeaning(s, from, visited, {}, queue);
    forall p | p in Parents(s[queue[0]])
      ensures Ancestor(s, p, from)
    {
      assert Edge(CommitGraph(s), queue[0], p);
      ReachesThenEdge(CommitGraph(s), from, queue[0], p);
    }
  }

  /** The entries list distinct commits, each with its own object. */
  ghost predicate ProperList(s: Objects, list: seq<Entry>) {
    && NoRepeats(Hashes(list))
    && forall i :: 0 <= i < |list| ==> list[i].0 in s && list[i].1 == s[list[i].0]
  }

  /** The trace lists what remains to be listed, each commit once, or up to an error. */
  ghost predicate Lists(s: Objects, from: Hash, queue: seq<Hash>, visited: set<Hash>, trace: Trace) {
    && ProperList(s, trace.list)
    && (forall h :: h in Hashes(trace.list) ==> Unlisted(s, from, queue, visited, h))
    && (trace.failure.None? ==> forall h :: Unlisted(s, from, queue, visited, h) ==> h in Hashes(trace.list))
    && (trace.failure.Some? ==> Missing(s, trace.failure.value) && Ancestor(s, trace.failure.value.hash, from))
  }

  lemma ListFrontThen(s: Objects, from: Hash, queue: seq<Hash>, visited: set<Hash>, rest: Trace)
    requires Side(s, from, visited, queue)
    requires queue != [] && queue[0] in s && s[queue[0]].Commit?
    requires var next := ScanParents(Parents(s[queue[0]]), visited, {}, queue[1..]);
      next.Pending? && Lists(s, from, next.queue, next.seen, rest)
    ensures Lists(s, from, queue, visited, Trace([(queue[0], s[queue[0]])] + rest.list, rest.failure))
  {
    ListFront(s, from, queue, visited);
    var list := [(queue[0], s[queue[0]])] + rest.list;
    assert Hashes(list) == [queue[0]] + Hashes(rest.list);
    assert queue[0] !in Hashes(rest.list);
  }

  lemma {:induction false} WalkLists(s: Objects, from: Hash, queue: seq<Hash>, visited: set<Hash>)
    requires Side(s, from, visited, queue)
    ensures Lists(s, from, queue, visited, WalkTrace(s, queue, visited))
    decreases |s.Keys - visited|, StoredCount(s, queue)
  {
    if queue == [] {
      forall h | h !in visited
        ensures !Ancestor(s, h, from)
      {
        if Ancestor(s, h, from) {
          SideComplete(s, from, visited, h);
        }
      }
    } else if queue[0] !in s {
      assert queue[0] in queue;
    } else if s[queue[0]].Commit? {
      ScanProgress(s, Parents(s[queue[0]]), visited, {}, queue[1..]);
      ListFront(s, from, queue, visited);
      var next := ScanParents(Parents(s[queue[0]]), visited, {}, queue[1..]);
      WalkLists(s, from, next.queue, next.seen);
      ListFrontThen(s, from, queue, visited, WalkTrace(s, next.queue, next.seen));
    } else {
      SkipQueued(s, from, visited, queue);
      WalkLists(s, from, queue[1..], visited);
    }
  }

  lemma ProperPart(s: Objects, list: seq<Entry>, n: nat)
    requires ProperList(s, list) && n <= |list|
    ensures ProperList(s, list[..n]) && forall h :: h in Hashes(list[..n]) ==> h in Hashes(list)
  {
    assert Hashes(list[..n]) == Hashes(list)[..n];
  }

  /** `WalkHistory` lists commits in the history of the tip, each once with its object, the
      tip first, and all of them unless the limit is reached; it fails only on a missing
      object. */
  lemma WalkListsHistory(s: Objects, tip: Hash, limit: Option<nat>)
    requires tip in s && s[tip].Commit?
    ensures var r := History(s, tip, limit);
      && (r.Err? ==> Missing(s, r.error) && Ancestor(s, r.error.hash, tip))
      && (r.Ok? ==>
            && ProperList(s, r.value)
            && (limit == Some(0) || (r.value != [] && r.value[0].0 == tip))
            && (forall h :: h in Hashes(r.value) ==> h in s && s[h].Commit? && Ancestor(s, h, tip))
            && (if limit.Some? && |r.value| >= limit.value then |r.value| == limit.value
                else forall h :: h in s && s[h].Commit? && Ancestor(s, h, tip) ==> h in Hashes(r.value)))
  {
    StartSide(s, tip);
    ReachesSelf(CommitGraph(s), tip);
    WalkLists(s, tip, [tip], {tip});
    HistoryLimit(s, tip, limit);
    var trace := WalkTrace(s, [tip], {tip});
    if limit.Some? && limit.value <= |trace.list| {
      ProperPart(s, trace.list, limit.value);
    }
  }

  /** What a walk without a limit lists, and the error that ends it, if one does. */
  datatype Trace = Trace(list: seq<Entry>, failure: Option<Error>)

  function WalkTrace(s: Objects, queue: seq<Hash>, visited: set<Hash>): Trace
    decreases |s.Keys - visited|, StoredCount(s, queue)
  {
    if queue == [] then Trace([], None)
    else if queue[0] !in s then Trace([], Some(NotFound(queue[0])))
    else if s[queue[0]].Commit? then
      ScanProgress(s, Parents(s[queue[0]]), visited, {}, queue[1..]);
      var next := ScanParents(Parents(s[queue[0]]), visited, {}, queue[1..]);
      ScanNeverMeets(Parents(s[queue[0]]), visited, queue[1..]);
      var rest := WalkTrace(s, next.queue, next.seen);
      Trace([(queue[0], s[queue[0]])] + rest.list, rest.failure)
    else WalkTrace(s, queue[1..], visited)
  }

  /** The trace up to a limit: the error shows only if the limit lies beyond it. */
  function Cut(trace: Trace, limit: Option<nat>): Result<seq<Entry>, Error> {
    if limit.Some? && limit.value <= |trace.list| then Ok(trace.list[..limit.value])
    else if trace.failure.Some? then Err(trace.failure.value)
    else Ok(trace.list)
  }

  function Less(limit: Option<nat>, taken: nat): Option<nat>
    requires limit.Some? ==> taken <= limit.value
  {
    if limit.Some? then Some(limit.value - taken) else None
  }

  lemma CutFront(e: Entry, rest: Trace, limit: Option<nat>)
    requires limit.Some? ==> 1 <= limit.value
    ensures Cut(Trace([e] + rest.list, rest.failure), limit) == After([e], Cut(rest, Less(limit, 1)))
  {
    if limit.Some? && limit.value <= 1 + |rest.list| {
      assert ([e] + rest.list)[..limit.value] == [e] + rest.list[..limit.value - 1];
    }
  }

  lemma {:induction false} WalkCut(s: Objects, queue: seq<Hash>, visited: set<Hash>, limit: Option<nat>, taken: nat)
    requires limit.Some? ==> taken <= limit.value
    ensures Walk(s, queue, visited, limit, taken) == Cut(WalkTrace(s, queue, visited), Less(limit, taken))
    decreases |s.Keys - visited|, StoredCount(s, queue)
  {
    if queue == [] || (limit.Some? && taken == limit.value) || queue[0] !in s {
      WalkCutEnd(s, queue, visited, limit, taken);
    } else if s[queue[0]].Commit? {
      ScanProgress(s, Parents(s[queue[0]]), visited, {}, queue[1..]);
      ScanNeverMeets(Parents(s[queue[0]]), visited, queue[1..]);
      var next := ScanParents(Parents(s[queue[0]]), visited, {}, queue[1..]);
      WalkCut(s, next.queue, next.seen, limit, taken + 1);
      WalkCutFront(s, queue, visited, limit, taken, next.queue, next.seen);
    } else {
      WalkCut(s, queue[1..], visited, limit, taken);
      assert WalkTrace(s, queue, visited) == WalkTrace(s, queue[1..], visited);
    }
  }

  lemma {:induction false} WalkCutEnd(s: Objects, queue: seq<Hash>, visited: set<Hash>, limit: Option<nat>, taken: nat)
    requires limit.Some? ==> taken <= limit.value
    requires queue == [] || (limit.Some? && taken == limit.value) || queue[0] !in s
    ensures Walk(s, queue, visited, limit, taken) == Cut(WalkTrace(s, queue, visited), Less(limit, taken))
  {
  }

  lemma {:induction false} WalkCutFront(s: Objects, queue: seq<Hash>, visited: set<Hash>, limit: Option<nat>,
      taken: nat, queue': seq<Hash>, visited': set<Hash>)
    requires queue != [] && (limit.Some? ==> taken < limit.value) && queue[0] in s && s[queue[0]].Commit?
    requires ScanParents(s[queue[0]].parents, visited, {}, queue[1..]) == Pending(visited', queue')
    requires Walk(s, queue', visited', limit, taken + 1) == Cut(WalkTrace(s, queue', visited'), Less(limit, taken + 1))
    ensures Walk(s, queue, visited, limit, taken) == Cut(WalkTrace(s, queue, visited), Less(limit, taken))
  {
    var e, rest := (queue[0], s[queue[0]]), WalkTrace(s, queue', visited');
    WalkFront(s, queue, visited, limit, taken, queue', visited');
    assert WalkTrace(s, queue, visited) == Trace([e] + rest.list, rest.failure);
    CutFront(e, rest, Less(limit, taken));
  }

  /** A limit cuts the walk off and changes nothing else, on every store: the list is the
      first part of what the walk without a limit lists, and the error that ends the latter
      shows only if the limit is not reached before. */
  lemma HistoryLimit(s: Objects, from: Hash, limit: Option<nat>)
    ensures History(s, from, limit) == Cut(WalkTrace(s, [from], {from}), limit)
  {
    WalkCut(s, [from], {from}, limit, 0);
  }
}
