/** The order of `log`: commits near the tip come before those farther back. */
module WalkOrder {
  import opened Wrappers
  import opened Reachability
  import opened Objects
  import opened Graph

  /** A way of that many steps from a commit back to another. */
  ghost predicate StepsBack(s: Objects, from: Hash, h: Hash, n: nat) {
    exists p :: PathBetween(CommitGraph(s), p, from, h) && |p| == n + 1
  }

  /** No way leads to y in fewer steps than some way to x. */
  ghost predicate NoFarther(s: Objects, from: Hash, x: Hash, y: Hash) {
    forall n: nat :: StepsBack(s, from, y, n) ==> exists m: nat :: m <= n && StepsBack(s, from, x, m)
  }

  ghost predicate NearestFirst(s: Objects, from: Hash, list: seq<Entry>) {
    forall i, j :: 0 <= i < j < |list| ==> NoFarther(s, from, list[i].0, list[j].0)
  }

  lemma OneMoreStep(s: Objects, from: Hash, x: Hash, y: Hash, n: nat)
    requires StepsBack(s, from, x, n) && Edge(CommitGraph(s), x, y)
    ensures StepsBack(s, from, y, n + 1)
  {
    var p :| PathBetween(CommitGraph(s), p, from, x) && |p| == n + 1;
    var q := p + [y];
    forall i | 0 <= i < |q| - 1
      ensures Edge(CommitGraph(s), q[i], q[i + 1])
    {
      if i < |p| - 1 {
        assert Edge(CommitGraph(s), p[i], p[i + 1]);
      }
    }
    assert PathBetween(CommitGraph(s), q, from, y);
  }

  lemma LastStep(s: Objects, from: Hash, y: Hash, n: nat) returns (x: Hash)
    requires StepsBack(s, from, y, n + 1)
    ensures StepsBack(s, from, x, n) && Edge(CommitGraph(s), x, y)
  {
    var p :| PathBetween(CommitGraph(s), p, from, y) && |p| == n + 2;
    var q := p[..n + 1];
    x := p[n];
    forall i | 0 <= i < |q| - 1
      ensures Edge(CommitGraph(s), q[i], q[i + 1])
    {
      assert Edge(CommitGraph(s), p[i], p[i + 1]);
    }
    assert PathBetween(CommitGraph(s), q, from, x) && Edge(CommitGraph(s), p[n], p[n + 1]);
  }

  // ----- Levels

  /** Every hash ever queued has a level, a number of steps that leads to it. */
  ghost predicate Stepped(s: Objects, from: Hash, visited: set<Hash>, level: map<Hash, nat>) {
    && level.Keys == visited && from in visited && level[from] == 0
    && forall h :: h in visited ==> StepsBack(s, from, h, level[h])
  }

  /** The queue is in the order of levels, and no level is higher than that after its front. */
  ghost predicate Layered(queue: seq<Hash>, level: map<Hash, nat>) {
    && (forall h :: h in queue ==> h in level)
    && (forall i, j :: 0 <= i < j < |queue| ==> level[queue[i]] <= level[queue[j]])
    && (queue != [] ==> forall h :: h in level ==> level[h] <= level[queue[0]] + 1)
  }

  /** What is queued no more has its parents at most one level up. */
  ghost predicate Passed(s: Objects, queue: seq<Hash>, level: map<Hash, nat>) {
    forall x, y :: x in level && x !in queue && Edge(CommitGraph(s), x, y) ==> y in level && level[y] <= level[x] + 1
  }

  ghost predicate Leveled(s: Objects, from: Hash, queue: seq<Hash>, visited: set<Hash>, level: map<Hash, nat>) {
    Stepped(s, from, visited, level) && Layered(queue, level) && Passed(s, queue, level)
  }

  /** What is no more steps away than the front of the queue has been queued, on a level no
      higher than that. */
  lemma {:induction false} NearVisited(s: Objects, from: Hash, queue: seq<Hash>, visited: set<Hash>,
      level: map<Hash, nat>, h: Hash, n: nat)
    requires Leveled(s, from, queue, visited, level) && queue != [] && n <= level[queue[0]]
    requires StepsBack(s, from, h, n)
    ensures h in visited && level[h] <= n
    decreases n
  {
    if n == 0 {
      var p :| PathBetween(CommitGraph(s), p, from, h) && |p| == 1;
    } else {
      var x := LastStep(s, from, h, n - 1);
      NearVisited(s, from, queue, visited, level, x, n - 1);
      assert x !in queue;
    }
  }

  /** The parents not seen before go to the end of the queue. */
  lemma {:induction false} ScanAppends(parents: seq<Hash>, mine: set<Hash>, queue: seq<Hash>) returns (more: seq<Hash>)
    ensures ScanParents(parents, mine, {}, queue) == Pending(mine + (set h | h in more), queue + more)
    ensures forall h :: h in more ==> h in parents && h !in mine
    ensures forall h :: h in parents ==> h in mine || h in more
    decreases |parents|
  {
    if parents == [] {
      more := [];
      assert queue + more == queue;
    } else if parents[0] in mine {
      more := ScanAppends(parents[1..], mine, queue);
    } else {
      var rest := ScanAppends(parents[1..], mine + {parents[0]}, queue + [parents[0]]);
      more := [parents[0]] + rest;
      assert queue + [parents[0]] + rest == queue + more;
      assert mine + {parents[0]} + (set h | h in rest) == mine + (set h | h in more);
    }
  }

  ghost function Raised(level: map<Hash, nat>, more: seq<Hash>, n: nat): map<Hash, nat> {
    map h | h in level.Keys + (set x | x in more) :: if h in level then level[h] else n
  }

  /** The parents of the front go to the end of the queue, one level up. */
  ghost predicate Queued(s: Objects, queue: seq<Hash>, level: map<Hash, nat>, more: seq<Hash>) {
    && queue != [] && queue[0] in s && queue[0] in level
    && (forall h :: h in more ==> h in Parents(s[queue[0]]) && h !in level)
    && (forall h :: h in Parents(s[queue[0]]) ==> h in level || h in more)
  }

  lemma FrontLeveled(s: Objects, from: Hash, queue: seq<Hash>, visited: set<Hash>, level: map<Hash, nat>,
      more: seq<Hash>)
    requires Leveled(s, from, queue, visited, level) && Queued(s, queue, level, more)
    ensures Leveled(s, from, queue[1..] + more, visited + (set h | h in more),
      Raised(level, more, level[queue[0]] + 1))
  {
    FrontStepped(s, from, queue, visited, level, more);
    FrontLayered(queue, level, more);
    FrontPassed(s, queue, level, more);
  }

  lemma FrontStepped(s: Objects, from: Hash, queue: seq<Hash>, visited: set<Hash>, level: map<Hash, nat>,
      more: seq<Hash>)
    requires Stepped(s, from, visited, level) && Queued(s, queue, level, more)
    ensures Stepped(s, from, visited + (set h | h in more), Raised(level, more, level[queue[0]] + 1))
  {
    forall h | h in more
      ensures StepsBack(s, from, h, level[queue[0]] + 1)
    {
      assert Edge(CommitGraph(s), queue[0], h);
      OneMoreStep(s, from, queue[0], h, level[queue[0]]);
    }
  }

  lemma FrontLayered(queue: seq<Hash>, level: map<Hash, nat>, more: seq<Hash>)
    requires Layered(queue, level) && queue != [] && forall h :: h in more ==> h !in level
    ensures Layered(queue[1..] + more, Raised(level, more, level[queue[0]] + 1))
  {
    var n, rest := level[queue[0]], queue[1..];
    var queue', level' := rest + more, Raised(level, more, n + 1);
    forall i | 0 <= i < |queue'|
      ensures queue'[i] in level' && n <= level'[queue'[i]] <= n + 1
      ensures i >= |rest| ==> level'[queue'[i]] == n + 1
    {
      if i < |rest| {
        assert queue'[i] == queue[i + 1] && queue[i + 1] in queue;
      } else {
        assert queue'[i] == more[i - |rest|] && more[i - |rest|] in more;
      }
    }
    forall i, j | 0 <= i < j < |queue'|
      ensures level'[queue'[i]] <= level'[queue'[j]]
    {
      if j < |rest| {
        assert queue'[i] == queue[i + 1] && queue'[j] == queue[j + 1];
        assert queue[i + 1] in queue && queue[j + 1] in queue;
      }
    }
  }

  lemma FrontPassed(s: Objects, queue: seq<Hash>, level: map<Hash, nat>, more: seq<Hash>)
    requires Layered(queue, level) && Passed(s, queue, level) && Queued(s, queue, level, more)
    ensures Passed(s, queue[1..] + more, Raised(level, more, level[queue[0]] + 1))
  {
    var queue', level' := queue[1..] + more, Raised(level, more, level[queue[0]] + 1);
    assert queue == [queue[0]] + queue[1..];
    forall x, y | x in level' && x !in queue' && Edge(CommitGraph(s), x, y)
      ensures y in level' && level'[y] <= level'[x] + 1
    {
      assert x in level && (x == queue[0] || x !in queue);
    }
  }

  // ----- The order

  /** What is still to be listed is no nearer than the front of the queue. */
  lemma FrontNearest(s: Objects, from: Hash, queue: seq<Hash>, visited: set<Hash>, level: map<Hash, nat>, h: Hash)
    requires Leveled(s, from, queue, visited, level) && queue != [] && (h in queue || h !in visited)
    ensures NoFarther(s, from, queue[0], h)
  {
    forall n: nat | StepsBack(s, from, h, n)
      ensures level[queue[0]] <= n
    {
      if n < level[queue[0]] {
        NearVisited(s, from, queue, visited, level, h, n);
      }
    }
    assert StepsBack(s, from, queue[0], level[queue[0]]);
  }

  lemma {:induction false} TraceNearest(s: Objects, from: Hash, queue: seq<Hash>, visited: set<Hash>,
      level: map<Hash, nat>)
    requires Side(s, from, visited, queue) && Leveled(s, from, queue, visited, level)
    ensures NearestFirst(s, from, WalkTrace(s, queue, visited).list)
    decreases |s.Keys - visited|, StoredCount(s, queue)
  {
    if queue != [] && queue[0] in s {
      var parents := Parents(s[queue[0]]);
      var more := ScanAppends(parents, visited, queue[1..]);
      FrontLeveled(s, from, queue, visited, level, more);
      var level' := Raised(level, more, level[queue[0]] + 1);
      if s[queue[0]].Commit? {
        ScanProgress(s, parents, visited, {}, queue[1..]);
        ListFront(s, from, queue, visited);
        var next := ScanParents(parents, visited, {}, queue[1..]);
        TraceNearest(s, from, next.queue, next.seen, level');
        WalkLists(s, from, next.queue, next.seen);
        AfterFront(s, from, queue, visited, level, WalkTrace(s, next.queue, next.seen));
      } else {
        SkipQueued(s, from, visited, queue);
        assert more == [] && queue[1..] + more == queue[1..] && visited + (set h | h in more) == visited;
        TraceNearest(s, from, queue[1..], visited, level');
      }
    }
  }

  lemma AfterFront(s: Objects, from: Hash, queue: seq<Hash>, visited: set<Hash>, level: map<Hash, nat>, rest: Trace)
    requires Leveled(s, from, queue, visited, level) && queue != [] && queue[0] in s
    requires NearestFirst(s, from, rest.list)
    requires forall h :: h in Hashes(rest.list) ==> h in queue || h !in visited
    ensures NearestFirst(s, from, [(queue[0], s[queue[0]])] + rest.list)
  {
    var list := [(queue[0], s[queue[0]])] + rest.list;
    forall i, j | 0 <= i < j < |list|
      ensures NoFarther(s, from, list[i].0, list[j].0)
    {
      if i == 0 {
        assert list[j].0 == Hashes(rest.list)[j - 1];
        FrontNearest(s, from, queue, visited, level, list[j].0);
      } else {
        assert list[i] == rest.list[i - 1] && list[j] == rest.list[j - 1];
      }
    }
  }

  /** A walk lists the commits nearest to its tip first, with or without a limit. */
  lemma WalkNearestFirst(s: Objects, tip: Hash, limit: Option<nat>)
    requires History(s, tip, limit).Ok?
    ensures NearestFirst(s, tip, History(s, tip, limit).value)
  {
    var level: map<Hash, nat> := map[tip := 0];
    StartSide(s, tip);
    assert PathBetween(CommitGraph(s), [tip], tip, tip);
    assert StepsBack(s, tip, tip, 0);
    TraceNearest(s, tip, [tip], {tip}, level);
    HistoryLimit(s, tip, limit);
  }
}
