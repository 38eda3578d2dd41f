/** Commits and branches as one state, and what every step on them keeps. */
module History {
  import opened Reachability
  import opened Objects
  import opened Content

  type Refs = map<string, Hash>

  datatype State = State(objects: Objects, refs: Refs)

  const HEADS_PREFIX := "refs/heads/"
  const HEAD := "HEAD"

  function BranchRef(name: string): (ref: string)
    ensures ref == "refs/heads/" + name
  {
    HEADS_PREFIX + name
  }

  predicate IsBranch(ref: string) {
    HEADS_PREFIX <= ref
  }

  predicate IsCommit(s: Objects, h: Hash) {
    h in s && s[h].Commit?
  }

  /** The parents of every commit are commits of the store. */
  ghost predicate ClosedHistory(s: Objects) {
    forall h, p :: IsCommit(s, h) && p in s[h].parents ==> IsCommit(s, p)
  }

  /** Parents come before their children in some numbering of the commits. */
  ghost predicate Numbered(s: Objects, rank: map<Hash, nat>) {
    && (forall h :: IsCommit(s, h) ==> h in rank)
    && forall h, p :: IsCommit(s, h) && p in s[h].parents && p in rank && h in rank ==> rank[p] < rank[h]
  }

  ghost predicate Acyclic(s: Objects) {
    exists rank :: Numbered(s, rank)
  }

  /** Branches and HEAD point at commits, and history is closed and acyclic. */
  ghost predicate Sound(st: State) {
    && ClosedHistory(st.objects) && Acyclic(st.objects)
    && forall r :: r in st.refs && (IsBranch(r) || r == HEAD) ==> IsCommit(st.objects, st.refs[r])
  }

  /** No history is lost or changed, and every branch only moves to a descendant. */
  ghost predicate Advances(st: State, st': State) {
    && Extends(CommitGraph(st.objects), CommitGraph(st'.objects))
    && forall r :: r in st.refs && IsBranch(r) ==> r in st'.refs && Ancestor(st'.objects, st.refs[r], st'.refs[r])
  }

  lemma AdvancesReflexive(st: State)
    ensures Advances(st, st)
  {
    forall r | r in st.refs && IsBranch(r)
      ensures Ancestor(st.objects, st.refs[r], st.refs[r])
    {
      ReachesSelf(CommitGraph(st.objects), st.refs[r]);
    }
  }

  lemma AdvancesTransitive(st: State, st': State, st'': State)
    requires Advances(st, st') && Advances(st', st'')
    ensures Advances(st, st'')
  {
    var g', g'' := CommitGraph(st'.objects), CommitGraph(st''.objects);
    forall r | r in st.refs && IsBranch(r)
      ensures r in st''.refs && Ancestor(st''.objects, st.refs[r], st''.refs[r])
    {
      ExtendsReaches(g', g'', st'.refs[r], st.refs[r]);
      ReachesTransitive(g'', st''.refs[r], st'.refs[r], st.refs[r]);
    }
  }

  /** Growing a closed history leaves the history of every old commit as it was. */
  lemma HistoryUnchanged(st: State, st': State, c: Hash, d: Hash)
    requires ClosedHistory(st.objects) && Advances(st, st') && IsCommit(st.objects, c)
    ensures Ancestor(st'.objects, d, c) <==> Ancestor(st.objects, d, c)
  {
    var g, g' := CommitGraph(st.objects), CommitGraph(st'.objects);
    if Ancestor(st.objects, d, c) {
      ExtendsReaches(g, g', c, d);
    }
    if Ancestor(st'.objects, d, c) {
      assert Complete(g) by {
        forall x, y | x in g.Keys && Edge(g, x, y)
          ensures y in g.Keys
        {
          assert IsCommit(st.objects, y);
        }
      }
      ExtendsReachesBack(g, g', c, d);
    }
  }

  lemma {:induction false} RankFalls(s: Objects, rank: map<Hash, nat>, p: seq<Hash>)
    requires ClosedHistory(s) && Numbered(s, rank) && IsPath(CommitGraph(s), p) && |p| > 1
    ensures p[0] in rank && p[|p| - 1] in rank && rank[p[|p| - 1]] < rank[p[0]]
    decreases |p|
  {
    assert Edge(CommitGraph(s), p[0], p[1]);
    assert IsCommit(s, p[0]) && IsCommit(s, p[1]);
    if |p| > 2 {
      RankFalls(s, rank, p[1..]);
    }
  }

  /** Two commits in each other's history are one. */
  lemma NoCycles(s: Objects, c: Hash, d: Hash)
    requires ClosedHistory(s) && Acyclic(s) && Ancestor(s, c, d) && Ancestor(s, d, c)
    ensures c == d
  {
    if c != d {
      var rank :| Numbered(s, rank);
      var p :| PathBetween(CommitGraph(s), p, c, d);
      var q :| PathBetween(CommitGraph(s), q, d, c);
      RankFalls(s, rank, p);
      RankFalls(s, rank, q);
      assert false;
    }
  }

  // ----- Steps

  /** Storing documents and trees touches no history. */
  lemma ContentStep(st: State, s': Objects)
    requires Sound(st) && Preserves(st.objects, s')
    ensures Sound(State(s', st.refs)) && Advances(st, State(s', st.refs))
  {
    var rank :| Numbered(st.objects, rank);
    assert forall h :: IsCommit(s', h) ==> IsCommit(st.objects, h) && s'[h] == st.objects[h];
    assert Numbered(s', rank);
    forall h, p | IsCommit(s', h) && p in s'[h].parents
      ensures IsCommit(s', p)
    {
      assert IsCommit(st.objects, p);
    }
    forall r | r in st.refs && IsBranch(r)
      ensures Ancestor(s', st.refs[r], st.refs[r])
    {
      ReachesSelf(CommitGraph(s'), st.refs[r]);
    }
  }

  function MaxRank(rank: map<Hash, nat>, hs: seq<Hash>): nat {
    if hs == [] then 0
    else
      var m := MaxRank(rank, hs[1..]);
      if hs[0] in rank && rank[hs[0]] > m then rank[hs[0]] else m
  }

  lemma {:induction false} MaxRankBounds(rank: map<Hash, nat>, hs: seq<Hash>)
    ensures forall h :: h in hs && h in rank ==> rank[h] <= MaxRank(rank, hs)
  {
    if hs != [] {
      MaxRankBounds(rank, hs[1..]);
      assert hs == [hs[0]] + hs[1..];
    }
  }

  /** Storing a commit on stored parents keeps history closed and acyclic. */
  lemma CommitStep(st: State, h: Hash, c: Object)
    requires Sound(st) && c.Commit? && (h in st.objects ==> st.objects[h] == c)
    requires forall p :: p in c.parents ==> IsCommit(st.objects, p)
    ensures var st' := State(st.objects[h := c], st.refs);
      && Sound(st') && Advances(st, st')
      && forall p :: p in c.parents ==> Ancestor(st'.objects, p, h)
  {
    var s' := st.objects[h := c];
    var rank :| Numbered(st.objects, rank);
    if h in st.objects {
      assert s' == st.objects;
    } else {
      MaxRankBounds(rank, c.parents);
      var rank' := rank[h := 1 + MaxRank(rank, c.parents)];
      assert Numbered(s', rank') by {
        forall x, p | IsCommit(s', x) && p in s'[x].parents && p in rank' && x in rank'
          ensures rank'[p] < rank'[x]
        {
          assert IsCommit(st.objects, p);
        }
      }
    }
    forall x, p | IsCommit(s', x) && p in s'[x].parents
      ensures IsCommit(s', p)
    {
      assert x == h || IsCommit(st.objects, x);
      assert IsCommit(st.objects, p);
    }
    forall p | p in c.parents
      ensures Ancestor(s', p, h)
    {
      assert Edge(CommitGraph(s'), h, p);
      ReachesByEdge(CommitGraph(s'), h, p);
    }
    forall r | r in st.refs && IsBranch(r)
      ensures Ancestor(s', st.refs[r], st.refs[r])
    {
      ReachesSelf(CommitGraph(s'), st.refs[r]);
    }
  }

  /** Moving a branch and HEAD to a descendant of the branch's tip. */
  lemma RefStep(st: State, branch: string, h: Hash)
    requires Sound(st) && IsCommit(st.objects, h)
    requires BranchRef(branch) in st.refs ==> Ancestor(st.objects, st.refs[BranchRef(branch)], h)
    ensures var st' := State(st.objects, st.refs[BranchRef(branch) := h][HEAD := h]); Sound(st') && Advances(st, st')
  {
    assert !IsBranch(HEAD);
    forall r | r in st.refs && IsBranch(r)
      ensures Ancestor(st.objects, st.refs[r], st.refs[BranchRef(branch) := h][HEAD := h][r])
    {
      ReachesSelf(CommitGraph(st.objects), st.refs[r]);
    }
  }
}
