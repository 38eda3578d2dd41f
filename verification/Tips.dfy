/** The common ancestor search on the tips of a closed history. */
module Tips {
  import opened Wrappers
  import opened Reachability
  import opened Objects
  import opened Graph
  import opened History

  /** Two commits of a closed history have a common ancestor unless their histories are
      disjoint, and the search finds one. */
  lemma TipsMeet(s: Objects, ours: Hash, theirs: Hash)
    requires ClosedHistory(s) && IsCommit(s, ours) && IsCommit(s, theirs)
    ensures var r := CommonAncestorFrom(s, ours, theirs);
      && r.Ok?
      && (r.value.Some? ==> CommonAncestorOf(s, r.value.value, ours, theirs))
      && (r.value.None? ==> forall c :: !CommonAncestorOf(s, c, ours, theirs))
    ensures Ancestor(s, ours, ours)
  {
    var g := CommitGraph(s);
    assert Complete(g) by {
      forall x, y | x in g.Keys && Edge(g, x, y)
        ensures y in g.Keys
      {
        assert IsCommit(s, y);
      }
    }
    CommonAncestorOfClosed(s, ours, theirs);
    CommonAncestorRight(s, ours, theirs);
    ReachesSelf(g, ours);
  }

  /** Every place where two histories join is the lowest common ancestor exactly when they
      join in one place only. */
  lemma GatewaysLowest(s: Objects, a: Hash, b: Hash)
    requires ClosedHistory(s) && Acyclic(s)
    ensures (forall m :: Gateway(s, m, a, b) ==> Lowest(s, m, a, b)) <==> OneGateway(s, a, b)
  {
    if OneGateway(s, a, b) {
      forall m, d | Gateway(s, m, a, b) && CommonAncestorOf(s, d, a, b)
        ensures Ancestor(s, d, m)
      {
        var n := BehindGateway(s, a, b, d);
      }
    } else {
      var m, n :| Gateway(s, m, a, b) && Gateway(s, n, a, b) && m != n;
      if Lowest(s, m, a, b) && Lowest(s, n, a, b) {
        NoCycles(s, m, n);
      }
    }
  }

  /** Histories join in one place if no commit of one of them only has two parents. */
  lemma UnmergedOneGateway(s: Objects, a: Hash, b: Hash)
    requires ClosedHistory(s) && Acyclic(s) && Unmerged(s, a, b)
    ensures OneGateway(s, a, b)
  {
    forall m | Gateway(s, m, a, b)
      ensures Lowest(s, m, a, b)
    {
      UnmergedLowest(s, a, b, m);
    }
    GatewaysLowest(s, a, b);
  }

  /** Where two histories join in one place, the search tells the three cases of a merge
      apart exactly. */
  lemma TipsCases(s: Objects, ours: Hash, theirs: Hash)
    requires ClosedHistory(s) && Acyclic(s) && IsCommit(s, ours) && IsCommit(s, theirs) && OneGateway(s, ours, theirs)
    ensures CommonAncestorFrom(s, ours, theirs) == Ok(Some(ours)) <==> Ancestor(s, ours, theirs)
    ensures CommonAncestorFrom(s, ours, theirs) == Ok(Some(theirs)) <==> Ancestor(s, theirs, ours)
  {
    TipsMeet(s, ours, theirs);
    CommonAncestorLowest(s, ours, theirs);
    ReachesSelf(CommitGraph(s), theirs);
    var r := CommonAncestorFrom(s, ours, theirs).value;
    if Ancestor(s, ours, theirs) {
      assert CommonAncestorOf(s, ours, ours, theirs);
      NoCycles(s, ours, r.value);
    }
    if Ancestor(s, theirs, ours) {
      assert CommonAncestorOf(s, theirs, ours, theirs);
      NoCycles(s, theirs, r.value);
    }
  }
}
