/** The merge of whole trees, path by path. */
module MergeTrees {
  import opened Wrappers
  import opened Objects
  import opened Sequences
  import opened ThreeWay
  import opened Content
  import opened Store
  import opened Import
  import opened StoreMerge
  import opened DocumentMerge
  import opened Trees
  import opened TreeMerge
  import opened VisitOrder

  type Files = map<string, Hash>

  function Listed(entries: seq<TreeEntry>): (ps: seq<(string, Hash)>)
    ensures |ps| == |entries|
    ensures forall i :: 0 <= i < |ps| ==> ps[i] == (entries[i].path, entries[i].document)
  {
    seq(|entries|, i requires 0 <= i < |entries| => (entries[i].path, entries[i].document))
  }

  function FilesOf(entries: seq<TreeEntry>): Files {
    Collect(Listed(entries))
  }

  ghost predicate FilesWhole(hx: Hashing, s: Objects, m: Files) {
    forall p :: p in m ==> DocumentWhole(hx, s, m[p])
  }

  lemma FilesOfWhole(hx: Hashing, s: Objects, entries: seq<TreeEntry>)
    requires EntriesWhole(hx, s, entries)
    ensures FilesWhole(hx, s, FilesOf(entries))
  {
    CollectHolds(Listed(entries));
  }

  // ----- Results by path

  ghost function OutcomesOf(hx: Hashing, s: Objects, cx: Context, a: Files, o: Files, t: Files): Outcomes
    requires FilesWhole(hx, s, a) && FilesWhole(hx, s, o) && FilesWhole(hx, s, t)
  {
    map p | p in a.Keys + o.Keys + t.Keys :: PathOutcome(hx, s, cx, p, Lookup(a, p), Lookup(o, p), Lookup(t, p))
  }

  // ----- The shape of the results

  /** Each path contributes itself at most once, and on a conflict a sidecar of its own. */
  lemma OutcomesShaped(hx: Hashing, s: Objects, cx: Context, a: Files, o: Files, t: Files)
    requires Describable(hx, cx)
    requires FilesWhole(hx, s, a) && FilesWhole(hx, s, o) && FilesWhole(hx, s, t)
    ensures Shaped(OutcomesOf(hx, s, cx, a, o, t))
  {
    var spec := OutcomesOf(hx, s, cx, a, o, t);
    forall p | p in spec
      ensures ShapedAt(p, spec[p])
    {
      OutcomeShaped(hx, s, cx, p, Lookup(a, p), Lookup(o, p), Lookup(t, p));
    }
    forall p, q | Conflicting(spec, p) && Conflicting(spec, q) && spec[p].report.sidecar == spec[q].report.sidecar
      ensures p == q
    {
      OutcomeShaped(hx, s, cx, p, Lookup(a, p), Lookup(o, p), Lookup(t, p));
      OutcomeShaped(hx, s, cx, q, Lookup(a, q), Lookup(o, q), Lookup(t, q));
      var c := Classify(p, Lookup(a, p), Lookup(o, p), Lookup(t, p)).conflict;
      var d := Classify(q, Lookup(a, q), Lookup(o, q), Lookup(t, q)).conflict;
      SidecarInjective(cx, p, q, c.ancestor, c.ours, c.theirs, d.ancestor, d.ours, d.theirs);
    }
  }

  lemma OutcomeShaped(hx: Hashing, s: Objects, cx: Context, p: string, a: Option<Hash>, o: Option<Hash>,
      t: Option<Hash>)
    requires Describable(hx, cx) && VersionsWhole(hx, s, a, o, t)
    ensures var r := PathOutcome(hx, s, cx, p, a, o, t);
      && ShapedAt(p, r)
      && (r.report.Conflicted? ==>
            && Classify(p, a, o, t).Disputed?
            && var c := Classify(p, a, o, t).conflict;
              r.report.sidecar == SidecarPath(cx, p, c.ancestor, c.ours, c.theirs))
  {
    ClassifyMeaning(p, a, o, t);
    var c := Classify(p, a, o, t);
    if c.Disputed? {
      SidecarInjective(cx, p, p, c.conflict.ancestor, c.conflict.ours, c.conflict.theirs,
                       c.conflict.ancestor, c.conflict.ours, c.conflict.theirs);
    }
  }

  // ----- The merge

  datatype MergeResult = MergeResult(
    tree: Hash,
    autoMerged: seq<string>,
    conflicts: seq<(string, string)>,
    oursOnly: seq<string>,
    theirsOnly: seq<string>)

  ghost predicate TreesWhole(hx: Hashing, s: Objects, ancestor: seq<TreeEntry>, ours: seq<TreeEntry>,
      theirs: seq<TreeEntry>)
  {
    EntriesWhole(hx, s, ancestor) && EntriesWhole(hx, s, ours) && EntriesWhole(hx, s, theirs)
  }

  /** The outcomes of all paths of three listings. */
  ghost function Spec(hx: Hashing, s: Objects, cx: Context, ancestor: seq<TreeEntry>, ours: seq<TreeEntry>,
      theirs: seq<TreeEntry>): Outcomes
    requires TreesWhole(hx, s, ancestor, ours, theirs)
  {
    FilesOfWhole(hx, s, ancestor);
    FilesOfWhole(hx, s, ours);
    FilesOfWhole(hx, s, theirs);
    OutcomesOf(hx, s, cx, FilesOf(ancestor), FilesOf(ours), FilesOf(theirs))
  }

  function ReportOf(tree: Hash, p: Progress): MergeResult {
    MergeResult(tree, p.autoMerged, p.conflicts, p.oursOnly, p.theirsOnly)
  }

  /** The state of the merge after visiting paths: exact if all documents are there. */
  ghost predicate Merging(hx: Hashing, s0: Objects, s: Objects, whole: bool, spec: Outcomes, order: seq<string>,
      p: Progress)
  {
    Safe(hx, s0, s) && (whole ==> p == Visited(spec, order) && EntriesWhole(hx, s, p.entries))
  }

  lemma MergingNext(hx: Hashing, s0: Objects, s: Objects, s': Objects, whole: bool, spec: Outcomes, order: seq<string>,
      p: Progress, path: string, r: PathResult)
    requires Merging(hx, s0, s, whole, spec, order, p) && Safe(hx, s0, s') && Preserves(s, s')
    requires whole ==> path in spec && r == spec[path] && EntriesWhole(hx, s', r.entries)
    ensures Merging(hx, s0, s', whole, spec, order + [path], Add(p, path, r))
  {
    if whole {
      assert Front(order + [path]) == order;
      forall i | 0 <= i < |p.entries|
        ensures DocumentWhole(hx, s', p.entries[i].document)
      {
        DocumentStays(hx, s, s', p.entries[i].document);
      }
    }
  }

  /** The outcomes are those of the files of a complete store s0, if it is complete. */
  ghost predicate Specified(hx: Hashing, s0: Objects, cx: Context, anc: Files, our: Files, their: Files, whole: bool,
      spec: Outcomes)
  {
    whole ==>
      && FilesWhole(hx, s0, anc) && FilesWhole(hx, s0, our) && FilesWhole(hx, s0, their)
      && spec == OutcomesOf(hx, s0, cx, anc, our, their)
  }

  /** Merges one path. */
  method MergeNextPath(store: ObjectStore, hx: Hashing, cx: Context, path: string, anc: Files, our: Files, their: Files,
      p: Progress, ghost s0: Objects, ghost whole: bool, ghost spec: Outcomes,
      ghost order: seq<string>)
    returns (r: Result<Progress, Error>)
    requires CollisionFree(hx) && MergeClosed(hx) && Describable(hx, cx)
    requires Specified(hx, s0, cx, anc, our, their, whole, spec) && (whole ==> path in spec)
    requires Merging(hx, s0, store.objects, whole, spec, order, p)
    modifies store
    ensures Safe(hx, s0, store.objects)
    ensures r.Err? ==> Failure(s0, r.error)
    ensures r.Ok? ==> Merging(hx, s0, store.objects, whole, spec, order + [path], r.value)
    ensures whole ==> r.Ok?
  {
    ghost var s := store.objects;
    var merged := MergePath(store, hx, cx, path, Lookup(anc, path), Lookup(our, path), Lookup(their, path), s0);
    if merged.Err? {
      return Err(merged.error);
    }
    MergingNext(hx, s0, s, store.objects, whole, spec, order, p, path, merged.value);
    return Ok(Add(p, path, merged.value));
  }

  lemma AllSpecified(hx: Hashing, s0: Objects, cx: Context, anc: Files, our: Files, their: Files, whole: bool,
      spec: Outcomes)
    requires Specified(hx, s0, cx, anc, our, their, whole, spec)
    ensures whole ==> spec.Keys == anc.Keys + our.Keys + their.Keys
  {
  }

  method MergeAllPaths(store: ObjectStore, hx: Hashing, cx: Context, anc: Files, our: Files, their: Files,
      ghost whole: bool, ghost spec: Outcomes)
    returns (r: Result<Progress, Error>, ghost order: seq<string>)
    requires CollisionFree(hx) && MergeClosed(hx) && Describable(hx, cx) && Addressed(hx, store.objects)
    requires Specified(hx, store.objects, cx, anc, our, their, whole, spec)
    modifies store
    ensures Safe(hx, old(store.objects), store.objects)
    ensures r.Err? ==> Failure(old(store.objects), r.error)
    ensures r.Ok? && whole ==>
      Visits(spec, order) && Merging(hx, old(store.objects), store.objects, whole, spec, order, r.value)
    ensures whole ==> r.Ok?
  {
    ghost var s0 := store.objects;
    var paths := anc.Keys + our.Keys + their.Keys;
    AllSpecified(hx, s0, cx, anc, our, their, whole, spec);
    r, order := MergePaths(store, hx, cx, anc, our, their, paths, s0, whole, spec);
  }

  method MergePaths(store: ObjectStore, hx: Hashing, cx: Context, anc: Files, our: Files, their: Files,
      all: set<string>, ghost s0: Objects, ghost whole: bool, ghost spec: Outcomes)
    returns (r: Result<Progress, Error>, ghost order: seq<string>)
    requires CollisionFree(hx) && MergeClosed(hx) && Describable(hx, cx) && Addressed(hx, store.objects)
    requires s0 == store.objects && Specified(hx, s0, cx, anc, our, their, whole, spec)
    requires whole ==> spec.Keys == all
    modifies store
    ensures Safe(hx, s0, store.objects)
    ensures r.Err? ==> Failure(s0, r.error)
    ensures r.Ok? ==> NoRepeats(order) && forall p :: p in order <==> p in all
    ensures r.Ok? ==> Merging(hx, s0, store.objects, whole, spec, order, r.value)
    ensures whole ==> r.Ok?
  {
    var progress := NOTHING_DONE;
    var paths := all;
    order := [];
    while paths != {}
      invariant Ordered(all, order, paths)
      invariant Merging(hx, s0, store.objects, whole, spec, order, progress)
      decreases paths
    {
      // A hash set is iterated in no particular order.
      var path :| path in paths;
      var next := MergeNextPath(store, hx, cx, path, anc, our, their, progress, s0, whole, spec, order);
      if next.Err? {
        return Err(next.error), order;
      }
      OrderedNext(all, order, paths, path);
      progress, paths, order := next.value, paths - {path}, order + [path];
    }
    return Ok(progress), order;
  }

  /** The result is the merge of the three trees of s0, stored in s: the tree and the reports
      that visiting every path once, in some order, collects from what the versions of each
      path alone determine. All of its documents are in s. */
  ghost predicate TreesMerged(hx: Hashing, s0: Objects, s: Objects, cx: Context,
      ancestor: seq<TreeEntry>, ours: seq<TreeEntry>, theirs: seq<TreeEntry>, result: MergeResult)
    requires TreesWhole(hx, s0, ancestor, ours, theirs)
  {
    && result.tree in s && s[result.tree].Tree? && result.tree == hx.record(s[result.tree])
    && EntriesWhole(hx, s, s[result.tree].entries)
    && exists order :: MergedInOrder(Spec(hx, s0, cx, ancestor, ours, theirs), order, s[result.tree].entries, result)
  }

  ghost predicate MergedInOrder(spec: Outcomes, order: seq<string>, entries: seq<TreeEntry>, result: MergeResult) {
    && Visits(spec, order) && entries == MergedEntries(spec, order)
    && result == ReportOf(result.tree, Visited(spec, order))
  }

  /** Two merges of the same trees, made in any stores and any orders, have the same result
      unless a sidecar's path is taken by another document; the reports are the same up to
      order. Their paths are distinct exactly if no sidecar's path is taken at all. */
  lemma MergesAgree(hx: Hashing, s0: Objects, s: Objects, s': Objects, cx: Context,
      ancestor: seq<TreeEntry>, ours: seq<TreeEntry>, theirs: seq<TreeEntry>, r: MergeResult, r': MergeResult)
    requires Describable(hx, cx) && TreesWhole(hx, s0, ancestor, ours, theirs)
    requires TreesMerged(hx, s0, s, cx, ancestor, ours, theirs, r)
    requires TreesMerged(hx, s0, s', cx, ancestor, ours, theirs, r')
    ensures var spec := Spec(hx, s0, cx, ancestor, ours, theirs);
      && Shaped(spec)
      && (!Contested(spec) ==> r.tree == r'.tree)
      && (DistinctPaths(s[r.tree].entries) <==> !SomeTaken(spec))
      && (forall c :: c in r.conflicts <==> c in r'.conflicts)
  {
    var spec := Spec(hx, s0, cx, ancestor, ours, theirs);
    SpecShaped(hx, s0, cx, ancestor, ours, theirs);
    var order :| MergedInOrder(spec, order, s[r.tree].entries, r);
    var order' :| MergedInOrder(spec, order', s'[r'.tree].entries, r');
    if !Contested(spec) {
      UncontestedOneTree(spec, order, order');
    }
    VisitedAll(spec, order);
    VisitedAll(spec, order');
    DistinctExactly(spec, order);
    SortedDistinct(Visited(spec, order).entries);
  }

  lemma SpecShaped(hx: Hashing, s: Objects, cx: Context, ancestor: seq<TreeEntry>, ours: seq<TreeEntry>,
      theirs: seq<TreeEntry>)
    requires Describable(hx, cx) && TreesWhole(hx, s, ancestor, ours, theirs)
    ensures Shaped(Spec(hx, s, cx, ancestor, ours, theirs))
  {
    FilesOfWhole(hx, s, ancestor);
    FilesOfWhole(hx, s, ours);
    FilesOfWhole(hx, s, theirs);
    OutcomesShaped(hx, s, cx, FilesOf(ancestor), FilesOf(ours), FilesOf(theirs));
  }

  /** A merged tree stays merged in a store that keeps all objects. */
  lemma TreesMergedStay(hx: Hashing, s0: Objects, s: Objects, s': Objects, cx: Context,
      ancestor: seq<TreeEntry>, ours: seq<TreeEntry>, theirs: seq<TreeEntry>, result: MergeResult)
    requires TreesWhole(hx, s0, ancestor, ours, theirs)
    requires TreesMerged(hx, s0, s, cx, ancestor, ours, theirs, result)
    requires forall x :: x in s ==> x in s' && SameContent(s[x], s'[x])
    ensures TreesMerged(hx, s0, s', cx, ancestor, ours, theirs, result)
  {
    var spec, entries := Spec(hx, s0, cx, ancestor, ours, theirs), s[result.tree].entries;
    var order :| MergedInOrder(spec, order, entries, result);
    forall i | 0 <= i < |entries|
      ensures DocumentWhole(hx, s', entries[i].document)
    {
      DocumentStays(hx, s, s', entries[i].document);
    }
  }

  /** Merges two trees over their ancestor. */
  method MergeTrees(store: ObjectStore, hx: Hashing, cx: Context, ancestor: seq<TreeEntry>, ours: seq<TreeEntry>,
      theirs: seq<TreeEntry>)
    returns (r: Result<MergeResult, Error>)
    requires CollisionFree(hx) && MergeClosed(hx) && Describable(hx, cx) && Addressed(hx, store.objects)
    modifies store
    ensures Safe(hx, old(store.objects), store.objects)
    ensures r.Err? ==> Failure(old(store.objects), r.error)
    ensures r.Ok? ==> r.value.tree in store.objects && store.objects[r.value.tree].Tree?
    ensures TreesWhole(hx, old(store.objects), ancestor, ours, theirs) ==>
      r.Ok? && TreesMerged(hx, old(store.objects), store.objects, cx, ancestor, ours, theirs, r.value)
  {
    ghost var s0, whole := store.objects, TreesWhole(hx, store.objects, ancestor, ours, theirs);
    ghost var spec: Outcomes := if whole then Spec(hx, s0, cx, ancestor, ours, theirs) else map[];
    if whole {
      FilesOfWhole(hx, s0, ancestor);
      FilesOfWhole(hx, s0, ours);
      FilesOfWhole(hx, s0, theirs);
    }
    var merged, order := MergeAllPaths(store, hx, cx, FilesOf(ancestor), FilesOf(ours), FilesOf(theirs), whole, spec);
    if merged.Err? {
      return Err(merged.error);
    }
    var h := StoreTree(store, hx, merged.value.entries, s0);
    var result := ReportOf(h, merged.value);
    if whole {
      assert MergedInOrder(spec, order, store.objects[h].entries, result);
    }
    return Ok(result);
  }

  /** Stores the tree of the given entries. */
  method StoreTree(store: ObjectStore, hx: Hashing, entries: seq<TreeEntry>, ghost s0: Objects) returns (h: Hash)
    requires CollisionFree(hx) && Safe(hx, s0, store.objects)
    modifies store
    ensures Safe(hx, s0, store.objects) && Preserves(old(store.objects), store.objects)
    ensures h == hx.record(Tree(SortEntries(entries))) && h in store.objects
    ensures store.objects[h] == Tree(SortEntries(entries))
    ensures EntriesWhole(hx, old(store.objects), entries) ==> EntriesWhole(hx, store.objects, SortEntries(entries))
  {
    ghost var s := store.objects;
    var tree := Tree(SortEntries(entries));
    h := hx.record(tree);
    PutPreserves(hx, s, h, tree);
    store.Commit([(h, tree)]);
    assert store.objects == s[h := tree];
    PreservesTransitive(s0, s, store.objects);
    if EntriesWhole(hx, s, entries) {
      SortedWhole(hx, s, store.objects, entries);
    }
  }

  lemma SortedWhole(hx: Hashing, s: Objects, s': Objects, entries: seq<TreeEntry>)
    requires Preserves(s, s') && EntriesWhole(hx, s, entries)
    ensures EntriesWhole(hx, s', SortEntries(entries))
  {
    SortMeaning(entries);
    forall i | 0 <= i < |SortEntries(entries)|
      ensures DocumentWhole(hx, s', SortEntries(entries)[i].document)
    {
      var e := SortEntries(entries)[i];
      assert e in entries;
      var j :| 0 <= j < |entries| && entries[j] == e;
      DocumentStays(hx, s, s', entries[j].document);
    }
  }

  // ----- Trees that hold a sidecar already

  /** Ours holds, beside a file that both sides changed, a document at the path where this
      very conflict puts its sidecar. */
  ghost predicate SidecarHeld(hx: Hashing, s: Objects, cx: Context, a: Hash, o: Hash, t: Hash, x: Hash) {
    && DocumentWhole(hx, s, a) && DocumentWhole(hx, s, o) && DocumentWhole(hx, s, t) && DocumentWhole(hx, s, x)
    && a != o && a != t && o != t
    && StrategyFor(cx.policy.default, cx.policy.overrides, "z") == Manual
    && x != hx.record(DocumentOf(hx,
      SidecarDocument(hx, s, cx, FileConflict("z", Some(a), o, t, false, "both sides modified"))))
  }

  /** There the merged tree has two entries at one path, and the order of visits decides
      which of them is found. */
  lemma OrderMatters(hx: Hashing, s: Objects, cx: Context, a: Hash, o: Hash, t: Hash, x: Hash)
    requires Describable(hx, cx) && SidecarHeld(hx, s, cx, a, o, t, x)
    ensures var q := SidecarPath(cx, "z", Some(a), o, t);
      var ancestor, ours, theirs := [TreeEntry("z", a)], [TreeEntry("z", o), TreeEntry(q, x)], [TreeEntry("z", t)];
      && TreesWhole(hx, s, ancestor, ours, theirs)
      && var spec := Spec(hx, s, cx, ancestor, ours, theirs);
         && Visits(spec, ["z", q]) && Visits(spec, [q, "z"])
         && Get(MergedEntries(spec, ["z", q]), q) != Get(MergedEntries(spec, [q, "z"]), q)
         && !DistinctPaths(MergedEntries(spec, ["z", q]))
  {
    var q := SidecarPath(cx, "z", Some(a), o, t);
    var ancestor, ours, theirs := [TreeEntry("z", a)], [TreeEntry("z", o), TreeEntry(q, x)], [TreeEntry("z", t)];
    var spec := Spec(hx, s, cx, ancestor, ours, theirs);
    SpecShaped(hx, s, cx, ancestor, ours, theirs);
    SidecarInjective(cx, "z", "z", Some(a), o, t, Some(a), o, t);
    HeldFiles(a, o, t, q, x);
    HeldOutcomes(hx, s, cx, a, o, t, q, x);
    assert Taken(spec, "z", q);
    TwoOrders(spec, "z", q);
  }

  lemma HeldFiles(a: Hash, o: Hash, t: Hash, q: string, x: Hash)
    requires q != "z"
    ensures FilesOf([TreeEntry("z", a)]) == map["z" := a] && FilesOf([TreeEntry("z", t)]) == map["z" := t]
    ensures FilesOf([TreeEntry("z", o), TreeEntry(q, x)]) == map["z" := o, q := x]
  {
    OneFile(a);
    OneFile(o);
    OneFile(t);
    var two := Listed([TreeEntry("z", o), TreeEntry(q, x)]);
    assert two[..|two| - 1] == Listed([TreeEntry("z", o)]);
  }

  lemma OneFile(h: Hash)
    ensures Collect(Listed([TreeEntry("z", h)])) == map["z" := h]
  {
    var one := Listed([TreeEntry("z", h)]);
    assert one[..|one| - 1] == [];
  }

  lemma HeldOutcomes(hx: Hashing, s: Objects, cx: Context, a: Hash, o: Hash, t: Hash, q: string, x: Hash)
    requires SidecarHeld(hx, s, cx, a, o, t, x) && q == SidecarPath(cx, "z", Some(a), o, t) && q != "z"
    requires FilesWhole(hx, s, map["z" := a]) && FilesWhole(hx, s, map["z" := o, q := x])
    requires FilesWhole(hx, s, map["z" := t])
    ensures var spec := OutcomesOf(hx, s, cx, map["z" := a], map["z" := o, q := x], map["z" := t]);
      && spec.Keys == {"z", q}
      && spec["z"].report.Conflicted? && spec["z"].report.sidecar == q
      && |spec["z"].entries| == 2 && spec["z"].entries[1].document != x
      && spec[q].entries == [TreeEntry(q, x)]
  {
  }
}
