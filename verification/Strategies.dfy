/** What a merged tree holds at a path and how the merge reports it: by the three versions of
    the path and the strategy that the policy names for it. */
module Strategies {
  import opened Wrappers
  import opened Objects
  import opened Sequences
  import opened ThreeWay
  import opened Content
  import opened Import
  import opened DocumentMerge
  import opened Trees
  import opened TreeMerge
  import opened VisitOrder
  import opened MergeTrees

  // ----- The strategy of a path

  /** The path ends in the pattern. */
  ghost predicate Matches(path: string, pattern: string) {
    exists start :: path == start + pattern
  }

  ghost predicate FirstMatch(overrides: seq<(string, Strategy)>, path: string, i: nat, strategy: Strategy)
    requires i < |overrides|
  {
    && Matches(path, overrides[i].0) && strategy == overrides[i].1
    && forall j :: 0 <= j < i ==> !Matches(path, overrides[j].0)
  }

  /** The strategy is that of the first override whose pattern the path ends in, or, if there
      is none, the default. */
  ghost predicate Selects(policy: Policy, path: string, strategy: Strategy) {
    || (exists i :: 0 <= i < |policy.overrides| && FirstMatch(policy.overrides, path, i, strategy))
    || (strategy == policy.default && forall j :: 0 <= j < |policy.overrides| ==> !Matches(path, policy.overrides[j].0))
  }

  lemma EndsWithMatches(path: string, pattern: string)
    ensures EndsWith(path, pattern) <==> Matches(path, pattern)
  {
    if EndsWith(path, pattern) {
      assert path == path[..|path| - |pattern|] + pattern;
    }
  }

  /** The policy names one strategy for each path, the one a merge follows. */
  lemma StrategyNamed(policy: Policy, path: string, strategy: Strategy)
    ensures StrategyFor(policy.default, policy.overrides, path) == strategy <==> Selects(policy, path, strategy)
  {
    FollowedSelects(policy, path);
    if Selects(policy, path, strategy) {
      SelectsOne(policy, path, strategy, StrategyFor(policy.default, policy.overrides, path));
    }
  }

  lemma SelectsOne(policy: Policy, path: string, x: Strategy, y: Strategy)
    requires Selects(policy, path, x) && Selects(policy, path, y)
    ensures x == y
  {
    forall i, j | 0 <= i < |policy.overrides| && 0 <= j < |policy.overrides|
      && FirstMatch(policy.overrides, path, i, x) && FirstMatch(policy.overrides, path, j, y)
      ensures i == j
    {
    }
  }

  lemma {:induction false} FollowedSelects(policy: Policy, path: string)
    ensures Selects(policy, path, StrategyFor(policy.default, policy.overrides, path))
    decreases |policy.overrides|
  {
    if policy.overrides != [] {
      EndsWithMatches(path, policy.overrides[0].0);
      if Matches(path, policy.overrides[0].0) {
        assert FirstMatch(policy.overrides, path, 0, policy.overrides[0].1);
      } else {
        FollowedSelects(policy.(overrides := policy.overrides[1..]), path);
        LaterSelects(policy, path, StrategyFor(policy.default, policy.overrides, path));
      }
    }
  }

  lemma LaterSelects(policy: Policy, path: string, strategy: Strategy)
    requires policy.overrides != [] && !Matches(path, policy.overrides[0].0)
    requires Selects(policy.(overrides := policy.overrides[1..]), path, strategy)
    ensures Selects(policy, path, strategy)
  {
    var rest := policy.overrides[1..];
    assert forall j :: 1 <= j < |policy.overrides| ==> policy.overrides[j] == rest[j - 1];
    if exists i :: 0 <= i < |rest| && FirstMatch(rest, path, i, strategy) {
      var i :| 0 <= i < |rest| && FirstMatch(rest, path, i, strategy);
      assert FirstMatch(policy.overrides, path, i + 1, strategy);
    }
  }

  // ----- What a path holds, and its report

  /** The document the listing has for the path: that of its last entry, if it has one. */
  ghost predicate Version(entries: seq<TreeEntry>, path: string, v: Option<Hash>) {
    if v.None? then forall e :: e in entries ==> e.path != path
    else exists i :: 0 <= i < |entries| && LastOf(entries, path, i) && entries[i].document == v.value
  }

  ghost predicate LastOf(entries: seq<TreeEntry>, path: string, i: nat)
    requires i < |entries|
  {
    entries[i].path == path && forall j :: i < j < |entries| ==> entries[j].path != path
  }

  lemma {:induction false} VersionFiled(entries: seq<TreeEntry>, path: string, v: Option<Hash>)
    requires Version(entries, path, v)
    ensures Lookup(FilesOf(entries), path) == v
    decreases |entries|
  {
    if entries != [] {
      var front, last := Front(entries), Last(entries);
      assert Listed(entries)[..|entries| - 1] == Listed(front);
      if last.path == path {
        assert v == Some(last.document);
      } else {
        assert Version(front, path, v) by {
          assert forall e :: e in front ==> e in entries;
        }
        VersionFiled(front, path, v);
      }
    }
  }

  ghost predicate Versions(ancestor: seq<TreeEntry>, ours: seq<TreeEntry>, theirs: seq<TreeEntry>, path: string,
      a: Option<Hash>, o: Option<Hash>, t: Option<Hash>)
  {
    Version(ancestor, path, a) && Version(ours, path, o) && Version(theirs, path, t)
  }

  /** The path has this document in the tree, or none; anything else there is the sidecar of
      a conflict that the merge reports. */
  ghost predicate Holds(entries: seq<TreeEntry>, result: MergeResult, path: string, v: Option<Hash>) {
    && (v.Some? ==> TreeEntry(path, v.value) in entries)
    && forall e :: e in entries && e.path == path && v != Some(e.document) ==>
      exists c :: c in result.conflicts && c.1 == path
  }

  /** Which of the lists of a merge the path is on. */
  ghost predicate Reported(result: MergeResult, path: string, autoMerged: bool, oursOnly: bool, theirsOnly: bool) {
    && (path in result.autoMerged <==> autoMerged)
    && (path in result.oursOnly <==> oursOnly)
    && (path in result.theirsOnly <==> theirsOnly)
  }

  ghost predicate Undisputed(result: MergeResult, path: string) {
    forall c :: c in result.conflicts ==> c.0 != path
  }

  /** The strategy settled the path with this document, and it is reported so. */
  ghost predicate AutoMergedTo(entries: seq<TreeEntry>, result: MergeResult, path: string, h: Hash) {
    && Holds(entries, result, path, Some(h)) && Reported(result, path, true, false, false)
    && Undisputed(result, path)
  }

  /** The path keeps our document, and one sidecar beside it describes the three versions. */
  ghost predicate Diverges(hx: Hashing, s: Objects, cx: Context, entries: seq<TreeEntry>, result: MergeResult,
      path: string, a: Option<Hash>, o: Hash, t: Hash)
    requires VersionsWhole(hx, s, a, Some(o), Some(t))
  {
    var sidecar := ".clayers/divergence/" + path + "." + cx.digits(a, o, t);
    var ancestor := if a.Some? then RootTree(hx, s, a.value) else NO_ANCESTOR;
    var document := cx.describe(path, ancestor, RootTree(hx, s, o), RootTree(hx, s, t));
    && Holds(entries, result, path, Some(o)) && Reported(result, path, false, false, false)
    && TreeEntry(sidecar, hx.record(DocumentOf(hx, document))) in entries
    && forall c :: c in result.conflicts && c.0 == path <==> c == (path, sidecar)
  }

  /** A merge of trees: what it needs, and what it came to. */
  ghost predicate MergeDone(hx: Hashing, s0: Objects, s: Objects, cx: Context, ancestor: seq<TreeEntry>,
      ours: seq<TreeEntry>, theirs: seq<TreeEntry>, result: MergeResult)
  {
    && Describable(hx, cx) && TreesWhole(hx, s0, ancestor, ours, theirs)
    && TreesMerged(hx, s0, s, cx, ancestor, ours, theirs, result)
  }

  /** What the path contributes is what it holds and how it is reported. */
  lemma PathHeld(hx: Hashing, s0: Objects, s: Objects, cx: Context, ancestor: seq<TreeEntry>, ours: seq<TreeEntry>,
      theirs: seq<TreeEntry>, result: MergeResult, path: string, a: Option<Hash>, o: Option<Hash>, t: Option<Hash>)
    requires MergeDone(hx, s0, s, cx, ancestor, ours, theirs, result)
    requires Versions(ancestor, ours, theirs, path, a, o, t) && (a.Some? || o.Some? || t.Some?)
    ensures VersionsWhole(hx, s0, a, o, t)
    ensures Shows(s[result.tree].entries, result, path, PathOutcome(hx, s0, cx, path, a, o, t))
  {
    VersionFiled(ancestor, path, a);
    VersionFiled(ours, path, o);
    VersionFiled(theirs, path, t);
    FilesOfWhole(hx, s0, ancestor);
    FilesOfWhole(hx, s0, ours);
    FilesOfWhole(hx, s0, theirs);
    var spec, entries := Spec(hx, s0, cx, ancestor, ours, theirs), s[result.tree].entries;
    var order :| MergedInOrder(spec, order, entries, result);
    SpecShaped(hx, s0, cx, ancestor, ours, theirs);
    VisitedAll(spec, order);
    SortMeaning(Visited(spec, order).entries);
    PathShown(spec, order, entries, result, path);
  }

  /** The tree has the entries of r, its other entries at the path are sidecars, and the
      lists say what r says. */
  ghost predicate Shows(entries: seq<TreeEntry>, result: MergeResult, path: string, r: PathResult) {
    && (forall e :: e in r.entries ==> e in entries)
    && (forall e :: e in entries && e.path == path ==>
          e in r.entries || exists c :: c in result.conflicts && c.1 == path)
    && Reported(result, path, r.report.AutoMerged?, r.report.OursOnly?, r.report.TheirsOnly?)
    && forall c :: c in result.conflicts && c.0 == path <==>
      r.report.Conflicted? && c == (path, r.report.sidecar)
  }

  lemma PathShown(spec: Outcomes, order: seq<string>, entries: seq<TreeEntry>, result: MergeResult, path: string)
    requires Shaped(spec) && path in spec && MergedInOrder(spec, order, entries, result)
    ensures Shows(entries, result, path, spec[path])
  {
    var p := Visited(spec, order);
    VisitedAll(spec, order);
    SortMeaning(p.entries);
    TallyReports(p, spec, result, path);
    forall e | e in spec[path].entries
      ensures e in entries
    {
      assert e in EntriesOf(spec, spec.Keys);
    }
    forall e | e in entries && e.path == path && e !in spec[path].entries
      ensures exists c :: c in result.conflicts && c.1 == path
    {
      var q := EntryFrom(spec, order, e);
      StrayEntry(spec, p, q, e);
    }
  }

  lemma TallyReports(p: Progress, spec: Outcomes, result: MergeResult, path: string)
    requires Tally(p, spec, spec.Keys) && path in spec && result == ReportOf(result.tree, p)
    ensures var report := spec[path].report;
      && Reported(result, path, report.AutoMerged?, report.OursOnly?, report.TheirsOnly?)
      && forall c :: c in result.conflicts && c.0 == path <==> report.Conflicted? && c == (path, report.sidecar)
  {
    forall c
      ensures c in result.conflicts && c.0 == path <==>
        spec[path].report.Conflicted? && c == (path, spec[path].report.sidecar)
    {
      assert c in p.conflicts <==> ReportedConflict(spec, spec.Keys, c);
    }
  }

  lemma StrayEntry(spec: Outcomes, p: Progress, q: string, e: TreeEntry)
    requires Tally(p, spec, spec.Keys) && q in spec && ShapedAt(q, spec[q]) && e in spec[q].entries && e.path != q
    ensures exists c :: c in p.conflicts && c.1 == e.path
  {
    assert ReportedConflict(spec, spec.Keys, (q, e.path));
  }

  // ----- Every case of the three versions

  /** Where both sides changed a file, or both added it, differently, its strategy decides:
      the document is ours, theirs, or the merge of the three if there is one; otherwise the
      path diverges. */
  lemma BothChanged(hx: Hashing, s0: Objects, s: Objects, cx: Context, ancestor: seq<TreeEntry>, ours: seq<TreeEntry>,
      theirs: seq<TreeEntry>, result: MergeResult, path: string, a: Option<Hash>, o: Hash, t: Hash, strategy: Strategy)
    requires MergeDone(hx, s0, s, cx, ancestor, ours, theirs, result)
    requires Versions(ancestor, ours, theirs, path, a, Some(o), Some(t)) && o != t && a != Some(o) && a != Some(t)
    requires Selects(cx.policy, path, strategy)
    ensures VersionsWhole(hx, s0, a, Some(o), Some(t))
    ensures
      var es := s[result.tree].entries;
      match strategy
      case Ours => AutoMergedTo(es, result, path, o)
      case Theirs => AutoMergedTo(es, result, path, t)
      case Manual => Diverges(hx, s0, cx, es, result, path, a, o, t)
      case AutoMerge =>
        if a.None? || MergedDocument(hx, s0, a.value, o, t).None? then Diverges(hx, s0, cx, es, result, path, a, o, t)
        else AutoMergedTo(es, result, path, MergedDocument(hx, s0, a.value, o, t).value)
  {
    PathHeld(hx, s0, s, cx, ancestor, ours, theirs, result, path, a, Some(o), Some(t));
    StrategyNamed(cx.policy, path, strategy);
    var es, r := s[result.tree].entries, PathOutcome(hx, s0, cx, path, a, Some(o), Some(t));
    var description := if a.Some? then "both sides modified" else "both sides added with different content";
    ChangesShown(hx, s0, cx, es, result, FileConflict(path, a, o, t, false, description), r, strategy);
  }

  lemma ChangesShown(hx: Hashing, s: Objects, cx: Context, entries: seq<TreeEntry>, result: MergeResult,
      c: FileConflict, r: PathResult, strategy: Strategy)
    requires ConflictWhole(hx, s, c) && !c.deleted && r == ConflictResult(hx, s, cx, c)
    requires Shows(entries, result, c.path, r) && |cx.digits(c.ancestor, c.ours, c.theirs)| == 16
    requires StrategyFor(cx.policy.default, cx.policy.overrides, c.path) == strategy
    ensures
      match strategy
      case Ours => AutoMergedTo(entries, result, c.path, c.ours)
      case Theirs => AutoMergedTo(entries, result, c.path, c.theirs)
      case Manual => Diverges(hx, s, cx, entries, result, c.path, c.ancestor, c.ours, c.theirs)
      case AutoMerge =>
        if c.ancestor.None? || MergedDocument(hx, s, c.ancestor.value, c.ours, c.theirs).None? then
          Diverges(hx, s, cx, entries, result, c.path, c.ancestor, c.ours, c.theirs)
        else AutoMergedTo(entries, result, c.path, MergedDocument(hx, s, c.ancestor.value, c.ours, c.theirs).value)
  {
    EntryShown(entries, result, c.path, r);
    if r.report.Conflicted? {
      ConflictShown(hx, s, cx, entries, result, c.path, c.ancestor, c.ours, c.theirs, false, c.description);
    }
  }

  /** A conflict that its strategy does not settle. */
  lemma ConflictShown(hx: Hashing, s: Objects, cx: Context, entries: seq<TreeEntry>, result: MergeResult, path: string,
      a: Option<Hash>, o: Hash, t: Hash, deleted: bool, description: string)
    requires VersionsWhole(hx, s, a, Some(o), Some(t))
    requires var c := FileConflict(path, a, o, t, deleted, description);
      && Settlement(hx, s, StrategyFor(cx.policy.default, cx.policy.overrides, path), c).None?
      && Shows(entries, result, path, ConflictResult(hx, s, cx, c))
    requires |cx.digits(a, o, t)| == 16
    ensures Diverges(hx, s, cx, entries, result, path, a, o, t)
  {
    var c := FileConflict(path, a, o, t, deleted, description);
    SidecarInjective(cx, path, path, a, o, t, a, o, t);
    EntryShown(entries, result, path, ConflictResult(hx, s, cx, c));
  }

  lemma EntryShown(entries: seq<TreeEntry>, result: MergeResult, path: string, r: PathResult)
    requires Shows(entries, result, path, r)
    ensures r.entries == [] ==> Holds(entries, result, path, None)
    ensures |r.entries| == 1 && r.entries[0].path == path ==>
      Holds(entries, result, path, Some(r.entries[0].document))
    ensures |r.entries| == 2 && r.entries[0].path == path && r.entries[1].path != path ==>
      Holds(entries, result, path, Some(r.entries[0].document)) && r.entries[1] in entries
  {
  }

  /** Where one side deleted a file and the other changed it, the path diverges whatever its
      strategy; the ancestor's document stands for the deleted one. */
  lemma DeletedAndChanged(hx: Hashing, s0: Objects, s: Objects, cx: Context, ancestor: seq<TreeEntry>,
      ours: seq<TreeEntry>, theirs: seq<TreeEntry>, result: MergeResult, path: string, a: Hash, o: Option<Hash>,
      t: Option<Hash>)
    requires MergeDone(hx, s0, s, cx, ancestor, ours, theirs, result)
    requires Versions(ancestor, ours, theirs, path, Some(a), o, t)
    requires (o.None? && t.Some? && t != Some(a)) || (t.None? && o.Some? && o != Some(a))
    ensures VersionsWhole(hx, s0, Some(a), o, t)
    ensures o.None? ==> Diverges(hx, s0, cx, s[result.tree].entries, result, path, Some(a), a, t.value)
    ensures t.None? ==> Diverges(hx, s0, cx, s[result.tree].entries, result, path, Some(a), o.value, a)
  {
    PathHeld(hx, s0, s, cx, ancestor, ours, theirs, result, path, Some(a), o, t);
    var es := s[result.tree].entries;
    if o.None? {
      DisputedShown(hx, s0, cx, es, result, path, a, o, t, a, t.value, "deleted on ours, modified on theirs");
    } else {
      DisputedShown(hx, s0, cx, es, result, path, a, o, t, o.value, a, "modified on ours, deleted on theirs");
    }
  }

  lemma DisputedShown(hx: Hashing, s: Objects, cx: Context, entries: seq<TreeEntry>, result: MergeResult,
      path: string, a: Hash, o: Option<Hash>, t: Option<Hash>, kept: Hash, other: Hash, description: string)
    requires VersionsWhole(hx, s, Some(a), o, t) && VersionsWhole(hx, s, Some(a), Some(kept), Some(other))
    requires Classify(path, Some(a), o, t) ==
      Disputed(FileConflict(path, Some(a), kept, other, true, description))
    requires Shows(entries, result, path, PathOutcome(hx, s, cx, path, Some(a), o, t))
    requires |cx.digits(Some(a), kept, other)| == 16
    ensures Diverges(hx, s, cx, entries, result, path, Some(a), kept, other)
  {
    ConflictShown(hx, s, cx, entries, result, path, Some(a), kept, other, true, description);
  }

  /** Where at most one side changed a file, or both did the same to it, the path is as the
      side that changed it has it, and the merge says which side that was. */
  lemma OneChanged(hx: Hashing, s0: Objects, s: Objects, cx: Context, ancestor: seq<TreeEntry>, ours: seq<TreeEntry>,
      theirs: seq<TreeEntry>, result: MergeResult, path: string, a: Option<Hash>, o: Option<Hash>, t: Option<Hash>)
    requires MergeDone(hx, s0, s, cx, ancestor, ours, theirs, result)
    requires Versions(ancestor, ours, theirs, path, a, o, t) && (a.Some? || o.Some? || t.Some?)
    requires o == t || o == a || t == a
    ensures var es := s[result.tree].entries;
      && Undisputed(result, path)
      && (o == t ==> Holds(es, result, path, o) && Reported(result, path, a.None?, false, false))
      && (o != t && t == a ==> Holds(es, result, path, o) && Reported(result, path, false, true, false))
      && (o != t && o == a ==> Holds(es, result, path, t) && Reported(result, path, false, false, true))
  {
    PathHeld(hx, s0, s, cx, ancestor, ours, theirs, result, path, a, o, t);
    EntryShown(s[result.tree].entries, result, path, PathOutcome(hx, s0, cx, path, a, o, t));
  }
}
