/** File-level three-way merge of trees. */
module TreeMerge {
  import opened Wrappers
  import opened Objects
  import opened Sequences
  import opened ThreeWay
  import opened Content
  import opened Store
  import opened Import
  import opened Export
  import opened RoundTrip
  import opened StoreMerge
  import opened DocumentMerge

  // ----- Strategies

  datatype Strategy = Ours | Theirs | Manual | AutoMerge

  /** A default strategy, and overrides for the paths that end in a pattern. */
  datatype Policy = Policy(default: Strategy, overrides: seq<(string, Strategy)>)

  predicate EndsWith(path: string, pattern: string) {
    |pattern| <= |path| && path[|path| - |pattern|..] == pattern
  }

  function StrategyFor(default: Strategy, overrides: seq<(string, Strategy)>, path: string): Strategy {
    if overrides == [] then default
    else if EndsWith(path, overrides[0].0) then overrides[0].1
    else StrategyFor(default, overrides[1..], path)
  }

  const DIVERGENCE_PREFIX := ".clayers/divergence/"

  predicate Reserved(path: string) {
    DIVERGENCE_PREFIX <= path
  }

  predicate TreeHasDivergences(entries: seq<TreeEntry>) {
    exists i :: 0 <= i < |entries| && Reserved(entries[i].path)
  }

  /** What a merge is given besides the trees: the policy, the divergence document for a
      conflict (which also names the refs and commits), and the 16 hex digits that tell
      conflicts of one file apart. */
  datatype Context = Context(
    policy: Policy,
    describe: (string, Node, Node, Node) -> XmlDocument,
    digits: (Option<Hash>, Hash, Hash) -> string)

  /** Stands for the missing ancestor in a divergence document. */
  const NO_ANCESTOR := ElementNode("empty", None, map[], [])

  ghost predicate Describable(hx: Hashing, cx: Context) {
    && (forall path, a, o, t :: (hx.known(a) || a == NO_ANCESTOR) && hx.known(o) && hx.known(t) ==>
          Known(hx, cx.describe(path, a, o, t).root) && Prologue(cx.describe(path, a, o, t).before) == [])
    && forall a, o, t :: |cx.digits(a, o, t)| == 16
  }

  function SidecarPath(cx: Context, path: string, a: Option<Hash>, o: Hash, t: Hash): string {
    DIVERGENCE_PREFIX + path + "." + cx.digits(a, o, t)
  }

  /** Sidecars of different files have different paths, all of them reserved, and no file is
      its own sidecar. */
  lemma SidecarInjective(cx: Context, p: string, q: string, a: Option<Hash>, o: Hash, t: Hash, b: Option<Hash>, u: Hash,
      v: Hash)
    requires |cx.digits(a, o, t)| == 16 && |cx.digits(b, u, v)| == 16
    ensures Reserved(SidecarPath(cx, p, a, o, t)) && SidecarPath(cx, p, a, o, t) != p
    ensures SidecarPath(cx, p, a, o, t) == SidecarPath(cx, q, b, u, v) ==> p == q
  {
    var x, y := SidecarPath(cx, p, a, o, t), SidecarPath(cx, q, b, u, v);
    var n := |DIVERGENCE_PREFIX|;
    assert x[..n] == DIVERGENCE_PREFIX;
    assert x[n..|x| - 17] == p && y[n..|y| - 17] == q;
  }

  // ----- One path

  datatype Report = Unchanged | OursOnly | TheirsOnly | AutoMerged | Conflicted(sidecar: string, description: string)

  /** What a path contributes to the merged tree, and how it is reported. */
  datatype PathResult = PathResult(entries: seq<TreeEntry>, report: Report)

  /** A conflict as the strategies see it. A deleted side is represented by the ancestor. */
  datatype FileConflict = FileConflict(path: string, ancestor: Option<Hash>, ours: Hash, theirs: Hash, deleted: bool,
    description: string)

  /** The conflict at a path, if its three versions disagree, and otherwise what it holds.
      A deletion against an unchanged file is reported for the side that deleted. */
  datatype FileCase = Settled(result: PathResult) | Disputed(conflict: FileConflict)

  function Classify(path: string, a: Option<Hash>, o: Option<Hash>, t: Option<Hash>): FileCase {
    match (a, o, t)
    case (Some(ah), Some(oh), Some(th)) =>
      if oh == th then Settled(PathResult([TreeEntry(path, oh)], Unchanged))
      else if th == ah then Settled(PathResult([TreeEntry(path, oh)], OursOnly))
      else if oh == ah then Settled(PathResult([TreeEntry(path, th)], TheirsOnly))
      else Disputed(FileConflict(path, a, oh, th, false, "both sides modified"))
    case (None, Some(oh), None) => Settled(PathResult([TreeEntry(path, oh)], OursOnly))
    case (None, None, Some(th)) => Settled(PathResult([TreeEntry(path, th)], TheirsOnly))
    case (None, Some(oh), Some(th)) =>
      if oh == th then Settled(PathResult([TreeEntry(path, oh)], AutoMerged))
      else Disputed(FileConflict(path, None, oh, th, false, "both sides added with different content"))
    case (Some(ah), None, Some(th)) =>
      if th == ah then Settled(PathResult([], OursOnly))
      else Disputed(FileConflict(path, a, ah, th, true, "deleted on ours, modified on theirs"))
    case (Some(ah), Some(oh), None) =>
      if oh == ah then Settled(PathResult([], TheirsOnly))
      else Disputed(FileConflict(path, a, oh, ah, true, "modified on ours, deleted on theirs"))
    case (_, None, None) => Settled(PathResult([], Unchanged))
  }

  /** The cases follow the three-way rule. */
  lemma ClassifyMeaning(path: string, a: Option<Hash>, o: Option<Hash>, t: Option<Hash>)
    ensures var c, flat := Classify(path, a, o, t), Diff3(a, o, t);
      && (c.Settled? <==> flat.Resolved?)
      && (c.Settled? ==> c.result.entries == if flat.value.Some? then [TreeEntry(path, flat.value.value)] else [])
      && (c.Settled? ==> !c.result.report.Conflicted?)
      && (c.Disputed? ==> (
            && c.conflict.path == path && c.conflict.ancestor == a
            && c.conflict.ours == (if o.Some? then o.value else a.value)
            && c.conflict.theirs == (if t.Some? then t.value else a.value)
            && (c.conflict.deleted <==> o.None? || t.None?)))
  {
  }

  /** The document a strategy settles a conflict with, if it does. */
  ghost function Settlement(hx: Hashing, s: Objects, strategy: Strategy, c: FileConflict): Option<Hash> {
    match strategy
    case Ours => if c.deleted then None else Some(c.ours)
    case Theirs => if c.deleted then None else Some(c.theirs)
    case Manual => None
    case AutoMerge =>
      if c.deleted || c.ancestor.None? || !AllDocuments(hx, s, c.ancestor.value, c.ours, c.theirs) then None
      else MergedDocument(hx, s, c.ancestor.value, c.ours, c.theirs)
  }

  ghost function SidecarDocument(hx: Hashing, s: Objects, cx: Context, c: FileConflict): XmlDocument
    requires c.ours in s && s[c.ours].Document? && c.theirs in s && s[c.theirs].Document?
    requires c.ancestor.Some? ==> c.ancestor.value in s && s[c.ancestor.value].Document?
  {
    cx.describe(c.path, if c.ancestor.Some? then RootTree(hx, s, c.ancestor.value) else NO_ANCESTOR,
                RootTree(hx, s, c.ours), RootTree(hx, s, c.theirs))
  }

  ghost predicate ConflictWhole(hx: Hashing, s: Objects, c: FileConflict) {
    DocumentWhole(hx, s, c.ours) && DocumentWhole(hx, s, c.theirs)
      && (c.ancestor.Some? ==> DocumentWhole(hx, s, c.ancestor.value))
  }

  /** A settled conflict holds its document; any other keeps ours and files a sidecar. */
  ghost function ConflictResult(hx: Hashing, s: Objects, cx: Context, c: FileConflict): PathResult
    requires ConflictWhole(hx, s, c)
  {
    var settled := Settlement(hx, s, StrategyFor(cx.policy.default, cx.policy.overrides, c.path), c);
    if settled.Some? then PathResult([TreeEntry(c.path, settled.value)], AutoMerged)
    else
      var sidecar := SidecarPath(cx, c.path, c.ancestor, c.ours, c.theirs);
      PathResult([TreeEntry(c.path, c.ours),
        TreeEntry(sidecar, hx.record(DocumentOf(hx, SidecarDocument(hx, s, cx, c))))],
                 Conflicted(sidecar, c.description))
  }

  ghost predicate VersionsWhole(hx: Hashing, s: Objects, a: Option<Hash>, o: Option<Hash>, t: Option<Hash>) {
    && (a.Some? ==> DocumentWhole(hx, s, a.value))
    && (o.Some? ==> DocumentWhole(hx, s, o.value))
    && (t.Some? ==> DocumentWhole(hx, s, t.value))
  }

  /** What the path holds after the merge, by its three versions alone. */
  ghost function PathOutcome(hx: Hashing, s: Objects, cx: Context, path: string, a: Option<Hash>, o: Option<Hash>,
      t: Option<Hash>): PathResult
    requires VersionsWhole(hx, s, a, o, t)
  {
    var c := Classify(path, a, o, t);
    if c.Settled? then c.result
    else
      ClassifyMeaning(path, a, o, t);
      ConflictResult(hx, s, cx, c.conflict)
  }

  /** A path leaves the tree exactly when a side deleted it and the other left it alone or
      deleted it too. */
  lemma PathDisappears(hx: Hashing, s: Objects, cx: Context, path: string, a: Option<Hash>, o: Option<Hash>,
      t: Option<Hash>)
    requires VersionsWhole(hx, s, a, o, t)
    ensures PathOutcome(hx, s, cx, path, a, o, t).entries == [] <==>
      (o.None? && (t.None? || t == a)) || (t.None? && o == a)
    ensures var r := PathOutcome(hx, s, cx, path, a, o, t); r.entries != [] ==> r.entries[0].path == path
  {
    ClassifyMeaning(path, a, o, t);
  }

  // ----- One path in the store

  ghost predicate Failure(s: Objects, e: Error) {
    Missing(s, e) || e.InvalidObject?
  }

  /** Exports the root element of a document, as a divergence document quotes it. */
  method ExportRoot(hx: Hashing, s: Objects, h: Hash) returns (r: Result<Node, Error>)
    requires CollisionFree(hx) && Addressed(hx, s)
    ensures r.Ok? ==> hx.known(r.value)
    ensures r.Err? ==> Failure(s, r.error)
    ensures DocumentWhole(hx, s, h) ==> r == Ok(RootTree(hx, s, h))
  {
    if h !in s {
      return Err(NotFound(h));
    }
    if !s[h].Document? {
      return Err(InvalidObject("expected Document object"));
    }
    var i := 0;
    while i < |s[h].prologue|
    {
      if s[h].prologue[i] !in s {
        return Err(NotFound(s[h].prologue[i]));
      }
      i := i + 1;
    }
    r := BuildNode(hx, s, s[h].root);
    if r.Err? && !r.error.NotFound? {
      return Err(InvalidObject("cannot export versioning object as XML content"));
    }
  }

  /** Importing a document into any addressed store loses nothing and makes the document
      whole: root element and prologue can be rebuilt from their hashes. */
  lemma ImportedDocument(hx: Hashing, s: Objects, d: XmlDocument)
    requires CollisionFree(hx) && Addressed(hx, s) && Known(hx, d.root)
    requires forall x :: x in Prologue(d.before) ==> Known(hx, x)
    ensures var s', h := Filed(s, DocumentEntries(hx, d)), hx.record(DocumentOf(hx, d));
      && Addressed(hx, s') && Preserves(s, s') && DocumentWhole(hx, s', h)
      && RootTree(hx, s', h) == ContentOf(d.root)
      && forall x :: x in Prologue(d.before) ==> Whole(hx, s', ContentOf(x))
  {
    var before, document := Prologue(d.before), DocumentOf(hx, d);
    var last := (hx.record(document), document);
    var s1 := Filed(s, CollectedList(hx, before));
    var s2 := Filed(s1, Collected(hx, d.root));
    ImportListSafe(hx, s, before);
    ImportSafe(hx, s1, d.root);
    FiledConcat(s, CollectedList(hx, before), Collected(hx, d.root));
    FiledConcat(s, CollectedList(hx, before) + Collected(hx, d.root), [last]);
    FiledOne(s2, last);
    PrologueStored(hx, s1, s2, before);
    PutDocument(hx, s2, document, ContentOf(d.root));
    DocumentImported(hx, s, s1, s2, d);
  }

  lemma FiledOne(s: Objects, e: Entry)
    ensures Filed(s, [e]) == s[e.0 := e.1]
  {
    assert Front([e]) == [];
  }

  lemma PrologueStored(hx: Hashing, s1: Objects, s2: Objects, before: seq<Xml>)
    requires Preserves(s1, s2) && forall x :: x in before ==> Whole(hx, s1, ContentOf(x))
    ensures forall p :: p in NodeHashes(hx, ContentsOf(before)) ==> p in s2
    ensures forall x :: x in before ==> Whole(hx, s2, ContentOf(x))
  {
    forall i | 0 <= i < |before|
      ensures hx.node(ContentOf(before[i])) in s2
    {
      assert before[i] in before;
    }
    forall x | x in before
      ensures Whole(hx, s2, ContentOf(x))
    {
      WholeStays(hx, s1, s2, ContentOf(x));
    }
  }

  lemma DocumentImported(hx: Hashing, s: Objects, s1: Objects, s2: Objects, d: XmlDocument)
    requires CollisionFree(hx) && Known(hx, d.root) && Preserves(s, s1) && Preserves(s1, s2)
    requires forall x :: x in Prologue(d.before) ==> Whole(hx, s2, ContentOf(x))
    requires var s' := s2[hx.record(DocumentOf(hx, d)) := DocumentOf(hx, d)]; Preserves(s2, s')
    ensures var s', h := s2[hx.record(DocumentOf(hx, d)) := DocumentOf(hx, d)], hx.record(DocumentOf(hx, d));
      && Preserves(s, s') && RootTree(hx, s', h) == ContentOf(d.root)
      && forall x :: x in Prologue(d.before) ==> Whole(hx, s', ContentOf(x))
  {
    var s' := s2[hx.record(DocumentOf(hx, d)) := DocumentOf(hx, d)];
    PreservesTransitive(s, s1, s2);
    PreservesTransitive(s, s2, s');
    assert Names(hx, hx.node(ContentOf(d.root)), ContentOf(d.root));
    NamesOnce(hx, hx.node(ContentOf(d.root)), ContentOf(d.root), NamedBy(hx, hx.node(ContentOf(d.root))));
    forall x | x in Prologue(d.before)
      ensures Whole(hx, s', ContentOf(x))
    {
      WholeStays(hx, s2, s', ContentOf(x));
    }
  }

  /** Writes the divergence document of a conflict. */
  method GenerateDivergence(store: ObjectStore, hx: Hashing, cx: Context, c: FileConflict)
    returns (r: Result<Hash, Error>)
    requires CollisionFree(hx) && Describable(hx, cx) && Addressed(hx, store.objects)
    modifies store
    ensures Safe(hx, old(store.objects), store.objects)
    ensures r.Err? ==> Failure(old(store.objects), r.error)
    ensures ConflictWhole(hx, old(store.objects), c) ==>
              && r == Ok(hx.record(DocumentOf(hx, SidecarDocument(hx, old(store.objects), cx, c))))
              && DocumentWhole(hx, store.objects, r.value)
  {
    var a := NO_ANCESTOR;
    if c.ancestor.Some? {
      var ancestor := ExportRoot(hx, store.objects, c.ancestor.value);
      if ancestor.Err? {
        return Err(ancestor.error);
      }
      a := ancestor.value;
    }
    var ours := ExportRoot(hx, store.objects, c.ours);
    if ours.Err? {
      return Err(ours.error);
    }
    var theirs := ExportRoot(hx, store.objects, c.theirs);
    if theirs.Err? {
      return Err(theirs.error);
    }
    var document := cx.describe(c.path, a, ours.value, theirs.value);
    ImportedDocument(hx, store.objects, document);
    var h := ImportXml(store, hx, document);
    return Ok(h);
  }

  /** Asks the strategy for a document to settle the conflict with. */
  method Resolve(store: ObjectStore, hx: Hashing, strategy: Strategy, c: FileConflict)
    returns (r: Result<Option<Hash>, Error>)
    requires CollisionFree(hx) && MergeClosed(hx) && Addressed(hx, store.objects)
    modifies store
    ensures Safe(hx, old(store.objects), store.objects)
    ensures r.Err? ==> Missing(old(store.objects), r.error)
    ensures ConflictWhole(hx, old(store.objects), c) ==>
              && r == Ok(Settlement(hx, old(store.objects), strategy, c))
              && (r.value.Some? ==> DocumentWhole(hx, store.objects, r.value.value))
  {
    match strategy {
      case Ours =>
        r := Ok(if c.deleted then None else Some(c.ours));
      case Theirs =>
        r := Ok(if c.deleted then None else Some(c.theirs));
      case Manual =>
        r := Ok(None);
      case AutoMerge =>
        if c.deleted || c.ancestor.None? {
          return Ok(None);
        }
        r := MergeDocuments(store, hx, c.ancestor.value, c.ours, c.theirs);
    }
  }

  ghost predicate EntriesWhole(hx: Hashing, s: Objects, entries: seq<TreeEntry>) {
    forall i :: 0 <= i < |entries| ==> DocumentWhole(hx, s, entries[i].document)
  }

  method ResolveConflict(store: ObjectStore, hx: Hashing, cx: Context, c: FileConflict)
    returns (r: Result<PathResult, Error>)
    requires CollisionFree(hx) && MergeClosed(hx) && Describable(hx, cx) && Addressed(hx, store.objects)
    modifies store
    ensures Safe(hx, old(store.objects), store.objects)
    ensures r.Err? ==> Failure(old(store.objects), r.error)
    ensures ConflictWhole(hx, old(store.objects), c) ==>
              r == Ok(ConflictResult(hx, old(store.objects), cx, c)) && EntriesWhole(hx, store.objects, r.value.entries)
  {
    ghost var s0 := store.objects;
    var strategy := StrategyFor(cx.policy.default, cx.policy.overrides, c.path);
    var settled := Resolve(store, hx, strategy, c);
    if settled.Err? {
      return Err(settled.error);
    }
    if settled.value.Some? {
      return Ok(PathResult([TreeEntry(c.path, settled.value.value)], AutoMerged));
    }
    r := KeepOurs(store, hx, cx, c, s0);
  }

  lemma OursAndSidecar(hx: Hashing, s0: Objects, s: Objects, cx: Context, c: FileConflict, divergence: Hash)
    requires Preserves(s0, s) && ConflictWhole(hx, s0, c) && DocumentWhole(hx, s, divergence)
    requires divergence == hx.record(DocumentOf(hx, SidecarDocument(hx, s0, cx, c)))
    ensures var sidecar := SidecarPath(cx, c.path, c.ancestor, c.ours, c.theirs);
      var entries := [TreeEntry(c.path, c.ours), TreeEntry(sidecar, divergence)];
      && EntriesWhole(hx, s, entries)
      && (Settlement(hx, s0, StrategyFor(cx.policy.default, cx.policy.overrides, c.path), c).None? ==>
            ConflictResult(hx, s0, cx, c) == PathResult(entries, Conflicted(sidecar, c.description)))
  {
    DocumentStays(hx, s0, s, c.ours);
  }

  /** Keeps ours and files the conflict as a sidecar. */
  method KeepOurs(store: ObjectStore, hx: Hashing, cx: Context, c: FileConflict, ghost s0: Objects)
    returns (r: Result<PathResult, Error>)
    requires CollisionFree(hx) && Describable(hx, cx) && Safe(hx, s0, store.objects)
    modifies store
    ensures Safe(hx, s0, store.objects)
    ensures r.Err? ==> Failure(s0, r.error)
    ensures
      && ConflictWhole(hx, s0, c)
      && Settlement(hx, s0, StrategyFor(cx.policy.default, cx.policy.overrides, c.path), c).None? ==>
              r == Ok(ConflictResult(hx, s0, cx, c)) && EntriesWhole(hx, store.objects, r.value.entries)
  {
    ghost var s1 := store.objects;
    var divergence := GenerateDivergence(store, hx, cx, c);
    SidecarKept(hx, cx, c, s0, s1, store.objects, divergence);
    if divergence.Err? {
      return Err(divergence.error);
    }
    var sidecar := SidecarPath(cx, c.path, c.ancestor, c.ours, c.theirs);
    return Ok(PathResult([TreeEntry(c.path, c.ours), TreeEntry(sidecar, divergence.value)],
      Conflicted(sidecar, c.description)));
  }

  /** The divergence document of a conflict and what is kept, seen from the store the merge
      began with. */
  lemma SidecarKept(hx: Hashing, cx: Context, c: FileConflict, s0: Objects, s1: Objects, s2: Objects,
      divergence: Result<Hash, Error>)
    requires Preserves(s0, s1) && Preserves(s1, s2)
    requires divergence.Err? ==> Failure(s1, divergence.error)
    requires ConflictWhole(hx, s1, c) ==>
      && divergence == Ok(hx.record(DocumentOf(hx, SidecarDocument(hx, s1, cx, c))))
      && DocumentWhole(hx, s2, divergence.value)
    ensures Preserves(s0, s2) && (divergence.Err? ==> Failure(s0, divergence.error))
    ensures ConflictWhole(hx, s0, c) ==> divergence.Ok?
    ensures
      && ConflictWhole(hx, s0, c)
      && Settlement(hx, s0, StrategyFor(cx.policy.default, cx.policy.overrides, c.path), c).None? ==>
          var sidecar := SidecarPath(cx, c.path, c.ancestor, c.ours, c.theirs);
          var entries := [TreeEntry(c.path, c.ours), TreeEntry(sidecar, divergence.value)];
          && ConflictResult(hx, s0, cx, c) == PathResult(entries, Conflicted(sidecar, c.description))
          && EntriesWhole(hx, s2, entries)
  {
    PreservesTransitive(s0, s1, s2);
    if ConflictWhole(hx, s0, c) {
      ConflictStays(hx, s0, s1, cx, c);
      OursAndSidecar(hx, s0, s2, cx, c, divergence.value);
    }
  }

  lemma ConflictStays(hx: Hashing, s: Objects, s': Objects, cx: Context, c: FileConflict)
    requires Preserves(s, s') && ConflictWhole(hx, s, c)
    ensures ConflictWhole(hx, s', c)
    ensures SidecarDocument(hx, s', cx, c) == SidecarDocument(hx, s, cx, c)
    ensures ConflictResult(hx, s', cx, c) == ConflictResult(hx, s, cx, c)
  {
    DocumentStays(hx, s, s', c.ours);
    DocumentStays(hx, s, s', c.theirs);
    if c.ancestor.Some? {
      DocumentStays(hx, s, s', c.ancestor.value);
    }
  }

  /** What one path contributes depends on its versions in the store the merge began with,
      not on what the merge has written since. */
  method MergePath(store: ObjectStore, hx: Hashing, cx: Context, path: string, a: Option<Hash>, o: Option<Hash>,
      t: Option<Hash>, ghost s0: Objects)
    returns (r: Result<PathResult, Error>)
    requires CollisionFree(hx) && MergeClosed(hx) && Describable(hx, cx) && Safe(hx, s0, store.objects)
    modifies store
    ensures Safe(hx, s0, store.objects) && Preserves(old(store.objects), store.objects)
    ensures r.Err? ==> Failure(s0, r.error)
    ensures VersionsWhole(hx, s0, a, o, t) ==>
              r == Ok(PathOutcome(hx, s0, cx, path, a, o, t)) && EntriesWhole(hx, store.objects, r.value.entries)
  {
    ghost var s1 := store.objects;
    var c := Classify(path, a, o, t);
    if c.Settled? {
      SettledPath(hx, s0, s1, cx, path, a, o, t);
      return Ok(c.result);
    }
    r := ResolveConflict(store, hx, cx, c.conflict);
    DisputedPath(hx, s0, s1, store.objects, cx, path, a, o, t, r);
  }

  lemma SettledPath(hx: Hashing, s0: Objects, s: Objects, cx: Context, path: string, a: Option<Hash>, o: Option<Hash>,
      t: Option<Hash>)
    requires Preserves(s0, s) && Classify(path, a, o, t).Settled?
    ensures VersionsWhole(hx, s0, a, o, t) ==>
      && Classify(path, a, o, t).result == PathOutcome(hx, s0, cx, path, a, o, t)
      && EntriesWhole(hx, s, Classify(path, a, o, t).result.entries)
  {
    ClassifyMeaning(path, a, o, t);
    if VersionsWhole(hx, s0, a, o, t) {
      VersionsStay(hx, s0, s, a, o, t);
    }
  }

  /** The result of a disputed path, seen from the store the merge began with. */
  lemma DisputedPath(hx: Hashing, s0: Objects, s1: Objects, s2: Objects, cx: Context, path: string, a: Option<Hash>,
      o: Option<Hash>, t: Option<Hash>, r: Result<PathResult, Error>)
    requires Preserves(s0, s1) && Preserves(s1, s2) && Classify(path, a, o, t).Disputed?
    requires r.Err? ==> Failure(s1, r.error)
    requires var c := Classify(path, a, o, t).conflict;
      ConflictWhole(hx, s1, c) ==> r == Ok(ConflictResult(hx, s1, cx, c)) && EntriesWhole(hx, s2, r.value.entries)
    ensures Preserves(s0, s2) && (r.Err? ==> Failure(s0, r.error))
    ensures VersionsWhole(hx, s0, a, o, t) ==>
      r == Ok(PathOutcome(hx, s0, cx, path, a, o, t)) && EntriesWhole(hx, s2, r.value.entries)
  {
    ClassifyMeaning(path, a, o, t);
    PreservesTransitive(s0, s1, s2);
    if VersionsWhole(hx, s0, a, o, t) {
      ConflictStays(hx, s0, s1, cx, Classify(path, a, o, t).conflict);
    }
  }

  lemma VersionsStay(hx: Hashing, s: Objects, s': Objects, a: Option<Hash>, o: Option<Hash>, t: Option<Hash>)
    requires Preserves(s, s') && VersionsWhole(hx, s, a, o, t)
    ensures VersionsWhole(hx, s', a, o, t)
  {
    if a.Some? {
      DocumentStays(hx, s, s', a.value);
    }
    if o.Some? {
      DocumentStays(hx, s, s', o.value);
    }
    if t.Some? {
      DocumentStays(hx, s, s', t.value);
    }
  }
}
