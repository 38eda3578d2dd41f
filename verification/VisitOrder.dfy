/** What a merge of trees makes of the results of the paths, in whatever order it visits
    them. */
module VisitOrder {
  import opened Wrappers
  import opened Objects
  import opened Sequences
  import opened Trees
  import opened TreeMerge

  /** What each path contributes. */
  type Outcomes = map<string, PathResult>

  ghost function EntriesOf(spec: Outcomes, done: set<string>): set<TreeEntry> {
    set p, e | p in done && p in spec && e in spec[p].entries :: e
  }

  /** The lists a merge fills. */
  datatype Progress = Progress(
    entries: seq<TreeEntry>,
    autoMerged: seq<string>,
    conflicts: seq<(string, string)>,
    oursOnly: seq<string>,
    theirsOnly: seq<string>)

  const NOTHING_DONE := Progress([], [], [], [], [])

  function Add(p: Progress, path: string, r: PathResult): (q: Progress)
    ensures q.entries == p.entries + r.entries
  {
    var p' := p.(entries := p.entries + r.entries);
    match r.report
    case Unchanged => p'
    case OursOnly => p'.(oursOnly := p.oursOnly + [path])
    case TheirsOnly => p'.(theirsOnly := p.theirsOnly + [path])
    case AutoMerged => p'.(autoMerged := p.autoMerged + [path])
    case Conflicted(sidecar, _) => p'.(conflicts := p.conflicts + [(path, sidecar)])
  }

  function ResultAt(spec: Outcomes, path: string): PathResult {
    if path in spec then spec[path] else PathResult([], Unchanged)
  }

  /** The lists after visiting the paths in this order. */
  function Visited(spec: Outcomes, order: seq<string>): Progress {
    if order == [] then NOTHING_DONE
    else Add(Visited(spec, Front(order)), Last(order), ResultAt(spec, Last(order)))
  }

  /** The order visits every path once. */
  ghost predicate Visits(spec: Outcomes, order: seq<string>) {
    NoRepeats(order) && forall p :: p in order <==> p in spec
  }

  // ----- What the lists hold

  /** The lists hold what the paths done contribute, each once. */
  ghost predicate Tally(p: Progress, spec: Outcomes, done: set<string>)
    requires done <= spec.Keys
  {
    && (forall e :: e in p.entries <==> e in EntriesOf(spec, done))
    && (forall q :: q in p.autoMerged <==> q in done && spec[q].report.AutoMerged?)
    && (forall q :: q in p.oursOnly <==> q in done && spec[q].report.OursOnly?)
    && (forall q :: q in p.theirsOnly <==> q in done && spec[q].report.TheirsOnly?)
    && (forall c :: c in p.conflicts <==> ReportedConflict(spec, done, c))
    && NoRepeats(p.autoMerged) && NoRepeats(p.oursOnly) && NoRepeats(p.theirsOnly) && NoRepeats(p.conflicts)
  }

  ghost predicate ReportedConflict(spec: Outcomes, done: set<string>, c: (string, string))
    requires done <= spec.Keys
  {
    c.0 in done && spec[c.0].report.Conflicted? && spec[c.0].report.sidecar == c.1
  }

  lemma EntriesNext(spec: Outcomes, done: set<string>, path: string)
    requires path in spec
    ensures forall e :: e in EntriesOf(spec, done + {path}) <==> e in EntriesOf(spec, done) || e in spec[path].entries
  {
  }

  lemma TallyNext(p: Progress, spec: Outcomes, done: set<string>, path: string)
    requires done <= spec.Keys && Tally(p, spec, done) && path in spec && path !in done
    ensures Tally(Add(p, path, spec[path]), spec, done + {path})
  {
    EntriesNext(spec, done, path);
    var report := spec[path].report;
    if report.Conflicted? {
      assert !ReportedConflict(spec, done, (path, report.sidecar));
    }
  }

  lemma {:induction false} VisitedSome(spec: Outcomes, order: seq<string>, done: set<string>)
    requires NoRepeats(order) && (forall p :: p in order <==> p in done) && done <= spec.Keys
    ensures Tally(Visited(spec, order), spec, done)
  {
    if order == [] {
      assert done == {};
    } else {
      var path := Last(order);
      assert path in order;
      assert forall p :: p in Front(order) <==> p in order && p != path;
      VisitedSome(spec, Front(order), done - {path});
      TallyNext(Visited(spec, Front(order)), spec, done - {path}, path);
      assert done - {path} + {path} == done;
    }
  }

  /** After all visits the lists hold what all paths contribute. */
  lemma VisitedAll(spec: Outcomes, order: seq<string>)
    requires Visits(spec, order)
    ensures Tally(Visited(spec, order), spec, spec.Keys)
  {
    VisitedSome(spec, order, spec.Keys);
  }

  // ----- The same entries in any order

  lemma {:induction false} VisitedNext(spec: Outcomes, order: seq<string>, path: string)
    ensures Visited(spec, order + [path]).entries == Visited(spec, order).entries + ResultAt(spec, path).entries
  {
    var longer := order + [path];
    assert longer != [] && Front(longer) == order && Last(longer) == path;
    assert Visited(spec, longer) == Add(Visited(spec, order), path, ResultAt(spec, path));
  }

  lemma {:induction false} VisitEarlier(spec: Outcomes, order: seq<string>, i: nat)
    requires i < |order|
    ensures multiset(Visited(spec, order).entries) ==
      multiset(Visited(spec, order[..i] + order[i + 1..]).entries) + multiset(ResultAt(spec, order[i]).entries)
  {
    var front, path := Front(order), Last(order);
    VisitedNext(spec, front, path);
    if i == |front| {
      assert order[..i] + order[i + 1..] == front;
    } else {
      var rest := front[..i] + front[i + 1..];
      assert order[..i] + order[i + 1..] == rest + [path];
      VisitedNext(spec, rest, path);
      VisitEarlier(spec, front, i);
    }
  }

  /** Every order collects the same copies of the same entries. */
  lemma {:induction false} SameEntries(spec: Outcomes, xs: seq<string>, ys: seq<string>)
    requires NoRepeats(xs) && NoRepeats(ys) && forall p :: p in xs <==> p in ys
    ensures multiset(Visited(spec, xs).entries) == multiset(Visited(spec, ys).entries)
    decreases |xs|
  {
    NoRepeatsSize(xs);
    NoRepeatsSize(ys);
    assert (set p | p in xs) == set p | p in ys;
    if xs != [] {
      var i := WithoutLast(xs, ys);
      SameEntries(spec, Front(xs), ys[..i] + ys[i + 1..]);
      VisitEarlier(spec, ys, i);
      VisitedNext(spec, Front(xs), Last(xs));
    }
  }

  lemma WithoutLast<T>(xs: seq<T>, ys: seq<T>) returns (i: nat)
    requires NoRepeats(xs) && NoRepeats(ys) && (forall x :: x in xs <==> x in ys) && xs != []
    ensures i < |ys| && ys[i] == Last(xs)
    ensures var rest := ys[..i] + ys[i + 1..]; NoRepeats(rest) && forall x :: x in Front(xs) <==> x in rest
  {
    assert Last(xs) in xs;
    i :| 0 <= i < |ys| && ys[i] == Last(xs);
    WithoutOne(ys, i);
    forall x
      ensures x in Front(xs) <==> x in xs && x != Last(xs)
    {
      if x in Front(xs) {
        var j :| 0 <= j < |Front(xs)| && Front(xs)[j] == x;
        assert xs[j] == x;
      }
    }
  }

  lemma WithoutOne<T>(xs: seq<T>, i: nat)
    requires NoRepeats(xs) && i < |xs|
    ensures var rest := xs[..i] + xs[i + 1..]; NoRepeats(rest) && forall x :: x in rest <==> x in xs && x != xs[i]
  {
    var rest := xs[..i] + xs[i + 1..];
    forall x
      ensures x in rest <==> x in xs && x != xs[i]
    {
      if x in xs && x != xs[i] {
        var j :| 0 <= j < |xs| && xs[j] == x;
        assert rest[if j < i then j else j - 1] == x;
      }
    }
  }

  /** Any paths come in some order, and two of them may come last. */
  lemma OrderEndingIn(paths: set<string>, p: string, q: string) returns (rest: seq<string>)
    requires p in paths && q in paths && p != q
    ensures NoRepeats(rest) && forall x :: x in rest <==> x in paths && x != p && x != q
  {
    rest := SomeOrder(paths - {p, q});
  }

  lemma {:induction false} SomeOrder(paths: set<string>) returns (order: seq<string>)
    ensures NoRepeats(order) && forall p :: p in order <==> p in paths
  {
    if paths == {} {
      order := [];
    } else {
      var p :| p in paths;
      var rest := SomeOrder(paths - {p});
      order := rest + [p];
    }
  }

  // ----- Paths that coincide

  /** Each path contributes itself and, on a conflict, a sidecar of its own. */
  ghost predicate Shaped(spec: Outcomes) {
    && (forall p :: p in spec ==> ShapedAt(p, spec[p]))
    && (forall p, q ::
          Conflicting(spec, p) && Conflicting(spec, q) && spec[p].report.sidecar == spec[q].report.sidecar ==> p == q)
  }

  ghost predicate ShapedAt(p: string, r: PathResult) {
    if r.report.Conflicted? then
      && |r.entries| == 2 && r.entries[0].path == p && r.entries[1].path == r.report.sidecar
      && Reserved(r.report.sidecar) && r.report.sidecar != p
    else
      |r.entries| <= 1 && (r.entries != [] ==> r.entries[0].path == p)
  }

  ghost predicate Conflicting(spec: Outcomes, p: string) {
    p in spec && spec[p].report.Conflicted?
  }

  /** The conflict at p puts its sidecar where the path q, which survives, is already. */
  ghost predicate Taken(spec: Outcomes, p: string, q: string) {
    Conflicting(spec, p) && spec[p].report.sidecar == q && q in spec && spec[q].entries != []
  }

  /** Some sidecar's path is taken. */
  ghost predicate SomeTaken(spec: Outcomes) {
    exists p, q :: Taken(spec, p, q)
  }

  /** Some sidecar's path is taken by another document. */
  ghost predicate Contested(spec: Outcomes)
    requires Shaped(spec)
  {
    exists p, q :: Taken(spec, p, q) && spec[q].entries[0] != spec[p].entries[1]
  }

  /** Entries of two paths coincide only where a sidecar's path is taken. */
  lemma CoincidenceTaken(spec: Outcomes, p: string, q: string, e: TreeEntry, f: TreeEntry)
    requires Shaped(spec) && p in spec && q in spec && e in spec[p].entries && f in spec[q].entries && e.path == f.path
    ensures
      || (p == q && e == f)
      || (Taken(spec, p, q) && e == spec[p].entries[1] && f == spec[q].entries[0])
      || (Taken(spec, q, p) && f == spec[q].entries[1] && e == spec[p].entries[0])
  {
    assert ShapedAt(p, spec[p]) && ShapedAt(q, spec[q]);
    assert e.path == p || Conflicting(spec, p);
    assert f.path == q || Conflicting(spec, q);
  }

  // ----- Distinct paths

  lemma DistinctNext(spec: Outcomes, order: seq<string>, path: string)
    requires Shaped(spec) && !SomeTaken(spec)
    requires NoRepeats(order) && (forall p :: p in order ==> p in spec) && path in spec && path !in order
    requires DistinctPaths(Visited(spec, order).entries)
    ensures DistinctPaths(Add(Visited(spec, order), path, ResultAt(spec, path)).entries)
  {
    var xs, ys := Visited(spec, order).entries, ResultAt(spec, path).entries;
    assert ShapedAt(path, spec[path]);
    forall e, x | e in xs && x in ys
      ensures e.path != x.path
    {
      var q := EntryFrom(spec, order, e);
      if e.path == x.path {
        CoincidenceTaken(spec, q, path, e, x);
        assert false;
      }
    }
    DistinctConcat(xs, ys);
  }

  lemma EntryFrom(spec: Outcomes, order: seq<string>, e: TreeEntry) returns (p: string)
    requires NoRepeats(order) && (forall q :: q in order ==> q in spec) && e in Visited(spec, order).entries
    ensures p in order && e in spec[p].entries
  {
    var done := set q | q in order;
    VisitedSome(spec, order, done);
    p :| p in done && e in spec[p].entries;
  }

  lemma DistinctConcat(xs: seq<TreeEntry>, ys: seq<TreeEntry>)
    requires DistinctPaths(xs) && |ys| <= 2 && (|ys| == 2 ==> ys[0].path != ys[1].path)
    requires forall x, y :: x in xs && y in ys ==> x.path != y.path
    ensures DistinctPaths(xs + ys)
  {
    forall i, j | 0 <= i < j < |xs + ys|
      ensures (xs + ys)[i].path != (xs + ys)[j].path
    {
      if i < |xs| <= j {
        assert xs[i] in xs && ys[j - |xs|] in ys;
      }
    }
  }

  lemma {:induction false} DistinctUntaken(spec: Outcomes, order: seq<string>)
    requires Shaped(spec) && !SomeTaken(spec) && NoRepeats(order) && forall p :: p in order ==> p in spec
    ensures DistinctPaths(Visited(spec, order).entries)
  {
    if order != [] {
      DistinctUntaken(spec, Front(order));
      assert order == Front(order) + [Last(order)];
      DistinctNext(spec, Front(order), Last(order));
    }
  }

  lemma VisitedTwoMore(spec: Outcomes, rest: seq<string>, p: string, q: string)
    requires p in spec && q in spec
    ensures Visited(spec, rest + [p, q]).entries == Visited(spec, rest).entries + spec[p].entries + spec[q].entries
  {
    assert rest + [p, q] == rest + [p] + [q];
    VisitedNext(spec, rest, p);
    VisitedNext(spec, rest + [p], q);
  }

  lemma EndingInTwo(spec: Outcomes, rest: seq<string>, p: string, q: string)
    requires p in spec && q in spec && p != q
    requires NoRepeats(rest) && forall x :: x in rest <==> x in spec && x != p && x != q
    ensures Visits(spec, rest + [p, q])
  {
    NoRepeatsConcat(rest, [p, q]);
  }

  /** The merged paths are distinct exactly when no sidecar's path is taken. */
  lemma DistinctExactly(spec: Outcomes, order: seq<string>)
    requires Shaped(spec) && Visits(spec, order)
    ensures DistinctPaths(Visited(spec, order).entries) <==> !SomeTaken(spec)
  {
    if SomeTaken(spec) {
      var p, q :| Taken(spec, p, q);
      assert ShapedAt(p, spec[p]) && ShapedAt(q, spec[q]);
      var rest := OrderEndingIn(spec.Keys, p, q);
      EndingInTwo(spec, rest, p, q);
      VisitedTwoMore(spec, rest, p, q);
      SameEntries(spec, order, rest + [p, q]);
      TwiceOver(spec, Visited(spec, rest).entries, p, q);
      Coinciding(Visited(spec, order).entries, spec[p].entries[1], spec[q].entries[0]);
    } else {
      DistinctUntaken(spec, order);
    }
  }

  lemma TwiceOver(spec: Outcomes, before: seq<TreeEntry>, p: string, q: string)
    requires Shaped(spec) && Taken(spec, p, q)
    ensures var all := multiset(before + spec[p].entries + spec[q].entries);
      var e, f := spec[p].entries[1], spec[q].entries[0];
      e.path == f.path && all[e] >= 1 && all[f] >= 1 && (e == f ==> all[e] >= 2)
  {
    var e, f := spec[p].entries[1], spec[q].entries[0];
    assert ShapedAt(p, spec[p]) && ShapedAt(q, spec[q]);
    assert e in spec[p].entries && f in spec[q].entries;
    assert multiset(spec[p].entries)[e] >= 1 && multiset(spec[q].entries)[f] >= 1;
  }

  // ----- One tree for every order

  /** The entries of the tree that a merge in this order makes. */
  function MergedEntries(spec: Outcomes, order: seq<string>): seq<TreeEntry> {
    SortEntries(Visited(spec, order).entries)
  }

  lemma UncontestedOnce(spec: Outcomes, order: seq<string>)
    requires Shaped(spec) && !Contested(spec) && Visits(spec, order)
    ensures OnePerPath(Visited(spec, order).entries)
  {
    forall e, f | e in Visited(spec, order).entries && f in Visited(spec, order).entries && e.path == f.path
      ensures e == f
    {
      var p := EntryFrom(spec, order, e);
      var q := EntryFrom(spec, order, f);
      CoincidenceTaken(spec, p, q, e, f);
    }
  }

  lemma UncontestedOneTree(spec: Outcomes, xs: seq<string>, ys: seq<string>)
    requires Shaped(spec) && !Contested(spec) && Visits(spec, xs) && Visits(spec, ys)
    ensures MergedEntries(spec, xs) == MergedEntries(spec, ys)
  {
    SameEntries(spec, xs, ys);
    UncontestedOnce(spec, xs);
    SortMeaning(Visited(spec, xs).entries);
    SortMeaning(Visited(spec, ys).entries);
    SortCopies(Visited(spec, xs).entries);
    SortCopies(Visited(spec, ys).entries);
    SortedOnce(MergedEntries(spec, xs), MergedEntries(spec, ys));
  }

  /** Of a conflict and the path where its sidecar goes, the one visited first decides what
      the tree returns there. */
  lemma FirstVisitedWins(spec: Outcomes, rest: seq<string>, p: string, q: string)
    requires Shaped(spec) && Taken(spec, p, q) && Visits(spec, rest + [p, q])
    ensures Get(MergedEntries(spec, rest + [p, q]), q) == Some(spec[p].entries[1])
    ensures Visits(spec, rest + [q, p]) && Get(MergedEntries(spec, rest + [q, p]), q) == Some(spec[q].entries[0])
  {
    var order := rest + [p, q];
    assert ShapedAt(p, spec[p]) && ShapedAt(q, spec[q]);
    assert order[|rest|] == p && order[|rest| + 1] == q && p !in rest && q !in rest by {
      assert forall i :: 0 <= i < |rest| ==> order[i] == rest[i];
    }
    forall x
      ensures x in rest <==> x in spec && x != p && x != q
    {
      assert x in order <==> x in rest || x == p || x == q;
    }
    assert NoRepeats(rest) by {
      assert forall i :: 0 <= i < |rest| ==> order[i] == rest[i];
    }
    EndingInTwo(spec, rest, q, p);
    NothingBefore(spec, rest, p, q);
    VisitedTwoMore(spec, rest, p, q);
    VisitedTwoMore(spec, rest, q, p);
    FirstOfThree(Visited(spec, rest).entries, spec[p].entries, spec[q].entries, q);
    FirstOfThree(Visited(spec, rest).entries, spec[q].entries, spec[p].entries, q);
  }

  lemma FirstOfThree(xs: seq<TreeEntry>, ys: seq<TreeEntry>, zs: seq<TreeEntry>, path: string)
    requires Get(xs, path).None? && Get(ys, path).Some?
    ensures Get(SortEntries(xs + ys + zs), path) == Get(ys, path)
  {
    GetOfTree(xs + ys + zs, path);
    GetConcat(xs + ys, zs, path);
    GetConcat(xs, ys, path);
  }

  lemma NothingBefore(spec: Outcomes, rest: seq<string>, p: string, q: string)
    requires Shaped(spec) && Taken(spec, p, q)
    requires NoRepeats(rest) && forall x :: x in rest <==> x in spec && x != p && x != q
    ensures Get(Visited(spec, rest).entries, q).None?
    ensures Get(spec[p].entries, q) == Some(spec[p].entries[1]) && Get(spec[q].entries, q) == Some(spec[q].entries[0])
  {
    var before := Visited(spec, rest).entries;
    assert ShapedAt(p, spec[p]) && ShapedAt(q, spec[q]);
    GetFinds(before, q);
    if Get(before, q).Some? {
      var e := Get(before, q).value;
      var r := EntryFrom(spec, rest, e);
      CoincidenceTaken(spec, r, q, e, spec[q].entries[0]);
      assert false;
    }
    assert spec[p].entries == [spec[p].entries[0]] + [spec[p].entries[1]];
  }

  lemma ContestedTwoTrees(spec: Outcomes) returns (xs: seq<string>, ys: seq<string>)
    requires Shaped(spec) && Contested(spec)
    ensures Visits(spec, xs) && Visits(spec, ys) && MergedEntries(spec, xs) != MergedEntries(spec, ys)
  {
    var p, q :| Taken(spec, p, q) && spec[q].entries[0] != spec[p].entries[1];
    assert ShapedAt(p, spec[p]);
    var rest := OrderEndingIn(spec.Keys, p, q);
    EndingInTwo(spec, rest, p, q);
    FirstVisitedWins(spec, rest, p, q);
    xs, ys := rest + [p, q], rest + [q, p];
  }

  /** The merged tree does not depend on the order of visits exactly when no sidecar's path
      is taken by another document. */
  lemma AnyOrder(spec: Outcomes)
    requires Shaped(spec)
    ensures (forall xs, ys :: Visits(spec, xs) && Visits(spec, ys) ==>
      MergedEntries(spec, xs) == MergedEntries(spec, ys))
      <==> !Contested(spec)
  {
    if Contested(spec) {
      var xs, ys := ContestedTwoTrees(spec);
    } else {
      forall xs, ys | Visits(spec, xs) && Visits(spec, ys)
        ensures MergedEntries(spec, xs) == MergedEntries(spec, ys)
      {
        UncontestedOneTree(spec, xs, ys);
      }
    }
  }

  /** With only a conflict and the path its sidecar takes, both orders show. */
  lemma TwoOrders(spec: Outcomes, p: string, q: string)
    requires Shaped(spec) && spec.Keys == {p, q} && Taken(spec, p, q) && spec[q].entries[0] != spec[p].entries[1]
    ensures Visits(spec, [p, q]) && Visits(spec, [q, p])
    ensures Get(MergedEntries(spec, [p, q]), q) != Get(MergedEntries(spec, [q, p]), q)
    ensures !DistinctPaths(MergedEntries(spec, [p, q]))
  {
    assert ShapedAt(p, spec[p]);
    assert [] + [p, q] == [p, q] && [] + [q, p] == [q, p];
    EndingInTwo(spec, [], p, q);
    FirstVisitedWins(spec, [], p, q);
    DistinctExactly(spec, [p, q]);
    SortedDistinct(Visited(spec, [p, q]).entries);
  }

  // ----- Bookkeeping of divergences

  /** The reserved entries of a merged tree are the sidecars of its conflicts, one for each,
      and the reserved paths that survive. */
  lemma SidecarsAreConflicts(spec: Outcomes, p: Progress, path: string)
    requires Shaped(spec) && Tally(p, spec, spec.Keys)
    ensures (exists e :: e in p.entries && e.path == path && Reserved(path)) <==>
      || (exists c :: c in p.conflicts && c.1 == path)
      || ReservedLeft(spec, path)
    ensures forall c, d :: c in p.conflicts && d in p.conflicts && c.1 == d.1 ==> c == d
  {
    if e :| e in p.entries && e.path == path && Reserved(path) {
      var q :| q in spec && e in spec[q].entries;
      assert ShapedAt(q, spec[q]);
      if q != path {
        assert ReportedConflict(spec, spec.Keys, (q, path));
      }
    }
    if c :| c in p.conflicts && c.1 == path {
      SidecarListed(spec, p, c);
    }
    if ReservedLeft(spec, path) {
      assert ShapedAt(path, spec[path]);
      EntryListed(spec, p, path, 0);
    }
    forall c, d | c in p.conflicts && d in p.conflicts && c.1 == d.1
      ensures c == d
    {
      assert ReportedConflict(spec, spec.Keys, c) && ReportedConflict(spec, spec.Keys, d);
      assert Conflicting(spec, c.0) && Conflicting(spec, d.0);
    }
  }

  lemma SidecarListed(spec: Outcomes, p: Progress, c: (string, string))
    requires Shaped(spec) && Tally(p, spec, spec.Keys) && c in p.conflicts
    ensures Reserved(c.1) && exists e :: e in p.entries && e.path == c.1
  {
    assert ReportedConflict(spec, spec.Keys, c);
    assert ShapedAt(c.0, spec[c.0]);
    EntryListed(spec, p, c.0, 1);
  }

  lemma EntryListed(spec: Outcomes, p: Progress, q: string, k: nat)
    requires Tally(p, spec, spec.Keys) && q in spec && k < |spec[q].entries|
    ensures spec[q].entries[k] in p.entries
  {
    assert q in spec.Keys && spec[q].entries[k] in spec[q].entries;
  }

  /** A merged tree has divergences exactly when the merge reports conflicts, or one of the
      trees already held a reserved path that survives. */
  lemma DivergencesExactly(spec: Outcomes, order: seq<string>)
    requires Shaped(spec) && Visits(spec, order)
    ensures TreeHasDivergences(MergedEntries(spec, order)) <==>
      Visited(spec, order).conflicts != [] || exists q :: ReservedLeft(spec, q)
  {
    var p := Visited(spec, order);
    VisitedAll(spec, order);
    ReservedSorted(p.entries);
    if e :| e in p.entries && Reserved(e.path) {
      SidecarsAreConflicts(spec, p, e.path);
      assert p.conflicts != [] || ReservedLeft(spec, e.path);
    }
    if p.conflicts != [] {
      SidecarListed(spec, p, p.conflicts[0]);
    }
    if q :| ReservedLeft(spec, q) {
      assert ShapedAt(q, spec[q]);
      EntryListed(spec, p, q, 0);
    }
  }

  /** The path is reserved, and survives. */
  ghost predicate ReservedLeft(spec: Outcomes, q: string) {
    Reserved(q) && q in spec && spec[q].entries != []
  }

  lemma ReservedSorted(es: seq<TreeEntry>)
    ensures TreeHasDivergences(SortEntries(es)) <==> exists e :: e in es && Reserved(e.path)
  {
    SortMeaning(es);
    if e :| e in es && Reserved(e.path) {
      assert e in SortEntries(es);
      var i :| 0 <= i < |SortEntries(es)| && SortEntries(es)[i] == e;
    }
  }
}
