/** The operations of a repository as steps from state to state, and runs of them. */
module Runs {
  import opened Wrappers
  import opened Objects
  import opened Content
  import opened Graph
  import opened History

  /** Importing a document or building a tree; committing on a branch; merging a branch into
      the current one; creating a branch. */
  datatype Operation =
    | StoreContent
    | CommitOn(branch: string)
    | MergeInto(current: string, target: string)
    | NewBranch(name: string, at: Hash)

  /** A repository before any operation. */
  const NEW := State(map[], map[])

  /** The state is sound, and every object is filed under its hash. */
  ghost predicate Proper(hx: Hashing, st: State) {
    Sound(st) && Addressed(hx, st.objects)
  }

  /** The store s with content added. */
  ghost predicate ContentAdded(hx: Hashing, s: Objects, s': Objects) {
    Preserves(s, s') && Addressed(hx, s')
  }

  function Tip(st: State, branch: string): seq<Hash> {
    if BranchRef(branch) in st.refs then [st.refs[BranchRef(branch)]] else []
  }

  /** A commit recorded, with the branch and HEAD moved to it. */
  function Recorded(hx: Hashing, s: Objects, refs: Refs, branch: string, c: Object): State {
    State(s[hx.record(c) := c], refs[BranchRef(branch) := hx.record(c)][HEAD := hx.record(c)])
  }

  /** The store s with content added, and a commit under h that has both as its parents. */
  ghost predicate JoinAdded(hx: Hashing, s: Objects, s': Objects, ours: Hash, theirs: Hash, h: Hash) {
    exists added, c: Object ::
      && ContentAdded(hx, s, added) && c.Commit? && c.parents == [ours, theirs]
      && h == hx.record(c) && s' == added[h := c]
  }

  ghost predicate Joined(hx: Hashing, st: State, st': State, current: string, ours: Hash, theirs: Hash) {
    exists h :: JoinAdded(hx, st.objects, st'.objects, ours, theirs, h)
      && st'.refs == st.refs[BranchRef(current) := h][HEAD := h]
  }

  /** A merge moves the current branch to the other tip, if the ancestor search finds our tip, or
      to a commit of both, if it finds another commit than the tips, or it moves nothing; a
      branch is created for a commit, at a new name or after its old tip. */
  ghost predicate Performs(hx: Hashing, op: Operation, st: State, st': State) {
    match op
    case StoreContent => ContentAdded(hx, st.objects, st'.objects) && st'.refs == st.refs
    case CommitOn(branch) =>
      exists c: Object :: c.Commit? && c.parents == Tip(st, branch)
        && st' == Recorded(hx, st.objects, st.refs, branch, c)
    case MergeInto(current, target) =>
      || (ContentAdded(hx, st.objects, st'.objects) && st'.refs == st.refs)
      || (&& BranchRef(current) in st.refs && BranchRef(target) in st.refs
          && var ours, theirs := st.refs[BranchRef(current)], st.refs[BranchRef(target)];
             var found := CommonAncestorFrom(st.objects, ours, theirs);
             || (found == Ok(Some(ours)) && Ancestor(st.objects, ours, theirs) && st' == Moved(st, current, theirs))
             || (found.Ok? && found.value.Some? && found.value.value != ours && found.value.value != theirs
                 && Joined(hx, st, st', current, ours, theirs)))
    case NewBranch(name, target) =>
      && IsCommit(st.objects, target) && st' == State(st.objects, st.refs[BranchRef(name) := target])
      && (BranchRef(name) in st.refs ==> Ancestor(st.objects, st.refs[BranchRef(name)], target))
  }

  function Moved(st: State, branch: string, h: Hash): State {
    State(st.objects, st.refs[BranchRef(branch) := h][HEAD := h])
  }

  // ----- One step

  lemma RecordKeeps(hx: Hashing, st: State, branch: string, c: Object)
    requires CollisionFree(hx) && Proper(hx, st) && c.Commit?
    requires forall p :: p in c.parents ==> IsCommit(st.objects, p)
    requires BranchRef(branch) in st.refs ==> st.refs[BranchRef(branch)] in c.parents
    ensures var st' := Recorded(hx, st.objects, st.refs, branch, c); Proper(hx, st') && Advances(st, st')
  {
    var h := hx.record(c);
    PutPreserves(hx, st.objects, h, c);
    assert h in st.objects ==> st.objects[h] == c by {
      if h in st.objects {
        assert BelongsAt(hx, h, c);
        OneContent(hx, h, st.objects[h], c);
      }
    }
    CommitStep(st, h, c);
    var stored := State(st.objects[h := c], st.refs);
    assert IsBranch(BranchRef(branch));
    RefStep(stored, branch, h);
    AdvancesTransitive(st, stored, Recorded(hx, st.objects, st.refs, branch, c));
  }

  lemma JoinKeeps(hx: Hashing, st: State, st': State, current: string, target: string)
    requires CollisionFree(hx) && Proper(hx, st) && BranchRef(current) in st.refs && BranchRef(target) in st.refs
    requires Joined(hx, st, st', current, st.refs[BranchRef(current)], st.refs[BranchRef(target)])
    ensures Proper(hx, st') && Advances(st, st')
  {
    var ours, theirs := st.refs[BranchRef(current)], st.refs[BranchRef(target)];
    var h :| JoinAdded(hx, st.objects, st'.objects, ours, theirs, h)
      && st'.refs == st.refs[BranchRef(current) := h][HEAD := h];
    var s, c: Object :| ContentAdded(hx, st.objects, s) && c.Commit? && c.parents == [ours, theirs]
      && h == hx.record(c) && st'.objects == s[h := c];
    ContentStep(st, s);
    var added := State(s, st.refs);
    assert IsBranch(BranchRef(current)) && IsBranch(BranchRef(target));
    RecordKeeps(hx, added, current, c);
    AdvancesTransitive(st, added, st');
  }

  lemma NewBranchKeeps(hx: Hashing, st: State, name: string, target: Hash)
    requires Proper(hx, st) && IsCommit(st.objects, target)
    requires BranchRef(name) in st.refs ==> Ancestor(st.objects, st.refs[BranchRef(name)], target)
    ensures var st' := State(st.objects, st.refs[BranchRef(name) := target]); Proper(hx, st') && Advances(st, st')
  {
    AdvancesReflexive(st);
  }

  /** Every operation keeps the state proper and loses no history. */
  lemma OperationKeeps(hx: Hashing, op: Operation, st: State, st': State)
    requires CollisionFree(hx) && Proper(hx, st) && Performs(hx, op, st, st')
    ensures Proper(hx, st') && Advances(st, st')
  {
    match op
    case StoreContent => ContentStep(st, st'.objects);
    case CommitOn(branch) =>
      var c: Object :| c.Commit? && c.parents == Tip(st, branch) && st' == Recorded(hx, st.objects, st.refs, branch, c);
      assert IsBranch(BranchRef(branch));
      RecordKeeps(hx, st, branch, c);
    case MergeInto(current, target) =>
      if ContentAdded(hx, st.objects, st'.objects) && st'.refs == st.refs {
        ContentStep(st, st'.objects);
      } else if Joined(hx, st, st', current, st.refs[BranchRef(current)], st.refs[BranchRef(target)]) {
        JoinKeeps(hx, st, st', current, target);
      } else {
        assert IsBranch(BranchRef(target));
        RefStep(st, current, st.refs[BranchRef(target)]);
      }
    case NewBranch(name, target) => NewBranchKeeps(hx, st, name, target);
  }

  // ----- Runs

  /** The states that a run of operations passes through. */
  ghost predicate Run(hx: Hashing, ops: seq<Operation>, states: seq<State>) {
    |states| == |ops| + 1 && forall i :: 0 <= i < |ops| ==> Performs(hx, ops[i], states[i], states[i + 1])
  }

  lemma {:induction false} RunKeeps(hx: Hashing, ops: seq<Operation>, states: seq<State>, j: nat)
    requires CollisionFree(hx) && Run(hx, ops, states) && Proper(hx, states[0]) && j <= |ops|
    ensures Proper(hx, states[j])
  {
    if j > 0 {
      RunKeeps(hx, ops, states, j - 1);
      OperationKeeps(hx, ops[j - 1], states[j - 1], states[j]);
    }
  }

  /** Over every run of operations on a proper state, the commit graph stays closed and
      acyclic, no history is lost, and each branch ends at a descendant of where it was at
      any time before. */
  lemma {:induction false} RunAdvances(hx: Hashing, ops: seq<Operation>, states: seq<State>, i: nat, j: nat)
    requires CollisionFree(hx) && Run(hx, ops, states) && Proper(hx, states[0]) && i <= j <= |ops|
    ensures Proper(hx, states[j]) && Advances(states[i], states[j])
    decreases j
  {
    RunKeeps(hx, ops, states, j);
    if i == j {
      AdvancesReflexive(states[i]);
    } else {
      RunAdvances(hx, ops, states, i, j - 1);
      OperationKeeps(hx, ops[j - 1], states[j - 1], states[j]);
      AdvancesTransitive(states[i], states[j - 1], states[j]);
    }
  }

  // ----- A history with a merge

  function Made(tree: Hash, author: Author, parents: seq<Hash>, message: string): Object {
    Object.Commit(tree, parents, author, 0, message)
  }

  /** A merge that the ancestor search calls for stores a commit of both tips. */
  lemma MergePerformed(hx: Hashing, st: State, current: string, target: string, c: Object)
    requires CollisionFree(hx) && Proper(hx, st) && BranchRef(current) in st.refs && BranchRef(target) in st.refs
    requires var ours, theirs := st.refs[BranchRef(current)], st.refs[BranchRef(target)];
      var found := CommonAncestorFrom(st.objects, ours, theirs);
      && found.Ok? && found.value.Some? && found.value.value != ours && found.value.value != theirs
      && c.Commit? && c.parents == [ours, theirs]
    ensures var st' := Recorded(hx, st.objects, st.refs, current, c);
      Performs(hx, MergeInto(current, target), st, st')
  {
    var st' := Recorded(hx, st.objects, st.refs, current, c);
    var ours, theirs := st.refs[BranchRef(current)], st.refs[BranchRef(target)];
    assert ContentAdded(hx, st.objects, st.objects);
    assert JoinAdded(hx, st.objects, st'.objects, ours, theirs, hx.record(c));
    assert Joined(hx, st, st', current, ours, theirs);
  }

  /** The state is one that a run of operations on a new repository ends in. */
  ghost predicate MadeByRun(hx: Hashing, st: State) {
    exists ops, states :: Run(hx, ops, states) && states[0] == NEW && states[|ops|] == st
  }

  lemma MadeNew(hx: Hashing)
    ensures MadeByRun(hx, NEW)
  {
    assert Run(hx, [], [NEW]);
  }

  lemma MadeMore(hx: Hashing, op: Operation, st: State, st': State)
    requires MadeByRun(hx, st) && Performs(hx, op, st, st')
    ensures MadeByRun(hx, st')
  {
    var ops, states :| Run(hx, ops, states) && states[0] == NEW && states[|ops|] == st;
    var ops', states' := ops + [op], states + [st'];
    assert Run(hx, ops', states') by {
      forall i | 0 <= i < |ops'|
        ensures Performs(hx, ops'[i], states'[i], states'[i + 1])
      {
        assert i < |ops| ==> ops'[i] == ops[i] && states'[i] == states[i] && states'[i + 1] == states[i + 1];
      }
    }
  }

  /** What every run on a new repository ends in is proper. */
  lemma MadeProper(hx: Hashing, st: State)
    requires CollisionFree(hx) && MadeByRun(hx, st)
    ensures Proper(hx, st)
  {
    var ops, states :| Run(hx, ops, states) && states[0] == NEW && states[|ops|] == st;
    NothingProper(hx);
    RunKeeps(hx, ops, states, |ops|);
  }

  lemma CommitMade(hx: Hashing, st: State, branch: string, c: Object) returns (st': State)
    requires CollisionFree(hx) && MadeByRun(hx, st) && c.Commit? && c.parents == Tip(st, branch)
    ensures MadeByRun(hx, st') && st' == Recorded(hx, st.objects, st.refs, branch, c)
  {
    st' := Recorded(hx, st.objects, st.refs, branch, c);
    assert Performs(hx, CommitOn(branch), st, st');
    MadeMore(hx, CommitOn(branch), st, st');
  }

  lemma BranchMade(hx: Hashing, st: State, name: string, h: Hash) returns (st': State)
    requires MadeByRun(hx, st) && IsCommit(st.objects, h) && BranchRef(name) !in st.refs
    ensures MadeByRun(hx, st') && st' == State(st.objects, st.refs[BranchRef(name) := h])
  {
    st' := State(st.objects, st.refs[BranchRef(name) := h]);
    MadeMore(hx, NewBranch(name, h), st, st');
  }

  function TipOf(st: State, branch: string): Option<Hash> {
    if BranchRef(branch) in st.refs then Some(st.refs[BranchRef(branch)]) else None
  }

  /** A commit r on main, where side starts, and b on it, where old starts. */
  lemma LineStarted(hx: Hashing, tree: Hash, author: Author) returns (st: State, b: Hash, r: Hash)
    requires CollisionFree(hx)
    ensures MadeByRun(hx, st) && r == hx.record(Made(tree, author, [], "r"))
    ensures b == hx.record(Made(tree, author, [r], "b"))
    ensures On(st.objects, b, [r]) && On(st.objects, r, [])
    ensures TipOf(st, "main") == Some(b) && TipOf(st, "side") == Some(r) && TipOf(st, "old") == Some(b)
  {
    NamesApart();
    MadeNew(hx);
    var cr := Made(tree, author, [], "r");
    r := hx.record(cr);
    var cb := Made(tree, author, [r], "b");
    b := hx.record(cb);
    assert r != b;
    st := CommitMade(hx, NEW, "main", cr);
    st := BranchMade(hx, st, "side", r);
    st := CommitMade(hx, st, "main", cb);
    st := BranchMade(hx, st, "old", b);
  }

  /** Then m and x on main, and y on side. */
  lemma LinesDrawn(hx: Hashing, tree: Hash, author: Author)
    returns (st: State, x: Hash, y: Hash, m: Hash, b: Hash, r: Hash)
    requires CollisionFree(hx)
    ensures MadeByRun(hx, st) && TwoLines(st.objects, x, y, m, b, r)
    ensures x == hx.record(Made(tree, author, [m], "x")) && y == hx.record(Made(tree, author, [r], "y"))
    ensures m == hx.record(Made(tree, author, [b], "m")) && b == hx.record(Made(tree, author, [r], "b"))
    ensures r == hx.record(Made(tree, author, [], "r"))
    ensures TipOf(st, "main") == Some(x) && TipOf(st, "side") == Some(y) && TipOf(st, "old") == Some(b)
  {
    NamesApart();
    st, b, r := LineStarted(hx, tree, author);
    var cm, cy := Made(tree, author, [b], "m"), Made(tree, author, [r], "y");
    m, y := hx.record(cm), hx.record(cy);
    var cx := Made(tree, author, [m], "x");
    x := hx.record(cx);
    assert x !in {y, m, b, r} && y !in {m, b, r} && m !in {b, r} && b != r;
    st := CommitMade(hx, st, "main", cm);
    st := CommitMade(hx, st, "main", cx);
    st := CommitMade(hx, st, "side", cy);
  }

  /** The program makes the history in which the ancestor search misses the lowest, with a
      branch left at b: the last step is a merge of side into main that the search calls for. */
  lemma LinesMade(hx: Hashing, tree: Hash, author: Author)
    returns (before: State, st: State, a: Hash, x: Hash, y: Hash, m: Hash, b: Hash, r: Hash)
    requires CollisionFree(hx)
    ensures MadeByRun(hx, before) && CommonAncestorFrom(before.objects, x, y) == Ok(Some(r))
    ensures TipOf(before, "main") == Some(x) && TipOf(before, "side") == Some(y)
    ensures Performs(hx, MergeInto("main", "side"), before, st) && MadeByRun(hx, st)
    ensures MergedLines(st.objects, a, x, y, m, b, r) && TipOf(st, "main") == Some(a) && TipOf(st, "old") == Some(b)
  {
    NamesApart();
    before, x, y, m, b, r := LinesDrawn(hx, tree, author);
    LinesPart(before.objects, x, y, m, b, r);
    var ca := Made(tree, author, [x, y], "a");
    a := hx.record(ca);
    assert a !in {x, y, m, b, r};
    st := Recorded(hx, before.objects, before.refs, "main", ca);
    MadeProper(hx, before);
    MergePerformed(hx, before, "main", "side", ca);
    MadeMore(hx, MergeInto("main", "side"), before, st);
  }

  lemma NamesApart()
    ensures BranchRef("main") != BranchRef("side") && BranchRef("main") != BranchRef("old")
    ensures BranchRef("side") != BranchRef("old")
    ensures HEAD !in {BranchRef("main"), BranchRef("side"), BranchRef("old")}
  {
    var n := |HEADS_PREFIX|;
    assert BranchRef("main")[n] == 'm' && BranchRef("side")[n] == 's' && BranchRef("old")[n] == 'o';
    assert |HEAD| == 4;
  }

  /** A new repository is proper. */
  lemma NothingProper(hx: Hashing)
    ensures Proper(hx, NEW)
  {
    var none: map<Hash, nat> := map[];
    assert Numbered(map[], none);
  }
}
