/** A repository: an object store, refs, and the operations on them. */
module Repository {
  import opened Wrappers
  import opened Objects
  import opened Content
  import opened Store
  import opened StoreMerge
  import opened Trees
  import opened TreeMerge
  import opened MergeTrees
  import opened Graph
  import opened History
  import opened Tips
  import opened Runs

  datatype MergeOutcome =
    | FastForward(commit: Hash)
    | Merged(commit: Hash, result: MergeResult)
    | UpToDate
    | NoCommonAncestor

  function EntriesFor(files: seq<(string, Hash)>): (entries: seq<TreeEntry>)
    ensures |entries| == |files|
    ensures forall i :: 0 <= i < |files| ==> entries[i].path == files[i].0 && entries[i].document == files[i].1
  {
    seq(|files|, i requires 0 <= i < |files| => TreeEntry(files[i].0, files[i].1))
  }

  lemma FilesListed(files: seq<(string, Hash)>)
    ensures forall path, d :: TreeEntry(path, d) in EntriesFor(files) <==> (path, d) in files
  {
    forall path, d
      ensures TreeEntry(path, d) in EntriesFor(files) <==> (path, d) in files
    {
      if (path, d) in files {
        var i :| 0 <= i < |files| && files[i] == (path, d);
        assert EntriesFor(files)[i] == TreeEntry(path, d);
      }
    }
  }

  predicate HasTree(s: Objects, commit: Hash) {
    IsCommit(s, commit) && s[commit].tree in s && s[s[commit].tree].Tree?
  }

  function TreeOf(s: Objects, commit: Hash): seq<TreeEntry>
    requires HasTree(s, commit)
  {
    s[s[commit].tree].entries
  }

  /** The trees of three commits are in the store with all of their documents. */
  ghost predicate CommitsWhole(hx: Hashing, s: Objects, ancestor: Hash, ours: Hash, theirs: Hash) {
    && HasTree(s, ancestor) && HasTree(s, ours) && HasTree(s, theirs)
    && TreesWhole(hx, s, TreeOf(s, ancestor), TreeOf(s, ours), TreeOf(s, theirs))
  }

  /** Two commits and all that their histories share have their files in the store. */
  ghost predicate AllWholeAt(hx: Hashing, s: Objects, ours: Hash, theirs: Hash) {
    forall c :: CommonAncestorOf(s, c, ours, theirs) ==> CommitsWhole(hx, s, c, ours, theirs)
  }

  /** Who commits, when and why. */
  datatype Signature = Signature(author: Author, now: int, message: string)

  /** In s, the commit h merges two commits of s0: both are its parents, and its tree is
      the merge of their trees over the ancestor's. */
  ghost predicate CommitsMerged(hx: Hashing, s0: Objects, s: Objects, cx: Context, ours: Hash, theirs: Hash,
      ancestor: Hash, sign: Signature, h: Hash, result: MergeResult)
  {
    && h in s && s[h] == Object.Commit(result.tree, [ours, theirs], sign.author, sign.now, sign.message)
      && h == hx.record(s[h])
    && HasTree(s, h) && Ancestor(s, ours, h) && Ancestor(s, theirs, h)
    && (CommitsWhole(hx, s0, ancestor, ours, theirs) ==>
          TreesMerged(hx, s0, s, cx, TreeOf(s0, ancestor), TreeOf(s0, ours), TreeOf(s0, theirs), result))
  }

  /** What a merge of the target's tip into the current branch did. */
  ghost predicate Outcome(hx: Hashing, cx: Context, sign: Signature, st: State, st': State, current: string,
      target: string, outcome: MergeOutcome)
  {
    && current in st.refs && target in st.refs
    && var ours, theirs := st.refs[current], st.refs[target];
       var found := CommonAncestorFrom(st.objects, ours, theirs);
       match outcome
       case UpToDate => st' == st && found == Ok(Some(theirs)) && Ancestor(st.objects, theirs, ours)
       case NoCommonAncestor =>
         st' == st && found == Ok(None) && forall c :: !CommonAncestorOf(st.objects, c, ours, theirs)
       case FastForward(h) =>
         && h == theirs && found == Ok(Some(ours)) && Ancestor(st.objects, ours, theirs) && ours != theirs
         && st' == State(st.objects, st.refs[current := theirs][HEAD := theirs])
       case Merged(h, result) =>
         && st'.refs == st.refs[current := h][HEAD := h]
         && found.Ok? && found.value.Some?
         && var c := found.value.value;
            && CommonAncestorOf(st.objects, c, ours, theirs) && c != ours && c != theirs
            && CommitsMerged(hx, st.objects, st'.objects, cx, ours, theirs, c, sign, h, result)
  }

  /** Where the two histories join in one place, a merge is up to date exactly when theirs is
      in our history, and a fast-forward exactly when ours is in theirs. */
  lemma OutcomeExactly(hx: Hashing, cx: Context, sign: Signature, st: State, st': State, current: string,
      target: string, outcome: MergeOutcome)
    requires Sound(st) && IsBranch(current) && IsBranch(target)
    requires Outcome(hx, cx, sign, st, st', current, target, outcome)
    requires OneGateway(st.objects, st.refs[current], st.refs[target])
    ensures outcome.UpToDate? <==> Ancestor(st.objects, st.refs[target], st.refs[current])
    ensures outcome.FastForward? <==>
      Ancestor(st.objects, st.refs[current], st.refs[target]) && st.refs[current] != st.refs[target]
  {
    TipsCases(st.objects, st.refs[current], st.refs[target]);
  }

  /** Elsewhere it may store a merge commit although theirs is in our history already: after two
      lines were merged, with a branch left on one of them. Such a history is made by commits
      and a merge that is called for (`Runs.LinesMade`). */
  lemma RedundantMerge(hx: Hashing, cx: Context, sign: Signature, st: State, st': State, current: string,
      target: string, outcome: MergeOutcome, a: Hash, x: Hash, y: Hash, m: Hash, b: Hash, r: Hash)
    requires MergedLines(st.objects, a, x, y, m, b, r) && Outcome(hx, cx, sign, st, st', current, target, outcome)
    requires st.refs[current] == a && st.refs[target] == b
    ensures Ancestor(st.objects, b, a) && outcome.Merged?
  {
    CommonAncestorNotLowest(st.objects, a, x, y, m, b, r);
  }

  class Repo {
    const hx: Hashing
    const store: ObjectStore
    var refs: Refs

    ghost function View(): State
      reads this, store
    {
      State(store.objects, refs)
    }

    ghost predicate Valid()
      reads this, store
    {
      CollisionFree(hx) && MergeClosed(hx) && Proper(hx, View())
    }

    constructor (hx: Hashing, store: ObjectStore)
      requires CollisionFree(hx) && MergeClosed(hx) && store.objects == map[]
      ensures Valid() && View() == State(map[], map[]) && this.hx == hx && this.store == store
    {
      this.hx, this.store := hx, store;
      refs := map[];
      new;
      var none: map<Hash, nat> := map[];
      assert Numbered(store.objects, none);
    }

    /** Stores a commit on the given parents, which must be commits, under its hash. */
    method StoreCommit(c: Object) returns (h: Hash)
      requires Valid() && c.Commit?
      requires forall p :: p in c.parents ==> IsCommit(store.objects, p)
      modifies store
      ensures Valid() && Advances(old(View()), View())
      ensures h == hx.record(c) && store.objects == old(store.objects)[h := c]
      ensures forall p :: p in c.parents ==> Ancestor(store.objects, p, h)
    {
      h := hx.record(c);
      PutPreserves(hx, store.objects, h, c);
      if h in store.objects {
        assert BelongsAt(hx, h, c);
        OneContent(hx, h, store.objects[h], c);
      }
      CommitStep(View(), h, c);
      store.Commit([(h, c)]);
      assert store.objects == old(store.objects)[h := c];
    }

    /** Commits a tree on a branch. */
    method Commit(branch: string, tree: Hash, author: Author, now: int, message: string) returns (h: Hash)
      requires Valid()
      modifies this, store
      ensures Valid() && Advances(old(View()), View()) && Performs(hx, CommitOn(branch), old(View()), View())
      ensures refs == old(refs)[BranchRef(branch) := h][HEAD := h]
      ensures h in store.objects && h == hx.record(store.objects[h])
      ensures store.objects == old(store.objects)[h := store.objects[h]]
      ensures store.objects[h] == Object.Commit(
        tree, if BranchRef(branch) in old(refs) then [old(refs)[BranchRef(branch)]] else [], author, now, message)
    {
      var parents := if BranchRef(branch) in refs then [refs[BranchRef(branch)]] else [];
      assert IsBranch(BranchRef(branch));
      h := StoreCommit(Object.Commit(tree, parents, author, now, message));
      ghost var stored := View();
      RefStep(stored, branch, h);
      refs := refs[BranchRef(branch) := h];
      refs := refs[HEAD := h];
      AdvancesTransitive(old(View()), stored, View());
      assert View() == Recorded(hx, old(store.objects), old(refs), branch, store.objects[h]);
    }

    /** Builds a tree of the given files: each path with its own document. */
    method BuildTree(files: seq<(string, Hash)>) returns (h: Hash)
      requires Valid()
      modifies store
      ensures Valid() && Advances(old(View()), View()) && Performs(hx, StoreContent, old(View()), View())
      ensures h in store.objects && store.objects[h].Tree? && h == hx.record(store.objects[h])
      ensures store.objects == old(store.objects)[h := store.objects[h]]
      ensures Sorted(store.objects[h].entries) && multiset(store.objects[h].entries) == multiset(EntriesFor(files))
      ensures forall path, d :: TreeEntry(path, d) in store.objects[h].entries <==> (path, d) in files
    {
      var tree := Tree(SortEntries(EntriesFor(files)));
      SortMeaning(EntriesFor(files));
      SortCopies(EntriesFor(files));
      FilesListed(files);
      h := hx.record(tree);
      PutPreserves(hx, store.objects, h, tree);
      ContentStep(View(), store.objects[h := tree]);
      ghost var s := store.objects;
      store.Commit([(h, tree)]);
      assert store.objects == s[h := tree];
    }

    /** Points a branch at a hash, which is not looked up. History stays sound exactly when it
        is a commit, and advances when the branch is new or its tip is an ancestor. */
    method CreateBranch(name: string, target: Hash)
      requires Valid()
      modifies this
      ensures refs == old(refs)[BranchRef(name) := target]
      ensures Valid() <==> IsCommit(store.objects, target)
      ensures Advances(old(View()), View()) <==>
              BranchRef(name) !in old(refs) || Ancestor(store.objects, old(refs)[BranchRef(name)], target)
      ensures Valid() && Advances(old(View()), View()) ==> Performs(hx, NewBranch(name, target), old(View()), View())
    {
      AdvancesReflexive(View());
      assert IsBranch(BranchRef(name));
      refs := refs[BranchRef(name) := target];
      assert BranchRef(name) in refs && refs[BranchRef(name)] == target;
    }

    /** Loads the tree of a commit. */
    method LoadTree(commit: Hash) returns (r: Result<seq<TreeEntry>, Error>)
      ensures r.Ok? <==> HasTree(store.objects, commit)
      ensures r.Ok? ==> r.value == TreeOf(store.objects, commit) == store.objects[store.objects[commit].tree].entries
      ensures r.Err? ==> Failure(store.objects, r.error)
    {
      if commit !in store.objects {
        return Err(NotFound(commit));
      }
      if !store.objects[commit].Commit? {
        return Err(InvalidObject("expected Commit"));
      }
      var tree := store.objects[commit].tree;
      if tree !in store.objects {
        return Err(NotFound(tree));
      }
      if !store.objects[tree].Tree? {
        return Err(InvalidObject("expected Tree"));
      }
      return Ok(store.objects[tree].entries);
    }

    /** Stores the commit of a merge of two trees. */
    method StoreMerge(cx: Context, ours: Hash, theirs: Hash, result: MergeResult, sign: Signature,
        ghost st: State, ghost ancestor: Hash)
      returns (h: Hash)
      requires Valid() && Advances(st, View()) && IsCommit(store.objects, ours) && IsCommit(store.objects, theirs)
      requires result.tree in store.objects && store.objects[result.tree].Tree?
      requires CommitsWhole(hx, st.objects, ancestor, ours, theirs) ==>
        TreesMerged(hx, st.objects, store.objects, cx, TreeOf(st.objects, ancestor), TreeOf(st.objects, ours),
          TreeOf(st.objects, theirs), result)
      modifies store
      ensures Valid() && Advances(st, View())
      ensures store.objects == old(store.objects)[h := Object.Commit(
        result.tree, [ours, theirs], sign.author, sign.now, sign.message)]
      ensures CommitsMerged(hx, st.objects, store.objects, cx, ours, theirs, ancestor, sign, h, result)
    {
      ghost var before := View();
      var commit := Object.Commit(result.tree, [ours, theirs], sign.author, sign.now, sign.message);
      h := StoreCommit(commit);
      AdvancesTransitive(st, before, View());
      if CommitsWhole(hx, st.objects, ancestor, ours, theirs) {
        TreesMergedStay(hx, st.objects, before.objects, store.objects, cx,
                        TreeOf(st.objects, ancestor), TreeOf(st.objects, ours), TreeOf(st.objects, theirs), result);
      }
    }

    /** Merges the trees of two commits over that of a third and stores the merge commit. */
    method MergeCommits(cx: Context, ours: Hash, theirs: Hash, ancestor: Hash, sign: Signature)
      returns (r: Result<(Hash, MergeResult), Error>)
      requires Valid() && Describable(hx, cx) && IsCommit(store.objects, ours) && IsCommit(store.objects, theirs)
      modifies store
      ensures Valid() && Advances(old(View()), View())
      ensures r.Err? ==> Failure(old(store.objects), r.error)
      ensures r.Ok? ==>
        CommitsMerged(hx, old(store.objects), store.objects, cx, ours, theirs, ancestor, sign, r.value.0, r.value.1)
      ensures r.Ok? ==> JoinAdded(hx, old(store.objects), store.objects, ours, theirs, r.value.0)
      ensures r.Err? ==> ContentAdded(hx, old(store.objects), store.objects)
      ensures CommitsWhole(hx, old(store.objects), ancestor, ours, theirs) ==> r.Ok?
    {
      AdvancesReflexive(View());
      var ourTree := LoadTree(ours);
      if ourTree.Err? { return Err(ourTree.error); }
      var theirTree := LoadTree(theirs);
      if theirTree.Err? { return Err(theirTree.error); }
      var ancestorTree := LoadTree(ancestor);
      if ancestorTree.Err? { return Err(ancestorTree.error); }
      ghost var st := View();
      var merged := MergeTrees.MergeTrees(store, hx, cx, ancestorTree.value, ourTree.value, theirTree.value);
      ContentStep(st, store.objects);
      if merged.Err? { return Err(merged.error); }
      ghost var added := store.objects;
      var h := StoreMerge(cx, ours, theirs, merged.value, sign, st, ancestor);
      assert ContentAdded(hx, st.objects, added);
      return Ok((h, merged.value));
    }

    /** Moves a branch, and HEAD with it, to a descendant of its tip. */
    method Move(branch: string, h: Hash, ghost st: State)
      requires Valid() && Advances(st, View()) && IsCommit(store.objects, h)
      requires BranchRef(branch) in refs ==> Ancestor(store.objects, refs[BranchRef(branch)], h)
      modifies this`refs
      ensures Valid() && Advances(st, View())
      ensures refs == old(refs)[BranchRef(branch) := h][HEAD := h]
    {
      ghost var before := View();
      RefStep(before, branch, h);
      refs := refs[BranchRef(branch) := h];
      refs := refs[HEAD := h];
      AdvancesTransitive(st, before, View());
    }

    method MergeTips(current: string, target: string, ours: Hash, theirs: Hash, cx: Context, sign: Signature)
      returns (r: Result<MergeOutcome, Error>)
      requires Valid() && Describable(hx, cx)
      requires BranchRef(current) in refs && refs[BranchRef(current)] == ours
      requires BranchRef(target) in refs && refs[BranchRef(target)] == theirs
      modifies this`refs, store
      ensures Valid() && Advances(old(View()), View()) && Performs(hx, MergeInto(current, target), old(View()), View())
      ensures r.Err? ==> refs == old(refs) && Failure(old(store.objects), r.error)
      ensures r.Ok? ==> Outcome(hx, cx, sign, old(View()), View(), BranchRef(current), BranchRef(target), r.value)
      ensures r.Ok? && !r.value.NoCommonAncestor? ==> Ancestor(store.objects, theirs, refs[BranchRef(current)])
      ensures AllWholeAt(hx, old(store.objects), ours, theirs) ==> r.Ok?
    {
      ghost var st := View();
      AdvancesReflexive(st);
      assert IsBranch(BranchRef(current)) && IsBranch(BranchRef(target));
      TipsMeet(st.objects, ours, theirs);
      if ours == theirs {
        return Ok(UpToDate);
      }
      var ancestor := CommonAncestor(store.objects, ours, theirs);
      if ancestor.value.None? {
        return Ok(NoCommonAncestor);
      }
      if ancestor.value.value == ours {
        Move(current, theirs, st);
        return Ok(FastForward(theirs));
      }
      if ancestor.value.value == theirs {
        return Ok(UpToDate);
      }
      var merged := MergeCommits(cx, ours, theirs, ancestor.value.value, sign);
      if merged.Err? {
        return Err(merged.error);
      }
      Move(current, merged.value.0, st);
      return Ok(Merged(merged.value.0, merged.value.1));
    }

    /** Merges a branch into the current one. */
    method Merge(current: string, target: string, cx: Context, sign: Signature)
      returns (r: Result<MergeOutcome, Error>)
      requires Valid() && Describable(hx, cx)
      modifies this`refs, store
      ensures Valid() && Advances(old(View()), View()) && Performs(hx, MergeInto(current, target), old(View()), View())
      ensures r.Err? ==> refs == old(refs) && (r.error.RefError? || Failure(old(store.objects), r.error))
      ensures (r.Err? && r.error.RefError?) <==> !(BranchRef(current) in old(refs) && BranchRef(target) in old(refs))
      ensures r.Ok? ==> Outcome(hx, cx, sign, old(View()), View(), BranchRef(current), BranchRef(target), r.value)
      ensures r.Ok? && !r.value.NoCommonAncestor? ==>
        Ancestor(store.objects, old(refs)[BranchRef(target)], refs[BranchRef(current)])
      ensures BranchRef(current) in old(refs) && BranchRef(target) in old(refs) ==>
        (AllWholeAt(hx, old(store.objects), old(refs)[BranchRef(current)], old(refs)[BranchRef(target)]) ==> r.Ok?)
    {
      AdvancesReflexive(View());
      if BranchRef(current) !in refs {
        return Err(RefError("branch '" + current + "' has no commits"));
      }
      if BranchRef(target) !in refs {
        return Err(RefError("branch '" + target + "' not found"));
      }
      r := MergeTips(current, target, refs[BranchRef(current)], refs[BranchRef(target)], cx, sign);
    }
  }
}
