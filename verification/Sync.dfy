/** Pull and push of refs between two stores. */
module Sync {
  import opened Wrappers
  import opened Reachability
  import opened Objects
  import opened Content
  import opened Store
  import opened Subtree
  import opened Graph
  import opened History
  import opened Tips

  /** Named pointers to objects. */
  class RefStore {
    var refs: Refs

    constructor ()
      ensures refs == map[]
    {
      refs := map[];
    }

    method SetRef(name: string, h: Hash)
      modifies this
      ensures refs == old(refs)[name := h]
    {
      refs := refs[name := h];
    }
  }

  // ----- Conflict policies

  /** What to do when the destination has the ref with another value: one of the three
      policies that come with the program, or one of the caller's. */
  datatype RefConflict =
    | FastForwardOnly
    | Overwrite
    | Reject
    | Custom(decide: (Objects, string, Hash, Hash) -> Result<bool, Error>)

  /** The policy lets a ref of the store d move from the hash there to the source's. */
  predicate MayMove(policy: RefConflict, d: Objects, name: string, source: Hash, there: Hash) {
    || policy.Overwrite?
    || (policy.FastForwardOnly? && CommonAncestorFrom(d, source, there) == Ok(Some(there)))
    || (policy.Custom? && policy.decide(d, name, source, there) == Ok(true))
  }

  /** The policy passes over a ref. */
  predicate Skips(policy: RefConflict, d: Objects, name: string, source: Hash, there: Hash) {
    policy.Custom? && policy.decide(d, name, source, there) == Ok(false)
  }

  method Resolve(policy: RefConflict, d: Objects, name: string, source: Hash, there: Hash)
    returns (r: Result<bool, Error>)
    ensures MayMove(policy, d, name, source, there) <==> r.Ok? && r.value
    ensures Skips(policy, d, name, source, there) <==> r.Ok? && !r.value
    ensures r.Err? && !policy.Custom? ==> r.error.RefError? || Missing(d, r.error)
    ensures policy.Overwrite? ==> r == Ok(true)
    ensures policy.Reject? ==> r.Err? && r.error.RefError?
    ensures policy.Custom? ==> r == policy.decide(d, name, source, there)
    ensures policy.FastForwardOnly? ==> (r.Ok? <==> CommonAncestorFrom(d, source, there) == Ok(Some(there)))
  {
    match policy
    case Custom(decide) =>
      r := decide(d, name, source, there);
      assert r.Ok? ==> r == Ok(r.value);
      return;
    case Overwrite => return Ok(true);
    case Reject => return Err(RefError("destination ref already exists with a different value"));
    case FastForwardOnly =>
      CommonAncestorRight(d, source, there);
      var meeting := CommonAncestor(d, source, there);
      if meeting.Err? {
        return Err(meeting.error);
      }
      if meeting.value == Some(there) {
        return Ok(true);
      }
      return Err(RefError("cannot fast-forward: destination is not an ancestor of source"));
  }

  /** A fast-forward loses no history. */
  lemma FastForwardMoves(d: Objects, name: string, source: Hash, there: Hash)
    requires MayMove(FastForwardOnly, d, name, source, there)
    ensures Ancestor(d, there, source)
  {
    CommonAncestorRight(d, source, there);
  }

  /** Where the two histories join in one place, as they do if no commit of one of them only
      has two parents, every move that loses no history is a fast-forward. */
  lemma FastForwardExactly(d: Objects, name: string, source: Hash, there: Hash)
    requires ClosedHistory(d) && Acyclic(d) && IsCommit(d, source) && IsCommit(d, there)
    requires OneGateway(d, source, there) || Unmerged(d, source, there)
    ensures MayMove(FastForwardOnly, d, name, source, there) <==> Ancestor(d, there, source)
  {
    if Unmerged(d, source, there) {
      UnmergedOneGateway(d, source, there);
    }
    TipsCases(d, source, there);
  }

  /** After two lines were merged some are refused: the ref at b may not move to its
      descendant a. */
  lemma FastForwardRefused(d: Objects, name: string, a: Hash, x: Hash, y: Hash, m: Hash, b: Hash, r: Hash)
    requires MergedLines(d, a, x, y, m, b, r)
    ensures Ancestor(d, b, a) && !MayMove(FastForwardOnly, d, name, a, b)
  {
    CommonAncestorNotLowest(d, a, x, y, m, b, r);
  }

  // ----- Received history

  lemma Bound(rank: map<Hash, nat>) returns (m: nat)
    ensures forall h :: h in rank ==> rank[h] <= m
  {
    m := 0;
    var rest := rank.Keys;
    while rest != {}
      invariant rest <= rank.Keys
      invariant forall h :: h in rank && h !in rest ==> rank[h] <= m
    {
      var h :| h in rest;
      m := if rank[h] > m then rank[h] else m;
      rest := rest - {h};
    }
  }

  /** Received commits are numbered after those already there. */
  lemma ReceivedNumbered(s: Objects, d: Objects, root: Hash)
    requires Agree(s, d) && ClosedHistory(s) && Acyclic(s) && ClosedHistory(d) && Acyclic(d)
    ensures Acyclic(Received(s, d, root))
  {
    var d' := Received(s, d, root);
    var rs: map<Hash, nat> :| Numbered(s, rs);
    var rd: map<Hash, nat> :| Numbered(d, rd);
    var m := Bound(rd);
    var rank: map<Hash, nat> :=
      map h | h in d' && IsCommit(d', h) :: if h in d && h in rd then rd[h] else if h in rs then m + 1 + rs[h] else 0;
    forall h, p | IsCommit(d', h) && p in d'[h].parents && p in rank && h in rank
      ensures rank[p] < rank[h]
    {
      if h in d {
        assert IsCommit(d, h) && IsCommit(d, p);
      } else {
        assert IsCommit(s, h) && IsCommit(s, p);
        assert h in rs && p in rs && rs[p] < rs[h];
        assert p in d ==> p in rd;
      }
    }
    assert Numbered(d', rank);
  }

  lemma ReceivedHistory(s: Objects, d: Objects, root: Hash)
    requires Agree(s, d) && ClosedHistory(s) && ClosedHistory(d)
    ensures ClosedHistory(Received(s, d, root))
  {
    var d' := Received(s, d, root);
    forall h, p | IsCommit(d', h) && p in d'[h].parents
      ensures IsCommit(d', p)
    {
      if h in d {
        assert IsCommit(d, h) && IsCommit(d, p);
      } else {
        assert IsCommit(s, h) && IsCommit(s, p);
        assert Edge(ReferenceGraph(s), h, p);
        ReachesThenEdge(ReferenceGraph(s), root, h, p);
        assert Reachable(s, root, p);
      }
    }
  }

  // ----- What every sync keeps

  /** Refs of the destination that a sync may have moved are those of the source now, with
      everything reachable from them; nothing that was there is lost. */
  ghost predicate Kept(policy: RefConflict, s: State, d: State, d': State) {
    && Grows(d.objects, d'.objects) && Agree(s.objects, d'.objects)
    && (Closed(d.objects) ==> Closed(d'.objects))
    && (Sound(s) && Sound(d) ==> Sound(d'))
    && (forall n :: n in d.refs ==> n in d'.refs)
    && (forall n :: n in d'.refs ==> Unmoved(d, d', n) || Moved(s, d', n))
    && (policy.FastForwardOnly? ==> forall n :: n in d.refs && n in d'.refs ==>
      Ancestor(d'.objects, d.refs[n], d'.refs[n]))
    && (policy.Reject? ==> forall n :: n in d.refs ==> Unmoved(d, d', n))
  }

  predicate Unmoved(d: State, d': State, n: string) {
    n in d.refs && n in d'.refs && d'.refs[n] == d.refs[n]
  }

  ghost predicate Moved(s: State, d': State, n: string) {
    n in s.refs && n in d'.refs && d'.refs[n] == s.refs[n] && WholeAt(d'.objects, d'.refs[n])
  }

  lemma KeptReflexive(policy: RefConflict, s: State, d: State)
    requires Agree(s.objects, d.objects)
    ensures Kept(policy, s, d, d)
  {
    forall n | n in d.refs
      ensures Ancestor(d.objects, d.refs[n], d.refs[n])
    {
      ReachesSelf(CommitGraph(d.objects), d.refs[n]);
    }
  }

  lemma WholeGrows(d: Objects, d': Objects, root: Hash)
    requires Grows(d, d') && WholeAt(d, root)
    ensures WholeAt(d', root)
  {
    var g, g' := ReferenceGraph(d), ReferenceGraph(d');
    var part := SubtreeOf(d, root).Keys;
    ReachesSelf(g, root);
    assert Reachable(d, root, root);
    forall x, y | x in part && Edge(g', x, y)
      ensures y in part
    {
      assert Edge(g, x, y);
      ReachesThenEdge(g, root, x, y);
      assert Reachable(d, root, y);
    }
    forall h | Reachable(d', root, h)
      ensures h in d'
    {
      ClosedReaches(g', part, root, h);
    }
  }

  lemma KeptTransitive(policy: RefConflict, s: State, d: State, d': State, d'': State)
    requires Kept(policy, s, d, d') && Kept(policy, s, d', d'')
    ensures Kept(policy, s, d, d'')
  {
    forall n | n in d''.refs
      ensures Unmoved(d, d'', n) || Moved(s, d'', n)
    {
      if Unmoved(d', d'', n) && Moved(s, d', n) {
        WholeGrows(d'.objects, d''.objects, d'.refs[n]);
      }
    }
    if policy.FastForwardOnly? {
      GrowsExtends(d'.objects, d''.objects);
      forall n | n in d.refs && n in d''.refs
        ensures Ancestor(d''.objects, d.refs[n], d''.refs[n])
      {
        assert n in d'.refs;
        ExtendsReaches(CommitGraph(d'.objects), CommitGraph(d''.objects), d'.refs[n], d.refs[n]);
        ReachesTransitive(CommitGraph(d''.objects), d''.refs[n], d'.refs[n], d.refs[n]);
      }
    }
  }

  /** Under the fast-forward policy a sync only advances the destination. */
  lemma KeptAdvances(s: State, d: State, d': State)
    requires Kept(FastForwardOnly, s, d, d')
    ensures Advances(d, d')
  {
    GrowsExtends(d.objects, d'.objects);
  }

  /** Receiving objects without moving a ref. */
  lemma ReceivedKept(policy: RefConflict, s: State, d: State, root: Hash)
    requires Agree(s.objects, d.objects) && WholeAt(s.objects, root)
    ensures var d' := State(Received(s.objects, d.objects, root), d.refs);
      Kept(policy, s, d, d') && WholeAt(d'.objects, root)
  {
    var d' := State(Received(s.objects, d.objects, root), d.refs);
    ReceivedKeeps(s.objects, d.objects, root);
    if Sound(s) && Sound(d) {
      ReceivedNumbered(s.objects, d.objects, root);
      ReceivedHistory(s.objects, d.objects, root);
    }
    forall n | n in d.refs
      ensures Ancestor(d'.objects, d.refs[n], d.refs[n])
    {
      ReachesSelf(CommitGraph(d'.objects), d.refs[n]);
    }
  }

  /** Moving a ref to the source's value, all of which is there. */
  lemma MoveKept(policy: RefConflict, s: State, d: State, name: string)
    requires Agree(s.objects, d.objects) && name in s.refs && WholeAt(d.objects, s.refs[name])
    requires name in d.refs ==> MayMove(policy, d.objects, name, s.refs[name], d.refs[name])
    ensures Kept(policy, s, d, State(d.objects, d.refs[name := s.refs[name]]))
  {
    var d' := State(d.objects, d.refs[name := s.refs[name]]);
    if policy.FastForwardOnly? && name in d.refs {
      FastForwardMoves(d.objects, name, s.refs[name], d.refs[name]);
    }
    forall n | n in d.refs && policy.FastForwardOnly?
      ensures Ancestor(d'.objects, d.refs[n], d'.refs[n])
    {
      ReachesSelf(CommitGraph(d.objects), d.refs[n]);
    }
    if Sound(s) && (IsBranch(name) || name == HEAD) {
      assert IsCommit(s.objects, s.refs[name]);
      ReachesSelf(ReferenceGraph(d.objects), s.refs[name]);
      assert Reachable(d.objects, s.refs[name], s.refs[name]);
      assert s.refs[name] in d.objects && SameContent(s.objects[s.refs[name]], d.objects[s.refs[name]]);
    }
    assert Moved(s, d', name);
    assert forall n :: n in d'.refs && n != name ==> Unmoved(d, d', n);
  }

  // ----- Sync

  /** The refs under a prefix whose value at the destination is not the source's. */
  ghost function Differing(s: Refs, d: Refs, prefix: string): set<string> {
    set n | n in s && prefix <= n && !(n in d && d[n] == s[n])
  }

  /** The policy's decision is asked for on the destination with all that the ref needs. */
  ghost predicate Moves(policy: RefConflict, s: State, d: State, name: string)
    requires name in s.refs
  {
    name in d.refs ==> MayMove(policy, Received(s.objects, d.objects, s.refs[name]), name, s.refs[name], d.refs[name])
  }

  ghost predicate PassesOver(policy: RefConflict, s: State, d: State, name: string)
    requires name in s.refs
  {
    name in d.refs && Skips(policy, Received(s.objects, d.objects, s.refs[name]), name, s.refs[name], d.refs[name])
  }

  predicate Same(s: State, d: State, name: string) {
    name in s.refs && name in d.refs && d.refs[name] == s.refs[name]
  }

  /** When the sync of one ref succeeds: it is in the source, and it is the same at the
      destination or can be brought there whole and then moved or passed over. */
  ghost predicate CanSync(policy: RefConflict, s: State, d: State, name: string) {
    && name in s.refs
    && (Same(s, d, name)
        || (WholeAt(s.objects, s.refs[name]) && (Moves(policy, s, d, name) || PassesOver(policy, s, d, name))))
  }

  /** The decision on a ref does not depend on what else a sync has brought: the policy is not
      the caller's, and a fast-forward is decided on a closed destination. */
  ghost predicate Steady(policy: RefConflict, d: State) {
    && !policy.Custom?
    && (policy.FastForwardOnly? ==> Closed(d.objects) && forall n :: n in d.refs ==> d.refs[n] in d.objects)
  }

  lemma ClosedCommits(d: Objects)
    requires Closed(d)
    ensures Complete(CommitGraph(d))
  {
    forall x, y | x in d && Edge(CommitGraph(d), x, y)
      ensures y in d
    {
      assert y in References(d[x]);
    }
  }

  lemma MoreReceived(s: Objects, d: Objects, d': Objects, root: Hash)
    requires Grows(d, d') && Agree(s, d')
    ensures Extends(CommitGraph(Received(s, d, root)), CommitGraph(Received(s, d', root)))
  {
  }

  lemma MovesSteadily(policy: RefConflict, s: State, d: State, d': State, name: string)
    requires Steady(policy, d) && Agree(s.objects, d.objects) && Grows(d.objects, d'.objects)
    requires Agree(s.objects, d'.objects)
    requires name in s.refs && name in d.refs && name in d'.refs && d'.refs[name] == d.refs[name]
    requires WholeAt(s.objects, s.refs[name])
    ensures Moves(policy, s, d', name) <==> Moves(policy, s, d, name)
  {
    if policy.FastForwardOnly? {
      var h := s.refs[name];
      var r, r' := Received(s.objects, d.objects, h), Received(s.objects, d'.objects, h);
      ReceivedKeeps(s.objects, d.objects, h);
      ClosedCommits(r);
      MoreReceived(s.objects, d.objects, d'.objects, h);
      ReachesSelf(ReferenceGraph(r), h);
      assert Reachable(r, h, h);
      CommonAncestorStable(r, r', h, d.refs[name]);
    }
  }

  /** The ref is as it was. */
  predicate Untouched(d: State, d': State, name: string) {
    (name in d'.refs <==> name in d.refs) && (name in d.refs && name in d'.refs ==> d'.refs[name] == d.refs[name])
  }

  lemma SyncsSteadily(policy: RefConflict, s: State, d: State, d': State, name: string)
    requires Steady(policy, d) && Agree(s.objects, d.objects) && Grows(d.objects, d'.objects)
    requires Agree(s.objects, d'.objects)
    requires Untouched(d, d', name)
    ensures CanSync(policy, s, d', name) <==> CanSync(policy, s, d, name)
  {
    if name in s.refs && name in d.refs && WholeAt(s.objects, s.refs[name]) {
      MovesSteadily(policy, s, d, d', name);
    }
  }

  /** Moves a ref to the source's value once everything it needs has been received, if the
      policy lets it. */
  method MoveRef(dst: ObjectStore, dstRefs: RefStore, name: string, h: Hash, policy: RefConflict, ghost s: State,
      ghost d: State)
    returns (r: Result<bool, Error>)
    requires Agree(s.objects, d.objects) && name in s.refs && s.refs[name] == h && WholeAt(s.objects, h)
    requires dst.objects == Received(s.objects, d.objects, h) && dstRefs.refs == d.refs
    modifies dstRefs
    ensures Kept(policy, s, d, State(dst.objects, dstRefs.refs))
    ensures Moves(policy, s, d, name) <==> r.Ok? && r.value
    ensures PassesOver(policy, s, d, name) <==> r.Ok? && !r.value
    ensures dstRefs.refs == if r.Ok? && r.value then d.refs[name := h] else d.refs
    ensures policy.Custom? && name in d.refs ==> r == policy.decide(dst.objects, name, h, d.refs[name])
  {
    ReceivedKept(policy, s, d, h);
    ghost var received := State(dst.objects, d.refs);
    if name in dstRefs.refs {
      var proceed := Resolve(policy, dst.objects, name, h, dstRefs.refs[name]);
      if proceed.Err? || !proceed.value {
        return proceed;
      }
    }
    MoveKept(policy, s, received, name);
    KeptTransitive(policy, s, d, received, State(dst.objects, d.refs[name := h]));
    dstRefs.SetRef(name, h);
    return Ok(true);
  }

  /** Transfers what a ref needs and moves it; says whether the ref moved. */
  method SyncRef(src: ObjectStore, srcRefs: RefStore, dst: ObjectStore, dstRefs: RefStore, name: string,
      policy: RefConflict)
    returns (r: Result<bool, Error>)
    requires Agree(src.objects, dst.objects)
    modifies dst, dstRefs
    ensures src.objects == old(src.objects) && srcRefs.refs == old(srcRefs.refs)
    ensures Kept(policy, State(src.objects, srcRefs.refs), old(State(dst.objects, dstRefs.refs)),
      State(dst.objects, dstRefs.refs))
    ensures r.Ok? <==>
      CanSync(policy, old(State(src.objects, srcRefs.refs)), old(State(dst.objects, dstRefs.refs)), name)
    ensures r.Ok? && r.value ==>
      name in srcRefs.refs && dstRefs.refs == old(dstRefs.refs)[name := srcRefs.refs[name]] != old(dstRefs.refs)
    ensures !(r.Ok? && r.value) ==> dstRefs.refs == old(dstRefs.refs)
    ensures r.Ok? && !r.value && !policy.Custom? ==>
      Same(State(src.objects, srcRefs.refs), old(State(dst.objects, dstRefs.refs)), name)
    ensures old(Same(State(src.objects, srcRefs.refs), State(dst.objects, dstRefs.refs), name)) ==>
      r.Ok? && !r.value && dst.objects == old(dst.objects)
    ensures (policy.Custom? && name in srcRefs.refs && name in old(dstRefs.refs)
             && srcRefs.refs[name] != old(dstRefs.refs)[name] && WholeAt(src.objects, srcRefs.refs[name])) ==>
        var h, there := srcRefs.refs[name], old(dstRefs.refs)[name];
        r == policy.decide(Received(src.objects, old(dst.objects), h), name, h, there)
  {
    ghost var s, d := State(src.objects, srcRefs.refs), State(dst.objects, dstRefs.refs);
    KeptReflexive(policy, s, d);
    if name !in srcRefs.refs {
      return Err(RefError("source ref not found: " + name));
    }
    var h := srcRefs.refs[name];
    if name in dstRefs.refs && dstRefs.refs[name] == h {
      return Ok(false);
    }
    var transferred := TransferObjects(src, dst, h);
    if transferred.Err? {
      return Err(transferred.error);
    }
    r := MoveRef(dst, dstRefs, name, h, policy, s, d);
  }

  lemma DifferingNext(s: Refs, d: Refs, d': Refs, prefix: string, name: string)
    requires name in s && prefix <= name && d' == d[name := s[name]]
    ensures Differing(s, d', prefix) == Differing(s, d, prefix) - {name}
    ensures |Differing(s, d', prefix)| == |Differing(s, d, prefix)| - if d' == d then 0 else 1
  {
    var before, after := Differing(s, d, prefix), Differing(s, d', prefix);
    assert after == before - {name};
    assert name in before <==> d' != d;
    if name in before {
      assert before == after + {name};
    } else {
      assert before == after;
    }
  }

  /** A ref that is the source's already syncs. */
  lemma NoneDiffers(policy: RefConflict, prefix: string, s: State, d: State, name: string)
    requires Differing(s.refs, d.refs, prefix) == {} && name in s.refs && prefix <= name
    ensures CanSync(policy, s, d, name)
  {
    assert name !in Differing(s.refs, d.refs, prefix);
  }

  lemma SyncedNow(policy: RefConflict, prefix: string, s: State, d: Refs, d': Refs, names: set<string>, name: string)
    requires name in s.refs && (d' == d || d' == d[name := s.refs[name]])
    requires d' == d && !policy.Custom? ==> name in d && d[name] == s.refs[name]
    requires Differing(s.refs, d, prefix) <= names && !policy.Custom?
    ensures Differing(s.refs, d', prefix) <= names - {name}
  {
  }

  /** Refs that do not match the prefix stay as they are. */
  ghost predicate Elsewhere(prefix: string, d: State, d': State) {
    forall n :: !(prefix <= n) ==> Untouched(d, d', n)
  }

  lemma ElsewhereNext(prefix: string, s: Refs, d: State, d1: State, d': State, name: string)
    requires Elsewhere(prefix, d, d1) && prefix <= name && name in s
    requires d'.refs == d1.refs || d'.refs == d1.refs[name := s[name]]
    ensures Elsewhere(prefix, d, d')
  {
    forall n | !(prefix <= n)
      ensures Untouched(d, d', n)
    {
      assert Untouched(d, d1, n);
    }
  }

  ghost predicate AllSync(policy: RefConflict, s: State, d: State, names: set<string>) {
    forall n :: n in names ==> CanSync(policy, s, d, n)
  }

  function Matching(s: State, prefix: string): set<string> {
    set n | n in s.refs && prefix <= n
  }

  /** A sync under way: the refs not among the names left are done. */
  ghost predicate Syncing(policy: RefConflict, prefix: string, s: State, d: State, d': State, names: set<string>,
      count: nat)
  {
    && Kept(policy, s, d, d') && Elsewhere(prefix, d, d')
    && names <= Matching(s, prefix) && (forall n :: n in names ==> Untouched(d, d', n))
    && var before, now := Differing(s.refs, d.refs, prefix), Differing(s.refs, d'.refs, prefix);
       && now <= before && (!policy.Custom? ==> now <= names) && count + |now| == |before|
       && (before == {} ==> d' == d)
       && (Steady(policy, d) ==> AllSync(policy, s, d, Matching(s, prefix) - names))
  }

  /** What a sync of the refs under a prefix comes to. Whatever stops it, the destination is
      only what `Kept` allows; if nothing stops it, every ref is the source's but those a
      caller's policy passed over, and syncing refs that already are the source's changes
      nothing. It succeeds exactly when each of the refs could be synced alone. */
  ghost predicate Synced(policy: RefConflict, prefix: string, s: State, d: State, d': State, r: Result<nat, Error>) {
    && Kept(policy, s, d, d') && Elsewhere(prefix, d, d')
    && var before, now := Differing(s.refs, d.refs, prefix), Differing(s.refs, d'.refs, prefix);
       && now <= before && (before == {} ==> r == Ok(0) && d' == d)
       && (r.Ok? ==> r.value + |now| == |before| && (!policy.Custom? ==> now == {}))
       && (Steady(policy, d) ==> (r.Ok? <==> AllSync(policy, s, d, Matching(s, prefix))))
  }

  /** What the policies promise of a sync of the refs under a prefix, one by one. If it
      succeeds, the destination has the source's refs, and the count is that of the refs that
      were missing or different. `Overwrite` succeeds exactly when every ref is the same or
      complete in the source; `Reject` moves nothing and succeeds exactly when the refs that
      are there are the same and the new ones complete; `FastForwardOnly`, on a closed
      destination, when those that differ meet the source in what the destination has. */
  ghost predicate ByPolicy(policy: RefConflict, prefix: string, s: State, d: State, d': State, r: Result<nat, Error>) {
    && (forall n :: n in d.refs && !(prefix <= n) ==> n in d'.refs && d'.refs[n] == d.refs[n])
    && (forall n :: n in d'.refs && n !in d.refs ==> prefix <= n && n in s.refs && d'.refs[n] == s.refs[n])
    && (r.Ok? && !policy.Custom? ==>
          && r.value == |set n | n in s.refs && prefix <= n && (n !in d.refs || d.refs[n] != s.refs[n])|
          && forall n :: n in s.refs && prefix <= n ==> n in d'.refs && d'.refs[n] == s.refs[n])
    && (policy.Overwrite? ==> (r.Ok? <==> forall n :: n in s.refs && prefix <= n ==>
          (n in d.refs && d.refs[n] == s.refs[n]) || WholeAt(s.objects, s.refs[n])))
    && (policy.Reject? ==>
          && (forall n :: n in d.refs ==> n in d'.refs && d'.refs[n] == d.refs[n])
          && (r.Ok? <==> forall n :: n in s.refs && prefix <= n ==>
                if n in d.refs then d.refs[n] == s.refs[n] else WholeAt(s.objects, s.refs[n])))
    && (policy.FastForwardOnly? && Closed(d.objects) && (forall n :: n in d.refs ==> d.refs[n] in d.objects) ==>
          (r.Ok? <==> forall n :: n in s.refs && prefix <= n ==>
                if n in d.refs then
                  d.refs[n] == s.refs[n]
                  || (WholeAt(s.objects, s.refs[n])
                      && CommonAncestorFrom(Received(s.objects, d.objects, s.refs[n]), s.refs[n], d.refs[n])
                        == Ok(Some(d.refs[n])))
                else WholeAt(s.objects, s.refs[n])))
  }

  lemma SyncedByPolicy(policy: RefConflict, prefix: string, s: State, d: State, d': State, r: Result<nat, Error>)
    requires Synced(policy, prefix, s, d, d', r)
    ensures ByPolicy(policy, prefix, s, d, d', r)
  {
    RefsAfter(policy, prefix, s, d, d', r);
    forall n | n in s.refs && prefix <= n
      ensures n in Matching(s, prefix)
    {
      CanSyncByPolicy(policy, s, d, n);
    }
    if Steady(policy, d) {
      EachAlone(policy, prefix, s, d);
    }
  }

  lemma RefsAfter(policy: RefConflict, prefix: string, s: State, d: State, d': State, r: Result<nat, Error>)
    requires Synced(policy, prefix, s, d, d', r)
    ensures forall n :: n in d.refs && !(prefix <= n) ==> n in d'.refs && d'.refs[n] == d.refs[n]
    ensures forall n :: n in d'.refs && n !in d.refs ==> prefix <= n && n in s.refs && d'.refs[n] == s.refs[n]
    ensures r.Ok? && !policy.Custom? ==>
      && r.value == |set n | n in s.refs && prefix <= n && (n !in d.refs || d.refs[n] != s.refs[n])|
      && forall n :: n in s.refs && prefix <= n ==> n in d'.refs && d'.refs[n] == s.refs[n]
  {
    forall n
      ensures n in d.refs && !(prefix <= n) ==> n in d'.refs && d'.refs[n] == d.refs[n]
      ensures n in d'.refs && n !in d.refs ==> prefix <= n && n in s.refs && d'.refs[n] == s.refs[n]
    {
      if !(prefix <= n) {
        assert Untouched(d, d', n);
      } else if n in d'.refs && n !in d.refs {
        assert Unmoved(d, d', n) || Moved(s, d', n);
      }
    }
    assert (set n | n in s.refs && prefix <= n && (n !in d.refs || d.refs[n] != s.refs[n]))
      == Differing(s.refs, d.refs, prefix);
    if r.Ok? && !policy.Custom? {
      forall n | n in s.refs && prefix <= n
        ensures n in d'.refs && d'.refs[n] == s.refs[n]
      {
        assert n !in Differing(s.refs, d'.refs, prefix);
      }
    }
  }

  lemma EachAlone(policy: RefConflict, prefix: string, s: State, d: State)
    ensures AllSync(policy, s, d, Matching(s, prefix)) <==>
      forall n :: n in s.refs && prefix <= n ==> CanSync(policy, s, d, n)
  {
    assert forall n :: n in Matching(s, prefix) <==> n in s.refs && prefix <= n;
  }

  /** When one ref of the source syncs alone, policy by policy. */
  lemma CanSyncByPolicy(policy: RefConflict, s: State, d: State, n: string)
    requires n in s.refs
    ensures policy.Overwrite? ==>
      (CanSync(policy, s, d, n) <==> (n in d.refs && d.refs[n] == s.refs[n]) || WholeAt(s.objects, s.refs[n]))
    ensures policy.Reject? ==>
      (CanSync(policy, s, d, n) <==> if n in d.refs then d.refs[n] == s.refs[n] else WholeAt(s.objects, s.refs[n]))
    ensures policy.FastForwardOnly? ==>
      (CanSync(policy, s, d, n) <==>
        if n in d.refs then
          d.refs[n] == s.refs[n]
          || (WholeAt(s.objects, s.refs[n])
              && CommonAncestorFrom(Received(s.objects, d.objects, s.refs[n]), s.refs[n], d.refs[n])
                == Ok(Some(d.refs[n])))
        else WholeAt(s.objects, s.refs[n]))
  {
  }

  lemma SyncStops(policy: RefConflict, prefix: string, s: State, d: State, d1: State, d': State, names: set<string>,
      count: nat, name: string, e: Error)
    requires Syncing(policy, prefix, s, d, d1, names, count) && name in names && Agree(s.objects, d.objects)
    requires Kept(policy, s, d1, d') && d'.refs == d1.refs && !CanSync(policy, s, d1, name)
    ensures Synced(policy, prefix, s, d, d', Err(e)) && ByPolicy(policy, prefix, s, d, d', Err(e))
  {
    KeptTransitive(policy, s, d, d1, d');
    ElsewhereNext(prefix, s.refs, d, d1, d', name);
    if Differing(s.refs, d.refs, prefix) == {} {
      NoneDiffers(policy, prefix, s, d, name);
    }
    if Steady(policy, d) {
      SyncsSteadily(policy, s, d, d1, name);
      assert name in Matching(s, prefix);
    }
    SyncedByPolicy(policy, prefix, s, d, d', Err(e));
  }

  lemma SyncGoesOn(policy: RefConflict, prefix: string, s: State, d: State, d1: State, d': State, names: set<string>,
      count: nat, name: string, moved: bool)
    requires Syncing(policy, prefix, s, d, d1, names, count) && name in names && Agree(s.objects, d.objects)
    requires Kept(policy, s, d1, d') && CanSync(policy, s, d1, name)
    requires if moved then d'.refs == d1.refs[name := s.refs[name]] != d1.refs else d'.refs == d1.refs
    requires !moved && !policy.Custom? ==> Same(s, d1, name)
    requires Same(s, d1, name) ==> !moved && d' == d1
    ensures Syncing(policy, prefix, s, d, d', names - {name}, if moved then count + 1 else count)
  {
    KeptTransitive(policy, s, d, d1, d');
    ElsewhereNext(prefix, s.refs, d, d1, d', name);
    if moved {
      DifferingNext(s.refs, d1.refs, d'.refs, prefix, name);
    }
    if !policy.Custom? {
      SyncedNow(policy, prefix, s, d1.refs, d'.refs, names, name);
    }
    if Differing(s.refs, d.refs, prefix) == {} {
      assert name !in Differing(s.refs, d.refs, prefix);
    }
    if Steady(policy, d) {
      SyncsSteadily(policy, s, d, d1, name);
    }
  }

  lemma SyncDone(policy: RefConflict, prefix: string, s: State, d: State, d': State, count: nat)
    requires Syncing(policy, prefix, s, d, d', {}, count)
    ensures Synced(policy, prefix, s, d, d', Ok(count)) && ByPolicy(policy, prefix, s, d, d', Ok(count))
  {
    assert Matching(s, prefix) - {} == Matching(s, prefix);
    SyncedByPolicy(policy, prefix, s, d, d', Ok(count));
  }

  /** Syncs every source ref under a prefix; says how many moved. */
  method SyncRefs(src: ObjectStore, srcRefs: RefStore, dst: ObjectStore, dstRefs: RefStore, prefix: string,
      policy: RefConflict)
    returns (r: Result<nat, Error>)
    requires Agree(src.objects, dst.objects)
    modifies dst, dstRefs
    ensures src.objects == old(src.objects) && srcRefs.refs == old(srcRefs.refs)
    ensures Synced(policy, prefix, State(src.objects, srcRefs.refs), old(State(dst.objects, dstRefs.refs)),
      State(dst.objects, dstRefs.refs), r)
    ensures ByPolicy(policy, prefix, State(src.objects, srcRefs.refs), old(State(dst.objects, dstRefs.refs)),
      State(dst.objects, dstRefs.refs), r)
  {
    ghost var s, d := State(src.objects, srcRefs.refs), State(dst.objects, dstRefs.refs);
    KeptReflexive(policy, s, d);
    var names := set n | n in srcRefs.refs && prefix <= n;
    var count := 0;
    while names != {}
      invariant s == State(src.objects, srcRefs.refs)
      invariant Syncing(policy, prefix, s, d, State(dst.objects, dstRefs.refs), names, count)
      decreases names
    {
      var name :| name in names;
      ghost var d1 := State(dst.objects, dstRefs.refs);
      var updated := SyncRef(src, srcRefs, dst, dstRefs, name, policy);
      if updated.Err? {
        SyncStops(policy, prefix, s, d, d1, State(dst.objects, dstRefs.refs), names, count, name, updated.error);
        return Err(updated.error);
      }
      SyncGoesOn(policy, prefix, s, d, d1, State(dst.objects, dstRefs.refs), names, count, name, updated.value);
      count := if updated.value then count + 1 else count;
      names := names - {name};
    }
    SyncDone(policy, prefix, s, d, State(dst.objects, dstRefs.refs), count);
    return Ok(count);
  }
}
