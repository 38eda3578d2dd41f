/** Three-way merge of elements and documents in the store, and its agreement with the merge
    of the trees they stand for. */
module StoreMerge {
  import opened Wrappers
  import opened Objects
  import opened Sequences
  import opened ThreeWay
  import opened Content
  import opened ChildKeys
  import opened AttributeMerge
  import opened ElementMerge
  import opened Store
  import opened Export

  /** The known trees include what merging them yields, and none carries two ids. */
  ghost predicate MergeClosed(hx: Hashing) {
    && (forall n :: hx.known(n) ==> OneId(n))
    && (forall a, o, t :: hx.known(a) && hx.known(o) && hx.known(t) && Merge(a, o, t).Some? ==>
      hx.known(Merge(a, o, t).value))
  }

  ghost predicate NamesOption(hx: Hashing, h: Option<Hash>, n: Option<Node>) {
    if h.Some? && n.Some? then Names(hx, h.value, n.value) else h.None? && n.None?
  }

  function HashOf(hx: Hashing, n: Option<Node>): Option<Hash> {
    if n.Some? then Some(hx.node(n.value)) else None
  }

  function HashOutcome(hx: Hashing, m: Merged<Node>): Merged<Hash> {
    if m.Conflict? then Conflict else Resolved(HashOf(hx, m.value))
  }

  // ----- Stored children and the children of the tree

  lemma {:induction false} CollectHashes(hx: Hashing, ks: seq<ChildKey>, ns: seq<Node>, k: ChildKey)
    requires |ks| == |ns|
    ensures Lookup(Collect(Pair(ks, NodeHashes(hx, ns))), k) == HashOf(hx, Lookup(Collect(Pair(ks, ns)), k))
  {
    if ks != [] {
      CollectHashes(hx, Front(ks), Front(ns), k);
      assert NodeHashes(hx, ns) == NodeHashes(hx, Front(ns)) + [hx.node(Last(ns))];
      var p, q := Pair(ks, NodeHashes(hx, ns)), Pair(ks, ns);
      assert p[..|p| - 1] == Pair(Front(ks), NodeHashes(hx, Front(ns)));
      assert q[..|q| - 1] == Pair(Front(ks), Front(ns));
    }
  }

  /** The keyed children of a stored element are those of the tree it is the top of. */
  lemma KeyedChildren(hx: Hashing, s: Objects, o: Object, n: Node)
    requires CollisionFree(hx) && MergeClosed(hx) && Addressed(hx, s)
    requires n.ElementNode? && hx.known(n) && Describes(hx, o, n)
    requires forall h :: h in o.children ==> h in s
    ensures StoredKeyed(s, o.children) == Pair(Keys(n.children), NodeHashes(hx, n.children))
  {
    forall i | 0 <= i < |n.children|
      ensures StoredKind(s, o.children[i]) == NodeKind(n.children[i])
    {
      assert n.children[i] in n.children && o.children[i] in o.children;
      FoundDescribes(hx, s, o.children[i], n.children[i]);
      KindAgrees(hx, s[o.children[i]], n.children[i]);
    }
    assert StoredKinds(s, o.children) == KindsOf(n.children);
  }

  lemma ChildHash(hx: Hashing, n: Node, k: ChildKey)
    requires CollisionFree(hx) && n.ElementNode? && hx.known(n)
    ensures NamesOption(hx, Lookup(Collect(Pair(Keys(n.children), NodeHashes(hx, n.children))), k), Child(n, k))
  {
    CollectHashes(hx, Keys(n.children), n.children, k);
  }

  /** Over known trees, hashes agree exactly when trees do. */
  lemma Diff3Hashes(hx: Hashing, a: Option<Hash>, o: Option<Hash>, t: Option<Hash>, na: Option<Node>, no: Option<Node>,
      nt: Option<Node>)
    requires CollisionFree(hx) && NamesOption(hx, a, na) && NamesOption(hx, o, no) && NamesOption(hx, t, nt)
    ensures Diff3(a, o, t) == HashOutcome(hx, Diff3(na, no, nt))
    ensures (o == t <==> no == nt) && (o == a <==> no == na) && (t == a <==> nt == na)
  {
  }

  // ----- The merge of one key

  /** The three children of a key, and the tree children they stand for. */
  ghost predicate Stands(hx: Hashing, a: Option<Hash>, o: Option<Hash>, t: Option<Hash>, na: Node, no: Node, nt: Node,
      k: ChildKey)
  {
    && na.ElementNode? && no.ElementNode? && nt.ElementNode?
    && NamesOption(hx, a, Child(na, k)) && NamesOption(hx, o, Child(no, k)) && NamesOption(hx, t, Child(nt, k))
  }

  ghost predicate AllWhole(hx: Hashing, s: Objects, na: Node, no: Node, nt: Node) {
    Whole(hx, s, na) && Whole(hx, s, no) && Whole(hx, s, nt)
  }

  /** What an interrupted operation may leave: everything kept, everything addressed. */
  ghost predicate Safe(hx: Hashing, s: Objects, s': Objects) {
    Addressed(hx, s') && Preserves(s, s')
  }

  /** The merge of the trees named by a, o and t, as a hash. */
  ghost predicate Agrees(hx: Hashing, a: Hash, o: Hash, t: Hash, r: Option<Hash>) {
    forall na, no, nt :: Names(hx, a, na) && Names(hx, o, no) && Names(hx, t, nt) ==> r == HashOf(hx, Merge(na, no, nt))
  }

  /** Given all of the trees, the merge is complete in the store. */
  ghost predicate Completes(hx: Hashing, s: Objects, s': Objects, a: Hash, o: Hash, t: Hash, ok: bool) {
    forall na, no, nt :: Names(hx, a, na) && Names(hx, o, no) && Names(hx, t, nt) && AllWhole(hx, s, na, no, nt) ==>
      ok && (Merge(na, no, nt).Some? ==> Whole(hx, s', Merge(na, no, nt).value))
  }

  /** What the three-way rule settles is a child of one of the sides. */
  lemma FlatOutcome(hx: Hashing, s: Objects, na: Node, no: Node, nt: Node, k: ChildKey)
    requires na.ElementNode? && no.ElementNode? && nt.ElementNode?
    requires Diff3(Child(na, k), Child(no, k), Child(nt, k)).Resolved?
    ensures Outcome(na, no, nt)(k) == Diff3(Child(na, k), Child(no, k), Child(nt, k))
    ensures AllWhole(hx, s, na, no, nt) && Holds(Outcome(na, no, nt)(k)) ==>
      Whole(hx, s, Outcome(na, no, nt)(k).value.value)
  {
    OutcomeFlat(na, no, nt, k);
  }

  function Verdict(merged: Option<Hash>): Merged<Hash> {
    if merged.Some? then Resolved(merged) else Conflict
  }

  /** Where both sides changed a child, the merge of its three versions decides. */
  lemma DeepOutcome(hx: Hashing, s: Objects, s': Objects, a: Hash, o: Hash, t: Hash, na: Node, no: Node, nt: Node,
      k: ChildKey, r: Result<Option<Hash>, Error>)
    requires CollisionFree(hx) && Stands(hx, Some(a), Some(o), Some(t), na, no, nt, k)
    requires Diff3(Child(na, k), Child(no, k), Child(nt, k)).Conflict?
    requires (r.Ok? ==> Agrees(hx, a, o, t, r.value)) && Completes(hx, s, s', a, o, t, r.Ok?)
    ensures r.Ok? ==> Verdict(r.value) == HashOutcome(hx, Outcome(na, no, nt)(k))
    ensures AllWhole(hx, s, na, no, nt) ==>
              r.Ok? && (Holds(Outcome(na, no, nt)(k)) ==> Whole(hx, s', Outcome(na, no, nt)(k).value.value))
  {
    OutcomeDeep(na, no, nt, k);
    var f, ac, oc, tc := Outcome(na, no, nt)(k), Child(na, k).value, Child(no, k).value, Child(nt, k).value;
    assert Names(hx, a, ac) && Names(hx, o, oc) && Names(hx, t, tc);
    assert AllWhole(hx, s, na, no, nt) ==> AllWhole(hx, s, ac, oc, tc);
  }

  lemma ChildSmaller(hx: Hashing, a: Hash, na: Node, k: ChildKey)
    requires CollisionFree(hx) && na.ElementNode? && NamesOption(hx, Some(a), Child(na, k))
    ensures NamedBy(hx, a) in na.children
  {
    NamesOnce(hx, a, Child(na, k).value, NamedBy(hx, a));
  }

  /** The merge of the children under a key: a missing object, or the tree outcome as a hash;
      given all of the trees, the latter, complete in the store. */
  ghost predicate KeyMerged(hx: Hashing, s: Objects, s': Objects, na: Node, no: Node, nt: Node, k: ChildKey,
      r: Result<Merged<Hash>, Error>)
    requires na.ElementNode? && no.ElementNode? && nt.ElementNode?
  {
    && Safe(hx, s, s')
    && (r.Err? ==> Missing(s, r.error))
    && (r.Ok? ==> r.value == HashOutcome(hx, Outcome(na, no, nt)(k)))
    && (AllWhole(hx, s, na, no, nt) ==>
          r.Ok? && (Holds(Outcome(na, no, nt)(k)) ==> Whole(hx, s', Outcome(na, no, nt)(k).value.value)))
  }

  method MergeKey(store: ObjectStore, hx: Hashing, a: Option<Hash>, o: Option<Hash>, t: Option<Hash>,
      ghost na: Node, ghost no: Node, ghost nt: Node, ghost k: ChildKey)
    returns (r: Result<Merged<Hash>, Error>)
    requires CollisionFree(hx) && MergeClosed(hx) && Addressed(hx, store.objects)
    requires Stands(hx, a, o, t, na, no, nt, k)
    modifies store
    ensures KeyMerged(hx, old(store.objects), store.objects, na, no, nt, k, r)
    decreases na, 0
  {
    Diff3Hashes(hx, a, o, t, Child(na, k), Child(no, k), Child(nt, k));
    var flat := MergeCases(a, o, t);
    if flat.Resolved? {
      FlatOutcome(hx, store.objects, na, no, nt, k);
      return Ok(flat);
    }
    if a.None? || o.None? || t.None? {
      OutcomeDeep(na, no, nt, k);
      return Ok(Conflict);
    }
    ChildSmaller(hx, a.value, na, k);
    var merged := MergeElements(store, hx, a.value, o.value, t.value);
    DeepOutcome(hx, old(store.objects), store.objects, a.value, o.value, t.value, na, no, nt, k, merged);
    return if merged.Err? then Err(merged.error) else Ok(Verdict(merged.value));
  }

  // ----- The merge of all keys

  /** The merged children are in the store under the given hashes. */
  ghost predicate Gathered(hx: Hashing, s: Objects, whole: bool, ks: seq<ChildKey>, f: ChildKey -> Merged<Node>,
      hs: seq<Hash>)
  {
    && Gather(ks, f).Some?
    && hs == NodeHashes(hx, Gather(ks, f).value)
    && (whole ==> forall n :: n in Gather(ks, f).value ==> Whole(hx, s, n))
  }

  lemma GatheredNext(hx: Hashing, s: Objects, s': Objects, whole: bool, ks: seq<ChildKey>, f: ChildKey -> Merged<Node>,
      hs: seq<Hash>, k: ChildKey)
    requires Gathered(hx, s, whole, ks, f, hs) && s.Keys <= s'.Keys && f(k).Resolved?
    requires whole && Holds(f(k)) ==> Whole(hx, s', f(k).value.value)
    ensures Gathered(hx, s', whole, ks + [k], f, hs + if f(k).value.Some? then [hx.node(f(k).value.value)] else [])
  {
    assert Front(ks + [k]) == ks;
    var more := if f(k).value.Some? then [f(k).value.value] else [];
    assert Gather(ks + [k], f) == Some(Gather(ks, f).value + more);
    forall n | n in Gather(ks, f).value + more && whole
      ensures Whole(hx, s', n)
    {
      if n in Gather(ks, f).value {
        WholeStays(hx, s, s', n);
      }
    }
  }

  /** The tables the merge looks keys up in. */
  ghost predicate Table(hx: Hashing, m: map<ChildKey, Hash>, n: Node) {
    n.ElementNode? && hx.known(n) && m == Collect(Pair(Keys(n.children), NodeHashes(hx, n.children)))
  }

  lemma TableStands(hx: Hashing, ma: map<ChildKey, Hash>, mo: map<ChildKey, Hash>, mt: map<ChildKey, Hash>,
      na: Node, no: Node, nt: Node, k: ChildKey)
    requires CollisionFree(hx) && Table(hx, ma, na) && Table(hx, mo, no) && Table(hx, mt, nt)
    ensures Stands(hx, Lookup(ma, k), Lookup(mo, k), Lookup(mt, k), na, no, nt, k)
  {
    ChildHash(hx, na, k);
    ChildHash(hx, no, k);
    ChildHash(hx, nt, k);
  }

  lemma ConflictStops(na: Node, no: Node, nt: Node, k: ChildKey)
    requires na.ElementNode? && no.ElementNode? && nt.ElementNode?
    requires HasKey(no, k) || HasKey(nt, k)
    requires Outcome(na, no, nt)(k).Conflict?
    ensures Gather(KeyOrder(no, nt), Outcome(na, no, nt)).None?
  {
    KeyOrderMeaning(no, nt);
    GatherSucceeds(KeyOrder(no, nt), Outcome(na, no, nt));
  }

  lemma StillWhole(hx: Hashing, s: Objects, s': Objects, na: Node, no: Node, nt: Node)
    requires s.Keys <= s'.Keys
    ensures AllWhole(hx, s, na, no, nt) ==> AllWhole(hx, s', na, no, nt)
  {
    if AllWhole(hx, s, na, no, nt) {
      WholeStays(hx, s, s', na);
      WholeStays(hx, s, s', no);
      WholeStays(hx, s, s', nt);
    }
  }

  /** The tables stand for the children of the three trees, all of them complete in the
      store s0 the merge started from if `whole`. */
  ghost predicate Setting(hx: Hashing, s0: Objects, whole: bool, ma: map<ChildKey, Hash>, mo: map<ChildKey, Hash>,
      mt: map<ChildKey, Hash>, na: Node, no: Node, nt: Node)
  {
    && CollisionFree(hx) && MergeClosed(hx)
    && Table(hx, ma, na) && Table(hx, mo, no) && Table(hx, mt, nt)
    && (whole ==> AllWhole(hx, s0, na, no, nt))
  }

  /** What a merge of the keys ks, begun in s0, comes to in s: a missing object, a conflict, or
      the hashes of the merged children. */
  ghost predicate Came(hx: Hashing, s0: Objects, s: Objects, whole: bool, ks: seq<ChildKey>, na: Node, no: Node,
      nt: Node, r: Result<Option<seq<Hash>>, Error>)
    requires na.ElementNode? && no.ElementNode? && nt.ElementNode?
  {
    && Safe(hx, s0, s)
    && if r.Err? then !whole && Missing(s0, r.error)
       else if r.value.None? then Gather(KeyOrder(no, nt), Outcome(na, no, nt)).None?
       else Gathered(hx, s, whole, ks, Outcome(na, no, nt), r.value.value)
  }

  function Appended(merged: seq<Hash>, outcome: Result<Merged<Hash>, Error>): Result<Option<seq<Hash>>, Error> {
    if outcome.Err? then Err(outcome.error)
    else if outcome.value.Conflict? then Ok(None)
    else Ok(Some(merged + if outcome.value.value.Some? then [outcome.value.value.value] else []))
  }

  lemma CameNext(hx: Hashing, s0: Objects, s: Objects, s': Objects, whole: bool, ks: seq<ChildKey>, key: ChildKey,
      na: Node, no: Node, nt: Node, merged: seq<Hash>, outcome: Result<Merged<Hash>, Error>)
    requires na.ElementNode? && no.ElementNode? && nt.ElementNode? && (HasKey(no, key) || HasKey(nt, key))
    requires (whole ==> AllWhole(hx, s0, na, no, nt)) && Came(hx, s0, s, whole, ks, na, no, nt, Ok(Some(merged)))
    requires KeyMerged(hx, s, s', na, no, nt, key, outcome)
    ensures Came(hx, s0, s', whole, ks + [key], na, no, nt, Appended(merged, outcome))
  {
    PreservesTransitive(s0, s, s');
    StillWhole(hx, s0, s, na, no, nt);
    if outcome.Ok? {
      if outcome.value.Conflict? {
        ConflictStops(na, no, nt, key);
      } else {
        GatheredNext(hx, s, s', whole, ks, Outcome(na, no, nt), merged, key);
      }
    }
  }

  /** Merges one more key, after the keys ks, and appends what it holds. */
  method MergeNext(store: ObjectStore, hx: Hashing, key: ChildKey, merged: seq<Hash>,
      ma: map<ChildKey, Hash>, mo: map<ChildKey, Hash>, mt: map<ChildKey, Hash>,
      ghost na: Node, ghost no: Node, ghost nt: Node, ghost ks: seq<ChildKey>, ghost s0: Objects, ghost whole: bool)
    returns (r: Result<Option<seq<Hash>>, Error>)
    requires Setting(hx, s0, whole, ma, mo, mt, na, no, nt) && (HasKey(no, key) || HasKey(nt, key))
    requires Came(hx, s0, store.objects, whole, ks, na, no, nt, Ok(Some(merged)))
    modifies store
    ensures Came(hx, s0, store.objects, whole, ks + [key], na, no, nt, r)
    decreases na, 1
  {
    ghost var before := store.objects;
    TableStands(hx, ma, mo, mt, na, no, nt, key);
    var outcome := MergeKey(store, hx, Lookup(ma, key), Lookup(mo, key), Lookup(mt, key), na, no, nt, key);
    CameNext(hx, s0, before, store.objects, whole, ks, key, na, no, nt, merged, outcome);
    return Appended(merged, outcome);
  }

  method OursNext(store: ObjectStore, hx: Hashing, key: ChildKey, merged: seq<Hash>,
      ma: map<ChildKey, Hash>, mo: map<ChildKey, Hash>, mt: map<ChildKey, Hash>,
      ghost na: Node, ghost no: Node, ghost nt: Node, ghost i: nat, ghost s0: Objects, ghost whole: bool)
    returns (r: Result<Option<seq<Hash>>, Error>)
    requires Setting(hx, s0, whole, ma, mo, mt, na, no, nt)
    requires i < |no.children| && key == Keys(no.children)[i]
    requires Came(hx, s0, store.objects, whole, Keys(no.children)[..i], na, no, nt, Ok(Some(merged)))
    modifies store
    ensures Came(hx, s0, store.objects, whole, Keys(no.children)[..i + 1], na, no, nt, r)
    decreases na, 2
  {
    TakeNext(Keys(no.children), i);
    r := MergeNext(store, hx, key, merged, ma, mo, mt, na, no, nt, Keys(no.children)[..i], s0, whole);
  }

  method MergeOurs(store: ObjectStore, hx: Hashing, ours: seq<ChildKey>,
      ma: map<ChildKey, Hash>, mo: map<ChildKey, Hash>, mt: map<ChildKey, Hash>,
      ghost na: Node, ghost no: Node, ghost nt: Node, ghost s0: Objects, ghost whole: bool)
    returns (r: Result<Option<seq<Hash>>, Error>)
    requires Setting(hx, s0, whole, ma, mo, mt, na, no, nt) && Safe(hx, s0, store.objects)
    requires ours == Keys(no.children)
    modifies store
    ensures Came(hx, s0, store.objects, whole, Keys(no.children)[..|ours|], na, no, nt, r)
    decreases na, 3
  {
    var merged: seq<Hash> := [];
    var i := 0;
    while i < |ours|
      invariant 0 <= i <= |ours|
      invariant Came(hx, s0, store.objects, whole, Keys(no.children)[..i], na, no, nt, Ok(Some(merged)))
    {
      var next := OursNext(store, hx, ours[i], merged, ma, mo, mt, na, no, nt, i, s0, whole);
      if next.Err? || next.value.None? {
        return next;
      }
      merged := next.value.value;
      i := i + 1;
    }
    return Ok(Some(merged));
  }

  lemma UnmatchedNext(ours: seq<ChildKey>, theirs: seq<ChildKey>, j: nat)
    requires j < |theirs|
    ensures var ks := ours + Unmatched(theirs[..j], ours);
      ours + Unmatched(theirs[..j + 1], ours) == if theirs[j] in ours then ks else ks + [theirs[j]]
  {
    var more, u := theirs[..j + 1], Unmatched(theirs[..j], ours);
    assert Front(more) == theirs[..j] && Last(more) == theirs[j];
    if theirs[j] in ours {
      assert Unmatched(more, ours) == u;
    } else {
      assert Unmatched(more, ours) == u + [theirs[j]];
      assert ours + (u + [theirs[j]]) == ours + u + [theirs[j]];
    }
  }

  /** The keys merged once ours and the first j of theirs are. */
  ghost function DoneKeys(no: Node, nt: Node, j: nat): seq<ChildKey>
    requires no.ElementNode? && nt.ElementNode? && j <= |nt.children|
  {
    Keys(no.children) + Unmatched(Keys(nt.children)[..j], Keys(no.children))
  }

  ghost predicate Processed(processed: set<ChildKey>, no: Node)
    requires no.ElementNode?
  {
    forall k :: k in processed <==> k in Keys(no.children)
  }

  method AppendNext(store: ObjectStore, hx: Hashing, key: ChildKey, processed: set<ChildKey>, merged: seq<Hash>,
      ma: map<ChildKey, Hash>, mo: map<ChildKey, Hash>, mt: map<ChildKey, Hash>,
      ghost na: Node, ghost no: Node, ghost nt: Node, ghost j: nat, ghost s0: Objects, ghost whole: bool)
    returns (r: Result<Option<seq<Hash>>, Error>)
    requires Setting(hx, s0, whole, ma, mo, mt, na, no, nt)
    requires j < |nt.children| && key == Keys(nt.children)[j]
    requires Processed(processed, no)
    requires Came(hx, s0, store.objects, whole, DoneKeys(no, nt, j), na, no, nt, Ok(Some(merged)))
    modifies store
    ensures Came(hx, s0, store.objects, whole, DoneKeys(no, nt, j + 1), na, no, nt, r)
    decreases na, 2
  {
    UnmatchedNext(Keys(no.children), Keys(nt.children), j);
    if key in processed {
      return Ok(Some(merged));
    }
    r := MergeNext(store, hx, key, merged, ma, mo, mt, na, no, nt, DoneKeys(no, nt, j), s0, whole);
  }

  method AppendTheirs(store: ObjectStore, hx: Hashing, theirs: seq<ChildKey>, processed: set<ChildKey>,
      before: seq<Hash>, ma: map<ChildKey, Hash>, mo: map<ChildKey, Hash>, mt: map<ChildKey, Hash>,
      ghost na: Node, ghost no: Node, ghost nt: Node, ghost s0: Objects, ghost whole: bool)
    returns (r: Result<Option<seq<Hash>>, Error>)
    requires Setting(hx, s0, whole, ma, mo, mt, na, no, nt)
    requires theirs == Keys(nt.children)
    requires Processed(processed, no)
    requires Came(hx, s0, store.objects, whole, DoneKeys(no, nt, 0), na, no, nt, Ok(Some(before)))
    modifies store
    ensures Came(hx, s0, store.objects, whole, DoneKeys(no, nt, |theirs|), na, no, nt, r)
    decreases na, 3
  {
    var merged := before;
    var j := 0;
    while j < |theirs|
      invariant 0 <= j <= |theirs|
      invariant Came(hx, s0, store.objects, whole, DoneKeys(no, nt, j), na, no, nt, Ok(Some(merged)))
    {
      var next := AppendNext(store, hx, theirs[j], processed, merged, ma, mo, mt, na, no, nt, j, s0, whole);
      if next.Err? || next.value.None? {
        return next;
      }
      merged := next.value.value;
      j := j + 1;
    }
    return Ok(Some(merged));
  }

  lemma DoneAll(no: Node, nt: Node)
    requires no.ElementNode? && nt.ElementNode?
    ensures Keys(no.children)[..|no.children|] == Keys(no.children) == DoneKeys(no, nt, 0)
    ensures DoneKeys(no, nt, |nt.children|) == KeyOrder(no, nt)
  {
    WholeSlice(Keys(no.children));
    WholeSlice(Keys(nt.children));
    assert Unmatched(Keys(nt.children)[..0], Keys(no.children)) == [];
  }

  lemma WholeSlice<T>(xs: seq<T>)
    ensures xs[..|xs|] == xs && xs + [] == xs
  {
  }

  /** Merges all keys: ours in order, then those of theirs that ours lack. */
  method MergeChildren(store: ObjectStore, hx: Hashing, ours: seq<ChildKey>, theirs: seq<ChildKey>,
      ma: map<ChildKey, Hash>, mo: map<ChildKey, Hash>, mt: map<ChildKey, Hash>,
      ghost na: Node, ghost no: Node, ghost nt: Node, ghost whole: bool)
    returns (r: Result<Option<seq<Hash>>, Error>)
    requires Setting(hx, store.objects, whole, ma, mo, mt, na, no, nt) && Addressed(hx, store.objects)
    requires ours == Keys(no.children) && theirs == Keys(nt.children)
    modifies store
    ensures Came(hx, old(store.objects), store.objects, whole, KeyOrder(no, nt), na, no, nt, r)
    decreases na, 4
  {
    ghost var s0 := store.objects;
    var merged := MergeOurs(store, hx, ours, ma, mo, mt, na, no, nt, s0, whole);
    if merged.Err? || merged.value.None? {
      return merged;
    }
    var processed := set k | k in ours;
    DoneAll(no, nt);
    r := AppendTheirs(store, hx, theirs, processed, merged.value.value, ma, mo, mt, na, no, nt, s0, whole);
  }

  // ----- The merge of an element

  /** Rebuilds the trees of the merged children, to hash the element they form. */
  method BuildChildren(hx: Hashing, s: Objects, hashes: seq<Hash>, ghost trees: seq<Node>)
    returns (r: Result<seq<Node>, Error>)
    requires CollisionFree(hx) && Addressed(hx, s)
    requires hashes == NodeHashes(hx, trees) && forall n :: n in trees ==> hx.known(n)
    ensures r.Ok? ==> r.value == trees && forall n :: n in trees ==> Whole(hx, s, n)
    ensures r.Err? ==> Missing(s, r.error)
    ensures (forall n :: n in trees ==> Whole(hx, s, n)) ==> r.Ok?
  {
    var built: seq<Node> := [];
    var i := 0;
    while i < |hashes|
      invariant 0 <= i <= |hashes|
      invariant built == trees[..i]
      invariant forall j :: 0 <= j < i ==> Whole(hx, s, trees[j])
    {
      assert trees[i] in trees && Names(hx, hashes[i], trees[i]);
      var child := BuildNode(hx, s, hashes[i]);
      if child.Err? {
        if hashes[i] in s {
          FoundDescribes(hx, s, hashes[i], trees[i]);
        }
        return Err(child.error);
      }
      NamesOnce(hx, hashes[i], trees[i], child.value);
      TakeNext(trees, i);
      built := built + [child.value];
      i := i + 1;
    }
    return Ok(built);
  }

  lemma {:induction false} GatheredKnown(hx: Hashing, ks: seq<ChildKey>, na: Node, no: Node, nt: Node)
    requires CollisionFree(hx) && MergeClosed(hx) && hx.known(na) && hx.known(no) && hx.known(nt)
    requires na.ElementNode? && no.ElementNode? && nt.ElementNode?
    requires Gather(ks, Outcome(na, no, nt)).Some?
    ensures forall n :: n in Gather(ks, Outcome(na, no, nt)).value ==> hx.known(n)
  {
    if ks != [] {
      GatheredKnown(hx, Front(ks), na, no, nt);
      OutcomeKnown(hx, Last(ks), na, no, nt);
    }
  }

  lemma OutcomeKnown(hx: Hashing, k: ChildKey, na: Node, no: Node, nt: Node)
    requires CollisionFree(hx) && MergeClosed(hx) && hx.known(na) && hx.known(no) && hx.known(nt)
    requires na.ElementNode? && no.ElementNode? && nt.ElementNode?
    ensures Holds(Outcome(na, no, nt)(k)) ==> hx.known(Outcome(na, no, nt)(k).value.value)
  {
    if Diff3(Child(na, k), Child(no, k), Child(nt, k)).Resolved? {
      OutcomeFlat(na, no, nt, k);
    } else {
      OutcomeDeep(na, no, nt, k);
    }
  }

  /** The three elements being merged, as objects and as trees. */
  ghost predicate Loaded(hx: Hashing, s: Objects, h: Hash, n: Node) {
    h in s && s[h].Element? && n.ElementNode? && Names(hx, h, n) && Describes(hx, s[h], n)
  }

  /** What is left once the trees are known: names, attributes, children, the new object. */
  method MergeLoaded(store: ObjectStore, hx: Hashing, a: Hash, o: Hash, t: Hash, ghost na: Node, ghost no: Node,
      ghost nt: Node)
    returns (r: Result<Option<Hash>, Error>)
    requires CollisionFree(hx) && MergeClosed(hx) && Addressed(hx, store.objects)
    requires Loaded(hx, store.objects, a, na) && Loaded(hx, store.objects, o, no) && Loaded(hx, store.objects, t, nt)
    requires Diverged(na, no, nt)
    modifies store
    ensures Safe(hx, old(store.objects), store.objects)
    ensures r.Err? ==> Missing(old(store.objects), r.error)
    ensures r.Ok? ==> r.value == HashOf(hx, Merge(na, no, nt))
    ensures AllWhole(hx, old(store.objects), na, no, nt) ==>
              r.Ok? && (Merge(na, no, nt).Some? ==> Whole(hx, store.objects, Merge(na, no, nt).value))
    decreases na, 5
  {
    var anc, our, their := store.objects[a], store.objects[o], store.objects[t];
    if anc.localName != our.localName || anc.localName != their.localName
      || anc.namespaceUri != our.namespaceUri || anc.namespaceUri != their.namespaceUri {
      return Ok(None);
    }
    var attributes := MergeAttributes(anc.attributes, our.attributes, their.attributes);
    if attributes.None? {
      return Ok(None);
    }
    var ancKeyed := KeyStored(hx, store.objects, anc, na);
    if ancKeyed.Err? {
      return Err(ancKeyed.error);
    }
    var ourKeyed := KeyStored(hx, store.objects, our, no);
    if ourKeyed.Err? {
      return Err(ourKeyed.error);
    }
    var theirKeyed := KeyStored(hx, store.objects, their, nt);
    if theirKeyed.Err? {
      return Err(theirKeyed.error);
    }
    ghost var s0, whole := store.objects, AllWhole(hx, store.objects, na, no, nt);
    var merged := MergeChildren(store, hx, ourKeyed.value.0, theirKeyed.value.0,
                                ancKeyed.value.1, ourKeyed.value.1, theirKeyed.value.1, na, no, nt, whole);
    if merged.Err? {
      return Err(merged.error);
    }
    if merged.value.None? {
      return Ok(None);
    }
    r := StoreMerged(store, hx, our, attributes.value, merged.value.value, na, no, nt, s0, whole);
  }

  /** Reads the keys of an element's children and the table of the children by key. */
  method KeyStored(hx: Hashing, s: Objects, o: Object, ghost n: Node)
    returns (r: Result<(seq<ChildKey>, map<ChildKey, Hash>), Error>)
    requires CollisionFree(hx) && MergeClosed(hx) && Addressed(hx, s)
    requires o.Element? && n.ElementNode? && hx.known(n) && Describes(hx, o, n)
    ensures r.Ok? ==> r.value.0 == Keys(n.children) && Table(hx, r.value.1, n)
    ensures r.Err? ==> Missing(s, r.error)
    ensures Whole(hx, s, n) ==> r.Ok?
  {
    var keyed := KeyChildren(s, o.children);
    if keyed.Err? {
      if Whole(hx, s, n) {
        WholeChildren(hx, s, o, n);
      }
      return Err(keyed.error);
    }
    KeyedChildren(hx, s, o, n);
    PairKeys(Keys(n.children), NodeHashes(hx, n.children));
    return Ok((KeysIn(keyed.value), Collect(keyed.value)));
  }

  function KeysIn<T>(keyed: seq<(ChildKey, T)>): seq<ChildKey> {
    seq(|keyed|, i requires 0 <= i < |keyed| => keyed[i].0)
  }

  lemma PairKeys<T>(ks: seq<ChildKey>, xs: seq<T>)
    requires |ks| == |xs|
    ensures KeysIn(Pair(ks, xs)) == ks
  {
  }

  /** A complete tree has its children in the store. */
  lemma WholeChildren(hx: Hashing, s: Objects, o: Object, n: Node)
    requires n.ElementNode? && Describes(hx, o, n) && Whole(hx, s, n)
    ensures forall h :: h in o.children ==> h in s
  {
    forall h | h in o.children
      ensures h in s
    {
      var i :| 0 <= i < |o.children| && o.children[i] == h;
      assert n.children[i] in n.children;
    }
  }

  /** Hashes the merged element from the trees of its children and stores it. */
  method StoreMerged(store: ObjectStore, hx: Hashing, our: Object, attributes: seq<Attribute>, children: seq<Hash>,
      ghost na: Node, ghost no: Node, ghost nt: Node, ghost s0: Objects,
      ghost whole: bool)
    returns (r: Result<Option<Hash>, Error>)
    requires CollisionFree(hx) && MergeClosed(hx) && Safe(hx, s0, store.objects)
    requires hx.known(na) && hx.known(no) && hx.known(nt) && Diverged(na, no, nt) && SameName(na, no, nt)
    requires our.Element? && our.localName == no.localName && our.namespaceUri == no.namespaceUri
    requires UniqueNames(attributes)
    requires MergedAttributes(na.attributes, no.attributes, nt.attributes) == Some(AttributeMap(attributes))
    requires Gathered(hx, store.objects, whole, KeyOrder(no, nt), Outcome(na, no, nt), children)
    modifies store
    ensures Safe(hx, s0, store.objects)
    ensures r.Err? ==> Missing(s0, r.error)
    ensures Merge(na, no, nt).Some?
    ensures r.Ok? ==> r.value == HashOf(hx, Merge(na, no, nt))
    ensures r.Ok? ==> Whole(hx, store.objects, Merge(na, no, nt).value)
    ensures whole ==> r.Ok?
  {
    ghost var trees := Gather(KeyOrder(no, nt), Outcome(na, no, nt)).value;
    GatheredKnown(hx, KeyOrder(no, nt), na, no, nt);
    var built := BuildChildren(hx, store.objects, children, trees);
    if built.Err? {
      return Err(built.error);
    }
    var element := ElementNode(our.localName, our.namespaceUri, AttributeMap(attributes), built.value);
    assert Merge(na, no, nt) == Some(element);
    var top := Element(our.localName, our.namespaceUri, attributes, children);
    var h := hx.node(element);
    ghost var before := store.objects;
    assert Names(hx, h, element) && Describes(hx, top, element);
    PutPreserves(hx, before, h, top);
    store.Commit([(h, top)]);
    assert store.objects == before[h := top];
    PreservesTransitive(s0, before, store.objects);
    forall n | n in trees
      ensures Whole(hx, store.objects, n)
    {
      WholeStays(hx, before, store.objects, n);
    }
    return Ok(Some(h));
  }

  /** Merges the elements under three hashes. It agrees with the merge of the trees they
      name, and where one side left the element alone it is the other's, found or not; it
      fails only on a missing object, and never if all three are complete; either way nothing
      stored is lost. */
  method MergeElements(store: ObjectStore, hx: Hashing, a: Hash, o: Hash, t: Hash)
    returns (r: Result<Option<Hash>, Error>)
    requires CollisionFree(hx) && MergeClosed(hx) && Addressed(hx, store.objects)
    modifies store
    ensures Safe(hx, old(store.objects), store.objects)
    ensures r.Err? ==> Missing(old(store.objects), r.error)
    ensures r.Ok? ==> Agrees(hx, a, o, t, r.value)
    ensures Completes(hx, old(store.objects), store.objects, a, o, t, r.Ok?)
    ensures o == t ==> r == Ok(Some(o))
    ensures o == a ==> r == Ok(Some(t))
    ensures t == a ==> r == Ok(Some(o))
    decreases NamedBy(hx, a), 6
  {
    if o == t {
      return Ok(Some(o));
    }
    if o == a {
      return Ok(Some(t));
    }
    if t == a {
      return Ok(Some(o));
    }
    if a !in store.objects {
      return Err(NotFound(a));
    }
    if o !in store.objects {
      return Err(NotFound(o));
    }
    if t !in store.objects {
      return Err(NotFound(t));
    }
    if !(store.objects[a].Element? && store.objects[o].Element? && store.objects[t].Element?) {
      NotAllElements(hx, store.objects, a, o, t);
      return Ok(None);
    }
    ElementNamed(hx, store.objects, a);
    ElementNamed(hx, store.objects, o);
    ElementNamed(hx, store.objects, t);
    r := MergeLoaded(store, hx, a, o, t, NamedBy(hx, a), NamedBy(hx, o), NamedBy(hx, t));
  }

  lemma NotAllElements(hx: Hashing, s: Objects, a: Hash, o: Hash, t: Hash)
    requires CollisionFree(hx) && Addressed(hx, s) && a in s && o in s && t in s
    requires a != o && o != t && a != t && !(s[a].Element? && s[o].Element? && s[t].Element?)
    ensures Agrees(hx, a, o, t, None) && Completes(hx, s, s, a, o, t, true)
  {
    forall na, no, nt | Names(hx, a, na) && Names(hx, o, no) && Names(hx, t, nt)
      ensures Merge(na, no, nt).None?
    {
      FoundDescribes(hx, s, a, na);
      FoundDescribes(hx, s, o, no);
      FoundDescribes(hx, s, t, nt);
    }
  }
}
