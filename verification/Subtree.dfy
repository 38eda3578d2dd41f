/** The objects reachable from one, and their transfer from a store to another. */
module Subtree {
  import opened Wrappers
  import opened Reachability
  import opened Objects
  import opened Sequences
  import opened Content
  import opened Store

  ghost predicate Reachable(s: Objects, root: Hash, h: Hash) {
    Reaches(ReferenceGraph(s), root, h)
  }

  /** Everything reachable from the root is in the store. */
  ghost predicate WholeAt(s: Objects, root: Hash) {
    forall h :: Reachable(s, root, h) ==> h in s
  }

  /** Everything an object of the store refers to is in the store. */
  ghost predicate Closed(s: Objects) {
    forall h, y :: h in s && y in References(s[h]) ==> y in s
  }

  /** The part of the store reachable from the root. */
  ghost function SubtreeOf(s: Objects, root: Hash): Objects {
    map h | h in s && Reachable(s, root, h) :: s[h]
  }

  /** All of the hashes have everything reachable from them in the store. */
  ghost predicate EachWholeAt(s: Objects, hs: seq<Hash>) {
    forall h :: h in hs ==> WholeAt(s, h)
  }

  /** An object is there with everything it needs exactly if it is there and so are, each with
      all it needs: the tree and the parents of a commit, the object of a tag, the documents of
      a tree, the root and the prologue of a document, and the children of an element. */
  lemma WholeAtMeaning(s: Objects, h: Hash)
    requires h in s
    ensures WholeAt(s, h) <==>
      match s[h]
      case Commit(tree, parents, _, _, _) => WholeAt(s, tree) && EachWholeAt(s, parents)
      case Tag(tagged, _, _, _, _) => WholeAt(s, tagged)
      case Tree(entries) => forall e :: e in entries ==> WholeAt(s, e.document)
      case Document(root, prologue) => WholeAt(s, root) && EachWholeAt(s, prologue)
      case Element(_, _, _, children) => EachWholeAt(s, children)
      case _ => true
  {
    WholeAtParts(s, h);
    match s[h]
    case Commit(tree, parents, _, _, _) => assert forall y :: y in [tree] + parents <==> y == tree || y in parents;
    case Tag(tagged, _, _, _, _) => assert forall y :: y in [tagged] <==> y == tagged;
    case Tree(entries) =>
      forall e | e in entries
        ensures e.document in Documents(entries)
      {
        var i :| 0 <= i < |entries| && entries[i] == e;
        assert Documents(entries)[i] == e.document;
      }
    case Document(root, prologue) => assert forall y :: y in [root] + prologue <==> y == root || y in prologue;
    case _ =>
  }

  lemma WholeAtParts(s: Objects, h: Hash)
    requires h in s
    ensures WholeAt(s, h) <==> EachWholeAt(s, References(s[h]))
  {
    var g := ReferenceGraph(s);
    if WholeAt(s, h) {
      forall y, x | y in References(s[h]) && Reachable(s, y, x)
        ensures x in s
      {
        assert Edge(g, h, y);
        ReachesEdgeThen(g, h, y, x);
        assert Reachable(s, h, x);
      }
    }
    if EachWholeAt(s, References(s[h])) {
      forall x | Reachable(s, h, x) && x != h
        ensures x in s
      {
        var y := FirstStep(g, h, x);
        assert WholeAt(s, y) && Reachable(s, y, x);
      }
    }
  }

  // ----- The walk

  /** A walk from the root: everything visited has been yielded once, and what it refers to
      is visited or waits on the stack. */
  ghost predicate Walking(s: Objects, root: Hash, visited: set<Hash>, stack: seq<Hash>, yielded: seq<Entry>) {
    && (root in visited || root in stack)
    && (forall h :: h in visited ==> h in s && Reachable(s, root, h))
    && (forall h :: h in stack ==> Reachable(s, root, h))
    && (forall x, y :: x in visited && Edge(ReferenceGraph(s), x, y) ==> y in visited || y in stack)
    && (forall e :: e in yielded <==> e.0 in visited && e.0 in s && e.1 == s[e.0])
    && NoRepeats(yielded)
  }

  lemma WalkingOn(s: Objects, root: Hash, visited: set<Hash>, stack: seq<Hash>, yielded: seq<Entry>)
    requires Walking(s, root, visited, stack, yielded) && stack != []
    ensures var h, rest := Last(stack), Front(stack);
      && Reachable(s, root, h)
      && (h in visited ==> Walking(s, root, visited, rest, yielded))
      && (h !in visited && h in s ==>
            Walking(s, root, visited + {h}, rest + References(s[h]), yielded + [(h, s[h])]))
  {
    var h, rest := Last(stack), Front(stack);
    assert h in stack && forall x :: x in stack <==> x in rest || x == h;
    if h !in visited && h in s {
      forall y | y in References(s[h])
        ensures Reachable(s, root, y)
      {
        assert Edge(ReferenceGraph(s), h, y);
        ReachesThenEdge(ReferenceGraph(s), root, h, y);
      }
    }
  }

  lemma WalkingDone(s: Objects, root: Hash, visited: set<Hash>, yielded: seq<Entry>)
    requires Walking(s, root, visited, [], yielded)
    ensures WholeAt(s, root)
    ensures forall h, o :: (h, o) in yielded <==> h in s && Reachable(s, root, h) && o == s[h]
  {
    forall h | Reachable(s, root, h)
      ensures h in visited
    {
      ClosedReaches(ReferenceGraph(s), visited, root, h);
    }
  }

  /** Yields every object reachable from the root exactly once, and fails exactly when one
      is missing. */
  method SubtreeWalk(s: Objects, root: Hash) returns (r: Result<seq<Entry>, Error>)
    ensures r.Ok? <==> WholeAt(s, root)
    ensures r.Ok? ==> NoRepeats(r.value)
    ensures r.Ok? ==> forall h, o :: (h, o) in r.value <==> h in s && Reachable(s, root, h) && o == s[h]
    ensures r.Err? ==> r.error.NotFound? && r.error.hash !in s && Reachable(s, root, r.error.hash)
  {
    var visited: set<Hash>, stack, yielded: seq<Entry> := {}, [root], [];
    ReachesSelf(ReferenceGraph(s), root);
    while stack != []
      invariant Walking(s, root, visited, stack, yielded)
      decreases s.Keys - visited, |stack|
    {
      WalkingOn(s, root, visited, stack, yielded);
      var h := Last(stack);
      stack := Front(stack);
      if h !in visited {
        if h !in s {
          return Err(NotFound(h));
        }
        visited := visited + {h};
        stack := stack + References(s[h]);
        yielded := yielded + [(h, s[h])];
      }
    }
    WalkingDone(s, root, visited, yielded);
    return Ok(yielded);
  }

  /** Collects a stream into a map. */
  method CollectStream(entries: seq<Entry>) returns (found: Objects)
    ensures found == Filed(map[], entries)
  {
    found := map[];
    var i := 0;
    assert entries[..0] == [];
    while i < |entries|
      invariant 0 <= i <= |entries|
      invariant found == Filed(map[], entries[..i])
    {
      found := found[entries[i].0 := entries[i].1];
      assert Front(entries[..i + 1]) == entries[..i];
      i := i + 1;
    }
    assert entries[..i] == entries;
  }

  lemma StreamIsSubtree(s: Objects, root: Hash, entries: seq<Entry>)
    requires forall h, o :: (h, o) in entries <==> h in s && Reachable(s, root, h) && o == s[h]
    ensures Filed(map[], entries) == SubtreeOf(s, root)
  {
    var found := Filed(map[], entries);
    FiledMeaning(map[], entries);
    forall h | h in SubtreeOf(s, root)
      ensures h in found
    {
      assert (h, s[h]) in entries;
      var i :| 0 <= i < |entries| && entries[i] == (h, s[h]);
      assert entries[i].0 in found;
    }
    forall h | h in found
      ensures h in SubtreeOf(s, root) && found[h] == s[h]
    {
      assert (h, found[h]) in entries;
    }
  }

  // ----- The transfer

  /** What a store holds after receiving everything reachable from the root: its own objects
      win where both have one. */
  ghost function Received(s: Objects, d: Objects, root: Hash): Objects {
    SubtreeOf(s, root) + d
  }

  function EntriesAt(found: Objects, hs: seq<Hash>): (es: seq<Entry>)
    requires forall h :: h in hs ==> h in found
    ensures |es| == |hs|
  {
    if hs == [] then [] else EntriesAt(found, Front(hs)) + [(Last(hs), found[Last(hs)])]
  }

  lemma {:induction false} FiledAt(found: Objects, d: Objects, hs: seq<Hash>)
    requires forall h :: h in hs ==> h in found
    ensures var filed := Filed(d, EntriesAt(found, hs));
      && (forall h :: h in filed <==> h in d || h in hs)
      && (forall h :: h in filed ==> filed[h] == if h in hs then found[h] else d[h])
  {
    if hs != [] {
      FiledAt(found, d, Front(hs));
      assert Front(EntriesAt(found, hs)) == EntriesAt(found, Front(hs));
    }
  }

  /** The hashes done and not present, in some order. */
  ghost predicate Lacking(present: set<Hash>, done: set<Hash>, hs: seq<Hash>) {
    (forall h :: h in hs <==> h in done - present) && |hs| == |done - present|
  }

  lemma LackingNext(present: set<Hash>, done: set<Hash>, hs: seq<Hash>, h: Hash)
    requires Lacking(present, done, hs) && h !in done
    ensures Lacking(present, done + {h}, if h in present then hs else hs + [h])
  {
    assert (done + {h}) - present == if h in present then done - present else (done - present) + {h};
  }

  /** The entries selected of the hashes done are those d lacks. */
  ghost predicate Selected(found: Objects, d: Objects, done: set<Hash>, missing: seq<Entry>, hs: seq<Hash>) {
    Lacking(d.Keys, done, hs) && (forall h :: h in hs ==> h in found) && missing == EntriesAt(found, hs)
  }

  lemma SelectedNext(found: Objects, d: Objects, done: set<Hash>, missing: seq<Entry>, hs: seq<Hash>, h: Hash)
    requires Selected(found, d, done, missing, hs) && h in found && h !in done
    ensures Selected(found, d, done + {h}, if h in d then missing else missing + [(h, found[h])],
      if h in d then hs else hs + [h])
  {
    LackingNext(d.Keys, done, hs, h);
    assert Front(hs + [h]) == hs;
  }

  lemma SelectedAll(found: Objects, d: Objects, missing: seq<Entry>, hs: seq<Hash>)
    requires Selected(found, d, found.Keys, missing, hs)
    ensures Filed(d, missing) == found + d && |missing| == |found.Keys - d.Keys|
  {
    FiledAll(found, d, hs);
  }

  lemma FiledAll(found: Objects, d: Objects, hs: seq<Hash>)
    requires forall h :: h in hs <==> h in found && h !in d
    ensures Filed(d, EntriesAt(found, hs)) == found + d
  {
    FiledAt(found, d, hs);
  }

  /** The entries of found that d lacks, in no particular order. */
  method SelectMissing(found: Objects, d: Objects) returns (missing: seq<Entry>)
    ensures Filed(d, missing) == found + d && |missing| == |found.Keys - d.Keys|
  {
    missing := [];
    var hashes := found.Keys;
    ghost var done: set<Hash>, hs: seq<Hash> := {}, [];
    assert done - d.Keys == {};
    while hashes != {}
      invariant Split(found.Keys, done, hashes) && Selected(found, d, done, missing, hs)
      decreases hashes
    {
      var h :| h in hashes;
      SplitNext(found.Keys, done, hashes, h);
      SelectedNext(found, d, done, missing, hs, h);
      if h !in d {
        missing := missing + [(h, found[h])];
        hs := hs + [h];
      }
      hashes, done := hashes - {h}, done + {h};
    }
    SplitDone(found.Keys, done);
    SelectedAll(found, d, missing, hs);
  }

  lemma NothingNew(s: Objects, root: Hash)
    ensures Received(s, s, root) == s
  {
  }

  /** What a transfer adds, spelled out. */
  ghost predicate Copied(s: Objects, d: Objects, d': Objects, root: Hash, count: nat) {
    && (forall h :: h in d' <==> h in d || (h in s && Reachable(s, root, h)))
    && (forall h :: h in d' ==> d'[h] == if h in d then d[h] else s[h])
    && |d'| == |d| + count
  }

  lemma ReceivedCopied(s: Objects, d: Objects, root: Hash)
    ensures Copied(s, d, Received(s, d, root), root, |SubtreeOf(s, root).Keys - d.Keys|)
  {
    var part, d' := SubtreeOf(s, root), Received(s, d, root);
    assert d'.Keys == d.Keys + (part.Keys - d.Keys);
    assert |d'| == |d'.Keys| && |d| == |d.Keys|;
  }

  lemma MissingFiled(s: Objects, d: Objects, root: Hash, missing: seq<Entry>)
    requires Filed(d, missing) == SubtreeOf(s, root) + d && |missing| == |SubtreeOf(s, root).Keys - d.Keys|
    ensures Filed(d, missing) == Received(s, d, root) && Copied(s, d, Filed(d, missing), root, |missing|)
    ensures missing == [] ==> Filed(d, missing) == d
  {
    ReceivedCopied(s, d, root);
  }

  /** Copies what is reachable from the root and missing in dst, in one transaction. */
  method TransferObjects(src: ObjectStore, dst: ObjectStore, root: Hash) returns (r: Result<nat, Error>)
    modifies dst
    ensures src.objects == old(src.objects)
    ensures r.Ok? <==> WholeAt(old(src.objects), root)
    ensures r.Err? ==> dst.objects == old(dst.objects) && r.error.NotFound? && r.error.hash !in src.objects
    ensures r.Ok? ==> dst.objects == Received(old(src.objects), old(dst.objects), root)
    ensures r.Ok? ==> r.value == |SubtreeOf(old(src.objects), root).Keys - old(dst.objects).Keys|
    ensures r.Ok? ==> Copied(old(src.objects), old(dst.objects), dst.objects, root, r.value)
  {
    var walked := SubtreeWalk(src.objects, root);
    if walked.Err? {
      return Err(walked.error);
    }
    StreamIsSubtree(src.objects, root, walked.value);
    var found := CollectStream(walked.value);
    var missing := SelectMissing(found, dst.objects);
    MissingFiled(src.objects, dst.objects, root, missing);
    if missing == [] {
      return Ok(0);
    }
    NothingNew(src.objects, root);
    dst.Commit(missing);
    return Ok(|missing|);
  }

  // ----- What a transfer keeps

  /** Two stores hold the same content where they hold the same hash. */
  ghost predicate Agree(s: Objects, d: Objects) {
    forall h :: h in s && h in d ==> SameContent(s[h], d[h])
  }

  /** Content addressing makes any two stores agree. */
  lemma AddressedAgree(hx: Hashing, s: Objects, d: Objects)
    requires CollisionFree(hx) && Addressed(hx, s) && Addressed(hx, d)
    ensures Agree(s, d)
  {
    forall h | h in s && h in d
      ensures SameContent(s[h], d[h])
    {
      assert BelongsAt(hx, h, s[h]) && BelongsAt(hx, h, d[h]);
      OneContent(hx, h, s[h], d[h]);
    }
  }

  /** Everything reachable from the root arrives, existing objects stay as they are, and a
      closed store stays closed. */
  lemma ReceivedKeeps(s: Objects, d: Objects, root: Hash)
    requires Agree(s, d) && WholeAt(s, root)
    ensures var d' := Received(s, d, root);
      && Grows(d, d') && Agree(s, d') && WholeAt(d', root)
      && (Closed(d) ==> Closed(d'))
  {
    var d', part := Received(s, d, root), SubtreeOf(s, root);
    var g, g' := ReferenceGraph(s), ReferenceGraph(d');
    forall h, y | h in part && y in References(d'[h])
      ensures y in part
    {
      assert References(d'[h]) == References(s[h]);
      assert Edge(g, h, y);
      ReachesThenEdge(g, root, h, y);
      assert Reachable(s, root, y);
    }
    ReachesSelf(g, root);
    assert Reachable(s, root, root);
    forall h | Reachable(d', root, h)
      ensures h in d'
    {
      ClosedReaches(g', part.Keys, root, h);
    }
  }

  /** A transfer of what is already there changes nothing. */
  lemma ReceivedAgain(s: Objects, d: Objects, root: Hash)
    requires WholeAt(s, root)
    ensures SubtreeOf(s, root).Keys <= Received(s, d, root).Keys
    ensures SubtreeOf(s, root).Keys <= d.Keys <==> Received(s, d, root) == d
  {
    var d' := Received(s, d, root);
    if d' == d {
      assert SubtreeOf(s, root).Keys <= d'.Keys;
    }
  }
}
