/** Three-way merge of documents. */
module DocumentMerge {
  import opened Wrappers
  import opened Objects
  import opened Content
  import opened ElementMerge
  import opened Store
  import opened Export
  import opened StoreMerge

  /** The document under h is there with everything in it. */
  ghost predicate DocumentWhole(hx: Hashing, s: Objects, h: Hash) {
    && h in s && s[h].Document?
    && Names(hx, s[h].root, RootTree(hx, s, h)) && Whole(hx, s, RootTree(hx, s, h))
    && forall p :: p in s[h].prologue ==> p in s
  }

  /** The root element of the document under h. */
  ghost function RootTree(hx: Hashing, s: Objects, h: Hash): Node
    requires h in s && s[h].Document?
  {
    NamedBy(hx, s[h].root)
  }

  /** The merge of three documents: of their root elements, under our prologue. */
  ghost function MergedDocument(hx: Hashing, s: Objects, a: Hash, o: Hash, t: Hash): Option<Hash>
    requires a in s && o in s && t in s && s[a].Document? && s[o].Document? && s[t].Document?
  {
    if o == t then Some(o)
    else if o == a then Some(t)
    else if t == a then Some(o)
    else
      var root := Merge(RootTree(hx, s, a), RootTree(hx, s, o), RootTree(hx, s, t));
      if root.None? then None else Some(hx.record(Document(hx.node(root.value), s[o].prologue)))
  }

  ghost predicate AllDocuments(hx: Hashing, s: Objects, a: Hash, o: Hash, t: Hash) {
    DocumentWhole(hx, s, a) && DocumentWhole(hx, s, o) && DocumentWhole(hx, s, t)
  }

  /** Three different documents. */
  predicate ThreeDocuments(s: Objects, a: Hash, o: Hash, t: Hash) {
    && a in s && o in s && t in s && s[a].Document? && s[o].Document? && s[t].Document?
    && o != t && o != a && t != a
  }

  lemma DocumentStays(hx: Hashing, s: Objects, s': Objects, h: Hash)
    requires (forall x :: x in s ==> x in s' && SameContent(s[x], s'[x])) && DocumentWhole(hx, s, h)
    ensures DocumentWhole(hx, s', h) && s'[h] == s[h] && RootTree(hx, s', h) == RootTree(hx, s, h)
  {
    WholeStays(hx, s, s', RootTree(hx, s, h));
  }

  /** Filing a document whose content is there makes it whole. */
  lemma PutDocument(hx: Hashing, s: Objects, document: Object, tree: Node)
    requires CollisionFree(hx) && Addressed(hx, s) && document.Document?
    requires Names(hx, document.root, tree) && Whole(hx, s, tree)
    requires forall p :: p in document.prologue ==> p in s
    ensures var s' := s[hx.record(document) := document];
      Addressed(hx, s') && Preserves(s, s') && DocumentWhole(hx, s', hx.record(document))
  {
    PutPreserves(hx, s, hx.record(document), document);
    NamesOnce(hx, document.root, tree, NamedBy(hx, document.root));
    WholeStays(hx, s, s[hx.record(document) := document], tree);
  }

  /** Merges the documents under three hashes: the root elements, under our prologue. What one
      side left alone, be it the document or its root element, is as the other has it. */
  method MergeDocuments(store: ObjectStore, hx: Hashing, a: Hash, o: Hash, t: Hash)
    returns (r: Result<Option<Hash>, Error>)
    requires CollisionFree(hx) && MergeClosed(hx) && Addressed(hx, store.objects)
    modifies store
    ensures Safe(hx, old(store.objects), store.objects)
    ensures r.Err? ==> Missing(old(store.objects), r.error)
    ensures AllDocuments(hx, old(store.objects), a, o, t) ==>
              && r == Ok(MergedDocument(hx, old(store.objects), a, o, t))
              && (r.value.Some? ==> DocumentWhole(hx, store.objects, r.value.value))
    ensures o == t ==> r == Ok(Some(o))
    ensures o == a ==> r == Ok(Some(t))
    ensures t == a ==> r == Ok(Some(o))
    ensures ThreeDocuments(old(store.objects), a, o, t) ==>
      var s := old(store.objects);
      && (s[o].root == s[a].root ==> r == Ok(Some(hx.record(Document(s[t].root, s[o].prologue)))))
      && (s[t].root == s[a].root ==> r == Ok(Some(hx.record(Document(s[o].root, s[o].prologue)))))
      && (s[o].root == s[t].root ==> r == Ok(Some(hx.record(Document(s[o].root, s[o].prologue)))))
      && (r.Ok? && r.value.Some? ==> exists root :: r.value.value == hx.record(Document(root, s[o].prologue)))
  {
    if o == t {
      return Ok(Some(o));
    }
    if o == a {
      return Ok(Some(t));
    }
    if t == a {
      return Ok(Some(o));
    }
    if a !in store.objects {
      return Err(NotFound(a));
    }
    if o !in store.objects {
      return Err(NotFound(o));
    }
    if t !in store.objects {
      return Err(NotFound(t));
    }
    var anc, our, their := store.objects[a], store.objects[o], store.objects[t];
    if !(anc.Document? && our.Document? && their.Document?) {
      return Ok(None);
    }
    ghost var s0 := store.objects;
    var root := MergeElements(store, hx, anc.root, our.root, their.root);
    if root.Err? {
      return Err(root.error);
    }
    if root.value.None? {
      if AllDocuments(hx, s0, a, o, t) {
        RootsMerge(hx, s0, store.objects, a, o, t, root.value);
      }
      return Ok(None);
    }
    ghost var s1 := store.objects;
    r := StoreDocument(store, hx, root.value.value, our.prologue, s0);
    if AllDocuments(hx, s0, a, o, t) {
      RootsMerge(hx, s0, s1, a, o, t, root.value);
      MergedDocumentStored(hx, s0, s1, store.objects, a, o, t, root.value.value);
    }
  }

  lemma RootsMerge(hx: Hashing, s: Objects, s1: Objects, a: Hash, o: Hash, t: Hash, root: Option<Hash>)
    requires CollisionFree(hx) && MergeClosed(hx) && AllDocuments(hx, s, a, o, t)
    requires Agrees(hx, s[a].root, s[o].root, s[t].root, root)
    requires Completes(hx, s, s1, s[a].root, s[o].root, s[t].root, true)
    ensures var tree := Merge(RootTree(hx, s, a), RootTree(hx, s, o), RootTree(hx, s, t));
      && root == HashOf(hx, tree)
      && (tree.Some? ==> Names(hx, root.value, tree.value) && Whole(hx, s1, tree.value))
  {
    assert AllWhole(hx, s, RootTree(hx, s, a), RootTree(hx, s, o), RootTree(hx, s, t));
  }

  lemma MergedDocumentStored(hx: Hashing, s: Objects, s1: Objects, s2: Objects, a: Hash, o: Hash, t: Hash, root: Hash)
    requires CollisionFree(hx) && AllDocuments(hx, s, a, o, t) && o != t && o != a && t != a
    requires var tree := Merge(RootTree(hx, s, a), RootTree(hx, s, o), RootTree(hx, s, t));
      tree.Some? && Names(hx, root, tree.value) && Whole(hx, s1, tree.value)
    requires s1.Keys <= s2.Keys && Preserves(s, s2)
    requires var d := Document(root, s[o].prologue); hx.record(d) in s2 && s2[hx.record(d)] == d
    ensures var h := hx.record(Document(root, s[o].prologue));
      MergedDocument(hx, s, a, o, t) == Some(h) && DocumentWhole(hx, s2, h)
  {
    var tree := Merge(RootTree(hx, s, a), RootTree(hx, s, o), RootTree(hx, s, t)).value;
    NamesOnce(hx, root, tree, NamedBy(hx, root));
    WholeStays(hx, s1, s2, tree);
  }

  method StoreDocument(store: ObjectStore, hx: Hashing, root: Hash, prologue: seq<Hash>, ghost s0: Objects)
    returns (r: Result<Option<Hash>, Error>)
    requires CollisionFree(hx) && Safe(hx, s0, store.objects)
    modifies store
    ensures Safe(hx, s0, store.objects) && old(store.objects.Keys) <= store.objects.Keys
    ensures r == Ok(Some(hx.record(Document(root, prologue))))
    ensures hx.record(Document(root, prologue)) in store.objects
    ensures store.objects[hx.record(Document(root, prologue))] == Document(root, prologue)
  {
    var document := Document(root, prologue);
    var h := hx.record(document);
    ghost var before := store.objects;
    PutPreserves(hx, before, h, document);
    store.Commit([(h, document)]);
    assert store.objects == before[h := document];
    PreservesTransitive(s0, before, store.objects);
    return Ok(Some(h));
  }
}
