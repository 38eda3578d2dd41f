/** Importing a document and rebuilding it from its hash. */
module RoundTrip {
  import opened Wrappers
  import opened Objects
  import opened Sequences
  import opened Content
  import opened Store
  import opened Import
  import opened Export

  // ----- Without any assumption on the hashes

  /** Every part of x is found under its own hash. */
  ghost predicate FiledAs(hx: Hashing, s: Objects, x: Xml) {
    && hx.node(ContentOf(x)) in s && SameContent(s[hx.node(ContentOf(x))], ObjectOf(hx, x))
    && (x.XmlElement? ==> forall c :: c in x.children ==> FiledAs(hx, s, c))
  }

  /** Parts of x that share a hash have the same content. */
  ghost predicate NoClash(hx: Hashing, x: Xml) {
    forall e, f :: e in Collected(hx, x) && f in Collected(hx, x) && e.0 == f.0 ==> SameContent(e.1, f.1)
  }

  ghost predicate AllFiled(s: Objects, entries: seq<Entry>) {
    forall e :: e in entries ==> e.0 in s && SameContent(s[e.0], e.1)
  }

  lemma {:induction false} FiledAsCollected(hx: Hashing, s: Objects, x: Xml)
    ensures FiledAs(hx, s, x) <==> AllFiled(s, Collected(hx, x))
    decreases x, 0
  {
    if x.XmlElement? {
      FiledAsChildren(hx, s, x, |x.children|);
      assert Collected(hx, x) == CollectedAll(hx, x, |x.children|) + [EntryOf(hx, x)];
      assert AllFiled(s, Collected(hx, x)) <==>
             AllFiled(s, CollectedAll(hx, x, |x.children|)) && AllFiled(s, [EntryOf(hx, x)]);
    } else {
      assert Collected(hx, x) == [EntryOf(hx, x)];
    }
    assert EntryOf(hx, x) in Collected(hx, x);
  }

  lemma {:induction false} FiledAsChildren(hx: Hashing, s: Objects, x: Xml, n: nat)
    requires x.XmlElement? && n <= |x.children|
    ensures (forall i :: 0 <= i < n ==> FiledAs(hx, s, x.children[i])) <==> AllFiled(s, CollectedAll(hx, x, n))
    decreases x, 0, n
  {
    if n > 0 {
      FiledAsChildren(hx, s, x, n - 1);
      FiledAsCollected(hx, s, x.children[n - 1]);
    }
  }

  /** Whatever the hashes and the store, importing x files every part of it under its own
      hash exactly when no two different parts of x share one. */
  lemma ImportFiles(hx: Hashing, s: Objects, x: Xml)
    ensures FiledAs(hx, Filed(s, Collected(hx, x)), x) <==> NoClash(hx, x)
  {
    var entries := Collected(hx, x);
    var s' := Filed(s, entries);
    FiledMeaning(s, entries);
    FiledAsCollected(hx, s', x);
    if NoClash(hx, x) {
      forall e | e in entries
        ensures e.0 in s' && SameContent(s'[e.0], e.1)
      {
        var i :| 0 <= i < |entries| && entries[i] == e;
        assert (entries[i].0, s'[entries[i].0]) in entries;
      }
    }
    if AllFiled(s', entries) {
      forall e, f | e in entries && f in entries && e.0 == f.0
        ensures SameContent(e.1, f.1)
      {
        assert SameContent(s'[e.0], e.1) && SameContent(s'[f.0], f.1);
      }
    }
  }

  /** No part of y shares a hash with a part of x of other content. */
  ghost predicate NoneShared(hx: Hashing, x: Xml, y: Xml) {
    forall e, f :: e in Collected(hx, x) && f in Collected(hx, y) && e.0 == f.0 ==> SameContent(e.1, f.1)
  }

  /** Whatever the hashes and the store, importing x leaves an earlier y filed exactly when no
      part of y shares a hash with a part of x of other content, provided x does not clash with
      itself. */
  lemma ImportKeeps(hx: Hashing, s: Objects, x: Xml, y: Xml)
    requires NoClash(hx, x) && FiledAs(hx, s, y)
    ensures FiledAs(hx, Filed(s, Collected(hx, x)), y) <==> NoneShared(hx, x, y)
  {
    var s' := Filed(s, Collected(hx, x));
    ImportFiles(hx, s, x);
    FiledAsCollected(hx, s', x);
    FiledAsCollected(hx, s, y);
    FiledAsCollected(hx, s', y);
    EntriesKept(s, Collected(hx, x), Collected(hx, y));
  }

  /** Filing entries keeps others exactly if none of the two share a hash and differ. */
  lemma EntriesKept(s: Objects, entries: seq<Entry>, others: seq<Entry>)
    requires AllFiled(s, others) && AllFiled(Filed(s, entries), entries)
    ensures AllFiled(Filed(s, entries), others) <==>
      forall e, f :: e in entries && f in others && e.0 == f.0 ==> SameContent(e.1, f.1)
  {
    var s' := Filed(s, entries);
    FiledMeaning(s, entries);
    forall f | f in others
      ensures f.0 in s' && (s'[f.0] == s[f.0] || (f.0, s'[f.0]) in entries)
    {
      assert f.0 in s;
    }
    if AllFiled(s', others) {
      forall e, f | e in entries && f in others && e.0 == f.0
        ensures SameContent(e.1, f.1)
      {
        assert SameContent(s'[e.0], e.1) && SameContent(s'[f.0], f.1);
      }
    }
  }

  /** A document filed part by part is rebuilt from its hash: the same names, the same
      attributes, the same children in order. */
  lemma {:induction false} FiledRebuilds(hx: Hashing, s: Objects, x: Xml)
    requires FiledAs(hx, s, x)
    ensures Rebuilds(s, hx.node(ContentOf(x)), ContentOf(x))
    decreases x
  {
    if x.XmlElement? {
      forall i | 0 <= i < |x.children|
        ensures Rebuilds(s, hx.node(ContentOf(x.children[i])), ContentOf(x.children[i]))
      {
        FiledRebuilds(hx, s, x.children[i]);
      }
    }
  }

  /** Text and comments are hashed alike, so a text and a comment of equal content share a
      hash: an element holding both is not rebuilt. */
  lemma TextBecomesComment(hx: Hashing, s: Objects, name: string, c: string)
    requires hx.node(TextNode(c)) == hx.node(CommentNode(c))
    requires var x := XmlElement(name, None, [], [XmlText(c), XmlComment(c)]);
      hx.node(ContentOf(x)) != hx.node(TextNode(c))
    ensures var x := XmlElement(name, None, [], [XmlText(c), XmlComment(c)]);
      && !NoClash(hx, x)
      && !Rebuilds(Filed(s, Collected(hx, x)), hx.node(ContentOf(x)), ContentOf(x))
  {
    var x := XmlElement(name, None, [], [XmlText(c), XmlComment(c)]);
    var h, t := hx.node(ContentOf(x)), hx.node(TextNode(c));
    assert CollectedAll(hx, x, 1) == [(t, Text(c))] by {
      assert CollectedAll(hx, x, 0) == [];
    }
    assert CollectedAll(hx, x, 2) == [(t, Text(c)), (t, Comment(c))];
    assert Collected(hx, x) == [(t, Text(c)), (t, Comment(c)), EntryOf(hx, x)];
    assert (t, Text(c)) in Collected(hx, x) && (t, Comment(c)) in Collected(hx, x);
    var s2 := Filed(s, [(t, Text(c)), (t, Comment(c))]);
    assert s2[t] == Comment(c);
    var s' := Filed(s, Collected(hx, x));
    assert Front(Collected(hx, x)) == [(t, Text(c)), (t, Comment(c))];
    assert s' == s2[h := ObjectOf(hx, x)];
    assert s'[h].children[0] == t;
    assert ContentOf(x).children[0] == TextNode(c);
  }

  // ----- With collision freedom

  ghost predicate Known(hx: Hashing, x: Xml) {
    WellFormed(x) && hx.known(ContentOf(x))
  }

  lemma {:induction false} CollectedBelongs(hx: Hashing, x: Xml)
    requires CollisionFree(hx) && Known(hx, x)
    ensures forall e :: e in Collected(hx, x) ==> BelongsAt(hx, e.0, e.1) && !e.1.Commit?
    decreases x, 0
  {
    if x.XmlElement? {
      ChildrenBelong(hx, x, |x.children|);
    }
    assert Names(hx, hx.node(ContentOf(x)), ContentOf(x));
    assert Describes(hx, ObjectOf(hx, x), ContentOf(x));
  }

  lemma {:induction false} ChildrenBelong(hx: Hashing, x: Xml, n: nat)
    requires CollisionFree(hx) && Known(hx, x) && x.XmlElement? && n <= |x.children|
    ensures forall e :: e in CollectedAll(hx, x, n) ==> BelongsAt(hx, e.0, e.1) && !e.1.Commit?
    decreases x, 0, n
  {
    if n > 0 {
      ChildrenBelong(hx, x, n - 1);
      assert ContentOf(x).children[n - 1] in ContentOf(x).children;
      CollectedBelongs(hx, x.children[n - 1]);
    }
  }

  lemma {:induction false} FiledWhole(hx: Hashing, s: Objects, x: Xml)
    requires FiledAs(hx, s, x)
    ensures Whole(hx, s, ContentOf(x))
    decreases x
  {
    if x.XmlElement? {
      forall c | c in ContentOf(x).children
        ensures Whole(hx, s, c)
      {
        var i :| 0 <= i < |x.children| && ContentOf(x).children[i] == c;
        FiledWhole(hx, s, x.children[i]);
      }
    }
  }

  lemma ImportSafe(hx: Hashing, s: Objects, x: Xml)
    requires CollisionFree(hx) && Addressed(hx, s) && Known(hx, x)
    ensures var s' := Filed(s, Collected(hx, x));
      Addressed(hx, s') && Preserves(s, s') && FiledAs(hx, s', x) && Whole(hx, s', ContentOf(x))
  {
    var entries := Collected(hx, x);
    CollectedBelongs(hx, x);
    FiledPreserves(hx, s, entries);
    forall e, f | e in entries && f in entries && e.0 == f.0
      ensures SameContent(e.1, f.1)
    {
      OneContent(hx, e.0, e.1, f.1);
    }
    ImportFiles(hx, s, x);
    FiledWhole(hx, Filed(s, entries), x);
  }

  /** Imported into any addressed store, a known document is rebuilt from its hash, and so
      is every tree that could be rebuilt before. */
  lemma ImportRoundTrip(hx: Hashing, s: Objects, x: Xml)
    requires CollisionFree(hx) && Addressed(hx, s) && Known(hx, x)
    ensures var s' := Filed(s, Collected(hx, x));
      && Rebuilds(s', hx.node(ContentOf(x)), ContentOf(x))
      && forall n :: hx.known(n) && Whole(hx, s, n) ==> Rebuilds(s, hx.node(n), n) && Rebuilds(s', hx.node(n), n)
  {
    var s' := Filed(s, Collected(hx, x));
    ImportSafe(hx, s, x);
    FiledRebuilds(hx, s', x);
    forall n | hx.known(n) && Whole(hx, s, n)
      ensures Rebuilds(s, hx.node(n), n) && Rebuilds(s', hx.node(n), n)
    {
      WholeRebuilds(hx, s, n);
      WholeStays(hx, s, s', n);
      WholeRebuilds(hx, s', n);
    }
  }

  /** The same of a list of nodes imported in turn. */
  lemma {:induction false} ImportListSafe(hx: Hashing, s: Objects, xs: seq<Xml>)
    requires CollisionFree(hx) && Addressed(hx, s) && forall x :: x in xs ==> Known(hx, x)
    ensures var s' := Filed(s, CollectedList(hx, xs));
      Addressed(hx, s') && Preserves(s, s') && forall x :: x in xs ==> Whole(hx, s', ContentOf(x))
  {
    if xs != [] {
      var front, x := Front(xs), Last(xs);
      var s1 := Filed(s, CollectedList(hx, front));
      var s2 := Filed(s1, Collected(hx, x));
      assert x in xs;
      ImportListSafe(hx, s, front);
      ImportSafe(hx, s1, x);
      FiledConcat(s, CollectedList(hx, front), Collected(hx, x));
      PreservesTransitive(s, s1, s2);
      WholeListStays(hx, s1, s2, front);
    }
  }

  lemma WholeListStays(hx: Hashing, s: Objects, s': Objects, xs: seq<Xml>)
    requires s.Keys <= s'.Keys && forall x :: x in xs ==> Whole(hx, s, ContentOf(x))
    ensures forall x :: x in xs ==> Whole(hx, s', ContentOf(x))
  {
    forall x | x in xs
      ensures Whole(hx, s', ContentOf(x))
    {
      WholeStays(hx, s, s', ContentOf(x));
    }
  }
}
