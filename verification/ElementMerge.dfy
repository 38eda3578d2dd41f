/** Three-way merge of element trees: the function the store-level merge computes, and what
    it does to every key at every depth. */
module ElementMerge {
  import opened Wrappers
  import opened Sequences
  import opened ThreeWay
  import opened Content
  import opened ChildKeys
  import opened AttributeMerge

  lemma PairHolds(ks: seq<ChildKey>, xs: seq<Node>, k: ChildKey)
    requires |ks| == |xs|
    ensures var x := Lookup(Collect(Pair(ks, xs)), k); x.Some? ==> x.value in xs && k in ks
  {
    CollectHolds(Pair(ks, xs));
  }

  /** The child of n under the key k. */
  function Child(n: Node, k: ChildKey): (c: Option<Node>)
    requires n.ElementNode?
    ensures c.Some? ==> c.value in n.children
  {
    PairHolds(Keys(n.children), n.children, k);
    Lookup(Collect(Pair(Keys(n.children), n.children)), k)
  }

  /** The keys of ks that are not taken. */
  function Unmatched(ks: seq<ChildKey>, taken: seq<ChildKey>): seq<ChildKey> {
    if ks == [] then [] else Unmatched(Front(ks), taken) + if Last(ks) in taken then [] else [Last(ks)]
  }

  /** Our children in our order, then those of theirs that we have no key for. */
  function KeyOrder(o: Node, t: Node): seq<ChildKey>
    requires o.ElementNode? && t.ElementNode?
  {
    Keys(o.children) + Unmatched(Keys(t.children), Keys(o.children))
  }

  predicate SameName(a: Node, o: Node, t: Node) {
    && a.ElementNode? && o.ElementNode? && t.ElementNode?
    && a.localName == o.localName == t.localName
    && a.namespaceUri == o.namespaceUri == t.namespaceUri
  }

  /** All three differ, so a merge has to look inside. */
  predicate Diverged(a: Node, o: Node, t: Node) {
    o != t && o != a && t != a
  }

  /** The merged tree, or None on a conflict. */
  function Merge(a: Node, o: Node, t: Node): Option<Node>
    decreases a, 2
  {
    if o == t then Some(o)
    else if o == a then Some(t)
    else if t == a then Some(o)
    else if !SameName(a, o, t) then None
    else
      var attributes := MergedAttributes(a.attributes, o.attributes, t.attributes);
      if attributes.None? then None
      else
        var children := Gather(KeyOrder(o, t), Outcome(a, o, t));
        if children.None? then None
        else Some(ElementNode(o.localName, o.namespaceUri, attributes.value, children.value))
  }

  /** What each key holds in the merged element. */
  function Outcome(a: Node, o: Node, t: Node): ChildKey -> Merged<Node>
    requires a.ElementNode? && o.ElementNode? && t.ElementNode?
    decreases a, 1
  {
    k => MergeChild(a, o, t, k)
  }

  /** The three-way rule, and where that conflicts a merge of the three children. */
  function MergeChild(a: Node, o: Node, t: Node, k: ChildKey): Merged<Node>
    requires a.ElementNode? && o.ElementNode? && t.ElementNode?
    decreases a, 0
  {
    var ac, oc, tc := Child(a, k), Child(o, k), Child(t, k);
    var flat := Diff3(ac, oc, tc);
    if flat.Resolved? then flat
    else if ac.None? || oc.None? || tc.None? then Conflict
    else
      var deep := Merge(ac.value, oc.value, tc.value);
      if deep.None? then Conflict else Resolved(deep)
  }

  // ----- Keys of the merge

  predicate HasKey(n: Node, k: ChildKey)
    requires n.ElementNode?
  {
    k in Keys(n.children)
  }

  lemma {:induction false} UnmatchedMeaning(ks: seq<ChildKey>, taken: seq<ChildKey>)
    ensures forall k :: k in Unmatched(ks, taken) <==> k in ks && k !in taken
    ensures NoRepeats(ks) ==> NoRepeats(Unmatched(ks, taken))
  {
    if ks != [] {
      UnmatchedMeaning(Front(ks), taken);
    }
  }

  lemma KeyOrderMeaning(o: Node, t: Node)
    requires o.ElementNode? && t.ElementNode?
    ensures forall k :: k in KeyOrder(o, t) <==> HasKey(o, k) || HasKey(t, k)
  {
    UnmatchedMeaning(Keys(t.children), Keys(o.children));
  }

  lemma KeyOrderDistinct(o: Node, t: Node)
    requires o.ElementNode? && t.ElementNode?
    requires DistinctIds(KindsOf(o.children)) && DistinctIds(KindsOf(t.children))
    ensures NoRepeats(KeyOrder(o, t))
  {
    KeysDistinct(KindsOf(o.children));
    KeysDistinct(KindsOf(t.children));
    UnmatchedMeaning(Keys(t.children), Keys(o.children));
    NoRepeatsConcat(Keys(o.children), Unmatched(Keys(t.children), Keys(o.children)));
  }

  // ----- Success, key by key

  /** No attribute and no child key conflicts, at any depth. */
  ghost predicate Clean(a: Node, o: Node, t: Node)
    decreases a, 1
  {
    || o == t || o == a || t == a
    || (&& a.ElementNode? && o.ElementNode? && t.ElementNode?
        && a.localName == o.localName == t.localName && a.namespaceUri == o.namespaceUri == t.namespaceUri
        && (forall n :: AttributeAt(a.attributes, o.attributes, t.attributes, n).Resolved?)
        && (forall k :: HasKey(o, k) || HasKey(t, k) ==> CleanAt(a, o, t, k)))
  }

  ghost predicate CleanAt(a: Node, o: Node, t: Node, k: ChildKey)
    requires a.ElementNode? && o.ElementNode? && t.ElementNode?
    decreases a, 0
  {
    var ac, oc, tc := Child(a, k), Child(o, k), Child(t, k);
    || Diff3(ac, oc, tc).Resolved?
    || (ac.Some? && oc.Some? && tc.Some? && Clean(ac.value, oc.value, tc.value))
  }

  lemma AttributesSucceed(a: Attributes, o: Attributes, t: Attributes)
    ensures MergedAttributes(a, o, t).Some? <==> forall n :: AttributeAt(a, o, t, n).Resolved?
  {
  }

  /** A merge succeeds exactly when nothing conflicts at any depth. */
  lemma {:induction false} MergeSucceeds(a: Node, o: Node, t: Node)
    ensures Merge(a, o, t).Some? <==> Clean(a, o, t)
    decreases a, 1
  {
    if Diverged(a, o, t) && SameName(a, o, t) {
      AttributesSucceed(a.attributes, o.attributes, t.attributes);
      var f := Outcome(a, o, t);
      GatherSucceeds(KeyOrder(o, t), f);
      KeyOrderMeaning(o, t);
      forall k
        ensures f(k).Resolved? <==> CleanAt(a, o, t, k)
      {
        MergeChildSucceeds(a, o, t, k);
      }
    }
  }

  lemma {:induction false} MergeChildSucceeds(a: Node, o: Node, t: Node, k: ChildKey)
    requires a.ElementNode? && o.ElementNode? && t.ElementNode?
    ensures Outcome(a, o, t)(k).Resolved? <==> CleanAt(a, o, t, k)
    decreases a, 0
  {
    var ac, oc, tc := Child(a, k), Child(o, k), Child(t, k);
    if ac.Some? && oc.Some? && tc.Some? {
      MergeSucceeds(ac.value, oc.value, tc.value);
    }
  }

  // ----- The merged children

  /** The keys that still hold a child after the merge, in order. */
  function KeptKeys(a: Node, o: Node, t: Node): seq<ChildKey>
    requires a.ElementNode? && o.ElementNode? && t.ElementNode?
  {
    Held(KeyOrder(o, t), Outcome(a, o, t))
  }

  /** The merged element holds, for every key of either side, what the three-way rule and
      the merge of that child give, and nothing else. */
  lemma MergeIsPerKey(a: Node, o: Node, t: Node)
    requires Diverged(a, o, t) && Merge(a, o, t).Some?
    ensures var r := Merge(a, o, t).value;
      && a.ElementNode? && o.ElementNode? && t.ElementNode? && r.ElementNode?
      && r.localName == a.localName == o.localName == t.localName
      && r.namespaceUri == a.namespaceUri == o.namespaceUri == t.namespaceUri
      && Some(r.attributes) == MergedAttributes(a.attributes, o.attributes, t.attributes)
      && var kept, f := KeptKeys(a, o, t), Outcome(a, o, t);
      && |kept| == |r.children|
      && (forall k :: k in kept <==> (HasKey(o, k) || HasKey(t, k)) && Holds(f(k)))
      && (forall i :: 0 <= i < |kept| ==> f(kept[i]) == Resolved(Some(r.children[i])))
  {
    var f := Outcome(a, o, t);
    KeyOrderMeaning(o, t);
    HeldMeaning(KeyOrder(o, t), f);
    GatherHolds(KeyOrder(o, t), f);
  }

  /** Where the three-way rule settles a key, the merge follows it. */
  lemma OutcomeFlat(a: Node, o: Node, t: Node, k: ChildKey)
    requires a.ElementNode? && o.ElementNode? && t.ElementNode?
    requires Diff3(Child(a, k), Child(o, k), Child(t, k)).Resolved?
    ensures Outcome(a, o, t)(k) == Diff3(Child(a, k), Child(o, k), Child(t, k))
  {
  }

  /** Where it does not, the merge of the three children decides. */
  lemma OutcomeDeep(a: Node, o: Node, t: Node, k: ChildKey)
    requires a.ElementNode? && o.ElementNode? && t.ElementNode?
    requires Diff3(Child(a, k), Child(o, k), Child(t, k)).Conflict?
    ensures Outcome(a, o, t)(k) ==
      if Child(a, k).None? || Child(o, k).None? || Child(t, k).None? then Conflict
      else
        var deep := Merge(Child(a, k).value, Child(o, k).value, Child(t, k).value);
        if deep.None? then Conflict else Resolved(deep)
  {
  }

  /** Nothing conflicts under a key of either side, and what it holds is a child of the
      merged element. */
  lemma MergedChild(a: Node, o: Node, t: Node, k: ChildKey)
    requires Merge(a, o, t).Some? && Diverged(a, o, t)
    requires SameName(a, o, t) && (Child(o, k).Some? || Child(t, k).Some?)
    ensures var f, r := Outcome(a, o, t)(k), Merge(a, o, t).value;
      f.Resolved? && r.ElementNode? && (f.value.Some? ==> f.value.value in r.children)
  {
    KeyOrderMeaning(o, t);
    ChildHasKey(o, k);
    ChildHasKey(t, k);
    GatherSucceeds(KeyOrder(o, t), Outcome(a, o, t));
    GatherAt(KeyOrder(o, t), Outcome(a, o, t), k);
  }

  /** A child changed, added or deleted on one side only is changed, added or gone. */
  lemma EditsSurvive(a: Node, o: Node, t: Node, k: ChildKey)
    requires a.ElementNode? && o.ElementNode? && t.ElementNode? && Merge(a, o, t).Some?
    requires Child(t, k) == Child(a, k) || Child(o, k) == Child(a, k)
    ensures var edited, r := if Child(t, k) == Child(a, k) then Child(o, k) else Child(t, k), Merge(a, o, t).value;
      && r.ElementNode?
      && (edited.Some? ==> edited.value in r.children)
      && (edited.None? && Diverged(a, o, t) ==> k !in KeptKeys(a, o, t))
      && (!Diverged(a, o, t) ==> Child(r, k) == edited)
  {
    if Diverged(a, o, t) {
      EditSettles(a, o, t, k);
      if Child(o, k).Some? || Child(t, k).Some? {
        MergedChild(a, o, t, k);
      }
      HeldMeaning(KeyOrder(o, t), Outcome(a, o, t));
    }
  }

  lemma ChildHasKey(n: Node, k: ChildKey)
    requires n.ElementNode?
    ensures Child(n, k).Some? ==> HasKey(n, k)
  {
    PairHolds(Keys(n.children), n.children, k);
  }

  /** Where one side left a child alone, what the other did to it is settled. */
  lemma EditSettles(a: Node, o: Node, t: Node, k: ChildKey)
    requires a.ElementNode? && o.ElementNode? && t.ElementNode?
    requires Child(t, k) == Child(a, k) || Child(o, k) == Child(a, k)
    ensures Outcome(a, o, t)(k) == Resolved(if Child(t, k) == Child(a, k) then Child(o, k) else Child(t, k))
  {
    OneSided(Child(a, k), Child(o, k), Child(t, k));
    OutcomeFlat(a, o, t, k);
  }

  // ----- Edits at any depth

  /** The way from an element down to one of its descendants, key by key. */
  datatype Place = Here | Below(key: ChildKey, rest: Place)

  /** What n has at the place. */
  function At(n: Node, place: Place): Option<Node>
    decreases place, 0
  {
    match place
    case Here => Some(n)
    case Below(k, rest) => if n.ElementNode? then AtIn(Child(n, k), rest) else None
  }

  function AtIn(n: Option<Node>, place: Place): Option<Node>
    decreases place, 1
  {
    if n.None? then None else At(n.value, place)
  }

  /** x lies below n, as deep as the place does. */
  ghost predicate Inside(n: Node, x: Node, place: Place)
    decreases place, 0
  {
    match place
    case Here => n == x
    case Below(_, rest) => n.ElementNode? && InsideSome(n.children, x, rest)
  }

  ghost predicate InsideSome(children: seq<Node>, x: Node, place: Place)
    decreases place, 1
  {
    exists c :: c in children && Inside(c, x, place)
  }

  lemma {:induction false} AtInside(n: Node, place: Place)
    requires At(n, place).Some?
    ensures Inside(n, At(n, place).value, place)
  {
    if place.Below? {
      var c := Child(n, place.key).value;
      AtInside(c, place.rest);
      assert InsideSome(n.children, At(n, place).value, place.rest);
    }
  }

  /** What one side made of an element, at any depth, is in the merged tree at that depth, if
      the other side left that element alone: whatever else either of them changed. */
  lemma {:induction false} DeepEditsSurvive(a: Node, o: Node, t: Node, place: Place)
    requires Merge(a, o, t).Some?
    requires At(t, place) == At(a, place) || At(o, place) == At(a, place)
    ensures var edited := if At(t, place) == At(a, place) then At(o, place) else At(t, place);
      edited.Some? ==> Inside(Merge(a, o, t).value, edited.value, place)
    decreases place, 1
  {
    var edited, r := if At(t, place) == At(a, place) then At(o, place) else At(t, place), Merge(a, o, t).value;
    if edited.Some? {
      if !Diverged(a, o, t) {
        AtInside(r, place);
      } else {
        DeepChild(a, o, t, place.key, place.rest, edited.value);
      }
    }
  }

  lemma DeepChild(a: Node, o: Node, t: Node, k: ChildKey, rest: Place, edited: Node)
    requires Merge(a, o, t).Some? && Diverged(a, o, t) && SameName(a, o, t)
    requires var ac, oc, tc := Child(a, k), Child(o, k), Child(t, k);
      && (AtIn(tc, rest) == AtIn(ac, rest) || AtIn(oc, rest) == AtIn(ac, rest))
      && Some(edited) == if AtIn(tc, rest) == AtIn(ac, rest) then AtIn(oc, rest) else AtIn(tc, rest)
    ensures var r := Merge(a, o, t).value; r.ElementNode? && InsideSome(r.children, edited, rest)
    decreases rest, 3
  {
    MergedChild(a, o, t, k);
    OutcomeFollows(a, o, t, k);
    DeepFollows(Child(a, k), Child(o, k), Child(t, k), Outcome(a, o, t)(k), rest, edited);
  }

  lemma OutcomeFollows(a: Node, o: Node, t: Node, k: ChildKey)
    requires a.ElementNode? && o.ElementNode? && t.ElementNode?
    ensures Follows(Child(a, k), Child(o, k), Child(t, k), Outcome(a, o, t)(k))
  {
    if Diff3(Child(a, k), Child(o, k), Child(t, k)).Resolved? {
      OutcomeFlat(a, o, t, k);
    } else {
      OutcomeDeep(a, o, t, k);
    }
  }

  /** m is what the three-way rule settles, or a conflict, or the merge of the three. */
  ghost predicate Follows(ac: Option<Node>, oc: Option<Node>, tc: Option<Node>, m: Merged<Node>) {
    if Diff3(ac, oc, tc).Resolved? then m == Diff3(ac, oc, tc)
    else m.Resolved? ==>
      ac.Some? && oc.Some? && tc.Some? && m.value.Some? && Merge(ac.value, oc.value, tc.value) == m.value
  }

  /** The same of one child, from its three versions and what they merge into. */
  lemma DeepFollows(ac: Option<Node>, oc: Option<Node>, tc: Option<Node>, m: Merged<Node>, rest: Place, edited: Node)
    requires Follows(ac, oc, tc, m) && m.Resolved?
    requires AtIn(tc, rest) == AtIn(ac, rest) || AtIn(oc, rest) == AtIn(ac, rest)
    requires Some(edited) == if AtIn(tc, rest) == AtIn(ac, rest) then AtIn(oc, rest) else AtIn(tc, rest)
    ensures m.value.Some? && Inside(m.value.value, edited, rest)
    decreases rest, 2
  {
    if Diff3(ac, oc, tc).Resolved? {
      AtInside(m.value.value, rest);
    } else {
      DeepEditsSurvive(ac.value, oc.value, tc.value, rest);
    }
  }

  // ----- The order of the children

  /** The surviving children come in our order, and after them what only they added, in
      theirs. */
  lemma OursFirst(a: Node, o: Node, t: Node, j: nat, i: nat)
    requires a.ElementNode? && o.ElementNode? && t.ElementNode? && j < i < |KeptKeys(a, o, t)|
    ensures Precedes(Keys(o.children), Keys(t.children), KeptKeys(a, o, t)[j], KeptKeys(a, o, t)[i])
  {
    var q, p := HeldInOrder(KeyOrder(o, t), Outcome(a, o, t), j, i);
    KeysInOrder(Keys(o.children), Keys(t.children), q, p);
  }

  lemma KeysInOrder(ours: seq<ChildKey>, theirs: seq<ChildKey>, q: nat, p: nat)
    requires q < p < |ours + Unmatched(theirs, ours)|
    ensures var ks := ours + Unmatched(theirs, ours); Precedes(ours, theirs, ks[q], ks[p])
  {
    var n := |ours|;
    if p < n {
      assert Before(ours, ours[q], ours[p]);
    } else {
      AddedAt(ours, theirs, p - n);
      if q >= n {
        AddedAt(ours, theirs, q - n);
        UnmatchedInOrder(theirs, ours, q - n, p - n);
      }
    }
  }

  lemma AddedAt(ours: seq<ChildKey>, theirs: seq<ChildKey>, i: nat)
    requires i < |Unmatched(theirs, ours)|
    ensures var k := Unmatched(theirs, ours)[i]; k !in ours && k in theirs
  {
    UnmatchedMeaning(theirs, ours);
    assert Unmatched(theirs, ours)[i] in Unmatched(theirs, ours);
  }

  /** What is not taken stays in its order. */
  lemma {:induction false} UnmatchedInOrder(ks: seq<ChildKey>, taken: seq<ChildKey>, q: nat, p: nat)
    requires q < p < |Unmatched(ks, taken)|
    ensures Before(ks, Unmatched(ks, taken)[q], Unmatched(ks, taken)[p])
  {
    var front, u := Front(ks), Unmatched(Front(ks), taken);
    if p < |u| {
      UnmatchedInOrder(front, taken, q, p);
      var i, j :| 0 <= i < j < |front| && front[i] == u[q] && front[j] == u[p];
      assert ks[i] == u[q] && ks[j] == u[p];
    } else {
      AddedAt(taken, front, q);
      var i :| 0 <= i < |front| && front[i] == u[q];
      assert ks[i] == u[q] && ks[|ks| - 1] == Last(ks);
    }
  }

  // ----- Swapping the sides

  /** Equal up to the order of siblings, at every depth. */
  ghost predicate Similar(n: Node, m: Node)
    decreases n
  {
    || n == m
    || (&& n.ElementNode? && m.ElementNode?
        && n.localName == m.localName && n.namespaceUri == m.namespaceUri && n.attributes == m.attributes
        && |n.children| == |m.children|
        && exists p :: Permutation(p, |n.children|) && forall i :: 0 <= i < |n.children| ==>
          Similar(n.children[i], m.children[p[i]]))
  }

  /** No two siblings share local name and id, at any depth. */
  ghost predicate WellKeyed(n: Node) {
    n.ElementNode? ==> DistinctIds(KindsOf(n.children)) && forall c :: c in n.children ==> WellKeyed(c)
  }

  /** Both conflict, or both resolve to similar children or to none. */
  ghost predicate Alike(x: Merged<Node>, y: Merged<Node>) {
    if x.Conflict? || y.Conflict? then x == y
    else if x.value.None? || y.value.None? then x == y
    else Similar(x.value.value, y.value.value)
  }

  /** Swapping the sides changes neither whether a merge succeeds nor what it yields, up to
      the order of siblings. */
  lemma {:induction false} MergeSymmetric(a: Node, o: Node, t: Node)
    requires WellKeyed(o) && WellKeyed(t)
    ensures Merge(a, o, t).Some? <==> Merge(a, t, o).Some?
    ensures Merge(a, o, t).Some? ==> Similar(Merge(a, o, t).value, Merge(a, t, o).value)
    decreases a, 1
  {
    if Diverged(a, o, t) && SameName(a, o, t) {
      var f, g := Outcome(a, o, t), Outcome(a, t, o);
      forall k
        ensures Alike(f(k), g(k))
      {
        OutcomeSymmetric(a, o, t, k);
      }
      MergedAttributesSymmetric(a.attributes, o.attributes, t.attributes);
      KeyOrderDistinct(o, t);
      KeyOrderDistinct(t, o);
      KeyOrderMeaning(o, t);
      KeyOrderMeaning(t, o);
      GatherSymmetric(KeyOrder(o, t), KeyOrder(t, o), f, g);
    }
  }

  lemma {:induction false} OutcomeSymmetric(a: Node, o: Node, t: Node, k: ChildKey)
    requires a.ElementNode? && o.ElementNode? && t.ElementNode?
    requires WellKeyed(o) && WellKeyed(t)
    ensures Alike(Outcome(a, o, t)(k), Outcome(a, t, o)(k))
    decreases a, 0
  {
    var ac, oc, tc := Child(a, k), Child(o, k), Child(t, k);
    if Diff3(ac, oc, tc).Resolved? {
      OutcomeFlat(a, o, t, k);
      OutcomeFlat(a, t, o, k);
    } else {
      OutcomeDeep(a, o, t, k);
      OutcomeDeep(a, t, o, k);
      if ac.Some? && oc.Some? && tc.Some? {
        MergeSymmetric(ac.value, oc.value, tc.value);
      }
    }
  }

  /** Two orders of the same keys gather alike outcomes into reordered similar values. */
  lemma GatherSymmetric(ks: seq<ChildKey>, ls: seq<ChildKey>, f: ChildKey -> Merged<Node>, g: ChildKey -> Merged<Node>)
    requires NoRepeats(ks) && NoRepeats(ls) && forall k :: k in ks <==> k in ls
    requires forall k :: Alike(f(k), g(k))
    ensures Gather(ks, f).Some? <==> Gather(ls, g).Some?
    ensures Gather(ks, f).Some? ==>
      var xs, ys := Gather(ks, f).value, Gather(ls, g).value;
      && |xs| == |ys|
      && exists p :: Permutation(p, |xs|) && forall i :: 0 <= i < |xs| ==> Similar(xs[i], ys[p[i]])
  {
    GatherSucceeds(ks, f);
    GatherSucceeds(ls, g);
    assert forall k :: f(k).Resolved? <==> g(k).Resolved? by {
      assert forall k :: Alike(f(k), g(k)) ==> (f(k).Resolved? <==> g(k).Resolved?);
    }
    if Gather(ks, f).Some? {
      GatherHolds(ks, f);
      GatherHolds(ls, g);
      HeldMeaning(ks, f);
      HeldMeaning(ls, g);
      forall k
        ensures k in Held(ks, f) <==> k in Held(ls, g)
      {
        assert Alike(f(k), g(k));
      }
      var p := Reordering(Held(ks, f), Held(ls, g));
      var xs, ys := Gather(ks, f).value, Gather(ls, g).value;
      forall i | 0 <= i < |xs|
        ensures Similar(xs[i], ys[p[i]])
      {
        assert Alike(f(Held(ks, f)[i]), g(Held(ls, g)[p[i]]));
      }
    }
  }
}
