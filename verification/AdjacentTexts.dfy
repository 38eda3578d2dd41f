/** Texts that a merge puts side by side: which they are when a document is written and read
    again, they are no more. */
module AdjacentTexts {
  import opened Wrappers
  import opened Sequences
  import opened ThreeWay
  import opened Content
  import opened ChildKeys
  import opened AttributeMerge
  import opened ElementMerge
  import opened StoreMerge

  /** No two texts are side by side. */
  predicate TextsApart(nodes: seq<Node>) {
    forall i :: 0 <= i < |nodes| - 1 ==> !(nodes[i].TextNode? && nodes[i + 1].TextNode?)
  }

  // ----- What a key says of its child

  lemma ChildAt(n: Node, k: ChildKey)
    requires n.ElementNode? && Child(n, k).Some?
    ensures HasKey(n, k) && (Child(n, k).value.TextNode? <==> k.TextAt?)
  {
    var i := PairedAt(Keys(n.children), n.children, k);
    TextKeyAt(n.children, i);
  }

  lemma PairedAt(ks: seq<ChildKey>, xs: seq<Node>, k: ChildKey) returns (i: nat)
    requires |ks| == |xs| && Lookup(Collect(Pair(ks, xs)), k).Some?
    ensures i < |ks| && ks[i] == k && xs[i] == Lookup(Collect(Pair(ks, xs)), k).value
  {
    var ps := Pair(ks, xs);
    CollectHolds(ps);
    i :| 0 <= i < |ps| && ps[i] == (k, Collect(ps)[k]);
  }

  /** What a merge holds under a key is a text exactly if the key is a text's. */
  lemma OutcomeText(a: Node, o: Node, t: Node, k: ChildKey)
    requires a.ElementNode? && o.ElementNode? && t.ElementNode? && Holds(Outcome(a, o, t)(k))
    ensures Outcome(a, o, t)(k).value.value.TextNode? <==> k.TextAt?
  {
    if Diff3(Child(a, k), Child(o, k), Child(t, k)).Resolved? {
      OutcomeFlat(a, o, t, k);
      FromASide(Child(a, k), Child(o, k), Child(t, k));
      if Child(o, k) == Outcome(a, o, t)(k).value {
        ChildAt(o, k);
      } else {
        ChildAt(t, k);
      }
    } else {
      DeepText(a, o, t, k);
    }
  }

  lemma DeepText(a: Node, o: Node, t: Node, k: ChildKey)
    requires a.ElementNode? && o.ElementNode? && t.ElementNode? && Holds(Outcome(a, o, t)(k))
    requires Diff3(Child(a, k), Child(o, k), Child(t, k)).Conflict?
    ensures Outcome(a, o, t)(k).value.value.ElementNode? && !k.TextAt?
  {
    OutcomeDeep(a, o, t, k);
    MergeIsElement(Child(a, k).value, Child(o, k).value, Child(t, k).value);
    ChildAt(o, k);
  }

  lemma MergeIsElement(a: Node, o: Node, t: Node)
    requires Diverged(a, o, t) && Merge(a, o, t).Some?
    ensures o.ElementNode? && Merge(a, o, t).value.ElementNode?
  {
  }

  /** The merged children hold two texts side by side exactly if two keys of texts that follow
      each other among those kept do. */
  lemma TextsApartExactly(a: Node, o: Node, t: Node)
    requires Diverged(a, o, t) && Merge(a, o, t).Some?
    ensures SameName(a, o, t)
    ensures var kept := KeptKeys(a, o, t);
      TextsApart(Merge(a, o, t).value.children) <==>
        TextKeysApart(kept)
  {
    MergeIsPerKey(a, o, t);
    var kept, children := KeptKeys(a, o, t), Merge(a, o, t).value.children;
    forall i | 0 <= i < |kept|
      ensures children[i].TextNode? <==> kept[i].TextAt?
    {
      OutcomeText(a, o, t, kept[i]);
    }
  }

  // ----- When a merge keeps texts apart

  lemma {:induction false} HeldAll(ks: seq<ChildKey>, f: ChildKey -> Merged<Node>)
    requires forall k :: k in ks ==> Holds(f(k))
    ensures Held(ks, f) == ks
  {
    if ks != [] {
      HeldAll(Front(ks), f);
    }
  }

  lemma {:induction false} HeldConcat(ks: seq<ChildKey>, ls: seq<ChildKey>, f: ChildKey -> Merged<Node>)
    ensures Held(ks + ls, f) == Held(ks, f) + Held(ls, f)
  {
    if ls == [] {
      assert ks + ls == ks;
    } else {
      assert Front(ks + ls) == ks + Front(ls) && Last(ks + ls) == Last(ls);
      HeldConcat(ks, Front(ls), f);
    }
  }

  lemma KeysOfApart(nodes: seq<Node>)
    requires TextsApart(nodes)
    ensures TextKeysApart(Keys(nodes))
  {
    forall i | 0 <= i < |nodes|
      ensures Keys(nodes)[i].TextAt? <==> nodes[i].TextNode?
    {
      TextKeyAt(nodes, i);
    }
  }

  lemma {:induction false} TextKeyAt(nodes: seq<Node>, i: nat)
    requires i < |nodes|
    ensures Keys(nodes)[i].TextAt? <==> nodes[i].TextNode?
  {
    var kinds := KindsOf(nodes);
    assert kinds[i].Texts? <==> nodes[i].TextNode?;
    KindKeyAt(kinds, i);
  }

  lemma {:induction false} KindKeyAt(kinds: seq<Kind>, i: nat)
    requires i < |kinds|
    ensures KeysOf(kinds)[i].TextAt? <==> kinds[i].Texts?
  {
    MakeKeyText(Last(kinds), Count(Front(kinds), Last(kinds)));
    if i < |kinds| - 1 {
      KindKeyAt(Front(kinds), i);
    }
  }

  lemma MakeKeyText(k: Kind, c: nat)
    ensures MakeKey(k, c).TextAt? <==> k.Texts?
  {
  }

  /** No two keys of texts follow each other. */
  predicate TextKeysApart(ks: seq<ChildKey>) {
    forall i :: 0 <= i < |ks| - 1 ==> !(ks[i].TextAt? && ks[i + 1].TextAt?)
  }

  lemma ApartConcat(ks: seq<ChildKey>, ls: seq<ChildKey>)
    requires TextKeysApart(ks) && forall k :: k in ls ==> !k.TextAt?
    ensures TextKeysApart(ks + ls)
  {
    forall i | 0 <= i < |ks + ls| - 1
      ensures !((ks + ls)[i].TextAt? && (ks + ls)[i + 1].TextAt?)
    {
      if i + 1 >= |ks| {
        assert (ks + ls)[i + 1] == ls[i + 1 - |ks|];
        assert ls[i + 1 - |ks|] in ls;
      }
    }
  }

  /** The keys kept, if all of ours are. */
  lemma OursKept(a: Node, o: Node, t: Node)
    requires a.ElementNode? && o.ElementNode? && t.ElementNode?
    requires forall k :: HasKey(o, k) ==> Holds(Outcome(a, o, t)(k))
    ensures KeptKeys(a, o, t) ==
      Keys(o.children) + Held(Unmatched(Keys(t.children), Keys(o.children)), Outcome(a, o, t))
  {
    var f, ours := Outcome(a, o, t), Keys(o.children);
    HeldConcat(ours, Unmatched(Keys(t.children), ours), f);
    HeldAll(ours, f);
  }

  lemma AddedNotTexts(a: Node, o: Node, t: Node)
    requires a.ElementNode? && o.ElementNode? && t.ElementNode?
    requires forall k :: HasKey(t, k) && !HasKey(o, k) && Holds(Outcome(a, o, t)(k)) ==> !k.TextAt?
    ensures forall k :: k in Held(Unmatched(Keys(t.children), Keys(o.children)), Outcome(a, o, t)) ==> !k.TextAt?
  {
    HeldMeaning(Unmatched(Keys(t.children), Keys(o.children)), Outcome(a, o, t));
    UnmatchedMeaning(Keys(t.children), Keys(o.children));
  }

  /** A merge that keeps all of our children, and takes over no text that only they have, keeps
      our texts apart. */
  lemma TextsStayApart(a: Node, o: Node, t: Node)
    requires Diverged(a, o, t) && Merge(a, o, t).Some? && TextsApart(o.children)
    requires SameName(a, o, t) && forall k :: HasKey(o, k) ==> Holds(Outcome(a, o, t)(k))
    requires forall k :: HasKey(t, k) && !HasKey(o, k) && Holds(Outcome(a, o, t)(k)) ==> !k.TextAt?
    ensures TextsApart(Merge(a, o, t).value.children)
  {
    var added := Held(Unmatched(Keys(t.children), Keys(o.children)), Outcome(a, o, t));
    OursKept(a, o, t);
    KeysOfApart(o.children);
    AddedNotTexts(a, o, t);
    ApartConcat(Keys(o.children), added);
    TextsApartExactly(a, o, t);
  }

  // ----- When it does not

  function Plain(name: string, children: seq<Node>): Node {
    ElementNode(name, None, map[], children)
  }

  lemma Looked(n: Node, i: nat)
    requires n.ElementNode? && DistinctIds(KindsOf(n.children)) && i < |n.children|
    ensures Child(n, Keys(n.children)[i]) == Some(n.children[i])
  {
    KeysDistinct(KindsOf(n.children));
    PairedDistinct(Keys(n.children), n.children, i);
  }

  lemma PairedDistinct(ks: seq<ChildKey>, xs: seq<Node>, i: nat)
    requires |ks| == |xs| && NoRepeats(ks) && i < |ks|
    ensures Lookup(Collect(Pair(ks, xs)), ks[i]) == Some(xs[i])
  {
    assert DistinctKeys(Pair(ks, xs));
    CollectDistinct(Pair(ks, xs), i);
  }

  lemma NotLooked(n: Node, k: ChildKey)
    requires n.ElementNode? && !HasKey(n, k)
    ensures Child(n, k) == None
  {
    if Child(n, k).Some? {
      ChildAt(n, k);
    }
  }

  lemma GatherNext(ks: seq<ChildKey>, k: ChildKey, f: ChildKey -> Merged<Node>)
    requires Gather(ks, f).Some? && f(k).Resolved?
    ensures Gather(ks + [k], f) == Some(Gather(ks, f).value + if f(k).value.Some? then [f(k).value.value] else [])
  {
    assert Front(ks + [k]) == ks && Last(ks + [k]) == k;
  }

  lemma {:induction false} KeysNext(kinds: seq<Kind>, k: Kind)
    ensures KeysOf(kinds + [k]) == KeysOf(kinds) + [MakeKey(k, Count(kinds, k))]
  {
    assert Front(kinds + [k]) == kinds && Last(kinds + [k]) == k;
  }

  const P := Plain("p", [])
  const Q := Plain("q", [])
  const R := Plain("r", [])

  lemma KeysOfThree(u: string, v: string, e: Node)
    requires e == P || e == R
    ensures Keys([TextNode(u), e, TextNode(v)]) == [TextAt(0), ElementByPos(e.localName, 0), TextAt(1)]
  {
    var kinds := KindsOf([TextNode(u), e, TextNode(v)]);
    assert kinds == [] + [Texts] + [Named(e.localName)] + [Texts];
    KeysAround(Named(e.localName));
  }

  lemma KeysAround(k: Kind)
    requires k.Named?
    ensures KeysOf([] + [Texts] + [k] + [Texts]) == [TextAt(0), MakeKey(k, 0), TextAt(1)]
  {
    KeysNext([], Texts);
    KeysNext([] + [Texts], k);
    KeysNext([] + [Texts] + [k], Texts);
    CountOf([], Texts, k);
    CountOf([] + [Texts], k, Texts);
    CountOf([], Texts, Texts);
  }

  lemma CountOf(kinds: seq<Kind>, last: Kind, k: Kind)
    ensures Count(kinds + [last], k) == Count(kinds, k) + if last == k then 1 else 0
  {
    assert Front(kinds + [last]) == kinds && Last(kinds + [last]) == last;
  }

  lemma KeysOfFour(u: string, v: string)
    ensures Keys([TextNode(u), P, TextNode(v), Q]) ==
      [TextAt(0), ElementByPos("p", 0), TextAt(1), ElementByPos("q", 0)]
  {
    KeysOfThree(u, v, P);
    var three := KindsOf([TextNode(u), P, TextNode(v)]);
    assert KindsOf([TextNode(u), P, TextNode(v), Q]) == three + [Named("q")];
    KeysNext(three, Named("q"));
    assert three == [] + [Texts] + [Named("p")] + [Texts];
    CountOf([] + [Texts] + [Named("p")], Texts, Named("q"));
    CountOf([] + [Texts], Named("p"), Named("q"));
    CountOf([], Texts, Named("q"));
  }

  /** The ancestor, our version with a child added, and theirs with one replaced. */
  function Base(u: string, v: string): Node {
    Plain("e", [TextNode(u), P, TextNode(v)])
  }

  function Ours(u: string, v: string): Node {
    Plain("e", [TextNode(u), P, TextNode(v), Q])
  }

  function Theirs(u: string, v: string): Node {
    Plain("e", [TextNode(u), R, TextNode(v)])
  }

  lemma TextOutcomes(u: string, v: string)
    ensures var f := Outcome(Base(u, v), Ours(u, v), Theirs(u, v));
      f(TextAt(0)) == Resolved(Some(TextNode(u))) && f(TextAt(1)) == Resolved(Some(TextNode(v)))
  {
    var a, o, t := Base(u, v), Ours(u, v), Theirs(u, v);
    KeysOfThree(u, v, P);
    KeysOfThree(u, v, R);
    KeysOfFour(u, v);
    Looked(a, 0);
    Looked(o, 0);
    Looked(t, 0);
    OutcomeFlat(a, o, t, TextAt(0));
    Looked(a, 2);
    Looked(o, 2);
    Looked(t, 2);
    OutcomeFlat(a, o, t, TextAt(1));
  }

  lemma RemovedOutcome(u: string, v: string)
    ensures Outcome(Base(u, v), Ours(u, v), Theirs(u, v))(ElementByPos("p", 0)) == Resolved(None)
  {
    var a, o, t := Base(u, v), Ours(u, v), Theirs(u, v);
    KeysOfThree(u, v, P);
    KeysOfThree(u, v, R);
    KeysOfFour(u, v);
    Looked(a, 1);
    Looked(o, 1);
    NotLooked(t, ElementByPos("p", 0));
    OutcomeFlat(a, o, t, ElementByPos("p", 0));
  }

  lemma ReplacedOutcome(u: string, v: string)
    ensures Outcome(Base(u, v), Ours(u, v), Theirs(u, v))(ElementByPos("r", 0)) == Resolved(Some(R))
  {
    var a, o, t := Base(u, v), Ours(u, v), Theirs(u, v);
    KeysOfThree(u, v, P);
    KeysOfThree(u, v, R);
    KeysOfFour(u, v);
    Looked(t, 1);
    NotLooked(a, ElementByPos("r", 0));
    NotLooked(o, ElementByPos("r", 0));
    OutcomeFlat(a, o, t, ElementByPos("r", 0));
  }

  lemma AddedOutcome(u: string, v: string)
    ensures Outcome(Base(u, v), Ours(u, v), Theirs(u, v))(ElementByPos("q", 0)) == Resolved(Some(Q))
  {
    var a, o, t := Base(u, v), Ours(u, v), Theirs(u, v);
    KeysOfThree(u, v, P);
    KeysOfThree(u, v, R);
    KeysOfFour(u, v);
    Looked(o, 3);
    NotLooked(a, ElementByPos("q", 0));
    NotLooked(t, ElementByPos("q", 0));
    OutcomeFlat(a, o, t, ElementByPos("q", 0));
  }

  /** Five keys, of which the second holds nothing. */
  lemma GatherFive(ks: seq<ChildKey>, f: ChildKey -> Merged<Node>, ns: seq<Node>)
    requires |ks| == 5 && |ns| == 4 && f(ks[0]) == Resolved(Some(ns[0])) && f(ks[1]) == Resolved(None)
    requires f(ks[2]) == Resolved(Some(ns[1])) && f(ks[3]) == Resolved(Some(ns[2])) && f(ks[4]) == Resolved(Some(ns[3]))
    ensures Gather(ks, f) == Some(ns)
  {
    GatherNext([], ks[0], f);
    GatherNext([] + [ks[0]], ks[1], f);
    GatherNext([] + [ks[0]] + [ks[1]], ks[2], f);
    GatherNext([] + [ks[0]] + [ks[1]] + [ks[2]], ks[3], f);
    GatherNext([] + [ks[0]] + [ks[1]] + [ks[2]] + [ks[3]], ks[4], f);
    assert ks == [] + [ks[0]] + [ks[1]] + [ks[2]] + [ks[3]] + [ks[4]];
    assert ns == [] + [ns[0]] + [] + [ns[1]] + [ns[2]] + [ns[3]];
  }

  lemma MergedChildren(u: string, v: string)
    ensures Gather(KeyOrder(Ours(u, v), Theirs(u, v)), Outcome(Base(u, v), Ours(u, v), Theirs(u, v))) ==
      Some([TextNode(u), TextNode(v), Q, R])
  {
    var o, t := Ours(u, v), Theirs(u, v);
    TextOutcomes(u, v);
    RemovedOutcome(u, v);
    ReplacedOutcome(u, v);
    AddedOutcome(u, v);
    OrderOfFive(u, v);
    GatherFive(FIVE, Outcome(Base(u, v), o, t), [TextNode(u), TextNode(v), Q, R]);
  }

  const FIVE := [TextAt(0), ElementByPos("p", 0), TextAt(1), ElementByPos("q", 0), ElementByPos("r", 0)]

  lemma OrderOfFive(u: string, v: string)
    ensures KeyOrder(Ours(u, v), Theirs(u, v)) == FIVE
  {
    KeysOfThree(u, v, R);
    KeysOfFour(u, v);
    UnmatchedOfThree(TextAt(0), ElementByPos("r", 0), TextAt(1),
      [TextAt(0), ElementByPos("p", 0), TextAt(1), ElementByPos("q", 0)]);
  }

  /** A clean merge that leaves two texts side by side, although no version has such: they
      replaced the child between the texts, and we added one at the end. */
  lemma MergeJoinsTexts(u: string, v: string)
    ensures Merge(Base(u, v), Ours(u, v), Theirs(u, v)) == Some(Plain("e", [TextNode(u), TextNode(v), Q, R]))
    ensures TextsApart(Base(u, v).children) && TextsApart(Ours(u, v).children) && TextsApart(Theirs(u, v).children)
  {
    var a, o, t := Base(u, v), Ours(u, v), Theirs(u, v);
    MergedChildren(u, v);
    assert o.children[1] == P && t.children[1] == R && |a.children| == 3 && |o.children| == 4;
    assert a.children[1] == P;
    assert Diverged(a, o, t) && SameName(a, o, t);
    assert MergedAttributes(map[], map[], map[]) == Some(map[]);
  }

  lemma UnmatchedOfThree(k0: ChildKey, k: ChildKey, k1: ChildKey, taken: seq<ChildKey>)
    requires k0 in taken && k1 in taken && k !in taken
    ensures Unmatched([k0, k, k1], taken) == [k]
  {
    assert Front([k0, k, k1]) == [k0, k] && Front([k0, k]) == [k0] && Front([k0]) == [];
    assert Unmatched([k0], taken) == [];
    assert Unmatched([k0, k], taken) == [k];
  }

  /** Two texts side by side are written as one, so the merged element has the hash of the
      element with the one text, which the merged document reads as. Where the versions are
      known, the latter is not. */
  lemma MergedTextsClash(hx: Hashing, u: string, v: string)
    requires CollisionFree(hx) && MergeClosed(hx)
    requires hx.node(Plain("e", [TextNode(u), TextNode(v), Q, R])) == hx.node(Plain("e", [TextNode(u + v), Q, R]))
    requires hx.known(Base(u, v)) && hx.known(Ours(u, v)) && hx.known(Theirs(u, v))
    ensures !hx.known(Plain("e", [TextNode(u + v), Q, R]))
  {
    MergeJoinsTexts(u, v);
    assert |[TextNode(u), TextNode(v), Q, R]| != |[TextNode(u + v), Q, R]|;
  }
}
