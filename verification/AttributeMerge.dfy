/** Three-way merge of attribute lists. */
module AttributeMerge {
  import opened Wrappers
  import opened Objects
  import opened Sequences
  import opened ThreeWay
  import opened Content

  type Attributes = map<AttributeName, string>

  function AttributeAt(a: Attributes, o: Attributes, t: Attributes, k: AttributeName): Merged<string> {
    Diff3(Lookup(a, k), Lookup(o, k), Lookup(t, k))
  }

  /** The pointwise three-way merge, unless some attribute conflicts. */
  function MergedAttributes(a: Attributes, o: Attributes, t: Attributes): Option<Attributes> {
    var names := a.Keys + o.Keys + t.Keys;
    if exists k | k in names :: AttributeAt(a, o, t, k).Conflict? then None
    else Some(map k | k in names && AttributeAt(a, o, t, k).value.Some? :: AttributeAt(a, o, t, k).value.value)
  }

  /** Swapping the sides gives the same attributes or the same refusal. */
  lemma MergedAttributesSymmetric(a: Attributes, o: Attributes, t: Attributes)
    ensures MergedAttributes(a, o, t) == MergedAttributes(a, t, o)
  {
    assert a.Keys + o.Keys + t.Keys == a.Keys + t.Keys + o.Keys;
    forall k
      ensures AttributeAt(a, o, t, k) == AttributeAt(a, t, o, k)
    {
    }
    var m, m' := MergedAttributes(a, o, t), MergedAttributes(a, t, o);
    if m.Some? {
      assert m.value == m'.value;
    }
  }

  /** An attribute that one side left alone is as the other has it, one that both made the
      same is so, and any other attribute that both changed is a conflict, which leaves no
      merge. */
  lemma AttributesSurvive(a: Attributes, o: Attributes, t: Attributes, k: AttributeName)
    ensures MergedAttributes(a, o, t).None? <==> exists x ::
      Lookup(o, x) != Lookup(t, x) && Lookup(o, x) != Lookup(a, x) && Lookup(t, x) != Lookup(a, x)
    ensures MergedAttributes(a, o, t).Some? ==>
      var m := MergedAttributes(a, o, t).value;
      && (Lookup(t, k) == Lookup(a, k) ==> Lookup(m, k) == Lookup(o, k))
      && (Lookup(o, k) == Lookup(a, k) ==> Lookup(m, k) == Lookup(t, k))
      && (Lookup(o, k) == Lookup(t, k) ==> Lookup(m, k) == Lookup(o, k))
  {
    if x :| Lookup(o, x) != Lookup(t, x) && Lookup(o, x) != Lookup(a, x) && Lookup(t, x) != Lookup(a, x) {
      assert AttributeAt(a, o, t, x).Conflict? && x in a.Keys + o.Keys + t.Keys;
    }
  }

  // ----- The order of the merged list

  function NamesIn(attributes: seq<Attribute>): (ns: seq<AttributeName>)
    ensures |ns| == |attributes|
  {
    seq(|attributes|, i requires 0 <= i < |attributes| => NameOf(attributes[i]))
  }

  /** The names, then those of `more` not among them, in the order they first occur. */
  function Extend(names: seq<AttributeName>, more: seq<AttributeName>): seq<AttributeName>
    decreases |more|
  {
    if more == [] then names
    else Extend(if more[0] in names then names else names + [more[0]], more[1..])
  }

  lemma {:induction false} ExtendMeaning(names: seq<AttributeName>, more: seq<AttributeName>)
    ensures names <= Extend(names, more)
    ensures forall k :: k in Extend(names, more) <==> k in names || k in more
    ensures NoRepeats(names) ==> NoRepeats(Extend(names, more))
    decreases |more|
  {
    if more != [] {
      assert more == [more[0]] + more[1..];
      ExtendMeaning(if more[0] in names then names else names + [more[0]], more[1..]);
    }
  }

  /** Names in the order of ours, then theirs, then the ancestor. */
  function MergeOrder(ancestor: seq<Attribute>, ours: seq<Attribute>, theirs: seq<Attribute>): seq<AttributeName> {
    Extend(Extend(Extend([], NamesIn(ours)), NamesIn(theirs)), NamesIn(ancestor))
  }

  function Keep(names: seq<AttributeName>, m: Attributes): seq<Attribute> {
    if names == [] then []
    else
      var k := names[|names| - 1];
      Keep(names[..|names| - 1], m) + if k in m then [Attribute(k.localName, k.namespaceUri, m[k])] else []
  }

  lemma {:induction false} KeepNames(names: seq<AttributeName>, m: Attributes)
    requires NoRepeats(names)
    ensures forall x :: x in Keep(names, m) ==> NameOf(x) in names
    ensures UniqueNames(Keep(names, m))
  {
    if names != [] {
      KeepNames(names[..|names| - 1], m);
    }
  }

  /** Collecting what was kept gives the map back, restricted to the names. */
  lemma {:induction false} KeepCollects(names: seq<AttributeName>, m: Attributes)
    ensures AttributeMap(Keep(names, m)) == map k | k in m && k in names :: m[k]
  {
    if names != [] {
      var k, front := names[|names| - 1], names[..|names| - 1];
      KeepCollects(front, m);
      assert names == front + [k];
      if k in m {
        var kept := Keep(names, m);
        assert NamedValues(kept)[..|kept| - 1] == NamedValues(Keep(front, m));
        assert AttributeMap(kept) == AttributeMap(Keep(front, m))[k := m[k]];
      } else {
        assert Keep(names, m) == Keep(front, m);
      }
    }
  }

  lemma KeepAll(names: seq<AttributeName>, m: Attributes)
    requires NoRepeats(names) && forall k :: k in m ==> k in names
    ensures AttributeMap(Keep(names, m)) == m && UniqueNames(Keep(names, m))
  {
    KeepNames(names, m);
    KeepCollects(names, m);
    assert m == map k | k in m && k in names :: m[k];
  }

  lemma NamesCollected(attributes: seq<Attribute>)
    ensures forall k :: k in AttributeMap(attributes) <==> k in NamesIn(attributes)
  {
    var ps := NamedValues(attributes);
    CollectHolds(ps);
    forall k | k in NamesIn(attributes)
      ensures k in AttributeMap(attributes)
    {
      var i :| 0 <= i < |attributes| && NamesIn(attributes)[i] == k;
      assert ps[i].0 == k;
    }
    forall k | k in AttributeMap(attributes)
      ensures k in NamesIn(attributes)
    {
      var i :| 0 <= i < |ps| && ps[i] == (k, Collect(ps)[k]);
      assert NamesIn(attributes)[i] == k;
    }
  }

  /** What is added comes after what was there, in its own order. */
  lemma {:induction false} ExtendInOrder(names: seq<AttributeName>, more: seq<AttributeName>, q: nat, p: nat)
    requires q < p < |Extend(names, more)| && |names| <= p
    ensures var ks := Extend(names, more);
      ks[p] !in names && if q < |names| then ks[p] in more else Before(more, ks[q], ks[p])
    decreases |more|
  {
    ExtendMeaning(names, more);
    if more != [] {
      var rest, ks := more[1..], Extend(names, more);
      assert more == [more[0]] + rest;
      var names' := if more[0] in names then names else names + [more[0]];
      ExtendMeaning(names', rest);
      if p < |names'| {
        assert ks[p] == more[0];
      } else {
        ExtendInOrder(names', rest, q, p);
        LaterBefore(more, ks[q], ks[p]);
      }
    }
  }

  lemma LaterBefore(more: seq<AttributeName>, x: AttributeName, y: AttributeName)
    requires more != []
    ensures Before(more[1..], x, y) ==> Before(more, x, y)
    ensures x == more[0] && y in more[1..] ==> Before(more, x, y)
  {
    var rest := more[1..];
    if i, j :| 0 <= i < j < |rest| && rest[i] == x && rest[j] == y {
      assert more[i + 1] == x && more[j + 1] == y;
    }
    if x == more[0] && y in rest {
      var j :| 0 <= j < |rest| && rest[j] == y;
      assert more[0] == x && more[j + 1] == y;
    }
  }

  /** Names come in our order, and after them what only they have, in theirs. */
  lemma MergeOrderPlaces(ancestor: seq<Attribute>, ours: seq<Attribute>, theirs: seq<Attribute>, q: nat, p: nat)
    requires q < p < |MergeOrder(ancestor, ours, theirs)|
    requires var y := MergeOrder(ancestor, ours, theirs)[p]; y in NamesIn(ours) || y in NamesIn(theirs)
    ensures var ks := MergeOrder(ancestor, ours, theirs); Precedes(NamesIn(ours), NamesIn(theirs), ks[q], ks[p])
  {
    var first := Extend([], NamesIn(ours));
    var both := Extend(first, NamesIn(theirs));
    ExtendMeaning([], NamesIn(ours));
    ExtendMeaning(first, NamesIn(theirs));
    ExtendMeaning(both, NamesIn(ancestor));
    if p >= |both| {
      ExtendInOrder(both, NamesIn(ancestor), q, p);
    } else if p >= |first| {
      ExtendInOrder(first, NamesIn(theirs), q, p);
    } else {
      ExtendInOrder([], NamesIn(ours), q, p);
    }
  }

  /** What is kept stays in the order of the names. */
  lemma {:induction false} KeepInOrder(names: seq<AttributeName>, m: Attributes, q: nat, p: nat)
    returns (i: nat, j: nat)
    requires q < p < |Keep(names, m)|
    ensures i < j < |names| && names[i] == NameOf(Keep(names, m)[q]) && names[j] == NameOf(Keep(names, m)[p])
    ensures names[j] in m
  {
    var front := names[..|names| - 1];
    if p < |Keep(front, m)| {
      i, j := KeepInOrder(front, m, q, p);
    } else {
      i := KeptFrom(front, m, q);
      j := |names| - 1;
    }
  }

  lemma {:induction false} KeptFrom(names: seq<AttributeName>, m: Attributes, q: nat) returns (i: nat)
    requires q < |Keep(names, m)|
    ensures i < |names| && names[i] == NameOf(Keep(names, m)[q])
  {
    var front := names[..|names| - 1];
    if q < |Keep(front, m)| {
      i := KeptFrom(front, m, q);
    } else {
      i := |names| - 1;
    }
  }

  /** The attributes come in our order, and after them what only they have, in theirs. */
  ghost predicate OursThenTheirs(ours: seq<Attribute>, theirs: seq<Attribute>, merged: seq<Attribute>) {
    forall q, p :: 0 <= q < p < |merged| ==>
      Precedes(NamesIn(ours), NamesIn(theirs), NameOf(merged[q]), NameOf(merged[p]))
  }

  lemma MergedInOrder(ancestor: seq<Attribute>, ours: seq<Attribute>, theirs: seq<Attribute>)
    requires MergedAttributes(AttributeMap(ancestor), AttributeMap(ours), AttributeMap(theirs)).Some?
    ensures OursThenTheirs(ours, theirs, Keep(MergeOrder(ancestor, ours, theirs),
      MergedAttributes(AttributeMap(ancestor), AttributeMap(ours), AttributeMap(theirs)).value))
  {
    var order := MergeOrder(ancestor, ours, theirs);
    var m := MergedAttributes(AttributeMap(ancestor), AttributeMap(ours), AttributeMap(theirs)).value;
    var merged := Keep(order, m);
    NamesCollected(ours);
    NamesCollected(theirs);
    forall q, p | 0 <= q < p < |merged|
      ensures Precedes(NamesIn(ours), NamesIn(theirs), NameOf(merged[q]), NameOf(merged[p]))
    {
      var i, j := KeepInOrder(order, m, q, p);
      AttributesSurvive(AttributeMap(ancestor), AttributeMap(ours), AttributeMap(theirs), order[j]);
      MergeOrderPlaces(ancestor, ours, theirs, i, j);
    }
  }

  // ----- The merge in place

  method AppendNew(names: seq<AttributeName>, attributes: seq<Attribute>) returns (ordered: seq<AttributeName>)
    ensures ordered == Extend(names, NamesIn(attributes))
  {
    ordered := names;
    var seen := set k | k in names;
    var i := 0;
    while i < |attributes|
      invariant 0 <= i <= |attributes|
      invariant Extend(ordered, NamesIn(attributes)[i..]) == Extend(names, NamesIn(attributes))
      invariant forall k :: k in seen <==> k in ordered
    {
      var key := NameOf(attributes[i]);
      assert NamesIn(attributes)[i..][1..] == NamesIn(attributes)[i + 1..];
      if key !in seen {
        seen := seen + {key};
        ordered := ordered + [key];
      }
      i := i + 1;
    }
  }

  lemma MergeOrderMeaning(ancestor: seq<Attribute>, ours: seq<Attribute>, theirs: seq<Attribute>)
    ensures NoRepeats(MergeOrder(ancestor, ours, theirs))
    ensures forall k :: k in MergeOrder(ancestor, ours, theirs) <==>
                        k in AttributeMap(ancestor) || k in AttributeMap(ours) || k in AttributeMap(theirs)
  {
    ExtendMeaning([], NamesIn(ours));
    ExtendMeaning(Extend([], NamesIn(ours)), NamesIn(theirs));
    ExtendMeaning(Extend(Extend([], NamesIn(ours)), NamesIn(theirs)), NamesIn(ancestor));
    NamesCollected(ancestor);
    NamesCollected(ours);
    NamesCollected(theirs);
  }

  /** The merged list holds the pointwise three-way merge, each name once, in the order of
      ours and then theirs; None is returned exactly when some name conflicts. */
  method MergeAttributes(ancestor: seq<Attribute>, ours: seq<Attribute>, theirs: seq<Attribute>)
    returns (r: Option<seq<Attribute>>)
    ensures var merged := MergedAttributes(AttributeMap(ancestor), AttributeMap(ours), AttributeMap(theirs));
      && (r.None? <==> merged.None?)
      && (r.Some? ==>
            && r.value == Keep(MergeOrder(ancestor, ours, theirs), merged.value)
            && AttributeMap(r.value) == merged.value
            && UniqueNames(r.value) && OursThenTheirs(ours, theirs, r.value))
  {
    var anc, our, their := AttributeMap(ancestor), AttributeMap(ours), AttributeMap(theirs);
    var ordered := AppendNew([], ours);
    ordered := AppendNew(ordered, theirs);
    ordered := AppendNew(ordered, ancestor);
    MergeOrderMeaning(ancestor, ours, theirs);
    r := MergeInOrder(anc, our, their, ordered);
    if r.Some? {
      KeepAll(ordered, MergedAttributes(anc, our, their).value);
      MergedInOrder(ancestor, ours, theirs);
    }
  }

  method MergeInOrder(anc: Attributes, our: Attributes, their: Attributes, ordered: seq<AttributeName>)
    returns (r: Option<seq<Attribute>>)
    requires forall k :: k in ordered <==> k in anc.Keys + our.Keys + their.Keys
    ensures var merged := MergedAttributes(anc, our, their);
      && (r.None? <==> merged.None?)
      && (r.Some? ==> r.value == Keep(ordered, merged.value))
  {
    var merged: seq<Attribute> := [];
    ghost var m := MergedAttributes(anc, our, their);
    var i := 0;
    while i < |ordered|
      invariant 0 <= i <= |ordered|
      invariant forall j :: 0 <= j < i ==> AttributeAt(anc, our, their, ordered[j]).Resolved?
      invariant m.Some? ==> merged == Keep(ordered[..i], m.value)
    {
      var key := ordered[i];
      assert key in ordered;
      assert ordered[..i + 1][..i] == ordered[..i];
      var v := MergeCases(Lookup(anc, key), Lookup(our, key), Lookup(their, key));
      if v.Conflict? {
        return None;
      }
      if v.value.Some? {
        merged := merged + [Attribute(key.localName, key.namespaceUri, v.value.value)];
      }
      i := i + 1;
    }
    assert ordered[..i] == ordered;
    return Some(merged);
  }
}
