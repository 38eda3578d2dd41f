/** The three-way rule every level of a merge follows, and the lookup tables it reads. */
module ThreeWay {
  import opened Wrappers
  import opened Sequences

  datatype Merged<+T> = Resolved(value: Option<T>) | Conflict

  /** What a key holds after a merge, given what it holds (or does not) in the ancestor, on
      our side and on theirs: a side that did not change yields to the other. */
  function Diff3<T(==)>(a: Option<T>, o: Option<T>, t: Option<T>): Merged<T> {
    if o == t then Resolved(o)
    else if t == a then Resolved(o)
    else if o == a then Resolved(t)
    else Conflict
  }

  /** The cases the merges distinguish, one by one; together they are the rule. */
  function MergeCases<T(==)>(a: Option<T>, o: Option<T>, t: Option<T>): (r: Merged<T>)
    ensures r == Diff3(a, o, t)
    ensures r.Conflict? <==> o != t && o != a && t != a
    ensures (t == a || o == t ==> r == Resolved(o)) && (o == a ==> r == Resolved(t))
  {
    match (a, o, t)
    case (Some(av), Some(ov), Some(tv)) =>
      if ov == tv || tv == av then Resolved(Some(ov)) else if ov == av then Resolved(Some(tv)) else Conflict
    case (None, Some(ov), None) => Resolved(Some(ov))
    case (None, None, Some(tv)) => Resolved(Some(tv))
    case (None, Some(ov), Some(tv)) => if ov == tv then Resolved(Some(ov)) else Conflict
    case (Some(av), None, Some(tv)) => if tv == av then Resolved(None) else Conflict
    case (Some(av), Some(ov), None) => if ov == av then Resolved(None) else Conflict
    case (_, None, None) => Resolved(None)
  }

  /** What results is what one of the sides holds. */
  lemma FromASide<T>(a: Option<T>, o: Option<T>, t: Option<T>)
    requires Diff3(a, o, t).Resolved?
    ensures Diff3(a, o, t).value == o || Diff3(a, o, t).value == t
  {
  }

  /** A change on one side only is what results. */
  lemma OneSided<T>(a: Option<T>, o: Option<T>, t: Option<T>)
    requires t == a || o == a
    ensures Diff3(a, o, t) == Resolved(if t == a then o else t)
  {
  }

  function Lookup<K, V>(m: map<K, V>, k: K): Option<V> {
    if k in m then Some(m[k]) else None
  }

  /** The table a list of pairs collects into: a later pair replaces an earlier one. */
  function Collect<K, V>(pairs: seq<(K, V)>): map<K, V> {
    if pairs == [] then map[]
    else Collect(pairs[..|pairs| - 1])[pairs[|pairs| - 1].0 := pairs[|pairs| - 1].1]
  }

  lemma {:induction false} CollectHolds<K, V>(pairs: seq<(K, V)>)
    ensures forall i :: 0 <= i < |pairs| ==> pairs[i].0 in Collect(pairs)
    ensures forall k :: k in Collect(pairs) ==> exists i :: 0 <= i < |pairs| && pairs[i] == (k, Collect(pairs)[k])
  {
    if pairs != [] {
      var front := pairs[..|pairs| - 1];
      CollectHolds(front);
      forall k | k in Collect(pairs)
        ensures exists i :: 0 <= i < |pairs| && pairs[i] == (k, Collect(pairs)[k])
      {
        if k == pairs[|pairs| - 1].0 {
          assert pairs[|pairs| - 1] == (k, Collect(pairs)[k]);
        } else {
          assert k in Collect(front) && Collect(front)[k] == Collect(pairs)[k];
          var i :| 0 <= i < |front| && front[i] == (k, Collect(front)[k]);
          assert pairs[i] == (k, Collect(pairs)[k]);
        }
      }
      forall i | 0 <= i < |pairs|
        ensures pairs[i].0 in Collect(pairs)
      {
        if i < |front| {
          assert front[i].0 in Collect(front);
        }
      }
    }
  }

  ghost predicate DistinctKeys<K, V>(pairs: seq<(K, V)>) {
    forall i, j :: 0 <= i < j < |pairs| ==> pairs[i].0 != pairs[j].0
  }

  /** With distinct keys every pair is found. */
  lemma CollectDistinct<K, V>(pairs: seq<(K, V)>, i: nat)
    requires DistinctKeys(pairs) && i < |pairs|
    ensures Lookup(Collect(pairs), pairs[i].0) == Some(pairs[i].1)
  {
    CollectHolds(pairs);
  }

  // ----- Gathering what keys hold

  predicate Holds<T>(m: Merged<T>) {
    m.Resolved? && m.value.Some?
  }

  /** What the keys hold, in order, unless one conflicts. */
  function Gather<K, T>(ks: seq<K>, f: K -> Merged<T>): Option<seq<T>> {
    if ks == [] then Some([])
    else
      var front, last := Gather(Front(ks), f), f(Last(ks));
      if front.None? || last.Conflict? then None
      else Some(front.value + if last.value.Some? then [last.value.value] else [])
  }

  /** The keys that hold something, in order. */
  function Held<K, T>(ks: seq<K>, f: K -> Merged<T>): seq<K> {
    if ks == [] then [] else Held(Front(ks), f) + if Holds(f(Last(ks))) then [Last(ks)] else []
  }

  lemma {:induction false} GatherSucceeds<K, T>(ks: seq<K>, f: K -> Merged<T>)
    ensures Gather(ks, f).Some? <==> forall k :: k in ks ==> f(k).Resolved?
  {
    if ks != [] {
      GatherSucceeds(Front(ks), f);
    }
  }

  /** Each gathered value is what its key holds. */
  lemma {:induction false} GatherHolds<K, T>(ks: seq<K>, f: K -> Merged<T>)
    requires Gather(ks, f).Some?
    ensures |Gather(ks, f).value| == |Held(ks, f)|
    ensures forall i :: 0 <= i < |Held(ks, f)| ==> f(Held(ks, f)[i]) == Resolved(Some(Gather(ks, f).value[i]))
  {
    if ks != [] {
      GatherHolds(Front(ks), f);
    }
  }

  lemma {:induction false} HeldMeaning<K, T>(ks: seq<K>, f: K -> Merged<T>)
    ensures forall k :: k in Held(ks, f) <==> k in ks && Holds(f(k))
    ensures NoRepeats(ks) ==> NoRepeats(Held(ks, f))
  {
    if ks != [] {
      HeldMeaning(Front(ks), f);
    }
  }

  /** A key's value is gathered exactly when it holds one. */
  lemma GatherAt<K, T>(ks: seq<K>, f: K -> Merged<T>, k: K)
    requires Gather(ks, f).Some? && k in ks
    ensures if Holds(f(k)) then f(k).value.value in Gather(ks, f).value else k !in Held(ks, f)
  {
    HeldMeaning(ks, f);
    GatherHolds(ks, f);
    if Holds(f(k)) {
      var i :| 0 <= i < |Held(ks, f)| && Held(ks, f)[i] == k;
    } else {
      GatherSucceeds(ks, f);
    }
  }

  /** What is held stays in the order of the keys. */
  lemma {:induction false} HeldInOrder<K, T>(ks: seq<K>, f: K -> Merged<T>, j: nat, i: nat) returns (q: nat, p: nat)
    requires j < i < |Held(ks, f)|
    ensures q < p < |ks| && ks[q] == Held(ks, f)[j] && ks[p] == Held(ks, f)[i]
  {
    if i < |Held(Front(ks), f)| {
      q, p := HeldInOrder(Front(ks), f, j, i);
    } else {
      HeldMeaning(Front(ks), f);
      var x := Held(Front(ks), f)[j];
      assert x in Held(Front(ks), f);
      q := IndexOf(Front(ks), x);
      p := |ks| - 1;
    }
  }
}
