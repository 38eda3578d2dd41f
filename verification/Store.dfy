/** The object store: a map from hashes to objects, written in transactions. */
module Store {
  import opened Objects
  import opened Sequences
  import opened Content

  /** The objects after a transaction: a later write under a hash replaces an earlier one. */
  function Filed(s: Objects, entries: seq<Entry>): Objects {
    if entries == [] then s else Filed(s, Front(entries))[Last(entries).0 := Last(entries).1]
  }

  /** What a transaction leaves under each hash. */
  lemma {:induction false} FiledMeaning(s: Objects, entries: seq<Entry>)
    ensures s.Keys <= Filed(s, entries).Keys
    ensures forall i :: 0 <= i < |entries| ==> entries[i].0 in Filed(s, entries)
    ensures forall h :: h in Filed(s, entries) ==>
      (h in s && Filed(s, entries)[h] == s[h]) || (h, Filed(s, entries)[h]) in entries
    ensures forall i :: 0 <= i < |entries| ==> (entries[i].0, Filed(s, entries)[entries[i].0]) in entries
  {
    if entries != [] {
      FiledMeaning(s, Front(entries));
    }
  }

  /** Two transactions in turn are one. */
  lemma {:induction false} FiledConcat(s: Objects, xs: seq<Entry>, ys: seq<Entry>)
    ensures Filed(s, xs + ys) == Filed(Filed(s, xs), ys)
  {
    if ys == [] {
      assert xs + ys == xs;
    } else {
      assert Front(xs + ys) == xs + Front(ys);
      FiledConcat(s, xs, Front(ys));
    }
  }

  /** Filing objects where they belong loses nothing. */
  lemma {:induction false} FiledPreserves(hx: Hashing, s: Objects, entries: seq<Entry>)
    requires CollisionFree(hx) && Addressed(hx, s)
    requires forall e :: e in entries ==> BelongsAt(hx, e.0, e.1) && !e.1.Commit?
    ensures Addressed(hx, Filed(s, entries)) && Preserves(s, Filed(s, entries))
  {
    if entries != [] {
      FiledPreserves(hx, s, Front(entries));
      PutPreserves(hx, Filed(s, Front(entries)), Last(entries).0, Last(entries).1);
    }
  }

  class ObjectStore {
    var objects: Objects

    constructor ()
      ensures objects == map[]
    {
      objects := map[];
    }

    /** Commits a transaction that wrote the given objects, in order. */
    method Commit(entries: seq<Entry>)
      modifies this
      ensures objects == Filed(old(objects), entries)
    {
      var i := 0;
      assert entries[..0] == [];
      while i < |entries|
        invariant 0 <= i <= |entries|
        invariant objects == Filed(old(objects), entries[..i])
      {
        objects := objects[entries[i].0 := entries[i].1];
        assert Front(entries[..i + 1]) == entries[..i];
        i := i + 1;
      }
      assert entries[..i] == entries;
    }
  }
}
