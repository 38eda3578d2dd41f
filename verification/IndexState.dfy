/** The state of a search index, the table and the vectors together, and the removal of what
    has vanished from the spec. */
module IndexState {
  import opened Wrappers
  import opened Sequences
  import opened MetaStore

  /** A text embedding with a structural fingerprint appended. How it is computed and
      compared is not modelled. */
  type Vector(==, !new)

  // ----- Keys

  const I64_MAX := 0x7fff_ffff_ffff_ffff

  predicate IsI64(k: int) {
    -I64_MAX - 1 <= k <= I64_MAX
  }

  /** A signed key as the vector index sees it. */
  function ToU64(k: int): (u: int)
    requires IsI64(k)
    ensures 0 <= u < 0x1_0000_0000_0000_0000 && u % 0x1_0000_0000_0000_0000 == k % 0x1_0000_0000_0000_0000
  {
    if k < 0 then k + 0x1_0000_0000_0000_0000 else k
  }

  lemma ToU64Injective(k: int, l: int)
    requires IsI64(k) && IsI64(l) && ToU64(k) == ToU64(l)
    ensures k == l
  {
  }

  type Vectors = map<int, Vector>

  /** The vector index: one vector to a key. */
  class VectorIndex {
    var vectors: Vectors

    constructor (vectors: Vectors)
      ensures this.vectors == vectors
    {
      this.vectors := vectors;
    }

    method Remove(key: int)
      modifies this
      ensures vectors == old(vectors) - {key}
    {
      vectors := vectors - {key};
    }

    /** Adds a vector; refused when the key has one. */
    method Add(key: int, v: Vector) returns (r: Result<(), string>)
      modifies this
      ensures r.Ok? <==> key !in old(vectors)
      ensures vectors == if r.Ok? then old(vectors)[key := v] else old(vectors)
    {
      if key in vectors {
        return Err("duplicate keys not allowed");
      }
      vectors := vectors[key := v];
      return Ok(());
    }
  }

  // ----- Consistency

  /** The table and the vectors together. */
  datatype Index = Index(rows: Rows, vectors: Vectors)

  const EMPTY := Index(map[], map[])

  predicate HasKey(rows: Rows, id: string, u: int) {
    id in rows && IsI64(rows[id].key) && ToU64(rows[id].key) == u
  }

  /** The vector of the row with this id, if there is one. */
  function VectorAt(ix: Index, id: string): Option<Vector> {
    if id in ix.rows && IsI64(ix.rows[id].key) && ToU64(ix.rows[id].key) in ix.vectors
    then Some(ix.vectors[ToU64(ix.rows[id].key)])
    else None
  }

  /** Every row has a vector. */
  ghost predicate Covered(ix: Index) {
    forall id :: id in ix.rows ==> VectorAt(ix, id).Some?
  }

  ghost predicate KeyOfRow(rows: Rows, u: int) {
    exists id :: HasKey(rows, id, u)
  }

  /** The vector under u belongs to no row. */
  ghost predicate Orphan(ix: Index, u: int) {
    u in ix.vectors && !KeyOfRow(ix.rows, u)
  }

  /** Every vector belongs to a row. */
  ghost predicate NoOrphans(ix: Index) {
    forall u :: !Orphan(ix, u)
  }

  /** Different rows have different keys, as the vector index sees them. */
  lemma KeysApart(rows: Rows, i: string, j: string)
    requires Table(rows) && i in rows && j in rows && IsI64(rows[i].key) && IsI64(rows[j].key)
    requires ToU64(rows[i].key) == ToU64(rows[j].key)
    ensures i == j
  {
    ToU64Injective(rows[i].key, rows[j].key);
  }

  // ----- Rows that vanished

  /** The keys of the rows with these ids, as the vector index sees them. */
  ghost function KeysOfRows(rows: Rows, ids: set<string>): set<int> {
    set id | id in ids && id in rows && IsI64(rows[id].key) :: ToU64(rows[id].key)
  }

  /** The index without the rows of these ids and their vectors. */
  ghost function Without(ix: Index, gone: set<string>): Index {
    Index(ix.rows - gone, ix.vectors - KeysOfRows(ix.rows, gone))
  }

  /** Removing rows with their vectors leaves every other row its vector. */
  lemma OthersKept(ix: Index, gone: set<string>)
    requires Table(ix.rows)
    ensures forall id :: id !in gone ==> VectorAt(Without(ix, gone), id) == VectorAt(ix, id)
    ensures Covered(ix) ==> Covered(Without(ix, gone))
  {
    forall id | id !in gone
      ensures VectorAt(Without(ix, gone), id) == VectorAt(ix, id)
    {
      if id in ix.rows && IsI64(ix.rows[id].key) {
        KeyNotGone(ix.rows, gone, id);
      }
    }
  }

  lemma KeyNotGone(rows: Rows, gone: set<string>, id: string)
    requires Table(rows) && id in rows && id !in gone && IsI64(rows[id].key)
    ensures ToU64(rows[id].key) !in KeysOfRows(rows, gone)
  {
    forall i | i in gone && i in rows && IsI64(rows[i].key)
      ensures ToU64(rows[i].key) != ToU64(rows[id].key)
    {
      if ToU64(rows[i].key) == ToU64(rows[id].key) {
        KeysApart(rows, i, id);
      }
    }
  }

  lemma KeysHeld(rows: Rows, ids: set<string>, u: int)
    ensures u in KeysOfRows(rows, ids) <==> exists id :: id in ids && HasKey(rows, id, u)
  {
    if u in KeysOfRows(rows, ids) {
      var id :| id in ids && id in rows && IsI64(rows[id].key) && ToU64(rows[id].key) == u;
      assert HasKey(rows, id, u);
    }
  }

  /** Removing rows with their vectors leaves the same vectors without a row. */
  lemma SameOrphans(ix: Index, gone: set<string>)
    requires Table(ix.rows)
    ensures forall u :: Orphan(Without(ix, gone), u) <==> Orphan(ix, u)
  {
    var rest := Without(ix, gone);
    forall u
      ensures Orphan(rest, u) <==> Orphan(ix, u)
    {
      KeysHeld(ix.rows, gone, u);
      if id :| HasKey(ix.rows, id, u) {
        assert id !in gone ==> HasKey(rest.rows, id, u);
      } else {
        assert forall id :: HasKey(rest.rows, id, u) ==> HasKey(ix.rows, id, u);
      }
    }
  }

  /** The index without the rows gone, which are those of the first i ids that are not
      current. */
  ghost predicate Removing(ix0: Index, ix: Index, ids: seq<string>, i: nat, current: set<string>, gone: set<string>) {
    && i <= |ids| && ix == Without(ix0, gone)
    && (forall id :: id in gone <==> id in ids[..i] && id !in current)
  }

  lemma RemovingNext(ix0: Index, ix: Index, ids: seq<string>, i: nat, current: set<string>, gone: set<string>)
    requires Covered(ix0) && Removing(ix0, ix, ids, i, current, gone) && i < |ids| && NoRepeats(ids)
    requires forall id :: id in ids <==> id in ix0.rows
    ensures ids[i] in ix.rows && ids[i] !in gone && IsI64(ix.rows[ids[i]].key)
    ensures ids[i] in current ==> Removing(ix0, ix, ids, i + 1, current, gone)
    ensures ids[i] !in current ==>
      Removing(ix0, Index(ix.rows - {ids[i]}, ix.vectors - {ToU64(ix.rows[ids[i]].key)}), ids, i + 1, current,
        gone + {ids[i]})
  {
    TakeNext(ids, i);
    assert ids[i] in ids && ids[i] !in ids[..i];
    assert VectorAt(ix0, ids[i]).Some?;
    assert ix0.rows - gone - {ids[i]} == ix0.rows - (gone + {ids[i]});
    assert KeysOfRows(ix0.rows, gone + {ids[i]}) == KeysOfRows(ix0.rows, gone) + {ToU64(ix0.rows[ids[i]].key)};
  }

  lemma RemovingDone(ix0: Index, ix: Index, ids: seq<string>, current: set<string>, gone: set<string>)
    requires Removing(ix0, ix, ids, |ids|, current, gone)
    requires forall id :: id in ids <==> id in ix0.rows
    ensures gone == ix0.rows.Keys - current && ix == Without(ix0, ix0.rows.Keys - current)
  {
    assert ids[..|ids|] == ids;
  }

  /** Removes the rows whose id is not current, and their vectors. */
  method RemoveVanished(meta: MetaStore, index: VectorIndex, current: set<string>) returns (removed: nat)
    requires meta.Valid() && Covered(Index(meta.rows, index.vectors))
    modifies meta, index
    ensures meta.Valid()
    ensures Index(meta.rows, index.vectors) == old(
      Without(Index(meta.rows, index.vectors), meta.rows.Keys - current))
    ensures removed == |old(meta.rows).Keys - current|
  {
    removed := 0;
    ghost var ix0, gone := Index(meta.rows, index.vectors), {};
    var ids := meta.AllIds();
    var i := 0;
    while i < |ids|
      invariant Removing(ix0, Index(meta.rows, index.vectors), ids, i, current, gone) && removed == |gone|
      invariant meta.Valid()
    {
      var id := ids[i];
      RemovingNext(ix0, Index(meta.rows, index.vectors), ids, i, current, gone);
      if id !in current {
        var existing := meta.LookupById(id);
        if existing.Some? {
          index.Remove(ToU64(existing.value.key));
          meta.Delete(id);
          removed, gone := removed + 1, gone + {id};
        }
      }
      i := i + 1;
    }
    RemovingDone(ix0, Index(meta.rows, index.vectors), ids, current, gone);
  }
}
