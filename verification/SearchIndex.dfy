/** The update of a search index: one vector for each chunk of a spec, kept incrementally. */
module SearchIndex {
  import opened Wrappers
  import opened Sequences
  import opened MetaStore
  import opened IndexState
  import opened IndexPlan

  datatype Config = Config(model: string, fingerprintVersion: string)

  const FINGERPRINT_VERSION := "1"

  datatype Report = Report(total: nat, reEmbedded: nat, reused: nat, removed: nat)

  /** The embedder of a model with the fingerprint, and whether it can be run. A vector may
      depend on all of the chunk. */
  datatype Engine = Engine(model: string, vectorOf: Chunk -> Vector, preview: string -> string, ready: bool)

  function RowOf(engine: Engine, c: Chunk, key: int): NodeMeta {
    NodeMeta(c.id, c.file, c.lineStart, c.lineEnd, c.layer, c.namespace, c.nodeHash, engine.preview(c.text), key)
  }

  // ----- Inserting

  /** The index with a row and its vector. */
  function With(ix: Index, row: NodeMeta, v: Vector): Index
    requires IsI64(row.key)
  {
    Index(ix.rows[row.id := row], ix.vectors[ToU64(row.key) := v])
  }

  /** The index with the row and the vector of a pending chunk. */
  function Inserted(engine: Engine, ix: Index, chunks: seq<Chunk>, e: Pending): Index
    requires e.chunk < |chunks| && IsI64(e.key)
  {
    With(ix, RowOf(engine, chunks[e.chunk], e.key), engine.vectorOf(chunks[e.chunk]))
  }

  lemma TableNext(rows: Rows, row: NodeMeta)
    requires Table(rows) && Free(rows, row.id, row.key)
    ensures Table(rows[row.id := row])
  {
  }

  /** No row with another id has the key of a pending chunk. */
  ghost predicate OwnsKey(chunks: seq<Chunk>, rows: Rows, e: Pending) {
    Free(rows, IdOf(chunks, e), e.key)
  }

  ghost predicate OwnsAll(chunks: seq<Chunk>, rows: Rows, plan: seq<Pending>) {
    forall e {:trigger OwnsKey(chunks, rows, e)} :: e in plan ==> OwnsKey(chunks, rows, e)
  }

  ghost predicate Unchanged(ix0: Index, ix: Index, id: string) {
    id in ix0.rows && id in ix.rows && ix.rows[id] == ix0.rows[id] && VectorAt(ix, id) == VectorAt(ix0, id)
  }

  /** The row and the vector of this id are those of the pending chunk. */
  ghost predicate MadeBy(engine: Engine, ix: Index, chunks: seq<Chunk>, e: Pending, id: string) {
    && e.chunk < |chunks| && chunks[e.chunk].id == id
    && id in ix.rows && ix.rows[id] == RowOf(engine, chunks[e.chunk], e.key)
    && VectorAt(ix, id) == Some(engine.vectorOf(chunks[e.chunk]))
  }

  /** What is under this id is as it was before, or as a chunk inserted with this id made it. */
  ghost predicate SettledAt(engine: Engine, ix0: Index, ix: Index, chunks: seq<Chunk>, done: seq<Pending>, id: string) {
    id in ix.rows ==>
      || (Unchanged(ix0, ix, id) && forall x :: 0 <= x < |done| ==> IdOf(chunks, done[x]) != id)
      || exists x :: 0 <= x < |done| && MadeBy(engine, ix, chunks, done[x], id)
  }

  /** The row of a chunk inserted has its key, or a later one if its id was new. */
  ghost predicate PlacedAt(rows0: Rows, rows: Rows, chunks: seq<Chunk>, e: Pending) {
    && IdOf(chunks, e) in rows && IsI64(e.key)
    && (if IdOf(chunks, e) in rows0 then rows[IdOf(chunks, e)].key == e.key else rows[IdOf(chunks, e)].key >= e.key)
  }

  ghost predicate MemberAt(rows0: Rows, rows: Rows, chunks: seq<Chunk>, done: seq<Pending>, id: string) {
    id in rows <==> id in rows0 || exists x :: 0 <= x < |done| && IdOf(chunks, done[x]) == id
  }

  ghost predicate KeyInserted(done: seq<Pending>, u: int) {
    exists x :: 0 <= x < |done| && IsI64(done[x].key) && ToU64(done[x].key) == u
  }

  /** There are vectors under the keys of before and those of the chunks inserted. */
  ghost predicate VectorsOf(vectors0: Vectors, vectors: Vectors, done: seq<Pending>) {
    forall u {:trigger KeyInserted(done, u)} :: u in vectors <==> u in vectors0 || KeyInserted(done, u)
  }

  ghost predicate Arranged(engine: Engine, ix0: Index, ix: Index, chunks: seq<Chunk>, done: seq<Pending>) {
    && (forall id {:trigger MemberAt(ix0.rows, ix.rows, chunks, done, id)} ::
          MemberAt(ix0.rows, ix.rows, chunks, done, id))
    && (forall id {:trigger SettledAt(engine, ix0, ix, chunks, done, id)} ::
          SettledAt(engine, ix0, ix, chunks, done, id))
    && (forall e {:trigger PlacedAt(ix0.rows, ix.rows, chunks, e)} :: e in done ==>
          PlacedAt(ix0.rows, ix.rows, chunks, e))
  }

  /** The state after the chunks done have been inserted. */
  ghost predicate Inserting(engine: Engine, ix0: Index, ix: Index, chunks: seq<Chunk>, plan: seq<Pending>,
      done: seq<Pending>)
  {
    && Table(ix.rows) && VectorsOf(ix0.vectors, ix.vectors, done)
    && Arranged(engine, ix0, ix, chunks, done) && OwnsAll(chunks, ix.rows, plan)
  }

  lemma InsertedVectors(vectors0: Vectors, vectors: Vectors, done: seq<Pending>, e: Pending, v: Vector)
    requires VectorsOf(vectors0, vectors, done) && IsI64(e.key)
    ensures VectorsOf(vectors0, vectors[ToU64(e.key) := v], done + [e])
  {
    forall u
      ensures KeyInserted(done + [e], u) <==> KeyInserted(done, u) || u == ToU64(e.key)
    {
      if KeyInserted(done, u) {
        var x :| 0 <= x < |done| && IsI64(done[x].key) && ToU64(done[x].key) == u;
        assert (done + [e])[x] == done[x];
      }
      assert (done + [e])[|done|] == e;
    }
  }

  lemma InsertedOwns(chunks: seq<Chunk>, rows: Rows, row: NodeMeta, e: Pending, f: Pending)
    requires OwnsKey(chunks, rows, f) && Apart(chunks, f, e) && row.id == IdOf(chunks, e) && row.key == e.key
    ensures OwnsKey(chunks, rows[row.id := row], f)
  {
  }

  /** A row and its vector do not touch the vectors of other rows. */
  lemma OtherVector(ix: Index, row: NodeMeta, v: Vector, id: string)
    requires IsI64(row.key) && Free(ix.rows, row.id, row.key) && id != row.id
    ensures VectorAt(With(ix, row, v), id) == VectorAt(ix, id)
  {
    if id in ix.rows && IsI64(ix.rows[id].key) && ToU64(ix.rows[id].key) == ToU64(row.key) {
      ToU64Injective(ix.rows[id].key, row.key);
    }
  }

  lemma InsertedSettled(engine: Engine, ix0: Index, ix: Index, chunks: seq<Chunk>, done: seq<Pending>, e: Pending,
      id: string)
    requires SettledAt(engine, ix0, ix, chunks, done, id) && e.chunk < |chunks| && IsI64(e.key)
    requires OwnsKey(chunks, ix.rows, e)
    ensures SettledAt(engine, ix0, Inserted(engine, ix, chunks, e), chunks, done + [e], id)
  {
    var c := chunks[e.chunk];
    var row, ix', done' := RowOf(engine, c, e.key), Inserted(engine, ix, chunks, e), done + [e];
    if id == c.id {
      assert done'[|done|] == e;
      assert MadeBy(engine, ix', chunks, done'[|done|], id);
    } else {
      OtherVector(ix, row, engine.vectorOf(c), id);
      if x :| 0 <= x < |done| && MadeBy(engine, ix, chunks, done[x], id) {
        assert MadeBy(engine, ix', chunks, done'[x], id);
      }
    }
  }

  lemma InsertedPlaced(rows0: Rows, rows: Rows, chunks: seq<Chunk>, low: int, high: int, plan: seq<Pending>, x: nat,
      j: nat, row: NodeMeta)
    requires PlanFor(rows0, chunks, low, high, plan) && x < j < |plan|
    requires PlacedAt(rows0, rows, chunks, plan[x])
    requires row.id == IdOf(chunks, plan[j]) && row.key == plan[j].key
    ensures PlacedAt(rows0, rows[row.id := row], chunks, plan[x])
  {
    assert Keyed(rows0, chunks, low, high, plan[x]) && Keyed(rows0, chunks, low, high, plan[j]);
    if IdOf(chunks, plan[x]) == row.id && row.id !in rows0 {
      assert Fresh(rows0, chunks, plan[x]) && Fresh(rows0, chunks, plan[j]);
    }
  }

  lemma OwnsAllNext(rows0: Rows, rows: Rows, chunks: seq<Chunk>, low: int, high: int, plan: seq<Pending>, j: nat,
      row: NodeMeta)
    requires PlanFor(rows0, chunks, low, high, plan) && j < |plan| && OwnsAll(chunks, rows, plan)
    requires row.id == IdOf(chunks, plan[j]) && row.key == plan[j].key
    ensures OwnsAll(chunks, rows[row.id := row], plan)
  {
    var rows' := rows[row.id := row];
    forall e | e in plan
      ensures OwnsKey(chunks, rows', e)
    {
      var x :| 0 <= x < |plan| && plan[x] == e;
      assert OwnsKey(chunks, rows, e);
      PlannedApart(rows0, chunks, low, high, plan, x, j);
      InsertedOwns(chunks, rows, row, plan[j], e);
    }
  }

  lemma PlacedNext(rows0: Rows, rows: Rows, chunks: seq<Chunk>, low: int, high: int, plan: seq<Pending>, j: nat,
      row: NodeMeta, e: Pending)
    requires PlanFor(rows0, chunks, low, high, plan) && j < |plan| && e in plan[..j] + [plan[j]]
    requires forall x :: 0 <= x < j ==> PlacedAt(rows0, rows, chunks, plan[x])
    requires row.id == IdOf(chunks, plan[j]) && row.key == plan[j].key && IsI64(row.key)
    ensures PlacedAt(rows0, rows[row.id := row], chunks, e)
  {
    var x :| 0 <= x <= j && plan[x] == e;
    if x < j {
      InsertedPlaced(rows0, rows, chunks, low, high, plan, x, j, row);
    } else {
      assert Keyed(rows0, chunks, low, high, plan[j]);
    }
  }

  lemma MemberNext(rows0: Rows, rows: Rows, chunks: seq<Chunk>, done: seq<Pending>, e: Pending, row: NodeMeta,
      id: string)
    requires MemberAt(rows0, rows, chunks, done, id) && row.id == IdOf(chunks, e)
    ensures MemberAt(rows0, rows[row.id := row], chunks, done + [e], id)
  {
    assert (done + [e])[|done|] == e;
    if x :| 0 <= x < |done| && IdOf(chunks, done[x]) == id {
      assert (done + [e])[x] == done[x];
    }
  }

  lemma ArrangedNext(engine: Engine, ix0: Index, ix: Index, chunks: seq<Chunk>, low: int, high: int, plan: seq<Pending>,
      j: nat)
    requires PlanFor(ix0.rows, chunks, low, high, plan) && j < |plan| && plan[j].chunk < |chunks| && IsI64(plan[j].key)
    requires OwnsKey(chunks, ix.rows, plan[j]) && Arranged(engine, ix0, ix, chunks, plan[..j])
    ensures Arranged(engine, ix0, Inserted(engine, ix, chunks, plan[j]), chunks, plan[..j] + [plan[j]])
  {
    var done, c := plan[..j], chunks[plan[j].chunk];
    var row, ix' := RowOf(engine, c, plan[j].key), Inserted(engine, ix, chunks, plan[j]);
    forall id
      ensures SettledAt(engine, ix0, ix', chunks, done + [plan[j]], id)
    {
      assert SettledAt(engine, ix0, ix, chunks, done, id);
      InsertedSettled(engine, ix0, ix, chunks, done, plan[j], id);
    }
    assert forall x :: 0 <= x < j ==> plan[x] in done && PlacedAt(ix0.rows, ix.rows, chunks, plan[x]);
    forall e | e in done + [plan[j]]
      ensures PlacedAt(ix0.rows, ix'.rows, chunks, e)
    {
      PlacedNext(ix0.rows, ix.rows, chunks, low, high, plan, j, row, e);
    }
    forall id
      ensures MemberAt(ix0.rows, ix'.rows, chunks, done + [plan[j]], id)
    {
      assert MemberAt(ix0.rows, ix.rows, chunks, done, id);
      MemberNext(ix0.rows, ix.rows, chunks, done, plan[j], row, id);
    }
  }

  /** Inserting a pending chunk is not refused and settles its id. */
  lemma InsertingNext(engine: Engine, ix0: Index, ix: Index, chunks: seq<Chunk>, low: int, high: int,
      plan: seq<Pending>, j: nat)
    requires PlanFor(ix0.rows, chunks, low, high, plan) && j < |plan| && plan[j].chunk < |chunks| && IsI64(plan[j].key)
    requires Inserting(engine, ix0, ix, chunks, plan, plan[..j])
    ensures Free(ix.rows, chunks[plan[j].chunk].id, plan[j].key)
    ensures Inserting(engine, ix0, Inserted(engine, ix, chunks, plan[j]), chunks, plan, plan[..j + 1])
  {
    var c := chunks[plan[j].chunk];
    TakeNext(plan, j);
    assert plan[j] in plan && OwnsKey(chunks, ix.rows, plan[j]);
    TableNext(ix.rows, RowOf(engine, c, plan[j].key));
    InsertedVectors(ix0.vectors, ix.vectors, plan[..j], plan[j], engine.vectorOf(c));
    OwnsAllNext(ix0.rows, ix.rows, chunks, low, high, plan, j, RowOf(engine, c, plan[j].key));
    ArrangedNext(engine, ix0, ix, chunks, low, high, plan, j);
  }

  lemma NothingInserted(engine: Engine, ix0: Index, chunks: seq<Chunk>, low: int, high: int, plan: seq<Pending>)
    requires PlanFor(ix0.rows, chunks, low, high, plan)
    ensures Inserting(engine, ix0, ix0, chunks, plan, [])
  {
    forall e | e in plan
      ensures OwnsKey(chunks, ix0.rows, e)
    {
      assert Keyed(ix0.rows, chunks, low, high, e);
    }
  }

  lemma PlanKeysFit(ix: Index, chunks: seq<Chunk>, low: int, high: int, plan: seq<Pending>, x: nat)
    requires PlanFor(ix.rows, chunks, low, high, plan) && Covered(ix) && x < |plan| && high <= I64_MAX
    ensures IsI64(plan[x].key) && plan[x].chunk < |chunks|
  {
    assert Keyed(ix.rows, chunks, low, high, plan[x]);
    if ix.rows != map[] {
      var id :| id in ix.rows && ix.rows[id].key == low;
      assert VectorAt(ix, id).Some?;
    }
    var id := chunks[plan[x].chunk].id;
    assert id in ix.rows ==> VectorAt(ix, id).Some?;
  }

  /** Embeds and inserts the pending chunks; neither the index nor the table refuses one. */
  method InsertChunks(meta: MetaStore, index: VectorIndex, engine: Engine, chunks: seq<Chunk>, plan: seq<Pending>,
      ghost low: int, ghost high: int)
    requires meta.Valid() && Covered(Index(meta.rows, index.vectors))
    requires PlanFor(meta.rows, chunks, low, high, plan) && high <= I64_MAX
    modifies meta, index
    ensures meta.Valid()
    ensures Inserting(engine, old(Index(meta.rows, index.vectors)), Index(meta.rows, index.vectors), chunks, plan, plan)
  {
    ghost var ix0 := Index(meta.rows, index.vectors);
    NothingInserted(engine, ix0, chunks, low, high, plan);
    var j := 0;
    assert plan[..0] == [];
    while j < |plan|
      invariant 0 <= j <= |plan| && meta.Valid()
      invariant Inserting(engine, ix0, Index(meta.rows, index.vectors), chunks, plan, plan[..j])
    {
      PlanKeysFit(ix0, chunks, low, high, plan, j);
      InsertChunk(meta, index, engine, chunks, plan, j, ix0, low, high);
      j := j + 1;
    }
    assert plan[..j] == plan;
  }

  method InsertChunk(meta: MetaStore, index: VectorIndex, engine: Engine, chunks: seq<Chunk>, plan: seq<Pending>,
      j: nat, ghost ix0: Index, ghost low: int, ghost high: int)
    requires meta.Valid() && PlanFor(ix0.rows, chunks, low, high, plan)
    requires j < |plan| && plan[j].chunk < |chunks| && IsI64(plan[j].key)
    requires Inserting(engine, ix0, Index(meta.rows, index.vectors), chunks, plan, plan[..j])
    modifies meta, index
    ensures meta.Valid()
    ensures Inserting(engine, ix0, Index(meta.rows, index.vectors), chunks, plan, plan[..j + 1])
  {
    var c, key := chunks[plan[j].chunk], plan[j].key;
    ghost var ix := Index(meta.rows, index.vectors);
    InsertingNext(engine, ix0, ix, chunks, low, high, plan, j);
    index.Remove(ToU64(key));
    var added := index.Add(ToU64(key), engine.vectorOf(c));
    assert index.vectors == ix.vectors[ToU64(key) := engine.vectorOf(c)];
    var upserted := meta.Upsert(RowOf(engine, c, key));
    assert added.Ok? && upserted.Ok?;
  }

  // ----- What the rows hold

  /** What is under the chunk's id was made for the chunk: reused as it was if it could be, and
      embedded otherwise. */
  ghost predicate MadeFor(engine: Engine, ix0: Index, ix: Index, c: Chunk) {
    && c.id in ix.rows && ix.rows[c.id].nodeHash == c.nodeHash
    && if c.id in ix0.rows && ix0.rows[c.id].nodeHash == c.nodeHash then Unchanged(ix0, ix, c.id)
       else Tells(ix.rows[c.id], c, engine) && VectorAt(ix, c.id) == Some(engine.vectorOf(c))
  }

  /** The row says what and where the chunk is. */
  ghost predicate Tells(row: NodeMeta, c: Chunk, engine: Engine) {
    && row.id == c.id && row.file == c.file && row.lineStart == c.lineStart && row.lineEnd == c.lineEnd
    && row.layer == c.layer && row.namespace == c.namespace && row.nodeHash == c.nodeHash
    && row.preview == engine.preview(c.text)
  }

  ghost predicate RowMade(engine: Engine, ix0: Index, ix: Index, chunks: seq<Chunk>, id: string) {
    exists c :: c in chunks && c.id == id && MadeFor(engine, ix0, ix, c)
  }

  /** Under the id of every chunk is what was made for a chunk of this id. */
  lemma ChunkSettled(engine: Engine, ix0: Index, ix: Index, chunks: seq<Chunk>, low: int, high: int, plan: seq<Pending>,
      k: nat)
    requires PlanFor(ix0.rows, chunks, low, high, plan) && Arranged(engine, ix0, ix, chunks, plan) && k < |chunks|
    ensures RowMade(engine, ix0, ix, chunks, chunks[k].id)
  {
    var c := chunks[k];
    assert c in chunks && Decided(ix0.rows, chunks, plan, k);
    assert MemberAt(ix0.rows, ix.rows, chunks, plan, c.id) && SettledAt(engine, ix0, ix, chunks, plan, c.id);
    if x :| 0 <= x < |plan| && MadeBy(engine, ix, chunks, plan[x], c.id) {
      assert Keyed(ix0.rows, chunks, low, high, plan[x]);
      assert chunks[plan[x].chunk] in chunks && MadeFor(engine, ix0, ix, chunks[plan[x].chunk]);
    } else {
      assert MadeFor(engine, ix0, ix, c);
    }
  }

  lemma RowsAreChunks(engine: Engine, ix0: Index, ix: Index, chunks: seq<Chunk>, low: int, high: int,
      plan: seq<Pending>)
    requires PlanFor(ix0.rows, chunks, low, high, plan) && Arranged(engine, ix0, ix, chunks, plan)
    requires ix0.rows.Keys <= IdsOf(chunks)
    ensures ix.rows.Keys == IdsOf(chunks)
    ensures forall id :: id in ix.rows ==> RowMade(engine, ix0, ix, chunks, id)
  {
    forall id
      ensures id in ix.rows <==> id in IdsOf(chunks)
      ensures id in ix.rows ==> RowMade(engine, ix0, ix, chunks, id)
    {
      assert MemberAt(ix0.rows, ix.rows, chunks, plan, id);
      if id in ix.rows && id !in ix0.rows {
        var x :| 0 <= x < |plan| && IdOf(chunks, plan[x]) == id;
        assert Keyed(ix0.rows, chunks, low, high, plan[x]);
        assert chunks[plan[x].chunk] in chunks;
      }
      if id in IdsOf(chunks) {
        var k := ChunkWith(chunks, id);
        ChunkSettled(engine, ix0, ix, chunks, low, high, plan, k);
      }
    }
  }

  lemma ChunkWith(chunks: seq<Chunk>, id: string) returns (k: nat)
    requires id in IdsOf(chunks)
    ensures k < |chunks| && chunks[k].id == id
  {
    var c :| c in chunks && c.id == id;
    k :| 0 <= k < |chunks| && chunks[k] == c;
  }

  lemma MadeCovered(engine: Engine, ix0: Index, ix: Index, chunks: seq<Chunk>)
    requires Covered(ix0) && forall id :: id in ix.rows ==> RowMade(engine, ix0, ix, chunks, id)
    ensures Covered(ix)
  {
    forall id | id in ix.rows
      ensures VectorAt(ix, id).Some?
    {
      assert RowMade(engine, ix0, ix, chunks, id);
      assert id in ix0.rows ==> VectorAt(ix0, id).Some?;
    }
  }

  // ----- Vectors without a row

  lemma KeyKept(engine: Engine, ix0: Index, ix: Index, chunks: seq<Chunk>, low: int, high: int, plan: seq<Pending>,
      id: string)
    requires PlanFor(ix0.rows, chunks, low, high, plan) && Arranged(engine, ix0, ix, chunks, plan) && id in ix0.rows
    ensures id in ix.rows && ix.rows[id].key == ix0.rows[id].key
  {
    assert MemberAt(ix0.rows, ix.rows, chunks, plan, id) && SettledAt(engine, ix0, ix, chunks, plan, id);
    if x :| 0 <= x < |plan| && MadeBy(engine, ix, chunks, plan[x], id) {
      assert Keyed(ix0.rows, chunks, low, high, plan[x]);
    }
  }

  lemma KeyUsed(engine: Engine, ix0: Index, ix: Index, chunks: seq<Chunk>, low: int, high: int, plan: seq<Pending>,
      x: nat)
    requires PlanFor(ix0.rows, chunks, low, high, plan) && Arranged(engine, ix0, ix, chunks, plan) && x < |plan|
    requires NewIdsOnce(ix0.rows, chunks)
    ensures IdOf(chunks, plan[x]) in ix.rows && ix.rows[IdOf(chunks, plan[x])].key == plan[x].key
  {
    var id := IdOf(chunks, plan[x]);
    assert plan[x] in plan && PlacedAt(ix0.rows, ix.rows, chunks, plan[x]);
    assert Keyed(ix0.rows, chunks, low, high, plan[x]);
    if id !in ix0.rows {
      assert SettledAt(engine, ix0, ix, chunks, plan, id);
      var y :| 0 <= y < |plan| && MadeBy(engine, ix, chunks, plan[y], id);
      assert plan[x].chunk == plan[y].chunk;
      assert x == y;
    }
  }

  /** The key of a row is that of a row of before, or a new key. */
  lemma RowKeys(engine: Engine, ix0: Index, ix: Index, chunks: seq<Chunk>, low: int, high: int, plan: seq<Pending>,
      u: int)
    requires PlanFor(ix0.rows, chunks, low, high, plan) && Arranged(engine, ix0, ix, chunks, plan)
    requires KeyOfRow(ix.rows, u)
    ensures KeyOfRow(ix0.rows, u) || NewKey(ix0.rows, chunks, u)
  {
    var id :| HasKey(ix.rows, id, u);
    assert SettledAt(engine, ix0, ix, chunks, plan, id);
    PlanUsesNewKeys(ix0.rows, chunks, low, high, plan, u);
    if x :| 0 <= x < |plan| && MadeBy(engine, ix, chunks, plan[x], id) {
      assert Keyed(ix0.rows, chunks, low, high, plan[x]);
      assert id in ix0.rows ==> HasKey(ix0.rows, id, u);
    } else {
      assert HasKey(ix0.rows, id, u);
    }
  }

  lemma VectorUnder(vectors0: Vectors, vectors: Vectors, done: seq<Pending>, u: int)
    requires VectorsOf(vectors0, vectors, done)
    ensures u in vectors <==> u in vectors0 || KeyInserted(done, u)
  {
    var inserted := KeyInserted(done, u);
  }

  /** Where no new id occurs twice, a vector is without a row after the insertions exactly if it
      was before and its key is not a new key. */
  lemma OrphansStay(engine: Engine, ix0: Index, ix: Index, chunks: seq<Chunk>, low: int, high: int, plan: seq<Pending>,
      u: int)
    requires PlanFor(ix0.rows, chunks, low, high, plan) && Inserting(engine, ix0, ix, chunks, plan, plan)
    requires NewIdsOnce(ix0.rows, chunks)
    ensures Orphan(ix, u) <==> Orphan(ix0, u) && !NewKey(ix0.rows, chunks, u)
  {
    PlanUsesNewKeys(ix0.rows, chunks, low, high, plan, u);
    VectorUnder(ix0.vectors, ix.vectors, plan, u);
    if x :| 0 <= x < |plan| && IsI64(plan[x].key) && ToU64(plan[x].key) == u {
      KeyUsed(engine, ix0, ix, chunks, low, high, plan, x);
      assert HasKey(ix.rows, IdOf(chunks, plan[x]), u);
      assert Keyed(ix0.rows, chunks, low, high, plan[x]);
      assert Fresh(ix0.rows, chunks, plan[x]) || HasKey(ix0.rows, IdOf(chunks, plan[x]), u);
    } else if id :| HasKey(ix0.rows, id, u) {
      KeyKept(engine, ix0, ix, chunks, low, high, plan, id);
      assert HasKey(ix.rows, id, u);
    } else if KeyOfRow(ix.rows, u) {
      RowKeys(engine, ix0, ix, chunks, low, high, plan, u);
    }
  }

  /** A new id that occurs twice leaves the vector of its first occurrence behind. */
  lemma OrphanLeft(engine: Engine, ix0: Index, ix: Index, chunks: seq<Chunk>, low: int, high: int, plan: seq<Pending>,
      k: nat, l: nat)
    requires PlanFor(ix0.rows, chunks, low, high, plan) && Inserting(engine, ix0, ix, chunks, plan, plan)
    requires k < l < |chunks| && chunks[k].id == chunks[l].id && chunks[k].id !in ix0.rows
    ensures exists u :: Orphan(ix, u)
  {
    assert Decided(ix0.rows, chunks, plan, k) && Decided(ix0.rows, chunks, plan, l);
    var x :| 0 <= x < |plan| && plan[x].chunk == k;
    var y :| 0 <= y < |plan| && plan[y].chunk == l;
    assert x < y && Fresh(ix0.rows, chunks, plan[x]) && Fresh(ix0.rows, chunks, plan[y]);
    assert plan[x] in plan && plan[y] in plan;
    assert PlacedAt(ix0.rows, ix.rows, chunks, plan[x]) && PlacedAt(ix0.rows, ix.rows, chunks, plan[y]);
    var u := ToU64(plan[x].key);
    assert KeyInserted(plan, u) && OwnsKey(chunks, ix.rows, plan[x]);
    forall id
      ensures !HasKey(ix.rows, id, u)
    {
      if HasKey(ix.rows, id, u) {
        ToU64Injective(ix.rows[id].key, plan[x].key);
      }
    }
    assert Orphan(ix, u);
  }

  /** Which vectors are without a row after an update. The new keys are those right after the
      largest one of the rows that have not vanished, one for each chunk with a new id. */
  ghost predicate OrphansAfter(ix0: Index, ix: Index, chunks: seq<Chunk>) {
    if NewIdsOnce(ix0.rows, chunks)
    then forall u :: Orphan(ix, u) <==>
      Orphan(ix0, u) && !NewKey(ix0.rows - (ix0.rows.Keys - IdsOf(chunks)), chunks, u)
    else !NoOrphans(ix)
  }

  lemma OrphansExactly(engine: Engine, ix0: Index, ix: Index, chunks: seq<Chunk>, low: int, high: int,
      plan: seq<Pending>)
    requires PlanFor(ix0.rows, chunks, low, high, plan) && Inserting(engine, ix0, ix, chunks, plan, plan)
    requires ix0.rows.Keys <= IdsOf(chunks)
    ensures OrphansAfter(ix0, ix, chunks)
  {
    NothingGone(ix0.rows, chunks);
    if NewIdsOnce(ix0.rows, chunks) {
      forall u
        ensures Orphan(ix, u) <==> Orphan(ix0, u) && !NewKey(ix0.rows, chunks, u)
      {
        OrphansStay(engine, ix0, ix, chunks, low, high, plan, u);
      }
    } else {
      SomeOrphan(engine, ix0, ix, chunks, low, high, plan);
    }
  }

  lemma NothingGone(rows: Rows, chunks: seq<Chunk>)
    requires rows.Keys <= IdsOf(chunks)
    ensures rows - (rows.Keys - IdsOf(chunks)) == rows
  {
    assert rows.Keys - IdsOf(chunks) == {};
  }

  lemma SomeOrphan(engine: Engine, ix0: Index, ix: Index, chunks: seq<Chunk>, low: int, high: int, plan: seq<Pending>)
    requires PlanFor(ix0.rows, chunks, low, high, plan) && Inserting(engine, ix0, ix, chunks, plan, plan)
    requires !NewIdsOnce(ix0.rows, chunks)
    ensures !NoOrphans(ix)
  {
    var k, l :| 0 <= k < l < |chunks| && chunks[k].id == chunks[l].id && chunks[k].id !in ix0.rows;
    OrphanLeft(engine, ix0, ix, chunks, low, high, plan, k, l);
  }

  /** No vector is without a row after an update exactly when no new id occurs twice and every
      vector without a row before has a new key. */
  lemma NoOrphansExactly(ix0: Index, ix: Index, chunks: seq<Chunk>)
    requires OrphansAfter(ix0, ix, chunks)
    ensures NoOrphans(ix) <==>
      && NewIdsOnce(ix0.rows, chunks)
      && forall u :: Orphan(ix0, u) ==> NewKey(ix0.rows - (ix0.rows.Keys - IdsOf(chunks)), chunks, u)
  {
  }

  // ----- An update

  /** Everything was reused. */
  predicate Idle(report: Report) {
    report.reEmbedded == 0 && report.reused == report.total && report.removed == 0
  }

  /** Nothing has vanished and every chunk's row has its hash. */
  ghost predicate UpToDate(rows: Rows, chunks: seq<Chunk>) {
    rows.Keys == IdsOf(chunks) && AllReusable(rows, chunks)
  }

  /** Keys are left for n more rows. */
  ghost predicate Room(rows: Rows, n: nat) {
    n <= I64_MAX && forall id :: id in rows ==> rows[id].key + n <= I64_MAX
  }

  /** What an update of the index to the chunks comes to. */
  ghost predicate Updated(engine: Engine, ix0: Index, ix: Index, chunks: seq<Chunk>, report: Report) {
    && Covered(ix) && ix.rows.Keys == IdsOf(chunks)
    && (forall id :: id in ix.rows ==> RowMade(engine, ix0, ix, chunks, id))
    && report.total == |chunks| && report.reEmbedded + report.reused == |chunks|
    && report.reused == |Reused(ix0.rows, chunks, |chunks|)|
    && report.removed == |ix0.rows.Keys - IdsOf(chunks)|
    && OrphansAfter(ix0, ix, chunks)
  }

  /** What an update in the opened table and index comes to. It fails exactly when something
      must be embedded and the embedder cannot be run, and then the rows that vanished are gone
      from the table. */
  ghost predicate Ran(engine: Engine, ix0: Index, ix: Index, chunks: seq<Chunk>, r: Result<Report, string>) {
    match r
    case Ok(report) =>
      && (engine.ready || AllReusable(ix0.rows, chunks))
      && Updated(engine, ix0, ix, chunks, report)
      && (UpToDate(ix0.rows, chunks) ==> Idle(report) && ix == ix0)
    case Err(_) =>
      !engine.ready && !AllReusable(ix0.rows, chunks) && ix.rows == ix0.rows - (ix0.rows.Keys - IdsOf(chunks))
  }

  lemma RefreshDone(engine: Engine, ix0: Index, ix: Index, chunks: seq<Chunk>, low: int, high: int, plan: seq<Pending>,
      report: Report)
    requires PlanFor(ix0.rows, chunks, low, high, plan) && Inserting(engine, ix0, ix, chunks, plan, plan)
    requires Covered(ix0) && ix0.rows.Keys <= IdsOf(chunks)
    requires report.total == |chunks| && report.reEmbedded + report.reused == |chunks| && report.removed == 0
    requires report.reused == |Reused(ix0.rows, chunks, |chunks|)|
    ensures Updated(engine, ix0, ix, chunks, report)
  {
    RowsAreChunks(engine, ix0, ix, chunks, low, high, plan);
    MadeCovered(engine, ix0, ix, chunks);
    OrphansExactly(engine, ix0, ix, chunks, low, high, plan);
    assert ix0.rows.Keys - IdsOf(chunks) == {};
  }

  lemma SameNewIds(rows: Rows, chunks: seq<Chunk>)
    ensures NewIdsOnce(rows - (rows.Keys - IdsOf(chunks)), chunks) <==> NewIdsOnce(rows, chunks)
  {
    forall k | 0 <= k < |chunks|
      ensures chunks[k].id in rows - (rows.Keys - IdsOf(chunks)) <==> chunks[k].id in rows
    {
      assert chunks[k] in chunks;
    }
  }

  lemma SameReuse(rows: Rows, chunks: seq<Chunk>, c: Chunk)
    requires c in chunks
    ensures Reusable(rows - (rows.Keys - IdsOf(chunks)), c) <==> Reusable(rows, c)
  {
    assert c.id in IdsOf(chunks);
  }

  lemma ReusedFromBefore(rows: Rows, chunks: seq<Chunk>)
    ensures Reused(rows - (rows.Keys - IdsOf(chunks)), chunks, |chunks|) == Reused(rows, chunks, |chunks|)
  {
    forall k: nat | k < |chunks|
      ensures chunks[k].id in rows - (rows.Keys - IdsOf(chunks)) <==> chunks[k].id in rows
    {
      assert chunks[k] in chunks;
    }
  }

  lemma RowFromBefore(engine: Engine, ix0: Index, ix: Index, chunks: seq<Chunk>, id: string)
    requires Table(ix0.rows) && RowMade(engine, Without(ix0, ix0.rows.Keys - IdsOf(chunks)), ix, chunks, id)
    ensures RowMade(engine, ix0, ix, chunks, id)
  {
    var gone := ix0.rows.Keys - IdsOf(chunks);
    var c :| c in chunks && c.id == id && MadeFor(engine, Without(ix0, gone), ix, c);
    OthersKept(ix0, gone);
    SameReuse(ix0.rows, chunks, c);
    assert id in IdsOf(chunks);
    assert MadeFor(engine, ix0, ix, c);
  }

  lemma OrphansFromBefore(ix0: Index, ix: Index, chunks: seq<Chunk>)
    requires Table(ix0.rows) && OrphansAfter(Without(ix0, ix0.rows.Keys - IdsOf(chunks)), ix, chunks)
    ensures OrphansAfter(ix0, ix, chunks)
  {
    var gone := ix0.rows.Keys - IdsOf(chunks);
    var rest := Without(ix0, gone);
    assert rest.rows - (rest.rows.Keys - IdsOf(chunks)) == rest.rows;
    SameNewIds(ix0.rows, chunks);
    SameOrphans(ix0, gone);
  }

  /** Removing the rows that vanished first makes up an update. */
  lemma UpdateDone(engine: Engine, ix0: Index, ix: Index, chunks: seq<Chunk>, refreshed: Report, removed: nat)
    requires Table(ix0.rows) && removed == |ix0.rows.Keys - IdsOf(chunks)|
    requires Updated(engine, Without(ix0, ix0.rows.Keys - IdsOf(chunks)), ix, chunks, refreshed)
    ensures Updated(engine, ix0, ix, chunks, refreshed.(removed := removed))
  {
    OrphansFromBefore(ix0, ix, chunks);
    ReusedFromBefore(ix0.rows, chunks);
    forall id | id in ix.rows
      ensures RowMade(engine, ix0, ix, chunks, id)
    {
      RowFromBefore(engine, ix0, ix, chunks, id);
    }
  }

  /** What can be reused stays so when the rows that vanished are removed. */
  lemma StillReusable(ix: Index, chunks: seq<Chunk>)
    ensures var gone := ix.rows.Keys - IdsOf(chunks);
      && Without(ix, gone).rows.Keys <= IdsOf(chunks)
      && (AllReusable(Without(ix, gone).rows, chunks) <==> AllReusable(ix.rows, chunks))
      && (gone == {} ==> Without(ix, gone) == ix)
  {
    var gone := ix.rows.Keys - IdsOf(chunks);
    forall c | c in chunks
      ensures Reusable(ix.rows - gone, c) <==> Reusable(ix.rows, c)
    {
      SameReuse(ix.rows, chunks, c);
    }
    if gone == {} {
      assert ix.rows - gone == ix.rows && KeysOfRows(ix.rows, gone) == {};
      assert Without(ix, gone).vectors == ix.vectors;
    }
  }

  lemma KeysLeft(rows: Rows, chunks: seq<Chunk>, low: int, high: int, plan: seq<Pending>)
    requires PlanFor(rows, chunks, low, high, plan) && Room(rows, |chunks|)
    ensures high <= I64_MAX
  {
    assert chunks[..|chunks|] == chunks;
  }

  lemma RefreshRan(engine: Engine, ix0: Index, ix: Index, chunks: seq<Chunk>, low: int, high: int, plan: seq<Pending>,
      report: Report)
    requires PlanFor(ix0.rows, chunks, low, high, plan) && Inserting(engine, ix0, ix, chunks, plan, plan)
    requires Covered(ix0) && ix0.rows.Keys <= IdsOf(chunks)
    requires |plan| + report.reused == |chunks| && report == Report(|chunks|, |plan|, report.reused, 0)
    requires report.reused == |Reused(ix0.rows, chunks, |chunks|)|
    requires engine.ready || plan == []
    requires plan == [] ==> ix == ix0
    ensures Ran(engine, ix0, ix, chunks, Ok(report))
  {
    NothingPlanned(ix0.rows, chunks, low, high, plan);
    RefreshDone(engine, ix0, ix, chunks, low, high, plan, report);
  }

  /** Embeds and inserts what the plan holds, if that is anything; not ok if the embedder
      cannot be run. */
  method InsertPlanned(meta: MetaStore, index: VectorIndex, engine: Engine, chunks: seq<Chunk>, plan: seq<Pending>,
      low: int, high: int)
    returns (ok: bool)
    requires meta.Valid() && PlanFor(meta.rows, chunks, low, high, plan) && Room(meta.rows, |chunks|)
    requires Covered(Index(meta.rows, index.vectors))
    modifies meta, index
    ensures meta.Valid() && ok == (engine.ready || plan == [])
    ensures ok ==>
      Inserting(engine, old(Index(meta.rows, index.vectors)), Index(meta.rows, index.vectors), chunks, plan, plan)
    ensures !ok || plan == [] ==> Index(meta.rows, index.vectors) == old(Index(meta.rows, index.vectors))
  {
    if plan == [] {
      NothingInserted(engine, Index(meta.rows, index.vectors), chunks, low, high, plan);
      return true;
    }
    if !engine.ready {
      return false;
    }
    KeysLeft(meta.rows, chunks, low, high, plan);
    InsertChunks(meta, index, engine, chunks, plan, low, high);
    return true;
  }

  lemma RefreshFailed(engine: Engine, ix: Index, chunks: seq<Chunk>, low: int, high: int, plan: seq<Pending>, e: string)
    requires PlanFor(ix.rows, chunks, low, high, plan) && ix.rows.Keys <= IdsOf(chunks) && !engine.ready && plan != []
    ensures Ran(engine, ix, ix, chunks, Err(e))
  {
    NothingPlanned(ix.rows, chunks, low, high, plan);
    NothingGone(ix.rows, chunks);
  }

  /** Embeds and inserts what cannot be reused. */
  method Refresh(meta: MetaStore, index: VectorIndex, chunks: seq<Chunk>, engine: Engine)
    returns (r: Result<Report, string>)
    requires meta.Valid() && Covered(Index(meta.rows, index.vectors)) && meta.rows.Keys <= IdsOf(chunks)
    requires Room(meta.rows, |chunks|)
    modifies meta, index
    ensures meta.Valid()
    ensures Ran(engine, old(Index(meta.rows, index.vectors)), Index(meta.rows, index.vectors), chunks, r)
  {
    ghost var ix0 := Index(meta.rows, index.vectors);
    var plan, reused, low, high := PlanChunks(meta, chunks);
    var ok := InsertPlanned(meta, index, engine, chunks, plan, low, high);
    if !ok {
      RefreshFailed(engine, ix0, chunks, low, high, plan, "the embedder could not be run");
      return Err("the embedder could not be run");
    }
    var report := Report(|chunks|, |plan|, reused, 0);
    RefreshRan(engine, ix0, Index(meta.rows, index.vectors), chunks, low, high, plan, report);
    return Ok(report);
  }

  /** The update of the opened table and index. */
  method Update(meta: MetaStore, index: VectorIndex, chunks: seq<Chunk>, engine: Engine)
    returns (r: Result<Report, string>)
    requires meta.Valid() && Covered(Index(meta.rows, index.vectors)) && Room(meta.rows, |chunks|)
    modifies meta, index
    ensures meta.Valid()
    ensures Ran(engine, old(Index(meta.rows, index.vectors)), Index(meta.rows, index.vectors), chunks, r)
  {
    ghost var ix0 := Index(meta.rows, index.vectors);
    StillReusable(ix0, chunks);
    OthersKept(ix0, ix0.rows.Keys - IdsOf(chunks));
    var removed := RemoveVanished(meta, index, IdsOf(chunks));
    var refreshed := Refresh(meta, index, chunks, engine);
    if refreshed.Err? {
      RunFailed(engine, ix0, Index(meta.rows, index.vectors), chunks, refreshed.error);
      return Err(refreshed.error);
    }
    RunSucceeded(engine, ix0, Index(meta.rows, index.vectors), chunks, refreshed.value, removed);
    return Ok(refreshed.value.(removed := removed));
  }

  lemma NothingVanished(ix: Index, chunks: seq<Chunk>)
    requires UpToDate(ix.rows, chunks)
    ensures ix.rows.Keys - IdsOf(chunks) == {} && Without(ix, ix.rows.Keys - IdsOf(chunks)) == ix
  {
    StillReusable(ix, chunks);
  }

  lemma RunSucceeded(engine: Engine, ix0: Index, ix: Index, chunks: seq<Chunk>, refreshed: Report, removed: nat)
    requires Table(ix0.rows) && removed == |ix0.rows.Keys - IdsOf(chunks)|
    requires Ran(engine, Without(ix0, ix0.rows.Keys - IdsOf(chunks)), ix, chunks, Ok(refreshed))
    ensures Ran(engine, ix0, ix, chunks, Ok(refreshed.(removed := removed)))
  {
    StillReusable(ix0, chunks);
    UpdateDone(engine, ix0, ix, chunks, refreshed, removed);
    if UpToDate(ix0.rows, chunks) {
      NothingVanished(ix0, chunks);
    }
  }

  lemma RunFailed(engine: Engine, ix0: Index, ix: Index, chunks: seq<Chunk>, e: string)
    requires Ran(engine, Without(ix0, ix0.rows.Keys - IdsOf(chunks)), ix, chunks, Err(e))
    ensures Ran(engine, ix0, ix, chunks, Err(e))
  {
    var rest := Without(ix0, ix0.rows.Keys - IdsOf(chunks));
    StillReusable(ix0, chunks);
    assert rest.rows - (rest.rows.Keys - IdsOf(chunks)) == rest.rows;
  }

  // ----- What the index answers

  ghost predicate Answers(engine: Engine, ix: Index, c: Chunk) {
    VectorAt(ix, c.id) == Some(engine.vectorOf(c))
  }

  ghost predicate AllAnswer(engine: Engine, ix: Index, chunks: seq<Chunk>) {
    forall c :: c in chunks ==> Answers(engine, ix, c)
  }

  /** The chunk's row has its hash, but not its vector. */
  ghost predicate Stale(engine: Engine, ix: Index, c: Chunk) {
    Reusable(ix.rows, c) && !Answers(engine, ix, c)
  }

  ghost predicate NoneStale(engine: Engine, ix: Index, chunks: seq<Chunk>) {
    forall c :: c in chunks ==> !Stale(engine, ix, c)
  }

  /** After an update a chunk with an id of its own answers with its vector exactly if it was
      not stale before. */
  lemma AnswersExactly(engine: Engine, ix0: Index, ix: Index, chunks: seq<Chunk>, report: Report, c: Chunk)
    requires Updated(engine, ix0, ix, chunks, report) && UniqueIds(chunks) && c in chunks
    ensures Answers(engine, ix, c) <==> !Stale(engine, ix0, c)
  {
    assert c.id in ix.rows && RowMade(engine, ix0, ix, chunks, c.id);
    var c' :| c' in chunks && c'.id == c.id && MadeFor(engine, ix0, ix, c');
    assert c' == c;
    AnswersMade(engine, ix0, ix, c);
  }

  lemma AnswersMade(engine: Engine, ix0: Index, ix: Index, c: Chunk)
    requires MadeFor(engine, ix0, ix, c)
    ensures Answers(engine, ix, c) <==> !Stale(engine, ix0, c)
  {
  }

  /** Where ids are unique, every chunk answers with its vector, as after a rebuild from nothing,
      exactly when none was stale before. */
  lemma AllAnswerExactly(engine: Engine, ix0: Index, ix: Index, chunks: seq<Chunk>, report: Report)
    requires Updated(engine, ix0, ix, chunks, report) && UniqueIds(chunks)
    ensures AllAnswer(engine, ix, chunks) <==> NoneStale(engine, ix0, chunks)
  {
    forall c | c in chunks
      ensures Answers(engine, ix, c) <==> !Stale(engine, ix0, c)
    {
      AnswersExactly(engine, ix0, ix, chunks, report, c);
    }
  }

  // ----- A failed run

  /** What a failed run comes to: the rows that vanished are gone, but the saved vectors stay,
      so that each of those rows leaves an orphan. */
  ghost predicate Failed(ix0: Index, ix: Index, ids: set<string>) {
    && ix == Index(ix0.rows - (ix0.rows.Keys - ids), ix0.vectors)
    && (forall u :: Orphan(ix, u) <==> Orphan(ix0, u) || u in KeysOfRows(ix0.rows, ix0.rows.Keys - ids))
    && (NoOrphans(ix) <==> NoOrphans(ix0) && ix0.rows.Keys <= ids)
  }

  lemma FailureOrphans(ix: Index, ids: set<string>)
    requires Table(ix.rows) && Covered(ix)
    ensures Failed(ix, Index(ix.rows - (ix.rows.Keys - ids), ix.vectors), ids)
    ensures Covered(Index(ix.rows - (ix.rows.Keys - ids), ix.vectors))
  {
    var gone := ix.rows.Keys - ids;
    var rest := Index(ix.rows - gone, ix.vectors);
    assert forall id :: id in rest.rows ==> VectorAt(rest, id) == VectorAt(ix, id);
    forall u
      ensures Orphan(rest, u) <==> Orphan(ix, u) || u in KeysOfRows(ix.rows, gone)
    {
      OrphanOfGone(ix, gone, u);
    }
    if id :| id in gone {
      assert VectorAt(ix, id).Some?;
      assert ToU64(ix.rows[id].key) in KeysOfRows(ix.rows, gone);
    } else {
      assert gone == {} && KeysOfRows(ix.rows, gone) == {};
      assert rest == ix;
    }
  }

  lemma OrphanOfGone(ix: Index, gone: set<string>, u: int)
    requires Table(ix.rows) && Covered(ix)
    ensures Orphan(Index(ix.rows - gone, ix.vectors), u) <==> Orphan(ix, u) || u in KeysOfRows(ix.rows, gone)
  {
    var rows := ix.rows - gone;
    KeysHeld(ix.rows, gone, u);
    if id :| id in gone && HasKey(ix.rows, id, u) {
      assert VectorAt(ix, id).Some?;
      forall i
        ensures !HasKey(rows, i, u)
      {
        if HasKey(rows, i, u) {
          KeysApart(ix.rows, i, id);
        }
      }
    } else {
      forall id
        ensures HasKey(rows, id, u) <==> HasKey(ix.rows, id, u)
      {
      }
    }
  }

  // ----- A run

  /** What a run on the table and the saved vectors comes to. Where ids are unique and it
      succeeds, each chunk answers with its vector exactly if none was stale; a failed run
      leaves the saved vectors. */
  ghost predicate Outcome(engine: Engine, ix0: Index, ix: Index, chunks: seq<Chunk>, r: Result<Report, string>) {
    && Ran(engine, ix0, ix, chunks, r)
    && if r.Ok? then UniqueIds(chunks) ==> (AllAnswer(engine, ix, chunks) <==> NoneStale(engine, ix0, chunks))
       else Failed(ix0, ix, IdsOf(chunks))
  }

  /** The update of the table and the saved vectors; nothing is saved on a failure. */
  method UpdateSaved(meta: MetaStore, saved: Vectors, chunks: seq<Chunk>, engine: Engine)
    returns (r: Result<Report, string>, saved': Vectors)
    requires meta.Valid() && Covered(Index(meta.rows, saved)) && Room(meta.rows, |chunks|)
    modifies meta
    ensures meta.Valid() && Covered(Index(meta.rows, saved'))
    ensures Outcome(engine, Index(old(meta.rows), saved), Index(meta.rows, saved'), chunks, r)
  {
    ghost var ix0 := Index(meta.rows, saved);
    var index := new VectorIndex(saved);
    r := Update(meta, index, chunks, engine);
    if r.Err? {
      FailureOrphans(ix0, IdsOf(chunks));
      return r, saved;
    }
    saved' := index.vectors;
    if UniqueIds(chunks) {
      AllAnswerExactly(engine, ix0, Index(meta.rows, saved'), chunks, r.value);
    }
  }

  lemma OnlyChunk(c: Chunk)
    ensures IdsOf([c]) == {c.id} && UniqueIds([c]) && forall d :: d in [c] <==> d == c
  {
    assert [c][0] == c;
  }

  /** A row that has its chunk's hash but not its vector stays as it is in every run. */
  lemma StaleRow(engine: Engine, row: NodeMeta, v: Vector, c: Chunk, ix: Index, r: Result<Report, string>)
    requires row.id == c.id && row.key == 1 && row.nodeHash == c.nodeHash && engine.vectorOf(c) != v
    requires Outcome(engine, Index(map[c.id := row], map[1 := v]), ix, [c], r)
    ensures r.Ok? && Idle(r.value) && VectorAt(ix, c.id) == Some(v) && !Answers(engine, ix, c)
  {
    OnlyChunk(c);
    var rows: Rows := map[c.id := row];
    assert rows.Keys == IdsOf([c]) && Reusable(rows, c);
    assert UpToDate(rows, [c]);
  }

  /** A rebuild from nothing, where it succeeds, gives every chunk its vector. */
  lemma RebuildAnswers(engine: Engine, chunks: seq<Chunk>, ix: Index, r: Result<Report, string>)
    requires Outcome(engine, EMPTY, ix, chunks, r) && r.Ok? && UniqueIds(chunks)
    ensures AllAnswer(engine, ix, chunks)
  {
    assert NoneStale(engine, EMPTY, chunks);
  }

  /** A vector without a row although no id occurs twice: one chunk replaced another, and the
      embedder could not be run. */
  lemma OrphanWithoutRepeats(engine: Engine, row: NodeMeta, v: Vector, b: Chunk, ix: Index, r: Result<Report, string>)
    requires row.id == "a" && row.key == 1 && b.id == "b" && !engine.ready
    requires Outcome(engine, Index(map["a" := row], map[1 := v]), ix, [b], r)
    ensures var ix0 := Index(map["a" := row], map[1 := v]);
      r.Err? && NoOrphans(ix0) && NewIdsOnce(ix0.rows, [b]) && Orphan(ix, 1)
  {
    OnlyChunk(b);
    OnlyRow(row, v, b);
  }

  lemma OnlyRow(row: NodeMeta, v: Vector, b: Chunk)
    requires row.id == "a" && row.key == 1 && b.id == "b"
    ensures var ix0 := Index(map["a" := row], map[1 := v]);
      && NoOrphans(ix0) && !Reusable(ix0.rows, b) && 1 in KeysOfRows(ix0.rows, ix0.rows.Keys - {"b"})
  {
    var ix0 := Index(map["a" := row], map[1 := v]);
    assert HasKey(ix0.rows, "a", 1);
    assert "a" in ix0.rows.Keys - {"b"};
  }

  // ----- Where the hash decides

  /** Each row has the vector that its hash calls for. */
  ghost predicate StoredByHash(byHash: string -> Vector, ix: Index) {
    forall id :: id in ix.rows ==> VectorAt(ix, id) == Some(byHash(ix.rows[id].nodeHash))
  }

  /** If the hash of a chunk decides its vector, and did so for the rows, none is stale: every
      run that succeeds answers as a rebuild from nothing does, and every run keeps it so. */
  lemma HashDecides(byHash: string -> Vector, engine: Engine, ix0: Index, ix: Index, chunks: seq<Chunk>,
      r: Result<Report, string>)
    requires (forall c :: c in chunks ==> engine.vectorOf(c) == byHash(c.nodeHash)) && StoredByHash(byHash, ix0)
    requires Outcome(engine, ix0, ix, chunks, r)
    ensures StoredByHash(byHash, ix)
    ensures r.Ok? && UniqueIds(chunks) ==> AllAnswer(engine, ix, chunks)
  {
    if r.Ok? {
      forall id | id in ix.rows
        ensures VectorAt(ix, id) == Some(byHash(ix.rows[id].nodeHash))
      {
        assert RowMade(engine, ix0, ix, chunks, id);
      }
      assert NoneStale(engine, ix0, chunks);
    } else {
      assert forall id :: id in ix.rows ==> VectorAt(ix, id) == VectorAt(ix0, id);
    }
  }

  // ----- The files

  /** The files of a search index: the configuration of its last build, the table, and the
      vectors as last saved. */
  class Sidecar {
    var config: Option<Config>
    var meta: MetaStore
    var saved: Vectors

    constructor ()
      ensures Valid() && config == None && Files() == EMPTY && fresh(meta)
    {
      config, saved := None, map[];
      meta := new MetaStore();
    }

    function Files(): Index
      reads this, meta
    {
      Index(meta.rows, saved)
    }

    /** The table is sound, and each of its rows has a saved vector. */
    ghost predicate Valid()
      reads this, meta
    {
      meta.Valid() && Covered(Files())
    }

    /** Everything must be built anew. */
    predicate Outdated(model: string, force: bool)
      reads this
    {
      || force
      || (config.Some? && (config.value.model != model || config.value.fingerprintVersion != FINGERPRINT_VERSION))
    }

    /** What an update starts from: nothing, if it is forced or the last build was made by
        another model or another version of the fingerprint. */
    function Start(model: string, force: bool): (ix: Index)
      reads this, meta
      ensures ix ==
        if force || (config.Some? && config.value != Config(model, "1")) then Index(map[], map[])
        else Index(meta.rows, saved)
    {
      if Outdated(model, force) then EMPTY else Files()
    }

    /** Removes outdated files. */
    method DropOutdated(model: string, force: bool)
      requires Valid()
      modifies this
      ensures Valid() && config == old(config) && (meta == old(meta) || fresh(meta))
      ensures Files() == old(Start(model, force))
    {
      if Outdated(model, force) {
        meta := new MetaStore();
        saved := map[];
      }
    }

    /** Brings the index up to date with the chunks: from what it holds, or from nothing if
        that is outdated. Where ids are unique each of them then answers with the vector of its
        chunk exactly if no row that could be reused had another vector. A failure leaves the
        files sound, but the saved vectors of rows that vanished stay without a row. */
    method BuildOrUpdate(chunks: seq<Chunk>, force: bool, engine: Engine) returns (r: Result<Report, string>)
      requires Valid() && Room(Start(engine.model, force).rows, |chunks|)
      modifies this, meta
      ensures Valid() && (meta == old(meta) || fresh(meta))
      ensures config == if r.Ok? then Some(Config(engine.model, FINGERPRINT_VERSION)) else old(config)
      ensures Outcome(engine, old(Start(engine.model, force)), Files(), chunks, r)
    {
      DropOutdated(engine.model, force);
      ghost var ix0 := Files();
      var result, vectors := UpdateSaved(meta, saved, chunks, engine);
      ghost var ix := Index(meta.rows, vectors);
      r, saved := result, vectors;
      if r.Ok? {
        config := Some(Config(engine.model, FINGERPRINT_VERSION));
      }
      assert Files() == ix && old(Start(engine.model, force)) == ix0;
    }
  }
}
