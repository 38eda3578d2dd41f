/** What an update of the search index embeds, and under which keys. */
module IndexPlan {
  import opened Sequences
  import opened MetaStore
  import opened IndexState

  /** An identified element of a spec. Its shape is what the fingerprint encodes besides the
      layer and the namespace: the names of its ancestors and the types of its relations. The
      node hash is that of the element's own XML. */
  datatype Chunk = Chunk(
    id: string, file: string, lineStart: int, lineEnd: int, layer: string, namespace: string,
    text: string, shape: seq<string>, nodeHash: string)

  /** A chunk to embed, by its number, and the key its vector will have. */
  datatype Pending = Pending(chunk: nat, key: int)

  /** The chunk's row has its hash already. */
  predicate Reusable(rows: Rows, c: Chunk) {
    c.id in rows && rows[c.id].nodeHash == c.nodeHash
  }

  ghost predicate AllReusable(rows: Rows, chunks: seq<Chunk>) {
    forall c :: c in chunks ==> Reusable(rows, c)
  }

  function IdsOf(chunks: seq<Chunk>): set<string> {
    set c | c in chunks :: c.id
  }

  ghost predicate UniqueIds(chunks: seq<Chunk>) {
    forall k, l :: 0 <= k < l < |chunks| ==> chunks[k].id != chunks[l].id
  }

  /** No id without a row occurs twice. */
  ghost predicate NewIdsOnce(rows: Rows, chunks: seq<Chunk>) {
    forall k, l :: 0 <= k < l < |chunks| && chunks[k].id == chunks[l].id ==> chunks[k].id in rows
  }

  /** How many of the chunks have an id without a row. */
  function NewCount(rows: Rows, chunks: seq<Chunk>): (n: nat)
    ensures n <= |chunks|
  {
    if chunks == [] then 0 else NewCount(rows, Front(chunks)) + if Last(chunks).id in rows then 0 else 1
  }

  // ----- Keys in use and new keys

  /** The largest key, or 0 of an empty table. */
  ghost predicate IsLastKey(rows: Rows, k: int) {
    && (forall id :: id in rows ==> rows[id].key <= k)
    && if rows == map[] then k == 0 else exists id :: id in rows && rows[id].key == k
  }

  lemma LastKeyOnce(rows: Rows, k: int, l: int)
    requires IsLastKey(rows, k) && IsLastKey(rows, l)
    ensures k == l
  {
  }

  lemma {:induction false} LastKeyExists(rows: Rows) returns (k: int)
    ensures IsLastKey(rows, k)
    decreases |rows|
  {
    if rows == map[] {
      k := 0;
    } else {
      var id :| id in rows;
      var rest := rows - {id};
      assert rows.Keys == rest.Keys + {id};
      var l := LastKeyExists(rest);
      k := if rest == map[] || l < rows[id].key then rows[id].key else l;
      if k == rows[id].key {
        assert id in rows && rows[id].key == k;
      } else {
        var j :| j in rest && rest[j].key == l;
        assert j in rows && rows[j].key == k;
      }
    }
  }

  /** The key u is one that an update gives to a chunk with a new id: the keys right after the
      largest one, as many as there are such chunks. */
  ghost predicate NewKey(rows: Rows, chunks: seq<Chunk>, u: int) {
    exists low, k :: IsLastKey(rows, low) && NewKeyFrom(low, NewCount(rows, chunks), k, u)
  }

  ghost predicate NewKeyFrom(low: int, n: nat, k: int, u: int) {
    low < k <= low + n && IsI64(k) && ToU64(k) == u
  }

  // ----- The plan

  /** A pending chunk keeps the key of its row, or takes one above all keys in use. */
  ghost predicate Keyed(rows: Rows, chunks: seq<Chunk>, low: int, high: int, e: Pending) {
    && e.chunk < |chunks| && !Reusable(rows, chunks[e.chunk])
    && if chunks[e.chunk].id in rows then e.key == rows[chunks[e.chunk].id].key else low < e.key <= high
  }

  ghost predicate Fresh(rows: Rows, chunks: seq<Chunk>, e: Pending) {
    e.chunk < |chunks| && chunks[e.chunk].id !in rows
  }

  /** What has been decided of the first n chunks. */
  ghost predicate Planned(rows: Rows, chunks: seq<Chunk>, n: nat, low: int, high: int, plan: seq<Pending>) {
    && n <= |chunks|
    && AllKeyed(rows, chunks, n, low, high, plan) && InOrder(rows, chunks, plan)
    && (forall k: nat {:trigger Decided(rows, chunks, plan, k)} :: k < n ==> Decided(rows, chunks, plan, k))
    && (forall k {:trigger Used(rows, chunks, plan, k)} :: low < k <= high ==> Used(rows, chunks, plan, k))
    && high == low + NewCount(rows, chunks[..n])
  }

  ghost predicate AllKeyed(rows: Rows, chunks: seq<Chunk>, n: nat, low: int, high: int, plan: seq<Pending>) {
    forall x :: 0 <= x < |plan| ==> Keyed(rows, chunks, low, high, plan[x]) && plan[x].chunk < n
  }

  /** Chunks are pending in their order, and new keys grow. */
  ghost predicate InOrder(rows: Rows, chunks: seq<Chunk>, plan: seq<Pending>) {
    && (forall x, y :: 0 <= x < y < |plan| ==> plan[x].chunk < plan[y].chunk)
    && (forall x, y :: 0 <= x < y < |plan| && Fresh(rows, chunks, plan[x]) && Fresh(rows, chunks, plan[y]) ==>
          plan[x].key < plan[y].key)
  }

  ghost predicate Decided(rows: Rows, chunks: seq<Chunk>, plan: seq<Pending>, k: nat) {
    k < |chunks| && (Reusable(rows, chunks[k]) || exists x :: 0 <= x < |plan| && plan[x].chunk == k)
  }

  /** The key is that of a chunk with a new id. */
  ghost predicate Used(rows: Rows, chunks: seq<Chunk>, plan: seq<Pending>, k: int) {
    exists x :: 0 <= x < |plan| && Fresh(rows, chunks, plan[x]) && plan[x].key == k
  }

  lemma CountNext(rows: Rows, chunks: seq<Chunk>, n: nat)
    requires n < |chunks|
    ensures NewCount(rows, chunks[..n + 1]) == NewCount(rows, chunks[..n]) + if chunks[n].id in rows then 0 else 1
  {
    assert Front(chunks[..n + 1]) == chunks[..n] && Last(chunks[..n + 1]) == chunks[n];
  }

  lemma PlannedReuse(rows: Rows, chunks: seq<Chunk>, n: nat, low: int, high: int, plan: seq<Pending>)
    requires Planned(rows, chunks, n, low, high, plan) && n < |chunks| && Reusable(rows, chunks[n])
    ensures Planned(rows, chunks, n + 1, low, high, plan)
  {
    CountNext(rows, chunks, n);
    forall k: nat | k < n + 1
      ensures Decided(rows, chunks, plan, k)
    {
      assert k < n ==> Decided(rows, chunks, plan, k);
    }
  }

  /** The key of a chunk that is not reused, and the largest key in use after it. */
  function KeyFor(rows: Rows, c: Chunk, high: int): int {
    if c.id in rows then rows[c.id].key else high + 1
  }

  function HighAfter(rows: Rows, c: Chunk, high: int): int {
    if c.id in rows then high else high + 1
  }

  lemma PlannedNext(rows: Rows, chunks: seq<Chunk>, n: nat, low: int, high: int, plan: seq<Pending>)
    requires Planned(rows, chunks, n, low, high, plan) && n < |chunks| && !Reusable(rows, chunks[n])
    ensures Planned(rows, chunks, n + 1, low, HighAfter(rows, chunks[n], high),
      plan + [Pending(n, KeyFor(rows, chunks[n], high))])
  {
    var e, high' := Pending(n, KeyFor(rows, chunks[n], high)), HighAfter(rows, chunks[n], high);
    var plan' := plan + [e];
    CountNext(rows, chunks, n);
    KeyedMore(rows, chunks, n, low, high, plan, e, high');
    InOrderMore(rows, chunks, n, low, high, plan, e);
    forall k: nat | k < n + 1
      ensures Decided(rows, chunks, plan', k)
    {
      DecidedMore(rows, chunks, plan, e, n, k);
    }
    forall k | low < k <= high'
      ensures Used(rows, chunks, plan', k)
    {
      UsedMore(rows, chunks, plan, e, k);
    }
  }

  lemma KeyedMore(rows: Rows, chunks: seq<Chunk>, n: nat, low: int, high: int, plan: seq<Pending>, e: Pending,
      high': int)
    requires AllKeyed(rows, chunks, n, low, high, plan) && high <= high'
    requires Keyed(rows, chunks, low, high', e) && e.chunk == n
    ensures AllKeyed(rows, chunks, n + 1, low, high', plan + [e])
  {
    forall x | 0 <= x < |plan|
      ensures Keyed(rows, chunks, low, high', plan[x])
    {
      assert Keyed(rows, chunks, low, high, plan[x]);
    }
  }

  lemma InOrderMore(rows: Rows, chunks: seq<Chunk>, n: nat, low: int, high: int, plan: seq<Pending>, e: Pending)
    requires AllKeyed(rows, chunks, n, low, high, plan) && InOrder(rows, chunks, plan)
    requires e.chunk == n && (Fresh(rows, chunks, e) ==> high < e.key)
    ensures InOrder(rows, chunks, plan + [e])
  {
    forall x | 0 <= x < |plan| && Fresh(rows, chunks, plan[x]) && Fresh(rows, chunks, e)
      ensures plan[x].key < e.key
    {
      assert Keyed(rows, chunks, low, high, plan[x]);
    }
  }

  lemma DecidedMore(rows: Rows, chunks: seq<Chunk>, plan: seq<Pending>, e: Pending, n: nat, k: nat)
    requires n < |chunks| && e.chunk == n && (k == n || Decided(rows, chunks, plan, k))
    ensures Decided(rows, chunks, plan + [e], k)
  {
    if k == n {
      assert (plan + [e])[|plan|] == e;
    } else if x :| 0 <= x < |plan| && plan[x].chunk == k {
      assert (plan + [e])[x].chunk == k;
    }
  }

  lemma UsedMore(rows: Rows, chunks: seq<Chunk>, plan: seq<Pending>, e: Pending, k: int)
    requires Used(rows, chunks, plan, k) || (Fresh(rows, chunks, e) && e.key == k)
    ensures Used(rows, chunks, plan + [e], k)
  {
    if x :| 0 <= x < |plan| && Fresh(rows, chunks, plan[x]) && plan[x].key == k {
      assert (plan + [e])[x] == plan[x];
    } else {
      assert (plan + [e])[|plan|] == e;
    }
  }

  /** The plan and the table it was made for. */
  ghost predicate PlanFor(rows: Rows, chunks: seq<Chunk>, low: int, high: int, plan: seq<Pending>) {
    Table(rows) && IsLastKey(rows, low) && Planned(rows, chunks, |chunks|, low, high, plan)
  }

  /** Which of the first n chunks have a row with their hash. */
  ghost function Reused(rows: Rows, chunks: seq<Chunk>, n: nat): set<nat> {
    set k: nat | k < n && k < |chunks| && chunks[k].id in rows && rows[chunks[k].id].nodeHash == chunks[k].nodeHash
  }

  lemma ReusedNext(rows: Rows, chunks: seq<Chunk>, n: nat)
    requires n < |chunks|
    ensures |Reused(rows, chunks, n + 1)| == |Reused(rows, chunks, n)| + if Reusable(rows, chunks[n]) then 1 else 0
  {
    var before, now := Reused(rows, chunks, n), Reused(rows, chunks, n + 1);
    assert now == if Reusable(rows, chunks[n]) then before + {n} else before;
  }

  /** Decides for each chunk whether its vector can be reused, and which key it gets if not. */
  method PlanChunks(meta: MetaStore, chunks: seq<Chunk>) returns (plan: seq<Pending>, reused: nat, low: int, high: int)
    requires meta.Valid()
    ensures PlanFor(meta.rows, chunks, low, high, plan)
    ensures |plan| + reused == |chunks| && reused == |Reused(meta.rows, chunks, |chunks|)|
  {
    plan, reused := [], 0;
    low := meta.MaxKey();
    high := low;
    var n := 0;
    assert chunks[..0] == [];
    while n < |chunks|
      invariant 0 <= n <= |chunks| && Planned(meta.rows, chunks, n, low, high, plan)
      invariant |plan| + reused == n && reused == |Reused(meta.rows, chunks, n)|
    {
      plan, high, reused := PlanNext(meta, chunks, n, plan, high, reused, low);
      n := n + 1;
    }
    assert chunks[..n] == chunks;
  }

  method PlanNext(meta: MetaStore, chunks: seq<Chunk>, n: nat, plan: seq<Pending>, high: int, reused: nat,
      ghost low: int)
    returns (plan': seq<Pending>, high': int, reused': nat)
    requires n < |chunks| && Planned(meta.rows, chunks, n, low, high, plan)
    ensures Planned(meta.rows, chunks, n + 1, low, high', plan')
    ensures |plan'| + reused' == |plan| + reused + 1
    ensures reused == |Reused(meta.rows, chunks, n)| ==> reused' == |Reused(meta.rows, chunks, n + 1)|
  {
    ReusedNext(meta.rows, chunks, n);
    plan', high', reused' := plan, high, reused;
    var c := chunks[n];
    var existing := meta.LookupById(c.id);
    if existing.Some? && existing.value.nodeHash == c.nodeHash {
      PlannedReuse(meta.rows, chunks, n, low, high, plan);
      reused' := reused + 1;
    } else {
      PlannedNext(meta.rows, chunks, n, low, high, plan);
      if existing.Some? {
        plan' := plan + [Pending(n, existing.value.key)];
      } else {
        high' := high + 1;
        plan' := plan + [Pending(n, high')];
      }
    }
  }

  lemma NothingPlanned(rows: Rows, chunks: seq<Chunk>, low: int, high: int, plan: seq<Pending>)
    requires PlanFor(rows, chunks, low, high, plan)
    ensures plan == [] <==> AllReusable(rows, chunks)
  {
    if plan == [] {
      forall c | c in chunks
        ensures Reusable(rows, c)
      {
        var k :| 0 <= k < |chunks| && chunks[k] == c;
        assert Decided(rows, chunks, plan, k);
      }
    } else {
      assert Keyed(rows, chunks, low, high, plan[0]);
      assert chunks[plan[0].chunk] in chunks;
    }
  }

  // ----- Ids of pending chunks

  function IdOf(chunks: seq<Chunk>, e: Pending): string {
    if e.chunk < |chunks| then chunks[e.chunk].id else ""
  }

  ghost predicate Apart(chunks: seq<Chunk>, e: Pending, f: Pending) {
    IdOf(chunks, e) != IdOf(chunks, f) ==> e.key != f.key
  }

  /** Pending chunks with different ids have different keys. */
  lemma PlannedApart(rows: Rows, chunks: seq<Chunk>, low: int, high: int, plan: seq<Pending>, x: nat, y: nat)
    requires PlanFor(rows, chunks, low, high, plan) && x < |plan| && y < |plan|
    ensures Apart(chunks, plan[x], plan[y])
  {
    var e, f := plan[x], plan[y];
    assert Keyed(rows, chunks, low, high, e) && Keyed(rows, chunks, low, high, f);
    if Fresh(rows, chunks, e) && Fresh(rows, chunks, f) && x != y {
      assert e.key != f.key;
    }
  }

  /** The new keys of a plan are those right after the largest key. */
  lemma PlanUsesNewKeys(rows: Rows, chunks: seq<Chunk>, low: int, high: int, plan: seq<Pending>, u: int)
    requires PlanFor(rows, chunks, low, high, plan)
    ensures NewKey(rows, chunks, u) <==>
      exists x :: 0 <= x < |plan| && Fresh(rows, chunks, plan[x]) && IsI64(plan[x].key) && ToU64(plan[x].key) == u
  {
    assert chunks[..|chunks|] == chunks;
    if NewKey(rows, chunks, u) {
      var low', k :| IsLastKey(rows, low') && NewKeyFrom(low', NewCount(rows, chunks), k, u);
      LastKeyOnce(rows, low, low');
      assert Used(rows, chunks, plan, k);
    }
    if x :| 0 <= x < |plan| && Fresh(rows, chunks, plan[x]) && IsI64(plan[x].key) && ToU64(plan[x].key) == u {
      assert Keyed(rows, chunks, low, high, plan[x]);
      assert NewKeyFrom(low, NewCount(rows, chunks), plan[x].key, u);
    }
  }
}
