/** The metadata table of the search index: rows by id, with a key that is unique too. */
module MetaStore {
  import opened Wrappers
  import opened Sequences

  datatype NodeMeta = NodeMeta(
    id: string, file: string, lineStart: int, lineEnd: int, layer: string, namespace: string,
    nodeHash: string, preview: string, key: int)

  type Rows = map<string, NodeMeta>

  /** Rows are filed under their id, and no two share a key. */
  ghost predicate Table(rows: Rows) {
    && (forall id :: id in rows ==> rows[id].id == id)
    && forall i, j :: i in rows && j in rows && rows[i].key == rows[j].key ==> i == j
  }

  /** The key is free for a row with this id. */
  predicate Free(rows: Rows, id: string, key: int) {
    forall i :: i in rows && i != id ==> rows[i].key != key
  }

  class MetaStore {
    var rows: Rows

    ghost predicate Valid()
      reads this
    {
      Table(rows)
    }

    constructor ()
      ensures Valid() && rows == map[]
    {
      rows := map[];
    }

    method LookupById(id: string) returns (row: Option<NodeMeta>)
      ensures row == if id in rows then Some(rows[id]) else None
    {
      return if id in rows then Some(rows[id]) else None;
    }

    /** Finds the one row with a key. */
    method GetByKey(key: int) returns (row: Option<NodeMeta>)
      requires Valid()
      ensures row.Some? ==> row.value.id in rows && rows[row.value.id] == row.value && row.value.key == key
      ensures row.None? ==> forall id :: id in rows ==> rows[id].key != key
      ensures forall id :: id in rows && rows[id].key == key ==> row == Some(rows[id])
    {
      row := None;
      var rest := rows.Keys;
      while rest != {}
        invariant rest <= rows.Keys
        invariant forall id :: id in rows && id !in rest ==> rows[id].key != key
      {
        var id :| id in rest;
        if rows[id].key == key {
          return Some(rows[id]);
        }
        rest := rest - {id};
      }
    }

    /** Inserts a row or replaces the row with its id; refused when another row has its key. */
    method Upsert(node: NodeMeta) returns (r: Result<(), string>)
      requires Valid()
      modifies this
      ensures Valid()
      ensures r.Ok? <==> Free(old(rows), node.id, node.key)
      ensures rows == if r.Ok? then old(rows)[node.id := node] else old(rows)
    {
      var holder := GetByKey(node.key);
      if holder.Some? && holder.value.id != node.id {
        return Err("UNIQUE constraint failed: nodes.key");
      }
      rows := rows[node.id := node];
      return Ok(());
    }

    method Delete(id: string)
      requires Valid()
      modifies this
      ensures Valid() && rows == old(rows) - {id}
    {
      rows := rows - {id};
    }

    /** Every id once, in no particular order. */
    method AllIds() returns (ids: seq<string>)
      ensures NoRepeats(ids) && forall id :: id in ids <==> id in rows
    {
      ids := [];
      var rest := rows.Keys;
      while rest != {}
        invariant rest <= rows.Keys && NoRepeats(ids)
        invariant forall id :: id in ids <==> id in rows && id !in rest
      {
        var id :| id in rest;
        ids := ids + [id];
        rest := rest - {id};
      }
    }

    /** The largest key, or 0 of an empty table. */
    method MaxKey() returns (k: int)
      ensures forall id :: id in rows ==> rows[id].key <= k
      ensures if rows == map[] then k == 0 else exists id :: id in rows && rows[id].key == k
    {
      k := 0;
      var rest, found := rows.Keys, false;
      while rest != {}
        invariant rest <= rows.Keys && (found <==> rest != rows.Keys) && (!found ==> k == 0)
        invariant found ==> exists id :: id in rows && rows[id].key == k
        invariant found ==> forall id :: id in rows && id !in rest ==> rows[id].key <= k
      {
        var id :| id in rest;
        if !found || rows[id].key > k {
          k, found := rows[id].key, true;
        }
        rest := rest - {id};
      }
      assert !found ==> rows.Keys == {};
    }
  }
}
