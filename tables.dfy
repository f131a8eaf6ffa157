/**
 * The `nvd` and `nvd_json` tables as the loader uses them: rows with an
 * auto-increment `id`, looked up by their CVE id, and written either by an
 * `insert` (a fresh id) or by a `replace into ... (id, ...)` that overwrites
 * the row holding that id.
 */
module Tables {
  import opened Wrappers

  datatype Row<K, C> = Row(id: nat, key: K, cols: C)

  /** Rows in primary-key order, and the auto-increment counter. */
  datatype Table<K, C> = Table(rows: seq<Row<K, C>>, nextId: nat)

  /** Ids ascend and stay below the counter, and no two rows share a key. */
  predicate Valid<K(==), C>(t: Table<K, C>) {
    && (forall i, j :: 0 <= i < j < |t.rows| ==> t.rows[i].id < t.rows[j].id)
    && (forall i :: 0 <= i < |t.rows| ==> t.rows[i].id < t.nextId)
    && (forall i, j :: 0 <= i < j < |t.rows| ==> t.rows[i].key != t.rows[j].key)
  }

  /** The position of the first row with `key`, in primary-key order. */
  function Find<K(==), C>(rows: seq<Row<K, C>>, key: K): (r: Option<nat>)
    ensures r.Some? ==> r.value < |rows| && rows[r.value].key == key
    ensures r.Some? ==> forall j :: 0 <= j < r.value ==> rows[j].key != key
    ensures r.None? <==> forall j :: 0 <= j < |rows| ==> rows[j].key != key
  {
    if |rows| == 0 then None
    else if rows[0].key == key then Some(0)
    else match Find(rows[1..], key)
      case None => None
      case Some(i) => Some(i + 1)
  }

  /** The first row holding `key` is the one Find reports. */
  lemma FindAt<K, C>(rows: seq<Row<K, C>>, key: K, i: nat)
    requires i < |rows| && rows[i].key == key
    requires forall j :: 0 <= j < i ==> rows[j].key != key
    ensures Find(rows, key) == Some(i)
  {
  }

  /** `select id from t where cve_id = key limit 1`: None when the query returns no row. */
  function IdOf<K(==), C>(t: Table<K, C>, key: K): Option<nat> {
    match Find(t.rows, key)
    case None => None
    case Some(i) => Some(t.rows[i].id)
  }

  /** The row `select` finds for `key`. */
  function RowFor<K(==), C>(t: Table<K, C>, key: K): Option<Row<K, C>> {
    match Find(t.rows, key)
    case None => None
    case Some(i) => Some(t.rows[i])
  }

  /** `insert into t(key, cols...)`: the new row takes the counter's id. */
  function Insert<K(==), C>(t: Table<K, C>, key: K, cols: C): Table<K, C> {
    Table(t.rows + [Row(t.nextId, key, cols)], t.nextId + 1)
  }

  /**
   * `replace into t(id, key, cols...)`: a row holding `id` is replaced in place;
   * when none does, the row is added and the counter moves past `id`.
   */
  function ReplaceRow<K(==), C>(t: Table<K, C>, id: nat, key: K, cols: C): Table<K, C> {
    if exists i :: 0 <= i < |t.rows| && t.rows[i].id == id then
      Table(seq(|t.rows|, i requires 0 <= i < |t.rows| => if t.rows[i].id == id then Row(id, key, cols) else t.rows[i]),
            t.nextId)
    else
      Table(t.rows + [Row(id, key, cols)], if id < t.nextId then t.nextId else id + 1)
  }

  /** The per-item write of insert_data_into_db: replace the row found for `key`, or insert a new one. */
  function Upsert<K(==), C>(t: Table<K, C>, key: K, cols: C): Table<K, C> {
    match IdOf(t, key)
    case None => Insert(t, key, cols)
    case Some(id) => ReplaceRow(t, id, key, cols)
  }

  /** In a valid table, the row at position `i` is the only one holding its id. */
  lemma ReplaceAt<K, C>(t: Table<K, C>, i: nat, key: K, cols: C)
    requires Valid(t) && i < |t.rows|
    ensures ReplaceRow(t, t.rows[i].id, key, cols) == Table(t.rows[i := Row(t.rows[i].id, key, cols)], t.nextId)
  {
    var id := t.rows[i].id;
    var r := ReplaceRow(t, id, key, cols);
    assert r.rows == t.rows[i := Row(id, key, cols)] by {
      forall j | 0 <= j < |t.rows|
        ensures r.rows[j] == t.rows[i := Row(id, key, cols)][j]
      {
        if j < i {
          assert t.rows[j].id < id;
        } else if j > i {
          assert id < t.rows[j].id;
        }
      }
    }
  }

  /** Inserting or replacing keeps ids ascending and below the counter, and keys unique. */
  lemma UpsertValid<K, C>(t: Table<K, C>, key: K, cols: C)
    requires Valid(t)
    ensures Valid(Upsert(t, key, cols))
  {
    var f := Find(t.rows, key);
    if f.Some? {
      ReplaceAt(t, f.value, key, cols);
    }
  }

  /** After the write, `select` finds the written columns for `key`, under its old id when it had one and a fresh one otherwise. */
  lemma UpsertRow<K, C>(t: Table<K, C>, key: K, cols: C)
    requires Valid(t)
    ensures RowFor(Upsert(t, key, cols), key)
         == Some(Row(match IdOf(t, key) case Some(id) => id case None => t.nextId, key, cols))
  {
    var f := Find(t.rows, key);
    var u := Upsert(t, key, cols);
    if f.Some? {
      ReplaceAt(t, f.value, key, cols);
      FindAt(u.rows, key, f.value);
    } else {
      FindAt(u.rows, key, |t.rows|);
    }
  }

  /** The write changes nothing `select` finds for any other key. */
  lemma UpsertOthers<K, C>(t: Table<K, C>, key: K, cols: C, other: K)
    requires Valid(t) && other != key
    ensures RowFor(Upsert(t, key, cols), other) == RowFor(t, other)
  {
    var f := Find(t.rows, key);
    var u := Upsert(t, key, cols);
    var g := Find(t.rows, other);
    if f.Some? {
      ReplaceAt(t, f.value, key, cols);
    }
    assert forall j :: 0 <= j < |u.rows| ==> (u.rows[j].key == other <==> j < |t.rows| && t.rows[j].key == other);
    if g.Some? {
      FindAt(u.rows, other, g.value);
    }
  }

  /** A new key adds exactly one row; a known key adds none. */
  lemma UpsertSize<K, C>(t: Table<K, C>, key: K, cols: C)
    requires Valid(t)
    ensures |Upsert(t, key, cols).rows| == |t.rows| + (if IdOf(t, key).None? then 1 else 0)
  {
    var f := Find(t.rows, key);
    if f.Some? {
      ReplaceAt(t, f.value, key, cols);
    }
  }

  /** Writing the same item twice leaves the table as writing it once. */
  lemma UpsertIdempotent<K, C>(t: Table<K, C>, key: K, cols: C)
    requires Valid(t)
    ensures Upsert(Upsert(t, key, cols), key, cols) == Upsert(t, key, cols)
  {
    var f := Find(t.rows, key);
    var u := Upsert(t, key, cols);
    UpsertValid(t, key, cols);
    UpsertRow(t, key, cols);
    var g := Find(u.rows, key);
    ReplaceAt(u, g.value, key, cols);
    assert u.rows[g.value := Row(u.rows[g.value].id, key, cols)] == u.rows;
  }
}
