/** An append-only SQLite table whose `id INTEGER PRIMARY KEY AUTOINCREMENT`
    column is filled in by the database. Rows are never updated or deleted, so
    a table is the sequence of its rows in insertion order. */
module Table {

  /** One row: the AUTOINCREMENT key and the remaining columns. */
  datatype Row<T> = Row(id: int, item: T)

  /** The table invariant AUTOINCREMENT maintains when rows are never deleted:
      keys are positive and strictly increase in insertion order. */
  ghost predicate Ascending<T>(rows: seq<Row<T>>)
  {
    && (forall i :: 0 <= i < |rows| ==> rows[i].id >= 1)
    && (forall i, j :: 0 <= i < j < |rows| ==> rows[i].id < rows[j].id)
  }

  /** The largest key ever used, or 0 for a table that never held a row. */
  function MaxId<T>(rows: seq<Row<T>>): (m: int)
    ensures m >= 0
    ensures forall i :: 0 <= i < |rows| ==> rows[i].id <= m
    ensures m == 0 || exists i :: 0 <= i < |rows| && rows[i].id == m
  {
    if |rows| == 0 then 0
    else
      var m := MaxId(rows[..|rows| - 1]);
      var last := rows[|rows| - 1].id;
      if m < last then last else m
  }

  /** The key AUTOINCREMENT hands to the next insert: one more than the largest
      key the table has held, and 1 for an empty table. */
  function NextId<T>(rows: seq<Row<T>>): (id: int)
    ensures id >= 1
    ensures forall i :: 0 <= i < |rows| ==> rows[i].id < id
  {
    MaxId(rows) + 1
  }

  /** On an ascending table the next key follows the last row's key. */
  lemma NextIdAfterLast<T>(rows: seq<Row<T>>)
    requires Ascending(rows)
    ensures |rows| == 0 ==> NextId(rows) == 1
    ensures |rows| > 0 ==> NextId(rows) == rows[|rows| - 1].id + 1
  {
    if |rows| > 0 {
      var last := |rows| - 1;
      assert forall i :: 0 <= i < last ==> rows[i].id < rows[last].id;
    }
  }

  /** Appending a row whose key exceeds every key keeps a table ascending. */
  lemma AppendAscending<T>(rows: seq<Row<T>>, x: Row<T>)
    requires Ascending(rows) && x.id >= 1
    requires forall i :: 0 <= i < |rows| ==> rows[i].id < x.id
    ensures Ascending(rows + [x])
  {
  }

  /** Dropping the last row keeps a table ascending. */
  lemma PrefixAscending<T>(rows: seq<Row<T>>)
    requires Ascending(rows) && |rows| > 0
    ensures Ascending(rows[..|rows| - 1])
  {
  }

  /** `INSERT INTO t (...) VALUES (...)`: appends one row under a fresh key and
      returns the table with it (the key is the last row's, `cursor.lastrowid`). */
  function Insert<T>(rows: seq<Row<T>>, item: T): (r: seq<Row<T>>)
    ensures |r| == |rows| + 1
    ensures r[..|rows|] == rows
    ensures r[|rows|].item == item
    ensures forall i :: 0 <= i < |rows| ==> rows[i].id < r[|rows|].id
    ensures r[|rows|].id >= 1
    ensures Ascending(rows) ==> Ascending(r)
  {
    rows + [Row(NextId(rows), item)]
  }
}
