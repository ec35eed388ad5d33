/** Tables with an auto-incremented integer key, as sequences of rows in insertion order. */
module Tables {
  import opened Options

  datatype Row<+T> = Row(id: nat, data: T)

  /** Keys are handed out in increasing order and never reused. */
  ghost predicate Keyed<T>(rows: seq<Row<T>>, next: nat) {
    && (forall i :: 0 <= i < |rows| ==> 0 < rows[i].id < next)
    && (forall i, j :: 0 <= i < j < |rows| ==> rows[i].id < rows[j].id)
  }

  function Get<T>(rows: seq<Row<T>>, id: nat): (r: Option<T>)
    ensures r.Some? ==> Row(id, r.value) in rows
    ensures r.None? ==> forall row :: row in rows ==> row.id != id
  {
    if |rows| == 0 then None
    else if rows[0].id == id then Some(rows[0].data)
    else Get(rows[1..], id)
  }

  /** UPDATE ... WHERE id = ? */
  function Put<T>(rows: seq<Row<T>>, id: nat, data: T): (r: seq<Row<T>>)
    ensures |r| == |rows|
    ensures forall i :: 0 <= i < |rows| ==> r[i] == if rows[i].id == id then Row(id, data) else rows[i]
  {
    seq(|rows|, i requires 0 <= i < |rows| => if rows[i].id == id then Row(id, data) else rows[i])
  }

  /** DELETE ... WHERE id = ? */
  function Delete<T(!new)>(rows: seq<Row<T>>, id: nat): (r: seq<Row<T>>)
    ensures forall row :: row in r <==> row in rows && row.id != id
  {
    if |rows| == 0 then []
    else Delete(rows[..|rows| - 1], id) + if rows[|rows| - 1].id == id then [] else [rows[|rows| - 1]]
  }

  lemma DeleteAbsent<T(!new)>(rows: seq<Row<T>>, id: nat)
    requires Get(rows, id).None?
    ensures Delete(rows, id) == rows
  {
  }

  lemma {:induction false} DeleteOutside<T(!new)>(rows: seq<Row<T>>, id: nat)
    requires forall row :: row in rows ==> row.id != id
    ensures Delete(rows, id) == rows
  {
    if |rows| > 0 {
      var init, last := rows[..|rows| - 1], rows[|rows| - 1];
      assert last in rows;
      DeleteOutside(init, id);
      assert rows == init + [last];
    }
  }

  lemma {:induction false} DeleteKeyed<T(!new)>(rows: seq<Row<T>>, id: nat, next: nat)
    requires Keyed(rows, next)
    ensures Keyed(Delete(rows, id), next)
  {
    if |rows| > 0 {
      var init, last := rows[..|rows| - 1], rows[|rows| - 1];
      DeleteKeyed(init, id, next);
      var d := Delete(init, id);
      forall i | 0 <= i < |d| ensures d[i].id < last.id {
        assert d[i] in init;
      }
    }
  }

  /** In a keyed table a row is found under its own key. */
  lemma GetOwn<T>(rows: seq<Row<T>>, next: nat, row: Row<T>)
    requires Keyed(rows, next) && row in rows
    ensures Get(rows, row.id) == Some(row.data)
  {
  }

  lemma GetPut<T>(rows: seq<Row<T>>, next: nat, id: nat, data: T, other: nat)
    requires Keyed(rows, next)
    ensures Keyed(Put(rows, id, data), next)
    ensures Get(Put(rows, id, data), other)
      == if other == id && Get(rows, id).Some? then Some(data) else Get(rows, other)
  {
  }

  lemma GetDelete<T(!new)>(rows: seq<Row<T>>, next: nat, id: nat, other: nat)
    requires Keyed(rows, next)
    ensures Get(Delete(rows, id), other) == if other == id then None else Get(rows, other)
  {
  }

  lemma GetAppend<T>(rows: seq<Row<T>>, next: nat, data: T, other: nat)
    requires Keyed(rows, next) && next > 0
    ensures Keyed(rows + [Row(next, data)], next + 1)
    ensures Get(rows + [Row(next, data)], other) == if other == next then Some(data) else Get(rows, other)
  {
  }
}
