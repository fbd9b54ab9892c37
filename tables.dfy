/** An SQLite table declared `INTEGER PRIMARY KEY AUTOINCREMENT`, as the
    back end's tables are (backend/database.py): its rows in rowid order and
    the largest id it ever handed out, which AUTOINCREMENT never reuses. The
    row value is the table's other columns. */
module Tables {

  import opened Outcomes

  datatype Row<+T> = Row(id: int, value: T)

  /** Rows in strictly increasing id order, as SQLite stores them by rowid. */
  predicate IdsIncreasing<T>(rows: seq<Row<T>>) {
    forall i, j :: 0 <= i < j < |rows| ==> rows[i].id < rows[j].id
  }

  /** The opposite `WHERE` condition. */
  function Not<T>(sel: Row<T> -> bool): Row<T> -> bool {
    (r: Row<T>) => !sel(r)
  }

  /** `WHERE id = ?` on the primary key. */
  function HasId<T>(id: int): Row<T> -> bool {
    (r: Row<T>) => r.id == id
  }

  /** The rows a `SELECT ... WHERE sel` yields, in rowid order. */
  function Select<T>(rows: seq<Row<T>>, sel: Row<T> -> bool): (r: seq<Row<T>>)
    ensures |r| <= |rows|
    ensures forall k :: 0 <= k < |r| ==> sel(r[k]) && r[k] in rows
  {
    if rows == [] then []
    else
      var init := rows[..|rows| - 1];
      var last := rows[|rows| - 1];
      assert forall x :: x in init ==> x in rows;
      Select(init, sel) + (if sel(last) then [last] else [])
  }

  /** A row is selected exactly when it is in the table and matches. */
  lemma {:induction false} SelectExact<T>(rows: seq<Row<T>>, sel: Row<T> -> bool)
    ensures forall x :: x in Select(rows, sel) <==> x in rows && sel(x)
  {
    if rows != [] {
      var init := rows[..|rows| - 1];
      SelectExact(init, sel);
      assert rows == init + [rows[|rows| - 1]];
    }
  }

  /** Selection keeps the rowid order, so it also answers `ORDER BY id`. */
  lemma {:induction false} SelectIncreasing<T>(rows: seq<Row<T>>, sel: Row<T> -> bool)
    requires IdsIncreasing(rows)
    ensures IdsIncreasing(Select(rows, sel))
  {
    if rows != [] {
      var init := rows[..|rows| - 1];
      var last := rows[|rows| - 1];
      SelectIncreasing(init, sel);
      var s := Select(init, sel);
      forall k | 0 <= k < |s| ensures s[k].id < last.id {
        var i :| 0 <= i < |init| && init[i] == s[k];
      }
    }
  }

  /** Every row either matches or does not: the two selections share out the table. */
  lemma {:induction false} SelectSplit<T>(rows: seq<Row<T>>, sel: Row<T> -> bool)
    ensures |Select(rows, sel)| + |Select(rows, Not(sel))| == |rows|
  {
    if rows != [] {
      SelectSplit(rows[..|rows| - 1], sel);
    }
  }

  /** Selecting from a table with one more row at the end. */
  lemma SelectAppend<T>(rows: seq<Row<T>>, x: Row<T>, sel: Row<T> -> bool)
    ensures Select(rows + [x], sel) == Select(rows, sel) + (if sel(x) then [x] else [])
  {
    assert (rows + [x])[..|rows|] == rows;
  }

  /** The primary key matches at most one row, and one exactly when the id is present. */
  lemma {:induction false} SelectById<T>(rows: seq<Row<T>>, id: int)
    requires IdsIncreasing(rows)
    ensures |Select(rows, HasId(id))| <= 1
    ensures |Select(rows, HasId(id))| == 1 <==> exists k :: 0 <= k < |rows| && rows[k].id == id
  {
    if rows != [] {
      var init := rows[..|rows| - 1];
      var last := rows[|rows| - 1];
      SelectById(init, id);
      if last.id == id {
        assert forall k :: 0 <= k < |init| ==> init[k].id != id by {
          forall k | 0 <= k < |init| ensures init[k].id != id {
            assert init[k] == rows[k];
          }
        }
      } else {
        assert forall k :: 0 <= k < |init| ==> init[k] == rows[k];
      }
    }
  }

  /** The selection is empty exactly when no row of the table matches. */
  lemma SelectEmpty<T>(rows: seq<Row<T>>, sel: Row<T> -> bool)
    ensures Select(rows, sel) == [] <==> forall k :: 0 <= k < |rows| ==> !sel(rows[k])
  {
    SelectExact(rows, sel);
    var s := Select(rows, sel);
    if s != [] {
      assert s[0] in s;
    } else {
      forall k | 0 <= k < |rows| ensures !sel(rows[k]) {
        assert rows[k] in rows;
      }
    }
  }

  /** The first selected row is the first matching row of the table. */
  lemma {:induction false} SelectFirst<T>(rows: seq<Row<T>>, sel: Row<T> -> bool)
    requires Select(rows, sel) != []
    ensures exists i :: 0 <= i < |rows| && rows[i] == Select(rows, sel)[0]
                        && forall j :: 0 <= j < i ==> !sel(rows[j])
  {
    var init := rows[..|rows| - 1];
    var last := rows[|rows| - 1];
    assert Select(rows, sel) == Select(init, sel) + (if sel(last) then [last] else []);
    if Select(init, sel) != [] {
      SelectFirst(init, sel);
      var i :| 0 <= i < |init| && init[i] == Select(init, sel)[0]
               && forall j :: 0 <= j < i ==> !sel(init[j]);
      assert Select(rows, sel)[0] == Select(init, sel)[0];
      assert rows[i] == init[i];
      forall j | 0 <= j < i ensures !sel(rows[j]) {
        assert rows[j] == init[j];
      }
    } else {
      SelectEmpty(init, sel);
      assert Select(rows, sel)[0] == last;
      forall j | 0 <= j < |rows| - 1 ensures !sel(rows[j]) {
        assert rows[j] == init[j];
      }
    }
  }

  /** `cursor.fetchone()`: the first row of a result, if any. */
  function FetchOne<T>(result: seq<Row<T>>): (r: Option<Row<T>>)
    ensures r.None? <==> result == []
    ensures r.Some? ==> r.value == result[0]
  {
    if result == [] then None else Some(result[0])
  }

  class Table<T> {
    /** The rows, in rowid order. */
    var rows: seq<Row<T>>
    /** The table's entry in `sqlite_sequence`: the largest id ever assigned. */
    var lastId: nat

    /** Ids are increasing and all at most the last id handed out. */
    predicate Valid()
      reads this
    {
      && IdsIncreasing(rows)
      && forall k :: 0 <= k < |rows| ==> 1 <= rows[k].id <= lastId
    }

    /** `CREATE TABLE`: no rows, and no id handed out yet. */
    constructor ()
      ensures Valid()
      ensures rows == [] && lastId == 0
    {
      rows := [];
      lastId := 0;
    }

    /** `INSERT` returning `cursor.lastrowid`: the new row gets an id above
        every id the table ever held, deleted ones included. */
    method Insert(v: T) returns (id: int)
      requires Valid()
      modifies this
      ensures Valid()
      ensures id == old(lastId) + 1 && lastId == id
      ensures rows == old(rows) + [Row(id, v)]
      ensures forall k :: 0 <= k < |old(rows)| ==> old(rows)[k].id < id
    {
      lastId := lastId + 1;
      id := lastId;
      rows := rows + [Row(id, v)];
    }

    /** `DELETE ... WHERE sel` returning `cursor.rowcount`: the matching rows
        go, the others stay in order, and the id counter is untouched. */
    method Delete(sel: Row<T> -> bool) returns (count: nat)
      requires Valid()
      modifies this
      ensures Valid()
      ensures rows == Select(old(rows), Not(sel))
      ensures lastId == old(lastId)
      ensures count == |Select(old(rows), sel)| == |old(rows)| - |rows|
    {
      var kept := Select(rows, Not(sel));
      SelectIncreasing(rows, Not(sel));
      SelectSplit(rows, sel);
      count := |rows| - |kept|;
      rows := kept;
    }
  }
}
