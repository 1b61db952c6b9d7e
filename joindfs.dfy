/** dgeapy_joindfs.py: table 1 left-joined with table 2 on a shared key column,
    and the table 2 rows that joined nothing. */
module JoinDfs {
  import opened Wrappers
  import opened Tables
  import opened Frames
  import opened Joins

  /** The two tables the script writes. */
  datatype Outputs = Outputs(joined: Table, notJoined: Table)

  /** The two tables can be joined: both have the key column and no other
      column name is shared. */
  predicate Joinable(t1: Table, t2: Table, key: string)
  {
    key in t1.columns && key in t2.columns && Disjoint(Without(t1.columns, key), Without(t2.columns, key))
  }

  /** `main` from `set_index` to the removal of the 'Unnamed' columns. The
      `reindex` to table 1's columns then table 2's is the join's own column
      order, so it changes nothing. */
  function JoinDfs(t1: Table, t2: Table, key: string): (r: Result<Outputs>)
    ensures r.Success? <==> Joinable(t1, t2, key)
    ensures r.Failure? ==> (r.error == KeyError <==> !(key in t1.columns && key in t2.columns))
    ensures r.Failure? ==> r.error == KeyError || r.error == ValueError
    ensures r.Success? ==> r.value.joined.columns == Named([key] + Without(t1.columns, key) + Without(t2.columns, key))
    ensures r.Success? ==> r.value.notJoined.columns == Named([key] + Without(t2.columns, key))
  {
    if key !in t1.columns || key !in t2.columns then Failure(KeyError)
    else
      var a, b := SetIndex(t1, key).value, SetIndex(t2, key).value;
      var j := LeftJoin(a, b);
      if j.Failure? then Failure(j.error)
      else
        var nm := Indexed(b.name, b.columns, NotIn(b.entries, Keys(j.value.entries)));
        var jt, nt := ResetIndex(j.value), ResetIndex(nm);
        assert jt.Success? && nt.Success?;
        assert jt.value.columns == [key] + (a.columns + b.columns);
        assert [key] + (a.columns + b.columns) == [key] + a.columns + b.columns;
        Success(Outputs(DropUnnamed(jt.value), DropUnnamed(nt.value)))
  }

  lemma KeysOfEntries(rows: seq<Row>, key: string)
    ensures Keys(Entries(rows, key)) == ColumnCells(rows, key)
  {
  }

  /** Table 1's row `r` joined: its cells, its key restored, and the matched
      table 2 row `b` supplies. */
  function JoinedRow(r: Row, key: string, b: Indexed): Row
  {
    (r - {key} + RightRow(Get(r, key), b))[key := Get(r, key)]
  }

  /** With table 2's keys unique, the joined table has table 1's rows one for
      one, in order. */
  lemma JoinedShape(t1: Table, t2: Table, key: string)
    requires Joinable(t1, t2, key) && Distinct(ColumnCells(t2.rows, key))
    ensures var out := JoinDfs(t1, t2, key).value.joined;
      && |out.rows| == |t1.rows|
      && forall i, c :: 0 <= i < |t1.rows| && c in out.columns ==>
           Get(out.rows[i], c) == Get(JoinedRow(t1.rows[i], key, SetIndex(t2, key).value), c)
  {
    var a := SetIndex(t1, key).value;
    var b := SetIndex(t2, key).value;
    var j := LeftJoin(a, b).value;
    var jt := ResetIndex(j).value;
    assert JoinDfs(t1, t2, key).value.joined == DropUnnamed(jt);
    KeysOfEntries(t2.rows, key);
    JoinUnique(a.entries, b);
    forall i | 0 <= i < |t1.rows|
      ensures jt.rows[i] == JoinedRow(t1.rows[i], key, b)
    {
    }
  }

  /** Table 1's own cells, and the key, are kept as they were. */
  lemma JoinedKeepsTable1(t1: Table, t2: Table, key: string)
    requires Joinable(t1, t2, key) && WellFormed(t2) && Distinct(ColumnCells(t2.rows, key))
    ensures var out := JoinDfs(t1, t2, key).value.joined;
      && |out.rows| == |t1.rows|
      && forall i, c :: 0 <= i < |t1.rows| && c in out.columns && c !in Without(t2.columns, key) ==>
           Get(out.rows[i], c) == Get(t1.rows[i], c)
  {
    JoinedShape(t1, t2, key);
    var b := SetIndex(t2, key).value;
    forall i | 0 <= i < |t1.rows|
      ensures forall c :: c in RightRow(Get(t1.rows[i], key), b) ==> c in Without(t2.columns, key)
    {
      RightRowColumns(t2, key, b, Get(t1.rows[i], key));
    }
  }

  /** A table 1 row whose key is on table 2 row j gets that row's cells in
      table 2's columns. */
  lemma JoinedMatched(t1: Table, t2: Table, key: string, i: nat, j: nat)
    requires Joinable(t1, t2, key) && WellFormed(t2) && Distinct(ColumnCells(t2.rows, key))
    requires i < |t1.rows| && j < |t2.rows| && Get(t1.rows[i], key) == Get(t2.rows[j], key)
    ensures var out := JoinDfs(t1, t2, key).value.joined;
      && |out.rows| == |t1.rows|
      && forall c :: c in out.columns && c in Without(t2.columns, key) ==> Get(out.rows[i], c) == Get(t2.rows[j], c)
  {
    JoinedShape(t1, t2, key);
    KeysOfEntries(t2.rows, key);
    var b := SetIndex(t2, key).value;
    RightRowAt(b, j);
    var k := Get(t1.rows[i], key);
    assert b.entries[j] == Entry(k, t2.rows[j] - {key});
    assert RightRow(k, b) == t2.rows[j] - {key};
    var row := JoinedRow(t1.rows[i], key, b);
    forall c | c in Without(t2.columns, key)
      ensures Get(row, c) == Get(t2.rows[j], c)
    {
      assert c in t2.rows[j].Keys;
      assert c in RightRow(k, b);
    }
  }

  /** A table 1 row whose key is on no table 2 row gets NaN in table 2's
      columns. */
  lemma JoinedUnmatched(t1: Table, t2: Table, key: string, i: nat)
    requires Joinable(t1, t2, key) && Distinct(ColumnCells(t2.rows, key))
    requires i < |t1.rows| && Get(t1.rows[i], key) !in ColumnCells(t2.rows, key)
    ensures var out := JoinDfs(t1, t2, key).value.joined;
      && |out.rows| == |t1.rows|
      && forall c :: c in out.columns && c in Without(t2.columns, key) ==> Get(out.rows[i], c) == Missing
  {
    JoinedShape(t1, t2, key);
    KeysOfEntries(t2.rows, key);
    RightRowNone(Get(t1.rows[i], key), SetIndex(t2, key).value);
  }

  /** The matched right row only has table 2's columns other than the key. */
  lemma RightRowColumns(t2: Table, key: string, b: Indexed, k: Cell)
    requires WellFormed(t2) && key in t2.columns && b == SetIndex(t2, key).value
    ensures forall c :: c in RightRow(k, b) ==> c in Without(t2.columns, key)
  {
    MatchRow(k, t2.rows, key, t2.columns);
  }

  lemma {:induction false} MatchRow(k: Cell, rows: seq<Row>, key: string, cols: seq<string>)
    requires forall x :: 0 <= x < |rows| ==> rows[x].Keys == set c | c in cols
    ensures forall r, c :: r in Matches(k, Entries(rows, key)) && c in r ==> c in cols && c != key
  {
    if rows != [] {
      assert Entries(rows, key)[1..] == Entries(rows[1..], key);
      MatchRow(k, rows[1..], key, cols);
    }
  }

  /** The not-joined table is table 2's rows whose key is not a key of table
      1, in table 2's order, without the 'Unnamed' columns. */
  lemma NotJoinedRows(t1: Table, t2: Table, key: string)
    requires Joinable(t1, t2, key) && WellFormed(t2)
    ensures JoinDfs(t1, t2, key).value.notJoined
      == DropUnnamed(Table([key] + Without(t2.columns, key), RowsNotIn(t2.rows, key, ColumnCells(t1.rows, key))))
  {
    var a := SetIndex(t1, key).value;
    var b := SetIndex(t2, key).value;
    var j := LeftJoin(a, b).value;
    JoinKeys(a.entries, b);
    KeysOfEntries(t1.rows, key);
    NotInSameKeys(b.entries, Keys(j.entries), ColumnCells(t1.rows, key));
    forall k | 0 <= k < |t2.rows|
      ensures key in t2.rows[k]
    {
      assert t2.rows[k].Keys == set c | c in t2.columns;
    }
    RestoredNotIn(t2.rows, key, ColumnCells(t1.rows, key));
  }

  /** A table 2 row is listed as not joined exactly when its key is no table 1
      key, that is, exactly when no joined row takes its cells. */
  lemma MatchedOrNotJoined(t1: Table, t2: Table, key: string, j: nat)
    requires j < |t2.rows|
    ensures t2.rows[j] in RowsNotIn(t2.rows, key, ColumnCells(t1.rows, key))
      <==> !exists i :: 0 <= i < |t1.rows| && Get(t1.rows[i], key) == Get(t2.rows[j], key)
  {
    var k := Get(t2.rows[j], key);
    if k in ColumnCells(t1.rows, key) {
      var i :| 0 <= i < |t1.rows| && ColumnCells(t1.rows, key)[i] == k;
    }
  }
}
