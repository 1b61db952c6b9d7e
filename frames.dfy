/** A pandas DataFrame that the pipeline updates in place (`insert`, column
    assignment, `.at`). Its state is the ordered column list and the rows. */
module Frames {
  import opened Tables

  /** Every row with `name` set to the matching entry of `values`. */
  function SetEach(rows: seq<Row>, name: string, values: seq<Cell>): (r: seq<Row>)
    requires |values| == |rows|
    ensures |r| == |rows|
    ensures forall k :: 0 <= k < |rows| ==> r[k] == rows[k][name := values[k]]
  {
    seq(|rows|, k requires 0 <= k < |rows| => rows[k][name := values[k]])
  }

  /** The cells of column `c`, one per row, NaN where a row lacks it. */
  function ColumnCells(rows: seq<Row>, c: string): (cells: seq<Cell>)
    ensures |cells| == |rows|
    ensures forall k :: 0 <= k < |rows| ==> cells[k] == Get(rows[k], c)
  {
    seq(|rows|, k requires 0 <= k < |rows| => Get(rows[k], c))
  }

  /** Inserting a new name anywhere keeps the names distinct. */
  lemma InsertDistinct(cols: seq<string>, loc: int, name: string)
    requires 0 <= loc <= |cols| && name !in cols && Distinct(cols)
    ensures Distinct(cols[..loc] + [name] + cols[loc..])
  {
    var out := cols[..loc] + [name] + cols[loc..];
    forall i, j | 0 <= i < j < |out| ensures out[i] != out[j] {
      if j < loc {
        assert out[i] == cols[i] && out[j] == cols[j];
      } else if j == loc {
        assert out[i] == cols[i];
      } else if i < loc {
        assert out[i] == cols[i] && out[j] == cols[j - 1];
      } else if i == loc {
        assert out[j] == cols[j - 1];
      } else {
        assert out[i] == cols[i - 1] && out[j] == cols[j - 1];
      }
    }
  }

  /** `insert` on a well-formed table, when pandas accepts it, gives a
      well-formed table. */
  lemma InsertWellFormed(t: Table, loc: int, name: string, values: seq<Cell>)
    requires 0 <= loc <= |t.columns| && name !in t.columns && |values| == |t.rows|
    ensures WellFormed(t) ==> WellFormed(Table(t.columns[..loc] + [name] + t.columns[loc..], SetEach(t.rows, name, values)))
  {
    if WellFormed(t) {
      var cols := t.columns[..loc] + [name] + t.columns[loc..];
      InsertDistinct(t.columns, loc, name);
      assert t.columns == t.columns[..loc] + t.columns[loc..];
      assert (set c | c in cols) == (set c | c in t.columns) + {name};
    }
  }

  class Frame {
    var columns: seq<string>
    var rows: seq<Row>

    ghost predicate Valid()
      reads this
    {
      WellFormed(Table(columns, rows))
    }

    function Value(): Table
      reads this
    {
      Table(columns, rows)
    }

    constructor (t: Table)
      ensures columns == t.columns && rows == t.rows
    {
      columns := t.columns;
      rows := t.rows;
    }

    /** `DataFrame.insert(loc, name, values)`. pandas raises, leaving the frame as it
        was, when `loc` is outside 0..len(columns), when the name is already a
        column, or when the number of values differs from the number of rows. */
    method Insert(loc: int, name: string, values: seq<Cell>) returns (ok: bool)
      modifies this
      ensures ok <==> 0 <= loc <= |old(columns)| && name !in old(columns) && |values| == |old(rows)|
      ensures ok ==> columns == old(columns)[..loc] + [name] + old(columns)[loc..]
      ensures ok ==> |values| == |old(rows)| && rows == SetEach(old(rows), name, values)
      ensures !ok ==> columns == old(columns) && rows == old(rows)
      ensures old(Valid()) ==> Valid()
    {
      ok := 0 <= loc <= |columns| && name !in columns && |values| == |rows|;
      if ok {
        InsertWellFormed(Value(), loc, name, values);
        columns := columns[..loc] + [name] + columns[loc..];
        rows := SetEach(rows, name, values);
      }
    }

    /** `df[name] = values`: replaces the column when it exists, otherwise appends it
        as the last column. */
    method SetColumn(name: string, values: seq<Cell>)
      requires |values| == |rows|
      modifies this
      ensures columns == if name in old(columns) then old(columns) else old(columns) + [name]
      ensures rows == SetEach(old(rows), name, values)
      ensures old(Valid()) ==> Valid()
    {
      if name !in columns {
        columns := columns + [name];
      }
      rows := SetEach(rows, name, values);
    }

    /** `df.at[i, col] = v` on an existing row and column. */
    method SetCell(i: int, col: string, v: Cell)
      requires 0 <= i < |rows| && col in columns
      modifies this
      ensures columns == old(columns)
      ensures rows == old(rows)[i := old(rows)[i][col := v]]
      ensures old(Valid()) ==> Valid()
    {
      rows := rows[i := rows[i][col := v]];
    }
  }
}
