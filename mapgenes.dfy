/** dgeapy_mapgenes.py: a table left-joined with a gene map on a key column,
    the map's keys first losing a trailing '#', and the map rows that mapped
    to nothing. */
module MapGenes {
  import opened Wrappers
  import opened Tables
  import opened Frames
  import opened Joins

  const IndexName := "index"
  const Hash := "#"
  const AttributeError := "AttributeError"

  /** The two tables the script writes. */
  datatype Outputs = Outputs(mapped: Table, notMapped: Table)

  /** `np.where(s.str.endswith('#'), s.str[:-1], s)` on one cell of the key
      column; NaN stays NaN. */
  function Normalised(c: Cell): Cell
  {
    if c.Str? && EndsWith(c.s, Hash) then Str(c.s[..|c.s| - 1]) else c
  }

  /** A key ending in '#' loses exactly that character... */
  lemma NormalisedHash(s: string)
    ensures Normalised(Str(s + Hash)) == Str(s)
  {
    assert (s + Hash)[..|s|] == s;
    assert (s + Hash)[|s + Hash| - |Hash|..] == Hash;
  }

  /** ...and any other key is kept as it is. */
  lemma NormalisedPlain(c: Cell)
    requires !(c.Str? && EndsWith(c.s, Hash))
    ensures Normalised(c) == c
  {
  }

  /** The `.str` accessor needs a column of text: no number, and some text
      when there are rows (a column of NaN only is read as numbers). */
  predicate TextColumn(rows: seq<Row>, key: string)
  {
    && (forall k :: 0 <= k < |rows| ==> !Get(rows[k], key).Num?)
    && (rows != [] ==> exists k :: 0 <= k < |rows| && Get(rows[k], key).Str?)
  }

  /** `map[map_columns]` when a non-empty list is given. */
  function Restricted(m: Table, cols: seq<string>): Table
  {
    if cols == [] then m else Select(m, cols)
  }

  predicate ColumnsExist(m: Table, cols: seq<string>)
  {
    forall c :: c in cols ==> c in m.columns
  }

  function MapKeys(rows: seq<Row>, key: string): (ks: seq<Cell>)
    ensures |ks| == |rows|
    ensures forall k :: 0 <= k < |rows| ==> ks[k] == Normalised(Get(rows[k], key))
  {
    seq(|rows|, k requires 0 <= k < |rows| => Normalised(Get(rows[k], key)))
  }

  lemma {:induction false} WithoutSnoc(cols: seq<string>, c: string)
    ensures Without(cols + [c], c) == Without(cols, c)
  {
    if cols != [] {
      assert (cols + [c])[1..] == cols[1..] + [c];
      WithoutSnoc(cols[1..], c);
    } else {
      assert Without([c], c) == Without([], c);
    }
  }

  /** `map['index'] = <normalised keys>` then `map.set_index('index')`: the
      map indexed by its normalised keys, without any 'index' column. */
  function IndexByNormalisedKey(m: Table, key: string): (r: Indexed)
    ensures r.name == IndexName && r.columns == Without(m.columns, IndexName)
    ensures |r.entries| == |m.rows|
    ensures forall k :: 0 <= k < |m.rows| ==>
      (r.entries[k] == Entry(Normalised(Get(m.rows[k], key)), m.rows[k] - {IndexName}))
  {
    var cols := if IndexName in m.columns then m.columns else m.columns + [IndexName];
    var rows := seq(|m.rows|, k requires 0 <= k < |m.rows| => m.rows[k][IndexName := Normalised(Get(m.rows[k], key))]);
    WithoutSnoc(m.columns, IndexName);
    var ix := SetIndex(Table(cols, rows), IndexName).value;
    assert forall k :: 0 <= k < |m.rows| ==> rows[k] - {IndexName} == m.rows[k] - {IndexName};
    ix
  }

  /** What the script computes before it restores the index: the joined
      table, still indexed by the key, and the finished not-mapped table. */
  datatype Stage = Stage(mapped: Indexed, notMapped: Table)

  /** The inputs get through lines 82-108: the listed map columns exist, the
      key is a text column of the (restricted) map and a column of the
      table, and no other column name is shared. */
  predicate Preparable(m: Table, t: Table, key: string, cols: seq<string>)
  {
    var r := Restricted(m, cols);
    && ColumnsExist(m, cols)
    && key in r.columns && TextColumn(r.rows, key)
    && key in t.columns
    && Disjoint(Without(t.columns, key), Without(r.columns, IndexName))
  }

  /** The exception lines 82-102 raise, in the order they are reached. */
  function PrepareError(m: Table, t: Table, key: string, cols: seq<string>): string
  {
    var rm := Restricted(m, cols);
    if !ColumnsExist(m, cols) || key !in rm.columns then KeyError
    else if !TextColumn(rm.rows, key) then AttributeError
    else if key !in t.columns then KeyError
    else ValueError
  }

  /** `main` from the column restriction to the not-mapped table: the map is
      indexed by its normalised keys, the table by its key, the table is
      left-joined with the map, the columns are reordered map first, and the
      map rows whose key is not a table key are kept, with the helper
      'index' column restored and dropped again. */
  function Prepare(m: Table, t: Table, key: string, cols: seq<string>): (r: Result<Stage>)
    ensures r.Success? <==> Preparable(m, t, key, cols)
    ensures r.Success? ==> r.value.mapped.columns == Without(Restricted(m, cols).columns, IndexName) + Without(t.columns, key)
  {
    if Preparable(m, t, key, cols) then Success(Staged(m, t, key, cols))
    else Failure(PrepareError(m, t, key, cols))
  }

  function Staged(m: Table, t: Table, key: string, cols: seq<string>): (s: Stage)
    requires Preparable(m, t, key, cols)
    ensures s.mapped.name == key
    ensures s.mapped.columns == Without(Restricted(m, cols).columns, IndexName) + Without(t.columns, key)
  {
    var rm := Restricted(m, cols);
    var mi := IndexByNormalisedKey(rm, key);
    var ti := SetIndex(t, key).value;
    var mapped := LeftJoin(ti, mi).value.(columns := mi.columns + ti.columns);
    var nm := Indexed(IndexName, mi.columns, NotIn(mi.entries, Keys(mapped.entries)));
    Stage(mapped, DropColumn(ResetIndex(nm).value, IndexName))
  }

  /** `df.drop(columns=[c])` of a column the frame has. */
  function DropColumn(t: Table, c: string): (r: Table)
    ensures r.columns == Without(t.columns, c) && |r.rows| == |t.rows|
    ensures forall k :: 0 <= k < |t.rows| ==> r.rows[k] == t.rows[k] - {c}
  {
    Table(Without(t.columns, c), seq(|t.rows|, k requires 0 <= k < |t.rows| => t.rows[k] - {c}))
  }

  /** The script as written: `reset_index()` restores the key under its own
      name, which the map's key column already has. */
  function MapGenesAsWritten(m: Table, t: Table, key: string, cols: seq<string>): (r: Result<Outputs>)
    ensures r.Success? ==> Preparable(m, t, key, cols)
  {
    var s :- Prepare(m, t, key, cols);
    var out :- ResetIndex(s.mapped);
    Success(Outputs(out, s.notMapped))
  }

  /** The script as its not-mapped branch expects it: the joined index comes
      back as a first column named 'index'. */
  function MapGenesCorrected(m: Table, t: Table, key: string, cols: seq<string>): (r: Result<Outputs>)
    ensures r.Success? <==> Preparable(m, t, key, cols) && IndexName !in Without(t.columns, key)
    ensures r.Success? ==>
      (r.value.mapped.columns == [IndexName] + (Without(Restricted(m, cols).columns, IndexName) + Without(t.columns, key)))
  {
    match Prepare(m, t, key, cols)
    case Failure(e) => Failure(e)
    case Success(s) =>
      var out := ResetIndex(s.mapped.(name := IndexName));
      if out.Failure? then Failure(out.error)
      else Success(Outputs(out.value, s.notMapped))
  }

  /** As written, the script fails at `reset_index` whenever it gets there with
      unique keys on both sides, unless the key column is itself called 'index'. */
  lemma AsWrittenFails(m: Table, t: Table, key: string, cols: seq<string>)
    requires Preparable(m, t, key, cols) && key != IndexName
    requires Distinct(MapKeys(Restricted(m, cols).rows, key)) && Distinct(ColumnCells(t.rows, key))
    ensures MapGenesAsWritten(m, t, key, cols) == Failure(ValueError)
  {
    var s := Staged(m, t, key, cols);
    assert key in Without(Restricted(m, cols).columns, IndexName);
    assert key in s.mapped.columns;
  }

  const GeneKey := "gene"

  /** A one-gene map whose key carries the '#' and the matching table. */
  lemma AsWrittenExample()
    ensures var m := Table([GeneKey], [map[GeneKey := Str("g1" + Hash)]]);
      var t := Table([GeneKey], [map[GeneKey := Str("g1")]]);
      && MapGenesAsWritten(m, t, GeneKey, []) == Failure(ValueError)
      && MapGenesCorrected(m, t, GeneKey, []).Success?
  {
    var m := Table([GeneKey], [map[GeneKey := Str("g1" + Hash)]]);
    var t := Table([GeneKey], [map[GeneKey := Str("g1")]]);
    assert Get(m.rows[0], GeneKey).Str?;
    assert Preparable(m, t, GeneKey, []);
    AsWrittenFails(m, t, GeneKey, []);
  }

  // ---------------------------------------------------------------------------
  // What the corrected script writes

  /** The table's row `r` after the join and the restore: its cells, its key
      under 'index', and the cells of the map row `mi` supplies. */
  function MappedRow(r: Row, key: string, mi: Indexed): Row
  {
    (r - {key} + RightRow(Get(r, key), mi))[IndexName := Get(r, key)]
  }

  /** With unique normalised map keys, the mapped table has the table's rows
      one for one, in order. */
  lemma MappedShape(m: Table, t: Table, key: string, cols: seq<string>)
    requires MapGenesCorrected(m, t, key, cols).Success?
    requires Distinct(MapKeys(Restricted(m, cols).rows, key))
    ensures var out := MapGenesCorrected(m, t, key, cols).value.mapped;
      && |out.rows| == |t.rows|
      && forall i :: 0 <= i < |t.rows| ==>
           out.rows[i] == MappedRow(t.rows[i], key, IndexByNormalisedKey(Restricted(m, cols), key))
  {
    var rm := Restricted(m, cols);
    var mi := IndexByNormalisedKey(rm, key);
    var ti := SetIndex(t, key).value;
    assert Keys(mi.entries) == MapKeys(rm.rows, key);
    JoinUnique(ti.entries, mi);
  }

  /** The key comes back first, under 'index', and the table's own cells are
      kept. */
  lemma MappedKeepsTable(m: Table, t: Table, key: string, cols: seq<string>)
    requires MapGenesCorrected(m, t, key, cols).Success? && WellFormed(Restricted(m, cols))
    requires Distinct(MapKeys(Restricted(m, cols).rows, key))
    ensures var out := MapGenesCorrected(m, t, key, cols).value.mapped;
      && |out.rows| == |t.rows|
      && (forall i :: 0 <= i < |t.rows| ==> Get(out.rows[i], IndexName) == Get(t.rows[i], key))
      && forall i, c :: 0 <= i < |t.rows| && c in Without(t.columns, key) ==> Get(out.rows[i], c) == Get(t.rows[i], c)
  {
    MappedShape(m, t, key, cols);
    var rm := Restricted(m, cols);
    var mi := IndexByNormalisedKey(rm, key);
    forall i | 0 <= i < |t.rows|
      ensures forall c :: c in RightRow(Get(t.rows[i], key), mi) ==> c in Without(rm.columns, IndexName)
    {
      MapRowColumns(Get(t.rows[i], key), rm, key);
    }
  }

  lemma MapRowColumns(k: Cell, rm: Table, key: string)
    requires WellFormed(rm)
    ensures forall c :: c in RightRow(k, IndexByNormalisedKey(rm, key)) ==> c in Without(rm.columns, IndexName)
  {
    var mi := IndexByNormalisedKey(rm, key);
    MatchColumns(k, mi.entries, rm.columns);
  }

  lemma {:induction false} MatchColumns(k: Cell, es: seq<Entry>, cols: seq<string>)
    requires forall x :: 0 <= x < |es| ==> forall c :: c in es[x].row ==> c in cols && c != IndexName
    ensures forall r, c :: r in Matches(k, es) && c in r ==> c in Without(cols, IndexName)
  {
    if es != [] {
      MatchColumns(k, es[1..], cols);
    }
  }

  /** A table row whose key is map row j's normalised key gets that map row's
      cells, the original key column among them. */
  lemma MappedMatched(m: Table, t: Table, key: string, cols: seq<string>, i: nat, j: nat)
    requires MapGenesCorrected(m, t, key, cols).Success? && WellFormed(Restricted(m, cols))
    requires Distinct(MapKeys(Restricted(m, cols).rows, key))
    requires i < |t.rows| && j < |Restricted(m, cols).rows|
    requires Get(t.rows[i], key) == Normalised(Get(Restricted(m, cols).rows[j], key))
    ensures var out := MapGenesCorrected(m, t, key, cols).value.mapped;
      && |out.rows| == |t.rows|
      && forall c :: c in Without(Restricted(m, cols).columns, IndexName) ==>
           (Get(out.rows[i], c) == Get(Restricted(m, cols).rows[j], c))
  {
    MappedShape(m, t, key, cols);
    var rm := Restricted(m, cols);
    var mi := IndexByNormalisedKey(rm, key);
    assert Keys(mi.entries) == MapKeys(rm.rows, key);
    RightRowAt(mi, j);
    var k := Get(t.rows[i], key);
    assert RightRow(k, mi) == rm.rows[j] - {IndexName};
    var row := MappedRow(t.rows[i], key, mi);
    forall c | c in Without(rm.columns, IndexName)
      ensures Get(row, c) == Get(rm.rows[j], c)
    {
      assert c in rm.rows[j].Keys;
      assert c in RightRow(k, mi);
    }
  }

  /** A table row whose key is no normalised map key gets NaN in the map's
      columns. */
  lemma MappedUnmatched(m: Table, t: Table, key: string, cols: seq<string>, i: nat)
    requires MapGenesCorrected(m, t, key, cols).Success?
    requires Distinct(MapKeys(Restricted(m, cols).rows, key))
    requires i < |t.rows| && Get(t.rows[i], key) !in MapKeys(Restricted(m, cols).rows, key)
    ensures var out := MapGenesCorrected(m, t, key, cols).value.mapped;
      && |out.rows| == |t.rows|
      && forall c :: c in Without(Restricted(m, cols).columns, IndexName) ==> Get(out.rows[i], c) == Missing
  {
    MappedShape(m, t, key, cols);
    var rm := Restricted(m, cols);
    var mi := IndexByNormalisedKey(rm, key);
    assert Keys(mi.entries) == MapKeys(rm.rows, key);
    RightRowNone(Get(t.rows[i], key), mi);
  }

  // ---------------------------------------------------------------------------
  // The not-mapped table

  /** The map rows whose normalised key is not among `keys`, in order. */
  function Unmapped(rows: seq<Row>, key: string, keys: seq<Cell>): (r: seq<Row>)
    ensures IsSubsequence(r, rows)
    ensures forall x :: x in r <==> x in rows && Normalised(Get(x, key)) !in keys
    ensures forall x {:trigger Count(r, x)} :: Count(r, x) == if Normalised(Get(x, key)) !in keys then Count(rows, x) else 0
  {
    if rows == [] then []
    else
      var rest := Unmapped(rows[1..], key, keys);
      if Normalised(Get(rows[0], key)) !in keys then
        assert ([rows[0]] + rest)[1..] == rest;
        [rows[0]] + rest
      else rest
  }

  function WithoutEach(rows: seq<Row>, c: string): (r: seq<Row>)
    ensures |r| == |rows|
    ensures forall k :: 0 <= k < |rows| ==> r[k] == rows[k] - {c}
  {
    seq(|rows|, k requires 0 <= k < |rows| => rows[k] - {c})
  }

  /** The not-mapped table is the map's rows whose normalised key is not a key
      of the table, in map order, without the helper 'index' column. */
  lemma NotMappedRows(m: Table, t: Table, key: string, cols: seq<string>)
    requires Preparable(m, t, key, cols)
    ensures var rm := Restricted(m, cols);
      Staged(m, t, key, cols).notMapped
        == Table(Without(rm.columns, IndexName), WithoutEach(Unmapped(rm.rows, key, ColumnCells(t.rows, key)), IndexName))
  {
    var rm := Restricted(m, cols);
    var mi := IndexByNormalisedKey(rm, key);
    var ti := SetIndex(t, key).value;
    var j := LeftJoin(ti, mi).value;
    JoinKeys(ti.entries, mi);
    assert Keys(ti.entries) == ColumnCells(t.rows, key);
    NotInSameKeys(mi.entries, Keys(j.entries), ColumnCells(t.rows, key));
    assert Without([IndexName] + mi.columns, IndexName) == mi.columns by {
      WithoutAbsent(mi.columns, IndexName);
      assert ([IndexName] + mi.columns)[1..] == mi.columns;
    }
    UnmappedEntries(rm.rows, mi.entries, key, ColumnCells(t.rows, key));
  }

  /** Filtering the indexed map, restoring 'index' and dropping it again is
      filtering the map rows and dropping 'index'. */
  lemma {:induction false} UnmappedEntries(rows: seq<Row>, es: seq<Entry>, key: string, keys: seq<Cell>)
    requires |es| == |rows|
    requires forall k :: 0 <= k < |rows| ==> es[k] == Entry(Normalised(Get(rows[k], key)), rows[k] - {IndexName})
    ensures WithoutEach(Restored(NotIn(es, keys), IndexName), IndexName)
      == WithoutEach(Unmapped(rows, key, keys), IndexName)
  {
    if rows != [] {
      UnmappedEntries(rows[1..], es[1..], key, keys);
      var e := es[0];
      DropRestored(e.row, IndexName, e.key);
      if e.key !in keys {
        ConsStep(e, NotIn(es[1..], keys), rows[0], Unmapped(rows[1..], key, keys));
      }
    }
  }

  lemma ConsStep(e: Entry, rest: seq<Entry>, r: Row, rows: seq<Row>)
    requires e.row == r - {IndexName}
    requires WithoutEach(Restored(rest, IndexName), IndexName) == WithoutEach(rows, IndexName)
    ensures WithoutEach(Restored([e] + rest, IndexName), IndexName) == WithoutEach([r] + rows, IndexName)
  {
    DropRestored(e.row, IndexName, e.key);
    var a := WithoutEach(Restored([e] + rest, IndexName), IndexName);
    var b := WithoutEach([r] + rows, IndexName);
    assert a[0] == b[0];
    forall k | 1 <= k < |a| ensures a[k] == b[k] {
      assert a[k] == WithoutEach(Restored(rest, IndexName), IndexName)[k - 1];
    }
  }
}
