/** The pandas steps the two join scripts chain: `set_index(key)`, a left
    `join` on the index, `reindex(columns=...)`, the `isin` filter on the
    index, `reset_index()` and the removal of 'Unnamed' columns. */
module Joins {
  import opened Wrappers
  import opened Tables

  const KeyError := "KeyError"
  const ValueError := "ValueError"
  const UnnamedPrefix := "Unnamed"

  /** A row of an indexed frame: its index label and its remaining cells. */
  datatype Entry = Entry(key: Cell, row: Row)

  /** A frame after `set_index`: the index name, the columns left and the
      entries in row order. */
  datatype Indexed = Indexed(name: string, columns: seq<string>, entries: seq<Entry>)

  /** `cols` without `c`, in order. */
  function Without(cols: seq<string>, c: string): (r: seq<string>)
    ensures forall x :: x in r <==> x in cols && x != c
    ensures IsSubsequence(r, cols)
  {
    if cols == [] then []
    else
      var rest := Without(cols[1..], c);
      if cols[0] == c then rest
      else
        assert ([cols[0]] + rest)[1..] == rest;
        [cols[0]] + rest
  }

  function Keys(es: seq<Entry>): (ks: seq<Cell>)
    ensures |ks| == |es|
    ensures forall i :: 0 <= i < |es| ==> ks[i] == es[i].key
  {
    seq(|es|, i requires 0 <= i < |es| => es[i].key)
  }

  /** The entries of `rows` indexed by column `key`. */
  function Entries(rows: seq<Row>, key: string): (es: seq<Entry>)
    ensures |es| == |rows|
    ensures forall k :: 0 <= k < |rows| ==> es[k] == Entry(Get(rows[k], key), rows[k] - {key})
  {
    seq(|rows|, k requires 0 <= k < |rows| => Entry(Get(rows[k], key), rows[k] - {key}))
  }

  /** `df.set_index(key)`: KeyError when `key` is not a column. */
  function SetIndex(t: Table, key: string): (r: Result<Indexed>)
    ensures r.Success? <==> key in t.columns
    ensures r.Failure? ==> r.error == KeyError
  {
    if key in t.columns then Success(Indexed(key, Without(t.columns, key), Entries(t.rows, key)))
    else Failure(KeyError)
  }

  /** The rows of `reset_index`: the index label back in a column named `name`. */
  function Restored(es: seq<Entry>, name: string): (rows: seq<Row>)
    ensures |rows| == |es|
    ensures forall k :: 0 <= k < |es| ==> rows[k] == es[k].row[name := es[k].key]
  {
    seq(|es|, k requires 0 <= k < |es| => es[k].row[name := es[k].key])
  }

  /** `df.reset_index()`: the index becomes the first column, under its name;
      pandas refuses (ValueError) when a column already has that name. */
  function ResetIndex(t: Indexed): (r: Result<Table>)
    ensures r.Success? <==> t.name !in t.columns
    ensures r.Failure? ==> r.error == ValueError
  {
    if t.name in t.columns then Failure(ValueError)
    else Success(Table([t.name] + t.columns, Restored(t.entries, t.name)))
  }

  /** Setting a column as index and resetting it moves that column to the
      front and gives back the same rows. */
  lemma ResetSetIndex(t: Table, key: string)
    requires WellFormed(t) && key in t.columns
    ensures SetIndex(t, key).Success?
    ensures ResetIndex(SetIndex(t, key).value) == Success(Table([key] + Without(t.columns, key), t.rows))
  {
    var i := SetIndex(t, key).value;
    forall k | 0 <= k < |t.rows|
      ensures Restored(i.entries, key)[k] == t.rows[k]
    {
      assert key in t.rows[k].Keys;
      RestoreRow(t.rows[k], key);
    }
    assert Restored(i.entries, key) == t.rows;
  }

  lemma RestoreRow(r: Row, key: string)
    requires key in r
    ensures (r - {key})[key := Get(r, key)] == r
  {
    var s := (r - {key})[key := Get(r, key)];
    assert s.Keys == r.Keys;
    assert forall c :: c in s ==> s[c] == r[c];
  }

  lemma DropRestored(r: Row, key: string, v: Cell)
    requires key !in r
    ensures r[key := v] - {key} == r
  {
    var s := r[key := v] - {key};
    assert s.Keys == r.Keys;
  }

  /** Resetting the index and setting it again gives back the indexed frame. */
  lemma SetResetIndex(t: Indexed)
    requires t.name !in t.columns
    requires forall k :: 0 <= k < |t.entries| ==> t.name !in t.entries[k].row
    ensures ResetIndex(t).Success?
    ensures SetIndex(ResetIndex(t).value, t.name) == Success(t)
  {
    var n := t.name;
    var back := ResetIndex(t).value;
    assert Without([n] + t.columns, n) == t.columns by {
      WithoutAbsent(t.columns, n);
      assert ([n] + t.columns)[1..] == t.columns;
    }
    forall k | 0 <= k < |t.entries|
      ensures Entries(back.rows, n)[k] == t.entries[k]
    {
      var e := t.entries[k];
      DropRestored(e.row, n, e.key);
    }
    assert Entries(back.rows, n) == t.entries;
  }

  lemma {:induction false} WithoutAbsent(cols: seq<string>, c: string)
    requires c !in cols
    ensures Without(cols, c) == cols
  {
    if cols != [] {
      WithoutAbsent(cols[1..], c);
      assert [cols[0]] + cols[1..] == cols;
    }
  }

  // ---------------------------------------------------------------------------
  // Left join on the index

  predicate Disjoint(a: seq<string>, b: seq<string>)
  {
    forall c :: c in a ==> c !in b
  }

  /** The rows of `es` whose index label is `key`, in order. */
  function Matches(key: Cell, es: seq<Entry>): (rs: seq<Row>)
    ensures |rs| <= |es|
  {
    if es == [] then [] else (if es[0].key == key then [es[0].row] else []) + Matches(key, es[1..])
  }

  /** A row of NaN for each of `cols`. */
  function Nans(cols: seq<string>): (r: Row)
    ensures forall c :: c in r <==> c in cols
    ensures forall c :: c in r ==> r[c] == Missing
  {
    map c | c in cols :: Missing
  }

  /** A left entry joined: one entry per matching right row, or one padded
      with NaN when there is none. */
  function JoinOne(e: Entry, right: Indexed): (js: seq<Entry>)
  {
    var ms := Matches(e.key, right.entries);
    if ms == [] then [Entry(e.key, e.row + Nans(right.columns))]
    else seq(|ms|, i requires 0 <= i < |ms| => Entry(e.key, e.row + ms[i]))
  }

  function JoinEntries(ls: seq<Entry>, right: Indexed): seq<Entry>
  {
    if ls == [] then [] else JoinOne(ls[0], right) + JoinEntries(ls[1..], right)
  }

  /** `left.join(right, how='left')`: pandas refuses (ValueError) columns on
      both sides when no suffix is given; the result keeps the left index
      name and puts the left columns first. */
  function LeftJoin(left: Indexed, right: Indexed): (r: Result<Indexed>)
    ensures r.Success? <==> Disjoint(left.columns, right.columns)
    ensures r.Failure? ==> r.error == ValueError
  {
    if Disjoint(left.columns, right.columns) then
      Success(Indexed(left.name, left.columns + right.columns, JoinEntries(left.entries, right)))
    else Failure(ValueError)
  }

  /** The right row matched to an index label: the one carrying it, or NaN. */
  function RightRow(key: Cell, right: Indexed): Row
  {
    var ms := Matches(key, right.entries);
    if ms == [] then Nans(right.columns) else ms[0]
  }

  /** There is a match exactly when the label is among the right keys. */
  lemma {:induction false} MatchesNone(key: Cell, es: seq<Entry>)
    ensures Matches(key, es) == [] <==> key !in Keys(es)
  {
    if es != [] {
      MatchesNone(key, es[1..]);
      assert Keys(es) == [es[0].key] + Keys(es[1..]);
    }
  }

  /** With unique right keys, the label of right row j matches that row only. */
  lemma {:induction false} MatchesAt(key: Cell, es: seq<Entry>, j: nat)
    requires Distinct(Keys(es)) && j < |es| && es[j].key == key
    ensures Matches(key, es) == [es[j].row]
  {
    assert Keys(es[1..]) == Keys(es)[1..];
    if j == 0 {
      MatchesNone(key, es[1..]);
      assert key !in Keys(es[1..]) by {
        forall i | 0 <= i < |es[1..]| ensures Keys(es[1..])[i] != key {
          assert Keys(es)[i + 1] != Keys(es)[0];
        }
      }
    } else {
      assert es[0].key != key by {
        assert Keys(es)[0] != Keys(es)[j];
      }
      MatchesAt(key, es[1..], j - 1);
    }
  }

  /** With unique right keys one left entry gives exactly one joined entry. */
  lemma JoinOneUnique(e: Entry, right: Indexed)
    requires Distinct(Keys(right.entries))
    ensures JoinOne(e, right) == [Entry(e.key, e.row + RightRow(e.key, right))]
  {
    var ms := Matches(e.key, right.entries);
    if ms != [] {
      MatchesNone(e.key, right.entries);
      var j :| 0 <= j < |right.entries| && Keys(right.entries)[j] == e.key;
      MatchesAt(e.key, right.entries, j);
    }
  }

  /** With unique right keys the join keeps the left rows one for one, in
      order, each extended by its match or by NaN. */
  lemma {:induction false} JoinUnique(ls: seq<Entry>, right: Indexed)
    requires Distinct(Keys(right.entries))
    ensures var js := JoinEntries(ls, right);
      && |js| == |ls|
      && forall i :: 0 <= i < |ls| ==> js[i] == Entry(ls[i].key, ls[i].row + RightRow(ls[i].key, right))
  {
    if ls != [] {
      JoinUnique(ls[1..], right);
      JoinOneUnique(ls[0], right);
      var rest := JoinEntries(ls[1..], right);
      var js := JoinEntries(ls, right);
      assert js == [Entry(ls[0].key, ls[0].row + RightRow(ls[0].key, right))] + rest;
      forall i | 1 <= i < |ls|
        ensures js[i] == Entry(ls[i].key, ls[i].row + RightRow(ls[i].key, right))
      {
        assert js[i] == rest[i - 1];
        assert ls[1..][i - 1] == ls[i];
      }
    }
  }

  /** Whatever the right keys, the join's index labels are the left ones:
      each left label is kept and none is added. */
  lemma {:induction false} JoinKeys(ls: seq<Entry>, right: Indexed)
    ensures forall k :: k in Keys(JoinEntries(ls, right)) <==> k in Keys(ls)
  {
    if ls != [] {
      JoinKeys(ls[1..], right);
      var one := JoinOne(ls[0], right);
      var rest := JoinEntries(ls[1..], right);
      assert |one| > 0 && forall i :: 0 <= i < |one| ==> one[i].key == ls[0].key;
      assert Keys(one + rest) == Keys(one) + Keys(rest);
      assert Keys(ls) == [ls[0].key] + Keys(ls[1..]);
      assert Keys(one)[0] == ls[0].key;
    }
  }

  /** The matched right row of a label, when right row j carries it. */
  lemma RightRowAt(right: Indexed, j: nat)
    requires Distinct(Keys(right.entries)) && j < |right.entries|
    ensures RightRow(right.entries[j].key, right) == right.entries[j].row
  {
    MatchesAt(right.entries[j].key, right.entries, j);
  }

  /** The NaN row, when no right row carries the label. */
  lemma RightRowNone(key: Cell, right: Indexed)
    requires key !in Keys(right.entries)
    ensures RightRow(key, right) == Nans(right.columns)
  {
    MatchesNone(key, right.entries);
  }

  // ---------------------------------------------------------------------------
  // `df[~df.index.isin(keys)]`

  /** The entries whose label is not among `keys`, in order. */
  function NotIn(es: seq<Entry>, keys: seq<Cell>): (r: seq<Entry>)
    ensures IsSubsequence(r, es)
    ensures forall e :: e in r <==> e in es && e.key !in keys
    ensures forall e {:trigger Count(r, e)} :: Count(r, e) == if e.key !in keys then Count(es, e) else 0
  {
    if es == [] then []
    else
      var rest := NotIn(es[1..], keys);
      if es[0].key !in keys then
        assert ([es[0]] + rest)[1..] == rest;
        [es[0]] + rest
      else rest
  }

  /** Filtering on the same label set gives the same entries. */
  lemma {:induction false} NotInSameKeys(es: seq<Entry>, a: seq<Cell>, b: seq<Cell>)
    requires forall k :: k in a <==> k in b
    ensures NotIn(es, a) == NotIn(es, b)
  {
    if es != [] {
      NotInSameKeys(es[1..], a, b);
    }
  }

  /** The rows of `rows` whose `key` cell is not among `keys`, in order. */
  function RowsNotIn(rows: seq<Row>, key: string, keys: seq<Cell>): (r: seq<Row>)
    ensures IsSubsequence(r, rows)
    ensures forall x :: x in r <==> x in rows && Get(x, key) !in keys
    ensures forall x {:trigger Count(r, x)} :: Count(r, x) == if Get(x, key) !in keys then Count(rows, x) else 0
  {
    if rows == [] then []
    else
      var rest := RowsNotIn(rows[1..], key, keys);
      if Get(rows[0], key) !in keys then
        assert ([rows[0]] + rest)[1..] == rest;
        [rows[0]] + rest
      else rest
  }

  lemma RestoredCons(e: Entry, rest: seq<Entry>, name: string)
    ensures Restored([e] + rest, name) == [e.row[name := e.key]] + Restored(rest, name)
  {
    var a, b := Restored([e] + rest, name), [e.row[name := e.key]] + Restored(rest, name);
    assert |a| == |b|;
    forall k | 0 <= k < |a| ensures a[k] == b[k] {
      if k > 0 {
        assert ([e] + rest)[k] == rest[k - 1];
      }
    }
  }

  /** Indexing by `key`, filtering and resetting the index keeps the filtered
      rows themselves. */
  lemma {:induction false} RestoredNotIn(rows: seq<Row>, key: string, keys: seq<Cell>)
    requires forall k :: 0 <= k < |rows| ==> key in rows[k]
    ensures Restored(NotIn(Entries(rows, key), keys), key) == RowsNotIn(rows, key, keys)
  {
    if rows != [] {
      var es := Entries(rows, key);
      var e := Entry(Get(rows[0], key), rows[0] - {key});
      assert es[0] == e;
      assert es[1..] == Entries(rows[1..], key);
      RestoredNotIn(rows[1..], key, keys);
      var rest := NotIn(es[1..], keys);
      if e.key !in keys {
        assert NotIn(es, keys) == [e] + rest;
        RestoredCons(e, rest, key);
        RestoreRow(rows[0], key);
        assert RowsNotIn(rows, key, keys) == [rows[0]] + RowsNotIn(rows[1..], key, keys);
      } else {
        assert NotIn(es, keys) == rest;
        assert RowsNotIn(rows, key, keys) == RowsNotIn(rows[1..], key, keys);
      }
    }
  }

  // ---------------------------------------------------------------------------
  // `df.loc[:, ~df.columns.str.contains('^Unnamed')]`

  /** The column names that do not start with "Unnamed", in order. */
  function Named(cols: seq<string>): (r: seq<string>)
    ensures IsSubsequence(r, cols)
    ensures forall c :: c in r <==> c in cols && !StartsWith(c, UnnamedPrefix)
  {
    if cols == [] then []
    else
      var rest := Named(cols[1..]);
      if !StartsWith(cols[0], UnnamedPrefix) then
        assert ([cols[0]] + rest)[1..] == rest;
        [cols[0]] + rest
      else rest
  }

  /** The frame without its 'Unnamed' columns; every other column keeps its
      place and its cells. */
  function DropUnnamed(t: Table): (r: Table)
    ensures r.columns == Named(t.columns) && |r.rows| == |t.rows|
    ensures forall c :: c in r.columns ==> !StartsWith(c, UnnamedPrefix)
    ensures forall k, c :: 0 <= k < |t.rows| && c in r.columns ==> Get(r.rows[k], c) == Get(t.rows[k], c)
  {
    Select(t, Named(t.columns))
  }
}
