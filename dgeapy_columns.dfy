/** `add_fold_change_columns` and `add_regulation_columns` of dgeapy/add_columns.py.
    A source column is one whose name contains "log2FoldChange" or
    "log2foldchange". The new name is computed as `name.replace(name, q)`, which
    replaces the whole name: every derived column is called exactly "FoldChange"
    (or "Regulation"), so a second log2 column makes pandas raise. */
module DgeapyColumns {
  import opened Tables
  import opened Frames
  import opened DerivedColumns

  predicate IsLog2Column(name: string)
  {
    IsSubstring("log2FoldChange", name) || IsSubstring("log2foldchange", name)
  }

  /** `name.replace(name, q)`: the pattern is the whole name, so the result is `q`
      (for the empty name too, as Python's `"".replace("", q)` is `q`). */
  function ReplaceWhole(name: string, q: string): (r: string)
    ensures r == q
  {
    if name == [] then q
    else
      assert name[..|name|] == name && name[|name|..] == [];
      assert ReplaceAll(name[|name|..], name, q) == [];
      ReplaceAll(name, name, q)
  }

  function FoldChangeName(name: string): string
  {
    ReplaceWhole(name, "FoldChange")
  }

  function RegulationName(name: string): string
  {
    ReplaceWhole(name, "Regulation")
  }

  /** `np.power(2, abs(x))`, with the floating-point power given as `pow2`; NaN stays
      NaN. */
  function FoldChangeCell(c: Cell, pow2: real -> real): Cell
  {
    if c.Num? then Num(pow2(if c.x < 0.0 then -c.x else c.x)) else Missing
  }

  /** The regulation label of one log2 fold change. */
  function RegulationLabel(c: Cell): Cell
  {
    if Above(c, 0.0) then Str("Up")
    else if Below(c, 0.0) then Str("Down")
    else if c.Num? && c.x == 0.0 then Str("Unchanged")
    else Missing
  }

  /** "Up" exactly for positive, "Down" exactly for negative, "Unchanged" exactly for
      zero, and NaN exactly when the value is NaN. */
  lemma RegulationLabelSign(c: Cell)
    requires !c.Str?
    ensures RegulationLabel(c) == Str("Up") <==> c.Num? && c.x > 0.0
    ensures RegulationLabel(c) == Str("Down") <==> c.Num? && c.x < 0.0
    ensures RegulationLabel(c) == Str("Unchanged") <==> c.Num? && c.x == 0.0
    ensures RegulationLabel(c) == Missing <==> c.Missing?
  {
  }

  /** The log2 columns hold numbers or NaN (`abs` and `>` raise on text). */
  predicate NumericSources(rows: seq<Row>)
  {
    forall k, c :: 0 <= k < |rows| && c in rows[k] && IsLog2Column(c) ==> !rows[k][c].Str?
  }

  /** At most one log2 column, and when there is one, `q` is not already a column. */
  predicate SingleSourceFree(C: seq<string>, q: string)
  {
    && (forall a, b :: 0 <= a < b < |C| && IsLog2Column(C[a]) ==> !IsLog2Column(C[b]))
    && (forall a :: 0 <= a < |C| && IsLog2Column(C[a]) ==> q !in C)
  }

  /** Both passes succeed exactly when there is at most one log2 column and the fixed
      new name is still free. */
  lemma WholeNameInsertable(C: seq<string>, rename: string -> string, q: string)
    requires forall n :: rename(n) == q
    ensures Insertable(C, |C|, IsLog2Column, rename) <==> SingleSourceFree(C, q)
  {
    if Insertable(C, |C|, IsLog2Column, rename) {
      forall a, b | 0 <= a < b < |C| && IsLog2Column(C[a]) ensures !IsLog2Column(C[b]) {
        assert rename(C[a]) == rename(C[b]);
      }
    }
  }

  /** "FoldChange" is not itself a log2 column name: it has no '2'. */
  lemma FoldChangeNotSource()
    ensures !IsLog2Column("FoldChange")
  {
    AbsentChar("log2FoldChange", "FoldChange", 3);
    AbsentChar("log2foldchange", "FoldChange", 3);
  }

  method AddFoldChangeColumns(df: Frame, pow2: real -> real) returns (ok: bool)
    requires df.Valid() && NumericSources(df.rows)
    modifies df
    ensures df.Valid() && |df.rows| == |old(df.rows)|
    ensures ok <==> SingleSourceFree(old(df.columns), "FoldChange")
    ensures ok ==> df.columns == Expand(old(df.columns), IsLog2Column, FoldChangeName, 1)
    ensures ok ==> forall k, a :: 0 <= k < |df.rows| && 0 <= a < |old(df.columns)| && IsLog2Column(old(df.columns)[a]) ==>
      "FoldChange" in df.rows[k] && df.rows[k]["FoldChange"] == FoldChangeCell(Get(old(df.rows)[k], old(df.columns)[a]), pow2)
    ensures forall c :: c in old(df.columns) ==> c in df.columns
    ensures forall k, c :: 0 <= k < |df.rows| && c in old(df.columns) ==> c in df.rows[k] && df.rows[k][c] == old(df.rows)[k][c]
  {
    ghost var C := df.columns;
    ghost var rows0 := df.rows;
    var derive := c => FoldChangeCell(c, pow2);
    WholeNameInsertable(C, FoldChangeName, "FoldChange");
    ok := InsertDerivedColumns(df, IsLog2Column, FoldChangeName, derive, 1);
    if ok {
      forall k, a | 0 <= k < |df.rows| && 0 <= a < |C| && IsLog2Column(C[a])
        ensures "FoldChange" in df.rows[k] && df.rows[k]["FoldChange"] == FoldChangeCell(Get(rows0[k], C[a]), pow2)
      {
        DerivedValue(rows0[k], C, IsLog2Column, FoldChangeName, derive, a);
      }
    }
  }

  /** The Regulation pass; it expects each log2 column to be followed by a column that
      is not one (its FoldChange column), the layout `AddFoldChangeColumns` leaves. */
  method AddRegulationColumns(df: Frame) returns (ok: bool)
    requires df.Valid() && NumericSources(df.rows) && Paired(df.columns, IsLog2Column, 2)
    modifies df
    ensures df.Valid() && |df.rows| == |old(df.rows)|
    ensures ok <==> SingleSourceFree(old(df.columns), "Regulation")
    ensures ok ==> df.columns == Expand(old(df.columns), IsLog2Column, RegulationName, 2)
    ensures ok ==> forall k, a :: 0 <= k < |df.rows| && 0 <= a < |old(df.columns)| && IsLog2Column(old(df.columns)[a]) ==>
      "Regulation" in df.rows[k] && df.rows[k]["Regulation"] == RegulationLabel(Get(old(df.rows)[k], old(df.columns)[a]))
    ensures forall c :: c in old(df.columns) ==> c in df.columns
    ensures forall k, c :: 0 <= k < |df.rows| && c in old(df.columns) ==> c in df.rows[k] && df.rows[k][c] == old(df.rows)[k][c]
  {
    ghost var C := df.columns;
    ghost var rows0 := df.rows;
    WholeNameInsertable(C, RegulationName, "Regulation");
    ok := InsertDerivedColumns(df, IsLog2Column, RegulationName, RegulationLabel, 2);
    if ok {
      forall k, a | 0 <= k < |df.rows| && 0 <= a < |C| && IsLog2Column(C[a])
        ensures "Regulation" in df.rows[k] && df.rows[k]["Regulation"] == RegulationLabel(Get(rows0[k], C[a]))
      {
        DerivedValue(rows0[k], C, IsLog2Column, RegulationName, RegulationLabel, a);
      }
    }
  }

  lemma {:induction false} TriplesNoSource(X: seq<string>, src: string -> bool, fc: string -> string, reg: string -> string)
    requires forall b :: 0 <= b < |X| ==> !src(X[b])
    ensures Triples(X, src, fc, reg) == X
    decreases |X|
  {
    if X != [] {
      TriplesNoSource(X[1..], src, fc, reg);
    }
  }

  /** Both passes together, on a table with a single log2 column at index `a`: the
      FoldChange pass leaves the layout the Regulation pass needs, and the result is
      the log2 column followed by "FoldChange" and "Regulation", every other column
      in place. */
  lemma {:induction false} AddColumnsLayout(C: seq<string>, a: nat)
    requires a < |C| && IsLog2Column(C[a])
    requires forall b :: 0 <= b < |C| && b != a ==> !IsLog2Column(C[b])
    ensures Paired(Expand(C, IsLog2Column, FoldChangeName, 1), IsLog2Column, 2)
    ensures Expand(Expand(C, IsLog2Column, FoldChangeName, 1), IsLog2Column, RegulationName, 2)
         == C[..a + 1] + ["FoldChange", "Regulation"] + C[a + 1..]
    decreases a
  {
    FoldChangeNotSource();
    ExpandTwice(C, IsLog2Column, FoldChangeName, RegulationName);
    TriplesSingle(C, a);
  }

  lemma {:induction false} TriplesSingle(C: seq<string>, a: nat)
    requires a < |C| && IsLog2Column(C[a])
    requires forall b :: 0 <= b < |C| && b != a ==> !IsLog2Column(C[b])
    ensures Triples(C, IsLog2Column, FoldChangeName, RegulationName) == C[..a + 1] + ["FoldChange", "Regulation"] + C[a + 1..]
    decreases a
  {
    var tail := C[1..];
    if a == 0 {
      forall b | 0 <= b < |tail| ensures !IsLog2Column(tail[b]) {
        assert tail[b] == C[b + 1];
      }
      TriplesNoSource(tail, IsLog2Column, FoldChangeName, RegulationName);
    } else {
      forall b | 0 <= b < |tail| && b != a - 1 ensures !IsLog2Column(tail[b]) {
        assert tail[b] == C[b + 1];
      }
      assert !IsLog2Column(C[0]);
      TriplesSingle(tail, a - 1);
      assert C[..a + 1] == [C[0]] + tail[..a];
      assert C[a + 1..] == tail[a..];
    }
  }
}
