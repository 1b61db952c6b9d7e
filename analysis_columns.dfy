/** `add_fold_change_columns` and `add_regulation_columns` of
    dge_analysis/add_columns.py. A source column is one whose name contains
    "log2FoldChange"; the new name replaces that substring, so per-mutant prefixes
    survive and several log2 columns can coexist. Labels that are neither positive,
    negative nor zero are the string "--". */
module AnalysisColumns {
  import opened Tables
  import opened Frames
  import opened DerivedColumns

  const Log2FC := "log2FoldChange"

  predicate IsLog2Column(name: string)
  {
    IsSubstring(Log2FC, name)
  }

  function FoldChangeName(name: string): string
  {
    ReplaceAll(name, Log2FC, "FoldChange")
  }

  function RegulationName(name: string): string
  {
    ReplaceAll(name, Log2FC, "Regulation")
  }

  function FoldChangeCell(c: Cell, pow2: real -> real): Cell
  {
    if c.Num? then Num(pow2(if c.x < 0.0 then -c.x else c.x)) else Missing
  }

  function RegulationLabel(c: Cell): Cell
  {
    if Above(c, 0.0) then Str("Up")
    else if Below(c, 0.0) then Str("Down")
    else if c.Num? && c.x == 0.0 then Str("Unchanged")
    else Str("--")
  }

  /** "Up" exactly for positive, "Down" exactly for negative, "Unchanged" exactly for
      zero, and "--" exactly for NaN. */
  lemma RegulationLabelSign(c: Cell)
    requires !c.Str?
    ensures RegulationLabel(c) == Str("Up") <==> c.Num? && c.x > 0.0
    ensures RegulationLabel(c) == Str("Down") <==> c.Num? && c.x < 0.0
    ensures RegulationLabel(c) == Str("Unchanged") <==> c.Num? && c.x == 0.0
    ensures RegulationLabel(c) == Str("--") <==> c.Missing?
    ensures RegulationLabel(c) != Missing
  {
  }

  predicate NumericSources(rows: seq<Row>)
  {
    forall k, c :: 0 <= k < |rows| && c in rows[k] && IsLog2Column(c) ==> !rows[k][c].Str?
  }

  /** The per-mutant column of a DEG table: `{mutant}vsWT_log2FoldChange`. */
  function MutantColumn(m: string, suffix: string): (n: string)
    ensures n == m + ("vsWT_" + suffix)
  {
    m + "vsWT_" + suffix
  }

  /** Inside the fixed suffix the only occurrence of the pattern is the last one. */
  lemma SuffixReplace(q: string)
    ensures ReplaceAll("vsWT_" + Log2FC, Log2FC, q) == "vsWT_" + q
  {
    var s := "vsWT_" + Log2FC + [];
    assert NoMatchBefore(s, Log2FC, 5) by {
      forall i | 0 <= i < 5 ensures !StartsWith(s[i..], Log2FC) {
        assert s[i..][0] == s[i] != 'l';
      }
    }
    ReplaceAfterPrefix("vsWT_", Log2FC, q, []);
    assert s == "vsWT_" + Log2FC;
  }

  /** For a mutant name free of the pattern, the renames swap only the suffix. */
  lemma MutantColumnRename(m: string, q: string)
    requires !IsSubstring(Log2FC, m)
    ensures ReplaceAll(MutantColumn(m, Log2FC), Log2FC, q) == MutantColumn(m, q)
  {
    var w := "vsWT_" + Log2FC;
    assert MutantColumn(m, Log2FC) == m + w;
    ReplaceSkipsPrefix(m, w, Log2FC, q);
    SuffixReplace(q);
  }

  lemma MutantColumnIsSource(m: string)
    ensures IsLog2Column(MutantColumn(m, Log2FC))
  {
    SubstringAt(Log2FC, MutantColumn(m, Log2FC), |m| + 5);
  }

  /** The FoldChange suffix lacks the '2' of the pattern. */
  lemma FoldChangeSuffixNotSource()
    ensures !IsSubstring(Log2FC, "vsWT_" + "FoldChange")
  {
    assert Log2FC[3] == '2';
    assert '2' !in "vsWT_" && '2' !in "FoldChange";
    assert '2' !in "vsWT_" + "FoldChange";
    AbsentChar(Log2FC, "vsWT_" + "FoldChange", 3);
  }

  lemma NotSourceAcrossSeam(m: string, t: string)
    requires !IsSubstring(Log2FC, m) && !IsSubstring(Log2FC, t)
    requires t != [] && t[0] !in Log2FC
    ensures !IsLog2Column(m + t)
  {
    AbsentAcrossSeam(Log2FC, m, t);
  }

  /** The FoldChange name of a mutant column is not a log2 name again. */
  lemma MutantFoldChangeNotSource(m: string)
    requires !IsSubstring(Log2FC, m)
    ensures !IsLog2Column(MutantColumn(m, "FoldChange"))
  {
    var t := "vsWT_" + "FoldChange";
    assert MutantColumn(m, "FoldChange") == m + t;
    FoldChangeSuffixNotSource();
    assert t[0] == 'v' && 'v' !in Log2FC;
    NotSourceAcrossSeam(m, t);
  }

  /** Distinct mutants give distinct FoldChange and Regulation names, so the passes
      support one log2 column per mutant. */
  lemma DistinctMutantNames(m1: string, m2: string, q: string)
    requires !IsSubstring(Log2FC, m1) && !IsSubstring(Log2FC, m2) && m1 != m2
    ensures ReplaceAll(MutantColumn(m1, Log2FC), Log2FC, q) != ReplaceAll(MutantColumn(m2, Log2FC), Log2FC, q)
  {
    MutantColumnRename(m1, q);
    MutantColumnRename(m2, q);
    SuffixCancel(m1, m2, "vsWT_" + q);
  }

  method AddFoldChangeColumns(df: Frame, pow2: real -> real) returns (ok: bool)
    requires df.Valid() && NumericSources(df.rows)
    modifies df
    ensures df.Valid() && |df.rows| == |old(df.rows)|
    ensures ok <==> Insertable(old(df.columns), |old(df.columns)|, IsLog2Column, FoldChangeName)
    ensures ok ==> df.columns == Expand(old(df.columns), IsLog2Column, FoldChangeName, 1)
    ensures ok ==> forall k, a :: 0 <= k < |df.rows| && 0 <= a < |old(df.columns)| && IsLog2Column(old(df.columns)[a]) ==>
      var n := FoldChangeName(old(df.columns)[a]);
      n in df.rows[k] && df.rows[k][n] == FoldChangeCell(Get(old(df.rows)[k], old(df.columns)[a]), pow2)
    ensures forall c :: c in old(df.columns) ==> c in df.columns
    ensures forall k, c :: 0 <= k < |df.rows| && c in old(df.columns) ==> c in df.rows[k] && df.rows[k][c] == old(df.rows)[k][c]
  {
    ghost var C := df.columns;
    ghost var rows0 := df.rows;
    var derive := c => FoldChangeCell(c, pow2);
    ok := InsertDerivedColumns(df, IsLog2Column, FoldChangeName, derive, 1);
    if ok {
      forall k, a | 0 <= k < |df.rows| && 0 <= a < |C| && IsLog2Column(C[a])
        ensures FoldChangeName(C[a]) in df.rows[k] && df.rows[k][FoldChangeName(C[a])] == FoldChangeCell(Get(rows0[k], C[a]), pow2)
      {
        DerivedValue(rows0[k], C, IsLog2Column, FoldChangeName, derive, a);
      }
    }
  }

  method AddRegulationColumns(df: Frame) returns (ok: bool)
    requires df.Valid() && NumericSources(df.rows) && Paired(df.columns, IsLog2Column, 2)
    modifies df
    ensures df.Valid() && |df.rows| == |old(df.rows)|
    ensures ok <==> Insertable(old(df.columns), |old(df.columns)|, IsLog2Column, RegulationName)
    ensures ok ==> df.columns == Expand(old(df.columns), IsLog2Column, RegulationName, 2)
    ensures ok ==> forall k, a :: 0 <= k < |df.rows| && 0 <= a < |old(df.columns)| && IsLog2Column(old(df.columns)[a]) ==>
      var n := RegulationName(old(df.columns)[a]);
      n in df.rows[k] && df.rows[k][n] == RegulationLabel(Get(old(df.rows)[k], old(df.columns)[a]))
    ensures forall c :: c in old(df.columns) ==> c in df.columns
    ensures forall k, c :: 0 <= k < |df.rows| && c in old(df.columns) ==> c in df.rows[k] && df.rows[k][c] == old(df.rows)[k][c]
  {
    ghost var C := df.columns;
    ghost var rows0 := df.rows;
    ok := InsertDerivedColumns(df, IsLog2Column, RegulationName, RegulationLabel, 2);
    if ok {
      forall k, a | 0 <= k < |df.rows| && 0 <= a < |C| && IsLog2Column(C[a])
        ensures RegulationName(C[a]) in df.rows[k] && df.rows[k][RegulationName(C[a])] == RegulationLabel(Get(rows0[k], C[a]))
      {
        DerivedValue(rows0[k], C, IsLog2Column, RegulationName, RegulationLabel, a);
      }
    }
  }

  /** Both passes together: when no FoldChange name is itself a log2 name (true for
      every `{mutant}vsWT_log2FoldChange` column, see `MutantFoldChangeNotSource`), the
      FoldChange pass leaves the layout the Regulation pass needs and every log2
      column ends up followed by its FoldChange and Regulation columns. */
  lemma AddColumnsLayout(C: seq<string>)
    requires forall a :: 0 <= a < |C| && IsLog2Column(C[a]) ==> !IsLog2Column(FoldChangeName(C[a]))
    ensures Paired(Expand(C, IsLog2Column, FoldChangeName, 1), IsLog2Column, 2)
    ensures Expand(Expand(C, IsLog2Column, FoldChangeName, 1), IsLog2Column, RegulationName, 2)
         == Triples(C, IsLog2Column, FoldChangeName, RegulationName)
  {
    ExpandTwice(C, IsLog2Column, FoldChangeName, RegulationName);
  }
}
