/** Table operations shared by the two filter modules: the threshold filter, the
    per-mutant sub-tables, and the region tables built by inner-merging a region's
    gene ids with the table of every mutant whose bit is set. */
module RegionTables {
  import opened Wrappers
  import opened Tables
  import opened ColumnRules
  import opened Partitions

  // ---------------------------------------------------------------------------
  // filter_FC_PVALUE_PADJ

  /** The row condition: FoldChange at least its threshold, p-value and adjusted
      p-value strictly below theirs. NaN fails every comparison. */
  predicate PassesThresholds(r: Row, fc: real, fcCol: string, p: real, pCol: string, padj: real, padjCol: string)
  {
    AtLeast(Get(r, fcCol), fc) && Below(Get(r, pCol), p) && Below(Get(r, padjCol), padj)
  }

  /** Boolean-mask selection on the three columns; a column that is not in the table
      raises `KeyError`. */
  function FilterFcPvaluePadj(t: Table, fc: real, fcCol: string, p: real, pCol: string, padj: real, padjCol: string)
    : (r: Result<Table>)
    ensures r.Success? <==> fcCol in t.columns && pCol in t.columns && padjCol in t.columns
    ensures r.Success? ==> r.value.columns == t.columns
    ensures r.Success? ==> IsSubsequence(r.value.rows, t.rows)
    ensures r.Success? ==> forall x :: x in r.value.rows <==> x in t.rows && PassesThresholds(x, fc, fcCol, p, pCol, padj, padjCol)
    ensures r.Success? ==> forall x {:trigger Count(r.value.rows, x)} ::
      Count(r.value.rows, x) == if PassesThresholds(x, fc, fcCol, p, pCol, padj, padjCol) then Count(t.rows, x) else 0
  {
    if fcCol !in t.columns || pCol !in t.columns || padjCol !in t.columns then Failure("KeyError")
    else Success(Table(t.columns, FilterRows(t.rows, x => PassesThresholds(x, fc, fcCol, p, pCol, padj, padjCol))))
  }

  /** Filtering a filtered table again changes nothing. */
  lemma FilterTwice(t: Table, fc: real, fcCol: string, p: real, pCol: string, padj: real, padjCol: string)
    requires FilterFcPvaluePadj(t, fc, fcCol, p, pCol, padj, padjCol).Success?
    ensures var once := FilterFcPvaluePadj(t, fc, fcCol, p, pCol, padj, padjCol).value;
      FilterFcPvaluePadj(once, fc, fcCol, p, pCol, padj, padjCol) == Success(once)
  {
    var keep := x => PassesThresholds(x, fc, fcCol, p, pCol, padj, padjCol);
    var once := FilterFcPvaluePadj(t, fc, fcCol, p, pCol, padj, padjCol).value;
    assert once.rows == FilterRows(t.rows, keep);
    FilterAllKept(once.rows, keep);
  }

  /** Filtering rows that all pass keeps them all. */
  lemma {:induction false} FilterAllKept(rows: seq<Row>, keep: Row -> bool)
    requires forall x :: x in rows ==> keep(x)
    ensures FilterRows(rows, keep) == rows
    decreases |rows|
  {
    if rows != [] {
      assert rows[0] in rows;
      assert forall x :: x in rows[1..] ==> x in rows;
      FilterAllKept(rows[1..], keep);
      assert rows == [rows[0]] + rows[1..];
    }
  }

  // ---------------------------------------------------------------------------
  // generate_sub_dataframes_3muts / generate_sub_dataframes

  /** `[i for i in mutants if i is not m]`; identity is modelled as equality. */
  function Others(mutants: seq<string>, m: string): (r: seq<string>)
    ensures forall x :: x in r <==> x in mutants && x != m
    ensures |r| <= |mutants|
  {
    if mutants == [] then []
    else (if mutants[0] != m then [mutants[0]] else []) + Others(mutants[1..], m)
  }

  /** The column names that contain neither `o1` nor `o2`, in their order. */
  function WantedColumns(names: seq<string>, o1: string, o2: string): (r: seq<string>)
    ensures IsSubsequence(r, names)
    ensures forall n :: n in r <==> n in names && !IsSubstring(o1, n) && !IsSubstring(o2, n)
    decreases |names|
  {
    if names == [] then []
    else
      var init := names[..|names| - 1];
      var last := names[|names| - 1];
      var rest := WantedColumns(init, o1, o2);
      assert names == init + [last];
      SubsequenceAppend(rest, init, last);
      if !IsSubstring(o1, last) && !IsSubstring(o2, last) then
        SubsequenceSnoc(rest, init, last);
        rest + [last]
      else rest
  }

  /** `pd.DataFrame(data={name: column values, ...})` over the wanted names: the
      rows of `t` restricted to them. With no wanted name the frame has no rows. */
  function SubFrame(t: Table, wanted: seq<string>): (r: Table)
    ensures r.columns == wanted
    ensures wanted != [] ==> |r.rows| == |t.rows|
    ensures wanted != [] ==> forall k, c :: 0 <= k < |t.rows| && c in wanted ==> Get(r.rows[k], c) == Get(t.rows[k], c)
    ensures wanted == [] ==> r.rows == []
  {
    if wanted == [] then Table([], []) else Select(t, wanted)
  }

  /** The per-mutant sub-tables: for each mutant, the columns that name neither of the
      two other mutants. Fewer than two other mutants makes `unwanted_mutant_names[1]`
      raise. */
  method SubDataframes(t: Table, mutants: seq<string>) returns (r: Result<map<string, Table>>)
    ensures r.Success? <==> forall m :: m in mutants ==> |Others(mutants, m)| >= 2
    ensures r.Success? ==> forall m :: m in r.value <==> m in mutants
    ensures r.Success? ==> forall m :: m in mutants ==>
      var o := Others(mutants, m);
      |o| >= 2 && r.value[m] == SubFrame(t, WantedColumns(t.columns, o[0], o[1]))
  {
    var frames: map<string, Table> := map[];
    var i := 0;
    while i < |mutants|
      invariant 0 <= i <= |mutants|
      invariant forall m :: m in frames <==> m in mutants[..i]
      invariant forall m :: m in mutants[..i] ==>
        var o := Others(mutants, m);
        |o| >= 2 && frames[m] == SubFrame(t, WantedColumns(t.columns, o[0], o[1]))
    {
      var mutant := mutants[i];
      var unwanted := Others(mutants, mutant);
      if |unwanted| < 2 {
        assert mutant in mutants;
        return Failure("IndexError");
      }
      var wanted := WantedNames(t.columns, unwanted[0], unwanted[1]);
      frames := frames[mutant := SubFrame(t, wanted)];
      assert mutants[..i + 1] == mutants[..i] + [mutant];
      i := i + 1;
    }
    assert mutants[..|mutants|] == mutants;
    r := Success(frames);
  }

  /** The loop over the column names that keeps those naming neither unwanted
      mutant. */
  method WantedNames(names: seq<string>, o1: string, o2: string) returns (wanted: seq<string>)
    ensures wanted == WantedColumns(names, o1, o2)
  {
    wanted := [];
    var j := 0;
    while j < |names|
      invariant 0 <= j <= |names|
      invariant wanted == WantedColumns(names[..j], o1, o2)
    {
      var name := names[j];
      assert names[..j + 1][..j] == names[..j];
      if !IsSubstring(o1, name) && !IsSubstring(o2, name) {
        wanted := wanted + [name];
      }
      j := j + 1;
    }
    assert names[..|names|] == names;
  }

  /** The other two of three distinct mutants, in order. */
  lemma OthersOfThree(mutants: seq<string>, i: nat)
    requires |mutants| == 3 && Distinct(mutants) && i < 3
    ensures Others(mutants, mutants[i]) ==
      if i == 0 then [mutants[1], mutants[2]] else if i == 1 then [mutants[0], mutants[2]] else [mutants[0], mutants[1]]
  {
    var m := mutants[i];
    var t1, t2 := mutants[1..], mutants[2..];
    assert t2[1..] == [];
    assert Others(t2, m) == (if mutants[2] != m then [mutants[2]] else []) + Others(t2[1..], m);
    assert t1[1..] == t2;
    assert Others(t1, m) == (if mutants[1] != m then [mutants[1]] else []) + Others(t2, m);
    assert Others(mutants, m) == (if mutants[0] != m then [mutants[0]] else []) + Others(t1, m);
  }

  // ---------------------------------------------------------------------------
  // Region tables: mk_df_for_each_intersection

  const GeneId := "gene_id"

  /** `pd.DataFrame(data={"gene_id": ids})`. */
  function IdTable(ids: seq<string>): (t: Table)
    ensures t.columns == [GeneId] && |t.rows| == |ids|
    ensures forall k :: 0 <= k < |ids| ==> t.rows[k] == map[GeneId := Str(ids[k])]
  {
    Table([GeneId], seq(|ids|, k requires 0 <= k < |ids| => map[GeneId := Str(ids[k])]))
  }

  /** Some row carries gene `g` in its gene_id column. */
  predicate HasGene(rows: seq<Row>, g: string)
  {
    exists o :: o in rows && GeneId in o && o[GeneId] == Str(g)
  }

  lemma IdTableGenes(ids: seq<string>, g: string)
    ensures HasGene(IdTable(ids).rows, g) <==> g in ids
  {
    var t := IdTable(ids);
    if g in ids {
      var k :| 0 <= k < |ids| && ids[k] == g;
      assert t.rows[k] in t.rows;
    }
    if HasGene(t.rows, g) {
      var o :| o in t.rows && GeneId in o && o[GeneId] == Str(g);
      var k :| 0 <= k < |t.rows| && t.rows[k] == o;
    }
  }

  /** `pd.merge(df, mutant_df, on="gene_id")` when the bit is '1', else `df`. */
  function MergeIf(df: Table, bit: char, m: Table): Table
  {
    if bit == '1' then InnerMerge(df, m, GeneId) else df
  }

  /** An inner merge on gene_id holds a gene exactly when both sides hold it. */
  lemma MergeGenes(df: Table, m: Table, g: string)
    ensures HasGene(InnerMerge(df, m, GeneId).rows, g) <==> HasGene(df.rows, g) && HasGene(m.rows, g)
  {
    var out := InnerMerge(df, m, GeneId).rows;
    if HasGene(out, g) {
      var o :| o in out && GeneId in o && o[GeneId] == Str(g);
      var l, r :| l in df.rows && r in m.rows && KeyMatch(l, r, GeneId) && o == r + l;
      assert l[GeneId] == Str(g);
    }
    if HasGene(df.rows, g) && HasGene(m.rows, g) {
      var l :| l in df.rows && GeneId in l && l[GeneId] == Str(g);
      var r :| r in m.rows && GeneId in r && r[GeneId] == Str(g);
      assert KeyMatch(l, r, GeneId);
      assert (r + l)[GeneId] == Str(g);
    }
  }

  /** The region table before column sorting: the ids merged with the table of every
      mutant whose bit is '1', first, second and third in turn. */
  function AssembleRegion(ids: seq<string>, code: string, m1: Table, m2: Table, m3: Table): Table
    requires |code| == 3
  {
    MergeIf(MergeIf(MergeIf(IdTable(ids), code[0], m1), code[1], m2), code[2], m3)
  }

  /** A gene is in the region table exactly when it is one of the region's ids and
      every mutant whose bit is '1' has it. */
  lemma AssembleRegionGenes(ids: seq<string>, code: string, m1: Table, m2: Table, m3: Table, g: string)
    requires |code| == 3
    ensures HasGene(AssembleRegion(ids, code, m1, m2, m3).rows, g) <==>
      && g in ids
      && (code[0] == '1' ==> HasGene(m1.rows, g))
      && (code[1] == '1' ==> HasGene(m2.rows, g))
      && (code[2] == '1' ==> HasGene(m3.rows, g))
  {
    var t0 := IdTable(ids);
    var t1 := MergeIf(t0, code[0], m1);
    var t2 := MergeIf(t1, code[1], m2);
    IdTableGenes(ids, g);
    if code[0] == '1' { MergeGenes(t0, m1, g); }
    if code[1] == '1' { MergeGenes(t1, m2, g); }
    if code[2] == '1' { MergeGenes(t2, m3, g); }
  }

  /** Its columns are gene_id and the columns of the mutants whose bit is '1'; a
      mutant whose bit is '0' contributes none. */
  lemma AssembleRegionColumns(ids: seq<string>, code: string, m1: Table, m2: Table, m3: Table, c: string)
    requires |code| == 3
    ensures c in AssembleRegion(ids, code, m1, m2, m3).columns <==>
      || c == GeneId
      || (code[0] == '1' && c in m1.columns)
      || (code[1] == '1' && c in m2.columns)
      || (code[2] == '1' && c in m3.columns)
  {
  }

  /** Reordering rows, or selecting columns that keep gene_id, keeps the genes. */
  lemma SortedRegionGenes(t: Table, cols: seq<string>, rows: seq<Row>, g: string)
    requires GeneId in cols && multiset(rows) == multiset(Select(t, cols).rows)
    ensures HasGene(rows, g) <==> HasGene(t.rows, g)
  {
    var sel := Select(t, cols).rows;
    if HasGene(rows, g) {
      var o :| o in rows && GeneId in o && o[GeneId] == Str(g);
      assert o in multiset(rows);
      assert o in sel;
      var k :| 0 <= k < |sel| && sel[k] == o;
      assert Get(sel[k], GeneId) == Get(t.rows[k], GeneId);
      assert t.rows[k] in t.rows;
    }
    if HasGene(t.rows, g) {
      var o :| o in t.rows && GeneId in o && o[GeneId] == Str(g);
      var k :| 0 <= k < |t.rows| && t.rows[k] == o;
      assert Get(sel[k], GeneId) == Str(g);
      assert sel[k] in multiset(sel);
      assert sel[k] in rows;
    }
  }

  /** `list(s)`: the members of a set in some order, each once. */
  method SetToList(s: set<string>) returns (xs: seq<string>)
    ensures forall x :: x in xs <==> x in s
    ensures Distinct(xs)
  {
    xs := [];
    var todo := s;
    while todo != {}
      invariant todo <= s
      invariant forall x :: x in xs <==> x in s - todo
      invariant Distinct(xs)
      decreases todo
    {
      var x :| x in todo;
      xs := xs + [x];
      todo := todo - {x};
    }
  }

  /** One pass of the per-region loop of `mk_df_for_each_intersection`: the id table is
      merged with the table of each mutant whose bit is '1', in turn, then passed
      through `sort_df`. The result is the sorted merge, and holds exactly the region's
      genes that every bit-1 mutant table holds. */
  method RegionTable(rules: seq<(string, nat)>, ids: seq<string>, code: string, m1: Table, m2: Table, m3: Table)
    returns (df: Table)
    requires |code| == 3 && FirstMatch<nat>(rules, GeneId) == Some(GeneIdGroup)
    ensures SortDfOf(rules, AssembleRegion(ids, code, m1, m2, m3), df)
    ensures df.columns == SortedColumnNames(rules, AssembleRegion(ids, code, m1, m2, m3).columns)
    ensures GeneId in df.columns
    ensures forall g :: HasGene(df.rows, g) <==>
      && g in ids
      && (code[0] == '1' ==> HasGene(m1.rows, g))
      && (code[1] == '1' ==> HasGene(m2.rows, g))
      && (code[2] == '1' ==> HasGene(m3.rows, g))
  {
    df := IdTable(ids);
    if code[0] == '1' {
      df := InnerMerge(df, m1, GeneId);
    }
    if code[1] == '1' {
      df := InnerMerge(df, m2, GeneId);
    }
    if code[2] == '1' {
      df := InnerMerge(df, m3, GeneId);
    }
    var assembled := df;
    assert assembled == AssembleRegion(ids, code, m1, m2, m3);
    df := SortDf(rules, assembled);
    AssembleRegionColumns(ids, code, m1, m2, m3, GeneId);
    SortedColumnNamesSpec(rules, assembled.columns, GeneId);
    forall g ensures HasGene(df.rows, g) <==> HasGene(assembled.rows, g) {
      SortedRegionGenes(assembled, df.columns, df.rows, g);
    }
    forall g ensures HasGene(assembled.rows, g) <==>
      && g in ids
      && (code[0] == '1' ==> HasGene(m1.rows, g))
      && (code[1] == '1' ==> HasGene(m2.rows, g))
      && (code[2] == '1' ==> HasGene(m3.rows, g))
    {
      AssembleRegionGenes(ids, code, m1, m2, m3, g);
    }
  }

  // ---------------------------------------------------------------------------
  // What each region table of a run holds

  /** The columns of a merged region table: gene_id, then the columns of each bit-1
      mutant table that are new. They do not depend on the ids. */
  function MergedColumns(code: string, c1: seq<string>, c2: seq<string>, c3: seq<string>): seq<string>
    requires |code| == 3
  {
    var a := if code[0] == '1' then MergeColumns([GeneId], c1) else [GeneId];
    var b := if code[1] == '1' then MergeColumns(a, c2) else a;
    if code[2] == '1' then MergeColumns(b, c3) else b
  }

  lemma AssembleColumns(ids: seq<string>, code: string, m1: Table, m2: Table, m3: Table)
    requires |code| == 3
    ensures AssembleRegion(ids, code, m1, m2, m3).columns == MergedColumns(code, m1.columns, m2.columns, m3.columns)
  {
  }

  /** The region table of `code`, built from the list `ids` of the region's genes: the
      `sort_df` result of the merge, holding exactly the genes of the region that every
      bit-1 mutant table holds, with the columns `cols`, gene_id among them. */
  ghost predicate RegionTableOk(df: Table, code: string, regions: map<string, set<string>>, cols: seq<string>,
                                rules: seq<(string, nat)>, ids: seq<string>, m1: Table, m2: Table, m3: Table)
    requires |code| == 3 && code in regions
  {
    && (forall x :: x in ids <==> x in regions[code])
    && SortDfOf(rules, AssembleRegion(ids, code, m1, m2, m3), df)
    && df.columns == cols
    && GeneId in cols
    && forall g :: HasGene(df.rows, g) <==>
      && g in regions[code]
      && (code[0] == '1' ==> HasGene(m1.rows, g))
      && (code[1] == '1' ==> HasGene(m2.rows, g))
      && (code[2] == '1' ==> HasGene(m3.rows, g))
  }

  /** Every table of `out` is the region table of its code, built from the list `ids`
      gives for that code, with the columns `cols` gives for it. */
  ghost predicate AllRegionsOk(out: map<string, Table>, regions: map<string, set<string>>, cols: map<string, seq<string>>,
                               rules: seq<(string, nat)>, ids: map<string, seq<string>>, m1: Table, m2: Table, m3: Table)
  {
    forall code :: code in out ==>
      && code in regions && code in cols && code in ids && |code| == 3
      && RegionTableOk(out[code], code, regions, cols[code], rules, ids[code], m1, m2, m3)
  }

  /** The `sort_df` order of the merged columns of each code. */
  ghost function RegionColumns(rules: seq<(string, nat)>, m1: Table, m2: Table, m3: Table): (cols: map<string, seq<string>>)
    ensures cols.Keys == Codes3
  {
    map code | code in Codes3 && |code| == 3 :: SortedColumnNames(rules, MergedColumns(code, m1.columns, m2.columns, m3.columns))
  }

  lemma AllRegionsOkUpdate(out: map<string, Table>, regions: map<string, set<string>>, cols: map<string, seq<string>>,
                           rules: seq<(string, nat)>, ids: map<string, seq<string>>, m1: Table, m2: Table, m3: Table,
                           code: string, df: Table, codeIds: seq<string>)
    requires AllRegionsOk(out, regions, cols, rules, ids, m1, m2, m3)
    requires |code| == 3 && code in regions && code in cols
    requires RegionTableOk(df, code, regions, cols[code], rules, codeIds, m1, m2, m3)
    ensures AllRegionsOk(out[code := df], regions, cols, rules, ids[code := codeIds], m1, m2, m3)
  {
    var out', ids' := out[code := df], ids[code := codeIds];
    forall c | c in out'
      ensures c in regions && c in cols && c in ids' && |c| == 3
      ensures RegionTableOk(out'[c], c, regions, cols[c], rules, ids'[c], m1, m2, m3)
    {
      if c != code {
        assert out'[c] == out[c] && ids'[c] == ids[c];
      }
    }
  }

  /** At every code of `keys`, `RegionColumns` is the sorted merged columns. */
  lemma RegionColumnsAtKeys(rules: seq<(string, nat)>, keys: seq<string>, m1: Table, m2: Table, m3: Table)
    requires forall i :: 0 <= i < |keys| ==> keys[i] in Codes3
    ensures forall i :: 0 <= i < |keys| ==> |keys[i]| == 3 && keys[i] in RegionColumns(rules, m1, m2, m3)
    ensures forall i :: 0 <= i < |keys| ==>
      RegionColumns(rules, m1, m2, m3)[keys[i]] == SortedColumnNames(rules, MergedColumns(keys[i], m1.columns, m2.columns, m3.columns))
  {
  }

  /** A map keyed by an ordering of the seven codes is keyed by the seven codes. */
  lemma KeysOfCodeOrder(keys: seq<string>, out: map<string, Table>)
    requires forall c :: c in keys <==> c in Codes3
    requires forall k :: k in out <==> k in keys
    ensures out.Keys == Codes3
  {
    forall c ensures c in out <==> c in Codes3 {
      assert c in out <==> c in keys;
    }
  }

  // ---------------------------------------------------------------------------
  // Venn labels of the inverted-regulation enumerations

  const UpArrow := "$\\uparrow$"
  const DownArrow := "$\\downarrow$"
}
