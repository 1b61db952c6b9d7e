/** dge_analysis/filter_dataframe.py: the three-set partition built as lists by
    comprehensions, the column rules of `column_names_to_check` and `sort_df`, the
    threshold filter reading its column names from the discovered-column dictionary,
    the mutant tables merged into each region table, and the enumeration of inverted
    regulations with its pivot reordering. */
module AnalysisFilter {
  import opened Wrappers
  import opened Tables
  import opened Partitions
  import opened ColumnRules
  import opened RegionTables

  // ---------------------------------------------------------------------------
  // get_gene_ids_list_for_intersections

  /** The members of a list, as a set. */
  function Elems(xs: seq<string>): (s: set<string>)
    ensures forall x :: x in s <==> x in xs
  {
    set x | x in xs
  }

  /** `[i for i in xs if (i in ys) == inY and (i in zs) == inZ]`: the elements of `xs`
      with the given membership in `ys` and `zs`, in order and with their
      multiplicity. */
  function Keep(xs: seq<string>, ys: seq<string>, inY: bool, zs: seq<string>, inZ: bool): seq<string>
  {
    if xs == [] then []
    else if (xs[0] in ys <==> inY) && (xs[0] in zs <==> inZ) then [xs[0]] + Keep(xs[1..], ys, inY, zs, inZ)
    else Keep(xs[1..], ys, inY, zs, inZ)
  }

  /** The kept elements form a subsequence of `xs` and are exactly the elements with
      the wanted memberships, each as often as in `xs`. */
  lemma {:induction false} KeepSpec(xs: seq<string>, ys: seq<string>, inY: bool, zs: seq<string>, inZ: bool)
    ensures var r := Keep(xs, ys, inY, zs, inZ);
      && IsSubsequence(r, xs)
      && (forall x :: x in r <==> x in xs && (x in ys <==> inY) && (x in zs <==> inZ))
      && (forall x :: Count(r, x) == if (x in ys <==> inY) && (x in zs <==> inZ) then Count(xs, x) else 0)
    decreases |xs|
  {
    if xs != [] {
      var rest := Keep(xs[1..], ys, inY, zs, inZ);
      KeepSpec(xs[1..], ys, inY, zs, inZ);
      assert xs == [xs[0]] + xs[1..];
      if (xs[0] in ys <==> inY) && (xs[0] in zs <==> inZ) {
        assert ([xs[0]] + rest)[1..] == rest;
      }
    }
  }

  /** `get_gene_ids_list_for_intersections`: seven lists keyed by region code; the
      first four draw from the first list, the next two from the second, the last
      from the third. */
  function GeneIdsListForIntersections(s1: seq<string>, s2: seq<string>, s3: seq<string>): (d: map<string, seq<string>>)
    ensures d.Keys == Codes3
  {
    map[
      "100" := Keep(s1, s2, false, s3, false),
      "110" := Keep(s1, s2, true, s3, false),
      "101" := Keep(s1, s2, false, s3, true),
      "111" := Keep(s1, s2, true, s3, true),
      "010" := Keep(s2, s1, false, s3, false),
      "011" := Keep(s2, s1, false, s3, true),
      "001" := Keep(s3, s1, false, s2, false)]
  }

  /** The list a region draws from: the first list whose bit is '1'. */
  function SourceList(c: string, s1: seq<string>, s2: seq<string>, s3: seq<string>): seq<string>
    requires |c| == 3
  {
    if c[0] == '1' then s1 else if c[1] == '1' then s2 else s3
  }

  /** The membership code of `x` over three lists. */
  function ListCode(x: string, s1: seq<string>, s2: seq<string>, s3: seq<string>): string
  {
    MembershipCode(x, [Elems(s1), Elems(s2), Elems(s3)])
  }

  lemma ListCodeIs(x: string, s1: seq<string>, s2: seq<string>, s3: seq<string>, c: string)
    requires c in Codes3
    ensures ListCode(x, s1, s2, s3) == c <==> (x in s1 <==> c[0] == '1') && (x in s2 <==> c[1] == '1') && (x in s3 <==> c[2] == '1')
  {
    var m := ListCode(x, s1, s2, s3);
    var sets := [Elems(s1), Elems(s2), Elems(s3)];
    assert sets[0] == Elems(s1) && sets[1] == Elems(s2) && sets[2] == Elems(s3);
    assert |m| == 3 && |c| == 3;
    if (x in s1 <==> c[0] == '1') && (x in s2 <==> c[1] == '1') && (x in s3 <==> c[2] == '1') {
      assert c[0] == '0' || c[0] == '1';
      assert c[1] == '0' || c[1] == '1';
      assert c[2] == '0' || c[2] == '1';
      assert m == c;
    }
  }

  /** The list of code `c` drawn from its source: the first list whose bit is '1',
      filtered by membership in the other two. */
  function ListOf(c: string, s1: seq<string>, s2: seq<string>, s3: seq<string>): seq<string>
    requires |c| == 3
  {
    if c[0] == '1' then Keep(s1, s2, c[1] == '1', s3, c[2] == '1')
    else if c[1] == '1' then Keep(s2, s1, false, s3, c[2] == '1')
    else Keep(s3, s1, false, s2, false)
  }

  /** Lookups in a dictionary of the seven codes. */
  lemma SevenEntries<T>(a: T, b: T, c: T, d: T, e: T, f: T, g: T)
    ensures var m := map["100" := a, "110" := b, "101" := c, "111" := d, "010" := e, "011" := f, "001" := g];
      m["100"] == a && m["110"] == b && m["101"] == c && m["111"] == d && m["010"] == e && m["011"] == f && m["001"] == g
  {
  }

  /** Every entry of the dictionary is the list of its code. */
  lemma ListIsListOf(s1: seq<string>, s2: seq<string>, s3: seq<string>, c: string)
    requires c in Codes3
    ensures GeneIdsListForIntersections(s1, s2, s3)[c] == ListOf(c, s1, s2, s3)
  {
    SevenEntries(Keep(s1, s2, false, s3, false), Keep(s1, s2, true, s3, false), Keep(s1, s2, false, s3, true),
                 Keep(s1, s2, true, s3, true), Keep(s2, s1, false, s3, false), Keep(s2, s1, false, s3, true),
                 Keep(s3, s1, false, s2, false));
  }

  /** The list of code `c`, with the lists it reads. */
  lemma ListAt(s1: seq<string>, s2: seq<string>, s3: seq<string>, c: string, x: string)
    requires c in Codes3
    ensures var l := GeneIdsListForIntersections(s1, s2, s3)[c];
      && IsSubsequence(l, SourceList(c, s1, s2, s3))
      && Count(l, x) == (if ListCode(x, s1, s2, s3) == c then Count(SourceList(c, s1, s2, s3), x) else 0)
      && (x in l <==> x in SourceList(c, s1, s2, s3) && ListCode(x, s1, s2, s3) == c)
  {
    ListCodeIs(x, s1, s2, s3, c);
    ListIsListOf(s1, s2, s3, c);
    assert c[0] == '1' || c[1] == '1' || c[2] == '1';
    if c[0] == '1' {
      KeepSpec(s1, s2, c[1] == '1', s3, c[2] == '1');
    } else if c[1] == '1' {
      KeepSpec(s2, s1, false, s3, c[2] == '1');
    } else {
      KeepSpec(s3, s1, false, s2, false);
    }
  }

  /** Each list is the subsequence of its source list made of the elements whose
      membership code is the list's code, each with its multiplicity there. */
  lemma ListsDrawFromSource(s1: seq<string>, s2: seq<string>, s3: seq<string>, c: string)
    requires c in Codes3
    ensures var d := GeneIdsListForIntersections(s1, s2, s3);
      && IsSubsequence(d[c], SourceList(c, s1, s2, s3))
      && forall x :: Count(d[c], x) == if ListCode(x, s1, s2, s3) == c then Count(SourceList(c, s1, s2, s3), x) else 0
  {
    ListAt(s1, s2, s3, c, "");
    forall x ensures Count(GeneIdsListForIntersections(s1, s2, s3)[c], x) ==
      if ListCode(x, s1, s2, s3) == c then Count(SourceList(c, s1, s2, s3), x) else 0
    {
      ListAt(s1, s2, s3, c, x);
    }
  }

  /** The lists as sets. */
  function ListRegions(d: map<string, seq<string>>): (regions: map<string, set<string>>)
    ensures regions.Keys == d.Keys
    ensures forall c :: c in d ==> regions[c] == Elems(d[c])
  {
    map c | c in d :: Elems(d[c])
  }

  /** A gene is in the list of code `c` exactly when it is in region `c` of the
      diagram. */
  lemma ListRegionMember(s1: seq<string>, s2: seq<string>, s3: seq<string>, c: string, x: string)
    requires c in Codes3
    ensures x in GeneIdsListForIntersections(s1, s2, s3)[c] <==> x in Regions3(Elems(s1), Elems(s2), Elems(s3))[c]
  {
    var sets := [Elems(s1), Elems(s2), Elems(s3)];
    ListAt(s1, s2, s3, c, x);
    ListCodeIs(x, s1, s2, s3, c);
    RegionOfCode3(Elems(s1), Elems(s2), Elems(s3), c, x);
    assert x in Region(sets, c) <==> x in UnionAll(sets) && ListCode(x, s1, s2, s3) == c;
    assert x in UnionAll(sets) <==> x in sets[0] || x in sets[1] || x in sets[2];
  }

  /** One region of the diagram, as the set of a list. */
  lemma ListRegionAt(s1: seq<string>, s2: seq<string>, s3: seq<string>, c: string)
    requires c in Codes3
    ensures Elems(GeneIdsListForIntersections(s1, s2, s3)[c]) == Regions3(Elems(s1), Elems(s2), Elems(s3))[c]
  {
    forall x ensures x in GeneIdsListForIntersections(s1, s2, s3)[c] <==> x in Regions3(Elems(s1), Elems(s2), Elems(s3))[c] {
      ListRegionMember(s1, s2, s3, c, x);
    }
  }

  /** As sets, the lists are the seven-region diagram of the three inputs, that is
      their membership-code partition. */
  lemma ListPartition(s1: seq<string>, s2: seq<string>, s3: seq<string>)
    ensures ListRegions(GeneIdsListForIntersections(s1, s2, s3)) == Regions3(Elems(s1), Elems(s2), Elems(s3))
    ensures ListRegions(GeneIdsListForIntersections(s1, s2, s3)) == Partition([Elems(s1), Elems(s2), Elems(s3)])
  {
    var l := ListRegions(GeneIdsListForIntersections(s1, s2, s3));
    var r := Regions3(Elems(s1), Elems(s2), Elems(s3));
    forall c | c in Codes3 ensures l[c] == r[c] {
      ListRegionAt(s1, s2, s3, c);
    }
    Regions3Keys(Elems(s1), Elems(s2), Elems(s3));
    Partition3(Elems(s1), Elems(s2), Elems(s3));
  }

  /** No gene is in two lists, and a gene is in some list exactly when it is in some
      input. */
  lemma ListsDisjointAndCover(s1: seq<string>, s2: seq<string>, s3: seq<string>, x: string)
    ensures var d := GeneIdsListForIntersections(s1, s2, s3);
      forall c1, c2 :: c1 in d && c2 in d && c1 != c2 ==> !(x in d[c1] && x in d[c2])
    ensures var d := GeneIdsListForIntersections(s1, s2, s3);
      (exists c :: c in d && x in d[c]) <==> x in s1 || x in s2 || x in s3
  {
    var d := GeneIdsListForIntersections(s1, s2, s3);
    var sets := [Elems(s1), Elems(s2), Elems(s3)];
    ListPartition(s1, s2, s3);
    var p := Partition(sets);
    assert forall c :: c in d ==> (x in d[c] <==> x in p[c]);
    forall c1, c2 | c1 in d && c2 in d && c1 != c2 ensures !(x in d[c1] && x in d[c2]) {
      Disjoint(sets, c1, c2);
    }
    Cover(sets, x);
    assert x in UnionAll(sets) <==> x in sets[0] || x in sets[1] || x in sets[2];
  }

  // ---------------------------------------------------------------------------
  // column_names_to_check and sort_df: the rule lists

  /** The `if/elif` chain of `column_names_to_check`, as (pattern, key) rules. */
  const CheckRules: seq<(string, string)> := [
    ("_FoldChange", "FoldChange"), ("_log2FoldChange", "log2FoldChange"), ("pvalue", "pvalue"), ("padj", "padj")]

  /** The `if/elif` chain of `sort_df`, as (pattern, group) rules. */
  const SortRules: seq<(string, nat)> := [
    ("gene_id", 0), ("_log2FoldChange", 1), ("_FoldChange", 2), ("_Regulation", 3),
    ("_pvalue", 4), ("_padj", 5), ("_chr", 6), ("_start", 6), ("_end", 6), ("_strand", 6),
    ("_length", 6), ("_biotype", 6), ("_description", 6), ("tf_family", 6)]

  /** The id column is filed under the id group, so `sort_df` always keeps it. */
  lemma GeneIdGroupRule()
    ensures FirstMatch<nat>(SortRules, GeneId) == Some(GeneIdGroup)
  {
    assert StartsWith(GeneId, SortRules[0].0);
  }

  /** The per-mutant column `{m}vsWT_{suffix}`. */
  function VsWt(m: string, suffix: string): string
  {
    m + "vsWT_" + suffix
  }

  /** A pattern whose first character the mutant name lacks and which is absent
      from the suffix is absent from the column. */
  lemma AbsentFromSuffix(p: string, m: string, suffix: string)
    requires p != [] && p[0] !in m && !IsSubstring(p, "vsWT_" + suffix)
    ensures !IsSubstring(p, VsWt(m, suffix))
  {
    assert VsWt(m, suffix) == m + ("vsWT_" + suffix);
    if IsSubstring(p, m + ("vsWT_" + suffix)) {
      StartsInSuffixHead(p, m, "vsWT_" + suffix);
    }
  }

  /** The same, when the suffix lacks the pattern's character at `k`. */
  lemma AbsentFromColumn(p: string, m: string, suffix: string, k: nat)
    requires p != [] && p[0] !in m && k < |p| && p[k] !in "vsWT_" && p[k] !in suffix
    ensures !IsSubstring(p, VsWt(m, suffix))
  {
    assert p[k] !in "vsWT_" + suffix;
    AbsentChar(p, "vsWT_" + suffix, k);
    AbsentFromSuffix(p, m, suffix);
  }

  /** A pattern "_x..." is absent from a column whose mutant name and suffix hold no
      '_' and whose suffix does not start with "x": the only '_' is the one before
      the suffix. */
  lemma AbsentUnderscorePair(p: string, m: string, suffix: string)
    requires |p| >= 2 && p[0] == '_' && '_' !in m && '_' !in suffix
    requires suffix != [] && suffix[0] != p[1]
    ensures !IsSubstring(p, VsWt(m, suffix))
  {
    var w := "vsWT_" + suffix;
    forall i | 0 <= i < |w| - 1 ensures !(w[i] == p[0] && w[i + 1] == p[1]) {
      if i < 4 {
        assert w[i] == "vsWT_"[i];
      } else if i > 4 {
        assert w[i] == suffix[i - 5];
      }
    }
    AbsentPair(p, w);
    AbsentFromSuffix(p, m, suffix);
  }

  /** The suffix itself, and the suffix with the '_' before it, occur in the
      column. */
  lemma SuffixIn(m: string, suffix: string)
    ensures IsSubstring(suffix, VsWt(m, suffix))
    ensures IsSubstring("_" + suffix, VsWt(m, suffix))
  {
    var n := VsWt(m, suffix);
    assert n[|m| + 5..|m| + 5 + |suffix|] == suffix;
    SubstringAt(suffix, n, |m| + 5);
    assert n[|m| + 4..|m| + 4 + |"_" + suffix|] == "_" + suffix;
    SubstringAt("_" + suffix, n, |m| + 4);
  }

  /** The four tests of `column_names_to_check`, in their order. */
  lemma CheckRulesChain(name: string)
    ensures FirstMatch(CheckRules, name) ==
      if IsSubstring("_FoldChange", name) then Some("FoldChange")
      else if IsSubstring("_log2FoldChange", name) then Some("log2FoldChange")
      else if IsSubstring("pvalue", name) then Some("pvalue")
      else if IsSubstring("padj", name) then Some("padj")
      else None
  {
    var r3: seq<(string, string)> := [("padj", "padj")];
    var r2 := [("pvalue", "pvalue")] + r3;
    var r1 := [("_log2FoldChange", "log2FoldChange")] + r2;
    assert CheckRules == [("_FoldChange", "FoldChange")] + r1;
    assert r3[1..] == [];
    assert FirstMatch(r3, name) == if IsSubstring("padj", name) then Some("padj") else None;
    assert r2[0].0 == "pvalue" && r2[1..] == r3;
    assert FirstMatch(r2, name) == if IsSubstring("pvalue", name) then Some("pvalue") else FirstMatch(r3, name);
    assert r1[0].0 == "_log2FoldChange" && r1[1..] == r2;
    assert FirstMatch(r1, name) == if IsSubstring("_log2FoldChange", name) then Some("log2FoldChange") else FirstMatch(r2, name);
    assert CheckRules[0].0 == "_FoldChange" && CheckRules[1..] == r1;
  }

  /** Mutant names such as "DM1" hold no lower-case letter, so no 'p', and no '_'. */
  lemma MutantNameChars(m: string)
    requires NoLowercase(m) && '_' !in m
    ensures '_' !in m && 'p' !in m
  {
  }

  /** For a mutant name without '_', the FoldChange column is filed under
      "FoldChange". */
  lemma FoldChangeColumnFiled(m: string)
    requires '_' !in m
    ensures FirstMatch(CheckRules, VsWt(m, "FoldChange")) == Some("FoldChange")
  {
    CheckRulesChain(VsWt(m, "FoldChange"));
    SuffixIn(m, "FoldChange");
    assert "_" + "FoldChange" == "_FoldChange";
  }

  /** The log2 column holds "_log2FoldChange" but not "_FoldChange": its only '_'
      is followed by 'l'. */
  lemma Log2ColumnPatterns(m: string)
    requires '_' !in m
    ensures !IsSubstring("_FoldChange", VsWt(m, "log2FoldChange"))
    ensures IsSubstring("_log2FoldChange", VsWt(m, "log2FoldChange"))
  {
    AbsentUnderscorePair("_FoldChange", m, "log2FoldChange");
    SuffixIn(m, "log2FoldChange");
    assert "_" + "log2FoldChange" == "_log2FoldChange";
  }

  /** The log2 column is filed under "log2FoldChange" although "_FoldChange" is
      checked first. */
  lemma Log2ColumnFiled(m: string)
    requires '_' !in m
    ensures FirstMatch(CheckRules, VsWt(m, "log2FoldChange")) == Some("log2FoldChange")
  {
    CheckRulesChain(VsWt(m, "log2FoldChange"));
    Log2ColumnPatterns(m);
  }

  /** The pvalue column is filed under "pvalue" ('F' and '2' are missing from it). */
  lemma PvalueColumnFiled(m: string)
    requires '_' !in m && 'p' !in m
    ensures FirstMatch(CheckRules, VsWt(m, "pvalue")) == Some("pvalue")
  {
    CheckRulesChain(VsWt(m, "pvalue"));
    AbsentFromColumn("_FoldChange", m, "pvalue", 1);
    AbsentFromColumn("_log2FoldChange", m, "pvalue", 4);
    SuffixIn(m, "pvalue");
  }

  /** The padj column is filed under "padj". */
  lemma PadjColumnPatterns(m: string)
    requires '_' !in m && 'p' !in m
    ensures !IsSubstring("_FoldChange", VsWt(m, "padj"))
    ensures !IsSubstring("_log2FoldChange", VsWt(m, "padj"))
    ensures !IsSubstring("pvalue", VsWt(m, "padj"))
    ensures IsSubstring("padj", VsWt(m, "padj"))
  {
    AbsentFromColumn("_FoldChange", m, "padj", 1);
    AbsentFromColumn("_log2FoldChange", m, "padj", 4);
    AbsentFromColumn("pvalue", m, "padj", 3);
    SuffixIn(m, "padj");
  }

  lemma PadjColumnFiled(m: string)
    requires '_' !in m && 'p' !in m
    ensures FirstMatch(CheckRules, VsWt(m, "padj")) == Some("padj")
  {
    CheckRulesChain(VsWt(m, "padj"));
    PadjColumnPatterns(m);
  }

  /** No pattern occurs in the Regulation column: each holds a character the
      column lacks. */
  lemma RegulationColumnPatterns(m: string)
    requires '_' !in m && 'p' !in m
    ensures !IsSubstring("_FoldChange", VsWt(m, "Regulation"))
    ensures !IsSubstring("_log2FoldChange", VsWt(m, "Regulation"))
    ensures !IsSubstring("pvalue", VsWt(m, "Regulation"))
    ensures !IsSubstring("padj", VsWt(m, "Regulation"))
  {
    AbsentFromColumn("_FoldChange", m, "Regulation", 1);
    AbsentFromColumn("_log2FoldChange", m, "Regulation", 4);
    AbsentFromColumn("pvalue", m, "Regulation", 0);
    AbsentFromColumn("padj", m, "Regulation", 0);
  }

  /** The Regulation column is filed under no key. */
  lemma RegulationColumnUnfiled(m: string)
    requires '_' !in m && 'p' !in m
    ensures FirstMatch(CheckRules, VsWt(m, "Regulation")).None?
  {
    CheckRulesChain(VsWt(m, "Regulation"));
    RegulationColumnPatterns(m);
  }

  // ---------------------------------------------------------------------------
  // filter_FC_PVALUE_PADJ with the discovered names

  /** The threshold filter on the columns the dictionary names; a key missing from
      the dictionary, or a named column missing from the table, raises `KeyError`. */
  function FilterWithNames(t: Table, fc: real, p: real, padj: real, names: map<string, string>): (r: Result<Table>)
    ensures r.Success? <==>
      && "FoldChange" in names && "pvalue" in names && "padj" in names
      && names["FoldChange"] in t.columns && names["pvalue"] in t.columns && names["padj"] in t.columns
    ensures r.Failure? ==> r.error == "KeyError"
    ensures r.Success? ==> r.value.columns == t.columns && IsSubsequence(r.value.rows, t.rows)
    ensures r.Success? ==> forall x :: x in r.value.rows <==>
      x in t.rows && PassesThresholds(x, fc, names["FoldChange"], p, names["pvalue"], padj, names["padj"])
    ensures r.Success? ==> forall x {:trigger Count(r.value.rows, x)} ::
      Count(r.value.rows, x) == if PassesThresholds(x, fc, names["FoldChange"], p, names["pvalue"], padj, names["padj"]) then Count(t.rows, x) else 0
  {
    if "FoldChange" !in names || "pvalue" !in names || "padj" !in names then Failure("KeyError")
    else FilterFcPvaluePadj(t, fc, names["FoldChange"], p, names["pvalue"], padj, names["padj"])
  }

  // ---------------------------------------------------------------------------
  // mk_df_for_each_intersection

  /** The fourteen columns selected from the filtered table of mutant `m`. */
  function MutantColumns(m: string): seq<string>
  {
    ["gene_id", VsWt(m, "log2FoldChange"), VsWt(m, "FoldChange"), VsWt(m, "Regulation"), VsWt(m, "pvalue"),
     VsWt(m, "padj"), "gene_chr", "gene_start", "gene_end", "gene_strand", "gene_length", "gene_biotype",
     "gene_description", "tf_family"]
  }

  /** `filtered_dataframes[m][columns]`: a missing mutant or a missing column raises
      `KeyError`; otherwise every row keeps the selected columns and its gene. */
  function MutantTable(filtered: map<string, Table>, m: string): (r: Result<Table>)
    ensures r.Success? <==> m in filtered && forall c :: c in MutantColumns(m) ==> c in filtered[m].columns
    ensures r.Success? ==> r.value.columns == MutantColumns(m) && |r.value.rows| == |filtered[m].rows|
    ensures r.Success? ==> forall k, c :: 0 <= k < |r.value.rows| && c in MutantColumns(m) ==>
      Get(r.value.rows[k], c) == Get(filtered[m].rows[k], c)
    ensures r.Success? ==> forall g :: HasGene(r.value.rows, g) <==> HasGene(filtered[m].rows, g)
  {
    if m !in filtered || exists c :: c in MutantColumns(m) && c !in filtered[m].columns then Failure("KeyError")
    else
      var t := filtered[m];
      var sel := Select(t, MutantColumns(m));
      assert forall g :: HasGene(sel.rows, g) <==> HasGene(t.rows, g) by {
        forall g ensures HasGene(sel.rows, g) <==> HasGene(t.rows, g) {
          SortedRegionGenes(t, MutantColumns(m), sel.rows, g);
        }
      }
      Success(sel)
  }

  /** One pass of the loop over the dictionary: the region's list of ids, merged and
      sorted. */
  method OneRegion(rules: seq<(string, nat)>, lists: map<string, seq<string>>, ghost regions: map<string, set<string>>,
                   code: string, m1: Table, m2: Table, m3: Table)
    returns (df: Table)
    requires |code| == 3 && code in lists && code in regions && regions[code] == Elems(lists[code])
    requires FirstMatch<nat>(rules, GeneId) == Some(GeneIdGroup)
    ensures RegionTableOk(df, code, regions, SortedColumnNames(rules, MergedColumns(code, m1.columns, m2.columns, m3.columns)),
                          rules, lists[code], m1, m2, m3)
  {
    df := RegionTable(rules, lists[code], code, m1, m2, m3);
    AssembleColumns(lists[code], code, m1, m2, m3);
  }

  /** The codes in the order of the dictionary built by the partition. */
  const KeyOrder: seq<string> := ["100", "110", "101", "111", "010", "011", "001"]

  lemma KeyOrderCodes()
    ensures forall i :: 0 <= i < |KeyOrder| ==> |KeyOrder[i]| == 3 && KeyOrder[i] in Codes3
    ensures forall c :: c in KeyOrder <==> c in Codes3
  {
  }

  /** The loop of `mk_df_for_each_intersection` over the codes of the dictionary;
      `cols` gives the expected columns of each code. */
  method RegionTablesOf(rules: seq<(string, nat)>, keys: seq<string>, lists: map<string, seq<string>>,
                        ghost cols: map<string, seq<string>>, m1: Table, m2: Table, m3: Table)
    returns (out: map<string, Table>)
    requires FirstMatch<nat>(rules, GeneId) == Some(GeneIdGroup)
    requires forall i :: 0 <= i < |keys| ==> |keys[i]| == 3 && keys[i] in lists && keys[i] in cols
    requires forall i :: 0 <= i < |keys| ==>
      cols[keys[i]] == SortedColumnNames(rules, MergedColumns(keys[i], m1.columns, m2.columns, m3.columns))
    ensures forall k :: k in out <==> k in keys
    ensures AllRegionsOk(out, ListRegions(lists), cols, rules, lists, m1, m2, m3)
  {
    ghost var regions := ListRegions(lists);
    out := map[];
    for i := 0 to |keys|
      invariant forall k :: k in out <==> k in keys[..i]
      invariant AllRegionsOk(out, regions, cols, rules, lists, m1, m2, m3)
    {
      var code := keys[i];
      var df := OneRegion(rules, lists, regions, code, m1, m2, m3);
      AllRegionsOkUpdate(out, regions, cols, rules, lists, m1, m2, m3, code, df, lists[code]);
      assert lists[code := lists[code]] == lists;
      out := out[code := df];
      forall k ensures k in keys[..i + 1] <==> k in keys[..i] || k == code {
        PrefixSnoc(keys, i, k);
      }
    }
    assert keys[..|keys|] == keys;
  }

  /** `mk_df_for_each_intersection`, with the table of each region returned by code
      instead of written to files: each region table holds exactly the region's genes
      that every bit-1 mutant table holds. */
  method MkDfForEachIntersection(n1: string, s1: seq<string>, n2: string, s2: seq<string>, n3: string, s3: seq<string>,
                                 filtered: map<string, Table>)
    returns (r: Result<map<string, Table>>)
    ensures r.Success? <==> MutantTable(filtered, n1).Success? && MutantTable(filtered, n2).Success? && MutantTable(filtered, n3).Success?
    ensures r.Failure? ==> r.error == "KeyError"
    ensures r.Success? ==> r.value.Keys == Codes3
    ensures r.Success? ==>
      var m1, m2, m3 := MutantTable(filtered, n1).value, MutantTable(filtered, n2).value, MutantTable(filtered, n3).value;
      AllRegionsOk(r.value, Regions3(Elems(s1), Elems(s2), Elems(s3)), RegionColumns(SortRules, m1, m2, m3),
                   SortRules, GeneIdsListForIntersections(s1, s2, s3), m1, m2, m3)
  {
    var d := GeneIdsListForIntersections(s1, s2, s3);
    var t1 := MutantTable(filtered, n1);
    var t2 := MutantTable(filtered, n2);
    var t3 := MutantTable(filtered, n3);
    if t1.Failure? || t2.Failure? || t3.Failure? {
      return Failure("KeyError");
    }
    var m1, m2, m3 := t1.value, t2.value, t3.value;
    var out := AllRegionTables(d, m1, m2, m3);
    ListPartition(s1, s2, s3);
    r := Success(out);
  }

  /** The tables of all seven regions of the dictionary of lists. */
  method AllRegionTables(lists: map<string, seq<string>>, m1: Table, m2: Table, m3: Table)
    returns (out: map<string, Table>)
    requires lists.Keys == Codes3
    ensures out.Keys == Codes3
    ensures AllRegionsOk(out, ListRegions(lists), RegionColumns(SortRules, m1, m2, m3), SortRules, lists, m1, m2, m3)
  {
    GeneIdGroupRule();
    KeyOrderCodes();
    RegionColumnsAtKeys(SortRules, KeyOrder, m1, m2, m3);
    out := RegionTablesOf(SortRules, KeyOrder, lists, RegionColumns(SortRules, m1, m2, m3), m1, m2, m3);
    KeysOfCodeOrder(KeyOrder, out);
  }

  // ---------------------------------------------------------------------------
  // get_inverted_regulations_and_mk_venns_and_dataframes

  /** One mutant's entry of `sets_dictionary`: its regulation keys in insertion order
      and the gene list under each. */
  datatype RegSets = RegSets(keys: seq<string>, sets: map<string, seq<string>>)

  /** What one pass hands to the Venn diagram and to `mk_df_for_each_intersection`,
      in argument order: the file name, the three gene lists, their Venn labels and
      the mutant names. */
  datatype Call = Call(name: string, sets: seq<seq<string>>, labels: seq<string>, mutants: seq<string>)

  /** The regulation of the two others: "Down" when the pivot is "Up", else "Up". */
  function OthersReg(reg: string): string
  {
    if reg == "Up" then "Down" else "Up"
  }

  /** The regulation the pass with pivot `i` and key `reg` gives position `k`. */
  function RegAt(i: nat, reg: string, k: nat): string
  {
    if k == i then reg else OthersReg(reg)
  }

  function InvertedName(m: string, reg: string): string
  {
    if reg == "Up" then m + "_up_others_down" else m + "_down_others_up"
  }

  /** The label of mutant `m`: an up arrow when the pass gives it "Up", else a down
      arrow. */
  function Label(reg: string, m: string): string
  {
    (if reg == "Up" then UpArrow else DownArrow) + m
  }

  /** The call of the pass with pivot `i` and key `reg` for three distinct mutants,
      with position `k` carrying mutant `k`; `None` when a list is missing. */
  function ExpectedCall(sd: map<string, RegSets>, mutants: seq<string>, i: nat, reg: string): Option<Call>
    requires |mutants| == 3 && i < 3
  {
    if forall k :: 0 <= k < 3 ==> mutants[k] in sd && RegAt(i, reg, k) in sd[mutants[k]].sets then
      Some(Call(
        InvertedName(mutants[i], reg),
        seq(3, k requires 0 <= k < 3 => sd[mutants[k]].sets[RegAt(i, reg, k)]),
        seq(3, k requires 0 <= k < 3 => Label(RegAt(i, reg, k), mutants[k])),
        mutants))
    else None
  }

  /** The keys of a pivot's entry other than "DEG", in order. */
  function NonDeg(regs: seq<string>): (r: seq<string>)
    ensures forall x :: x in r <==> x in regs && x != "DEG"
  {
    if regs == [] then []
    else
      var init := regs[..|regs| - 1];
      assert regs == init + [regs[|regs| - 1]];
      NonDeg(init) + (if regs[|regs| - 1] == "DEG" then [] else [regs[|regs| - 1]])
  }

  /** The calls of pivot `i` over the keys `regs`, as the inner loop produces them. */
  function PivotCalls(sd: map<string, RegSets>, mutants: seq<string>, i: nat, regs: seq<string>): Result<seq<Call>>
    requires |mutants| == 3 && i < 3
    decreases |regs|
  {
    if regs == [] then Success([])
    else
      match PivotCalls(sd, mutants, i, regs[..|regs| - 1])
      case Failure(e) => Failure(e)
      case Success(calls) =>
        var reg := regs[|regs| - 1];
        if reg == "DEG" then Success(calls)
        else if ExpectedCall(sd, mutants, i, reg).Some? then Success(calls + [ExpectedCall(sd, mutants, i, reg).value])
        else Failure("KeyError")
  }

  /** The calls of pivots 0 to `n - 1`, in turn. */
  function AllCalls(sd: map<string, RegSets>, mutants: seq<string>, n: nat): Result<seq<Call>>
    requires |mutants| == 3 && n <= 3
  {
    if n == 0 then Success([])
    else
      match AllCalls(sd, mutants, n - 1)
      case Failure(e) => Failure(e)
      case Success(calls) =>
        if mutants[n - 1] !in sd then Failure("KeyError")
        else
          match PivotCalls(sd, mutants, n - 1, sd[mutants[n - 1]].keys)
          case Failure(e) => Failure(e)
          case Success(more) => Success(calls + more)
  }

  /** A pivot's calls: one per non-"DEG" key, in key order, each the expected call of
      its key; they exist exactly when every expected call does. */
  lemma {:induction false} PivotCallsSpec(sd: map<string, RegSets>, mutants: seq<string>, i: nat, regs: seq<string>)
    requires |mutants| == 3 && i < 3
    ensures var r := PivotCalls(sd, mutants, i, regs);
      && (r.Success? <==> forall reg :: reg in regs && reg != "DEG" ==> ExpectedCall(sd, mutants, i, reg).Some?)
      && (r.Failure? ==> r.error == "KeyError")
      && (r.Success? ==> |r.value| == |NonDeg(regs)|)
      && (r.Success? ==> forall j :: 0 <= j < |r.value| ==> Some(r.value[j]) == ExpectedCall(sd, mutants, i, NonDeg(regs)[j]))
    decreases |regs|
  {
    if regs != [] {
      var init := regs[..|regs| - 1];
      var reg := regs[|regs| - 1];
      assert regs == init + [reg];
      PivotCallsSpec(sd, mutants, i, init);
      assert forall x :: x in regs <==> x in init || x == reg;
    }
  }

  /** A failed prefix of the keys fails the whole pivot. */
  lemma {:induction false} PivotCallsFailStays(sd: map<string, RegSets>, mutants: seq<string>, i: nat, regs: seq<string>, j: nat)
    requires |mutants| == 3 && i < 3 && j <= |regs|
    requires PivotCalls(sd, mutants, i, regs[..j]).Failure?
    ensures PivotCalls(sd, mutants, i, regs) == PivotCalls(sd, mutants, i, regs[..j])
    decreases |regs| - j
  {
    if j < |regs| {
      assert regs[..j + 1][..j] == regs[..j];
      PivotCallsFailStays(sd, mutants, i, regs, j + 1);
    } else {
      assert regs[..j] == regs;
    }
  }

  /** A failed pivot fails the whole run. */
  lemma {:induction false} AllCallsFailStays(sd: map<string, RegSets>, mutants: seq<string>, n: nat)
    requires |mutants| == 3 && n <= 3 && AllCalls(sd, mutants, n).Failure?
    ensures AllCalls(sd, mutants, 3) == AllCalls(sd, mutants, n)
    decreases 3 - n
  {
    if n < 3 {
      AllCallsFailStays(sd, mutants, n + 1);
    }
  }

  /** A successful pivot's calls are exactly the expected calls of its non-"DEG"
      keys. */
  lemma PivotCallsMembers(sd: map<string, RegSets>, mutants: seq<string>, i: nat, regs: seq<string>, c: Call)
    requires |mutants| == 3 && i < 3 && PivotCalls(sd, mutants, i, regs).Success?
    ensures c in PivotCalls(sd, mutants, i, regs).value <==>
      exists reg :: reg in regs && reg != "DEG" && ExpectedCall(sd, mutants, i, reg) == Some(c)
  {
    PivotCallsSpec(sd, mutants, i, regs);
    var more := PivotCalls(sd, mutants, i, regs).value;
    if c in more {
      var j :| 0 <= j < |more| && more[j] == c;
      assert NonDeg(regs)[j] in NonDeg(regs);
    }
    if exists reg :: reg in regs && reg != "DEG" && ExpectedCall(sd, mutants, i, reg) == Some(c) {
      var reg :| reg in regs && reg != "DEG" && ExpectedCall(sd, mutants, i, reg) == Some(c);
      var j :| 0 <= j < |NonDeg(regs)| && NonDeg(regs)[j] == reg;
      assert more[j] == c;
    }
  }

  /** The expected calls of pivots below `n`. */
  ghost predicate ExpectedBelow(sd: map<string, RegSets>, mutants: seq<string>, n: nat, c: Call)
    requires |mutants| == 3 && n <= 3
  {
    exists i, reg :: 0 <= i < n && mutants[i] in sd && reg in sd[mutants[i]].keys && reg != "DEG"
                     && ExpectedCall(sd, mutants, i, reg) == Some(c)
  }

  /** The run succeeds exactly when every expected call exists, and then its calls are
      exactly the expected calls of the pivots' non-"DEG" keys. */
  lemma {:induction false} AllCallsSpec(sd: map<string, RegSets>, mutants: seq<string>, n: nat)
    requires |mutants| == 3 && n <= 3
    ensures var r := AllCalls(sd, mutants, n);
      && (r.Success? <==> forall i :: 0 <= i < n ==>
            mutants[i] in sd && forall reg :: reg in sd[mutants[i]].keys && reg != "DEG" ==> ExpectedCall(sd, mutants, i, reg).Some?)
      && (r.Failure? ==> r.error == "KeyError")
      && (r.Success? ==> forall c :: c in r.value <==> ExpectedBelow(sd, mutants, n, c))
    decreases n
  {
    if n > 0 {
      AllCallsSpec(sd, mutants, n - 1);
      var prev := AllCalls(sd, mutants, n - 1);
      var i := n - 1;
      if prev.Success? && mutants[i] in sd {
        var regs := sd[mutants[i]].keys;
        PivotCallsSpec(sd, mutants, i, regs);
        var more := PivotCalls(sd, mutants, i, regs);
        if more.Success? {
          forall c ensures c in prev.value + more.value <==> ExpectedBelow(sd, mutants, n, c) {
            PivotCallsMembers(sd, mutants, i, regs, c);
            if ExpectedBelow(sd, mutants, n, c) {
              var i', reg :| 0 <= i' < n && mutants[i'] in sd && reg in sd[mutants[i']].keys && reg != "DEG"
                             && ExpectedCall(sd, mutants, i', reg) == Some(c);
              if i' < n - 1 {
                assert ExpectedBelow(sd, mutants, n - 1, c);
              }
            }
          }
        }
      }
    }
  }

  /** A missing list at position `k` leaves the pass without a call. */
  lemma MissingList(sd: map<string, RegSets>, mutants: seq<string>, i: nat, reg: string, k: nat)
    requires |mutants| == 3 && i < 3 && k < 3
    requires !(mutants[k] in sd && RegAt(i, reg, k) in sd[mutants[k]].sets)
    ensures ExpectedCall(sd, mutants, i, reg) == None
  {
  }

  /** Rearranging the lists gathered as pivot, first other, second other by an order
      that puts mutant `k` at position `k` gives the expected call. */
  lemma PassIsExpected(sd: map<string, RegSets>, mutants: seq<string>, i: nat, reg: string, name: string,
                       muts: seq<string>, regulations: seq<seq<string>>, labels: seq<string>, ord: seq<nat>)
    requires |mutants| == 3 && i < 3 && |muts| == 3 && |regulations| == 3 && |labels| == 3 && |ord| == 3
    requires name == InvertedName(mutants[i], reg)
    requires forall k :: 0 <= k < 3 ==> ord[k] < 3 && muts[ord[k]] == mutants[k] && (ord[k] == 0 <==> k == i)
    requires muts[0] in sd && reg in sd[muts[0]].sets
    requires regulations[0] == sd[muts[0]].sets[reg] && labels[0] == Label(reg, muts[0])
    requires forall j :: 1 <= j < 3 ==>
      && muts[j] in sd && OthersReg(reg) in sd[muts[j]].sets
      && regulations[j] == sd[muts[j]].sets[OthersReg(reg)] && labels[j] == Label(OthersReg(reg), muts[j])
    ensures ExpectedCall(sd, mutants, i, reg) == Some(Call(name,
      [regulations[ord[0]], regulations[ord[1]], regulations[ord[2]]],
      [labels[ord[0]], labels[ord[1]], labels[ord[2]]],
      [muts[ord[0]], muts[ord[1]], muts[ord[2]]]))
  {
    forall k | 0 <= k < 3
      ensures mutants[k] in sd && RegAt(i, reg, k) in sd[mutants[k]].sets
      ensures regulations[ord[k]] == sd[mutants[k]].sets[RegAt(i, reg, k)]
      ensures labels[ord[k]] == Label(RegAt(i, reg, k), mutants[k])
    {
      if ord[k] != 0 {
        assert 1 <= ord[k] < 3;
      }
    }
    var e := ExpectedCall(sd, mutants, i, reg);
    assert e.Some?;
    assert e.value.sets == [regulations[ord[0]], regulations[ord[1]], regulations[ord[2]]];
    assert e.value.labels == [labels[ord[0]], labels[ord[1]], labels[ord[2]]];
    assert mutants == [muts[ord[0]], muts[ord[1]], muts[ord[2]]];
  }

  /** One pass: pivot `mutants[i]` with key `reg`. The three lists and labels are
      gathered in the order pivot, first other, second other, then rearranged by the
      pivot's index for the calls; pivots past the third make no call. */
  method InvertedPass(sd: map<string, RegSets>, mutants: seq<string>, i: nat, reg: string)
    returns (r: Result<seq<Call>>)
    requires i < |mutants| && mutants[i] in sd
    ensures |mutants| == 3 && Distinct(mutants) ==>
      r == if ExpectedCall(sd, mutants, i, reg).Some? then Success([ExpectedCall(sd, mutants, i, reg).value]) else Failure("KeyError")
  {
    ghost var three := |mutants| == 3 && Distinct(mutants);
    var mutant1 := mutants[i];
    if reg !in sd[mutant1].sets {
      if three { MissingList(sd, mutants, i, reg, i); }
      return Failure("KeyError");
    }
    var reg1 := sd[mutant1].sets[reg];
    var others := Others(mutants, mutant1);
    if three { OthersOfThree(mutants, i); }
    if |others| < 2 {
      return Failure("IndexError");
    }
    var mutant2, mutant3 := others[0], others[1];
    ghost var k2, k3 := if i == 0 then 1 else 0, if i == 2 then 1 else 2;
    var label1, label2, label3, name;
    var reg2, reg3;
    if reg == "Up" {
      label1 := UpArrow + mutant1;
      if mutant2 !in sd || "Down" !in sd[mutant2].sets {
        if three { MissingList(sd, mutants, i, reg, k2); }
        return Failure("KeyError");
      }
      reg2 := sd[mutant2].sets["Down"];
      label2 := DownArrow + mutant2;
      if mutant3 !in sd || "Down" !in sd[mutant3].sets {
        if three { MissingList(sd, mutants, i, reg, k3); }
        return Failure("KeyError");
      }
      reg3 := sd[mutant3].sets["Down"];
      label3 := DownArrow + mutant3;
      name := mutant1 + "_up_others_down";
    } else {
      label1 := DownArrow + mutant1;
      if mutant2 !in sd || "Up" !in sd[mutant2].sets {
        if three { MissingList(sd, mutants, i, reg, k2); }
        return Failure("KeyError");
      }
      reg2 := sd[mutant2].sets["Up"];
      label2 := UpArrow + mutant2;
      if mutant3 !in sd || "Up" !in sd[mutant3].sets {
        if three { MissingList(sd, mutants, i, reg, k3); }
        return Failure("KeyError");
      }
      reg3 := sd[mutant3].sets["Up"];
      label3 := UpArrow + mutant3;
      name := mutant1 + "_down_others_up";
    }
    var muts := [mutant1, mutant2, mutant3];
    var regulations := [reg1, reg2, reg3];
    var labels := [label1, label2, label3];
    if i == 0 {
      r := Success([Call(name, [regulations[0], regulations[1], regulations[2]], [labels[0], labels[1], labels[2]],
                         [muts[0], muts[1], muts[2]])]);
      if three { PassIsExpected(sd, mutants, i, reg, name, muts, regulations, labels, [0, 1, 2]); }
    } else if i == 1 {
      r := Success([Call(name, [regulations[1], regulations[0], regulations[2]], [labels[1], labels[0], labels[2]],
                         [muts[1], muts[0], muts[2]])]);
      if three { PassIsExpected(sd, mutants, i, reg, name, muts, regulations, labels, [1, 0, 2]); }
    } else if i == 2 {
      r := Success([Call(name, [regulations[1], regulations[2], regulations[0]], [labels[1], labels[2], labels[0]],
                         [muts[1], muts[2], muts[0]])]);
      if three { PassIsExpected(sd, mutants, i, reg, name, muts, regulations, labels, [1, 2, 0]); }
    } else {
      r := Success([]);
    }
  }

  /** The inner loop over the keys of the pivot's entry, skipping "DEG". */
  method PivotPasses(sd: map<string, RegSets>, mutants: seq<string>, i: nat) returns (r: Result<seq<Call>>)
    requires i < |mutants| && mutants[i] in sd
    ensures |mutants| == 3 && Distinct(mutants) ==> r == PivotCalls(sd, mutants, i, sd[mutants[i]].keys)
  {
    ghost var three := |mutants| == 3 && Distinct(mutants);
    var regs := sd[mutants[i]].keys;
    var out: seq<Call> := [];
    for j := 0 to |regs|
      invariant three ==> PivotCalls(sd, mutants, i, regs[..j]) == Success(out)
    {
      var reg := regs[j];
      assert regs[..j + 1][..j] == regs[..j] && regs[..j + 1][j] == reg;
      if reg != "DEG" {
        var c := InvertedPass(sd, mutants, i, reg);
        if c.Failure? {
          if three { PivotCallsFailStays(sd, mutants, i, regs, j + 1); }
          return Failure(c.error);
        }
        out := out + c.value;
      }
    }
    assert regs[..|regs|] == regs;
    r := Success(out);
  }

  /** `get_inverted_regulations_and_mk_venns_and_dataframes`: every mutant in turn is
      the pivot, once per non-"DEG" key of its entry. No Venn diagram is drawn and no
      `mk_df_for_each_intersection` call is made: the method returns the call each pass
      would make, in pass order. For three distinct mutants the result is `AllCalls`,
      whose calls carry mutant `k` at position `k` (see `AllCallsSpec`). */
  method InvertedRegulations(sd: map<string, RegSets>, mutants: seq<string>) returns (r: Result<seq<Call>>)
    ensures mutants == [] ==> r == Success([])
    ensures |mutants| == 3 && Distinct(mutants) ==> r == AllCalls(sd, mutants, 3)
  {
    ghost var three := |mutants| == 3 && Distinct(mutants);
    var out: seq<Call> := [];
    for i := 0 to |mutants|
      invariant three ==> AllCalls(sd, mutants, i) == Success(out)
      invariant mutants == [] ==> out == []
    {
      if mutants[i] !in sd {
        if three { AllCallsFailStays(sd, mutants, i + 1); }
        return Failure("KeyError");
      }
      var more := PivotPasses(sd, mutants, i);
      if more.Failure? {
        if three { AllCallsFailStays(sd, mutants, i + 1); }
        return Failure(more.error);
      }
      out := out + more.value;
    }
    r := Success(out);
  }

  /** Two passes write to the same files exactly when they have the same pivot and
      both or neither key is "Up": two keys other than "Up" share a name. */
  lemma InvertedNamesEqual(m1: string, r1: string, m2: string, r2: string)
    ensures InvertedName(m1, r1) == InvertedName(m2, r2) <==> m1 == m2 && (r1 == "Up" <==> r2 == "Up")
  {
    var n1, n2 := InvertedName(m1, r1), InvertedName(m2, r2);
    if (r1 == "Up") == (r2 == "Up") {
      SuffixCancel(m1, m2, if r1 == "Up" then "_up_others_down" else "_down_others_up");
    } else {
      assert n1[|n1| - 1] != n2[|n2| - 1];
    }
  }
}
