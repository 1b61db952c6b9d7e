/** dgeapy/filter_dataframe.py: the three-set partition built with set `.add` in
    three loops, the column rules of `column_names_to_check` and `sort_df`, the
    mutant tables merged into each region table, and the enumeration of inverted
    regulations. */
module DgeapyFilter {
  import opened Wrappers
  import opened Tables
  import opened Partitions
  import opened ColumnRules
  import opened RegionTables

  // ---------------------------------------------------------------------------
  // get_gene_ids_set_for_intersections

  /** The dictionary after the first loop has filed the genes of `done` (part of set 1). */
  predicate AfterFirstLoop(d: map<string, set<string>>, done: set<string>, s2: set<string>, s3: set<string>)
  {
    && d.Keys == Codes3
    && d["100"] == done - s2 - s3 && d["110"] == (done * s2) - s3
    && d["101"] == (done * s3) - s2 && d["111"] == done * s2 * s3
    && d["010"] == {} && d["001"] == {} && d["011"] == {}
  }

  /** After the second loop has filed the genes of `done` (part of set 2). */
  predicate AfterSecondLoop(d: map<string, set<string>>, s1: set<string>, s2: set<string>, done: set<string>, s3: set<string>)
  {
    && d.Keys == Codes3
    && d["100"] == s1 - s2 - s3 && d["110"] == (s1 * s2) - s3
    && d["101"] == (s1 * s3) - s2 && d["111"] == s1 * s2 * s3
    && d["010"] == done - s1 - s3 && d["011"] == (done * s3) - s1 && d["001"] == {}
  }

  /** `get_gene_ids_set_for_intersections`: all seven keys present from the start, the
      genes of set 1 filed by their membership in sets 2 and 3, then the genes of set 2
      that are not in set 1, then the genes of set 3 in neither. The result is the
      seven-region diagram, that is the general membership-code partition of the
      three sets. */
  method GeneIdsSetForIntersections(s1: set<string>, s2: set<string>, s3: set<string>)
    returns (d: map<string, set<string>>)
    ensures d == Regions3(s1, s2, s3)
    ensures d == Partition([s1, s2, s3])
  {
    d := map["100" := {}, "010" := {}, "001" := {}, "110" := {}, "101" := {}, "011" := {}, "111" := {}];
    assert AfterFirstLoop(d, {}, s2, s3);
    d := FileFirstSet(d, s1, s2, s3);
    d := FileSecondSet(d, s1, s2, s3);
    d := FileThirdSet(d, s1, s2, s3);
    Partition3(s1, s2, s3);
  }

  /** The first loop: each gene of set 1 goes to 111, 110, 101 or 100. */
  method FileFirstSet(d0: map<string, set<string>>, s1: set<string>, s2: set<string>, s3: set<string>)
    returns (d: map<string, set<string>>)
    requires AfterFirstLoop(d0, {}, s2, s3)
    ensures AfterSecondLoop(d, s1, s2, {}, s3)
  {
    d := d0;
    var todo := s1;
    while todo != {}
      invariant todo <= s1 && AfterFirstLoop(d, s1 - todo, s2, s3)
      decreases todo
    {
      var gene :| gene in todo;
      if gene in s2 && gene in s3 {
        d := d["111" := d["111"] + {gene}];
      } else if gene in s2 && gene !in s3 {
        d := d["110" := d["110"] + {gene}];
      } else if gene !in s2 && gene in s3 {
        d := d["101" := d["101"] + {gene}];
      } else if gene !in s2 && gene !in s3 {
        d := d["100" := d["100"] + {gene}];
      }
      todo := todo - {gene};
    }
    assert s1 - todo == s1;
  }

  /** The second loop: each gene of set 2 outside set 1 goes to 011 or 010. */
  method FileSecondSet(d0: map<string, set<string>>, s1: set<string>, s2: set<string>, s3: set<string>)
    returns (d: map<string, set<string>>)
    requires AfterSecondLoop(d0, s1, s2, {}, s3)
    ensures AfterSecondLoop(d, s1, s2, s2, s3)
  {
    d := d0;
    var todo := s2;
    while todo != {}
      invariant todo <= s2 && AfterSecondLoop(d, s1, s2, s2 - todo, s3)
      decreases todo
    {
      var gene :| gene in todo;
      if gene !in s1 && gene in s3 {
        d := d["011" := d["011"] + {gene}];
      } else if gene !in s1 && gene !in s3 {
        d := d["010" := d["010"] + {gene}];
      }
      todo := todo - {gene};
    }
    assert s2 - todo == s2;
  }

  /** The third loop: each gene of set 3 in neither other set goes to 001. */
  method FileThirdSet(d0: map<string, set<string>>, s1: set<string>, s2: set<string>, s3: set<string>)
    returns (d: map<string, set<string>>)
    requires AfterSecondLoop(d0, s1, s2, s2, s3)
    ensures d == Regions3(s1, s2, s3)
  {
    d := d0;
    var todo := s3;
    while todo != {}
      invariant todo <= s3 && d.Keys == Codes3
      invariant d - {"001"} == Regions3(s1, s2, s3) - {"001"}
      invariant d["001"] == (s3 - todo) - s1 - s2
      decreases todo
    {
      var gene :| gene in todo;
      if gene !in s1 && gene !in s2 {
        d := d["001" := d["001"] + {gene}];
      }
      todo := todo - {gene};
    }
    assert s3 - todo == s3;
    var r := Regions3(s1, s2, s3);
    forall k | k in d ensures k in r && d[k] == r[k] {
      if k != "001" {
        assert d[k] == (d - {"001"})[k] && r[k] == (r - {"001"})[k];
      }
    }
    assert d.Keys == r.Keys;
  }

  // ---------------------------------------------------------------------------
  // column_names_to_check and sort_df: the rule lists

  /** The `if/elif` chain of `column_names_to_check`, as (pattern, key) rules. */
  const CheckRules: seq<(string, string)> := [
    ("log2FoldChange", "log2FoldChange"), ("FoldChange", "FoldChange"),
    ("pvalue", "pvalue"), ("padj", "padj"), ("Regulation", "Regulation")]

  /** `column_names_to_check` files no column under "geneID": its keys are the
      labels of `CheckRules`. So `df_columns["geneID"]`, the merge key of the
      Sankey flows (dgeapy/sankey_diagrams.py:79), raises KeyError. */
  lemma GeneIdNeverChecked(names: seq<string>, found: map<string, string>)
    requires forall k :: k in found <==> exists a :: 0 <= a < |names| && FirstMatch(CheckRules, names[a]) == Some(k)
    ensures "geneID" !in found
  {
    if "geneID" in found {
      var a :| 0 <= a < |names| && FirstMatch(CheckRules, names[a]) == Some("geneID");
      FirstMatchSpec(CheckRules, names[a]);
    }
  }

  /** The `if/elif` chain of `sort_df`, as (pattern, group) rules. */
  const SortRules: seq<(string, nat)> := [
    ("gene_id", 0), ("log2FoldChange", 1), ("FoldChange", 2), ("Regulation", 3),
    ("pvalue", 4), ("padj", 5), ("chr", 6), ("start", 6), ("end", 6), ("strand", 6),
    ("length", 6), ("biotype", 6), ("description", 6), ("tf_family", 6)]

  /** A name containing "log2FoldChange" is filed under that key, never under
      "FoldChange", although it also contains "FoldChange". */
  lemma Log2NotFiledAsFoldChange(name: string)
    requires IsSubstring("log2FoldChange", name)
    ensures FirstMatch(CheckRules, name) == Some("log2FoldChange")
    ensures FirstMatch(SortRules, name) == Some(0) || FirstMatch(SortRules, name) == Some(1)
  {
    assert CheckRules[0].0 == "log2FoldChange";
    assert SortRules[1].0 == "log2FoldChange";
  }

  /** The id column is filed under the id group, so `sort_df` always keeps it. */
  lemma GeneIdGroupRule()
    ensures FirstMatch<nat>(SortRules, GeneId) == Some(GeneIdGroup)
  {
    assert StartsWith(GeneId, SortRules[0].0);
  }

  // ---------------------------------------------------------------------------
  // mk_df_for_each_intersection: the mutant tables

  /** The columns taken from each mutant's DEG table. */
  const DegColumns: seq<string> := [
    "gene_id", "log2FoldChange", "FoldChange", "Regulation", "pvalue", "padj",
    "gene_chr", "gene_start", "gene_end", "gene_strand", "gene_length", "gene_biotype",
    "gene_description", "tf_family"]

  /** The intended new name of the FoldChange column of mutant `m`. */
  function FoldChangeName(m: string): string
  {
    m + "_FoldChange"
  }

  /** The new FoldChange name as written for the mutant at position `k` (0, 1 or 2):
      the second and third mutants get the misspelt `_FoldCange`. */
  function FoldChangeNameAsWritten(m: string, k: nat): string
  {
    if k == 0 then m + "_FoldChange" else m + "_FoldCange"
  }

  /** The column names after `.rename`, with `fc` the new FoldChange name. */
  function RenamedColumns(m: string, fc: string): seq<string>
  {
    ["gene_id", m + "_log2FoldChange", fc, m + "_Regulation", m + "_pvalue", m + "_padj"] + DegColumns[6..]
  }

  function RenamedRow(r: Row, m: string, fc: string): (o: Row)
    ensures GeneId in o && o[GeneId] == Get(r, GeneId)
  {
    map[
      "gene_id" := Get(r, "gene_id"),
      "gene_chr" := Get(r, "gene_chr"), "gene_start" := Get(r, "gene_start"),
      "gene_end" := Get(r, "gene_end"), "gene_strand" := Get(r, "gene_strand"),
      "gene_length" := Get(r, "gene_length"), "gene_biotype" := Get(r, "gene_biotype"),
      "gene_description" := Get(r, "gene_description"), "tf_family" := Get(r, "tf_family"),
      m + "_log2FoldChange" := Get(r, "log2FoldChange"), fc := Get(r, "FoldChange"),
      m + "_Regulation" := Get(r, "Regulation"), m + "_pvalue" := Get(r, "pvalue"),
      m + "_padj" := Get(r, "padj")
    ][GeneId := Get(r, GeneId)]
  }

  /** `sub_dfs[m]["DEG"][columns].rename(...)`: selecting a column the table lacks
      raises `KeyError`. */
  function MutantTable(deg: Table, m: string, fc: string): (r: Result<Table>)
    ensures r.Success? <==> forall c :: c in DegColumns ==> c in deg.columns
    ensures r.Success? ==> r.value.columns == RenamedColumns(m, fc) && |r.value.rows| == |deg.rows|
    ensures r.Success? ==> forall g :: HasGene(r.value.rows, g) <==> HasGene(deg.rows, g)
  {
    if exists c :: c in DegColumns && c !in deg.columns then Failure("KeyError")
    else
      var rows := seq(|deg.rows|, k requires 0 <= k < |deg.rows| => RenamedRow(deg.rows[k], m, fc));
      assert forall g :: HasGene(rows, g) <==> HasGene(deg.rows, g) by {
        forall g ensures HasGene(rows, g) <==> HasGene(deg.rows, g) {
          if HasGene(rows, g) {
            var o :| o in rows && GeneId in o && o[GeneId] == Str(g);
            var k :| 0 <= k < |rows| && rows[k] == o;
            assert deg.rows[k] in deg.rows;
          }
          if HasGene(deg.rows, g) {
            var o :| o in deg.rows && GeneId in o && o[GeneId] == Str(g);
            var k :| 0 <= k < |deg.rows| && deg.rows[k] == o;
            assert rows[k] in rows;
          }
        }
      }
      Success(Table(RenamedColumns(m, fc), rows))
  }

  /** One pass of the loop of `mk_df_for_each_intersection`: the ids of the region as
      a list `ids`, each once, merged and sorted. */
  method OneRegion(rules: seq<(string, nat)>, regions: map<string, set<string>>, code: string, m1: Table, m2: Table, m3: Table)
    returns (df: Table, ghost ids: seq<string>)
    requires |code| == 3 && code in regions && FirstMatch<nat>(rules, GeneId) == Some(GeneIdGroup)
    ensures Distinct(ids)
    ensures RegionTableOk(df, code, regions, SortedColumnNames(rules, MergedColumns(code, m1.columns, m2.columns, m3.columns)),
                          rules, ids, m1, m2, m3)
  {
    var list := SetToList(regions[code]);
    df := RegionTable(rules, list, code, m1, m2, m3);
    AssembleColumns(list, code, m1, m2, m3);
    ids := list;
  }

  /** Every list of `ids` holds each of its ids once. */
  ghost predicate DistinctLists(ids: map<string, seq<string>>)
  {
    forall k :: k in ids ==> Distinct(ids[k])
  }

  lemma DistinctListsUpdate(ids: map<string, seq<string>>, code: string, codeIds: seq<string>)
    requires DistinctLists(ids) && Distinct(codeIds)
    ensures DistinctLists(ids[code := codeIds])
  {
  }

  /** The codes in the order of the dictionary built by the partition. */
  const KeyOrder: seq<string> := ["100", "010", "001", "110", "101", "011", "111"]

  lemma KeyOrderCodes()
    ensures forall i :: 0 <= i < |KeyOrder| ==> |KeyOrder[i]| == 3 && KeyOrder[i] in Codes3
    ensures forall c :: c in KeyOrder <==> c in Codes3
  {
  }

  /** The loop of `mk_df_for_each_intersection` over the codes of the partition;
      `cols` gives the expected columns of each code, `ids` the list each table was
      built from. */
  method RegionTablesOf(rules: seq<(string, nat)>, keys: seq<string>, d: map<string, set<string>>,
                        ghost cols: map<string, seq<string>>, m1: Table, m2: Table, m3: Table)
    returns (out: map<string, Table>, ghost ids: map<string, seq<string>>)
    requires FirstMatch<nat>(rules, GeneId) == Some(GeneIdGroup)
    requires forall i :: 0 <= i < |keys| ==> |keys[i]| == 3 && keys[i] in d && keys[i] in cols
    requires forall i :: 0 <= i < |keys| ==>
      cols[keys[i]] == SortedColumnNames(rules, MergedColumns(keys[i], m1.columns, m2.columns, m3.columns))
    ensures forall k :: k in out <==> k in keys
    ensures DistinctLists(ids)
    ensures AllRegionsOk(out, d, cols, rules, ids, m1, m2, m3)
  {
    out, ids := map[], map[];
    for i := 0 to |keys|
      invariant forall k :: k in out <==> k in keys[..i]
      invariant DistinctLists(ids)
      invariant AllRegionsOk(out, d, cols, rules, ids, m1, m2, m3)
    {
      var code := keys[i];
      var df;
      ghost var codeIds;
      df, codeIds := OneRegion(rules, d, code, m1, m2, m3);
      AllRegionsOkUpdate(out, d, cols, rules, ids, m1, m2, m3, code, df, codeIds);
      DistinctListsUpdate(ids, code, codeIds);
      out, ids := out[code := df], ids[code := codeIds];
      forall k ensures k in keys[..i + 1] <==> k in keys[..i] || k == code {
        PrefixSnoc(keys, i, k);
      }
    }
    assert keys[..|keys|] == keys;
  }

  /** The tables of all seven regions of a partition. */
  method AllRegionTables(rules: seq<(string, nat)>, d: map<string, set<string>>, m1: Table, m2: Table, m3: Table)
    returns (out: map<string, Table>, ghost ids: map<string, seq<string>>)
    requires FirstMatch<nat>(rules, GeneId) == Some(GeneIdGroup) && d.Keys == Codes3
    ensures out.Keys == Codes3
    ensures DistinctLists(ids)
    ensures AllRegionsOk(out, d, RegionColumns(rules, m1, m2, m3), rules, ids, m1, m2, m3)
  {
    KeyOrderCodes();
    RegionColumnsAtKeys(rules, KeyOrder, m1, m2, m3);
    out, ids := RegionTablesOf(rules, KeyOrder, d, RegionColumns(rules, m1, m2, m3), m1, m2, m3);
    KeysOfCodeOrder(KeyOrder, out);
  }

  /** `mk_df_for_each_intersection`, with the table of each region returned by code
      instead of written to files, and with the FoldChange rename corrected. */
  method MkDfForEachIntersection(s1: set<string>, deg1: Table, n1: string, s2: set<string>, deg2: Table, n2: string,
                                 s3: set<string>, deg3: Table, n3: string)
    returns (r: Result<map<string, Table>>)
    ensures r.Success? <==> forall c :: c in DegColumns ==> c in deg1.columns && c in deg2.columns && c in deg3.columns
    ensures r.Success? ==> r.value.Keys == Codes3
    ensures r.Success? ==>
      var m1 := MutantTable(deg1, n1, FoldChangeName(n1)).value;
      var m2 := MutantTable(deg2, n2, FoldChangeName(n2)).value;
      var m3 := MutantTable(deg3, n3, FoldChangeName(n3)).value;
      exists ids :: DistinctLists(ids)
        && AllRegionsOk(r.value, Regions3(s1, s2, s3), RegionColumns(SortRules, m1, m2, m3), SortRules, ids, m1, m2, m3)
  {
    var t1 := MutantTable(deg1, n1, FoldChangeName(n1));
    var t2 := MutantTable(deg2, n2, FoldChangeName(n2));
    var t3 := MutantTable(deg3, n3, FoldChangeName(n3));
    if t1.Failure? || t2.Failure? || t3.Failure? {
      return Failure("KeyError");
    }
    var d := GeneIdsSetForIntersections(s1, s2, s3);
    Regions3Keys(s1, s2, s3);
    GeneIdGroupRule();
    var out;
    ghost var ids;
    out, ids := AllRegionTables(SortRules, d, t1.value, t2.value, t3.value);
    r := Success(out);
  }

  // ---------------------------------------------------------------------------
  // The misspelt FoldChange rename

  /** An occurrence of `p` in `m + t` cannot start inside `m` when `p`'s second
      character is neither in `m` nor the first character of `t`. */
  lemma {:induction false} StartsInSuffix(p: string, m: string, t: string)
    requires |p| >= 2 && p[1] !in m && t != [] && t[0] != p[1]
    requires IsSubstring(p, m + t)
    ensures IsSubstring(p, t)
    decreases |m|
  {
    if m == [] {
      assert m + t == t;
    } else {
      var s := m + t;
      assert !StartsWith(s, p) by {
        if |m| >= 2 {
          assert s[1] == m[1] && m[1] in m;
        } else {
          assert s[1] == t[0];
        }
        assert |p| <= |s| ==> s[..|p|][1] == s[1];
      }
      assert s[1..] == m[1..] + t;
      assert forall c :: c in m[1..] ==> c in m;
      StartsInSuffix(p, m[1..], t);
    }
  }

  /** The second character of every `sort_df` pattern is a lower-case letter. */
  lemma SortPatternsLowercaseSecond(i: nat)
    requires i < |SortRules|
    ensures |SortRules[i].0| >= 2 && 'a' <= SortRules[i].0[1] <= 'z'
  {
  }

  /** With the misspelling no `sort_df` pattern occurs in the suffix: each pattern
      holds a character, or for "end" a pair of characters, that the suffix lacks. */
  lemma FoldCangeMatchesNoRule(i: nat)
    requires i < |SortRules|
    ensures !IsSubstring(SortRules[i].0, "_FoldCange")
  {
    if i < 7 { FoldCangeMatchesNoEarlyRule(i); } else { FoldCangeMatchesNoLateRule(i); }
  }

  lemma FoldCangeMatchesNoEarlyRule(i: nat)
    requires i < 7
    ensures !IsSubstring(SortRules[i].0, "_FoldCange")
  {
    var t := "_FoldCange";
    var p := SortRules[i].0;
    var k := [5, 3, 5, 0, 0, 0, 0][i];
    assert k < |p| && p[k] !in t;
    AbsentChar(p, t, k);
  }

  lemma FoldCangeMatchesNoLateRule(i: nat)
    requires 7 <= i < |SortRules|
    ensures !IsSubstring(SortRules[i].0, "_FoldCange")
  {
    var t := "_FoldCange";
    var p := SortRules[i].0;
    if i == 8 {
      assert p == "end";
      AbsentPair(p, t);
    } else {
      var k := [0, 0, 0, 4, 0, 2, 0][i - 7];
      assert k < |p| && p[k] !in t;
      AbsentChar(p, t, k);
    }
  }

  /** As written: the FoldChange column of the second and third mutants matches no
      `sort_df` rule, so `sort_df` drops it from every region table. */
  lemma FoldCangeDropped(m: string, k: nat, names: seq<string>)
    requires NoLowercase(m) && 1 <= k <= 2
    ensures FirstMatch(SortRules, FoldChangeNameAsWritten(m, k)).None?
    ensures FoldChangeNameAsWritten(m, k) !in SortedColumnNames(SortRules, names)
  {
    var t := "_FoldCange";
    var n := FoldChangeNameAsWritten(m, k);
    assert n == m + t;
    forall i | 0 <= i < |SortRules| ensures !IsSubstring(SortRules[i].0, n) {
      var p := SortRules[i].0;
      SortPatternsLowercaseSecond(i);
      FoldCangeMatchesNoRule(i);
      assert p[1] !in m;
      if IsSubstring(p, m + t) {
        StartsInSuffix(p, m, t);
      }
    }
    FirstMatchSpec(SortRules, n);
    SortedColumnNamesSpec(SortRules, names, n);
  }

  /** Corrected: the FoldChange column of every mutant is filed under the FoldChange
      group, so `sort_df` keeps it and sorts by the first one. */
  lemma FoldChangeKept(m: string, names: seq<string>)
    requires NoLowercase(m)
    ensures FirstMatch(SortRules, FoldChangeName(m)) == Some(FoldChangeGroup)
    ensures FoldChangeName(m) in names ==> FoldChangeName(m) in SortedColumnNames(SortRules, names)
  {
    var t := "_FoldChange";
    var n := FoldChangeName(m);
    assert n == m + t;
    forall i | 0 <= i < 2 ensures !IsSubstring(SortRules[i].0, n) {
      var p := SortRules[i].0;
      SortPatternsLowercaseSecond(i);
      if i == 0 { AbsentChar(p, t, 5); } else { AbsentChar(p, t, 3); }
      assert p[1] !in m;
      if IsSubstring(p, m + t) {
        StartsInSuffix(p, m, t);
      }
    }
    assert n[|m| + 1..|m| + 1 + |"FoldChange"|] == "FoldChange";
    SubstringAt("FoldChange", n, |m| + 1);
    assert FirstMatch(SortRules, n) == FirstMatch(SortRules[2..], n);
    SortedColumnNamesSpec(SortRules, names, n);
  }

  // ---------------------------------------------------------------------------
  // get_inverted_regulations_and_mk_venns_and_dataframes

  const Regulations: seq<string> := ["Up", "Down"]

  /** One entry of `inverted_regulation_dict`: the regulation whose set is used and
      the Venn label. */
  datatype Direction = Direction(reg: string, caption: string)

  /** What one pass hands to the Venn diagram and to `mk_df_for_each_intersection`:
      the file name, the three gene sets, their Venn labels and the mutant names. */
  datatype Composition = Composition(name: string, sets: seq<set<string>>, labels: seq<string>, mutants: seq<string>)

  function Opposite(reg: string): string
  {
    if reg == "Down" then "Up" else "Down"
  }

  /** The entry for mutant `m` going `reg`, labelled with an up or down arrow. */
  function Labelled(reg: string, m: string): Direction
  {
    Direction(reg, (if reg == "Up" then UpArrow else DownArrow) + m)
  }

  function InvertedName(m: string, reg: string): string
  {
    if reg == "Down" then m + "_Down_others_Up" else m + "_Up_others_Down"
  }

  /** The regulation the pass with pivot `i` going `reg` gives position `k`. */
  function DirectionAt(i: nat, reg: string, k: nat): string
  {
    if k == i then reg else Opposite(reg)
  }

  /** Every mutant has both an Up and a Down gene set. */
  predicate AllLookups(setsDict: map<string, map<string, set<string>>>, mutants: seq<string>)
  {
    forall k :: 0 <= k < |mutants| ==>
      mutants[k] in setsDict && "Up" in setsDict[mutants[k]] && "Down" in setsDict[mutants[k]]
  }

  /** The composition of the pass with pivot `i` going `reg` for three distinct
      mutants: position `k` holds mutant `k`'s set for `DirectionAt(i, reg, k)`, and
      `None` when that set is missing. */
  function Expected(setsDict: map<string, map<string, set<string>>>, mutants: seq<string>, i: nat, reg: string): Option<Composition>
    requires |mutants| == 3 && i < 3
  {
    if forall k :: 0 <= k < 3 ==> mutants[k] in setsDict && DirectionAt(i, reg, k) in setsDict[mutants[k]] then
      Some(Composition(
        InvertedName(mutants[i], reg),
        seq(3, k requires 0 <= k < 3 => setsDict[mutants[k]][DirectionAt(i, reg, k)]),
        seq(3, k requires 0 <= k < 3 => Labelled(DirectionAt(i, reg, k), mutants[k]).caption),
        mutants))
    else None
  }

  /** The three gene sets and labels of a pass, read through the dictionary. */
  function LookupSets(setsDict: map<string, map<string, set<string>>>, mutants: seq<string>, dict: map<string, Direction>,
                      name: string): (r: Result<Composition>)
    requires |mutants| >= 3
    ensures r.Success? <==> forall k :: 0 <= k < 3 ==>
      mutants[k] in dict && mutants[k] in setsDict && dict[mutants[k]].reg in setsDict[mutants[k]]
    ensures r.Success? ==> |r.value.sets| == 3 && |r.value.labels| == 3 && r.value.name == name && r.value.mutants == mutants[..3]
    ensures r.Success? ==> forall k :: 0 <= k < 3 ==>
      r.value.sets[k] == setsDict[mutants[k]][dict[mutants[k]].reg] && r.value.labels[k] == dict[mutants[k]].caption
  {
    if exists k :: 0 <= k < 3 && (mutants[k] !in dict || mutants[k] !in setsDict || dict[mutants[k]].reg !in setsDict[mutants[k]]) then
      Failure("KeyError")
    else
      Success(Composition(
        name,
        seq(3, k requires 0 <= k < 3 => setsDict[mutants[k]][dict[mutants[k]].reg]),
        seq(3, k requires 0 <= k < 3 => dict[mutants[k]].caption),
        mutants[..3]))
  }

  /** Reading the sets through a dictionary that holds the pass's directions gives
      the expected composition. */
  lemma LookupExpected(setsDict: map<string, map<string, set<string>>>, mutants: seq<string>, dict: map<string, Direction>,
                       i: nat, reg: string)
    requires |mutants| == 3 && i < 3
    requires forall k :: 0 <= k < 3 ==> mutants[k] in dict && dict[mutants[k]] == Labelled(DirectionAt(i, reg, k), mutants[k])
    ensures LookupSets(setsDict, mutants, dict, InvertedName(mutants[i], reg)) ==
      if Expected(setsDict, mutants, i, reg).Some? then Success(Expected(setsDict, mutants, i, reg).value) else Failure("KeyError")
  {
    var c := LookupSets(setsDict, mutants, dict, InvertedName(mutants[i], reg));
    var e := Expected(setsDict, mutants, i, reg);
    assert mutants[..3] == mutants;
    if e.Some? {
      assert c.Success?;
      assert c.value.sets == e.value.sets;
      assert c.value.labels == e.value.labels;
    } else {
      assert c.Failure?;
    }
  }

  /** The dictionary writes of one pass: the pivot gets `reg`, its first two others
      the opposite; `ok` is false when there are fewer than two others. */
  method UpdateDirections(mutants: seq<string>, dict: map<string, Direction>, i: nat, reg: string)
    returns (dict': map<string, Direction>, name: string, ok: bool)
    requires i < |mutants| && reg in Regulations
    ensures ok <==> |Others(mutants, mutants[i])| >= 2
    ensures ok ==> name == InvertedName(mutants[i], reg)
    ensures ok ==> var others := Others(mutants, mutants[i]);
      && dict' == dict[mutants[i] := Labelled(reg, mutants[i])][others[0] := Labelled(Opposite(reg), others[0])]
                      [others[1] := Labelled(Opposite(reg), others[1])]
  {
    var mut := mutants[i];
    var others := Others(mutants, mut);
    dict' := dict[mut := Labelled("Up", mut)];
    name := "";
    if |others| < 2 {
      return dict', name, false;
    }
    ok := true;
    dict' := dict'[others[0] := Labelled("Down", others[0])];
    dict' := dict'[others[1] := Labelled("Down", others[1])];
    name := mut + "_Up_others_Down";
    if reg == "Down" {
      dict' := dict'[mut := Labelled("Down", mut)];
      dict' := dict'[others[0] := Labelled("Up", others[0])];
      dict' := dict'[others[1] := Labelled("Up", others[1])];
      name := mut + "_Down_others_Up";
    }
  }

  /** One pass of the inner loop: the dictionary is updated for the pivot `mutants[i]`
      and its first two others, then the sets are looked up. */
  method InvertedPass(setsDict: map<string, map<string, set<string>>>, mutants: seq<string>, dict: map<string, Direction>,
                      i: nat, reg: string)
    returns (dict': map<string, Direction>, c: Result<Composition>)
    requires i < |mutants| && reg in Regulations
    ensures |Others(mutants, mutants[i])| < 2 || |mutants| < 3 ==> c == Failure("IndexError")
    ensures c.Success? ==> c.value.name == InvertedName(mutants[i], reg) && c.value.mutants == mutants[..3]
    ensures |mutants| == 3 && Distinct(mutants) ==>
      c == (if Expected(setsDict, mutants, i, reg).Some? then Success(Expected(setsDict, mutants, i, reg).value) else Failure("KeyError"))
  {
    var name, ok;
    dict', name, ok := UpdateDirections(mutants, dict, i, reg);
    if |mutants| == 3 && Distinct(mutants) {
      OthersOfThree(mutants, i);
    }
    if !ok || |mutants| < 3 {
      return dict', Failure("IndexError");
    }
    c := LookupSets(setsDict, mutants, dict', name);
    if |mutants| == 3 && Distinct(mutants) {
      assert forall k :: 0 <= k < 3 ==> mutants[k] in dict' && dict'[mutants[k]] == Labelled(DirectionAt(i, reg, k), mutants[k]);
      LookupExpected(setsDict, mutants, dict', i, reg);
    }
  }

  /** Passes `(0, "Up")` and `(0, "Down")` together need every set of three
      mutants. */
  lemma FirstPivotLookups(setsDict: map<string, map<string, set<string>>>, mutants: seq<string>)
    requires |mutants| == 3
    ensures Expected(setsDict, mutants, 0, "Up").Some? && Expected(setsDict, mutants, 0, "Down").Some?
      <==> AllLookups(setsDict, mutants)
  {
    if Expected(setsDict, mutants, 0, "Up").Some? && Expected(setsDict, mutants, 0, "Down").Some? {
      forall k | 0 <= k < 3 ensures mutants[k] in setsDict && "Up" in setsDict[mutants[k]] && "Down" in setsDict[mutants[k]] {
        assert DirectionAt(0, "Up", k) in setsDict[mutants[k]];
        assert DirectionAt(0, "Down", k) in setsDict[mutants[k]];
      }
    }
  }

  /** With every set present, every pass has its composition. */
  lemma AllLookupsExpected(setsDict: map<string, map<string, set<string>>>, mutants: seq<string>, i: nat, reg: string)
    requires |mutants| == 3 && i < 3 && reg in Regulations && AllLookups(setsDict, mutants)
    ensures Expected(setsDict, mutants, i, reg).Some?
  {
    forall k | 0 <= k < 3 ensures mutants[k] in setsDict && DirectionAt(i, reg, k) in setsDict[mutants[k]] {
      assert DirectionAt(i, reg, k) in Regulations;
    }
  }

  /** Pass `(i, j)` produced `c`: its name and mutants, and for three distinct
      mutants the expected composition. */
  ghost predicate PassOk(setsDict: map<string, map<string, set<string>>>, mutants: seq<string>, i: nat, j: nat, c: Composition)
    requires i < |mutants| && j < 2
  {
    && |mutants| >= 3
    && c.name == InvertedName(mutants[i], Regulations[j]) && c.mutants == mutants[..3]
    && (|mutants| == 3 && Distinct(mutants) ==> Expected(setsDict, mutants, i, Regulations[j]) == Some(c))
  }

  /** The inner loop over `("Up", "Down")` for pivot `mutants[i]`. */
  method PivotPasses(setsDict: map<string, map<string, set<string>>>, mutants: seq<string>, dict: map<string, Direction>, i: nat)
    returns (dict': map<string, Direction>, r: Result<seq<Composition>>)
    requires i < |mutants|
    ensures |mutants| < 3 ==> r == Failure("IndexError")
    ensures r.Success? ==> |r.value| == 2 && forall j :: 0 <= j < 2 ==> PassOk(setsDict, mutants, i, j, r.value[j])
    ensures |mutants| == 3 && Distinct(mutants) && r.Failure? ==> !AllLookups(setsDict, mutants) && r.error == "KeyError"
  {
    dict' := dict;
    var out: seq<Composition> := [];
    for j := 0 to 2
      invariant |out| == j
      invariant j > 0 ==> |mutants| >= 3
      invariant forall b :: 0 <= b < j ==> PassOk(setsDict, mutants, i, b, out[b])
    {
      var c;
      dict', c := InvertedPass(setsDict, mutants, dict', i, Regulations[j]);
      if c.Failure? {
        if |mutants| == 3 && Distinct(mutants) && AllLookups(setsDict, mutants) {
          AllLookupsExpected(setsDict, mutants, i, Regulations[j]);
        }
        return dict', Failure(c.error);
      }
      out := out + [c.value];
    }
    r := Success(out);
  }

  /** `get_inverted_regulations_and_mk_venns_and_dataframes`: every mutant in turn is
      the pivot, once Up and once Down, and each pass hands its composition to the
      Venn diagram and to `mk_df_for_each_intersection`; the compositions are
      returned in pass order. For three distinct mutants the run succeeds exactly
      when every mutant has both sets, and pass `2 * i + j` is the expected
      composition of pivot `i` going `Regulations[j]`. */
  method InvertedRegulations(setsDict: map<string, map<string, set<string>>>, mutants: seq<string>)
    returns (r: Result<seq<Composition>>)
    ensures mutants == [] ==> r == Success([])
    ensures 0 < |mutants| < 3 ==> r == Failure("IndexError")
    ensures r.Success? ==> |r.value| == 2 * |mutants|
    ensures r.Success? ==> forall k :: 0 <= k < |r.value| ==> PassOk(setsDict, mutants, k / 2, k % 2, r.value[k])
    ensures |mutants| == 3 && Distinct(mutants) ==> (r.Success? <==> AllLookups(setsDict, mutants))
  {
    var dict: map<string, Direction> := map[];
    var out: seq<Composition> := [];
    for i := 0 to |mutants|
      invariant |out| == 2 * i
      invariant i > 0 ==> |mutants| >= 3
      invariant forall k :: 0 <= k < |out| ==> PassOk(setsDict, mutants, k / 2, k % 2, out[k])
    {
      var pair;
      dict, pair := PivotPasses(setsDict, mutants, dict, i);
      if pair.Failure? {
        return Failure(pair.error);
      }
      assert PassOk(setsDict, mutants, i, 0, pair.value[0]) && PassOk(setsDict, mutants, i, 1, pair.value[1]);
      assert (2 * i) / 2 == i && (2 * i) % 2 == 0 && (2 * i + 1) / 2 == i && (2 * i + 1) % 2 == 1;
      out := out + pair.value;
    }
    if |mutants| == 3 && Distinct(mutants) {
      assert PassOk(setsDict, mutants, 0 / 2, 0 % 2, out[0]) && PassOk(setsDict, mutants, 1 / 2, 1 % 2, out[1]);
      FirstPivotLookups(setsDict, mutants);
    }
    r := Success(out);
  }

  /** The six passes write to six different files: distinct (mutant, regulation)
      pairs give distinct names. */
  lemma InvertedNamesDistinct(m1: string, r1: string, m2: string, r2: string)
    requires r1 in Regulations && r2 in Regulations
    ensures InvertedName(m1, r1) == InvertedName(m2, r2) <==> m1 == m2 && r1 == r2
  {
    var n1, n2 := InvertedName(m1, r1), InvertedName(m2, r2);
    if r1 == r2 {
      SuffixCancel(m1, m2, if r1 == "Down" then "_Down_others_Up" else "_Up_others_Down");
    } else {
      assert n1[|n1| - 1] != n2[|n2| - 1];
    }
  }
}
