# DGE gene-set logic, modelled in Dafny

This project models the table logic of the TFG_DGEanalysis scripts. Those
scripts turn per-mutant differential-expression (DGE) tables into gene lists and
annotated tables. The two package variants are `dgeapy/` and `dge_analysis/`,
plus three stand-alone scripts:

- **Three-set Venn partition.** `get_gene_ids_set_for_intersections` and
  `get_gene_ids_list_for_intersections` split three gene collections into the
  seven non-zero 3-bit region codes.
- **Region tables.** `mk_df_for_each_intersection` builds, for every region
  code, the region's gene ids inner-merged with the table of every mutant whose
  bit is `1`. `sort_df` then orders the columns and rows.
- **Inverted regulations.** `get_inverted_regulations_and_mk_venns_and_dataframes`
  makes each mutant the pivot, Up and then Down, with the two other mutants in
  the opposite direction.
- **Thresholds and columns.** `filter_FC_PVALUE_PADJ`, `column_names_to_check`
  and the per-mutant sub-table split.
- **Derived columns.** The FoldChange and Regulation columns inserted after every
  log2 fold-change column, and the Gene Ontology (GO) columns filled from a GO
  enrichment table.
- **Volcano labels.** The UP/DOWN/NO classification of the volcano plots, in its
  inclusive (dgeapy) and strict (dge_analysis) variants, with the counts and the
  colour column.
- **Sankey flows.** The reclassification and "No sig" filtering of the Sankey
  diagrams, and the outer merge of every ordered pair of samples. A missing
  Regulation label passes the `!= "No sig"` mask in an object column and fails
  it in a column of pandas' nullable "string" dtype; each sample says which
  dtype its Regulation column has.
- **Function assignment.** `dgeapy_assert-function.py` tries the GO code, then the
  GO ancestor, then the KEGG pathway, with fall-backs 'not annotated' and
  'others'.
- **Joins.** The left joins with a report of unmatched rows, in
  `dgeapy_joindfs.py` and `dgeapy_mapgenes.py`.

A table is a column list plus rows of `map<string, Cell>`, with
`Cell = Str | Num(real) | Missing` (Missing is pandas' NaN). A frame the source
updates in place (`insert`, `.at`, column assignment) is a `Frames.Frame` object
whose methods modify it. Logic that is a chain of expressions is written as
functions and lemmas. Loops are written as methods with invariants, proved
against a specification function.

Modules:

| module | file | models |
|---|---|---|
| `Wrappers` | `wrappers.dfy` | `Result`/`Option` |
| `Tables` | `tables.dfy` | cells, rows, tables, substring tests, split, join, strip |
| `Frames` | `frames.dfy` | a frame updated in place |
| `Partitions` | `partition.dfy` | the general N-set membership-code partition and its 3-set instance |
| `ColumnRules` | `column_rules.dfy` | `column_names_to_check` and `sort_df` |
| `RegionTables` | `region_tables.dfy` | the filter, the sub-tables and the region-table assembly |
| `DgeapyFilter` | `dgeapy_filter.dfy` | the rest of dgeapy's `filter_dataframe.py` |
| `AnalysisFilter` | `analysis_filter.dfy` | the rest of dge_analysis's `filter_dataframe.py` |
| `DerivedColumns` | `derived_columns.dfy` | the accumulator insertion loop shared by both `add_columns.py` |
| `DgeapyColumns` | `dgeapy_columns.dfy` | dgeapy's FoldChange and Regulation columns |
| `AnalysisColumns` | `analysis_columns.dfy` | dge_analysis's FoldChange and Regulation columns |
| `GoCommon` | `go_common.dfy` | GO-table reading and the GO column writes |
| `DgeapyGo` | `dgeapy_go.dfy` | dgeapy's `create_go_dict` and `add_go_columns` |
| `AnalysisGo` | `analysis_go.dfy` | dge_analysis's `create_go_dict` and `add_go_columns` |
| `Volcanos` | `volcanos.dfy` | the volcano classification in its three copies |
| `Sankey` | `sankey.dfy` | `generate_sankey_diagram` without the drawing |
| `AssertFunction` | `assert_function.dfy` | `dgeapy_assert-function.py` |
| `Joins` | `joins.dfy` | `set_index`, `reset_index`, left join, `isin` filter, the 'Unnamed' drop |
| `JoinDfs` | `joindfs.dfy` | `dgeapy_joindfs.py` |
| `MapGenes` | `mapgenes.dfy` | `dgeapy_mapgenes.py` |

Where the two variants share code, one module holds it; for example
`ColumnRules` takes the substring rules as a parameter. Each variant's module
then supplies its own rules.

## Model

| member | source | states |
|---|---|---|
| Partitions.MembershipCode | dgeapy/filter_dataframe.py:134-169 | a gene's code has one character per set: '1' exactly when the gene is in that set, '0' exactly when it is not |
| Partitions.UnionAll | dgeapy/filter_dataframe.py:151-169 | a gene is in the union exactly when some set holds it |
| Partitions.CodesAreCodes | dgeapy/filter_dataframe.py:142-150 | the generated codes are exactly the strings of n characters '0' or '1' |
| Partitions.PartitionKeys | dgeapy/filter_dataframe.py:142-150 | the partition's keys are exactly the n-bit codes with a '1'; every such key is present even when its region is empty, and the all-zero code never is |
| Partitions.CodeCorrect | dgeapy/filter_dataframe.py:151-169 | a gene in region c is in set i exactly when c[i] is '1' |
| Partitions.Disjoint | dgeapy/filter_dataframe.py:151-169 | two different regions share no gene |
| Partitions.Cover | dgeapy/filter_dataframe.py:151-169 | some region holds a gene exactly when the gene is in the union, and the region named by its membership code is one that does |
| Partitions.NonZeroCodes3 | dgeapy/filter_dataframe.py:142-150 | the non-zero 3-bit codes are exactly 100, 010, 001, 110, 101, 011 and 111 |
| Partitions.RegionOfCode3 | dgeapy/filter_dataframe.py:151-169 | the explicit three-set region of each code holds the same genes as the general region |
| Partitions.Regions3Keys | dgeapy/filter_dataframe.py:142-150 | the explicit three-set map has exactly the seven codes as keys |
| Partitions.Partition3 | dgeapy/filter_dataframe.py:142-169 | the explicit three-set map is the general partition of [s1, s2, s3] |
| DgeapyFilter.GeneIdsSetForIntersections | dgeapy/filter_dataframe.py:129-171 | the dictionary filled by the three loops is the three-set partition, so it is complete, disjoint and code-correct |
| DgeapyFilter.FileFirstSet | dgeapy/filter_dataframe.py:151-159 | after the loop over set1, each set1 gene is in the region its membership in set2 and set3 names, and no other gene is filed |
| DgeapyFilter.FileSecondSet | dgeapy/filter_dataframe.py:161-165 | the loop over set2 adds exactly the set2 genes not in set1 to 011 or 010 |
| DgeapyFilter.FileThirdSet | dgeapy/filter_dataframe.py:167-169 | the loop over set3 adds the genes in set3 only to 001, completing the partition |
| ColumnRules.FirstMatchSpec | dgeapy/filter_dataframe.py:84-98 | a name gets no label exactly when no pattern occurs in it; otherwise it gets the label of the first rule whose pattern occurs |
| ColumnRules.ColumnNamesToCheck | dgeapy/filter_dataframe.py:72-100 | a label is a key exactly when some name is filed under it, and its value is the last name so filed; dge_analysis/filter_dataframe.py:78-104 is the same loop with its own rule order |
| ColumnRules.FileOne | dgeapy/filter_dataframe.py:84-98 | one step of the loop keeps the "last name filed wins" invariant over one more name |
| ColumnRules.GroupColumns | dgeapy/filter_dataframe.py:191-219 | a group holds exactly the names filed under it, in their original relative order |
| ColumnRules.SortedColumnsMembers | dgeapy/filter_dataframe.py:223-231 | a name is in the new column order exactly when it is filed under groups 0 to 5, or is one of the first 8 gene-info names |
| ColumnRules.SortedColumnNamesSpec | dgeapy/filter_dataframe.py:223-233 | the new column order holds only input names; a name that no rule files is dropped; every name in groups 0 to 5 is kept; at most 8 gene-info names are kept |
| ColumnRules.InsertDesc | dgeapy/filter_dataframe.py:234-238 | inserting a row into a descending run keeps it descending, NaN last, and adds exactly that row |
| ColumnRules.SortRowsDesc | dgeapy/filter_dataframe.py:234-238 | the result is sorted descending on the key column, NaN last, and is a permutation of the rows |
| ColumnRules.GroupAll | dgeapy/filter_dataframe.py:191-219 | the classification loop yields the seven groups, each equal to its group specification |
| ColumnRules.SortDf | dgeapy/filter_dataframe.py:174-243 | the columns are the new order; the rows are a permutation of the selected rows; sorted descending by the first FoldChange column when there is one holding no text, and left in order otherwise; dge_analysis/filter_dataframe.py:159-228 is the same with its underscore-prefixed rules |
| DgeapyFilter.Log2NotFiledAsFoldChange | dgeapy/filter_dataframe.py:84-98 | a name containing "log2FoldChange" is filed under log2FoldChange by the column check, and under the log2 or FoldChange group by sort_df |
| DgeapyFilter.GeneIdNeverChecked | dgeapy/filter_dataframe.py:72-100 | the column dictionary never has a "geneID" key |
| DgeapyFilter.GeneIdGroupRule | dgeapy/filter_dataframe.py:191-193 | "gene_id" is filed under the gene_id group |
| RegionTables.FilterFcPvaluePadj | dgeapy/filter_dataframe.py:103-127 | fails exactly when one of the three columns is missing; otherwise keeps the columns and exactly the rows with FC at least its threshold, p-value below its threshold and padj below its threshold, in order and each as often as in the input |
| RegionTables.FilterTwice | dgeapy/filter_dataframe.py:117-125 | filtering a filtered table again changes nothing |
| AnalysisFilter.FilterWithNames | dge_analysis/filter_dataframe.py:107-131 | fails (KeyError) exactly when the names dict or the table lacks a column; otherwise the same inclusive/strict row condition, order kept and each passing row as often as in the input |
| RegionTables.Others | dgeapy/filter_dataframe.py:37 | the unwanted mutants are exactly the mutants other than the current one |
| RegionTables.WantedColumns | dgeapy/filter_dataframe.py:42-52 | the wanted names are exactly the names containing neither unwanted mutant name, in their order |
| RegionTables.WantedNames | dgeapy/filter_dataframe.py:39-52 | the append loop keeps exactly the names containing neither unwanted mutant name, in their order |
| RegionTables.SubFrame | dgeapy/filter_dataframe.py:55-66 | the sub-table has exactly the wanted columns and the source cells, row by row |
| RegionTables.SubDataframes | dge_analysis/filter_dataframe.py:16-75 | one sub-table per mutant with exactly the columns naming neither other mutant; fails (IndexError) exactly when some mutant has fewer than two others |
| RegionTables.OthersOfThree | dge_analysis/filter_dataframe.py:360-362 | for three distinct mutants, the others of mutant i are the other two in list order |
| RegionTables.IdTableGenes | dgeapy/filter_dataframe.py:319 | the id table holds a gene exactly when the id list does |
| RegionTables.MergeGenes | dgeapy/filter_dataframe.py:329-333 | an inner merge on gene_id holds a gene exactly when both sides hold it |
| RegionTables.AssembleRegionGenes | dgeapy/filter_dataframe.py:315-353 | a region table holds a gene exactly when it is a region id and every bit-1 mutant table holds it |
| RegionTables.AssembleRegionColumns | dgeapy/filter_dataframe.py:327-353 | the region table's columns are gene_id and the columns of the bit-1 mutants; bit-0 mutants add none |
| RegionTables.AssembleColumns | dgeapy/filter_dataframe.py:327-353 | the merged columns are gene_id, then each bit-1 mutant's columns in mutant order |
| RegionTables.SortedRegionGenes | dgeapy/filter_dataframe.py:356 | sorting the region table keeps its genes |
| RegionTables.SetToList | dgeapy/filter_dataframe.py:319 | `list(s)` lists each member of the set once |
| RegionTables.RegionTable | dgeapy/filter_dataframe.py:315-356 | one pass of the region loop: the result is what sort_df makes of the id table inner-merged with each bit-1 mutant table (sorted columns, the merged rows permuted and sorted descending by the first FoldChange column); gene_id kept, and exactly the region's genes held by every bit-1 table |
| DgeapyFilter.RenamedRow | dgeapy/filter_dataframe.py:289-312 | the renamed row keeps its gene_id |
| DgeapyFilter.MutantTable | dgeapy/filter_dataframe.py:273-312 | fails exactly when a DEG column is missing; otherwise the renamed columns, the same row count and the same genes |
| DgeapyFilter.OneRegion | dgeapy/filter_dataframe.py:315-356 | the table of one code is built from a list of the region's genes, each once: the sort_df result of its merge with the bit-1 mutant tables, holding exactly the region's genes that every bit-1 table holds |
| DgeapyFilter.RegionTablesOf | dgeapy/filter_dataframe.py:315-356 | the loop yields one region table per code, each the sort_df result of the merge of a list of its region's genes, each once, with the bit-1 mutant tables |
| DgeapyFilter.AllRegionTables | dgeapy/filter_dataframe.py:315-356 | the tables are keyed by exactly the seven codes, each the sort_df result of the merge of a list of its region's genes, each once, with the bit-1 mutant tables |
| DgeapyFilter.MkDfForEachIntersection | dgeapy/filter_dataframe.py:246-366 | (rename corrected) fails exactly when a DEG table lacks a column; otherwise seven tables, each the sort_df result of the merge of a list of its region's genes, each once, with the bit-1 mutant tables, so holding exactly the genes of its region that every bit-1 mutant table holds, with sorted columns |
| DgeapyFilter.FoldCangeDropped | dgeapy/filter_dataframe.py:300 | the misspelt `_FoldCange` name matches no sort_df rule, so sort_df drops that column |
| DgeapyFilter.FoldChangeKept | dgeapy/filter_dataframe.py:292 | the `_FoldChange` name is filed under the FoldChange group and is kept by sort_df |
| DgeapyFilter.LookupSets | dgeapy/filter_dataframe.py:478-511 | the three lookups succeed exactly when each mutant has a set for its direction; position k then holds mutants[k]'s set, label and name |
| DgeapyFilter.LookupExpected | dgeapy/filter_dataframe.py:478-511 | with the pass's directions, the lookups give the expected composition for pivot i and direction reg |
| DgeapyFilter.UpdateDirections | dgeapy/filter_dataframe.py:438-476 | the pivot gets reg and the two others the opposite direction; the name is `{mut}_Up_others_Down` or `{mut}_Down_others_Up`; fails (IndexError) when there are not two others |
| DgeapyFilter.InvertedPass | dgeapy/filter_dataframe.py:438-511 | one pass of the nested loop produces the expected composition, or IndexError/KeyError as the source raises |
| DgeapyFilter.FirstPivotLookups | dgeapy/filter_dataframe.py:478-490 | with every Up and Down set present, the lookups of the first pivot succeed |
| DgeapyFilter.PivotPasses | dgeapy/filter_dataframe.py:441-511 | one pivot gives its Up then its Down composition, each as expected |
| DgeapyFilter.InvertedRegulations | dgeapy/filter_dataframe.py:423-511 | the enumeration gives 2n compositions, pivot by pivot, Up then Down; fails with fewer than three mutants; succeeds for three distinct mutants exactly when every lookup exists |
| DgeapyFilter.InvertedNamesDistinct | dgeapy/filter_dataframe.py:458-476 | two compositions have the same name exactly when they have the same pivot and direction |
| AnalysisFilter.KeepSpec | dge_analysis/filter_dataframe.py:148-154 | a comprehension keeps exactly the source elements with the required memberships, in source order |
| AnalysisFilter.GeneIdsListForIntersections | dge_analysis/filter_dataframe.py:133-156 | the dictionary has exactly the seven codes as keys |
| AnalysisFilter.ListCodeIs | dge_analysis/filter_dataframe.py:148-154 | an element's code is c exactly when its membership in each list matches c's bits |
| AnalysisFilter.ListAt | dge_analysis/filter_dataframe.py:148-154 | each list holds exactly the source-set elements whose code is its key, in source order |
| AnalysisFilter.ListsDrawFromSource | dge_analysis/filter_dataframe.py:148-154 | 1xx lists draw only from set1, 01x only from set2, 001 only from set3 |
| AnalysisFilter.ListRegionMember | dge_analysis/filter_dataframe.py:147-156 | an element is in list c exactly when it is in the three-set region c |
| AnalysisFilter.ListRegionAt | dge_analysis/filter_dataframe.py:147-156 | the elements of list c are exactly region c |
| AnalysisFilter.ListPartition | dge_analysis/filter_dataframe.py:133-156 | read as sets, the lists are the three-set partition, and the general partition |
| AnalysisFilter.ListsDisjointAndCover | dge_analysis/filter_dataframe.py:133-156 | different lists share no element, and an element is in some list exactly when it is in an input |
| AnalysisFilter.GeneIdGroupRule | dge_analysis/filter_dataframe.py:174-175 | "gene_id" is filed under the gene_id group |
| AnalysisFilter.CheckRulesChain | dge_analysis/filter_dataframe.py:90-102 | the column check tries "_FoldChange", "_log2FoldChange", "pvalue", "padj" in that order |
| AnalysisFilter.FoldChangeColumnFiled | dge_analysis/filter_dataframe.py:92-93 | `{m}vsWT_FoldChange` is filed under FoldChange |
| AnalysisFilter.Log2ColumnFiled | dge_analysis/filter_dataframe.py:95-96 | `{m}vsWT_log2FoldChange` is filed under log2FoldChange, not FoldChange |
| AnalysisFilter.PvalueColumnFiled | dge_analysis/filter_dataframe.py:98-99 | `{m}vsWT_pvalue` is filed under pvalue |
| AnalysisFilter.PadjColumnFiled | dge_analysis/filter_dataframe.py:101-102 | `{m}vsWT_padj` is filed under padj |
| AnalysisFilter.RegulationColumnUnfiled | dge_analysis/filter_dataframe.py:90-102 | `{m}vsWT_Regulation` is filed under no label |
| AnalysisFilter.MutantTable | dge_analysis/filter_dataframe.py:252-299 | fails exactly when the mutant's table or one of its `vsWT_` columns is missing; otherwise those columns, the same rows' cells and the same genes |
| AnalysisFilter.OneRegion | dge_analysis/filter_dataframe.py:301-330 | the table of one code is the sort_df result of that code's list inner-merged with the bit-1 mutant tables, holding exactly the region's genes that every bit-1 table holds |
| AnalysisFilter.RegionTablesOf | dge_analysis/filter_dataframe.py:301-330 | the loop yields, per code, the sort_df result of that code's list merged with the bit-1 mutant tables |
| AnalysisFilter.AllRegionTables | dge_analysis/filter_dataframe.py:301-330 | the loop over the intersections yields tables keyed by exactly the seven codes, each the sort_df result of its code's list merged with the bit-1 mutant tables |
| AnalysisFilter.MkDfForEachIntersection | dge_analysis/filter_dataframe.py:231-340 | fails (KeyError) exactly when a mutant table fails; otherwise seven tables, each the sort_df result of its code's list from get_gene_ids_list_for_intersections merged with the bit-1 mutant tables, so holding exactly its region's genes held by every bit-1 mutant table |
| AnalysisFilter.NonDeg | dge_analysis/filter_dataframe.py:357-358 | the regulations looped over are exactly the keys other than "DEG" |
| AnalysisFilter.PivotCallsSpec | dge_analysis/filter_dataframe.py:357-447 | a pivot's calls succeed exactly when each non-DEG regulation's lookups succeed, and then are the expected calls in order |
| AnalysisFilter.PivotCallsMembers | dge_analysis/filter_dataframe.py:357-447 | a call is made for a pivot exactly when it is the expected call of one of its non-DEG regulations |
| AnalysisFilter.AllCallsSpec | dge_analysis/filter_dataframe.py:355-447 | over all pivots, the calls succeed exactly when every lookup does, and each call is an expected one |
| AnalysisFilter.PassIsExpected | dge_analysis/filter_dataframe.py:359-447 | the sets, labels and position reordering of one pass give the expected call, position k carrying mutants[k] |
| AnalysisFilter.InvertedPass | dge_analysis/filter_dataframe.py:357-447 | for three distinct mutants, one pass returns the expected call, or KeyError when a lookup is missing |
| AnalysisFilter.PivotPasses | dge_analysis/filter_dataframe.py:357-447 | the loop over a pivot's regulation keys returns the pivot's calls |
| AnalysisFilter.InvertedRegulations | dge_analysis/filter_dataframe.py:343-447 | with no mutants there are no calls; for three distinct mutants the result is the call each pass would make, pivot by pivot and key by key (AllCalls), with each call naming the pivot at its own position |
| AnalysisFilter.InvertedNamesEqual | dge_analysis/filter_dataframe.py:370-378 | two names are equal exactly when the pivots are equal and both or neither are Up |
| Frames.Frame.Insert | dgeapy/add_columns.py:52-59 | `insert` succeeds exactly when the location is in range, the name is new and the values fit; the name lands at loc and every row gains its value |
| Frames.Frame.SetColumn | dgeapy/volcanos.py:96 | column assignment replaces or appends the column and sets each row's cell |
| Frames.Frame.SetCell | dgeapy_assert-function.py:88 | `.at[i, c] = v` changes that one cell |
| DerivedColumns.ExpandLength | dgeapy/add_columns.py:27-63 | the layout adds exactly one column per source column |
| DerivedColumns.ExpandPosition | dgeapy/add_columns.py:52-59 | a source column at index a lands at a plus the number of sources before it, followed by its new column |
| DerivedColumns.ExpandKeepsOrder | dgeapy/add_columns.py:52-59 | the original columns keep their relative order |
| DerivedColumns.ExpandTwice | dgeapy/add_columns.py:79 | after the FoldChange pass, the Regulation pass with accumulator 2 puts each Regulation column right after its FoldChange column |
| DerivedColumns.DerivedValue | dgeapy/add_columns.py:40-44 | each new cell is computed from its own source cell |
| DerivedColumns.DeriveValues | dgeapy/add_columns.py:40-44 | the new values are the derived value of every cell of the source column |
| DerivedColumns.InsertStep | dgeapy/add_columns.py:32-62 | one loop step inserts at index_num + accumulator and increments the accumulator, or fails with the frame unchanged |
| DerivedColumns.InsertDerivedColumns | dgeapy/add_columns.py:27-63 | succeeds exactly when no new name collides; then the columns are the layout, each row gains its derived cells, and every original column and cell is kept |
| DgeapyColumns.RegulationLabelSign | dgeapy/add_columns.py:102-114 | "Up" exactly for positive, "Down" exactly for negative, "Unchanged" exactly for zero, NaN exactly for NaN |
| DgeapyColumns.WholeNameInsertable | dgeapy/add_columns.py:47-59 | since the whole name is replaced, the loop succeeds exactly when there is at most one log2 column and no column already has the new name |
| DgeapyColumns.AddFoldChangeColumns | dgeapy/add_columns.py:15-65 | succeeds exactly under that condition; "FoldChange" follows its log2 column and holds the derived values; the original columns and cells are kept |
| DgeapyColumns.AddRegulationColumns | dgeapy/add_columns.py:68-134 | the same for "Regulation", placed with accumulator 2 and holding the sign labels |
| DgeapyColumns.AddColumnsLayout | dgeapy/add_columns.py:15-134 | both passes give log2 column, FoldChange, Regulation, in that order |
| DgeapyColumns.TriplesSingle | dgeapy/add_columns.py:47-59 | with one log2 column at a, the result is the columns up to a, then "FoldChange" and "Regulation", then the rest |
| AnalysisColumns.RegulationLabelSign | dge_analysis/add_columns.py:102-114 | "Up", "Down", "Unchanged" by sign, and "--" exactly for NaN, never NaN |
| AnalysisColumns.MutantColumnRename | dge_analysis/add_columns.py:47-50 | replacing "log2FoldChange" in `{m}vsWT_log2FoldChange` gives `{m}vsWT_FoldChange`: the prefix survives |
| AnalysisColumns.MutantColumnIsSource | dge_analysis/add_columns.py:32 | a mutant's log2 column is a source column |
| AnalysisColumns.MutantFoldChangeNotSource | dge_analysis/add_columns.py:32-50 | a renamed column is not a source column |
| AnalysisColumns.DistinctMutantNames | dge_analysis/add_columns.py:47-50 | different mutants get different new names, so several log2 columns are supported |
| AnalysisColumns.AddFoldChangeColumns | dge_analysis/add_columns.py:15-65 | succeeds exactly when no new name collides; each FoldChange column sits right after its log2 column; the original cells are kept |
| AnalysisColumns.AddRegulationColumns | dge_analysis/add_columns.py:68-134 | the same for the Regulation columns, placed right after the FoldChange columns |
| AnalysisColumns.AddColumnsLayout | dge_analysis/add_columns.py:15-134 | both passes give each log2 column followed by its FoldChange and its Regulation column |
| GoCommon.AnnotationAt | dgeapy/add_columns.py:183-185 | a GO row's annotation reads Category, GOID and Description, failing exactly when a column is missing |
| GoCommon.RowGenesSpec | dgeapy/add_columns.py:151-167 | dgeapy: the de-duplicated union of the split geneID, Up and Down cells, a missing Up or Down cell skipped; dge_analysis: the split geneID cell as is |
| GoCommon.MentionAt | dgeapy/add_columns.py:182-187 | a GO row's reading succeeds exactly when its annotation and its genes do |
| GoCommon.CollectSpec | dgeapy/add_columns.py:182-189 | reading every row succeeds exactly when each row does, and keeps their order |
| GoCommon.DgeapyRowDistinct | dgeapy/add_columns.py:165 | a row's gene list has no duplicates |
| GoCommon.Dedupe | dgeapy/add_columns.py:165 | `list(set(xs))` has each element of xs exactly once |
| GoCommon.AllGenes | dgeapy/add_columns.py:189-205 | the dictionary's genes are exactly those some row mentions |
| GoCommon.AnnotationsNonEmpty | dgeapy/add_columns.py:189-205 | a gene has annotations exactly when some row mentions it |
| GoCommon.StoredAtRank | dgeapy/add_columns.py:191-197 | the k-th row that mentions a gene is its annotation k (`go_annotation_k`) |
| GoCommon.Positions | dgeapy/add_columns.py:232 | `np.where` lists exactly the rows holding the gene, in increasing order |
| GoCommon.JoinCellsSplit | dgeapy/add_columns.py:255-257 | splitting a "/"-join of texts without "/" gives the texts back |
| GoCommon.GoValuesSpec | dgeapy/add_columns.py:235-257 | one annotation is written verbatim; several are joined, which needs every field to be text |
| GoCommon.GoValuesSplit | dgeapy/add_columns.py:242-257 | the joined values split back into the annotations' fields, in annotation order |
| GoCommon.PadGo | dgeapy/add_columns.py:226-229 | the concat adds the three GO columns, NaN in every row, and keeps every other cell |
| GoCommon.WriteAnnotations | dgeapy/add_columns.py:231-257 | the write loop succeeds exactly when each gene can be written, and each row gets its gene's values |
| GoCommon.WriteStep | dgeapy/add_columns.py:231-257 | one gene's write changes only its row's three GO cells |
| GoCommon.WriteTripleCells | dgeapy/add_columns.py:236-241 | the three writes set the GO cells and leave every other cell |
| DgeapyGo.CreateGoDict | dgeapy/add_columns.py:170-207 | succeeds exactly when every GO row can be read; each gene gets, in order, the annotations of the rows that mention it |
| DgeapyGo.AddRow | dgeapy/add_columns.py:187-205 | adding one row's genes keeps the dictionary equal to its specification |
| DgeapyGo.AddGoColumns | dgeapy/add_columns.py:210-259 | succeeds exactly when the dictionary can be built and each gene's row found; the GO columns added, other cells kept, and each row's GO cells the values of its gene (placing corrected) |
| DgeapyGo.WritableIffPlaceable | dgeapy/add_columns.py:231-233 | every dictionary gene can be written exactly when each is found in the frame |
| DgeapyGo.AnnotatedCells | dgeapy/add_columns.py:231-257 | a row's GO cells are its gene's values; its other cells are kept |
| DgeapyGo.AsWrittenMisplacesJoinedValues | dgeapy/add_columns.py:247-257 | as written, a two-annotation gene at row 0 gets its joined values written at row 1 |
| DgeapyGo.CorrectedPlacesJoinedValues | dgeapy/add_columns.py:242-257 | corrected, the joined values land at the gene's row and row 1 is untouched |
| AnalysisGo.LastOfRow | dge_analysis/add_columns.py:143-154 | a gene has an entry exactly when some row mentions it, and the entry is the last such row's annotation |
| AnalysisGo.LastOfAnnotations | dge_analysis/add_columns.py:148-154 | the entry is the last of the gene's annotations in row order |
| AnalysisGo.CreateGoDict | dge_analysis/add_columns.py:137-156 | succeeds exactly when every row can be read; each gene keeps only the last row's annotation |
| AnalysisGo.StoreRow | dge_analysis/add_columns.py:148-154 | one row's overwrites keep the dictionary equal to its specification |
| AnalysisGo.AsGoDict | dge_analysis/add_columns.py:175-180 | each entry is written verbatim as a single annotation |
| AnalysisGo.AddGoColumns | dge_analysis/add_columns.py:160-182 | succeeds exactly when the dictionary builds and each gene is found; each row's GO cells are its gene's last annotation; other cells are kept |
| AnalysisGo.WritableIffLocatable | dge_analysis/add_columns.py:175-177 | every gene can be written exactly when each is found in the frame |
| AnalysisGo.LastAnnotatedCells | dge_analysis/add_columns.py:175-180 | a row's GO cells are its gene's last annotation; its other cells are kept |
| Volcanos.InclusiveLabel | dgeapy/volcanos.py:103-114 | DOWN exactly when the padj test passes and lfc is at most -t; UP exactly when it passes and lfc is at least t (for t > 0); NaN lfc or a failing padj gives NO |
| Volcanos.StrictLabel | dge_analysis/generate_plots.py:93-104 | DOWN exactly for lfc below -t, UP exactly for lfc above t, once the padj test passes; NO otherwise |
| Volcanos.RulesDifferOnlyAtBoundary | dge_analysis/generate_plots.py:97-102 | the two rules disagree exactly at lfc = t or lfc = -t with the padj test passing |
| Volcanos.Labels | dgeapy/generate_plots.py:94-106 | one label per row, each by the chosen rule |
| Volcanos.RegulationColumn | dgeapy/volcanos.py:102-114 | the append loop builds exactly the labels of the rows |
| Volcanos.CountsCoverRows | dgeapy/volcanos.py:123-125 | up, down and no counts sum to the number of rows |
| Volcanos.DisplayNamesDistinct | dgeapy/volcanos.py:126-128 | the three display names differ |
| Volcanos.DisplayNameCount | dgeapy/volcanos.py:123-128 | a display name carries its label's count |
| Volcanos.MapLabel | dgeapy/volcanos.py:130-132 | `.map` sends each label text to its display name and anything else to NaN |
| Volcanos.MapLabelsDisplay | dgeapy/volcanos.py:130-132 | mapping the label column gives each row its label's display name |
| Volcanos.InclusiveVolcano | dgeapy/volcanos.py:96-132 | the score column is set; on success the labels are the inclusive labels, "color" is appended last with the display names; KeyError or an existing "color" fails; dgeapy/generate_plots.py:88-128 holds the same code |
| Volcanos.StrictVolcano | dge_analysis/generate_plots.py:86-142 | as above with the strict labels and "color" inserted at position 1 |
| Volcanos.ColorColumn | dge_analysis/generate_plots.py:110-125 | the three legend names are built from the counts first; the colour column has one entry per label, entry i the display name of label i |
| Volcanos.AppendNames | dge_analysis/generate_plots.py:118-125 | the append loop gives one cell per label, the name chosen for that label's value |
| Sankey.WithReg | dgeapy/sankey_diagrams.py:26-28 | assigning to "Regulation" adds the column if missing and keeps the others |
| Sankey.LfcSteps | dgeapy/sankey_diagrams.py:30-45 | "No sig" exactly when already "No sig" or -t < lfc < t; the label passes the "No sig" mask afterwards exactly when it passed before and lfc is outside (-t, t); a passing label becomes "Down" for lfc at most -t, "Up" for lfc at least t, else stays; a label failing the mask (a missing one in a nullable string column) is never changed |
| Sankey.LfcStepsIdempotent | dgeapy/sankey_diagrams.py:30-45 | running the fold-change assignments twice equals running them once |
| Sankey.Significant | dgeapy/sankey_diagrams.py:47 | the kept rows are exactly those the `!= "No sig"` mask passes, in order and each as often as in the input: a missing label is kept in an object column and dropped in a nullable string column (the dtype `add_regulation_columns` gives the column) |
| Sankey.SignificantAll | dgeapy/sankey_diagrams.py:47 | filtering rows that all pass the mask keeps them all |
| Sankey.PadjPass | dgeapy/sankey_diagrams.py:26-28 | every row gets the padj step's label |
| Sankey.LfcPass | dgeapy/sankey_diagrams.py:30-45 | every row gets the fold-change steps' label |
| Sankey.DropNoSig | dgeapy/sankey_diagrams.py:47 | every kept row passes the mask: none is "No sig", and none is missing in a nullable string column |
| Sankey.ProcessedRows | dgeapy/sankey_diagrams.py:26-47 | a row survives exactly when padj is not above the cut-off, lfc is outside (-t, t) and its old label passes the mask (not "No sig"; not missing in a nullable string column); the survivors keep their order and each occurs as often as among the relabelled rows; no survivor is "No sig" or missing under that dtype |
| Sankey.ProcessedIdempotent | dgeapy/sankey_diagrams.py:53-74 | reclassifying and filtering a processed table gives it back |
| Sankey.PairsSpec | dgeapy/sankey_diagrams.py:76-81 | a left row pairs with every right row holding its gene, and with none exactly when no right row does |
| Sankey.LinksOfSpec | dgeapy/sankey_diagrams.py:76-81 | a left row always gives at least one merged row, each with its own label and a matching right label or NaN |
| Sankey.LeftLinkOk | dgeapy/sankey_diagrams.py:76-81 | each left-side merged row carries a left row's gene and label, and a matching right label or NaN |
| Sankey.LeftKeyComplete | dgeapy/sankey_diagrams.py:76-81 | every gene of the left table appears in the merge |
| Sankey.RightLinkOk | dgeapy/sankey_diagrams.py:76-81 | each right-only merged row carries a right row's gene and label with NaN on the left |
| Sankey.RightKeyComplete | dgeapy/sankey_diagrams.py:76-81 | every gene only on the right appears in the merge |
| Sankey.OuterLinksKeys | dgeapy/sankey_diagrams.py:76-81 | the merge holds a gene exactly when either table does |
| Sankey.OuterKeySound | dgeapy/sankey_diagrams.py:76-81 | every merged gene comes from one of the tables |
| Sankey.OuterKeyComplete | dgeapy/sankey_diagrams.py:76-81 | every gene of either table is merged |
| Sankey.OuterLinksSides | dgeapy/sankey_diagrams.py:76-81 | each label in the merge is a label of that gene on its side, or NaN when that side lacks the gene |
| Sankey.Fill | dgeapy/sankey_diagrams.py:83-84 | a NaN label becomes "No sig"; other labels are kept |
| Sankey.FlowTable | dgeapy/sankey_diagrams.py:76-86 | one row per merged row with only Regulation_a and Regulation_b |
| Sankey.FlowTableShape | dgeapy/sankey_diagrams.py:83-86 | the flow table has exactly the two label columns and no NaN cell |
| Sankey.Merge | dgeapy/sankey_diagrams.py:76-86 | the merge fails exactly when a gene column is missing; otherwise it is the flow table |
| Sankey.ProcessedProcessable | dgeapy/sankey_diagrams.py:49-74 | a processed table can be processed again and comes back unchanged |
| Sankey.Reclassify | dgeapy/sankey_diagrams.py:26-47 | fails (KeyError) exactly when the padj or log2 column is missing; otherwise the processed sample |
| Sankey.ReclassifyTwice | dgeapy/sankey_diagrams.py:53-74 | a sample processed as the pivot comes through its second pass unchanged |
| Sankey.PassAll | dgeapy/sankey_diagrams.py:24-47 | every sample processed once |
| Sankey.MergeAll | dgeapy/sankey_diagrams.py:76-86 | the merge of every ordered pair of processed samples, keyed on the pivot's gene column |
| Sankey.AllFlowsCount | dgeapy/sankey_diagrams.py:24-51 | when every pair merges, i pivots give i(n-1) flow tables |
| Sankey.RowFlowsCount | dgeapy/sankey_diagrams.py:49-51 | a pivot meets every other sample once |
| Sankey.RowFlowsAt | dgeapy/sankey_diagrams.py:49-86 | the flows of a pivot are its merges with the other samples, in order |
| Sankey.AbsentGeneColumnFails | dgeapy/sankey_diagrams.py:76-81 | with two samples or more, one sample whose gene column its table lacks makes some merge fail, so the run raises KeyError |
| Sankey.GeneIndexFlows | dgeapy/sankey_diagrams.py:76-86 | keyed on the `gene_id` index every table carries, every ordered pair merges once every sample processes, giving n(n-1) flow tables |
| Sankey.PivotsOk | dgeapy/sankey_diagrams.py:22-86 | every sample processable and every pair merging is the same as every pivot succeeding |
| Sankey.SankeyFlows | dgeapy/sankey_diagrams.py:22-86 | succeeds exactly when every sample processes and every pair merges, giving n(n-1) flow tables pivot by pivot and every sample's table replaced by its filtered one; KeyError otherwise |
| Sankey.Pivots | dgeapy/sankey_diagrams.py:24-86 | the outer loop over the samples succeeds exactly when every sample processes and every pair merges, returning the flow tables pivot by pivot and leaving every sample replaced by its filtered table |
| Sankey.Round | dgeapy/sankey_diagrams.py:24-86 | one outer iteration either fails with KeyError, and then the whole run cannot succeed, or keeps the outer invariant over one more pivot |
| Sankey.Pivot | dgeapy/sankey_diagrams.py:26-86 | one pivot's pass and its inner loop succeed exactly when the pivot processes and merges with every other sample; the flows are then that pivot's row of merges |
| Sankey.Visit | dgeapy/sankey_diagrams.py:49-86 | one inner iteration skips the pivot itself, or processes sample b and appends the merge of the pivot with it; a failure means the pivot cannot succeed |
| Sankey.Pass | dgeapy/sankey_diagrams.py:26-47 | processing one sample in place succeeds exactly when its columns exist, and then replaces its table by the processed one and changes no other sample |
| AssertFunction.FirstOwnerIsFirst | dgeapy_assert-function.py:95-100 | the owner of a code is the first function in dictionary order listing it |
| AssertFunction.FirstOwnerNone | dgeapy_assert-function.py:95-100 | a code has no owner exactly when no function lists it |
| AssertFunction.FirstCodeMatchIsFirst | dgeapy_assert-function.py:93-102 | a row's codes pick the owner of the first code that has one |
| AssertFunction.FirstCodeMatchNone | dgeapy_assert-function.py:93-102 | nothing matches exactly when no code has an owner |
| AssertFunction.AnyInIff | dgeapy_assert-function.py:123-124 | a function's KEGG list matches exactly when one of its pathways is a substring of the cell |
| AssertFunction.FirstKeggIsFirst | dgeapy_assert-function.py:122-130 | the KEGG step picks the first function in dictionary order with a matching pathway |
| AssertFunction.FirstKeggNone | dgeapy_assert-function.py:122-130 | the KEGG step finds nothing exactly when no function matches |
| AssertFunction.AssignedValues | dgeapy_assert-function.py:131-132 | every row gets a function name, 'not annotated' or 'others', never NaN |
| AssertFunction.NotAnnotatedIff | dgeapy_assert-function.py:87-88 | 'not annotated' exactly when the GO, ancestor and KEGG cells are all NaN |
| AssertFunction.GoCodesWin | dgeapy_assert-function.py:104-105 | a match on the GO codes is never overridden by the ancestor or KEGG step |
| AssertFunction.OthersIff | dgeapy_assert-function.py:131-132 | an annotated row gets 'others' exactly when no step matched |
| AssertFunction.AssignedIgnoresFunction | dgeapy_assert-function.py:101-119 | the row's own function cell plays no part in what it is assigned |
| AssertFunction.FirstMatch | dgeapy_assert-function.py:93-116 | the nested GO or ancestor loop with its breaks returns the first code's first owner |
| AssertFunction.FirstKeggMatch | dgeapy_assert-function.py:122-130 | the nested KEGG loop with its breaks returns the first matching function |
| AssertFunction.RowFunction | dgeapy_assert-function.py:87-132 | the row loop body computes the priority rule's value |
| AssertFunction.AssertFunctions | dgeapy_assert-function.py:80-132 | succeeds exactly when 'function' is new and the annotation columns exist; 'function' is appended last and each row gets its assigned value, other cells kept |
| AssertFunction.AssignRows | dgeapy_assert-function.py:86-132 | each row's function cell is set to its assigned value; nothing else changes |
| Joins.Without | dgeapy_joindfs.py:110-112 | the column list without one name, in order |
| Joins.SetIndex | dgeapy_joindfs.py:92-93 | `set_index` fails (KeyError) exactly when the key is not a column |
| Joins.ResetIndex | dgeapy_joindfs.py:116 | `reset_index` fails (ValueError) exactly when the index name is already a column |
| Joins.ResetSetIndex | dgeapy_joindfs.py:92-116 | setting and resetting the index moves the key column first and keeps the rows |
| Joins.SetResetIndex | dgeapy_joindfs.py:92-116 | resetting and setting the index gives back the indexed frame |
| Joins.LeftJoin | dgeapy_joindfs.py:108 | the join fails (ValueError) exactly when the two frames share a column |
| Joins.MatchesNone | dgeapy_joindfs.py:108 | a label has no match exactly when no right entry carries it |
| Joins.MatchesAt | dgeapy_joindfs.py:108 | with unique right keys, the label of right row j matches that row only |
| Joins.JoinUnique | dgeapy_joindfs.py:108 | with unique right keys, the join keeps the left rows one for one, in order, each with its matched right row |
| Joins.JoinKeys | dgeapy_joindfs.py:108-114 | the join's index labels are the left labels |
| Joins.RightRowAt | dgeapy_joindfs.py:108 | a label carried by right row j gets that row's cells |
| Joins.RightRowNone | dgeapy_joindfs.py:108 | a label no right row carries gets NaN in every right column |
| Joins.NotIn | dgeapy_joindfs.py:114 | the entries whose label is not among the keys, in order and each as often as in the input |
| Joins.RowsNotIn | dgeapy_joindfs.py:114 | the rows whose key cell is not among the keys, in order and each as often as in the input |
| Joins.RestoredNotIn | dgeapy_joindfs.py:114-121 | filtering the indexed frame and resetting the index gives the filtered rows |
| Joins.Named | dgeapy_joindfs.py:117 | the columns not starting with "Unnamed", in order |
| Joins.DropUnnamed | dgeapy_joindfs.py:117 | the 'Unnamed' columns are removed and every other cell kept |
| JoinDfs.JoinDfs | dgeapy_joindfs.py:90-122 | succeeds exactly when both tables have the key and share no other column; KeyError or ValueError otherwise; the columns are the key, table 1's, then table 2's, without 'Unnamed' |
| JoinDfs.KeysOfEntries | dgeapy_joindfs.py:92-93 | the index labels are the key column's cells |
| JoinDfs.JoinedShape | dgeapy_joindfs.py:108-117 | with unique table 2 keys, one joined row per table 1 row, in order |
| JoinDfs.JoinedKeepsTable1 | dgeapy_joindfs.py:108-117 | table 1's cells and key are kept |
| JoinDfs.JoinedMatched | dgeapy_joindfs.py:108 | a table 1 row whose key is on table 2 row j gets that row's values in table 2's columns |
| JoinDfs.JoinedUnmatched | dgeapy_joindfs.py:108 | a table 1 row whose key is on no table 2 row gets NaN in table 2's columns |
| JoinDfs.RightRowColumns | dgeapy_joindfs.py:108-112 | the matched right row only has table 2's non-key columns |
| JoinDfs.NotJoinedRows | dgeapy_joindfs.py:114-122 | the not-joined table is exactly table 2's rows whose key is no table 1 key, in order, key first, without 'Unnamed' |
| JoinDfs.MatchedOrNotJoined | dgeapy_joindfs.py:108-114 | a table 2 row is listed as not joined exactly when no table 1 row has its key |
| MapGenes.NormalisedHash | dgeapy_mapgenes.py:85 | a key ending in '#' loses exactly its last character |
| MapGenes.NormalisedPlain | dgeapy_mapgenes.py:85 | a key not ending in '#' is unchanged |
| MapGenes.MapKeys | dgeapy_mapgenes.py:85 | the index labels are the normalised key cells |
| MapGenes.IndexByNormalisedKey | dgeapy_mapgenes.py:85-86 | the map is indexed by 'index' holding the normalised key, keeping the original key column |
| MapGenes.Prepare | dgeapy_mapgenes.py:81-108 | succeeds exactly when the selected columns and the key exist in the map, the map's key cells are text, the table has the key and the join adds no column twice; the joined frame then holds the map columns without 'index' followed by the table columns other than the key |
| MapGenes.Staged | dgeapy_mapgenes.py:86-108 | the join is indexed by the key, with the map columns then the table columns |
| MapGenes.DropColumn | dgeapy_mapgenes.py:115 | `drop(columns=[c])` removes that column from the list and every row |
| MapGenes.MapGenesAsWritten | dgeapy_mapgenes.py:81-115 | the script as written succeeds only when the tables can be prepared |
| MapGenes.AsWrittenFails | dgeapy_mapgenes.py:110 | as written, with unique keys on both sides, `reset_index` fails whenever it is reached, unless the key is itself named 'index' |
| MapGenes.AsWrittenExample | dgeapy_mapgenes.py:110 | the map gene "g1#" with the table gene "g1" fails as written and maps when corrected |
| MapGenes.MapGenesCorrected | dgeapy_mapgenes.py:81-115 | succeeds exactly when the tables can be prepared and the table has no other 'index' column; then the columns are 'index', the map columns, then the table columns |
| MapGenes.MappedShape | dgeapy_mapgenes.py:102-106 | with unique normalised map keys, one output row per table row, in order |
| MapGenes.MappedKeepsTable | dgeapy_mapgenes.py:102-106 | the table's cells are kept, and 'index' holds the row's key |
| MapGenes.MapRowColumns | dgeapy_mapgenes.py:102 | a matched map row only brings map columns |
| MapGenes.MappedMatched | dgeapy_mapgenes.py:102 | a table row whose key equals map row j's normalised key gets map row j's values |
| MapGenes.MappedUnmatched | dgeapy_mapgenes.py:102 | a table row whose key is no normalised map key gets NaN in the map columns |
| MapGenes.Unmapped | dgeapy_mapgenes.py:108 | the map rows whose normalised key is not a table key, in order and each as often as in the map |
| MapGenes.NotMappedRows | dgeapy_mapgenes.py:108-115 | the not-mapped table is exactly the map rows whose normalised key is no table key, in map order, without the 'index' column |
| MapGenes.UnmappedEntries | dgeapy_mapgenes.py:108-115 | resetting and dropping 'index' from the filtered entries gives the unmapped rows |
| Tables.Strip | dgeapy_assert-function.py:94 | the stripped code starts and ends with a non-whitespace character, or is empty |
| Tables.StripTrims | dgeapy_assert-function.py:94 | the stripped code is the code with only a whitespace prefix and a whitespace suffix removed |
| Tables.JoinSplit | dgeapy/add_columns.py:255-257 | joining the pieces of a split gives the text back |
| Tables.SplitJoin | dgeapy/add_columns.py:255-257 | splitting a join of texts without the separator gives the texts back |
| Tables.FilterRows | dgeapy/filter_dataframe.py:117-125 | a boolean mask keeps exactly the rows that pass, in order and each as often as in the input |
| Tables.Select | dgeapy/filter_dataframe.py:233 | `df[cols]` has exactly those columns and the same cells, row by row |
| Tables.Split | dgeapy/add_columns.py:153-161 | `s.split(sep)` gives at least one piece, and no piece contains the separator |
| Tables.ParseNatToString | dgeapy/volcanos.py:123-128 | a count written with `str` reads back as the same number |
| Tables.MatchRows | dgeapy/filter_dataframe.py:329-333 | for one left row, the merge holds left-and-right combinations with exactly the right rows whose key value equals the left one, and no more rows than the right table |
| Tables.MergeRows | dgeapy/filter_dataframe.py:329-333 | the merged rows are exactly the combinations of a left and a right row with equal key values |
| Tables.MergeColumns | dgeapy/filter_dataframe.py:329-333 | the merged columns are exactly the columns of either side |
| GoCommon.JoinCells | dgeapy/add_columns.py:255-257 | `"/".join` succeeds exactly when every value is text |
| Volcanos.MapLabels | dgeapy/volcanos.py:130-132 | the mapped column has one cell per label cell, each the label's display name or NaN |

## Left out

- Plotting is not modelled. This covers the Venn, UpSet, Sankey and volcano drawing, the count plots and the colour dictionaries. These are calls into plotting libraries and have no result to state.
- File and directory I/O is not modelled: `read_csv`, `read_excel`, `to_csv`, `to_excel`, `os.mkdir`, the loops that pick a free `_n` directory name, and `print`. Region tables are returned by code instead of written to files.
- Argument parsing and the top-level drivers are not modelled. The function dictionary of `dgeapy_assert-function.py` is a parameter, each entry with its 'GO' and 'KEGG' lists; the `--strict` flag is a boolean parameter.
- Floating-point maths is not modelled. `np.power(2, abs(x))` is a function parameter. `-log10(padj)` and the log thresholds are given as reals.
- The pandas merge-suffix generation is not modelled. In the inner merges, a shared non-key column keeps the left value; the source's column lists only share gene_id and gene-info columns, whose values agree.
- RegionTables.RegionTable: the row sort is an insertion sort. The contract (through ColumnRules.SortDfOf) states sorted descending and a permutation of the merged rows, not pandas' exact order among rows with equal FoldChange values.
- The index no-ops (`df.set_index("gene_id")` with the result discarded) change nothing and are not modelled.
- Joins.LeftJoin: the join is modelled for any right keys, but the one-row-per-left-row lemmas (JoinDfs.JoinedShape, MapGenes.MappedShape) assume unique right keys. Duplicate right keys give one row per match, as pandas does, but no lemma describes that case.
- AssertFunction.AssertFunctions: a missing annotation column is reported before any row is written. The source raises a KeyError in the middle of the row loop, leaving part of the frame written; that partial state is not modelled.
- AssertFunction.Text: a non-text cell in an annotation column is read as "". The source applies `str()` to it, and number formatting is not modelled.
- AnalysisGo.AddGoColumns returns the frame it builds. The source builds it in a local copy, prints a column and returns None, so the caller's frame is left unchanged; the model states what the local copy holds.
- GoCommon.WriteAnnotations requires each gene to be found exactly once (`int(np.where(...)[0])`). The source raises when a gene is missing or found twice; the model reports that as a failure.
- Volcanos.InclusiveLabel: a NaN padj is not "NO". The comparison `b < threshold` is false for NaN, so such a row is labelled by its log2 fold change; the model follows the code.
- ColumnRules.SortDf: when the sort column holds text, the rows keep their order. That matches pandas for a column mixing text and numbers, where the sort raises and the exception is swallowed. A column holding only text (and NaN) is sorted lexicographically by pandas; the model does not sort it. ColumnRules.SortRowsDesc orders numbers, NaN last, as pandas does.
- RegionTables.FilterFcPvaluePadj, AnalysisFilter.FilterWithNames, Sankey.Reclassify and the Volcanos labels: a text cell in a numeric column is read as failing the comparison (Tables.AtLeast, AtMost, Below, Above). pandas raises TypeError when it compares text with a number, so for such inputs the source fails where the model filters or labels the row; "fails exactly when a column is missing" holds only for columns without text cells.
- Joins.LeftJoin and MapGenes.Staged: the joined index always keeps the left index name. pandas names it only when both names agree or the join takes its unique-key path; with repeated keys on either side and different names ("gene" and "index" in dgeapy_mapgenes.py:102) it is unnamed, and `reset_index` then writes an 'index' column. MapGenes.AsWrittenFails is therefore stated for unique keys on both sides only.
- Tables.Strip: only the ASCII whitespace characters (space, tab, newline, carriage return, vertical tab, form feed) are stripped. Python's `str.strip()` also removes the other Unicode whitespace characters (such as \x1c-\x1f, \x85 and \xa0).
- DgeapyGo.CreateGoDict: the order of the dictionary's keys follows the model's listing of each row's genes, first occurrence first. The source lists a row's genes with `list(set(...))`, whose order is arbitrary, so only the keys and each gene's annotations, in row order, are what the source fixes.
- DgeapyFilter.InvertedRegulations: each pass's Venn diagram and `mk_df_for_each_intersection` call (dgeapy/filter_dataframe.py:478-511) are not made; the model returns what they would be given (the three sets, their labels and the file name). Its success condition covers the dictionary lookups of the enumeration only, not a failure inside `mk_df_for_each_intersection` itself, which DgeapyFilter.MkDfForEachIntersection states on its own.
- AnalysisFilter.InvertedRegulations: the Venn diagram and `mk_df_for_each_intersection` call of each pass (dge_analysis/filter_dataframe.py:385-447) are not made; the model returns the call each pass would make. Its result is stated only for an empty mutant list and for three distinct mutants. For other lists (one or two mutants, where the source indexes the other mutants out of range, or four and more, where a pass with a pivot beyond the third makes no call) nothing is promised, and its success condition covers the dictionary lookups of the enumeration only.
- DgeapyColumns.AddFoldChangeColumns, DgeapyColumns.AddRegulationColumns, AnalysisColumns.AddFoldChangeColumns and AnalysisColumns.AddRegulationColumns: the source raises TypeError on a text cell in a log2 fold-change column (`abs` at dgeapy/add_columns.py:40-43 and dge_analysis/add_columns.py:40-43, the sign tests at dgeapy/add_columns.py:102-111 and dge_analysis/add_columns.py:102-111). The model requires such cells absent (NumericSources), so that error path is not modelled.
- Sankey.GeneIndexFlows: the `gene_id` index of the dgeapy tables is modelled as a column named gene_id, which is what a merge with `on="gene_id"` reads; the other index mechanics are not modelled here.
- Sankey.FlowTable and Sankey.OuterLinks: the outer merge lists the left rows first and then the right-only rows. pandas sorts the keys of an outer merge. The flow tables are only counted, so the order does not change what is drawn.
- MapGenes.MapGenesAsWritten is kept only to show the failure at `reset_index`. The rest of the model uses MapGenes.MapGenesCorrected.

## Findings

| source | as written | input that shows it | evidently intended | confidence | as-written member | corrected member |
|---|---|---|---|---|---|---|
| dgeapy/filter_dataframe.py:300 | mutants 2 and 3 have their FoldChange column renamed `{m}_FoldCange` (lines 300 and 308); no `sort_df` rule matches that name, so the column is dropped from every region table | any mutant name `m` without lower-case letters (such as "RPFF") for mutant 2: the column `m_FoldCange` is absent from the sorted region tables | `{m}_FoldChange`, as for mutant 1 | not executed | DgeapyFilter.FoldCangeDropped | DgeapyFilter.FoldChangeKept |
| dgeapy/add_columns.py:247 | the inner loop `for i in range(n)` reuses `i`, so the joined values of a gene with n > 1 annotations are written at row n-1, not at the gene's row | gene A at row 0 with two annotations, another gene at row 1: the joined values land on row 1 | write at the gene's row | not executed | DgeapyGo.AsWrittenMisplacesJoinedValues | DgeapyGo.CorrectedPlacesJoinedValues |
| dgeapy/sankey_diagrams.py:79 | the merge key is `a.df_columns['geneID']`, but dgeapy's `column_names_to_check` (dgeapy/filter_dataframe.py:72-100) never files a "geneID" key, so the first merge of any run with two samples raises KeyError | any two samples whose `df_columns` come from `column_names_to_check` (DgeapyFilter.GeneIdNeverChecked): the lookup fails as a merge on a missing gene column does | merge on the `gene_id` index that `set_index("gene_id")` leaves on every table | not executed | Sankey.AbsentGeneColumnFails | Sankey.GeneIndexFlows |
| dgeapy_mapgenes.py:110 | `reset_index()` restores the joined index under the key's own name, while the map columns still include the key column; pandas raises ValueError ("already exists") | map with gene = "g1#", table with gene = "g1", key "gene", no map columns given | restore the index as a separate column, as the not-mapped branch does with 'index' | not executed | MapGenes.AsWrittenExample | MapGenes.MapGenesCorrected |
