/** The Gene Ontology annotation step shared by dgeapy/add_columns.py and
    dge_analysis/add_columns.py. A GO table has one row per GO term, with the
    columns Category, GOID, Description and a "/"-separated list of genes in
    geneID. Reading that table gives, per row, a `Mention`: the genes the row
    names and the annotation it carries. The genes are then looked up in a DEG
    table by its gene_id column and the annotation is written into three new
    columns GO_category, GO_ID and GO_description. */
module GoCommon {
  import opened Wrappers
  import opened Tables
  import opened Frames

  // Column names, and the messages of the exceptions the code lets through.
  const CategoryKey := "Category"
  const GoIdKey := "GOID"
  const DescriptionKey := "Description"
  const GeneListKey := "geneID"
  const UpGenesKey := "Up_Gene_id"
  const DownGenesKey := "Down_Gene_id"
  const GeneIdKey := "gene_id"
  const OutCategory := "GO_category"
  const OutId := "GO_ID"
  const OutDescription := "GO_description"
  const KeyError := "KeyError"
  const SplitError := "AttributeError: 'float' object has no attribute 'split'"
  const ScalarError := "TypeError: only length-1 arrays can be converted to Python scalars"
  const JoinError := "TypeError: sequence item: expected str instance"

  /** The three values a GO row contributes: `(Category, GOID, Description)`. */
  datatype Annotation = Annotation(category: Cell, id: Cell, description: Cell)

  /** One GO row as the loops see it: the genes it names and its annotation. */
  datatype Mention = Mention(genes: seq<string>, ann: Annotation)

  /** The dict built from a GO table: the genes in insertion order and, per gene,
      its annotations. The inner dict `{"go_annotation_0": .., "go_annotation_1": ..}`
      is the sequence of its values, key `go_annotation_k` being index k (see
      `AnnotationKeysDistinct`). */
  datatype GoDict = GoDict(order: seq<string>, entries: map<string, seq<Annotation>>)

  /** Python dicts keep insertion order, and each key occurs once. */
  ghost predicate ValidDict(d: GoDict)
  {
    Distinct(d.order) && forall g :: g in d.entries <==> g in d.order
  }

  /** The key under which the k-th annotation of a gene is stored. */
  function AnnotationKey(k: nat): string
  {
    "go_annotation_" + NatToString(k)
  }

  /** Keys for different counts differ, so storing under `go_annotation_{len}`
      never overwrites: the inner dict is faithfully a sequence. */
  lemma AnnotationKeysDistinct(j: nat, k: nat)
    requires j != k
    ensures AnnotationKey(j) != AnnotationKey(k)
  {
    if AnnotationKey(j) == AnnotationKey(k) {
      SuffixOfEqual("go_annotation_", NatToString(j), NatToString(k));
      ParseNatToString(j);
      ParseNatToString(k);
    }
  }

  lemma SuffixOfEqual(p: string, a: string, b: string)
    requires p + a == p + b
    ensures a == b
  {
    assert a == (p + a)[|p|..];
    assert b == (p + b)[|p|..];
  }

  // ---------------------------------------------------------------------------
  // Reading the GO table

  /** The annotation of row i: `df["Category"][i]`, `df["GOID"][i]`,
      `df["Description"][i]`, each raising KeyError when the column is absent. */
  function AnnotationAt(go: Table, i: nat): (r: Result<Annotation>)
    requires i < |go.rows|
    ensures r.Success? <==> CategoryKey in go.columns && GoIdKey in go.columns && DescriptionKey in go.columns
    ensures r.Success? ==> r.value == Annotation(Get(go.rows[i], CategoryKey), Get(go.rows[i], GoIdKey), Get(go.rows[i], DescriptionKey))
  {
    if CategoryKey !in go.columns then Failure(KeyError)
    else if GoIdKey !in go.columns then Failure(KeyError)
    else if DescriptionKey !in go.columns then Failure(KeyError)
    else
      var row := go.rows[i];
      Success(Annotation(Get(row, CategoryKey), Get(row, GoIdKey), Get(row, DescriptionKey)))
  }

  /** The two programs read the genes of a GO row differently. */
  datatype Variant = Dgeapy | Analysis

  /** The genes of an optional column ("Up_Gene_id", "Down_Gene_id"): dgeapy
      splits them inside `try`/`except`, so an absent column or a NaN cell adds
      none. */
  function OptionalGenes(cols: seq<string>, row: Row, c: string): (r: seq<string>)
    ensures r == [] || (c in cols && Get(row, c).Str?)
  {
    if c in cols && Get(row, c).Str? then Split(Get(row, c).s, '/') else []
  }

  /** The genes of one GO row. dgeapy (`get_gene_IDs_list_from_GO_df`) takes the
      "/"-split geneID cell, extended by the Up_Gene_id and Down_Gene_id cells,
      without repeats; dge_analysis takes the split geneID cell alone. Neither
      guards the geneID split: a NaN (or numeric) cell raises AttributeError. */
  function RowGenes(v: Variant, cols: seq<string>, row: Row): Result<seq<string>>
  {
    if GeneListKey !in cols then Failure(KeyError)
    else match Get(row, GeneListKey)
      case Str(s) =>
        if v == Analysis then Success(Split(s, '/'))
        else Success(Dedupe(Split(s, '/') + OptionalGenes(cols, row, UpGenesKey)
                                          + OptionalGenes(cols, row, DownGenesKey)))
      case _ => Failure(SplitError)
  }

  /** The geneID cell must be text; dge_analysis keeps its split as is, dgeapy
      keeps each gene of the three cells once. */
  lemma RowGenesSpec(v: Variant, cols: seq<string>, row: Row)
    ensures var r := RowGenes(v, cols, row);
      && (r.Success? <==> GeneListKey in cols && Get(row, GeneListKey).Str?)
      && (r.Success? && v == Analysis ==> r.value == Split(Get(row, GeneListKey).s, '/'))
      && (r.Success? && v == Dgeapy ==> Distinct(r.value))
      && (r.Success? && v == Dgeapy ==> forall g :: g in r.value <==>
           || g in Split(Get(row, GeneListKey).s, '/')
           || g in OptionalGenes(cols, row, UpGenesKey)
           || g in OptionalGenes(cols, row, DownGenesKey))
  {
  }

  /** Row i of the GO table: its annotation is read first, then its genes. */
  function MentionAt(go: Table, i: nat, v: Variant): (r: Result<Mention>)
    requires i < |go.rows|
    ensures r.Success? <==> AnnotationAt(go, i).Success? && RowGenes(v, go.columns, go.rows[i]).Success?
    ensures r.Success? ==> r.value == Mention(RowGenes(v, go.columns, go.rows[i]).value, AnnotationAt(go, i).value)
  {
    var a := AnnotationAt(go, i);
    if a.Failure? then Failure(a.error)
    else
      var ids := RowGenes(v, go.columns, go.rows[i]);
      if ids.Failure? then Failure(ids.error)
      else Success(Mention(ids.value, a.value))
  }

  /** Each row of the GO table read on its own. */
  function RowReads(go: Table, v: Variant): (rs: seq<Result<Mention>>)
    ensures |rs| == |go.rows| && forall i :: 0 <= i < |go.rows| ==> rs[i] == MentionAt(go, i, v)
  {
    seq(|go.rows|, i requires 0 <= i < |go.rows| => MentionAt(go, i, v))
  }

  /** The rows read in order; the first row that raises stops the loop. */
  function Collect(rs: seq<Result<Mention>>): Result<seq<Mention>>
  {
    if rs == [] then Success([])
    else
      var prev := Collect(rs[..|rs| - 1]);
      var last := rs[|rs| - 1];
      if prev.Failure? then prev
      else if last.Failure? then Failure(last.error)
      else Success(prev.value + [last.value])
  }

  /** The rows of a GO table as the dict-building loop reads them. */
  function GoRows(go: Table, v: Variant): Result<seq<Mention>>
  {
    Collect(RowReads(go, v))
  }

  /** Reading succeeds exactly when every row can be read, and then yields one
      mention per row. */
  lemma {:induction false} CollectSpec(rs: seq<Result<Mention>>)
    ensures Collect(rs).Success? <==> forall i :: 0 <= i < |rs| ==> rs[i].Success?
    ensures Collect(rs).Success? ==> |Collect(rs).value| == |rs|
    ensures Collect(rs).Success? ==> forall i :: 0 <= i < |rs| ==> Collect(rs).value[i] == rs[i].value
    decreases |rs|
  {
    if rs != [] {
      var p := rs[..|rs| - 1];
      CollectSpec(p);
      assert forall i :: 0 <= i < |p| ==> p[i] == rs[i];
    }
  }

  /** One more row read. */
  lemma CollectSnoc(rs: seq<Result<Mention>>, n: nat, ms: seq<Mention>)
    requires n < |rs| && Collect(rs[..n]) == Success(ms)
    ensures rs[n].Success? ==> Collect(rs[..n + 1]) == Success(ms + [rs[n].value])
    ensures rs[n].Failure? ==> Collect(rs).Failure?
  {
    assert rs[..n + 1][..n] == rs[..n];
    CollectSpec(rs);
  }

  /** dgeapy reads each gene of a row once. */
  lemma DgeapyRowDistinct(go: Table, i: nat)
    requires i < |go.rows| && MentionAt(go, i, Dgeapy).Success?
    ensures Distinct(MentionAt(go, i, Dgeapy).value.genes)
  {
    RowGenesSpec(Dgeapy, go.columns, go.rows[i]);
  }

  /** `list(set(xs))`: each element once. Python's order is arbitrary; the model
      fixes one, each element at its first occurrence. */
  function Dedupe(xs: seq<string>): (r: seq<string>)
    ensures Distinct(r)
    ensures forall x :: x in r <==> x in xs
    decreases |xs|
  {
    if xs == [] then []
    else
      var r := Dedupe(xs[..|xs| - 1]);
      var x := xs[|xs| - 1];
      assert xs == xs[..|xs| - 1] + [x];
      if x in r then r else r + [x]
  }

  lemma DedupeSnoc(xs: seq<string>, x: string)
    ensures Dedupe(xs + [x]) == if x in xs then Dedupe(xs) else Dedupe(xs) + [x]
  {
    assert (xs + [x])[..|xs|] == xs;
  }

  /** Every gene every row names, row after row. */
  function AllGenes(ms: seq<Mention>): (r: seq<string>)
    ensures forall g :: g in r <==> exists i :: 0 <= i < |ms| && g in ms[i].genes
  {
    if ms == [] then []
    else
      var prev := ms[..|ms| - 1];
      var r := AllGenes(prev) + ms[|ms| - 1].genes;
      assert forall i :: 0 <= i < |prev| ==> prev[i] == ms[i];
      r
  }

  lemma AllGenesSnoc(ms: seq<Mention>, m: Mention)
    ensures AllGenes(ms + [m]) == AllGenes(ms) + m.genes
  {
    assert (ms + [m])[..|ms|] == ms;
  }

  /** The annotations of the rows that name g, in row order. */
  function AnnotationsOf(ms: seq<Mention>, g: string): seq<Annotation>
  {
    if ms == [] then []
    else AnnotationsOf(ms[..|ms| - 1], g) + (if g in ms[|ms| - 1].genes then [ms[|ms| - 1].ann] else [])
  }

  lemma AnnotationsSnoc(ms: seq<Mention>, m: Mention, g: string)
    ensures AnnotationsOf(ms + [m], g) == AnnotationsOf(ms, g) + (if g in m.genes then [m.ann] else [])
  {
    assert (ms + [m])[..|ms|] == ms;
  }

  /** A gene has annotations exactly when some row names it. */
  lemma {:induction false} AnnotationsNonEmpty(ms: seq<Mention>, g: string)
    ensures AnnotationsOf(ms, g) != [] <==> g in AllGenes(ms)
    decreases |ms|
  {
    if ms != [] {
      var prev := ms[..|ms| - 1];
      AnnotationsNonEmpty(prev, g);
      assert ms == prev + [ms[|ms| - 1]];
      AllGenesSnoc(prev, ms[|ms| - 1]);
    }
  }

  /** The annotations of a prefix of the rows come first. */
  lemma {:induction false} AnnotationsPrefix(ms: seq<Mention>, n: nat, g: string)
    requires n <= |ms|
    ensures |AnnotationsOf(ms[..n], g)| <= |AnnotationsOf(ms, g)|
    ensures AnnotationsOf(ms, g)[..|AnnotationsOf(ms[..n], g)|] == AnnotationsOf(ms[..n], g)
    decreases |ms| - n
  {
    if n == |ms| {
      assert ms[..n] == ms;
    } else {
      var prev := ms[..|ms| - 1];
      AnnotationsPrefix(prev, n, g);
      assert prev[..n] == ms[..n];
      assert ms == prev + [ms[|ms| - 1]];
      AnnotationsSnoc(prev, ms[|ms| - 1], g);
    }
  }

  /** The k-th row that names a gene is its k-th annotation (counting from 0):
      row i is stored under `go_annotation_k` where k rows before it name the gene. */
  lemma StoredAtRank(ms: seq<Mention>, i: nat, g: string)
    requires i < |ms| && g in ms[i].genes
    ensures |AnnotationsOf(ms[..i], g)| < |AnnotationsOf(ms, g)|
    ensures AnnotationsOf(ms, g)[|AnnotationsOf(ms[..i], g)|] == ms[i].ann
  {
    AnnotationsPrefix(ms, i + 1, g);
    assert ms[..i + 1] == ms[..i] + [ms[i]];
    AnnotationsSnoc(ms[..i], ms[i], g);
  }

  // ---------------------------------------------------------------------------
  // Writing into the DEG table

  const GoColumns: seq<string> := [OutCategory, OutId, OutDescription]

  /** `np.where(df["gene_id"] == gene)[0]`: the positions whose gene_id is `gene`. */
  function Positions(rows: seq<Row>, gene: string): (ps: seq<nat>)
    ensures forall k: nat :: k in ps <==> k < |rows| && Get(rows[k], GeneIdKey) == Str(gene)
    ensures forall a, b :: 0 <= a < b < |ps| ==> ps[a] < ps[b]
    decreases |rows|
  {
    if rows == [] then []
    else
      var n := |rows| - 1;
      var prev := rows[..n];
      var ps := Positions(prev, gene);
      forall a | 0 <= a < |ps| ensures ps[a] < n {
        var k: nat := ps[a];
        assert k in ps;
      }
      var r := ps + (if Get(rows[n], GeneIdKey) == Str(gene) then [n] else []);
      assert forall k: nat :: k in r <==> k < |rows| && Get(rows[k], GeneIdKey) == Str(gene) by {
        forall k: nat ensures k in r <==> k < |rows| && Get(rows[k], GeneIdKey) == Str(gene) {
          if k < n { assert prev[k] == rows[k]; }
        }
      }
      r
  }

  /** The texts of cells that are all strings. */
  function Texts(cs: seq<Cell>): (ts: seq<string>)
    requires forall k :: 0 <= k < |cs| ==> cs[k].Str?
    ensures |ts| == |cs| && forall k :: 0 <= k < |cs| ==> ts[k] == cs[k].s
  {
    if cs == [] then [] else [cs[0].s] + Texts(cs[1..])
  }

  /** `"/".join(values)`: only strings can be joined, anything else (NaN, a number)
      raises TypeError. */
  function JoinCells(cs: seq<Cell>): (r: Result<string>)
    ensures r.Success? <==> forall k :: 0 <= k < |cs| ==> cs[k].Str?
  {
    if forall k :: 0 <= k < |cs| ==> cs[k].Str? then Success(Join(Texts(cs), '/'))
    else Failure(JoinError)
  }

  /** Joined values free of "/" can be split apart again. */
  lemma JoinCellsSplit(cs: seq<Cell>)
    requires cs != [] && forall k :: 0 <= k < |cs| ==> cs[k].Str? && '/' !in cs[k].s
    ensures JoinCells(cs).Success? && Split(JoinCells(cs).value, '/') == Texts(cs)
  {
    var ts := Texts(cs);
    assert forall k :: 0 <= k < |ts| ==> '/' !in ts[k];
    SplitJoin(ts, '/');
    assert JoinCells(cs) == Success(Join(ts, '/'));
  }

  /** The categories (ids, descriptions) of a gene's annotations, in order. */
  function Categories(anns: seq<Annotation>): (cs: seq<Cell>)
    ensures |cs| == |anns| && forall k :: 0 <= k < |anns| ==> cs[k] == anns[k].category
  {
    seq(|anns|, k requires 0 <= k < |anns| => anns[k].category)
  }

  function Ids(anns: seq<Annotation>): (cs: seq<Cell>)
    ensures |cs| == |anns| && forall k :: 0 <= k < |anns| ==> cs[k] == anns[k].id
  {
    seq(|anns|, k requires 0 <= k < |anns| => anns[k].id)
  }

  function Descriptions(anns: seq<Annotation>): (cs: seq<Cell>)
    ensures |cs| == |anns| && forall k :: 0 <= k < |anns| ==> cs[k] == anns[k].description
  {
    seq(|anns|, k requires 0 <= k < |anns| => anns[k].description)
  }

  /** What `add_go_columns` writes for a gene: its one annotation verbatim, or
      each of the three fields of all its annotations "/"-joined in order. */
  function GoValues(anns: seq<Annotation>): Result<Annotation>
  {
    if |anns| == 1 then Success(anns[0])
    else
      var c := JoinCells(Categories(anns));
      var i := JoinCells(Ids(anns));
      var d := JoinCells(Descriptions(anns));
      if c.Failure? then Failure(c.error)
      else if i.Failure? then Failure(i.error)
      else if d.Failure? then Failure(d.error)
      else Success(Annotation(Str(c.value), Str(i.value), Str(d.value)))
  }

  /** One annotation is written as it is; several are joined, which needs every
      field of every annotation to be text. */
  lemma GoValuesSpec(anns: seq<Annotation>)
    ensures var r := GoValues(anns);
      && (|anns| == 1 ==> r == Success(anns[0]))
      && (|anns| != 1 ==> (r.Success? <==> forall k :: 0 <= k < |anns| ==>
            anns[k].category.Str? && anns[k].id.Str? && anns[k].description.Str?))
      && (|anns| != 1 && r.Success? ==> r.value.category.Str? && r.value.id.Str? && r.value.description.Str?)
  {
  }

  /** Several annotations free of "/" can be read back from the joined values,
      field by field and in annotation order. */
  lemma GoValuesSplit(anns: seq<Annotation>)
    requires |anns| >= 2 && GoValues(anns).Success?
    requires forall k :: 0 <= k < |anns| ==>
      '/' !in anns[k].category.s && '/' !in anns[k].id.s && '/' !in anns[k].description.s
    ensures var v := GoValues(anns).value;
      && Split(v.category.s, '/') == Texts(Categories(anns))
      && Split(v.id.s, '/') == Texts(Ids(anns))
      && Split(v.description.s, '/') == Texts(Descriptions(anns))
  {
    JoinCellsSplit(Categories(anns));
    JoinCellsSplit(Ids(anns));
    JoinCellsSplit(Descriptions(anns));
  }

  /** `df.at[i, "GO_category"] = ..` and so on for the three columns. */
  function WriteTriple(row: Row, a: Annotation): Row
  {
    row[OutCategory := a.category][OutId := a.id][OutDescription := a.description]
  }

  /** `pd.concat([df, pd.DataFrame(columns=[GO columns])])`: the GO columns the
      table lacks go last, filled with NaN; every existing cell is kept. */
  function PadGo(t: Table): (p: Table)
    ensures |t.columns| <= |p.columns| <= |t.columns| + 3 && p.columns[..|t.columns|] == t.columns
    ensures forall c :: c in p.columns <==> c in t.columns || c in GoColumns
    ensures |p.rows| == |t.rows|
    ensures forall k, c :: 0 <= k < |t.rows| ==> Get(p.rows[k], c) == Get(t.rows[k], c)
    ensures forall k, c :: 0 <= k < |t.rows| && c in GoColumns ==> c in p.rows[k]
  {
    var cols := t.columns + (if OutCategory in t.columns then [] else [OutCategory])
                          + (if OutId in t.columns then [] else [OutId])
                          + (if OutDescription in t.columns then [] else [OutDescription]);
    assert cols[..|t.columns|] == t.columns;
    Table(cols, seq(|t.rows|, k requires 0 <= k < |t.rows| => PadRow(t.rows[k])))
  }

  function PadRow(r: Row): (o: Row)
    ensures forall c :: Get(o, c) == Get(r, c)
    ensures forall c :: c in GoColumns ==> c in o
  {
    r + map c | c in GoColumns && c !in r :: Missing
  }

  predicate HasGoColumns(cols: seq<string>)
  {
    OutCategory in cols && OutId in cols && OutDescription in cols
  }

  /** The row once the genes `done` are written: a row whose gene_id is one of
      them carries that gene's values in its GO cells. */
  function Annotated(row: Row, d: GoDict, done: seq<string>): Row
  {
    var id := Get(row, GeneIdKey);
    if id.Str? && id.s in done && id.s in d.entries && GoValues(d.entries[id.s]).Success?
    then WriteTriple(row, GoValues(d.entries[id.s]).value)
    else row
  }

  /** A gene of the dict can be written: gene_id is a column, exactly one row
      holds the gene, and its values can be joined. */
  predicate Writable(t: Table, d: GoDict, g: string)
  {
    GeneIdKey in t.columns && |Positions(t.rows, g)| == 1 && g in d.entries && GoValues(d.entries[g]).Success?
  }

  /** The `for gene in go_dictionary` loop of `add_go_columns`, writing each gene's
      values on the row that holds it. `int(np.where(..)[0])` raises unless the
      gene is on exactly one row; the pipeline's frames carry the default index,
      so that position is also the label `df.at` writes to. The gene_id column is
      never written, so positions are looked up in the table as it was. */
  method WriteAnnotations(t: Table, d: GoDict) returns (r: Result<Table>)
    requires ValidDict(d)
    requires HasGoColumns(t.columns)
    ensures r.Success? <==> forall g :: g in d.order ==> Writable(t, d, g)
    ensures r.Success? ==> r.value.columns == t.columns && |r.value.rows| == |t.rows|
    ensures r.Success? ==> forall k :: 0 <= k < |t.rows| ==> r.value.rows[k] == Annotated(t.rows[k], d, d.order)
  {
    var f := new Frame(t);
    var j := 0;
    while j < |d.order|
      invariant 0 <= j <= |d.order|
      invariant f.columns == t.columns && |f.rows| == |t.rows|
      invariant forall g :: g in d.order[..j] ==> Writable(t, d, g)
      invariant forall k :: 0 <= k < |t.rows| ==> f.rows[k] == Annotated(t.rows[k], d, d.order[..j])
    {
      var g := d.order[j];
      assert g in d.order;
      if GeneIdKey !in t.columns {
        return Failure(KeyError);
      }
      var ps := Positions(t.rows, g);
      if |ps| != 1 {
        return Failure(ScalarError);
      }
      var vals := GoValues(d.entries[g]);
      if vals.Failure? {
        return Failure(vals.error);
      }
      var p := ps[0];
      ghost var before := f.rows;
      WriteStep(t, d, j, before, p, vals.value);
      f.SetCell(p, OutCategory, vals.value.category);
      f.SetCell(p, OutId, vals.value.id);
      f.SetCell(p, OutDescription, vals.value.description);
      assert f.rows == before[p := WriteTriple(before[p], vals.value)];
      j := j + 1;
    }
    assert d.order[..j] == d.order;
    r := Success(f.Value());
  }

  /** Writing gene j's values on its row extends the written genes by one. */
  lemma WriteStep(t: Table, d: GoDict, j: nat, rows: seq<Row>, p: nat, vals: Annotation)
    requires ValidDict(d) && j < |d.order| && |rows| == |t.rows|
    requires forall k :: 0 <= k < |t.rows| ==> rows[k] == Annotated(t.rows[k], d, d.order[..j])
    requires Positions(t.rows, d.order[j]) == [p]
    requires d.order[j] in d.entries && GoValues(d.entries[d.order[j]]) == Success(vals)
    ensures p < |rows|
    ensures forall k :: 0 <= k < |t.rows| ==>
      rows[p := WriteTriple(rows[p], vals)][k] == Annotated(t.rows[k], d, d.order[..j + 1])
  {
    var g := d.order[j];
    PrefixSnoc(d.order, j, g);
    assert p in Positions(t.rows, g);
    assert g !in d.order[..j] by {
      forall a | 0 <= a < j ensures d.order[..j][a] != g {
      }
    }
    forall k | 0 <= k < |t.rows|
      ensures rows[p := WriteTriple(rows[p], vals)][k] == Annotated(t.rows[k], d, d.order[..j + 1])
    {
      if k != p {
        assert k !in Positions(t.rows, g);
      }
    }
  }

  /** The three GO cells of a row, read back as an annotation. */
  function GoCells(row: Row): Annotation
  {
    Annotation(Get(row, OutCategory), Get(row, OutId), Get(row, OutDescription))
  }

  lemma WriteTripleCells(row: Row, a: Annotation)
    ensures GoCells(WriteTriple(row, a)) == a
    ensures forall c :: c !in GoColumns ==> Get(WriteTriple(row, a), c) == Get(row, c)
  {
  }

  /** Padding keeps every gene on the rows it was on. */
  lemma PositionsOfPadded(df: Table)
    ensures forall g :: Positions(PadGo(df).rows, g) == Positions(df.rows, g)
  {
    forall g ensures Positions(PadGo(df).rows, g) == Positions(df.rows, g) {
      SamePositions(PadGo(df).rows, df.rows, g);
    }
  }

  lemma {:induction false} SamePositions(a: seq<Row>, b: seq<Row>, g: string)
    requires |a| == |b| && forall k :: 0 <= k < |a| ==> Get(a[k], GeneIdKey) == Get(b[k], GeneIdKey)
    ensures Positions(a, g) == Positions(b, g)
    decreases |a|
  {
    if a != [] {
      SamePositions(a[..|a| - 1], b[..|b| - 1], g);
    }
  }
}
