/** `get_gene_IDs_list_from_GO_df`, `create_go_dict` and `add_go_columns` of
    dgeapy/add_columns.py. A gene keeps every annotation of every GO row that
    names it, in row order; genes with several annotations get their three
    fields "/"-joined. */
module DgeapyGo {
  import opened Wrappers
  import opened Tables
  import opened GoCommon

  /** `create_go_dict`: genes in the order they are first met; each gene maps to
      the annotations of the rows naming it, in row order, the k-th stored under
      `go_annotation_k` (see `StoredAtRank`). The first row that raises makes the
      whole call raise. */
  method CreateGoDict(go: Table) returns (r: Result<GoDict>)
    ensures r.Success? <==> GoRows(go, Dgeapy).Success?
    ensures r.Success? ==> DictOf(r.value, GoRows(go, Dgeapy).value)
  {
    var d := GoDict([], map[]);
    ghost var rs := RowReads(go, Dgeapy);
    ghost var ms: seq<Mention> := [];
    var i := 0;
    while i < |go.rows|
      invariant 0 <= i <= |go.rows|
      invariant Collect(rs[..i]) == Success(ms)
      invariant DictOf(d, ms)
    {
      var m := MentionAt(go, i, Dgeapy);
      CollectSnoc(rs, i, ms);
      if m.Failure? {
        r := Failure(m.error);
        return;
      }
      DgeapyRowDistinct(go, i);
      d := AddRow(d, ms, m.value);
      ms := ms + [m.value];
      i := i + 1;
    }
    assert rs[..i] == rs;
    r := Success(d);
  }

  /** The dict holds exactly the genes of the rows read so far, in the order they
      were first met, each with the annotations of the rows naming it. */
  ghost predicate DictOf(d: GoDict, ms: seq<Mention>)
  {
    && ValidDict(d)
    && d.order == Dedupe(AllGenes(ms))
    && forall g :: g in d.entries ==> d.entries[g] == AnnotationsOf(ms, g)
  }

  /** The inner loop of `create_go_dict` over the genes of one row: a known gene
      gets one more annotation, a new gene starts with this one. */
  method AddRow(d: GoDict, ghost ms: seq<Mention>, m: Mention) returns (e: GoDict)
    requires DictOf(d, ms) && Distinct(m.genes)
    ensures DictOf(e, ms + [m])
  {
    var order, entries := d.order, d.entries;
    assert AllGenes(ms) + m.genes[..0] == AllGenes(ms);
    var j := 0;
    while j < |m.genes|
      invariant 0 <= j <= |m.genes|
      invariant RowInv(order, entries, ms, m, j)
    {
      var gene := m.genes[j];
      AddGeneStep(order, entries, ms, m, j);
      if gene in entries {
        entries := entries[gene := entries[gene] + [m.ann]];
      } else {
        entries := entries[gene := [m.ann]];
        order := order + [gene];
      }
      j := j + 1;
    }
    RowDone(order, entries, ms, m);
    e := GoDict(order, entries);
  }

  /** The inner loop's invariant after the first j genes of row m. */
  ghost predicate RowInv(order: seq<string>, entries: map<string, seq<Annotation>>, ms: seq<Mention>, m: Mention, j: nat)
    requires j <= |m.genes|
  {
    && order == Dedupe(AllGenes(ms) + m.genes[..j])
    && (forall g :: g in entries <==> g in order)
    && forall g :: g in entries ==>
         entries[g] == AnnotationsOf(ms, g) + (if g in m.genes[..j] then [m.ann] else [])
  }

  lemma AddGeneStep(order: seq<string>, entries: map<string, seq<Annotation>>, ms: seq<Mention>, m: Mention, j: nat)
    requires j < |m.genes| && Distinct(m.genes) && RowInv(order, entries, ms, m, j)
    ensures var gene := m.genes[j];
      if gene in entries then RowInv(order, entries[gene := entries[gene] + [m.ann]], ms, m, j + 1)
      else RowInv(order + [gene], entries[gene := [m.ann]], ms, m, j + 1)
  {
    if m.genes[j] in entries {
      KnownGene(order, entries, ms, m, j);
    } else {
      NewGene(order, entries, ms, m, j);
    }
  }

  lemma KnownGene(order: seq<string>, entries: map<string, seq<Annotation>>, ms: seq<Mention>, m: Mention, j: nat)
    requires j < |m.genes| && Distinct(m.genes) && RowInv(order, entries, ms, m, j)
    requires m.genes[j] in entries
    ensures RowInv(order, entries[m.genes[j] := entries[m.genes[j]] + [m.ann]], ms, m, j + 1)
  {
    var gene := m.genes[j];
    var e := entries[gene := entries[gene] + [m.ann]];
    assert order == Dedupe(AllGenes(ms) + m.genes[..j + 1]) by {
      KnownOrder(order, AllGenes(ms), m.genes, j);
    }
    assert e.Keys == entries.Keys;
    assert forall g :: g in e ==> e[g] == AnnotationsOf(ms, g) + (if g in m.genes[..j + 1] then [m.ann] else []) by {
      InsertGene(AllGenes(ms), m.genes, j);
      EntriesStep(entries, ms, m, j, entries[gene] + [m.ann]);
    }
  }

  /** A gene already in the order leaves the order as it was. */
  lemma KnownOrder(order: seq<string>, prev: seq<string>, genes: seq<string>, j: nat)
    requires j < |genes| && Distinct(genes)
    requires order == Dedupe(prev + genes[..j]) && genes[j] in order
    ensures order == Dedupe(prev + genes[..j + 1])
  {
    InsertGene(prev, genes, j);
  }

  lemma NewGene(order: seq<string>, entries: map<string, seq<Annotation>>, ms: seq<Mention>, m: Mention, j: nat)
    requires j < |m.genes| && Distinct(m.genes) && RowInv(order, entries, ms, m, j)
    requires m.genes[j] !in entries
    ensures RowInv(order + [m.genes[j]], entries[m.genes[j] := [m.ann]], ms, m, j + 1)
  {
    var gene := m.genes[j];
    var e := entries[gene := [m.ann]];
    assert order + [gene] == Dedupe(AllGenes(ms) + m.genes[..j + 1]) by {
      NewOrder(order, AllGenes(ms), m.genes, j);
    }
    assert e.Keys == entries.Keys + {gene};
    assert forall g :: g in e ==> e[g] == AnnotationsOf(ms, g) + (if g in m.genes[..j + 1] then [m.ann] else []) by {
      InsertGene(AllGenes(ms), m.genes, j);
      assert gene !in AllGenes(ms) + m.genes[..j];
      AnnotationsNonEmpty(ms, gene);
      EntriesStep(entries, ms, m, j, [m.ann]);
    }
  }

  /** A gene not yet in the order is appended to it. */
  lemma NewOrder(order: seq<string>, prev: seq<string>, genes: seq<string>, j: nat)
    requires j < |genes| && Distinct(genes)
    requires order == Dedupe(prev + genes[..j]) && genes[j] !in order
    ensures order + [genes[j]] == Dedupe(prev + genes[..j + 1])
  {
    InsertGene(prev, genes, j);
  }

  /** The entries after gene j of row m is given `v`, the annotations of the
      earlier rows and this row's: every entry is still as the invariant says. */
  lemma EntriesStep(entries: map<string, seq<Annotation>>, ms: seq<Mention>, m: Mention, j: nat, v: seq<Annotation>)
    requires j < |m.genes| && Distinct(m.genes)
    requires m.genes[j] !in m.genes[..j]
    requires forall g :: g in entries ==>
      entries[g] == AnnotationsOf(ms, g) + (if g in m.genes[..j] then [m.ann] else [])
    requires v == AnnotationsOf(ms, m.genes[j]) + [m.ann]
    ensures forall g :: g in entries[m.genes[j] := v] ==>
      entries[m.genes[j] := v][g] == AnnotationsOf(ms, g) + (if g in m.genes[..j + 1] then [m.ann] else [])
  {
    var gene := m.genes[j];
    assert m.genes[..j + 1] == m.genes[..j] + [gene];
    forall g | g in entries[gene := v]
      ensures entries[gene := v][g] == AnnotationsOf(ms, g) + (if g in m.genes[..j + 1] then [m.ann] else [])
    {
      if g != gene {
        assert (g in m.genes[..j + 1]) == (g in m.genes[..j]);
      }
    }
  }

  /** A gene not met in this row before is new to the dict exactly when no
      earlier row named it. */
  lemma InsertGene(prev: seq<string>, genes: seq<string>, j: nat)
    requires j < |genes| && Distinct(genes)
    ensures genes[j] !in genes[..j]
    ensures Dedupe(prev + genes[..j + 1])
         == if genes[j] in prev + genes[..j] then Dedupe(prev + genes[..j]) else Dedupe(prev + genes[..j]) + [genes[j]]
    ensures forall g :: g in genes[..j + 1] <==> g in genes[..j] || g == genes[j]
  {
    assert genes[..j + 1] == genes[..j] + [genes[j]];
    assert prev + genes[..j + 1] == (prev + genes[..j]) + [genes[j]];
    DedupeSnoc(prev + genes[..j], genes[j]);
  }

  lemma RowDone(order: seq<string>, entries: map<string, seq<Annotation>>, ms: seq<Mention>, m: Mention)
    requires Distinct(m.genes) && RowInv(order, entries, ms, m, |m.genes|)
    ensures DictOf(GoDict(order, entries), ms + [m])
  {
    assert m.genes[..|m.genes|] == m.genes;
    AllGenesSnoc(ms, m);
    forall g | g in entries
      ensures entries[g] == AnnotationsOf(ms + [m], g)
    {
      AnnotationsSnoc(ms, m, g);
    }
  }

  /** The genes of the GO table that `add_go_columns` can place: gene_id is a
      column, each gene is on exactly one row, and its values can be joined. */
  predicate Placeable(df: Table, ms: seq<Mention>)
  {
    forall g :: g in AllGenes(ms) ==>
      GeneIdKey in df.columns && |Positions(df.rows, g)| == 1 && GoValues(AnnotationsOf(ms, g)).Success?
  }

  /** `add_go_columns` with each gene's values written on the row holding the
      gene. The three GO columns are added (NaN) when missing; a row whose gene
      the GO table names gets that gene's values, every other cell is kept. */
  method AddGoColumns(df: Table, go: Table) returns (r: Result<Table>)
    ensures r.Success? <==> GoRows(go, Dgeapy).Success? && Placeable(df, GoRows(go, Dgeapy).value)
    ensures r.Success? ==> r.value.columns == PadGo(df).columns && |r.value.rows| == |df.rows|
    ensures r.Success? ==> forall k, c :: 0 <= k < |df.rows| && c !in GoColumns ==>
      Get(r.value.rows[k], c) == Get(df.rows[k], c)
    ensures r.Success? ==> forall k :: 0 <= k < |df.rows| ==>
      GoCells(r.value.rows[k]) == PlacedCells(df.rows[k], GoRows(go, Dgeapy).value)
  {
    var d := CreateGoDict(go);
    if d.Failure? {
      return Failure(d.error);
    }
    ghost var ms := GoRows(go, Dgeapy).value;
    var t := PadGo(df);
    WritableIffPlaceable(df, d.value, ms);
    var w := WriteAnnotations(t, d.value);
    if w.Success? {
      forall k | 0 <= k < |df.rows|
        ensures GoCells(w.value.rows[k]) == PlacedCells(df.rows[k], ms)
        ensures forall c :: c !in GoColumns ==> Get(w.value.rows[k], c) == Get(df.rows[k], c)
      {
        AnnotatedCells(df.rows[k], t.rows[k], d.value, ms);
      }
    }
    r := w;
  }

  /** The GO cells `add_go_columns` leaves on a row: the values of its gene when
      the GO table names that gene, otherwise what the row had (NaN for a new
      column). */
  ghost function PlacedCells(row: Row, ms: seq<Mention>): Annotation
  {
    var id := Get(row, GeneIdKey);
    if id.Str? && id.s in AllGenes(ms) && GoValues(AnnotationsOf(ms, id.s)).Success?
    then GoValues(AnnotationsOf(ms, id.s)).value
    else GoCells(row)
  }

  lemma WritableIffPlaceable(df: Table, d: GoDict, ms: seq<Mention>)
    requires DictOf(d, ms)
    ensures (forall g :: g in d.order ==> Writable(PadGo(df), d, g)) <==> Placeable(df, ms)
    ensures HasGoColumns(PadGo(df).columns)
  {
    PositionsOfPadded(df);
    assert GeneIdKey in PadGo(df).columns <==> GeneIdKey in df.columns;
    assert forall g :: g in d.order <==> g in AllGenes(ms);
  }

  /** One row after the writes: its GO cells are the placed ones and the rest of
      the row is untouched. */
  lemma AnnotatedCells(row: Row, padded: Row, d: GoDict, ms: seq<Mention>)
    requires DictOf(d, ms)
    requires forall c :: Get(padded, c) == Get(row, c)
    requires forall g :: g in AllGenes(ms) ==> GoValues(AnnotationsOf(ms, g)).Success?
    ensures GoCells(Annotated(padded, d, d.order)) == PlacedCells(row, ms)
    ensures forall c :: c !in GoColumns ==> Get(Annotated(padded, d, d.order), c) == Get(row, c)
  {
    var id := Get(row, GeneIdKey);
    assert Get(padded, GeneIdKey) == id;
    if id.Str? && id.s in AllGenes(ms) {
      assert id.s in d.order && d.entries[id.s] == AnnotationsOf(ms, id.s);
      WriteTripleCells(padded, GoValues(AnnotationsOf(ms, id.s)).value);
    } else {
      assert id.Str? ==> id.s !in d.order;
      assert Annotated(padded, d, d.order) == padded;
      assert GoCells(padded) == GoCells(row);
    }
  }

  // ---------------------------------------------------------------------------
  // The loop as written

  /** A frame whose rows carry pandas index labels. */
  datatype Labelled = Labelled(t: Table, labels: seq<nat>)

  function IndexOf(labels: seq<nat>, l: nat): (p: nat)
    requires l in labels
    ensures p < |labels| && labels[p] == l
  {
    if labels[0] == l then 0 else 1 + IndexOf(labels[1..], l)
  }

  /** A row of NaN. */
  function NaNRow(cols: seq<string>): Row
  {
    map c | c in cols :: Missing
  }

  /** `df.at[label, c] = v`: writes the row with that label; when no row has it,
      pandas enlarges the frame with a row of NaN under that label. */
  function AtLabel(f: Labelled, at: nat, c: string, v: Cell): (g: Labelled)
    requires |f.labels| == |f.t.rows|
    ensures |g.labels| == |g.t.rows|
  {
    if at in f.labels then
      var p := IndexOf(f.labels, at);
      Labelled(Table(f.t.columns, f.t.rows[p := f.t.rows[p][c := v]]), f.labels)
    else
      Labelled(Table(f.t.columns, f.t.rows + [NaNRow(f.t.columns)[c := v]]), f.labels + [at])
  }

  function AtLabelTriple(f: Labelled, at: nat, a: Annotation): (g: Labelled)
    requires |f.labels| == |f.t.rows|
    ensures |g.labels| == |g.t.rows|
  {
    AtLabel(AtLabel(AtLabel(f, at, OutCategory, a.category), at, OutId, a.id), at, OutDescription, a.description)
  }

  /** The `for gene in go_dictionary` loop exactly as dgeapy/add_columns.py has
      it: the inner `for i in range(n_of_go_annotations)` rebinds `i`, so the
      joined values of a gene with n >= 2 annotations go to label n-1, not to the
      gene's row. */
  function WriteAsWritten(f: Labelled, d: GoDict, j: nat): Result<Labelled>
    requires ValidDict(d) && j <= |d.order| && |f.labels| == |f.t.rows|
    decreases |d.order| - j
  {
    if j == |d.order| then Success(f)
    else
      var g := d.order[j];
      assert g in d.order;
      if GeneIdKey !in f.t.columns then Failure(KeyError)
      else
        var ps := Positions(f.t.rows, g);
        if |ps| != 1 then Failure(ScalarError)
        else
          var anns := d.entries[g];
          var vals := GoValues(anns);
          if vals.Failure? then Failure(vals.error)
          else
            var at := if |anns| >= 2 then |anns| - 1 else ps[0];
            WriteAsWritten(AtLabelTriple(f, at, vals.value), d, j + 1)
  }

  const GeneA := "A"
  const GeneB := "B"
  const TextX := "x"
  const TextY := "y"
  const TextXY := "x/y"

  /** Two DEG rows, genes A and B, with no GO values yet. */
  function ExampleTable(): Table
  {
    Table([GeneIdKey, OutCategory, OutId, OutDescription],
          [map[GeneIdKey := Str(GeneA)], map[GeneIdKey := Str(GeneB)]])
  }

  /** Gene A with two annotations. */
  function ExampleDict(): GoDict
  {
    var x := Annotation(Str(TextX), Str(TextX), Str(TextX));
    var y := Annotation(Str(TextY), Str(TextY), Str(TextY));
    GoDict([GeneA], map[GeneA := [x, y]])
  }

  function JoinedXY(): Annotation
  {
    Annotation(Str(TextXY), Str(TextXY), Str(TextXY))
  }

  lemma ExampleShape()
    ensures ValidDict(ExampleDict())
    ensures Positions(ExampleTable().rows, GeneA) == [0]
  {
    var t := ExampleTable();
    assert t.rows[..1] == [t.rows[0]];
    assert Positions(t.rows[..1][..0], GeneA) == [];
  }

  lemma ExampleValues()
    ensures GoValues(ExampleDict().entries[GeneA]) == Success(JoinedXY())
  {
    var anns := ExampleDict().entries[GeneA];
    assert Texts(Categories(anns)) == [TextX, TextY];
    assert Texts(Ids(anns)) == [TextX, TextY];
    assert Texts(Descriptions(anns)) == [TextX, TextY];
    assert Join([TextX, TextY], '/') == TextXY;
  }

  /** Gene A sits on row 0, but the loop as written puts its joined values on
      row 1 (label n-1 with n = 2), over gene B, and leaves row 0 empty. */
  lemma AsWrittenMisplacesJoinedValues()
    ensures ValidDict(ExampleDict())
    ensures var w := WriteAsWritten(Labelled(ExampleTable(), [0, 1]), ExampleDict(), 0);
      && w.Success?
      && |w.value.t.rows| == 2
      && Get(w.value.t.rows[0], OutCategory) == Missing
      && Get(w.value.t.rows[1], OutCategory) == Str(TextXY)
  {
    ExampleShape();
    ExampleValues();
    var f := Labelled(ExampleTable(), [0, 1]);
    var g := AtLabelTriple(f, 1, JoinedXY());
    assert IndexOf([0, 1], 1) == 1;
    assert g.t.rows[0] == f.t.rows[0];
    assert WriteAsWritten(f, ExampleDict(), 0) == WriteAsWritten(g, ExampleDict(), 1);
  }

  /** On the same input the corrected loop writes gene A's joined values on
      row 0 and leaves row 1 alone. */
  lemma CorrectedPlacesJoinedValues()
    ensures ValidDict(ExampleDict())
    ensures Get(Annotated(ExampleTable().rows[0], ExampleDict(), ExampleDict().order), OutCategory) == Str(TextXY)
    ensures Annotated(ExampleTable().rows[1], ExampleDict(), ExampleDict().order) == ExampleTable().rows[1]
  {
    ExampleShape();
    ExampleValues();
  }
}
