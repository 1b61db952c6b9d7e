/** `create_go_dict` and `add_go_columns` of dge_analysis/add_columns.py. Each
    gene keeps only the annotation of the last GO row that names it (a later row
    overwrites the entry, which keeps its place in the dict), and the values are
    written on the row that holds the gene. */
module AnalysisGo {
  import opened Wrappers
  import opened Tables
  import opened GoCommon

  /** The dict of `create_go_dict`: genes in the order they were first stored,
      each with one annotation. */
  datatype LastDict = LastDict(order: seq<string>, entries: map<string, Annotation>)

  /** The annotation of the last row naming g, if any. */
  function LastOf(ms: seq<Mention>, g: string): Option<Annotation>
  {
    if ms == [] then None
    else if g in ms[|ms| - 1].genes then Some(ms[|ms| - 1].ann)
    else LastOf(ms[..|ms| - 1], g)
  }

  lemma LastOfSnoc(ms: seq<Mention>, m: Mention, g: string)
    ensures LastOf(ms + [m], g) == if g in m.genes then Some(m.ann) else LastOf(ms, g)
  {
    assert (ms + [m])[..|ms|] == ms;
  }

  /** Last wins: a gene has an annotation exactly when some row names it, and it
      is the one of the row naming it that no later row names. */
  lemma {:induction false} LastOfRow(ms: seq<Mention>, g: string)
    ensures LastOf(ms, g).Some? <==> g in AllGenes(ms)
    ensures forall i :: 0 <= i < |ms| && g in ms[i].genes && (forall j :: i < j < |ms| ==> g !in ms[j].genes) ==>
      LastOf(ms, g) == Some(ms[i].ann)
    decreases |ms|
  {
    if ms != [] {
      var n := |ms| - 1;
      var prev := ms[..n];
      LastOfRow(prev, g);
      assert ms == prev + [ms[n]];
      AllGenesSnoc(prev, ms[n]);
      forall i | 0 <= i < n && g in ms[i].genes && (forall j :: i < j < |ms| ==> g !in ms[j].genes)
        ensures LastOf(ms, g) == Some(ms[i].ann)
      {
        assert g !in ms[n].genes;
        assert prev[i] == ms[i];
        assert forall j :: i < j < |prev| ==> prev[j] == ms[j];
      }
    }
  }

  /** Against dgeapy, which keeps every annotation: the kept one is the last of
      them. */
  lemma {:induction false} LastOfAnnotations(ms: seq<Mention>, g: string)
    ensures var a := AnnotationsOf(ms, g);
      LastOf(ms, g) == if a == [] then None else Some(a[|a| - 1])
    decreases |ms|
  {
    if ms != [] {
      LastOfAnnotations(ms[..|ms| - 1], g);
    }
  }

  /** The dict holds exactly the genes of the rows read so far, in the order they
      were first met, each with the annotation of the last row naming it. */
  ghost predicate LastDictOf(d: LastDict, ms: seq<Mention>)
  {
    && d.order == Dedupe(AllGenes(ms))
    && (forall g :: g in d.entries <==> g in d.order)
    && forall g :: g in d.entries ==> LastOf(ms, g) == Some(d.entries[g])
  }

  /** `create_go_dict`: every gene of every row gets the row's annotation; the
      first row that raises makes the whole call raise. */
  method CreateGoDict(go: Table) returns (r: Result<LastDict>)
    ensures r.Success? <==> GoRows(go, Analysis).Success?
    ensures r.Success? ==> LastDictOf(r.value, GoRows(go, Analysis).value)
  {
    var d := LastDict([], map[]);
    ghost var rs := RowReads(go, Analysis);
    ghost var ms: seq<Mention> := [];
    var i := 0;
    while i < |go.rows|
      invariant 0 <= i <= |go.rows|
      invariant Collect(rs[..i]) == Success(ms)
      invariant LastDictOf(d, ms)
    {
      var m := MentionAt(go, i, Analysis);
      CollectSnoc(rs, i, ms);
      if m.Failure? {
        r := Failure(m.error);
        return;
      }
      d := StoreRow(d, ms, m.value);
      ms := ms + [m.value];
      i := i + 1;
    }
    assert rs[..i] == rs;
    r := Success(d);
  }

  /** The inner loop over the genes of one row: each is (re)bound to this row's
      annotation, a new gene going last. A gene listed twice is bound twice to
      the same annotation. */
  method StoreRow(d: LastDict, ghost ms: seq<Mention>, m: Mention) returns (e: LastDict)
    requires LastDictOf(d, ms)
    ensures LastDictOf(e, ms + [m])
  {
    var order, entries := d.order, d.entries;
    assert AllGenes(ms) + m.genes[..0] == AllGenes(ms);
    var j := 0;
    while j < |m.genes|
      invariant 0 <= j <= |m.genes|
      invariant StoreInv(order, entries, ms, m, j)
    {
      var gene := m.genes[j];
      StoreStep(order, entries, ms, m, j);
      if gene !in entries {
        order := order + [gene];
      }
      entries := entries[gene := m.ann];
      j := j + 1;
    }
    StoreDone(order, entries, ms, m);
    e := LastDict(order, entries);
  }

  /** The inner loop's invariant after the first j genes of row m. */
  ghost predicate StoreInv(order: seq<string>, entries: map<string, Annotation>, ms: seq<Mention>, m: Mention, j: nat)
    requires j <= |m.genes|
  {
    && order == Dedupe(AllGenes(ms) + m.genes[..j])
    && (forall g :: g in entries <==> g in order)
    && forall g :: g in entries ==>
         Some(entries[g]) == if g in m.genes[..j] then Some(m.ann) else LastOf(ms, g)
  }

  lemma StoreStep(order: seq<string>, entries: map<string, Annotation>, ms: seq<Mention>, m: Mention, j: nat)
    requires j < |m.genes| && StoreInv(order, entries, ms, m, j)
    ensures var gene := m.genes[j];
      StoreInv(if gene in entries then order else order + [gene], entries[gene := m.ann], ms, m, j + 1)
  {
    var gene := m.genes[j];
    var prev := AllGenes(ms) + m.genes[..j];
    assert m.genes[..j + 1] == m.genes[..j] + [gene];
    assert AllGenes(ms) + m.genes[..j + 1] == prev + [gene];
    DedupeSnoc(prev, gene);
    assert gene in entries <==> gene in prev;
    StoreEntries(entries, ms, m, j);
  }

  /** Rebinding gene j keeps the entries part of the invariant. */
  lemma StoreEntries(entries: map<string, Annotation>, ms: seq<Mention>, m: Mention, j: nat)
    requires j < |m.genes|
    requires forall g :: g in entries ==>
      Some(entries[g]) == if g in m.genes[..j] then Some(m.ann) else LastOf(ms, g)
    ensures var e := entries[m.genes[j] := m.ann];
      forall g :: g in e ==> Some(e[g]) == if g in m.genes[..j + 1] then Some(m.ann) else LastOf(ms, g)
  {
    var gene := m.genes[j];
    var e := entries[gene := m.ann];
    assert m.genes[..j + 1] == m.genes[..j] + [gene];
    forall g | g in e
      ensures Some(e[g]) == if g in m.genes[..j + 1] then Some(m.ann) else LastOf(ms, g)
    {
      if g != gene {
        assert e[g] == entries[g];
        assert g in m.genes[..j + 1] <==> g in m.genes[..j];
      }
    }
  }

  lemma StoreDone(order: seq<string>, entries: map<string, Annotation>, ms: seq<Mention>, m: Mention)
    requires StoreInv(order, entries, ms, m, |m.genes|)
    ensures LastDictOf(LastDict(order, entries), ms + [m])
  {
    assert m.genes[..|m.genes|] == m.genes;
    AllGenesSnoc(ms, m);
    forall g | g in entries
      ensures LastOf(ms + [m], g) == Some(entries[g])
    {
      LastOfSnoc(ms, m, g);
    }
  }

  /** The same dict with each annotation as a one-element list, the form the
      shared writing loop takes; one annotation is written as it is. */
  function AsGoDict(d: LastDict): (g: GoDict)
    ensures g.order == d.order
    ensures forall x :: x in g.entries <==> x in d.entries
    ensures forall x :: x in d.entries ==> g.entries[x] == [d.entries[x]] && GoValues(g.entries[x]) == Success(d.entries[x])
  {
    GoDict(d.order, map x | x in d.entries :: [d.entries[x]])
  }

  /** The genes `add_go_columns` can place: gene_id is a column and each gene is
      on exactly one row. */
  predicate Locatable(df: Table, ms: seq<Mention>)
  {
    forall g :: g in AllGenes(ms) ==> GeneIdKey in df.columns && |Positions(df.rows, g)| == 1
  }

  /** The GO cells a row ends up with: the last annotation of its gene when the
      GO table names that gene, otherwise what the row had (NaN for a new
      column). */
  ghost function LastCells(row: Row, ms: seq<Mention>): Annotation
  {
    var id := Get(row, GeneIdKey);
    if id.Str? && LastOf(ms, id.s).Some? then LastOf(ms, id.s).value else GoCells(row)
  }

  /** `add_go_columns`: the GO columns are added (NaN) when missing and each
      gene's annotation is written on the row holding it. The result is the
      local frame whose GO_description column the source prints; the caller's
      frame is not changed and nothing is returned to it. */
  method AddGoColumns(df: Table, go: Table) returns (r: Result<Table>)
    ensures r.Success? <==> GoRows(go, Analysis).Success? && Locatable(df, GoRows(go, Analysis).value)
    ensures r.Success? ==> r.value.columns == PadGo(df).columns && |r.value.rows| == |df.rows|
    ensures r.Success? ==> forall k, c :: 0 <= k < |df.rows| && c !in GoColumns ==>
      Get(r.value.rows[k], c) == Get(df.rows[k], c)
    ensures r.Success? ==> forall k :: 0 <= k < |df.rows| ==>
      GoCells(r.value.rows[k]) == LastCells(df.rows[k], GoRows(go, Analysis).value)
  {
    var d := CreateGoDict(go);
    if d.Failure? {
      return Failure(d.error);
    }
    ghost var ms := GoRows(go, Analysis).value;
    var t := PadGo(df);
    var gd := AsGoDict(d.value);
    WritableIffLocatable(df, d.value, ms);
    var w := WriteAnnotations(t, gd);
    if w.Success? {
      forall k | 0 <= k < |df.rows|
        ensures GoCells(w.value.rows[k]) == LastCells(df.rows[k], ms)
        ensures forall c :: c !in GoColumns ==> Get(w.value.rows[k], c) == Get(df.rows[k], c)
      {
        LastAnnotatedCells(df.rows[k], t.rows[k], d.value, ms);
      }
    }
    r := w;
  }

  lemma WritableIffLocatable(df: Table, d: LastDict, ms: seq<Mention>)
    requires LastDictOf(d, ms)
    ensures ValidDict(AsGoDict(d)) && HasGoColumns(PadGo(df).columns)
    ensures (forall g :: g in d.order ==> Writable(PadGo(df), AsGoDict(d), g)) <==> Locatable(df, ms)
  {
    PositionsOfPadded(df);
    assert GeneIdKey in PadGo(df).columns <==> GeneIdKey in df.columns;
    assert forall g :: g in d.order <==> g in AllGenes(ms);
  }

  /** One row after the writes: its GO cells are its gene's last annotation and
      the rest of the row is untouched. */
  lemma LastAnnotatedCells(row: Row, padded: Row, d: LastDict, ms: seq<Mention>)
    requires LastDictOf(d, ms)
    requires forall c :: Get(padded, c) == Get(row, c)
    ensures var out := Annotated(padded, AsGoDict(d), d.order);
      && GoCells(out) == LastCells(row, ms)
      && forall c :: c !in GoColumns ==> Get(out, c) == Get(row, c)
  {
    var id := Get(row, GeneIdKey);
    assert Get(padded, GeneIdKey) == id;
    if id.Str? && id.s in AllGenes(ms) {
      assert id.s in d.entries;
      WriteTripleCells(padded, d.entries[id.s]);
    } else {
      if id.Str? {
        LastOfRow(ms, id.s);
        assert id.s !in d.order;
      }
      assert GoCells(padded) == GoCells(row);
    }
  }
}
