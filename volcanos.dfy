/** The per-row UP/DOWN/NO classification behind the volcano plots and the
    count-bearing colour labels of their legends: `generate_volcano_plot` of
    dgeapy/volcanos.py and dgeapy/generate_plots.py (inclusive boundaries, colour
    column appended last) and of dge_analysis/generate_plots.py (strict
    boundaries, colour column inserted at position 1). The thresholds arrive as
    their logarithms: `t` is log2 of the fold-change threshold, `pt` is -log10
    of the padj threshold, and each row's -log10(padj) is given. */
module Volcanos {
  import opened Wrappers
  import opened Tables
  import opened Frames

  datatype Regulation = Up | Down | No

  /** Which of the two boundary conventions a plot uses. */
  datatype Rule = Inclusive | Strict

  const ScoreKey := "-log10(padj)"
  const ColorKey := "color"
  const KeyError := "KeyError"
  const InsertError := "ValueError: cannot insert color, already exists"
  const UpPrefix := "Up ("
  const DownPrefix := "Down ("
  const NoPrefix := "Not sig ("
  const UpText := "UP"
  const DownText := "DOWN"
  const NoText := "NO"

  /** dgeapy's rule: an insignificant padj first, then the open band
      -t < lfc < t, then lfc <= -t, then lfc >= t. A comparison with NaN is
      false, so a NaN lfc falls through to "NO"; a NaN padj does not stop the
      row. */
  function InclusiveLabel(lfc: Cell, score: Cell, t: real, pt: real): (r: Regulation)
    ensures r == Down <==> !Below(score, pt) && AtMost(lfc, -t)
    ensures r == Up <==> !Below(score, pt) && AtLeast(lfc, t) && !AtMost(lfc, -t)
    ensures t > 0.0 ==> (r == Up <==> !Below(score, pt) && AtLeast(lfc, t))
    ensures lfc.Missing? || Below(score, pt) ==> r == No
  {
    if Below(score, pt) then No
    else if Above(lfc, -t) && Below(lfc, t) then No
    else if AtMost(lfc, -t) then Down
    else if AtLeast(lfc, t) then Up
    else No
  }

  /** dge_analysis's rule: the closed band -t <= lfc <= t is "NO", so only
      values strictly beyond the thresholds are regulated. */
  function StrictLabel(lfc: Cell, score: Cell, t: real, pt: real): (r: Regulation)
    ensures r == Down <==> !Below(score, pt) && Below(lfc, -t)
    ensures r == Up <==> !Below(score, pt) && Above(lfc, t) && !Below(lfc, -t)
    ensures t >= 0.0 ==> (r == Up <==> !Below(score, pt) && Above(lfc, t))
    ensures lfc.Missing? || Below(score, pt) ==> r == No
  {
    if Below(score, pt) then No
    else if AtLeast(lfc, -t) && AtMost(lfc, t) then No
    else if Below(lfc, -t) then Down
    else if Above(lfc, t) then Up
    else No
  }

  function Classify(rule: Rule, lfc: Cell, score: Cell, t: real, pt: real): Regulation
  {
    match rule
    case Inclusive => InclusiveLabel(lfc, score, t, pt)
    case Strict => StrictLabel(lfc, score, t, pt)
  }

  /** The two rules part only on the thresholds themselves: a significant row
      exactly at +t or -t is regulated for dgeapy and not for dge_analysis. */
  lemma RulesDifferOnlyAtBoundary(lfc: Cell, score: Cell, t: real, pt: real)
    requires t > 0.0
    ensures InclusiveLabel(lfc, score, t, pt) != StrictLabel(lfc, score, t, pt) <==>
      !Below(score, pt) && (lfc == Num(t) || lfc == Num(-t))
  {
  }

  /** One label per row, from the zipped lfc and -log10(padj) columns. */
  function Labels(rule: Rule, lfcs: seq<Cell>, scores: seq<Cell>, t: real, pt: real): (ls: seq<Regulation>)
    requires |lfcs| == |scores|
    ensures |ls| == |lfcs|
    ensures forall k :: 0 <= k < |ls| ==> ls[k] == Classify(rule, lfcs[k], scores[k], t, pt)
  {
    seq(|lfcs|, k requires 0 <= k < |lfcs| => Classify(rule, lfcs[k], scores[k], t, pt))
  }

  /** `regulation_column`, appended to row by row. */
  method RegulationColumn(rule: Rule, rows: seq<Row>, lfcCol: string, t: real, pt: real) returns (ls: seq<Regulation>)
    ensures ls == Labels(rule, ColumnCells(rows, lfcCol), ColumnCells(rows, ScoreKey), t, pt)
  {
    ls := [];
    var k := 0;
    while k < |rows|
      invariant 0 <= k <= |rows|
      invariant ls == Labels(rule, ColumnCells(rows, lfcCol), ColumnCells(rows, ScoreKey), t, pt)[..k]
    {
      ls := ls + [Classify(rule, Get(rows[k], lfcCol), Get(rows[k], ScoreKey), t, pt)];
      k := k + 1;
    }
  }

  /** Every row gets exactly one of the three labels, so the counts add up to
      the number of rows. */
  lemma {:induction false} CountsCoverRows(ls: seq<Regulation>)
    ensures Count(ls, Up) + Count(ls, Down) + Count(ls, No) == |ls|
    decreases |ls|
  {
    if ls != [] {
      CountsCoverRows(ls[1..]);
      assert Count(ls, Up) == (if ls[0] == Up then 1 else 0) + Count(ls[1..], Up);
      assert Count(ls, Down) == (if ls[0] == Down then 1 else 0) + Count(ls[1..], Down);
      assert Count(ls, No) == (if ls[0] == No then 1 else 0) + Count(ls[1..], No);
    }
  }

  function Prefix(r: Regulation): string
  {
    match r
    case Up => UpPrefix
    case Down => DownPrefix
    case No => NoPrefix
  }

  /** The legend name of a label: "Up (n)", "Down (n)" or "Not sig (n)" with n
      the number of rows carrying it. */
  function DisplayName(r: Regulation, ls: seq<Regulation>): string
  {
    Prefix(r) + NatToString(Count(ls, r)) + ")"
  }

  /** Different labels get different legend names, whatever the counts. */
  lemma DisplayNamesDistinct(r1: Regulation, r2: Regulation, ls: seq<Regulation>)
    requires r1 != r2
    ensures DisplayName(r1, ls) != DisplayName(r2, ls)
  {
    assert DisplayName(r1, ls)[0] == Prefix(r1)[0];
    assert DisplayName(r2, ls)[0] == Prefix(r2)[0];
  }

  /** The number inside the parentheses reads back as the label's count. */
  lemma DisplayNameCount(r: Regulation, ls: seq<Regulation>)
    ensures var s := DisplayName(r, ls);
      |Prefix(r)| < |s| && s[|s| - 1] == ')' && ParseNat(s[|Prefix(r)|..|s| - 1]) == Count(ls, r)
  {
    var s := DisplayName(r, ls);
    assert s[|Prefix(r)|..|s| - 1] == NatToString(Count(ls, r));
    ParseNatToString(Count(ls, r));
  }

  /** The colour column: the legend name of every row's label. */
  function DisplayCells(ls: seq<Regulation>): (cs: seq<Cell>)
    ensures |cs| == |ls|
    ensures forall k :: 0 <= k < |ls| ==> cs[k] == Str(DisplayName(ls[k], ls))
  {
    seq(|ls|, k requires 0 <= k < |ls| => Str(DisplayName(ls[k], ls)))
  }

  function LabelText(r: Regulation): string
  {
    match r
    case Up => UpText
    case Down => DownText
    case No => NoText
  }

  function LabelCells(ls: seq<Regulation>): (cs: seq<Cell>)
    ensures |cs| == |ls|
    ensures forall k :: 0 <= k < |ls| ==> cs[k] == Str(LabelText(ls[k]))
  {
    seq(|ls|, k requires 0 <= k < |ls| => Str(LabelText(ls[k])))
  }

  /** `Series.map` through the three-entry dict of legend names; a value
      outside the dict would become NaN. */
  function MapLabel(c: Cell, ls: seq<Regulation>): (d: Cell)
    ensures forall r: Regulation :: c == Str(LabelText(r)) ==> d == Str(DisplayName(r, ls))
    ensures (forall r: Regulation :: c != Str(LabelText(r))) ==> d == Missing
  {
    if c == Str(UpText) then Str(DisplayName(Up, ls))
    else if c == Str(DownText) then Str(DisplayName(Down, ls))
    else if c == Str(NoText) then Str(DisplayName(No, ls))
    else Missing
  }

  function MapLabels(cs: seq<Cell>, ls: seq<Regulation>): (ds: seq<Cell>)
    ensures |ds| == |cs| && forall k :: 0 <= k < |cs| ==> ds[k] == MapLabel(cs[k], ls)
  {
    seq(|cs|, k requires 0 <= k < |cs| => MapLabel(cs[k], ls))
  }

  /** Mapping the label texts gives every row its legend name: no row is left
      NaN. */
  lemma MapLabelsDisplay(ls: seq<Regulation>)
    ensures MapLabels(LabelCells(ls), ls) == DisplayCells(ls)
  {
    forall k | 0 <= k < |ls| ensures MapLabel(LabelCells(ls)[k], ls) == DisplayCells(ls)[k] {
    }
  }

  /** The frame once "-log10(padj)" is assigned. */
  function ScoredColumns(cols: seq<string>): seq<string>
  {
    if ScoreKey in cols then cols else cols + [ScoreKey]
  }

  /** dgeapy's `generate_volcano_plot` (volcanos.py and generate_plots.py, the
      same code): assign the -log10(padj) column, label every row with the
      inclusive rule, append "color" as the last column and replace each label
      by its legend name. Reading a missing lfc column raises KeyError after
      the score column is set; an existing "color" column makes `insert`
      raise. */
  method InclusiveVolcano(df: Frame, lfcCol: string, scores: seq<Cell>, t: real, pt: real) returns (r: Result<seq<Regulation>>)
    requires |scores| == |df.rows|
    modifies df
    ensures var scored := SetEach(old(df.rows), ScoreKey, scores);
      && (r.Success? <==> lfcCol in ScoredColumns(old(df.columns)) && ColorKey !in ScoredColumns(old(df.columns)))
      && (r.Success? ==> r.value == Labels(Inclusive, ColumnCells(scored, lfcCol), scores, t, pt))
      && (r.Success? ==> df.columns == ScoredColumns(old(df.columns)) + [ColorKey])
      && (r.Success? ==> df.rows == SetEach(scored, ColorKey, DisplayCells(r.value)))
      && (r.Failure? ==> df.columns == ScoredColumns(old(df.columns)) && df.rows == scored)
    ensures old(df.Valid()) ==> df.Valid()
  {
    df.SetColumn(ScoreKey, scores);
    ghost var scored := df.rows;
    if lfcCol !in df.columns {
      return Failure(KeyError);
    }
    var ls := RegulationColumn(Inclusive, df.rows, lfcCol, t, pt);
    ScoreCells(df.rows, scores);
    var ok := df.Insert(|df.columns|, ColorKey, LabelCells(ls));
    if !ok {
      return Failure(InsertError);
    }
    assert df.columns == ScoredColumns(old(df.columns)) + [ColorKey];
    MapLabelsDisplay(ls);
    assert ColumnCells(df.rows, ColorKey) == LabelCells(ls);
    df.SetColumn(ColorKey, MapLabels(ColumnCells(df.rows, ColorKey), ls));
    SetEachTwice(scored, ColorKey, LabelCells(ls), DisplayCells(ls));
    r := Success(ls);
  }

  /** dge_analysis's `generate_volcano_plot`: the same scoring with the strict
      rule; the legend names are built in a second loop and the colour column
      is inserted at position 1. */
  method StrictVolcano(df: Frame, lfcCol: string, scores: seq<Cell>, t: real, pt: real) returns (r: Result<seq<Regulation>>)
    requires |scores| == |df.rows|
    modifies df
    ensures var scored := SetEach(old(df.rows), ScoreKey, scores);
      var cols := ScoredColumns(old(df.columns));
      && (r.Success? <==> lfcCol in cols && ColorKey !in cols)
      && (r.Success? ==> r.value == Labels(Strict, ColumnCells(scored, lfcCol), scores, t, pt))
      && (r.Success? ==> df.columns == cols[..1] + [ColorKey] + cols[1..])
      && (r.Success? ==> df.rows == SetEach(scored, ColorKey, DisplayCells(r.value)))
      && (r.Failure? ==> df.columns == cols && df.rows == scored)
    ensures old(df.Valid()) ==> df.Valid()
  {
    df.SetColumn(ScoreKey, scores);
    if lfcCol !in df.columns {
      return Failure(KeyError);
    }
    var ls := RegulationColumn(Strict, df.rows, lfcCol, t, pt);
    ScoreCells(df.rows, scores);
    var colors := ColorColumn(ls);
    var ok := df.Insert(1, ColorKey, colors);
    if !ok {
      return Failure(InsertError);
    }
    r := Success(ls);
  }

  /** `color_column`: the legend name of each label, in order. */
  /** The legend name of `r` among three names computed beforehand. */
  function Pick(r: Regulation, upName: string, downName: string, noName: string): string
  {
    match r
    case Up => upName
    case Down => downName
    case No => noName
  }

  lemma PickDisplayName(r: Regulation, ls: seq<Regulation>)
    ensures Pick(r, DisplayName(Up, ls), DisplayName(Down, ls), DisplayName(No, ls)) == DisplayName(r, ls)
  {
  }

  /** `color_column`: the three legend names are built once, then each label
      appends its own. */
  method ColorColumn(ls: seq<Regulation>) returns (cs: seq<Cell>)
    ensures cs == DisplayCells(ls)
  {
    var upName, downName, noName := DisplayName(Up, ls), DisplayName(Down, ls), DisplayName(No, ls);
    cs := AppendNames(ls, upName, downName, noName);
    forall j | 0 <= j < |ls|
      ensures cs[j] == DisplayCells(ls)[j]
    {
      PickDisplayName(ls[j], ls);
    }
  }

  /** The loop of `color_column`: one legend name appended per label. */
  method AppendNames(ls: seq<Regulation>, upName: string, downName: string, noName: string) returns (cs: seq<Cell>)
    ensures |cs| == |ls|
    ensures forall j :: 0 <= j < |ls| ==> cs[j] == Str(Pick(ls[j], upName, downName, noName))
  {
    cs := [];
    var k := 0;
    while k < |ls|
      invariant 0 <= k <= |ls| && |cs| == k
      invariant forall j :: 0 <= j < k ==> cs[j] == Str(Pick(ls[j], upName, downName, noName))
    {
      var name := match ls[k]
        case Up => upName
        case Down => downName
        case No => noName;
      cs := cs + [Str(name)];
      k := k + 1;
    }
  }

  lemma ScoreCells(rows: seq<Row>, scores: seq<Cell>)
    requires |scores| == |rows| && forall k :: 0 <= k < |rows| && ScoreKey in rows[k] ==> rows[k][ScoreKey] == scores[k]
    requires forall k :: 0 <= k < |rows| ==> ScoreKey in rows[k]
    ensures ColumnCells(rows, ScoreKey) == scores
  {
  }

  lemma SetEachTwice(rows: seq<Row>, name: string, a: seq<Cell>, b: seq<Cell>)
    requires |a| == |rows| && |b| == |rows|
    ensures SetEach(SetEach(rows, name, a), name, b) == SetEach(rows, name, b)
  {
    assert forall k :: 0 <= k < |rows| ==> rows[k][name := a[k]][name := b[k]] == rows[k][name := b[k]];
  }
}
