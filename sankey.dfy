/** `generate_sankey_diagram` of dgeapy/sankey_diagrams.py without the drawing:
    every sample's table is reclassified by the fold-change and padj cut-offs,
    its "No sig" rows are dropped, and for every ordered pair of distinct
    samples an outer merge on the gene column gives the flow table of
    (Regulation_a, Regulation_b), a side that lacks the gene reading "No sig".
    The log2 cut-off `t` is given (the `np.log2` call is not modelled). */
module Sankey {
  import opened Wrappers
  import opened Tables

  const RegKey := "Regulation"
  const NoSig := "No sig"
  const UpLabel := "Up"
  const DownLabel := "Down"
  const LeftKey := "Regulation_a"
  const RightKey := "Regulation_b"
  const KeyError := "KeyError"

  // ---------------------------------------------------------------------------
  // Reclassification of one table

  /** `.loc[mask, "Regulation"] = v` on a table without that column adds it. */
  function WithReg(cols: seq<string>): (r: seq<string>)
    ensures RegKey in r && forall c :: c in r <==> c in cols || c == RegKey
  {
    if RegKey in cols then cols else cols + [RegKey]
  }

  /** The first assignment: a padj above the cut-off makes the row "No sig"
      (NaN compares False and keeps the old label). */
  function PadjStep(row: Row, padjCol: string, pv: real): Cell
  {
    if Above(Get(row, padjCol), pv) then Str(NoSig) else Get(row, RegKey)
  }

  /** The mask `label != "No sig"` at one row. `stringLabels` says whether the
      Regulation column has pandas' nullable "string" dtype, which
      `add_regulation_columns` gives it: there a missing label compares as NA,
      which a mask reads as False. In an object column a missing label is NaN
      and compares unequal, so the mask is True. */
  predicate NotNoSig(v: Cell, stringLabels: bool)
  {
    if v == Missing then !stringLabels else v != Str(NoSig)
  }

  /** The three fold-change assignments applied, in order, to the label `v`
      the padj step left. */
  function LfcSteps(v: Cell, lfc: Cell, t: real, stringLabels: bool): (w: Cell)
    ensures w == Str(NoSig) <==> v == Str(NoSig) || (Below(lfc, t) && Above(lfc, -t))
    ensures NotNoSig(w, stringLabels) <==> NotNoSig(v, stringLabels) && !(Below(lfc, t) && Above(lfc, -t))
    ensures NotNoSig(v, stringLabels) && !(Below(lfc, t) && Above(lfc, -t)) ==>
      if AtMost(lfc, -t) then w == Str(DownLabel)
      else if AtLeast(lfc, t) then w == Str(UpLabel)
      else w == v
    ensures !NotNoSig(v, stringLabels) && !(Below(lfc, t) && Above(lfc, -t)) ==> w == v
  {
    var v2 := if Below(lfc, t) && Above(lfc, -t) then Str(NoSig) else v;
    var v3 := if NotNoSig(v2, stringLabels) && AtLeast(lfc, t) then Str(UpLabel) else v2;
    if NotNoSig(v3, stringLabels) && AtMost(lfc, -t) then Str(DownLabel) else v3
  }

  /** Running the fold-change assignments on their own output changes nothing. */
  lemma LfcStepsIdempotent(v: Cell, lfc: Cell, t: real, stringLabels: bool)
    ensures LfcSteps(LfcSteps(v, lfc, t, stringLabels), lfc, t, stringLabels) == LfcSteps(v, lfc, t, stringLabels)
  {
  }

  /** `rows[rows["Regulation"] != "No sig"]`: the rows the mask keeps, in order. */
  function Significant(rows: seq<Row>, stringLabels: bool): (r: seq<Row>)
    ensures IsSubsequence(r, rows)
    ensures forall x :: x in r <==> x in rows && NotNoSig(Get(x, RegKey), stringLabels)
    ensures forall x {:trigger Count(r, x)} :: Count(r, x) == if NotNoSig(Get(x, RegKey), stringLabels) then Count(rows, x) else 0
  {
    if rows == [] then []
    else
      var rest := Significant(rows[1..], stringLabels);
      if NotNoSig(Get(rows[0], RegKey), stringLabels) then
        assert ([rows[0]] + rest)[1..] == rest;
        [rows[0]] + rest
      else rest
  }

  lemma {:induction false} SignificantAll(rows: seq<Row>, stringLabels: bool)
    requires forall k :: 0 <= k < |rows| ==> NotNoSig(Get(rows[k], RegKey), stringLabels)
    ensures Significant(rows, stringLabels) == rows
    decreases |rows|
  {
    if rows != [] {
      SignificantAll(rows[1..], stringLabels);
    }
  }

  /** The table after the padj assignment. */
  function PadjPass(tb: Table, padjCol: string, pv: real): (r: Table)
    ensures r.columns == WithReg(tb.columns) && |r.rows| == |tb.rows|
    ensures forall k :: 0 <= k < |tb.rows| ==> r.rows[k] == tb.rows[k][RegKey := PadjStep(tb.rows[k], padjCol, pv)]
  {
    Table(WithReg(tb.columns),
          seq(|tb.rows|, k requires 0 <= k < |tb.rows| => tb.rows[k][RegKey := PadjStep(tb.rows[k], padjCol, pv)]))
  }

  /** The table after the fold-change assignments. */
  function LfcPass(tb: Table, lfcCol: string, t: real, stringLabels: bool): (r: Table)
    ensures r.columns == tb.columns && |r.rows| == |tb.rows|
    ensures forall k :: 0 <= k < |tb.rows| ==>
      r.rows[k] == tb.rows[k][RegKey := LfcSteps(Get(tb.rows[k], RegKey), Get(tb.rows[k], lfcCol), t, stringLabels)]
  {
    Table(tb.columns,
          seq(|tb.rows|, k requires 0 <= k < |tb.rows| =>
            tb.rows[k][RegKey := LfcSteps(Get(tb.rows[k], RegKey), Get(tb.rows[k], lfcCol), t, stringLabels)]))
  }

  /** `input_df[input_df["Regulation"] != "No sig"]`. */
  function DropNoSig(tb: Table, stringLabels: bool): (r: Table)
    ensures r.columns == tb.columns
    ensures forall k :: 0 <= k < |r.rows| ==> NotNoSig(Get(r.rows[k], RegKey), stringLabels)
  {
    var rows := Significant(tb.rows, stringLabels);
    assert forall k :: 0 <= k < |rows| ==> rows[k] in rows;
    Table(tb.columns, rows)
  }

  /** A sample's table after one reclassification and filtering. */
  function Processed(tb: Table, lfcCol: string, padjCol: string, stringLabels: bool, t: real, pv: real): Table
  {
    DropNoSig(LfcPass(PadjPass(tb, padjCol, pv), lfcCol, t, stringLabels), stringLabels)
  }

  /** What a processed table holds: its rows are, in order, some of the input
      rows relabelled, each as often as among the relabelled rows, none of
      them "No sig"; a row survives exactly when its
      padj is not above the cut-off, its log2 fold change is outside the open
      band (-t, t) and its old label passes the mask: it is not "No sig", and
      it is not missing when the labels have the nullable string dtype. */
  lemma ProcessedRows(tb: Table, lfcCol: string, padjCol: string, stringLabels: bool, t: real, pv: real)
    requires lfcCol != RegKey
    ensures var p := Processed(tb, lfcCol, padjCol, stringLabels, t, pv);
      && p.columns == WithReg(tb.columns)
      && (forall k :: 0 <= k < |p.rows| ==>
            RegKey in p.rows[k] && p.rows[k][RegKey] != Str(NoSig) && (stringLabels ==> p.rows[k][RegKey] != Missing))
      && var relabelled := LfcPass(PadjPass(tb, padjCol, pv), lfcCol, t, stringLabels).rows;
      && IsSubsequence(p.rows, relabelled)
      && (forall x {:trigger Count(p.rows, x)} ::
            Count(p.rows, x) == if NotNoSig(Get(x, RegKey), stringLabels) then Count(relabelled, x) else 0)
      && forall k :: 0 <= k < |tb.rows| ==>
           var row := tb.rows[k];
           var out := row[RegKey := LfcSteps(PadjStep(row, padjCol, pv), Get(row, lfcCol), t, stringLabels)];
           (out in p.rows <==>
              !Above(Get(row, padjCol), pv) && NotNoSig(Get(row, RegKey), stringLabels)
              && !(Below(Get(row, lfcCol), t) && Above(Get(row, lfcCol), -t)))
  {
    var a := PadjPass(tb, padjCol, pv);
    var b := LfcPass(a, lfcCol, t, stringLabels);
    var p := DropNoSig(b, stringLabels);
    forall k | 0 <= k < |p.rows| ensures RegKey in p.rows[k] {
      assert p.rows[k] in b.rows;
    }
    forall k | 0 <= k < |tb.rows|
      ensures var row := tb.rows[k];
        var out := row[RegKey := LfcSteps(PadjStep(row, padjCol, pv), Get(row, lfcCol), t, stringLabels)];
        (out in p.rows <==>
           !Above(Get(row, padjCol), pv) && NotNoSig(Get(row, RegKey), stringLabels)
           && !(Below(Get(row, lfcCol), t) && Above(Get(row, lfcCol), -t)))
    {
      var row := tb.rows[k];
      assert Get(a.rows[k], lfcCol) == Get(row, lfcCol);
      assert b.rows[k] == row[RegKey := LfcSteps(PadjStep(row, padjCol, pv), Get(row, lfcCol), t, stringLabels)];
    }
  }

  /** The padj assignment leaves a table alone when every row is labelled and
      none has a padj above the cut-off. */
  lemma PadjPassFixed(p: Table, padjCol: string, pv: real)
    requires RegKey in p.columns
    requires forall k :: 0 <= k < |p.rows| ==> RegKey in p.rows[k] && !Above(Get(p.rows[k], padjCol), pv)
    ensures PadjPass(p, padjCol, pv) == p
  {
    var a2 := PadjPass(p, padjCol, pv);
    forall k | 0 <= k < |p.rows| ensures a2.rows[k] == p.rows[k] {
      assert PadjStep(p.rows[k], padjCol, pv) == p.rows[k][RegKey];
    }
  }

  /** A row relabelled by the fold-change assignments is left as it is by a
      second run of them. */
  lemma RelabelFixed(row: Row, lfcCol: string, t: real, stringLabels: bool)
    requires lfcCol != RegKey
    ensures var out := row[RegKey := LfcSteps(Get(row, RegKey), Get(row, lfcCol), t, stringLabels)];
      out[RegKey := LfcSteps(Get(out, RegKey), Get(out, lfcCol), t, stringLabels)] == out
  {
    var out := row[RegKey := LfcSteps(Get(row, RegKey), Get(row, lfcCol), t, stringLabels)];
    assert Get(out, lfcCol) == Get(row, lfcCol);
    LfcStepsIdempotent(Get(row, RegKey), Get(row, lfcCol), t, stringLabels);
  }

  /** Reclassifying and filtering a processed table again gives it back, so the
      repeated passes of the nested loop do no more than the first. */
  lemma ProcessedIdempotent(tb: Table, lfcCol: string, padjCol: string, stringLabels: bool, t: real, pv: real)
    requires lfcCol != RegKey && padjCol != RegKey
    ensures var p := Processed(tb, lfcCol, padjCol, stringLabels, t, pv);
      Processed(p, lfcCol, padjCol, stringLabels, t, pv) == p
  {
    var a := PadjPass(tb, padjCol, pv);
    var b := LfcPass(a, lfcCol, t, stringLabels);
    var p := DropNoSig(b, stringLabels);
    forall k | 0 <= k < |p.rows|
      ensures RegKey in p.rows[k] && !Above(Get(p.rows[k], padjCol), pv)
    {
      assert p.rows[k] in b.rows;
      var i :| 0 <= i < |b.rows| && b.rows[i] == p.rows[k];
      assert Get(b.rows[i], padjCol) == Get(tb.rows[i], padjCol);
    }
    PadjPassFixed(p, padjCol, pv);
    var a2 := PadjPass(p, padjCol, pv);
    var b2 := LfcPass(a2, lfcCol, t, stringLabels);
    assert b2 == p by {
      forall k | 0 <= k < |p.rows| ensures b2.rows[k] == p.rows[k] {
        assert p.rows[k] in b.rows;
        var i :| 0 <= i < |b.rows| && b.rows[i] == p.rows[k];
        RelabelFixed(a.rows[i], lfcCol, t, stringLabels);
      }
    }
    SignificantAll(p.rows, stringLabels);
  }

  // ---------------------------------------------------------------------------
  // The outer merge of two processed tables

  /** One row of the outer merge: the gene and the two labels, NaN on a side
      that lacks the gene. */
  datatype Link = Link(key: Cell, left: Cell, right: Cell)

  /** Some row holds gene g. */
  predicate HasKey(rows: seq<Row>, key: string, g: Cell)
  {
    rows != [] && (Get(rows[0], key) == g || HasKey(rows[1..], key, g))
  }

  /** Some row holds gene g with label v. */
  predicate HasRow(rows: seq<Row>, key: string, g: Cell, v: Cell)
  {
    rows != [] && ((Get(rows[0], key) == g && Get(rows[0], RegKey) == v) || HasRow(rows[1..], key, g, v))
  }

  lemma {:induction false} HasRowHasKey(rows: seq<Row>, key: string, g: Cell, v: Cell)
    requires HasRow(rows, key, g, v)
    ensures HasKey(rows, key, g)
    decreases |rows|
  {
    if Get(rows[0], key) != g || Get(rows[0], RegKey) != v {
      HasRowHasKey(rows[1..], key, g, v);
    }
  }

  /** The merged rows of left row `ra` with the right rows holding its gene. */
  function Pairs(ra: Row, b: seq<Row>, key: string): seq<Link>
  {
    if b == [] then []
    else
      (if Get(b[0], key) == Get(ra, key) then [Link(Get(ra, key), Get(ra, RegKey), Get(b[0], RegKey))] else [])
      + Pairs(ra, b[1..], key)
  }

  /** One merged row per matching right row, or a single one with a NaN right
      label. */
  function LinksOf(ra: Row, b: seq<Row>, key: string): seq<Link>
  {
    var ps := Pairs(ra, b, key);
    if ps == [] then [Link(Get(ra, key), Get(ra, RegKey), Missing)] else ps
  }

  function LeftLinks(a: seq<Row>, b: seq<Row>, key: string): seq<Link>
  {
    if a == [] then [] else LinksOf(a[0], b, key) + LeftLinks(a[1..], b, key)
  }

  /** The right rows whose gene no left row holds, with a NaN left label. */
  function RightOnly(a: seq<Row>, b: seq<Row>, key: string): seq<Link>
  {
    if b == [] then []
    else
      (if HasKey(a, key, Get(b[0], key)) then [] else [Link(Get(b[0], key), Missing, Get(b[0], RegKey))])
      + RightOnly(a, b[1..], key)
  }

  /** `a.merge(b, how="outer", on=key)` reduced to the gene and the two labels. */
  function OuterLinks(a: seq<Row>, b: seq<Row>, key: string): seq<Link>
  {
    LeftLinks(a, b, key) + RightOnly(a, b, key)
  }

  function LinkKeys(ls: seq<Link>): (ks: seq<Cell>)
    ensures |ks| == |ls| && forall i :: 0 <= i < |ls| ==> ks[i] == ls[i].key
  {
    seq(|ls|, i requires 0 <= i < |ls| => ls[i].key)
  }

  /** A label of a merged row is the label of a row holding the gene on that
      side, or NaN when no row on that side holds it. */
  predicate SideOk(rows: seq<Row>, key: string, g: Cell, v: Cell)
  {
    HasRow(rows, key, g, v) || (v == Missing && !HasKey(rows, key, g))
  }

  lemma {:induction false} PairsSpec(ra: Row, b: seq<Row>, key: string)
    ensures Pairs(ra, b, key) == [] <==> !HasKey(b, key, Get(ra, key))
    ensures forall l :: l in Pairs(ra, b, key) ==>
      l.key == Get(ra, key) && l.left == Get(ra, RegKey) && HasRow(b, key, l.key, l.right)
    decreases |b|
  {
    if b != [] {
      PairsSpec(ra, b[1..], key);
    }
  }

  lemma LinksOfSpec(ra: Row, b: seq<Row>, key: string)
    ensures LinksOf(ra, b, key) != []
    ensures forall l :: l in LinksOf(ra, b, key) ==>
      l.key == Get(ra, key) && l.left == Get(ra, RegKey) && SideOk(b, key, l.key, l.right)
  {
    PairsSpec(ra, b, key);
  }

  lemma {:induction false} LeftLinkOk(a: seq<Row>, b: seq<Row>, key: string, i: nat)
    requires i < |LeftLinks(a, b, key)|
    ensures var l := LeftLinks(a, b, key)[i];
      HasRow(a, key, l.key, l.left) && SideOk(b, key, l.key, l.right)
    decreases |a|
  {
    var first := LinksOf(a[0], b, key);
    var rest := LeftLinks(a[1..], b, key);
    assert LeftLinks(a, b, key) == first + rest;
    if i < |first| {
      LinksOfSpec(a[0], b, key);
      assert first[i] in first;
    } else {
      LeftLinkOk(a[1..], b, key, i - |first|);
    }
  }

  lemma {:induction false} LeftKeyComplete(a: seq<Row>, b: seq<Row>, key: string, g: Cell)
    requires HasKey(a, key, g)
    ensures g in LinkKeys(LeftLinks(a, b, key))
    decreases |a|
  {
    var first := LinksOf(a[0], b, key);
    var rest := LeftLinks(a[1..], b, key);
    assert LeftLinks(a, b, key) == first + rest;
    LinksOfSpec(a[0], b, key);
    if Get(a[0], key) == g {
      assert first[0] in first;
      assert LinkKeys(first + rest)[0] == g;
    } else {
      LeftKeyComplete(a[1..], b, key, g);
      var j :| 0 <= j < |rest| && LinkKeys(rest)[j] == g;
      assert LinkKeys(first + rest)[|first| + j] == g;
    }
  }

  lemma {:induction false} RightLinkOk(a: seq<Row>, b: seq<Row>, key: string, i: nat)
    requires i < |RightOnly(a, b, key)|
    ensures var l := RightOnly(a, b, key)[i];
      l.left == Missing && !HasKey(a, key, l.key) && HasRow(b, key, l.key, l.right)
    decreases |b|
  {
    var g0 := Get(b[0], key);
    var head := if HasKey(a, key, g0) then [] else [Link(g0, Missing, Get(b[0], RegKey))];
    var rest := RightOnly(a, b[1..], key);
    assert RightOnly(a, b, key) == head + rest;
    if i >= |head| {
      RightLinkOk(a, b[1..], key, i - |head|);
    }
  }

  lemma {:induction false} RightKeyComplete(a: seq<Row>, b: seq<Row>, key: string, g: Cell)
    requires HasKey(b, key, g) && !HasKey(a, key, g)
    ensures g in LinkKeys(RightOnly(a, b, key))
    decreases |b|
  {
    var g0 := Get(b[0], key);
    var head := if HasKey(a, key, g0) then [] else [Link(g0, Missing, Get(b[0], RegKey))];
    var rest := RightOnly(a, b[1..], key);
    assert RightOnly(a, b, key) == head + rest;
    if g0 == g {
      assert LinkKeys(head + rest)[0] == g;
    } else {
      RightKeyComplete(a, b[1..], key, g);
      var j :| 0 <= j < |rest| && LinkKeys(rest)[j] == g;
      assert LinkKeys(head + rest)[|head| + j] == g;
    }
  }

  /** The merge holds every gene of either table and no other. */
  lemma OuterLinksKeys(a: seq<Row>, b: seq<Row>, key: string, g: Cell)
    ensures g in LinkKeys(OuterLinks(a, b, key)) <==> HasKey(a, key, g) || HasKey(b, key, g)
  {
    var ls := OuterLinks(a, b, key);
    if g in LinkKeys(ls) {
      var i :| 0 <= i < |ls| && LinkKeys(ls)[i] == g;
      OuterKeySound(a, b, key, i);
    }
    if HasKey(a, key, g) || HasKey(b, key, g) {
      OuterKeyComplete(a, b, key, g);
    }
  }

  lemma OuterKeySound(a: seq<Row>, b: seq<Row>, key: string, i: nat)
    requires i < |OuterLinks(a, b, key)|
    ensures HasKey(a, key, OuterLinks(a, b, key)[i].key) || HasKey(b, key, OuterLinks(a, b, key)[i].key)
  {
    var left := LeftLinks(a, b, key);
    var right := RightOnly(a, b, key);
    assert OuterLinks(a, b, key) == left + right;
    if i < |left| {
      LeftLinkOk(a, b, key, i);
      HasRowHasKey(a, key, left[i].key, left[i].left);
    } else {
      RightLinkOk(a, b, key, i - |left|);
      HasRowHasKey(b, key, right[i - |left|].key, right[i - |left|].right);
    }
  }

  lemma OuterKeyComplete(a: seq<Row>, b: seq<Row>, key: string, g: Cell)
    requires HasKey(a, key, g) || HasKey(b, key, g)
    ensures g in LinkKeys(OuterLinks(a, b, key))
  {
    var left := LeftLinks(a, b, key);
    var right := RightOnly(a, b, key);
    assert OuterLinks(a, b, key) == left + right;
    if HasKey(a, key, g) {
      LeftKeyComplete(a, b, key, g);
      var i :| 0 <= i < |left| && LinkKeys(left)[i] == g;
      assert LinkKeys(left + right)[i] == g;
    } else {
      RightKeyComplete(a, b, key, g);
      var i :| 0 <= i < |right| && LinkKeys(right)[i] == g;
      assert LinkKeys(left + right)[|left| + i] == g;
    }
  }

  /** Each label of the merge is the label of a row holding the gene on that
      side, or NaN when that side lacks the gene. */
  lemma OuterLinksSides(a: seq<Row>, b: seq<Row>, key: string)
    ensures var ls := OuterLinks(a, b, key);
      forall i :: 0 <= i < |ls| ==> SideOk(a, key, ls[i].key, ls[i].left) && SideOk(b, key, ls[i].key, ls[i].right)
  {
    var left := LeftLinks(a, b, key);
    var right := RightOnly(a, b, key);
    var ls := OuterLinks(a, b, key);
    assert ls == left + right;
    forall i | 0 <= i < |ls| ensures SideOk(a, key, ls[i].key, ls[i].left) && SideOk(b, key, ls[i].key, ls[i].right) {
      if i < |left| {
        assert ls[i] == left[i];
        LeftLinkOk(a, b, key, i);
      } else {
        assert ls[i] == right[i - |left|];
        RightLinkOk(a, b, key, i - |left|);
      }
    }
  }

  /** `df.loc[df[col].isnull(), col] = "No sig"`. */
  function Fill(c: Cell): (d: Cell)
    ensures d != Missing && (c != Missing ==> d == c)
  {
    if c.Missing? then Str(NoSig) else c
  }

  function FlowRow(l: Link): Row
  {
    map[LeftKey := Fill(l.left), RightKey := Fill(l.right)]
  }

  /** The flow table: one row per merged row with only its two filled labels. */
  function FlowTable(a: seq<Row>, b: seq<Row>, key: string): (f: Table)
    ensures f.columns == [LeftKey, RightKey]
    ensures |f.rows| == |OuterLinks(a, b, key)|
    ensures forall k :: 0 <= k < |f.rows| ==> f.rows[k] == FlowRow(OuterLinks(a, b, key)[k])
  {
    var ls := OuterLinks(a, b, key);
    Table([LeftKey, RightKey], seq(|ls|, k requires 0 <= k < |ls| => FlowRow(ls[k])))
  }

  /** The flow table has exactly the two label columns, and no cell is NaN. */
  lemma FlowTableShape(a: seq<Row>, b: seq<Row>, key: string)
    ensures WellFormed(FlowTable(a, b, key))
    ensures forall k, c :: 0 <= k < |FlowTable(a, b, key).rows| && c in FlowTable(a, b, key).columns ==>
      Get(FlowTable(a, b, key).rows[k], c) != Missing
  {
    var f := FlowTable(a, b, key);
    forall k | 0 <= k < |f.rows| ensures f.rows[k].Keys == set c | c in f.columns {
      assert f.rows[k].Keys == {LeftKey, RightKey};
    }
  }

  /** `a.merge(b, how="outer", on=key)` followed by the fills and the selection
      of the two label columns. The key must be a column of both tables, and it
      must not be "Regulation", or no Regulation_a/Regulation_b columns exist. */
  function Merge(ta: Table, tb: Table, key: string): (r: Result<Table>)
    ensures r.Success? <==> key in ta.columns && key in tb.columns && key != RegKey
    ensures r.Success? ==> r.value == FlowTable(ta.rows, tb.rows, key)
  {
    if key in ta.columns && key in tb.columns && key != RegKey then Success(FlowTable(ta.rows, tb.rows, key))
    else Failure(KeyError)
  }

  // ---------------------------------------------------------------------------
  // The samples and the nested loop

  /** Reclassification can run: the padj column exists, and so does the log2
      column once Regulation is there. */
  predicate Processable(tb: Table, lfcCol: string, padjCol: string)
  {
    padjCol in tb.columns && lfcCol in WithReg(tb.columns)
  }

  lemma ProcessedProcessable(tb: Table, lfcCol: string, padjCol: string, stringLabels: bool, t: real, pv: real)
    requires Processable(tb, lfcCol, padjCol) && lfcCol != RegKey && padjCol != RegKey
    ensures Processable(Processed(tb, lfcCol, padjCol, stringLabels, t, pv), lfcCol, padjCol)
    ensures var p := Processed(tb, lfcCol, padjCol, stringLabels, t, pv);
      Processed(p, lfcCol, padjCol, stringLabels, t, pv) == p
  {
    ProcessedIdempotent(tb, lfcCol, padjCol, stringLabels, t, pv);
  }

  /** One entry of `data`: its table (`input_df`), the names of its
      fold-change, padj and gene columns (`df_columns`), and whether its
      Regulation column, when it has one, holds the nullable "string" dtype. */
  datatype Sample = Sample(table: Table, lfcCol: string, padjCol: string, geneCol: string, stringLabels: bool)

  /** The sample after the four `.loc` assignments and the filter. A Regulation
      column the first assignment creates is an object column, so the string
      dtype survives only when the column was already there. */
  function Pass1(s: Sample, t: real, pv: real): Sample
  {
    var stringLabels := s.stringLabels && RegKey in s.table.columns;
    s.(table := Processed(s.table, s.lfcCol, s.padjCol, stringLabels, t, pv), stringLabels := stringLabels)
  }

  /** The reclassification of one sample: a missing padj column raises
      KeyError before anything changes, a missing log2 column raises after
      the padj assignment; otherwise the sample is processed. */
  function Reclassify(s: Sample, t: real, pv: real): (r: Result<Sample>)
    ensures r.Success? <==> Processable(s.table, s.lfcCol, s.padjCol)
    ensures r.Failure? ==> r.error == KeyError
    ensures r.Success? ==> r.value == Pass1(s, t, pv)
  {
    if Processable(s.table, s.lfcCol, s.padjCol) then Success(Pass1(s, t, pv)) else Failure(KeyError)
  }

  /** A sample processed once (as the pivot) comes through its second pass
      (as the other side) unchanged. */
  lemma ReclassifyTwice(s: Sample, t: real, pv: real)
    requires Processable(s.table, s.lfcCol, s.padjCol) && s.lfcCol != RegKey && s.padjCol != RegKey
    ensures Reclassify(Pass1(s, t, pv), t, pv) == Success(Pass1(s, t, pv))
  {
    ProcessedProcessable(s.table, s.lfcCol, s.padjCol, s.stringLabels && RegKey in s.table.columns, t, pv);
  }

  /** Every sample after one pass. */
  function PassAll(data: seq<Sample>, t: real, pv: real): (ps: seq<Sample>)
    ensures |ps| == |data|
    ensures forall k {:trigger Pass1(data[k], t, pv)} :: 0 <= k < |data| ==> ps[k] == Pass1(data[k], t, pv)
  {
    if data == [] then [] else PassAll(data[..|data| - 1], t, pv) + [Pass1(data[|data| - 1], t, pv)]
  }

  /** The merge of every ordered pair of processed samples, keyed on the
      pivot's gene column. */
  function MergeAll(ps: seq<Sample>): (ms: seq<seq<Result<Table>>>)
    ensures IsMatrix(ps, ms)
    ensures forall i, k {:trigger Merge(ps[i].table, ps[k].table, ps[i].geneCol)} ::
      0 <= i < |ps| && 0 <= k < |ps| ==> ms[i][k] == Merge(ps[i].table, ps[k].table, ps[i].geneCol)
  {
    if ps == [] then []
    else
      var ms := MergeAll(ps[..|ps| - 1]);
      var n := |ps| - 1;
      var last := ps[n];
      seq(n, i requires 0 <= i < n => ms[i] + [Merge(ps[i].table, last.table, ps[i].geneCol)])
      + [seq(|ps|, k requires 0 <= k < |ps| => Merge(last.table, ps[k].table, last.geneCol))]
  }

  predicate IsMatrix<T>(ps: seq<T>, ms: seq<seq<Result<Table>>>)
  {
    |ms| == |ps| && forall i :: 0 <= i < |ps| ==> |ms[i]| == |ps|
  }

  predicate AllProcessable(data: seq<Sample>)
  {
    forall k :: 0 <= k < |data| ==> Processable(data[k].table, data[k].lfcCol, data[k].padjCol)
  }

  /** Pivot i merges with every other sample before j. */
  predicate MergesUpTo(ms: seq<seq<Result<Table>>>, n: nat, i: nat, j: nat)
    requires |ms| == n && (forall x :: 0 <= x < n ==> |ms[x]| == n) && i < n && j <= n
  {
    forall k :: 0 <= k < j && k != i ==> ms[i][k].Success?
  }

  /** Every ordered pair of distinct samples merges. */
  predicate AllMerge(ms: seq<seq<Result<Table>>>, n: nat)
    requires |ms| == n && forall x :: 0 <= x < n ==> |ms[x]| == n
  {
    forall i :: 0 <= i < n ==> MergesUpTo(ms, n, i, n)
  }

  /** The flow tables of pivot i with the samples before j other than it. */
  function RowFlows(ms: seq<seq<Result<Table>>>, n: nat, i: nat, j: nat): seq<Table>
    requires |ms| == n && (forall x :: 0 <= x < n ==> |ms[x]| == n) && i < n && j <= n
  {
    if j == 0 then []
    else RowFlows(ms, n, i, j - 1) + (if j - 1 != i && ms[i][j - 1].Success? then [ms[i][j - 1].value] else [])
  }

  /** The flow tables of the pivots before i, pivot by pivot. */
  function AllFlows(ms: seq<seq<Result<Table>>>, n: nat, i: nat): seq<Table>
    requires |ms| == n && (forall x :: 0 <= x < n ==> |ms[x]| == n) && i <= n
  {
    if i == 0 then [] else AllFlows(ms, n, i - 1) + RowFlows(ms, n, i - 1, n)
  }

  /** When every pair merges, each ordered pair of distinct positions gives
      one table: n(n-1) of them. */
  lemma {:induction false} AllFlowsCount(ms: seq<seq<Result<Table>>>, n: nat, i: nat)
    requires |ms| == n && (forall x :: 0 <= x < n ==> |ms[x]| == n) && i <= n && AllMerge(ms, n)
    ensures |AllFlows(ms, n, i)| == i * (n - 1)
    decreases i
  {
    if i > 0 {
      AllFlowsCount(ms, n, i - 1);
      RowFlowsCount(ms, n, i - 1, n);
      assert i * (n - 1) == (i - 1) * (n - 1) + (n - 1);
    }
  }

  lemma {:induction false} RowFlowsCount(ms: seq<seq<Result<Table>>>, n: nat, i: nat, j: nat)
    requires |ms| == n && (forall x :: 0 <= x < n ==> |ms[x]| == n) && i < n && j <= n && MergesUpTo(ms, n, i, j)
    ensures |RowFlows(ms, n, i, j)| == if i < j then j - 1 else j
    decreases j
  {
    if j > 0 {
      RowFlowsCount(ms, n, i, j - 1);
    }
  }

  /** The flows are the merges, pair by pair: the p-th table of pivot i's run
      is its merge with the p-th sample other than it. */
  lemma {:induction false} RowFlowsAt(ms: seq<seq<Result<Table>>>, n: nat, i: nat, j: nat, k: nat)
    requires |ms| == n && (forall x :: 0 <= x < n ==> |ms[x]| == n) && i < n && j <= n
    requires k < j && k != i && MergesUpTo(ms, n, i, j)
    ensures var f := RowFlows(ms, n, i, j);
      var p := if k < i then k else k - 1;
      p < |f| && f[p] == ms[i][k].value
    decreases j
  {
    RowFlowsCount(ms, n, i, j - 1);
    if k < j - 1 {
      RowFlowsAt(ms, n, i, j - 1, k);
    }
  }

  /** The state of every sample: untouched, or processed once. */
  predicate Settled(data: seq<Sample>, ps: seq<Sample>, cur: seq<Sample>)
    requires |ps| == |data| && |cur| == |data|
  {
    forall k :: 0 <= k < |data| ==> cur[k] == data[k] || Done(data, ps, cur, k)
  }

  /** Sample k has been through its pass. */
  predicate Done(data: seq<Sample>, ps: seq<Sample>, cur: seq<Sample>, k: nat)
    requires k < |data| && |ps| == |data| && |cur| == |data|
  {
    Processable(data[k].table, data[k].lfcCol, data[k].padjCol) && cur[k] == ps[k]
  }

  /** Pivot i against the samples before j: each other one could be
      reclassified and merges with it. */
  predicate PivotOk(data: seq<Sample>, ms: seq<seq<Result<Table>>>, i: nat, j: nat)
    requires IsMatrix(data, ms) && i < |data| && j <= |data|
  {
    forall k :: 0 <= k < j && k != i ==> Processable(data[k].table, data[k].lfcCol, data[k].padjCol) && ms[i][k].Success?
  }

  /** The success condition, pivot by pivot. */
  lemma PivotsOk(data: seq<Sample>, ms: seq<seq<Result<Table>>>)
    requires IsMatrix(data, ms)
    ensures AllProcessable(data) && AllMerge(ms, |data|) <==>
      forall i :: 0 <= i < |data| ==> Processable(data[i].table, data[i].lfcCol, data[i].padjCol) && PivotOk(data, ms, i, |data|)
  {
    if AllProcessable(data) && AllMerge(ms, |data|) {
      forall i | 0 <= i < |data|
        ensures PivotOk(data, ms, i, |data|)
      {
        assert MergesUpTo(ms, |data|, i, |data|);
      }
    }
    if forall i :: 0 <= i < |data| ==> Processable(data[i].table, data[i].lfcCol, data[i].padjCol) && PivotOk(data, ms, i, |data|) {
      forall i | 0 <= i < |data|
        ensures MergesUpTo(ms, |data|, i, |data|)
      {
        assert PivotOk(data, ms, i, |data|);
      }
    }
  }

  /** A sample whose gene column its table lacks makes some merge fail, so with
      two samples or more the run raises KeyError. This is the run dgeapy makes:
      the gene column is `df_columns["geneID"]`, and dgeapy's
      `column_names_to_check` never files that key
      (DgeapyFilter.GeneIdNeverChecked). */
  lemma AbsentGeneColumnFails(data: seq<Sample>, t: real, pv: real, i: nat)
    requires 2 <= |data| && i < |data| && data[i].geneCol !in data[i].table.columns
    ensures !AllMerge(MergeAll(PassAll(data, t, pv)), |data|)
  {
    var ps := PassAll(data, t, pv);
    var ms: seq<seq<Result<Table>>> := MergeAll(ps);
    var k := if i == 0 then 1 else 0;
    assert ps[i] == Pass1(data[i], t, pv);
    assert ps[i].table.columns == WithReg(data[i].table.columns);
    assert ms[i][k].Failure? by {
      assert ms[i][k] == Merge(ps[i].table, ps[k].table, ps[i].geneCol);
    }
    assert !MergesUpTo(ms, |data|, i, |data|);
  }

  /** The index every dgeapy table carries after `set_index("gene_id")`. */
  const GeneIndex := "gene_id"

  /** The merge keyed on the `gene_id` index (`on="gene_id"` names an index
      level as well as a column): when every sample processes, every ordered
      pair merges and the run gives n(n-1) flow tables. */
  lemma GeneIndexFlows(data: seq<Sample>, t: real, pv: real)
    requires AllProcessable(data)
    requires forall k :: 0 <= k < |data| ==> data[k].geneCol == GeneIndex && GeneIndex in data[k].table.columns
    ensures var ms := MergeAll(PassAll(data, t, pv));
      AllMerge(ms, |data|) && |AllFlows(ms, |data|, |data|)| == |data| * (|data| - 1)
  {
    var ps := PassAll(data, t, pv);
    var ms: seq<seq<Result<Table>>> := MergeAll(ps);
    forall k | 0 <= k < |data|
      ensures ps[k].geneCol == GeneIndex && GeneIndex in ps[k].table.columns
    {
      assert ps[k] == Pass1(data[k], t, pv);
      assert ps[k].table.columns == WithReg(data[k].table.columns);
    }
    forall i | 0 <= i < |data|
      ensures MergesUpTo(ms, |data|, i, |data|)
    {
      forall k | 0 <= k < |data| && k != i
        ensures ms[i][k].Success?
      {
        assert ms[i][k] == Merge(ps[i].table, ps[k].table, GeneIndex);
      }
    }
    AllFlowsCount(ms, |data|, |data|);
  }

  /** The names are not "Regulation", and the ghost tables are the processed
      samples and their merges. */
  predicate Oracle(data: seq<Sample>, ps: seq<Sample>, ms: seq<seq<Result<Table>>>, t: real, pv: real)
  {
    && (forall k :: 0 <= k < |data| ==> data[k].lfcCol != RegKey && data[k].padjCol != RegKey)
    && |ps| == |data| && IsMatrix(data, ms)
    && (forall k {:trigger Pass1(data[k], t, pv)} :: 0 <= k < |data| ==> ps[k] == Pass1(data[k], t, pv))
    && (forall i, k {:trigger Merge(ps[i].table, ps[k].table, ps[i].geneCol)} ::
          0 <= i < |data| && 0 <= k < |data| ==> ms[i][k] == Merge(ps[i].table, ps[k].table, ps[i].geneCol))
  }

  lemma OracleOf(data: seq<Sample>, t: real, pv: real)
    requires forall k :: 0 <= k < |data| ==> data[k].lfcCol != RegKey && data[k].padjCol != RegKey
    ensures Oracle(data, PassAll(data, t, pv), MergeAll(PassAll(data, t, pv)), t, pv)
  {
  }

  /** `generate_sankey_diagram` without the drawing: for each sample a, its
      table is reclassified and filtered, then for each other sample b, b's
      is too and the flow table of (a, b) is produced. `out` is the list of
      samples with their tables replaced by the filtered ones. */
  method SankeyFlows(data: seq<Sample>, t: real, pv: real) returns (r: Result<seq<Table>>, out: seq<Sample>)
    requires forall k :: 0 <= k < |data| ==> data[k].lfcCol != RegKey && data[k].padjCol != RegKey
    ensures var ms := MergeAll(PassAll(data, t, pv));
      && (r.Success? <==> AllProcessable(data) && AllMerge(ms, |data|))
      && (r.Failure? ==> r.error == KeyError)
      && (r.Success? ==> r.value == AllFlows(ms, |data|, |data|) && out == PassAll(data, t, pv))
  {
    ghost var ps := PassAll(data, t, pv);
    ghost var ms := MergeAll(ps);
    OracleOf(data, t, pv);
    r, out := Pivots(data, ps, ms, t, pv);
  }

  /** The outer loop, over the processed samples `ps` and their merges `ms`. */
  method Pivots(data: seq<Sample>, ghost ps: seq<Sample>, ghost ms: seq<seq<Result<Table>>>, t: real, pv: real)
      returns (r: Result<seq<Table>>, out: seq<Sample>)
    requires Oracle(data, ps, ms, t, pv)
    ensures r.Success? <==> AllProcessable(data) && AllMerge(ms, |data|)
    ensures r.Failure? ==> r.error == KeyError
    ensures r.Success? ==> r.value == AllFlows(ms, |data|, |data|) && out == ps
  {
    PivotsOk(data, ms);
    out := data;
    var flows: seq<Table> := [];
    var i := 0;
    while i < |data|
      invariant 0 <= i <= |data| && |out| == |data|
      invariant OuterInv(data, ps, ms, out, i, flows)
    {
      r, out := Round(data, ps, ms, out, t, pv, i, flows);
      if r.Failure? {
        return;
      }
      flows := r.value;
      i := i + 1;
    }
    OuterDone(data, ps, ms, out, flows);
    r := Success(flows);
  }

  /** The outer loop's invariant after i pivots. */
  predicate OuterInv(data: seq<Sample>, ps: seq<Sample>, ms: seq<seq<Result<Table>>>,
                     cur: seq<Sample>, i: nat, flows: seq<Table>)
    requires |ps| == |data| && IsMatrix(data, ms) && |cur| == |data| && i <= |data|
  {
    && Settled(data, ps, cur)
    && (i > 0 ==> forall k :: 0 <= k < |data| ==> Done(data, ps, cur, k))
    && (forall k :: 0 <= k < i ==> Processable(data[k].table, data[k].lfcCol, data[k].padjCol) && PivotOk(data, ms, k, |data|))
    && flows == AllFlows(ms, |data|, i)
  }

  lemma OuterDone(data: seq<Sample>, ps: seq<Sample>, ms: seq<seq<Result<Table>>>, cur: seq<Sample>, flows: seq<Table>)
    requires |ps| == |data| && IsMatrix(data, ms) && |cur| == |data| && OuterInv(data, ps, ms, cur, |data|, flows)
    ensures cur == ps && AllProcessable(data) && AllMerge(ms, |data|)
  {
    PivotsOk(data, ms);
    forall k | 0 <= k < |data|
      ensures cur[k] == ps[k]
    {
      assert Done(data, ps, cur, k);
    }
  }

  /** One turn of the outer loop: pivot i is reclassified, then the inner
      loop runs over the other samples. */
  method Round(data: seq<Sample>, ghost ps: seq<Sample>, ghost ms: seq<seq<Result<Table>>>,
               cur: seq<Sample>, t: real, pv: real, i: nat, flows: seq<Table>)
      returns (r: Result<seq<Table>>, cur': seq<Sample>)
    requires i < |data| && Oracle(data, ps, ms, t, pv) && |cur| == |data|
    requires OuterInv(data, ps, ms, cur, i, flows)
    ensures r.Failure? ==> r.error == KeyError && !(AllProcessable(data) && AllMerge(ms, |data|))
    ensures r.Success? ==> |cur'| == |data| && OuterInv(data, ps, ms, cur', i + 1, r.value)
  {
    PivotsOk(data, ms);
    var ok;
    assert SampleKnown(data, ps, t, pv, i);
    ok, cur' := Pass(data, ps, cur, t, pv, i);
    if !ok {
      return Failure(KeyError), cur';
    }
    var row;
    row, cur' := Pivot(data, ps, ms, cur', t, pv, i);
    if row.Failure? {
      return Failure(KeyError), cur';
    }
    OuterStep(data, ps, ms, cur, cur', i, flows, row.value);
    r := Success(flows + row.value);
  }

  lemma OuterStep(data: seq<Sample>, ps: seq<Sample>, ms: seq<seq<Result<Table>>>,
                  cur: seq<Sample>, cur': seq<Sample>, i: nat, flows: seq<Table>, row: seq<Table>)
    requires i < |data| && |ps| == |data| && IsMatrix(data, ms) && |cur| == |data| && |cur'| == |data|
    requires OuterInv(data, ps, ms, cur, i, flows)
    requires Processable(data[i].table, data[i].lfcCol, data[i].padjCol) && PivotOk(data, ms, i, |data|)
    requires forall k :: 0 <= k < |data| ==> Done(data, ps, cur', k)
    requires row == RowFlows(ms, |data|, i, |data|)
    ensures OuterInv(data, ps, ms, cur', i + 1, flows + row)
  {
  }

  /** The inner loop for pivot i: every other sample is reclassified (a no-op
      the second time) and merged with it. */
  method Pivot(data: seq<Sample>, ghost ps: seq<Sample>, ghost ms: seq<seq<Result<Table>>>,
               cur: seq<Sample>, t: real, pv: real, i: nat) returns (r: Result<seq<Table>>, cur': seq<Sample>)
    requires i < |data| && Oracle(data, ps, ms, t, pv) && |cur| == |data|
    requires Settled(data, ps, cur) && Done(data, ps, cur, i)
    ensures r.Success? <==> PivotOk(data, ms, i, |data|)
    ensures r.Success? ==> r.value == RowFlows(ms, |data|, i, |data|) && |cur'| == |data|
    ensures r.Success? ==> forall k :: 0 <= k < |data| ==> Done(data, ps, cur', k)
  {
    cur' := cur;
    var flows: seq<Table> := [];
    var j := 0;
    while j < |data|
      invariant 0 <= j <= |data| && |cur'| == |data|
      invariant InnerInv(data, ps, ms, cur', i, j, flows)
    {
      r, cur' := Visit(data, ps, ms, cur', t, pv, i, j, flows);
      if r.Failure? {
        return;
      }
      flows := r.value;
      j := j + 1;
    }
    InnerDone(data, ps, ms, cur', i, flows);
    r := Success(flows);
  }

  lemma InnerDone(data: seq<Sample>, ps: seq<Sample>, ms: seq<seq<Result<Table>>>,
                  cur: seq<Sample>, i: nat, flows: seq<Table>)
    requires |ps| == |data| && IsMatrix(data, ms) && |cur| == |data| && i < |data|
    requires InnerInv(data, ps, ms, cur, i, |data|, flows)
    ensures PivotOk(data, ms, i, |data|) && flows == RowFlows(ms, |data|, i, |data|)
    ensures forall k :: 0 <= k < |data| ==> Done(data, ps, cur, k)
  {
  }

  /** The inner loop's invariant after j samples. */
  predicate InnerInv(data: seq<Sample>, ps: seq<Sample>, ms: seq<seq<Result<Table>>>,
                     cur: seq<Sample>, i: nat, j: nat, flows: seq<Table>)
    requires |ps| == |data| && IsMatrix(data, ms) && |cur| == |data| && i < |data| && j <= |data|
  {
    && Settled(data, ps, cur) && Done(data, ps, cur, i)
    && (forall k :: 0 <= k < j ==> Done(data, ps, cur, k))
    && PivotOk(data, ms, i, j)
    && flows == RowFlows(ms, |data|, i, j)
  }

  /** One turn of the inner loop: sample j, unless it is the pivot, is
      reclassified and merged with it. */
  method Visit(data: seq<Sample>, ghost ps: seq<Sample>, ghost ms: seq<seq<Result<Table>>>,
               cur: seq<Sample>, t: real, pv: real, i: nat, j: nat, flows: seq<Table>)
      returns (r: Result<seq<Table>>, cur': seq<Sample>)
    requires i < |data| && j < |data| && |cur| == |data|
    // The oracle is named through a let so that the verifier passes it on
    // whole at the call rather than unfolding its quantifiers there.
    requires var known := Oracle(data, ps, ms, t, pv); known
    requires InnerInv(data, ps, ms, cur, i, j, flows)
    ensures r.Failure? ==> !PivotOk(data, ms, i, |data|)
    ensures r.Success? ==> |cur'| == |data| && InnerInv(data, ps, ms, cur', i, j + 1, r.value)
  {
    OracleAt(data, ps, ms, t, pv, i, j);
    if j == i {
      return Success(flows), cur;
    }
    var ok;
    ok, cur' := Pass(data, ps, cur, t, pv, j);
    if !ok {
      return Failure(KeyError), cur';
    }
    var m := Merge(cur'[i].table, cur'[j].table, cur'[i].geneCol);
    if m.Failure? {
      return Failure(KeyError), cur';
    }
    InnerOther(data, ps, ms, cur, cur', i, j, flows);
    r := Success(flows + [m.value]);
  }

  lemma InnerOther(data: seq<Sample>, ps: seq<Sample>, ms: seq<seq<Result<Table>>>,
                   cur: seq<Sample>, cur': seq<Sample>, i: nat, j: nat, flows: seq<Table>)
    requires i < |data| && j < |data| && i != j && |ps| == |data| && IsMatrix(data, ms)
    requires |cur| == |data| && cur' == cur[j := ps[j]]
    requires InnerInv(data, ps, ms, cur, i, j, flows)
    requires Processable(data[j].table, data[j].lfcCol, data[j].padjCol) && ms[i][j].Success?
    ensures InnerInv(data, ps, ms, cur', i, j + 1, flows + [ms[i][j].value])
  {
    forall k | 0 <= k < j + 1
      ensures Done(data, ps, cur', k)
    {
      if k < j {
        assert Done(data, ps, cur, k);
      }
    }
    forall k | 0 <= k < |data|
      ensures cur'[k] == data[k] || Done(data, ps, cur', k)
    {
      if k != j {
        assert cur'[k] == cur[k];
      }
    }
  }

  /** Sample k's names are not "Regulation" and ps[k] is its processed form. */
  predicate SampleKnown(data: seq<Sample>, ps: seq<Sample>, t: real, pv: real, k: nat)
    requires k < |data| && |ps| == |data|
  {
    data[k].lfcCol != RegKey && data[k].padjCol != RegKey && ps[k] == Pass1(data[k], t, pv)
  }

  lemma OracleAt(data: seq<Sample>, ps: seq<Sample>, ms: seq<seq<Result<Table>>>, t: real, pv: real, i: nat, j: nat)
    requires i < |data| && j < |data| && Oracle(data, ps, ms, t, pv)
    ensures SampleKnown(data, ps, t, pv, j) && ms[i][j] == Merge(ps[i].table, ps[j].table, ps[i].geneCol)
  {
  }

  /** The reclassification of sample k inside the loops: it fails only on the
      sample's first pass, and otherwise leaves the sample processed. */
  method Pass(data: seq<Sample>, ghost ps: seq<Sample>, cur: seq<Sample>, t: real, pv: real, k: nat)
      returns (ok: bool, cur': seq<Sample>)
    requires k < |data| && |ps| == |data| && SampleKnown(data, ps, t, pv, k) && |cur| == |data|
    requires cur[k] == data[k] || Done(data, ps, cur, k)
    ensures ok <==> Processable(data[k].table, data[k].lfcCol, data[k].padjCol)
    ensures ok ==> cur' == cur[k := ps[k]] && Done(data, ps, cur', k)
  {
    if cur[k] != data[k] {
      ReclassifyTwice(data[k], t, pv);
    }
    var s := Reclassify(cur[k], t, pv);
    if s.Failure? {
      return false, cur;
    }
    ok, cur' := true, cur[k := s.value];
  }
}
