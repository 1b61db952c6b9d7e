/** The function assignment of dgeapy_assert-function.py: a `function` column is
    appended, and each row gets the first configured function matched by its GO
    codes, else by its GO ancestors, else by its KEGG pathways; 'not annotated'
    when all three cells are empty, 'others' when nothing matched. */
module AssertFunction {
  import opened Wrappers
  import opened Tables
  import opened Frames

  const GoCodesKey := "Gene Ontology IDs"
  const AncestorsKey := "go_ancestors_is_a_and_regulates"
  const StrictAncestorsKey := "go_ancestors_is_a"
  const KeggKey := "kegg_pathways"
  const FunctionKey := "function"
  const NotAnnotated := "not annotated"
  const Others := "others"

  /** One entry of the configuration dict, in its order: a function name with
      its 'GO' list and its 'KEGG' list. */
  datatype Function = Function(name: string, go: seq<string>, kegg: seq<string>)

  function Names(fs: seq<Function>): (ns: seq<string>)
    ensures |ns| == |fs|
    ensures forall i :: 0 <= i < |fs| ==> ns[i] == fs[i].name
  {
    if fs == [] then [] else [fs[0].name] + Names(fs[1..])
  }

  /** The ancestors column read: `--strict` selects the is_a-only one. */
  function AncestorsColumn(strict: bool): (c: string)
    ensures c != GoCodesKey && c != KeggKey && c != FunctionKey
    ensures strict <==> c == StrictAncestorsKey
  {
    if strict then StrictAncestorsKey else AncestorsKey
  }

  /** `str(cell)` of a non-empty annotation cell. */
  function Text(c: Cell): string
  {
    if c.Str? then c.s else ""
  }

  /** A GO code as looked up: stripped in the GO step, as split in the ancestor
      step. */
  function Code(c: string, strip: bool): string
  {
    if strip then Strip(c) else c
  }

  // ---------------------------------------------------------------------------
  // Reference definitions of the three lookups

  /** The first function, in dict order, whose 'GO' list holds `code`. */
  function FirstOwner(fs: seq<Function>, code: string): (o: Option<string>)
    ensures o.Some? ==> o.value in Names(fs)
  {
    if fs == [] then None
    else if code in fs[0].go then Some(fs[0].name)
    else
      var o := FirstOwner(fs[1..], code);
      assert Names(fs) == [fs[0].name] + Names(fs[1..]);
      o
  }

  /** The owner of the first code, in cell order, that has one. */
  function FirstCodeMatch(fs: seq<Function>, codes: seq<string>, strip: bool): (o: Option<string>)
    ensures o.Some? ==> o.value in Names(fs)
  {
    if codes == [] then None
    else
      var o := FirstOwner(fs, Code(codes[0], strip));
      if o.Some? then o else FirstCodeMatch(fs, codes[1..], strip)
  }

  /** Some pathway of `ps` occurs in `text`. */
  predicate AnyIn(ps: seq<string>, text: string)
  {
    ps != [] && (IsSubstring(ps[0], text) || AnyIn(ps[1..], text))
  }

  /** The first function, in dict order, one of whose 'KEGG' strings occurs in
      the row's pathway text. */
  function FirstKegg(fs: seq<Function>, text: string): (o: Option<string>)
    ensures o.Some? ==> o.value in Names(fs)
  {
    if fs == [] then None
    else if AnyIn(fs[0].kegg, text) then Some(fs[0].name)
    else
      var o := FirstKegg(fs[1..], text);
      assert Names(fs) == [fs[0].name] + Names(fs[1..]);
      o
  }

  /** The GO step: the row's own codes, stripped. */
  function GoStep(go: Cell, fs: seq<Function>): Option<string>
  {
    if go.Missing? then None else FirstCodeMatch(fs, Split(Text(go), ';'), true)
  }

  /** The ancestor step, run when nothing is assigned yet. */
  function AncestorStep(prev: Option<string>, a: Cell, fs: seq<Function>): Option<string>
  {
    if prev.None? && !a.Missing? then FirstCodeMatch(fs, Split(Text(a), ';'), false) else prev
  }

  /** The KEGG step, run when nothing is assigned yet. */
  function KeggStep(prev: Option<string>, kegg: Cell, fs: seq<Function>): Option<string>
  {
    if prev.None? && !kegg.Missing? then FirstKegg(fs, Text(kegg)) else prev
  }

  /** The function cell a row ends with. */
  function Assigned(row: Row, fs: seq<Function>, anc: string): Cell
  {
    var go, a, kegg := Get(row, GoCodesKey), Get(row, anc), Get(row, KeggKey);
    if go.Missing? && a.Missing? && kegg.Missing? then Str(NotAnnotated)
    else
      var c := KeggStep(AncestorStep(GoStep(go, fs), a, fs), kegg, fs);
      Str(if c.Some? then c.value else Others)
  }

  // ---------------------------------------------------------------------------
  // What the lookups pick

  /** The owner is the first function listing the code... */
  lemma {:induction false} FirstOwnerIsFirst(fs: seq<Function>, code: string, i: nat)
    requires i < |fs| && code in fs[i].go
    requires forall j :: 0 <= j < i ==> code !in fs[j].go
    ensures FirstOwner(fs, code) == Some(fs[i].name)
  {
    if i > 0 {
      FirstOwnerIsFirst(fs[1..], code, i - 1);
    }
  }

  /** ...and there is none exactly when no function lists it. */
  lemma {:induction false} FirstOwnerNone(fs: seq<Function>, code: string)
    ensures FirstOwner(fs, code).None? <==> forall j :: 0 <= j < |fs| ==> code !in fs[j].go
  {
    if fs != [] {
      FirstOwnerNone(fs[1..], code);
      assert forall j :: 1 <= j < |fs| ==> fs[j] == fs[1..][j - 1];
    }
  }

  /** A row's codes pick the owner of the first code that has one... */
  lemma {:induction false} FirstCodeMatchIsFirst(fs: seq<Function>, codes: seq<string>, strip: bool, i: nat)
    requires i < |codes| && FirstOwner(fs, Code(codes[i], strip)).Some?
    requires forall j :: 0 <= j < i ==> FirstOwner(fs, Code(codes[j], strip)).None?
    ensures FirstCodeMatch(fs, codes, strip) == FirstOwner(fs, Code(codes[i], strip))
  {
    if i > 0 {
      FirstCodeMatchIsFirst(fs, codes[1..], strip, i - 1);
    }
  }

  /** ...and nothing exactly when no code has an owner. */
  lemma {:induction false} FirstCodeMatchNone(fs: seq<Function>, codes: seq<string>, strip: bool)
    ensures FirstCodeMatch(fs, codes, strip).None? <==>
      forall j :: 0 <= j < |codes| ==> FirstOwner(fs, Code(codes[j], strip)).None?
  {
    if codes != [] {
      FirstCodeMatchNone(fs, codes[1..], strip);
      assert forall j :: 1 <= j < |codes| ==> codes[j] == codes[1..][j - 1];
    }
  }

  /** `any(p in text for p in ps)`. */
  lemma {:induction false} AnyInIff(ps: seq<string>, text: string)
    ensures AnyIn(ps, text) <==> exists k :: 0 <= k < |ps| && IsSubstring(ps[k], text)
  {
    if ps != [] {
      AnyInIff(ps[1..], text);
      if exists k :: 0 <= k < |ps| && IsSubstring(ps[k], text) {
        var k :| 0 <= k < |ps| && IsSubstring(ps[k], text);
        if k > 0 {
          assert ps[1..][k - 1] == ps[k];
        }
      }
      if AnyIn(ps[1..], text) {
        var k :| 0 <= k < |ps[1..]| && IsSubstring(ps[1..][k], text);
        assert ps[k + 1] == ps[1..][k];
      }
    }
  }

  /** The KEGG step picks the first function with a pathway in the text... */
  lemma {:induction false} FirstKeggIsFirst(fs: seq<Function>, text: string, i: nat)
    requires i < |fs| && AnyIn(fs[i].kegg, text)
    requires forall j :: 0 <= j < i ==> !AnyIn(fs[j].kegg, text)
    ensures FirstKegg(fs, text) == Some(fs[i].name)
  {
    if i > 0 {
      FirstKeggIsFirst(fs[1..], text, i - 1);
    }
  }

  /** ...and nothing exactly when no function has one. */
  lemma {:induction false} FirstKeggNone(fs: seq<Function>, text: string)
    ensures FirstKegg(fs, text).None? <==> forall j :: 0 <= j < |fs| ==> !AnyIn(fs[j].kegg, text)
  {
    if fs != [] {
      FirstKeggNone(fs[1..], text);
      assert forall j :: 1 <= j < |fs| ==> fs[j] == fs[1..][j - 1];
    }
  }

  // ---------------------------------------------------------------------------
  // What a row ends with

  /** Every row gets a function name, 'not annotated' or 'others', never NaN. */
  lemma AssignedValues(row: Row, fs: seq<Function>, anc: string)
    ensures Assigned(row, fs, anc).Str?
    ensures var v := Assigned(row, fs, anc).s;
      v == NotAnnotated || v == Others || v in Names(fs)
  {
  }

  /** 'not annotated' marks exactly the rows whose three annotation cells are
      all empty, unless a configured function has that name. */
  lemma NotAnnotatedIff(row: Row, fs: seq<Function>, anc: string)
    requires NotAnnotated !in Names(fs)
    ensures Assigned(row, fs, anc) == Str(NotAnnotated) <==>
      Get(row, GoCodesKey).Missing? && Get(row, anc).Missing? && Get(row, KeggKey).Missing?
  {
  }

  /** A match on the row's own GO codes is never overridden by the ancestor or
      KEGG steps. */
  lemma GoCodesWin(row: Row, fs: seq<Function>, anc: string)
    requires Get(row, GoCodesKey).Str?
    requires FirstCodeMatch(fs, Split(Get(row, GoCodesKey).s, ';'), true).Some?
    ensures Assigned(row, fs, anc) == Str(FirstCodeMatch(fs, Split(Get(row, GoCodesKey).s, ';'), true).value)
  {
  }

  /** A row with some annotation gets 'others' exactly when no step matched. */
  lemma OthersIff(row: Row, fs: seq<Function>, anc: string)
    requires Others !in Names(fs)
    requires !(Get(row, GoCodesKey).Missing? && Get(row, anc).Missing? && Get(row, KeggKey).Missing?)
    ensures Assigned(row, fs, anc) == Str(Others) <==>
      && (Get(row, GoCodesKey).Missing? || FirstCodeMatch(fs, Split(Text(Get(row, GoCodesKey)), ';'), true).None?)
      && (Get(row, anc).Missing? || FirstCodeMatch(fs, Split(Text(Get(row, anc)), ';'), false).None?)
      && (Get(row, KeggKey).Missing? || FirstKegg(fs, Text(Get(row, KeggKey))).None?)
  {
  }

  // ---------------------------------------------------------------------------
  // The loops

  /** The GO and ancestor loops: for each code in turn, the dict is scanned for
      a function listing it; the first hit is kept and both loops stop. */
  method FirstMatch(fs: seq<Function>, codes: seq<string>, strip: bool) returns (fn: Option<string>)
    ensures fn == FirstCodeMatch(fs, codes, strip)
  {
    fn := None;
    var i := 0;
    while i < |codes|
      invariant 0 <= i <= |codes|
      invariant fn.None? && FirstCodeMatch(fs, codes[i..], strip) == FirstCodeMatch(fs, codes, strip)
    {
      var code := if strip then Strip(codes[i]) else codes[i];
      var j := 0;
      while j < |fs|
        invariant 0 <= j <= |fs|
        invariant fn.None? && FirstOwner(fs[j..], code) == FirstOwner(fs, code)
      {
        if code in fs[j].go {
          fn := Some(fs[j].name);
          break;
        }
        assert fs[j..][1..] == fs[j + 1..];
        j := j + 1;
      }
      if fn.Some? {
        break;
      }
      assert codes[i..][1..] == codes[i + 1..];
      i := i + 1;
    }
  }

  /** The KEGG loop: for each function in dict order, its pathways are tried as
      substrings of the row's text; the first hit is kept and both loops stop. */
  method FirstKeggMatch(fs: seq<Function>, text: string) returns (fn: Option<string>)
    ensures fn == FirstKegg(fs, text)
  {
    fn := None;
    var j := 0;
    while j < |fs|
      invariant 0 <= j <= |fs|
      invariant fn.None? && FirstKegg(fs[j..], text) == FirstKegg(fs, text)
    {
      var p := 0;
      while p < |fs[j].kegg|
        invariant 0 <= p <= |fs[j].kegg|
        invariant fn.None? && AnyIn(fs[j].kegg[p..], text) == AnyIn(fs[j].kegg, text)
      {
        if IsSubstring(fs[j].kegg[p], text) {
          fn := Some(fs[j].name);
          break;
        }
        assert fs[j].kegg[p..][1..] == fs[j].kegg[p + 1..];
        p := p + 1;
      }
      if fn.Some? {
        break;
      }
      assert fs[j..][1..] == fs[j + 1..];
      j := j + 1;
    }
  }

  /** The body of the row loop: `fn` stands for the row's `function` cell,
      which only this row's steps read and write. */
  method RowFunction(row: Row, fs: seq<Function>, anc: string) returns (v: Cell)
    ensures v == Assigned(row, fs, anc)
  {
    var go, a, kegg := Get(row, GoCodesKey), Get(row, anc), Get(row, KeggKey);
    ghost var none := go.Missing? && a.Missing? && kegg.Missing?;
    var fn: Option<string> := None;
    if go.Missing? && a.Missing? && kegg.Missing? {
      fn := Some(NotAnnotated);
    }
    if !go.Missing? {
      fn := FirstMatch(fs, Split(Text(go), ';'), true);
    }
    assert !none ==> fn == GoStep(go, fs);
    if !a.Missing? && fn.None? {
      fn := FirstMatch(fs, Split(Text(a), ';'), false);
    }
    assert !none ==> fn == AncestorStep(GoStep(go, fs), a, fs);
    if !kegg.Missing? && fn.None? {
      fn := FirstKeggMatch(fs, Text(kegg));
    }
    assert !none ==> fn == KeggStep(AncestorStep(GoStep(go, fs), a, fs), kegg, fs);
    assert none ==> fn == Some(NotAnnotated);
    v := if fn.Some? then Str(fn.value) else Str(Others);
  }

  /** The script runs to the end: `function` is not yet a column, and when
      there is a row to read, the three annotation columns exist. */
  predicate Annotatable(columns: seq<string>, rows: nat, anc: string)
  {
    FunctionKey !in columns && (rows > 0 ==> GoCodesKey in columns && anc in columns && KeggKey in columns)
  }

  /** `main` from the insert of the `function` column to the end of the row
      loop. */
  method AssertFunctions(table: Frame, fs: seq<Function>, strict: bool) returns (ok: bool)
    modifies table
    ensures ok <==> Annotatable(old(table.columns), |old(table.rows)|, AncestorsColumn(strict))
    ensures ok ==> table.columns == old(table.columns) + [FunctionKey] && |table.rows| == |old(table.rows)|
    ensures ok ==> forall k :: 0 <= k < |table.rows| ==>
      table.rows[k] == old(table.rows)[k][FunctionKey := Assigned(old(table.rows)[k], fs, AncestorsColumn(strict))]
  {
    var anc := AncestorsColumn(strict);
    ghost var rows0 := table.rows;
    ok := table.Insert(|table.columns|, FunctionKey, seq(|table.rows|, _ => Missing));
    if !ok {
      return;
    }
    if |table.rows| > 0 && !(GoCodesKey in table.columns && anc in table.columns && KeggKey in table.columns) {
      return false;
    }
    ghost var rows1 := table.rows;
    AssignRows(table, fs, anc);
    forall k | 0 <= k < |table.rows|
      ensures table.rows[k] == rows0[k][FunctionKey := Assigned(rows0[k], fs, anc)]
    {
      AssignedIgnoresFunction(rows0[k], fs, anc, Missing);
      assert rows1[k] == rows0[k][FunctionKey := Missing];
      assert rows1[k][FunctionKey := Assigned(rows1[k], fs, anc)] == rows0[k][FunctionKey := Assigned(rows0[k], fs, anc)];
    }
  }

  /** The row loop (`iterrows`): each row's `function` cell is set to what its
      annotation cells select. */
  method AssignRows(table: Frame, fs: seq<Function>, anc: string)
    requires FunctionKey in table.columns && anc != FunctionKey
    modifies table
    ensures table.columns == old(table.columns) && |table.rows| == |old(table.rows)|
    ensures forall k :: 0 <= k < |table.rows| ==>
      table.rows[k] == old(table.rows)[k][FunctionKey := Assigned(old(table.rows)[k], fs, anc)]
  {
    ghost var rows0 := table.rows;
    var k := 0;
    while k < |table.rows|
      invariant 0 <= k <= |table.rows| == |rows0|
      invariant table.columns == old(table.columns)
      invariant forall x :: 0 <= x < k ==> AssignedRow(rows0[x], table.rows[x], fs, anc)
      invariant table.rows[k..] == rows0[k..]
    {
      assert table.rows[k] == table.rows[k..][0];
      ghost var before := table.rows;
      var v := RowFunction(table.rows[k], fs, anc);
      table.SetCell(k, FunctionKey, v);
      assert table.rows[k + 1..] == before[k + 1..];
      k := k + 1;
    }
  }

  /** Row `r` is row `r0` with its `function` cell assigned. */
  ghost predicate AssignedRow(r0: Row, r: Row, fs: seq<Function>, anc: string)
  {
    r == r0[FunctionKey := Assigned(r0, fs, anc)]
  }

  /** The row's own `function` cell plays no part in what it is assigned. */
  lemma AssignedIgnoresFunction(row: Row, fs: seq<Function>, anc: string, c: Cell)
    requires anc != FunctionKey
    ensures Assigned(row[FunctionKey := c], fs, anc) == Assigned(row, fs, anc)
  {
    assert Get(row[FunctionKey := c], GoCodesKey) == Get(row, GoCodesKey);
    assert Get(row[FunctionKey := c], anc) == Get(row, anc);
    assert Get(row[FunctionKey := c], KeggKey) == Get(row, KeggKey);
  }
}
