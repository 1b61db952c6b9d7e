/** The accumulator-driven column insertion shared by `add_fold_change_columns` and
    `add_regulation_columns` in both code bases. The loop walks a snapshot of the
    column names; for each source column at snapshot index i it inserts the derived
    column into the live frame at `i + accumulator`, where the accumulator starts at
    `offset` and grows by one per insertion. With offset 1 the new column lands right
    after its source; with offset 2 it lands one column later, which is right after
    the source's FoldChange column once those have been added. */
module DerivedColumns {
  import opened Tables
  import opened Frames

  function NumSources(X: seq<string>, src: string -> bool): (n: nat)
    ensures n <= |X|
    decreases |X|
  {
    if X == [] then 0 else (if src(X[0]) then 1 else 0) + NumSources(X[1..], src)
  }

  lemma {:induction false} NumSourcesAppend(X: seq<string>, Y: seq<string>, src: string -> bool)
    ensures NumSources(X + Y, src) == NumSources(X, src) + NumSources(Y, src)
    decreases |X|
  {
    if X == [] {
      assert X + Y == Y;
    } else {
      assert (X + Y)[1..] == X[1..] + Y;
      NumSourcesAppend(X[1..], Y, src);
    }
  }

  /** Every source column has room for its block of `offset` columns. */
  predicate Closed(X: seq<string>, src: string -> bool, offset: nat)
  {
    forall a :: 0 <= a < |X| && src(X[a]) ==> a + offset <= |X|
  }

  /** The layout the offset-2 loop relies on: each source column is followed by a
      column that is not a source (its FoldChange column). Offset 1 needs nothing. */
  predicate Paired(C: seq<string>, src: string -> bool, offset: nat)
  {
    offset == 1 || forall a :: 0 <= a < |C| && src(C[a]) ==> a + 1 < |C| && !src(C[a + 1])
  }

  /** The intended layout: each source column, with the `offset - 1` columns that
      follow it, is followed by its derived column. */
  function Expand(X: seq<string>, src: string -> bool, rename: string -> string, offset: nat): seq<string>
    requires offset >= 1
    decreases |X|
  {
    if X == [] then []
    else if src(X[0]) && offset <= |X| then X[..offset] + [rename(X[0])] + Expand(X[offset..], src, rename, offset)
    else [X[0]] + Expand(X[1..], src, rename, offset)
  }

  /** Dropping a prefix keeps every block inside the list. */
  lemma ClosedDrop(X: seq<string>, src: string -> bool, offset: nat, k: nat)
    requires Closed(X, src, offset) && k <= |X|
    ensures Closed(X[k..], src, offset)
  {
    forall a | 0 <= a < |X[k..]| && src(X[k..][a]) ensures a + offset <= |X[k..]| {
      assert X[k..][a] == X[a + k];
    }
  }

  lemma {:induction false} ExpandAppend(X: seq<string>, Y: seq<string>, src: string -> bool, rename: string -> string, offset: nat)
    requires offset >= 1 && Closed(X, src, offset)
    ensures Expand(X + Y, src, rename, offset) == Expand(X, src, rename, offset) + Expand(Y, src, rename, offset)
    decreases |X|
  {
    if X == [] {
      assert X + Y == Y;
    } else if src(X[0]) && offset <= |X| {
      assert (X + Y)[..offset] == X[..offset];
      assert (X + Y)[offset..] == X[offset..] + Y;
      ClosedDrop(X, src, offset, offset);
      ExpandAppend(X[offset..], Y, src, rename, offset);
    } else {
      assert !src(X[0]) by {
        assert 0 + offset <= |X| ==> !src(X[0]);
      }
      assert (X + Y)[1..] == X[1..] + Y;
      ClosedDrop(X, src, offset, 1);
      ExpandAppend(X[1..], Y, src, rename, offset);
    }
  }

  lemma ExpandUnit(U: seq<string>, src: string -> bool, rename: string -> string, offset: nat)
    requires offset >= 1 && |U| == offset && src(U[0])
    ensures Expand(U, src, rename, offset) == U + [rename(U[0])]
  {
    assert U[..offset] == U;
    assert U[offset..] == [];
  }

  lemma ExpandSingle(c: string, src: string -> bool, rename: string -> string, offset: nat)
    requires offset >= 1 && (!src(c) || offset > 1)
    ensures Expand([c], src, rename, offset) == [c]
  {
    assert [c][1..] == [];
  }

  /** With every source followed by its block, the layout adds exactly one column per
      source. */
  lemma {:induction false} ExpandLength(X: seq<string>, src: string -> bool, rename: string -> string, offset: nat)
    requires offset == 1 || offset == 2
    requires Paired(X, src, offset)
    ensures |Expand(X, src, rename, offset)| == |X| + NumSources(X, src)
    decreases |X|
  {
    if X != [] {
      var tail := X[1..];
      assert Paired(tail, src, offset) by {
        if offset == 2 {
          forall a | 0 <= a < |tail| && src(tail[a]) ensures a + 1 < |tail| && !src(tail[a + 1]) {
            assert tail[a] == X[a + 1] && (a + 2 < |X| ==> tail[a + 1] == X[a + 2]);
          }
        }
      }
      if src(X[0]) {
        assert offset <= |X|;
        if offset == 1 {
          ExpandLength(tail, src, rename, offset);
        } else {
          assert !src(X[1]);
          var rest := X[2..];
          assert tail[1..] == rest;
          assert Paired(rest, src, offset) by {
            forall a | 0 <= a < |rest| && src(rest[a]) ensures a + 1 < |rest| && !src(rest[a + 1]) {
              assert rest[a] == X[a + 2] && (a + 3 < |X| ==> rest[a + 1] == X[a + 3]);
            }
          }
          ExpandLength(rest, src, rename, offset);
        }
      } else {
        ExpandLength(tail, src, rename, offset);
      }
    }
  }

  /** The columns before a source column hold their blocks and keep the pairing. */
  lemma PrefixClosed(C: seq<string>, src: string -> bool, offset: nat, a: nat)
    requires offset == 1 || offset == 2
    requires Paired(C, src, offset) && a < |C| && src(C[a])
    ensures Closed(C[..a], src, offset) && Paired(C[..a], src, offset)
  {
    var before := C[..a];
    if offset == 2 {
      forall b | 0 <= b < a && src(before[b]) ensures b + 1 < a && !src(before[b + 1]) {
        assert before[b] == C[b];
        assert b + 1 < |C| && !src(C[b + 1]);
        assert before[b + 1] == C[b + 1];
      }
    }
  }

  /** A list starting with a source column starts its layout with that block and the
      derived name. */
  lemma ExpandHead(Y: seq<string>, src: string -> bool, rename: string -> string, offset: nat)
    requires offset >= 1 && offset <= |Y| && src(Y[0])
    ensures var E := Expand(Y, src, rename, offset);
      offset < |E| && E[..offset] == Y[..offset] && E[offset] == rename(Y[0])
  {
    var E := Expand(Y, src, rename, offset);
    assert E == Y[..offset] + [rename(Y[0])] + Expand(Y[offset..], src, rename, offset);
  }

  lemma ConcatAt(A: seq<string>, B: seq<string>, k: nat)
    requires k < |B|
    ensures (A + B)[|A|..|A| + k] == B[..k] && (A + B)[|A| + k] == B[k]
  {
  }

  /** Position: a source column at index `a` lands at `a + NumSources(C[..a])`, keeps
      its block behind it, and its derived column follows the block. */
  lemma ExpandPosition(C: seq<string>, src: string -> bool, rename: string -> string, offset: nat, a: nat)
    requires offset == 1 || offset == 2
    requires Paired(C, src, offset) && a < |C| && src(C[a])
    ensures var E := Expand(C, src, rename, offset); var p := a + NumSources(C[..a], src);
      && a + offset <= |C|
      && p + offset < |E|
      && E[p..p + offset] == C[a..a + offset]
      && E[p + offset] == rename(C[a])
  {
    assert a + offset <= |C|;
    var before, after := C[..a], C[a..];
    PrefixClosed(C, src, offset, a);
    assert C == before + after;
    ExpandAppend(before, after, src, rename, offset);
    ExpandLength(before, src, rename, offset);
    ExpandHead(after, src, rename, offset);
    var F := Expand(after, src, rename, offset);
    ConcatAt(Expand(before, src, rename, offset), F, offset);
    assert F[..offset] == after[..offset] == C[a..a + offset];
  }

  lemma {:induction false} SubsequenceCons<T>(a: seq<T>, b: seq<T>, x: T)
    requires IsSubsequence(a, b)
    ensures IsSubsequence([x] + a, [x] + b) && IsSubsequence(a, [x] + b)
  {
    assert ([x] + a)[1..] == a;
    assert ([x] + b)[1..] == b;
  }

  /** The original columns keep their relative order: the insertions only add. */
  lemma {:induction false} ExpandKeepsOrder(X: seq<string>, src: string -> bool, rename: string -> string, offset: nat)
    requires offset == 1 || offset == 2
    ensures IsSubsequence(X, Expand(X, src, rename, offset))
    decreases |X|
  {
    if X != [] {
      if src(X[0]) && offset <= |X| {
        var rest := Expand(X[offset..], src, rename, offset);
        ExpandKeepsOrder(X[offset..], src, rename, offset);
        SubsequenceCons(X[offset..], rest, rename(X[0]));
        if offset == 1 {
          assert X == [X[0]] + X[1..];
          assert Expand(X, src, rename, offset) == [X[0]] + ([rename(X[0])] + rest);
          SubsequenceCons(X[1..], [rename(X[0])] + rest, X[0]);
        } else {
          assert X == [X[0]] + ([X[1]] + X[2..]);
          assert Expand(X, src, rename, offset) == [X[0]] + ([X[1]] + ([rename(X[0])] + rest));
          SubsequenceCons(X[2..], [rename(X[0])] + rest, X[1]);
          SubsequenceCons([X[1]] + X[2..], [X[1]] + ([rename(X[0])] + rest), X[0]);
        }
      } else {
        ExpandKeepsOrder(X[1..], src, rename, offset);
        assert X == [X[0]] + X[1..];
        SubsequenceCons(X[1..], Expand(X[1..], src, rename, offset), X[0]);
      }
    }
  }

  /** The layout after both passes: each source column followed by its FoldChange and
      its Regulation column. */
  function Triples(C: seq<string>, src: string -> bool, fc: string -> string, reg: string -> string): seq<string>
    decreases |C|
  {
    if C == [] then []
    else (if src(C[0]) then [C[0], fc(C[0]), reg(C[0])] else [C[0]]) + Triples(C[1..], src, fc, reg)
  }

  lemma PairedCons(c: string, R: seq<string>, src: string -> bool)
    requires !src(c) && Paired(R, src, 2)
    ensures Paired([c] + R, src, 2)
  {
    var X := [c] + R;
    forall a | 0 <= a < |X| && src(X[a]) ensures a + 1 < |X| && !src(X[a + 1]) {
      assert X[a] == R[a - 1];
      assert a < |R| ==> X[a + 1] == R[a];
    }
  }

  lemma PairedCons2(c: string, d: string, R: seq<string>, src: string -> bool)
    requires src(c) && !src(d) && Paired(R, src, 2)
    ensures Paired([c, d] + R, src, 2)
  {
    var X := [c, d] + R;
    forall a | 0 <= a < |X| && src(X[a]) ensures a + 1 < |X| && !src(X[a + 1]) {
      if a >= 2 {
        assert X[a] == R[a - 2];
        assert a - 1 < |R| ==> X[a + 1] == R[a - 1];
      }
    }
  }

  /** Running the FoldChange pass (offset 1) and then the Regulation pass (offset 2)
      gives each source its FoldChange and Regulation columns right behind it,
      provided the FoldChange names are not themselves sources. The first pass also
      establishes the layout the second pass needs. */
  lemma {:induction false} ExpandTwice(C: seq<string>, src: string -> bool, fc: string -> string, reg: string -> string)
    requires forall a :: 0 <= a < |C| && src(C[a]) ==> !src(fc(C[a]))
    ensures Paired(Expand(C, src, fc, 1), src, 2)
    ensures Expand(Expand(C, src, fc, 1), src, reg, 2) == Triples(C, src, fc, reg)
    decreases |C|
  {
    if C != [] {
      var tail := C[1..];
      assert forall a :: 0 <= a < |tail| && src(tail[a]) ==> !src(fc(tail[a])) by {
        forall a | 0 <= a < |tail| && src(tail[a]) ensures !src(fc(tail[a])) {
          assert tail[a] == C[a + 1];
        }
      }
      ExpandTwice(tail, src, fc, reg);
      var R := Expand(tail, src, fc, 1);
      var X := Expand(C, src, fc, 1);
      if src(C[0]) {
        assert X == [C[0], fc(C[0])] + R;
        assert X[..2] == [C[0], fc(C[0])] && X[2..] == R;
        PairedCons2(C[0], fc(C[0]), R, src);
      } else {
        assert X == [C[0]] + R;
        assert X[1..] == R;
        PairedCons(C[0], R, src);
      }
    }
  }

  /** The loop's success condition over the first `n` snapshot columns: no derived
      name is already a column, and no two derived names clash. */
  predicate Insertable(C: seq<string>, n: nat, src: string -> bool, rename: string -> string)
  {
    forall a :: 0 <= a < n && a < |C| && src(C[a]) ==>
      && rename(C[a]) !in C
      && forall b :: 0 <= b < a && src(C[b]) ==> rename(C[b]) != rename(C[a])
  }

  /** The cells a row gains: one per source column, computed from the source cell. */
  function Derived(r: Row, X: seq<string>, src: string -> bool, rename: string -> string, derive: Cell -> Cell): (d: map<string, Cell>)
    ensures forall x :: x in d ==> exists b :: 0 <= b < |X| && src(X[b]) && x == rename(X[b])
    decreases |X|
  {
    if X == [] then map[]
    else
      var n := |X| - 1;
      var prev := Derived(r, X[..n], src, rename, derive);
      assert forall b :: 0 <= b < n ==> X[..n][b] == X[b];
      prev + (if src(X[n]) then map[rename(X[n]) := derive(Get(r, X[n]))] else map[])
  }

  /** Each source's derived cell is computed from that source's own cell. */
  lemma {:induction false} DerivedValue(r: Row, C: seq<string>, src: string -> bool, rename: string -> string, derive: Cell -> Cell, a: nat)
    requires Insertable(C, |C|, src, rename) && a < |C| && src(C[a])
    ensures rename(C[a]) in Derived(r, C, src, rename, derive)
    ensures Derived(r, C, src, rename, derive)[rename(C[a])] == derive(Get(r, C[a]))
    decreases |C|
  {
    var n := |C| - 1;
    if a < n {
      var P := C[..n];
      assert P[a] == C[a];
      assert Insertable(P, |P|, src, rename) by {
        forall x | 0 <= x < |P| && src(P[x]) ensures rename(P[x]) !in P {
          assert P[x] == C[x];
          forall y | y in P ensures y in C {
            var q :| 0 <= q < |P| && P[q] == y;
            assert C[q] == y;
          }
        }
      }
      DerivedValue(r, P, src, rename, derive, a);
      if src(C[n]) {
        assert rename(C[a]) != rename(C[n]);
      }
    }
  }

  /** The loop's per-column values: `derive` applied to every cell of column `c`. */
  method DeriveValues(rows: seq<Row>, c: string, derive: Cell -> Cell) returns (values: seq<Cell>)
    ensures |values| == |rows|
    ensures forall k :: 0 <= k < |rows| ==> values[k] == derive(Get(rows[k], c))
  {
    values := [];
    var k := 0;
    while k < |rows|
      invariant 0 <= k <= |rows| && |values| == k
      invariant forall m :: 0 <= m < k ==> values[m] == derive(Get(rows[m], c))
    {
      values := values + [derive(Get(rows[k], c))];
      k := k + 1;
    }
  }

  lemma SplitAfter(E: seq<string>, R: seq<string>, k: nat)
    requires k <= |R|
    ensures (E + R)[..|E| + k] == E + R[..k]
    ensures (E + R)[|E| + k..] == R[k..]
  {
  }

  lemma ClosedExtend(C: seq<string>, i: nat, src: string -> bool, offset: nat)
    requires offset == 1 || offset == 2
    requires Paired(C, src, offset) && i < |C| && src(C[i]) && i + offset <= |C|
    requires Closed(C[..i], src, offset)
    ensures Closed(C[..i + offset], src, offset)
  {
    var Q := C[..i + offset];
    assert offset == 2 ==> !src(C[i + 1]);
    forall a | 0 <= a < |Q| && src(Q[a]) ensures a + offset <= |Q| {
      assert Q[a] == C[a];
      if a < i {
        assert C[..i][a] == C[a];
      }
    }
  }

  /** One insertion step on the column list: the derived name goes in right after the
      source's block, which extends the layout by that block. */
  lemma InsertStepColumns(C: seq<string>, i: nat, src: string -> bool, rename: string -> string, offset: nat, ns: nat)
    requires offset == 1 || offset == 2
    requires Paired(C, src, offset) && i < |C| && src(C[i])
    requires Closed(C[..i], src, offset)
    requires |Expand(C[..i], src, rename, offset)| == i + ns
    ensures i + offset <= |C|
    ensures var cur := Expand(C[..i], src, rename, offset) + C[i..]; var loc := i + offset + ns;
      && loc <= |cur|
      && cur[..loc] + [rename(C[i])] + cur[loc..] == Expand(C[..i + offset], src, rename, offset) + C[i + offset..]
    ensures Closed(C[..i + offset], src, offset)
    ensures |Expand(C[..i + offset], src, rename, offset)| == i + offset + ns + 1
  {
    assert i + offset <= |C| by {
      if offset == 2 { assert i + 1 < |C|; }
    }
    var E := Expand(C[..i], src, rename, offset);
    var U := C[i..i + offset];
    assert C[..i + offset] == C[..i] + U;
    ExpandAppend(C[..i], U, src, rename, offset);
    ExpandUnit(U, src, rename, offset);
    assert U[0] == C[i];
    var F := Expand(C[..i + offset], src, rename, offset);
    assert F == E + U + [rename(C[i])];
    SplitAfter(E, C[i..], offset);
    assert C[i..][..offset] == U && C[i..][offset..] == C[i + offset..];
    var cur := E + C[i..];
    assert cur[..|E| + offset] == E + U;
    assert cur[|E| + offset..] == C[i + offset..];
    ClosedExtend(C, i, src, offset);
  }

  /** A step over a column that is not a source extends the layout by that column. */
  lemma SkipStepColumns(C: seq<string>, i: nat, src: string -> bool, rename: string -> string, offset: nat)
    requires offset == 1 || offset == 2
    requires i < |C| && !src(C[i]) && Closed(C[..i], src, offset)
    ensures Expand(C[..i + 1], src, rename, offset) == Expand(C[..i], src, rename, offset) + [C[i]]
    ensures Closed(C[..i + 1], src, offset)
  {
    assert C[..i + 1] == C[..i] + [C[i]];
    ExpandAppend(C[..i], [C[i]], src, rename, offset);
    ExpandSingle(C[i], src, rename, offset);
    var Q := C[..i + 1];
    forall a | 0 <= a < |Q| && src(Q[a]) ensures a + offset <= |Q| {
      assert Q[a] == C[a];
      assert C[..i][a] == C[a];
    }
  }

  /** A source column extends the derived cells by its own. */
  lemma DerivedSnoc(r0: Row, C: seq<string>, i: nat, src: string -> bool, rename: string -> string, derive: Cell -> Cell)
    requires i < |C| && src(C[i])
    ensures Derived(r0, C[..i + 1], src, rename, derive)
         == Derived(r0, C[..i], src, rename, derive) + map[rename(C[i]) := derive(Get(r0, C[i]))]
  {
    assert C[..i + 1][..i] == C[..i];
    assert C[..i + 1][i] == C[i];
  }

  lemma UpdateUnion(r0: Row, d: map<string, Cell>, name: string, v: Cell)
    ensures (r0 + d)[name := v] == r0 + (d + map[name := v])
  {
  }

  /** One insertion step on a row: the new cell is the derived value of the source
      cell, which earlier insertions did not touch. */
  lemma InsertStepRow(r0: Row, C: seq<string>, i: nat, src: string -> bool, rename: string -> string, derive: Cell -> Cell)
    requires i < |C| && src(C[i]) && Insertable(C, i, src, rename)
    ensures var cur := r0 + Derived(r0, C[..i], src, rename, derive);
      cur[rename(C[i]) := derive(Get(cur, C[i]))] == r0 + Derived(r0, C[..i + 1], src, rename, derive)
  {
    var d := Derived(r0, C[..i], src, rename, derive);
    assert C[i] !in d by {
      forall b | 0 <= b < i && src(C[..i][b]) ensures C[i] != rename(C[..i][b]) {
        assert C[..i][b] == C[b];
      }
    }
    assert Get(r0 + d, C[i]) == Get(r0, C[i]);
    DerivedSnoc(r0, C, i, src, rename, derive);
    UpdateUnion(r0, d, rename(C[i]), derive(Get(r0, C[i])));
  }

  lemma SkipStepRow(r0: Row, C: seq<string>, i: nat, src: string -> bool, rename: string -> string, derive: Cell -> Cell)
    requires i < |C| && !src(C[i])
    ensures Derived(r0, C[..i + 1], src, rename, derive) == Derived(r0, C[..i], src, rename, derive)
  {
    assert C[..i + 1][..i] == C[..i];
  }

  /** Derived names never hit an original column, so the original cells survive. */
  lemma DerivedAvoidsOriginal(r0: Row, C: seq<string>, n: nat, src: string -> bool, rename: string -> string, derive: Cell -> Cell, c: string)
    requires n <= |C| && Insertable(C, n, src, rename) && c in C
    ensures c !in Derived(r0, C[..n], src, rename, derive)
    ensures c in r0 ==> (r0 + Derived(r0, C[..n], src, rename, derive))[c] == r0[c]
  {
    forall b | 0 <= b < n && src(C[..n][b]) ensures c != rename(C[..n][b]) {
      assert C[..n][b] == C[b];
    }
  }

  /** The state of the insertion loop after the first `i` snapshot columns: the live
      columns are the layout of the processed part (`j` runs one ahead while an
      offset-2 block is still open) followed by the untouched rest, the accumulator
      is `offset` plus the insertions so far, and each row has gained the derived
      cells of the processed sources. */
  ghost predicate Progress(cols: seq<string>, rows: seq<Row>, C: seq<string>, rows0: seq<Row>, i: nat, j: nat, acc: int,
                           src: string -> bool, rename: string -> string, derive: Cell -> Cell, offset: nat)
    requires offset >= 1
  {
    && i <= j <= |C| && j <= i + 1
    && (j == i + 1 ==> !src(C[i]))
    && Closed(C[..j], src, offset)
    && cols == Expand(C[..j], src, rename, offset) + C[j..]
    && |Expand(C[..j], src, rename, offset)| == j + NumSources(C[..i], src)
    && acc == offset + NumSources(C[..i], src)
    && Insertable(C, i, src, rename)
    && |rows| == |rows0|
    && (forall k :: 0 <= k < |rows0| ==> rows0[k].Keys == set c | c in C)
    && (forall k :: 0 <= k < |rows0| ==> rows[k] == rows0[k] + Derived(rows0[k], C[..i], src, rename, derive))
    && (forall x :: x in cols <==> x in C || exists b :: 0 <= b < i && src(C[b]) && x == rename(C[b]))
  }

  lemma ProgressKeepsOriginal(cols: seq<string>, rows: seq<Row>, C: seq<string>, rows0: seq<Row>, i: nat, j: nat, acc: int,
                              src: string -> bool, rename: string -> string, derive: Cell -> Cell, offset: nat)
    requires offset >= 1 && Progress(cols, rows, C, rows0, i, j, acc, src, rename, derive, offset)
    ensures forall c :: c in C ==> c in cols
    ensures forall k, c :: 0 <= k < |rows| && c in C ==> c in rows[k] && rows[k][c] == rows0[k][c]
  {
    forall k, c | 0 <= k < |rows| && c in C ensures c in rows[k] && rows[k][c] == rows0[k][c] {
      DerivedAvoidsOriginal(rows0[k], C, i, src, rename, derive, c);
    }
  }

  lemma SkipStep(cols: seq<string>, rows: seq<Row>, C: seq<string>, rows0: seq<Row>, i: nat, j: nat, acc: int,
                 src: string -> bool, rename: string -> string, derive: Cell -> Cell, offset: nat)
    requires offset == 1 || offset == 2
    requires Progress(cols, rows, C, rows0, i, j, acc, src, rename, derive, offset)
    requires i < |C| && !src(C[i])
    ensures Progress(cols, rows, C, rows0, i + 1, if j == i then i + 1 else j, acc, src, rename, derive, offset)
  {
    assert C[..i + 1] == C[..i] + [C[i]];
    NumSourcesAppend(C[..i], [C[i]], src);
    assert NumSources([C[i]], src) == 0 by {
      assert [C[i]][1..] == [];
    }
    forall k | 0 <= k < |rows0|
      ensures Derived(rows0[k], C[..i + 1], src, rename, derive) == Derived(rows0[k], C[..i], src, rename, derive)
    {
      SkipStepRow(rows0[k], C, i, src, rename, derive);
    }
    if j == i {
      SkipStepColumns(C, i, src, rename, offset);
      assert C[i..] == [C[i]] + C[i + 1..];
    }
  }

  lemma ProgressInit(C: seq<string>, rows0: seq<Row>, src: string -> bool, rename: string -> string, derive: Cell -> Cell, offset: nat)
    requires offset >= 1 && WellFormed(Table(C, rows0))
    ensures Progress(C, rows0, C, rows0, 0, 0, offset, src, rename, derive, offset)
  {
    assert C[..0] == [];
    assert forall k :: 0 <= k < |rows0| ==> rows0[k] + Derived(rows0[k], C[..0], src, rename, derive) == rows0[k];
  }

  lemma ProgressDone(cols: seq<string>, rows: seq<Row>, C: seq<string>, rows0: seq<Row>, j: nat, acc: int,
                     src: string -> bool, rename: string -> string, derive: Cell -> Cell, offset: nat)
    requires offset >= 1 && Progress(cols, rows, C, rows0, |C|, j, acc, src, rename, derive, offset)
    ensures Insertable(C, |C|, src, rename)
    ensures cols == Expand(C, src, rename, offset)
    ensures forall k :: 0 <= k < |rows| ==> rows[k] == rows0[k] + Derived(rows0[k], C, src, rename, derive)
  {
    assert C[..|C|] == C;
  }

  lemma InsertableShorter(C: seq<string>, n: nat, m: nat, src: string -> bool, rename: string -> string)
    requires n <= m && Insertable(C, m, src, rename)
    ensures Insertable(C, n, src, rename)
  {
  }

  /** One pass of the loop body on a source column: derive the values and insert the
      new column at `i + acc`. */
  method InsertStep(df: Frame, C: seq<string>, ghost rows0: seq<Row>, i: nat, ghost j: nat, acc: int,
                    src: string -> bool, rename: string -> string, derive: Cell -> Cell, offset: nat)
    returns (inserted: bool)
    requires offset == 1 || offset == 2
    requires Paired(C, src, offset) && i < |C| && src(C[i])
    requires df.Valid() && Progress(df.columns, df.rows, C, rows0, i, j, acc, src, rename, derive, offset)
    modifies df
    ensures df.Valid()
    ensures inserted ==> Progress(df.columns, df.rows, C, rows0, i + 1, i + offset, acc + 1, src, rename, derive, offset)
    ensures !inserted ==> df.columns == old(df.columns) && df.rows == old(df.rows) && !Insertable(C, i + 1, src, rename)
  {
    assert C[..i + 1] == C[..i] + [C[i]];
    NumSourcesAppend(C[..i], [C[i]], src);
    assert NumSources([C[i]], src) == 1 by {
      assert [C[i]][1..] == [];
    }
    InsertStepColumns(C, i, src, rename, offset, NumSources(C[..i], src));
    var name := rename(C[i]);
    var values := DeriveValues(df.rows, C[i], derive);
    ghost var cur := df.columns;
    inserted := df.Insert(i + acc, name, values);
    if inserted {
      assert cur == cur[..i + acc] + cur[i + acc..];
      assert forall x :: x in df.columns <==> x in cur || x == name;
      forall k | 0 <= k < |rows0|
        ensures df.rows[k] == rows0[k] + Derived(rows0[k], C[..i + 1], src, rename, derive)
      {
        InsertStepRow(rows0[k], C, i, src, rename, derive);
      }
    } else {
      assert name in cur;
    }
  }

  /** The insertion loop. On success the columns are the `Expand` layout and every row
      gains exactly its derived cells; success means no derived name clashed. Either
      way the original columns and their cells are untouched (on a clash pandas
      raises after the earlier insertions were made). */
  method InsertDerivedColumns(df: Frame, src: string -> bool, rename: string -> string, derive: Cell -> Cell, offset: nat)
    returns (ok: bool)
    requires offset == 1 || offset == 2
    requires df.Valid() && Paired(df.columns, src, offset)
    modifies df
    ensures df.Valid() && |df.rows| == |old(df.rows)|
    ensures ok <==> Insertable(old(df.columns), |old(df.columns)|, src, rename)
    ensures ok ==> df.columns == Expand(old(df.columns), src, rename, offset)
    ensures ok ==> forall k :: 0 <= k < |df.rows| ==>
      df.rows[k] == old(df.rows)[k] + Derived(old(df.rows)[k], old(df.columns), src, rename, derive)
    ensures forall c :: c in old(df.columns) ==> c in df.columns
    ensures forall k, c :: 0 <= k < |df.rows| && c in old(df.columns) ==> c in df.rows[k] && df.rows[k][c] == old(df.rows)[k][c]
  {
    var C := df.columns;
    ghost var rows0 := df.rows;
    var acc := offset;
    var i := 0;
    ghost var j: nat := 0;
    ProgressInit(C, rows0, src, rename, derive, offset);
    while i < |C|
      invariant 0 <= i <= |C|
      invariant df.Valid() && Progress(df.columns, df.rows, C, rows0, i, j, acc, src, rename, derive, offset)
    {
      if src(C[i]) {
        var inserted := InsertStep(df, C, rows0, i, j, acc, src, rename, derive, offset);
        if !inserted {
          ProgressKeepsOriginal(df.columns, df.rows, C, rows0, i, j, acc, src, rename, derive, offset);
          if Insertable(C, |C|, src, rename) {
            InsertableShorter(C, i + 1, |C|, src, rename);
          }
          return false;
        }
        acc := acc + 1;
        j := i + offset;
        assert Progress(df.columns, df.rows, C, rows0, i + 1, j, acc, src, rename, derive, offset);
      } else {
        SkipStep(df.columns, df.rows, C, rows0, i, j, acc, src, rename, derive, offset);
        if j == i {
          j := i + 1;
        }
        assert Progress(df.columns, df.rows, C, rows0, i + 1, j, acc, src, rename, derive, offset);
      }
      i := i + 1;
    }
    ProgressDone(df.columns, df.rows, C, rows0, j, acc, src, rename, derive, offset);
    ProgressKeepsOriginal(df.columns, df.rows, C, rows0, i, j, acc, src, rename, derive, offset);
    return true;
  }
}
