/** Column discovery and column/row ordering by substring rules, shared by the two
    filter modules. `column_names_to_check` and `sort_df` both run an `if/elif` chain
    of `pattern in name` tests over the column names; the two code bases differ only
    in the patterns, which each of them supplies as an ordered rule list. */
module ColumnRules {
  import opened Wrappers
  import opened Tables

  /** The label of the first rule whose pattern occurs in `name`. */
  function FirstMatch<K>(rules: seq<(string, K)>, name: string): Option<K>
  {
    if rules == [] then None
    else if IsSubstring(rules[0].0, name) then Some(rules[0].1)
    else FirstMatch(rules[1..], name)
  }

  /** No label exactly when no pattern occurs; otherwise the label is that of a rule
      whose pattern occurs and before which no pattern occurs. */
  lemma {:induction false} FirstMatchSpec<K>(rules: seq<(string, K)>, name: string)
    ensures FirstMatch(rules, name).None? <==> forall i :: 0 <= i < |rules| ==> !IsSubstring(rules[i].0, name)
    ensures FirstMatch(rules, name).Some? ==>
      exists i :: 0 <= i < |rules| && IsSubstring(rules[i].0, name) && Some(rules[i].1) == FirstMatch(rules, name)
                  && forall j :: 0 <= j < i ==> !IsSubstring(rules[j].0, name)
    decreases |rules|
  {
    if rules != [] && !IsSubstring(rules[0].0, name) {
      var tail := rules[1..];
      FirstMatchSpec(tail, name);
      assert forall i :: 1 <= i < |rules| ==> rules[i] == tail[i - 1];
      if FirstMatch(tail, name).Some? {
        var i :| 0 <= i < |tail| && IsSubstring(tail[i].0, name) && Some(tail[i].1) == FirstMatch(tail, name)
                 && forall j :: 0 <= j < i ==> !IsSubstring(tail[j].0, name);
        forall j | 0 <= j < i + 1 ensures !IsSubstring(rules[j].0, name) {
          if j > 0 { assert rules[j] == tail[j - 1]; }
        }
        assert rules[i + 1] == tail[i];
      }
    }
  }

  /** A name matching the pattern of rule `i` is filed under rule `i` or an earlier
      one. */
  lemma {:induction false} FirstMatchAtMost<K>(rules: seq<(string, K)>, name: string, i: nat)
    requires i < |rules| && IsSubstring(rules[i].0, name)
    ensures exists j :: 0 <= j <= i && Some(rules[j].1) == FirstMatch(rules, name)
    decreases i
  {
    if !IsSubstring(rules[0].0, name) {
      FirstMatchAtMost(rules[1..], name, i - 1);
      var j :| 0 <= j <= i - 1 && Some(rules[1..][j].1) == FirstMatch(rules[1..], name);
      assert rules[j + 1] == rules[1..][j];
    }
  }

  // ---------------------------------------------------------------------------
  // column_names_to_check

  /** Name `a` is the last one, among the first `n` names, filed under `k`. */
  predicate LastFiled<K(==)>(rules: seq<(string, K)>, names: seq<string>, n: nat, k: K, a: int)
    requires n <= |names|
  {
    && 0 <= a < n
    && FirstMatch(rules, names[a]) == Some(k)
    && forall b :: a < b < n ==> FirstMatch(rules, names[b]) != Some(k)
  }

  /** `column_names_to_check`: each name is filed under the label of the first rule it
      matches, and a later name filed under the same label overwrites an earlier one. */
  method ColumnNamesToCheck<K(==)>(rules: seq<(string, K)>, names: seq<string>) returns (found: map<K, string>)
    ensures forall k :: k in found <==> exists a :: 0 <= a < |names| && FirstMatch(rules, names[a]) == Some(k)
    ensures forall k :: k in found ==> exists a :: LastFiled(rules, names, |names|, k, a) && found[k] == names[a]
  {
    found := map[];
    var i := 0;
    while i < |names|
      invariant 0 <= i <= |names|
      invariant forall k :: k in found <==> exists a :: 0 <= a < i && FirstMatch(rules, names[a]) == Some(k)
      invariant forall k :: k in found ==> exists a :: LastFiled(rules, names, i, k, a) && found[k] == names[a]
    {
      found := FileOne(rules, names, i, found);
      i := i + 1;
    }
  }

  /** One step of `ColumnNamesToCheck`: files name `i`. */
  method FileOne<K(==)>(rules: seq<(string, K)>, names: seq<string>, i: nat, found: map<K, string>)
    returns (found': map<K, string>)
    requires i < |names|
    requires forall k :: k in found <==> exists a :: 0 <= a < i && FirstMatch(rules, names[a]) == Some(k)
    requires forall k :: k in found ==> exists a :: LastFiled(rules, names, i, k, a) && found[k] == names[a]
    ensures forall k :: k in found' <==> exists a :: 0 <= a < i + 1 && FirstMatch(rules, names[a]) == Some(k)
    ensures forall k :: k in found' ==> exists a :: LastFiled(rules, names, i + 1, k, a) && found'[k] == names[a]
  {
    var m := FirstMatch(rules, names[i]);
    found' := if m.Some? then found[m.value := names[i]] else found;
    forall k ensures k in found' <==> exists a :: 0 <= a < i + 1 && FirstMatch(rules, names[a]) == Some(k) {
      if k in found' && !(m.Some? && k == m.value) {
        var a :| 0 <= a < i && FirstMatch(rules, names[a]) == Some(k);
        assert 0 <= a < i + 1;
      }
    }
    forall k | k in found' ensures exists a :: LastFiled(rules, names, i + 1, k, a) && found'[k] == names[a] {
      if m.Some? && k == m.value {
        assert LastFiled(rules, names, i + 1, k, i);
      } else {
        var a :| LastFiled(rules, names, i, k, a) && found[k] == names[a];
        assert LastFiled(rules, names, i + 1, k, a);
      }
    }
  }

  // ---------------------------------------------------------------------------
  // sort_df

  /** The names the rules file under group `g`, in their original order. */
  function GroupColumns(rules: seq<(string, nat)>, names: seq<string>, g: nat): (r: seq<string>)
    ensures IsSubsequence(r, names)
    ensures forall n :: n in r <==> n in names && FirstMatch<nat>(rules, n) == Some(g)
    ensures |r| <= |names|
    decreases |names|
  {
    if names == [] then []
    else
      var init := names[..|names| - 1];
      var last := names[|names| - 1];
      var rest := GroupColumns(rules, init, g);
      assert names == init + [last];
      SubsequenceAppend(rest, init, last);
      if FirstMatch(rules, last) == Some(g) then
        SubsequenceSnoc(rest, init, last);
        rest + [last]
      else rest
  }

  lemma {:induction false} SubsequenceAppend<T>(a: seq<T>, b: seq<T>, x: T)
    requires IsSubsequence(a, b)
    ensures IsSubsequence(a, b + [x])
    decreases |b|
  {
    if a != [] && b != [] {
      assert (b + [x])[1..] == b[1..] + [x];
      if a[0] == b[0] && IsSubsequence(a[1..], b[1..]) {
        SubsequenceAppend(a[1..], b[1..], x);
      } else {
        SubsequenceAppend(a, b[1..], x);
      }
    }
  }

  lemma {:induction false} SubsequenceSnoc<T>(a: seq<T>, b: seq<T>, x: T)
    requires IsSubsequence(a, b)
    ensures IsSubsequence(a + [x], b + [x])
    decreases |b|
  {
    if a == [] {
      SingletonLast(b, x);
      assert a + [x] == [x];
    } else {
      assert b != [];
      assert (a + [x])[1..] == a[1..] + [x];
      assert (b + [x])[1..] == b[1..] + [x];
      if a[0] == b[0] && IsSubsequence(a[1..], b[1..]) {
        SubsequenceSnoc(a[1..], b[1..], x);
      } else {
        SubsequenceSnoc(a, b[1..], x);
      }
    }
  }

  lemma {:induction false} SingletonLast<T>(b: seq<T>, x: T)
    ensures IsSubsequence([x], b + [x])
    decreases |b|
  {
    if b == [] {
      assert b + [x] == [x];
      assert [x][1..] == [];
    } else {
      assert (b + [x])[1..] == b[1..] + [x];
      SingletonLast(b[1..], x);
    }
  }

  /** Group numbers of `sort_df`. */
  const GeneIdGroup: nat := 0
  const FoldChangeGroup: nat := 2
  const GeneInfoGroup: nat := 6

  /** `new_colums_names`: groups 0 to 5 in full, then the first 8 gene-info names. */
  function SortedColumnNames(rules: seq<(string, nat)>, names: seq<string>): seq<string>
  {
    var info := GroupColumns(rules, names, GeneInfoGroup);
    GroupColumns(rules, names, 0) + GroupColumns(rules, names, 1) + GroupColumns(rules, names, 2)
      + GroupColumns(rules, names, 3) + GroupColumns(rules, names, 4) + GroupColumns(rules, names, 5)
      + info[..if |info| < 8 then |info| else 8]
  }

  /** A name is among the reordered columns exactly when it is filed under one of
      groups 0 to 5, or it is one of the first 8 gene-info names. */
  lemma SortedColumnsMembers(rules: seq<(string, nat)>, names: seq<string>, n: string)
    ensures var info := GroupColumns(rules, names, GeneInfoGroup);
      n in SortedColumnNames(rules, names) <==>
        (n in names && FirstMatch<nat>(rules, n).Some? && FirstMatch<nat>(rules, n).value < GeneInfoGroup)
        || n in info[..if |info| < 8 then |info| else 8]
  {
    var g0, g1, g2 := GroupColumns(rules, names, 0), GroupColumns(rules, names, 1), GroupColumns(rules, names, 2);
    var g3, g4, g5 := GroupColumns(rules, names, 3), GroupColumns(rules, names, 4), GroupColumns(rules, names, 5);
    var info := GroupColumns(rules, names, GeneInfoGroup);
    var top := info[..if |info| < 8 then |info| else 8];
    assert SortedColumnNames(rules, names) == g0 + g1 + g2 + g3 + g4 + g5 + top;
    assert n in SortedColumnNames(rules, names) <==> n in g0 || n in g1 || n in g2 || n in g3 || n in g4 || n in g5 || n in top;
  }

  /** The reordered columns come from the input, drop every name no rule files, and
      keep at most the first 8 gene-info names. */
  lemma SortedColumnNamesSpec(rules: seq<(string, nat)>, names: seq<string>, n: string)
    ensures n in SortedColumnNames(rules, names) ==>
      n in names && FirstMatch<nat>(rules, n).Some? && FirstMatch<nat>(rules, n).value <= GeneInfoGroup
    ensures n in names && FirstMatch<nat>(rules, n).Some? && FirstMatch<nat>(rules, n).value < GeneInfoGroup ==>
      n in SortedColumnNames(rules, names)
    ensures var info := GroupColumns(rules, names, GeneInfoGroup);
      n in SortedColumnNames(rules, names) && FirstMatch<nat>(rules, n) == Some(GeneInfoGroup) ==>
        n in info[..if |info| < 8 then |info| else 8]
  {
    SortedColumnsMembers(rules, names, n);
    var info := GroupColumns(rules, names, GeneInfoGroup);
    var top := info[..if |info| < 8 then |info| else 8];
    if n in top {
      assert n in info;
    }
  }

  // ---------------------------------------------------------------------------
  // Row order: sort_values(column, ascending=False)

  /** `a` may stand before `b` in a descending sort: larger numbers first, NaN last. */
  predicate Precedes(a: Cell, b: Cell)
  {
    if a.Num? then !b.Num? || a.x >= b.x else !b.Num?
  }

  /** The sort column holds numbers or NaN only. */
  predicate NoText(rows: seq<Row>, key: string)
  {
    forall k :: 0 <= k < |rows| ==> !Get(rows[k], key).Str?
  }

  predicate SortedDesc(rows: seq<Row>, key: string)
  {
    forall i, j :: 0 <= i < j < |rows| ==> Precedes(Get(rows[i], key), Get(rows[j], key))
  }

  function InsertDesc(x: Row, xs: seq<Row>, key: string): (r: seq<Row>)
    requires !Get(x, key).Str? && NoText(xs, key) && SortedDesc(xs, key)
    ensures NoText(r, key) && SortedDesc(r, key)
    ensures multiset(r) == multiset(xs) + multiset{x}
    decreases |xs|
  {
    if xs == [] then [x]
    else if Precedes(Get(x, key), Get(xs[0], key)) then
      PrecedesSorted(x, xs, key);
      ConsSorted(x, xs, key);
      [x] + xs
    else
      var tail := xs[1..];
      var rest := InsertDesc(x, tail, key);
      HeadPrecedesInsert(x, xs, rest, key);
      ConsSorted(xs[0], rest, key);
      assert xs == [xs[0]] + tail;
      [xs[0]] + rest
  }

  lemma PrecedesSorted(x: Row, xs: seq<Row>, key: string)
    requires xs != [] && !Get(x, key).Str? && NoText(xs, key) && SortedDesc(xs, key)
    requires Precedes(Get(x, key), Get(xs[0], key))
    ensures forall j :: 0 <= j < |xs| ==> Precedes(Get(x, key), Get(xs[j], key))
  {
    forall j | 0 < j < |xs| ensures Precedes(Get(x, key), Get(xs[j], key)) {
      assert Precedes(Get(xs[0], key), Get(xs[j], key));
    }
  }

  lemma ConsSorted(h: Row, rest: seq<Row>, key: string)
    requires !Get(h, key).Str? && NoText(rest, key) && SortedDesc(rest, key)
    requires forall j :: 0 <= j < |rest| ==> Precedes(Get(h, key), Get(rest[j], key))
    ensures NoText([h] + rest, key) && SortedDesc([h] + rest, key)
  {
    var s := [h] + rest;
    forall i, j | 0 <= i < j < |s| ensures Precedes(Get(s[i], key), Get(s[j], key)) {
      assert s[j] == rest[j - 1];
      if i > 0 { assert s[i] == rest[i - 1]; }
    }
    forall k | 0 <= k < |s| ensures !Get(s[k], key).Str? {
      if k > 0 { assert s[k] == rest[k - 1]; }
    }
  }

  lemma HeadPrecedesInsert(x: Row, xs: seq<Row>, rest: seq<Row>, key: string)
    requires xs != [] && !Get(x, key).Str? && NoText(xs, key) && SortedDesc(xs, key)
    requires !Precedes(Get(x, key), Get(xs[0], key))
    requires multiset(rest) == multiset(xs[1..]) + multiset{x}
    ensures !Get(xs[0], key).Str?
    ensures NoText(xs[1..], key) && SortedDesc(xs[1..], key)
    ensures forall j :: 0 <= j < |rest| ==> Precedes(Get(xs[0], key), Get(rest[j], key))
  {
    var tail := xs[1..];
    forall j | 0 <= j < |rest| ensures Precedes(Get(xs[0], key), Get(rest[j], key)) {
      assert rest[j] in multiset(rest);
      if rest[j] != x {
        assert rest[j] in multiset(tail);
        var b :| 0 <= b < |tail| && tail[b] == rest[j];
        assert tail[b] == xs[b + 1];
      }
    }
    forall k | 0 <= k < |tail| ensures !Get(tail[k], key).Str? {
      assert tail[k] == xs[k + 1];
    }
    forall i, j | 0 <= i < j < |tail| ensures Precedes(Get(tail[i], key), Get(tail[j], key)) {
      assert tail[i] == xs[i + 1] && tail[j] == xs[j + 1];
    }
  }

  /** The rows reordered so that the key column descends, NaN last. */
  function SortRowsDesc(rows: seq<Row>, key: string): (r: seq<Row>)
    requires NoText(rows, key)
    ensures NoText(r, key) && SortedDesc(r, key)
    ensures multiset(r) == multiset(rows)
    decreases |rows|
  {
    if rows == [] then []
    else
      assert rows == [rows[0]] + rows[1..];
      InsertDesc(rows[0], SortRowsDesc(rows[1..], key), key)
  }

  /** Filing one more name extends its group, if any, and no other. */
  lemma GroupSnoc(rules: seq<(string, nat)>, names: seq<string>, i: nat, g: nat)
    requires i < |names|
    ensures GroupColumns(rules, names[..i + 1], g) ==
      GroupColumns(rules, names[..i], g) + (if FirstMatch(rules, names[i]) == Some(g) then [names[i]] else [])
  {
    assert names[..i + 1][..i] == names[..i] && names[..i + 1][i] == names[i];
  }

  /** The classification loop of `sort_df`: each name goes to the group of its
      first matching rule, groups 0 to 6 in name order. */
  method GroupAll(rules: seq<(string, nat)>, names: seq<string>) returns (groups: seq<seq<string>>)
    ensures |groups| == 7
    ensures forall g :: 0 <= g < 7 ==> groups[g] == GroupColumns(rules, names, g)
  {
    groups := [[], [], [], [], [], [], []];
    var i := 0;
    while i < |names|
      invariant 0 <= i <= |names| && |groups| == 7
      invariant forall g :: 0 <= g < 7 ==> groups[g] == GroupColumns(rules, names[..i], g)
    {
      var m := FirstMatch(rules, names[i]);
      forall g | 0 <= g < 7 {
        GroupSnoc(rules, names, i, g);
      }
      if m.Some? && m.value < 7 {
        groups := groups[m.value := groups[m.value] + [names[i]]];
      }
      i := i + 1;
    }
    assert names[..|names|] == names;
  }

  /** `r` is what `sort_df` makes of `t`: the column names classified by the rules,
      groups 0 to 5 and the first 8 gene-info names kept in group order, and the
      rows, a permutation of the selected ones, sorted by the first FoldChange-group
      column, descending. When there is no such column (`fc[0]` raises) or the column
      holds text, the exception is swallowed and the rows keep their order. */
  predicate SortDfOf(rules: seq<(string, nat)>, t: Table, r: Table)
  {
    && r.columns == SortedColumnNames(rules, t.columns)
    && multiset(r.rows) == multiset(Select(t, r.columns).rows)
    && var fc := GroupColumns(rules, t.columns, FoldChangeGroup);
      if fc != [] && NoText(Select(t, r.columns).rows, fc[0]) then SortedDesc(r.rows, fc[0])
      else r.rows == Select(t, r.columns).rows
  }

  /** `sort_df`. */
  method SortDf(rules: seq<(string, nat)>, t: Table) returns (r: Table)
    ensures SortDfOf(rules, t, r)
  {
    var names := t.columns;
    var groups := GroupAll(rules, names);
    var info := groups[GeneInfoGroup];
    var cols := groups[0] + groups[1] + groups[2] + groups[3] + groups[4] + groups[5]
      + info[..if |info| < 8 then |info| else 8];
    var fc := groups[FoldChangeGroup];
    var selected := Select(t, cols);
    if fc != [] && NoText(selected.rows, fc[0]) {
      r := Table(cols, SortRowsDesc(selected.rows, fc[0]));
    } else {
      r := selected;
    }
  }
}
