/** Tables as the pipeline sees them: a pandas DataFrame is an ordered list of
    column names and a list of rows, each row a map from column name to cell.
    NaN and absent values are the explicit `Missing` cell. Also holds the
    string operations the Python code relies on (`in` on strings, `split`,
    `join`, `replace`, `endswith`, `strip`, `str(int)`). */
module Tables {

  datatype Cell = Str(s: string) | Num(x: real) | Missing

  type Row = map<string, Cell>

  datatype Table = Table(columns: seq<string>, rows: seq<Row>)

  /** `row[c]`, with an absent key read as NaN. */
  function Get(r: Row, c: string): Cell
  {
    if c in r then r[c] else Missing
  }

  predicate Distinct<T(==)>(s: seq<T>)
  {
    forall i, j :: 0 <= i < j < |s| ==> s[i] != s[j]
  }

  /** Every row holds exactly the table's columns, and no column name repeats. */
  predicate WellFormed(t: Table)
  {
    && Distinct(t.columns)
    && forall k :: 0 <= k < |t.rows| ==> t.rows[k].Keys == set c | c in t.columns
  }

  // ---------------------------------------------------------------------------
  // Numeric comparisons as pandas evaluates them: NaN compares False. A text cell
  // also reads as False here, where pandas raises TypeError.

  predicate AtLeast(c: Cell, t: real) { c.Num? && c.x >= t }
  predicate AtMost(c: Cell, t: real) { c.Num? && c.x <= t }
  predicate Below(c: Cell, t: real) { c.Num? && c.x < t }
  predicate Above(c: Cell, t: real) { c.Num? && c.x > t }

  // ---------------------------------------------------------------------------
  // Strings

  predicate StartsWith(s: string, p: string)
  {
    |p| <= |s| && s[..|p|] == p
  }

  predicate EndsWith(s: string, p: string)
  {
    |p| <= |s| && s[|s| - |p|..] == p
  }

  /** Python's `p in s` for strings. */
  predicate IsSubstring(p: string, s: string)
    decreases |s|
  {
    StartsWith(s, p) || (s != [] && IsSubstring(p, s[1..]))
  }

  /** No lower-case letter, as in mutant names such as "DM1". */
  predicate NoLowercase(m: string)
  {
    forall i :: 0 <= i < |m| ==> !('a' <= m[i] <= 'z')
  }

  /** An occurrence of a pattern whose first character `m` lacks lies inside `t`. */
  lemma {:induction false} StartsInSuffixHead(p: string, m: string, t: string)
    requires p != [] && p[0] !in m && IsSubstring(p, m + t)
    ensures IsSubstring(p, t)
    decreases |m|
  {
    if m == [] {
      assert m + t == t;
    } else {
      var s := m + t;
      assert !StartsWith(s, p) by {
        assert s[0] == m[0] && m[0] in m;
        assert |p| <= |s| ==> s[..|p|][0] == s[0];
      }
      assert s[1..] == m[1..] + t;
      assert forall c :: c in m[1..] ==> c in m;
      StartsInSuffixHead(p, m[1..], t);
    }
  }

  lemma {:induction false} SubstringAt(p: string, s: string, i: nat)
    requires i + |p| <= |s| && s[i..i + |p|] == p
    ensures IsSubstring(p, s)
    decreases i
  {
    if i > 0 {
      assert s[1..][i - 1..i - 1 + |p|] == s[i..i + |p|];
      SubstringAt(p, s[1..], i - 1);
    }
  }

  lemma {:induction false} SubstringOfPrefix(p: string, s: string, t: string)
    requires IsSubstring(p, s)
    ensures IsSubstring(p, s + t)
    decreases |s|
  {
    if StartsWith(s, p) {
      assert (s + t)[..|p|] == s[..|p|];
    } else {
      assert (s + t)[1..] == s[1..] + t;
      SubstringOfPrefix(p, s[1..], t);
    }
  }

  lemma {:induction false} SubstringOfSuffix(p: string, s: string, t: string)
    requires IsSubstring(p, t)
    ensures IsSubstring(p, s + t)
    decreases |s|
  {
    if s != [] {
      assert (s + t)[1..] == s[1..] + t;
      SubstringOfSuffix(p, s[1..], t);
    } else {
      assert s + t == t;
    }
  }

  /** A pattern holding a character that the text lacks never occurs in it. */
  lemma {:induction false} AbsentChar(p: string, s: string, k: nat)
    requires k < |p| && p[k] !in s
    ensures !IsSubstring(p, s)
    decreases |s|
  {
    assert !StartsWith(s, p) by { assert k < |s| ==> s[k] in s; }
    if s != [] { AbsentChar(p, s[1..], k); }
  }

  /** A pattern absent from `m` stays absent after appending `t` when it does not occur
      in `t` and cannot straddle the seam (it lacks `t`'s first character). */
  lemma {:induction false} AbsentAcrossSeam(p: string, m: string, t: string)
    requires p != [] && !IsSubstring(p, m) && !IsSubstring(p, t)
    requires t != [] ==> t[0] !in p
    ensures !IsSubstring(p, m + t)
    decreases |m|
  {
    if m == [] {
      assert m + t == t;
    } else {
      assert !StartsWith(m + t, p) by {
        if |p| <= |m| {
          assert (m + t)[..|p|] == m[..|p|];
          assert !StartsWith(m, p);
        } else if |p| <= |m + t| {
          assert (m + t)[|m|] == t[0];
          assert (m + t)[..|p|][|m|] == t[0];
        }
      }
      assert (m + t)[1..] == m[1..] + t;
      AbsentAcrossSeam(p, m[1..], t);
    }
  }

  /** Replacing in `m + w` leaves a prefix `m` free of the pattern untouched, when the
      pattern cannot straddle the seam. */
  lemma {:induction false} ReplaceSkipsPrefix(m: string, w: string, p: string, q: string)
    requires p != [] && !IsSubstring(p, m)
    requires w != [] && w[0] !in p
    ensures ReplaceAll(m + w, p, q) == m + ReplaceAll(w, p, q)
    decreases |m|
  {
    if m == [] {
      assert m + w == w;
    } else {
      var s := m + w;
      assert !StartsWith(s, p) by {
        if |p| <= |m| {
          assert s[..|p|] == m[..|p|];
          assert !StartsWith(m, p);
        } else if |p| <= |s| {
          assert s[..|p|][|m|] == w[0];
        }
      }
      if |s| < |p| {
        assert ReplaceAll(s, p, q) == s;
        assert ReplaceAll(w, p, q) == w;
      } else {
        assert s[1..] == m[1..] + w;
        assert !IsSubstring(p, m[1..]);
        ReplaceSkipsPrefix(m[1..], w, p, q);
        calc {
          ReplaceAll(s, p, q);
          [m[0]] + ReplaceAll(m[1..] + w, p, q);
          [m[0]] + (m[1..] + ReplaceAll(w, p, q));
          { assert m == [m[0]] + m[1..]; }
          m + ReplaceAll(w, p, q);
        }
      }
    }
  }

  /** A pattern whose first two characters never occur side by side in the text
      never occurs in it. */
  lemma {:induction false} AbsentPair(p: string, s: string)
    requires |p| >= 2
    requires forall i :: 0 <= i < |s| - 1 ==> !(s[i] == p[0] && s[i + 1] == p[1])
    ensures !IsSubstring(p, s)
    decreases |s|
  {
    assert !StartsWith(s, p) by { assert |s| >= 2 ==> !(s[0] == p[0] && s[1] == p[1]); }
    if s != [] {
      forall i | 0 <= i < |s[1..]| - 1
        ensures !(s[1..][i] == p[0] && s[1..][i + 1] == p[1])
      {
        assert s[1..][i] == s[i + 1];
      }
      AbsentPair(p, s[1..]);
    }
  }

  /** Python's `s.replace(p, q)`: every non-overlapping occurrence of the non-empty
      pattern `p`, scanning left to right, is replaced by `q`. */
  function ReplaceAll(s: string, p: string, q: string): string
    requires p != []
    decreases |s|
  {
    if |s| < |p| then s
    else if StartsWith(s, p) then q + ReplaceAll(s[|p|..], p, q)
    else [s[0]] + ReplaceAll(s[1..], p, q)
  }

  /** No occurrence of `p` starts before position `n` of `s`. */
  predicate NoMatchBefore(s: string, p: string, n: nat)
  {
    forall i :: 0 <= i < n && i <= |s| ==> !StartsWith(s[i..], p)
  }

  /** Replacing in `x + p + y`, where no occurrence starts inside `x`, keeps `x`,
      turns the first `p` into `q` and continues in `y`. */
  lemma {:induction false} ReplaceAfterPrefix(x: string, p: string, q: string, y: string)
    requires p != []
    requires NoMatchBefore(x + p + y, p, |x|)
    ensures ReplaceAll(x + p + y, p, q) == x + q + ReplaceAll(y, p, q)
    decreases |x|
  {
    var s := x + p + y;
    if x == [] {
      assert s == p + y;
      assert s[|p|..] == y;
    } else {
      assert !StartsWith(s[0..], p);
      assert s[0..] == s;
      assert s[1..] == x[1..] + p + y;
      forall i | 0 <= i < |x[1..]| && i <= |s[1..]|
        ensures !StartsWith(s[1..][i..], p)
      {
        assert s[1..][i..] == s[i + 1..];
      }
      ReplaceAfterPrefix(x[1..], p, q, y);
      assert ReplaceAll(s, p, q) == [s[0]] + ReplaceAll(s[1..], p, q);
    }
  }

  predicate IsWhitespace(c: char)
  {
    c == ' ' || c == '\t' || c == '\n' || c == '\r' || c == '\U{000B}' || c == '\U{000C}'
  }

  function StripLeft(s: string): (r: string)
    ensures r == [] || !IsWhitespace(r[0])
    ensures exists k :: 0 <= k <= |s| && r == s[k..]
    decreases |s|
  {
    if s != [] && IsWhitespace(s[0]) then
      var r := StripLeft(s[1..]);
      assert exists k :: 0 <= k <= |s[1..]| && r == s[1..][k..];
      var k :| 0 <= k <= |s[1..]| && r == s[1..][k..];
      assert r == s[k + 1..];
      r
    else
      assert s == s[0..];
      s
  }

  function StripRight(s: string): (r: string)
    ensures r == [] || !IsWhitespace(r[|r| - 1])
    ensures |r| <= |s| && r == s[..|r|]
    decreases |s|
  {
    if s != [] && IsWhitespace(s[|s| - 1]) then StripRight(s[..|s| - 1]) else s
  }

  /** What StripLeft removes is whitespace. */
  lemma {:induction false} StripLeftRemoves(s: string)
    ensures |StripLeft(s)| <= |s| && StripLeft(s) == s[|s| - |StripLeft(s)|..]
    ensures forall k :: 0 <= k < |s| - |StripLeft(s)| ==> IsWhitespace(s[k])
    decreases |s|
  {
    if s == [] || !IsWhitespace(s[0]) {
      assert StripLeft(s) == s;
    } else {
      var t := s[1..];
      var r := StripLeft(t);
      assert StripLeft(s) == r;
      StripLeftRemoves(t);
      var n := |s| - |r|;
      assert r == s[n..] by {
        assert r == t[|t| - |r|..];
      }
      forall k | 0 <= k < n
        ensures IsWhitespace(s[k])
      {
        if k > 0 {
          assert s[k] == t[k - 1];
        }
      }
    }
  }

  /** What StripRight removes is whitespace. */
  lemma {:induction false} StripRightRemoves(s: string)
    ensures forall k :: |StripRight(s)| <= k < |s| ==> IsWhitespace(s[k])
    decreases |s|
  {
    if s != [] && IsWhitespace(s[|s| - 1]) {
      StripRightRemoves(s[..|s| - 1]);
    }
  }

  /** Python's `s.strip()` for the ASCII whitespace characters. */
  function Strip(s: string): (r: string)
    ensures r == [] || (!IsWhitespace(r[0]) && !IsWhitespace(r[|r| - 1]))
  {
    StripRight(StripLeft(s))
  }

  /** Stripping removes a whitespace prefix and a whitespace suffix, and nothing
      else. */
  lemma StripTrims(s: string)
    ensures exists i, j ::
      && 0 <= i <= j <= |s| && Strip(s) == s[i..j]
      && (forall k :: 0 <= k < i ==> IsWhitespace(s[k]))
      && (forall k :: j <= k < |s| ==> IsWhitespace(s[k]))
  {
    var l := StripLeft(s);
    var i := |s| - |l|;
    StripLeftRemoves(s);
    StripRightRemoves(l);
    assert Strip(s) == s[i..i + |Strip(s)|];
  }

  /** Python's `s.split(sep)` for a one-character separator. */
  function Split(s: string, sep: char): (parts: seq<string>)
    ensures |parts| >= 1
    ensures forall k :: 0 <= k < |parts| ==> sep !in parts[k]
    decreases |s|
  {
    if s == [] then [""]
    else if s[0] == sep then [""] + Split(s[1..], sep)
    else
      var rest := Split(s[1..], sep);
      [[s[0]] + rest[0]] + rest[1..]
  }

  /** Python's `sep.join(parts)`. */
  function Join(parts: seq<string>, sep: char): string
  {
    if parts == [] then ""
    else if |parts| == 1 then parts[0]
    else parts[0] + [sep] + Join(parts[1..], sep)
  }

  /** Splitting on a separator and joining with it gives back the text. */
  lemma {:induction false} JoinSplit(s: string, sep: char)
    ensures Join(Split(s, sep), sep) == s
    decreases |s|
  {
    if s == [] {
    } else if s[0] == sep {
      JoinSplit(s[1..], sep);
      assert s == [sep] + s[1..];
    } else {
      var rest := Split(s[1..], sep);
      JoinSplit(s[1..], sep);
      if |rest| == 1 {
        assert s == [s[0]] + rest[0];
      } else {
        assert Join([[s[0]] + rest[0]] + rest[1..], sep)
            == [s[0]] + rest[0] + [sep] + Join(rest[1..], sep);
        assert Join(rest, sep) == rest[0] + [sep] + Join(rest[1..], sep);
        assert s == [s[0]] + s[1..];
      }
    }
  }

  /** Joining texts that lack the separator and splitting again gives back the texts. */
  lemma {:induction false} SplitJoin(parts: seq<string>, sep: char)
    requires |parts| >= 1
    requires forall k :: 0 <= k < |parts| ==> sep !in parts[k]
    ensures Split(Join(parts, sep), sep) == parts
    decreases |parts|, |parts[0]|
  {
    var p := parts[0];
    if |parts| == 1 {
      SplitNoSep(p, sep);
    } else if p == [] {
      var tail := Join(parts[1..], sep);
      assert Join(parts, sep) == [sep] + tail;
      SplitJoin(parts[1..], sep);
      assert parts == [""] + parts[1..];
    } else {
      var shorter := [p[1..]] + parts[1..];
      SplitJoin(shorter, sep);
      JoinFirst(parts, sep);
      JoinFirst(shorter, sep);
      assert Join(parts, sep) == [p[0]] + Join(shorter, sep);
      assert p[0] != sep by { assert p[0] in p; }
      assert [p[0]] + Join(shorter, sep) != [];
      assert ([p[0]] + Join(shorter, sep))[1..] == Join(shorter, sep);
      assert [p[0]] + p[1..] == p;
      assert parts == [p] + parts[1..];
    }
  }

  lemma JoinFirst(parts: seq<string>, sep: char)
    requires |parts| >= 1
    ensures Join(parts, sep) == parts[0] + (if |parts| == 1 then "" else [sep] + Join(parts[1..], sep))
  {
  }

  lemma {:induction false} SplitNoSep(s: string, sep: char)
    requires sep !in s
    ensures Split(s, sep) == [s]
    decreases |s|
  {
    if s != [] {
      assert s[0] in s;
      SplitNoSep(s[1..], sep);
      assert s == [s[0]] + s[1..];
    }
  }

  function DigitChar(d: nat): char
    requires d < 10
  {
    "0123456789"[d]
  }

  /** Python's `str(n)` for a natural number. */
  function NatToString(n: nat): (s: string)
    ensures s != []
    decreases n
  {
    if n < 10 then [DigitChar(n)] else NatToString(n / 10) + [DigitChar(n % 10)]
  }

  function DigitValue(c: char): nat
  {
    if '0' <= c <= '9' then (c as int - '0' as int) as nat else 0
  }

  /** Python's `int(s)` on a string of decimal digits. */
  function ParseNat(s: string): nat
  {
    if s == [] then 0 else 10 * ParseNat(s[..|s| - 1]) + DigitValue(s[|s| - 1])
  }

  /** Display counts can be read back: `int(str(n)) == n`. */
  lemma {:induction false} ParseNatToString(n: nat)
    ensures ParseNat(NatToString(n)) == n
    decreases n
  {
    if n >= 10 {
      ParseNatToString(n / 10);
      var s := NatToString(n);
      assert s[..|s| - 1] == NatToString(n / 10);
    }
  }

  // ---------------------------------------------------------------------------
  // Sequences

  function Count<T(==)>(s: seq<T>, x: T): (n: nat)
    ensures n <= |s|
    ensures n == 0 <==> x !in s
  {
    if s == [] then 0 else (if s[0] == x then 1 else 0) + Count(s[1..], x)
  }

  /** A common suffix cancels. */
  lemma SuffixCancel<T>(a: seq<T>, b: seq<T>, t: seq<T>)
    ensures a + t == b + t <==> a == b
  {
    if a + t == b + t {
      assert |a| == |b|;
      assert a == (a + t)[..|a|];
      assert b == (b + t)[..|b|];
    }
  }

  /** Membership in a prefix one element longer. */
  lemma PrefixSnoc<T>(s: seq<T>, i: nat, x: T)
    requires i < |s|
    ensures x in s[..i + 1] <==> x in s[..i] || x == s[i]
  {
    assert s[..i + 1] == s[..i] + [s[i]];
  }

  lemma {:induction false} CountAppend<T>(a: seq<T>, b: seq<T>, x: T)
    ensures Count(a + b, x) == Count(a, x) + Count(b, x)
    decreases |a|
  {
    if a == [] {
      assert a + b == b;
    } else {
      assert (a + b)[1..] == a[1..] + b;
      CountAppend(a[1..], b, x);
    }
  }

  /** `a` is `b` with some elements deleted: order-preserving selection. */
  predicate IsSubsequence<T(==)>(a: seq<T>, b: seq<T>)
    decreases |b|
  {
    if a == [] then true
    else if b == [] then false
    else (a[0] == b[0] && IsSubsequence(a[1..], b[1..])) || IsSubsequence(a, b[1..])
  }

  lemma {:induction false} SubsequenceElements<T>(a: seq<T>, b: seq<T>, x: T)
    requires IsSubsequence(a, b) && x in a
    ensures x in b
    decreases |b|
  {
    if a[0] == b[0] && IsSubsequence(a[1..], b[1..]) {
      if x != a[0] { SubsequenceElements(a[1..], b[1..], x); }
    } else {
      SubsequenceElements(a, b[1..], x);
    }
  }

  /** Rows of `t` that satisfy `keep`, in order: pandas boolean-mask selection. */
  function FilterRows(rows: seq<Row>, keep: Row -> bool): (r: seq<Row>)
    ensures IsSubsequence(r, rows)
    ensures forall x :: x in r <==> x in rows && keep(x)
    ensures forall x {:trigger Count(r, x)} :: Count(r, x) == if keep(x) then Count(rows, x) else 0
  {
    if rows == [] then []
    else
      var rest := FilterRows(rows[1..], keep);
      if keep(rows[0]) then
        assert ([rows[0]] + rest)[1..] == rest;
        [rows[0]] + rest
      else rest
  }

  /** Column selection `df[cols]`: the rows keep only the chosen columns. */
  function Select(t: Table, cols: seq<string>): (r: Table)
    ensures r.columns == cols && |r.rows| == |t.rows|
    ensures forall k, c :: 0 <= k < |t.rows| && c in cols ==> Get(r.rows[k], c) == Get(t.rows[k], c)
  {
    Table(cols, seq(|t.rows|, k requires 0 <= k < |t.rows| => RestrictRow(t.rows[k], cols)))
  }

  function RestrictRow(r: Row, cols: seq<string>): (o: Row)
    ensures o.Keys == r.Keys * (set c | c in cols)
    ensures forall c :: c in o ==> o[c] == r[c]
  {
    map c | c in r && c in cols :: r[c]
  }

  // ---------------------------------------------------------------------------
  // Inner merge: pd.merge(left, right, on=key)

  /** A right row matches a left row when both carry the key with equal values. */
  predicate KeyMatch(l: Row, r: Row, key: string)
  {
    key in l && key in r && l[key] == r[key]
  }

  /** For one left row, the combined rows with every matching right row, in right
      order. A column present on both sides keeps the left value. */
  function MatchRows(l: Row, rs: seq<Row>, key: string): (out: seq<Row>)
    ensures |out| <= |rs|
    ensures forall o :: o in out ==> exists r :: r in rs && KeyMatch(l, r, key) && o == r + l
    ensures forall r :: r in rs && KeyMatch(l, r, key) ==> r + l in out
  {
    if rs == [] then []
    else (if KeyMatch(l, rs[0], key) then [rs[0] + l] else []) + MatchRows(l, rs[1..], key)
  }

  function MergeRows(ls: seq<Row>, rs: seq<Row>, key: string): (out: seq<Row>)
    ensures forall o :: o in out ==> exists l, r :: l in ls && r in rs && KeyMatch(l, r, key) && o == r + l
    ensures forall l, r :: l in ls && r in rs && KeyMatch(l, r, key) ==> r + l in out
  {
    if ls == [] then []
    else MatchRows(ls[0], rs, key) + MergeRows(ls[1..], rs, key)
  }

  /** Columns of the merge: the left ones, then the right ones the left lacks. */
  function MergeColumns(lc: seq<string>, rc: seq<string>): (cols: seq<string>)
    ensures forall c :: c in cols <==> c in lc || c in rc
    decreases |rc|
  {
    if rc == [] then lc
    else if rc[0] in lc then MergeColumns(lc, rc[1..])
    else MergeColumns(lc + [rc[0]], rc[1..])
  }

  function InnerMerge(left: Table, right: Table, key: string): Table
  {
    Table(MergeColumns(left.columns, right.columns), MergeRows(left.rows, right.rows, key))
  }
}
