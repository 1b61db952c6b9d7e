/** The Venn/UpSet partition of N gene-id sets, stated once for any N: every gene
    in the union is filed under its membership code, the string whose character i
    is '1' exactly when the gene is in set i. Both three-set partitioners of the
    pipeline are instances of this (see DgeapyFilter and AnalysisFilter). */
module Partitions {

  function Bit(b: bool): char
  {
    if b then '1' else '0'
  }

  /** The membership code of gene `g` over the ordered list of sets. */
  function MembershipCode(g: string, sets: seq<set<string>>): (c: string)
    ensures |c| == |sets|
    ensures forall i :: 0 <= i < |sets| ==> (c[i] == '1' <==> g in sets[i])
    ensures forall i :: 0 <= i < |sets| ==> (c[i] == '0' <==> g !in sets[i])
  {
    seq(|sets|, i requires 0 <= i < |sets| => Bit(g in sets[i]))
  }

  function UnionAll(sets: seq<set<string>>): (u: set<string>)
    ensures forall g :: g in u <==> exists i :: 0 <= i < |sets| && g in sets[i]
  {
    if sets == [] then {}
    else
      var rest := UnionAll(sets[1..]);
      assert forall g, i :: 0 <= i < |sets| - 1 && g in sets[1..][i] ==> g in sets[i + 1];
      sets[0] + rest
  }

  /** A string of `n` characters, each '0' or '1'. */
  predicate IsCode(c: string, n: nat)
  {
    |c| == n && forall i :: 0 <= i < n ==> c[i] == '0' || c[i] == '1'
  }

  /** All `n`-character codes, built by extending the shorter ones by one bit. */
  function Codes(n: nat): set<string>
  {
    if n == 0 then {""}
    else (set c | c in Codes(n - 1) :: c + "0") + (set c | c in Codes(n - 1) :: c + "1")
  }

  lemma {:induction false} CodesAreCodes(n: nat, c: string)
    ensures c in Codes(n) <==> IsCode(c, n)
    decreases n
  {
    if n > 0 {
      if c in Codes(n) {
        var d :| d in Codes(n - 1) && (c == d + "0" || c == d + "1");
        CodesAreCodes(n - 1, d);
      }
      if IsCode(c, n) {
        var d := c[..n - 1];
        CodesAreCodes(n - 1, d);
        assert c == d + [c[n - 1]];
        if c[n - 1] == '0' {
          assert c == d + "0";
        } else {
          assert c == d + "1";
        }
      }
    }
  }

  /** Every code except the all-zero one: one per region of the diagram. */
  function NonZeroCodes(n: nat): set<string>
  {
    set c | c in Codes(n) && '1' in c
  }

  /** The genes of the union whose membership code is `c`. */
  function Region(sets: seq<set<string>>, c: string): set<string>
  {
    set g | g in UnionAll(sets) && MembershipCode(g, sets) == c
  }

  /** The partition: one entry per non-zero code, present even when empty. */
  function Partition(sets: seq<set<string>>): map<string, set<string>>
  {
    map c | c in NonZeroCodes(|sets|) :: Region(sets, c)
  }

  /** The keys are exactly the non-zero codes of the right length; the all-zero code
      never appears. */
  lemma PartitionKeys(sets: seq<set<string>>, c: string)
    ensures c in Partition(sets) <==> IsCode(c, |sets|) && '1' in c
  {
    CodesAreCodes(|sets|, c);
  }

  /** Code correctness: a gene filed under `c` is in set i exactly when c[i] is '1'. */
  lemma CodeCorrect(sets: seq<set<string>>, c: string, g: string)
    requires c in Partition(sets) && g in Partition(sets)[c]
    ensures |c| == |sets|
    ensures forall i :: 0 <= i < |sets| ==> (g in sets[i] <==> c[i] == '1')
  {
  }

  /** Disjointness: distinct codes hold no common gene. */
  lemma Disjoint(sets: seq<set<string>>, c1: string, c2: string)
    requires c1 in Partition(sets) && c2 in Partition(sets) && c1 != c2
    ensures Partition(sets)[c1] !! Partition(sets)[c2]
  {
  }

  /** Completeness: a gene is in some region exactly when it is in some input set,
      and then it is in the region of its own membership code. */
  lemma Cover(sets: seq<set<string>>, g: string)
    ensures (exists c :: c in Partition(sets) && g in Partition(sets)[c])
        <==> g in UnionAll(sets)
    ensures g in UnionAll(sets) ==>
        var c := MembershipCode(g, sets); c in Partition(sets) && g in Partition(sets)[c]
  {
    if g in UnionAll(sets) {
      var c := MembershipCode(g, sets);
      var i :| 0 <= i < |sets| && g in sets[i];
      assert c[i] == '1';
      CodesAreCodes(|sets|, c);
      assert c in NonZeroCodes(|sets|);
      assert g in Region(sets, c);
      assert c in Partition(sets) && g in Partition(sets)[c];
    }
  }

  /** The seven region codes of a three-set diagram. */
  const Codes3: set<string> := {"100", "010", "001", "110", "101", "011", "111"}

  lemma NonZeroCodes3()
    ensures NonZeroCodes(3) == Codes3
  {
    forall c | c in NonZeroCodes(3) ensures c in Codes3 {
      CodesAreCodes(3, c);
      assert c == [c[0], c[1], c[2]];
    }
    forall c | c in Codes3 ensures c in NonZeroCodes(3) {
      CodesAreCodes(3, c);
      assert c[0] == '1' || c[1] == '1' || c[2] == '1';
    }
  }

  /** The three-set partition written out region by region. */
  function Regions3(s1: set<string>, s2: set<string>, s3: set<string>): map<string, set<string>>
  {
    map[
      "100" := s1 - s2 - s3,
      "010" := s2 - s1 - s3,
      "001" := s3 - s1 - s2,
      "110" := (s1 * s2) - s3,
      "101" := (s1 * s3) - s2,
      "011" := (s2 * s3) - s1,
      "111" := s1 * s2 * s3
    ]
  }

  lemma RegionOfCode3(s1: set<string>, s2: set<string>, s3: set<string>, c: string, g: string)
    requires c in Codes3
    ensures g in Region([s1, s2, s3], c) <==> g in Regions3(s1, s2, s3)[c]
  {
    var sets := [s1, s2, s3];
    var m := MembershipCode(g, sets);
    assert m == [m[0], m[1], m[2]];
    assert c == [c[0], c[1], c[2]];
    if g in Region(sets, c) {
      assert g in s1 || g in s2 || g in s3;
    }
    if g in Regions3(s1, s2, s3)[c] {
      assert sets[0] == s1 && sets[1] == s2 && sets[2] == s3;
      assert g in UnionAll(sets) by {
        assert g in sets[0] || g in sets[1] || g in sets[2];
      }
    }
  }

  /** The general partition over three sets is the seven-region diagram. */
  lemma Regions3Keys(s1: set<string>, s2: set<string>, s3: set<string>)
    ensures Regions3(s1, s2, s3).Keys == Codes3
  {
  }

  lemma Partition3(s1: set<string>, s2: set<string>, s3: set<string>)
    ensures Partition([s1, s2, s3]) == Regions3(s1, s2, s3)
  {
    var p := Partition([s1, s2, s3]);
    var r := Regions3(s1, s2, s3);
    NonZeroCodes3();
    assert p.Keys == Codes3;
    forall c | c in Codes3 ensures p[c] == r[c] {
      forall g ensures g in p[c] <==> g in r[c] {
        RegionOfCode3(s1, s2, s3, c, g);
      }
    }
  }
}
