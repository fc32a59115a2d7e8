/**
 * Sum-of-pairs scoring of a multiple alignment (`scoreMultipleAlignment`):
 * every column adds the score `s` of every pair of rows j < k. A position
 * past the end of a row is read as a gap by the specification; the method
 * stops with an index error there instead, and with an illegal-symbol error
 * where `s` stops the program.
 */
module SumOfPairs {
  import opened Results
  import opened Scoring
  import opened ProfileSpec
  import Pairwise

  /** Column i: row j scored against rows j+1 .. K-1. */
  function PairSum(t: Table, A: seq<string>, i: int, j: nat, K: nat): int
    requires j < |A| && K <= |A|
    decreases K
  {
    if K <= j + 1 then 0
    else PairSum(t, A, i, j, K - 1) + SubstScore(t, At(A[j], i), At(A[K - 1], i))
  }

  /** Column i: the pairs whose first row is below J. */
  function ColumnSum(t: Table, A: seq<string>, i: int, J: nat): int
    requires J <= |A|
    decreases J
  {
    if J == 0 then 0 else ColumnSum(t, A, i, J - 1) + PairSum(t, A, i, J - 1, |A|)
  }

  /** Columns 0 .. I-1. */
  function ScoreUpTo(t: Table, A: seq<string>, I: nat): int
    decreases I
  {
    if I == 0 then 0 else ScoreUpTo(t, A, I - 1) + ColumnSum(t, A, I - 1, |A|)
  }

  /** The sum-of-pairs score over the width of the first row. */
  function SoP(t: Table, A: seq<string>): int
    requires |A| > 0
  {
    ScoreUpTo(t, A, |A[0]|)
  }

  /** The pair (j, k) can be scored in column i: both rows reach it and `s` accepts the characters. */
  predicate PairOk(A: seq<string>, i: nat, j: nat, k: nat)
    requires j < |A| && k < |A|
  {
    i < |A[j]| && i < |A[k]| && Scorable(A[j][i], A[k][i])
  }

  /** `scoreMultipleAlignment(A)` returns normally exactly when this holds. */
  predicate SoPOk(A: seq<string>) {
    |A| > 0 && forall i, j, k :: 0 <= i < |A[0]| && 0 <= j < k < |A| ==> PairOk(A, i, j, k)
  }

  /**
   * The triple loop over columns i, rows j and rows k > j, adding `s` of
   * the two characters. It returns normally exactly when every pair can be
   * scored, and then returns the sum-of-pairs score.
   */
  method ScoreMultipleAlignment(t: Table, A: seq<string>) returns (r: Result<int, Fault>)
    ensures r.Success? <==> SoPOk(A)
    ensures r.Success? ==> r.value == SoP(t, A)
  {
    if |A| == 0 {
      return Failure(IndexError);
    }
    var n := |A[0]|;
    var score := 0;
    var i := 0;
    while i < n
      invariant 0 <= i <= n
      invariant score == ScoreUpTo(t, A, i)
      invariant forall i', j, k :: 0 <= i' < i && 0 <= j < k < |A| ==> PairOk(A, i', j, k)
    {
      var j := 0;
      while j < |A|
        invariant 0 <= j <= |A|
        invariant score == ScoreUpTo(t, A, i) + ColumnSum(t, A, i, j)
        invariant forall i', j', k :: 0 <= i' < i && 0 <= j' < k < |A| ==> PairOk(A, i', j', k)
        invariant forall j', k :: 0 <= j' < j && j' < k < |A| ==> PairOk(A, i, j', k)
      {
        var k := j + 1;
        while k < |A|
          invariant j + 1 <= k <= |A|
          invariant score == ScoreUpTo(t, A, i) + ColumnSum(t, A, i, j) + PairSum(t, A, i, j, k)
          invariant forall i', j', k' :: 0 <= i' < i && 0 <= j' < k' < |A| ==> PairOk(A, i', j', k')
          invariant forall j', k' :: 0 <= j' < j && j' < k' < |A| ==> PairOk(A, i, j', k')
          invariant forall k' :: j < k' < k ==> PairOk(A, i, j, k')
        {
          if i >= |A[j]| || i >= |A[k]| {
            assert !PairOk(A, i, j, k);
            return Failure(IndexError);
          }
          var s := Subst(t, A[j][i], A[k][i]);
          if s.Failure? {
            assert !PairOk(A, i, j, k);
            return Failure(IllegalSymbol(s.error));
          }
          score := score + s.value;
          k := k + 1;
        }
        j := j + 1;
      }
      i := i + 1;
    }
    return Success(score);
  }

  // ---------------------------------------------------------------- properties

  lemma {:induction false} SingleRowUpTo(t: Table, A: seq<string>, I: nat)
    requires |A| == 1
    ensures ScoreUpTo(t, A, I) == 0
    decreases I
  {
    if I > 0 {
      SingleRowUpTo(t, A, I - 1);
    }
  }

  /** A single row is always accepted and scores 0: there are no pairs. */
  lemma SoPSingleRow(t: Table, A: seq<string>)
    requires |A| == 1
    ensures SoPOk(A) && SoP(t, A) == 0
  {
    SingleRowUpTo(t, A, |A[0]|);
  }

  /** Two rows with no all-gap column: column i of the sum of pairs is the pairwise column score. */
  lemma {:induction false} PairUpTo(t: Table, a: string, b: string, I: nat)
    requires |a| == |b| && I <= |a|
    requires forall i :: 0 <= i < |a| ==> a[i] != Gap || b[i] != Gap
    ensures ScoreUpTo(t, [a, b], I) == Pairwise.LinearScore(t, a[..I], b[..I])
    decreases I
  {
    if I > 0 {
      var A := [a, b];
      PairUpTo(t, a, b, I - 1);
      Pairwise.LinearScoreSnoc(t, a, b, I - 1);
      assert PairSum(t, A, I - 1, 0, 2) == SubstScore(t, a[I - 1], b[I - 1]);
      assert ColumnSum(t, A, I - 1, 2) == Pairwise.ColumnScore(t, a[I - 1], b[I - 1]);
    }
  }

  /**
   * For two aligned rows with no column of two gaps, the sum of pairs is the
   * linear-gap score of the pairwise aligner, and it is accepted exactly
   * when every column can be scored.
   */
  lemma SoPOfPair(t: Table, a: string, b: string)
    requires |a| == |b|
    requires forall i :: 0 <= i < |a| ==> a[i] != Gap || b[i] != Gap
    ensures SoP(t, [a, b]) == Pairwise.LinearScore(t, a, b)
    ensures SoPOk([a, b]) <==> forall i :: 0 <= i < |a| ==> Scorable(a[i], b[i])
  {
    PairUpTo(t, a, b, |a|);
    assert a[..|a|] == a && b[..|b|] == b;
    if forall i :: 0 <= i < |a| ==> Scorable(a[i], b[i]) {
      forall i, j, k | 0 <= i < |a| && 0 <= j < k < 2
        ensures PairOk([a, b], i, j, k)
      {
        assert j == 0 && k == 1;
      }
    } else {
      var i :| 0 <= i < |a| && !Scorable(a[i], b[i]);
      assert !PairOk([a, b], i, 0, 1);
    }
  }

  /** Every row with one more gap at its end. */
  function AppendGap(A: seq<string>): (r: seq<string>)
    ensures |r| == |A|
  {
    seq(|A|, l requires 0 <= l < |A| => A[l] + [Gap])
  }

  lemma {:induction false} PairSumGap(t: Table, A: seq<string>, i: int, j: nat, K: nat)
    requires j < |A| && K <= |A|
    ensures PairSum(t, AppendGap(A), i, j, K) == PairSum(t, A, i, j, K)
    decreases K
  {
    if K > j + 1 {
      PairSumGap(t, A, i, j, K - 1);
      assert At(AppendGap(A)[j], i) == At(A[j], i);
      assert At(AppendGap(A)[K - 1], i) == At(A[K - 1], i);
    }
  }

  lemma {:induction false} ColumnSumGap(t: Table, A: seq<string>, i: int, J: nat)
    requires J <= |A|
    ensures ColumnSum(t, AppendGap(A), i, J) == ColumnSum(t, A, i, J)
    decreases J
  {
    if J > 0 {
      ColumnSumGap(t, A, i, J - 1);
      PairSumGap(t, A, i, J - 1, |A|);
    }
  }

  lemma {:induction false} ScoreUpToGap(t: Table, A: seq<string>, I: nat)
    ensures ScoreUpTo(t, AppendGap(A), I) == ScoreUpTo(t, A, I)
    decreases I
  {
    if I > 0 {
      ScoreUpToGap(t, A, I - 1);
      ColumnSumGap(t, A, I - 1, |A|);
    }
  }

  lemma {:induction false} GapColumnPairs(t: Table, A: seq<string>, i: int, j: nat, K: nat)
    requires j < |A| && K <= |A|
    requires forall l :: 0 <= l < |A| ==> At(A[l], i) == Gap
    ensures PairSum(t, A, i, j, K) == 0
    decreases K
  {
    if K > j + 1 {
      GapColumnPairs(t, A, i, j, K - 1);
    }
  }

  lemma {:induction false} GapColumnSum(t: Table, A: seq<string>, i: int, J: nat)
    requires J <= |A|
    requires forall l :: 0 <= l < |A| ==> At(A[l], i) == Gap
    ensures ColumnSum(t, A, i, J) == 0
    decreases J
  {
    if J > 0 {
      GapColumnSum(t, A, i, J - 1);
      GapColumnPairs(t, A, i, J - 1, |A|);
    }
  }

  /**
   * A column of gaps only scores 0, since `s` of two gaps is 0: appending a
   * gap to every row of an alignment whose rows have equal length leaves
   * its sum of pairs unchanged, and keeps it acceptable.
   */
  lemma SoPAppendGap(t: Table, A: seq<string>)
    requires |A| > 0 && forall l :: 0 <= l < |A| ==> |A[l]| == |A[0]|
    ensures SoP(t, AppendGap(A)) == SoP(t, A)
    ensures SoPOk(AppendGap(A)) <==> SoPOk(A)
  {
    var B := AppendGap(A);
    var w := |A[0]|;
    ScoreUpToGap(t, A, w + 1);
    forall l | 0 <= l < |A|
      ensures At(A[l], w) == Gap
    {
    }
    GapColumnSum(t, A, w, |A|);
    assert SoP(t, B) == ScoreUpTo(t, B, w + 1);
    if SoPOk(A) {
      forall i, j, k | 0 <= i < |B[0]| && 0 <= j < k < |B|
        ensures PairOk(B, i, j, k)
      {
        if i < w {
          assert PairOk(A, i, j, k);
        }
      }
    }
    if SoPOk(B) {
      forall i, j, k | 0 <= i < |A[0]| && 0 <= j < k < |A|
        ensures PairOk(A, i, j, k)
      {
        assert PairOk(B, i, j, k);
      }
    }
  }
}
