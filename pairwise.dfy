/**
 * Needleman-Wunsch global alignment of two sequences with a linear gap
 * penalty (class `Alignment` of the pairwise aligner).
 *
 * The score matrix and the pointer matrix are specified cell by cell by
 * `Cell`; the traceback by `Trace`. The class fills real two-dimensional
 * arrays and builds the aligned rows by prepending, and is proved to produce
 * exactly `Trace(|x|, |y|)`. The lemmas then show that this alignment is a
 * genuine alignment of x and y whose re-scored value is the optimum.
 */
module Pairwise {
  import opened Results
  import opened Scoring

  /** Pointer codes: unset (0), top (1), left (2), diagonal (3). */
  datatype Step = Stop | Top | Left | Diag

  /** Why `check_alignment` stops the program. */
  datatype AlignmentError = NotComputed | LengthMismatch

  predicate NoGaps(s: string) {
    forall k :: 0 <= k < |s| ==> s[k] != Gap
  }

  /**
   * One interior cell: the best of the three candidates, with ties going to
   * the diagonal, then to left, then to top.
   */
  function Best(diag: int, left: int, top: int): (r: (int, Step))
    ensures r.0 >= diag && r.0 >= left && r.0 >= top
    ensures r.1 == Diag ==> r.0 == diag
    ensures r.1 == Left ==> r.0 == left && left > diag
    ensures r.1 == Top ==> r.0 == top && top > diag && top > left
    ensures r.1 != Stop
  {
    if diag >= left && diag >= top then (diag, Diag)
    else if left >= diag && left >= top then (left, Left)
    else (top, Top)
  }

  /** Score-matrix entry `f[i][j]` and pointer `p[i][j]`. */
  function Cell(t: Table, x: string, y: string, i: nat, j: nat): (int, Step)
    requires i <= |x| && j <= |y|
    decreases i + j
  {
    if i == 0 && j == 0 then (0, Stop)
    else if i == 0 then (Gamma(j), Left)
    else if j == 0 then (Gamma(i), Top)
    else Best(Cell(t, x, y, i - 1, j - 1).0 + t(x[i - 1], y[j - 1]),
              Cell(t, x, y, i, j - 1).0 - GapPenalty,
              Cell(t, x, y, i - 1, j).0 - GapPenalty)
  }

  function OptScore(t: Table, x: string, y: string, i: nat, j: nat): int
    requires i <= |x| && j <= |y|
  {
    Cell(t, x, y, i, j).0
  }

  function Pointer(t: Table, x: string, y: string, i: nat, j: nat): Step
    requires i <= |x| && j <= |y|
  {
    Cell(t, x, y, i, j).1
  }

  /** The boundary row and column, and the recurrence with its tie-break, as the fill sets them. */
  lemma CellRecurrence(t: Table, x: string, y: string, i: nat, j: nat)
    requires i <= |x| && j <= |y|
    ensures i == 0 && j > 0 ==> OptScore(t, x, y, i, j) == Gamma(j) && Pointer(t, x, y, i, j) == Left
    ensures j == 0 && i > 0 ==> OptScore(t, x, y, i, j) == Gamma(i) && Pointer(t, x, y, i, j) == Top
    ensures i > 0 && j > 0 ==>
      var diag := OptScore(t, x, y, i - 1, j - 1) + t(x[i - 1], y[j - 1]);
      var left := OptScore(t, x, y, i, j - 1) - GapPenalty;
      var top := OptScore(t, x, y, i - 1, j) - GapPenalty;
      && OptScore(t, x, y, i, j) == Max3(diag, left, top)
      && (Pointer(t, x, y, i, j) == Diag <==> diag >= left && diag >= top)
      && (Pointer(t, x, y, i, j) == Left <==> diag < Max3(diag, left, top) && left >= top)
      && (Pointer(t, x, y, i, j) == Top <==> diag < top && left < top)
  {
  }

  function Max3(a: int, b: int, c: int): int {
    if a >= b && a >= c then a else if b >= c then b else c
  }

  /** The traceback from cell (i, j): the two aligned rows, built back to front. */
  function Trace(t: Table, x: string, y: string, i: nat, j: nat): (string, string)
    requires i <= |x| && j <= |y|
    decreases i + j
  {
    if i == 0 && j == 0 then ([], [])
    else if Pointer(t, x, y, i, j) == Diag then
      var r := Trace(t, x, y, i - 1, j - 1);
      (r.0 + [x[i - 1]], r.1 + [y[j - 1]])
    else if Pointer(t, x, y, i, j) == Top then
      var r := Trace(t, x, y, i - 1, j);
      (r.0 + [x[i - 1]], r.1 + [Gap])
    else
      var r := Trace(t, x, y, i, j - 1);
      (r.0 + [Gap], r.1 + [y[j - 1]])
  }

  /** The sequence with every gap symbol deleted. */
  function Ungap(s: string): (r: string)
    ensures |r| <= |s|
    decreases |s|
  {
    if s == [] then []
    else Ungap(s[..|s| - 1]) + (if s[|s| - 1] == Gap then [] else [s[|s| - 1]])
  }

  lemma {:induction false} UngapOfGapFree(s: string)
    requires NoGaps(s)
    ensures Ungap(s) == s
    decreases |s|
  {
    if s != [] {
      UngapOfGapFree(s[..|s| - 1]);
    }
  }

  /** The score of a finished alignment, column by column: -d per gap column, the table otherwise. */
  function ColumnScore(t: Table, a: char, b: char): int {
    if a == Gap || b == Gap then -GapPenalty else t(a, b)
  }

  function LinearScore(t: Table, a: string, b: string): int
    requires |a| == |b|
    decreases |a|
  {
    if |a| == 0 then 0
    else LinearScore(t, a[..|a| - 1], b[..|b| - 1]) + ColumnScore(t, a[|a| - 1], b[|b| - 1])
  }

  lemma LinearScoreSnoc(t: Table, a: string, b: string, i: nat)
    requires |a| == |b| && i < |a|
    ensures LinearScore(t, a[..i + 1], b[..i + 1]) == LinearScore(t, a[..i], b[..i]) + ColumnScore(t, a[i], b[i])
  {
    assert a[..i + 1][..i] == a[..i];
    assert b[..i + 1][..i] == b[..i];
  }

  /** Both traced rows have the same length, between max(i, j) and i + j. */
  lemma {:induction false} TraceLength(t: Table, x: string, y: string, i: nat, j: nat)
    requires i <= |x| && j <= |y|
    ensures |Trace(t, x, y, i, j).0| == |Trace(t, x, y, i, j).1|
    ensures i <= |Trace(t, x, y, i, j).0| && j <= |Trace(t, x, y, i, j).0|
    ensures |Trace(t, x, y, i, j).0| <= i + j
    decreases i + j
  {
    if i == 0 && j == 0 {
    } else if Pointer(t, x, y, i, j) == Diag {
      TraceLength(t, x, y, i - 1, j - 1);
    } else if Pointer(t, x, y, i, j) == Top {
      TraceLength(t, x, y, i - 1, j);
    } else {
      TraceLength(t, x, y, i, j - 1);
    }
  }

  lemma UngapSnoc(s: string, c: char)
    ensures Ungap(s + [c]) == Ungap(s) + (if c == Gap then [] else [c])
  {
    assert (s + [c])[..|s|] == s;
  }

  lemma UngapPrefixStep(s: string, i: nat)
    requires 0 < i <= |s|
    ensures Ungap(s[..i]) == Ungap(s[..i - 1]) + (if s[i - 1] == Gap then [] else [s[i - 1]])
  {
    assert s[..i] == s[..i - 1] + [s[i - 1]];
    UngapSnoc(s[..i - 1], s[i - 1]);
  }

  /** The predecessor of cell (i, j) on the traceback path. */
  function Prev(t: Table, x: string, y: string, i: nat, j: nat): (r: (nat, nat))
    requires i <= |x| && j <= |y| && i + j > 0
    ensures r.0 <= i && r.1 <= j && r.0 + r.1 < i + j
  {
    if Pointer(t, x, y, i, j) == Diag then (i - 1, j - 1)
    else if Pointer(t, x, y, i, j) == Top then (i - 1, j)
    else (i, j - 1)
  }

  predicate UngapsBack(t: Table, x: string, y: string, i: nat, j: nat)
    requires i <= |x| && j <= |y|
  {
    Ungap(Trace(t, x, y, i, j).0) == Ungap(x[..i]) && Ungap(Trace(t, x, y, i, j).1) == Ungap(y[..j])
  }

  lemma TraceUngapDiag(t: Table, x: string, y: string, i: nat, j: nat)
    requires 0 < i <= |x| && 0 < j <= |y| && Pointer(t, x, y, i, j) == Diag
    requires UngapsBack(t, x, y, i - 1, j - 1)
    ensures UngapsBack(t, x, y, i, j)
  {
    var q := Trace(t, x, y, i - 1, j - 1);
    UngapSnoc(q.0, x[i - 1]);
    UngapSnoc(q.1, y[j - 1]);
    UngapPrefixStep(x, i);
    UngapPrefixStep(y, j);
  }

  lemma TraceUngapTop(t: Table, x: string, y: string, i: nat, j: nat)
    requires 0 < i <= |x| && j <= |y| && Pointer(t, x, y, i, j) == Top
    requires UngapsBack(t, x, y, i - 1, j)
    ensures UngapsBack(t, x, y, i, j)
  {
    var q := Trace(t, x, y, i - 1, j);
    UngapSnoc(q.0, x[i - 1]);
    UngapSnoc(q.1, Gap);
    UngapPrefixStep(x, i);
  }

  lemma TraceUngapLeft(t: Table, x: string, y: string, i: nat, j: nat)
    requires i <= |x| && 0 < j <= |y| && i + j > 0
    requires Pointer(t, x, y, i, j) != Diag && Pointer(t, x, y, i, j) != Top
    requires UngapsBack(t, x, y, i, j - 1)
    ensures UngapsBack(t, x, y, i, j)
  {
    var q := Trace(t, x, y, i, j - 1);
    UngapSnoc(q.0, Gap);
    UngapSnoc(q.1, y[j - 1]);
    UngapPrefixStep(y, j);
  }

  /** Deleting the gaps from the traced rows gives back the prefixes with their own gaps deleted. */
  lemma {:induction false} TraceUngap(t: Table, x: string, y: string, i: nat, j: nat)
    requires i <= |x| && j <= |y|
    ensures Ungap(Trace(t, x, y, i, j).0) == Ungap(x[..i])
    ensures Ungap(Trace(t, x, y, i, j).1) == Ungap(y[..j])
    decreases i + j
  {
    if i + j == 0 {
    } else if Pointer(t, x, y, i, j) == Diag {
      TraceUngap(t, x, y, i - 1, j - 1);
      TraceUngapDiag(t, x, y, i, j);
    } else if Pointer(t, x, y, i, j) == Top {
      TraceUngap(t, x, y, i - 1, j);
      TraceUngapTop(t, x, y, i, j);
    } else {
      TraceUngap(t, x, y, i, j - 1);
      TraceUngapLeft(t, x, y, i, j);
    }
  }

  /** For gap-free inputs, no column of the traced alignment holds two gaps. */
  lemma {:induction false} TraceNoDoubleGap(t: Table, x: string, y: string, i: nat, j: nat)
    requires i <= |x| && j <= |y| && NoGaps(x) && NoGaps(y)
    ensures TraceLengthsAgree(t, x, y, i, j)
    ensures forall k :: 0 <= k < |Trace(t, x, y, i, j).0| ==>
      !(Trace(t, x, y, i, j).0[k] == Gap && Trace(t, x, y, i, j).1[k] == Gap)
    decreases i + j
  {
    TraceLength(t, x, y, i, j);
    if i == 0 && j == 0 {
    } else if Pointer(t, x, y, i, j) == Diag {
      TraceNoDoubleGap(t, x, y, i - 1, j - 1);
    } else if Pointer(t, x, y, i, j) == Top {
      TraceNoDoubleGap(t, x, y, i - 1, j);
    } else {
      TraceNoDoubleGap(t, x, y, i, j - 1);
    }
  }

  predicate TraceLengthsAgree(t: Table, x: string, y: string, i: nat, j: nat)
    requires i <= |x| && j <= |y|
  {
    |Trace(t, x, y, i, j).0| == |Trace(t, x, y, i, j).1|
  }

  lemma LinearScoreAppend(t: Table, a: string, b: string, c: char, e: char)
    requires |a| == |b|
    ensures LinearScore(t, a + [c], b + [e]) == LinearScore(t, a, b) + ColumnScore(t, c, e)
  {
    assert (a + [c])[..|a|] == a;
    assert (b + [e])[..|b|] == b;
  }

  predicate ScoresBack(t: Table, x: string, y: string, i: nat, j: nat)
    requires i <= |x| && j <= |y|
  {
    TraceLengthsAgree(t, x, y, i, j) &&
    LinearScore(t, Trace(t, x, y, i, j).0, Trace(t, x, y, i, j).1) == OptScore(t, x, y, i, j)
  }

  lemma TraceScoreStep(t: Table, x: string, y: string, i: nat, j: nat)
    requires i <= |x| && j <= |y| && i + j > 0 && NoGaps(x) && NoGaps(y)
    requires ScoresBack(t, x, y, Prev(t, x, y, i, j).0, Prev(t, x, y, i, j).1)
    ensures ScoresBack(t, x, y, i, j)
  {
    var p := Prev(t, x, y, i, j);
    var q := Trace(t, x, y, p.0, p.1);
    var c := LastColumn(t, x, y, i, j);
    TraceUnfold(t, x, y, i, j);
    OptScoreUnfold(t, x, y, i, j);
    ScoreSnocOf(t, q.0, q.1, c.0, c.1, Trace(t, x, y, i, j).0, Trace(t, x, y, i, j).1, OptScore(t, x, y, p.0, p.1), OptScore(t, x, y, i, j));
  }

  /** The column the traceback adds at (i, j): both characters, x's character over a gap, or a gap over y's. */
  function LastColumn(t: Table, x: string, y: string, i: nat, j: nat): (char, char)
    requires i <= |x| && j <= |y| && i + j > 0
  {
    if Pointer(t, x, y, i, j) == Diag then (x[i - 1], y[j - 1])
    else if Pointer(t, x, y, i, j) == Top then (x[i - 1], Gap)
    else (Gap, y[j - 1])
  }

  /** One step of the traceback: the rows from the previous cell, extended by the column at (i, j). */
  lemma TraceUnfold(t: Table, x: string, y: string, i: nat, j: nat)
    requires i <= |x| && j <= |y| && i + j > 0
    ensures var p, c := Prev(t, x, y, i, j), LastColumn(t, x, y, i, j);
      Trace(t, x, y, i, j) == (Trace(t, x, y, p.0, p.1).0 + [c.0], Trace(t, x, y, p.0, p.1).1 + [c.1])
  {
  }

  /** For gap-free inputs the matrix entry is the previous cell's entry plus the score of the column at (i, j). */
  lemma OptScoreUnfold(t: Table, x: string, y: string, i: nat, j: nat)
    requires i <= |x| && j <= |y| && i + j > 0 && NoGaps(x) && NoGaps(y)
    ensures var p, c := Prev(t, x, y, i, j), LastColumn(t, x, y, i, j);
      OptScore(t, x, y, i, j) == OptScore(t, x, y, p.0, p.1) + ColumnScore(t, c.0, c.1)
  {
    CellRecurrence(t, x, y, i, j);
    if i == 0 {
      CellRecurrence(t, x, y, 0, j - 1);
    } else if j == 0 {
      CellRecurrence(t, x, y, i - 1, 0);
    }
  }

  /** Appending a column adds its score, stated over plain values. */
  lemma ScoreSnocOf(t: Table, a: string, b: string, c: char, e: char, A: string, B: string, s0: int, s: int)
    requires |a| == |b| && A == a + [c] && B == b + [e]
    requires LinearScore(t, a, b) == s0 && s == s0 + ColumnScore(t, c, e)
    ensures |A| == |B| && LinearScore(t, A, B) == s
  {
    LinearScoreAppend(t, a, b, c, e);
  }

  /** For gap-free inputs, re-scoring the traced alignment gives back the matrix entry. */
  lemma {:induction false} TraceScore(t: Table, x: string, y: string, i: nat, j: nat)
    requires i <= |x| && j <= |y| && NoGaps(x) && NoGaps(y)
    ensures TraceLengthsAgree(t, x, y, i, j)
    ensures LinearScore(t, Trace(t, x, y, i, j).0, Trace(t, x, y, i, j).1) == OptScore(t, x, y, i, j)
    decreases i + j
  {
    if i + j > 0 {
      var p := Prev(t, x, y, i, j);
      TraceScore(t, x, y, p.0, p.1);
      TraceScoreStep(t, x, y, i, j);
    }
  }

  /** `a` and `b` align the prefixes x[..i] and y[..j]: equal length, gaps aside they are the prefixes. */
  predicate Aligns(a: string, b: string, x: string, y: string) {
    |a| == |b| && Ungap(a) == x && Ungap(b) == y
  }

  /** Optimality: no alignment of x[..i] with y[..j] scores more than the matrix entry. */
  lemma {:induction false} OptScoreIsOptimal(t: Table, x: string, y: string, i: nat, j: nat, a: string, b: string)
    requires i <= |x| && j <= |y|
    requires Aligns(a, b, x[..i], y[..j])
    ensures LinearScore(t, a, b) <= OptScore(t, x, y, i, j)
    decreases |a|
  {
    if |a| == 0 {
      assert i == 0 && j == 0;
    } else {
      var a', b' := a[..|a| - 1], b[..|b| - 1];
      var c, e := a[|a| - 1], b[|b| - 1];
      if c != Gap && e != Gap {
        assert i > 0 && j > 0 && c == x[i - 1] && e == y[j - 1];
        assert x[..i][..i - 1] == x[..i - 1] && y[..j][..j - 1] == y[..j - 1];
        OptScoreIsOptimal(t, x, y, i - 1, j - 1, a', b');
      } else if c != Gap {
        assert i > 0 && c == x[i - 1];
        assert x[..i][..i - 1] == x[..i - 1];
        OptScoreIsOptimal(t, x, y, i - 1, j, a', b');
      } else if e != Gap {
        assert j > 0 && e == y[j - 1];
        assert y[..j][..j - 1] == y[..j - 1];
        OptScoreIsOptimal(t, x, y, i, j - 1, a', b');
      } else {
        OptScoreIsOptimal(t, x, y, i, j, a', b');
      }
    }
  }

  /** The pairwise aligner: two input sequences and, once computed, their aligned rows. */
  class Alignment {
    const table: Table
    var x: string
    var y: string
    var xa: Option<string>
    var ya: Option<string>

    constructor (table: Table, s1: string, s2: string)
      ensures this.table == table && x == s1 && y == s2
      ensures xa == None && ya == None
    {
      this.table := table;
      x, y := s1, s2;
      xa, ya := None, None;
    }

    /** Succeeds exactly when both aligned rows are set and have equal length. */
    method CheckAlignment() returns (r: Result<(), AlignmentError>)
      ensures r.Success? <==> xa.Some? && ya.Some? && |xa.value| == |ya.value|
      ensures (xa.None? || ya.None?) ==> r == Failure(NotComputed)
      ensures xa.Some? && ya.Some? && |xa.value| != |ya.value| ==> r == Failure(LengthMismatch)
    {
      if xa.None? || ya.None? {
        r := Failure(NotComputed);
      } else if |xa.value| != |ya.value| {
        r := Failure(LengthMismatch);
      } else {
        r := Success(());
      }
    }

    /**
     * Re-scores the stored alignment, charging each maximal run of gap
     * columns gamma(run length) and every other column the table entry;
     * the result is the column-by-column linear score.
     */
    method ScoreAlignment() returns (r: Result<int, AlignmentError>)
      ensures r.Success? <==> xa.Some? && ya.Some? && |xa.value| == |ya.value|
      ensures r.Failure? ==> r.error == (if xa.None? || ya.None? then NotComputed else LengthMismatch)
      ensures r.Success? ==> r.value == LinearScore(table, xa.value, ya.value)
    {
      var ok := CheckAlignment();
      if ok.Failure? {
        return Failure(ok.error);
      }
      var a, b := xa.value, ya.value;
      var n := |a|;
      var score := 0;
      var i := 0;
      while i < n
        invariant 0 <= i <= n
        invariant score == LinearScore(table, a[..i], b[..i])
      {
        if a[i] == Gap {
          var g := 0;
          while i < n && a[i] == Gap
            invariant 0 <= i <= n
            invariant score + Gamma(g) == LinearScore(table, a[..i], b[..i])
          {
            LinearScoreSnoc(table, a, b, i);
            g := g + 1;
            i := i + 1;
          }
          score := score + Gamma(g);
        } else if b[i] == Gap {
          var g := 0;
          while i < n && b[i] == Gap
            invariant 0 <= i <= n
            invariant score + Gamma(g) == LinearScore(table, a[..i], b[..i])
          {
            LinearScoreSnoc(table, a, b, i);
            g := g + 1;
            i := i + 1;
          }
          score := score + Gamma(g);
        } else {
          LinearScoreSnoc(table, a, b, i);
          score := score + table(a[i], b[i]);
          i := i + 1;
        }
      }
      assert a[..n] == a && b[..n] == b;
      r := Success(score);
    }

    /**
     * Fills the score and pointer matrices and traces back from (|x|, |y|),
     * storing the aligned rows.
     */
    method ComputeAlignment()
      modifies this
      ensures x == old(x) && y == old(y)
      ensures xa == Some(Trace(table, x, y, |x|, |y|).0)
      ensures ya == Some(Trace(table, x, y, |x|, |y|).1)
    {
      var f, p := FillMatrices(table, x, y);
      var xb, yb := Traceback(table, x, y, p);
      xa := Some(xb);
      ya := Some(yb);
    }
  }

  /** The fill loops of the pairwise aligner: every cell of f and p as `Cell` defines it. */
  method FillMatrices(t: Table, x: string, y: string) returns (f: array2<int>, p: array2<Step>)
    ensures fresh(f) && fresh(p)
    ensures f.Length0 == |x| + 1 && f.Length1 == |y| + 1
    ensures p.Length0 == |x| + 1 && p.Length1 == |y| + 1
    ensures forall a, b :: 0 <= a <= |x| && 0 <= b <= |y| ==>
      f[a, b] == OptScore(t, x, y, a, b) && p[a, b] == Pointer(t, x, y, a, b)
  {
    var n, m := |x|, |y|;
    f := new int[n + 1, m + 1]((_, _) => 0);
    p := new Step[n + 1, m + 1]((_, _) => Stop);
    var i := 0;
    while i <= n
      invariant 0 <= i <= n + 1
      invariant i == 0 ==> p[0, 0] == Stop
      invariant forall a, b :: 0 <= a < i && 0 <= b <= m ==>
        f[a, b] == OptScore(t, x, y, a, b) && p[a, b] == Pointer(t, x, y, a, b)
    {
      FillRow(t, x, y, f, p, i);
      i := i + 1;
    }
  }

  /** The inner loop of the fill: row i, from column 0 to |y|. */
  method FillRow(t: Table, x: string, y: string, f: array2<int>, p: array2<Step>, i: nat)
    requires f.Length0 == |x| + 1 && f.Length1 == |y| + 1 && p.Length0 == |x| + 1 && p.Length1 == |y| + 1
    requires i <= |x| && (i == 0 ==> p[0, 0] == Stop)
    requires forall a, b :: 0 <= a < i && 0 <= b <= |y| ==>
      f[a, b] == OptScore(t, x, y, a, b) && p[a, b] == Pointer(t, x, y, a, b)
    modifies f, p
    ensures forall a, b :: 0 <= a <= i && 0 <= b <= |y| ==>
      f[a, b] == OptScore(t, x, y, a, b) && p[a, b] == Pointer(t, x, y, a, b)
  {
    var j := 0;
    while j <= |y|
      invariant 0 <= j <= |y| + 1
      invariant i == 0 && j == 0 ==> p[0, 0] == Stop
      invariant forall a, b :: 0 <= a < i && 0 <= b <= |y| ==>
        f[a, b] == OptScore(t, x, y, a, b) && p[a, b] == Pointer(t, x, y, a, b)
      invariant forall b :: 0 <= b < j ==>
        f[i, b] == OptScore(t, x, y, i, b) && p[i, b] == Pointer(t, x, y, i, b)
    {
      FillCell(t, x, y, f, p, i, j);
      j := j + 1;
    }
  }

  /** One entry of the fill: the first row and column charge the gap penalty, inner entries take the best of the three moves. */
  method FillCell(t: Table, x: string, y: string, f: array2<int>, p: array2<Step>, i: nat, j: nat)
    requires f.Length0 == |x| + 1 && f.Length1 == |y| + 1 && p.Length0 == |x| + 1 && p.Length1 == |y| + 1
    requires i <= |x| && j <= |y| && (i == 0 && j == 0 ==> p[0, 0] == Stop)
    requires i > 0 ==> f[i - 1, j] == OptScore(t, x, y, i - 1, j)
    requires j > 0 ==> f[i, j - 1] == OptScore(t, x, y, i, j - 1)
    requires i > 0 && j > 0 ==> f[i - 1, j - 1] == OptScore(t, x, y, i - 1, j - 1)
    modifies f, p
    ensures f[i, j] == OptScore(t, x, y, i, j) && p[i, j] == Pointer(t, x, y, i, j)
    ensures forall a, b :: 0 <= a <= |x| && 0 <= b <= |y| && (a != i || b != j) ==>
      f[a, b] == old(f[a, b]) && p[a, b] == old(p[a, b])
  {
    if i == 0 && j == 0 {
      f[i, j] := 0;
    } else if i == 0 {
      f[i, j] := -(j as int) * GapPenalty;
      p[i, j] := Left;
    } else if j == 0 {
      f[i, j] := -(i as int) * GapPenalty;
      p[i, j] := Top;
    } else {
      var diag := f[i - 1, j - 1] + t(x[i - 1], y[j - 1]);
      var left := f[i, j - 1] - GapPenalty;
      var top := f[i - 1, j] - GapPenalty;
      assert Cell(t, x, y, i, j) == Best(diag, left, top);
      if diag >= left && diag >= top {
        f[i, j] := diag;
        p[i, j] := Diag;
      } else if left >= diag && left >= top {
        f[i, j] := left;
        p[i, j] := Left;
      } else {
        f[i, j] := top;
        p[i, j] := Top;
      }
    }
  }

  /**
   * The traceback of the pairwise aligner: follows the pointers from
   * (|x|, |y|) to (0, 0), prepending one column per step.
   */
  method Traceback(t: Table, x: string, y: string, p: array2<Step>) returns (xb: string, yb: string)
    requires p.Length0 == |x| + 1 && p.Length1 == |y| + 1
    requires forall a, b :: 0 <= a <= |x| && 0 <= b <= |y| ==> p[a, b] == Pointer(t, x, y, a, b)
    ensures xb == Trace(t, x, y, |x|, |y|).0 && yb == Trace(t, x, y, |x|, |y|).1
    ensures |xb| == |yb| && |x| <= |xb| && |y| <= |xb| && |xb| <= |x| + |y|
  {
    var n, m := |x|, |y|;
    xb, yb := [], [];
    var i, j := n, m;
    while i + j > 0
      invariant 0 <= i <= n && 0 <= j <= m
      invariant Trace(t, x, y, n, m).0 == Trace(t, x, y, i, j).0 + xb
      invariant Trace(t, x, y, n, m).1 == Trace(t, x, y, i, j).1 + yb
      decreases i + j
    {
      var a, b, i2, j2 := TraceColumn(t, x, y, p, i, j);
      TraceUnfold(t, x, y, i, j);
      Regroup(Trace(t, x, y, n, m).0, Trace(t, x, y, i, j).0, Trace(t, x, y, i2, j2).0, a, xb);
      Regroup(Trace(t, x, y, n, m).1, Trace(t, x, y, i, j).1, Trace(t, x, y, i2, j2).1, b, yb);
      xb, yb := [a] + xb, [b] + yb;
      i, j := i2, j2;
    }
    TraceLength(t, x, y, n, m);
  }

  /** One pass of the traceback loop: the column at (i, j) and the cell its pointer leads back to. */
  method TraceColumn(t: Table, x: string, y: string, p: array2<Step>, i: nat, j: nat) returns (a: char, b: char, i2: nat, j2: nat)
    requires p.Length0 == |x| + 1 && p.Length1 == |y| + 1
    requires forall a, b :: 0 <= a <= |x| && 0 <= b <= |y| ==> p[a, b] == Pointer(t, x, y, a, b)
    requires i <= |x| && j <= |y| && i + j > 0
    ensures (a, b) == LastColumn(t, x, y, i, j) && (i2, j2) == Prev(t, x, y, i, j)
  {
    if p[i, j] == Diag {
      a, b, i2, j2 := x[i - 1], y[j - 1], i - 1, j - 1;
    } else if p[i, j] == Top {
      a, b, i2, j2 := x[i - 1], Gap, i - 1, j;
    } else {
      a, b, i2, j2 := Gap, y[j - 1], i, j - 1;
    }
  }

  lemma Regroup(full: string, cur: string, before: string, c: char, done: string)
    requires full == cur + done && cur == before + [c]
    ensures full == before + ([c] + done)
  {
  }

  /**
   * Computing an alignment of two gap-free sequences and re-scoring it gives
   * the optimum f[|x|][|y|]: no alignment of x and y scores more, and the
   * computed rows align x with y without any gap-against-gap column.
   */
  method AlignAndScore(t: Table, x: string, y: string) returns (xa: string, ya: string, score: int)
    requires NoGaps(x) && NoGaps(y)
    ensures Aligns(xa, ya, x, y)
    ensures |xa| <= |x| + |y|
    ensures forall k :: 0 <= k < |xa| ==> !(xa[k] == Gap && ya[k] == Gap)
    ensures score == LinearScore(t, xa, ya)
    ensures forall a, b :: Aligns(a, b, x, y) ==> LinearScore(t, a, b) <= score
  {
    var al := new Alignment(t, x, y);
    al.ComputeAlignment();
    var r := al.ScoreAlignment();
    xa, ya := al.xa.value, al.ya.value;
    TraceLength(t, x, y, |x|, |y|);
    TraceUngap(t, x, y, |x|, |y|);
    TraceNoDoubleGap(t, x, y, |x|, |y|);
    TraceScore(t, x, y, |x|, |y|);
    assert x[..|x|] == x && y[..|y|] == y;
    UngapOfGapFree(x);
    UngapOfGapFree(y);
    score := r.value;
    forall a, b | Aligns(a, b, x, y)
      ensures LinearScore(t, a, b) <= score
    {
      OptScoreIsOptimal(t, x, y, |x|, |y|, a, b);
    }
  }
}
