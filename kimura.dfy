/**
 * The integer part of the Kimura distance matrix (`Kimuradistance` of the
 * modified multiple aligner): every ordered pair of sequences is aligned,
 * the columns where neither aligned row has a gap are counted, and so are
 * the exact matches among them. The floating-point transform
 * -log(1 - D - 0.2 D^2) with D = 1 - matches/scored is not modelled; an
 * entry records the two counts when the transform is defined and the
 * sentinel -1 when it raises (a division by zero or a logarithm of a
 * non-positive number), which the source catches.
 */
module Kimura {
  import opened Results
  import opened Scoring
  import opened ProfileSpec
  import opened ProfileFacts
  import opened ProfileAlign

  /** A matrix entry: the sentinel -1, or a distance computed from the two counts. */
  datatype Entry = Sentinel | Distance(scored: nat, matches: nat)

  /**
   * Every position the counting loop reads exists: the source tests
   * `xa[i] != "-"` first, and its short-circuit `and` reads `ya[i]` only
   * when that test passes.
   */
  predicate ReadsInRange(xa: string, ya: string) {
    forall i :: 0 <= i < |xa| && xa[i] != Gap ==> i < |ya|
  }

  /** Positions i < |xa| where neither row has a gap. */
  function Scored(xa: string, ya: string): (r: nat)
    requires ReadsInRange(xa, ya)
    ensures r <= |xa|
    decreases |xa|
  {
    if |xa| == 0 then 0
    else
      var i := |xa| - 1;
      Scored(xa[..i], ya) + (if xa[i] != Gap && ya[i] != Gap then 1 else 0)
  }

  /** Positions i < |xa| where neither row has a gap and the two characters are equal. */
  function Matches(xa: string, ya: string): nat
    requires ReadsInRange(xa, ya)
    decreases |xa|
  {
    if |xa| == 0 then 0
    else
      var i := |xa| - 1;
      Matches(xa[..i], ya) + (if xa[i] != Gap && ya[i] != Gap && xa[i] == ya[i] then 1 else 0)
  }

  /** Exact matches are scored positions: 0 <= matches <= scored <= the aligned length. */
  lemma {:induction false} MatchesBounded(xa: string, ya: string)
    requires ReadsInRange(xa, ya)
    ensures Matches(xa, ya) <= Scored(xa, ya) <= |xa|
    decreases |xa|
  {
    if |xa| > 0 {
      MatchesBounded(xa[..|xa| - 1], ya);
    }
  }

  /**
   * The entry for the counts p (scored) and e (matches): the distance is
   * defined when p > 0, so that S = e / p exists, and 1 - D - 0.2 D^2 > 0
   * with D = 1 - S, which for p > 0 is the integer test 5 p e > (p - e)^2.
   */
  function EntryOf(p: nat, e: nat): Entry {
    if p > 0 && 5 * p * e > (p - e) * (p - e) then Distance(p, e) else Sentinel
  }

  /**
   * The integer test is the exact condition on the source's formula: for
   * p > 0, S = e / p and D = 1 - S, the argument of the logarithm is positive
   * exactly when 5 p e > (p - e)^2.
   */
  lemma LogArgumentPositive(p: nat, e: nat)
    requires p > 0
    ensures var S := e as real / p as real; var D := 1.0 - S;
      (1.0 - D - 0.2 * D * D > 0.0) <==> 5 * p * e > (p - e) * (p - e)
  {
    var pr, er := p as real, e as real;
    var S := er / pr;
    var D := 1.0 - S;
    assert D == (pr - er) / pr;
    var arg := 1.0 - D - 0.2 * D * D;
    assert arg == er / pr - 0.2 * ((pr - er) / pr) * ((pr - er) / pr);
    assert arg * (5.0 * pr * pr) == 5.0 * pr * er - (pr - er) * (pr - er);
    assert ((5 * p * e) as real) == 5.0 * pr * er;
    assert (((p - e) * (p - e)) as real) == (pr - er) * (pr - er);
    assert 5.0 * pr * pr > 0.0;
    if arg > 0.0 {
      assert arg * (5.0 * pr * pr) > 0.0;
    } else {
      assert arg * (5.0 * pr * pr) <= 0.0;
    }
  }

  /**
   * The entry for two aligned rows. Reading a missing position of ya after
   * a non-gap position of xa raises an IndexError inside the guarded block.
   */
  function KimuraSpec(xa: string, ya: string): Entry {
    if ReadsInRange(xa, ya) then EntryOf(Scored(xa, ya), Matches(xa, ya)) else Sentinel
  }

  /** A gap in xa skips the read of ya: "A-" against "A" scores one exact match, D = 0. */
  lemma GapSkipsRead()
    ensures KimuraSpec("A-", "A") == Distance(1, 1)
  {
    assert "A-"[..1] == "A";
    assert "A"[..0] == "";
  }

  /**
   * The counting loop over the aligned rows, followed by the guarded
   * transform: an index error, a division by zero or a logarithm domain
   * error leaves the sentinel.
   */
  method KimuraEntry(xa: string, ya: string) returns (d: Entry)
    ensures d == KimuraSpec(xa, ya)
    ensures d.Distance? ==> d.matches <= d.scored <= |xa|
  {
    var scored, matches := 0, 0;
    for i := 0 to |xa|
      invariant ReadsInRange(xa[..i], ya)
      invariant scored == Scored(xa[..i], ya) && matches == Matches(xa[..i], ya)
    {
      if xa[i] != Gap && i >= |ya| {
        // ya[i] raises an IndexError, which the source catches
        return Sentinel;
      }
      assert xa[..i + 1][..i] == xa[..i];
      if xa[i] != Gap && ya[i] != Gap {
        scored := scored + 1;
        if xa[i] == ya[i] {
          matches := matches + 1;
        }
      }
    }
    assert xa[..|xa|] == xa;
    MatchesBounded(xa, ya);
    if scored == 0 {
      // S = exact_matches / positions_scored divides by zero
      d := Sentinel;
    } else if 5 * scored * matches > (scored - matches) * (scored - matches) {
      d := Distance(scored, matches);
    } else {
      // the logarithm of a non-positive number
      d := Sentinel;
    }
  }

  /** A gap-free sequence against an identical row: every position scores and matches. */
  lemma {:induction false} IdenticalCounts(xa: string)
    requires forall i :: 0 <= i < |xa| ==> xa[i] != Gap
    ensures Scored(xa, xa) == |xa| && Matches(xa, xa) == |xa|
    decreases |xa|
  {
    if |xa| > 0 {
      IdenticalCountsPrefix(xa, |xa| - 1);
    }
  }

  lemma {:induction false} IdenticalCountsPrefix(xa: string, k: nat)
    requires k <= |xa| && forall i :: 0 <= i < |xa| ==> xa[i] != Gap
    ensures Scored(xa[..k], xa) == k && Matches(xa[..k], xa) == k
    decreases k
  {
    if k > 0 {
      IdenticalCountsPrefix(xa, k - 1);
      assert xa[..k][..k - 1] == xa[..k - 1];
    }
  }

  /** Two identical gap-free non-empty rows get a distance with D = 0. */
  lemma IdenticalRows(xa: string)
    requires |xa| > 0 && forall i :: 0 <= i < |xa| ==> xa[i] != Gap
    ensures KimuraSpec(xa, xa) == Distance(|xa|, |xa|)
  {
    IdenticalCounts(xa);
    var p := |xa|;
    assert (p - p) * (p - p) == 0;
    assert 5 * p * p > 0;
  }

  /** The entry for sequences a and b: their pairwise profile alignment, then the counts. */
  function PairEntry(t: Table, a: string, b: string): (r: Entry)
    requires Admissible([a], [b])
  {
    ProfileRowsShape(t, [a], [b]);
    var rows := ProfileRows(t, [a], [b]);
    KimuraSpec(rows[0], rows[1])
  }

  /**
   * The two aligned rows have equal length, so the guarded block never
   * fails on an index: the entry is decided by the counts alone, and they
   * are bounded by the aligned length, which is at most |a| + |b|.
   */
  lemma PairEntryCounts(t: Table, a: string, b: string)
    requires Admissible([a], [b])
    ensures var rows := ProfileRows(t, [a], [b]);
      && |rows| == 2 && |rows[0]| == |rows[1]|
      && PairEntry(t, a, b) == EntryOf(Scored(rows[0], rows[1]), Matches(rows[0], rows[1]))
      && Matches(rows[0], rows[1]) <= Scored(rows[0], rows[1]) <= |rows[0]|
      && |rows[0]| <= |a| + |b|
  {
    ProfileRowsShape(t, [a], [b]);
    var rows := ProfileRows(t, [a], [b]);
    MatchesBounded(rows[0], rows[1]);
  }

  /** `a` can be aligned with every sequence of L. */
  predicate RowAdmissible(L: seq<string>, a: string) {
    forall j :: 0 <= j < |L| ==> Admissible([a], [L[j]])
  }

  /** Every ordered pair of sequences, i == j included, can be aligned. */
  predicate AllPairsAdmissible(L: seq<string>) {
    forall i :: 0 <= i < |L| ==> RowAdmissible(L, L[i])
  }

  /** The entries of `a` against every sequence of L, in order. */
  function DistanceRow(t: Table, L: seq<string>, a: string): seq<Entry>
    requires RowAdmissible(L, a)
  {
    seq(|L|, j requires 0 <= j < |L| => PairEntry(t, a, L[j]))
  }

  /**
   * The |L| x |L| matrix of entries, row i holding the entries of L[i]
   * against every L[j]. An alignment that stops the program is not caught:
   * the whole computation fails then.
   */
  method KimuraDistance(t: Table, L: seq<string>) returns (r: Result<seq<seq<Entry>>, Fault>)
    ensures r.Success? <==> AllPairsAdmissible(L)
    ensures r.Success? ==> |r.value| == |L|
    ensures r.Success? ==> forall i :: 0 <= i < |L| ==> r.value[i] == DistanceRow(t, L, L[i])
  {
    var matrix: seq<seq<Entry>> := [];
    for i := 0 to |L|
      invariant |matrix| == i
      invariant forall i' :: 0 <= i' < i ==> RowAdmissible(L, L[i']) && matrix[i'] == DistanceRow(t, L, L[i'])
    {
      var row := KimuraRow(t, L, L[i]);
      if row.Failure? {
        return Failure(row.error);
      }
      MatrixExtend(t, L, i, matrix, row.value);
      matrix := matrix + [row.value];
    }
    return Success(matrix);
  }

  /** The row for L[i] extends the rows for L[..i]. */
  lemma MatrixExtend(t: Table, L: seq<string>, i: nat, matrix: seq<seq<Entry>>, v: seq<Entry>)
    requires i < |L| && |matrix| == i && RowAdmissible(L, L[i]) && v == DistanceRow(t, L, L[i])
    requires forall i' :: 0 <= i' < i ==> RowAdmissible(L, L[i']) && matrix[i'] == DistanceRow(t, L, L[i'])
    ensures forall i' :: 0 <= i' < i + 1 ==> RowAdmissible(L, L[i']) && (matrix + [v])[i'] == DistanceRow(t, L, L[i'])
  {
  }

  /** One row of the matrix: the entries of `a` against every sequence of L, in order. */
  method KimuraRow(t: Table, L: seq<string>, a: string) returns (r: Result<seq<Entry>, Fault>)
    ensures r.Success? <==> RowAdmissible(L, a)
    ensures r.Success? ==> r.value == DistanceRow(t, L, a)
  {
    var row: seq<Entry> := [];
    for j := 0 to |L|
      invariant |row| == j
      invariant forall j' :: 0 <= j' < j ==> Admissible([a], [L[j']]) && row[j'] == PairEntry(t, a, L[j'])
    {
      var d := PairDistance(t, a, L[j]);
      if d.Failure? {
        return Failure(d.error);
      }
      RowExtend(t, L, a, j, row, d.value);
      row := row + [d.value];
    }
    return Success(row);
  }

  /** The entry for L[j] extends the entries of `a` against L[..j]. */
  lemma RowExtend(t: Table, L: seq<string>, a: string, j: nat, row: seq<Entry>, v: Entry)
    requires j < |L| && |row| == j && Admissible([a], [L[j]]) && v == PairEntry(t, a, L[j])
    requires forall j' :: 0 <= j' < j ==> Admissible([a], [L[j']]) && row[j'] == PairEntry(t, a, L[j'])
    ensures forall j' :: 0 <= j' < j + 1 ==> Admissible([a], [L[j']]) && (row + [v])[j'] == PairEntry(t, a, L[j'])
  {
  }

  /** One entry: the profile alignment of the two sequences, then the guarded counting of its two rows. */
  method PairDistance(t: Table, a: string, b: string) returns (r: Result<Entry, Fault>)
    ensures r.Success? <==> Admissible([a], [b])
    ensures r.Success? ==> r.value == PairEntry(t, a, b)
  {
    var pair := ComputeProfileAlignment(t, Str(a), Str(b));
    if pair.Failure? {
      return Failure(pair.error);
    }
    ProfileRowsShape(t, [a], [b]);
    var d := KimuraEntry(pair.value[0], pair.value[1]);
    return Success(d);
  }
}
