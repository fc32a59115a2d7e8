/**
 * The two progressive drivers `computeMultipleAlignment`: the sequential one
 * of the multiple aligner, which folds the sequences into a running
 * alignment in input order, and the one of the modified aligner, which first
 * computes the Kimura matrix and then follows the merge list of a guide
 * tree. The clustering that produces the merge list is outside the model:
 * the merge list is a parameter.
 */
module Progressive {
  import opened Results
  import opened Scoring
  import opened ProfileSpec
  import opened ProfileFacts
  import opened ProfileAlign
  import opened Kimura

  /** All rows have the length of the first. */
  predicate Rectangular(A: seq<string>) {
    forall l :: 0 <= l < |A| ==> |A[l]| == |A[0]|
  }

  /** A profile aligner as a function value: the outcome of aligning two lists of rows. */
  type Aligner = (seq<string>, seq<string>) -> Option<seq<string>>

  /** `computeProfileAlignment` with the table t. */
  function ProfileAligner(t: Table): Aligner {
    (A: seq<string>, Y: seq<string>) => AlignSpec(t, A, Y)
  }

  /** Every result of the aligner has one row per input row, all of one length. */
  ghost predicate KeepsShape(align: Aligner) {
    forall A, Y :: align(A, Y).Some? ==> |align(A, Y).value| == |A| + |Y| && Rectangular(align(A, Y).value)
  }

  /** The profile aligner keeps the shape. */
  lemma ProfileAlignerShape(t: Table)
    ensures KeepsShape(ProfileAligner(t))
  {
    forall A, Y | ProfileAligner(t)(A, Y).Some?
      ensures |ProfileAligner(t)(A, Y).value| == |A| + |Y| && Rectangular(ProfileAligner(t)(A, Y).value)
    {
      ProfileRowsShape(t, A, Y);
    }
  }

  /** One call of `computeProfileAlignment`, seen through the aligner value: its outcome, None when it stops the program. */
  method AlignOperands(t: Table, X: Operand, Y: Operand) returns (r: Result<seq<string>, Fault>)
    ensures r.ToOption() == ProfileAligner(t)(Rows(X), Rows(Y))
  {
    r := ComputeProfileAlignment(t, X, Y);
  }

  // ---------------------------------------------------------------- the sequential driver

  /** The running alignment once X[0] .. X[I-1] are in; None once an alignment stops the program. */
  function FoldUpTo(align: Aligner, X: seq<string>, I: nat): Option<seq<string>>
    requires 2 <= I <= |X|
    decreases I
  {
    if I == 2 then align([X[0]], [X[1]])
    else
      match FoldUpTo(align, X, I - 1)
      case None => None
      case Some(A) => align(A, [X[I - 1]])
  }

  /** The outcome of the sequential driver: X itself for at most one sequence, the fold otherwise. */
  function SequentialSpec(t: Table, X: seq<string>): Option<seq<string>> {
    if |X| <= 1 then Some(X) else FoldUpTo(ProfileAligner(t), X, |X|)
  }

  /**
   * Aligns X[0] with X[1], then the running alignment with X[2], X[3], ...
   * in order. It returns normally exactly when every step does.
   */
  method ComputeMultipleAlignment(t: Table, X: seq<string>) returns (r: Result<seq<string>, Fault>)
    ensures r.Success? <==> SequentialSpec(t, X).Some?
    ensures r.Success? ==> r.value == SequentialSpec(t, X).value
  {
    if |X| <= 1 {
      return Success(X);
    }
    var first := AlignOperands(t, Str(X[0]), Str(X[1]));
    if first.Failure? {
      FoldUpToNone(ProfileAligner(t), X, 2);
      return Failure(first.error);
    }
    r := AlignRest(t, X, first.value);
  }

  /** The while loop: the running alignment A of X[0] .. X[1] is aligned with X[2], X[3], ... in order. */
  method AlignRest(t: Table, X: seq<string>, A: seq<string>) returns (r: Result<seq<string>, Fault>)
    requires |X| >= 2 && FoldUpTo(ProfileAligner(t), X, 2) == Some(A)
    ensures r.Success? <==> FoldUpTo(ProfileAligner(t), X, |X|).Some?
    ensures r.Success? ==> r.value == FoldUpTo(ProfileAligner(t), X, |X|).value
  {
    var B := A;
    for i := 2 to |X|
      invariant FoldUpTo(ProfileAligner(t), X, i) == Some(B)
    {
      var next := AlignNext(t, X, i, B);
      if next.Failure? {
        FoldUpToNone(ProfileAligner(t), X, i + 1);
        return Failure(next.error);
      }
      B := next.value;
    }
    return Success(B);
  }

  /** One pass of the while loop: the running alignment of X[0] .. X[i-1] aligned with X[i]. */
  method AlignNext(t: Table, X: seq<string>, i: nat, A: seq<string>) returns (r: Result<seq<string>, Fault>)
    requires 2 <= i < |X| && FoldUpTo(ProfileAligner(t), X, i) == Some(A)
    ensures r.ToOption() == FoldUpTo(ProfileAligner(t), X, i + 1)
  {
    r := AlignOperands(t, List(A), Str(X[i]));
    FoldUpToStep(ProfileAligner(t), X, i, A);
  }

  /** One more step of the fold aligns the running alignment with the next sequence. */
  lemma FoldUpToStep(align: Aligner, X: seq<string>, i: nat, A: seq<string>)
    requires 2 <= i < |X| && FoldUpTo(align, X, i) == Some(A)
    ensures FoldUpTo(align, X, i + 1) == align(A, [X[i]])
  {
  }

  /** Once the first I sequences stop the program, so does the whole fold. */
  lemma {:induction false} FoldUpToNone(align: Aligner, X: seq<string>, I: nat)
    requires 2 <= I <= |X| && FoldUpTo(align, X, I) == None
    ensures FoldUpTo(align, X, |X|) == None
    decreases |X| - I
  {
    if I < |X| {
      FoldUpToNone(align, X, I + 1);
    }
  }

  lemma {:induction false} FoldShape(align: Aligner, X: seq<string>, I: nat, A: seq<string>)
    requires KeepsShape(align)
    requires 2 <= I <= |X| && FoldUpTo(align, X, I) == Some(A)
    ensures |A| == I && Rectangular(A)
    decreases I
  {
    if I > 2 {
      var B := FoldUpTo(align, X, I - 1).value;
      FoldShape(align, X, I - 1, B);
    }
  }

  /** The sequential driver returns one row per input sequence, all of one length. */
  lemma SequentialShape(t: Table, X: seq<string>, A: seq<string>)
    requires |X| >= 2 && SequentialSpec(t, X) == Some(A)
    ensures |A| == |X| && Rectangular(A)
  {
    ProfileAlignerShape(t);
    FoldShape(ProfileAligner(t), X, |X|, A);
  }

  // ---------------------------------------------------------------- the guide-tree driver

  /** One row of the clustering's `children_`: the two cluster ids merged at this step. */
  datatype Merge = Merge(left: nat, right: nat)

  function Operands(m: Merge): seq<nat> {
    [m.left, m.right]
  }

  /** How the guide-tree driver ends without a result. */
  datatype DriverError =
    | UnboundResult   // an empty merge list leaves the result variable unassigned
    | Stopped(fault: Fault)

  /** Folds the first k operands of a later merge into A: an id below |X| adds that sequence, a larger id is skipped. */
  function FoldOperands(align: Aligner, X: seq<string>, A: seq<string>, ops: seq<nat>, k: nat): Option<seq<string>>
    requires k <= |ops|
    decreases k
  {
    if k == 0 then Some(A)
    else
      match FoldOperands(align, X, A, ops, k - 1)
      case None => None
      case Some(B) =>
        var id := ops[k - 1];
        if id < |X| then align(B, [X[id]]) else Some(B)
  }

  /** The running alignment after merges 0 .. I-1: the first merge aligns its two sequences, later ones fold in their operands. */
  function MergeFold(align: Aligner, X: seq<string>, merges: seq<Merge>, I: nat): Option<seq<string>>
    requires 1 <= I <= |merges|
    decreases I
  {
    if I == 1 then
      var m := merges[0];
      if m.left < |X| && m.right < |X| then align([X[m.left]], [X[m.right]]) else None
    else
      match MergeFold(align, X, merges, I - 1)
      case None => None
      case Some(A) => FoldOperands(align, X, A, Operands(merges[I - 1]), 2)
  }

  /** The outcome of the guide-tree driver for the merge list `merges`. */
  function GuideSpec(t: Table, X: seq<string>, merges: seq<Merge>): Option<seq<string>> {
    if |X| <= 1 then Some(X)
    else if !AllPairsAdmissible(X) || |merges| == 0 then None
    else MergeFold(ProfileAligner(t), X, merges, |merges|)
  }

  /** The operands of one later merge, in order. */
  method MergeStep(t: Table, X: seq<string>, A: seq<string>, m: Merge) returns (r: Result<seq<string>, Fault>)
    ensures r.Success? <==> FoldOperands(ProfileAligner(t), X, A, Operands(m), 2).Some?
    ensures r.Success? ==> r.value == FoldOperands(ProfileAligner(t), X, A, Operands(m), 2).value
  {
    ghost var align := ProfileAligner(t);
    var ops := Operands(m);
    var B := A;
    for q := 0 to |ops|
      invariant FoldOperands(align, X, A, ops, q) == Some(B)
    {
      var index := ops[q];
      if index < |X| {
        var next := AlignOperands(t, List(B), Str(X[index]));
        if next.Failure? {
          FoldOperandsNone(align, X, A, ops, q + 1);
          return Failure(next.error);
        }
        B := next.value;
      }
    }
    return Success(B);
  }

  /** Once the first q operands stop the program, so do all of them. */
  lemma {:induction false} FoldOperandsNone(align: Aligner, X: seq<string>, A: seq<string>, ops: seq<nat>, q: nat)
    requires q <= |ops| && FoldOperands(align, X, A, ops, q) == None
    ensures FoldOperands(align, X, A, ops, |ops|) == None
    decreases |ops| - q
  {
    if q < |ops| {
      FoldOperandsNone(align, X, A, ops, q + 1);
    }
  }

  /**
   * The guide-tree driver: X itself for at most one sequence; otherwise the
   * Kimura matrix is computed first (and may stop the program), then the
   * merges are followed in order.
   */
  method GuideTreeAlignment(t: Table, X: seq<string>, merges: seq<Merge>) returns (r: Result<seq<string>, DriverError>)
    ensures r.Success? <==> GuideSpec(t, X, merges).Some?
    ensures r.Success? ==> r.value == GuideSpec(t, X, merges).value
    ensures r == Failure(UnboundResult) <==> |X| > 1 && AllPairsAdmissible(X) && |merges| == 0
  {
    if |X| <= 1 {
      return Success(X);
    }
    var distances := KimuraDistance(t, X);
    if distances.Failure? {
      return Failure(Stopped(distances.error));
    }
    // the clustering of `distances` is not modelled: `merges` stands for its children_
    r := FollowMerges(t, X, merges);
  }

  /**
   * The merge loop. The first merge aligns its two sequences; each later one
   * aligns the running alignment with each of its operands that is a
   * sequence index and skips the ids of earlier clusters.
   */
  method FollowMerges(t: Table, X: seq<string>, merges: seq<Merge>) returns (r: Result<seq<string>, DriverError>)
    ensures |merges| == 0 ==> r == Failure(UnboundResult)
    ensures |merges| > 0 ==> r.Failure? ==> r.error.Stopped?
    ensures |merges| > 0 ==> (r.Success? <==> MergeFold(ProfileAligner(t), X, merges, |merges|).Some?)
    ensures |merges| > 0 && r.Success? ==> r.value == MergeFold(ProfileAligner(t), X, merges, |merges|).value
  {
    ghost var align := ProfileAligner(t);
    var A: seq<string> := [];
    for i := 0 to |merges|
      invariant i > 0 ==> MergeFold(align, X, merges, i) == Some(A)
    {
      var m := merges[i];
      if i == 0 {
        if m.left >= |X| || m.right >= |X| {
          MergeFoldNone(align, X, merges, 1);
          return Failure(Stopped(IndexError));
        }
        var first := AlignOperands(t, Str(X[m.left]), Str(X[m.right]));
        if first.Failure? {
          MergeFoldNone(align, X, merges, 1);
          return Failure(Stopped(first.error));
        }
        A := first.value;
      } else {
        var next := MergeStep(t, X, A, m);
        if next.Failure? {
          MergeFoldNone(align, X, merges, i + 1);
          return Failure(Stopped(next.error));
        }
        A := next.value;
      }
    }
    if |merges| == 0 {
      return Failure(UnboundResult);
    }
    return Success(A);
  }

  /** Once the first I merges stop the program, so does the whole merge list. */
  lemma {:induction false} MergeFoldNone(align: Aligner, X: seq<string>, merges: seq<Merge>, I: nat)
    requires 1 <= I <= |merges| && MergeFold(align, X, merges, I) == None
    ensures MergeFold(align, X, merges, |merges|) == None
    decreases |merges| - I
  {
    if I < |merges| {
      MergeFoldNone(align, X, merges, I + 1);
    }
  }

  // ---------------------------------------------------------------- the row count of the guide-tree driver

  /** How many of the first k ids in `ops` are sequence indices, that is below n. */
  function InRange(n: nat, ops: seq<nat>, k: nat): (r: nat)
    requires k <= |ops|
    ensures r <= k
    decreases k
  {
    if k == 0 then 0 else InRange(n, ops, k - 1) + (if ops[k - 1] < n then 1 else 0)
  }

  /** The operands below n of the later merges 1 .. I-1. */
  function MergedRows(n: nat, merges: seq<Merge>, I: nat): nat
    requires I <= |merges|
    decreases I
  {
    if I <= 1 then 0 else MergedRows(n, merges, I - 1) + InRange(n, Operands(merges[I - 1]), 2)
  }

  /** Folding in the operands of one merge adds one row per operand below |X|, and keeps the rows of one length. */
  lemma {:induction false} FoldOperandsShape(align: Aligner, X: seq<string>, A: seq<string>, ops: seq<nat>, k: nat, B: seq<string>)
    requires KeepsShape(align)
    requires k <= |ops| && FoldOperands(align, X, A, ops, k) == Some(B) && Rectangular(A)
    ensures |B| == |A| + InRange(|X|, ops, k) && Rectangular(B)
    decreases k
  {
    if k > 0 {
      var C := FoldOperands(align, X, A, ops, k - 1).value;
      FoldOperandsShape(align, X, A, ops, k - 1, C);
    }
  }

  lemma {:induction false} MergeFoldShape(align: Aligner, X: seq<string>, merges: seq<Merge>, I: nat, A: seq<string>)
    requires KeepsShape(align)
    requires 1 <= I <= |merges| && MergeFold(align, X, merges, I) == Some(A)
    ensures |A| == 2 + MergedRows(|X|, merges, I) && Rectangular(A)
    decreases I
  {
    if I > 1 {
      var B := MergeFold(align, X, merges, I - 1).value;
      MergeFoldShape(align, X, merges, I - 1, B);
      FoldOperandsShape(align, X, B, Operands(merges[I - 1]), 2, A);
    }
  }

  /**
   * The guide-tree driver returns rows of one length: two for the first
   * merge, plus one for every operand of a later merge that is a sequence
   * index.
   */
  lemma GuideShape(t: Table, X: seq<string>, merges: seq<Merge>, A: seq<string>)
    requires |X| >= 2 && GuideSpec(t, X, merges) == Some(A)
    ensures |merges| > 0 && |A| == 2 + MergedRows(|X|, merges, |merges|) && Rectangular(A)
  {
    ProfileAlignerShape(t);
    MergeFoldShape(ProfileAligner(t), X, merges, |merges|, A);
  }
}
