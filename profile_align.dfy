/**
 * The imperative profile-to-profile aligner `computeProfileAlignment`: the
 * column-score loops, the fill of the score matrix F and the bit-set pointer
 * matrix P, the traceback into the temporary rows Xtemp and Ytemp, and the
 * final copy into the result rows. Each step is proved against ProfileSpec.
 */
module ProfileAlign {
  import opened Results
  import opened Scoring
  import opened ProfileSpec
  import opened ProfileFacts

  /**
   * The score of column c of `rows` against a gap column of a profile of `w`
   * rows. Fails with an index error when some row has no column c. The call
   * s(x, '-') never exits, so SubstScore stands for it.
   */
  method GapScore(t: Table, rows: seq<string>, c: nat, w: int) returns (r: Result<int, Fault>)
    ensures r.Success? <==> Covers(rows, c + 1)
    ensures r.Success? ==> r.value == GapColumn(t, rows, c, w)
    ensures r.Failure? ==> r.error == IndexError
  {
    var score := 0;
    var k := 0;
    while k < |rows|
      invariant 0 <= k <= |rows|
      invariant forall k' :: 0 <= k' < k ==> c < |rows[k']|
      invariant score == GapSum(t, rows, c, w, k)
    {
      if c >= |rows[k]| {
        return Failure(IndexError);
      }
      score := score + SubstScore(t, rows[k][c], Gap) * w;
      k := k + 1;
    }
    return Success(score);
  }

  /**
   * The score of column ci of X against column cj of Y: s(x, y) summed over
   * every row of X and every row of Y. It runs after the gap scores of both
   * columns, so the columns exist; it stops at the first unscorable pair.
   */
  method CrossScore(t: Table, X: seq<string>, ci: nat, Y: seq<string>, cj: nat) returns (r: Result<int, Fault>)
    requires Covers(X, ci + 1) && Covers(Y, cj + 1)
    ensures r.Success? <==> CrossOk(X, ci, Y, cj)
    ensures r.Success? ==> r.value == CrossColumn(t, X, ci, Y, cj)
    ensures r.Failure? ==> r.error.IllegalSymbol?
  {
    var score := 0;
    var k := 0;
    while k < |X|
      invariant 0 <= k <= |X|
      invariant forall k', l :: 0 <= k' < k && 0 <= l < |Y| ==> Scorable(X[k'][ci], Y[l][cj])
      invariant score == CrossSum(t, X, ci, Y, cj, k)
    {
      var l := 0;
      while l < |Y|
        invariant 0 <= l <= |Y|
        invariant forall l' :: 0 <= l' < l ==> Scorable(X[k][ci], Y[l'][cj])
        invariant score == CrossSum(t, X, ci, Y, cj, k) + PairRow(t, X[k][ci], Y, cj, l)
      {
        var x := X[k][ci];
        var y := Y[l][cj];
        var sc := Subst(t, x, y);
        if sc.Failure? {
          return Failure(IllegalSymbol(sc.error));
        }
        score := score + sc.value;
        l := l + 1;
      }
      k := k + 1;
    }
    return Success(score);
  }

  /**
   * The three column scores of entry (i, j): column i-1 of X against gaps
   * (when i > 0), column j-1 of Y against gaps (when j > 0) and the two
   * columns against each other (when both are). Unused scores stay 0.
   */
  method CellScores(t: Table, X: seq<string>, Y: seq<string>, i: nat, j: nat) returns (r: Result<(int, int, int), Fault>)
    ensures r.Success? <==> CellOk(X, Y, i, j)
    ensures r.Success? ==>
      && r.value.0 == (if i > 0 then GapColumn(t, X, i - 1, |Y|) else 0)
      && r.value.1 == (if j > 0 then GapColumn(t, Y, j - 1, |X|) else 0)
      && r.value.2 == (if i > 0 && j > 0 then CrossColumn(t, X, i - 1, Y, j - 1) else 0)
  {
    var scoreXtogap, scoreYtogap, scoreXtoY := 0, 0, 0;
    if i > 0 {
      var g := GapScore(t, X, i - 1, |Y|);
      if g.Failure? {
        return Failure(g.error);
      }
      scoreXtogap := g.value;
    }
    if j > 0 {
      var g := GapScore(t, Y, j - 1, |X|);
      if g.Failure? {
        return Failure(g.error);
      }
      scoreYtogap := g.value;
    }
    if i > 0 && j > 0 {
      var c := CrossScore(t, X, i - 1, Y, j - 1);
      if c.Failure? {
        return Failure(c.error);
      }
      scoreXtoY := c.value;
    }
    return Success((scoreXtogap, scoreYtogap, scoreXtoY));
  }

  /** Entry (a, b) of F and of P holds the specified score and pointer bits. */
  ghost predicate Filled(t: Table, X: seq<string>, Y: seq<string>, F: array2<int>, P: array2<int>, a: nat, b: nat)
    reads F, P
    requires a < F.Length0 && b < F.Length1 && a < P.Length0 && b < P.Length1
  {
    F[a, b] == ProfCell(t, X, Y, a, b).0 && PointerAt(t, X, Y, P, a, b)
  }

  /** Entry (a, b) of P holds the specified pointer bits. */
  ghost predicate PointerAt(t: Table, X: seq<string>, Y: seq<string>, P: array2<int>, a: nat, b: nat)
    reads P
    requires a < P.Length0 && b < P.Length1
  {
    P[a, b] == ProfCell(t, X, Y, a, b).1
  }

  /**
   * One entry of the fill: the column scores of (i, j), then F[i][j] as the
   * running maximum of its candidates and P[i][j] as the bits of those that
   * reach it (4 for the diagonal, 1 for up, 2 for left).
   */
  method FillEntry(t: Table, X: seq<string>, Y: seq<string>, F: array2<int>, P: array2<int>, i: nat, j: nat)
    returns (status: Result<(), Fault>)
    requires F != P
    requires i < F.Length0 && j < F.Length1 && F.Length0 == P.Length0 && F.Length1 == P.Length1
    requires i == 0 && j == 0 ==> P[0, 0] == 0
    requires i > 0 ==> Filled(t, X, Y, F, P, i - 1, j)
    requires j > 0 ==> Filled(t, X, Y, F, P, i, j - 1)
    requires i > 0 && j > 0 ==> Filled(t, X, Y, F, P, i - 1, j - 1)
    modifies F, P
    ensures status.Success? <==> CellOk(X, Y, i, j)
    ensures status.Success? ==> Filled(t, X, Y, F, P, i, j)
    ensures forall a, b :: 0 <= a < F.Length0 && 0 <= b < F.Length1 && (a != i || b != j) ==>
      F[a, b] == old(F[a, b]) && P[a, b] == old(P[a, b])
    ensures forall a, b :: 0 <= a < F.Length0 && 0 <= b < F.Length1 && (a != i || b != j) ==>
      old(Filled(t, X, Y, F, P, a, b)) ==> Filled(t, X, Y, F, P, a, b)
  {
    var sc := CellScores(t, X, Y, i, j);
    if sc.Failure? {
      return Failure(sc.error);
    }
    var (scoreXtogap, scoreYtogap, scoreXtoY) := sc.value;
    if i == 0 && j == 0 {
      F[i, j] := 0;
    } else if i == 0 {
      F[i, j] := F[i, j - 1] + scoreYtogap;
      P[i, j] := 2;
    } else if j == 0 {
      F[i, j] := F[i - 1, j] + scoreXtogap;
      P[i, j] := 1;
    } else {
      var diag, up, left := F[i - 1, j - 1] + scoreXtoY, F[i - 1, j] + scoreXtogap, F[i, j - 1] + scoreYtogap;
      var v := diag;
      if up > v {
        v := up;
      }
      if left > v {
        v := left;
      }
      var bits := 0;
      if v == diag {
        bits := bits + 4;
      }
      if v == up {
        bits := bits + 1;
      }
      if v == left {
        bits := bits + 2;
      }
      assert v == Choose(diag, up, left) && bits == Bits(v, diag, up, left);
      F[i, j] := v;
      P[i, j] := bits;
    }
    return Success(());
  }

  /**
   * Fills F and P row by row. It stops at the first entry whose column
   * scores fail; otherwise every entry of F and P is the specified one.
   */
  method Fill(t: Table, X: seq<string>, Y: seq<string>, n: nat, m: nat)
    returns (F: array2<int>, P: array2<int>, status: Result<(), Fault>)
    ensures fresh(F) && fresh(P)
    ensures F.Length0 == n + 1 && F.Length1 == m + 1 && P.Length0 == n + 1 && P.Length1 == m + 1
    ensures status.Success? <==> Fillable(X, Y, n, m)
    ensures status.Success? ==> forall i, j :: 0 <= i <= n && 0 <= j <= m ==> Filled(t, X, Y, F, P, i, j)
  {
    F := new int[n + 1, m + 1]((_, _) => 0);
    P := new int[n + 1, m + 1]((_, _) => 0);
    FillableCells(X, Y, n, m);
    var i := 0;
    while i <= n
      invariant 0 <= i <= n + 1
      invariant forall a, b :: 0 <= a < i && 0 <= b <= m ==> CellOk(X, Y, a, b)
      invariant forall a, b :: 0 <= a < i && 0 <= b <= m ==> Filled(t, X, Y, F, P, a, b)
      invariant i == 0 ==> P[0, 0] == 0
    {
      status := FillRow(t, X, Y, F, P, i);
      if status.Failure? {
        return;
      }
      i := i + 1;
    }
    status := Success(());
  }

  /** The inner loop of the fill: entries (i, 0) .. (i, m) in order, stopping at the first that fails. */
  method FillRow(t: Table, X: seq<string>, Y: seq<string>, F: array2<int>, P: array2<int>, i: nat)
    returns (status: Result<(), Fault>)
    requires F != P && i < F.Length0 && F.Length0 == P.Length0 && F.Length1 == P.Length1 && F.Length1 > 0
    requires forall a, b :: 0 <= a < i && 0 <= b < F.Length1 ==> Filled(t, X, Y, F, P, a, b)
    requires i == 0 ==> P[0, 0] == 0
    modifies F, P
    ensures status.Success? <==> forall b :: 0 <= b < F.Length1 ==> CellOk(X, Y, i, b)
    ensures status.Success? ==> forall a, b :: 0 <= a <= i && 0 <= b < F.Length1 ==> Filled(t, X, Y, F, P, a, b)
  {
    var j := 0;
    while j < F.Length1
      invariant 0 <= j <= F.Length1
      invariant forall b :: 0 <= b < j ==> CellOk(X, Y, i, b)
      invariant forall a, b :: 0 <= a < i && 0 <= b < F.Length1 ==> Filled(t, X, Y, F, P, a, b)
      invariant forall b :: 0 <= b < j ==> Filled(t, X, Y, F, P, i, b)
      invariant i == 0 && j == 0 ==> P[0, 0] == 0
    {
      status := FillEntry(t, X, Y, F, P, i, j);
      if status.Failure? {
        return;
      }
      j := j + 1;
    }
    status := Success(());
  }

  /**
   * The columns the traceback writes into one row for the moves `moves`,
   * when `start` characters of the row are consumed before them.
   */
  ghost function RenderFrom(row: string, start: nat, moves: seq<Move>, side: Side): (r: string)
    ensures |r| == |moves|
    decreases |moves|
  {
    if moves == [] then []
    else
      var used := if Consumes(moves[0], side) then 1 else 0;
      [if Consumes(moves[0], side) then At(row, start) else Gap] + RenderFrom(row, start + used, moves[1..], side)
  }

  /** Rendering one more move in front: its column, then the columns of the rest. */
  lemma RenderFromStep(rows: seq<string>, start: nat, mv: Move, done: seq<Move>, side: Side)
    ensures forall l :: 0 <= l < |rows| ==>
      RenderFrom(rows[l], start, [mv] + done, side)[0] == if Consumes(mv, side) then At(rows[l], start) else Gap
    ensures forall l, p :: 0 <= l < |rows| && 1 <= p <= |done| ==>
      RenderFrom(rows[l], start, [mv] + done, side)[p] == RenderFrom(rows[l], start + (if Consumes(mv, side) then 1 else 0), done, side)[p - 1]
  {
    assert ([mv] + done)[1..] == done;
  }

  /** Counting a move put in front of a path. */
  lemma {:induction false} CountCons(mv: Move, p: seq<Move>, side: Side)
    ensures Count([mv] + p, side) == (if Consumes(mv, side) then 1 else 0) + Count(p, side)
    decreases |p|
  {
    if p != [] {
      var init := p[..|p| - 1];
      assert ([mv] + p)[..|p|] == [mv] + init;
      CountCons(mv, init, side);
    }
  }

  /** Column q of a rendering from `start`: the character after the `start` plus the consumed ones before q, or a gap. */
  lemma {:induction false} RenderFromAt(row: string, start: nat, moves: seq<Move>, side: Side, q: nat)
    requires q < |moves|
    ensures RenderFrom(row, start, moves, side)[q] ==
      if Consumes(moves[q], side) then At(row, start + Count(moves[..q], side)) else Gap
    decreases q
  {
    if q > 0 {
      var used := if Consumes(moves[0], side) then 1 else 0;
      var rest := moves[1..];
      RenderFromAt(row, start + used, rest, side, q - 1);
      RenderFromTail(row, start, moves, side, q);
      CountPrefixCons(moves, q, side);
    }
  }

  /** Column q > 0 of a rendering is column q - 1 of the rendering of the moves after the first. */
  lemma RenderFromTail(row: string, start: nat, moves: seq<Move>, side: Side, q: nat)
    requires 0 < q < |moves|
    ensures RenderFrom(row, start, moves, side)[q] ==
      RenderFrom(row, start + (if Consumes(moves[0], side) then 1 else 0), moves[1..], side)[q - 1]
  {
  }

  /** The consumed moves among the first q: the first move's, then those among the next q - 1. */
  lemma CountPrefixCons(moves: seq<Move>, q: nat, side: Side)
    requires 0 < q <= |moves|
    ensures Count(moves[..q], side) == (if Consumes(moves[0], side) then 1 else 0) + Count(moves[1..][..q - 1], side)
  {
    assert moves[..q] == [moves[0]] + moves[1..][..q - 1];
    CountCons(moves[0], moves[1..][..q - 1], side);
  }

  lemma Reassociate(full: seq<Move>, cur: seq<Move>, before: seq<Move>, mv: Move, done: seq<Move>)
    requires full == cur + done && cur == before + [mv]
    ensures full == before + ([mv] + done)
  {
  }

  lemma NothingBefore(full: seq<Move>, cur: seq<Move>, done: seq<Move>)
    requires full == cur + done && cur == []
    ensures done == full
  {
  }

  /** Columns from.. from+|done|-1 of `a` hold the rows rendered along `done`, starting at character `start`. */
  ghost predicate Written(a: array2<char>, rows: seq<string>, start: nat, done: seq<Move>, side: Side, from: int)
    reads a
  {
    && a.Length0 == |rows| && 0 <= from && from + |done| <= a.Length1
    && forall l, p :: 0 <= l < |rows| && 0 <= p < |done| ==> a[l, from + p] == RenderFrom(rows[l], start, done, side)[p]
  }

  /**
   * One column of the traceback for one profile: character `start` of every
   * row when the move consumes this side, a gap in every row otherwise.
   */
  method WriteColumn(a: array2<char>, rows: seq<string>, side: Side, mv: Move, start: nat, k: nat, ghost done: seq<Move>)
    requires Consumes(mv, side) ==> Covers(rows, start + 1)
    requires k < a.Length1
    requires Written(a, rows, start + (if Consumes(mv, side) then 1 else 0), done, side, k + 1)
    modifies a
    ensures Written(a, rows, start, [mv] + done, side, k)
    ensures forall l, q :: 0 <= l < a.Length0 && 0 <= q < a.Length1 && q != k ==> a[l, q] == old(a[l, q])
  {
    if Consumes(mv, side) {
      forall l | 0 <= l < |rows| {
        a[l, k] := rows[l][start];
      }
    } else {
      forall l | 0 <= l < |rows| {
        a[l, k] := Gap;
      }
    }
    RenderFromStep(rows, start, mv, done, side);
  }

  /**
   * One step of the traceback at (i, j) with pointer bits `bits`: bit 2 writes
   * a gap column into Xtemp, bit 1 a gap column into Ytemp, otherwise both
   * consume a character; (i2, j2) is the cell the step moves back to.
   */
  method TraceStep(X: seq<string>, Y: seq<string>, n: nat, m: nat, ghost ptr: seq<seq<int>>,
                   Xtemp: array2<char>, Ytemp: array2<char>, bits: int, i: nat, j: nat, k: nat, ghost done: seq<Move>)
    returns (i2: nat, j2: nat, ghost mv: Move)
    requires Covers(X, n) && Covers(Y, m) && Traceable(ptr, n, m)
    requires i <= n && j <= m && i + j > 0 && bits == ptr[i][j]
    requires Xtemp != Ytemp && k < Xtemp.Length1 && k < Ytemp.Length1
    requires Written(Xtemp, X, i, done, SideX, k + 1)
    requires Written(Ytemp, Y, j, done, SideY, k + 1)
    modifies Xtemp, Ytemp
    ensures mv == Choice(ptr[i][j])
    ensures i2 <= i && j2 <= j && i2 + j2 < i + j
    ensures TracePath(ptr, n, m, i, j) == TracePath(ptr, n, m, i2, j2) + [mv]
    ensures Written(Xtemp, X, i2, [mv] + done, SideX, k)
    ensures Written(Ytemp, Y, j2, [mv] + done, SideY, k)
  {
    var move := Choice(bits);
    mv := move;
    PathUnfold(ptr, n, m, i, j);
    if bits % 4 >= 2 {
      i2, j2 := i, j - 1;
    } else if bits % 2 > 0 {
      i2, j2 := i - 1, j;
    } else {
      // bit 4: the source tests it last; a traceable pointer has it set here
      i2, j2 := i - 1, j - 1;
    }
    // the branch's column: X[l][i-1] where the move consumes X, a gap otherwise; likewise for Y
    WriteColumn(Xtemp, X, SideX, move, i2, k, done);
    WriteColumn(Ytemp, Y, SideY, move, j2, k, done);
  }

  /**
   * The traceback: from (n, m) back to (0, 0), writing one column of Xtemp
   * and Ytemp per move at a decreasing position k, preferring bit 2, then
   * bit 1, then bit 4. The written columns k.. n+m-1 render the path.
   */
  method TraceColumns(X: seq<string>, Y: seq<string>, n: nat, m: nat, P: array2<int>, ghost ptr: seq<seq<int>>)
    returns (Xtemp: array2<char>, Ytemp: array2<char>, k: int)
    requires Covers(X, n) && Covers(Y, m) && Traceable(ptr, n, m)
    requires P.Length0 == n + 1 && P.Length1 == m + 1
    requires forall a, b :: 0 <= a <= n && 0 <= b <= m ==> P[a, b] == ptr[a][b]
    ensures fresh(Xtemp) && fresh(Ytemp)
    ensures Xtemp.Length1 == n + m && Ytemp.Length1 == n + m
    ensures k == n + m - |TracePath(ptr, n, m, n, m)|
    ensures Written(Xtemp, X, 0, TracePath(ptr, n, m, n, m), SideX, k)
    ensures Written(Ytemp, Y, 0, TracePath(ptr, n, m, n, m), SideY, k)
  {
    Xtemp := new char[|X|, n + m]((_, _) => ' ');
    Ytemp := new char[|Y|, n + m]((_, _) => ' ');
    k := TraceInto(X, Y, n, m, P, ptr, Xtemp, Ytemp);
  }

  /** The traceback loop of `TraceColumns`, writing into the two buffers it allocated. */
  method TraceInto(X: seq<string>, Y: seq<string>, n: nat, m: nat, P: array2<int>, ghost ptr: seq<seq<int>>,
                   Xtemp: array2<char>, Ytemp: array2<char>)
    returns (k: int)
    requires Covers(X, n) && Covers(Y, m) && Traceable(ptr, n, m)
    requires P.Length0 == n + 1 && P.Length1 == m + 1
    requires forall a, b :: 0 <= a <= n && 0 <= b <= m ==> P[a, b] == ptr[a][b]
    requires Xtemp != Ytemp && Xtemp.Length0 == |X| && Ytemp.Length0 == |Y|
    requires Xtemp.Length1 == n + m && Ytemp.Length1 == n + m
    modifies Xtemp, Ytemp
    ensures k == n + m - |TracePath(ptr, n, m, n, m)|
    ensures Written(Xtemp, X, 0, TracePath(ptr, n, m, n, m), SideX, k)
    ensures Written(Ytemp, Y, 0, TracePath(ptr, n, m, n, m), SideY, k)
  {
    ghost var full := TracePath(ptr, n, m, n, m);
    assert |full| <= n + m by { TracePathCounts(ptr, n, m, n, m); }
    k := n + m - 1;
    var i, j := n, m;
    ghost var cur, done := full, [];
    while i + j > 0
      invariant 0 <= i <= n && 0 <= j <= m
      invariant cur == TracePath(ptr, n, m, i, j)
      invariant full == cur + done
      invariant k + 1 + |done| == n + m && i + j <= k + 1
      invariant Written(Xtemp, X, i, done, SideX, k + 1)
      invariant Written(Ytemp, Y, j, done, SideY, k + 1)
      decreases i + j
    {
      var bits := P[i, j];
      var i2, j2, mv := TraceStep(X, Y, n, m, ptr, Xtemp, Ytemp, bits, i, j, k, done);
      ghost var before := TracePath(ptr, n, m, i2, j2);
      Reassociate(full, cur, before, mv, done);
      cur, done := before, [mv] + done;
      i, j, k := i2, j2, k - 1;
    }
    NothingBefore(full, cur, done);
    k := k + 1;
  }

  /** Copies columns k.. n+m-1 of Xtemp and Ytemp into Afinal and joins each row into a string. */
  method Assemble(Xtemp: array2<char>, Ytemp: array2<char>, k: nat) returns (A: seq<string>)
    requires Xtemp.Length1 == Ytemp.Length1 && k <= Xtemp.Length1
    ensures |A| == Xtemp.Length0 + Ytemp.Length0
    ensures forall l :: 0 <= l < |A| ==> |A[l]| == Xtemp.Length1 - k
    ensures forall l, q :: 0 <= l < Xtemp.Length0 && 0 <= q < Xtemp.Length1 - k ==> A[l][q] == Xtemp[l, k + q]
    ensures forall l, q :: Xtemp.Length0 <= l < |A| && 0 <= q < Xtemp.Length1 - k ==> A[l][q] == Ytemp[l - Xtemp.Length0, k + q]
  {
    var Afinal := new char[Xtemp.Length0 + Ytemp.Length0, Xtemp.Length1 - k]((_, _) => ' ');
    CopyColumns(Xtemp, Ytemp, k, Afinal);
    A := JoinRows(Afinal);
  }

  /** Afinal[l][q - k] = Xtemp[l][q] for the X rows and Ytemp's rows below them, for every q from k on. */
  method CopyColumns(Xtemp: array2<char>, Ytemp: array2<char>, k: nat, Afinal: array2<char>)
    requires Xtemp.Length1 == Ytemp.Length1 && k <= Xtemp.Length1
    requires Afinal.Length0 == Xtemp.Length0 + Ytemp.Length0 && Afinal.Length1 == Xtemp.Length1 - k
    requires Afinal != Xtemp && Afinal != Ytemp
    modifies Afinal
    ensures forall l, c :: 0 <= l < Xtemp.Length0 && 0 <= c < Afinal.Length1 ==> Afinal[l, c] == Xtemp[l, k + c]
    ensures forall l, c :: Xtemp.Length0 <= l < Afinal.Length0 && 0 <= c < Afinal.Length1 ==> Afinal[l, c] == Ytemp[l - Xtemp.Length0, k + c]
  {
    var nX, nY, width := Xtemp.Length0, Ytemp.Length0, Xtemp.Length1;
    var q := k;
    while q < width
      invariant k <= q <= width
      invariant forall l, c :: 0 <= l < nX && 0 <= c < q - k ==> Afinal[l, c] == Xtemp[l, k + c]
      invariant forall l, c :: nX <= l < nX + nY && 0 <= c < q - k ==> Afinal[l, c] == Ytemp[l - nX, k + c]
    {
      forall l | 0 <= l < nX {
        Afinal[l, q - k] := Xtemp[l, q];
      }
      forall l | 0 <= l < nY {
        Afinal[l + nX, q - k] := Ytemp[l, q];
      }
      q := q + 1;
    }
  }

  /** The rows of a character matrix, each joined into a string. */
  method JoinRows(a: array2<char>) returns (A: seq<string>)
    ensures |A| == a.Length0
    ensures forall l :: 0 <= l < |A| ==> |A[l]| == a.Length1
    ensures forall l, c :: 0 <= l < |A| && 0 <= c < a.Length1 ==> A[l][c] == a[l, c]
  {
    A := [];
    var l := 0;
    while l < a.Length0
      invariant 0 <= l <= a.Length0 && |A| == l
      invariant forall l' :: 0 <= l' < l ==> |A[l']| == a.Length1
      invariant forall l', c :: 0 <= l' < l && 0 <= c < a.Length1 ==> A[l'][c] == a[l', c]
    {
      var row := Join(a, l);
      A := A + [row];
      l := l + 1;
    }
  }

  /** ''.join of row l of a character matrix. */
  method Join(a: array2<char>, l: nat) returns (s: string)
    requires l < a.Length0
    ensures |s| == a.Length1
    ensures forall c :: 0 <= c < a.Length1 ==> s[c] == a[l, c]
  {
    s := [];
    var c := 0;
    while c < a.Length1
      invariant 0 <= c <= a.Length1 && |s| == c
      invariant forall c' :: 0 <= c' < c ==> s[c'] == a[l, c']
    {
      s := s + [a[l, c]];
      c := c + 1;
    }
  }

  /**
   * `computeProfileAlignment` on two lists of rows. It returns normally
   * exactly when the inputs are admissible, and then returns the specified
   * rows; otherwise it stops with an index error or an illegal symbol.
   */
  method AlignProfiles(t: Table, X: seq<string>, Y: seq<string>) returns (r: Result<seq<string>, Fault>)
    ensures r.Success? <==> Admissible(X, Y)
    ensures r.Success? ==> r.value == ProfileRows(t, X, Y)
  {
    if |X| == 0 || |Y| == 0 {
      return Failure(IndexError);
    }
    var n, m := |X[0]| - 1, |Y[0]| - 1;
    if n < 0 || m < 0 {
      // The fill loop does nothing; the traceback reads a missing entry unless n + m <= 0.
      if n + m > 0 {
        return Failure(IndexError);
      }
      return Success(seq(|X| + |Y|, _ => []));
    }
    r := AlignFilled(t, X, Y, n, m);
  }

  /** The aligner once both widths n and m are known to be at least 0: fill, then traceback and assembly. */
  method AlignFilled(t: Table, X: seq<string>, Y: seq<string>, n: nat, m: nat) returns (r: Result<seq<string>, Fault>)
    ensures r.Success? <==> Fillable(X, Y, n, m)
    ensures r.Success? ==> r.value == Rendered(t, X, Y, n, m)
  {
    var F, P, status := Fill(t, X, Y, n, m);
    if status.Failure? {
      return Failure(status.error);
    }
    ghost var ptr := Pointers(t, X, Y, n, m);
    PointersTraceable(t, X, Y, n, m);
    forall a, b | 0 <= a <= n && 0 <= b <= m
      ensures P[a, b] == ptr[a][b]
    {
      assert Filled(t, X, Y, F, P, a, b);
    }
    var A := Traceback(X, Y, n, m, P, ptr);
    return Success(A);
  }

  /** The traceback and the assembly of the final rows: the rows rendered along the traced path. */
  method Traceback(X: seq<string>, Y: seq<string>, n: nat, m: nat, P: array2<int>, ghost ptr: seq<seq<int>>)
    returns (A: seq<string>)
    requires Covers(X, n) && Covers(Y, m) && Traceable(ptr, n, m)
    requires P.Length0 == n + 1 && P.Length1 == m + 1
    requires forall a, b :: 0 <= a <= n && 0 <= b <= m ==> P[a, b] == ptr[a][b]
    ensures A == RenderRows(X, TracePath(ptr, n, m, n, m), SideX) + RenderRows(Y, TracePath(ptr, n, m, n, m), SideY)
  {
    var Xtemp, Ytemp, k := TraceColumns(X, Y, n, m, P, ptr);
    A := Assemble(Xtemp, Ytemp, k);
    RenderedRows(X, Y, TracePath(ptr, n, m, n, m), A);
  }

  /** The assembled rows, position by position, are the rows rendered along `path`. */
  lemma RenderedRows(X: seq<string>, Y: seq<string>, path: seq<Move>, A: seq<string>)
    requires |A| == |X| + |Y|
    requires forall l :: 0 <= l < |A| ==> |A[l]| == |path|
    requires forall l, q :: 0 <= l < |X| && 0 <= q < |path| ==> A[l][q] == RenderFrom(X[l], 0, path, SideX)[q]
    requires forall l, q :: |X| <= l < |A| && 0 <= q < |path| ==> A[l][q] == RenderFrom(Y[l - |X|], 0, path, SideY)[q]
    ensures A == RenderRows(X, path, SideX) + RenderRows(Y, path, SideY)
  {
    RenderedFront(X, Y, path, A);
    RenderedBack(X, Y, path, A);
    Rejoin(A, |X|, RenderRows(X, path, SideX), RenderRows(Y, path, SideY));
  }

  lemma Rejoin(A: seq<string>, k: nat, front: seq<string>, back: seq<string>)
    requires k <= |A| && A[..k] == front && A[k..] == back
    ensures A == front + back
  {
    assert A == A[..k] + A[k..];
  }

  lemma RenderedFront(X: seq<string>, Y: seq<string>, path: seq<Move>, A: seq<string>)
    requires |A| == |X| + |Y|
    requires forall l :: 0 <= l < |A| ==> |A[l]| == |path|
    requires forall l, q :: 0 <= l < |X| && 0 <= q < |path| ==> A[l][q] == RenderFrom(X[l], 0, path, SideX)[q]
    ensures A[..|X|] == RenderRows(X, path, SideX)
  {
    RenderedSide(X, path, SideX, A[..|X|]);
  }

  lemma RenderedBack(X: seq<string>, Y: seq<string>, path: seq<Move>, A: seq<string>)
    requires |A| == |X| + |Y|
    requires forall l :: 0 <= l < |A| ==> |A[l]| == |path|
    requires forall l, q :: |X| <= l < |A| && 0 <= q < |path| ==> A[l][q] == RenderFrom(Y[l - |X|], 0, path, SideY)[q]
    ensures A[|X|..] == RenderRows(Y, path, SideY)
  {
    var C := A[|X|..];
    forall l, q | 0 <= l < |Y| && 0 <= q < |path|
      ensures C[l][q] == RenderFrom(Y[l], 0, path, SideY)[q]
    {
      assert C[l] == A[|X| + l];
    }
    RenderedSide(Y, path, SideY, C);
  }

  /** One profile's part of the assembled rows is that profile rendered along `path`. */
  lemma RenderedSide(rows: seq<string>, path: seq<Move>, side: Side, B: seq<string>)
    requires |B| == |rows|
    requires forall l :: 0 <= l < |B| ==> |B[l]| == |path|
    requires forall l, q :: 0 <= l < |B| && 0 <= q < |path| ==> B[l][q] == RenderFrom(rows[l], 0, path, side)[q]
    ensures B == RenderRows(rows, path, side)
  {
    forall l | 0 <= l < |B|
      ensures B[l] == Render(rows[l], path, side)
    {
      forall q | 0 <= q < |path|
        ensures B[l][q] == Render(rows[l], path, side)[q]
      {
        RenderAt(rows[l], path, side, q);
        RenderFromAt(rows[l], 0, path, side, q);
      }
    }
  }

  /** An operand of `computeProfileAlignment`: a single sequence or a list of rows. */
  datatype Operand = Str(s: string) | List(rows: seq<string>)

  /** A single sequence is wrapped into a one-row list. */
  function Rows(o: Operand): seq<string>
  {
    match o
    case Str(s) => [s]
    case List(rows) => rows
  }

  /** The type dispatch of `computeProfileAlignment`: strings are wrapped into one-row lists. */
  method ComputeProfileAlignment(t: Table, X: Operand, Y: Operand) returns (r: Result<seq<string>, Fault>)
    ensures r.Success? <==> Admissible(Rows(X), Rows(Y))
    ensures r.Success? ==> r.value == ProfileRows(t, Rows(X), Rows(Y))
    ensures AlignSpec(t, Rows(X), Rows(Y)) == r.ToOption()
  {
    if X.List? && Y.List? {
      r := AlignProfiles(t, X.rows, Y.rows);
    } else if X.Str? && Y.Str? {
      r := AlignProfiles(t, [X.s], [Y.s]);
    } else if X.Str? {
      r := AlignProfiles(t, [X.s], Y.rows);
    } else {
      r := AlignProfiles(t, X.rows, [Y.s]);
    }
  }
}
