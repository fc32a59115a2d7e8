/** Properties of the profile aligner's specification: shape, path length and projection. */
module ProfileFacts {
  import opened Scoring
  import opened ProfileSpec

  lemma CountSnoc(p: seq<Move>, mv: Move, side: Side)
    ensures Count(p + [mv], side) == Count(p, side) + (if Consumes(mv, side) then 1 else 0)
  {
    assert (p + [mv])[..|p|] == p;
  }

  /** The counts of the traceback path from (i, j). */
  predicate PathCounted(ptr: seq<seq<int>>, n: nat, m: nat, i: nat, j: nat)
    requires Traceable(ptr, n, m) && i <= n && j <= m
  {
    var p := TracePath(ptr, n, m, i, j);
    Count(p, SideX) == i && Count(p, SideY) == j && |p| <= i + j
  }

  /** One traceback step: the path from (i, j) is the path from its predecessor plus the move at (i, j). */
  lemma PathUnfold(ptr: seq<seq<int>>, n: nat, m: nat, i: nat, j: nat)
    requires Traceable(ptr, n, m) && i <= n && j <= m && i + j > 0
    ensures Choice(ptr[i][j]) == GapInX ==> j > 0 && TracePath(ptr, n, m, i, j) == TracePath(ptr, n, m, i, j - 1) + [GapInX]
    ensures Choice(ptr[i][j]) == GapInY ==> i > 0 && TracePath(ptr, n, m, i, j) == TracePath(ptr, n, m, i - 1, j) + [GapInY]
    ensures Choice(ptr[i][j]) == NoGap ==> i > 0 && j > 0 && TracePath(ptr, n, m, i, j) == TracePath(ptr, n, m, i - 1, j - 1) + [NoGap]
  {
  }

  lemma {:induction false} PathCountedInduct(ptr: seq<seq<int>>, n: nat, m: nat, i: nat, j: nat)
    requires Traceable(ptr, n, m) && i <= n && j <= m
    ensures PathCounted(ptr, n, m, i, j)
    decreases i + j
  {
    if i + j > 0 {
      PathUnfold(ptr, n, m, i, j);
      var mv := Choice(ptr[i][j]);
      var i2, j2 := if mv == GapInX then i else i - 1, if mv == GapInY then j else j - 1;
      PathCountedInduct(ptr, n, m, i2, j2);
      CountSnoc(TracePath(ptr, n, m, i2, j2), mv, SideX);
      CountSnoc(TracePath(ptr, n, m, i2, j2), mv, SideY);
    }
  }

  /**
   * The traceback from (i, j) consumes exactly i columns of X and j columns
   * of Y, so it has between max(i, j) and i + j steps: the loop terminates.
   */
  lemma {:induction false} TracePathCounts(ptr: seq<seq<int>>, n: nat, m: nat, i: nat, j: nat)
    requires Traceable(ptr, n, m) && i <= n && j <= m
    ensures Count(TracePath(ptr, n, m, i, j), SideX) == i
    ensures Count(TracePath(ptr, n, m, i, j), SideY) == j
    ensures i <= |TracePath(ptr, n, m, i, j)| && j <= |TracePath(ptr, n, m, i, j)|
    ensures |TracePath(ptr, n, m, i, j)| <= i + j
  {
    PathCountedInduct(ptr, n, m, i, j);
  }

  /** The path of the fill consumes all n columns of X and all m of Y, in max(n, m) to n + m steps. */
  lemma PathCounts(t: Table, X: seq<string>, Y: seq<string>, n: nat, m: nat)
    ensures Count(Path(t, X, Y, n, m), SideX) == n
    ensures Count(Path(t, X, Y, n, m), SideY) == m
    ensures n <= |Path(t, X, Y, n, m)| && m <= |Path(t, X, Y, n, m)|
    ensures |Path(t, X, Y, n, m)| <= n + m
  {
    PointersTraceable(t, X, Y, n, m);
    TracePathCounts(Pointers(t, X, Y, n, m), n, m, n, m);
  }

  /** Position q of a rendered row is given by RowAt. */
  lemma {:induction false} RenderAt(row: string, path: seq<Move>, side: Side, q: nat)
    requires q < |path|
    ensures Render(row, path, side)[q] == RowAt(row, path, side, q)
    decreases |path|
  {
    var init := path[..|path| - 1];
    if q < |path| - 1 {
      RenderAt(row, init, side, q);
      assert init[q] == path[q] && init[..q] == path[..q];
    }
  }

  /** The last step of a rendered row: the row along the shorter path, then one character or a gap. */
  lemma RenderSnoc(row: string, path: seq<Move>, side: Side)
    requires path != []
    ensures var r, init := Render(row, path, side), path[..|path| - 1];
      && r[..|path| - 1] == Render(row, init, side)
      && r[|path| - 1] == if Consumes(path[|path| - 1], side) then At(row, Count(init, side)) else Gap
  {
    var r, init := Render(row, path, side), path[..|path| - 1];
    assert r == Render(row, init, side) + [if Consumes(path[|path| - 1], side) then At(row, Count(init, side)) else Gap];
  }

  /** Keeping the consumed positions of a rendered row gives back the row's prefix. */
  lemma {:induction false} RenderKeep(row: string, path: seq<Move>, side: Side)
    requires Count(path, side) <= |row|
    ensures Keep(Render(row, path, side), path, side) == row[..Count(path, side)]
    decreases |path|
  {
    if path != [] {
      var init := path[..|path| - 1];
      RenderSnoc(row, path, side);
      RenderKeep(row, init, side);
      KeepStep(Render(row, path, side), path, side, row, Render(row, init, side));
    }
  }

  /** The step of RenderKeep: a row that extends r0 by the next character of `row` or a gap keeps one more character. */
  lemma KeepStep(r: string, path: seq<Move>, side: Side, row: string, r0: string)
    requires path != [] && |r| == |path| && Count(path, side) <= |row|
    requires var init := path[..|path| - 1];
      && r[..|path| - 1] == r0
      && |r0| == |init| && Keep(r0, init, side) == row[..Count(init, side)]
      && r[|path| - 1] == if Consumes(path[|path| - 1], side) then At(row, Count(init, side)) else Gap
    ensures Keep(r, path, side) == row[..Count(path, side)]
  {
    var init := path[..|path| - 1];
    var c := Count(init, side);
    if Consumes(path[|path| - 1], side) {
      assert row[..c + 1] == row[..c] + [row[c]];
    }
  }

  /**
   * `computeProfileAlignment` returns len(X) + len(Y) rows of one common
   * length, between max(n, m) and n + m for the aligned widths n, m (and
   * empty when a width is -1).
   */
  lemma ProfileRowsShape(t: Table, X: seq<string>, Y: seq<string>)
    requires |X| > 0 && |Y| > 0
    ensures var rows := ProfileRows(t, X, Y);
      && |rows| == |X| + |Y|
      && (forall l :: 0 <= l < |rows| ==> |rows[l]| == |rows[0]|)
      && (Width(X) < 0 || Width(Y) < 0 ==> |rows[0]| == 0)
      && (Width(X) >= 0 && Width(Y) >= 0 ==>
            Width(X) <= |rows[0]| && Width(Y) <= |rows[0]| && |rows[0]| <= Width(X) + Width(Y))
  {
    var n, m := Width(X), Width(Y);
    if n >= 0 && m >= 0 {
      PathCounts(t, X, Y, n, m);
    }
  }

  /**
   * rows[lo ..] holds one row per row of src, each as long as the path:
   * restricted to the moves that consume a column of src's side, row
   * lo + l is src[l][..w], and at every other move it holds a gap.
   */
  ghost predicate Projects(rows: seq<string>, lo: nat, src: seq<string>, w: nat, path: seq<Move>, side: Side) {
    && lo + |src| <= |rows| && Covers(src, w)
    && (forall l :: lo <= l < lo + |src| ==> |rows[l]| == |path| && Keep(rows[l], path, side) == src[l - lo][..w])
    && (forall l, q :: lo <= l < lo + |src| && 0 <= q < |path| && !Consumes(path[q], side) ==> rows[l][q] == Gap)
  }

  /** Every row of one profile rendered along a path that consumes w of its columns keeps its first w characters, with gaps elsewhere. */
  lemma ProjectRows(src: seq<string>, path: seq<Move>, side: Side, w: nat, B: seq<string>)
    requires B == RenderRows(src, path, side) && Count(path, side) == w && Covers(src, w)
    ensures |B| == |src| && Projects(B, 0, src, w, path, side)
  {
    forall l | 0 <= l < |B|
      ensures |B[l]| == |path| && Keep(B[l], path, side) == src[l][..w]
    {
      RenderKeep(src[l], path, side);
    }
    forall l, q | 0 <= l < |B| && 0 <= q < |path| && !Consumes(path[q], side)
      ensures B[l][q] == Gap
    {
      RenderAt(src[l], path, side, q);
    }
  }

  /** For widths n, m >= 0 the output is X's rows, then Y's, rendered along the traceback path. */
  lemma ProfileRowsRendered(t: Table, X: seq<string>, Y: seq<string>)
    requires |X| > 0 && |Y| > 0 && Width(X) >= 0 && Width(Y) >= 0
    ensures var path := Path(t, X, Y, Width(X), Width(Y));
      ProfileRows(t, X, Y) == RenderRows(X, path, SideX) + RenderRows(Y, path, SideY)
  {
  }

  /** What is projected at the head of A is projected at the head of A + B. */
  lemma LeadingRows(A: seq<string>, B: seq<string>, path: seq<Move>, side: Side, src: seq<string>, w: nat)
    requires |A| == |src| && Projects(A, 0, src, w, path, side)
    ensures Projects(A + B, 0, src, w, path, side)
  {
    var rows := A + B;
    forall l | 0 <= l < |src|
      ensures rows[l] == A[l]
    {
    }
  }

  /** What is projected at the head of B is projected after the k == |A| rows of A in A + B. */
  lemma ShiftedRows(A: seq<string>, k: nat, B: seq<string>, path: seq<Move>, side: Side, src: seq<string>, w: nat)
    requires k == |A| && |B| == |src| && Projects(B, 0, src, w, path, side)
    ensures Projects(A + B, k, src, w, path, side)
  {
    var rows := A + B;
    forall l | k <= l < k + |src|
      ensures |rows[l]| == |path| && Keep(rows[l], path, side) == src[l - k][..w]
    {
      assert rows[l] == B[l - k];
    }
    forall l, q | k <= l < k + |src| && 0 <= q < |path| && !Consumes(path[q], side)
      ensures rows[l][q] == Gap
    {
      assert rows[l] == B[l - k];
    }
  }

  /**
   * Projection: the output has one row per row of X and of Y, in that order;
   * restricted to the steps that consume an X column, output row l is
   * X[l][..n], and at every other step all X rows hold a gap together. The
   * same holds for the Y rows.
   */
  lemma ProfileProjection(t: Table, X: seq<string>, Y: seq<string>)
    requires Admissible(X, Y) && Width(X) >= 0 && Width(Y) >= 0
    ensures var rows, path := ProfileRows(t, X, Y), Path(t, X, Y, Width(X), Width(Y));
      && |rows| == |X| + |Y|
      && Projects(rows, 0, X, Width(X), path, SideX)
      && Projects(rows, |X|, Y, Width(Y), path, SideY)
  {
    var n, m := Width(X), Width(Y);
    PathCounts(t, X, Y, n, m);
    var path := Path(t, X, Y, n, m);
    var A, B := RenderRows(X, path, SideX), RenderRows(Y, path, SideY);
    ProfileRowsRendered(t, X, Y);
    ProjectRows(X, path, SideX, n, A);
    ProjectRows(Y, path, SideY, m, B);
    LeadingRows(A, B, path, SideX, X, n);
    ShiftedRows(A, |X|, B, path, SideY, Y, m);
  }

  /** The score matrix can be filled exactly when every one of its entries can. */
  lemma FillableCells(X: seq<string>, Y: seq<string>, n: nat, m: nat)
    ensures Fillable(X, Y, n, m) <==> forall i, j :: 0 <= i <= n && 0 <= j <= m ==> CellOk(X, Y, i, j)
  {
    if forall i, j :: 0 <= i <= n && 0 <= j <= m ==> CellOk(X, Y, i, j) {
      if n > 0 { assert CellOk(X, Y, n, 0); }
      if m > 0 { assert CellOk(X, Y, 0, m); }
      forall i, j | 0 <= i < n && 0 <= j < m
        ensures CrossOk(X, i, Y, j)
      {
        assert CellOk(X, Y, i + 1, j + 1);
      }
    }
  }
}
