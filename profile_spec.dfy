/**
 * Specification of the profile-to-profile aligner `computeProfileAlignment`
 * of the multiple-alignment classes: column scores, the score matrix with its
 * bit-set pointer matrix, the traceback path and the rows it renders.
 *
 * Inputs are lists of rows. As in the source, the aligned width of a profile
 * is `len(X[0]) - 1`: the last character of every row is never aligned.
 */
module ProfileSpec {
  import opened Results
  import opened Scoring

  /** The ways `computeProfileAlignment` stops: an index error, or `s` exiting on an illegal character. */
  datatype Fault = IndexError | IllegalSymbol(e: SubstError)

  /** Pointer moves. GapInX (bit 2) consumes a column of Y only; GapInY (bit 1) one of X only; NoGap (bit 4) both. */
  datatype Move = GapInX | GapInY | NoGap

  datatype Side = SideX | SideY

  /** Character `c` of `row`, read as a gap where the row is too short (the aligner fails before relying on it). */
  function At(row: string, c: int): char {
    if 0 <= c < |row| then row[c] else Gap
  }

  /** Every row has at least `c` characters. */
  predicate Covers(rows: seq<string>, c: int) {
    forall k :: 0 <= k < |rows| ==> c <= |rows[k]|
  }

  /** The aligned width of a profile: one less than the length of its first row. */
  function Width(rows: seq<string>): int
    requires |rows| > 0
  {
    |rows[0]| - 1
  }

  // ---------------------------------------------------------------- column scores

  /** Sum over the first K rows of s(row[c], '-') * w. */
  function GapSum(t: Table, rows: seq<string>, c: int, w: int, K: nat): int
    requires K <= |rows|
  {
    if K == 0 then 0 else GapSum(t, rows, c, w, K - 1) + SubstScore(t, At(rows[K - 1], c), Gap) * w
  }

  /** Column c of a profile against a gap column of a profile of `w` rows. */
  function GapColumn(t: Table, rows: seq<string>, c: int, w: int): int {
    GapSum(t, rows, c, w, |rows|)
  }

  /** Sum over the first L rows of Y of s(a, Y[l][cj]). */
  function PairRow(t: Table, a: char, Y: seq<string>, cj: int, L: nat): int
    requires L <= |Y|
  {
    if L == 0 then 0 else PairRow(t, a, Y, cj, L - 1) + SubstScore(t, a, At(Y[L - 1], cj))
  }

  /** Sum over the first K rows of X and every row of Y of s(X[k][ci], Y[l][cj]). */
  function CrossSum(t: Table, X: seq<string>, ci: int, Y: seq<string>, cj: int, K: nat): int
    requires K <= |X|
  {
    if K == 0 then 0 else CrossSum(t, X, ci, Y, cj, K - 1) + PairRow(t, At(X[K - 1], ci), Y, cj, |Y|)
  }

  /** Column ci of X against column cj of Y: the full cross product of rows. */
  function CrossColumn(t: Table, X: seq<string>, ci: int, Y: seq<string>, cj: int): int {
    CrossSum(t, X, ci, Y, cj, |X|)
  }

  /** Every pair of characters in column ci of X and column cj of Y can be scored. */
  predicate CrossOk(X: seq<string>, ci: int, Y: seq<string>, cj: int) {
    forall k, l :: 0 <= k < |X| && 0 <= l < |Y| ==> Scorable(At(X[k], ci), At(Y[l], cj))
  }

  // ---------------------------------------------------------------- matrices

  /** The source's running maximum: start from the diagonal, replace it only by a strictly larger candidate. */
  function Choose(diag: int, up: int, left: int): (r: int)
    ensures r >= diag && r >= up && r >= left
    ensures r == diag || r == up || r == left
  {
    var v := diag;
    var v := if up > v then up else v;
    if left > v then left else v
  }

  /** The pointer bit set: 4 when v is the diagonal candidate, plus 1 for up (gap in Y), plus 2 for left (gap in X). */
  function Bits(v: int, diag: int, up: int, left: int): (r: int)
    ensures 0 <= r < 8
    ensures r >= 4 <==> v == diag
    ensures r % 2 > 0 <==> v == up
    ensures r % 4 >= 2 <==> v == left
  {
    (if v == diag then 4 else 0) + (if v == up then 1 else 0) + (if v == left then 2 else 0)
  }

  /** Score-matrix entry F[i][j] and pointer bits P[i][j]. */
  function ProfCell(t: Table, X: seq<string>, Y: seq<string>, i: nat, j: nat): (int, int)
    decreases i + j
  {
    if i == 0 && j == 0 then (0, 0)
    else if i == 0 then (ProfCell(t, X, Y, 0, j - 1).0 + GapColumn(t, Y, j - 1, |X|), 2)
    else if j == 0 then (ProfCell(t, X, Y, i - 1, 0).0 + GapColumn(t, X, i - 1, |Y|), 1)
    else
      var diag := ProfCell(t, X, Y, i - 1, j - 1).0 + CrossColumn(t, X, i - 1, Y, j - 1);
      var up := ProfCell(t, X, Y, i - 1, j).0 + GapColumn(t, X, i - 1, |Y|);
      var left := ProfCell(t, X, Y, i, j - 1).0 + GapColumn(t, Y, j - 1, |X|);
      var v := Choose(diag, up, left);
      (v, Bits(v, diag, up, left))
  }

  /**
   * The recurrence: boundary pointers are 2 on row 0 and 1 on column 0; an
   * interior entry is the maximum of its three candidates and its pointer has
   * exactly the bits of the candidates that reach it, hence is never 0.
   */
  lemma ProfCellRecurrence(t: Table, X: seq<string>, Y: seq<string>, i: nat, j: nat)
    ensures i == 0 && j > 0 ==> ProfCell(t, X, Y, i, j).1 == 2
    ensures i > 0 && j == 0 ==> ProfCell(t, X, Y, i, j).1 == 1
    ensures i > 0 && j > 0 ==>
      var diag := ProfCell(t, X, Y, i - 1, j - 1).0 + CrossColumn(t, X, i - 1, Y, j - 1);
      var up := ProfCell(t, X, Y, i - 1, j).0 + GapColumn(t, X, i - 1, |Y|);
      var left := ProfCell(t, X, Y, i, j - 1).0 + GapColumn(t, Y, j - 1, |X|);
      var v := ProfCell(t, X, Y, i, j).0;
      var p := ProfCell(t, X, Y, i, j).1;
      && v >= diag && v >= up && v >= left
      && (p >= 4 <==> v == diag)
      && (p % 2 > 0 <==> v == up)
      && (p % 4 >= 2 <==> v == left)
      && p != 0
  {
  }

  /** The traceback's choice at a pointer entry: bit 2 first, then bit 1, then (bit 4) the diagonal. */
  function Choice(bits: int): Move {
    if bits % 4 >= 2 then GapInX else if bits % 2 > 0 then GapInY else NoGap
  }

  /** The pointer matrix P of an (n+1) x (m+1) fill. */
  function Pointers(t: Table, X: seq<string>, Y: seq<string>, n: nat, m: nat): (ptr: seq<seq<int>>)
    ensures |ptr| == n + 1 && forall a :: 0 <= a <= n ==> |ptr[a]| == m + 1
  {
    seq(n + 1, (a: nat) => seq(m + 1, (b: nat) => ProfCell(t, X, Y, a, b).1))
  }

  /**
   * A pointer matrix the traceback can follow to (0, 0): row 0 points left,
   * column 0 points up, and every other entry (but (0, 0)) has a bit the
   * traceback tests, so it never stalls.
   */
  predicate Traceable(ptr: seq<seq<int>>, n: nat, m: nat) {
    && |ptr| == n + 1
    && (forall a :: 0 <= a <= n ==> |ptr[a]| == m + 1)
    && (forall b :: 0 < b <= m ==> Choice(ptr[0][b]) == GapInX)
    && (forall a :: 0 < a <= n ==> Choice(ptr[a][0]) == GapInY)
    && (forall a, b :: 0 < a <= n && 0 < b <= m ==> var p := ptr[a][b]; p % 4 >= 2 || p % 2 > 0 || p >= 4)
  }

  /** The pointer matrix of the fill is traceable. */
  lemma PointersTraceable(t: Table, X: seq<string>, Y: seq<string>, n: nat, m: nat)
    ensures Traceable(Pointers(t, X, Y, n, m), n, m)
  {
    var ptr := Pointers(t, X, Y, n, m);
    forall b | 0 < b <= m
      ensures Choice(ptr[0][b]) == GapInX
    {
      ProfCellRecurrence(t, X, Y, 0, b);
    }
    forall a | 0 < a <= n
      ensures Choice(ptr[a][0]) == GapInY
    {
      ProfCellRecurrence(t, X, Y, a, 0);
    }
    forall a, b | 0 < a <= n && 0 < b <= m
      ensures var p := ptr[a][b]; p % 4 >= 2 || p % 2 > 0 || p >= 4
    {
      ProfCellRecurrence(t, X, Y, a, b);
    }
  }

  /** The moves of the traceback from (i, j) to (0, 0) through `ptr`, in column order. */
  function TracePath(ptr: seq<seq<int>>, n: nat, m: nat, i: nat, j: nat): seq<Move>
    requires Traceable(ptr, n, m) && i <= n && j <= m
    decreases i + j
  {
    if i == 0 && j == 0 then []
    else if Choice(ptr[i][j]) == GapInX then TracePath(ptr, n, m, i, j - 1) + [GapInX]
    else if Choice(ptr[i][j]) == GapInY then TracePath(ptr, n, m, i - 1, j) + [GapInY]
    else TracePath(ptr, n, m, i - 1, j - 1) + [NoGap]
  }

  /** The traceback path of the fill from (n, m). */
  function Path(t: Table, X: seq<string>, Y: seq<string>, n: nat, m: nat): seq<Move> {
    PointersTraceable(t, X, Y, n, m);
    TracePath(Pointers(t, X, Y, n, m), n, m, n, m)
  }

  // ---------------------------------------------------------------- rendering rows

  predicate Consumes(mv: Move, side: Side) {
    if side == SideX then mv != GapInX else mv != GapInY
  }

  /** How many moves of `path` consume a column of `side`. */
  function Count(path: seq<Move>, side: Side): (r: nat)
    ensures r <= |path|
    decreases |path|
  {
    if path == [] then 0
    else Count(path[..|path| - 1], side) + (if Consumes(path[|path| - 1], side) then 1 else 0)
  }

  /** The aligned row of `row`: its next character where the move consumes its side, a gap elsewhere. */
  function Render(row: string, path: seq<Move>, side: Side): (r: string)
    ensures |r| == |path|
    decreases |path|
  {
    if path == [] then []
    else
      var init := path[..|path| - 1];
      Render(row, init, side) + [if Consumes(path[|path| - 1], side) then At(row, Count(init, side)) else Gap]
  }

  /** The characters of `s` at the positions where `path` consumes `side`. */
  function Keep(s: string, path: seq<Move>, side: Side): (r: string)
    requires |s| == |path|
    ensures |r| == Count(path, side)
    decreases |path|
  {
    if path == [] then []
    else
      Keep(s[..|s| - 1], path[..|path| - 1], side) + (if Consumes(path[|path| - 1], side) then [s[|s| - 1]] else [])
  }

  /** Position q of a row rendered along `path`: the side's next character where the move consumes it, a gap elsewhere. */
  function RowAt(row: string, path: seq<Move>, side: Side, q: nat): char
    requires q < |path|
  {
    if Consumes(path[q], side) then At(row, Count(path[..q], side)) else Gap
  }

  // ---------------------------------------------------------------- the result

  /** The column scores of entry (i, j) can be computed: the columns exist and every character pair is scorable. */
  predicate CellOk(X: seq<string>, Y: seq<string>, i: nat, j: nat) {
    && (i > 0 ==> Covers(X, i))
    && (j > 0 ==> Covers(Y, j))
    && (i > 0 && j > 0 ==> CrossOk(X, i - 1, Y, j - 1))
  }

  /** The whole (n+1) x (m+1) score matrix can be filled. */
  predicate Fillable(X: seq<string>, Y: seq<string>, n: nat, m: nat) {
    Covers(X, n) && Covers(Y, m) && forall i, j :: 0 <= i < n && 0 <= j < m ==> CrossOk(X, i, Y, j)
  }

  /** The aligner returns normally exactly when this holds. */
  predicate Admissible(X: seq<string>, Y: seq<string>) {
    && |X| > 0 && |Y| > 0
    && var n, m := Width(X), Width(Y);
       if n < 0 || m < 0 then n + m <= 0 else Fillable(X, Y, n, m)
  }

  /** X's rows, then Y's, rendered along the traceback path from (n, m). */
  function Rendered(t: Table, X: seq<string>, Y: seq<string>, n: nat, m: nat): seq<string> {
    var path := Path(t, X, Y, n, m);
    RenderRows(X, path, SideX) + RenderRows(Y, path, SideY)
  }

  /** Every row of one profile rendered along `path`. */
  function RenderRows(rows: seq<string>, path: seq<Move>, side: Side): seq<string> {
    seq(|rows|, l requires 0 <= l < |rows| => Render(rows[l], path, side))
  }

  /** The rows `computeProfileAlignment(X, Y)` returns: X's rows, then Y's, rendered along the traceback path. */
  function ProfileRows(t: Table, X: seq<string>, Y: seq<string>): seq<string>
    requires |X| > 0 && |Y| > 0
  {
    var n, m := Width(X), Width(Y);
    if n < 0 || m < 0 then seq(|X| + |Y|, _ => []) else Rendered(t, X, Y, n, m)
  }

  /** The outcome of `computeProfileAlignment` on two lists of rows; None when it stops with an error. */
  function AlignSpec(t: Table, X: seq<string>, Y: seq<string>): Option<seq<string>> {
    if Admissible(X, Y) then Some(ProfileRows(t, X, Y)) else None
  }
}
