/**
 * The substitution score shared by the pairwise and the multiple aligners:
 * a linear gap penalty, and the gap-aware character score `s` of the
 * multiple-alignment class. The BLOSUM50 lookup itself is an external table
 * and is passed in as an arbitrary total function on characters.
 */
module Scoring {
  import opened Results

  /** The BLOSUM50 lookup (with its default for unlisted pairs). */
  type Table = (char, char) -> int

  /** The gap penalty factor `d`. */
  const GapPenalty: int := 8

  const Gap: char := '-'

  /** Linear gap cost of a run of `g` gap columns. */
  function Gamma(g: int): (r: int)
    ensures g >= 0 ==> r <= 0
  {
    -g * GapPenalty
  }

  predicate IsResidue(c: char) {
    'A' <= c <= 'Z'
  }

  /** The two ways `s` stops the program: an illegal first or second character. */
  datatype SubstError = IllegalX(x: char) | IllegalY(y: char)

  /** True when `s(x, y)` returns rather than stopping the program. */
  predicate Scorable(x: char, y: char) {
    x == Gap || y == Gap || (IsResidue(x) && IsResidue(y))
  }

  /**
   * The value `s(x, y)` has whenever it returns: 0 for two gaps, the negated
   * gap penalty for exactly one gap, the table entry otherwise.
   */
  function SubstScore(t: Table, x: char, y: char): int {
    if x == Gap && y == Gap then 0
    else if x == Gap || y == Gap then -GapPenalty
    else t(x, y)
  }

  /** The substitution score `s(x, y)` including its error exits. */
  function Subst(t: Table, x: char, y: char): (r: Result<int, SubstError>)
    ensures r.Success? <==> Scorable(x, y)
    ensures r.Success? ==> r.value == SubstScore(t, x, y)
    ensures x == Gap && y == Gap ==> r == Success(0)
    ensures (x == Gap) != (y == Gap) ==> r == Success(-GapPenalty)
    ensures x != Gap && y != Gap && !IsResidue(x) ==> r == Failure(IllegalX(x))
    ensures x != Gap && y != Gap && IsResidue(x) && !IsResidue(y) ==> r == Failure(IllegalY(y))
    ensures x != Gap && y != Gap && IsResidue(x) && IsResidue(y) ==> r == Success(t(x, y))
  {
    if x == Gap && y == Gap then Success(0)
    else if x == Gap || y == Gap then Success(-GapPenalty)
    else if !IsResidue(x) then Failure(IllegalX(x))
    else if !IsResidue(y) then Failure(IllegalY(y))
    else Success(t(x, y))
  }
}
