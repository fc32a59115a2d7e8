# Progressive multiple sequence alignment, modelled in Dafny

This project models the integer core of the MultipleSequenceAllignment
assignment code (`CO4200-700_Prog_Assignment_v3`). It covers:

- the pairwise Needleman–Wunsch aligner (class `Alignment`, `NW_Part1.py`);
- the gap-aware substitution score `s` and the linear gap cost `gamma`;
- the sum-of-pairs scorer `scoreMultipleAlignment`;
- the profile-to-profile aligner `computeProfileAlignment`. This covers its
  score matrix `F`, its bit-set pointer matrix `P`, the traceback into
  `Xtemp`/`Ytemp`, the copy into `Afinal` and the str/list dispatch;
- the sequential driver `computeMultipleAlignment`
  (`multiple_sequence_alignment.py`);
- the counting part of `Kimuradistance` and the guide-tree driver
  `computeMultipleAlignment` (`multiple_Sequence_Alignment_Modified.py`).

`s`, `gamma`, `scoreMultipleAlignment` and `computeProfileAlignment` appear
in both multiple-alignment files with the same code. The table below cites
the copy in `multiple_sequence_alignment.py`. In
`multiple_Sequence_Alignment_Modified.py` the same code sits at lines 21-36,
59-72 and 79-230.

Modules, one per file:

- `Results`: the `Option` and `Result` values. Every way the Python code
  stops is a `Failure`: an `IndexError`, `exit(1)` from `s` on an illegal
  character, or an unbound result variable.
- `Scoring`: the table type, `d = 8`, `Gamma`, and `Subst`, which is `s`
  with its two exits.
- `Pairwise`: the specification of the score and pointer matrices (`Cell`)
  and of the traceback (`Trace`). It also holds the class
  `Pairwise.Alignment`, with the fields `x`, `y`, `xa`, `ya`, whose methods
  fill real `array2`s and prepend to the aligned rows, as the source does.
  Lemmas show the result is an alignment of `x` and `y` whose re-score is
  the optimum.
- `ProfileSpec`: the specification of `computeProfileAlignment`. It defines
  column scores, the matrix entry with its pointer bits, the traceback path,
  the rendered rows, and `Admissible`, which holds exactly when the call
  returns normally.
- `ProfileAlign`: the imperative aligner. Loops fill `F` and `P` as
  `array2<int>`. `Xtemp` and `Ytemp` are written at a decreasing column `k`;
  `Afinal` is copied and then joined. Each step is proved against
  `ProfileSpec`.
- `ProfileFacts`: properties of that specification. The path length bounds
  termination, the output has a fixed shape, and the projection property
  holds.
- `SumOfPairs`: the triple loop of `scoreMultipleAlignment` and its
  properties.
- `Kimura`: the count loop, the `-1` sentinel, and the matrix of all ordered
  pairs.
- `Progressive`: both drivers, specified as folds over an aligner function.

The model keeps the source's quirks:

- The aligned width of a profile is `len(X[0]) - 1`, so the last character
  of every row is never aligned (`ProfileFacts.ProfileProjection` states
  that row `l` keeps exactly `X[l][..len(X[0])-1]`). When the sequential
  driver feeds its running alignment back in, a real column is dropped at
  every step.
- The traceback tests bit 2, then bit 1, then bit 4.
- In every merge after the first, an operand `>= len(X)` is skipped.
- An empty merge list leaves `A` unbound.

## Model

| member | source | states |
|---|---|---|
| Scoring.Gamma | CO4200-700_Prog_Assignment_v3/multiple_sequence_alignment.py:30-31 | a run of g >= 0 gaps never scores above 0 |
| Scoring.Subst | CO4200-700_Prog_Assignment_v3/multiple_sequence_alignment.py:17-27 | s returns exactly when the pair is scorable; 0 for two gaps, -8 for one gap, the table entry for two letters A-Z; otherwise it exits, on x first, then on y |
| Pairwise.Best | CO4200-700_Prog_Assignment_v3/NW_Part1.py:136-144 | the chosen value is the maximum of diag, left and top; diag wins every tie, left is chosen only when strictly above diag, top only when strictly above both |
| Pairwise.CellRecurrence | CO4200-700_Prog_Assignment_v3/NW_Part1.py:123-144 | f[0][j] = -j*d with pointer left, f[i][0] = -i*d with pointer top; inner f[i][j] is the maximum of the three candidates, and the pointer is diag / left / top exactly under the tie-break conditions |
| Pairwise.Alignment.constructor | CO4200-700_Prog_Assignment_v3/NW_Part1.py:20-24 | stores the two sequences and leaves xa, ya unset |
| Pairwise.Alignment.CheckAlignment | CO4200-700_Prog_Assignment_v3/NW_Part1.py:37-43 | succeeds iff xa and ya are set and of equal length; otherwise "not computed" before "length mismatch" |
| Pairwise.Alignment.ScoreAlignment | CO4200-700_Prog_Assignment_v3/NW_Part1.py:81-102 | fails exactly as check_alignment does; otherwise charging gamma once per gap run gives the same score as charging -d per gap column plus the table entry per letter column (the linear score of xa, ya) |
| Pairwise.Alignment.ComputeAlignment | CO4200-700_Prog_Assignment_v3/NW_Part1.py:105-168 | keeps x and y, and sets xa, ya to the traceback of the filled matrices from (len x, len y) |
| Pairwise.FillMatrices | CO4200-700_Prog_Assignment_v3/NW_Part1.py:115-146 | every entry of f and p is the specified score and pointer |
| Pairwise.FillRow | CO4200-700_Prog_Assignment_v3/NW_Part1.py:120-145 | after row i, rows 0..i of f and p are the specified entries |
| Pairwise.FillCell | CO4200-700_Prog_Assignment_v3/NW_Part1.py:123-144 | sets f[i][j], p[i][j] to the specified entry and changes no other entry |
| Pairwise.Traceback | CO4200-700_Prog_Assignment_v3/NW_Part1.py:149-168 | the prepending loop builds exactly the specified traceback; the two rows have equal length between max(n, m) and n + m |
| Pairwise.TraceColumn | CO4200-700_Prog_Assignment_v3/NW_Part1.py:153-166 | the column the pointer at (i, j) adds and the cell it moves back to |
| Pairwise.TraceLength | CO4200-700_Prog_Assignment_v3/NW_Part1.py:149-166 | the traced rows from (i, j) have equal length between max(i, j) and i + j |
| Pairwise.TraceUngap | CO4200-700_Prog_Assignment_v3/NW_Part1.py:153-166 | deleting the gaps of the traced rows gives back the prefixes of x and y (gaps deleted) |
| Pairwise.TraceNoDoubleGap | CO4200-700_Prog_Assignment_v3/NW_Part1.py:154-166 | for gap-free inputs no column of the traced alignment has a gap in both rows |
| Pairwise.TraceScore | CO4200-700_Prog_Assignment_v3/NW_Part1.py:118-166 | for gap-free inputs, re-scoring the traced rows gives f[i][j] |
| Pairwise.OptScoreIsOptimal | CO4200-700_Prog_Assignment_v3/NW_Part1.py:118-146 | no alignment of x[..i] with y[..j] scores more than f[i][j] |
| Pairwise.AlignAndScore | CO4200-700_Prog_Assignment_v3/NW_Part1.py:81-168 | compute_alignment then score_alignment on gap-free x, y: the rows align x with y, have no gap-gap column, are at most len x + len y long, and their score is at least that of every alignment of x and y |
| ProfileSpec.Choose | CO4200-700_Prog_Assignment_v3/multiple_sequence_alignment.py:124-128 | F[i][j] is the largest candidate and is one of them |
| ProfileSpec.Bits | CO4200-700_Prog_Assignment_v3/multiple_sequence_alignment.py:129-137 | bit 4 iff the diagonal reaches F[i][j], bit 1 iff gap-in-Y does, bit 2 iff gap-in-X does |
| ProfileSpec.ProfCellRecurrence | CO4200-700_Prog_Assignment_v3/multiple_sequence_alignment.py:115-137 | boundary pointers are 2 on row 0 and 1 on column 0; inner entries are the maximum, with exactly the bits of the candidates reaching it, hence nonzero |
| ProfileSpec.PointersTraceable | CO4200-700_Prog_Assignment_v3/multiple_sequence_alignment.py:115-137 | the filled P lets the traceback reach (0, 0): row 0 moves left, column 0 moves up, every inner entry has a tested bit |
| ProfileFacts.TracePathCounts | CO4200-700_Prog_Assignment_v3/multiple_sequence_alignment.py:145-183 | the traceback from (i, j) consumes exactly i columns of X and j of Y in between max(i, j) and i + j steps, so it ends |
| ProfileFacts.PathCounts | CO4200-700_Prog_Assignment_v3/multiple_sequence_alignment.py:145-184 | the path of the fill from (n, m) consumes all n and m columns in max(n, m) to n + m steps, so k stays >= 0 |
| ProfileFacts.RenderKeep | CO4200-700_Prog_Assignment_v3/multiple_sequence_alignment.py:149-182 | the positions of a rendered row where its side was consumed spell the row's prefix |
| ProfileFacts.ProfileRowsShape | CO4200-700_Prog_Assignment_v3/multiple_sequence_alignment.py:184-206 | nX + nY rows of one length, between max(n, m) and n + m with n = len(X[0])-1, m = len(Y[0])-1 (empty rows when a width is -1) |
| ProfileFacts.ProjectRows | CO4200-700_Prog_Assignment_v3/multiple_sequence_alignment.py:149-182 | every row of one profile rendered along the path keeps its first w characters and has gaps at the other moves |
| ProfileFacts.ProfileProjection | CO4200-700_Prog_Assignment_v3/multiple_sequence_alignment.py:149-182 | restricted to the moves consuming an X column, output row l is X[l][0:n]; at the other moves all X rows hold '-'; likewise for the Y rows, which follow the X rows |
| ProfileFacts.FillableCells | CO4200-700_Prog_Assignment_v3/multiple_sequence_alignment.py:82-139 | the whole matrix can be filled iff the column scores of every entry can be computed |
| ProfileAlign.GapScore | CO4200-700_Prog_Assignment_v3/multiple_sequence_alignment.py:93-102 | the column-against-gaps loop returns sum of s(row[c], '-') * w, failing with an index error iff some row is too short |
| ProfileAlign.CrossScore | CO4200-700_Prog_Assignment_v3/multiple_sequence_alignment.py:103-113 | the double loop returns the cross-product column score, failing iff some pair is not scorable |
| ProfileAlign.CellScores | CO4200-700_Prog_Assignment_v3/multiple_sequence_alignment.py:88-113 | the three column scores of entry (i, j), each 0 when unused; fails iff the entry cannot be scored |
| ProfileAlign.FillEntry | CO4200-700_Prog_Assignment_v3/multiple_sequence_alignment.py:88-137 | sets F[i][j], P[i][j] to the specified entry, keeps every other entry, fails iff its column scores fail |
| ProfileAlign.FillRow | CO4200-700_Prog_Assignment_v3/multiple_sequence_alignment.py:86-138 | row i is filled iff all its entries can be scored |
| ProfileAlign.Fill | CO4200-700_Prog_Assignment_v3/multiple_sequence_alignment.py:82-139 | succeeds iff the matrix is fillable, and then F and P are the specified matrices |
| ProfileAlign.WriteColumn | CO4200-700_Prog_Assignment_v3/multiple_sequence_alignment.py:150-178 | one inner row loop: column k of the buffer gets each row's next character or '-' |
| ProfileAlign.TraceStep | CO4200-700_Prog_Assignment_v3/multiple_sequence_alignment.py:148-182 | one pass of the traceback: takes the move Choice(P[i][j]) and writes its column at k in both buffers |
| ProfileAlign.TraceColumns | CO4200-700_Prog_Assignment_v3/multiple_sequence_alignment.py:142-183 | allocates Xtemp, Ytemp; afterwards k = n + m - len(path) and columns k.. hold the rows rendered along the path |
| ProfileAlign.TraceInto | CO4200-700_Prog_Assignment_v3/multiple_sequence_alignment.py:145-183 | the traceback loop writes the rendered path into the buffers |
| ProfileAlign.Assemble | CO4200-700_Prog_Assignment_v3/multiple_sequence_alignment.py:184-206 | nX + nY rows of length n + m - k: Xtemp's columns from k, then Ytemp's |
| ProfileAlign.CopyColumns | CO4200-700_Prog_Assignment_v3/multiple_sequence_alignment.py:187-198 | Afinal[l][q-k] = Xtemp[l][q] and Afinal[l+nX][q-k] = Ytemp[l][q] for every q >= k |
| ProfileAlign.JoinRows | CO4200-700_Prog_Assignment_v3/multiple_sequence_alignment.py:199-205 | one string per row of Afinal, character for character |
| ProfileAlign.Join | CO4200-700_Prog_Assignment_v3/multiple_sequence_alignment.py:204 | ''.join of one row |
| ProfileAlign.Traceback | CO4200-700_Prog_Assignment_v3/multiple_sequence_alignment.py:142-206 | the traceback and assembly return X's rows then Y's, rendered along the traced path |
| ProfileAlign.RenderedRows | CO4200-700_Prog_Assignment_v3/multiple_sequence_alignment.py:184-206 | rows equal position by position to the written columns are the rendered rows |
| ProfileAlign.AlignFilled | CO4200-700_Prog_Assignment_v3/multiple_sequence_alignment.py:82-206 | for widths >= 0: succeeds iff fillable, returning the rendered rows |
| ProfileAlign.AlignProfiles | CO4200-700_Prog_Assignment_v3/multiple_sequence_alignment.py:76-206 | the list/list case returns normally iff the inputs are admissible, and then returns the specified rows |
| ProfileAlign.ComputeProfileAlignment | CO4200-700_Prog_Assignment_v3/multiple_sequence_alignment.py:75-226 | all four str/list combinations behave as the list/list case on the wrapped operands |
| SumOfPairs.ScoreMultipleAlignment | CO4200-700_Prog_Assignment_v3/multiple_sequence_alignment.py:55-68 | returns iff every pair j < k is scorable in every column of len(A[0]), and then returns the sum over columns and pairs of s |
| SumOfPairs.SoPSingleRow | CO4200-700_Prog_Assignment_v3/multiple_sequence_alignment.py:55-68 | a one-row alignment is accepted and scores 0 |
| SumOfPairs.SoPOfPair | CO4200-700_Prog_Assignment_v3/multiple_sequence_alignment.py:55-68 | for two rows without gap-gap columns, the sum of pairs is the pairwise linear score |
| SumOfPairs.SoPAppendGap | CO4200-700_Prog_Assignment_v3/multiple_sequence_alignment.py:55-68 | an all-gap column adds 0: appending one leaves score and acceptance unchanged |
| Kimura.Scored | CO4200-700_Prog_Assignment_v3/multiple_Sequence_Alignment_Modified.py:260-262 | positions_scored is at most the aligned length |
| Kimura.MatchesBounded | CO4200-700_Prog_Assignment_v3/multiple_Sequence_Alignment_Modified.py:260-264 | 0 <= exact_matches <= positions_scored <= the aligned length |
| Kimura.LogArgumentPositive | CO4200-700_Prog_Assignment_v3/multiple_Sequence_Alignment_Modified.py:266-268 | for p > 0, 1 - D - 0.2 D^2 > 0 with D = 1 - e/p exactly when 5pe > (p - e)^2 |
| Kimura.KimuraEntry | CO4200-700_Prog_Assignment_v3/multiple_Sequence_Alignment_Modified.py:256-271 | the counting loop and guarded transform: ya[i] is read only after a non-gap xa[i] (short-circuit `and`); the sentinel -1 exactly when such a read is out of range, when no position scores (division by zero) or when the logarithm is undefined, else a distance from the two counts |
| Kimura.GapSkipsRead | CO4200-700_Prog_Assignment_v3/multiple_Sequence_Alignment_Modified.py:260-268 | a gap in xa skips the read of ya: "A-" against "A" has one scored exact match and a distance, not the sentinel |
| Kimura.IdenticalCounts | CO4200-700_Prog_Assignment_v3/multiple_Sequence_Alignment_Modified.py:260-264 | a gap-free row against itself: every position scores and matches |
| Kimura.IdenticalRows | CO4200-700_Prog_Assignment_v3/multiple_Sequence_Alignment_Modified.py:256-268 | two identical gap-free non-empty rows get a distance (D = 0), never the sentinel |
| Kimura.PairEntryCounts | CO4200-700_Prog_Assignment_v3/multiple_Sequence_Alignment_Modified.py:252-264 | the aligned pair has two rows of equal length, at most len a + len b, so the entry depends on the counts alone |
| Kimura.PairDistance | CO4200-700_Prog_Assignment_v3/multiple_Sequence_Alignment_Modified.py:252-272 | one entry: fails iff the pair's alignment stops the program, else the entry of the aligned pair |
| Kimura.KimuraRow | CO4200-700_Prog_Assignment_v3/multiple_Sequence_Alignment_Modified.py:250-273 | the entries of one sequence against every sequence, in order |
| Kimura.KimuraDistance | CO4200-700_Prog_Assignment_v3/multiple_Sequence_Alignment_Modified.py:247-274 | a len(L) x len(L) matrix over all ordered pairs (i == j included), failing iff some pair's alignment fails |
| Progressive.ProfileAlignerShape | CO4200-700_Prog_Assignment_v3/multiple_sequence_alignment.py:184-206 | every result of the aligner has one row per input row, all of one length |
| Progressive.AlignOperands | CO4200-700_Prog_Assignment_v3/multiple_sequence_alignment.py:248 | one call of computeProfileAlignment has the outcome of the aligner function |
| Progressive.ComputeMultipleAlignment | CO4200-700_Prog_Assignment_v3/multiple_sequence_alignment.py:238-251 | X itself when len(X) <= 1; otherwise X[0] with X[1], then X[2], X[3], ... folded in order, failing iff some step fails |
| Progressive.AlignRest | CO4200-700_Prog_Assignment_v3/multiple_sequence_alignment.py:245-250 | the while loop completes the fold from the first pair |
| Progressive.AlignNext | CO4200-700_Prog_Assignment_v3/multiple_sequence_alignment.py:248 | one pass aligns the running alignment of X[0..i-1] with X[i] |
| Progressive.FoldUpToNone | CO4200-700_Prog_Assignment_v3/multiple_sequence_alignment.py:246-249 | once a step stops the program, the whole fold does |
| Progressive.FoldShape | CO4200-700_Prog_Assignment_v3/multiple_sequence_alignment.py:244-249 | for a shape-keeping aligner, the fold over the first I sequences has I rows of one length |
| Progressive.SequentialShape | CO4200-700_Prog_Assignment_v3/multiple_sequence_alignment.py:238-251 | the sequential driver returns len(X) rows of one length |
| Progressive.MergeStep | CO4200-700_Prog_Assignment_v3/multiple_Sequence_Alignment_Modified.py:300-302 | a later merge aligns the running A with each operand < len(X), in order, and skips the others |
| Progressive.FoldOperandsNone | CO4200-700_Prog_Assignment_v3/multiple_Sequence_Alignment_Modified.py:300-302 | once an operand's alignment stops the program, the merge does |
| Progressive.FollowMerges | CO4200-700_Prog_Assignment_v3/multiple_Sequence_Alignment_Modified.py:296-303 | the first merge aligns X[merge[0]] with X[merge[1]], later merges fold in their operands; an empty merge list leaves A unbound |
| Progressive.MergeFoldNone | CO4200-700_Prog_Assignment_v3/multiple_Sequence_Alignment_Modified.py:296-302 | once a merge stops the program, the whole loop does |
| Progressive.GuideTreeAlignment | CO4200-700_Prog_Assignment_v3/multiple_Sequence_Alignment_Modified.py:277-303 | X itself when len(X) <= 1; otherwise the Kimura matrix (which may stop the program) and then the merge loop; "unbound" exactly for an empty merge list after a successful matrix |
| Progressive.FoldOperandsShape | CO4200-700_Prog_Assignment_v3/multiple_Sequence_Alignment_Modified.py:300-302 | each operand < len(X) adds exactly one row and rows stay of one length |
| Progressive.MergeFoldShape | CO4200-700_Prog_Assignment_v3/multiple_Sequence_Alignment_Modified.py:296-302 | after I merges: 2 rows plus one per in-range operand of merges 1..I-1, all of one length |
| Progressive.GuideShape | CO4200-700_Prog_Assignment_v3/multiple_Sequence_Alignment_Modified.py:296-303 | the guide-tree result has 2 + (in-range operands of later merges) rows, all of one length |

## Left out

- Printing is not modelled: `display_alignment` / `displayAlignment`, the
  `print` in the sequential driver's loop and in the Kimura `except`
  branch, and the messages of `error()` and `check_alignment`. `exit(1)` is
  a `Failure` result.
- `main`, reading `./sequences/*.txt` and the `__main__` demos are not
  modelled, because they are file and console I/O. `Part2.py`, `Part3i.py`
  and `test.py` are not part of this model.
- The BLOSUM50 table of the `blosum` package is not modelled. It is an
  external lookup and appears only as the parameter `t: (char, char) -> int`.
- The floating-point transform `-log(1 - D - 0.2 D^2)` with `S = e/p` is
  not modelled. An entry keeps the two integer counts. Whether the
  transform is defined is decided by an exact integer test, which
  `LogArgumentPositive` relates to the real-number formula.
- sklearn `AgglomerativeClustering` and numpy are not modelled: the merge
  list `children_` is the parameter `merges`. The Kimura matrix is still
  computed first, because only its failure is visible.
- Python's dynamic typing is not modelled beyond strings and lists. An
  operand is either a string or a list of strings; other argument types,
  for which `computeProfileAlignment` falls through and returns `None`,
  are out of scope.
- The inner `while l < nX` / `while l < nY` loops are written as `forall`
  statements. This covers those in `WriteColumn` and `CopyColumns`. Each of
  them writes distinct cells, so their order is not observable.
- ProfileAlign.AlignProfiles: states when the aligner fails, not which of
  `IndexError` and the illegal-symbol exit is raised first on an input
  that has both problems.
- ProfileAlign.ComputeProfileAlignment: the same as `AlignProfiles`, so the
  kind of failure is not pinned down.
- SumOfPairs.ScoreMultipleAlignment: states when it fails, not which
  failure comes first (an index error or an illegal symbol).
- Progressive.ComputeMultipleAlignment: the failure's kind is not stated,
  only that it fails exactly when some step does.
- The profile aligner on two bare sequences does not reproduce the
  pairwise aligner, and no property says it does. The tie-break orders
  differ (diag, left, top in `NW_Part1.py`; bit 2, bit 1, bit 4 here), and
  the profile aligner never aligns the last character.
- Integer width is not an issue: Python integers are unbounded, and so are
  Dafny's.
