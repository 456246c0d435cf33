# logicpuzzle core in Dafny

A verified model of the puzzle infrastructure and puzzle logic of the Python
repository `logicpuzzle`. The SMT engines themselves are not modelled. These
parts are:

- the rectangular grid topology every puzzle board inherits (`Grid`, `GridFacts`);
- the SMT front end (`Smt`), with the engine abstracted as a finite set of
  satisfying assignments;
- Towers (`Towers`, `TowersText`);
- the Unruly board (`Unruly`);
- both Dominosa boards (`Dominoes`, `Dominosa`, `DominosaScript`) and the
  backtracking solver in `gptosa.py` (`Gptosa`);
- the Minesweeper game state (`Mines`);
- the Sudoku candidate propagation (`Sudoku`);
- Mastermind scoring (`Mastermind`);
- polyomino and pentomino shapes (`Pairs`, `Nominoes`, `Pent`);
- the Digits expression search (`Digits`);
- the Bridges island graph (`Bridges`);
- the undead and Keen text readers (`Undead`, `Keen`);
- the Galaxies grid enumerators (`Galaxies`).

Each source file is one Dafny module. Python-level behaviour several modules
share lives in `common.dfy` (module `Py`):

- `Option` and `Result`, and the Python exceptions as an `Error` datatype;
- `str(int)`, `split`, `join` and negative list indexing.

Pure Python functions become Dafny functions and lemmas. Objects whose
methods update fields become classes with `modifies` clauses. Loops become
methods with invariants, proved against a specification function.

Randomness, such as `random.shuffle`, `random.sample`, `random.randint` and
`random.choice`, becomes a parameter: the permutation, sample or choice
sequence the call picks. `requires` clauses say which values such a call can
return. Exceptions become `Err` results that name the Python exception.

## Model

| member | source | states |
|---|---|---|
| Grid.Board.constructor | logicpuzzles/board.py:95-115 | the new board is valid: `e` holds exactly the nR(nC+1) vertical and (nR+1)nC horizontal edge keys, `f` the nR·nC face keys, `v` the (nR+1)(nC+1) vertex keys, each entity stored under its own index |
| Grid.VerticalEdges | logicpuzzles/board.py:102-104 | the map has exactly the keys (v, r, c) with 0 <= r < nR, 0 <= c <= nC, each mapped to the edge with that index |
| Grid.AddHorizontalEdges | logicpuzzles/board.py:105-107 | adding the horizontal edges gives exactly the in-range edge keys of both directions, each mapped to its own edge |
| Grid.BoardFaces | logicpuzzles/board.py:109-111 | the face map has exactly the in-range (r, c) keys, each mapped to the face at (r, c) |
| Grid.BoardVertices | logicpuzzles/board.py:113-115 | the vertex map has exactly the keys 0 <= r <= nR, 0 <= c <= nC, each mapped to its vertex |
| GridFacts.FaceCount | logicpuzzles/board.py:109-111 | a valid board stores nR·nC faces |
| GridFacts.VertexCount | logicpuzzles/board.py:113-115 | a valid board stores (nR+1)(nC+1) vertices |
| GridFacts.EdgeCount | logicpuzzles/board.py:102-107 | a valid board stores nR(nC+1) + (nR+1)nC edges |
| Grid.Board.GetFace | logicpuzzles/board.py:178-190 | returns the stored face exactly when the index is in range; otherwise it returns the default boundary hook's None, never an error |
| Grid.Board.GetEdge | logicpuzzles/board.py:174-196 | returns the stored edge exactly when the index is in range; otherwise None |
| Grid.Board.GetVertex | logicpuzzles/board.py:182-202 | returns the stored vertex exactly when the index is in range; otherwise None |
| Grid.Board.FaceToFaces | logicpuzzles/board.py:204-212 | yields at most 4 (8 with diagonals) faces, exactly the in-range ones among the orthogonal (and diagonal) neighbours |
| GridFacts.FaceToFacesInterior | logicpuzzles/board.py:204-212 | for an interior face the order is up, down, left, right, then the four diagonals when asked |
| Grid.Board.FaceToEdges | logicpuzzles/board.py:214-224 | an in-range face yields its top, right, bottom and left edges, in that order |
| GridFacts.FaceEdgeInverse | logicpuzzles/board.py:214-239 | for an in-range face f and any edge e: f is among `edge_to_faces(e)` iff e is among `face_to_edges(f)` |
| Grid.Board.FaceToVertices | logicpuzzles/board.py:226-231 | an in-range face yields 4 vertices, exactly the corners (r..r+1, c..c+1) |
| GridFacts.FaceVertexInverse | logicpuzzles/board.py:226-276 | vertex w is a corner of in-range face f iff f is among `vertex_to_faces(w)` |
| Grid.Board.EdgeToFaces | logicpuzzles/board.py:233-239 | an edge yields at most two faces |
| GridFacts.EdgeFaceCount | logicpuzzles/board.py:233-239 | an in-range edge of a non-empty board yields one face on the border and two inside |
| Grid.Board.EdgeToEdges | logicpuzzles/board.py:241-261 | an edge yields at most four edges |
| GridFacts.EdgeToEdgesTouching | logicpuzzles/board.py:241-261 | x is yielded iff x is in range, perpendicular to the edge and shares an endpoint with it; collinear neighbours are not listed |
| Grid.Board.EdgeToVertices | logicpuzzles/board.py:263-268 | an in-range edge yields two distinct vertices, exactly its endpoints: (r,c),(r,c+1) for horizontal, (r,c),(r+1,c) for vertical |
| Grid.Board.VertexToFaces | logicpuzzles/board.py:270-276 | a vertex yields at most four faces |
| Grid.Board.VertexToEdges | logicpuzzles/board.py:278-289 | a vertex yields at most four edges |
| GridFacts.VertexToEdgesIncident | logicpuzzles/board.py:278-289 | x is yielded iff x is an in-range edge with the vertex as an endpoint |
| GridFacts.VertexDegree | logicpuzzles/board.py:278-289 | on a board with nR, nC >= 1, a vertex has 2 edges at a corner, 3 on a side and 4 inside |
| Grid.Board.VertexToVertices | logicpuzzles/board.py:291-297 | yields at most four vertices, exactly the in-range ones one step away |
| GridFacts.NeighboursJoinedByEdge | logicpuzzles/board.py:263-297 | w is a `vertex_to_vertices` neighbour of u iff some in-range edge has exactly u and w as endpoints |
| Grid.Board.IterConsecutiveFaces | logicpuzzles/board.py:299-322 | ValueError iff the direction is not 'row', 'col' or 'both'; otherwise every window holds n faces in one row ('row'), one column ('col') or either ('both') |
| GridFacts.ConsecutiveFacesDirections | logicpuzzles/board.py:309-322 | 'both' yields all row windows and then all column windows; 'row' and 'col' yield one family each |
| Grid.Board.RowWindows | logicpuzzles/board.py:313-316 | nR·max(0, nC-n+1) windows, each n contiguous faces of one row |
| GridFacts.RowWindowsInOrder | logicpuzzles/board.py:313-316 | the window starting at (r, c) is number r·W + c, and all its faces are stored faces |
| Grid.Board.ColWindows | logicpuzzles/board.py:318-322 | nC·max(0, nR-n+1) windows, each n contiguous faces of one column |
| GridFacts.ColWindowsInOrder | logicpuzzles/board.py:318-322 | the window starting at (r, c) is number c·W + r, and all its faces are stored faces |
| Grid.Board.IterBoundaryEdges | logicpuzzles/board.py:324-339 | 2nR + 2nC edges, each in range and on the left/right column or the top/bottom row |
| GridFacts.BoundaryEdgesAreBorder | logicpuzzles/board.py:324-339 | an edge is yielded iff it is in range and on the border, the edges that have only one face |
| GridFacts.BoundaryEdgeAt | logicpuzzles/board.py:331-339 | the i-th yielded edge: pairs (v,r,0),(v,r,nC) row by row, then pairs (h,0,c),(h,nR,c) |
| GridFacts.BoundaryEdgesDistinct | logicpuzzles/board.py:324-339 | on a non-empty board the 2nR + 2nC yielded edges are pairwise distinct |
| Grid.CenterStart | logicpuzzles/board.py:136-144 | a string of up to 2 characters starts at the anchor; a longer one starts one column left of it |
| Grid.Board.TemplateRows | logicpuzzles/board.py:126-134 | nR·v_len + 1 template rows, each nC·h_len + 1 wide, each without a newline |
| Grid.DrawLattice | logicpuzzles/board.py:146-170 | writing one family of entity strings keeps row lengths when the strings fit; single characters land at their anchors and leave every other column unchanged |
| Grid.Board.Pretty | logicpuzzles/board.py:117-172 | the text is the rows joined by newlines: nR·v_len + 1 lines, each nC·h_len + 1 wide when the strings fit; with one-character strings every vertex, edge and face character sits at its anchor, and every face string is written at its centre |
| Smt.Cache.constructor | logicpuzzles/utils/smt_utils.py:10 | the module-level handle cache starts empty |
| Smt.Problem.constructor | logicpuzzles/utils/smt_utils.py:26-34 | a new problem keeps the default width and backend flag, shares the given cache, and starts with no free or unique vars and no constraints asserted |
| Smt.FreshHandle | logicpuzzles/utils/smt_utils.py:85-97 | a new handle is named name_bvlen and is a Bit iff bvlen == 0; any other bvlen still gives a default-width vector |
| Smt.KeyInjective | logicpuzzles/utils/smt_utils.py:87-88 | two cache keys are equal iff the names, backend flags and bit lengths are equal |
| Smt.Problem.NewVar | logicpuzzles/utils/smt_utils.py:66-103 | a cache hit returns the cached handle and leaves the cache alone, even when another problem stored it; a miss stores a fresh handle; free_vars always grows by the handle, unique_vars only when is_unique, cache hits included |
| Smt.Problem.AddConstraint | logicpuzzles/utils/smt_utils.py:105-134 | a formula, or a Bit of the problem's own backend, is asserted for good (the satisfying set is filtered by it); anything else is ValueError and changes nothing |
| Smt.BlockShrinks | logicpuzzles/utils/smt_utils.py:163-183 | a blocking clause over the unique vars strictly shrinks the remaining set, removing exactly the assignments that agree with the model on every unique var |
| Smt.Problem.AllSat | logicpuzzles/utils/smt_utils.py:156-183 | every solution is a satisfying assignment projected on the free vars; no two agree on all unique vars; at most cap; when the loop ends by unsatisfiability, every satisfying assignment agrees with some yielded one on the unique vars; the k-th blocking clause is not asserted when the cap stops the generator |
| Smt.NoUniqueVarsOneSolution | logicpuzzles/utils/smt_utils.py:180-183 | with no unique vars the blocking clause is false, so at most one solution is yielded |
| Smt.Problem.Solve | logicpuzzles/utils/smt_utils.py:139-154 | num_sols < 0 is AssertionError; 0 enumerates everything; k > 0 yields at most k distinct solutions and stops right after the k-th |
| Smt.Problem.GenMin | logicpuzzles/utils/smt_utils.py:191-195 | the least of all-ones and the values, and a value when there is one |
| Smt.Problem.GenMax | logicpuzzles/utils/smt_utils.py:204-208 | the greatest of 0 and the values, and a value when there is one |
| Smt.Problem.GenMinPred | logicpuzzles/utils/smt_utils.py:197-202 | AssertionError iff the lengths differ; otherwise the least of all-ones and the values whose predicate holds |
| Smt.Selected | logicpuzzles/utils/smt_utils.py:200-201 | the values considered by the predicated minimum are exactly those whose predicate holds |
| Smt.Problem.GenTotal | logicpuzzles/utils/smt_utils.py:210-215 | the sum of the values modulo 2^bvlen (default width when omitted), with no widening |
| Smt.TotalWraps | logicpuzzles/utils/smt_utils.py:210-215 | two halves of the range sum to 0: the total wraps around |
| Smt.Problem.Combine | logicpuzzles/utils/smt_utils.py:217-227 | AssertionError for an unknown mode; min, max and total as the folds; min_pred needs preds of matching length |
| Smt.ToBV | logicpuzzles/utils/smt_utils.py:230-246 | conversion to a vector of width w lands in 0..2^w-1 |
| Smt.L1 | logicpuzzles/utils/smt_utils.py:241-243 | the signed-comparison distance is a w-bit value |
| Smt.L1Symmetric | logicpuzzles/utils/smt_utils.py:241-243 | L1(a, b) == L1(b, a) |
| Smt.L1IsDistance | logicpuzzles/utils/smt_utils.py:241-243 | for values below 2^(w-1) L1 is the absolute difference |
| Smt.L1Circ | logicpuzzles/utils/smt_utils.py:234-239 | the circular distance is a w-bit value |
| Smt.L1CircIsCircularDistance | logicpuzzles/utils/smt_utils.py:234-239 | for 0 <= a, b < h_scale it is min(abs(a-b), h_scale-abs(a-b)), at most h_scale/2, and symmetric |
| Smt.DiffCirc | logicpuzzles/utils/smt_utils.py:229-232 | the circular difference is a w-bit value |
| Smt.DiffCircIsModular | logicpuzzles/utils/smt_utils.py:229-232 | for 0 <= a, b < h_scale it is (a - b) mod h_scale |
| Smt.L2 | logicpuzzles/utils/smt_utils.py:245-247 | the squared difference is a w-bit value |
| Smt.L2IsSquare | logicpuzzles/utils/smt_utils.py:245-247 | without overflow it is (a - b)^2 |
| Smt.Problem.Norm | logicpuzzles/utils/smt_utils.py:249-260 | AssertionError iff the kind is not one of diff, L1, L2, L1_circ, diff_circ; otherwise the wrapped total of the per-pair terms |
| Smt.NormIsTotalDistance | logicpuzzles/utils/smt_utils.py:249-260 | on in-range inputs each kind's total is, modulo 2^w, the sum of the reference distances (difference, absolute difference, square, circular distance, circular difference) |
| Towers.NewFace | logicpuzzles/towers/towers.py:25-29 | a face remembers its value; is_solved iff a value is given, and solved_val is the value |
| Towers.FaceText | logicpuzzles/towers/towers.py:31-34 | two spaces exactly for an empty face, otherwise the decimal value |
| Towers.Base | logicpuzzles/towers/towers.py:60-63 | an N×N board whose cell (i, j) is ((i + j) mod N) + 1 |
| Towers.BaseIsLatin | logicpuzzles/towers/towers.py:60-63 | every row and column of the cyclic board is a permutation of 1..N |
| Towers.LatinBase | logicpuzzles/towers/towers.py:60-63 | the nested loops build exactly the cyclic board, which is Latin |
| Towers.PermuteRowsLatin | logicpuzzles/towers/towers.py:65-66 | shuffling the rows keeps a Latin square Latin |
| Towers.TransposeLatin | logicpuzzles/towers/towers.py:68-71 | transposing keeps a Latin square Latin |
| Towers.ShuffleMovesCells | logicpuzzles/towers/towers.py:65-71 | shuffling rows, then columns via a transposition, puts cell (p[i], q[j]) at (i, j) |
| Towers.Shuffled | logicpuzzles/towers/towers.py:60-71 | the generated board is Latin, and cell (i, j) is the base cell (p[i], q[j]) |
| Towers.VisibleBounds | logicpuzzles/towers/towers.py:82-119 | the count of visible towers of a non-empty line lies in 1..len |
| Towers.VisiblePrefix | logicpuzzles/towers/towers.py:82-119 | seeing further never decreases the count |
| Towers.VisibleOneIffTallestFirst | logicpuzzles/towers/towers.py:82-119 | on a permutation of 1..N exactly one tower is visible iff the first tower is the tallest |
| Towers.CountVisible | logicpuzzles/towers/towers.py:83-89 | the loop returns the number of towers taller than all before them, the first included, in 1..len |
| Towers.CluesOf | logicpuzzles/towers/towers.py:79-121 | the clue map has keys T, B, L, R, each with N clues |
| Towers.CluesInRange | logicpuzzles/towers/towers.py:82-119 | on a Latin board every clue lies in 1..N |
| Towers.CountAll | logicpuzzles/towers/towers.py:81-119 | the clue of each line is its visible count |
| Towers.ComputeClues | logicpuzzles/towers/towers.py:79-121 | T reads columns top down, B bottom up, L rows left to right, R right to left |
| Towers.ClueCheck | logicpuzzles/towers/towers.py:54-56 | passes iff each of T, B, L, R is present with N clues; otherwise KeyError or AssertionError |
| Towers.ClueCheckPasses | logicpuzzles/towers/towers.py:54-56 | the format check passes exactly on clue maps with T, B, L, R each holding N clues |
| Towers.GeneratedCluesCheck | logicpuzzles/towers/towers.py:45-56 | generated clues pass the check exactly when N >= 0 |
| Towers.TowersBoard.Randomize | logicpuzzles/towers/towers.py:58-121 | the solution is Latin, every face holds its solution value, and the clues are the visible counts of the solution |
| Towers.TowersBoard.StoreValues | logicpuzzles/towers/towers.py:73-76 | every face gets val = board[r][c]; nothing else changes |
| Towers.TowersBoard.ClearValues | logicpuzzles/towers/towers.py:49-50 | every face's val is reset to None; nothing else changes |
| Towers.TowersBoard.constructor | logicpuzzles/towers/towers.py:42-52 | an N×N board; given clues are kept; otherwise the clues are those of a Latin solution and every face is empty again |
| Towers.TowersBoard.New | logicpuzzles/towers/towers.py:42-56 | succeeds iff the clue check passes (generated clues: iff N >= 0), with the error the check raises; on success every face is empty |
| TowersText.DecorateKeepsAlignment | logicpuzzles/towers/towers.py:143-154 | every decorated grid line keeps the grid line intact from column 3 on |
| TowersText.DecorateLayout | logicpuzzles/towers/towers.py:143-154 | a centre line of a row < N is the left clue centred in 2 columns, a space, the line, a space, and the right clue right-justified in 2; every other line is 3 spaces and the line |
| TowersText.ClueLineRow | logicpuzzles/towers/towers.py:133-161 | a clue row is 3 spaces then N cells of h_len columns, clue c right-justified in 2 columns at offset (h_len-2)//2 of cell c |
| TowersText.DecorateLines | logicpuzzles/towers/towers.py:142-154 | the loop decorates every line of the grid text |
| Towers.Frame | logicpuzzles/towers/towers.py:126-163 | N·v_len + 3 lines: the top clue row, the decorated grid lines and the bottom clue row, with every cell's text at its centre |
| Towers.PrettyLines | logicpuzzles/towers/towers.py:126-163 | the clue rows, the borders and every cell's text land at their places in the assembled lines |
| Towers.TowersBoard.Pretty | logicpuzzles/towers/towers.py:126-163 | N·v_len + 3 lines; top and bottom clue rows with each clue centred in its column; left and right clues on the centre line of each row; every face's text at the centre of its cell (heights and clues 0..99, h_len >= 2) |
| Unruly.FaceText | logicpuzzles/unruly/unruly.py:29-32 | a single space exactly for an empty face, otherwise the decimal value |
| Unruly.Trunc | logicpuzzles/unruly/unruly.py:53 | `int()` of a real truncates toward zero |
| Unruly.Positions | logicpuzzles/unruly/unruly.py:56 | all nR·nC positions, each in range, in row-major order |
| Unruly.RandomBoard | logicpuzzles/unruly/unruly.py:50-65 | ValueError iff the sample size int(nR·nC·percent) is out of range; otherwise an nR×nC grid whose sampled cells hold their random bit and all other cells 2, with exactly that many filled cells |
| Unruly.Decode | logicpuzzles/unruly/unruly.py:45-47 | code 2 leaves the face empty; any other code becomes its value |
| Unruly.EncodeRoundTrip | logicpuzzles/unruly/unruly.py:45-47 | decoding a grid of 0/1/2 codes into faces and encoding the faces back gives the grid |
| Unruly.UnrulyBoard.constructor | logicpuzzles/unruly/unruly.py:37-47 | an N×N board whose faces decode the given grid |
| Unruly.UnrulyBoard.CheckShape | logicpuzzles/unruly/unruly.py:42-43 | passes iff the grid has nR rows of nC entries |
| Unruly.UnrulyBoard.New | logicpuzzles/unruly/unruly.py:37-47 | AssertionError iff the given grid is not N×N; a generated grid has exactly int(N·N·percent) filled cells, ValueError when that is out of range; on success the faces decode the grid |
| Dominoes.DsFacts | logicpuzzles/dominosa/dominosa.py:29 | the domino set holds exactly the pairs 0 <= i <= j < N, in strictly increasing lexicographic order, N(N+1)/2 of them |
| Dominoes.SetAt | logicpuzzles/dominosa/dominosa.py:79-82 | writing one in-range cell changes that cell and no other |
| Dominoes.TryTiling | logicpuzzles/dominosa/dominosa.py:37-60 | one pass of the greedy tiling labels every domino index on exactly two adjacent cells; on success every cell is labelled and there are NR·NC/2 dominoes |
| Dominoes.TileCell | logicpuzzles/dominosa/dominosa.py:42-60 | visiting a cell keeps the labelling consistent; on success every cell up to and including it is labelled |
| Dominoes.RandomTiling | logicpuzzles/dominosa/dominosa.py:36-62 | the retry loop ends with a full labelling of adjacent pairs on success; with no attempts left it has not succeeded |
| Dominoes.SortPair | logicpuzzles/dominosa/dominosa.py:92 | `sorted([v0, v1])`: the two values in ascending order |
| Dominoes.SortOriented | logicpuzzles/dominosa/dominosa.py:66-92 | sorting a domino written either way round gives back the domino |
| Dominoes.LocsApart | logicpuzzles/dominosa/dominosa.py:57-59 | the two cells of a domino differ, and no two dominoes share a cell |
| Dominoes.WriteTiles | logicpuzzles/dominosa/dominosa.py:63-69 | KeyError iff more dominoes than tiled slots; otherwise domino d, possibly reversed, is written onto the two cells of slot d and cells of later slots keep their label |
| Dominoes.ScanFacts | logicpuzzles/dominosa/dominosa.py:88-94 | the scan of placements fails iff some placement reads an error or lands off the board; otherwise it records each placement's sorted tile and both cells |
| Dominoes.CheckMeaning | logicpuzzles/dominosa/dominosa.py:84-97 | `verify` passes iff there are N(N+1)/2 placements, every placement reads two values on the board, every cell is covered exactly once, and no two tiles are equal |
| Dominoes.ScanPlacements | logicpuzzles/dominosa/dominosa.py:86-94 | the loop agrees with the scan, and its counters hold how often each cell is covered |
| Dominoes.AllOnes | logicpuzzles/dominosa/dominosa.py:95 | true iff every counter is 1 |
| Dominoes.AllDistinct | logicpuzzles/dominosa/dominosa.py:96-97 | true iff no two tiles are equal |
| Dominoes.Verify | logicpuzzles/dominosa/dominosa.py:84-97 | the method returns exactly the check's verdict, with the exception it raises |
| Dominoes.ScanErrorExtends | logicpuzzles/dominosa/dominosa.py:88-94 | once a placement raises, later placements do not change the outcome |
| Dominoes.PermutedDs | logicpuzzles/dominosa/dominosa.py:63-64 | a shuffle of the domino set has N(N+1)/2 sorted, pairwise distinct tiles |
| Dominoes.FullTilingCoveredOnce | logicpuzzles/dominosa/dominosa.py:42-95 | the slots of a full tiling cover every cell exactly once |
| Dominoes.GeneratedBoardVerifies | logicpuzzles/dominosa/dominosa.py:36-97 | a generated board passes `verify` for its own tiling, and its tiles are the domino set |
| Dominosa.Board.Val | logicpuzzles/dominosa/dominosa.py:74-77 | -1 for any out-of-range coordinate, negative or too large; the stored cell otherwise |
| Dominosa.Board.Set | logicpuzzles/dominosa/dominosa.py:79-82 | ValueError, with the board unchanged, iff the coordinate is out of range; otherwise only that cell changes, and `val` then reads the value |
| Dominosa.Board.constructor | logicpuzzles/dominosa/dominosa.py:25-34 | NR = N, NC = N + 1; the board holds the given grid's N by N + 1 window, and `val` of any cell of the given grid is its number inside the window and -1 outside it |
| Dominosa.Board.Random | logicpuzzles/dominosa/dominosa.py:25-69 | a generated board fills every cell, passes `verify` for its tiling, and the tiles of that tiling are exactly the domino set |
| Dominosa.Board.Verify | logicpuzzles/dominosa/dominosa.py:84-97 | the board's `verify` is the shared check over its `val` |
| Dominosa.BoardTextLines | logicpuzzles/dominosa/dominosa.py:71-72 | `__str__` has one line per row, each the row's values with no separator |
| Dominosa.BoardTextDigits | logicpuzzles/dominosa/dominosa.py:71-72 | for one-digit values, character c of line r is the digit at (r, c) |
| Dominosa.ClearBorders | logicpuzzles/dominosa/dominosa.py:111-120 | the border grids start all-True, and a border is False iff some placement opens it: below (r, c) for dir 0, right of (r, c) for dir 1; an index off the grid fails |
| Dominosa.DrawLines | logicpuzzles/dominosa/dominosa.py:122-142 | the loops build the top border, then per row the value line and the border line below it |
| Dominosa.Board.PrettyPrint | logicpuzzles/dominosa/dominosa.py:110-144 | the method's text is the drawing the specification function describes |
| Dominosa.PrettyLineCount | logicpuzzles/dominosa/dominosa.py:123-144 | the drawing has 2·NR + 1 lines |
| Dominosa.BorderBelowOpen | logicpuzzles/dominosa/dominosa.py:116-141 | the segment below (r, c) is blank iff some dir-0 placement opens it, and "---" otherwise |
| Dominosa.PrettyExample | logicpuzzles/dominosa/dominosa.py:99-109 | the doc-comment example board and placements give exactly the drawn example |
| DominosaScript.LooseValueAt | dominosa/dominosa.py:65-68 | -1 only when r >= NR or c >= NC; a negative index wraps like a Python list index, and IndexError below -NR or -NC |
| DominosaScript.NegativeRowWraps | dominosa/dominosa.py:65-68 | row -1 reads the last row here, while the package copy answers -1 |
| DominosaScript.Board.Set | dominosa/dominosa.py:70-74 | ValueError iff r >= NR or c >= NC; an IndexError for a too-negative index; otherwise the wrapped cell gets the value |
| DominosaScript.Board.constructor | dominosa/dominosa.py:13-22 | NR = N, NC = N + 1, and the board holds the given grid |
| DominosaScript.Board.Random | dominosa/dominosa.py:24-57 | a generated board fills every cell, passes `verify` for its tiling, and its tiles are exactly the domino set |
| DominosaScript.Board.Verify | dominosa/dominosa.py:76-89 | `verify` is the shared check over this copy's `val` |
| DominosaScript.InitBoard | dominosa/dominosa.py:59-60 | always NotImplementedError |
| Gptosa.Search.constructor | dominosa/gptosa.py:58 | the search starts with no cell used |
| Gptosa.IsValid | dominosa/gptosa.py:1-4 | true only when both cells are on the board, hold n[0] and n[1] in that order, and are free |
| Gptosa.IsValidOrdered | dominosa/gptosa.py:3 | a domino with two different numbers does not fit the same cells reversed |
| Gptosa.NoFitAnywhere | dominosa/gptosa.py:11-31 | when no cell fits the current domino either way, the search cannot be completed |
| Gptosa.Search.Solve | dominosa/gptosa.py:6-31 | True iff dominoes index.. can be laid one after another, each on two free cells that match it in order; on False `used` is as on entry; on True it has grown by 2·(len(dominos) - index) distinct cells |
| Gptosa.Search.Try | dominosa/gptosa.py:13-29 | one tentative placement: succeeds iff the domino lies there and the rest can follow; on failure both cells are removed again |
| Gptosa.GenerateDominos | dominosa/gptosa.py:33-38 | the loops produce the domino set over 0..N |
| Gptosa.GeneratedDominos | dominosa/gptosa.py:33-38 | every (i, j) with 0 <= i <= j <= N, in lexicographic order, (N+1)(N+2)/2 of them |
| Mines.CellTextMeaning | logicpuzzles/mines/minesweeper.py:20-23 | a cell prints "X" iff it is a mine, "." iff it is safe with no mine around, its digit otherwise; a fresh cell prints "." |
| Mines.NewCellsOfBoard | logicpuzzles/mines/minesweeper.py:14-26 | the `MineBoard` of a shape holds one default cell per grid face: same keys and coordinates, no mine, count 0 |
| Mines.AdjacentMeaning | logicpuzzles/mines/mines_game.py:99-105 | the number of mines around a cell is at most 8, and 0 iff none of its in-grid eight neighbours is a mine |
| Mines.EmptyNeighboursSafe | logicpuzzles/mines/mines_game.py:91-118 | on a numbered board every neighbour of a safe cell with count 0 is on the board and safe |
| Mines.ClickedCell | logicpuzzles/mines/mines_game.py:154-165 | a grid cell is returned only when the pixel lies in that cell's square below the header; None exactly when the pixel lies in no cell of the grid |
| Mines.DropHint | logicpuzzles/mines/mines_game.py:175-197 | hints stay absent when absent; otherwise the cell's entry is removed and nothing else |
| Mines.PlacedMines | logicpuzzles/mines/mines_game.py:77-89 | placing the chosen sample changes only mine flags: the mines are exactly the sample, there are `mines` of them, and the safe cell is not one |
| Mines.PlaceMines | logicpuzzles/mines/mines_game.py:77-89 | ValueError iff the mine count is negative or exceeds the other cells (what `random.sample` rejects); otherwise the board with the sample placed |
| Mines.ClearMines | logicpuzzles/mines/mines_game.py:83-85 | every cell but the safe one loses its mine flag; the safe cell is untouched |
| Mines.SameMines | logicpuzzles/mines/mines_game.py:91-97 | boards with the same keys and mine flags have the same mine set |
| Mines.NumberingNumbered | logicpuzzles/mines/mines_game.py:91-97 | numbering keeps the keys, the mines and the mine cells, changes only counts, and leaves every safe cell holding the number of mines around it |
| Mines.CountAdjacentMines | logicpuzzles/mines/mines_game.py:99-105 | the loop's count is the number of mine cells among the eight in-grid neighbours, between 0 and 8 |
| Mines.CalculateNumbers | logicpuzzles/mines/mines_game.py:91-97 | the nested loops give exactly the numbered board |
| Mines.NumberRow | logicpuzzles/mines/mines_game.py:94-97 | after one row every cell before the next row is numbered and the rest are unchanged |
| Mines.NumberedStep | logicpuzzles/mines/mines_game.py:95-97 | numbering one more cell extends the numbered prefix by that cell |
| Mines.NumberedRowEnd | logicpuzzles/mines/mines_game.py:93-94 | finishing a row's columns is starting the next row |
| Mines.NumberCell | logicpuzzles/mines/mines_game.py:95-97 | one loop step: the cell gets its count when safe, a mine is unchanged |
| Mines.SpreadUnion | logicpuzzles/mines/mines_game.py:107-118 | flood-fill results that each only spread from counted-zero cells combine into one such result |
| Mines.Reveal | logicpuzzles/mines/mines_game.py:107-118 | `reveal` only adds cells; a revealed or flagged cell changes nothing; the cell ends revealed unless flagged; no flagged cell and no mine other than the clicked cell is added; a numbered cell adds only itself; every added cell is reached from the click by a ranked chain of added counted-zero cells, each next to the one before, and every unflagged neighbour of an added zero cell is revealed; by Mines.RevealUnique this is exactly the flood fill |
| Mines.RevealAround | logicpuzzles/mines/mines_game.py:115-118 | the loop over an empty cell's neighbours reveals or skips (flagged) each of them; every added cell is fed from the cell by a ranked chain of added counted-zero cells |
| Mines.ShownGrow | logicpuzzles/mines/mines_game.py:116-118 | the neighbours handled so far stay revealed or flagged as the set grows |
| Mines.RevealFace | logicpuzzles/mines/mines_game.py:117-118 | one neighbour step of the loop: the neighbour ends revealed or flagged, and every added cell is still fed from the empty cell by a ranked chain |
| Mines.FedGrow | logicpuzzles/mines/mines_game.py:116-118 | a neighbour's flood fill, reached from that neighbour, added to a batch fed from the cell, is still fed from the cell: the two rankings combine |
| Mines.FedReached | logicpuzzles/mines/mines_game.py:112-118 | the cell plus what its neighbours' fills added is reached from the cell: the cell takes rank 0 and every other cell moves one rank up |
| Mines.RankedWalk | logicpuzzles/mines/mines_game.py:107-118 | every cell of a reached batch ends a walk from the clicked cell that steps from neighbour to neighbour through counted-zero cells of the batch |
| Mines.RevealUnique | logicpuzzles/mines/mines_game.py:107-118 | the reveal outcome is determined: two revealed sets that both meet it are equal, so it admits only the source's flood fill |
| Mines.ReachedWithin | logicpuzzles/mines/mines_game.py:107-118 | every cell one reveal outcome adds is added by any other outcome of the same click |
| Mines.RankedWithin | logicpuzzles/mines/mines_game.py:113-118 | by induction on the rank: a cell reached through added zero cells is revealed by any closed outcome of the same click |
| Mines.WinCount | logicpuzzles/mines/mines_game.py:120-122 | with only safe cells revealed, `len(revealed) == w·h - mines` holds iff every safe cell is revealed |
| Mines.FreshValid | logicpuzzles/mines/mines_game.py:60-67 | a fresh game satisfies the game invariant, waiting for the first click with nothing revealed |
| Mines.ArmedValid | logicpuzzles/mines/mines_game.py:180-183 | the first click keeps the invariant; the mines are exactly the sample, and the clicked cell is not one |
| Mines.ExplodedValid | logicpuzzles/mines/mines_game.py:186-189 | clicking a mine keeps the invariant, ends the game and reveals every mine |
| Mines.SweptValid | logicpuzzles/mines/mines_game.py:190-197 | a safe click keeps the invariant, reveals the cell and no mine, and the game is won iff every safe cell is revealed |
| Mines.RightClickedValid | logicpuzzles/mines/mines_game.py:167-177 | right-clicking keeps the invariant and `mines_left + len(flagged)`; it changes nothing iff the cell is revealed |
| Mines.Minesweeper.constructor | logicpuzzles/mines/mines_game.py:30-75 | the given and initial shape and mine count are stored; fresh board, nothing revealed or flagged, first click pending, no solver |
| Mines.Minesweeper.CheckWin | logicpuzzles/mines/mines_game.py:120-129 | True iff `len(revealed) == w·h - mines`; on True every mine is added to the flags, otherwise the flags are unchanged |
| Mines.Minesweeper.RevealAllMines | logicpuzzles/mines/mines_game.py:199-204 | the revealed set gains exactly the mines |
| Mines.Minesweeper.RightClick | logicpuzzles/mines/mines_game.py:167-177 | the state becomes the right-click step: an unrevealed cell toggles its flag and moves `mines_left` by one, and its hint is dropped |
| Mines.Minesweeper.LeftClick | logicpuzzles/mines/mines_game.py:178-197 | a flagged cell changes nothing; the first click places and numbers the mines away from the cell (ValueError when the count does not fit); a mine ends the game and reveals all mines; a safe cell floods, checks the win, zeroes `mines_left` on a win and drops its hint; the invariant holds after |
| Mines.Minesweeper.FirstClick | logicpuzzles/mines/mines_game.py:180-183 | the first-click flag drops; ValueError iff the mine count does not fit; otherwise the board is the placed and numbered sample |
| Mines.Minesweeper.Explode | logicpuzzles/mines/mines_game.py:186-189 | game over, the fatal mine recorded, every mine revealed |
| Mines.Minesweeper.SafeClick | logicpuzzles/mines/mines_game.py:190-197 | the revealed set is the flood fill from the cell, the one outcome Mines.RevealUnique allows; the win flag, flags, `mines_left` and hints follow the win test |
| Mines.Minesweeper.HandleClick | logicpuzzles/mines/mines_game.py:131-197 | ignored (state unchanged) while hints are found or the solver runs, after the game ends, on the header or off the grid; otherwise the right- or left-click step on the cell under the mouse |
| Mines.Minesweeper.RestartGame | logicpuzzles/mines/mines_game.py:456-473 | the mine count and `mines_left` back to the initial count, a fresh board, and the solver fields idle |
| Mines.Minesweeper.ResetBoard | logicpuzzles/mines/mines_game.py:458-466 | the game fields of a restart: the initial mine count on a fresh board |
| Mines.Minesweeper.ResetSolver | logicpuzzles/mines/mines_game.py:468-473 | the solver fields of a restart: none attached, nothing running or queued |
| Sudoku.DigitsCard | logicpuzzles/broken/sudoku/sudoku.py:45 | the candidate set 1..9 has nine members |
| Sudoku.Rids | logicpuzzles/broken/sudoku/sudoku.py:7-9 | AssertionError iff r is outside 0..8; otherwise nine cells |
| Sudoku.Ridx | logicpuzzles/broken/sudoku/sudoku.py:11-13 | AssertionError iff i is outside 0..80; otherwise a row in 0..8 |
| Sudoku.Cids | logicpuzzles/broken/sudoku/sudoku.py:15-17 | AssertionError iff c is outside 0..8; otherwise nine cells |
| Sudoku.Cidx | logicpuzzles/broken/sudoku/sudoku.py:19-21 | AssertionError iff i is outside 0..80; otherwise a column in 0..8 |
| Sudoku.Box | logicpuzzles/broken/sudoku/sudoku.py:24-32 | the cells of box b: nine indices on the board |
| Sudoku.RowMembers | logicpuzzles/broken/sudoku/sudoku.py:7-13 | `rids` and `ridx` are inverse: i is in row r's cells iff `ridx(i) == r` |
| Sudoku.ColMembers | logicpuzzles/broken/sudoku/sudoku.py:15-21 | `cids` and `cidx` are inverse: i is in column c's cells iff `cidx(i) == c` |
| Sudoku.BoxCell | logicpuzzles/broken/sudoku/sudoku.py:24-37 | the k-th cell of box b lies at row 3(b/3) + k/3 and column 3(b%3) + k%3, and `bidx` maps it back to b |
| Sudoku.BoxMembers | logicpuzzles/broken/sudoku/sudoku.py:24-37 | `bids` and `bidx` are inverse: i is in box b iff i is on the board and `bidx(i) == b` |
| Sudoku.Bids | logicpuzzles/broken/sudoku/sudoku.py:24-32 | AssertionError iff b is outside 0..8; otherwise the nested loops give exactly box b |
| Sudoku.OwnUnits | logicpuzzles/broken/sudoku/sudoku.py:188 | every cell lies in its own row, column and box |
| Sudoku.Units | logicpuzzles/broken/sudoku/sudoku.py:188 | the three units `set_spot` sweeps: nine on-board cells each |
| Sudoku.UnitsArePeers | logicpuzzles/broken/sudoku/sudoku.py:188-191 | every cell sharing a row, column or box with i is visited by `set_spot`'s sweep |
| Sudoku.SolvedCount | logicpuzzles/broken/sudoku/sudoku.py:78 | `sum(solved)` is at most the number of cells |
| Sudoku.TotalUpdate | logicpuzzles/broken/sudoku/sudoku.py:79 | replacing one cell's candidates moves `poss_left` by the difference of sizes |
| Sudoku.TotalShrinks | logicpuzzles/broken/sudoku/sudoku.py:79 | `poss_left` cannot grow when every cell's candidates shrink |
| Sudoku.CountGrows | logicpuzzles/broken/sudoku/sudoku.py:78 | solved flags that only turn on never lower `sum(solved)`, and a newly solved cell raises it |
| Sudoku.EvolvedTrans | logicpuzzles/broken/sudoku/sudoku.py:182-203 | candidates that only shrink and flags that only turn on compose over several steps |
| Sudoku.MeasureShrinks | logicpuzzles/broken/sudoku/sudoku.py:82-89 | every step keeps the termination measure from growing, and a lost candidate lowers it |
| Sudoku.Places | logicpuzzles/broken/sudoku/sudoku.py:111-114 | the cells of `nums[v]`: no more than the unit, all on the board |
| Sudoku.PlacesMembers | logicpuzzles/broken/sudoku/sudoku.py:111-114 | a cell is in `nums[v]` iff it is in the unit and v is one of its candidates |
| Sudoku.AddCell | logicpuzzles/broken/sudoku/sudoku.py:112-114 | one step of the `nums` loop appends the cell to the list of each of its candidates and to no other |
| Sudoku.Line | logicpuzzles/broken/sudoku/sudoku.py:125 | a cell's row or column lies in 0..8 |
| Sudoku.LineUnit | logicpuzzles/broken/sudoku/sudoku.py:145-152 | a row or column has nine cells on the board |
| Sudoku.OnLineMeans | logicpuzzles/broken/sudoku/sudoku.py:123-131 | the cells lie on line l iff each one's row or column is l |
| Sudoku.Holding | logicpuzzles/broken/sudoku/sudoku.py:165-169 | the cells of the unit whose candidates are the given key |
| Sudoku.HoldingMembers | logicpuzzles/broken/sudoku/sudoku.py:165-169 | a cell is grouped under a key iff it is in the unit and holds exactly those candidates |
| Sudoku.NakedKeysMeans | logicpuzzles/broken/sudoku/sudoku.py:164-169 | the keys of `sets` are distinct, every unsolved cell's candidates are one of them, and each key has at least one cell and is not a single candidate |
| Sudoku.NakedSweeps | logicpuzzles/broken/sudoku/sudoku.py:170-175 | one sweep per key |
| Sudoku.NakedSweepsMean | logicpuzzles/broken/sudoku/sudoku.py:170-175 | all sweeps done iff every naked group's values are gone from the rest of the unit |
| Sudoku.GroupMapMeans | logicpuzzles/broken/sudoku/sudoku.py:164-169 | `sets` maps each key of the unit to exactly the cells holding it, and holds every key that has cells |
| Sudoku.GroupTableOf | logicpuzzles/broken/sudoku/sudoku.py:164-169 | the keys and the map agree |
| Sudoku.GroupSweeps | logicpuzzles/broken/sudoku/sudoku.py:170-175 | one sweep per key |
| Sudoku.Board.constructor | logicpuzzles/broken/sudoku/sudoku.py:41-45 | all 81 cells unsolved with the nine candidates |
| Sudoku.Board.SetSpot | logicpuzzles/broken/sudoku/sudoku.py:182-191 | AssertionError with nothing changed when v is not a candidate; otherwise the cell is solved to v and every peer loses v; candidates only shrink |
| Sudoku.Board.Remove | logicpuzzles/broken/sudoku/sudoku.py:193-203 | False with nothing changed iff v is not a candidate; AssertionError when v is the last one; otherwise v is gone, the candidate count drops, a cell down to one candidate is solved, and with three or more only that cell changes |
| Sudoku.Board.CandidateCells | logicpuzzles/broken/sudoku/sudoku.py:111-138 | `nums[v]` is the unit's cells that have v as a candidate, in unit order |
| Sudoku.Board.UniqueNumber | logicpuzzles/broken/sudoku/sudoku.py:109-120 | False with nothing changed iff no value has a single unsolved place in the unit; True raises the solved count; every such value ends placed |
| Sudoku.Board.Strip | logicpuzzles/broken/sudoku/sudoku.py:173-175 | removing a set of values from one cell: False iff none was there; afterwards none is |
| Sudoku.Board.StripAll | logicpuzzles/broken/sudoku/sudoku.py:173-175 | the values are gone from every listed cell; False iff none was there to start with |
| Sudoku.Board.Colinear | logicpuzzles/broken/sudoku/sudoku.py:123-131 | IndexError iff the list is empty; otherwise the line is returned iff all cells share it, and it is the first cell's line |
| Sudoku.Board.SpotPair | logicpuzzles/broken/sudoku/sudoku.py:122-158 | False with nothing changed iff every value confined to one row or column of the unit is already gone from the rest of that line; afterwards it is gone |
| Sudoku.Board.ClearSide | logicpuzzles/broken/sudoku/sudoku.py:143-156 | the value is gone from the rest of the cells' shared line; IndexError on an empty list |
| Sudoku.Board.ClearValue | logicpuzzles/broken/sudoku/sudoku.py:140-156 | one value's column then row sweep; False iff nothing was there to remove |
| Sudoku.Board.ClearLines | logicpuzzles/broken/sudoku/sudoku.py:140-156 | the loop over all nine values: False iff every sweep was already done; afterwards all are |
| Sudoku.Board.ClearStep | logicpuzzles/broken/sudoku/sudoku.py:140-156 | one value of that loop keeps the swept-so-far invariant or proves the sweep was not done |
| Sudoku.Board.NakedGroups | logicpuzzles/broken/sudoku/sudoku.py:164-169 | the keys in first-seen order and the map from key to the unit's cells holding it |
| Sudoku.Board.ClearGroups | logicpuzzles/broken/sudoku/sudoku.py:170-175 | every group whose size equals its key's size has its values removed from the other cells; False iff nothing was removed |
| Sudoku.Board.NakedPair | logicpuzzles/broken/sudoku/sudoku.py:162-176 | False with nothing changed iff the unit has no naked group with values left to remove elsewhere; afterwards none has |
| Sudoku.Board.Apply | logicpuzzles/broken/sudoku/sudoku.py:99 | one strategy on one unit: False with nothing changed iff the unit is stuck for it; True lowers the measure |
| Sudoku.Board.UnitIds | logicpuzzles/broken/sudoku/sudoku.py:93-99 | the cells of the i-th row, column or box |
| Sudoku.Board.RunStrat | logicpuzzles/broken/sudoku/sudoku.py:91-100 | False with nothing changed iff every unit of the chosen kinds is stuck; True lowers the measure |
| Sudoku.Board.StratUnit | logicpuzzles/broken/sudoku/sudoku.py:97-99 | one unit of that loop keeps the run-so-far invariant or proves some unit was not stuck |
| Sudoku.Board.CheckUnit | logicpuzzles/broken/sudoku/sudoku.py:209-214 | passes iff every cell of the unit has one candidate and together they are nine values |
| Sudoku.Board.CheckIndex | logicpuzzles/broken/sudoku/sudoku.py:207-214 | passes iff row, column and box i all pass |
| Sudoku.Board.Verify | logicpuzzles/broken/sudoku/sudoku.py:205-214 | passes iff every row, column and box holds nine distinct single values |
| Sudoku.Board.Won | logicpuzzles/broken/sudoku/sudoku.py:71-75 | True iff every cell is solved and the grid verifies; False iff some cell is unsolved; AssertionError when all are solved but `verify` fails |
| Sudoku.Board.ScoreFacts | logicpuzzles/broken/sudoku/sudoku.py:77-80 | `missing` is in 0..81, `poss_left` in 81..729, and nothing is missing iff every cell has one candidate |
| Sudoku.Board.Solve | logicpuzzles/broken/sudoku/sudoku.py:82-89 | candidates only shrink; on return the board is won, or every strategy is stuck on every unit |
| Sudoku.Board.Init | logicpuzzles/broken/sudoku/sudoku.py:40-69 | AssertionError unless 81 entries in 0..9; otherwise every given is kept, and the result is True iff the board ends won |
| Sudoku.OneLeft | logicpuzzles/broken/sudoku/sudoku.py:200-202 | a cell with one candidate left holds exactly that candidate |
| Sudoku.LacksUnion | logicpuzzles/broken/sudoku/sudoku.py:145-156 | a sweep over two cell sets is done iff it is done over each |
| Sudoku.SpotSweepsMean | logicpuzzles/broken/sudoku/sudoku.py:140-156 | all of `spot_pair`'s line sweeps done iff the unit is stuck for `spot_pair` |
| Sudoku.UniqueDone | logicpuzzles/broken/sudoku/sudoku.py:115-120 | after all nine values, `changed` is False iff the unit was stuck for `unique_number` |
| Sudoku.AllStuckMeans | logicpuzzles/broken/sudoku/sudoku.py:97-99 | stuck on every unit of the list iff stuck on each |
| Sudoku.UnionMembers | logicpuzzles/broken/sudoku/sudoku.py:209-213 | a value is in `pset` iff some cell of the unit holds it |
| Sudoku.UnionCard | logicpuzzles/broken/sudoku/sudoku.py:209-214 | with one value per cell, `pset` has at most as many values as cells, and exactly as many iff the values differ pairwise |
| Sudoku.UnitOkMeans | logicpuzzles/broken/sudoku/sudoku.py:209-214 | a unit passes iff its nine cells are single and pairwise different, and then it holds exactly 1..9 |
| Sudoku.TotalBounds | logicpuzzles/broken/sudoku/sudoku.py:79 | `poss_left` lies between the cell count and nine times it, and equals the cell count iff every cell is down to one candidate |
| Sudoku.CountAll | logicpuzzles/broken/sudoku/sudoku.py:72 | `sum(solved)` is the cell count iff `all(solved)` |
| Sudoku.GivensKept | logicpuzzles/broken/sudoku/sudoku.py:46-49 | once placed, a given stays placed through every later step |
| Mastermind.Mask | mastermind/mm.py:11 | `used` has one flag per position both lists share, true iff guess and answer agree there |
| Mastermind.TruesFromBound | mastermind/mm.py:12 | `sum` over a suffix counts no more than the suffix's length |
| Mastermind.TruesFromSet | mastermind/mm.py:18 | claiming an unused answer slot raises the count of used slots by one exactly when the slot is inside the counted suffix |
| Mastermind.Claim | mastermind/mm.py:15-19 | the inner loop stops at the first unused answer slot equal to g; None when there is none; IndexError when `used` is shorter than the answer (a longer answer than guess) |
| Mastermind.ProcessGuess | mastermind/mm.py:7-20 | the loops compute `process_guess`'s (black, white) pair, including the assertion and index errors |
| Mastermind.Key | mastermind/mm.py:26 | `key[ai][gi]` is true iff guess gi equals answer ai |
| Mastermind.ProcessGuess2 | mastermind/mm.py:23-39 | the loops compute `process_guess2`'s (black, white) pair, including the index error |
| Mastermind.WhitesDefined | mastermind/mm.py:14-19 | with `used` covering the answer, the white count raises no error |
| Mastermind.WhitesBound | mastermind/mm.py:12-20 | whites plus used slots never exceed the answer's length |
| Mastermind.ScoreBound | mastermind/mm.py:7-20 | black + white is at most the code length |
| Mastermind.ScoresAgree | mastermind/mm.py:7-39 | on equal-length lists of non-negative ints the two scorers agree and succeed; `process_guess2` fails iff the answer is shorter than the guess |
| Mastermind.WhitesNone | mastermind/mm.py:16 | with every answer slot used, no white is counted |
| Mastermind.SelfScore | mastermind/mm.py:7-39 | a code scored against itself is all black, no white, by both scorers |
| Mastermind.TestVectors | mastermind/mm.py:41-57 | each of the six `check` calls at module level passes both scorers |
| Mastermind.Example1 | mastermind/mm.py:52 | guess [1,2,1] against [2,1,2] scores 0 black, 2 white |
| Mastermind.Example2 | mastermind/mm.py:53 | guess [1,1,3] against [1,2,2] scores 1 black, 0 white |
| Mastermind.Example3 | mastermind/mm.py:54 | guess [1,1,2] against [1,3,1] scores 1 black, 1 white |
| Mastermind.Example4 | mastermind/mm.py:55 | guess [1,2,3] against [3,1,2] scores 0 black, 3 white |
| Mastermind.Example5 | mastermind/mm.py:56 | guess [1,2,3] against [4,5,6] scores 0 black, 0 white |
| Mastermind.Vector | mastermind/mm.py:41-49 | `check` passes whenever the expected pair is `process_guess`'s |
| Mastermind.CWhitesCount | mastermind/mm.py:14-19 | the corrected white loop counts the common values of the unmatched guess and the unclaimed answer |
| Mastermind.CorrectedCounts | mastermind/mm.py:7-20 | in the corrected scorer black + white is the size of the multiset intersection of guess and answer |
| Mastermind.BlackAlsoClaims | mastermind/mm.py:14-19 | guess [1,2] against answer [1,1]: both scorers say (1, 1) although only one colour is shared; the corrected scorer says (1, 0) |
| Nominoes.Rotate | logicpuzzles/broken/pentominoes/nominoes.py:19-20 | each cell (x, y) becomes (-y, x), in order |
| Nominoes.Reflect | logicpuzzles/broken/pentominoes/nominoes.py:22-23 | each cell (x, y) becomes (-x, y), in order |
| Nominoes.RotateFour | logicpuzzles/broken/pentominoes/nominoes.py:19-28 | four rotations give back the shape |
| Nominoes.ReflectTwice | logicpuzzles/broken/pentominoes/nominoes.py:22-23 | reflecting twice gives back the shape |
| Nominoes.RotateReflect | logicpuzzles/broken/pentominoes/nominoes.py:19-23 | rotating a mirror image is mirroring three rotations |
| Nominoes.TurnsKeepDistinct | logicpuzzles/broken/pentominoes/nominoes.py:19-23 | rotation and reflection keep the cells pairwise distinct |
| Nominoes.Transforms | logicpuzzles/broken/pentominoes/nominoes.py:26-29 | the eight transformations, each as long as the shape |
| Nominoes.NormalizeFacts | logicpuzzles/broken/pentominoes/nominoes.py:14-17 | `normalize` is a sorted arrangement of the shape shifted by its least x and y, with a cell in column 0 and one in row 0 |
| Nominoes.NormalizeDistinct | logicpuzzles/broken/pentominoes/nominoes.py:14-17 | normalizing keeps the cells distinct |
| Nominoes.NormalForms | logicpuzzles/broken/pentominoes/nominoes.py:30 | eight normal forms |
| Nominoes.Canonical | logicpuzzles/broken/pentominoes/nominoes.py:25-30 | the canonical form is one of the eight normal forms and no greater than any of them |
| Nominoes.CanonicalSame | logicpuzzles/broken/pentominoes/nominoes.py:25-30 | shapes with the same transformations have the same canonical form |
| Nominoes.TransformsRotate | logicpuzzles/broken/pentominoes/nominoes.py:26-29 | a rotated shape has the same set of transformations |
| Nominoes.TransformsReflect | logicpuzzles/broken/pentominoes/nominoes.py:26-29 | a reflected shape has the same set of transformations |
| Nominoes.CanonicalRotate | logicpuzzles/broken/pentominoes/nominoes.py:25-30 | `canonical` ignores rotation |
| Nominoes.CanonicalReflect | logicpuzzles/broken/pentominoes/nominoes.py:25-30 | `canonical` ignores reflection |
| Nominoes.TransformsDistinct | logicpuzzles/broken/pentominoes/nominoes.py:26-29 | every transformation keeps the cells distinct |
| Nominoes.CanonicalFacts | logicpuzzles/broken/pentominoes/nominoes.py:25-30 | the canonical form has the shape's size, is sorted and anchored at (0, 0), and is distinct when the shape is |
| Nominoes.CanonicalCell | logicpuzzles/broken/pentominoes/nominoes.py:43 | the single cell is its own canonical form |
| Nominoes.CanonicalOf | logicpuzzles/broken/pentominoes/nominoes.py:25-30 | the loops compute `canonical` |
| Nominoes.GrowMeans | logicpuzzles/broken/pentominoes/nominoes.py:37-40 | each candidate block not in the shape yields the shape with that block appended, and nothing else is produced |
| Nominoes.AddBlock | logicpuzzles/broken/pentominoes/nominoes.py:32-41 | the loop computes `add_block` |
| Nominoes.ExtensionsMeans | logicpuzzles/broken/pentominoes/nominoes.py:32-41 | at most four new shapes, each the shape plus one of the last cell's four neighbours that is not yet in it; every such neighbour gives one; distinct cells stay distinct |
| Nominoes.ExtendedFrom | logicpuzzles/broken/pentominoes/nominoes.py:47 | every canonical form produced from a shape is the canonical form of one of its one-block extensions |
| Nominoes.Shapes | logicpuzzles/broken/pentominoes/nominoes.py:43-48 | after the rounds every shape has n cells (1 when n <= 1) |
| Nominoes.ShapesStart | logicpuzzles/broken/pentominoes/nominoes.py:43 | with no rounds the set holds only the single cell |
| Nominoes.ShapesFacts | logicpuzzles/broken/pentominoes/nominoes.py:43-50 | every generated shape has n cells (1 when n <= 1), is sorted, anchored at (0, 0) and has distinct cells |
| Nominoes.GrownDistinct | logicpuzzles/broken/pentominoes/nominoes.py:45-48 | one round yields only sorted, anchored shapes with distinct cells |
| Nominoes.GrownSize | logicpuzzles/broken/pentominoes/nominoes.py:45-48 | one round adds exactly one cell to every shape |
| Nominoes.GrownAdd | logicpuzzles/broken/pentominoes/nominoes.py:46-47 | the round's result over one more shape gains exactly that shape's canonical extensions |
| Nominoes.CanonSetSnoc | logicpuzzles/broken/pentominoes/nominoes.py:47 | one more extension adds exactly its canonical form |
| Nominoes.CanonicalForms | logicpuzzles/broken/pentominoes/nominoes.py:47 | the `update` loop gives the set of canonical forms of the extensions |
| Nominoes.GrowRound | logicpuzzles/broken/pentominoes/nominoes.py:45-48 | one loop round computes the grown set |
| Nominoes.ListOf | logicpuzzles/broken/pentominoes/nominoes.py:50 | the list holds each shape of the set exactly once |
| Nominoes.GrowRounds | logicpuzzles/broken/pentominoes/nominoes.py:43-48 | the `for` loop builds the shape set for n |
| Nominoes.FirstShapes | logicpuzzles/broken/pentominoes/nominoes.py:43 | the starting set is the single cell |
| Nominoes.GeneratePolyominoes | logicpuzzles/broken/pentominoes/nominoes.py:13-50 | the result lists each shape of the set exactly once: every canonical shape reached by growing beside the last cell, which is not every free polyomino |
| Pent.Turn | logicpuzzles/broken/pentominoes/pent.py:24-26 | each cell (x, y) becomes (y, -x), in order |
| Pent.TurnsAreRotations | logicpuzzles/broken/pentominoes/pent.py:24-26 | one clockwise turn is three of the counter-clockwise rotations, and four turns give back the shape |
| Pent.TurnReflect | logicpuzzles/broken/pentominoes/pent.py:24-31 | turning a mirror image is mirroring a counter-clockwise rotation |
| Pent.TurnShift | logicpuzzles/broken/pentominoes/pent.py:24-26 | turning a shifted shape is shifting the turned shape |
| Pent.ReflectShift | logicpuzzles/broken/pentominoes/pent.py:28-31 | mirroring a shifted shape is shifting the mirrored shape |
| Pent.Flip | logicpuzzles/broken/pentominoes/pent.py:28-31 | each cell (x, y) becomes (max_x - x, y) |
| Pent.FlipIsMirror | logicpuzzles/broken/pentominoes/pent.py:28-31 | `flip_horizontal` is the mirror image shifted right by max_x |
| Pent.FlipFacts | logicpuzzles/broken/pentominoes/pent.py:28-31 | after a flip the least x is 0 and the width is unchanged; flipping twice shifts the shape left to x = 0 |
| Pent.NormalizedFacts | logicpuzzles/broken/pentominoes/pent.py:33-37 | `normalize` keeps the size, anchors the shape at x = 0 and y = 0, is idempotent, keeps cells distinct, and sorted it is the canonical module's `normalize` |
| Pent.NormalizedShift | logicpuzzles/broken/pentominoes/pent.py:33-37 | normalizing ignores a shift |
| Pent.Step | logicpuzzles/broken/pentominoes/pent.py:45-49 | one loop step keeps the size |
| Pent.Recorded | logicpuzzles/broken/pentominoes/pent.py:44-48 | one record per loop step |
| Pent.StepsShift | logicpuzzles/broken/pentominoes/pent.py:44-49 | k steps of a shifted shape are the k turns shifted |
| Pent.RecordedTurns | logicpuzzles/broken/pentominoes/pent.py:44-48 | the j-th record of a round is the sorted normal form of j turns |
| Pent.RecordedIndex | logicpuzzles/broken/pentominoes/pent.py:44-48 | the j-th record is the normal form after j steps |
| Pent.FirstRound | logicpuzzles/broken/pentominoes/pent.py:43-49 | the first round records the normal forms of rotations 0, 3, 2, 1 |
| Pent.SecondStart | logicpuzzles/broken/pentominoes/pent.py:50 | after the first round and the flip the shape is a shifted mirror image |
| Pent.MirrorTurns | logicpuzzles/broken/pentominoes/pent.py:43-50 | the turns of a mirror image are the mirror images of the rotations |
| Pent.SecondRound | logicpuzzles/broken/pentominoes/pent.py:43-50 | the second round records the four mirrored normal forms |
| Pent.ConfigsAreNormalForms | logicpuzzles/broken/pentominoes/pent.py:39-52 | the configurations are exactly the eight normal forms of the canonical module |
| Pent.ConfigsFacts | logicpuzzles/broken/pentominoes/pent.py:39-52 | at most eight configurations, each sorted, anchored, of the piece's size, distinct when the piece is; the canonical form is among them |
| Pent.NormalFormsShaped | logicpuzzles/broken/pentominoes/pent.py:44-48 | every normal form is sorted, anchored, of the piece's size; the canonical form is one of them |
| Pent.Pentomino.constructor | logicpuzzles/broken/pentominoes/pent.py:20-22 | the name and cells are stored |
| Pent.Pentomino.Rotate | logicpuzzles/broken/pentominoes/pent.py:24-26 | the cells become their clockwise turn |
| Pent.Pentomino.FlipHorizontal | logicpuzzles/broken/pentominoes/pent.py:28-31 | ValueError on an empty piece (`max` of nothing), cells unchanged; otherwise the flip |
| Pent.Pentomino.Normalize | logicpuzzles/broken/pentominoes/pent.py:33-37 | ValueError on an empty piece (`min` of nothing), cells unchanged; otherwise the normalized cells |
| Pent.Pentomino.GetCoords | logicpuzzles/broken/pentominoes/pent.py:54-56 | the cells shifted by the offsets, which shifting back recovers |
| Pent.Pentomino.GetAllRotationsAndFlips | logicpuzzles/broken/pentominoes/pent.py:39-52 | ValueError iff the piece is empty; otherwise one fresh piece of the same name per configuration, pairwise different, and the configurations are the normal forms; the piece is left at its final position |
| Pent.Pentomino.RecordRound | logicpuzzles/broken/pentominoes/pent.py:44-49 | one round of four normalize-record-turn steps |
| Pent.Pentomino.Pieces | logicpuzzles/broken/pentominoes/pent.py:52 | one fresh piece of the same name per configuration, pairwise different |
| Digits.EvalKnown | logicpuzzles/broken/digits/digits.py:8-26 | `eval` succeeds iff the operator is one of + * - /, and raises ValueError otherwise |
| Digits.EvalSub | logicpuzzles/broken/digits/digits.py:13-16 | subtraction gives v iff v is non-negative and v + r = l, and None iff l < r |
| Digits.EvalDiv | logicpuzzles/broken/digits/digits.py:17-23 | division gives q iff r is non-zero and q·r = l exactly |
| Digits.EvalNatural | logicpuzzles/broken/digits/digits.py:8-26 | on non-negative operands every value `eval` returns is non-negative (the `assert` of line 69 holds) |
| Digits.Combos | logicpuzzles/broken/digits/digits.py:60 | every combination has k members, all drawn from the digits |
| Digits.FirstSingle | logicpuzzles/broken/digits/digits.py:60 | the first 1-combination is the first digit |
| Digits.InsertNewMembers | logicpuzzles/broken/digits/digits.py:61 | inserting into the ascending list adds the element and nothing else |
| Digits.InsertNewAscending | logicpuzzles/broken/digits/digits.py:61 | insertion keeps the list ascending without repeats |
| Digits.SortDistinct | logicpuzzles/broken/digits/digits.py:61 | `set(digits)`, listed ascending: same members |
| Digits.Rhs | logicpuzzles/broken/digits/digits.py:61 | `rhs` is the digits not in `lhs`, each once, ascending |
| Digits.RhsShorter | logicpuzzles/broken/digits/digits.py:59-62 | a non-empty `lhs` leaves a shorter `rhs`, so the recursion ends |
| Digits.ApplyFacts | logicpuzzles/broken/digits/digits.py:65-71 | every value produced by combining two solutions is a bracketed compound; on non-negative values the only error is ValueError |
| Digits.RowFacts | logicpuzzles/broken/digits/digits.py:64-71 | the same for one left solution against all right ones |
| Digits.ProductFacts | logicpuzzles/broken/digits/digits.py:64-71 | the same for the whole `it.product` |
| Digits.RecurseFacts | logicpuzzles/broken/digits/digits.py:52-71 | one digit yields itself and its text; more digits yield only compounds; on non-negative digits all values are non-negative and the only error is ValueError |
| Digits.SplitsFacts | logicpuzzles/broken/digits/digits.py:59-71 | the split loop yields only compounds, and its only error is ValueError |
| Digits.SidesFacts | logicpuzzles/broken/digits/digits.py:60-71 | the combination loop yields only compounds, and its only error is ValueError |
| Digits.ProductFirstUnknown | logicpuzzles/broken/digits/digits.py:64-66 | when the first operator is unknown, any non-empty product raises ValueError, and an empty one yields nothing |
| Digits.AllSameMeans | logicpuzzles/broken/digits/digits.py:61 | all digits equal v iff each is v |
| Digits.QuietRecurse | logicpuzzles/broken/digits/digits.py:59-62 | with repeated copies of one digit, `rhs` is empty, so an unknown first operator is never reached |
| Digits.LoudRecurse | logicpuzzles/broken/digits/digits.py:59-71 | with two different digits and an unknown first operator, `solve` raises ValueError |
| Digits.UnknownOperatorFails | logicpuzzles/broken/digits/digits.py:6-72 | with an unknown first operator, `solve` fails iff the digits hold two different values, always with ValueError |
| Digits.DefaultOperators | logicpuzzles/broken/digits/digits.py:6 | the default operators "asmd" are not the symbols `eval` knows: `solve` without `ops` fails iff two digits differ |
| Digits.InsertByLength | logicpuzzles/broken/digits/digits.py:73 | inserting into a longest-first list keeps it longest-first, without repeats, and adds exactly the new text |
| Digits.Placed | logicpuzzles/broken/digits/digits.py:73 | the insertion point keeps the order |
| Digits.SortedByLength | logicpuzzles/broken/digits/digits.py:73 | the sorted solutions are the set's members, each once, longest first |
| Digits.Solve | logicpuzzles/broken/digits/digits.py:6-74 | the error of the recursion when it fails; otherwise `sols` is every text whose value is the goal, each once and longest first, and `all_sols` maps every value produced to the non-empty set of its texts |
| Bridges.Below | logicpuzzles/broken/bridges/bridges.py:92-107 | the downward scan stops at the first island at or below the row, and finds none only when the rest of the column is water |
| Bridges.Beside | logicpuzzles/broken/bridges/bridges.py:108-123 | the rightward scan stops at the first island at or right of the column, and finds none only when the rest of the row is water |
| Bridges.CellSlotIn | logicpuzzles/broken/bridges/bridges.py:87-123 | the slots one island adds are exactly the board's slots that start there |
| Bridges.BelowIs | logicpuzzles/broken/bridges/bridges.py:92-107 | the first island below is what the scan returns |
| Bridges.BesideIs | logicpuzzles/broken/bridges/bridges.py:108-123 | the first island to the right is what the scan returns |
| Bridges.RowSlotsMeans | logicpuzzles/broken/bridges/bridges.py:88-123 | a row's first n cells add exactly the slots that start in that row before column n |
| Bridges.GridSlotsMeans | logicpuzzles/broken/bridges/bridges.py:87-123 | the first n rows add exactly the slots that start above row n |
| Bridges.SlotsMeans | logicpuzzles/broken/bridges/bridges.py:87-123 | `edges` holds exactly the slots of the board: each joins an island to the next island below or to its right |
| Bridges.IncidentMeans | logicpuzzles/broken/bridges/bridges.py:104-121 | `v_to_e[v]` lists, in ascending order, exactly the indices of the slots touching v |
| Bridges.RecordStep | logicpuzzles/broken/bridges/bridges.py:89-91 | each island's clue is recorded in `vs` |
| Bridges.RecordRow | logicpuzzles/broken/bridges/bridges.py:87-91 | after a row, every island up to it is recorded |
| Bridges.ScanDown | logicpuzzles/broken/bridges/bridges.py:92-107 | the `while` loop finds the first island strictly below, or none |
| Bridges.ScanRight | logicpuzzles/broken/bridges/bridges.py:108-123 | the `while` loop finds the first island strictly to the right, or none |
| Bridges.AddSlot | logicpuzzles/broken/bridges/bridges.py:99-106 | appending a slot and its index at both ends keeps `v_to_e` exact |
| Bridges.VisitIsland | logicpuzzles/broken/bridges/bridges.py:91-123 | an island adds its downward then rightward slot, keeping `v_to_e` exact |
| Bridges.VisitCell | logicpuzzles/broken/bridges/bridges.py:88-123 | water adds nothing; an island records its clue and adds its slots |
| Bridges.VisitRow | logicpuzzles/broken/bridges/bridges.py:88-123 | one row of the loop adds that row's slots and records its islands |
| Bridges.RowSlotsStep | logicpuzzles/broken/bridges/bridges.py:88 | one more cell of the row adds exactly its slots |
| Bridges.GridSlotsStep | logicpuzzles/broken/bridges/bridges.py:87 | one more row adds exactly its slots |
| Bridges.BuildGraph | logicpuzzles/broken/bridges/bridges.py:76-123 | IndexError on an empty board; AssertionError on a ragged one; otherwise `vs` maps every island to its clue, `edges` lists the board's slots row by row, and `v_to_e` indexes them by endpoint |
| Bridges.SharedPointMeans | logicpuzzles/broken/bridges/bridges.py:140-143 | the pre-check holds iff some endpoint appears more than once among the four |
| Bridges.MeetMeans | logicpuzzles/broken/bridges/bridges.py:144-146 | two row- or column-aligned segments meet iff some point lies on both |
| Bridges.IntersectsSymmetric | logicpuzzles/broken/bridges/bridges.py:139-148 | `intersects` does not depend on the order of the two slots |
| Bridges.CrossingsArePerpendicular | logicpuzzles/broken/bridges/bridges.py:139-148 | on a board, crossing slots are one vertical and one horizontal |
| Bridges.Crossings | logicpuzzles/broken/bridges/bridges.py:151-154 | the pairs i < j of crossing slots, in `it.combinations` order |
| Bridges.CrossStep | logicpuzzles/broken/bridges/bridges.py:152-154 | one pair of the loop keeps the found-so-far invariant |
| Bridges.BitLengthBounds | logicpuzzles/broken/bridges/bridges.py:80 | `bit_length` is the least width whose range holds the number |
| Bridges.InCandidates | logicpuzzles/broken/bridges/bridges.py:104-121 | a slot touching v ends at one of v's four nearest islands |
| Bridges.GridSlotsDistinct | logicpuzzles/broken/bridges/bridges.py:87-123 | no slot is added twice |
| Bridges.DegreeAtMostFour | logicpuzzles/broken/bridges/bridges.py:104-121 | every island touches at most four slots |
| Bridges.SumBound | logicpuzzles/broken/bridges/bridges.py:133 | with every count at most maxB, a sum over n slots is at most n·maxB |
| Bridges.IslandSumExact | logicpuzzles/broken/bridges/bridges.py:80-133 | with every bridge count at most maxB, the `(4*maxB).bit_length()`-bit sum at an island equals the true sum: the island constraints never wrap around |
| Undead.Value | undead/undead.py:30-36 | every kind's value is below 6, and below 4 exactly for the mirrors, the empty cell and the zombie |
| Undead.EnumToChar | undead/undead.py:82-89 | every kind has a one-character spelling that `char_to_enum` maps back to it, never a comma or newline |
| Undead.NewBoard | undead/undead.py:45-57 | AssertionError unless `len(t) == len(b)` and the cell count is `len(t)·len(r)`; otherwise the board with `row_len = len(t)` and `col_len = len(r)` |
| Undead.LeftCluesUnchecked | undead/undead.py:53-57 | as written, a board whose left clues are shorter than its right clues is accepted |
| Undead.CheckedBoard | undead/undead.py:45-57 | the corrected constructor: AssertionError unless also `len(l) == len(r)` |
| Undead.CheckedBoardRefines | undead/undead.py:53-57 | the corrected constructor agrees with the original whenever the left and right clues have the same length, and rejects the board the original accepts |
| Undead.Cells | undead/undead.py:102 | each row is split at commas |
| Undead.RowKinds | undead/undead.py:106-108 | one kind per recognised cell |
| Undead.KnownInit | undead/undead.py:101-108 | the rows before the last are all recognised when all rows are |
| Undead.Parse | undead/undead.py:91-112 | the loops compute `parse`, ending in the constructor as written, so the left clues are never checked |
| Undead.CollectCells | undead/undead.py:98-108 | a board is collected iff every row has the first row's width and every cell is recognised; it is the cells in row-major order |
| Undead.AllAccepted | undead/undead.py:109-110 | true iff every cell's value is below 4 |
| Undead.AppendRow | undead/undead.py:106-108 | one row is appended iff each of its cells is recognised |
| Undead.FlatSnoc | undead/undead.py:101-108 | one more row appends its kinds |
| Undead.FlatLength | undead/undead.py:98-108 | a uniform grid flattens to rows·width cells |
| Undead.FlatAt | undead/undead.py:101-108 | cell (i, j) lands at index i·width + j |
| Undead.ParseGridAccepts | undead/undead.py:91-112 | parsing fails only with AssertionError, and succeeds iff the rows are uniform, every cell is recognised and has value below 4, `len(t) == len(b)` and the cell count is `len(t)·len(r)`; as written, the left clues play no part |
| Undead.ParseGridAt | undead/undead.py:101-112 | after parsing, cell (i, j) of the text is the board's cell i·width + j |
| Undead.RowCol | undead/undead.py:57 | every board index is some i·width + j |
| Undead.RowTextCols | undead/undead.py:102 | splitting a rendered row at commas gives back its cells' spellings |
| Undead.JoinNoSep | undead/undead.py:92 | a join of parts free of a character is free of it |
| Undead.Strings | undead/undead.py:92-102 | one list of cell texts per row |
| Undead.RenderRows | undead/undead.py:91-102 | parsing a rendered grid is parsing its cell texts |
| Undead.ParseRender | undead/undead.py:91-112 | a rectangular grid of values below 4 with fitting top, right and bottom clues, rendered, parses whatever the left clues are |
| Undead.ParseRenderAt | undead/undead.py:91-112 | and parsing gives back every cell: `parse` inverts rendering |
| Undead.ParseLeftUnchecked | undead/undead.py:53-57 | as written, the text of one blank cell parses with no left clue at all, while the corrected parse rejects it with AssertionError |
| Undead.ParseCheckedBuildsChecked | undead/undead.py:91-112 | the corrected parse is `parse` ending in the corrected constructor: the same failures, then the left-clue check |
| Undead.ParseCheckedRender | undead/undead.py:91-112 | a rendered grid with fitting top, right and bottom clues parses under the corrected check iff there are as many left as right clues, and then gives the same board as the parse as written |
| Undead.SampleRows | undead/undead.py:115-120 | the sample rows as the Python string literal reads them (`\,` keeps its backslash, `\\` is one) |
| Undead.SampleRendered | undead/undead.py:115-120 | the sample grid renders to the sample text |
| Undead.SampleBoard | undead/undead.py:114-125 | the sample board with its clues parses |
| Keen.KeyOf | logicpuzzles/broken/keen/opuzz.py:69-72 | `int(val)` succeeds on a decimal digit and gives its value; any other character stays a character |
| Keen.RowEntries | logicpuzzles/broken/keen/opuzz.py:66 | one entry per character of the row |
| Keen.ParseSpec | logicpuzzles/broken/keen/opuzz.py:54-74 | IndexError when no rows are left after trimming; AssertionError when a row's width differs from the first; otherwise `points` lists its keys in first-seen order |
| Keen.ParseRows | logicpuzzles/broken/keen/opuzz.py:61-74 | the parsed keys are listed without repeats, each with its cells |
| Keen.Parse | logicpuzzles/broken/keen/opuzz.py:54-74 | the loops compute `parse` |
| Keen.ReadRows | logicpuzzles/broken/keen/opuzz.py:61-74 | the row loop computes the points |
| Keen.SameWidth | logicpuzzles/broken/keen/opuzz.py:63 | the `all` check holds iff every row has the first row's width |
| Keen.CollectRow | logicpuzzles/broken/keen/opuzz.py:65-73 | one row of the loop appends each non-'0' cell to its key's list |
| Keen.MatchingAppend | logicpuzzles/broken/keen/opuzz.py:65-73 | a key's cells over two stretches of entries are the cells of each in turn |
| Keen.CollectMatching | logicpuzzles/broken/keen/opuzz.py:64-73 | a key is in `points` iff some entry has it, and its list is exactly those entries' cells in order |
| Keen.MatchingRow | logicpuzzles/broken/keen/opuzz.py:66-73 | within a row, a key's cells are the non-'0' columns holding it, left to right |
| Keen.MatchingRows | logicpuzzles/broken/keen/opuzz.py:65-73 | over the grid, a key's cells are the in-grid cells holding it, in row-major order |
| Keen.ParsedShape | logicpuzzles/broken/keen/opuzz.py:54-74 | a parsed board has at least one row, `num_cols` is every row's width, and its points are keyed consistently |
| Keen.ParsedCells | logicpuzzles/broken/keen/opuzz.py:54-74 | a key is in `points` iff some cell holds it, and then its list is those cells in row-major order |
| Keen.RunsMeans | logicpuzzles/broken/keen/opuzz.py:92-109 | the runs in one direction through a cell are exactly those that start within the grid and cover the cell, each once |
| Keen.PlacementsMeans | logicpuzzles/broken/keen/opuzz.py:91-109 | a cell's placements are its horizontal then vertical runs of length v that fit the grid; each covers the cell, none repeats |
| Keen.PlacementsComplete | logicpuzzles/broken/keen/opuzz.py:92-109 | every in-grid run of length v through the cell is one of its placements |
| Keen.FitsInside | logicpuzzles/broken/keen/opuzz.py:93-102 | a fitting run through an in-grid cell covers only in-grid cells |
| Keen.Numbered | logicpuzzles/broken/keen/opuzz.py:89 | each cell of a number's list paired with the number |
| Keen.TasksFail | logicpuzzles/broken/keen/opuzz.py:85-87 | the loop over `points` fails with TypeError iff some key before i is a character other than 'd' (`range` of a string) |
| Keen.TasksNext | logicpuzzles/broken/keen/opuzz.py:85-91 | 'd' is skipped, another character fails, a number adds its cells |
| Keen.TasksStay | logicpuzzles/broken/keen/opuzz.py:85-88 | once failed, the loop stays failed |
| Keen.TasksCover | logicpuzzles/broken/keen/opuzz.py:85-91 | a (cell, v) pair is visited iff v is a number key so far and the cell is in its list |
| Keen.Pair | logicpuzzles/broken/keen/opuzz.py:96-106 | each run paired with its length |
| Keen.CoveringAppend | logicpuzzles/broken/keen/opuzz.py:100-109 | a cell's covering runs over two stretches are those of each in turn |
| Keen.CoveringMeans | logicpuzzles/broken/keen/opuzz.py:99-109 | a run is in a cell's `board` list iff it covers the cell |
| Keen.Names | logicpuzzles/broken/keen/opuzz.py:96-105 | `Vars` holds exactly the runs created |
| Keen.NamesAppend | logicpuzzles/broken/keen/opuzz.py:96-105 | adding runs adds exactly their names |
| Keen.PvarsMeans | logicpuzzles/broken/keen/opuzz.py:91-106 | `pvars` has exactly the visited cells, each with its placements |
| Keen.CellsOf | logicpuzzles/broken/keen/opuzz.py:89 | the cells of the visited pairs, in order |
| Keen.Cover | logicpuzzles/broken/keen/opuzz.py:99-109 | appending one run to every cell it covers keeps `board` exact |
| Keen.PlaceRuns | logicpuzzles/broken/keen/opuzz.py:92-109 | one direction's loop adds that direction's runs to `board`, `Vars` and `pvars` |
| Keen.PlaceAt | logicpuzzles/broken/keen/opuzz.py:89-109 | one cell's body keeps `board`, `Vars` and `pvars` exact |
| Keen.PlaceNumber | logicpuzzles/broken/keen/opuzz.py:85-109 | one number's cells keep them exact |
| Keen.Enumerate | logicpuzzles/broken/keen/opuzz.py:80-109 | TypeError iff some key is a character other than 'd'; otherwise `board`, `Vars` and `pvars` are exactly those of every visited cell's placements |
| Keen.ParsedEnumerable | logicpuzzles/broken/keen/opuzz.py:54-74 | a parsed board meets what the placement loop needs: keys listed once, cells in the grid, each cell under one key |
| Keen.TasksDistinct | logicpuzzles/broken/keen/opuzz.py:85-91 | no cell is visited twice |
| Keen.AllRunsMeans | logicpuzzles/broken/keen/opuzz.py:85-109 | a run of length v exists iff it is a placement of some visited cell holding v |
| Keen.Build | logicpuzzles/broken/keen/opuzz.py:54-109 | the parse error when parsing fails; otherwise TypeError iff a non-'d' character key exists, and otherwise the layout built from the parsed points |
| Keen.ParsedVisits | logicpuzzles/broken/keen/opuzz.py:54-91 | the loop visits (c, v) iff cell c of the text holds digit v |
| Keen.BuiltPvars | logicpuzzles/broken/keen/opuzz.py:54-109 | `pvars` has exactly the cells holding a digit, each with that digit's placements |
| Keen.BuiltVars | logicpuzzles/broken/keen/opuzz.py:54-109 | `Vars` holds exactly the placements of every digit cell |
| Keen.BuiltBoard | logicpuzzles/broken/keen/opuzz.py:54-109 | a cell's `board` list holds exactly the placements of digit cells that cover it |
| Galaxies.New | galaxies/board.py:12-16 | AssertionError unless both sizes are positive; otherwise the board of that size |
| Galaxies.RowVertices | galaxies/board.py:20-21 | one vertex per column |
| Galaxies.RowVerticesAt | galaxies/board.py:20-21 | the j-th vertex of a row is (r, j) |
| Galaxies.VerticesCount | galaxies/board.py:18-21 | nR·nC vertices |
| Galaxies.VerticesAt | galaxies/board.py:18-21 | vertex (i, j) is yielded at position i·nC + j |
| Galaxies.VerticesMeans | galaxies/board.py:18-21 | `enum_vertices` yields nR·nC vertices, exactly those of the grid, each once |
| Galaxies.VerticesRange | galaxies/board.py:18-21 | the first r rows yield exactly their vertices, each once |
| Galaxies.RowRange | galaxies/board.py:20-21 | one row yields exactly its vertices, each once |
| Galaxies.RowEdgesMeans | galaxies/board.py:25-29 | a row yields exactly the pairs from each of its points to the in-grid point above or to the left, each once |
| Galaxies.EdgesMeans | galaxies/board.py:23-29 | the first r rows yield exactly the in-grid pairs of a point and its upper or left neighbour, each once |
| Galaxies.RowEdgesCount | galaxies/board.py:25-29 | a row yields c - 1 edges, plus c when it is not the top row |
| Galaxies.EdgesCount | galaxies/board.py:23-29 | (r - 1)·nC + r·(nC - 1) edges |
| Galaxies.EdgesOnce | galaxies/board.py:23-29 | `enum_edges` yields every pair of adjacent grid points exactly once, in one orientation |
| Pairs.InsertSorted | logicpuzzles/broken/pentominoes/nominoes.py:17 | inserting into a sorted list of pairs keeps it sorted |
| Pairs.SortFacts | logicpuzzles/broken/pentominoes/nominoes.py:17 | `sorted` on pairs gives a sorted permutation of the input |
| Pairs.SortedUnique | logicpuzzles/broken/pentominoes/nominoes.py:17 | two sorted permutations of the same pairs are equal: `sorted` has one answer |
| Pairs.SortNoDup | logicpuzzles/broken/pentominoes/nominoes.py:17 | sorting keeps the pairs distinct |
| Pairs.SeqLeOrder | logicpuzzles/broken/pentominoes/nominoes.py:30 | tuple comparison of shapes is a total order |
| Pairs.MinSeqFacts | logicpuzzles/broken/pentominoes/nominoes.py:30 | `min` of a non-empty list of shapes is one of them and no greater than any |
| Pairs.MinSeqSameElements | logicpuzzles/broken/pentominoes/nominoes.py:30 | `min` depends only on which shapes are listed |
| Pairs.MinXFacts | logicpuzzles/broken/pentominoes/nominoes.py:15 | `min(x for x, y in p)` is attained and is a lower bound |
| Pairs.MinYFacts | logicpuzzles/broken/pentominoes/nominoes.py:16 | `min(y for x, y in p)` is attained and is a lower bound |
| Pairs.MaxXFacts | logicpuzzles/broken/pentominoes/pent.py:30 | `max(x for x, y in p)` is attained and is an upper bound |
| Pairs.Shift | logicpuzzles/broken/pentominoes/nominoes.py:17 | every cell moved by (dx, dy), in order |
| Pairs.ShiftBack | logicpuzzles/broken/pentominoes/nominoes.py:17 | shifting back undoes a shift, and a shift keeps cells distinct |
| Pairs.ShiftMin | logicpuzzles/broken/pentominoes/nominoes.py:15-17 | a shift moves the least x and y by the same amounts |
| Pairs.NormalFormFacts | logicpuzzles/broken/pentominoes/nominoes.py:14-17 | the shape shifted to its least x and y and sorted is sorted, anchored and a permutation of the shifted cells |
| Py.NatToStringRoundTrip | logicpuzzles/mines/minesweeper.py:23 | reading back the decimal text `str` gives for a natural number yields the number |
| Py.IntToStringInjective | logicpuzzles/broken/digits/digits.py:56 | `str` of an int is injective: different digits get different texts |
| Py.SplitJoin | undead/undead.py:92 | joining the pieces of `str.split` with the separator gives back the text |
| Py.JoinSplit | undead/undead.py:92 | splitting a join of separator-free parts gives back the parts |
| Py.TrimLines | undead/undead.py:92-96 | `rows[0]` on an empty text raises IndexError; otherwise the leading and trailing empty line are dropped |
| Py.TrimLinesFramed | undead/undead.py:92-96 | a text framed by empty first and last lines yields exactly its inner lines |
| Py.PyIndex | dominosa/dominosa.py:65-68 | a Python list index: defined iff -len <= i < len, negative indices counting from the end |

## Left out

- Grid.Board.FaceToEdges: the source indexes `self.e` directly and raises KeyError for a face outside the board; the model requires an in-range face instead of returning that error.
- Grid.Board.FaceToVertices: likewise requires an in-range face where the source raises KeyError from `self.v`.
- Grid.Board.EdgeToVertices: likewise requires an in-range edge where the source raises KeyError from `self.v`.
- Grid.Board.GetFace: the boundary hooks `boundary_face`, `boundary_edge` and `boundary_vertex` are fixed to their base-class result None; subclasses that override them are not modelled (the same holds for Grid.Board.GetEdge and Grid.Board.GetVertex).
- Grid.Board.Pretty: Dafny has no default arguments, so `h_len` and `v_len` are always passed; the source's defaults 8 and 4 are not part of the signature. The model requires `h_len >= 1` and `v_len >= 1`, where the source also runs with 0 (an empty `range(v_len-1)`, every vertex written into row 0); every call site passes at least 2. Every character's placement is stated for one-character strings and `v_len >= 2`; for wider strings only the face strings' placement at the cell centre is stated.
- Towers.TowersBoard.Pretty: placement is stated for heights and clues 0..99 and `h_len >= 2`; other widths are drawn but their placement is not stated.
- Unruly.RandomBoard: `percent_filled` is a real, and `int(total * percent)` is exact truncation; binary floating-point rounding of the product is not modelled.
- Dominoes.RandomTiling: the source retries random tilings without bound; the model takes the finite sequence of attempts the random choices would produce and reports failure when they run out (also Dominosa.Board.Random and DominosaScript.Board.Random).
- Smt.Problem.Solve: the backend is a finite set of satisfying assignments. The solver timeout, the "unknown" answer and solver errors are not modelled, and the generator is an eager sequence, so the order in which solutions are interleaved with the caller's work is lost (also Smt.Problem.AllSat).
- Smt.Problem.AddConstraint: the verbose mode, which prints the lowered formula through hwtypes, is not modelled.
- The SMT lowering (`to_hwtypes`), model extraction (`_to_int`), z3/pysmt/pulp bindings and the commented-out optimisation code of smt_utils.py are foreign code and are not part of this model.
- Gptosa.Search.Solve: requires a rectangular board. The source also accepts ragged lists: a longer row's extra cells never fit, and a row shorter than the first can raise IndexError in `is_valid`; ragged boards and that error path are not modelled (also Gptosa.IsValid and Gptosa.Search.Try).
- The module-level board literals, the `used` global's script run and its prints in dominosa/gptosa.py (lines 40-65) are not modelled beyond Gptosa.Search.constructor.
- Keen.Enumerate: requires that every point is listed under its key and lies in the grid; Keen.ParsedEnumerable proves that every parsed spec meets this, so it excludes no input that `parse` can produce.
- The pulp linear program of opuzz.py (from line 115 on: the problem, its constraints, the solve and the read-out), the debugging prints of the placement loop (lines 88-107) and its module-level sample board (lines 41-50) are not modelled. `v is 'd'` is modelled as string equality, and `int()` accepts ASCII digits only.
- Digits.SortDistinct: `tuple(set(...))` has no defined order in Python; the model fixes ascending order, so the order of generated texts follows that choice.
- Digits.SortedByLength: `sorted(..., reverse=True)` over a set keeps an unspecified order among texts of equal length; the model states only that longer texts come first.
- Bridges.MeetMeans: shapely's `LineString.intersects` is modelled for the axis-aligned segments bridges produces; general geometry is not modelled.
- The board literals of bridges.py (lines 7-59) and its SMT solve, model read-out and printing (lines 125-170, except the crossing loop and the bit width) are not modelled.
- Undead `Board.path` and `_next` (undead/undead.py:59-78) are unfinished in the source (an undefined name and NotImplementedError) and are not modelled.
- The printing helpers of nominoes.py (lines 1-11) and pent.py (lines 7-17), their example scripts (nominoes.py:52-61, pent.py:60-83) and the SMT solve of pent.py (lines 85-169) are not modelled.
- Nominoes.GeneratePolyominoes: states that the result is exactly the set of canonical shapes reached by adding one neighbouring cell per round beside the last cell of the canonical tuple, without duplicates, which is what the source computes. The source does not produce every free polyomino: because `add_block` only grows beside `polyomino[-1]`, it misses shapes from n = 4 on. At n = 3 it holds the I and L trominoes only, and their last-cell growth never gives the T tetromino. The model keeps this behaviour and proves no completeness.
- Mastermind's `solve`/`solver` (mastermind/mm.py:60 onwards) only build SMT formulas and are not modelled.
- The pygame drawing (mines_game.py:206-426), the event loop (427-447), the panel buttons (137-147), the hint and solver calls (449-455, 475 onwards) are not modelled.
- Dominosa.Board.constructor: requires a given grid of at least N rows of at least N + 1 numbers; the source stores a smaller grid too and raises IndexError at the first `val` or `set` that reaches a missing cell, which is not modelled. The board keeps only the N by N + 1 window, so aliasing with the caller's list is not modelled either.
- DominosaScript.Board.constructor: requires exactly N rows of N + 1 numbers. This copy indexes with Python's negative-index wrap-around, which on a larger grid would count from the end of the full given rows, and a smaller grid raises IndexError in `val`; neither shape is modelled.
- Mines.Minesweeper.HandleClick: when `random.sample` raises, the source's pygame loop ends; the model returns that error and promises the game invariant only on success.
- Sudoku `__str__` (sudoku.py:216-227), the stub `secret_pair` (178-179) and the trace prints are not modelled.
- The pygame game of towers_game.py, the command-line scripts and the solver encoders (dominosa_solver.py, towers_solver.py, unruly_solver.py, the Unruly solver classes, flip, filling, signpost, loopy, untangle and the galaxies puzzle file) are outside this model; minesweeper_solver.py calls functions smt_utils.py does not define.

## Findings

| source | as written | input that shows it | evidently intended | confidence | as-written member | corrected member |
|---|---|---|---|---|---|---|
| mastermind/mm.py:14-19 | the white pass also walks guess positions already scored black, so one answer peg is counted twice | guess [1, 2], answer [1, 1] scores (1 black, 1 white) though the lists share one value | black plus white equals the size of the multiset intersection of guess and answer | high, not executed | Mastermind.BlackAlsoClaims | Mastermind.CorrectedCounts |
| undead/undead.py:56 | `assert self.col_len == len(r)` compares `r` with itself, so the left clues are never checked | board [Space] with t=[0], l=[], r=[0], b=[0] is accepted, and so is the text "\n \n" with those clues | one left clue per row: `len(l) == col_len` | high, not executed | Undead.LeftCluesUnchecked | Undead.CheckedBoardRefines |
