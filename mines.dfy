/**
 * Minesweeper: the cells of `minesweeper.py` and the game state of
 * `mines_game.py` (placing mines, numbering the safe cells, the flood-fill
 * reveal, the win test and mouse clicks on the grid). Drawing, the event
 * loop and the SMT-backed hint and solver buttons are not part of the model.
 */
module Mines {
  import opened Py
  import opened Grid
  import GridFacts

  /** Pixel size of a cell, and the height of the header above the grid. */
  const CellSize: int := 30
  const HeaderHeight: int := 50

  /** `MineCell`: a face with a mine flag and the count of adjacent mines. */
  datatype MineCell = MineCell(r: int, c: int, isMine: bool, adjacentMines: int)

  /** The face `MineBoard` creates for an index: the dataclass defaults. */
  function NewCell(k: CellIdx): MineCell
  {
    MineCell(k.0, k.1, false, 0)
  }

  /** `MineCell.__str__`. */
  function CellText(m: MineCell): string
  {
    if m.isMine then "X"
    else if m.adjacentMines == 0 then "."
    else IntToString(m.adjacentMines)
  }

  /** The three renderings never collide, and a count 1..9 is one digit. */
  lemma CellTextMeaning(m: MineCell)
    ensures CellText(m) == "X" <==> m.isMine
    ensures CellText(m) == "." <==> !m.isMine && m.adjacentMines == 0
    ensures !m.isMine && 1 <= m.adjacentMines <= 9 ==> CellText(m) == [DigitChar(m.adjacentMines)]
    ensures CellText(NewCell((m.r, m.c))) == "."
  {
    if !m.isMine && m.adjacentMines != 0 {
      var s := IntToString(m.adjacentMines);
      if m.adjacentMines > 0 {
        assert '0' <= s[0] <= '9';
      } else {
        assert s[0] == '-';
      }
    }
  }

  /** The face dictionary of a fresh `MineBoard(height, width)`: a new cell on every face. */
  function NewCells(height: int, width: int): map<CellIdx, MineCell>
  {
    map k | k in GridFacts.Rect(height, width) :: NewCell(k)
  }

  /**
   * `MineBoard` makes every face of the board a new `MineCell`: the fresh
   * dictionary has exactly the board's face indices, each holding a cell
   * at its own position with no mine and no count.
   */
  lemma NewCellsOfBoard(b: Board)
    requires b.Valid()
    ensures NewCells(b.nR, b.nC).Keys == b.f.Keys
    ensures forall k | k in NewCells(b.nR, b.nC) ::
              var m := NewCells(b.nR, b.nC)[k];
              m.r == b.f[k].r && m.c == b.f[k].c && !m.isMine && m.adjacentMines == 0
  {
  }

  /** `solution.face_to_faces(k, include_diagonals=True)`: the in-range neighbours of a face, diagonals included. */
  function Neighbours(height: int, width: int, k: CellIdx): seq<Face>
  {
    FacesIn(height, width, FaceNeighbourIdxs(k, true))
  }

  /** The cells that hold a mine. */
  function MineSet(cells: map<CellIdx, MineCell>): set<CellIdx>
  {
    set k | k in cells && cells[k].isMine
  }

  /** How many of the given faces hold a mine. */
  function Adjacent(mines: set<CellIdx>, faces: seq<Face>): nat
  {
    CountIf(faces, (f: Face) => f.Idx() in mines)
  }

  /**
   * The count over a face's neighbours is at most 8, and it is 0 exactly
   * when no in-range neighbour, diagonals included, holds a mine.
   */
  lemma AdjacentMeaning(height: int, width: int, mines: set<CellIdx>, k: CellIdx)
    ensures Adjacent(mines, Neighbours(height, width, k)) <= 8
    ensures Adjacent(mines, Neighbours(height, width, k)) == 0 <==>
              forall q :: FaceInRange(height, width, q) && q in FaceNeighbourIdxs(k, true) ==> q !in mines
  {
    var faces := Neighbours(height, width, k);
    CountIfZero(faces, (f: Face) => f.Idx() in mines);
    if Adjacent(mines, faces) == 0 {
      forall q | FaceInRange(height, width, q) && q in FaceNeighbourIdxs(k, true)
        ensures q !in mines
      {
        assert Face(q.0, q.1) in faces;
      }
    } else {
      var i :| 0 <= i < |faces| && faces[i].Idx() in mines;
      assert faces[i] in faces;
    }
  }

  /** Every safe cell holds the number of mines around it. */
  ghost predicate Numbered(height: int, width: int, cells: map<CellIdx, MineCell>)
  {
    forall k {:trigger NumberedAt(height, width, cells, k)} :: NumberedAt(height, width, cells, k)
  }

  /** A safe cell holds the number of mines around it. */
  ghost predicate NumberedAt(height: int, width: int, cells: map<CellIdx, MineCell>, k: CellIdx)
  {
    k in cells && !cells[k].isMine ==> cells[k].adjacentMines == Adjacent(MineSet(cells), Neighbours(height, width, k))
  }

  /** An empty cell: safe and with no mine around it. */
  predicate Empty(cells: map<CellIdx, MineCell>, k: CellIdx)
  {
    k in cells && !cells[k].isMine && cells[k].adjacentMines == 0
  }

  /** Around an empty cell of a numbered board every neighbour is safe. */
  lemma EmptyNeighboursSafe(height: int, width: int, cells: map<CellIdx, MineCell>, k: CellIdx)
    requires cells.Keys == GridFacts.Rect(height, width)
    requires Numbered(height, width, cells) && Empty(cells, k)
    ensures forall f | f in Neighbours(height, width, k) :: f.Idx() in cells && !cells[f.Idx()].isMine
  {
    assert NumberedAt(height, width, cells, k);
    AdjacentMeaning(height, width, MineSet(cells), k);
    forall f | f in Neighbours(height, width, k)
      ensures f.Idx() in cells && !cells[f.Idx()].isMine
    {
      assert f.Idx() !in MineSet(cells);
    }
  }

  /** What `random.sample(positions, k)` may return once the safe cell is removed from the positions. */
  predicate MineSample(chosen: seq<CellIdx>, height: int, width: int, safe: CellIdx, k: int)
  {
    |chosen| == k &&
    (forall i :: 0 <= i < |chosen| ==> FaceInRange(height, width, chosen[i]) && chosen[i] != safe) &&
    (forall i, j :: 0 <= i < j < |chosen| ==> chosen[i] != chosen[j])
  }

  /** The pixel (x, y) lies on the square drawn for cell (row, col). */
  predicate InSquare(x: int, y: int, row: int, col: int)
  {
    col * CellSize <= x < (col + 1) * CellSize &&
    HeaderHeight + row * CellSize <= y < HeaderHeight + (row + 1) * CellSize
  }

  /**
   * The grid cell a click lands on: nothing above the grid (the header)
   * or beyond it, otherwise the cell whose square holds the pixel.
   */
  function ClickedCell(x: int, y: int, height: int, width: int): (r: Option<CellIdx>)
    ensures r.Some? ==> FaceInRange(height, width, r.value) && InSquare(x, y, r.value.0, r.value.1)
    ensures r.None? ==> forall row, col :: FaceInRange(height, width, (row, col)) ==> !InSquare(x, y, row, col)
  {
    if y < HeaderHeight then None
    else
      var row := (y - HeaderHeight) / CellSize;
      var col := x / CellSize;
      if FaceInRange(height, width, (row, col)) then Some((row, col))
      else
        assert forall row', col' :: InSquare(x, y, row', col') ==> row' == row && col' == col by {
          forall row', col' | InSquare(x, y, row', col')
            ensures row' == row && col' == col
          {
            DivModUnique(x, col', x - col' * CellSize, CellSize);
            DivModUnique(y - HeaderHeight, row', y - HeaderHeight - row' * CellSize, CellSize);
          }
        }
        None
  }

  /** `del hint_cells[cell]` when there are hints and the cell is among them. */
  function DropHint(hints: Option<map<CellIdx, bool>>, k: CellIdx): (r: Option<map<CellIdx, bool>>)
    ensures r.Some? <==> hints.Some?
    ensures r.Some? ==> r.value == hints.value - {k}
  {
    if hints.Some? && k in hints.value then Some(hints.value - {k}) else hints
  }

  /** The cells at or after row r, column c in row-major order have not been visited yet. */
  predicate Before(k: CellIdx, r: int, c: int)
  {
    k.0 < r || (k.0 == r && k.1 < c)
  }

  /** The board after `place_mines`: every cell but the safe one is mined exactly when it was chosen. */
  function Placed(cells: map<CellIdx, MineCell>, safe: CellIdx, chosen: seq<CellIdx>): map<CellIdx, MineCell>
  {
    map k | k in cells :: if k == safe then cells[k] else cells[k].(isMine := k in chosen)
  }

  /**
   * On a board whose safe cell holds no mine, the placed mines are exactly
   * the sampled positions, so there are as many as were asked for and the
   * safe cell is not among them; positions and counts are untouched.
   */
  lemma PlacedMines(cells: map<CellIdx, MineCell>, height: int, width: int, safe: CellIdx, chosen: seq<CellIdx>, k: int)
    requires cells.Keys == GridFacts.Rect(height, width) && safe in cells && !cells[safe].isMine
    requires MineSample(chosen, height, width, safe, k)
    ensures Placed(cells, safe, chosen).Keys == cells.Keys
    ensures forall q | q in cells :: Placed(cells, safe, chosen)[q] == cells[q].(isMine := Placed(cells, safe, chosen)[q].isMine)
    ensures MineSet(Placed(cells, safe, chosen)) == Elements(chosen)
    ensures |MineSet(Placed(cells, safe, chosen))| == k && safe !in MineSet(Placed(cells, safe, chosen))
  {
    var p := Placed(cells, safe, chosen);
    forall q | q in Elements(chosen) ensures q in MineSet(p) {
      var i :| 0 <= i < |chosen| && chosen[i] == q;
    }
    forall q | q in MineSet(p) ensures q in Elements(chosen) {
      var i :| 0 <= i < |chosen| && chosen[i] == q;
    }
    DistinctCard(chosen);
  }

  /**
   * `place_mines(safe_cell)` on the face dictionary: `random.sample` over
   * every position but the safe one raises ValueError unless
   * 0 <= k <= height*width - 1; otherwise every cell but the safe one is
   * cleared and then the sampled ones get a mine.
   */
  method PlaceMines(cells: map<CellIdx, MineCell>, height: int, width: int, k: int, safe: CellIdx, chosen: seq<CellIdx>)
    returns (res: Result<map<CellIdx, MineCell>>)
    requires cells.Keys == GridFacts.Rect(height, width) && FaceInRange(height, width, safe)
    requires 0 <= k <= height * width - 1 ==> MineSample(chosen, height, width, safe, k)
    ensures res.Err? <==> !(0 <= k <= height * width - 1)
    ensures res.Err? ==> res.error == ValueError
    ensures res.Ok? ==> res.value == Placed(cells, safe, chosen)
  {
    if !(0 <= k <= height * width - 1) {
      return Err(ValueError);
    }
    var out := ClearMines(cells, height, width, safe);
    for i := 0 to |chosen|
      invariant out.Keys == cells.Keys
      invariant forall q | q in out :: out[q] == if q == safe then cells[q] else cells[q].(isMine := q in chosen[..i])
    {
      out := out[chosen[i] := out[chosen[i]].(isMine := true)];
      assert forall q :: q in chosen[..i + 1] <==> q in chosen[..i] || q == chosen[i];
    }
    assert chosen[..|chosen|] == chosen;
    return Ok(out);
  }

  /** The first loop of `place_mines`: every cell but the safe one loses its mine. */
  method ClearMines(cells: map<CellIdx, MineCell>, height: int, width: int, safe: CellIdx) returns (out: map<CellIdx, MineCell>)
    requires cells.Keys == GridFacts.Rect(height, width)
    ensures out.Keys == cells.Keys
    ensures forall q | q in out :: out[q] == if q == safe then cells[q] else cells[q].(isMine := false)
  {
    out := cells;
    for r := 0 to RangeLen(height)
      invariant out.Keys == cells.Keys
      invariant forall q | q in out :: out[q] == if q != safe && q.0 < r then cells[q].(isMine := false) else cells[q]
    {
      for c := 0 to RangeLen(width)
        invariant out.Keys == cells.Keys
        invariant forall q | q in out :: out[q] == if q != safe && Before(q, r, c) then cells[q].(isMine := false) else cells[q]
      {
        if (r, c) != safe {
          out := out[(r, c) := out[(r, c)].(isMine := false)];
        }
      }
    }
  }

  /** A cell after `calculate_numbers`: a safe cell holds the mines around it, a mine is left alone. */
  function NumberedCell(cells: map<CellIdx, MineCell>, height: int, width: int, k: CellIdx): MineCell
    requires k in cells
  {
    if cells[k].isMine then cells[k]
    else cells[k].(adjacentMines := Adjacent(MineSet(cells), Neighbours(height, width, k)))
  }

  /** The board after `calculate_numbers`. */
  function Numbering(cells: map<CellIdx, MineCell>, height: int, width: int): map<CellIdx, MineCell>
  {
    map k | k in cells :: NumberedCell(cells, height, width, k)
  }

  /** Two boards over the same faces with the same mine flags have the same mines. */
  lemma SameMines(a: map<CellIdx, MineCell>, b: map<CellIdx, MineCell>)
    requires a.Keys == b.Keys && forall k | k in a :: a[k].isMine == b[k].isMine
    ensures MineSet(a) == MineSet(b)
  {
  }

  /**
   * Numbering moves no mine and changes only the counts of safe cells, and
   * afterwards every safe cell holds the number of mines around it.
   */
  lemma NumberingNumbered(cells: map<CellIdx, MineCell>, height: int, width: int)
    ensures Numbering(cells, height, width).Keys == cells.Keys
    ensures MineSet(Numbering(cells, height, width)) == MineSet(cells)
    ensures forall k | k in cells :: Numbering(cells, height, width)[k] == cells[k].(adjacentMines := Numbering(cells, height, width)[k].adjacentMines)
    ensures forall k | k in cells && cells[k].isMine :: Numbering(cells, height, width)[k] == cells[k]
    ensures Numbered(height, width, Numbering(cells, height, width))
  {
    var n := Numbering(cells, height, width);
    SameMines(n, cells);
    forall k: CellIdx
      ensures NumberedAt(height, width, n, k)
    {
    }
  }

  /** `count_adjacent_mines(row, col)`: the mines among the up to 8 neighbouring faces. */
  method CountAdjacentMines(cells: map<CellIdx, MineCell>, height: int, width: int, row: int, col: int) returns (count: int)
    requires cells.Keys == GridFacts.Rect(height, width)
    ensures count == Adjacent(MineSet(cells), Neighbours(height, width, (row, col)))
    ensures 0 <= count <= 8
  {
    var faces := Neighbours(height, width, (row, col));
    var mineSet := MineSet(cells);
    count := 0;
    for i := 0 to |faces|
      invariant count == Adjacent(mineSet, faces[..i])
    {
      TakeSnoc(faces, i);
      CountIfSnoc(faces[..i], faces[i], (f: Face) => f.Idx() in mineSet);
      assert faces[i] in faces;
      if cells[faces[i].Idx()].isMine {
        count := count + 1;
      }
    }
    assert faces[..|faces|] == faces;
    AdjacentMeaning(height, width, mineSet, (row, col));
  }

  /** `calculate_numbers`: row by row, every safe cell gets its count. */
  method CalculateNumbers(cells: map<CellIdx, MineCell>, height: int, width: int) returns (out: map<CellIdx, MineCell>)
    requires cells.Keys == GridFacts.Rect(height, width)
    ensures out == Numbering(cells, height, width)
  {
    out := cells;
    for r := 0 to RangeLen(height)
      invariant NumberedBefore(cells, out, height, width, r, 0)
    {
      out := NumberRow(cells, out, height, width, r);
    }
    forall k | k in out
      ensures out[k] == NumberedCell(cells, height, width, k)
    {
      assert k in cells;
    }
  }


  /** The inner loop of `calculate_numbers`: the cells of row r get their counts. */
  method NumberRow(cells: map<CellIdx, MineCell>, cur: map<CellIdx, MineCell>, height: int, width: int, r: int)
    returns (out: map<CellIdx, MineCell>)
    requires cells.Keys == GridFacts.Rect(height, width) && 0 <= r < height
    requires NumberedBefore(cells, cur, height, width, r, 0)
    ensures NumberedBefore(cells, out, height, width, r + 1, 0)
  {
    out := cur;
    for c := 0 to RangeLen(width)
      invariant NumberedBefore(cells, out, height, width, r, c)
    {
      var next := NumberCell(cells, out, height, width, (r, c));
      NumberedStep(cells, out, height, width, r, c);
      out := next;
    }
    NumberedRowEnd(cells, out, height, width, r);
  }

  /** The cells before row r, column c in row-major order hold their counts; the others are as they were. */
  ghost predicate NumberedBefore(cells: map<CellIdx, MineCell>, cur: map<CellIdx, MineCell>, height: int, width: int, r: int, c: int)
  {
    cur.Keys == cells.Keys &&
    (forall k | k in cur :: cur[k].isMine == cells[k].isMine) &&
    (forall k | k in cur :: cur[k] == if Before(k, r, c) then NumberedCell(cells, height, width, k) else cells[k])
  }

  /** Numbering the cell at row r, column c moves the row-major frontier one cell on. */
  lemma NumberedStep(cells: map<CellIdx, MineCell>, cur: map<CellIdx, MineCell>, height: int, width: int, r: int, c: int)
    requires (r, c) in cells && NumberedBefore(cells, cur, height, width, r, c)
    ensures NumberedBefore(cells, cur[(r, c) := NumberedCell(cells, height, width, (r, c))], height, width, r, c + 1)
  {
    var next := cur[(r, c) := NumberedCell(cells, height, width, (r, c))];
    forall k | k in next
      ensures next[k] == if Before(k, r, c + 1) then NumberedCell(cells, height, width, k) else cells[k]
    {
      if k != (r, c) {
        assert Before(k, r, c + 1) == Before(k, r, c);
      }
    }
  }

  /** Once a row of the grid is done, the frontier moves to the start of the next row. */
  lemma NumberedRowEnd(cells: map<CellIdx, MineCell>, cur: map<CellIdx, MineCell>, height: int, width: int, r: int)
    requires cells.Keys == GridFacts.Rect(height, width)
    requires NumberedBefore(cells, cur, height, width, r, RangeLen(width))
    ensures NumberedBefore(cells, cur, height, width, r + 1, 0)
  {
    forall k | k in cur
      ensures Before(k, r, RangeLen(width)) == Before(k, r + 1, 0)
    {
    }
  }

  /** The body of `calculate_numbers` for one cell: a safe cell gets its count, a mine is left alone. */
  method NumberCell(cells: map<CellIdx, MineCell>, cur: map<CellIdx, MineCell>, height: int, width: int, k: CellIdx)
    returns (out: map<CellIdx, MineCell>)
    requires cells.Keys == GridFacts.Rect(height, width) && cur.Keys == cells.Keys && k in cells
    requires forall q | q in cur :: cur[q].isMine == cells[q].isMine
    requires cur[k] == cells[k]
    ensures out == cur[k := NumberedCell(cells, height, width, k)]
    ensures out[k].isMine == cells[k].isMine
  {
    if cur[k].isMine {
      return cur[k := cur[k]];
    }
    SameMines(cur, cells);
    var count := CountAdjacentMines(cur, height, width, k.0, k.1);
    out := cur[k := cur[k].(adjacentMines := count)];
  }


  /** Every newly revealed empty cell has all its neighbours revealed or flagged. */
  ghost predicate Spread(cells: map<CellIdx, MineCell>, height: int, width: int, revealed: set<CellIdx>, flagged: set<CellIdx>, fresh0: set<CellIdx>)
  {
    forall q {:trigger Empty(cells, q)} | q in fresh0 && Empty(cells, q) ::
      forall f | f in Neighbours(height, width, q) :: f.Idx() in revealed || f.Idx() in flagged
  }

  /** Closure survives more reveals: two closed batches make a closed union. */
  lemma SpreadUnion(cells: map<CellIdx, MineCell>, height: int, width: int, r1: set<CellIdx>, r2: set<CellIdx>,
                    flagged: set<CellIdx>, fresh1: set<CellIdx>, fresh2: set<CellIdx>)
    requires r1 <= r2
    requires Spread(cells, height, width, r1, flagged, fresh1) && Spread(cells, height, width, r2, flagged, fresh2)
    ensures Spread(cells, height, width, r2, flagged, fresh1 + fresh2)
  {
  }

  /** The cells around k. */
  function Around(height: int, width: int, k: CellIdx): set<CellIdx>
  {
    set f | f in Neighbours(height, width, k) :: f.Idx()
  }

  /**
   * Every cell of the batch lies next to an empty cell that is the root or
   * is in the batch with a smaller rank: following such cells back always
   * ends at the root.
   */
  ghost predicate FedBy(cells: map<CellIdx, MineCell>, height: int, width: int, batch: set<CellIdx>, root: CellIdx,
                        rank: map<CellIdx, nat>)
  {
    batch <= rank.Keys &&
    forall q | q in batch :: FedAt(cells, height, width, batch, root, rank, q)
  }

  /** The cell q of the batch lies next to root or to an empty cell of the batch ranked below it. */
  ghost predicate FedAt(cells: map<CellIdx, MineCell>, height: int, width: int, batch: set<CellIdx>, root: CellIdx,
                        rank: map<CellIdx, nat>, q: CellIdx)
    requires batch <= rank.Keys && q in batch
  {
    exists e :: (e == root || (e in batch && rank[e] < rank[q])) && Empty(cells, e) && q in Around(height, width, e)
  }

  /** The batch is fed from the empty cell root: some ranking leads every cell of it back to root. */
  ghost predicate Fed(cells: map<CellIdx, MineCell>, height: int, width: int, batch: set<CellIdx>, root: CellIdx)
  {
    exists rank :: FedBy(cells, height, width, batch, root, rank)
  }

  /** Every cell of the batch but the clicked one lies next to an empty cell of the batch of smaller rank. */
  ghost predicate Ranked(cells: map<CellIdx, MineCell>, height: int, width: int, batch: set<CellIdx>, cell: CellIdx,
                         rank: map<CellIdx, nat>)
  {
    batch <= rank.Keys &&
    forall q | q in batch && q != cell :: RankedAt(cells, height, width, batch, rank, q)
  }

  /** The cell q of the batch lies next to an empty cell of the batch ranked below it. */
  ghost predicate RankedAt(cells: map<CellIdx, MineCell>, height: int, width: int, batch: set<CellIdx>,
                           rank: map<CellIdx, nat>, q: CellIdx)
    requires batch <= rank.Keys && q in batch
  {
    exists e :: e in batch && rank[e] < rank[q] && Empty(cells, e) && q in Around(height, width, e)
  }

  /** The batch is reached from the clicked cell: some ranking leads every cell of it back to the clicked cell. */
  ghost predicate Reached(cells: map<CellIdx, MineCell>, height: int, width: int, batch: set<CellIdx>, cell: CellIdx)
  {
    exists rank :: Ranked(cells, height, width, batch, cell, rank)
  }

  /** A walk from p[0] to its last cell, one neighbour at a time, through empty cells of the batch. */
  ghost predicate Walk(cells: map<CellIdx, MineCell>, height: int, width: int, batch: set<CellIdx>, p: seq<CellIdx>)
  {
    p != [] &&
    (forall i :: 0 <= i < |p| ==> p[i] in batch) &&
    (forall i :: 0 <= i < |p| - 1 ==> Empty(cells, p[i]) && p[i + 1] in Around(height, width, p[i]))
  }

  /**
   * What a ranking means: every cell of a reached batch ends a walk that
   * starts at the clicked cell and steps only through empty cells of the
   * batch.
   */
  lemma {:induction false} RankedWalk(cells: map<CellIdx, MineCell>, height: int, width: int, batch: set<CellIdx>,
                                       cell: CellIdx, rank: map<CellIdx, nat>, q: CellIdx) returns (p: seq<CellIdx>)
    requires Ranked(cells, height, width, batch, cell, rank) && q in batch
    ensures Walk(cells, height, width, batch, p) && p[0] == cell && p[|p| - 1] == q
    decreases rank[q]
  {
    if q == cell {
      p := [q];
    } else {
      var e :| e in batch && rank[e] < rank[q] && Empty(cells, e) && q in Around(height, width, e);
      var p0 := RankedWalk(cells, height, width, batch, cell, rank, e);
      p := p0 + [q];
      forall i | 0 <= i < |p|
        ensures p[i] in batch
      {
        if i < |p0| {
          assert p[i] == p0[i];
        }
      }
      forall i | 0 <= i < |p| - 1
        ensures Empty(cells, p[i]) && p[i + 1] in Around(height, width, p[i])
      {
        assert p[i] == p0[i];
        if i + 1 < |p0| {
          assert p[i + 1] == p0[i + 1];
        } else {
          assert p[i] == e && p[i + 1] == q;
        }
      }
    }
  }

  /**
   * What a reveal from cell leaves behind: revealed only grows, and not
   * at all from a revealed or flagged cell; otherwise the cell is shown,
   * alone when it is not empty; no flagged cell and no mine but possibly
   * the cell itself is added; every added cell is reached from the cell
   * through added empty cells; and the result is closed: every newly
   * revealed empty cell has its neighbours revealed or flagged.
   */
  ghost predicate RevealOutcome(cells: map<CellIdx, MineCell>, height: int, width: int, revealed: set<CellIdx>,
                                flagged: set<CellIdx>, cell: CellIdx, out: set<CellIdx>)
  {
    revealed <= out &&
    (cell in revealed || cell in flagged ==> out == revealed) &&
    (cell in out || cell in flagged) &&
    out - revealed <= cells.Keys - flagged &&
    (forall q | q in out - revealed && q != cell :: !cells[q].isMine) &&
    (cell !in revealed && cell !in flagged && !Empty(cells, cell) ==> out == revealed + {cell}) &&
    Reached(cells, height, width, out - revealed, cell) &&
    Spread(cells, height, width, out, flagged, out - revealed)
  }

  /**
   * The outcome of a reveal is determined: two revealed sets that both
   * meet it are the same set, so it says exactly what `reveal` shows.
   */
  lemma RevealUnique(cells: map<CellIdx, MineCell>, height: int, width: int, revealed: set<CellIdx>,
                     flagged: set<CellIdx>, cell: CellIdx, out1: set<CellIdx>, out2: set<CellIdx>)
    requires RevealOutcome(cells, height, width, revealed, flagged, cell, out1)
    requires RevealOutcome(cells, height, width, revealed, flagged, cell, out2)
    ensures out1 == out2
  {
    ReachedWithin(cells, height, width, revealed, flagged, cell, out1, out2);
    ReachedWithin(cells, height, width, revealed, flagged, cell, out2, out1);
  }

  /** Every cell one outcome adds, the other adds too. */
  lemma ReachedWithin(cells: map<CellIdx, MineCell>, height: int, width: int, revealed: set<CellIdx>,
                      flagged: set<CellIdx>, cell: CellIdx, out1: set<CellIdx>, out2: set<CellIdx>)
    requires RevealOutcome(cells, height, width, revealed, flagged, cell, out1)
    requires RevealOutcome(cells, height, width, revealed, flagged, cell, out2)
    ensures out1 <= out2
  {
    var rank :| Ranked(cells, height, width, out1 - revealed, cell, rank);
    forall q | q in out1 - revealed
      ensures q in out2
    {
      RankedWithin(cells, height, width, revealed, flagged, cell, out1, out2, rank, q);
    }
  }

  /** The step of that proof, by induction on the rank of q. */
  lemma {:induction false} RankedWithin(cells: map<CellIdx, MineCell>, height: int, width: int, revealed: set<CellIdx>,
                                         flagged: set<CellIdx>, cell: CellIdx, out1: set<CellIdx>, out2: set<CellIdx>,
                                         rank: map<CellIdx, nat>, q: CellIdx)
    requires out1 - revealed <= cells.Keys - flagged
    requires Ranked(cells, height, width, out1 - revealed, cell, rank) && q in out1 - revealed
    requires RevealOutcome(cells, height, width, revealed, flagged, cell, out2)
    ensures q in out2
    decreases rank[q]
  {
    if q != cell {
      var e :| e in out1 - revealed && rank[e] < rank[q] && Empty(cells, e) && q in Around(height, width, e);
      RankedWithin(cells, height, width, revealed, flagged, cell, out1, out2, rank, e);
      var f :| f in Neighbours(height, width, e) && f.Idx() == q;
      assert e in out2 - revealed;
    }
  }

  /**
   * `reveal(row, col)` on the revealed set: nothing happens on a revealed
   * or flagged cell; otherwise the cell is revealed and, when it is empty,
   * the reveal spreads to its unrevealed neighbours.
   */
  method Reveal(cells: map<CellIdx, MineCell>, height: int, width: int, revealed: set<CellIdx>, flagged: set<CellIdx>, row: int, col: int)
    returns (out: set<CellIdx>)
    requires cells.Keys == GridFacts.Rect(height, width) && Numbered(height, width, cells)
    requires FaceInRange(height, width, (row, col))
    decreases |cells.Keys - revealed|, 2
    ensures revealed <= out
    ensures (row, col) in revealed || (row, col) in flagged ==> out == revealed
    ensures (row, col) in out || (row, col) in flagged
    ensures out - revealed <= cells.Keys - flagged
    ensures forall q | q in out - revealed && q != (row, col) :: !cells[q].isMine
    ensures (row, col) !in revealed && (row, col) !in flagged && !Empty(cells, (row, col)) ==> out == revealed + {(row, col)}
    ensures Reached(cells, height, width, out - revealed, (row, col))
    ensures Spread(cells, height, width, out, flagged, out - revealed)
  {
    if (row, col) in revealed || (row, col) in flagged {
      assert revealed - revealed == {};
      assert Ranked(cells, height, width, revealed - revealed, (row, col), map[]);
      return revealed;
    }
    var shown := revealed + {(row, col)};
    var cell := cells[(row, col)];
    if cell.adjacentMines == 0 && !cell.isMine {
      assert cells.Keys - revealed == (cells.Keys - shown) + {(row, col)};
      out := RevealAround(cells, height, width, shown, flagged, (row, col));
      SpreadUnion(cells, height, width, out, out, flagged, {(row, col)}, out - shown);
      assert out - revealed == {(row, col)} + (out - shown);
      FedReached(cells, height, width, revealed, shown, out, (row, col));
    } else {
      out := shown;
      assert out - revealed == {(row, col)};
      assert Ranked(cells, height, width, out - revealed, (row, col), map[(row, col) := 0]);
    }
  }

  /** The loop of `reveal` around an empty cell k that is already shown: each unrevealed neighbour is revealed in turn. */
  method RevealAround(cells: map<CellIdx, MineCell>, height: int, width: int, revealed: set<CellIdx>, flagged: set<CellIdx>, k: CellIdx)
    returns (out: set<CellIdx>)
    requires cells.Keys == GridFacts.Rect(height, width) && Numbered(height, width, cells)
    requires Empty(cells, k)
    decreases |cells.Keys - revealed| + 1, 1
    ensures Growing(cells, height, width, revealed, flagged, out, k)
    ensures forall f | f in Neighbours(height, width, k) :: f.Idx() in out || f.Idx() in flagged
  {
    out := revealed;
    var faces := Neighbours(height, width, k);
    EmptyNeighboursSafe(height, width, cells, k);
    assert FedBy(cells, height, width, out - revealed, k, map[]);
    for i := 0 to |faces|
      invariant Growing(cells, height, width, revealed, flagged, out, k)
      invariant forall j :: 0 <= j < i ==> faces[j].Idx() in out || faces[j].Idx() in flagged
    {
      SubsetCard(cells.Keys - out, cells.Keys - revealed);
      ghost var prev := out;
      assert faces[i] in faces;
      out := RevealFace(cells, height, width, revealed, flagged, out, faces[i], k);
      ShownGrow(faces, i, prev, out, flagged);
    }
  }

  /** The neighbours already shown stay shown as the revealed set grows, and one more joins them. */
  lemma ShownGrow(faces: seq<Face>, i: nat, prev: set<CellIdx>, out: set<CellIdx>, flagged: set<CellIdx>)
    requires i < |faces| && prev <= out && (faces[i].Idx() in out || faces[i].Idx() in flagged)
    requires forall j :: 0 <= j < i ==> faces[j].Idx() in prev || faces[j].Idx() in flagged
    ensures forall j :: 0 <= j < i + 1 ==> faces[j].Idx() in out || faces[j].Idx() in flagged
  {
  }

  /**
   * The loop state around the empty cell k: revealed only grew, by cells
   * that are neither flagged nor mines, each fed from k through added
   * empty cells, and every added empty cell has its neighbours shown.
   */
  ghost predicate Growing(cells: map<CellIdx, MineCell>, height: int, width: int, revealed: set<CellIdx>,
                          flagged: set<CellIdx>, out: set<CellIdx>, k: CellIdx)
  {
    && revealed <= out && out - revealed <= cells.Keys - flagged
    && (forall q | q in out - revealed :: !cells[q].isMine)
    && Fed(cells, height, width, out - revealed, k)
    && Spread(cells, height, width, out, flagged, out - revealed)
  }

  /** One step of that loop: the face is revealed unless it already is. */
  method RevealFace(cells: map<CellIdx, MineCell>, height: int, width: int, revealed: set<CellIdx>, flagged: set<CellIdx>,
                    cur: set<CellIdx>, f: Face, ghost k: CellIdx)
    returns (out: set<CellIdx>)
    requires cells.Keys == GridFacts.Rect(height, width) && Numbered(height, width, cells)
    requires FaceInRange(height, width, f.Idx()) && !cells[f.Idx()].isMine
    requires Empty(cells, k) && f in Neighbours(height, width, k)
    requires Growing(cells, height, width, revealed, flagged, cur, k)
    decreases |cells.Keys - cur| + 1, 0
    ensures cur <= out && (f.Idx() in out || f.Idx() in flagged)
    ensures Growing(cells, height, width, revealed, flagged, out, k)
  {
    if f.Idx() in cur {
      return cur;
    }
    out := Reveal(cells, height, width, cur, flagged, f.r, f.c);
    SpreadUnion(cells, height, width, cur, out, flagged, cur - revealed, out - cur);
    assert out - revealed == (cur - revealed) + (out - cur);
    FedGrow(cells, height, width, revealed, cur, out, f, k);
  }

  /** A batch fed from k grows by a reveal from a neighbour f of k and stays fed from k. */
  lemma FedGrow(cells: map<CellIdx, MineCell>, height: int, width: int, revealed: set<CellIdx>, cur: set<CellIdx>,
                out: set<CellIdx>, f: Face, k: CellIdx)
    requires revealed <= cur <= out
    requires Empty(cells, k) && f in Neighbours(height, width, k)
    requires Fed(cells, height, width, cur - revealed, k)
    requires Reached(cells, height, width, out - cur, f.Idx())
    ensures Fed(cells, height, width, out - revealed, k)
  {
    var rank1 :| FedBy(cells, height, width, cur - revealed, k, rank1);
    var rank2 :| Ranked(cells, height, width, out - cur, f.Idx(), rank2);
    var rank := map q | q in out - revealed :: if q in cur then rank1[q] else rank2[q];
    forall q | q in out - revealed
      ensures FedAt(cells, height, width, out - revealed, k, rank, q)
    {
      if q in cur - revealed {
        assert FedAt(cells, height, width, cur - revealed, k, rank1, q);
        var e :| (e == k || (e in cur - revealed && rank1[e] < rank1[q])) && Empty(cells, e) && q in Around(height, width, e);
        if e != k {
          assert rank[e] == rank1[e] && rank[q] == rank1[q];
        }
        FedVia(cells, height, width, out - revealed, k, rank, q, e);
      } else if q == f.Idx() {
        assert q in Around(height, width, k);
        FedVia(cells, height, width, out - revealed, k, rank, q, k);
      } else {
        assert RankedAt(cells, height, width, out - cur, rank2, q);
        var e :| e in out - cur && rank2[e] < rank2[q] && Empty(cells, e) && q in Around(height, width, e);
        assert rank[e] == rank2[e] && rank[q] == rank2[q];
        FedVia(cells, height, width, out - revealed, k, rank, q, e);
      }
    }
    assert FedBy(cells, height, width, out - revealed, k, rank);
  }

  /** The witness e makes q fed. */
  lemma FedVia(cells: map<CellIdx, MineCell>, height: int, width: int, batch: set<CellIdx>, root: CellIdx,
               rank: map<CellIdx, nat>, q: CellIdx, e: CellIdx)
    requires batch <= rank.Keys && q in batch
    requires (e == root || (e in batch && rank[e] < rank[q])) && Empty(cells, e) && q in Around(height, width, e)
    ensures FedAt(cells, height, width, batch, root, rank, q)
  {
  }

  /** The witness e makes q ranked. */
  lemma RankedVia(cells: map<CellIdx, MineCell>, height: int, width: int, batch: set<CellIdx>,
                  rank: map<CellIdx, nat>, q: CellIdx, e: CellIdx)
    requires batch <= rank.Keys && q in batch
    requires e in batch && rank[e] < rank[q] && Empty(cells, e) && q in Around(height, width, e)
    ensures RankedAt(cells, height, width, batch, rank, q)
  {
  }

  /** A reveal of the empty cell k and a batch fed from k reaches every cell it adds from k. */
  lemma FedReached(cells: map<CellIdx, MineCell>, height: int, width: int, revealed: set<CellIdx>, shown: set<CellIdx>,
                   out: set<CellIdx>, k: CellIdx)
    requires shown == revealed + {k} && k !in revealed && shown <= out && Empty(cells, k)
    requires Fed(cells, height, width, out - shown, k)
    ensures Reached(cells, height, width, out - revealed, k)
  {
    var rank0 :| FedBy(cells, height, width, out - shown, k, rank0);
    var rank := map q | q in out - revealed :: if q == k then 0 else rank0[q] + 1;
    forall q | q in out - revealed && q != k
      ensures RankedAt(cells, height, width, out - revealed, rank, q)
    {
      assert q in out - shown;
      assert FedAt(cells, height, width, out - shown, k, rank0, q);
      var e :| (e == k || (e in out - shown && rank0[e] < rank0[q])) && Empty(cells, e) && q in Around(height, width, e);
      assert e in out - revealed && rank[q] == rank0[q] + 1;
      if e != k {
        assert rank[e] == rank0[e] + 1;
      }
      RankedVia(cells, height, width, out - revealed, rank, q, e);
    }
    assert Ranked(cells, height, width, out - revealed, k, rank);
  }

  /**
   * The win test means what it should: on a board holding k mines where
   * only safe cells are revealed, as many cells are revealed as there are
   * safe cells exactly when every safe cell is revealed.
   */
  lemma WinCount(height: int, width: int, cells: map<CellIdx, MineCell>, revealed: set<CellIdx>, k: int)
    requires height >= 0 && width >= 0 && cells.Keys == GridFacts.Rect(height, width)
    requires |MineSet(cells)| == k && revealed <= cells.Keys - MineSet(cells)
    ensures |revealed| == width * height - k <==> revealed == cells.Keys - MineSet(cells)
  {
    GridFacts.RectCard(height, width);
    SubsetCard(MineSet(cells), cells.Keys);
    assert cells.Keys - MineSet(cells) == cells.Keys - (cells.Keys - (cells.Keys - MineSet(cells)));
    SubsetCard(revealed, cells.Keys - MineSet(cells));
    assert |cells.Keys - MineSet(cells)| == width * height - k;
  }

  /**
   * The part of the game state that clicks change: the board, the revealed
   * and flagged cells, the mine counter, the outcome flags and the hints.
   */
  datatype Play = Play(cells: map<CellIdx, MineCell>, revealed: set<CellIdx>, flagged: set<CellIdx>, minesLeft: int,
                       won: bool, gameOver: bool, firstClick: bool, fatalMine: Option<CellIdx>,
                       hintCells: Option<map<CellIdx, bool>>)

  /** The board covers the height x width grid and each cell knows its own position. */
  ghost predicate Shaped(height: int, width: int, cells: map<CellIdx, MineCell>)
  {
    cells.Keys == GridFacts.Rect(height, width) &&
    forall k | k in cells :: cells[k].r == k.0 && cells[k].c == k.1
  }

  /**
   * The game invariant. Before the first click nothing is revealed and no
   * cell is mined; after it the board holds `mines` mines and every safe
   * cell its count. Until the game is lost no revealed cell is a mine or
   * flagged, and until it is won mines_left + |flagged| is the mine total.
   */
  ghost predicate PlayValid(height: int, width: int, mines: int, p: Play)
  {
    Shaped(height, width, p.cells) &&
    (p.firstClick ==> p.revealed == {} && forall k | k in p.cells :: p.cells[k] == NewCell(k)) &&
    (!p.firstClick ==> height >= 1 && width >= 1 && |MineSet(p.cells)| == mines && Numbered(height, width, p.cells)) &&
    p.revealed <= p.cells.Keys && p.flagged <= p.cells.Keys &&
    (!p.gameOver ==> p.revealed !! p.flagged && p.revealed !! MineSet(p.cells)) &&
    (!p.won ==> p.minesLeft + |p.flagged| == mines)
  }

  /** The game right after construction or a restart. */
  function Fresh(height: int, width: int, mines: int): Play
  {
    Play(NewCells(height, width), {}, {}, mines, false, false, true, None, None)
  }

  /** A fresh game is a valid one. */
  lemma FreshValid(height: int, width: int, mines: int)
    ensures PlayValid(height, width, mines, Fresh(height, width, mines))
    ensures Fresh(height, width, mines).firstClick && Fresh(height, width, mines).revealed == {}
  {
  }

  /** The first left click: the mines are laid around the clicked cell and the board is numbered. */
  function Armed(height: int, width: int, p: Play, cell: CellIdx, chosen: seq<CellIdx>): Play
  {
    p.(firstClick := false, cells := Numbering(Placed(p.cells, cell, chosen), height, width))
  }

  /**
   * The first click is always safe: once the mines are laid around it the
   * clicked cell holds none, the board holds exactly the sampled mines, and
   * the game is still valid.
   */
  lemma ArmedValid(height: int, width: int, mines: int, p: Play, cell: CellIdx, chosen: seq<CellIdx>)
    requires PlayValid(height, width, mines, p) && p.firstClick && FaceInRange(height, width, cell)
    requires MineSample(chosen, height, width, cell, mines)
    ensures PlayValid(height, width, mines, Armed(height, width, p, cell, chosen))
    ensures MineSet(Armed(height, width, p, cell, chosen).cells) == Elements(chosen)
    ensures cell !in MineSet(Armed(height, width, p, cell, chosen).cells)
  {
    var placed := Placed(p.cells, cell, chosen);
    PlacedMines(p.cells, height, width, cell, chosen, mines);
    NumberingNumbered(placed, height, width);
  }

  /** A left click on a mine: the game is lost and every mine is shown. */
  function Exploded(p: Play, cell: CellIdx): Play
  {
    p.(gameOver := true, fatalMine := Some(cell), revealed := p.revealed + MineSet(p.cells))
  }

  /** Losing keeps the game valid. */
  lemma ExplodedValid(height: int, width: int, mines: int, p: Play, cell: CellIdx)
    requires PlayValid(height, width, mines, p) && !p.won
    ensures PlayValid(height, width, mines, Exploded(p, cell))
    ensures Exploded(p, cell).gameOver && MineSet(p.cells) <= Exploded(p, cell).revealed
  {
  }

  /**
   * A left click on a safe cell once the reveal has produced out: the game
   * is won when as many cells are shown as there are safe cells, and a win
   * flags every mine and sets mines_left to 0. The hint for the cell is
   * dropped.
   */
  function Swept(height: int, width: int, mines: int, p: Play, out: set<CellIdx>, cell: CellIdx): Play
  {
    var win := |out| == width * height - mines;
    p.(revealed := out, won := win,
       flagged := if win then p.flagged + MineSet(p.cells) else p.flagged,
       minesLeft := if win then 0 else p.minesLeft,
       hintCells := DropHint(p.hintCells, cell))
  }

  /**
   * A safe click keeps the game valid, shows no mine, and the win test
   * means what it should: the game is won exactly when every safe cell is
   * revealed.
   */
  lemma SweptValid(height: int, width: int, mines: int, p: Play, out: set<CellIdx>, cell: CellIdx)
    requires PlayValid(height, width, mines, p) && !p.firstClick && !p.gameOver && !p.won
    requires cell !in p.flagged && cell !in MineSet(p.cells)
    requires RevealOutcome(p.cells, height, width, p.revealed, p.flagged, cell, out)
    ensures PlayValid(height, width, mines, Swept(height, width, mines, p, out, cell))
    ensures out !! MineSet(p.cells) && cell in out
    ensures Swept(height, width, mines, p, out, cell).won <==> out == p.cells.Keys - MineSet(p.cells)
  {
    forall q | q in out
      ensures q in p.cells && q !in p.flagged && q !in MineSet(p.cells)
    {
      if q !in p.revealed {
        assert q in out - p.revealed;
      }
    }
    WinCount(height, width, p.cells, out, mines);
  }

  /**
   * The grid branch of `handle_click` for a left click: a flagged cell
   * ignores it; a first click that cannot lay the mines raises ValueError
   * after clearing the first-click flag; otherwise the armed board decides
   * between a lost game and a safe reveal.
   */
  ghost predicate LeftClicked(height: int, width: int, mines: int, p0: Play, p1: Play, cell: CellIdx, chosen: seq<CellIdx>, res: Result<()>)
  {
    if cell in p0.flagged then res == Ok(()) && p1 == p0
    else if p0.firstClick && !(0 <= mines <= height * width - 1) then res == Err(ValueError) && p1 == p0.(firstClick := false)
    else
      var armed := if p0.firstClick then Armed(height, width, p0, cell, chosen) else p0;
      res == Ok(()) &&
      if cell in MineSet(armed.cells) then p1 == Exploded(armed, cell)
      else RevealOutcome(armed.cells, height, width, armed.revealed, armed.flagged, cell, p1.revealed) &&
           p1 == Swept(height, width, mines, armed, p1.revealed, cell)
  }

  /**
   * The grid branch of `handle_click` for a right click: a revealed cell
   * cannot be flagged; otherwise the flag is toggled, mines_left moves the
   * other way and the cell's hint is dropped.
   */
  function RightClicked(p: Play, cell: CellIdx): Play
  {
    if cell in p.revealed then p
    else if cell in p.flagged then
      p.(flagged := p.flagged - {cell}, minesLeft := p.minesLeft + 1, hintCells := DropHint(p.hintCells, cell))
    else
      p.(flagged := p.flagged + {cell}, minesLeft := p.minesLeft - 1, hintCells := DropHint(p.hintCells, cell))
  }

  /** A right click keeps the game valid and keeps mines_left + |flagged| where it was. */
  lemma RightClickedValid(height: int, width: int, mines: int, p: Play, cell: CellIdx)
    requires PlayValid(height, width, mines, p) && !p.won && FaceInRange(height, width, cell)
    ensures PlayValid(height, width, mines, RightClicked(p, cell))
    ensures RightClicked(p, cell).minesLeft + |RightClicked(p, cell).flagged| == p.minesLeft + |p.flagged|
    ensures cell in p.revealed <==> RightClicked(p, cell) == p
  {
    var q := RightClicked(p, cell);
    if cell !in p.revealed {
      assert q.flagged != p.flagged;
      assert q.cells == p.cells && q.revealed == p.revealed && q.won == p.won && q.gameOver == p.gameOver;
      assert q.firstClick == p.firstClick;
      if cell in p.flagged {
        assert |q.flagged| == |p.flagged| - 1;
      } else {
        assert |q.flagged| == |p.flagged| + 1;
      }
    }
  }

  class Minesweeper {
    const initialWidth: int
    const initialHeight: int
    const initialMines: int
    const width: int
    const height: int
    var mines: int
    var minesLeft: int
    /** `solution`, the `MineBoard`, by its face dictionary. */
    var cells: map<CellIdx, MineCell>
    var revealed: set<CellIdx>
    var flagged: set<CellIdx>
    var won: bool
    var gameOver: bool
    var firstClick: bool
    var fatalMine: Option<CellIdx>
    /** Whether a solver object is attached. */
    var hasSolver: bool
    var hintCells: Option<map<CellIdx, bool>>
    var solving: bool
    var findingHints: bool
    var solveTimer: int
    var cellsToSolve: Option<seq<(CellIdx, bool)>>

    /** The fields a click can change, as one value. */
    function Snapshot(): Play
      reads this
    {
      Play(cells, revealed, flagged, minesLeft, won, gameOver, firstClick, fatalMine, hintCells)
    }

    /** No solver attached, no solving or hint search under way, nothing queued for the solver. */
    predicate SolverIdle()
      reads this
    {
      !hasSolver && !solving && !findingHints && solveTimer == 0 && cellsToSolve == None
    }

    ghost predicate Valid()
      reads this
    {
      PlayValid(height, width, mines, Snapshot())
    }

    /** `__init__` without the window: a fresh board, nothing revealed or flagged, no solver. */
    constructor(width: int, height: int, mines: int)
      ensures Valid()
      ensures this.width == width && this.height == height && this.mines == mines
      ensures initialWidth == width && initialHeight == height && initialMines == mines
      ensures Snapshot() == Fresh(height, width, mines)
      ensures SolverIdle()
    {
      initialWidth, initialHeight, initialMines := width, height, mines;
      this.width, this.height := width, height;
      this.mines, minesLeft := mines, mines;
      cells := NewCells(height, width);
      revealed, flagged := {}, {};
      won, gameOver, firstClick, fatalMine := false, false, true, None;
      hasSolver, hintCells, solving, findingHints := false, None, false, false;
      solveTimer, cellsToSolve := 0, None;
      new;
      FreshValid(height, width, mines);
    }

    /**
     * `check_win`: the game is won when as many cells are revealed as
     * there are safe cells; then every mine not yet flagged is flagged.
     */
    method CheckWin() returns (win: bool)
      requires cells.Keys == GridFacts.Rect(height, width)
      modifies this`flagged
      ensures win <==> |revealed| == width * height - mines
      ensures flagged == if win then old(flagged) + MineSet(cells) else old(flagged)
    {
      if |revealed| != width * height - mines {
        return false;
      }
      var ms := MineSet(cells);
      for r := 0 to RangeLen(height)
        invariant flagged == old(flagged) + set k | k in ms && k.0 < r
      {
        for c := 0 to RangeLen(width)
          invariant flagged == old(flagged) + set k | k in ms && Before(k, r, c)
        {
          if cells[(r, c)].isMine && (r, c) !in flagged {
            flagged := flagged + {(r, c)};
          }
        }
      }
      return true;
    }

    /** `reveal_all_mines`: every mine joins the revealed cells. */
    method RevealAllMines()
      requires cells.Keys == GridFacts.Rect(height, width)
      modifies this`revealed
      ensures revealed == old(revealed) + MineSet(cells)
    {
      var ms := MineSet(cells);
      for r := 0 to RangeLen(height)
        invariant revealed == old(revealed) + set k | k in ms && k.0 < r
      {
        for c := 0 to RangeLen(width)
          invariant revealed == old(revealed) + set k | k in ms && Before(k, r, c)
        {
          if cells[(r, c)].isMine {
            revealed := revealed + {(r, c)};
          }
        }
      }
    }

    /** The grid branch of `handle_click` for a right click on a cell. */
    method RightClick(cell: CellIdx)
      modifies this`flagged, this`minesLeft, this`hintCells
      ensures Snapshot() == RightClicked(old(Snapshot()), cell)
    {
      if cell !in revealed {
        if cell in flagged {
          flagged := flagged - {cell};
          minesLeft := minesLeft + 1;
        } else {
          flagged := flagged + {cell};
          minesLeft := minesLeft - 1;
        }
        hintCells := DropHint(hintCells, cell);
      }
    }

    /** The grid branch of `handle_click` for a left click on a cell. */
    method LeftClick(cell: CellIdx, chosen: seq<CellIdx>) returns (res: Result<()>)
      requires Valid() && !won && !gameOver && FaceInRange(height, width, cell)
      requires 0 <= mines <= height * width - 1 ==> MineSample(chosen, height, width, cell, mines)
      modifies this`cells, this`revealed, this`flagged, this`minesLeft, this`won, this`gameOver
      modifies this`firstClick, this`fatalMine, this`hintCells
      ensures res.Ok? ==> Valid()
      ensures LeftClicked(height, width, mines, old(Snapshot()), Snapshot(), cell, chosen, res)
    {
      if cell in flagged {
        return Ok(());
      }
      if firstClick {
        ghost var p0 := Snapshot();
        res := FirstClick(cell, chosen);
        if res.Err? {
          return;
        }
        ArmedValid(height, width, mines, p0, cell, chosen);
      }
      if cells[cell].isMine {
        ExplodedValid(height, width, mines, Snapshot(), cell);
        Explode(cell);
      } else {
        ghost var armed := Snapshot();
        SafeClick(cell);
        SweptValid(height, width, mines, armed, revealed, cell);
      }
      res := Ok(());
    }

    /** The first-click part of a left click: the mines are laid around the cell and the board is numbered. */
    method FirstClick(cell: CellIdx, chosen: seq<CellIdx>) returns (res: Result<()>)
      requires cells.Keys == GridFacts.Rect(height, width) && FaceInRange(height, width, cell)
      requires 0 <= mines <= height * width - 1 ==> MineSample(chosen, height, width, cell, mines)
      modifies this`cells, this`firstClick
      ensures res.Err? <==> !(0 <= mines <= height * width - 1)
      ensures res.Err? ==> res == Err(ValueError) && Snapshot() == old(Snapshot()).(firstClick := false)
      ensures res.Ok? ==> Snapshot() == Armed(height, width, old(Snapshot()), cell, chosen)
    {
      firstClick := false;
      var placed := PlaceMines(cells, height, width, mines, cell, chosen);
      if placed.Err? {
        return Err(placed.error);
      }
      cells := CalculateNumbers(placed.value, height, width);
      res := Ok(());
    }

    /** The mine part of a left click: the game is lost and every mine is shown. */
    method Explode(cell: CellIdx)
      requires cells.Keys == GridFacts.Rect(height, width)
      modifies this`gameOver, this`fatalMine, this`revealed
      ensures Snapshot() == Exploded(old(Snapshot()), cell)
    {
      gameOver := true;
      fatalMine := Some(cell);
      RevealAllMines();
    }

    /** The safe-cell part of a left click: reveal, test for a win, drop the hint. */
    method SafeClick(cell: CellIdx)
      requires Shaped(height, width, cells) && Numbered(height, width, cells) && FaceInRange(height, width, cell) && !won
      modifies this`revealed, this`flagged, this`minesLeft, this`won, this`hintCells
      ensures RevealOutcome(cells, height, width, old(revealed), old(flagged), cell, revealed)
      ensures Snapshot() == Swept(height, width, mines, old(Snapshot()), revealed, cell)
    {
      assert (cell.0, cell.1) == cell;
      revealed := Reveal(cells, height, width, revealed, flagged, cell.0, cell.1);
      var win := CheckWin();
      if win {
        won := true;
        minesLeft := 0;
      }
      hintCells := DropHint(hintCells, cell);
    }

    /** Whether `handle_click` ignores a click at (x, y) on the grid. */
    predicate Ignored(x: int, y: int)
      reads this
    {
      findingHints || solving || gameOver || won || ClickedCell(x, y, height, width).None?
    }

    /**
     * `handle_click(pos, right_click)` for a click that hits no panel
     * button: ignored while hints are found or the solver runs, once the
     * game is over, and off the grid; otherwise a right or a left click on
     * the cell under the mouse. The mine total and the solver fields are
     * never touched.
     */
    method HandleClick(x: int, y: int, rightClick: bool, chosen: seq<CellIdx>) returns (res: Result<()>)
      requires Valid()
      requires var cell := ClickedCell(x, y, height, width);
               cell.Some? && 0 <= mines <= height * width - 1 ==> MineSample(chosen, height, width, cell.value, mines)
      modifies this`cells, this`revealed, this`flagged, this`minesLeft, this`won, this`gameOver
      modifies this`firstClick, this`fatalMine, this`hintCells
      ensures res.Ok? ==> Valid()
      ensures old(Ignored(x, y)) ==> res.Ok? && Snapshot() == old(Snapshot())
      ensures !old(Ignored(x, y)) && rightClick ==>
                res.Ok? && Snapshot() == RightClicked(old(Snapshot()), ClickedCell(x, y, height, width).value)
      ensures !old(Ignored(x, y)) && !rightClick ==>
                LeftClicked(height, width, mines, old(Snapshot()), Snapshot(), ClickedCell(x, y, height, width).value, chosen, res)
    {
      if findingHints || solving {
        return Ok(());
      }
      if gameOver || won {
        return Ok(());
      }
      var cell := ClickedCell(x, y, height, width);
      if cell.None? {
        return Ok(());
      }
      if rightClick {
        RightClickedValid(height, width, mines, Snapshot(), cell.value);
        RightClick(cell.value);
        res := Ok(());
      } else {
        res := LeftClick(cell.value, chosen);
      }
    }

    /** `restart_game`: every game and solver field back to its starting value, on a fresh board. */
    method RestartGame()
      modifies this`mines, this`minesLeft, this`cells, this`revealed, this`flagged, this`won, this`gameOver
      modifies this`firstClick, this`fatalMine, this`hasSolver, this`hintCells, this`solving, this`findingHints
      modifies this`solveTimer, this`cellsToSolve
      ensures Valid()
      ensures mines == initialMines && Snapshot() == Fresh(height, width, initialMines)
      ensures SolverIdle()
    {
      ResetBoard();
      ResetSolver();
      FreshValid(height, width, initialMines);
    }

    /** The game fields of `restart_game`: the starting mine total on a fresh board. */
    method ResetBoard()
      modifies this`mines, this`minesLeft, this`cells, this`revealed, this`flagged, this`won, this`gameOver
      modifies this`firstClick, this`fatalMine, this`hintCells
      ensures mines == initialMines && Snapshot() == Fresh(height, width, initialMines)
    {
      mines, minesLeft := initialMines, initialMines;
      cells := NewCells(height, width);
      revealed, flagged := {}, {};
      won, gameOver, firstClick, fatalMine := false, false, true, None;
      hintCells := None;
    }

    /** The solver fields of `restart_game`: no solver, nothing running, nothing queued. */
    method ResetSolver()
      modifies this`hasSolver, this`solving, this`findingHints, this`solveTimer, this`cellsToSolve
      ensures SolverIdle()
    {
      hasSolver, solving, findingHints := false, false, false;
      solveTimer, cellsToSolve := 0, None;
    }
  }
}
