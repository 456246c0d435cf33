/**
 * The Dominosa board of `logicpuzzles/dominosa/dominosa.py`: an N x (N+1)
 * grid of pip values on which every domino (i, j), 0 <= i <= j < N, lies
 * once. A board is given, or generated by a random tiling onto which the
 * shuffled domino set is written. `val` answers -1 off the board, `set`
 * raises ValueError there, `verify` checks a list of placements and
 * `pretty_print` draws the domino outlines.
 */
module Dominosa {
  import opened Py
  import opened Grid
  import opened Dominoes

  /** `val(r, c)` on a board's cells: -1 for any coordinate off the board, negative or too large. */
  function ValueAt(b: Cells, nR: int, nC: int, p: CellIdx): (v: Option<int>)
    requires Shaped(b, RangeLen(nR), RangeLen(nC))
  {
    if p.0 >= nR || p.1 >= nC || p.0 < 0 || p.1 < 0 then Some(-1) else b[p.0][p.1]
  }

  /** `str(x)` of a cell: `None` while untiled, else the number. */
  function CellText(v: Option<int>): (s: string)
    ensures |s| >= 1 && forall i :: 0 <= i < |s| ==> s[i] != '\n'
  {
    if v.None? then "None" else IntToString(v.value)
  }

  /** The `h_borders` or `v_borders` grid: (NR+1) x (NC+1), all True. */
  predicate BorderGrid(g: seq<seq<bool>>, nR1: nat, nC1: nat)
  {
    |g| == nR1 && forall i :: 0 <= i < nR1 ==> |g[i]| == nC1
  }

  /**
   * The border a placement clears, as a Python index into the border grid:
   * below (r, c) for direction 0, right of (r, c) otherwise.
   */
  function ClearedSlot(p: Placement, nR1: nat, nC1: nat): Option<CellIdx>
  {
    if p.2 == 0 then Slot((p.0 + 1, p.1), nR1, nC1) else Slot((p.0, p.1 + 1), nR1, nC1)
  }

  /** The horizontal borders the placements clear. */
  function HOff(ps: seq<Placement>, nR1: nat, nC1: nat): set<CellIdx>
  {
    set k | 0 <= k < |ps| && ps[k].2 == 0 && ClearedSlot(ps[k], nR1, nC1).Some? :: ClearedSlot(ps[k], nR1, nC1).value
  }

  /** The vertical borders the placements clear. */
  function VOff(ps: seq<Placement>, nR1: nat, nC1: nat): set<CellIdx>
  {
    set k | 0 <= k < |ps| && ps[k].2 != 0 && ClearedSlot(ps[k], nR1, nC1).Some? :: ClearedSlot(ps[k], nR1, nC1).value
  }

  function TopLine(nC: nat, hOff: set<CellIdx>): string
  {
    "+" + Concat(seq(nC, c => if (0, c) in hOff then "   +" else "---+"))
  }

  function RowSeg(b: Cells, n: int, vOff: set<CellIdx>, r: int, c: int): string
    requires Shaped(b, RangeLen(n), RangeLen(n + 1))
  {
    " " + CellText(ValueAt(b, n, n + 1, (r, c))) + " " + (if (r, c + 1) in vOff then " " else "|")
  }

  /** The values of row r between their vertical borders. */
  function RowLine(b: Cells, n: int, vOff: set<CellIdx>, r: int): string
    requires Shaped(b, RangeLen(n), RangeLen(n + 1))
  {
    "|" + Concat(seq(RangeLen(n + 1), c => RowSeg(b, n, vOff, r, c)))
  }

  function BorderSeg(hOff: set<CellIdx>, r: int, c: int): string
  {
    (if (r + 1, c) in hOff then "   " else "---") + "+"
  }

  /** The horizontal borders below row r. */
  function BorderLine(nC: nat, hOff: set<CellIdx>, r: int): string
  {
    "+" + Concat(seq(nC, c => BorderSeg(hOff, r, c)))
  }

  /** The top line, then a value line and a border line for each of the first k rows. */
  function Lines(b: Cells, n: int, hOff: set<CellIdx>, vOff: set<CellIdx>, k: nat): (ls: seq<string>)
    requires Shaped(b, RangeLen(n), RangeLen(n + 1))
    ensures |ls| == 2 * k + 1
  {
    Weave(TopLine(RangeLen(n + 1), hOff), r => RowLine(b, n, vOff, r), r => BorderLine(RangeLen(n + 1), hOff, r), k)
  }

  /** `top`, then `row(r)` and `border(r)` for each r below k. */
  function Weave(top: string, row: int -> string, border: int -> string, k: nat): (ls: seq<string>)
    ensures |ls| == 2 * k + 1
  {
    seq(2 * k + 1, j => if j == 0 then top else if j % 2 == 1 then row(j / 2) else border(j / 2 - 1))
  }

  lemma WeaveAt(top: string, row: int -> string, border: int -> string, k: nat, r: int)
    requires 0 <= r < k
    ensures Weave(top, row, border, k)[0] == top
    ensures Weave(top, row, border, k)[2 * r + 1] == row(r)
    ensures Weave(top, row, border, k)[2 * r + 2] == border(r)
  {
    Halves(r);
  }

  /** `pretty_print(dlocs)`: IndexError when a placement's border lies outside the border grid. */
  function Pretty(b: Cells, n: int, ps: seq<Placement>): Result<string>
    requires Shaped(b, RangeLen(n), RangeLen(n + 1))
  {
    var nR1, nC1 := RangeLen(n + 1), RangeLen(n + 2);
    if exists k :: 0 <= k < |ps| && ClearedSlot(ps[k], nR1, nC1).None? then Err(IndexError)
    else Ok(Join(Lines(b, n, HOff(ps, nR1, nC1), VOff(ps, nR1, nC1), RangeLen(n)), "\n"))
  }

  predicate OneLine(s: string)
  {
    forall i :: 0 <= i < |s| ==> s[i] != '\n'
  }

  lemma {:induction false} ConcatOneLine(parts: seq<string>)
    requires forall j :: 0 <= j < |parts| ==> OneLine(parts[j])
    ensures OneLine(Concat(parts))
  {
    if parts != [] {
      ConcatOneLine(parts[1..]);
      assert Concat(parts) == parts[0] + Concat(parts[1..]);
    }
  }

  /** The first line of the drawing is the top border. */
  lemma TopAt(b: Cells, n: int, hOff: set<CellIdx>, vOff: set<CellIdx>, k: nat)
    requires Shaped(b, RangeLen(n), RangeLen(n + 1))
    ensures Lines(b, n, hOff, vOff, k)[0] == TopLine(RangeLen(n + 1), hOff)
  {
  }

  /** Line 2r+1 of the drawing shows row r and line 2r+2 the borders below it. */
  lemma LineAt(b: Cells, n: int, hOff: set<CellIdx>, vOff: set<CellIdx>, k: nat, r: int)
    requires Shaped(b, RangeLen(n), RangeLen(n + 1))
    requires 0 <= r < k
    ensures Lines(b, n, hOff, vOff, k)[2 * r + 1] == RowLine(b, n, vOff, r)
    ensures Lines(b, n, hOff, vOff, k)[2 * r + 2] == BorderLine(RangeLen(n + 1), hOff, r)
  {
    WeaveAt(TopLine(RangeLen(n + 1), hOff), r => RowLine(b, n, vOff, r), r => BorderLine(RangeLen(n + 1), hOff, r), k, r);
  }

  lemma Halves(r: int)
    ensures (2 * r + 1) % 2 == 1 && (2 * r + 1) / 2 == r
    ensures (2 * r + 2) % 2 == 0 && (2 * r + 2) / 2 == r + 1
  {
  }

  /** Drawing one more row appends its value line and its border line. */
  lemma LinesSnoc(b: Cells, n: int, hOff: set<CellIdx>, vOff: set<CellIdx>, k: nat)
    requires Shaped(b, RangeLen(n), RangeLen(n + 1))
    ensures Lines(b, n, hOff, vOff, k + 1) ==
            Lines(b, n, hOff, vOff, k) + [RowLine(b, n, vOff, k), BorderLine(RangeLen(n + 1), hOff, k)]
  {
    WeaveSnoc(TopLine(RangeLen(n + 1), hOff), r => RowLine(b, n, vOff, r), r => BorderLine(RangeLen(n + 1), hOff, r), k);
  }

  lemma WeaveSnoc(top: string, row: int -> string, border: int -> string, k: nat)
    ensures Weave(top, row, border, k + 1) == Weave(top, row, border, k) + [row(k), border(k)]
  {
    var longer, shorter := Weave(top, row, border, k + 1), Weave(top, row, border, k);
    forall j | 0 <= j < 2 * k + 1
      ensures longer[j] == shorter[j]
    {
    }
    WeaveAt(top, row, border, k + 1, k);
  }

  /** A weave of single lines is made of single lines. */
  lemma WeaveOneLine(top: string, row: int -> string, border: int -> string, k: nat)
    requires OneLine(top)
    requires forall r :: 0 <= r < k ==> OneLine(row(r)) && OneLine(border(r))
    ensures forall j :: 0 <= j < 2 * k + 1 ==> OneLine(Weave(top, row, border, k)[j])
  {
    var ls := Weave(top, row, border, k);
    forall j | 0 <= j < 2 * k + 1
      ensures OneLine(ls[j])
    {
      if j > 0 {
        var r := (j - 1) / 2;
        assert j == 2 * r + 1 || j == 2 * r + 2;
        WeaveAt(top, row, border, k, r);
      }
    }
  }

  /** No line of the drawing holds a newline. */
  lemma LinesOneLine(b: Cells, n: int, hOff: set<CellIdx>, vOff: set<CellIdx>, k: nat)
    requires Shaped(b, RangeLen(n), RangeLen(n + 1))
    ensures forall j :: 0 <= j < 2 * k + 1 ==> OneLine(Lines(b, n, hOff, vOff, k)[j])
  {
    var row, border := r => RowLine(b, n, vOff, r), r => BorderLine(RangeLen(n + 1), hOff, r);
    forall r | 0 <= r < k
      ensures OneLine(row(r)) && OneLine(border(r))
    {
      RowLineOneLine(b, n, vOff, r);
      BorderLineOneLine(RangeLen(n + 1), hOff, r);
    }
    ConcatOneLine(seq(RangeLen(n + 1), c => if (0, c) in hOff then "   +" else "---+"));
    WeaveOneLine(TopLine(RangeLen(n + 1), hOff), row, border, k);
  }

  lemma RowLineOneLine(b: Cells, n: int, vOff: set<CellIdx>, r: int)
    requires Shaped(b, RangeLen(n), RangeLen(n + 1))
    ensures OneLine(RowLine(b, n, vOff, r))
  {
    ConcatOneLine(seq(RangeLen(n + 1), c => RowSeg(b, n, vOff, r, c)));
  }

  lemma BorderLineOneLine(nC: nat, hOff: set<CellIdx>, r: int)
    ensures OneLine(BorderLine(nC, hOff, r))
  {
    ConcatOneLine(seq(nC, c => BorderSeg(hOff, r, c)));
  }

  /** The drawing has 2*NR + 1 lines, which splitting on newlines gives back. */
  lemma PrettyLineCount(b: Cells, n: int, ps: seq<Placement>)
    requires Shaped(b, RangeLen(n), RangeLen(n + 1))
    requires Pretty(b, n, ps).Ok?
    ensures var nR1, nC1 := RangeLen(n + 1), RangeLen(n + 2);
            Split(Pretty(b, n, ps).value, '\n') == Lines(b, n, HOff(ps, nR1, nC1), VOff(ps, nR1, nC1), RangeLen(n))
    ensures |Split(Pretty(b, n, ps).value, '\n')| == 2 * RangeLen(n) + 1
  {
    var nR1, nC1 := RangeLen(n + 1), RangeLen(n + 2);
    var ls := Lines(b, n, HOff(ps, nR1, nC1), VOff(ps, nR1, nC1), RangeLen(n));
    LinesOneLine(b, n, HOff(ps, nR1, nC1), VOff(ps, nR1, nC1), RangeLen(n));
    assert forall j, i :: 0 <= j < |ls| && 0 <= i < |ls[j]| ==> ls[j][i] != '\n' by {
      forall j, i | 0 <= j < |ls| && 0 <= i < |ls[j]|
        ensures ls[j][i] != '\n'
      {
        assert OneLine(ls[j]);
      }
    }
    JoinSplit(ls, '\n');
  }

  /**
   * A vertical domino at (r, c) opens the border below (r, c): columns
   * 4c+1 .. 4c+3 of line 2r+2 are blank; otherwise that border is drawn.
   */
  lemma BorderBelowOpen(b: Cells, n: int, ps: seq<Placement>, r: int, c: int)
    requires Shaped(b, RangeLen(n), RangeLen(n + 1))
    requires Pretty(b, n, ps).Ok?
    requires 0 <= r < n && 0 <= c < n + 1
    ensures var ls := Split(Pretty(b, n, ps).value, '\n');
            2 * r + 2 < |ls| && 4 * c + 4 <= |ls[2 * r + 2]| &&
            var seg := ls[2 * r + 2][4 * c + 1 .. 4 * c + 4];
            (seg == "   " <==> exists k :: 0 <= k < |ps| && ps[k].2 == 0 && ClearedSlot(ps[k], n + 1, n + 2) == Some((r + 1, c))) &&
            (seg != "   " ==> seg == "---")
  {
    var nR1, nC1 := RangeLen(n + 1), RangeLen(n + 2);
    var hOff := HOff(ps, nR1, nC1);
    PrettyLineCount(b, n, ps);
    LineAt(b, n, hOff, VOff(ps, nR1, nC1), RangeLen(n), r);
    var segs := seq(RangeLen(n + 1), j => BorderSeg(hOff, r, j));
    var line := BorderLine(RangeLen(n + 1), hOff, r);
    ConcatWidth(segs, 4);
    forall i | 0 <= i < 3
      ensures line[4 * c + 1 + i] == segs[c][i]
    {
      ConcatAt(segs, 4, c, i);
    }
    assert line[4 * c + 1 .. 4 * c + 4] == segs[c][..3];
    if (r + 1, c) in hOff {
      var k :| 0 <= k < |ps| && ps[k].2 == 0 && ClearedSlot(ps[k], nR1, nC1).Some? && ClearedSlot(ps[k], nR1, nC1).value == (r + 1, c);
    }
  }

  lemma Concat3(x: string, y: string, z: string)
    ensures Concat([x, y, z]) == x + y + z
  {
    assert [x, y, z][1..] == [y, z];
    assert [y, z][1..] == [z];
    assert [z][1..] == [];
    assert Concat([z]) == z;
    assert Concat([y, z]) == y + z;
  }

  function ExampleBoard(): Cells
  {
    [[Some(0), Some(1), Some(2)], [Some(1), Some(2), Some(3)]]
  }

  function ExamplePlacements(): seq<Placement>
  {
    [(0, 0, 1), (0, 2, 0), (1, 0, 1)]
  }

  /** The example's placements clear the border below (0, 2) and those right of (0, 0) and (1, 0). */
  lemma ExampleOff()
    ensures HOff(ExamplePlacements(), 3, 4) == {(1, 2)}
    ensures VOff(ExamplePlacements(), 3, 4) == {(0, 1), (1, 1)}
  {
    var ps := ExamplePlacements();
    assert ClearedSlot(ps[0], 3, 4) == Some((0, 1));
    assert ClearedSlot(ps[1], 3, 4) == Some((1, 2));
    assert ClearedSlot(ps[2], 3, 4) == Some((1, 1));
    var hOff, vOff := HOff(ps, 3, 4), VOff(ps, 3, 4);
    forall x | x in hOff
      ensures x == (1, 2)
    {
    }
    assert ps[1].2 == 0;
    forall x | x in vOff
      ensures x == (0, 1) || x == (1, 1)
    {
    }
    assert ps[0].2 != 0 && ps[2].2 != 0;
  }

  lemma ExampleTop()
    ensures TopLine(3, {(1, 2)}) == "+---+---+---+"
  {
    var hOff: set<CellIdx> := {(1, 2)};
    var segs := seq(3, c => if (0, c) in hOff then "   +" else "---+");
    assert segs == ["---+", "---+", "---+"];
    Concat3(segs[0], segs[1], segs[2]);
    assert TopLine(3, hOff) == "+" + Concat(segs);
  }

  /** Cell (r, c) of the example holds r + c, and only the borders right of column 0 are cleared. */
  lemma ExampleSeg(r: int, c: int)
    requires 0 <= r < 2 && 0 <= c < 3
    ensures RowSeg(ExampleBoard(), 2, {(0, 1), (1, 1)}, r, c) == [' ', DigitChar(r + c), ' ', if c == 0 then ' ' else '|']
  {
    assert ExampleBoard()[r][c] == Some(r + c);
    assert CellText(Some(r + c)) == [DigitChar(r + c)];
  }

  lemma ExampleRow(r: int)
    requires 0 <= r < 2
    ensures RowLine(ExampleBoard(), 2, {(0, 1), (1, 1)}, r) ==
            "|" + [' ', DigitChar(r), ' ', ' '] + [' ', DigitChar(r + 1), ' ', '|'] + [' ', DigitChar(r + 2), ' ', '|']
  {
    var row := seq(3, c => RowSeg(ExampleBoard(), 2, {(0, 1), (1, 1)}, r, c));
    ExampleSeg(r, 0);
    ExampleSeg(r, 1);
    ExampleSeg(r, 2);
    assert row == [row[0], row[1], row[2]];
    Concat3(row[0], row[1], row[2]);
  }

  lemma ExampleRow0()
    ensures RowLine(ExampleBoard(), 2, {(0, 1), (1, 1)}, 0) == "| 0   1 | 2 |"
  {
    ExampleRow(0);
    assert DigitChar(0) == '0' && DigitChar(1) == '1' && DigitChar(2) == '2';
  }

  lemma ExampleRow1()
    ensures RowLine(ExampleBoard(), 2, {(0, 1), (1, 1)}, 1) == "| 1   2 | 3 |"
  {
    ExampleRow(1);
    assert DigitChar(1) == '1' && DigitChar(2) == '2' && DigitChar(3) == '3';
  }

  lemma ExampleBorders()
    ensures BorderLine(3, {(1, 2)}, 0) == "+---+---+   +"
    ensures BorderLine(3, {(1, 2)}, 1) == "+---+---+---+"
  {
    var hOff: set<CellIdx> := {(1, 2)};
    var bor0 := seq(3, c => BorderSeg(hOff, 0, c));
    assert bor0[0] == "---+" && bor0[1] == "---+" && bor0[2] == "   +";
    assert bor0 == ["---+", "---+", "   +"];
    Concat3(bor0[0], bor0[1], bor0[2]);
    var bor1 := seq(3, c => BorderSeg(hOff, 1, c));
    assert bor1 == ["---+", "---+", "---+"];
    Concat3(bor1[0], bor1[1], bor1[2]);
  }

  /** The board drawn in the comment above `pretty_print` (N = 2), line by line. */
  lemma PrettyExample()
    ensures Pretty(ExampleBoard(), 2, ExamplePlacements()) == Ok(Join([
              "+---+---+---+",
              "| 0   1 | 2 |",
              "+---+---+   +",
              "| 1   2 | 3 |",
              "+---+---+---+"], "\n"))
  {
    var ps := ExamplePlacements();
    ExampleOff();
    ExampleLines();
    assert forall k :: 0 <= k < |ps| ==> ClearedSlot(ps[k], 3, 4).Some? by {
      assert ClearedSlot(ps[0], 3, 4).Some? && ClearedSlot(ps[1], 3, 4).Some? && ClearedSlot(ps[2], 3, 4).Some?;
    }
    assert RangeLen(2 + 1) == 3 && RangeLen(2 + 2) == 4 && RangeLen(2) == 2;
  }

  /** The example's five lines. */
  lemma ExampleLines()
    ensures Lines(ExampleBoard(), 2, {(1, 2)}, {(0, 1), (1, 1)}, 2) ==
            ["+---+---+---+", "| 0   1 | 2 |", "+---+---+   +", "| 1   2 | 3 |", "+---+---+---+"]
  {
    var b, hOff, vOff := ExampleBoard(), {(1, 2)}, {(0, 1), (1, 1)};
    var ls := Lines(b, 2, hOff, vOff, 2);
    TopAt(b, 2, hOff, vOff, 2);
    LineAt(b, 2, hOff, vOff, 2, 0);
    LineAt(b, 2, hOff, vOff, 2, 1);
    ExampleTop();
    ExampleRow0();
    ExampleRow1();
    ExampleBorders();
    assert RangeLen(2 + 1) == 3;
    assert ls == [ls[0], ls[1], ls[2], ls[3], ls[4]];
  }

  class Board {
    const N: int
    const NR: int
    const NC: int
    const ds: seq<Tile>
    var board: Cells

    ghost predicate Valid()
      reads this
    {
      NR == N && NC == N + 1 && ds == Ds(N) && Shaped(board, RangeLen(NR), RangeLen(NC))
    }

    /** `val(r, c)`: the cell, or -1 off the board. */
    function Val(r: int, c: int): (v: Option<int>)
      reads this
      requires Valid()
      ensures v == Some(-1) <== !FaceInRange(NR, NC, (r, c))
      ensures FaceInRange(NR, NC, (r, c)) ==> v == board[r][c]
    {
      ValueAt(board, NR, NC, (r, c))
    }

    /** `val` as the lookup `verify` uses. */
    function Lookup(): CellIdx -> Result<Option<int>>
      reads this
      requires Valid()
    {
      var b, nR, nC := board, NR, NC;
      (p: CellIdx) => Ok(ValueAt(b, nR, nC, p))
    }

    /** `set(r, c, val)`: writes the cell; ValueError exactly where `val` answers -1 for being off the board. */
    method Set(r: int, c: int, v: int) returns (res: Result<()>)
      requires Valid()
      modifies this`board
      ensures Valid()
      ensures res.Err? <==> !FaceInRange(NR, NC, (r, c))
      ensures res.Err? ==> res.error == ValueError && board == old(board)
      ensures res.Ok? ==> board == SetAt(old(board), RangeLen(NR), RangeLen(NC), (r, c), Some(v))
      ensures res.Ok? ==> Val(r, c) == Some(v)
    {
      if r >= NR || c >= NC || r < 0 || c < 0 {
        return Err(ValueError);
      }
      board := board[r := board[r][c := Some(v)]];
      res := Ok(());
    }

    /**
     * `__init__` with a board: the grid is stored unchecked. `val` and `set`
     * only reach rows below N and columns below N + 1, so of a larger grid
     * only its top-left N x (N + 1) window is ever read or written; the
     * model keeps that window.
     */
    constructor(n: int, given: seq<seq<int>>)
      requires |given| >= RangeLen(n) && forall r :: 0 <= r < RangeLen(n) ==> |given[r]| >= RangeLen(n + 1)
      ensures Valid() && N == n
      ensures forall r, c :: 0 <= r < RangeLen(n) && 0 <= c < RangeLen(n + 1) ==> board[r][c] == Some(given[r][c])
      ensures forall r, c :: 0 <= r < |given| && 0 <= c < |given[r]| ==>
                Val(r, c) == if r < n && c < n + 1 then Some(given[r][c]) else Some(-1)
    {
      N, NR, NC := n, n, n + 1;
      ds := Ds(n);
      var R, C := RangeLen(n), RangeLen(n + 1);
      board := seq(R, r requires 0 <= r < R => seq(C, c requires 0 <= c < C => Some(given[r][c])));
    }

    /**
     * `__init__` without a board: `_init_random`. `attempts` are the
     * choices of the successive tiling passes, `order` is the shuffled
     * domino list and `flips[d]` whether domino d is laid reversed. The
     * result is None only when the attempts run out before one tiles
     * the board. A generated board passes `verify` against its tiling.
     */
    static method Random(n: int, attempts: seq<set<CellIdx>>, order: seq<Tile>, flips: seq<bool>)
      returns (res: Option<Board>, ghost locs: seq<Loc>)
      requires n >= 0
      requires multiset(order) == multiset(Ds(n)) && |flips| == |order|
      ensures res.Some? ==> fresh(res.value) && res.value.Valid() && res.value.N == n
      ensures res.Some? ==> forall r, c :: 0 <= r < n && 0 <= c < n + 1 ==> res.value.board[r][c].Some?
      ensures res.Some? ==> Check(res.value.Lookup(), n, n, n + 1, Solution(locs)) == Ok(())
      ensures res.Some? ==> multiset(Tiles(res.value.Lookup(), Solution(locs))) == multiset(Ds(n))
    {
      var done, lab, ls := RandomTiling(n, n + 1, attempts);
      locs := ls;
      if !done {
        return None, locs;
      }
      PermutedDs(order, n);
      var w := WriteTiles(lab, n, n + 1, ls, order, flips);
      assert w.Ok?;
      var fin: Cells := w.value;
      var g := seq(n, r requires 0 <= r < n => seq(n + 1, c requires 0 <= c < n + 1 => if fin[r][c].Some? then fin[r][c].value else 0));
      forall r, c | 0 <= r < n && 0 <= c < n + 1
        ensures fin[r][c].Some?
      {
        var d := lab[r][c].value;
        assert (r, c) == ls[d].0 || (r, c) == ls[d].1;
      }
      var b := new Board(n, g);
      forall r | 0 <= r < n
        ensures b.board[r] == fin[r]
      {
        assert forall c :: 0 <= c < n + 1 ==> b.board[r][c] == fin[r][c];
      }
      assert b.board == fin;
      GeneratedBoardVerifies(n, lab, ls, order, flips, fin, b.Lookup());
      res := Some(b);
    }

    /** `verify(dlocs)`. */
    method Verify(dlocs: seq<Placement>) returns (res: Result<()>)
      requires Valid()
      ensures res == Check(Lookup(), N, RangeLen(NR), RangeLen(NC), dlocs)
    {
      res := Dominoes.Verify(Lookup(), N, RangeLen(NR), RangeLen(NC), dlocs);
    }

    /** `__str__`. */
    function Str(): (s: string)
      reads this
      requires Valid()
    {
      BoardText(board, NR, NC)
    }

    /** `pretty_print(dlocs)`: clear the borders the placements join across, then draw line by line. */
    method PrettyPrint(dlocs: seq<Placement>) returns (res: Result<string>)
      requires Valid()
      ensures res == Pretty(board, N, dlocs)
    {
      var nR1, nC1 := RangeLen(NR + 1), RangeLen(NC + 1);
      var ok, h, v := ClearBorders(dlocs, nR1, nC1);
      if !ok {
        return Err(IndexError);
      }
      var hOff, vOff := HOff(dlocs, nR1, nC1), VOff(dlocs, nR1, nC1);
      var result := DrawLines(board, N, h, v, hOff, vOff);
      res := Ok(Join(result, "\n"));
    }
  }

  /** `"".join(str(self.val(r, c)) for c in range(NC))`. */
  function RowText(b: Cells, nR: int, nC: int, r: int): (s: string)
    requires Shaped(b, RangeLen(nR), RangeLen(nC))
  {
    Concat(seq(RangeLen(nC), c => CellText(ValueAt(b, nR, nC, (r, c)))))
  }

  /** `__str__`: each row's values side by side, rows joined by newlines. */
  function BoardText(b: Cells, nR: int, nC: int): string
    requires Shaped(b, RangeLen(nR), RangeLen(nC))
  {
    Join(seq(RangeLen(nR), r => RowText(b, nR, nC, r)), "\n")
  }

  /** Splitting the text on newlines gives back one line per row, each the row's values run together. */
  lemma BoardTextLines(b: Cells, nR: int, nC: int)
    requires Shaped(b, RangeLen(nR), RangeLen(nC))
    requires nR >= 1
    ensures var ls := Split(BoardText(b, nR, nC), '\n');
            |ls| == nR && forall r :: 0 <= r < nR ==> ls[r] == Concat(seq(RangeLen(nC), c requires 0 <= c < RangeLen(nC) => CellText(b[r][c])))
  {
    var rows := seq(RangeLen(nR), r => RowText(b, nR, nC, r));
    forall r | 0 <= r < nR
      ensures OneLine(rows[r])
      ensures rows[r] == Concat(seq(RangeLen(nC), c requires 0 <= c < RangeLen(nC) => CellText(b[r][c])))
    {
      var parts := seq(RangeLen(nC), c => CellText(ValueAt(b, nR, nC, (r, c))));
      assert parts == seq(RangeLen(nC), c requires 0 <= c < RangeLen(nC) => CellText(b[r][c]));
      ConcatOneLine(parts);
    }
    JoinSplit(rows, '\n');
  }

  /** On a board of single digits, line r of the text has one character per cell, the cell's digit. */
  lemma BoardTextDigits(b: Cells, nR: int, nC: int)
    requires Shaped(b, RangeLen(nR), RangeLen(nC))
    requires nR >= 1
    requires forall r, c :: 0 <= r < nR && 0 <= c < nC ==> b[r][c].Some? && 0 <= b[r][c].value <= 9
    ensures var ls := Split(BoardText(b, nR, nC), '\n');
            |ls| == nR &&
            forall r, c :: 0 <= r < nR && 0 <= c < nC ==> |ls[r]| == nC && ls[r][c] == DigitChar(b[r][c].value)
  {
    var rows := seq(RangeLen(nR), r => RowText(b, nR, nC, r));
    forall r | 0 <= r < nR
      ensures |rows[r]| == RangeLen(nC) && OneLine(rows[r])
      ensures forall c :: 0 <= c < nC ==> rows[r][c] == DigitChar(b[r][c].value)
    {
      RowTextDigits(b, nR, nC, r);
    }
    JoinSplit(rows, '\n');
  }

  lemma RowTextDigits(b: Cells, nR: int, nC: int, r: int)
    requires Shaped(b, RangeLen(nR), RangeLen(nC))
    requires 0 <= r < nR
    requires forall c :: 0 <= c < nC ==> b[r][c].Some? && 0 <= b[r][c].value <= 9
    ensures |RowText(b, nR, nC, r)| == RangeLen(nC) && OneLine(RowText(b, nR, nC, r))
    ensures forall c :: 0 <= c < nC ==> RowText(b, nR, nC, r)[c] == DigitChar(b[r][c].value)
  {
    var parts := seq(RangeLen(nC), c => CellText(ValueAt(b, nR, nC, (r, c))));
    forall c | 0 <= c < |parts|
      ensures parts[c] == [DigitChar(b[r][c].value)]
    {
    }
    ConcatWidth(parts, 1);
    ConcatOneLine(parts);
    forall c | 0 <= c < nC
      ensures Concat(parts)[c] == DigitChar(b[r][c].value)
    {
      ConcatAt(parts, 1, c, 0);
    }
  }

  /** Marks every border a placement joins across as cleared; false when one lies outside the border grid. */
  method ClearBorders(ps: seq<Placement>, nR1: nat, nC1: nat) returns (ok: bool, h: seq<seq<bool>>, v: seq<seq<bool>>)
    ensures ok <==> forall k :: 0 <= k < |ps| ==> ClearedSlot(ps[k], nR1, nC1).Some?
    ensures ok ==> BorderGrid(h, nR1, nC1) && BorderGrid(v, nR1, nC1)
    ensures ok ==> forall i, j :: 0 <= i < nR1 && 0 <= j < nC1 ==> (h[i][j] <==> (i, j) !in HOff(ps, nR1, nC1))
    ensures ok ==> forall i, j :: 0 <= i < nR1 && 0 <= j < nC1 ==> (v[i][j] <==> (i, j) !in VOff(ps, nR1, nC1))
  {
    h := seq(nR1, _ => seq(nC1, _ => true));
    v := seq(nR1, _ => seq(nC1, _ => true));
    assert ps[..0] == [];
    for k := 0 to |ps|
      invariant forall j :: 0 <= j < k ==> ClearedSlot(ps[j], nR1, nC1).Some?
      invariant GridMatches(h, nR1, nC1, HOff(ps[..k], nR1, nC1))
      invariant GridMatches(v, nR1, nC1, VOff(ps[..k], nR1, nC1))
    {
      var s := ClearedSlot(ps[k], nR1, nC1);
      if s.None? {
        return false, h, v;
      }
      OffSnoc(ps, k, nR1, nC1);
      if ps[k].2 == 0 {
        ClearOne(h, nR1, nC1, HOff(ps[..k], nR1, nC1), s.value);
        h := h[s.value.0 := h[s.value.0][s.value.1 := false]];
      } else {
        ClearOne(v, nR1, nC1, VOff(ps[..k], nR1, nC1), s.value);
        v := v[s.value.0 := v[s.value.0][s.value.1 := false]];
      }
    }
    assert ps[..|ps|] == ps;
    ok := true;
  }

  /** A border grid that is open exactly at the borders in off. */
  ghost predicate GridMatches(g: seq<seq<bool>>, nR1: nat, nC1: nat, off: set<CellIdx>)
  {
    BorderGrid(g, nR1, nC1) &&
    forall i, j :: 0 <= i < nR1 && 0 <= j < nC1 ==> (g[i][j] <==> (i, j) !in off)
  }

  /** Clearing one more border keeps the grid in step with the set of cleared borders. */
  lemma ClearOne(g: seq<seq<bool>>, nR1: nat, nC1: nat, off: set<CellIdx>, s: CellIdx)
    requires GridMatches(g, nR1, nC1, off)
    requires 0 <= s.0 < nR1 && 0 <= s.1 < nC1
    ensures GridMatches(g[s.0 := g[s.0][s.1 := false]], nR1, nC1, off + {s})
  {
  }

  /** The lines of the drawing: the top border, then each row above its bottom border. */
  method DrawLines(b: Cells, n: int, h: seq<seq<bool>>, v: seq<seq<bool>>, hOff: set<CellIdx>, vOff: set<CellIdx>)
    returns (result: seq<string>)
    requires Shaped(b, RangeLen(n), RangeLen(n + 1))
    requires BorderGrid(h, RangeLen(n + 1), RangeLen(n + 2)) && BorderGrid(v, RangeLen(n + 1), RangeLen(n + 2))
    requires forall i, j :: 0 <= i < RangeLen(n + 1) && 0 <= j < RangeLen(n + 2) ==> (h[i][j] <==> (i, j) !in hOff)
    requires forall i, j :: 0 <= i < RangeLen(n + 1) && 0 <= j < RangeLen(n + 2) ==> (v[i][j] <==> (i, j) !in vOff)
    ensures result == Lines(b, n, hOff, vOff, RangeLen(n))
  {
    var top := DrawTop(if |h| > 0 then h[0] else [], hOff, RangeLen(n + 1));
    result := [top];
    assert result == Lines(b, n, hOff, vOff, 0);
    for r := 0 to RangeLen(n)
      invariant result == Lines(b, n, hOff, vOff, r)
    {
      var row := DrawRow(b, n, v[r], vOff, r);
      var below := DrawBorder(h[r + 1], hOff, r, RangeLen(n + 1));
      result := result + [row, below];
      LinesSnoc(b, n, hOff, vOff, r);
    }
  }

  /** The top border line, open above cells whose top border is cleared. */
  method DrawTop(h: seq<bool>, hOff: set<CellIdx>, nC: nat) returns (line: string)
    requires |h| >= nC
    requires forall j :: 0 <= j < nC ==> (h[j] <==> (0, j) !in hOff)
    ensures line == TopLine(nC, hOff)
  {
    line := "+";
    for c := 0 to nC
      invariant line == "+" + Concat(seq(c, j => if (0, j) in hOff then "   +" else "---+"))
    {
      var seg := if (0, c) in hOff then "   +" else "---+";
      assert seq(c + 1, j => if (0, j) in hOff then "   +" else "---+") ==
             seq(c, j => if (0, j) in hOff then "   +" else "---+") + [seg];
      ConcatSnoc(seq(c, j => if (0, j) in hOff then "   +" else "---+"), seg);
      line := line + (if h[c] then "---+" else "   +");
    }
  }

  /** The value line of row r: each value padded by spaces, with '|' where the vertical border stands. */
  method DrawRow(b: Cells, n: int, v: seq<bool>, vOff: set<CellIdx>, r: int) returns (line: string)
    requires Shaped(b, RangeLen(n), RangeLen(n + 1))
    requires |v| > RangeLen(n + 1)
    requires forall j :: 0 < j <= RangeLen(n + 1) ==> (v[j] <==> (r, j) !in vOff)
    ensures line == RowLine(b, n, vOff, r)
  {
    line := "|";
    for c := 0 to RangeLen(n + 1)
      invariant line == "|" + RowPrefix(b, n, vOff, r, c)
    {
      var seg := DrawCell(b, n, v[c + 1], vOff, r, c);
      RowPrefixStep(b, n, vOff, r, c, "|");
      line := line + seg;
    }
  }

  /** The first c values of row r with their borders. */
  function RowPrefix(b: Cells, n: int, vOff: set<CellIdx>, r: int, c: nat): string
    requires Shaped(b, RangeLen(n), RangeLen(n + 1))
  {
    Concat(seq(c, j => RowSeg(b, n, vOff, r, j)))
  }

  lemma RowPrefixStep(b: Cells, n: int, vOff: set<CellIdx>, r: int, c: nat, head: string)
    requires Shaped(b, RangeLen(n), RangeLen(n + 1))
    ensures head + RowPrefix(b, n, vOff, r, c + 1) == (head + RowPrefix(b, n, vOff, r, c)) + RowSeg(b, n, vOff, r, c)
  {
    var seg := RowSeg(b, n, vOff, r, c);
    RowPrefixSnoc(b, n, vOff, r, c);
    assert head + (RowPrefix(b, n, vOff, r, c) + seg) == (head + RowPrefix(b, n, vOff, r, c)) + seg;
  }

  lemma RowPrefixSnoc(b: Cells, n: int, vOff: set<CellIdx>, r: int, c: nat)
    requires Shaped(b, RangeLen(n), RangeLen(n + 1))
    ensures RowPrefix(b, n, vOff, r, c + 1) == RowPrefix(b, n, vOff, r, c) + RowSeg(b, n, vOff, r, c)
  {
    var seg := RowSeg(b, n, vOff, r, c);
    assert seq(c + 1, j => RowSeg(b, n, vOff, r, j)) == seq(c, j => RowSeg(b, n, vOff, r, j)) + [seg];
    ConcatSnoc(seq(c, j => RowSeg(b, n, vOff, r, j)), seg);
  }

  /** One value of row r with its right-hand border. */
  method DrawCell(b: Cells, n: int, right: bool, vOff: set<CellIdx>, r: int, c: int) returns (seg: string)
    requires Shaped(b, RangeLen(n), RangeLen(n + 1))
    requires right <==> (r, c + 1) !in vOff
    ensures seg == RowSeg(b, n, vOff, r, c)
  {
    seg := " " + CellText(ValueAt(b, n, n + 1, (r, c))) + " " + (if right then "|" else " ");
  }

  /** The border line below row r, open below cells whose bottom border is cleared. */
  method DrawBorder(h: seq<bool>, hOff: set<CellIdx>, r: int, nC: nat) returns (line: string)
    requires |h| >= nC
    requires forall j :: 0 <= j < nC ==> (h[j] <==> (r + 1, j) !in hOff)
    ensures line == BorderLine(nC, hOff, r)
  {
    line := "+";
    for c := 0 to nC
      invariant line == "+" + Concat(seq(c, j => BorderSeg(hOff, r, j)))
    {
      assert seq(c + 1, j => BorderSeg(hOff, r, j)) == seq(c, j => BorderSeg(hOff, r, j)) + [BorderSeg(hOff, r, c)];
      ConcatSnoc(seq(c, j => BorderSeg(hOff, r, j)), BorderSeg(hOff, r, c));
      line := line + (if h[c] then "---" else "   ") + "+";
    }
  }

  /** One more placement clears one more border of its kind. */
  lemma OffSnoc(ps: seq<Placement>, k: int, nR1: nat, nC1: nat)
    requires 0 <= k < |ps| && ClearedSlot(ps[k], nR1, nC1).Some?
    ensures var s := ClearedSlot(ps[k], nR1, nC1).value;
            HOff(ps[..k + 1], nR1, nC1) == HOff(ps[..k], nR1, nC1) + (if ps[k].2 == 0 then {s} else {}) &&
            VOff(ps[..k + 1], nR1, nC1) == VOff(ps[..k], nR1, nC1) + (if ps[k].2 != 0 then {s} else {})
  {
    var a, b := ps[..k + 1], ps[..k];
    assert forall j :: 0 <= j < k ==> a[j] == b[j];
    assert a[k] == ps[k];
  }
}
