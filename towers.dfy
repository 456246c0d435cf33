/**
 * The Towers puzzle board of `logicpuzzles/towers/towers.py`: an N×N grid
 * of tower heights 1..N, each row and column holding every height once,
 * with the number of towers visible from each side of each row and column
 * as clues. The generator builds a cyclic Latin square, shuffles its rows
 * and columns, counts the visible towers and clears the cells again.
 *
 * `random.shuffle` is modelled by the permutation it picks, passed in.
 */
module Towers {
  import opened Py
  import opened Grid
  import opened TowersText

  // ---------------------------------------------------------------------
  // Cells
  // ---------------------------------------------------------------------

  /** `TowersBoard.face_t`: a face with its height and whether it was a given. */
  datatype TowersFace = TowersFace(r: int, c: int, val: Option<int>, isSolved: bool, solvedVal: Option<int>)

  /** A face as built: a given height marks the cell solved and is remembered. */
  function NewFace(r: int, c: int, val: Option<int>): (f: TowersFace)
    ensures f.r == r && f.c == c && f.val == val
    ensures f.isSolved <==> val.Some?
    ensures f.solvedVal == val
  {
    TowersFace(r, c, val, val.Some?, val)
  }

  /** `face_t.__str__`: two spaces for an empty cell, else the height. */
  function FaceText(f: TowersFace): (s: string)
    ensures |s| >= 1
    ensures s == "  " <==> f.val.None?
  {
    if f.val.None? then "  " else
      var t := IntToString(f.val.value);
      LeadingMinus(f.val.value);
      assert t[0] != ' ' by {
        if f.val.value >= 0 { assert '0' <= NatToString(f.val.value)[0] <= '9'; }
      }
      t
  }

  // ---------------------------------------------------------------------
  // Latin squares
  // ---------------------------------------------------------------------

  /** `range(N)` for a board size that may be negative. */
  function Size(n: int): nat
  {
    if n < 0 then 0 else n
  }

  /** A line holding each of 1..n exactly once. */
  predicate IsPermOf(line: seq<int>, n: int)
  {
    |line| == n &&
    (forall j :: 0 <= j < |line| ==> 1 <= line[j] <= n) &&
    (forall j1, j2 :: 0 <= j1 < j2 < |line| ==> line[j1] != line[j2]) &&
    (forall v :: 1 <= v <= n ==> v in line)
  }

  /** A reordering of 0..n-1, the choice `random.shuffle` makes. */
  predicate IsPerm(p: seq<nat>, n: nat)
  {
    |p| == n &&
    (forall i :: 0 <= i < |p| ==> p[i] < n) &&
    (forall i1, i2 :: 0 <= i1 < i2 < |p| ==> p[i1] != p[i2]) &&
    (forall k :: 0 <= k < n ==> k in p)
  }

  predicate IsSquare(b: seq<seq<int>>, n: nat)
  {
    |b| == n && forall i :: 0 <= i < |b| ==> |b[i]| == n
  }

  function Column(b: seq<seq<int>>, j: int): (col: seq<int>)
    requires 0 <= j && forall i :: 0 <= i < |b| ==> j < |b[i]|
    ensures |col| == |b| && forall i :: 0 <= i < |b| ==> col[i] == b[i][j]
  {
    seq(|b|, i requires 0 <= i < |b| => b[i][j])
  }

  /** Every row and every column holds each height once. */
  predicate IsLatin(b: seq<seq<int>>, n: nat)
  {
    IsSquare(b, n) &&
    (forall i :: 0 <= i < n ==> IsPermOf(b[i], n)) &&
    (forall j :: 0 <= j < n ==> IsPermOf(Column(b, j), n))
  }

  /** The cyclic square the generator starts from. */
  function Base(n: nat): (b: seq<seq<int>>)
    ensures IsSquare(b, n)
    ensures forall i, j :: 0 <= i < n && 0 <= j < n ==> b[i][j] == BaseCell(n, i, j)
  {
    seq(n, i requires 0 <= i < n => seq(n, j requires 0 <= j < n => BaseCell(n, i, j)))
  }

  /** `((i + j) % N) + 1`. */
  function BaseCell(n: nat, i: int, j: int): int
    requires n > 0
  {
    (i + j) % n + 1
  }

  lemma BaseEntry(n: nat, i: int, j: int)
    requires 0 <= i < n && 0 <= j < n
    ensures (i + j) % n == if i + j < n then i + j else i + j - n
  {
    if i + j < n {
      DivModUnique(i + j, 0, i + j, n);
    } else {
      DivModUnique(i + j, 1, i + j - n, n);
    }
  }

  /** Row i of the cyclic square is 1..n rotated by i. */
  lemma BaseRowIsPerm(n: nat, i: int)
    requires 0 <= i < n
    ensures IsPermOf(Base(n)[i], n)
  {
    var row := Base(n)[i];
    forall j | 0 <= j < n
      ensures row[j] == if i + j < n then i + j + 1 else i + j - n + 1
    {
      assert row[j] == BaseCell(n, i, j);
      BaseEntry(n, i, j);
    }
    forall v | 1 <= v <= n
      ensures v in row
    {
      var j := if v - 1 >= i then v - 1 - i else v - 1 - i + n;
      assert row[j] == v;
    }
  }

  /** The cyclic square is Latin. */
  lemma BaseIsLatin(n: nat)
    ensures IsLatin(Base(n), n)
  {
    forall i | 0 <= i < n
      ensures IsPermOf(Base(n)[i], n)
    {
      BaseRowIsPerm(n, i);
    }
    forall j | 0 <= j < n
      ensures IsPermOf(Column(Base(n), j), n)
    {
      assert Column(Base(n), j) == Base(n)[j];
      BaseRowIsPerm(n, j);
    }
  }

  /** The nested loop filling `board[i][j] = ((i + j) % N) + 1`. */
  method LatinBase(n: nat) returns (b: seq<seq<int>>)
    ensures b == Base(n)
    ensures IsLatin(b, n)
  {
    b := seq(n, i => seq(n, j => 0));
    for i := 0 to n
      invariant IsSquare(b, n)
      invariant forall r :: 0 <= r < i ==> b[r] == Base(n)[r]
    {
      for j := 0 to n
        invariant IsSquare(b, n)
        invariant forall r :: 0 <= r < i ==> b[r] == Base(n)[r]
        invariant forall c :: 0 <= c < j ==> b[i][c] == BaseCell(n, i, c)
      {
        b := b[i := b[i][j := BaseCell(n, i, j)]];
      }
      assert b[i] == Base(n)[i];
    }
    BaseIsLatin(n);
  }

  /** The generated solution: the cyclic square with rows shuffled, then columns via two transpositions. */
  method Shuffled(n: nat, rowPerm: seq<nat>, colPerm: seq<nat>) returns (b: seq<seq<int>>)
    requires IsPerm(rowPerm, n) && IsPerm(colPerm, n)
    ensures IsLatin(b, n)
    ensures forall i, j :: 0 <= i < n && 0 <= j < n ==> b[i][j] == Base(n)[rowPerm[i]][colPerm[j]]
  {
    b := LatinBase(n);
    PermuteRowsLatin(b, rowPerm, n);
    b := PermuteRows(b, rowPerm);
    TransposeLatin(b, n);
    b := Transpose(b, n);
    PermuteRowsLatin(b, colPerm, n);
    b := PermuteRows(b, colPerm);
    TransposeLatin(b, n);
    b := Transpose(b, n);
    ShuffleMovesCells(Base(n), rowPerm, colPerm, n);
  }

  /** `random.shuffle(board)` with the order it picked: row i of the result is row p[i]. */
  function PermuteRows(b: seq<seq<int>>, p: seq<nat>): (r: seq<seq<int>>)
    requires forall i :: 0 <= i < |p| ==> p[i] < |b|
    ensures |r| == |p| && forall i :: 0 <= i < |p| ==> r[i] == b[p[i]]
  {
    seq(|p|, i requires 0 <= i < |p| => b[p[i]])
  }

  /** `list(map(list, zip(*board)))` on a square board. */
  function Transpose(b: seq<seq<int>>, n: nat): (t: seq<seq<int>>)
    requires IsSquare(b, n)
    ensures IsSquare(t, n)
    ensures forall i, j :: 0 <= i < n && 0 <= j < n ==> t[i][j] == b[j][i]
  {
    seq(n, j requires 0 <= j < n => Column(b, j))
  }

  /** Shuffling the rows keeps every row and column a permutation of 1..n. */
  lemma PermuteRowsLatin(b: seq<seq<int>>, p: seq<nat>, n: nat)
    requires IsLatin(b, n) && IsPerm(p, n)
    ensures IsLatin(PermuteRows(b, p), n)
  {
    var s := PermuteRows(b, p);
    forall j | 0 <= j < n
      ensures IsPermOf(Column(s, j), n)
    {
      var col := Column(b, j);
      assert IsPermOf(col, n);
      forall i1, i2 | 0 <= i1 < i2 < n
        ensures Column(s, j)[i1] != Column(s, j)[i2]
      {
        if p[i1] < p[i2] {
          assert col[p[i1]] != col[p[i2]];
        } else {
          assert col[p[i2]] != col[p[i1]];
        }
      }
      forall v | 1 <= v <= n
        ensures v in Column(s, j)
      {
        assert v in col;
        var k :| 0 <= k < n && col[k] == v;
        assert k in p;
        var i :| 0 <= i < n && p[i] == k;
        assert Column(s, j)[i] == v;
      }
    }
  }

  /** Transposing swaps the roles of rows and columns. */
  lemma TransposeLatin(b: seq<seq<int>>, n: nat)
    requires IsLatin(b, n)
    ensures IsLatin(Transpose(b, n), n)
  {
    var t := Transpose(b, n);
    forall i | 0 <= i < n
      ensures IsPermOf(t[i], n)
    {
      assert t[i] == Column(b, i);
    }
    forall j | 0 <= j < n
      ensures IsPermOf(Column(t, j), n)
    {
      assert Column(t, j) == b[j];
    }
  }

  /** Shuffling rows, then columns by transposing, moves cell (p[i], q[j]) to (i, j). */
  lemma ShuffleMovesCells(b: seq<seq<int>>, p: seq<nat>, q: seq<nat>, n: nat)
    requires IsSquare(b, n) && IsPerm(p, n) && IsPerm(q, n)
    ensures var s := Transpose(PermuteRows(Transpose(PermuteRows(b, p), n), q), n);
            forall i, j :: 0 <= i < n && 0 <= j < n ==> s[i][j] == b[p[i]][q[j]]
  {
  }

  // ---------------------------------------------------------------------
  // Visibility clues
  // ---------------------------------------------------------------------

  /** The tower at k is seen: every tower in front of it is strictly lower. */
  predicate IsRecord(line: seq<int>, k: int)
  {
    0 <= k < |line| && forall j :: 0 <= j < k ==> line[j] < line[k]
  }

  /** The number of towers seen from the front of the line. */
  function Visible(line: seq<int>): nat
  {
    if line == [] then 0 else Visible(line[..|line| - 1]) + (if IsRecord(line, |line| - 1) then 1 else 0)
  }

  lemma VisibleStep(line: seq<int>, k: int)
    requires 0 <= k < |line|
    ensures Visible(line[..k + 1]) == Visible(line[..k]) + (if IsRecord(line, k) then 1 else 0)
  {
    assert line[..k + 1][..k] == line[..k];
    assert IsRecord(line[..k + 1], k) <==> IsRecord(line, k);
  }

  /** The first tower is always seen, and at most every tower is. */
  lemma {:induction false} VisibleBounds(line: seq<int>)
    requires |line| >= 1
    ensures 1 <= Visible(line) <= |line|
  {
    if |line| == 1 {
      assert line[..0] == [];
      assert IsRecord(line, 0);
    } else {
      VisibleBounds(line[..|line| - 1]);
    }
  }

  /** A longer view sees at least as many towers. */
  lemma {:induction false} VisiblePrefix(line: seq<int>, k: int)
    requires 0 <= k <= |line|
    ensures Visible(line[..k]) <= Visible(line)
    decreases |line| - k
  {
    if k < |line| {
      VisibleStep(line, k);
      VisiblePrefix(line, k + 1);
      assert line[..|line|] == line;
    } else {
      assert line[..k] == line;
    }
  }

  /** With no tower seen after the first, exactly one is seen. */
  lemma {:induction false} VisibleOnlyFirst(line: seq<int>, k: int)
    requires 1 <= k <= |line|
    requires forall i :: 1 <= i < k ==> !IsRecord(line, i)
    ensures Visible(line[..k]) == 1
  {
    if k == 1 {
      VisibleBounds(line[..1]);
    } else {
      VisibleStep(line, k - 1);
      VisibleOnlyFirst(line, k - 1);
    }
  }

  /**
   * In a row or column of a solution the clue is 1 exactly when the
   * tallest tower stands in front, hiding all others.
   */
  lemma VisibleOneIffTallestFirst(line: seq<int>, n: int)
    requires n >= 1 && IsPermOf(line, n)
    ensures Visible(line) == 1 <==> line[0] == n
  {
    if line[0] == n {
      VisibleOnlyFirst(line, |line|);
      assert line[..|line|] == line;
    } else {
      assert n in line;
      var p :| 0 <= p < |line| && line[p] == n;
      assert p >= 1;
      assert IsRecord(line, p);
      VisibleStep(line, p);
      VisibleBounds(line[..p]);
      VisiblePrefix(line, p + 1);
    }
  }

  /**
   * One clue loop of `_randomize`: start with the first tower seen and
   * count each later tower taller than the tallest so far.
   */
  method CountVisible(line: seq<int>) returns (visible: int)
    requires |line| >= 1
    ensures visible == Visible(line)
    ensures 1 <= visible <= |line|
  {
    visible := 1;
    var maxHeight := line[0];
    assert line[..1][..0] == [] && IsRecord(line[..1], 0);
    for k := 1 to |line|
      invariant visible == Visible(line[..k])
      invariant maxHeight in line[..k]
      invariant forall j :: 0 <= j < k ==> line[j] <= maxHeight
    {
      VisibleStep(line, k);
      if line[k] > maxHeight {
        visible := visible + 1;
        maxHeight := line[k];
      } else {
        var j :| 0 <= j < k && line[j] == maxHeight;
        assert !IsRecord(line, k);
      }
    }
    assert line[..|line|] == line;
    VisibleBounds(line);
  }

  function Reverse(s: seq<int>): (r: seq<int>)
    ensures |r| == |s| && forall i :: 0 <= i < |s| ==> r[i] == s[|s| - 1 - i]
  {
    seq(|s|, i requires 0 <= i < |s| => s[|s| - 1 - i])
  }

  /** The clues of a filled board: T down each column, B up, L along each row, R back. */
  function CluesOf(b: seq<seq<int>>, n: nat): (clues: map<string, seq<int>>)
    requires IsSquare(b, n)
    ensures clues.Keys == {"T", "B", "L", "R"}
    ensures forall k :: k in clues ==> |clues[k]| == n
  {
    map["T" := seq(n, c requires 0 <= c < n => Visible(Column(b, c))),
        "B" := seq(n, c requires 0 <= c < n => Visible(Reverse(Column(b, c)))),
        "L" := seq(n, r requires 0 <= r < n => Visible(b[r])),
        "R" := seq(n, r requires 0 <= r < n => Visible(Reverse(b[r])))]
  }

  /** Every clue of a solution lies in 1..n. */
  lemma CluesInRange(b: seq<seq<int>>, n: nat)
    requires IsLatin(b, n)
    ensures forall k, i :: k in CluesOf(b, n) && 0 <= i < n ==> 1 <= CluesOf(b, n)[k][i] <= n
  {
    var clues := CluesOf(b, n);
    FamilyInRange(b, n, "T");
    FamilyInRange(b, n, "B");
    FamilyInRange(b, n, "L");
    FamilyInRange(b, n, "R");
    forall k, i | k in clues && 0 <= i < n
      ensures 1 <= clues[k][i] <= n
    {
      assert k == "T" || k == "B" || k == "L" || k == "R";
    }
  }

  /** Each clue of one family counts at least one and at most n towers. */
  lemma FamilyInRange(b: seq<seq<int>>, n: nat, kind: string)
    requires IsSquare(b, n) && kind in {"T", "B", "L", "R"}
    ensures forall i :: 0 <= i < n ==> 1 <= CluesOf(b, n)[kind][i] <= n
  {
    var lines := ClueLines(b, n, kind);
    forall i | 0 <= i < n
      ensures 1 <= CluesOf(b, n)[kind][i] <= n
    {
      VisibleBounds(lines[i]);
    }
  }

  /** The lines a clue family reads, each from the clue's side: T down each column, B up, L along each row, R back. */
  function ClueLines(b: seq<seq<int>>, n: nat, kind: string): (lines: seq<seq<int>>)
    requires IsSquare(b, n)
    ensures |lines| == n && forall i :: 0 <= i < n ==> |lines[i]| == n
  {
    seq(n, i requires 0 <= i < n =>
      if kind == "T" then Column(b, i)
      else if kind == "B" then Reverse(Column(b, i))
      else if kind == "L" then b[i]
      else Reverse(b[i]))
  }

  /** One clue family: a count per line, each line read by `CountVisible`. */
  method CountAll(lines: seq<seq<int>>) returns (cs: seq<int>)
    requires forall i :: 0 <= i < |lines| ==> |lines[i]| >= 1
    ensures |cs| == |lines| && forall i :: 0 <= i < |lines| ==> cs[i] == Visible(lines[i])
  {
    cs := [];
    for i := 0 to |lines|
      invariant |cs| == i && forall k :: 0 <= k < i ==> cs[k] == Visible(lines[k])
    {
      var v := CountVisible(lines[i]);
      cs := cs + [v];
    }
  }

  /** The four clue loops of `_randomize`. */
  method ComputeClues(b: seq<seq<int>>, n: nat) returns (clues: map<string, seq<int>>)
    requires IsSquare(b, n)
    ensures clues == CluesOf(b, n)
  {
    var top := CountAll(ClueLines(b, n, "T"));
    var bottom := CountAll(ClueLines(b, n, "B"));
    var left := CountAll(ClueLines(b, n, "L"));
    var right := CountAll(ClueLines(b, n, "R"));
    clues := map["T" := top, "B" := bottom, "L" := left, "R" := right];
    var expected := CluesOf(b, n);
    assert top == expected["T"];
    assert bottom == expected["B"];
    assert left == expected["L"];
    assert right == expected["R"];
  }

  /** The format check closing `__init__`: each of T, B, L, R must be present and hold n clues. */
  function ClueCheck(clues: map<string, seq<int>>, n: int, kinds: seq<string>): (r: Option<Error>)
    ensures r.None? <==> forall i :: 0 <= i < |kinds| ==> kinds[i] in clues && |clues[kinds[i]]| == n
    ensures r.Some? ==> r.value == KeyError || r.value == AssertionError
  {
    if kinds == [] then None
    else if kinds[0] !in clues then Some(KeyError)
    else if |clues[kinds[0]]| != n then Some(AssertionError)
    else
      var rest := ClueCheck(clues, n, kinds[1..]);
      assert forall i :: 1 <= i < |kinds| ==> kinds[1..][i - 1] == kinds[i];
      rest
  }

  const Kinds: seq<string> := ["T", "B", "L", "R"]

  /** All four clue lists present, each of length n. */
  predicate WellFormedClues(clues: map<string, seq<int>>, n: int)
  {
    "T" in clues && "B" in clues && "L" in clues && "R" in clues &&
    |clues["T"]| == n && |clues["B"]| == n && |clues["L"]| == n && |clues["R"]| == n
  }

  /** The check passes exactly on well-formed clues. */
  lemma ClueCheckPasses(clues: map<string, seq<int>>, n: int)
    ensures ClueCheck(clues, n, Kinds).None? <==> WellFormedClues(clues, n)
  {
    assert Kinds[0] == "T" && Kinds[1] == "B" && Kinds[2] == "L" && Kinds[3] == "R";
  }

  /** Generated clues always pass the check, unless the size is negative. */
  lemma GeneratedCluesCheck(b: seq<seq<int>>, n: int)
    requires IsSquare(b, Size(n))
    ensures ClueCheck(CluesOf(b, Size(n)), n, Kinds) == if n >= 0 then None else Some(AssertionError)
  {
    var clues := CluesOf(b, Size(n));
    if n < 0 {
      assert Kinds[0] in clues && |clues[Kinds[0]]| != n;
    }
  }

  // ---------------------------------------------------------------------
  // Drawing the faces
  // ---------------------------------------------------------------------

  /** The text `Board.pretty` draws for each face of a towers board, a space off the board. */
  function FaceTexts(fs: map<CellIdx, TowersFace>): CellIdx -> string
  {
    (k: CellIdx) => if k in fs then FaceText(fs[k]) else " "
  }

  /** Every height on the board fits in two columns. */
  ghost predicate ShortHeights(fs: map<CellIdx, TowersFace>)
  {
    forall k :: k in fs && fs[k].val.Some? ==> 0 <= fs[k].val.value <= 99
  }

  /** No text of the drawing holds a line break. */
  lemma TextsUnbroken(fs: map<CellIdx, TowersFace>)
    ensures Unbroken(Corner) && Unbroken(Along(EdgeText, V)) && Unbroken(Along(EdgeText, H)) && Unbroken(FaceTexts(fs))
  {
    forall k: CellIdx, j | 0 <= j < |Along(EdgeText, V)(k)|
      ensures Along(EdgeText, V)(k)[j] != '\n'
    {
      assert Along(EdgeText, V)(k) == EdgeText((V, k.0, k.1)) == "|";
    }
    forall k: CellIdx, j | 0 <= j < |Along(EdgeText, H)(k)|
      ensures Along(EdgeText, H)(k)[j] != '\n'
    {
      assert Along(EdgeText, H)(k) == EdgeText((H, k.0, k.1)) == "-";
    }
    var f := FaceTexts(fs);
    forall k: CellIdx, j | 0 <= j < |f(k)|
      ensures f(k)[j] != '\n'
    {
      if k in fs && fs[k].val.Some? {
        assert f(k) == IntToString(fs[k].val.value);
      }
    }
  }

  /** With short heights and cells at least two wide, every text fits where it is drawn. */
  lemma TextsFit(fs: map<CellIdx, TowersFace>, hLen: int)
    requires hLen >= 2 && ShortHeights(fs)
    ensures Fits(hLen, Corner, EdgeText, FaceTexts(fs))
  {
    var f := FaceTexts(fs);
    forall k: CellIdx
      ensures |f(k)| <= 2
    {
      if k in fs && fs[k].val.Some? {
        ShortNumber(fs[k].val.value);
      }
    }
  }

  /** The part of `pretty` after the grid is drawn: the top clue row, each
      grid line with its margin (and, on a row's centre line, its left and
      right clues), then the bottom clue row. */
  method Frame(boardStr: string, ghost gridLines: seq<string>, clues: map<string, seq<int>>,
               faces: map<CellIdx, TowersFace>, n: int, hLen: int, vLen: int)
    returns (s: string, lines: seq<string>)
    requires hLen >= 1 && vLen >= 1 && WellFormedClues(clues, n)
    requires forall k :: k in faces ==> 0 <= k.0 < n && 0 <= k.1 < n
    requires boardStr == Join(gridLines, "\n") && OneLine(gridLines) && |gridLines| == n * vLen + 1
    requires Fits(hLen, Corner, EdgeText, FaceTexts(faces)) ==>
      (forall i :: 0 <= i < |gridLines| ==> |gridLines[i]| == n * hLen + 1) &&
      Written(gridLines, n, n, vLen, hLen, vLen / 2, hLen / 2, FaceTexts(faces))
    ensures s == Join(lines, "\n")
    ensures |lines| == n * vLen + 3
    ensures hLen >= 2 && ShortClues(clues) ==>
      ClueRow(lines[0], clues["T"], hLen) && ClueRow(lines[|lines| - 1], clues["B"], hLen)
    ensures ShortClues(clues) ==> Bordered(lines, gridLines, vLen, clues["L"], clues["R"])
    ensures hLen >= 2 && ShortHeights(faces) ==> forall i :: 0 <= i < |gridLines| ==> |gridLines[i]| == n * hLen + 1
    ensures hLen >= 2 && ShortClues(clues) && ShortHeights(faces) ==>
      forall k :: k in faces ==> CellShown(lines, k.0, k.1, hLen, vLen, FaceText(faces[k]))
  {
    var top := ClueLine(clues["T"], hLen);
    var boardLines := Split(boardStr, '\n');
    JoinSplit(gridLines, '\n');
    var decorated := DecorateLines(boardLines, vLen, clues["L"], clues["R"]);
    var bottom := ClueLine(clues["B"], hLen);
    s := Join([top] + decorated + [bottom], "\n");
    lines := [top] + decorated + [bottom];
    assert forall i :: 0 <= i < |gridLines| ==> lines[i + 1] == decorated[i];
    PrettyLines(lines, gridLines, clues, faces, n, hLen, vLen);
  }

  /** What `pretty` draws, from the lines it puts together: the clue rows,
      the decorated grid lines and, when everything fits, each cell's text. */
  lemma PrettyLines(lines: seq<string>, gridLines: seq<string>, clues: map<string, seq<int>>,
                    faces: map<CellIdx, TowersFace>, n: int, hLen: int, vLen: int)
    requires hLen >= 1 && vLen >= 1 && WellFormedClues(clues, n)
    requires forall k :: k in faces ==> 0 <= k.0 < n && 0 <= k.1 < n
    requires |lines| == |gridLines| + 2 && |gridLines| == n * vLen + 1
    requires lines[0] == ClueLine(clues["T"], hLen) && lines[|lines| - 1] == ClueLine(clues["B"], hLen)
    requires forall i :: 0 <= i < |gridLines| ==> lines[i + 1] == Decorate(i, gridLines[i], vLen, clues["L"], clues["R"])
    requires Fits(hLen, Corner, EdgeText, FaceTexts(faces)) ==>
      (forall i :: 0 <= i < |gridLines| ==> |gridLines[i]| == n * hLen + 1) &&
      Written(gridLines, n, n, vLen, hLen, vLen / 2, hLen / 2, FaceTexts(faces))
    ensures hLen >= 2 && ShortClues(clues) ==>
      ClueRow(lines[0], clues["T"], hLen) && ClueRow(lines[|lines| - 1], clues["B"], hLen)
    ensures ShortClues(clues) ==> Bordered(lines, gridLines, vLen, clues["L"], clues["R"])
    ensures hLen >= 2 && ShortHeights(faces) ==> forall i :: 0 <= i < |gridLines| ==> |gridLines[i]| == n * hLen + 1
    ensures hLen >= 2 && ShortClues(clues) && ShortHeights(faces) ==>
      forall k :: k in faces ==> CellShown(lines, k.0, k.1, hLen, vLen, FaceText(faces[k]))
  {
    var left, right := clues["L"], clues["R"];
    if ShortClues(clues) {
      assert forall i :: 0 <= i < |left| ==> 0 <= left[i] <= 99 && 0 <= right[i] <= 99;
      if hLen >= 2 {
        ClueLineRow(clues["T"], hLen);
        ClueLineRow(clues["B"], hLen);
      }
      DecoratedBordered(lines, gridLines, vLen, left, right);
    }
    if hLen >= 2 && ShortHeights(faces) {
      TextsFit(faces, hLen);
      if ShortClues(clues) {
        var f := FaceTexts(faces);
        CellsShown(lines, gridLines, faces.Keys, f, n, hLen, vLen, left, right);
        assert forall k :: k in faces ==> f(k) == FaceText(faces[k]);
      }
    }
  }

  // ---------------------------------------------------------------------
  // The board
  // ---------------------------------------------------------------------

  /** The faces before (r, c) in row-major order hold their height from b; the rest are as they were. */
  ghost predicate StoredUpTo(m: map<CellIdx, TowersFace>, before: map<CellIdx, TowersFace>, b: seq<seq<int>>, r: int, c: int)
  {
    m.Keys == before.Keys &&
    forall k :: k in m ==>
      0 <= k.0 < |b| && 0 <= k.1 < |b[k.0]| &&
      m[k] == if k.0 < r || (k.0 == r && k.1 < c) then before[k].(val := Some(b[k.0][k.1])) else before[k]
  }

  lemma StoreStep(m: map<CellIdx, TowersFace>, before: map<CellIdx, TowersFace>, b: seq<seq<int>>, r: int, c: int)
    requires StoredUpTo(m, before, b, r, c) && (r, c) in m
    ensures 0 <= r < |b| && 0 <= c < |b[r]|
    ensures StoredUpTo(m[(r, c) := m[(r, c)].(val := Some(b[r][c]))], before, b, r, c + 1)
  {
  }

  lemma StoredRowEnd(m: map<CellIdx, TowersFace>, before: map<CellIdx, TowersFace>, b: seq<seq<int>>, r: int)
    requires IsSquare(b, |b|) && StoredUpTo(m, before, b, r, |b|)
    ensures StoredUpTo(m, before, b, r + 1, 0)
  {
  }

  lemma StoredAll(m: map<CellIdx, TowersFace>, before: map<CellIdx, TowersFace>, b: seq<seq<int>>)
    requires StoredUpTo(m, before, b, |b|, 0)
    ensures forall k :: k in m ==> 0 <= k.0 < |b| && 0 <= k.1 < |b[k.0]| && m[k] == before[k].(val := Some(b[k.0][k.1]))
  {
  }

  class TowersBoard {
    const n: int
    const grid: Board
    var faces: map<CellIdx, TowersFace>
    var clues: map<string, seq<int>>
    /** The solution the generator drew before clearing the cells. */
    ghost var solution: seq<seq<int>>

    /** A board that came out of `__init__`: the grid, one face per cell, and clues of the right format. */
    ghost predicate Valid()
      reads this, grid
    {
      grid.Valid() && grid.nR == n && grid.nC == n &&
      faces.Keys == grid.f.Keys &&
      (forall k :: k in faces ==> faces[k].r == k.0 && faces[k].c == k.1) &&
      WellFormedClues(clues, n)
    }

    /**
     * `__init__` up to its format check: without clues the board is
     * generated from the two shuffles and the cells are cleared; with
     * clues they are stored as given and the cells stay empty.
     */
    constructor(n: int, given: Option<map<string, seq<int>>>, rowPerm: seq<nat>, colPerm: seq<nat>)
      requires given.None? ==> IsPerm(rowPerm, Size(n)) && IsPerm(colPerm, Size(n))
      ensures this.n == n && grid.Valid() && grid.nR == n && grid.nC == n
      ensures faces.Keys == grid.f.Keys
      ensures forall k :: k in faces ==> faces[k] == NewFace(k.0, k.1, None)
      ensures given.Some? ==> clues == given.value
      ensures given.None? ==> IsLatin(solution, Size(n)) && clues == CluesOf(solution, Size(n))
    {
      this.n := n;
      var g := new Board(n, n);
      assert forall k :: k in g.f <==> FaceInRange(n, n, k);
      grid := g;
      faces := map k | k in g.f :: NewFace(k.0, k.1, None);
      clues := map[];
      solution := [];
      new;
      if given.None? {
        Randomize(rowPerm, colPerm);
        ClearValues();
      } else {
        clues := given.value;
      }
    }

    /** `_randomize`: build, shuffle, store in the faces and count the clues. */
    method Randomize(rowPerm: seq<nat>, colPerm: seq<nat>)
      requires forall k :: k in faces <==> FaceInRange(n, n, k)
      requires IsPerm(rowPerm, Size(n)) && IsPerm(colPerm, Size(n))
      modifies this`faces, this`clues, this`solution
      ensures IsLatin(solution, Size(n)) && clues == CluesOf(solution, Size(n))
      ensures faces.Keys == old(faces.Keys)
      ensures forall k :: k in faces <==> FaceInRange(n, n, k)
      ensures forall k :: k in faces ==> 0 <= k.0 < |solution| && 0 <= k.1 < |solution[k.0]| &&
                                         faces[k] == old(faces[k]).(val := Some(solution[k.0][k.1]))
    {
      var N := Size(n);
      var b := Shuffled(N, rowPerm, colPerm);
      StoreValues(b);
      clues := ComputeClues(b, N);
      solution := b;
    }

    /** The loop writing the generated heights into the faces. */
    method StoreValues(b: seq<seq<int>>)
      requires forall k :: k in faces <==> FaceInRange(n, n, k)
      requires IsSquare(b, Size(n))
      modifies this`faces
      ensures faces.Keys == old(faces.Keys)
      ensures forall k :: k in faces <==> FaceInRange(n, n, k)
      ensures forall k :: k in faces ==> 0 <= k.0 < |b| && 0 <= k.1 < |b[k.0]| && faces[k] == old(faces[k]).(val := Some(b[k.0][k.1]))
    {
      var N := Size(n);
      ghost var before := faces;
      for r := 0 to N
        invariant StoredUpTo(faces, before, b, r, 0)
      {
        for c := 0 to N
          invariant StoredUpTo(faces, before, b, r, c)
        {
          assert FaceInRange(n, n, (r, c));
          StoreStep(faces, before, b, r, c);
          faces := faces[(r, c) := faces[(r, c)].(val := Some(b[r][c]))];
        }
        StoredRowEnd(faces, before, b, r);
      }
      StoredAll(faces, before, b);
    }

    /** The loop of `__init__` that empties every face again. */
    method ClearValues()
      modifies this`faces
      ensures faces.Keys == old(faces.Keys)
      ensures forall k :: k in faces ==> faces[k] == old(faces[k]).(val := None)
    {
      var todo := faces.Keys;
      ghost var before := faces;
      while todo != {}
        invariant todo <= faces.Keys == before.Keys
        invariant forall k :: k in faces && k !in todo ==> faces[k] == before[k].(val := None)
        invariant forall k :: k in todo ==> faces[k] == before[k]
        decreases |todo|
      {
        var k :| k in todo;
        faces := faces[k := faces[k].(val := None)];
        todo := todo - {k};
      }
    }

    /** `TowersBoard(N, clues)`: the board, or the error its format check raises. */
    static method New(n: int, given: Option<map<string, seq<int>>>, rowPerm: seq<nat>, colPerm: seq<nat>)
      returns (r: Result<TowersBoard>)
      requires given.None? ==> IsPerm(rowPerm, Size(n)) && IsPerm(colPerm, Size(n))
      ensures given.Some? ==> (r.Ok? <==> ClueCheck(given.value, n, Kinds).None?)
      ensures given.Some? && r.Err? ==> Some(r.error) == ClueCheck(given.value, n, Kinds)
      ensures given.None? ==> (r.Ok? <==> n >= 0) && (r.Err? ==> r.error == AssertionError)
      ensures r.Ok? ==> r.value.Valid() && r.value.n == n
      ensures r.Ok? && given.Some? ==> r.value.clues == given.value
      ensures r.Ok? && given.None? ==> IsLatin(r.value.solution, n) && r.value.clues == CluesOf(r.value.solution, n)
      ensures r.Ok? ==> forall k :: k in r.value.faces ==> r.value.faces[k].val.None?
    {
      var t := new TowersBoard(n, given, rowPerm, colPerm);
      if given.None? {
        GeneratedCluesCheck(t.solution, n);
      }
      var e := ClueCheck(t.clues, n, Kinds);
      ClueCheckPasses(t.clues, n);
      if e.Some? {
        r := Err(e.value);
      } else {
        r := Ok(t);
      }
    }

    /**
     * `pretty`: the top clue row, then every line of the grid drawing three
     * columns in, each row's left and right clues on the row's centre line,
     * then the bottom clue row.
     */
    method Pretty(hLen: int, vLen: int) returns (s: string, lines: seq<string>, gridLines: seq<string>)
      requires Valid() && hLen >= 1 && vLen >= 1
      ensures s == Join(lines, "\n")
      ensures |lines| == n * vLen + 3 && |gridLines| == n * vLen + 1
      ensures hLen >= 2 && ShortClues(clues) ==>
        ClueRow(lines[0], clues["T"], hLen) && ClueRow(lines[|lines| - 1], clues["B"], hLen)
      ensures ShortClues(clues) ==> Bordered(lines, gridLines, vLen, clues["L"], clues["R"])
      ensures hLen >= 2 && ShortHeights(faces) ==> forall i :: 0 <= i < |gridLines| ==> |gridLines[i]| == n * hLen + 1
      ensures hLen >= 2 && ShortClues(clues) && ShortHeights(faces) ==>
        forall k :: k in faces ==> CellShown(lines, k.0, k.1, hLen, vLen, FaceText(faces[k]))
    {
      var boardStr;
      boardStr, gridLines := grid.Pretty(hLen, vLen, Corner, EdgeText, FaceTexts(faces));
      TextsUnbroken(faces);
      forall k | k in faces
        ensures 0 <= k.0 < n && 0 <= k.1 < n
      {
        assert k in grid.f;
      }
      s, lines := Frame(boardStr, gridLines, clues, faces, n, hLen, vLen);
    }
  }
}
