/** The Undead puzzle's board text: a grid of mirrors and monster cells,
    one row per line and cells separated by commas, parsed into a flat
    row-major board together with its four clue lists. */
module Undead {
  import opened Py

  /** `Kind`, whose enum values run from 0 (`diagl`) to 5 (`ghost`). */
  datatype Kind = DiagL | DiagR | Space | Zomb | Vamp | Ghost

  /** The enum value; only mirrors, spaces and zombies are below 4. */
  function Value(k: Kind): (n: nat)
    ensures n < 6
    ensures n < 4 <==> !(k.Vamp? || k.Ghost?)
  {
    match k
    case DiagL => 0
    case DiagR => 1
    case Space => 2
    case Zomb => 3
    case Vamp => 4
    case Ghost => 5
  }

  /** `char_to_enum[s]`, or None when `s` is not one of its six one-character keys. */
  function CharToEnum(s: string): Option<Kind>
  {
    if |s| != 1 then None
    else match s[0]
      case '\\' => Some(DiagL)
      case '/' => Some(DiagR)
      case ' ' => Some(Space)
      case 'z' => Some(Zomb)
      case 'v' => Some(Vamp)
      case 'g' => Some(Ghost)
      case _ => None
  }

  /** The cell string of a kind, the inverse of `char_to_enum`. */
  function EnumToChar(k: Kind): (s: string)
    ensures CharToEnum(s) == Some(k)
    ensures |s| == 1 && s[0] != ',' && s[0] != '\n'
  {
    match k
    case DiagL => "\\"
    case DiagR => "/"
    case Space => " "
    case Zomb => "z"
    case Vamp => "v"
    case Ghost => "g"
  }

  /**
   * A constructed `Board`: the flat cells, the clue lists for the top,
   * left, right and bottom sides, `row_len = len(t)` and `col_len = len(r)`.
   */
  datatype Board = Board(cells: seq<Kind>, t: seq<int>, l: seq<int>, r: seq<int>, b: seq<int>,
                         rowLen: nat, colLen: nat)

  /**
   * `Board.__init__` as written: it checks the bottom clues against the
   * top ones and the cell count against `row_len*col_len`, but its second
   * check compares `col_len`, which is `len(r)`, with `len(r)` again.
   */
  function NewBoard(cells: seq<Kind>, t: seq<int>, l: seq<int>, r: seq<int>, b: seq<int>): (res: Result<Board>)
    ensures res.Ok? <==> |t| == |b| && |cells| == |t| * |r|
    ensures res.Ok? ==> res.value == Board(cells, t, l, r, b, |t|, |r|)
    ensures res.Err? ==> res.error == AssertionError
  {
    if |t| != |b| then Err(AssertionError)
    else if |cells| != |t| * |r| then Err(AssertionError)
    else Ok(Board(cells, t, l, r, b, |t|, |r|))
  }

  /** A left clue list of the wrong length is accepted by the constructor as written. */
  lemma LeftCluesUnchecked()
    ensures NewBoard([Space], [0], [], [0], [0]).Ok?
  {
  }

  /** `Board.__init__` with the check it evidently intends: one left clue per row. */
  function CheckedBoard(cells: seq<Kind>, t: seq<int>, l: seq<int>, r: seq<int>, b: seq<int>): (res: Result<Board>)
    ensures res.Ok? <==> |t| == |b| && |l| == |r| && |cells| == |t| * |r|
    ensures res.Ok? ==> res.value == Board(cells, t, l, r, b, |t|, |r|)
    ensures res.Err? ==> res.error == AssertionError
  {
    if |t| != |b| then Err(AssertionError)
    else if |l| != |r| then Err(AssertionError)
    else if |cells| != |t| * |r| then Err(AssertionError)
    else Ok(Board(cells, t, l, r, b, |t|, |r|))
  }

  /** The corrected constructor agrees with the written one except that it rejects a mismatched left side. */
  lemma CheckedBoardRefines(cells: seq<Kind>, t: seq<int>, l: seq<int>, r: seq<int>, b: seq<int>)
    ensures CheckedBoard(cells, t, l, r, b) == (if |l| == |r| then NewBoard(cells, t, l, r, b) else Err(AssertionError))
    ensures CheckedBoard([Space], [0], [], [0], [0]).Err?
  {
  }

  /** Each row split on commas: `row.split(",")`. */
  function Cells(rows: seq<string>): (g: seq<seq<string>>)
    ensures |g| == |rows|
    ensures forall i :: 0 <= i < |rows| ==> g[i] == Split(rows[i], ',')
  {
    seq(|rows|, i requires 0 <= i < |rows| => Split(rows[i], ','))
  }

  /** The first row's width, which every row must have. */
  function Width(g: seq<seq<string>>): nat
  {
    if g == [] then 0 else |g[0]|
  }

  /** Every row has w cells. */
  predicate Uniform(g: seq<seq<string>>, w: nat)
  {
    forall i :: 0 <= i < |g| ==> |g[i]| == w
  }

  /** Every cell string is a key of `char_to_enum`. */
  predicate Known(g: seq<seq<string>>)
  {
    forall i, j :: 0 <= i < |g| && 0 <= j < |g[i]| ==> CharToEnum(g[i][j]).Some?
  }

  /** The kinds of one row's cells. */
  function RowKinds(cs: seq<string>): (ks: seq<Kind>)
    requires forall j :: 0 <= j < |cs| ==> CharToEnum(cs[j]).Some?
    ensures |ks| == |cs|
  {
    seq(|cs|, j requires 0 <= j < |cs| => CharToEnum(cs[j]).value)
  }

  /** The rows' kinds, row after row. */
  function Flat(g: seq<seq<string>>): seq<Kind>
    requires Known(g)
  {
    if g == [] then []
    else
      var n := |g| - 1;
      KnownInit(g);
      Flat(g[..n]) + RowKinds(g[n])
  }

  /** Without its last row a known grid is still known. */
  lemma KnownInit(g: seq<seq<string>>)
    requires Known(g) && g != []
    ensures Known(g[..|g| - 1])
  {
    var init := g[..|g| - 1];
    forall a, j | 0 <= a < |init| && 0 <= j < |init[a]|
      ensures CharToEnum(init[a][j]).Some?
    {
      assert init[a] == g[a];
    }
  }

  /** Every parsed kind is a mirror, a space or a zombie. */
  predicate Accepted(cells: seq<Kind>)
  {
    forall k :: 0 <= k < |cells| ==> Value(cells[k]) < 4
  }

  /** `parse(board_str, t=t, l=l, r=r, b=b)`, ending in the constructor as written. */
  function ParseSpec(text: string, t: seq<int>, l: seq<int>, r: seq<int>, b: seq<int>): Result<Board>
  {
    match TrimLines(text)
    case Err(e) => Err(e)
    case Ok(rows) => ParseGrid(Cells(rows), t, l, r, b)
  }

  /** The part of `parse` after the blank lines are dropped and the rows split into cells. */
  function ParseGrid(g: seq<seq<string>>, t: seq<int>, l: seq<int>, r: seq<int>, b: seq<int>): Result<Board>
  {
    if !Known(g) || (g != [] && !Uniform(g, |g[0]|)) then Err(AssertionError)
    else
      var cells := Flat(g);
      if !Accepted(cells) then Err(AssertionError)
      else NewBoard(cells, t, l, r, b)
  }

  /** `parse` ending in the constructor with the check it evidently intends
      (`CheckedBoard`): every earlier failure is an AssertionError or the
      IndexError of an empty text, so the left-clue check can come last. */
  function ParseChecked(text: string, t: seq<int>, l: seq<int>, r: seq<int>, b: seq<int>): Result<Board>
  {
    match ParseSpec(text, t, l, r, b)
    case Err(e) => Err(e)
    case Ok(board) => if |l| != |r| then Err(AssertionError) else Ok(board)
  }

  /** The parse loop: each row is split on commas, all rows must be as wide
      as the first, each cell is looked up and appended, and every kind
      must be below 4 before the board is built. */
  method Parse(text: string, t: seq<int>, l: seq<int>, r: seq<int>, b: seq<int>) returns (res: Result<Board>)
    ensures res == ParseSpec(text, t, l, r, b)
  {
    var rows := Split(text, '\n');
    if |rows[0]| == 0 {
      rows := rows[1..];
    }
    if |rows| == 0 {
      return Err(IndexError);
    }
    if |rows[|rows| - 1]| == 0 {
      rows := rows[..|rows| - 1];
    }
    assert TrimLines(text) == Ok(rows);
    var board := CollectCells(rows);
    if board.None? {
      return Err(AssertionError);
    }
    var ok := AllAccepted(board.value);
    if !ok {
      return Err(AssertionError);
    }
    res := NewBoard(board.value, t, l, r, b);
  }

  /** The row loop of `parse`: every row must be as wide as the first, and its
      cells are looked up and appended to the flat board. */
  method CollectCells(rows: seq<string>) returns (res: Option<seq<Kind>>)
    ensures res.Some? <==> Known(Cells(rows)) && Uniform(Cells(rows), Width(Cells(rows)))
    ensures res.Some? ==> Known(Cells(rows)) && res.value == Flat(Cells(rows))
  {
    ghost var g := Cells(rows);
    var colLen: Option<nat> := None;
    var board: seq<Kind> := [];
    var i := 0;
    while i < |rows|
      invariant 0 <= i <= |rows|
      invariant colLen == if i == 0 then None else Some(Width(g))
      invariant Uniform(g[..i], Width(g))
      invariant Known(g[..i]) && board == Flat(g[..i])
    {
      var cols := Split(rows[i], ',');
      assert cols == g[i];
      if colLen.None? {
        colLen := Some(|cols|);
      }
      if |cols| != colLen.value {
        RowBreaks(g, i);
        return None;
      }
      var next := AppendRow(board, cols);
      if next.None? {
        var j :| 0 <= j < |cols| && CharToEnum(cols[j]).None?;
        CellBreaks(g, i, j);
        return None;
      }
      board := next.value;
      FlatSnoc(g, i);
      UniformSnoc(g, i, Width(g));
      i := i + 1;
    }
    assert g[..i] == g;
    return Some(board);
  }

  /** `for v in board: assert v.value < 4`, with false for the failed assertion. */
  method AllAccepted(board: seq<Kind>) returns (ok: bool)
    ensures ok == Accepted(board)
  {
    var k := 0;
    while k < |board|
      invariant 0 <= k <= |board|
      invariant forall m :: 0 <= m < k ==> Value(board[m]) < 4
    {
      if Value(board[k]) >= 4 {
        return false;
      }
      k := k + 1;
    }
    return true;
  }

  /** `for col in cols: assert col in char_to_enum; board.append(char_to_enum[col])`,
      with None for the failed assertion. */
  method AppendRow(board: seq<Kind>, cols: seq<string>) returns (res: Option<seq<Kind>>)
    ensures res.Some? <==> forall j :: 0 <= j < |cols| ==> CharToEnum(cols[j]).Some?
    ensures res.Some? ==> res.value == board + RowKinds(cols)
  {
    var acc := board;
    var j := 0;
    while j < |cols|
      invariant 0 <= j <= |cols|
      invariant forall m :: 0 <= m < j ==> CharToEnum(cols[m]).Some?
      invariant acc == board + seq(j, m requires 0 <= m < j => CharToEnum(cols[m]).value)
    {
      if CharToEnum(cols[j]).None? {
        return None;
      }
      acc := acc + [CharToEnum(cols[j]).value];
      j := j + 1;
    }
    return Some(acc);
  }

  /** A row of another width than the first breaks uniformity. */
  lemma RowBreaks(g: seq<seq<string>>, i: nat)
    requires i < |g| && |g[i]| != Width(g)
    ensures !Uniform(g, Width(g))
  {
  }

  /** An unknown cell makes the grid unknown. */
  lemma CellBreaks(g: seq<seq<string>>, i: nat, j: nat)
    requires i < |g| && j < |g[i]| && CharToEnum(g[i][j]).None?
    ensures !Known(g)
  {
  }

  /** One more row of width w keeps the prefix uniform. */
  lemma UniformSnoc(g: seq<seq<string>>, i: nat, w: nat)
    requires i < |g| && Uniform(g[..i], w) && |g[i]| == w
    ensures Uniform(g[..i + 1], w)
  {
    assert forall k :: 0 <= k < i ==> g[..i + 1][k] == g[..i][k];
  }

  /** One more complete row appends that row's kinds. */
  lemma FlatSnoc(g: seq<seq<string>>, i: nat)
    requires i < |g| && Known(g[..i])
    requires forall j :: 0 <= j < |g[i]| ==> CharToEnum(g[i][j]).Some?
    ensures Known(g[..i + 1])
    ensures Flat(g[..i + 1]) == Flat(g[..i]) + RowKinds(g[i])
  {
    var p := g[..i + 1];
    assert p[..i] == g[..i];
    forall a, j | 0 <= a < |p| && 0 <= j < |p[a]|
      ensures CharToEnum(p[a][j]).Some?
    {
      if a < i {
        assert p[a] == g[..i][a];
      }
    }
  }

  lemma {:induction false} FlatLength(g: seq<seq<string>>, w: nat)
    requires Known(g) && Uniform(g, w)
    ensures |Flat(g)| == |g| * w
  {
    if g != [] {
      var n := |g| - 1;
      KnownInit(g);
      FlatLength(g[..n], w);
      MulSucc(n, w);
    }
  }

  /** The last row's kinds come after those of the rows before it. */
  lemma FlatLast(g: seq<seq<string>>)
    requires Known(g) && g != []
    ensures Known(g[..|g| - 1]) && Flat(g) == Flat(g[..|g| - 1]) + RowKinds(g[|g| - 1])
  {
    KnownInit(g);
  }

  /** Rows of width w lay their cells out in row-major order: cell j of row i is at i*w + j. */
  lemma {:induction false} FlatAt(g: seq<seq<string>>, w: nat, i: nat, j: nat)
    requires Known(g) && Uniform(g, w)
    requires i < |g| && j < w
    ensures i * w + j < |Flat(g)| && Flat(g)[i * w + j] == CharToEnum(g[i][j]).value
  {
    var n := |g| - 1;
    var init := g[..n];
    KnownInit(g);
    FlatLength(init, w);
    var f, last := Flat(init), RowKinds(g[n]);
    FlatLast(g);
    if i < n {
      FlatAt(init, w, i, j);
      assert init[i] == g[i];
      assert (f + last)[i * w + j] == f[i * w + j];
    } else {
      assert i * w + j == |f| + j;
      assert (f + last)[|f| + j] == last[j];
    }
  }

  /** What the parser accepts: rows as wide as the first, known cells, accepted
      kinds, as many bottom clues as top clues and as many cells as top times
      right clues; the left clues are not looked at. */
  lemma ParseGridAccepts(g: seq<seq<string>>, t: seq<int>, l: seq<int>, r: seq<int>, b: seq<int>)
    ensures ParseGrid(g, t, l, r, b).Err? ==> ParseGrid(g, t, l, r, b).error == AssertionError
    ensures ParseGrid(g, t, l, r, b).Ok? <==>
              && Uniform(g, Width(g)) && Known(g)
              && (forall i, j :: 0 <= i < |g| && 0 <= j < |g[i]| ==> Value(CharToEnum(g[i][j]).value) < 4)
              && |t| == |b| && |g| * Width(g) == |t| * |r|
  {
    var w := Width(g);
    if g != [] && Known(g) && Uniform(g, w) {
      FlatLength(g, w);
      var cells := Flat(g);
      if !Accepted(cells) {
        var k :| 0 <= k < |cells| && Value(cells[k]) >= 4;
        var i, j := RowCol(k, w, |g|);
        FlatAt(g, w, i, j);
      } else {
        forall i, j | 0 <= i < |g| && 0 <= j < |g[i]|
          ensures Value(CharToEnum(g[i][j]).value) < 4
        {
          FlatAt(g, w, i, j);
        }
      }
    }
  }

  /** The parsed board holds the rows' cells in row-major order: cell j of row i at i*w + j. */
  lemma ParseGridAt(g: seq<seq<string>>, t: seq<int>, l: seq<int>, r: seq<int>, b: seq<int>, i: nat, j: nat)
    requires ParseGrid(g, t, l, r, b).Ok?
    requires i < |g| && j < Width(g)
    ensures |ParseGrid(g, t, l, r, b).value.cells| == |g| * Width(g)
    ensures i * Width(g) + j < |ParseGrid(g, t, l, r, b).value.cells|
    ensures ParseGrid(g, t, l, r, b).value.cells[i * Width(g) + j] == CharToEnum(g[i][j]).value
  {
    var w := Width(g);
    assert Known(g) && Uniform(g, w);
    assert ParseGrid(g, t, l, r, b).value.cells == Flat(g);
    FlatLength(g, w);
    FlatAt(g, w, i, j);
  }

  /** Position k of a row-major layout of n rows of width w is cell k % w of row k / w. */
  lemma RowCol(k: nat, w: nat, n: nat) returns (i: nat, j: nat)
    requires k < n * w
    ensures i < n && j < w && k == i * w + j
  {
    i, j := k / w, k % w;
  }

  /** The board text of a grid of kinds, blank first and last lines as in the source's sample board. */
  function Render(grid: seq<seq<Kind>>): string
  {
    Join([""] + seq(|grid|, i requires 0 <= i < |grid| => RowText(grid[i])) + [""], "\n")
  }

  function RowText(row: seq<Kind>): string
  {
    Join(seq(|row|, j requires 0 <= j < |row| => EnumToChar(row[j])), ",")
  }

  /** Every row of the grid has w cells, and there is at least one. */
  predicate Rectangular(grid: seq<seq<Kind>>, w: nat)
  {
    w > 0 && forall i :: 0 <= i < |grid| ==> |grid[i]| == w
  }

  /** Splitting a rendered row on commas gives back its cell strings. */
  lemma RowTextCols(row: seq<Kind>)
    requires row != []
    ensures Split(RowText(row), ',') == seq(|row|, j requires 0 <= j < |row| => EnumToChar(row[j]))
    ensures RowText(row) != []
    ensures forall i :: 0 <= i < |RowText(row)| ==> RowText(row)[i] != '\n'
  {
    var parts := seq(|row|, j requires 0 <= j < |row| => EnumToChar(row[j]));
    JoinSplit(parts, ',');
    JoinNoSep(parts, ",", '\n');
    assert |parts[0]| == 1;
    JoinNonEmpty(parts, ",");
  }

  /** Joining parts free of a character with a separator free of it gives a text free of it. */
  lemma {:induction false} JoinNoSep(parts: seq<string>, sep: string, ch: char)
    requires forall k, i :: 0 <= k < |parts| && 0 <= i < |parts[k]| ==> parts[k][i] != ch
    requires forall i :: 0 <= i < |sep| ==> sep[i] != ch
    ensures forall i :: 0 <= i < |Join(parts, sep)| ==> Join(parts, sep)[i] != ch
  {
    if |parts| > 1 {
      JoinNoSep(parts[1..], sep, ch);
      var s := Join(parts, sep);
      var rest := Join(parts[1..], sep);
      assert s == parts[0] + sep + rest;
      forall i | 0 <= i < |s|
        ensures s[i] != ch
      {
        if i < |parts[0]| {
          assert s[i] == parts[0][i];
        } else if i < |parts[0]| + |sep| {
          assert s[i] == sep[i - |parts[0]|];
        } else {
          assert s[i] == rest[i - |parts[0]| - |sep|];
        }
      }
    }
  }

  lemma JoinNonEmpty(parts: seq<string>, sep: string)
    requires parts != [] && parts[0] != []
    ensures Join(parts, sep) != []
  {
  }

  /** The cell strings of a grid of kinds. */
  function Strings(grid: seq<seq<Kind>>): (g: seq<seq<string>>)
    ensures |g| == |grid|
  {
    seq(|grid|, i requires 0 <= i < |grid| => seq(|grid[i]|, j requires 0 <= j < |grid[i]| => EnumToChar(grid[i][j])))
  }

  /** Reading a rendered grid back drops the blank first and last lines and splits each row into its cell strings. */
  lemma RenderRows(grid: seq<seq<Kind>>, w: nat, t: seq<int>, l: seq<int>, r: seq<int>, b: seq<int>)
    requires Rectangular(grid, w)
    ensures ParseSpec(Render(grid), t, l, r, b) == ParseGrid(Strings(grid), t, l, r, b)
  {
    var lines := seq(|grid|, i requires 0 <= i < |grid| => RowText(grid[i]));
    forall k, i | 0 <= k < |lines| && 0 <= i < |lines[k]|
      ensures lines[k][i] != '\n'
    {
      RowTextCols(grid[k]);
    }
    TrimLinesFramed(lines, true);
    forall i | 0 <= i < |lines|
      ensures Cells(lines)[i] == Strings(grid)[i]
    {
      RowTextCols(grid[i]);
    }
    assert Cells(lines) == Strings(grid);
  }

  /** A rendered rectangular grid of accepted kinds parses, given top, right
      and bottom clue lists that fit it, whatever the left clues are. */
  lemma ParseRender(grid: seq<seq<Kind>>, w: nat, t: seq<int>, l: seq<int>, r: seq<int>, b: seq<int>)
    requires Rectangular(grid, w)
    requires forall i, j :: 0 <= i < |grid| && 0 <= j < w ==> Value(grid[i][j]) < 4
    requires |t| == |b| && |grid| * w == |t| * |r|
    ensures ParseSpec(Render(grid), t, l, r, b).Ok?
  {
    RenderRows(grid, w, t, l, r, b);
    var g := Strings(grid);
    ParseGridAccepts(g, t, l, r, b);
    if grid != [] {
      assert Width(g) == w;
    }
  }

  /** Parsing the rendering of a grid gives back cell j of row i at position i*w + j. */
  lemma ParseRenderAt(grid: seq<seq<Kind>>, w: nat, t: seq<int>, l: seq<int>, r: seq<int>, b: seq<int>, i: nat, j: nat)
    requires Rectangular(grid, w)
    requires ParseSpec(Render(grid), t, l, r, b).Ok?
    requires i < |grid| && j < w
    ensures i * w + j < |ParseSpec(Render(grid), t, l, r, b).value.cells|
    ensures ParseSpec(Render(grid), t, l, r, b).value.cells[i * w + j] == grid[i][j]
  {
    RenderRows(grid, w, t, l, r, b);
    var g := Strings(grid);
    assert Width(g) == w;
    ParseGridAt(g, t, l, r, b, i, j);
  }

  /** The board of the module's own `test()`. */
  function SampleGrid(): seq<seq<Kind>>
  {
    [[DiagL, DiagR, Space, DiagR], [Space, Space, Space, Space],
     [DiagR, DiagR, DiagL, Space], [Space, Space, Space, DiagL]]
  }

  /** The rows of the sample board as `test()` writes them. */
  lemma SampleRows()
    ensures RowText(SampleGrid()[0]) == "\\,/, ,/"
    ensures RowText(SampleGrid()[1]) == " , , , "
    ensures RowText(SampleGrid()[2]) == "/,/,\\, "
    ensures RowText(SampleGrid()[3]) == " , , ,\\"
  {
    var grid := SampleGrid();
    forall i | 0 <= i < 4
      ensures RowText(grid[i]) == Join(seq(4, j requires 0 <= j < 4 => EnumToChar(grid[i][j])), ",")
    {
    }
    forall i | 0 <= i < 4
      ensures var parts := seq(4, j requires 0 <= j < 4 => EnumToChar(grid[i][j]));
              Join(parts, ",") == parts[0] + "," + parts[1] + "," + parts[2] + "," + parts[3]
    {
      JoinFour(seq(4, j requires 0 <= j < 4 => EnumToChar(grid[i][j])), ",");
    }
  }

  /** The sample board's text: `test()`'s triple-quoted string, whose lines are
      an empty line, the four rows and an empty line. */
  function SampleText(): string
  {
    Join(["", "\\,/, ,/", " , , , ", "/,/,\\, ", " , , ,\\", ""], "\n")
  }

  /** The sample board's text renders from the sample grid. */
  lemma SampleRendered()
    ensures Render(SampleGrid()) == SampleText()
  {
    var grid := SampleGrid();
    SampleRows();
    var all := [""] + seq(|grid|, i requires 0 <= i < |grid| => RowText(grid[i])) + [""];
    assert all == ["", "\\,/, ,/", " , , , ", "/,/,\\, ", " , , ,\\", ""];
  }

  /** The sample board of `test()` parses with its four clue lists. */
  lemma SampleBoard()
    ensures ParseSpec(SampleText(), [0, 0, 1, 3], [0, 3, 0, 1], [0, 3, 3, 0], [2, 2, 0, 2]).Ok?
  {
    SampleRendered();
    ParseRender(SampleGrid(), 4, [0, 0, 1, 3], [0, 3, 0, 1], [0, 3, 3, 0], [2, 2, 0, 2]);
  }

  /** As written, `parse` accepts a board with no left clues at all. */
  lemma ParseLeftUnchecked()
    ensures ParseSpec("\n \n", [0], [], [0], [0]).Ok?
    ensures ParseChecked("\n \n", [0], [], [0], [0]) == Err(AssertionError)
  {
    var grid := [[Space]];
    assert RowText(grid[0]) == " ";
    assert [""] + seq(|grid|, i requires 0 <= i < |grid| => RowText(grid[i])) + [""] == ["", " ", ""];
    var parts := ["", " ", ""];
    assert Join(parts[2..], "\n") == "";
    assert Join(parts[1..], "\n") == " " + "\n" + "";
    assert Render(grid) == "\n \n";
    ParseRender(grid, 1, [0], [], [0], [0]);
  }

  /** The corrected parse is `parse` with its board built by `CheckedBoard`. */
  lemma ParseCheckedBuildsChecked(text: string, t: seq<int>, l: seq<int>, r: seq<int>, b: seq<int>)
    ensures TrimLines(text).Err? ==> ParseChecked(text, t, l, r, b) == Err(TrimLines(text).error)
    ensures TrimLines(text).Ok? ==>
              var g := Cells(TrimLines(text).value);
              ParseChecked(text, t, l, r, b) ==
                if !Known(g) || (g != [] && !Uniform(g, |g[0]|)) || !Accepted(Flat(g)) then Err(AssertionError)
                else CheckedBoard(Flat(g), t, l, r, b)
  {
    if TrimLines(text).Ok? {
      var g := Cells(TrimLines(text).value);
      if Known(g) && (g == [] || Uniform(g, |g[0]|)) && Accepted(Flat(g)) {
        CheckedBoardRefines(Flat(g), t, l, r, b);
      }
    }
  }

  /** The corrected parse of a rendered grid succeeds exactly when the left
      clues also fit, and then gives the same board as `parse`. */
  lemma ParseCheckedRender(grid: seq<seq<Kind>>, w: nat, t: seq<int>, l: seq<int>, r: seq<int>, b: seq<int>)
    requires Rectangular(grid, w)
    requires forall i, j :: 0 <= i < |grid| && 0 <= j < w ==> Value(grid[i][j]) < 4
    requires |t| == |b| && |grid| * w == |t| * |r|
    ensures ParseChecked(Render(grid), t, l, r, b).Ok? <==> |l| == |r|
    ensures |l| == |r| ==> ParseChecked(Render(grid), t, l, r, b) == ParseSpec(Render(grid), t, l, r, b)
  {
    ParseRender(grid, w, t, l, r, b);
  }

  lemma JoinFour(parts: seq<string>, sep: string)
    requires |parts| == 4
    ensures Join(parts, sep) == parts[0] + sep + parts[1] + sep + parts[2] + sep + parts[3]
  {
    assert Join(parts[2..], sep) == parts[2] + sep + parts[3];
  }

  lemma JoinTwo(parts: seq<string>, sep: string)
    requires |parts| > 2
    ensures Join(parts, sep) == parts[0] + sep + parts[1] + sep + Join(parts[2..], sep)
  {
    assert parts[1..][1..] == parts[2..];
  }
}
