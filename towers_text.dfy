/**
 * The text `TowersBoard.pretty` in `logicpuzzles/towers/towers.py` builds
 * around the grid drawing: the top and bottom clue rows, and the left and
 * right clues on the centre line of each row.
 */
module TowersText {
  import opened Py
  import opened Grid

  /** The top or bottom clue line: each clue right-justified in two columns, centred in its cell. */
  function ClueLine(cs: seq<int>, hLen: int): string
  {
    Spaces(3) + Concat(ClueCells(cs, hLen))
  }

  /** The cell of each clue, in order. */
  function ClueCells(cs: seq<int>, hLen: int): (parts: seq<string>)
    ensures |parts| == |cs| && forall i :: 0 <= i < |cs| ==> parts[i] == ClueCell(cs[i], hLen)
  {
    seq(|cs|, i requires 0 <= i < |cs| => ClueCell(cs[i], hLen))
  }

  /** One clue in a cell of width hLen. */
  function ClueCell(x: int, hLen: int): string
  {
    var off := (hLen - 2) / 2;
    Spaces(off) + RJust(IntToString(x), 2) + Spaces(hLen - off - 2)
  }

  /** With clues of at most two digits, a clue line is exactly as wide as the margin plus the cells. */
  lemma ClueLineWidth(cs: seq<int>, hLen: int)
    requires hLen >= 2
    requires forall i :: 0 <= i < |cs| ==> 0 <= cs[i] <= 99
    ensures |ClueLine(cs, hLen)| == 3 + |cs| * hLen
  {
    var parts := ClueCells(cs, hLen);
    forall i | 0 <= i < |cs|
      ensures |parts[i]| == hLen
    {
      ClueCellWidth(cs[i], hLen);
    }
    ConcatWidth(parts, hLen);
  }

  lemma ClueCellWidth(x: int, hLen: int)
    requires hLen >= 2 && 0 <= x <= 99
    ensures |ClueCell(x, hLen)| == hLen
  {
    ShortNumber(x);
  }

  /** A number below 100 prints in at most two characters. */
  lemma ShortNumber(x: int)
    requires 0 <= x <= 99
    ensures |IntToString(x)| <= 2
  {
    if x >= 10 {
      assert NatToString(x) == NatToString(x / 10) + [DigitChar(x % 10)];
    }
  }

  /** One line of the grid drawing, with the row's clues on its centre line and a margin otherwise. */
  function Decorate(i: int, line: string, vLen: int, left: seq<int>, right: seq<int>): string
    requires vLen >= 1 && i >= 0 && |left| == |right|
  {
    if i % vLen == vLen / 2 && i / vLen < |left| then
      Center(IntToString(left[i / vLen]), 2) + " " + line + " " + RJust(IntToString(right[i / vLen]), 2)
    else
      Spaces(3) + line
  }

  /** With clues of at most two digits, every grid line keeps its place three columns in. */
  lemma DecorateKeepsAlignment(i: int, line: string, vLen: int, left: seq<int>, right: seq<int>)
    requires vLen >= 1 && i >= 0 && |left| == |right|
    requires forall k :: 0 <= k < |left| ==> 0 <= left[k] <= 99
    ensures var d := Decorate(i, line, vLen, left, right);
            |d| >= 3 + |line| && d[3..3 + |line|] == line
  {
    if i % vLen == vLen / 2 && i / vLen < |left| {
      var x := left[i / vLen];
      ShortNumber(x);
      Framed(Center(IntToString(x), 2), line, RJust(IntToString(right[i / vLen]), 2));
    }
  }

  /** Every clue fits in the two columns the drawing gives it. */
  predicate ShortClues(clues: map<string, seq<int>>)
  {
    forall k, i :: k in clues && 0 <= i < |clues[k]| ==> 0 <= clues[k][i] <= 99
  }

  /** A top or bottom clue row: a three-column margin, then one cell of width
      hLen per clue, with clue c right-justified in two columns centred in its cell. */
  ghost predicate ClueRow(d: string, cs: seq<int>, hLen: int)
  {
    |d| >= 3 && |d| == 3 + |cs| * hLen && d[..3] == Spaces(3) && CluesPlaced(d, cs, hLen)
  }

  /** Clue c is right-justified in two columns centred in the c-th cell after the margin. */
  ghost predicate CluesPlaced(d: string, cs: seq<int>, hLen: int)
  {
    forall c :: 0 <= c < |cs| ==> ClueShown(d, cs, hLen, c)
  }

  /** Clue c, right-justified in two columns, sits in the middle of the c-th cell after the margin. */
  ghost predicate ClueShown(d: string, cs: seq<int>, hLen: int, c: int)
    requires 0 <= c < |cs|
  {
    var at := 3 + c * hLen + (hLen - 2) / 2;
    0 <= at && at + 2 <= |d| && d[at..at + 2] == RJust(IntToString(cs[c]), 2)
  }

  /** A grid line behind a three-column margin. */
  ghost predicate Margined(d: string, line: string)
  {
    |d| == |line| + 3 && d[..3] == Spaces(3) && d[3..] == line
  }

  /** The centre line of a row: the left clue centred in two columns, a space,
      the grid line, a space, and the right clue right-justified in two columns. */
  ghost predicate Clued(d: string, line: string, l: int, r: int)
  {
    |d| == |line| + 6 && d[..2] == Center(IntToString(l), 2) && d[2] == ' ' && d[3..3 + |line|] == line &&
    d[3 + |line|] == ' ' && d[4 + |line|..] == RJust(IntToString(r), 2)
  }

  /** The text t sits in line 1 + r·vLen + vLen/2 of the output from column 3 + c·hLen + hLen/2 on:
      the centre of cell (r, c) once the top clue row and the margin are added. */
  ghost predicate CellShown(lines: seq<string>, r: int, c: int, hLen: int, vLen: int, t: string)
  {
    var i := 1 + r * vLen + vLen / 2;
    var j := 3 + c * hLen + hLen / 2;
    0 <= i < |lines| && 0 <= j && j + |t| <= |lines[i]| && lines[i][j..j + |t|] == t
  }

  /** Where the clues of a clue line sit. */
  lemma ClueLineRow(cs: seq<int>, hLen: int)
    requires hLen >= 2 && forall j :: 0 <= j < |cs| ==> 0 <= cs[j] <= 99
    ensures ClueRow(ClueLine(cs, hLen), cs, hLen)
  {
    ClueLineWidth(cs, hLen);
    CluesPlacedInLine(cs, hLen);
    assert ClueLine(cs, hLen)[..3] == Spaces(3);
  }

  lemma CluesPlacedInLine(cs: seq<int>, hLen: int)
    requires hLen >= 2 && forall j :: 0 <= j < |cs| ==> 0 <= cs[j] <= 99
    ensures CluesPlaced(ClueLine(cs, hLen), cs, hLen)
  {
    forall c | 0 <= c < |cs|
      ensures ClueShown(ClueLine(cs, hLen), cs, hLen, c)
    {
      ClueAt(cs, hLen, c);
    }
  }

  /** Clue c sits in the middle of the c-th cell. */
  lemma ClueAt(cs: seq<int>, hLen: int, c: int)
    requires hLen >= 2 && forall j :: 0 <= j < |cs| ==> 0 <= cs[j] <= 99
    requires 0 <= c < |cs|
    ensures ClueShown(ClueLine(cs, hLen), cs, hLen, c)
  {
    var parts := ClueCells(cs, hLen);
    ClueCellsWidth(cs, hLen);
    var off := (hLen - 2) / 2;
    assert 0 <= off && off + 2 <= hLen;
    ClueCellMiddle(cs[c], hLen);
    PairInConcat(parts, hLen, c, off, RJust(IntToString(cs[c]), 2));
  }

  lemma ClueCellsWidth(cs: seq<int>, hLen: int)
    requires hLen >= 2 && forall j :: 0 <= j < |cs| ==> 0 <= cs[j] <= 99
    ensures forall j :: 0 <= j < |cs| ==> |ClueCells(cs, hLen)[j]| == hLen
  {
    forall j | 0 <= j < |cs|
      ensures |ClueCells(cs, hLen)[j]| == hLen
    {
      ClueCellWidth(cs[j], hLen);
    }
  }

  /** Two characters at columns off, off + 1 of part c sit 3 + c·w + off columns into the margined concatenation. */
  lemma PairInConcat(parts: seq<string>, w: int, c: int, off: int, pair: string)
    requires w >= 2 && 0 <= c < |parts| && 0 <= off && off + 2 <= w && |pair| == 2
    requires forall j :: 0 <= j < |parts| ==> |parts[j]| == w
    requires parts[c][off] == pair[0] && parts[c][off + 1] == pair[1]
    ensures var line := Spaces(3) + Concat(parts);
            var at := 3 + c * w + off;
            0 <= at && at + 2 <= |line| && line[at..at + 2] == pair
  {
    var base := c * w;
    ConcatAt(parts, w, c, off);
    ConcatAt(parts, w, c, off + 1);
    var all := Concat(parts);
    var line := Spaces(3) + all;
    var at := 3 + base + off;
    assert line[at] == all[base + off] && line[at + 1] == all[base + off + 1];
    assert line[at..at + 2] == pair;
  }

  /** A short clue is right-justified in the two middle columns of its cell. */
  lemma ClueCellMiddle(x: int, hLen: int)
    requires hLen >= 2 && 0 <= x <= 99
    ensures var off := (hLen - 2) / 2;
            var rj := RJust(IntToString(x), 2);
            |rj| == 2 && off + 2 <= |ClueCell(x, hLen)| &&
            ClueCell(x, hLen)[off] == rj[0] && ClueCell(x, hLen)[off + 1] == rj[1]
  {
    var off := (hLen - 2) / 2;
    var rj := RJust(IntToString(x), 2);
    ShortNumber(x);
    assert |rj| == 2;
    var a, b := Spaces(off), Spaces(hLen - off - 2);
    assert ClueCell(x, hLen) == a + rj + b;
    assert |a| == off;
    assert (a + rj + b)[off] == rj[0] && (a + rj + b)[off + 1] == rj[1];
  }

  /** How a grid line is decorated: the clues on the centre line of a row, a margin otherwise. */
  lemma DecorateLayout(d: string, i: int, line: string, vLen: int, left: seq<int>, right: seq<int>)
    requires vLen >= 1 && i >= 0 && |left| == |right|
    requires forall k :: 0 <= k < |left| ==> 0 <= left[k] <= 99 && 0 <= right[k] <= 99
    requires d == Decorate(i, line, vLen, left, right)
    ensures LineShown(d, line, i, vLen, left, right)
  {
    var k := i / vLen;
    DivNonneg(i, vLen);
    if i % vLen == vLen / 2 && k < |left| {
      var l, r := left[k], right[k];
      ShortNumber(l);
      ShortNumber(r);
      ClueFrame(Center(IntToString(l), 2), line, RJust(IntToString(r), 2));
      assert Clued(d, line, l, r);
    } else {
      MarginFrame(line);
    }
  }

  /** A line behind the three-column margin. */
  lemma MarginFrame(line: string)
    ensures Margined(Spaces(3) + line, line)
  {
  }

  /** A line between a two-column margin and a two-column tail, each separated by a space. */
  lemma ClueFrame(margin: string, line: string, tail: string)
    requires |margin| == 2 && |tail| == 2
    ensures var d := margin + " " + line + " " + tail;
            |d| == |line| + 6 && d[..2] == margin && d[2] == ' ' && d[3..3 + |line|] == line &&
            d[3 + |line|] == ' ' && d[4 + |line|..] == tail
  {
  }

  /** What sits at column j of a line sits at column 3 + j once the line is decorated. */
  lemma Shifted(d: string, line: string, j: int, t: string)
    requires |d| >= 3 + |line| && d[3..3 + |line|] == line
    requires 0 <= j && j + |t| <= |line| && line[j..j + |t|] == t
    ensures 3 + j + |t| <= |d| && d[3 + j..3 + j + |t|] == t
  {
    forall m | 0 <= m < |t|
      ensures d[3 + j + m] == t[m]
    {
      assert d[3..3 + |line|][j + m] == line[j + m];
      assert line[j..j + |t|][m] == t[m];
    }
  }

  /** Every vertex of the drawing is a corner. */
  function Corner(k: CellIdx): string
  {
    "+"
  }

  /** The text of the edge at grid position k. */
  function EdgeText(k: EdgeIdx): string
  {
    EdgeStr(Edge(k.0, k.1, k.2))
  }

  /** Grid line i as output: with the row's clues when it is the centre line of a row, behind a margin otherwise. */
  ghost predicate LineShown(d: string, line: string, i: int, vLen: int, left: seq<int>, right: seq<int>)
    requires vLen >= 1 && i >= 0 && |left| == |right|
  {
    if i % vLen == vLen / 2 && i / vLen < |left| then Clued(d, line, left[i / vLen], right[i / vLen])
    else Margined(d, line)
  }

  /** The output lines around the grid drawing: grid line i is output line i + 1. */
  ghost predicate Bordered(lines: seq<string>, gridLines: seq<string>, vLen: int, left: seq<int>, right: seq<int>)
    requires vLen >= 1 && |left| == |right|
  {
    |lines| == |gridLines| + 2 &&
    forall i :: 0 <= i < |gridLines| ==> LineShown(lines[i + 1], gridLines[i], i, vLen, left, right)
  }

  /** The decorated lines framed by the clue rows are bordered as `pretty` promises. */
  lemma DecoratedBordered(lines: seq<string>, gridLines: seq<string>, vLen: int, left: seq<int>, right: seq<int>)
    requires vLen >= 1 && |left| == |right|
    requires forall k :: 0 <= k < |left| ==> 0 <= left[k] <= 99 && 0 <= right[k] <= 99
    requires |lines| == |gridLines| + 2
    requires forall i :: 0 <= i < |gridLines| ==> lines[i + 1] == Decorate(i, gridLines[i], vLen, left, right)
    ensures Bordered(lines, gridLines, vLen, left, right)
  {
    forall i | 0 <= i < |gridLines|
      ensures LineShown(lines[i + 1], gridLines[i], i, vLen, left, right)
    {
      DecorateLayout(lines[i + 1], i, gridLines[i], vLen, left, right);
    }
  }

  /** Each face's text, drawn at the centre of its cell, sits in the output shifted by the clue row and the margin. */
  lemma CellsShown(lines: seq<string>, gridLines: seq<string>, keys: set<CellIdx>, f: CellIdx -> string, n: int, hLen: int, vLen: int,
                   left: seq<int>, right: seq<int>)
    requires hLen >= 1 && vLen >= 1 && |left| == |right|
    requires Written(gridLines, n, n, vLen, hLen, vLen / 2, hLen / 2, f)
    requires forall k :: k in keys ==> 0 <= k.0 < n && 0 <= k.1 < n
    requires Bordered(lines, gridLines, vLen, left, right)
    ensures forall k :: k in keys ==> CellShown(lines, k.0, k.1, hLen, vLen, f(k))
  {
    forall k | k in keys
      ensures CellShown(lines, k.0, k.1, hLen, vLen, f(k))
    {
      assert (k.0, k.1) == k;
      var i := k.0 * vLen + vLen / 2;
      assert TextAt(gridLines, k.0, k.1, vLen, hLen, vLen / 2, hLen / 2, f);
      assert LineShown(lines[i + 1], gridLines[i], i, vLen, left, right);
      LineShownAligned(lines[i + 1], gridLines[i], i, vLen, left, right);
      CellShownAt(lines, gridLines, i, k.0, k.1, f, hLen, vLen);
    }
  }

  /** The text drawn at the centre of cell (r, c) on grid line i sits in the output
      shifted by the clue row and the margin. */
  lemma CellShownAt(lines: seq<string>, gridLines: seq<string>, i: int, r: int, c: int, f: CellIdx -> string, hLen: int, vLen: int)
    requires hLen >= 1 && vLen >= 1 && i == r * vLen + vLen / 2
    requires TextAt(gridLines, r, c, vLen, hLen, vLen / 2, hLen / 2, f)
    requires 0 <= i + 1 < |lines| && |lines[i + 1]| >= 3 + |gridLines[i]| && lines[i + 1][3..3 + |gridLines[i]|] == gridLines[i]
    ensures CellShown(lines, r, c, hLen, vLen, f((r, c)))
  {
    var j, t := c * hLen + hLen / 2, f((r, c));
    Shifted(lines[i + 1], gridLines[i], j, t);
  }

  /** Either way a grid line is shown, it starts three columns in. */
  lemma LineShownAligned(d: string, line: string, i: int, vLen: int, left: seq<int>, right: seq<int>)
    requires vLen >= 1 && i >= 0 && |left| == |right|
    requires LineShown(d, line, i, vLen, left, right)
    ensures |d| >= 3 + |line| && d[3..3 + |line|] == line
  {
  }

  /** A line framed by a two-column margin and a separating space starts three columns in. */
  lemma Framed(margin: string, line: string, tail: string)
    requires |margin| == 2
    ensures var d := margin + " " + line + " " + tail;
            |d| >= 3 + |line| && d[3..3 + |line|] == line
  {
  }

  /** The decorating loop of `pretty`. */
  method DecorateLines(lines: seq<string>, vLen: int, left: seq<int>, right: seq<int>) returns (out: seq<string>)
    requires vLen >= 1 && |left| == |right|
    ensures |out| == |lines|
    ensures forall i :: 0 <= i < |lines| ==> out[i] == Decorate(i, lines[i], vLen, left, right)
  {
    out := lines;
    for i := 0 to |lines|
      invariant |out| == |lines|
      invariant forall k :: 0 <= k < i ==> out[k] == Decorate(k, lines[k], vLen, left, right)
      invariant forall k :: i <= k < |lines| ==> out[k] == lines[k]
    {
      var line := out[i];
      if i % vLen == vLen / 2 {
        var rowIdx := i / vLen;
        if rowIdx < |left| {
          line := Center(IntToString(left[rowIdx]), 2) + " " + line + " " + RJust(IntToString(right[rowIdx]), 2);
        } else {
          line := Spaces(3) + line;
        }
      } else {
        line := Spaces(3) + line;
      }
      out := out[i := line];
    }
  }
}
