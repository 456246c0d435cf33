/** The Keen board reader and the placement enumeration that comes before
    its integer program: every numbered cell v becomes the runs of v cells
    across and down that contain it, each run named by a variable, and each
    grid cell collects the variables of the runs that cover it. */
module Keen {
  import opened Py

  type Cell = (int, int)

  // ---------------------------------------------------------------------
  // Reading the board
  // ---------------------------------------------------------------------

  /** A key of `points`: the value when `int(val)` accepts the character, otherwise the character. */
  datatype Key = Num(n: nat) | Chr(c: char)

  function KeyOf(ch: char): (k: Key)
    ensures k.Num? <==> '0' <= ch <= '9'
    ensures k.Num? ==> k.n < 10 && ch as int == '0' as int + k.n
    ensures k.Chr? ==> k.c == ch
  {
    if '0' <= ch <= '9' then Num(ch as int - '0' as int) else Chr(ch)
  }

  /** `points`: its keys in insertion order and the list of cells under each key. */
  datatype Points = Points(keys: seq<Key>, lists: map<Key, seq<Cell>>)

  /** The parse result `(points, num_rows, num_cols)`. */
  datatype Parsed = Parsed(points: Points, nr: nat, nc: nat)

  type Entry = (Cell, char)

  /** The cells of one row with their characters. */
  function RowEntries(row: string, r: int): (es: seq<Entry>)
    ensures |es| == |row|
  {
    seq(|row|, c requires 0 <= c < |row| => ((r, c), row[c]))
  }

  /** The cells of all rows in row-major order with their characters. */
  function Entries(rows: seq<string>): seq<Entry>
  {
    if rows == [] then [] else Entries(rows[..|rows| - 1]) + RowEntries(rows[|rows| - 1], |rows| - 1)
  }

  /** One step of the parse loop: '0' is skipped, anything else is appended
      to its key's list with `setdefault(val, []).append`. */
  function Step(p: Points, e: Entry): Points
  {
    if e.1 == '0' then p
    else
      var key := KeyOf(e.1);
      if key in p.lists then Points(p.keys, p.lists[key := p.lists[key] + [e.0]])
      else Points(p.keys + [key], p.lists[key := [e.0]])
  }

  /** The parse loop run over entries. */
  function Collect(es: seq<Entry>): Points
  {
    if es == [] then Points([], map[]) else Step(Collect(es[..|es| - 1]), es[|es| - 1])
  }

  /** The reference for one key's list: the cells, in order, whose character is not '0' and has that key. */
  function Matching(es: seq<Entry>, k: Key): seq<Cell>
  {
    if es == [] then []
    else
      var e := es[|es| - 1];
      Matching(es[..|es| - 1], k) + (if e.1 != '0' && KeyOf(e.1) == k then [e.0] else [])
  }

  /** `parse(board_str)`. */
  function ParseSpec(text: string): (res: Result<Parsed>)
    ensures res.Err? <==> TrimLines(text).Err? || TrimLines(text).value == []
                          || exists i :: 0 <= i < |TrimLines(text).value| && |TrimLines(text).value[i]| != |TrimLines(text).value[0]|
    ensures res.Err? ==> res.error == (if TrimLines(text).Err? || TrimLines(text).value == [] then IndexError else AssertionError)
    ensures res.Ok? ==> Listed(res.value.points)
  {
    match TrimLines(text)
    case Err(e) => Err(e)
    case Ok(rows) => ParseRows(rows)
  }

  /** `parse` after the blank first and last lines are dropped. */
  function ParseRows(rows: seq<string>): (res: Result<Parsed>)
    ensures res.Ok? ==> Listed(res.value.points)
  {
    if rows == [] then Err(IndexError)
    else if exists i :: 0 <= i < |rows| && |rows[i]| != |rows[0]| then Err(AssertionError)
    else
      CollectMatching(Entries(rows));
      Ok(Parsed(Collect(Entries(rows)), |rows|, |rows[0]|))
  }

  /** The keys are distinct, are exactly the keys of the lists, and no list is empty. */
  ghost predicate WellKeyed(p: Points)
  {
    && NoDup(p.keys)
    && (forall k :: k in p.lists <==> k in p.keys)
    && (forall k :: k in p.lists ==> p.lists[k] != [])
  }

  /** The parse loop: rows must share the first row's width, and every
      character other than '0' is filed under its key, in row-major order. */
  method Parse(text: string) returns (res: Result<Parsed>)
    ensures res == ParseSpec(text)
  {
    var rows := Split(text, '\n');
    if |rows[0]| == 0 {
      rows := rows[1..];
    }
    if |rows| == 0 {
      return Err(IndexError);
    }
    if |rows[|rows| - 1]| == 0 {
      rows := rows[..|rows| - 1];
    }
    assert TrimLines(text) == Ok(rows);
    res := ReadRows(rows);
  }

  /** The parse of the trimmed rows. */
  method ReadRows(rows: seq<string>) returns (res: Result<Parsed>)
    ensures res == ParseRows(rows)
  {
    if |rows| == 0 {
      return Err(IndexError);
    }
    var numRows, numCols := |rows|, |rows[0]|;
    var same := SameWidth(rows, numCols);
    if !same {
      return Err(AssertionError);
    }
    var keys: seq<Key> := [];
    var lists: map<Key, seq<Cell>> := map[];
    for ri := 0 to |rows|
      invariant Points(keys, lists) == Collect(Entries(rows[..ri]))
    {
      keys, lists := CollectRow(keys, lists, rows[ri], ri, Entries(rows[..ri]));
      assert rows[..ri + 1][..ri] == rows[..ri];
    }
    assert rows[..|rows|] == rows;
    res := Ok(Parsed(Points(keys, lists), numRows, numCols));
  }

  /** `all(len(r) == num_cols for r in rows)`. */
  method SameWidth(rows: seq<string>, w: nat) returns (same: bool)
    ensures same <==> forall i :: 0 <= i < |rows| ==> |rows[i]| == w
  {
    for i := 0 to |rows|
      invariant forall k :: 0 <= k < i ==> |rows[k]| == w
    {
      if |rows[i]| != w {
        return false;
      }
    }
    return true;
  }

  /** The inner loop of the parse over one row. */
  method CollectRow(keys: seq<Key>, lists: map<Key, seq<Cell>>, row: string, ri: int, ghost before: seq<Entry>)
    returns (keys': seq<Key>, lists': map<Key, seq<Cell>>)
    requires Points(keys, lists) == Collect(before)
    ensures Points(keys', lists') == Collect(before + RowEntries(row, ri))
  {
    keys', lists' := keys, lists;
    assert before + RowEntries(row, ri)[..0] == before;
    for ci := 0 to |row|
      invariant Points(keys', lists') == Collect(before + RowEntries(row, ri)[..ci])
    {
      ghost var es := before + RowEntries(row, ri)[..ci];
      ghost var e := ((ri, ci), row[ci]);
      assert (es + [e])[..|es|] == es;
      assert before + RowEntries(row, ri)[..ci + 1] == es + [e];
      var val := row[ci];
      if val == '0' {
        continue;
      }
      var key := KeyOf(val);
      if key in lists' {
        lists' := lists'[key := lists'[key] + [(ri, ci)]];
      } else {
        keys' := keys' + [key];
        lists' := lists'[key := [(ri, ci)]];
      }
    }
    assert RowEntries(row, ri)[..|row|] == RowEntries(row, ri);
  }

  /** Matching a concatenation matches each part. */
  lemma {:induction false} MatchingAppend(a: seq<Entry>, b: seq<Entry>, k: Key)
    ensures Matching(a + b, k) == Matching(a, k) + Matching(b, k)
  {
    if b == [] {
      assert a + b == a;
    } else {
      var n := |b| - 1;
      var ab := a + b;
      assert ab[..|ab| - 1] == a + b[..n];
      assert ab[|ab| - 1] == b[n];
      MatchingAppend(a, b[..n], k);
      assert Matching(ab, k) == Matching(a + b[..n], k) + Matching([b[n]], k);
      assert Matching(b, k) == Matching(b[..n], k) + Matching([b[n]], k);
    }
  }

  /** `points` files every entry under its key: a key is present exactly when
      some entry has it, and its list is the reference list of its cells. */
  lemma {:induction false} CollectMatching(es: seq<Entry>)
    ensures WellKeyed(Collect(es))
    ensures forall k :: k in Collect(es).lists <==> Matching(es, k) != []
    ensures forall k :: k in Collect(es).lists ==> Collect(es).lists[k] == Matching(es, k)
  {
    if es != [] {
      var init := es[..|es| - 1];
      var e := es[|es| - 1];
      CollectMatching(init);
      var p := Collect(init);
      if e.1 != '0' && KeyOf(e.1) !in p.lists {
        forall i, j | 0 <= i < j < |p.keys + [KeyOf(e.1)]|
          ensures (p.keys + [KeyOf(e.1)])[i] != (p.keys + [KeyOf(e.1)])[j]
        {
          if j == |p.keys| {
            assert p.keys[i] in p.keys;
          }
        }
      }
    }
  }

  /** The ordering of cells in row-major order. */
  predicate Before(a: Cell, b: Cell)
  {
    a.0 < b.0 || (a.0 == b.0 && a.1 < b.1)
  }

  /** The cells come in strictly increasing row-major order. */
  predicate RowMajor(cells: seq<Cell>)
  {
    forall i, j :: 0 <= i < j < |cells| ==> Before(cells[i], cells[j])
  }

  /** Within one row: the cells of that row holding a character with key k, left to right. */
  lemma {:induction false} MatchingRow(row: string, r: int, k: Key)
    ensures forall cell :: cell in Matching(RowEntries(row, r), k) <==>
              cell.0 == r && 0 <= cell.1 < |row| && row[cell.1] != '0' && KeyOf(row[cell.1]) == k
    ensures RowMajor(Matching(RowEntries(row, r), k))
  {
    if row != [] {
      var n := |row| - 1;
      assert RowEntries(row, r)[..n] == RowEntries(row[..n], r);
      MatchingRow(row[..n], r, k);
      var m := Matching(RowEntries(row[..n], r), k);
      forall i | 0 <= i < |m|
        ensures m[i].1 < n
      {
        assert m[i] in m;
      }
    }
  }

  /** Over all rows: a key's reference list holds exactly the in-range cells
      whose character is not '0' and has that key, in row-major order. */
  lemma {:induction false} MatchingRows(rows: seq<string>, k: Key)
    ensures forall cell :: cell in Matching(Entries(rows), k) <==> InGridHolding(rows, cell, k)
    ensures RowMajor(Matching(Entries(rows), k))
  {
    if rows != [] {
      var n := |rows| - 1;
      var init := rows[..n];
      MatchingRows(init, k);
      MatchingRow(rows[n], n, k);
      MatchingAppend(Entries(init), RowEntries(rows[n], n), k);
      var a, b := Matching(Entries(init), k), Matching(RowEntries(rows[n], n), k);
      forall cell | cell in a
        ensures cell.0 < n && rows[cell.0] == init[cell.0]
      {
      }
      forall i, j | 0 <= i < j < |a + b|
        ensures Before((a + b)[i], (a + b)[j])
      {
        if i < |a| && j >= |a| {
          assert (a + b)[i] in a && (a + b)[j] in b;
        }
      }
    }
  }

  /** What `parse` returns: the grid's size, every row of the first row's width,
      and the keys of `points` distinct and exactly those with a list. */
  lemma ParsedShape(text: string)
    requires ParseSpec(text).Ok?
    ensures var rows := TrimLines(text).value;
            var res := ParseSpec(text).value;
            && res.nr == |rows| > 0 && res.nc == |rows[0]|
            && (forall i :: 0 <= i < |rows| ==> |rows[i]| == res.nc)
            && WellKeyed(res.points)
  {
    CollectMatching(Entries(TrimLines(text).value));
  }

  /** Under each key `parse` files exactly the cells that hold it, in row-major
      order; '0' cells are filed nowhere. */
  lemma ParsedCells(text: string, k: Key)
    requires ParseSpec(text).Ok?
    ensures var rows := TrimLines(text).value;
            var p := ParseSpec(text).value.points;
            && (k in p.lists <==> exists cell :: InGridHolding(rows, cell, k))
            && (k in p.lists ==>
                  && RowMajor(p.lists[k])
                  && forall cell :: cell in p.lists[k] <==> InGridHolding(rows, cell, k))
  {
    var rows := TrimLines(text).value;
    CollectMatching(Entries(rows));
    MatchingRows(rows, k);
    var m := Matching(Entries(rows), k);
    if exists cell :: InGridHolding(rows, cell, k) {
      var cell :| InGridHolding(rows, cell, k);
      assert cell in m;
    }
    if m != [] {
      assert InGridHolding(rows, m[0], k);
    }
  }

  /** The cell lies in the rows and holds a character other than '0' whose key is k. */
  predicate InGridHolding(rows: seq<string>, cell: Cell, k: Key)
  {
    0 <= cell.0 < |rows| && 0 <= cell.1 < |rows[cell.0]|
    && rows[cell.0][cell.1] != '0' && KeyOf(rows[cell.0][cell.1]) == k
  }

  // ---------------------------------------------------------------------
  // Enumerating placements
  // ---------------------------------------------------------------------

  /** `t = (ri, ci, dir, idx)`, the name of a placement's variable: dir is 1
      for a run across and 0 for a run down, idx is `hi` or `vi`. */
  datatype Id = Id(r: int, c: int, dir: int, idx: int)

  /** The first row or column of the run: `cii` or `rii`. */
  function Start(id: Id, v: int): int
  {
    (if id.dir == 1 then id.c else id.r) - v + 1 + id.idx
  }

  /** The run of length v named id covers the cell. */
  predicate Covers(id: Id, v: int, cell: Cell)
  {
    if id.dir == 1 then cell.0 == id.r && Start(id, v) <= cell.1 < Start(id, v) + v
    else cell.1 == id.c && Start(id, v) <= cell.0 < Start(id, v) + v
  }

  /** The run fits the grid: `cii >= 0 and cii+v-1 < nc`, or the same for rows. */
  predicate Fits(id: Id, v: int, nr: int, nc: int)
  {
    0 <= Start(id, v) && Start(id, v) + v - 1 < (if id.dir == 1 then nc else nr)
  }

  /** The runs in direction dir for indices 0..m-1 that fit, in index order. */
  function Runs(cell: Cell, v: nat, dir: int, nr: int, nc: int, m: nat): seq<Id>
  {
    if m == 0 then []
    else
      var id := Id(cell.0, cell.1, dir, m - 1);
      Runs(cell, v, dir, nr, nc, m - 1) + (if Fits(id, v, nr, nc) then [id] else [])
  }

  /** The variables listed in `pvars[(ri, ci)]` for the number v at that cell: the runs across, then the runs down. */
  function Placements(cell: Cell, v: nat, nr: int, nc: int): seq<Id>
  {
    Runs(cell, v, 1, nr, nc, v) + Runs(cell, v, 0, nr, nc, v)
  }

  lemma {:induction false} RunsMeans(cell: Cell, v: nat, dir: int, nr: int, nc: int, m: nat)
    ensures forall id :: id in Runs(cell, v, dir, nr, nc, m) <==>
              id.r == cell.0 && id.c == cell.1 && id.dir == dir && 0 <= id.idx < m && Fits(id, v, nr, nc)
    ensures NoDup(Runs(cell, v, dir, nr, nc, m))
  {
    if m > 0 {
      RunsMeans(cell, v, dir, nr, nc, m - 1);
      var a := Runs(cell, v, dir, nr, nc, m - 1);
      forall i | 0 <= i < |a|
        ensures a[i].idx < m - 1
      {
        assert a[i] in a;
      }
    }
  }

  /** The placements of v at a cell are exactly the fitting runs of v cells across
      or down that contain the cell, each listed once. */
  lemma PlacementsMeans(cell: Cell, v: nat, nr: int, nc: int)
    ensures forall id :: id in Placements(cell, v, nr, nc) <==>
              id.r == cell.0 && id.c == cell.1 && (id.dir == 1 || id.dir == 0) && 0 <= id.idx < v && Fits(id, v, nr, nc)
    ensures forall id :: id in Placements(cell, v, nr, nc) ==> Covers(id, v, cell)
    ensures NoDup(Placements(cell, v, nr, nc))
  {
    RunsMeans(cell, v, 1, nr, nc, v);
    RunsMeans(cell, v, 0, nr, nc, v);
    var a, b := Runs(cell, v, 1, nr, nc, v), Runs(cell, v, 0, nr, nc, v);
    forall i, j | 0 <= i < j < |a + b|
      ensures (a + b)[i] != (a + b)[j]
    {
      if i < |a| && j >= |a| {
        assert (a + b)[i] in a && (a + b)[j] in b;
      }
    }
  }

  /** Every run of v cells across or down that fits the grid and contains the cell is one of its placements. */
  lemma PlacementsComplete(cell: Cell, v: nat, nr: int, nc: int, dir: int, s: int)
    requires dir == 1 || dir == 0
    requires 0 <= s && s + v <= (if dir == 1 then nc else nr)
    requires s <= (if dir == 1 then cell.1 else cell.0) < s + v
    ensures var id := Id(cell.0, cell.1, dir, s - (if dir == 1 then cell.1 else cell.0) + v - 1);
            id in Placements(cell, v, nr, nc) && Start(id, v) == s
  {
    PlacementsMeans(cell, v, nr, nc);
  }

  /** A fitting run covers only cells of the grid. */
  lemma FitsInside(id: Id, v: int, nr: int, nc: int, cell: Cell)
    requires 0 <= id.r < nr && 0 <= id.c < nc && (id.dir == 1 || id.dir == 0)
    requires Fits(id, v, nr, nc) && Covers(id, v, cell)
    ensures 0 <= cell.0 < nr && 0 <= cell.1 < nc
  {
  }

  /** The cells of one number's list, each paired with the number. */
  function Numbered(cells: seq<Cell>, v: nat): (ts: seq<(Cell, nat)>)
    ensures |ts| == |cells| && forall j :: 0 <= j < |cells| ==> ts[j] == (cells[j], v)
  {
    seq(|cells|, j requires 0 <= j < |cells| => (cells[j], v))
  }

  /** Every key has a list. */
  predicate Listed(p: Points)
  {
    forall k :: k in p.keys ==> k in p.lists
  }

  /** The numbered cells in the order the loop over `points` visits them, each
      with its number; 'd' is passed over, and any other key that is not a number
      stops the loop with TypeError (`ci-v+1` on a string). */
  function Tasks(p: Points, i: nat): Result<seq<(Cell, nat)>>
    requires i <= |p.keys| && Listed(p)
  {
    if i == 0 then Ok([])
    else
      var key := p.keys[i - 1];
      assert key in p.keys;
      match Tasks(p, i - 1)
      case Err(e) => Err(e)
      case Ok(ts) =>
        if key == Chr('d') then Ok(ts)
        else if key.Chr? then Err(TypeError)
        else Ok(ts + Numbered(p.lists[key], key.n))
  }

  /** The loop fails exactly when some key before i is a character other than 'd', and then with TypeError. */
  lemma {:induction false} TasksFail(p: Points, i: nat)
    requires i <= |p.keys| && Listed(p)
    ensures Tasks(p, i).Err? <==> exists j :: 0 <= j < i && p.keys[j].Chr? && p.keys[j] != Chr('d')
    ensures Tasks(p, i).Err? ==> Tasks(p, i).error == TypeError
  {
    if i > 0 {
      TasksFail(p, i - 1);
    }
  }

  /** One more key: skipped, failed on, or its cells visited with its number. */
  lemma TasksNext(p: Points, i: nat, done: seq<(Cell, nat)>)
    requires i < |p.keys| && Listed(p) && Tasks(p, i) == Ok(done)
    ensures p.keys[i] == Chr('d') ==> Tasks(p, i + 1) == Ok(done)
    ensures p.keys[i].Chr? && p.keys[i] != Chr('d') ==> Tasks(p, i + 1) == Err(TypeError)
    ensures p.keys[i].Num? ==> p.keys[i] in p.lists && Tasks(p, i + 1) == Ok(done + Numbered(p.lists[p.keys[i]], p.keys[i].n))
  {
    assert p.keys[i] in p.keys;
  }

  /** Once the loop has failed, later keys leave the failure as it is. */
  lemma {:induction false} TasksStay(p: Points, i: nat, j: nat)
    requires i <= j <= |p.keys| && Listed(p) && Tasks(p, i).Err?
    ensures Tasks(p, j) == Tasks(p, i)
    decreases j - i
  {
    if i < j {
      TasksStay(p, i, j - 1);
    }
  }

  /** The loop visits exactly the cells listed under the number keys before i, each with its number. */
  lemma {:induction false} TasksCover(p: Points, i: nat, cell: Cell, v: nat)
    requires i <= |p.keys| && Listed(p) && Tasks(p, i).Ok?
    ensures (cell, v) in Tasks(p, i).value <==> Num(v) in p.keys[..i] && cell in p.lists[Num(v)]
  {
    if i > 0 {
      TasksCover(p, i - 1, cell, v);
      assert p.keys[..i] == p.keys[..i - 1] + [p.keys[i - 1]];
      var key := p.keys[i - 1];
      assert key in p.keys;
      if key.Num? && key.n == v && cell in p.lists[key] {
        var j :| 0 <= j < |p.lists[key]| && p.lists[key][j] == cell;
        assert Numbered(p.lists[key], v)[j] == (cell, v);
      }
    }
  }

  /** The placements of the visited cells in the order they are made, each with its run length. */
  function AllRuns(ts: seq<(Cell, nat)>, nr: int, nc: int): seq<(Id, nat)>
  {
    if ts == [] then []
    else
      var t := ts[|ts| - 1];
      AllRuns(ts[..|ts| - 1], nr, nc) + Pair(Placements(t.0, t.1, nr, nc), t.1)
  }

  /** Each variable paired with the run length v. */
  function Pair(ids: seq<Id>, v: nat): (ps: seq<(Id, nat)>)
    ensures |ps| == |ids| && forall j :: 0 <= j < |ids| ==> ps[j] == (ids[j], v)
  {
    seq(|ids|, j requires 0 <= j < |ids| => (ids[j], v))
  }

  /** The variables of the runs covering a cell, in the order they were made: `board[r][c]`. */
  function Covering(runs: seq<(Id, nat)>, cell: Cell): seq<Id>
  {
    if runs == [] then []
    else
      var x := runs[|runs| - 1];
      Covering(runs[..|runs| - 1], cell) + (if Covers(x.0, x.1, cell) then [x.0] else [])
  }

  lemma {:induction false} CoveringAppend(a: seq<(Id, nat)>, b: seq<(Id, nat)>, cell: Cell)
    ensures Covering(a + b, cell) == Covering(a, cell) + Covering(b, cell)
  {
    if b == [] {
      assert a + b == a;
    } else {
      var n := |b| - 1;
      var ab := a + b;
      assert ab[..|ab| - 1] == a + b[..n];
      assert ab[|ab| - 1] == b[n];
      CoveringAppend(a, b[..n], cell);
      assert Covering(ab, cell) == Covering(a + b[..n], cell) + Covering([b[n]], cell);
      assert Covering(b, cell) == Covering(b[..n], cell) + Covering([b[n]], cell);
    }
  }

  /** A cell's list holds the variable of every run made that covers it, and nothing else. */
  lemma {:induction false} CoveringMeans(runs: seq<(Id, nat)>, cell: Cell)
    ensures forall id :: id in Covering(runs, cell) <==> exists v :: (id, v) in runs && Covers(id, v, cell)
  {
    if runs != [] {
      var init := runs[..|runs| - 1];
      CoveringMeans(init, cell);
      assert runs == init + [runs[|runs| - 1]];
    }
  }

  /** The variables named by the runs: the keys of `Vars`. */
  function Names(runs: seq<(Id, nat)>): (s: set<Id>)
    ensures forall id :: id in s <==> exists v :: (id, v) in runs
  {
    set x | x in runs :: x.0
  }

  lemma NamesAppend(runs: seq<(Id, nat)>, ids: seq<Id>, v: nat)
    ensures Names(runs + Pair(ids, v)) == Names(runs) + Elements(ids)
  {
    ElementsIn(ids);
    forall id | id in Elements(ids)
      ensures id in Names(runs + Pair(ids, v))
    {
      var j :| 0 <= j < |ids| && ids[j] == id;
      assert (runs + Pair(ids, v))[|runs| + j] == (id, v);
    }
  }

  /** `pvars` after the visits: each visited cell maps to the variables of its placements. */
  function PvarsOf(ts: seq<(Cell, nat)>, nr: int, nc: int): map<Cell, seq<Id>>
  {
    if ts == [] then map[]
    else
      var t := ts[|ts| - 1];
      PvarsOf(ts[..|ts| - 1], nr, nc)[t.0 := Placements(t.0, t.1, nr, nc)]
  }

  /** When no cell is visited twice, `pvars` maps exactly the visited cells, each to its own placements. */
  lemma {:induction false} PvarsMeans(ts: seq<(Cell, nat)>, nr: int, nc: int)
    requires NoDup(CellsOf(ts))
    ensures forall cell :: cell in PvarsOf(ts, nr, nc) <==> cell in CellsOf(ts)
    ensures forall j :: 0 <= j < |ts| ==> PvarsOf(ts, nr, nc)[ts[j].0] == Placements(ts[j].0, ts[j].1, nr, nc)
  {
    if ts != [] {
      var n := |ts| - 1;
      assert CellsOf(ts[..n]) == CellsOf(ts)[..n];
      PvarsMeans(ts[..n], nr, nc);
      forall j | 0 <= j < n
        ensures ts[j].0 != ts[n].0
      {
        assert CellsOf(ts)[j] == ts[j].0;
      }
    }
  }

  /** The cells of the visits. */
  function CellsOf(ts: seq<(Cell, nat)>): (cs: seq<Cell>)
    ensures |cs| == |ts| && forall j :: 0 <= j < |ts| ==> cs[j] == ts[j].0
  {
    seq(|ts|, j requires 0 <= j < |ts| => ts[j].0)
  }

  /** An nr by nc grid of lists. */
  predicate Shaped(board: seq<seq<seq<Id>>>, nr: nat, nc: nat)
  {
    |board| == nr && forall r :: 0 <= r < nr ==> |board[r]| == nc
  }

  /** The board after the runs: every cell holds the variables of the runs covering it. */
  predicate Placed(board: seq<seq<seq<Id>>>, nr: nat, nc: nat, runs: seq<(Id, nat)>)
  {
    Shaped(board, nr, nc)
    && forall r, c :: 0 <= r < nr && 0 <= c < nc ==> board[r][c] == Covering(runs, (r, c))
  }

  /** The cells of every list lie inside the nr by nc grid. */
  predicate InGrid(p: Points, nr: int, nc: int)
  {
    forall k, j :: k in p.lists && 0 <= j < |p.lists[k]| ==> 0 <= p.lists[k][j].0 < nr && 0 <= p.lists[k][j].1 < nc
  }

  /** `board[ri][ciii].append(var)` for every cell of one run. */
  method Cover(board: seq<seq<seq<Id>>>, id: Id, v: nat, nr: nat, nc: nat, ghost runs: seq<(Id, nat)>)
    returns (out: seq<seq<seq<Id>>>)
    requires Placed(board, nr, nc, runs)
    requires 0 <= id.r < nr && 0 <= id.c < nc && (id.dir == 1 || id.dir == 0) && Fits(id, v, nr, nc)
    ensures Placed(out, nr, nc, runs + [(id, v)])
  {
    out := board;
    var s := Start(id, v);
    for k := s to s + v
      invariant Shaped(out, nr, nc)
      invariant forall r, c :: 0 <= r < nr && 0 <= c < nc ==>
                  out[r][c] == board[r][c] + (if Covers(id, v, (r, c)) && (if id.dir == 1 then c else r) < k then [id] else [])
    {
      var r, c := if id.dir == 1 then id.r else k, if id.dir == 1 then k else id.c;
      out := out[r := out[r][c := out[r][c] + [id]]];
    }
    assert (runs + [(id, v)])[..|runs|] == runs;
  }

  /** One of the two loops for a numbered cell: every run in direction d that
      fits is named, added to `Vars` and `pvars[(ri, ci)]`, and placed on its cells. */
  method PlaceRuns(board: seq<seq<seq<Id>>>, vars: set<Id>, listed: seq<Id>, cell: Cell, v: nat, d: int, nr: nat, nc: nat,
                   ghost runs: seq<(Id, nat)>)
    returns (board': seq<seq<seq<Id>>>, vars': set<Id>, listed': seq<Id>)
    requires 0 <= cell.0 < nr && 0 <= cell.1 < nc && (d == 1 || d == 0)
    requires Placed(board, nr, nc, runs + Pair(listed, v)) && vars == Names(runs + Pair(listed, v))
    ensures listed' == listed + Runs(cell, v, d, nr, nc, v)
    ensures Placed(board', nr, nc, runs + Pair(listed', v)) && vars' == Names(runs + Pair(listed', v))
  {
    board', vars', listed' := board, vars, listed;
    assert listed + Runs(cell, v, d, nr, nc, 0) == listed;
    for i := 0 to v
      invariant listed' == listed + Runs(cell, v, d, nr, nc, i)
      invariant Placed(board', nr, nc, runs + Pair(listed', v)) && vars' == Names(runs + Pair(listed', v))
    {
      var id := Id(cell.0, cell.1, d, i);
      if Fits(id, v, nr, nc) {
        ghost var made := runs + Pair(listed', v);
        PairSnoc(runs, listed', id, v);
        NamesSnoc(made, (id, v));
        vars' := vars' + {id};
        board' := Cover(board', id, v, nr, nc, made);
        listed' := listed' + [id];
      }
    }
  }

  lemma PairSnoc(runs: seq<(Id, nat)>, ids: seq<Id>, id: Id, v: nat)
    ensures runs + Pair(ids + [id], v) == runs + Pair(ids, v) + [(id, v)]
  {
  }

  lemma NamesSnoc(runs: seq<(Id, nat)>, x: (Id, nat))
    ensures Names(runs + [x]) == Names(runs) + {x.0}
  {
  }

  /** The work for one numbered cell: `pvars[(ri, ci)]` is reset, then the runs
      across and the runs down are made. */
  method PlaceAt(board: seq<seq<seq<Id>>>, pvars: map<Cell, seq<Id>>, vars: set<Id>, t: (Cell, nat), nr: nat, nc: nat,
                 ghost ts: seq<(Cell, nat)>)
    returns (board': seq<seq<seq<Id>>>, pvars': map<Cell, seq<Id>>, vars': set<Id>)
    requires 0 <= t.0.0 < nr && 0 <= t.0.1 < nc
    requires Placed(board, nr, nc, AllRuns(ts, nr, nc)) && vars == Names(AllRuns(ts, nr, nc)) && pvars == PvarsOf(ts, nr, nc)
    ensures Placed(board', nr, nc, AllRuns(ts + [t], nr, nc))
    ensures vars' == Names(AllRuns(ts + [t], nr, nc)) && pvars' == PvarsOf(ts + [t], nr, nc)
  {
    ghost var runs := AllRuns(ts, nr, nc);
    assert runs + Pair([], t.1) == runs;
    var listed: seq<Id>;
    board', vars', listed := PlaceRuns(board, vars, [], t.0, t.1, 1, nr, nc, runs);
    board', vars', listed := PlaceRuns(board', vars', listed, t.0, t.1, 0, nr, nc, runs);
    assert listed == Placements(t.0, t.1, nr, nc);
    pvars' := pvars[t.0 := listed];
    assert (ts + [t])[..|ts|] == ts;
    assert AllRuns(ts + [t], nr, nc) == runs + Pair(listed, t.1);
  }

  /** The loop over one number's list of cells. */
  method PlaceNumber(board: seq<seq<seq<Id>>>, pvars: map<Cell, seq<Id>>, vars: set<Id>, cells: seq<Cell>, v: nat, nr: nat, nc: nat,
                     ghost ts: seq<(Cell, nat)>)
    returns (board': seq<seq<seq<Id>>>, pvars': map<Cell, seq<Id>>, vars': set<Id>)
    requires forall j :: 0 <= j < |cells| ==> 0 <= cells[j].0 < nr && 0 <= cells[j].1 < nc
    requires Placed(board, nr, nc, AllRuns(ts, nr, nc)) && vars == Names(AllRuns(ts, nr, nc)) && pvars == PvarsOf(ts, nr, nc)
    ensures var ts' := ts + Numbered(cells, v);
            Placed(board', nr, nc, AllRuns(ts', nr, nc)) && vars' == Names(AllRuns(ts', nr, nc)) && pvars' == PvarsOf(ts', nr, nc)
  {
    board', pvars', vars' := board, pvars, vars;
    ghost var done := ts;
    assert ts + Numbered(cells[..0], v) == ts;
    for j := 0 to |cells|
      invariant done == ts + Numbered(cells[..j], v)
      invariant Placed(board', nr, nc, AllRuns(done, nr, nc))
      invariant vars' == Names(AllRuns(done, nr, nc)) && pvars' == PvarsOf(done, nr, nc)
    {
      NumberedSnoc(ts, cells, j, v);
      board', pvars', vars' := PlaceAt(board', pvars', vars', (cells[j], v), nr, nc, done);
      done := done + [(cells[j], v)];
    }
    assert cells[..|cells|] == cells;
  }

  lemma NumberedSnoc(ts: seq<(Cell, nat)>, cells: seq<Cell>, j: nat, v: nat)
    requires j < |cells|
    ensures ts + Numbered(cells[..j + 1], v) == ts + Numbered(cells[..j], v) + [(cells[j], v)]
  {
  }

  /** What the enumeration builds: `board`, `pvars`, and the names of `Vars`. */
  datatype Layout = Layout(board: seq<seq<seq<Id>>>, pvars: map<Cell, seq<Id>>, vars: set<Id>)

  /** The loop over `points`: for every number key, every cell under it, and every
      run of that many cells across and then down that fits the grid, a variable is
      named and recorded in `Vars`, in `pvars` of the cell, and on every cell it covers. */
  method Enumerate(p: Points, nr: nat, nc: nat) returns (res: Result<Layout>)
    requires Listed(p) && InGrid(p, nr, nc)
    ensures res.Err? <==> Tasks(p, |p.keys|).Err?
    ensures res.Err? ==> res.error == TypeError
    ensures res.Ok? ==> Made(res.value, nr, nc, Tasks(p, |p.keys|).value)
  {
    var board := seq(nr, _ => seq(nc, _ => []));
    var pvars: map<Cell, seq<Id>> := map[];
    var vars: set<Id> := {};
    ghost var done: seq<(Cell, nat)> := [];
    for i := 0 to |p.keys|
      invariant Tasks(p, i) == Ok(done)
      invariant Made(Layout(board, pvars, vars), nr, nc, done)
    {
      var key := p.keys[i];
      TasksNext(p, i, done);
      if key == Chr('d') {
        continue;
      }
      if key.Chr? {
        TasksStay(p, i + 1, |p.keys|);
        return Err(TypeError);
      }
      board, pvars, vars := PlaceNumber(board, pvars, vars, p.lists[key], key.n, nr, nc, done);
      done := done + Numbered(p.lists[key], key.n);
    }
    res := Ok(Layout(board, pvars, vars));
  }

  /** The layout after the visits ts: the board, `Vars` and `pvars` as the visits made them. */
  ghost predicate Made(l: Layout, nr: nat, nc: nat, ts: seq<(Cell, nat)>)
  {
    && Placed(l.board, nr, nc, AllRuns(ts, nr, nc))
    && l.vars == Names(AllRuns(ts, nr, nc))
    && l.pvars == PvarsOf(ts, nr, nc)
  }

  // ---------------------------------------------------------------------
  // From the board text to the enumeration
  // ---------------------------------------------------------------------

  /** Every list is free of repeats and no cell is filed under two keys. */
  ghost predicate Separate(p: Points)
  {
    && (forall k :: k in p.lists ==> NoDup(p.lists[k]))
    && (forall k1, k2, cell :: k1 in p.lists && k2 in p.lists && cell in p.lists[k1] && cell in p.lists[k2] ==> k1 == k2)
  }

  /** What `parse` hands to the enumeration: every key listed, every cell in the
      grid, distinct keys, and no cell filed twice. */
  lemma ParsedEnumerable(text: string)
    requires ParseSpec(text).Ok?
    ensures var res := ParseSpec(text).value;
            Listed(res.points) && InGrid(res.points, res.nr, res.nc) && NoDup(res.points.keys) && Separate(res.points)
  {
    var rows := TrimLines(text).value;
    var res := ParseSpec(text).value;
    var p := res.points;
    ParsedShape(text);
    forall k, j | k in p.lists && 0 <= j < |p.lists[k]|
      ensures 0 <= p.lists[k][j].0 < res.nr && 0 <= p.lists[k][j].1 < res.nc
    {
      ParsedCells(text, k);
      assert InGridHolding(rows, p.lists[k][j], k);
    }
    forall k | k in p.lists
      ensures NoDup(p.lists[k])
    {
      ParsedCells(text, k);
    }
    forall k1, k2, cell | k1 in p.lists && k2 in p.lists && cell in p.lists[k1] && cell in p.lists[k2]
      ensures k1 == k2
    {
      ParsedCells(text, k1);
      ParsedCells(text, k2);
    }
  }

  /** With distinct keys and no cell filed twice, the loop never visits a cell twice. */
  lemma {:induction false} TasksDistinct(p: Points, i: nat)
    requires i <= |p.keys| && Listed(p) && NoDup(p.keys) && Separate(p) && Tasks(p, i).Ok?
    ensures NoDup(CellsOf(Tasks(p, i).value))
  {
    if i > 0 {
      TasksDistinct(p, i - 1);
      var key := p.keys[i - 1];
      assert key in p.keys;
      if key.Num? {
        var ts := Tasks(p, i - 1).value;
        var lst := p.lists[key];
        var all := CellsOf(ts + Numbered(lst, key.n));
        forall a, b | 0 <= a < b < |all|
          ensures all[a] != all[b]
        {
          if a < |ts| && b >= |ts| {
            var t := ts[a];
            assert t in ts;
            TasksCover(p, i - 1, t.0, t.1);
            assert lst[b - |ts|] in lst;
          } else if a < |ts| {
            assert CellsOf(ts)[a] == all[a] && CellsOf(ts)[b] == all[b];
          }
        }
      }
    }
  }

  /** The runs made for the visits are exactly the placements of each visited cell, with its number. */
  lemma {:induction false} AllRunsMeans(ts: seq<(Cell, nat)>, nr: int, nc: int, id: Id, v: nat)
    ensures (id, v) in AllRuns(ts, nr, nc) <==> exists cell :: (cell, v) in ts && id in Placements(cell, v, nr, nc)
  {
    if ts != [] {
      var n := |ts| - 1;
      AllRunsMeans(ts[..n], nr, nc, id, v);
      assert ts == ts[..n] + [ts[n]];
      var ps := Placements(ts[n].0, ts[n].1, nr, nc);
      if id in ps && v == ts[n].1 {
        var j :| 0 <= j < |ps| && ps[j] == id;
        assert Pair(ps, v)[j] == (id, v);
      }
    }
  }

  /** The board text to the enumeration: `parse`, then the loop over `points`. */
  method Build(text: string) returns (res: Result<Layout>)
    ensures ParseSpec(text).Err? ==> res == Err(ParseSpec(text).error)
    ensures ParseSpec(text).Ok? ==>
              var p := ParseSpec(text).value;
              && (res.Err? <==> Tasks(p.points, |p.points.keys|).Err?)
              && (res.Err? ==> res.error == TypeError)
              && (res.Ok? ==> Built(text, res.value))
  {
    var parsed := Parse(text);
    if parsed.Err? {
      return Err(parsed.error);
    }
    ParsedEnumerable(text);
    var p := parsed.value;
    res := Enumerate(p.points, p.nr, p.nc);
  }

  /** The layout is the one the enumeration makes from the parsed text. */
  ghost predicate Built(text: string, l: Layout)
    requires ParseSpec(text).Ok?
  {
    var p := ParseSpec(text).value;
    Tasks(p.points, |p.points.keys|).Ok? && Made(l, p.nr, p.nc, Tasks(p.points, |p.points.keys|).value)
  }

  /** The loop over the parsed `points` visits exactly the cells holding a digit other than '0', each with its digit. */
  lemma ParsedVisits(text: string, c: Cell, v: nat)
    requires ParseSpec(text).Ok?
    ensures var p := ParseSpec(text).value.points;
            Tasks(p, |p.keys|).Ok? ==>
              ((c, v) in Tasks(p, |p.keys|).value <==> InGridHolding(TrimLines(text).value, c, Num(v)))
  {
    var p := ParseSpec(text).value.points;
    if Tasks(p, |p.keys|).Ok? {
      TasksCover(p, |p.keys|, c, v);
      ParsedCells(text, Num(v));
      ParsedShape(text);
      assert p.keys[..|p.keys|] == p.keys;
    }
  }

  /** `pvars` holds the cells with a digit other than '0', each mapped to its placements. */
  lemma BuiltPvars(text: string, l: Layout, cell: Cell)
    requires ParseSpec(text).Ok? && Built(text, l)
    ensures var rows := TrimLines(text).value;
            var p := ParseSpec(text).value;
            && (cell in l.pvars <==> exists v: nat :: InGridHolding(rows, cell, Num(v)))
            && (forall v: nat :: InGridHolding(rows, cell, Num(v)) ==> l.pvars[cell] == Placements(cell, v, p.nr, p.nc))
  {
    var rows := TrimLines(text).value;
    var p := ParseSpec(text).value;
    var pts := p.points;
    var ts := Tasks(pts, |pts.keys|).value;
    ParsedEnumerable(text);
    TasksDistinct(pts, |pts.keys|);
    PvarsMeans(ts, p.nr, p.nc);
    if cell in l.pvars {
      var j :| 0 <= j < |ts| && CellsOf(ts)[j] == cell;
      ParsedVisits(text, cell, ts[j].1);
      assert ts[j] in ts;
    }
    forall v: nat | InGridHolding(rows, cell, Num(v))
      ensures cell in l.pvars && l.pvars[cell] == Placements(cell, v, p.nr, p.nc)
    {
      ParsedVisits(text, cell, v);
      var j :| 0 <= j < |ts| && ts[j] == (cell, v);
      assert CellsOf(ts)[j] == cell;
    }
  }

  /** A variable is in `Vars` exactly when it names a placement of some cell's digit. */
  lemma BuiltVars(text: string, l: Layout, id: Id)
    requires ParseSpec(text).Ok? && Built(text, l)
    ensures var rows := TrimLines(text).value;
            var p := ParseSpec(text).value;
            id in l.vars <==> exists c: Cell, v: nat :: InGridHolding(rows, c, Num(v)) && id in Placements(c, v, p.nr, p.nc)
  {
    var rows := TrimLines(text).value;
    var p := ParseSpec(text).value;
    var ts := Tasks(p.points, |p.points.keys|).value;
    var runs := AllRuns(ts, p.nr, p.nc);
    if id in l.vars {
      var v: nat :| (id, v) in runs;
      AllRunsMeans(ts, p.nr, p.nc, id, v);
      var c: Cell :| (c, v) in ts && id in Placements(c, v, p.nr, p.nc);
      ParsedVisits(text, c, v);
    }
    if exists c: Cell, v: nat :: InGridHolding(rows, c, Num(v)) && id in Placements(c, v, p.nr, p.nc) {
      var c: Cell, v: nat :| InGridHolding(rows, c, Num(v)) && id in Placements(c, v, p.nr, p.nc);
      ParsedVisits(text, c, v);
      AllRunsMeans(ts, p.nr, p.nc, id, v);
      assert (id, v) in runs;
    }
  }

  /** A cell's list holds exactly the variables of the placements of some cell's digit that cover it. */
  lemma BuiltBoard(text: string, l: Layout, cell: Cell, id: Id)
    requires ParseSpec(text).Ok? && Built(text, l)
    requires 0 <= cell.0 < ParseSpec(text).value.nr && 0 <= cell.1 < ParseSpec(text).value.nc
    ensures var rows := TrimLines(text).value;
            var p := ParseSpec(text).value;
            id in l.board[cell.0][cell.1] <==>
              exists c: Cell, v: nat :: InGridHolding(rows, c, Num(v)) && id in Placements(c, v, p.nr, p.nc) && Covers(id, v, cell)
  {
    var rows := TrimLines(text).value;
    var p := ParseSpec(text).value;
    var ts := Tasks(p.points, |p.points.keys|).value;
    var runs := AllRuns(ts, p.nr, p.nc);
    CoveringMeans(runs, cell);
    if id in l.board[cell.0][cell.1] {
      var v: nat :| (id, v) in runs && Covers(id, v, cell);
      AllRunsMeans(ts, p.nr, p.nc, id, v);
      var c: Cell :| (c, v) in ts && id in Placements(c, v, p.nr, p.nc);
      ParsedVisits(text, c, v);
    }
    if exists c: Cell, v: nat :: InGridHolding(rows, c, Num(v)) && id in Placements(c, v, p.nr, p.nc) && Covers(id, v, cell) {
      var c: Cell, v: nat :| InGridHolding(rows, c, Num(v)) && id in Placements(c, v, p.nr, p.nc) && Covers(id, v, cell);
      ParsedVisits(text, c, v);
      AllRunsMeans(ts, p.nr, p.nc, id, v);
    }
  }
}
