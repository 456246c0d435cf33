/**
 * `logicpuzzles/broken/sudoku/sudoku.py`: a 9x9 Sudoku kept as 81
 * candidate sets in row-major order, with a flag per cell that says it
 * is solved. Placing a value (`set_spot`) removes it from every cell
 * that shares a row, column or box with the cell, and removing the
 * second-last candidate of a cell (`remove`) places the last one, so
 * the two recurse into each other. Three strategies narrow the
 * candidates unit by unit, and `solve` repeats them until the board is
 * won or a whole pass changes nothing.
 */
module Sudoku {
  import opened Py

  /** `set(range(1, 10))`: the candidates of an empty cell. */
  const Digits: set<int> := set v | 1 <= v <= 9

  /** There are nine digits. */
  lemma DigitsCard()
    ensures |Digits| == 9
  {
    assert Digits == {1, 2, 3, 4, 5, 6, 7, 8, 9};
  }

  // ---------------------------------------------------------------- cell indices

  /** `rids(r)`: the cells of row r, or the AssertionError for r outside range(9). */
  function Rids(r: int): (res: Result<seq<int>>)
    ensures res.Ok? <==> 0 <= r < 9
    ensures res.Ok? ==> |res.value| == 9
  {
    if 0 <= r < 9 then Ok(seq(9, k => 9 * r + k)) else Err(AssertionError)
  }

  /** `ridx(i)`: the row of cell i. */
  function Ridx(i: int): (res: Result<int>)
    ensures res.Ok? <==> 0 <= i < 81
    ensures res.Ok? ==> 0 <= res.value < 9
  {
    if 0 <= i < 81 then Ok(i / 9) else Err(AssertionError)
  }

  /** `cids(c)`: `range(c, 81, 9)`, the cells of column c. */
  function Cids(c: int): (res: Result<seq<int>>)
    ensures res.Ok? <==> 0 <= c < 9
    ensures res.Ok? ==> |res.value| == 9
  {
    if 0 <= c < 9 then Ok(seq(9, k => c + 9 * k)) else Err(AssertionError)
  }

  /** `cidx(i)`: the column of cell i. */
  function Cidx(i: int): (res: Result<int>)
    ensures res.Ok? <==> 0 <= i < 81
    ensures res.Ok? ==> 0 <= res.value < 9
  {
    if 0 <= i < 81 then Ok(i % 9) else Err(AssertionError)
  }

  /**
   * `bidx(i)`: the box of cell i, boxes numbered row-major. The source
   * has no range check here; Python's floor division agrees with
   * Dafny's for the positive divisors used.
   */
  function Bidx(i: int): int
  {
    (i / 9) / 3 * 3 + (i % 9) / 3
  }

  /** The cells of box b in the order `bids` appends them. */
  function Box(b: int): (cells: seq<int>)
    requires 0 <= b < 9
    ensures |cells| == 9 && forall k :: 0 <= k < 9 ==> 0 <= cells[k] < 81
  {
    seq(9, k => 9 * (3 * (b / 3) + k / 3) + 3 * (b % 3) + k % 3)
  }

  /** Row r holds exactly the cells whose row index is r. */
  lemma RowMembers(r: int, i: int)
    requires 0 <= r < 9
    ensures i in Rids(r).value <==> Ridx(i) == Ok(r)
  {
    var row := Rids(r).value;
    if i in row {
      var k :| 0 <= k < 9 && row[k] == i;
      DivModUnique(i, r, k, 9);
    }
    if 0 <= i < 81 && i / 9 == r {
      assert row[i % 9] == i;
    }
  }

  /** Column c holds exactly the cells whose column index is c. */
  lemma ColMembers(c: int, i: int)
    requires 0 <= c < 9
    ensures i in Cids(c).value <==> Cidx(i) == Ok(c)
  {
    var col := Cids(c).value;
    if i in col {
      var k :| 0 <= k < 9 && col[k] == i;
      DivModUnique(i, k, c, 9);
    }
    if 0 <= i < 81 && i % 9 == c {
      assert col[i / 9] == i;
    }
  }

  /** Row and column of a cell inside box b. */
  lemma BoxCell(b: int, k: int)
    requires 0 <= b < 9 && 0 <= k < 9
    ensures var i := Box(b)[k];
            0 <= i < 81 && i / 9 == 3 * (b / 3) + k / 3 && i % 9 == 3 * (b % 3) + k % 3 && Bidx(i) == b
  {
    var R, C := 3 * (b / 3) + k / 3, 3 * (b % 3) + k % 3;
    DivModUnique(9 * R + C, R, C, 9);
    DivModUnique(R, b / 3, k / 3, 3);
    DivModUnique(C, b % 3, k % 3, 3);
  }

  /** Box b holds exactly the cells whose box index is b. */
  lemma BoxMembers(b: int, i: int)
    requires 0 <= b < 9
    ensures i in Box(b) <==> 0 <= i < 81 && Bidx(i) == b
  {
    if i in Box(b) {
      var k :| 0 <= k < 9 && Box(b)[k] == i;
      BoxCell(b, k);
    }
    if 0 <= i < 81 && Bidx(i) == b {
      var R, C := i / 9, i % 9;
      var k := 3 * (R % 3) + C % 3;
      DivModUnique(b, R / 3, C / 3, 3);
      DivModUnique(k, R % 3, C % 3, 3);
      BoxCell(b, k);
    }
  }

  /** `bids(b)`: the nested loops appending the nine cells of box b. */
  method Bids(b: int) returns (res: Result<seq<int>>)
    ensures res.Ok? <==> 0 <= b < 9
    ensures res.Ok? ==> res.value == Box(b)
  {
    if !(0 <= b < 9) {
      return Err(AssertionError);
    }
    var rr, cc := b / 3, b % 3;
    var ids: seq<int> := [];
    for r := 3 * rr to 3 * rr + 3
      invariant |ids| == 3 * (r - 3 * rr)
      invariant forall k :: 0 <= k < |ids| ==> ids[k] == Box(b)[k]
    {
      for c := 3 * cc to 3 * cc + 3
        invariant |ids| == 3 * (r - 3 * rr) + (c - 3 * cc)
        invariant forall k :: 0 <= k < |ids| ==> ids[k] == Box(b)[k]
      {
        var k := |ids|;
        DivModUnique(k, r - 3 * rr, c - 3 * cc, 3);
        ids := ids + [9 * r + c];
      }
    }
    return Ok(ids);
  }

  /** Every cell lies in its own row, column and box. */
  lemma OwnUnits(i: int)
    requires 0 <= i < 81
    ensures i in Rids(Ridx(i).value).value && i in Cids(Cidx(i).value).value && i in Box(Bidx(i))
  {
    RowMembers(i / 9, i);
    ColMembers(i % 9, i);
    BoxMembers(Bidx(i), i);
  }

  /** `rids(ridx(i))`, `cids(cidx(i))`, `bids(bidx(i))`: the three units `set_spot` clears. */
  function Units(i: int): (us: seq<seq<int>>)
    requires 0 <= i < 81
    ensures |us| == 3 && forall u :: 0 <= u < 3 ==> |us[u]| == 9
    ensures forall u, k :: 0 <= u < 3 && 0 <= k < 9 ==> 0 <= us[u][k] < 81
  {
    [Rids(i / 9).value, Cids(i % 9).value, Box(Bidx(i))]
  }

  /** Cell j is a peer of cell i: another cell in its row, column or box. */
  predicate Peer(i: int, j: int)
  {
    0 <= i < 81 && 0 <= j < 81 && j != i && (j / 9 == i / 9 || j % 9 == i % 9 || Bidx(j) == Bidx(i))
  }

  /** The units of a cell hold exactly its peers and the cell itself. */
  lemma UnitsArePeers(i: int, j: int) returns (u: nat, k: nat)
    requires Peer(i, j)
    ensures u < 3 && k < 9 && Units(i)[u][k] == j
  {
    var bi := (i / 9) / 3 * 3 + (i % 9) / 3;
    assert 0 <= bi < 9;
    if j / 9 == i / 9 {
      RowMembers(i / 9, j);
      u := 0;
    } else if j % 9 == i % 9 {
      ColMembers(i % 9, j);
      u := 1;
    } else {
      BoxMembers(bi, j);
      u := 2;
    }
    k :| 0 <= k < 9 && Units(i)[u][k] == j;
  }

  // ---------------------------------------------------------------- counts

  /** `sum(len(p) for p in self.poss)`. */
  function Total(p: seq<set<int>>): nat
  {
    if p == [] then 0 else Total(p[..|p| - 1]) + |p[|p| - 1]|
  }

  /** `sum(self.solved)`. */
  function SolvedCount(s: seq<bool>): (n: nat)
    ensures n <= |s|
  {
    if s == [] then 0 else SolvedCount(s[..|s| - 1]) + (if s[|s| - 1] then 1 else 0)
  }

  /** Replacing one candidate set changes the total by the difference in size. */
  lemma {:induction false} TotalUpdate(p: seq<set<int>>, i: int, s: set<int>)
    requires 0 <= i < |p|
    ensures Total(p[i := s]) + |p[i]| == Total(p) + |s|
    decreases |p|
  {
    var n := |p| - 1;
    if i < n {
      assert p[i := s][..n] == p[..n][i := s];
      TotalUpdate(p[..n], i, s);
    } else {
      assert p[i := s][..n] == p[..n];
    }
  }

  /** Candidate sets that only shrink never raise the total. */
  lemma {:induction false} TotalShrinks(p: seq<set<int>>, q: seq<set<int>>)
    requires |p| == |q| && forall k :: 0 <= k < |q| ==> q[k] <= p[k]
    ensures Total(q) <= Total(p)
    decreases |p|
  {
    if p != [] {
      var n := |p| - 1;
      TotalShrinks(p[..n], q[..n]);
      SubsetCard(q[n], p[n]);
    }
  }

  /** Flags that only turn on never lower the count, and one that turns on raises it. */
  lemma {:induction false} CountGrows(s0: seq<bool>, s: seq<bool>, j: int)
    requires Grew(s0, s)
    ensures SolvedCount(s0) <= SolvedCount(s)
    ensures 0 <= j < |s| && !s0[j] && s[j] ==> SolvedCount(s0) < SolvedCount(s)
    decreases |s|
  {
    if s != [] {
      var n := |s| - 1;
      CountGrows(s0[..n], s[..n], j);
    }
  }

  /**
   * Every cell keeps a non-empty set of candidates from 1..9; except at
   * cell x, a cell is solved exactly when one candidate is left.
   */
  ghost predicate Consistent(p: seq<set<int>>, s: seq<bool>, x: int)
  {
    |p| == 81 && |s| == 81 &&
    (forall k :: 0 <= k < 81 ==> p[k] != {} && p[k] <= Digits) &&
    (forall k :: 0 <= k < 81 && k != x ==> (s[k] <==> |p[k]| == 1))
  }

  /** Candidates only shrink and solved flags only turn on. */
  ghost predicate Evolved(p0: seq<set<int>>, s0: seq<bool>, p: seq<set<int>>, s: seq<bool>)
  {
    |p| == |p0| && |s| == |s0| &&
    (forall k :: 0 <= k < |p| ==> p[k] <= p0[k]) && Grew(s0, s)
  }

  /** Solved flags only turn on. */
  ghost predicate Grew(s0: seq<bool>, s: seq<bool>)
  {
    |s| == |s0| && forall k :: 0 <= k < |s| && s0[k] ==> s[k]
  }

  lemma EvolvedTrans(p0: seq<set<int>>, s0: seq<bool>, p1: seq<set<int>>, s1: seq<bool>, p: seq<set<int>>, s: seq<bool>)
    requires Evolved(p0, s0, p1, s1) && Evolved(p1, s1, p, s)
    ensures Evolved(p0, s0, p, s)
  {
  }

  /** A set of one element holding w is {w}. */
  lemma OneLeft(s: set<int>, w: int)
    requires |s| == 1 && w in s
    ensures s == {w}
  {
    assert |s - {w}| == 0 by {
      assert s == (s - {w}) + {w};
    }
  }

  /** A non-empty subset of {v} is {v}. */
  lemma Only(s: set<int>, v: int)
    requires s != {} && s <= {v}
    ensures s == {v}
  {
    var x :| x in s;
  }

  /** The cells a unit lists all lie on the board. */
  predicate OnBoard(ids: seq<int>)
  {
    forall k :: 0 <= k < |ids| ==> 0 <= ids[k] < 81
  }

  /** The cells of `ids`, in order, that still hold v as a candidate. */
  function Places(p: seq<set<int>>, ids: seq<int>, v: int): (cells: seq<int>)
    requires |p| == 81 && OnBoard(ids)
    ensures |cells| <= |ids| && OnBoard(cells)
  {
    if ids == [] then []
    else
      var n := |ids| - 1;
      Places(p, ids[..n], v) + (if v in p[ids[n]] then [ids[n]] else [])
  }

  /** The places of v are exactly the unit's cells that hold v. */
  lemma {:induction false} PlacesMembers(p: seq<set<int>>, ids: seq<int>, v: int)
    requires |p| == 81 && OnBoard(ids)
    ensures forall c :: c in Places(p, ids, v) <==> c in ids && v in p[c]
  {
    if ids != [] {
      var n := |ids| - 1;
      PlacesMembers(p, ids[..n], v);
      assert ids == ids[..n] + [ids[n]];
    }
  }

  /** Value v has exactly one place in the unit, and that cell is not solved yet. */
  predicate Single(p: seq<set<int>>, s: seq<bool>, ids: seq<int>, v: int)
    requires |p| == 81 && |s| == 81 && OnBoard(ids)
  {
    var cells := Places(p, ids, v);
    |cells| == 1 && !s[cells[0]]
  }

  /** `unique_number` finds nothing to place in the unit. */
  predicate UniqueStuck(p: seq<set<int>>, s: seq<bool>, ids: seq<int>)
    requires |p| == 81 && |s| == 81 && OnBoard(ids)
  {
    forall v :: 1 <= v <= 9 ==> !Single(p, s, ids, v)
  }

  /** The inner loop of the `nums` scan: cell i is appended to the list of each of its candidates. */
  method AddCell(nums: map<int, seq<int>>, i: int, cands: set<int>) returns (nums': map<int, seq<int>>)
    requires nums.Keys == Digits && cands <= Digits
    ensures nums'.Keys == Digits
    ensures forall v :: v in Digits ==> nums'[v] == nums[v] + (if v in cands then [i] else [])
  {
    nums' := nums;
    var rest := cands;
    while rest != {}
      invariant rest <= cands && nums'.Keys == Digits
      invariant forall v :: v in Digits ==> nums'[v] == nums[v] + (if v in cands - rest then [i] else [])
      decreases |rest|
    {
      var v :| v in rest;
      nums' := nums'[v := nums'[v] + [i]];
      rest := rest - {v};
    }
  }

  /** `cidx(i)` for a column test, `ridx(i)` for a row test. */
  function Line(i: int, isCol: bool): (l: int)
    requires 0 <= i < 81
    ensures 0 <= l < 9
  {
    if isCol then Cidx(i).value else Ridx(i).value
  }

  /** `cids(l)` or `rids(l)`: the cells of column or row l. */
  function LineUnit(l: int, isCol: bool): (cells: seq<int>)
    requires 0 <= l < 9
    ensures |cells| == 9 && OnBoard(cells)
  {
    if isCol then Cids(l).value else Rids(l).value
  }

  /** Every cell of `cells` lies on column (or row) l. */
  predicate OnLine(cells: seq<int>, l: int, isCol: bool)
    requires OnBoard(cells)
  {
    cells == [] || (OnLine(cells[..|cells| - 1], l, isCol) && Line(cells[|cells| - 1], isCol) == l)
  }

  /** `OnLine` checks each cell against l. */
  lemma {:induction false} OnLineMeans(cells: seq<int>, l: int, isCol: bool)
    requires OnBoard(cells)
    ensures OnLine(cells, l, isCol) <==> forall k :: 0 <= k < |cells| ==> Line(cells[k], isCol) == l
    decreases |cells|
  {
    if cells != [] {
      var n := |cells| - 1;
      OnLineMeans(cells[..n], l, isCol);
      assert forall k :: 0 <= k < n ==> cells[..n][k] == cells[k];
    }
  }

  /** All cells lie on the first cell's column (or row). */
  predicate SameLine(cells: seq<int>, isCol: bool)
    requires OnBoard(cells) && cells != []
  {
    OnLine(cells, Line(cells[0], isCol), isCol)
  }

  /**
   * The cells of the shared column (or row) of `cells` outside `cells`,
   * `set(cids(col)) - set(_ids)`; none when the cells are not on one line.
   */
  function LineRest(cells: seq<int>, isCol: bool): set<int>
    requires OnBoard(cells)
  {
    if cells != [] && SameLine(cells, isCol) then Elements(LineUnit(Line(cells[0], isCol), isCol)) - Elements(cells) else {}
  }

  /**
   * The cells `spot_pair` clears of a value with places cs: none for a
   * single place, else the rest of their shared column and of their
   * shared row.
   */
  function SpotSet(cs: seq<int>): set<int>
    requires OnBoard(cs)
  {
    if |cs| == 1 then {} else LineRest(cs, true) + LineRest(cs, false)
  }

  /** The cells `spot_pair` clears of v, from v's places in the unit. */
  function SpotCells(p: seq<set<int>>, ids: seq<int>, v: int): set<int>
    requires |p| == 81 && OnBoard(ids)
  {
    SpotSet(Places(p, ids, v))
  }

  /**
   * After `spot_pair` on a unit whose candidates were p0: every value had
   * a place, and in p no spot cell of a value still holds it.
   */
  ghost predicate SpotDone(p0: seq<set<int>>, p: seq<set<int>>, ids: seq<int>)
    requires |p0| == 81 && OnBoard(ids)
  {
    (forall v :: 1 <= v <= 9 ==> Places(p0, ids, v) != []) &&
    (forall v :: 1 <= v <= 9 ==> Lacks(p, SpotCells(p0, ids, v), {v}))
  }

  /** `spot_pair` finds nothing to do: every value has a place, and the cells to clear are clear. */
  ghost predicate SpotStuck(p: seq<set<int>>, ids: seq<int>)
    requires |p| == 81 && OnBoard(ids)
  {
    SpotDone(p, p, ids)
  }

  // ---------------------------------------------------------------- naked_pair

  /** The unit's cells whose candidate set is exactly `key`, in unit order: `sets[key]`. */
  function Holding(p: seq<set<int>>, ids: seq<int>, key: set<int>): (cells: seq<int>)
    requires |p| == 81 && OnBoard(ids)
    ensures |cells| <= |ids| && OnBoard(cells)
    decreases |ids|
  {
    if ids == [] then []
    else
      var n := |ids| - 1;
      Holding(p, ids[..n], key) + (if p[ids[n]] == key then [ids[n]] else [])
  }

  /** The cells holding `key` are exactly the unit's cells whose candidates are `key`. */
  lemma {:induction false} HoldingMembers(p: seq<set<int>>, ids: seq<int>, key: set<int>)
    requires |p| == 81 && OnBoard(ids)
    ensures forall c :: c in Holding(p, ids, key) <==> c in ids && p[c] == key
  {
    if ids != [] {
      var n := |ids| - 1;
      HoldingMembers(p, ids[..n], key);
      assert ids == ids[..n] + [ids[n]];
    }
  }

  /**
   * The keys of `naked_pair`'s `sets` table: the candidate sets of the
   * unit's cells with other than one candidate, in order of first
   * appearance.
   */
  function NakedKeys(p: seq<set<int>>, ids: seq<int>): (keys: seq<set<int>>)
    requires |p| == 81 && OnBoard(ids)
    decreases |ids|
  {
    if ids == [] then []
    else
      var n := |ids| - 1;
      var keys := NakedKeys(p, ids[..n]);
      var c := p[ids[n]];
      if |c| == 1 || c in keys then keys else keys + [c]
  }

  /** The keys are distinct, and they are exactly the unit's candidate sets of size other than one. */
  lemma {:induction false} NakedKeysMeans(p: seq<set<int>>, ids: seq<int>)
    requires |p| == 81 && OnBoard(ids)
    ensures forall a, b :: 0 <= a < b < |NakedKeys(p, ids)| ==> NakedKeys(p, ids)[a] != NakedKeys(p, ids)[b]
    ensures forall c :: c in ids && |p[c]| != 1 ==> p[c] in NakedKeys(p, ids)
    ensures forall key :: key in NakedKeys(p, ids) ==> |key| != 1 && Holding(p, ids, key) != []
  {
    if ids != [] {
      var n := |ids| - 1;
      NakedKeysMeans(p, ids[..n]);
      assert ids == ids[..n] + [ids[n]];
      HoldingMembers(p, ids[..n], p[ids[n]]);
      forall key | key in NakedKeys(p, ids)
        ensures |key| != 1 && Holding(p, ids, key) != []
      {
        if key in NakedKeys(p, ids[..n]) {
          assert |Holding(p, ids, key)| >= |Holding(p, ids[..n], key)|;
        }
      }
    }
  }

  /**
   * The sweep `naked_pair` runs for a key: when exactly as many cells
   * hold it as it has values, the unit's other cells lose those values.
   */
  function NakedEntry(ids: seq<int>, key: set<int>, cells: seq<int>): (set<int>, set<int>)
  {
    (if |key| == |cells| then Elements(ids) - Elements(cells) else {}, key)
  }

  /** The sweeps of `naked_pair` on a unit whose candidates are p, one per key. */
  function NakedSweeps(p: seq<set<int>>, ids: seq<int>): (sweeps: seq<(set<int>, set<int>)>)
    requires |p| == 81 && OnBoard(ids)
    ensures |sweeps| == |NakedKeys(p, ids)|
  {
    var keys := NakedKeys(p, ids);
    seq(|keys|, n requires 0 <= n < |keys| => NakedEntry(ids, keys[n], Holding(p, ids, keys[n])))
  }

  /**
   * After `naked_pair` on a unit whose candidates were p0: whenever a
   * cell's candidate set K has more than one value and exactly |K| cells
   * of the unit have candidates K, no other cell of the unit holds a
   * value of K.
   */
  ghost predicate NakedDone(p0: seq<set<int>>, p: seq<set<int>>, ids: seq<int>)
    requires |p0| == 81 && OnBoard(ids)
  {
    forall c :: c in ids && |p0[c]| != 1 && |Holding(p0, ids, p0[c])| == |p0[c]| ==>
      Lacks(p, Elements(ids) - Elements(Holding(p0, ids, p0[c])), p0[c])
  }

  /** `naked_pair` finds nothing to remove in the unit. */
  ghost predicate NakedStuck(p: seq<set<int>>, ids: seq<int>)
    requires |p| == 81 && OnBoard(ids)
  {
    NakedDone(p, p, ids)
  }

  /** Running every sweep of the key list is the naked-subset rule for every cell. */
  lemma NakedSweepsMean(p0: seq<set<int>>, p: seq<set<int>>, ids: seq<int>)
    requires |p0| == 81 && OnBoard(ids)
    ensures AllSwept(p, NakedSweeps(p0, ids)) <==> NakedDone(p0, p, ids)
  {
    var keys := NakedKeys(p0, ids);
    var sw := NakedSweeps(p0, ids);
    NakedKeysMeans(p0, ids);
    AllSweptMeans(p, sw);
    if AllSwept(p, sw) {
      forall c | c in ids && |p0[c]| != 1 && |Holding(p0, ids, p0[c])| == |p0[c]|
        ensures Lacks(p, Elements(ids) - Elements(Holding(p0, ids, p0[c])), p0[c])
      {
        var n :| 0 <= n < |keys| && keys[n] == p0[c];
        assert Lacks(p, sw[n].0, sw[n].1);
      }
    }
    if NakedDone(p0, p, ids) {
      forall n | 0 <= n < |keys|
        ensures Lacks(p, sw[n].0, sw[n].1)
      {
        var key := keys[n];
        var cells := Holding(p0, ids, key);
        if |key| == |cells| {
          HoldingMembers(p0, ids, key);
          assert cells[0] in cells;
          assert Lacks(p, Elements(ids) - Elements(Holding(p0, ids, p0[cells[0]])), p0[cells[0]]);
        }
      }
    }
  }

  /**
   * The `sets` table of `naked_pair` after scanning the unit's cells in
   * order: every cell with other than one candidate is appended to the
   * list of its candidate set.
   */
  function GroupMap(p: seq<set<int>>, ids: seq<int>): map<set<int>, seq<int>>
    requires |p| == 81 && OnBoard(ids)
    decreases |ids|
  {
    if ids == [] then map[]
    else
      var n := |ids| - 1;
      var groups := GroupMap(p, ids[..n]);
      var c := p[ids[n]];
      if |c| == 1 then groups else groups[c := (if c in groups then groups[c] else []) + [ids[n]]]
  }

  /**
   * The table's keys are the key list's sets, and each key's list is the
   * unit's cells holding exactly that set; no other set of size other
   * than one is held by any cell.
   */
  lemma {:induction false} GroupMapMeans(p: seq<set<int>>, ids: seq<int>)
    requires |p| == 81 && OnBoard(ids)
    ensures forall key :: key in GroupMap(p, ids) <==> key in NakedKeys(p, ids)
    ensures forall key :: key in GroupMap(p, ids) ==> GroupMap(p, ids)[key] == Holding(p, ids, key) && |key| != 1
    ensures forall key :: key !in GroupMap(p, ids) && |key| != 1 ==> Holding(p, ids, key) == []
    decreases |ids|
  {
    if ids != [] {
      var n := |ids| - 1;
      var groups, keys := GroupMap(p, ids[..n]), NakedKeys(p, ids[..n]);
      var c := p[ids[n]];
      GroupMapMeans(p, ids[..n]);
      forall key
        ensures key in GroupMap(p, ids) <==> key in NakedKeys(p, ids)
      {
        if |c| != 1 && c !in keys {
          assert key in keys + [c] <==> key in keys || key == c;
        }
      }
      forall key | key in GroupMap(p, ids)
        ensures GroupMap(p, ids)[key] == Holding(p, ids, key) && |key| != 1
      {
        if |c| != 1 && key == c && c !in groups {
          assert Holding(p, ids[..n], c) == [];
        }
      }
    }
  }

  /** The table's keys are candidate sets of the board, listed under every key. */
  lemma GroupTableOf(p: seq<set<int>>, ids: seq<int>)
    requires |p| == 81 && OnBoard(ids) && forall c :: 0 <= c < 81 ==> p[c] <= Digits
    ensures GroupTable(NakedKeys(p, ids), GroupMap(p, ids))
  {
    var keys := NakedKeys(p, ids);
    GroupMapMeans(p, ids);
    NakedKeysMeans(p, ids);
    forall n | 0 <= n < |keys|
      ensures keys[n] in GroupMap(p, ids) && keys[n] <= Digits && OnBoard(GroupMap(p, ids)[keys[n]])
    {
      var cells := Holding(p, ids, keys[n]);
      HoldingMembers(p, ids, keys[n]);
      assert cells[0] in cells;
    }
  }

  /** The sweeps of the loop over a built `sets` table: one per key, in key order. */
  function GroupSweeps(ids: seq<int>, keys: seq<set<int>>, groups: map<set<int>, seq<int>>): (sweeps: seq<(set<int>, set<int>)>)
    requires forall k :: 0 <= k < |keys| ==> keys[k] in groups
    ensures |sweeps| == |keys|
  {
    seq(|keys|, n requires 0 <= n < |keys| => NakedEntry(ids, keys[n], groups[keys[n]]))
  }

  /** A `sets` table of keys and their cells. */
  predicate GroupTable(keys: seq<set<int>>, groups: map<set<int>, seq<int>>)
  {
    forall k :: 0 <= k < |keys| ==> keys[k] in groups && keys[k] <= Digits && OnBoard(groups[keys[k]])
  }

  /** Total candidates plus unsolved cells: every strategy that reports a change lowers it. */
  function Measure(p: seq<set<int>>, s: seq<bool>): nat
  {
    Total(p) + |s| - SolvedCount(s)
  }

  /** Candidates only shrink and flags only turn on, so the measure never grows. */
  lemma MeasureShrinks(p0: seq<set<int>>, s0: seq<bool>, p: seq<set<int>>, s: seq<bool>)
    requires Evolved(p0, s0, p, s)
    ensures Measure(p, s) <= Measure(p0, s0)
    ensures Total(p) < Total(p0) ==> Measure(p, s) < Measure(p0, s0)
  {
    TotalShrinks(p0, p);
    CountGrows(s0, s, -1);
  }

  class Board {
    var poss: seq<set<int>>
    var solved: seq<bool>

    ghost predicate Valid()
      reads this
    {
      Consistent(poss, solved, -1)
    }

    /** `Board.__init__` before its checks: every cell unsolved with all nine candidates. */
    constructor()
      ensures Valid()
      ensures forall k :: 0 <= k < 81 ==> poss[k] == Digits && !solved[k]
    {
      DigitsCard();
      assert 1 in Digits;
      poss := seq(81, _ => Digits);
      solved := seq(81, _ => false);
    }

    /**
     * `set_spot(i, v)`: v must be a candidate of i; it becomes the only
     * one, the cell is marked solved, and v is removed from every other
     * cell of the cell's row, column and box, in that order. An
     * AssertionError raised by one of those removals ends the call.
     */
    method SetSpot(i: int, v: int) returns (r: Result<()>)
      requires 0 <= i < 81 && Consistent(poss, solved, i)
      modifies this
      ensures Evolved(old(poss), old(solved), poss, solved)
      ensures v !in old(poss[i]) ==> r == Err(AssertionError) && poss == old(poss) && solved == old(solved)
      ensures v in old(poss[i]) ==> Valid()
      ensures r.Err? ==> r.error == AssertionError
      ensures r.Ok? ==> v in old(poss[i]) && poss[i] == {v} && solved[i]
      ensures r.Ok? ==> forall j :: Peer(i, j) ==> v !in poss[j]
      decreases Total(poss), 1
    {
      if v !in poss[i] {
        return Err(AssertionError);
      }
      ghost var p0, s0 := poss, solved;
      TotalUpdate(poss, i, {v});
      poss := poss[i := {v}];
      solved := solved[i := true];
      var box := Bids(Bidx(i));
      var units := [Rids(Ridx(i).value).value, Cids(Cidx(i).value).value, box.value];
      assert units == Units(i);
      assert Placing(p0, s0, poss, solved, units, i, v, 0, 0);
      for u := 0 to 3
        invariant Placing(p0, s0, poss, solved, units, i, v, u, 0)
      {
        for k := 0 to 9
          invariant Placing(p0, s0, poss, solved, units, i, v, u, k)
        {
          var j := units[u][k];
          ghost var p1, s1 := poss, solved;
          if j != i {
            var c := Remove(j, v);
            PlacingStep(p0, s0, p1, s1, poss, solved, units, i, v, u, k);
            if c.Err? {
              return Err(c.error);
            }
          } else {
            PlacingStep(p0, s0, p1, s1, poss, solved, units, i, v, u, k);
          }
        }
        PlacingRow(p0, s0, poss, solved, units, i, v, u);
      }
      forall j | Peer(i, j)
        ensures v !in poss[j]
      {
        var u, k := UnitsArePeers(i, j);
      }
      return Ok(());
    }

    /**
     * `remove(i, v)`: Ok(false) when v is not a candidate of i. Otherwise
     * the cell must have two or more candidates; v is removed, and when
     * one is left it is placed with `set_spot`.
     */
    method Remove(i: int, v: int) returns (r: Result<bool>)
      requires 0 <= i < 81 && Valid()
      modifies this
      ensures Valid() && Evolved(old(poss), old(solved), poss, solved)
      ensures r == Ok(false) <==> v !in old(poss[i])
      ensures r == Ok(false) ==> poss == old(poss) && solved == old(solved)
      ensures v in old(poss[i]) && |old(poss[i])| == 1 ==> r == Err(AssertionError) && poss == old(poss) && solved == old(solved)
      ensures r.Err? ==> r.error == AssertionError
      ensures r.Ok? ==> v !in poss[i]
      ensures r == Ok(true) ==> Total(poss) < Total(old(poss))
      ensures r.Ok? && v in old(poss[i]) && |old(poss[i])| == 2 ==> poss[i] == old(poss[i]) - {v} && solved[i]
      ensures v in old(poss[i]) && |old(poss[i])| > 2 ==>
                r == Ok(true) && poss == old(poss)[i := old(poss[i]) - {v}] && solved == old(solved)
      decreases Total(poss), 0
    {
      if v !in poss[i] {
        return Ok(false);
      }
      var nleft := |poss[i]|;
      if nleft <= 1 {
        return Err(AssertionError);
      }
      ghost var p0, s0 := poss, solved;
      assert |poss[i] - {v}| == nleft - 1 by {
        assert poss[i] == (poss[i] - {v}) + {v};
      }
      TotalUpdate(poss, i, poss[i] - {v});
      poss := poss[i := poss[i] - {v}];
      if nleft == 2 {
        var w :| w in poss[i];
        OneLeft(poss[i], w);
        ghost var p1, s1 := poss, solved;
        var c := SetSpot(i, w);
        EvolvedTrans(p0, s0, p1, s1, poss, solved);
        TotalShrinks(p1, poss);
        if c.Err? {
          return Err(c.error);
        }
      }
      return Ok(true);
    }

    /**
     * The `nums` scan shared by `unique_number` and `spot_pair`: for each
     * value 1..9, the unit's cells that hold it, in unit order.
     */
    method CandidateCells(ids: seq<int>) returns (nums: map<int, seq<int>>)
      requires Valid() && OnBoard(ids)
      ensures nums.Keys == Digits
      ensures forall v :: v in Digits ==> nums[v] == Places(poss, ids, v)
    {
      nums := map v | v in Digits :: [];
      for k := 0 to |ids|
        invariant nums.Keys == Digits
        invariant forall v :: v in Digits ==> nums[v] == Places(poss, ids[..k], v)
      {
        nums := AddCell(nums, ids[k], poss[ids[k]]);
        assert ids[..k + 1][..k] == ids[..k];
      }
      assert ids[..|ids|] == ids;
    }

    /**
     * `unique_number(ids)`: every value with a single place in the unit
     * whose cell is still unsolved is placed there, values in ascending
     * order. The places are those of the state on entry.
     */
    method UniqueNumber(ids: seq<int>) returns (r: Result<bool>)
      requires Valid() && OnBoard(ids)
      modifies this
      ensures Valid() && Evolved(old(poss), old(solved), poss, solved)
      ensures r == Ok(false) <==> UniqueStuck(old(poss), old(solved), ids)
      ensures r == Ok(false) ==> poss == old(poss) && solved == old(solved)
      ensures r == Ok(true) ==> SolvedCount(old(solved)) < SolvedCount(solved)
      ensures r.Err? ==> r.error == AssertionError
      ensures r.Ok? ==> forall v :: 1 <= v <= 9 && |Places(old(poss), ids, v)| == 1 ==> solved[Places(old(poss), ids, v)[0]]
    {
      ghost var p0, s0 := poss, solved;
      var nums := CandidateCells(ids);
      r := Ok(false);
      for v := 1 to 10
        invariant Valid() && Evolved(p0, s0, poss, solved)
        invariant r.Ok? && UniqueUpTo(p0, s0, poss, solved, ids, v, r.value)
        invariant forall w :: w in Digits ==> nums[w] == Places(p0, ids, w)
      {
        var cells := nums[v];
        if |cells| == 1 && !solved[cells[0]] {
          ghost var p1, s1 := poss, solved;
          UniqueFound(p0, s0, poss, solved, ids, v, r.value);
          var c := SetSpot(cells[0], v);
          EvolvedTrans(p0, s0, p1, s1, poss, solved);
          if c.Err? {
            return Err(c.error);
          }
          UniquePlace(p0, s0, p1, s1, poss, solved, ids, v, r.value);
          r := Ok(true);
        } else {
          UniqueSkip(p0, s0, poss, solved, ids, v, r.value);
        }
      }
      UniqueDone(p0, s0, poss, solved, ids, r.value);
    }

    /**
     * `for v in p: changed |= self.remove(i, v)`: removes the values of
     * `vals` from cell j in ascending order (the order in which a tuple
     * of a candidate set lists them), reporting whether any was present.
     */
    method Strip(j: int, vals: set<int>) returns (r: Result<bool>)
      requires 0 <= j < 81 && vals <= Digits && Valid()
      modifies this
      ensures Valid() && Evolved(old(poss), old(solved), poss, solved)
      ensures r == Ok(false) <==> vals !! old(poss[j])
      ensures r == Ok(false) ==> poss == old(poss) && solved == old(solved)
      ensures r == Ok(true) ==> Total(poss) < Total(old(poss))
      ensures r.Ok? ==> vals !! poss[j]
      ensures r.Err? ==> r.error == AssertionError
    {
      ghost var p0, s0 := poss, solved;
      var changed := false;
      for v := 1 to 10
        invariant Valid() && Evolved(p0, s0, poss, solved)
        invariant StripUpTo(p0, s0, poss, solved, j, vals, v, changed)
      {
        if v in vals {
          ghost var p1, s1 := poss, solved;
          var c := Remove(j, v);
          EvolvedTrans(p0, s0, p1, s1, poss, solved);
          if c.Err? {
            return Err(c.error);
          }
          StripStep(p0, s0, p1, s1, poss, solved, j, vals, v, changed, c.value);
          changed := changed || c.value;
        }
      }
      return Ok(changed);
    }

    /**
     * `for i in cells: ... self.remove(i, v)`: strips `vals` from every
     * cell of the set `cells`, visited in an order the model leaves open.
     */
    method StripAll(cells: set<int>, vals: set<int>) returns (r: Result<bool>)
      requires Valid() && vals <= Digits && forall j :: j in cells ==> 0 <= j < 81
      modifies this
      ensures Valid() && Evolved(old(poss), old(solved), poss, solved)
      ensures r == Ok(false) <==> Lacks(old(poss), cells, vals)
      ensures r == Ok(false) ==> poss == old(poss) && solved == old(solved)
      ensures r == Ok(true) ==> Total(poss) < Total(old(poss))
      ensures r.Ok? ==> Lacks(poss, cells, vals)
      ensures r.Err? ==> r.error == AssertionError
    {
      ghost var p0, s0 := poss, solved;
      var changed := false;
      var rest := cells;
      while rest != {}
        invariant rest <= cells
        invariant Valid() && Evolved(p0, s0, poss, solved)
        invariant !changed <==> Lacks(p0, cells - rest, vals)
        invariant !changed ==> poss == p0 && solved == s0
        invariant changed ==> Total(poss) < Total(p0)
        invariant Lacks(poss, cells - rest, vals)
        decreases |rest|
      {
        var j := Pick(rest);
        ghost var p1, s1 := poss, solved;
        var c := Strip(j, vals);
        EvolvedTrans(p0, s0, p1, s1, poss, solved);
        if c.Err? {
          LacksOne(p0, p1, cells, vals, j);
          return Err(c.error);
        }
        TotalShrinks(p0, p1);
        LacksStep(p0, p1, poss, cells - rest, vals, j, changed, c.value);
        changed := changed || c.value;
        rest := rest - {j};
      }
      assert cells - rest == cells;
      return Ok(changed);
    }

    /**
     * `colinear(ids, is_col)` inside `spot_pair`: whether all cells share
     * the first cell's column (or row), and that line. An empty list
     * raises IndexError at `ids[0]`.
     */
    method Colinear(cells: seq<int>, isCol: bool) returns (r: Result<Option<int>>)
      requires OnBoard(cells)
      ensures r.Err? <==> cells == []
      ensures r.Err? ==> r.error == IndexError
      ensures r.Ok? ==> (r.value.Some? <==> SameLine(cells, isCol))
      ensures r.Ok? && r.value.Some? ==> r.value.value == Line(cells[0], isCol)
    {
      if cells == [] {
        return Err(IndexError);
      }
      var line := Line(cells[0], isCol);
      OnLineMeans(cells, line, isCol);
      for k := 1 to |cells|
        invariant forall m :: 0 <= m < k ==> Line(cells[m], isCol) == line
      {
        if Line(cells[k], isCol) != line {
          return Ok(None);
        }
      }
      return Ok(Some(line));
    }

    /**
     * `spot_pair(ids)`: for each value with two or more places in the
     * unit (places of the state on entry), when those places share a
     * column, the value is removed from the rest of that column, and
     * likewise for a shared row. A value with no place at all raises
     * IndexError inside `colinear`.
     */
    method SpotPair(ids: seq<int>) returns (r: Result<bool>)
      requires Valid() && OnBoard(ids)
      modifies this
      ensures Valid() && Evolved(old(poss), old(solved), poss, solved)
      ensures r == Ok(false) <==> SpotStuck(old(poss), ids)
      ensures r == Ok(false) ==> poss == old(poss) && solved == old(solved)
      ensures r == Ok(true) ==> Total(poss) < Total(old(poss))
      ensures r.Ok? ==> SpotDone(old(poss), poss, ids)
      ensures r.Err? ==> r.error == IndexError || r.error == AssertionError
    {
      ghost var p0 := poss;
      var nums := CandidateCells(ids);
      assert NumsTable(nums);
      r := ClearLines(nums);
      SpotSweepsMean(p0, p0, ids, nums);
      SpotSweepsMean(p0, poss, ids, nums);
    }

    /**
     * One side of a value's sweep in `spot_pair`: when the places cs share
     * a column (or a row), v is removed from the rest of that line. No
     * place at all raises IndexError inside `colinear`.
     */
    method ClearSide(cs: seq<int>, v: int, isCol: bool) returns (r: Result<bool>)
      requires Valid() && OnBoard(cs) && 1 <= v <= 9
      modifies this
      ensures Valid() && Evolved(old(poss), old(solved), poss, solved)
      ensures r == Ok(false) <==> cs != [] && Lacks(old(poss), LineRest(cs, isCol), {v})
      ensures r == Ok(false) ==> poss == old(poss) && solved == old(solved)
      ensures r == Ok(true) ==> Total(poss) < Total(old(poss))
      ensures r.Ok? ==> Lacks(poss, LineRest(cs, isCol), {v})
      ensures cs == [] ==> r.Err?
      ensures r.Err? ==> r.error == (if cs == [] then IndexError else AssertionError)
    {
      var line := Colinear(cs, isCol);
      if line.Err? {
        return Err(line.error);
      }
      if line.value.None? {
        return Ok(false);
      }
      var cells := Elements(LineUnit(line.value.value, isCol)) - Elements(cs);
      r := StripAll(cells, {v});
    }

    /**
     * The body of `spot_pair`'s loop for value v with places cs: a single
     * place is passed over; otherwise the column side, then the row side.
     */
    method ClearValue(cs: seq<int>, v: int) returns (r: Result<bool>)
      requires Valid() && OnBoard(cs) && 1 <= v <= 9
      modifies this
      ensures Valid() && Evolved(old(poss), old(solved), poss, solved)
      ensures r == Ok(false) <==> cs != [] && Lacks(old(poss), SpotSet(cs), {v})
      ensures r == Ok(false) ==> poss == old(poss) && solved == old(solved)
      ensures r == Ok(true) ==> Total(poss) < Total(old(poss))
      ensures r.Ok? ==> Lacks(poss, SpotSet(cs), {v})
      ensures cs == [] ==> r.Err?
      ensures r.Err? ==> r.error == (if cs == [] then IndexError else AssertionError)
    {
      if |cs| == 1 {
        return Ok(false);
      }
      ghost var p0, s0 := poss, solved;
      var c1 := ClearSide(cs, v, true);
      if c1.Err? {
        return c1;
      }
      ghost var p1, s1 := poss, solved;
      var c2 := ClearSide(cs, v, false);
      EvolvedTrans(p0, s0, p1, s1, poss, solved);
      if c2.Err? {
        LacksGrow(p0, p1, LineRest(cs, false), {v});
        return c2;
      }
      TotalShrinks(p0, p1);
      TotalShrinks(p1, poss);
      LacksShrink(p1, poss, LineRest(cs, true), {v});
      LacksUnion(p0, LineRest(cs, true), LineRest(cs, false), {v});
      LacksUnion(poss, LineRest(cs, true), LineRest(cs, false), {v});
      return Ok(c1.value || c2.value);
    }

    /**
     * The loop of `spot_pair` over its `nums` table, values in ascending
     * order, sweep v - 1 of the table for value v.
     */
    method ClearLines(nums: map<int, seq<int>>) returns (r: Result<bool>)
      requires Valid() && NumsTable(nums)
      modifies this
      ensures Valid() && Evolved(old(poss), old(solved), poss, solved)
      ensures r == Ok(false) <==> Placed(nums) && AllSwept(old(poss), SpotSweeps(nums))
      ensures r == Ok(false) ==> poss == old(poss) && solved == old(solved)
      ensures r == Ok(true) ==> Total(poss) < Total(old(poss))
      ensures r.Ok? ==> Placed(nums) && AllSwept(poss, SpotSweeps(nums))
      ensures r.Err? ==> r.error == IndexError || r.error == AssertionError
    {
      ghost var p0, s0 := poss, solved;
      ghost var sweeps := SpotSweeps(nums);
      var changed := false;
      for v := 1 to 10
        invariant Valid() && Evolved(p0, s0, poss, solved)
        invariant SweptUpTo(p0, s0, poss, solved, sweeps, v - 1, changed)
        invariant PlacedBelow(nums, v)
      {
        var c := ClearStep(nums, v, p0, s0, sweeps, changed);
        if c.Err? {
          return Err(c.error);
        }
        changed := changed || c.value;
      }
      assert sweeps[..|sweeps|] == sweeps;
      return Ok(changed);
    }

    /** One value of the loop of `clear_lines`: the sweep of v, and what it adds to the run. */
    method ClearStep(nums: map<int, seq<int>>, v: int, ghost p0: seq<set<int>>, ghost s0: seq<bool>,
                     ghost sweeps: seq<(set<int>, set<int>)>, ghost changed: bool) returns (c: Result<bool>)
      requires Valid() && NumsTable(nums) && Evolved(p0, s0, poss, solved) && 1 <= v <= 9
      requires sweeps == SpotSweeps(nums) && SweptUpTo(p0, s0, poss, solved, sweeps, v - 1, changed)
      requires PlacedBelow(nums, v)
      modifies this
      ensures Valid() && Evolved(p0, s0, poss, solved)
      ensures c.Ok? ==> SweptUpTo(p0, s0, poss, solved, sweeps, v, changed || c.value) && PlacedBelow(nums, v + 1)
      ensures c.Err? ==> !(Placed(nums) && AllSwept(p0, sweeps)) && (c.error == IndexError || c.error == AssertionError)
    {
      var cs := nums[v];
      ghost var p1, s1 := poss, solved;
      c := ClearValue(cs, v);
      EvolvedTrans(p0, s0, p1, s1, poss, solved);
      SpotSweepAt(nums, v);
      if c.Err? {
        if cs != [] {
          SweepFail(p0, s0, p1, s1, sweeps, v - 1, changed);
        }
        return;
      }
      PlacedStep(nums, v);
      SweepStep(p0, s0, p1, s1, poss, solved, sweeps, v - 1, changed, c.value);
    }

    /**
     * The table-building loop of `naked_pair`: each cell with other than
     * one candidate is appended to the list of its candidate set, a new
     * set becoming the next key.
     */
    method NakedGroups(ids: seq<int>) returns (keys: seq<set<int>>, groups: map<set<int>, seq<int>>)
      requires Valid() && OnBoard(ids)
      ensures keys == NakedKeys(poss, ids) && groups == GroupMap(poss, ids)
      ensures forall key :: key in groups <==> key in keys
      ensures forall key :: key in groups ==> groups[key] == Holding(poss, ids, key)
      ensures GroupTable(keys, groups)
    {
      keys, groups := [], map[];
      for k := 0 to |ids|
        invariant keys == NakedKeys(poss, ids[..k]) && groups == GroupMap(poss, ids[..k])
      {
        assert ids[..k + 1][..k] == ids[..k];
        var c := poss[ids[k]];
        if |c| == 1 {
          continue;
        }
        GroupMapMeans(poss, ids[..k]);
        if c in groups {
          groups := groups[c := groups[c] + [ids[k]]];
        } else {
          assert [] + [ids[k]] == [ids[k]];
          keys := keys + [c];
          groups := groups[c := [ids[k]]];
        }
      }
      assert ids[..|ids|] == ids;
      GroupMapMeans(poss, ids);
      GroupTableOf(poss, ids);
    }

    /**
     * The second loop of `naked_pair`, keys in table order: for a key
     * held by exactly as many cells as it has values, the values are
     * removed from the unit's other cells.
     */
    method ClearGroups(ids: seq<int>, keys: seq<set<int>>, groups: map<set<int>, seq<int>>) returns (r: Result<bool>)
      requires Valid() && OnBoard(ids) && GroupTable(keys, groups)
      modifies this
      ensures Valid() && Evolved(old(poss), old(solved), poss, solved)
      ensures r == Ok(false) <==> AllSwept(old(poss), GroupSweeps(ids, keys, groups))
      ensures r == Ok(false) ==> poss == old(poss) && solved == old(solved)
      ensures r == Ok(true) ==> Total(poss) < Total(old(poss))
      ensures r.Ok? ==> AllSwept(poss, GroupSweeps(ids, keys, groups))
      ensures r.Err? ==> r.error == AssertionError
    {
      ghost var p0, s0 := poss, solved;
      ghost var sweeps := GroupSweeps(ids, keys, groups);
      var changed := false;
      for n := 0 to |keys|
        invariant Valid() && Evolved(p0, s0, poss, solved)
        invariant SweptUpTo(p0, s0, poss, solved, sweeps, n, changed)
      {
        var key := keys[n];
        var cells := groups[key];
        assert sweeps[n] == NakedEntry(ids, key, cells);
        if |key| == |cells| {
          ghost var p1, s1 := poss, solved;
          var c := StripAll(Elements(ids) - Elements(cells), key);
          EvolvedTrans(p0, s0, p1, s1, poss, solved);
          if c.Err? {
            SweepFail(p0, s0, p1, s1, sweeps, n, changed);
            return Err(c.error);
          }
          SweepStep(p0, s0, p1, s1, poss, solved, sweeps, n, changed, c.value);
          changed := changed || c.value;
        } else {
          SweepStep(p0, s0, poss, solved, poss, solved, sweeps, n, changed, false);
        }
      }
      assert sweeps[..|sweeps|] == sweeps;
      return Ok(changed);
    }

    /**
     * `naked_pair(ids)`: a candidate set of k > 1 values shared by exactly
     * k cells of the unit is removed from the unit's other cells. The
     * table is that of the state on entry.
     */
    method NakedPair(ids: seq<int>) returns (r: Result<bool>)
      requires Valid() && OnBoard(ids)
      modifies this
      ensures Valid() && Evolved(old(poss), old(solved), poss, solved)
      ensures r == Ok(false) <==> NakedStuck(old(poss), ids)
      ensures r == Ok(false) ==> poss == old(poss) && solved == old(solved)
      ensures r == Ok(true) ==> Total(poss) < Total(old(poss))
      ensures r.Ok? ==> NakedDone(old(poss), poss, ids)
      ensures r.Err? ==> r.error == AssertionError
    {
      ghost var p0 := poss;
      var keys, groups := NakedGroups(ids);
      assert GroupSweeps(ids, keys, groups) == NakedSweeps(p0, ids);
      r := ClearGroups(ids, keys, groups);
      NakedSweepsMean(p0, p0, ids);
      NakedSweepsMean(p0, poss, ids);
    }

    /** `getattr(self, strat)(ids)`: the named strategy on one unit. */
    method Apply(strat: Strategy, ids: seq<int>) returns (r: Result<bool>)
      requires Valid() && OnBoard(ids)
      modifies this
      ensures Valid() && Evolved(old(poss), old(solved), poss, solved)
      ensures r == Ok(false) <==> Stuck(strat, old(poss), old(solved), ids)
      ensures r == Ok(false) ==> poss == old(poss) && solved == old(solved)
      ensures r == Ok(true) ==> Measure(poss, solved) < Measure(old(poss), old(solved))
      ensures r.Err? ==> r.error == AssertionError || r.error == IndexError
    {
      ghost var p0, s0 := poss, solved;
      match strat
      case StratUniqueNumber =>
        r := UniqueNumber(ids);
        TotalShrinks(p0, poss);
      case StratSpotPair =>
        r := SpotPair(ids);
        MeasureShrinks(p0, s0, poss, solved);
      case StratNakedPair =>
        r := NakedPair(ids);
        MeasureShrinks(p0, s0, poss, solved);
    }

    /** `ids(i)` for a unit builder; boxes come from `bids`. */
    method UnitIds(kind: UnitKind, i: int) returns (ids: seq<int>)
      requires 0 <= i < 9
      ensures ids == UnitCells(kind, i)
    {
      match kind
      case RowUnit =>
        ids := Rids(i).value;
      case ColUnit =>
        ids := Cids(i).value;
      case BoxUnit =>
        var b := Bids(i);
        ids := b.value;
    }

    /**
     * `run_strat(strat, b_only)`: the strategy on every row, column and
     * box (boxes only with `b_only`), reporting whether any changed the
     * board.
     */
    method RunStrat(strat: Strategy, bOnly: bool) returns (r: Result<bool>)
      requires Valid()
      modifies this
      ensures Valid() && Evolved(old(poss), old(solved), poss, solved)
      ensures r == Ok(false) <==> AllStuck(strat, old(poss), old(solved), KindUnits(Kinds(bOnly)))
      ensures r == Ok(false) ==> poss == old(poss) && solved == old(solved)
      ensures r == Ok(true) ==> Measure(poss, solved) < Measure(old(poss), old(solved))
      ensures r.Err? ==> r.error == AssertionError || r.error == IndexError
    {
      ghost var p0, s0 := poss, solved;
      var kinds := Kinds(bOnly);
      ghost var units := KindUnits(kinds);
      var changed := false;
      for u := 0 to |kinds|
        invariant Valid() && Evolved(p0, s0, poss, solved)
        invariant StratUpTo(p0, s0, poss, solved, strat, units, 9 * u, changed)
      {
        for i := 0 to 9
          invariant Valid() && Evolved(p0, s0, poss, solved)
          invariant StratUpTo(p0, s0, poss, solved, strat, units, 9 * u + i, changed)
        {
          var ids := UnitIds(kinds[u], i);
          KindUnitAt(kinds, u, i);
          var c := StratUnit(strat, ids, p0, s0, units, 9 * u + i, changed);
          if c.Err? {
            return Err(c.error);
          }
          changed := changed || c.value;
        }
      }
      assert units[..|units|] == units;
      return Ok(changed);
    }

    /** One unit of the loops of `run_strat`: the strategy on unit n, and what that adds to the run. */
    method StratUnit(strat: Strategy, ids: seq<int>, ghost p0: seq<set<int>>, ghost s0: seq<bool>,
                     ghost units: seq<seq<int>>, ghost n: int, ghost changed: bool) returns (c: Result<bool>)
      requires Valid() && Evolved(p0, s0, poss, solved)
      requires StratUpTo(p0, s0, poss, solved, strat, units, n, changed) && n < |units| && units[n] == ids && OnBoard(ids)
      modifies this
      ensures Valid() && Evolved(p0, s0, poss, solved)
      ensures c.Ok? ==> StratUpTo(p0, s0, poss, solved, strat, units, n + 1, changed || c.value)
      ensures c.Err? ==> !AllStuck(strat, p0, s0, units) && (c.error == AssertionError || c.error == IndexError)
    {
      ghost var p1, s1 := poss, solved;
      c := Apply(strat, ids);
      EvolvedTrans(p0, s0, p1, s1, poss, solved);
      if c.Err? {
        StratFail(p0, s0, p1, s1, strat, units, n, changed);
        return;
      }
      StratStep(p0, s0, p1, s1, poss, solved, strat, units, n, changed, c.value);
    }

    /**
     * The inner loops of `verify` on one unit: each cell must have one
     * candidate, which joins `pset`, and `pset` must end with nine values.
     */
    method CheckUnit(ids: seq<int>) returns (r: Result<()>)
      requires Valid() && OnBoard(ids)
      ensures r.Ok? <==> UnitOk(poss, ids)
      ensures r.Err? ==> r.error == AssertionError
    {
      var pset: set<int> := {};
      for k := 0 to |ids|
        invariant forall m :: 0 <= m < k ==> |poss[ids[m]]| == 1
        invariant pset == UnionOf(poss, ids[..k])
      {
        assert ids[..k + 1][..k] == ids[..k];
        var p := poss[ids[k]];
        if |p| != 1 {
          return Err(AssertionError);
        }
        var x := Pick(p);
        OneLeft(p, x);
        pset := pset + {x};
      }
      assert ids[..|ids|] == ids;
      if |pset| != 9 {
        return Err(AssertionError);
      }
      return Ok(());
    }

    /** The inner loop of `verify` for one i, over `(rids, cids, bids)`: row i, column i and box i, each through the unit check. */
    method CheckIndex(i: int) returns (r: Result<()>)
      requires Valid() && 0 <= i < 9
      ensures r.Ok? <==> IndexOk(poss, i)
      ensures r.Err? ==> r.error == AssertionError
    {
      var row := UnitIds(RowUnit, i);
      r := CheckUnit(row);
      if r.Err? {
        return;
      }
      var col := UnitIds(ColUnit, i);
      r := CheckUnit(col);
      if r.Err? {
        return;
      }
      var box := UnitIds(BoxUnit, i);
      r := CheckUnit(box);
    }

    /** `verify()`: for i in range(9), row i, column i and box i pass the unit check. */
    method Verify() returns (r: Result<()>)
      requires Valid()
      ensures r.Ok? <==> GridOk(poss)
      ensures r.Err? ==> r.error == AssertionError
    {
      for i := 0 to 9
        invariant forall j :: 0 <= j < i ==> IndexOk(poss, j)
      {
        var c := CheckIndex(i);
        if c.Err? {
          return c;
        }
      }
      return Ok(());
    }

    /** `won()`: all cells solved; a solved board must then pass `verify`. */
    method Won() returns (r: Result<bool>)
      requires Valid()
      ensures r == Ok(true) <==> AllSolved(solved) && GridOk(poss)
      ensures r == Ok(false) <==> !AllSolved(solved)
      ensures r.Err? ==> r.error == AssertionError
    {
      var all := forall k | 0 <= k < |solved| :: solved[k];
      if all {
        var c := Verify();
        if c.Err? {
          return Err(c.error);
        }
      }
      return Ok(all);
    }

    /** `score()`: the number of unsolved cells and the number of candidates left. */
    function Score(): (int, int)
      reads this
    {
      (81 - SolvedCount(solved), Total(poss))
    }

    /**
     * On a consistent board both counts are in range, and nothing is
     * missing exactly when one candidate is left per cell.
     */
    lemma ScoreFacts()
      requires Valid()
      ensures 0 <= Score().0 <= 81 && 81 <= Score().1 <= 729
      ensures Score().0 == 0 <==> Score().1 == 81
    {
      TotalBounds(poss);
      CountAll(solved);
    }

    /**
     * `solve(*strats)`: pass after pass every strategy runs on every
     * unit, until the board is won or a whole pass changes nothing.
     */
    method Solve(strats: seq<Strategy>) returns (r: Result<()>)
      requires Valid()
      modifies this
      ensures Valid() && Evolved(old(poss), old(solved), poss, solved)
      ensures r.Ok? ==> (AllSolved(solved) && GridOk(poss)) ||
                        forall k :: 0 <= k < |strats| ==> AllStuck(strats[k], poss, solved, KindUnits(Kinds(false)))
      ensures r.Err? ==> r.error == AssertionError || r.error == IndexError
    {
      ghost var p0, s0 := poss, solved;
      var changed := true;
      while true
        invariant Valid() && Evolved(p0, s0, poss, solved)
        invariant !changed ==> forall k :: 0 <= k < |strats| ==> AllStuck(strats[k], poss, solved, KindUnits(Kinds(false)))
        decreases Measure(poss, solved) + (if changed then 1 else 0)
      {
        var w := Won();
        if w.Err? {
          return Err(w.error);
        }
        if w.value || !changed {
          return Ok(());
        }
        ghost var p1, s1 := poss, solved;
        changed := false;
        for k := 0 to |strats|
          invariant Valid() && Evolved(p0, s0, poss, solved) && Evolved(p1, s1, poss, solved)
          invariant PassUpTo(p1, s1, poss, solved, strats, k, changed)
        {
          ghost var p2, s2 := poss, solved;
          var c := RunStrat(strats[k], false);
          EvolvedTrans(p0, s0, p2, s2, poss, solved);
          EvolvedTrans(p1, s1, p2, s2, poss, solved);
          if c.Err? {
            return Err(c.error);
          }
          PassStep(p1, s1, p2, s2, poss, solved, strats, k, changed, c.value);
          changed := changed || c.value;
        }
      }
    }

    /**
     * `Board.__init__(init)`: 81 entries in 0..9 are required; every cell
     * starts unsolved with all candidates, each non-zero entry is placed,
     * and then `solve` with all three strategies, one more
     * `unique_number` round, a box-only `spot_pair` round and `won`.
     */
    method Init(init: seq<int>) returns (r: Result<bool>)
      modifies this
      ensures !(|init| == 81 && forall i :: 0 <= i < 81 ==> 0 <= init[i] < 10) ==> r == Err(AssertionError)
      ensures r.Ok? ==> Valid() && Givens(poss, init, 81)
      ensures r == Ok(true) ==> AllSolved(solved) && GridOk(poss)
      ensures r == Ok(false) ==> !AllSolved(solved)
      ensures r.Err? ==> r.error == AssertionError || r.error == IndexError
    {
      solved := seq(81, _ => false);
      if |init| != 81 {
        return Err(AssertionError);
      }
      for k := 0 to 81
        invariant forall i :: 0 <= i < k ==> 0 <= init[i] < 10
      {
        if !(0 <= init[k] < 10) {
          return Err(AssertionError);
        }
      }
      DigitsCard();
      assert 1 in Digits;
      poss := seq(81, _ => Digits);
      for i := 0 to 81
        invariant Valid() && Givens(poss, init, i)
      {
        if init[i] != 0 {
          ghost var p0, s0 := poss, solved;
          var c := SetSpot(i, init[i]);
          if c.Err? {
            return Err(c.error);
          }
          GivensKept(p0, s0, poss, solved, init, i);
        }
      }
      ghost var p1, s1 := poss, solved;
      var c := Solve([StratUniqueNumber, StratSpotPair, StratNakedPair]);
      if c.Err? {
        return Err(c.error);
      }
      GivensKept(p1, s1, poss, solved, init, 81);
      ghost var p2, s2 := poss, solved;
      var c1 := RunStrat(StratUniqueNumber, false);
      if c1.Err? {
        return Err(c1.error);
      }
      GivensKept(p2, s2, poss, solved, init, 81);
      ghost var p3, s3 := poss, solved;
      var c2 := RunStrat(StratSpotPair, true);
      if c2.Err? {
        return Err(c2.error);
      }
      GivensKept(p3, s3, poss, solved, init, 81);
      r := Won();
    }
  }

  /** Some member of a non-empty set: the next element a set iteration visits. */
  method Pick(s: set<int>) returns (x: int)
    requires s != {}
    ensures x in s
  {
    if forall y :: y !in s {
      assert false;
    }
    x :| x in s;
  }

  /** No cell of `cells` holds a value of `vals`. */
  ghost predicate Lacks(p: seq<set<int>>, cells: set<int>, vals: set<int>)
  {
    forall j :: j in cells && 0 <= j < |p| ==> vals !! p[j]
  }

  /** A cell that still holds one of `vals` shows the cells did not lack them at the start. */
  lemma LacksOne(p0: seq<set<int>>, p1: seq<set<int>>, cells: set<int>, vals: set<int>, j: int)
    requires |p1| == |p0| && 0 <= j < |p0| && j in cells && p1[j] <= p0[j] && !(vals !! p1[j])
    ensures !Lacks(p0, cells, vals)
  {
    assert !(vals !! p0[j]);
  }

  /** One more stripped cell: the done cells grow by j, and `changed` records whether j held a value. */
  lemma LacksStep(p0: seq<set<int>>, p1: seq<set<int>>, p: seq<set<int>>, done: set<int>, vals: set<int>, j: int,
                  changed: bool, c: bool)
    requires |p0| == |p1| == |p| && 0 <= j < |p|
    requires forall k :: 0 <= k < |p| ==> p[k] <= p1[k] <= p0[k]
    requires !changed <==> Lacks(p0, done, vals)
    requires !changed ==> p1 == p0
    requires Lacks(p1, done, vals)
    requires (!c <==> vals !! p1[j]) && vals !! p[j]
    ensures !(changed || c) <==> Lacks(p0, done + {j}, vals)
    ensures Lacks(p, done + {j}, vals)
  {
    if c {
      LacksOne(p0, p1, done + {j}, vals, j);
    }
    if changed {
      var k :| k in done && 0 <= k < |p0| && !(vals !! p0[k]);
    }
    forall k | k in done + {j} && 0 <= k < |p|
      ensures vals !! p[k]
    {
      if k != j {
        assert vals !! p1[k];
      }
    }
  }

  /**
   * The state inside the loop stripping `vals` from cell j before value
   * v: the values below v are gone, and `changed` says whether one was
   * present on entry.
   */
  ghost predicate StripUpTo(p0: seq<set<int>>, s0: seq<bool>, p: seq<set<int>>, s: seq<bool>,
                            j: int, vals: set<int>, v: int, changed: bool)
  {
    |p0| == |p| == 81 && 0 <= j < 81 &&
    (!changed <==> forall w :: 1 <= w < v && w in vals ==> w !in p0[j]) &&
    (!changed ==> p == p0 && s == s0) &&
    (changed ==> Total(p) < Total(p0)) &&
    (forall w :: 1 <= w < v && w in vals ==> w !in p[j])
  }

  /** Removing value v from cell j moves the stripping loop on to v + 1. */
  lemma StripStep(p0: seq<set<int>>, s0: seq<bool>, p1: seq<set<int>>, s1: seq<bool>, p: seq<set<int>>, s: seq<bool>,
                  j: int, vals: set<int>, v: int, changed: bool, c: bool)
    requires StripUpTo(p0, s0, p1, s1, j, vals, v, changed) && 1 <= v <= 9 && v in vals
    requires Evolved(p0, s0, p1, s1) && Evolved(p1, s1, p, s)
    requires (!c <==> v !in p1[j]) && (!c ==> p == p1 && s == s1) && (c ==> Total(p) < Total(p1)) && v !in p[j]
    ensures StripUpTo(p0, s0, p, s, j, vals, v + 1, changed || c)
  {
    TotalShrinks(p0, p1);
    if c {
      assert p1[j] <= p0[j];
    } else if !changed {
      assert forall w :: 1 <= w < v + 1 && w in vals ==> w !in p0[j];
    }
  }

  /** Cells that lacked the values still lack them after candidates shrink. */
  lemma LacksShrink(p0: seq<set<int>>, p: seq<set<int>>, cells: set<int>, vals: set<int>)
    requires Lacks(p0, cells, vals) && |p| == |p0| && forall k :: 0 <= k < |p| ==> p[k] <= p0[k]
    ensures Lacks(p, cells, vals)
  {
    forall j | j in cells && 0 <= j < |p|
      ensures vals !! p[j]
    {
      assert vals !! p0[j];
    }
  }

  /** Every sweep of the list is done: no cell of `.0` holds a value of `.1`. */
  ghost predicate AllSwept(p: seq<set<int>>, sweeps: seq<(set<int>, set<int>)>)
    decreases |sweeps|
  {
    var n := |sweeps| - 1;
    sweeps == [] || (AllSwept(p, sweeps[..n]) && Lacks(p, sweeps[n].0, sweeps[n].1))
  }

  /** `AllSwept` holds exactly when each sweep of the list is done. */
  lemma {:induction false} AllSweptMeans(p: seq<set<int>>, sweeps: seq<(set<int>, set<int>)>)
    ensures AllSwept(p, sweeps) <==> forall t :: 0 <= t < |sweeps| ==> Lacks(p, sweeps[t].0, sweeps[t].1)
    decreases |sweeps|
  {
    if sweeps != [] {
      var n := |sweeps| - 1;
      AllSweptMeans(p, sweeps[..n]);
      assert forall t :: 0 <= t < n ==> sweeps[..n][t] == sweeps[t];
    }
  }

  /** Sweeps done stay done while candidates only shrink. */
  lemma {:induction false} AllSweptShrink(p0: seq<set<int>>, p: seq<set<int>>, sweeps: seq<(set<int>, set<int>)>)
    requires AllSwept(p0, sweeps) && |p| == |p0| && forall k :: 0 <= k < |p| ==> p[k] <= p0[k]
    ensures AllSwept(p, sweeps)
    decreases |sweeps|
  {
    if sweeps != [] {
      var n := |sweeps| - 1;
      AllSweptShrink(p0, p, sweeps[..n]);
      LacksShrink(p0, p, sweeps[n].0, sweeps[n].1);
    }
  }

  /**
   * The state of a strategy that runs a list of sweeps in order, before
   * sweep n: the earlier sweeps are done, and `changed` says whether one
   * of them had anything to remove on entry.
   */
  ghost predicate SweptUpTo(p0: seq<set<int>>, s0: seq<bool>, p: seq<set<int>>, s: seq<bool>,
                            sweeps: seq<(set<int>, set<int>)>, n: int, changed: bool)
  {
    |p0| == |p| == 81 && 0 <= n <= |sweeps| &&
    (!changed <==> AllSwept(p0, sweeps[..n])) &&
    (!changed ==> p == p0 && s == s0) &&
    (changed ==> Total(p) < Total(p0)) &&
    AllSwept(p, sweeps[..n])
  }

  /** One more sweep, with result c, as `StripAll` reports it. */
  lemma SweepStep(p0: seq<set<int>>, s0: seq<bool>, p1: seq<set<int>>, s1: seq<bool>, p: seq<set<int>>, s: seq<bool>,
                  sweeps: seq<(set<int>, set<int>)>, n: int, changed: bool, c: bool)
    requires SweptUpTo(p0, s0, p1, s1, sweeps, n, changed) && n < |sweeps|
    requires Evolved(p0, s0, p1, s1) && Evolved(p1, s1, p, s)
    requires (!c <==> Lacks(p1, sweeps[n].0, sweeps[n].1)) && (!c ==> p == p1 && s == s1) && (c ==> Total(p) < Total(p1))
    requires Lacks(p, sweeps[n].0, sweeps[n].1)
    ensures SweptUpTo(p0, s0, p, s, sweeps, n + 1, changed || c)
  {
    TotalShrinks(p0, p1);
    assert sweeps[..n + 1][..n] == sweeps[..n];
    AllSweptShrink(p1, p, sweeps[..n]);
    if c {
      var j :| j in sweeps[n].0 && 0 <= j < |p1| && !(sweeps[n].1 !! p1[j]);
      assert !(sweeps[n].1 !! p0[j]);
    }
  }

  /** A sweep that finds something it cannot remove shows the sweeps were not all done on entry. */
  lemma SweepFail(p0: seq<set<int>>, s0: seq<bool>, p1: seq<set<int>>, s1: seq<bool>,
                  sweeps: seq<(set<int>, set<int>)>, n: int, changed: bool)
    requires SweptUpTo(p0, s0, p1, s1, sweeps, n, changed) && n < |sweeps|
    requires Evolved(p0, s0, p1, s1) && !Lacks(p1, sweeps[n].0, sweeps[n].1)
    ensures !AllSwept(p0, sweeps)
  {
    AllSweptMeans(p0, sweeps);
    if !changed {
      assert !Lacks(p0, sweeps[n].0, sweeps[n].1);
    } else {
      AllSweptMeans(p0, sweeps[..n]);
      var t :| 0 <= t < n && !Lacks(p0, sweeps[..n][t].0, sweeps[..n][t].1);
      assert sweeps[..n][t] == sweeps[t];
    }
  }

  /** The value lists of a `nums` table: every value 1..9 maps to cells on the board. */
  predicate NumsTable(nums: map<int, seq<int>>)
  {
    nums.Keys == Digits && forall w :: w in Digits ==> OnBoard(nums[w])
  }

  /** Every value of the table has at least one place. */
  predicate Placed(nums: map<int, seq<int>>)
    requires NumsTable(nums)
  {
    PlacedBelow(nums, 10)
  }

  /** Every value below n has at least one place. */
  predicate PlacedBelow(nums: map<int, seq<int>>, n: int)
    requires NumsTable(nums)
  {
    forall v :: 1 <= v < n && v <= 9 ==> nums[v] != []
  }

  /** A value with a place extends `PlacedBelow` by one. */
  lemma PlacedStep(nums: map<int, seq<int>>, n: int)
    requires NumsTable(nums) && PlacedBelow(nums, n) && 1 <= n <= 9 && nums[n] != []
    ensures PlacedBelow(nums, n + 1)
  {
    forall v | 1 <= v < n + 1 && v <= 9
      ensures nums[v] != []
    {
      if v < n {
        assert nums[v] != [];
      }
    }
  }

  /** The sweeps `spot_pair` runs given its `nums` table: sweep v - 1 clears v from the spot set of v's places. */
  function SpotSweeps(nums: map<int, seq<int>>): (sweeps: seq<(set<int>, set<int>)>)
    requires NumsTable(nums)
    ensures |sweeps| == 9
  {
    seq(9, t requires 0 <= t < 9 => (SpotSet(nums[t + 1]), {t + 1}))
  }

  /** Sweep v - 1 belongs to value v. */
  lemma SpotSweepAt(nums: map<int, seq<int>>, v: int)
    requires NumsTable(nums) && 1 <= v <= 9
    ensures SpotSweeps(nums)[v - 1] == (SpotSet(nums[v]), {v})
  {
  }

  /** On the table of places, the sweeps clear exactly the spot cells of each value. */
  lemma SpotSweepsMean(p0: seq<set<int>>, p: seq<set<int>>, ids: seq<int>, nums: map<int, seq<int>>)
    requires |p0| == 81 && OnBoard(ids) && NumsTable(nums)
    requires forall w :: w in Digits ==> nums[w] == Places(p0, ids, w)
    ensures Placed(nums) && AllSwept(p, SpotSweeps(nums)) <==> SpotDone(p0, p, ids)
  {
    var sw := SpotSweeps(nums);
    AllSweptMeans(p, sw);
    if Placed(nums) && AllSwept(p, sw) {
      forall v | 1 <= v <= 9
        ensures Places(p0, ids, v) != [] && Lacks(p, SpotCells(p0, ids, v), {v})
      {
        SpotSweepAt(nums, v);
        assert Lacks(p, sw[v - 1].0, sw[v - 1].1);
      }
    }
    if SpotDone(p0, p, ids) {
      forall t | 0 <= t < 9
        ensures Lacks(p, sw[t].0, sw[t].1)
      {
        assert Lacks(p, SpotCells(p0, ids, t + 1), {t + 1});
      }
      forall v | 1 <= v <= 9
        ensures nums[v] != []
      {
        assert Places(p0, ids, v) != [];
      }
    }
  }

  /** Lacking values over a union of cells is lacking them over each part. */
  lemma LacksUnion(p: seq<set<int>>, a: set<int>, b: set<int>, vals: set<int>)
    ensures Lacks(p, a + b, vals) <==> Lacks(p, a, vals) && Lacks(p, b, vals)
  {
  }

  /** A value found once candidates shrank was already there before. */
  lemma LacksGrow(p0: seq<set<int>>, p: seq<set<int>>, cells: set<int>, vals: set<int>)
    requires !Lacks(p, cells, vals) && |p| == |p0| && forall k :: 0 <= k < |p| ==> p[k] <= p0[k]
    ensures !Lacks(p0, cells, vals)
  {
    var j :| j in cells && 0 <= j < |p| && !(vals !! p[j]);
    assert !(vals !! p0[j]);
  }

  /**
   * The state inside `unique_number`'s loop before value v: every value
   * below v with a single place has its cell solved, and `changed` says
   * whether one of them was placed.
   */
  ghost predicate UniqueUpTo(p0: seq<set<int>>, s0: seq<bool>, p: seq<set<int>>, s: seq<bool>,
                             ids: seq<int>, v: int, changed: bool)
  {
    |p0| == 81 && |s0| == 81 && OnBoard(ids) && Grew(s0, s) &&
    (!changed <==> forall w :: 1 <= w < v ==> !Single(p0, s0, ids, w)) &&
    (!changed ==> p == p0 && s == s0) &&
    (changed ==> SolvedCount(s0) < SolvedCount(s)) &&
    (forall w :: 1 <= w < v && |Places(p0, ids, w)| == 1 ==> s[Places(p0, ids, w)[0]])
  }

  /** A value with no single unsolved place is passed over. */
  lemma UniqueSkip(p0: seq<set<int>>, s0: seq<bool>, p: seq<set<int>>, s: seq<bool>,
                   ids: seq<int>, v: int, changed: bool)
    requires UniqueUpTo(p0, s0, p, s, ids, v, changed) && 1 <= v <= 9
    requires !(|Places(p0, ids, v)| == 1 && !s[Places(p0, ids, v)[0]])
    ensures UniqueUpTo(p0, s0, p, s, ids, v + 1, changed)
  {
    if !changed {
      forall w | 1 <= w < v + 1
        ensures !Single(p0, s0, ids, w)
      {
        if w == v {
          assert p == p0 && s == s0;
        }
      }
    } else {
      var w :| 1 <= w < v && Single(p0, s0, ids, w);
    }
    forall w | 1 <= w < v + 1 && |Places(p0, ids, w)| == 1
      ensures s[Places(p0, ids, w)[0]]
    {
      if w == v {
        assert !(|Places(p0, ids, v)| == 1 && !s[Places(p0, ids, v)[0]]);
      }
    }
  }

  /** A value about to be placed shows the unit was not stuck on entry. */
  lemma UniqueFound(p0: seq<set<int>>, s0: seq<bool>, p: seq<set<int>>, s: seq<bool>,
                    ids: seq<int>, v: int, changed: bool)
    requires UniqueUpTo(p0, s0, p, s, ids, v, changed) && 1 <= v <= 9
    requires |Places(p0, ids, v)| == 1 && !s[Places(p0, ids, v)[0]]
    ensures !UniqueStuck(p0, s0, ids)
  {
    if !changed {
      assert Single(p0, s0, ids, v);
    } else {
      var w :| 1 <= w < v && Single(p0, s0, ids, w);
    }
  }

  /** After value 9, `changed` is false exactly when the unit was stuck. */
  lemma UniqueDone(p0: seq<set<int>>, s0: seq<bool>, p: seq<set<int>>, s: seq<bool>, ids: seq<int>, changed: bool)
    requires UniqueUpTo(p0, s0, p, s, ids, 10, changed)
    ensures !changed <==> UniqueStuck(p0, s0, ids)
  {
  }

  /** Placing a value at its single unsolved place solves one more cell. */
  lemma UniquePlace(p0: seq<set<int>>, s0: seq<bool>, p1: seq<set<int>>, s1: seq<bool>, p: seq<set<int>>, s: seq<bool>,
                    ids: seq<int>, v: int, changed: bool)
    requires UniqueUpTo(p0, s0, p1, s1, ids, v, changed) && 1 <= v <= 9
    requires |Places(p0, ids, v)| == 1 && !s1[Places(p0, ids, v)[0]]
    requires Grew(s1, s) && s[Places(p0, ids, v)[0]]
    ensures UniqueUpTo(p0, s0, p, s, ids, v + 1, true)
  {
    var c := Places(p0, ids, v)[0];
    assert Single(p0, s0, ids, v) by {
      if changed {
        assert Grew(s0, s1);
      }
    }
    CountGrows(s1, s, c);
    CountGrows(s0, s1, -1);
    assert Grew(s0, s) by {
      forall k | 0 <= k < |s| && s0[k]
        ensures s[k]
      {
        assert s1[k];
      }
    }
    forall w | 1 <= w < v + 1 && |Places(p0, ids, w)| == 1
      ensures s[Places(p0, ids, w)[0]]
    {
      if w < v {
        assert s1[Places(p0, ids, w)[0]];
      } else {
        assert w == v;
      }
    }
  }

  /**
   * The state inside `set_spot(i, v)`'s loops: consistent, evolved from
   * the entry state p0/s0, i placed with v, and v cleared from the unit
   * cells before position (u, k).
   */
  ghost predicate Placing(p0: seq<set<int>>, s0: seq<bool>, p: seq<set<int>>, s: seq<bool>,
                          units: seq<seq<int>>, i: int, v: int, u: int, k: int)
  {
    0 <= i < 81 && units == Units(i) && Consistent(p, s, -1) && Evolved(p0, s0, p, s) && Total(p) <= Total(p0) &&
    p[i] == {v} && s[i] && Cleared(p, units, i, v, u, k)
  }

  /** One removal inside `set_spot`'s loops keeps the loop state and clears one more cell once it succeeds. */
  lemma PlacingStep(p0: seq<set<int>>, s0: seq<bool>, p1: seq<set<int>>, s1: seq<bool>, p: seq<set<int>>, s: seq<bool>,
                    units: seq<seq<int>>, i: int, v: int, u: int, k: int)
    requires Placing(p0, s0, p1, s1, units, i, v, u, k) && 0 <= u < 3 && 0 <= k < 9
    requires Consistent(p, s, -1) && Evolved(p1, s1, p, s)
    ensures Evolved(p0, s0, p, s)
    ensures (units[u][k] != i ==> v !in p[units[u][k]]) ==> Placing(p0, s0, p, s, units, i, v, u, k + 1)
  {
    TotalShrinks(p1, p);
    Only(p[i], v);
  }

  lemma PlacingRow(p0: seq<set<int>>, s0: seq<bool>, p: seq<set<int>>, s: seq<bool>,
                   units: seq<seq<int>>, i: int, v: int, u: int)
    requires Placing(p0, s0, p, s, units, i, v, u, 9)
    ensures Placing(p0, s0, p, s, units, i, v, u + 1, 0)
  {
  }

  /** The cells of `units` before position (u, k), other than i, have lost v. */
  ghost predicate Cleared(p: seq<set<int>>, units: seq<seq<int>>, i: int, v: int, u: int, k: int)
  {
    |units| == 3 && (forall a :: 0 <= a < 3 ==> |units[a]| == 9) &&
    forall a, b :: 0 <= a < 3 && 0 <= b < 9 && (a < u || (a == u && b < k)) && units[a][b] != i ==>
      0 <= units[a][b] < |p| && v !in p[units[a][b]]
  }

  // ---------------------------------------------------------------- run_strat and solve

  /** The strategies `run_strat` looks up by name with `getattr`. */
  datatype Strategy = StratUniqueNumber | StratSpotPair | StratNakedPair

  /** The unit builders of `ids_list`: `rids`, `cids` and `bids`. */
  datatype UnitKind = RowUnit | ColUnit | BoxUnit

  /** `ids(i)` for a unit builder and i in range(9). */
  function UnitCells(kind: UnitKind, i: int): (ids: seq<int>)
    requires 0 <= i < 9
    ensures |ids| == 9 && OnBoard(ids)
  {
    match kind
    case RowUnit => Rids(i).value
    case ColUnit => Cids(i).value
    case BoxUnit => Box(i)
  }

  /** `ids_list`: boxes only, or rows, columns and boxes. */
  function Kinds(bOnly: bool): (kinds: seq<UnitKind>)
    ensures 1 <= |kinds| <= 3
  {
    if bOnly then [BoxUnit] else [RowUnit, ColUnit, BoxUnit]
  }

  /** The units `run_strat` visits, in order: each builder of `kinds` for i in range(9). */
  function KindUnits(kinds: seq<UnitKind>): (units: seq<seq<int>>)
    ensures |units| == 9 * |kinds|
  {
    if kinds == [] then [] else seq(9, i requires 0 <= i < 9 => UnitCells(kinds[0], i)) + KindUnits(kinds[1..])
  }

  /** Unit 9u + i is builder u applied to i. */
  lemma {:induction false} KindUnitAt(kinds: seq<UnitKind>, u: int, i: int)
    requires 0 <= u < |kinds| && 0 <= i < 9
    ensures 9 * u + i < 9 * |kinds| && KindUnits(kinds)[9 * u + i] == UnitCells(kinds[u], i)
  {
    if u > 0 {
      KindUnitAt(kinds[1..], u - 1, i);
    }
  }

  /** The strategy finds nothing to do on the unit. */
  ghost predicate Stuck(strat: Strategy, p: seq<set<int>>, s: seq<bool>, ids: seq<int>)
    requires |p| == 81 && |s| == 81 && OnBoard(ids)
  {
    match strat
    case StratUniqueNumber => UniqueStuck(p, s, ids)
    case StratSpotPair => SpotStuck(p, ids)
    case StratNakedPair => NakedStuck(p, ids)
  }

  /** The strategy finds nothing to do on any of the units. */
  ghost predicate AllStuck(strat: Strategy, p: seq<set<int>>, s: seq<bool>, units: seq<seq<int>>)
    requires |p| == 81 && |s| == 81
    decreases |units|
  {
    var n := |units| - 1;
    units == [] || (AllStuck(strat, p, s, units[..n]) && OnBoard(units[n]) && Stuck(strat, p, s, units[n]))
  }

  /** `AllStuck` holds exactly when the strategy is stuck on each unit. */
  lemma {:induction false} AllStuckMeans(strat: Strategy, p: seq<set<int>>, s: seq<bool>, units: seq<seq<int>>)
    requires |p| == 81 && |s| == 81
    ensures AllStuck(strat, p, s, units) <==> forall t :: 0 <= t < |units| ==> OnBoard(units[t]) && Stuck(strat, p, s, units[t])
    decreases |units|
  {
    if units != [] {
      var n := |units| - 1;
      AllStuckMeans(strat, p, s, units[..n]);
      assert forall t :: 0 <= t < n ==> units[..n][t] == units[t];
    }
  }

  /**
   * The state of `run_strat` before unit n: `changed` says whether one of
   * the earlier units changed the board, which a unit does exactly when
   * the strategy is not stuck on it; a change lowers the measure.
   */
  ghost predicate StratUpTo(p0: seq<set<int>>, s0: seq<bool>, p: seq<set<int>>, s: seq<bool>,
                            strat: Strategy, units: seq<seq<int>>, n: int, changed: bool)
  {
    |p0| == 81 && |s0| == 81 && 0 <= n <= |units| &&
    (!changed <==> AllStuck(strat, p0, s0, units[..n])) &&
    (!changed ==> p == p0 && s == s0) &&
    (changed ==> Measure(p, s) < Measure(p0, s0))
  }

  /** One more unit of `run_strat`, with result c. */
  lemma StratStep(p0: seq<set<int>>, s0: seq<bool>, p1: seq<set<int>>, s1: seq<bool>, p: seq<set<int>>, s: seq<bool>,
                  strat: Strategy, units: seq<seq<int>>, n: int, changed: bool, c: bool)
    requires StratUpTo(p0, s0, p1, s1, strat, units, n, changed) && n < |units| && OnBoard(units[n])
    requires Evolved(p0, s0, p1, s1) && Evolved(p1, s1, p, s)
    requires (!c <==> Stuck(strat, p1, s1, units[n])) && (!c ==> p == p1 && s == s1)
    requires c ==> Measure(p, s) < Measure(p1, s1)
    ensures StratUpTo(p0, s0, p, s, strat, units, n + 1, changed || c)
  {
    MeasureShrinks(p1, s1, p, s);
    assert units[..n + 1][..n] == units[..n];
  }

  /** A unit on which the strategy fails shows it was not stuck on every unit at the start. */
  lemma StratFail(p0: seq<set<int>>, s0: seq<bool>, p1: seq<set<int>>, s1: seq<bool>,
                  strat: Strategy, units: seq<seq<int>>, n: int, changed: bool)
    requires StratUpTo(p0, s0, p1, s1, strat, units, n, changed) && n < |units| && OnBoard(units[n])
    requires Evolved(p0, s0, p1, s1) && !Stuck(strat, p1, s1, units[n])
    ensures !AllStuck(strat, p0, s0, units)
  {
    AllStuckMeans(strat, p0, s0, units);
    if changed {
      AllStuckMeans(strat, p0, s0, units[..n]);
      var t :| 0 <= t < n && !(OnBoard(units[..n][t]) && Stuck(strat, p0, s0, units[..n][t]));
      assert units[..n][t] == units[t];
    }
  }

  /**
   * The state of one pass of `solve` before strategy k: without a change
   * the board is as the pass found it and the earlier strategies were
   * stuck on every unit; a change lowers the measure.
   */
  ghost predicate PassUpTo(p1: seq<set<int>>, s1: seq<bool>, p: seq<set<int>>, s: seq<bool>,
                           strats: seq<Strategy>, k: int, changed: bool)
  {
    |p1| == 81 && |s1| == 81 && 0 <= k <= |strats| &&
    (!changed ==> p == p1 && s == s1 && forall j :: 0 <= j < k ==> AllStuck(strats[j], p1, s1, KindUnits(Kinds(false)))) &&
    (changed ==> Measure(p, s) < Measure(p1, s1))
  }

  /** One more strategy of a pass of `solve`, whose `run_strat` returned c. */
  lemma PassStep(p1: seq<set<int>>, s1: seq<bool>, p2: seq<set<int>>, s2: seq<bool>, p: seq<set<int>>, s: seq<bool>,
                 strats: seq<Strategy>, k: int, changed: bool, c: bool)
    requires PassUpTo(p1, s1, p2, s2, strats, k, changed) && k < |strats|
    requires Evolved(p1, s1, p2, s2) && Evolved(p2, s2, p, s)
    requires !c <==> AllStuck(strats[k], p2, s2, KindUnits(Kinds(false)))
    requires !c ==> p == p2 && s == s2
    requires c ==> Measure(p, s) < Measure(p2, s2)
    ensures PassUpTo(p1, s1, p, s, strats, k + 1, changed || c)
  {
    MeasureShrinks(p2, s2, p, s);
  }

  // ---------------------------------------------------------------- won, verify and score

  /** `all(self.solved)`. */
  predicate AllSolved(s: seq<bool>)
  {
    forall k :: 0 <= k < |s| ==> s[k]
  }

  /** The union of the candidate sets of the unit's cells: `pset` in `verify`. */
  function UnionOf(p: seq<set<int>>, ids: seq<int>): set<int>
    requires OnBoard(ids) && |p| == 81
    decreases |ids|
  {
    if ids == [] then {} else UnionOf(p, ids[..|ids| - 1]) + p[ids[|ids| - 1]]
  }

  /** What `verify` asserts of a unit: every cell has one candidate, and together they make nine values. */
  predicate UnitOk(p: seq<set<int>>, ids: seq<int>)
    requires OnBoard(ids) && |p| == 81
  {
    (forall k :: 0 <= k < |ids| ==> |p[ids[k]]| == 1) && |UnionOf(p, ids)| == 9
  }

  /** Row i, column i and box i pass `verify`. */
  predicate IndexOk(p: seq<set<int>>, i: int)
    requires |p| == 81 && 0 <= i < 9
  {
    UnitOk(p, UnitCells(RowUnit, i)) && UnitOk(p, UnitCells(ColUnit, i)) && UnitOk(p, UnitCells(BoxUnit, i))
  }

  /** Every row, column and box passes `verify`. */
  predicate GridOk(p: seq<set<int>>)
    requires |p| == 81
  {
    forall i :: 0 <= i < 9 ==> IndexOk(p, i)
  }

  /** A value lies in the union exactly when some cell of the unit holds it. */
  lemma {:induction false} UnionMembers(p: seq<set<int>>, ids: seq<int>, x: int)
    requires OnBoard(ids) && |p| == 81
    ensures x in UnionOf(p, ids) <==> exists k :: 0 <= k < |ids| && x in p[ids[k]]
    decreases |ids|
  {
    if ids != [] {
      var n := |ids| - 1;
      UnionMembers(p, ids[..n], x);
      if x in UnionOf(p, ids[..n]) {
        var k :| 0 <= k < n && x in p[ids[..n][k]];
        assert x in p[ids[k]];
      }
      if exists k :: 0 <= k < |ids| && x in p[ids[k]] {
        var k :| 0 <= k < |ids| && x in p[ids[k]];
        if k < n {
          assert x in p[ids[..n][k]];
        }
      }
    }
  }

  /** The union of singleton cells has at most one value per cell, and exactly one per cell when the values differ. */
  lemma {:induction false} UnionCard(p: seq<set<int>>, ids: seq<int>)
    requires OnBoard(ids) && |p| == 81
    requires forall k :: 0 <= k < |ids| ==> |p[ids[k]]| == 1
    ensures |UnionOf(p, ids)| <= |ids|
    ensures |UnionOf(p, ids)| == |ids| <==> forall a, b :: 0 <= a < b < |ids| ==> p[ids[a]] != p[ids[b]]
    decreases |ids|
  {
    if ids != [] {
      var n := |ids| - 1;
      var pre := ids[..n];
      assert forall k :: 0 <= k < n ==> pre[k] == ids[k];
      UnionCard(p, pre);
      if forall y :: y !in p[ids[n]] {
        assert false;
      }
      var x :| x in p[ids[n]];
      OneLeft(p[ids[n]], x);
      UnionMembers(p, pre, x);
      if x in UnionOf(p, pre) {
        var k :| 0 <= k < n && x in p[pre[k]];
        OneLeft(p[ids[k]], x);
        assert UnionOf(p, ids) == UnionOf(p, pre);
      } else {
        assert |UnionOf(p, ids)| == |UnionOf(p, pre)| + 1;
        forall a | 0 <= a < n
          ensures p[ids[a]] != p[ids[n]]
        {
          assert x !in p[pre[a]];
        }
      }
    }
  }

  /**
   * On a consistent board, a unit of nine cells passes `verify` exactly
   * when its cells are solved with pairwise different values, and then
   * they hold every value 1..9.
   */
  lemma UnitOkMeans(p: seq<set<int>>, s: seq<bool>, ids: seq<int>)
    requires Consistent(p, s, -1) && OnBoard(ids) && |ids| == 9
    ensures UnitOk(p, ids) <==>
      (forall k :: 0 <= k < 9 ==> |p[ids[k]]| == 1) && (forall a, b :: 0 <= a < b < 9 ==> p[ids[a]] != p[ids[b]])
    ensures UnitOk(p, ids) ==> UnionOf(p, ids) == Digits
  {
    if forall k :: 0 <= k < 9 ==> |p[ids[k]]| == 1 {
      UnionCard(p, ids);
    }
    if UnitOk(p, ids) {
      forall x | x in UnionOf(p, ids)
        ensures x in Digits
      {
        UnionMembers(p, ids, x);
      }
      DigitsCard();
      SubsetCard(UnionOf(p, ids), Digits);
    }
  }

  /** The sum of the candidate counts lies between one and nine per cell, and is one per cell exactly when every cell has one candidate. */
  lemma {:induction false} TotalBounds(p: seq<set<int>>)
    requires forall k :: 0 <= k < |p| ==> p[k] != {} && p[k] <= Digits
    ensures |p| <= Total(p) <= 9 * |p|
    ensures Total(p) == |p| <==> forall k :: 0 <= k < |p| ==> |p[k]| == 1
    decreases |p|
  {
    if p != [] {
      var n := |p| - 1;
      assert forall k :: 0 <= k < n ==> p[..n][k] == p[k];
      TotalBounds(p[..n]);
      DigitsCard();
      SubsetCard(p[n], Digits);
    }
  }

  /** Every flag is set exactly when the count of set flags is the length. */
  lemma {:induction false} CountAll(s: seq<bool>)
    ensures SolvedCount(s) == |s| <==> AllSolved(s)
    decreases |s|
  {
    if s != [] {
      var n := |s| - 1;
      assert forall k :: 0 <= k < n ==> s[..n][k] == s[k];
      CountAll(s[..n]);
    }
  }

  /** The cells given at load time still hold their given value alone. */
  ghost predicate Givens(p: seq<set<int>>, init: seq<int>, n: int)
  {
    |p| == 81 && |init| == 81 && 0 <= n <= 81 && forall i :: 0 <= i < n && init[i] != 0 ==> p[i] == {init[i]}
  }

  /** Candidates only shrink and never run out, so a given stays given. */
  lemma GivensKept(p0: seq<set<int>>, s0: seq<bool>, p: seq<set<int>>, s: seq<bool>, init: seq<int>, n: int)
    requires Givens(p0, init, n) && Evolved(p0, s0, p, s) && Consistent(p, s, -1)
    ensures Givens(p, init, n)
  {
    forall i | 0 <= i < n && init[i] != 0
      ensures p[i] == {init[i]}
    {
      Only(p[i], init[i]);
    }
  }
}
