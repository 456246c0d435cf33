/**
 * What the two copies of the Dominosa board (`logicpuzzles/dominosa/dominosa.py`
 * and `dominosa/dominosa.py`) have in common: the domino set, one pass of the
 * greedy random tiling of `_init_random`, writing the shuffled dominoes onto
 * the tiling, and the solution check of `verify`. The copies differ only in
 * how `val` and `set` treat negative coordinates, so the cell lookup is a
 * parameter of the check.
 *
 * A board is a grid of cells that are empty (`None`) while the tiling is
 * built, then hold a domino number, then a pip value.
 */
module Dominoes {
  import opened Py
  import opened Grid
  import GridFacts

  type Cells = seq<seq<Option<int>>>
  type Tile = (int, int)
  /** `(r, c, i)`: a domino on (r, c) and the cell below it (i == 0) or to its right. */
  type Placement = (int, int, int)
  type Loc = (CellIdx, CellIdx)

  // ---------------------------------------------------------------- the domino set

  function DsRow(i: int, n: int): (s: seq<Tile>)
    ensures |s| == RangeLen(n - i)
    ensures forall k :: 0 <= k < |s| ==> s[k] == (i, i + k)
  {
    seq(RangeLen(n - i), k => (i, i + k))
  }

  function DsFrom(i: int, n: int): seq<Tile>
    decreases n - i
  {
    if i >= n then [] else DsRow(i, n) + DsFrom(i + 1, n)
  }

  /** `list(it.combinations_with_replacement(range(n), 2))`. */
  function Ds(n: int): seq<Tile>
  {
    DsFrom(0, n)
  }

  predicate LexLess(a: Tile, b: Tile)
  {
    a.0 < b.0 || (a.0 == b.0 && a.1 < b.1)
  }

  /** The pairs listed from row i on are exactly those with i <= a <= b < n. */
  lemma {:induction false} DsFromMembers(i: int, n: int)
    ensures forall t :: t in DsFrom(i, n) <==> i <= t.0 <= t.1 < n
    decreases n - i
  {
    if i < n {
      DsFromMembers(i + 1, n);
      forall t: Tile | i <= t.0 <= t.1 < n
        ensures t in DsFrom(i, n)
      {
        if t.0 == i {
          assert DsRow(i, n)[t.1 - i] == t;
        }
      }
    }
  }

  /** The pairs come out in strictly increasing lexicographic order. */
  lemma {:induction false} DsFromSorted(i: int, n: int)
    ensures forall a, b :: 0 <= a < b < |DsFrom(i, n)| ==> LexLess(DsFrom(i, n)[a], DsFrom(i, n)[b])
    decreases n - i
  {
    if i < n {
      DsFromSorted(i + 1, n);
      DsFromMembers(i + 1, n);
      var row, rest := DsRow(i, n), DsFrom(i + 1, n);
      var s := row + rest;
      forall a, b | 0 <= a < b < |s|
        ensures LexLess(s[a], s[b])
      {
        if b < |row| {
        } else if a < |row| {
          assert s[b] == rest[b - |row|];
          assert s[b] in rest;
        } else {
          assert s[a] == rest[a - |row|] && s[b] == rest[b - |row|];
        }
      }
    }
  }

  /** Row i onwards holds (n-i)(n-i+1)/2 pairs. */
  lemma {:induction false} DsFromCount(i: int, n: int)
    requires i <= n
    ensures 2 * |DsFrom(i, n)| == (n - i) * (n - i + 1)
    decreases n - i
  {
    if i < n {
      DsFromCount(i + 1, n);
      var m := n - i;
      assert (m - 1) * m + 2 * m == m * (m + 1);
    }
  }

  /** `ds` is every pair a <= b below n, in increasing order, n(n+1)/2 of them. */
  lemma DsFacts(n: int)
    ensures forall t :: t in Ds(n) <==> 0 <= t.0 <= t.1 < n
    ensures forall a, b :: 0 <= a < b < |Ds(n)| ==> LexLess(Ds(n)[a], Ds(n)[b])
    ensures 2 * |Ds(n)| == RangeLen(n) * (RangeLen(n) + 1)
  {
    DsFromMembers(0, n);
    DsFromSorted(0, n);
    if n >= 0 {
      DsFromCount(0, n);
    }
  }

  // ---------------------------------------------------------------- boards and tilings

  predicate Shaped(b: Cells, nR: nat, nC: nat)
  {
    |b| == nR && forall r :: 0 <= r < nR ==> |b[r]| == nC
  }

  /** `val(r, c)` for r, c >= 0, the only coordinates the tiling asks about: the cell, or -1 outside the board. */
  function Probe(b: Cells, nR: nat, nC: nat, p: CellIdx): Option<int>
    requires Shaped(b, nR, nC)
  {
    if FaceInRange(nR, nC, p) then b[p.0][p.1] else Some(-1)
  }

  function SetAt(b: Cells, nR: nat, nC: nat, p: CellIdx, v: Option<int>): (b': Cells)
    requires Shaped(b, nR, nC) && FaceInRange(nR, nC, p)
    ensures Shaped(b', nR, nC) && b'[p.0][p.1] == v
    ensures forall r, c :: 0 <= r < nR && 0 <= c < nC && (r, c) != p ==> b'[r][c] == b[r][c]
  {
    b[p.0 := b[p.0][p.1 := v]]
  }

  /** The partner of a domino's first cell: below it or to its right. */
  function Partner(p: CellIdx, down: bool): CellIdx
  {
    if down then (p.0 + 1, p.1) else (p.0, p.1 + 1)
  }

  /**
   * `di_to_locs` as a list indexed by domino number: domino d covers two
   * adjacent cells that both carry d, and every cell carrying a number
   * is one of the two cells of that domino.
   */
  ghost predicate Labelled(b: Cells, nR: nat, nC: nat, locs: seq<Loc>)
    requires Shaped(b, nR, nC)
  {
    (forall d :: 0 <= d < |locs| ==>
       FaceInRange(nR, nC, locs[d].0) && FaceInRange(nR, nC, locs[d].1) &&
       (locs[d].1 == Partner(locs[d].0, true) || locs[d].1 == Partner(locs[d].0, false)) &&
       b[locs[d].0.0][locs[d].0.1] == Some(d) && b[locs[d].1.0][locs[d].1.1] == Some(d)) &&
    (forall r, c :: 0 <= r < nR && 0 <= c < nC && b[r][c].Some? ==>
       0 <= b[r][c].value < |locs| &&
       ((r, c) == locs[b[r][c].value].0 || (r, c) == locs[b[r][c].value].1))
  }

  /** Every cell before (r, c) in row-major order is covered. */
  ghost predicate FullBefore(b: Cells, nR: nat, nC: nat, r: int, c: int)
    requires Shaped(b, nR, nC)
  {
    forall i, j :: 0 <= i < nR && 0 <= j < nC && (i < r || (i == r && j < c)) ==> b[i][j].Some?
  }

  ghost predicate Counted(b: Cells, nR: nat, nC: nat, filled: set<CellIdx>, locs: seq<Loc>)
    requires Shaped(b, nR, nC)
  {
    (forall p :: p in filled <==> FaceInRange(nR, nC, p) && b[p.0][p.1].Some?) &&
    |filled| == 2 * |locs|
  }

  /** Covering two empty adjacent cells with the next domino number keeps the labelling. */
  lemma PlaceKeepsLabelled(b: Cells, nR: nat, nC: nat, locs: seq<Loc>, p: CellIdx, down: bool)
    requires Shaped(b, nR, nC) && Labelled(b, nR, nC, locs)
    requires FaceInRange(nR, nC, p) && FaceInRange(nR, nC, Partner(p, down))
    requires b[p.0][p.1].None? && Probe(b, nR, nC, Partner(p, down)).None?
    ensures var q := Partner(p, down);
            var b' := SetAt(SetAt(b, nR, nC, p, Some(|locs|)), nR, nC, q, Some(|locs|));
            Labelled(b', nR, nC, locs + [(p, q)])
  {
    var q := Partner(p, down);
    var d := |locs|;
    var b1 := SetAt(b, nR, nC, p, Some(d));
    var b' := SetAt(b1, nR, nC, q, Some(d));
    var locs' := locs + [(p, q)];
    forall e | 0 <= e < |locs'|
      ensures FaceInRange(nR, nC, locs'[e].0) && FaceInRange(nR, nC, locs'[e].1)
      ensures locs'[e].1 == Partner(locs'[e].0, true) || locs'[e].1 == Partner(locs'[e].0, false)
      ensures b'[locs'[e].0.0][locs'[e].0.1] == Some(e) && b'[locs'[e].1.0][locs'[e].1.1] == Some(e)
    {
      if e < d {
        assert locs'[e] == locs[e];
        var u, w := locs[e].0, locs[e].1;
        assert b[u.0][u.1] == Some(e) && b[w.0][w.1] == Some(e);
        assert u != p && u != q && w != p && w != q;
      }
    }
    forall r, c | 0 <= r < nR && 0 <= c < nC && b'[r][c].Some?
      ensures 0 <= b'[r][c].value < |locs'|
      ensures (r, c) == locs'[b'[r][c].value].0 || (r, c) == locs'[b'[r][c].value].1
    {
      if (r, c) != p && (r, c) != q {
        assert b'[r][c] == b[r][c];
        assert locs'[b[r][c].value] == locs[b[r][c].value];
      }
    }
  }

  /** Every covered cell of b is still covered in b'. */
  ghost predicate Grows(b: Cells, b': Cells, nR: nat, nC: nat)
    requires Shaped(b, nR, nC) && Shaped(b', nR, nC)
  {
    forall i, j :: 0 <= i < nR && 0 <= j < nC && b[i][j].Some? ==> b'[i][j].Some?
  }

  /** Placing a domino keeps the labelling and the count of covered cells, and covers its first cell. */
  lemma PlaceStep(b: Cells, nR: nat, nC: nat, filled: set<CellIdx>, locs: seq<Loc>, p: CellIdx, down: bool)
    requires Shaped(b, nR, nC) && Labelled(b, nR, nC, locs) && Counted(b, nR, nC, filled, locs)
    requires FaceInRange(nR, nC, p) && FaceInRange(nR, nC, Partner(p, down))
    requires b[p.0][p.1].None? && Probe(b, nR, nC, Partner(p, down)).None?
    ensures var q := Partner(p, down);
            var b' := SetAt(SetAt(b, nR, nC, p, Some(|locs|)), nR, nC, q, Some(|locs|));
            Labelled(b', nR, nC, locs + [(p, q)]) && Counted(b', nR, nC, filled + {p, q}, locs + [(p, q)]) &&
            Grows(b, b', nR, nC) && b'[p.0][p.1].Some?
  {
    PlaceKeepsLabelled(b, nR, nC, locs, p, down);
    CountStep(b, nR, nC, filled, locs, p, Partner(p, down));
  }

  /** Covering the first free cell (r, c) and its free partner keeps every invariant of the pass and moves past (r, c). */
  lemma PlaceAt(b: Cells, nR: nat, nC: nat, filled: set<CellIdx>, locs: seq<Loc>, r: nat, c: nat, down: bool)
    requires Shaped(b, nR, nC) && Labelled(b, nR, nC, locs) && Counted(b, nR, nC, filled, locs)
    requires r < nR && c < nC && FullBefore(b, nR, nC, r, c)
    requires b[r][c].None? && Probe(b, nR, nC, Partner((r, c), down)).None?
    ensures var p, q := (r, c), Partner((r, c), down);
            FaceInRange(nR, nC, q) &&
            var b' := SetAt(SetAt(b, nR, nC, p, Some(|locs|)), nR, nC, q, Some(|locs|));
            Labelled(b', nR, nC, locs + [(p, q)]) && Counted(b', nR, nC, filled + {p, q}, locs + [(p, q)]) &&
            FullBefore(b', nR, nC, r, c + 1)
  {
    var p, q := (r, c), Partner((r, c), down);
    assert FaceInRange(nR, nC, q);
    PlaceStep(b, nR, nC, filled, locs, p, down);
    var b' := SetAt(SetAt(b, nR, nC, p, Some(|locs|)), nR, nC, q, Some(|locs|));
    FullBeforeNext(b, b', nR, nC, r, c);
  }

  lemma CountStep(b: Cells, nR: nat, nC: nat, filled: set<CellIdx>, locs: seq<Loc>, p: CellIdx, q: CellIdx)
    requires Shaped(b, nR, nC) && Counted(b, nR, nC, filled, locs)
    requires FaceInRange(nR, nC, p) && FaceInRange(nR, nC, q) && p != q
    requires b[p.0][p.1].None? && b[q.0][q.1].None?
    ensures var b' := SetAt(SetAt(b, nR, nC, p, Some(|locs|)), nR, nC, q, Some(|locs|));
            Counted(b', nR, nC, filled + {p, q}, locs + [(p, q)]) && Grows(b, b', nR, nC) && b'[p.0][p.1].Some?
  {
    var b': Cells := SetAt(SetAt(b, nR, nC, p, Some(|locs|)), nR, nC, q, Some(|locs|));
    assert p !in filled && q !in filled;
    assert |filled + {p, q}| == |filled| + 2;
    forall x: CellIdx
      ensures x in filled + {p, q} <==> FaceInRange(nR, nC, x) && b'[x.0][x.1].Some?
    {
      if x != p && x != q && FaceInRange(nR, nC, x) {
        assert b'[x.0][x.1] == b[x.0][x.1];
      }
    }
  }

  lemma FullBeforeNext(b: Cells, b': Cells, nR: nat, nC: nat, r: int, c: int)
    requires Shaped(b, nR, nC) && Shaped(b', nR, nC)
    requires FullBefore(b, nR, nC, r, c) && Grows(b, b', nR, nC)
    requires 0 <= r < nR && 0 <= c < nC && b'[r][c].Some?
    ensures FullBefore(b', nR, nC, r, c + 1)
  {
  }

  lemma FullBeforeRow(b: Cells, nR: nat, nC: nat, r: int)
    requires Shaped(b, nR, nC) && FullBefore(b, nR, nC, r, nC)
    ensures FullBefore(b, nR, nC, r + 1, 0)
  {
  }

  /** A board covered everywhere has 2 |locs| == nR nC. */
  lemma FullCount(b: Cells, nR: nat, nC: nat, filled: set<CellIdx>, locs: seq<Loc>)
    requires Shaped(b, nR, nC) && Counted(b, nR, nC, filled, locs) && FullBefore(b, nR, nC, nR, 0)
    ensures forall r, c :: 0 <= r < nR && 0 <= c < nC ==> b[r][c].Some?
    ensures 2 * |locs| == nR * nC
  {
    assert filled == GridFacts.Rect(nR, nC) by {
      forall p | p in GridFacts.Rect(nR, nC)
        ensures p in filled
      {
        assert FaceInRange(nR, nC, p);
      }
    }
    GridFacts.RectCard(nR, nC);
  }

  /**
   * One pass of the `while True` loop of `_init_random`: in row-major
   * order every empty cell is paired with the empty cell below it or to
   * its right, the pass failing when neither is empty. When both are,
   * `random.choice([0, 1])` decides; `pickDown` holds the cells where it
   * picks the cell below.
   */
  method TryTiling(nR: nat, nC: nat, pickDown: set<CellIdx>) returns (success: bool, b: Cells, locs: seq<Loc>)
    ensures Shaped(b, nR, nC) && Labelled(b, nR, nC, locs)
    ensures success ==> forall r, c :: 0 <= r < nR && 0 <= c < nC ==> b[r][c].Some?
    ensures success ==> 2 * |locs| == nR * nC
  {
    b := seq(nR, _ => seq(nC, _ => None));
    locs := [];
    ghost var filled: set<CellIdx> := {};
    success := true;
    var r := 0;
    while r < nR
      invariant 0 <= r <= nR
      invariant Shaped(b, nR, nC) && Labelled(b, nR, nC, locs)
      invariant Counted(b, nR, nC, filled, locs)
      invariant success && FullBefore(b, nR, nC, r, 0)
    {
      var c := 0;
      while c < nC
        invariant 0 <= c <= nC
        invariant Shaped(b, nR, nC) && Labelled(b, nR, nC, locs)
        invariant Counted(b, nR, nC, filled, locs)
        invariant success && FullBefore(b, nR, nC, r, c)
      {
        var placed;
        placed, b, locs, filled := TileCell(b, nR, nC, locs, filled, r, c, pickDown);
        if !placed {
          success := false;
          break;
        }
        c := c + 1;
      }
      if !success {
        break;
      }
      FullBeforeRow(b, nR, nC, r);
      r := r + 1;
    }
    if success {
      FullCount(b, nR, nC, filled, locs);
    }
  }

  /**
   * One cell of a pass: a free cell is paired with the free cell below or
   * to its right (both free: `pickDown` decides), and the pass fails when
   * neither is free; a covered cell is left alone.
   */
  method TileCell(b: Cells, nR: nat, nC: nat, locs: seq<Loc>, ghost filled: set<CellIdx>, r: nat, c: nat,
                  pickDown: set<CellIdx>)
    returns (ok: bool, b': Cells, locs': seq<Loc>, ghost filled': set<CellIdx>)
    requires Shaped(b, nR, nC) && Labelled(b, nR, nC, locs) && Counted(b, nR, nC, filled, locs)
    requires r < nR && c < nC && FullBefore(b, nR, nC, r, c)
    ensures Shaped(b', nR, nC) && Labelled(b', nR, nC, locs') && Counted(b', nR, nC, filled', locs')
    ensures ok ==> FullBefore(b', nR, nC, r, c + 1)
  {
    ok, b', locs', filled' := true, b, locs, filled;
    if b[r][c].None? {
      var down := Probe(b, nR, nC, (r + 1, c)).None?;
      var right := Probe(b, nR, nC, (r, c + 1)).None?;
      if !down && !right {
        return false, b, locs, filled;
      }
      var pickBelow := if down && right then (r, c) in pickDown else down;
      var p, q := (r, c), Partner((r, c), pickBelow);
      PlaceAt(b, nR, nC, filled, locs, r, c, pickBelow);
      b' := SetAt(SetAt(b, nR, nC, p, Some(|locs|)), nR, nC, q, Some(|locs|));
      locs', filled' := locs + [(p, q)], filled + {p, q};
    } else {
      FullBeforeNext(b, b, nR, nC, r, c);
    }
  }

  /**
   * The `while True` loop of `_init_random`: passes are tried with fresh
   * choices until one tiles the whole board. `attempts` are the choices
   * of the successive passes; when they run out before a pass succeeds
   * the result is false (the source would keep drawing).
   */
  method RandomTiling(nR: nat, nC: nat, attempts: seq<set<CellIdx>>) returns (done: bool, b: Cells, locs: seq<Loc>)
    ensures Shaped(b, nR, nC) && Labelled(b, nR, nC, locs)
    ensures done ==> forall r, c :: 0 <= r < nR && 0 <= c < nC ==> b[r][c].Some?
    ensures done ==> 2 * |locs| == nR * nC
    ensures attempts == [] ==> !done
  {
    done := false;
    b := seq(nR, _ => seq(nC, _ => None));
    locs := [];
    var k := 0;
    while k < |attempts| && !done
      invariant 0 <= k <= |attempts|
      invariant Shaped(b, nR, nC) && Labelled(b, nR, nC, locs)
      invariant done ==> forall r, c :: 0 <= r < nR && 0 <= c < nC ==> b[r][c].Some?
      invariant done ==> 2 * |locs| == nR * nC
      invariant k == 0 ==> !done
    {
      done, b, locs := TryTiling(nR, nC, attempts[k]);
      k := k + 1;
    }
  }

  /** The cell values of a domino laid down the way round `random.choice` decides. */
  function Oriented(t: Tile, flip: bool): Tile
  {
    if flip then (t.1, t.0) else t
  }

  /** `sorted([a, b])` on two ints. */
  function SortPair(a: int, b: int): (t: Tile)
    ensures t.0 <= t.1
    ensures (t.0 == a && t.1 == b) || (t.0 == b && t.1 == a)
  {
    if b < a then (b, a) else (a, b)
  }

  /** Sorting the cells of a laid domino gives the domino back, whichever way round it lies. */
  lemma SortOriented(t: Tile, flip: bool)
    requires t.0 <= t.1
    ensures SortPair(Oriented(t, flip).0, Oriented(t, flip).1) == t
  {
  }

  /** The two cells of domino d differ from each other and from the cells of every other domino. */
  lemma LocsApart(b: Cells, nR: nat, nC: nat, locs: seq<Loc>, d: int)
    requires Shaped(b, nR, nC) && Labelled(b, nR, nC, locs) && 0 <= d < |locs|
    ensures locs[d].0 != locs[d].1
    ensures forall e :: 0 <= e < |locs| && e != d ==>
              locs[e].0 != locs[d].0 && locs[e].0 != locs[d].1 && locs[e].1 != locs[d].0 && locs[e].1 != locs[d].1
    ensures forall r, c :: 0 <= r < nR && 0 <= c < nC && b[r][c].Some? && b[r][c].value != d ==>
              (r, c) != locs[d].0 && (r, c) != locs[d].1
  {
  }

  /**
   * The second half of `_init_random`: domino d of the shuffled list is
   * written onto the two cells of tiling position d, reversed when
   * `flips[d]`. Running out of tiling positions is the KeyError of
   * `di_to_locs[di]`.
   */
  method WriteTiles(b: Cells, nR: nat, nC: nat, locs: seq<Loc>, tiles: seq<Tile>, flips: seq<bool>)
    returns (res: Result<Cells>)
    requires Shaped(b, nR, nC) && Labelled(b, nR, nC, locs)
    requires |flips| == |tiles|
    ensures res.Err? <==> |tiles| > |locs|
    ensures res.Err? ==> res.error == KeyError
    ensures res.Ok? ==> Shaped(res.value, nR, nC)
    ensures res.Ok? ==> forall d :: 0 <= d < |tiles| ==>
              var t := Oriented(tiles[d], flips[d]);
              res.value[locs[d].0.0][locs[d].0.1] == Some(t.0) &&
              res.value[locs[d].1.0][locs[d].1.1] == Some(t.1)
    ensures res.Ok? ==> forall r, c :: 0 <= r < nR && 0 <= c < nC && b[r][c].Some? && b[r][c].value >= |tiles| ==>
              res.value[r][c] == b[r][c]
  {
    var cur := b;
    for d := 0 to |tiles|
      invariant Shaped(cur, nR, nC)
      invariant d <= |locs|
      invariant forall e :: 0 <= e < d && e < |locs| ==>
                  var t := Oriented(tiles[e], flips[e]);
                  cur[locs[e].0.0][locs[e].0.1] == Some(t.0) && cur[locs[e].1.0][locs[e].1.1] == Some(t.1)
      invariant forall r, c :: 0 <= r < nR && 0 <= c < nC && b[r][c].Some? && b[r][c].value >= d ==>
                  cur[r][c] == b[r][c]
    {
      if d >= |locs| {
        return Err(KeyError);
      }
      var t := Oriented(tiles[d], flips[d]);
      var u, w := locs[d].0, locs[d].1;
      LocsApart(b, nR, nC, locs, d);
      var next := SetAt(SetAt(cur, nR, nC, u, Some(t.0)), nR, nC, w, Some(t.1));
      forall e | 0 <= e < d
        ensures var t := Oriented(tiles[e], flips[e]);
                next[locs[e].0.0][locs[e].0.1] == Some(t.0) && next[locs[e].1.0][locs[e].1.1] == Some(t.1)
      {
        assert locs[e].0 != u && locs[e].0 != w && locs[e].1 != u && locs[e].1 != w;
      }
      forall r, c | 0 <= r < nR && 0 <= c < nC && b[r][c].Some? && b[r][c].value >= d + 1
        ensures next[r][c] == b[r][c]
      {
        assert (r, c) != u && (r, c) != w;
      }
      cur := next;
    }
    res := Ok(cur);
  }

  // ---------------------------------------------------------------- checking a solution

  /** The second cell of a placement: below for direction 0, to the right otherwise. */
  function Other(p: Placement): CellIdx
  {
    if p.2 == 0 then (p.0 + 1, p.1) else (p.0, p.1 + 1)
  }

  /** `sorted([val(r, c), val(*other)])`; sorting `None` against a value raises TypeError. */
  function PlacementTile(val: CellIdx -> Result<Option<int>>, p: Placement): Result<Tile>
  {
    var v0 := val((p.0, p.1));
    if v0.Err? then Err(v0.error)
    else
      var v1 := val(Other(p));
      if v1.Err? then Err(v1.error)
      else if v0.value.None? || v1.value.None? then Err(TypeError)
      else Ok(SortPair(v0.value.value, v1.value.value))
  }

  /** Python's `board[r][c]` on the nR x nC count grid: a negative index counts from the end. */
  function Slot(p: CellIdx, nR: nat, nC: nat): (s: Option<CellIdx>)
    ensures s.Some? ==> FaceInRange(nR, nC, s.value)
    ensures FaceInRange(nR, nC, p) ==> s == Some(p)
  {
    var i := PyIndex(p.0, nR);
    var j := PyIndex(p.1, nC);
    if i.None? || j.None? then None else Some((i.value, j.value))
  }

  /**
   * The loop of `verify` over `dlocs`: the tiles collected and the two
   * count-grid slots each placement increments, or the first error.
   */
  function Scan(val: CellIdx -> Result<Option<int>>, nR: nat, nC: nat, ps: seq<Placement>)
    : (r: Result<(seq<Tile>, seq<CellIdx>)>)
    ensures r.Ok? ==> |r.value.0| == |ps| && |r.value.1| == 2 * |ps|
    decreases |ps|
  {
    if ps == [] then Ok(([], []))
    else
      var prev := Scan(val, nR, nC, ps[..|ps| - 1]);
      var p := ps[|ps| - 1];
      var t := PlacementTile(val, p);
      var s0 := Slot((p.0, p.1), nR, nC);
      var s1 := Slot(Other(p), nR, nC);
      if prev.Err? then prev
      else if t.Err? then Err(t.error)
      else if s0.None? || s1.None? then Err(IndexError)
      else Ok((prev.value.0 + [t.value], prev.value.1 + [s0.value, s1.value]))
  }

  /**
   * A scan fails exactly when some placement reads an unfilled or
   * off-board cell; when it succeeds, placement k contributed tile k and
   * slots 2k and 2k + 1.
   */
  lemma {:induction false} ScanFacts(val: CellIdx -> Result<Option<int>>, nR: nat, nC: nat, ps: seq<Placement>)
    ensures var r := Scan(val, nR, nC, ps);
            r.Ok? ==> forall k :: 0 <= k < |ps| ==>
              PlacementTile(val, ps[k]) == Ok(r.value.0[k]) &&
              Slot((ps[k].0, ps[k].1), nR, nC) == Some(r.value.1[2 * k]) &&
              Slot(Other(ps[k]), nR, nC) == Some(r.value.1[2 * k + 1])
    ensures Scan(val, nR, nC, ps).Err? <==> exists k :: 0 <= k < |ps| && PlacementBad(val, nR, nC, ps[k])
    decreases |ps|
  {
    if ps != [] {
      var q := ps[..|ps| - 1];
      ScanFacts(val, nR, nC, q);
      assert forall k :: 0 <= k < |q| ==> q[k] == ps[k];
      if Scan(val, nR, nC, q).Err? {
        var k :| 0 <= k < |q| && PlacementBad(val, nR, nC, q[k]);
        assert PlacementBad(val, nR, nC, ps[k]);
      } else if PlacementBad(val, nR, nC, ps[|ps| - 1]) {
      } else {
        forall k | 0 <= k < |ps|
          ensures !PlacementBad(val, nR, nC, ps[k])
        {
          if k < |q| {
            assert !PlacementBad(val, nR, nC, q[k]);
          }
        }
      }
    }
  }

  /** A placement `verify` rejects while scanning: an unreadable cell, or a slot off the board. */
  predicate PlacementBad(val: CellIdx -> Result<Option<int>>, nR: nat, nC: nat, p: Placement)
  {
    PlacementTile(val, p).Err? || Slot((p.0, p.1), nR, nC).None? || Slot(Other(p), nR, nC).None?
  }

  predicate PairwiseDistinct(ts: seq<Tile>)
  {
    forall i, j :: 0 <= i < j < |ts| ==> ts[i] != ts[j]
  }

  /** Every cell of the nR x nC grid occurs exactly once among the slots. */
  predicate CoveredOnce(slots: seq<CellIdx>, nR: nat, nC: nat)
  {
    forall r, c :: 0 <= r < nR && 0 <= c < nC ==> multiset(slots)[(r, c)] == 1
  }

  /**
   * `verify(dlocs)` on an N x (N+1) board: the number of placements,
   * then the placements one by one, then single coverage, then distinct
   * tiles. `len(dlocs) == N*(N+1)/2` compares with a float, so it holds
   * exactly when twice the length is N(N+1).
   */
  function Check(val: CellIdx -> Result<Option<int>>, n: int, nR: nat, nC: nat, ps: seq<Placement>): Result<()>
  {
    if 2 * |ps| != n * (n + 1) then Err(AssertionError)
    else
      var s := Scan(val, nR, nC, ps);
      if s.Err? then Err(s.error)
      else if !CoveredOnce(s.value.1, nR, nC) then Err(AssertionError)
      else if !PairwiseDistinct(s.value.0) then Err(AssertionError)
      else Ok(())
  }

  /**
   * A check passes exactly when there are N(N+1)/2 placements, every
   * placement reads two filled cells whose slots lie on the board, every
   * cell is covered exactly once and no two placements carry the same tile.
   */
  lemma CheckMeaning(val: CellIdx -> Result<Option<int>>, n: int, nR: nat, nC: nat, ps: seq<Placement>)
    ensures Check(val, n, nR, nC, ps).Ok? <==>
              2 * |ps| == n * (n + 1) &&
              (forall k :: 0 <= k < |ps| ==>
                 (PlacementTile(val, ps[k]).Ok? &&
                  Slot((ps[k].0, ps[k].1), nR, nC).Some? && Slot(Other(ps[k]), nR, nC).Some?)) &&
              CoveredOnce(Slots(ps, nR, nC), nR, nC) &&
              PairwiseDistinct(Tiles(val, ps))
  {
    ScanFacts(val, nR, nC, ps);
    if Scan(val, nR, nC, ps).Ok? {
      ScanSlots(val, nR, nC, ps);
      ScanTiles(val, nR, nC, ps);
    }
  }

  /** The slots of well-placed placements, two per placement. */
  function Slots(ps: seq<Placement>, nR: nat, nC: nat): (s: seq<CellIdx>)
    ensures |s| == 2 * |ps|
  {
    seq(2 * |ps|, i requires 0 <= i < 2 * |ps| =>
      var p := ps[i / 2];
      var sl := if i % 2 == 0 then Slot((p.0, p.1), nR, nC) else Slot(Other(p), nR, nC);
      if sl.Some? then sl.value else (-1, -1))
  }

  /** The tiles of readable placements. */
  function Tiles(val: CellIdx -> Result<Option<int>>, ps: seq<Placement>): (s: seq<Tile>)
    ensures |s| == |ps|
  {
    seq(|ps|, k requires 0 <= k < |ps| => var t := PlacementTile(val, ps[k]); if t.Ok? then t.value else (0, 0))
  }

  /** The loop of `verify` that collects the tiles and fills the count grid. */
  method ScanPlacements(val: CellIdx -> Result<Option<int>>, nR: nat, nC: nat, ps: seq<Placement>)
    returns (res: Result<seq<Tile>>, counts: seq<seq<int>>, ghost slots: seq<CellIdx>)
    ensures res.Err? ==> Scan(val, nR, nC, ps) == Err(res.error)
    ensures res.Ok? ==> Scan(val, nR, nC, ps) == Ok((res.value, slots))
    ensures res.Ok? ==> |counts| == nR && forall r :: 0 <= r < nR ==> |counts[r]| == nC
    ensures res.Ok? ==> forall r, c :: 0 <= r < nR && 0 <= c < nC ==> counts[r][c] == multiset(slots)[(r, c)]
  {
    var tiles: seq<Tile> := [];
    slots := [];
    counts := seq(nR, _ => seq(nC, _ => 0));
    for k := 0 to |ps|
      invariant Scan(val, nR, nC, ps[..k]) == Ok((tiles, slots))
      invariant CountsMatch(counts, nR, nC, slots)
    {
      var p := ps[k];
      assert ps[..k + 1][..k] == ps[..k];
      var t := PlacementTile(val, p);
      if t.Err? {
        ScanErrorExtends(val, nR, nC, ps, k + 1);
        return Err(t.error), counts, slots;
      }
      var s0, s1 := Slot((p.0, p.1), nR, nC), Slot(Other(p), nR, nC);
      if s0.None? || s1.None? {
        ScanErrorExtends(val, nR, nC, ps, k + 1);
        return Err(IndexError), counts, slots;
      }
      BumpTwice(counts, nR, nC, slots, s0.value, s1.value);
      counts := Bump(Bump(counts, nR, nC, s0.value), nR, nC, s1.value);
      tiles := tiles + [t.value];
      slots := slots + [s0.value, s1.value];
    }
    assert ps[..|ps|] == ps;
    res := Ok(tiles);
  }

  /** The count grid is nR x nC and holds, for each cell, how often it occurs among the slots. */
  ghost predicate CountsMatch(counts: seq<seq<int>>, nR: nat, nC: nat, slots: seq<CellIdx>)
  {
    |counts| == nR && (forall r :: 0 <= r < nR ==> |counts[r]| == nC) &&
    forall r, c :: 0 <= r < nR && 0 <= c < nC ==> counts[r][c] == multiset(slots)[(r, c)]
  }

  /** `board[r][c] += 1` on the count grid. */
  function Bump(counts: seq<seq<int>>, nR: nat, nC: nat, p: CellIdx): (r: seq<seq<int>>)
    requires |counts| == nR && (forall i :: 0 <= i < nR ==> |counts[i]| == nC) && FaceInRange(nR, nC, p)
    ensures |r| == nR && forall i :: 0 <= i < nR ==> |r[i]| == nC
    ensures forall i, j :: 0 <= i < nR && 0 <= j < nC ==> r[i][j] == counts[i][j] + (if (i, j) == p then 1 else 0)
  {
    counts[p.0 := counts[p.0][p.1 := counts[p.0][p.1] + 1]]
  }

  /** Incrementing the slots of a placement keeps the count grid equal to the slot multiplicities. */
  lemma BumpTwice(counts: seq<seq<int>>, nR: nat, nC: nat, slots: seq<CellIdx>, u: CellIdx, w: CellIdx)
    requires CountsMatch(counts, nR, nC, slots)
    requires FaceInRange(nR, nC, u) && FaceInRange(nR, nC, w)
    ensures CountsMatch(Bump(Bump(counts, nR, nC, u), nR, nC, w), nR, nC, slots + [u, w])
  {
    assert multiset(slots + [u, w]) == multiset(slots) + multiset{u, w};
  }

  /** `all(all(v == 1 for v in board[r]) for r in range(NR))`. */
  method AllOnes(counts: seq<seq<int>>, nR: nat, nC: nat) returns (ok: bool)
    requires |counts| == nR && forall r :: 0 <= r < nR ==> |counts[r]| == nC
    ensures ok <==> forall i, j :: 0 <= i < nR && 0 <= j < nC ==> counts[i][j] == 1
  {
    for r := 0 to nR
      invariant forall i, j :: 0 <= i < r && 0 <= j < nC ==> counts[i][j] == 1
    {
      for c := 0 to nC
        invariant forall j :: 0 <= j < c ==> counts[r][j] == 1
      {
        if counts[r][c] != 1 {
          return false;
        }
      }
    }
    return true;
  }

  /** `for t0, t1 in it.combinations(tiles, 2): assert t0 != t1`. */
  method AllDistinct(tiles: seq<Tile>) returns (ok: bool)
    ensures ok <==> PairwiseDistinct(tiles)
  {
    for i := 0 to |tiles|
      invariant forall a, b :: 0 <= a < i && a < b < |tiles| ==> tiles[a] != tiles[b]
    {
      for j := i + 1 to |tiles|
        invariant forall b :: i < b < j ==> tiles[i] != tiles[b]
      {
        if tiles[i] == tiles[j] {
          return false;
        }
      }
    }
    return true;
  }

  /** `verify`: the number of placements, the scan, single coverage, distinct tiles. */
  method Verify(val: CellIdx -> Result<Option<int>>, n: int, nR: nat, nC: nat, ps: seq<Placement>)
    returns (res: Result<()>)
    ensures res == Check(val, n, nR, nC, ps)
  {
    if 2 * |ps| != n * (n + 1) {
      return Err(AssertionError);
    }
    var scanned, counts, slots := ScanPlacements(val, nR, nC, ps);
    if scanned.Err? {
      return Err(scanned.error);
    }
    var once := AllOnes(counts, nR, nC);
    if !once {
      return Err(AssertionError);
    }
    var distinct := AllDistinct(scanned.value);
    if !distinct {
      return Err(AssertionError);
    }
    res := Ok(());
  }

  /** An error in the first k placements is the error of the whole scan. */
  lemma {:induction false} ScanErrorExtends(val: CellIdx -> Result<Option<int>>, nR: nat, nC: nat, ps: seq<Placement>, k: nat)
    requires k <= |ps| && Scan(val, nR, nC, ps[..k]).Err?
    ensures Scan(val, nR, nC, ps) == Scan(val, nR, nC, ps[..k])
    decreases |ps| - k
  {
    if k < |ps| {
      assert ps[..k + 1][..k] == ps[..k];
      ScanErrorExtends(val, nR, nC, ps, k + 1);
    } else {
      assert ps[..k] == ps;
    }
  }

  // ---------------------------------------------------------------- generated puzzles verify

  /** The placements of a tiling in the `(r, c, i)` form `verify` takes. */
  function Solution(locs: seq<Loc>): (ps: seq<Placement>)
    ensures |ps| == |locs|
  {
    seq(|locs|, d requires 0 <= d < |locs| =>
      (locs[d].0.0, locs[d].0.1, if locs[d].1 == Partner(locs[d].0, true) then 0 else 1))
  }

  /** A sequence without repetitions holds each element once. */
  lemma {:induction false} DistinctMultiset(s: seq<Tile>, t: Tile)
    requires forall a, b :: 0 <= a < b < |s| ==> s[a] != s[b]
    ensures multiset(s)[t] <= 1
  {
    if s != [] {
      var init := s[..|s| - 1];
      DistinctMultiset(init, t);
      assert s == init + [s[|s| - 1]];
      if t == s[|s| - 1] {
        assert t !in init;
      }
    }
  }

  /** Two equal entries make an element occur at least twice. */
  lemma RepeatMultiset(s: seq<Tile>, a: int, b: int)
    requires 0 <= a < b < |s| && s[a] == s[b]
    ensures multiset(s)[s[a]] >= 2
  {
    assert s == s[..b] + [s[b]] + s[b + 1..];
    assert s[a] in s[..b];
  }

  /** A rearrangement of the domino set has no repeated domino. */
  lemma PermutedDsDistinct(order: seq<Tile>, n: int)
    requires multiset(order) == multiset(Ds(n))
    ensures PairwiseDistinct(order)
  {
    DsFacts(n);
    forall a, b | 0 <= a < b < |order|
      ensures order[a] != order[b]
    {
      if order[a] == order[b] {
        RepeatMultiset(order, a, b);
        DistinctMultiset(Ds(n), order[a]);
        assert false;
      }
    }
  }

  /** A rearrangement of the domino set: n(n+1)/2 distinct dominoes, each with its smaller value first. */
  lemma PermutedDs(order: seq<Tile>, n: int)
    requires n >= 0 && multiset(order) == multiset(Ds(n))
    ensures 2 * |order| == n * (n + 1)
    ensures forall d :: 0 <= d < |order| ==> order[d].0 <= order[d].1
    ensures PairwiseDistinct(order)
  {
    DsFacts(n);
    assert |order| == |multiset(order)| == |multiset(Ds(n))| == |Ds(n)|;
    forall d | 0 <= d < |order|
      ensures order[d].0 <= order[d].1
    {
      assert order[d] in multiset(Ds(n));
    }
    PermutedDsDistinct(order, n);
  }

  /** The slots of the first k dominoes of a full tiling cover exactly the cells labelled below k, once each. */
  lemma {:induction false} SlotsOnce(b: Cells, nR: nat, nC: nat, locs: seq<Loc>, slots: seq<CellIdx>, k: nat, x: CellIdx)
    requires Shaped(b, nR, nC) && Labelled(b, nR, nC, locs)
    requires FaceInRange(nR, nC, x) && b[x.0][x.1].Some?
    requires |slots| == 2 * |locs| && k <= |locs|
    requires forall d :: 0 <= d < |locs| ==> slots[2 * d] == locs[d].0 && slots[2 * d + 1] == locs[d].1
    ensures multiset(slots[..2 * k])[x] == if b[x.0][x.1].value < k then 1 else 0
  {
    if k > 0 {
      SlotsOnce(b, nR, nC, locs, slots, k - 1, x);
      var d := k - 1;
      assert slots[..2 * k] == slots[..2 * d] + [locs[d].0, locs[d].1];
      LocsApart(b, nR, nC, locs, d);
      assert multiset(slots[..2 * k]) == multiset(slots[..2 * d]) + multiset{locs[d].0, locs[d].1};
    }
  }

  /** Placement d of a tiling names the two cells of domino d. */
  lemma SolutionCells(locs: seq<Loc>, d: int)
    requires 0 <= d < |locs|
    requires locs[d].1 == Partner(locs[d].0, true) || locs[d].1 == Partner(locs[d].0, false)
    ensures (Solution(locs)[d].0, Solution(locs)[d].1) == locs[d].0
    ensures Other(Solution(locs)[d]) == locs[d].1
  {
  }

  /** Scanning the placements of a generated board reads each domino of `order` in turn. */
  lemma ScanGenerated(nR: nat, nC: nat, locs: seq<Loc>, order: seq<Tile>, flips: seq<bool>,
                      fin: Cells, val: CellIdx -> Result<Option<int>>)
    requires forall d :: 0 <= d < |locs| ==>
               0 <= locs[d].0.0 < nR && 0 <= locs[d].0.1 < nC && 0 <= locs[d].1.0 < nR && 0 <= locs[d].1.1 < nC &&
               (locs[d].1 == Partner(locs[d].0, true) || locs[d].1 == Partner(locs[d].0, false))
    requires |order| == |locs| == |flips|
    requires forall d :: 0 <= d < |order| ==> order[d].0 <= order[d].1
    requires Shaped(fin, nR, nC)
    requires forall d :: 0 <= d < |order| && d < |locs| ==>
               var t := Oriented(order[d], flips[d]);
               fin[locs[d].0.0][locs[d].0.1] == Some(t.0) && fin[locs[d].1.0][locs[d].1.1] == Some(t.1)
    requires forall p :: FaceInRange(nR, nC, p) ==> val(p) == Ok(fin[p.0][p.1])
    ensures Scan(val, nR, nC, Solution(locs)).Ok?
    ensures Scan(val, nR, nC, Solution(locs)).value.0 == order
    ensures forall d :: 0 <= d < |locs| ==>
              Scan(val, nR, nC, Solution(locs)).value.1[2 * d] == locs[d].0 &&
              Scan(val, nR, nC, Solution(locs)).value.1[2 * d + 1] == locs[d].1
  {
    var ps := Solution(locs);
    forall d | 0 <= d < |ps|
      ensures PlacementTile(val, ps[d]) == Ok(order[d])
      ensures Slot((ps[d].0, ps[d].1), nR, nC) == Some(locs[d].0)
      ensures Slot(Other(ps[d]), nR, nC) == Some(locs[d].1)
    {
      SolutionCells(locs, d);
      SortOriented(order[d], flips[d]);
    }
    ScanFacts(val, nR, nC, ps);
    var s := Scan(val, nR, nC, ps);
    assert s.Ok?;
    assert s.value.0 == order;
  }

  /** The slots of a full tiling cover every cell once. */
  lemma FullTilingCoveredOnce(b: Cells, nR: nat, nC: nat, locs: seq<Loc>, slots: seq<CellIdx>)
    requires Shaped(b, nR, nC) && Labelled(b, nR, nC, locs)
    requires forall r, c :: 0 <= r < nR && 0 <= c < nC ==> b[r][c].Some?
    requires |slots| == 2 * |locs|
    requires forall d :: 0 <= d < |locs| ==> slots[2 * d] == locs[d].0 && slots[2 * d + 1] == locs[d].1
    ensures CoveredOnce(slots, nR, nC)
  {
    forall r, c | 0 <= r < nR && 0 <= c < nC
      ensures multiset(slots)[(r, c)] == 1
    {
      SlotsOnce(b, nR, nC, locs, slots, |locs|, (r, c));
      assert slots[..2 * |locs|] == slots;
    }
  }

  /**
   * A randomly generated board passes `verify` against its own tiling:
   * a full labelled tiling of the N x (N+1) board, with a rearrangement
   * of the domino set written onto it, gives N(N+1)/2 placements that
   * cover every cell once and whose sorted cell pairs are the domino set.
   */
  lemma GeneratedBoardVerifies(n: int, lab: Cells, locs: seq<Loc>, order: seq<Tile>, flips: seq<bool>,
                               fin: Cells, val: CellIdx -> Result<Option<int>>)
    requires n >= 0
    requires Shaped(lab, RangeLen(n), RangeLen(n + 1)) && Labelled(lab, RangeLen(n), RangeLen(n + 1), locs)
    requires forall r, c :: 0 <= r < RangeLen(n) && 0 <= c < RangeLen(n + 1) ==> lab[r][c].Some?
    requires 2 * |locs| == RangeLen(n) * RangeLen(n + 1)
    requires multiset(order) == multiset(Ds(n)) && |flips| == |order|
    requires Shaped(fin, RangeLen(n), RangeLen(n + 1))
    requires forall d :: 0 <= d < |order| && d < |locs| ==>
               var t := Oriented(order[d], flips[d]);
               fin[locs[d].0.0][locs[d].0.1] == Some(t.0) && fin[locs[d].1.0][locs[d].1.1] == Some(t.1)
    requires forall p :: FaceInRange(RangeLen(n), RangeLen(n + 1), p) ==> val(p) == Ok(fin[p.0][p.1])
    ensures |order| == |locs|
    ensures Check(val, n, RangeLen(n), RangeLen(n + 1), Solution(locs)) == Ok(())
    ensures multiset(Tiles(val, Solution(locs))) == multiset(Ds(n))
  {
    var nR, nC := RangeLen(n), RangeLen(n + 1);
    var ps := Solution(locs);
    PermutedDs(order, n);
    assert nR == n && nC == n + 1;
    assert |locs| == |order|;
    ScanGenerated(nR, nC, locs, order, flips, fin, val);
    var s := Scan(val, nR, nC, ps);
    var slots := s.value.1;
    FullTilingCoveredOnce(lab, nR, nC, locs, slots);
    assert PairwiseDistinct(s.value.0);
    assert 2 * |ps| == n * (n + 1);
    ScanTiles(val, nR, nC, ps);
  }

  /** A scan that succeeds read exactly the tiles `Tiles` reads. */
  lemma ScanTiles(val: CellIdx -> Result<Option<int>>, nR: nat, nC: nat, ps: seq<Placement>)
    requires Scan(val, nR, nC, ps).Ok?
    ensures Tiles(val, ps) == Scan(val, nR, nC, ps).value.0
  {
    ScanFacts(val, nR, nC, ps);
    var tiles := Scan(val, nR, nC, ps).value.0;
    forall d | 0 <= d < |ps|
      ensures Tiles(val, ps)[d] == tiles[d]
    {
    }
  }

  /** A scan that succeeds collected exactly the slots `Slots` lists. */
  lemma ScanSlots(val: CellIdx -> Result<Option<int>>, nR: nat, nC: nat, ps: seq<Placement>)
    requires Scan(val, nR, nC, ps).Ok?
    ensures Slots(ps, nR, nC) == Scan(val, nR, nC, ps).value.1
  {
    ScanFacts(val, nR, nC, ps);
    var slots := Scan(val, nR, nC, ps).value.1;
    forall i | 0 <= i < 2 * |ps|
      ensures Slots(ps, nR, nC)[i] == slots[i]
    {
      var k := i / 2;
      assert i == 2 * k + i % 2 && 0 <= k < |ps|;
    }
  }
}
