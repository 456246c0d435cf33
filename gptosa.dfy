/**
 * `dominosa/gptosa.py`: a backtracking Dominosa solver. Dominoes are
 * placed in list order; each is tried at every cell, first lying to the
 * right and then downwards, on two free cells whose numbers match the
 * domino in its listed order. The cells taken so far live in the
 * module-level set `used`, which is modelled as the field of a `Search`
 * object.
 */
module Gptosa {
  import opened Py
  import opened Grid
  import opened Dominoes

  type Numbers = seq<seq<int>>

  /** Every row as long as the first: `is_valid` bounds columns by `len(board[0])`. */
  predicate Rectangular(board: Numbers)
  {
    forall i :: 0 <= i < |board| ==> |board[i]| == |board[0]|
  }

  function InBounds(board: Numbers, x: int, y: int): bool
  {
    0 <= x < |board| && 0 <= y < |board[0]|
  }

  /** `is_valid(board, x, y, dx, dy, n)` against the cells taken in `used`. */
  function IsValid(board: Numbers, used: set<CellIdx>, x: int, y: int, dx: int, dy: int, n: Tile): (ok: bool)
    requires Rectangular(board)
    ensures ok ==> InBounds(board, x, y) && InBounds(board, x + dx, y + dy)
    ensures ok ==> board[x][y] == n.0 && board[x + dx][y + dy] == n.1
    ensures ok ==> (x, y) !in used && (x + dx, y + dy) !in used
  {
    if InBounds(board, x, y) && InBounds(board, x + dx, y + dy) then
      board[x][y] == n.0 && board[x + dx][y + dy] == n.1 && (x, y) !in used && (x + dx, y + dy) !in used
    else false
  }

  /** Where a domino matches, its reverse does not, unless both halves are equal. */
  lemma IsValidOrdered(board: Numbers, used: set<CellIdx>, x: int, y: int, dx: int, dy: int, n: Tile)
    requires Rectangular(board)
    requires n.0 != n.1 && IsValid(board, used, x, y, dx, dy, n)
    ensures !IsValid(board, used, x, y, dx, dy, (n.1, n.0))
  {
  }

  /** Direction 0 lies to the right, direction 1 downwards, the order the solver tries them. */
  function Dx(d: int): int { if d == 0 then 0 else 1 }
  function Dy(d: int): int { if d == 0 then 1 else 0 }

  function Covered(i: int, j: int, d: int): set<CellIdx>
  {
    {(i, j), (i + Dx(d), j + Dy(d))}
  }

  /**
   * Dominoes index.. can be laid one after another, each matching in
   * order on two cells that are free at its turn.
   */
  ghost predicate Completable(board: Numbers, used: set<CellIdx>, dominos: seq<Tile>, index: int)
    requires Rectangular(board)
    requires 0 <= index <= |dominos|
    decreases |dominos| - index
  {
    index == |dominos| ||
    exists i, j, d :: 0 <= i < |board| && 0 <= j < |board[i]| && 0 <= d < 2 &&
      IsValid(board, used, i, j, Dx(d), Dy(d), dominos[index]) &&
      Completable(board, used + Covered(i, j, d), dominos, index + 1)
  }

  /** Laying dominos[index] at (i, j) in direction d matches, and the rest can then be laid. */
  ghost predicate LaysAt(board: Numbers, used: set<CellIdx>, dominos: seq<Tile>, index: int, i: int, j: int, d: int)
    requires Rectangular(board) && 0 <= index < |dominos|
  {
    IsValid(board, used, i, j, Dx(d), Dy(d), dominos[index]) &&
    Completable(board, used + Covered(i, j, d), dominos, index + 1)
  }

  /** No cell before (i, j) in row-major order, in either direction, is a place dominos[index] fits. */
  ghost predicate NoFitBefore(board: Numbers, used: set<CellIdx>, dominos: seq<Tile>, index: int, i: int, j: int)
    requires Rectangular(board) && 0 <= index < |dominos|
  {
    forall i', j', d :: 0 <= i' < |board| && 0 <= j' < |board[i']| && 0 <= d < 2 && (i' < i || (i' == i && j' < j)) ==>
      !LaysAt(board, used, dominos, index, i', j', d)
  }

  lemma NoFitStep(board: Numbers, used: set<CellIdx>, dominos: seq<Tile>, index: int, i: int, j: int)
    requires Rectangular(board) && 0 <= index < |dominos|
    requires NoFitBefore(board, used, dominos, index, i, j)
    requires !LaysAt(board, used, dominos, index, i, j, 0) && !LaysAt(board, used, dominos, index, i, j, 1)
    ensures NoFitBefore(board, used, dominos, index, i, j + 1)
  {
  }

  lemma NoFitRowEnd(board: Numbers, used: set<CellIdx>, dominos: seq<Tile>, index: int, i: int)
    requires Rectangular(board) && 0 <= index < |dominos| && 0 <= i < |board|
    requires NoFitBefore(board, used, dominos, index, i, |board[i]|)
    ensures NoFitBefore(board, used, dominos, index, i + 1, 0)
  {
  }

  /** With no place to lay the next domino, the rest cannot be laid. */
  lemma NoFitAnywhere(board: Numbers, used: set<CellIdx>, dominos: seq<Tile>, index: int)
    requires Rectangular(board) && 0 <= index < |dominos|
    requires NoFitBefore(board, used, dominos, index, |board|, 0)
    ensures !Completable(board, used, dominos, index)
  {
    if Completable(board, used, dominos, index) {
      var i, j, d :| 0 <= i < |board| && 0 <= j < |board[i]| && 0 <= d < 2 &&
        IsValid(board, used, i, j, Dx(d), Dy(d), dominos[index]) &&
        Completable(board, used + Covered(i, j, d), dominos, index + 1);
      assert LaysAt(board, used, dominos, index, i, j, d);
    }
  }

  lemma AddTwo(s: set<CellIdx>, a: CellIdx, b: CellIdx)
    requires a !in s && b !in s && a != b
    ensures |s + {a, b}| == |s| + 2
  {
    assert s + {a, b} == (s + {a}) + {b};
  }

  class Search {
    /** `used`: the cells the dominoes placed so far cover. */
    var used: set<CellIdx>

    constructor()
      ensures used == {}
    {
      used := {};
    }

    /**
     * `solve_dominosa(board, dominos, index)`. It answers True exactly
     * when the remaining dominoes can be laid; then `used` has grown by
     * their 2 * (len(dominos) - index) cells, and on False every cell it
     * took has been given back.
     */
    method Solve(board: Numbers, dominos: seq<Tile>, index: int) returns (ok: bool)
      requires Rectangular(board) && 0 <= index <= |dominos|
      modifies this
      decreases |dominos| - index
      ensures ok <==> Completable(board, old(used), dominos, index)
      ensures !ok ==> used == old(used)
      ensures ok ==> old(used) <= used && |used| == |old(used)| + 2 * (|dominos| - index)
    {
      if index == |dominos| {
        return true;
      }
      for i := 0 to |board|
        invariant used == old(used)
        invariant NoFitBefore(board, used, dominos, index, i, 0)
      {
        for j := 0 to |board[i]|
          invariant used == old(used)
          invariant NoFitBefore(board, used, dominos, index, i, j)
        {
          ok := Try(board, dominos, index, i, j, 0);
          if ok {
            return true;
          }
          ok := Try(board, dominos, index, i, j, 1);
          if ok {
            return true;
          }
          NoFitStep(board, used, dominos, index, i, j);
        }
        NoFitRowEnd(board, used, dominos, index, i);
      }
      NoFitAnywhere(board, used, dominos, index);
      ok := false;
    }

    /** One attempt of the loop body: lay the domino at (i, j) in direction d and recurse, undoing on failure. */
    method Try(board: Numbers, dominos: seq<Tile>, index: int, i: int, j: int, d: int) returns (ok: bool)
      requires Rectangular(board) && 0 <= index < |dominos| && 0 <= d < 2
      modifies this
      decreases |dominos| - index, 0
      ensures ok <==> LaysAt(board, old(used), dominos, index, i, j, d)
      ensures !ok ==> used == old(used)
      ensures ok ==> old(used) <= used && |used| == |old(used)| + 2 * (|dominos| - index)
    {
      if !IsValid(board, used, i, j, Dx(d), Dy(d), dominos[index]) {
        return false;
      }
      var a, b := (i, j), (i + Dx(d), j + Dy(d));
      ghost var before := used;
      used := used + {a};
      used := used + {b};
      assert used == before + Covered(i, j, d);
      AddTwo(before, a, b);
      ok := Solve(board, dominos, index + 1);
      if !ok {
        used := used - {a};
        used := used - {b};
        assert used == before;
      }
    }
  }

  /** `generate_dominos(N)`: every pair i <= j of 0..N, row by row. */
  method GenerateDominos(n: int) returns (dominos: seq<Tile>)
    ensures dominos == Ds(n + 1)
  {
    dominos := [];
    var m := RangeLen(n + 1);
    for i := 0 to m
      invariant dominos + DsFrom(i, n + 1) == Ds(n + 1)
    {
      ghost var base := dominos;
      for j := i to m
        invariant dominos == base + DsRow(i, n + 1)[..j - i]
      {
        RowStep(base, i, j, n + 1);
        dominos := dominos + [(i, j)];
      }
      RowDone(base, i, n + 1);
    }
    assert DsFrom(m, n + 1) == [];
  }

  /** Appending (i, j) extends the listed part of row i by one pair. */
  lemma RowStep(base: seq<Tile>, i: int, j: int, n: int)
    requires 0 <= i <= j < n
    ensures base + DsRow(i, n)[..j + 1 - i] == (base + DsRow(i, n)[..j - i]) + [(i, j)]
  {
    assert DsRow(i, n)[..j + 1 - i] == DsRow(i, n)[..j - i] + [(i, j)];
  }

  /** Once row i is listed, what is left to list starts at row i + 1. */
  lemma RowDone(base: seq<Tile>, i: int, n: int)
    requires 0 <= i < n && base + DsFrom(i, n) == Ds(n)
    ensures (base + DsRow(i, n)[..RangeLen(n) - i]) + DsFrom(i + 1, n) == Ds(n)
  {
    assert DsRow(i, n)[..RangeLen(n) - i] == DsRow(i, n);
    assert DsFrom(i, n) == DsRow(i, n) + DsFrom(i + 1, n);
  }

  /** The generated list is every pair i <= j <= N, in increasing order, (N+1)(N+2)/2 of them. */
  lemma GeneratedDominos(n: int)
    requires n >= -1
    ensures forall t :: t in Ds(n + 1) <==> 0 <= t.0 <= t.1 <= n
    ensures var ds := Ds(n + 1); forall a, b :: 0 <= a < b < |ds| ==> LexLess(ds[a], ds[b])
    ensures 2 * |Ds(n + 1)| == (n + 1) * (n + 2)
  {
    DsFacts(n + 1);
  }
}
