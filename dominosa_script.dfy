/**
 * The older, standalone Dominosa board of `dominosa/dominosa.py`. It
 * differs from the package copy in two ways: `val` answers -1 only for a
 * row or column that is too large, so a negative index reaches the cell
 * list and wraps around as a Python index (or raises IndexError), and
 * `set` raises ValueError under the same narrower condition. `_init_board`
 * is a stub that always raises NotImplementedError.
 */
module DominosaScript {
  import opened Py
  import opened Grid
  import opened Dominoes
  import Dominosa

  /** `val(r, c)`: -1 past the last row or column; otherwise Python list indexing, negative indices included. */
  function LooseValueAt(b: Cells, nR: int, nC: int, p: CellIdx): (v: Result<Option<int>>)
    requires Shaped(b, RangeLen(nR), RangeLen(nC))
    ensures p.0 >= nR || p.1 >= nC ==> v == Ok(Some(-1))
    ensures FaceInRange(nR, nC, p) ==> v == Ok(b[p.0][p.1])
    ensures -nR <= p.0 < 0 && 0 <= p.1 < nC ==> v == Ok(b[p.0 + nR][p.1])
    ensures v.Err? <==> p.0 < nR && p.1 < nC && (p.0 < -(RangeLen(nR) as int) || p.1 < -(RangeLen(nC) as int))
    ensures v.Err? ==> v.error == IndexError
  {
    if p.0 >= nR || p.1 >= nC then Ok(Some(-1))
    else
      var i := PyIndex(p.0, RangeLen(nR));
      var j := PyIndex(p.1, RangeLen(nC));
      if i.None? || j.None? then Err(IndexError) else Ok(b[i.value][j.value])
  }

  /** A placement anchored on row -1 reads the last row: the package copy would read -1 there instead. */
  lemma NegativeRowWraps(b: Cells, n: int, c: int)
    requires Shaped(b, RangeLen(n), RangeLen(n + 1))
    requires n >= 1 && 0 <= c < n + 1
    ensures LooseValueAt(b, n, n + 1, (-1, c)) == Ok(b[n - 1][c])
    ensures Dominosa.ValueAt(b, n, n + 1, (-1, c)) == Some(-1)
  {
  }

  /** `_init_board(board)`: not implemented. */
  function InitBoard(given: seq<seq<int>>): (r: Result<()>)
    ensures r.Err? && r.error == NotImplementedError
  {
    Err(NotImplementedError)
  }

  class Board {
    const N: int
    const NR: int
    const NC: int
    const ds: seq<Tile>
    var board: Cells

    ghost predicate Valid()
      reads this
    {
      NR == N && NC == N + 1 && ds == Ds(N) && Shaped(board, RangeLen(NR), RangeLen(NC))
    }

    /** `val(r, c)`. */
    function Val(r: int, c: int): (v: Result<Option<int>>)
      reads this
      requires Valid()
    {
      LooseValueAt(board, NR, NC, (r, c))
    }

    /** `val` as the lookup `verify` uses. */
    function Lookup(): CellIdx -> Result<Option<int>>
      reads this
      requires Valid()
    {
      var b, nR, nC := board, NR, NC;
      (p: CellIdx) => LooseValueAt(b, nR, nC, p)
    }

    /**
     * `set(r, c, val)`: ValueError past the last row or column, IndexError
     * for a negative index beyond the list, otherwise the cell the Python
     * index denotes is written, and `val` then reads the new value back.
     */
    method Set(r: int, c: int, v: int) returns (res: Result<()>)
      requires Valid()
      modifies this`board
      ensures Valid()
      ensures res == Err(ValueError) <==> r >= NR || c >= NC
      ensures res.Err? <==> old(Val(r, c)).Err? || r >= NR || c >= NC
      ensures res.Err? ==> board == old(board)
      ensures res.Ok? ==>
                var i, j := PyIndex(r, RangeLen(NR)).value, PyIndex(c, RangeLen(NC)).value;
                board == SetAt(old(board), RangeLen(NR), RangeLen(NC), (i, j), Some(v))
      ensures res.Ok? ==> Val(r, c) == Ok(Some(v))
    {
      if r >= NR || c >= NC {
        return Err(ValueError);
      }
      var i := PyIndex(r, RangeLen(NR));
      var j := PyIndex(c, RangeLen(NC));
      if i.None? || j.None? {
        return Err(IndexError);
      }
      board := board[i.value := board[i.value][j.value := Some(v)]];
      res := Ok(());
    }

    /** `__init__` with a board: the grid is stored as given. */
    constructor(n: int, given: seq<seq<int>>)
      requires |given| == RangeLen(n) && forall r :: 0 <= r < |given| ==> |given[r]| == RangeLen(n + 1)
      ensures Valid() && N == n
      ensures forall r, c :: 0 <= r < RangeLen(n) && 0 <= c < RangeLen(n + 1) ==> board[r][c] == Some(given[r][c])
    {
      N, NR, NC := n, n, n + 1;
      ds := Ds(n);
      board := seq(|given|, r requires 0 <= r < |given| => seq(|given[r]|, c requires 0 <= c < |given[r]| => Some(given[r][c])));
    }

    /**
     * `__init__` without a board: `_init_random`, with the random choices
     * as parameters as in the package copy. The result is None only when
     * the attempts run out; a generated board passes `verify` against its
     * tiling and holds every domino once.
     */
    static method Random(n: int, attempts: seq<set<CellIdx>>, order: seq<Tile>, flips: seq<bool>)
      returns (res: Option<Board>, ghost locs: seq<Loc>)
      requires n >= 0
      requires multiset(order) == multiset(Ds(n)) && |flips| == |order|
      ensures res.Some? ==> fresh(res.value) && res.value.Valid() && res.value.N == n
      ensures res.Some? ==> forall r, c :: 0 <= r < n && 0 <= c < n + 1 ==> res.value.board[r][c].Some?
      ensures res.Some? ==> Check(res.value.Lookup(), n, n, n + 1, Solution(locs)) == Ok(())
      ensures res.Some? ==> multiset(Tiles(res.value.Lookup(), Solution(locs))) == multiset(Ds(n))
    {
      var done, lab, ls := RandomTiling(n, n + 1, attempts);
      locs := ls;
      if !done {
        return None, locs;
      }
      PermutedDs(order, n);
      var w := WriteTiles(lab, n, n + 1, ls, order, flips);
      assert w.Ok?;
      var fin: Cells := w.value;
      var g := seq(n, r requires 0 <= r < n => seq(n + 1, c requires 0 <= c < n + 1 => if fin[r][c].Some? then fin[r][c].value else 0));
      forall r, c | 0 <= r < n && 0 <= c < n + 1
        ensures fin[r][c].Some?
      {
        var d := lab[r][c].value;
        assert (r, c) == ls[d].0 || (r, c) == ls[d].1;
      }
      var b := new Board(n, g);
      forall r | 0 <= r < n
        ensures b.board[r] == fin[r]
      {
        assert forall c :: 0 <= c < n + 1 ==> b.board[r][c] == fin[r][c];
      }
      assert b.board == fin;
      GeneratedBoardVerifies(n, lab, ls, order, flips, fin, b.Lookup());
      res := Some(b);
    }

    /** `verify(dlocs)`, reading cells through this copy's `val`. */
    method Verify(dlocs: seq<Placement>) returns (res: Result<()>)
      requires Valid()
      ensures res == Check(Lookup(), N, RangeLen(NR), RangeLen(NC), dlocs)
    {
      res := Dominoes.Verify(Lookup(), N, RangeLen(NR), RangeLen(NC), dlocs);
    }

    /** `__str__`: it reads only cells on the board, where both copies' `val` agree. */
    function Str(): (s: string)
      reads this
      requires Valid()
    {
      Dominosa.BoardText(board, NR, NC)
    }
  }
}
