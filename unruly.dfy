/**
 * The Unruly puzzle board of `logicpuzzles/unruly/unruly.py`: an N×N grid
 * whose cells are 0, 1 or empty. A board is built from a grid of codes in
 * which 2 stands for an empty cell, or from a random grid in which a given
 * share of the cells, chosen without repetition, gets a random 0 or 1.
 *
 * `random.sample` and `random.randint` are modelled by the choices they
 * make, passed in; the fill share is an exact rational number.
 */
module Unruly {
  import opened Py
  import opened Grid

  /** `UnrulyBoard.face_t`: a face with its colour, if any. */
  datatype UnrulyFace = UnrulyFace(r: int, c: int, val: Option<int>)

  /** `face_t.__str__`: a space for an empty cell, else the colour. */
  function FaceText(f: UnrulyFace): (s: string)
    ensures |s| >= 1
    ensures s == " " <==> f.val.None?
  {
    if f.val.None? then " " else
      var t := IntToString(f.val.value);
      LeadingMinus(f.val.value);
      assert t[0] != ' ' by {
        if f.val.value >= 0 { assert '0' <= NatToString(f.val.value)[0] <= '9'; }
      }
      t
  }

  /** Python's `int(x)` on a float: truncation toward zero. */
  function Trunc(x: real): (r: int)
    ensures x >= 0.0 ==> r as real <= x < r as real + 1.0
    ensures x < 0.0 ==> r as real - 1.0 < x <= r as real
  {
    if x >= 0.0 then x.Floor else -((-x).Floor)
  }

  /** `int(total_squares * percent_filled)`. */
  function NumFilled(nR: int, nC: int, percent: real): int
  {
    Trunc((nR * nC) as real * percent)
  }

  /** The cells of one row, left to right. */
  function RowPositions(r: int, nC: int): (ps: seq<CellIdx>)
    ensures |ps| == if nC < 0 then 0 else nC
    ensures forall i :: 0 <= i < |ps| ==> ps[i] == (r, i)
  {
    seq(if nC < 0 then 0 else nC, c => (r, c))
  }

  /** `[(r,c) for r in range(nR) for c in range(nC)]`. */
  function Positions(nR: int, nC: int): (ps: seq<CellIdx>)
    ensures forall p :: p in ps <==> FaceInRange(nR, nC, p)
    ensures |ps| == (if nR < 0 then 0 else nR) * (if nC < 0 then 0 else nC)
    decreases if nR < 0 then 0 else nR
  {
    if nR <= 0 then []
    else
      var ps := Positions(nR - 1, nC) + RowPositions(nR - 1, nC);
      assert forall p :: p in RowPositions(nR - 1, nC) <==> p.0 == nR - 1 && 0 <= p.1 < nC;
      ps
  }

  /** A grid of `nR` rows of `nC` entries. */
  predicate IsGrid(cells: seq<seq<int>>, nR: int, nC: int)
  {
    |cells| == nR && forall r :: 0 <= r < |cells| ==> |cells[r]| == nC
  }

  /** The cells that hold a colour. */
  function FilledCells(cells: seq<seq<int>>, nR: nat, nC: nat): set<CellIdx>
    requires IsGrid(cells, nR, nC)
  {
    set r, c | 0 <= r < nR && 0 <= c < nC && cells[r][c] != 2 :: (r, c)
  }

  /**
   * `_random_board`: all cells 2, then each sampled cell gets its random
   * colour; a share that is negative or larger than the board makes
   * `random.sample` raise ValueError.
   */
  method RandomBoard(nR: int, nC: int, percent: real, sample: seq<CellIdx>, bits: seq<int>)
    returns (r: Result<seq<seq<int>>>)
    requires var k := NumFilled(nR, nC, percent);
             0 <= k <= |Positions(nR, nC)| ==>
               (IsSample(sample, Positions(nR, nC), k) && |bits| == k &&
                forall i :: 0 <= i < k ==> 0 <= bits[i] <= 1)
    ensures var k := NumFilled(nR, nC, percent);
            r.Err? <==> !(0 <= k <= |Positions(nR, nC)|)
    ensures r.Err? ==> r.error == ValueError
    ensures r.Ok? ==> IsGrid(r.value, RangeLen(nR), RangeLen(nC))
    ensures r.Ok? ==> forall i :: 0 <= i < |sample| ==> r.value[sample[i].0][sample[i].1] == bits[i]
    ensures r.Ok? ==> forall p :: FaceInRange(nR, nC, p) && p !in sample ==> r.value[p.0][p.1] == 2
    ensures r.Ok? ==> FilledCells(r.value, RangeLen(nR), RangeLen(nC)) == Elements(sample)
    ensures r.Ok? ==> |FilledCells(r.value, RangeLen(nR), RangeLen(nC))| == NumFilled(nR, nC, percent)
  {
    var k := NumFilled(nR, nC, percent);
    var positions := Positions(nR, nC);
    if !(0 <= k <= |positions|) {
      return Err(ValueError);
    }
    var R, C := RangeLen(nR), RangeLen(nC);
    var faces := seq(R, _ => seq(C, _ => 2));
    for i := 0 to k
      invariant IsGrid(faces, R, C)
      invariant forall j :: 0 <= j < i ==> faces[sample[j].0][sample[j].1] == bits[j]
      invariant forall p :: FaceInRange(R, C, p) && p !in sample[..i] ==> faces[p.0][p.1] == 2
    {
      var p := sample[i];
      assert p in positions;
      faces := faces[p.0 := faces[p.0][p.1 := bits[i]]];
      assert forall j :: 0 <= j < i ==> sample[j] != p;
      assert sample[..i + 1] == sample[..i] + [p];
    }
    assert sample[..k] == sample;
    assert FilledCells(faces, R, C) == Elements(sample) by {
      forall p | p in Elements(sample)
        ensures p in FilledCells(faces, R, C)
      {
        var j :| 0 <= j < |sample| && sample[j] == p;
        assert faces[p.0][p.1] == bits[j];
      }
    }
    DistinctCard(sample);
    r := Ok(faces);
  }

  /** The face value a code stands for: 2 is an empty cell. */
  function Decode(code: int): (v: Option<int>)
    ensures v.None? <==> code == 2
    ensures v.Some? ==> v.value == code
  {
    if code != 2 then Some(code) else None
  }

  /** `faces` holds one face per cell of the N×N grid, carrying the decoded code of its cell. */
  ghost predicate Decoded(faces: map<CellIdx, UnrulyFace>, cells: seq<seq<int>>, n: int)
    requires IsGrid(cells, n, n)
  {
    (forall k :: k in faces <==> FaceInRange(n, n, k)) &&
    forall k :: FaceInRange(n, n, k) ==>
      k in faces && faces[k] == UnrulyFace(k.0, k.1, Decode(cells[k.0][k.1]))
  }

  /** Re-encode the faces as the grid of codes the board was built from (2 for empty). */
  function Encode(faces: map<CellIdx, UnrulyFace>, n: nat): (cells: seq<seq<int>>)
    requires forall k :: FaceInRange(n, n, k) ==> k in faces
    ensures IsGrid(cells, n, n)
  {
    seq(n, r requires 0 <= r < n => seq(n, c requires 0 <= c < n =>
      assert FaceInRange(n, n, (r, c));
      var v := faces[(r, c)].val; if v.None? then 2 else v.value))
  }

  lemma DecodedAt(faces: map<CellIdx, UnrulyFace>, cells: seq<seq<int>>, n: nat, r: int, c: int)
    requires IsGrid(cells, n, n) && Decoded(faces, cells, n)
    requires 0 <= r < n && 0 <= c < n
    ensures (r, c) in faces && faces[(r, c)].val == Decode(cells[r][c])
  {
    assert FaceInRange(n, n, (r, c));
  }

  /** Decoding codes in 0..2 and re-encoding the faces gives the codes back. */
  lemma EncodeRoundTrip(faces: map<CellIdx, UnrulyFace>, cells: seq<seq<int>>, n: nat)
    requires IsGrid(cells, n, n) && Decoded(faces, cells, n)
    requires forall r, c :: 0 <= r < n && 0 <= c < n ==> 0 <= cells[r][c] <= 2
    ensures Encode(faces, n) == cells
  {
    var e := Encode(faces, n);
    forall r | 0 <= r < n
      ensures e[r] == cells[r]
    {
      forall c | 0 <= c < n
        ensures e[r][c] == cells[r][c]
      {
        DecodedAt(faces, cells, n, r, c);
      }
    }
  }

  class UnrulyBoard {
    const n: int
    const grid: Board
    var faces: map<CellIdx, UnrulyFace>

    /**
     * `__init__` once its shape checks have passed: every face is built
     * empty, then takes the code of its cell unless the code is 2.
     */
    constructor(n: int, cells: seq<seq<int>>)
      requires IsGrid(cells, n, n)
      ensures this.n == n && grid.Valid() && grid.nR == n && grid.nC == n
      ensures Decoded(faces, cells, n)
    {
      this.n := n;
      var g := new Board(n, n);
      grid := g;
      var fs := map k | k in g.f :: UnrulyFace(k.0, k.1, None);
      var todo := fs.Keys;
      while todo != {}
        invariant todo <= fs.Keys
        invariant forall k :: k in fs <==> FaceInRange(n, n, k)
        invariant forall k :: k in fs ==> fs[k].r == k.0 && fs[k].c == k.1
        invariant forall k :: k in todo ==> fs[k].val.None?
        invariant forall k :: k in fs && k !in todo ==> fs[k].val == Decode(cells[k.0][k.1])
        decreases |todo|
      {
        var k :| k in todo;
        if cells[k.0][k.1] != 2 {
          fs := fs[k := fs[k].(val := Some(cells[k.0][k.1]))];
        }
        todo := todo - {k};
      }
      faces := fs;
    }

    /** The two shape assertions of `__init__`: N rows of N entries. */
    static method CheckShape(n: int, cells: seq<seq<int>>) returns (ok: bool)
      ensures ok <==> IsGrid(cells, n, n)
    {
      if |cells| != n {
        return false;
      }
      var r := 0;
      while r < |cells|
        invariant 0 <= r <= |cells|
        invariant forall i :: 0 <= i < r ==> |cells[i]| == n
      {
        if |cells[r]| != n {
          return false;
        }
        r := r + 1;
      }
      return true;
    }

    /**
     * `UnrulyBoard(N, faces, percent_filled)`: a random grid when none is
     * given, then the two shape assertions, then the faces.
     */
    static method New(n: int, given: Option<seq<seq<int>>>, percent: real, sample: seq<CellIdx>, bits: seq<int>)
      returns (res: Result<UnrulyBoard>, cells: seq<seq<int>>)
      requires given.None? ==>
                 var k := NumFilled(n, n, percent);
                 0 <= k <= |Positions(n, n)| ==>
                   (IsSample(sample, Positions(n, n), k) && |bits| == k &&
                    forall i :: 0 <= i < k ==> 0 <= bits[i] <= 1)
      ensures given.Some? ==> cells == given.value
      ensures given.Some? ==> (res.Ok? <==> IsGrid(given.value, n, n))
      ensures given.Some? && res.Err? ==> res.error == AssertionError
      ensures given.None? ==> (res.Ok? <==> n >= 0 && 0 <= NumFilled(n, n, percent) <= n * n)
      ensures given.None? && res.Err? ==>
                res.error == (if 0 <= NumFilled(n, n, percent) <= |Positions(n, n)| then AssertionError else ValueError)
      ensures given.None? && res.Ok? ==>
                (IsGrid(cells, n, n) && |FilledCells(cells, n, n)| == NumFilled(n, n, percent))
      ensures res.Ok? ==>
                (IsGrid(cells, n, n) && res.value.n == n && Decoded(res.value.faces, cells, n))
    {
      if given.None? {
        var rb := RandomBoard(n, n, percent, sample, bits);
        if rb.Err? {
          return Err(rb.error), [];
        }
        cells := rb.value;
      } else {
        cells := given.value;
      }
      var ok := CheckShape(n, cells);
      if !ok {
        return Err(AssertionError), cells;
      }
      var b := new UnrulyBoard(n, cells);
      res := Ok(b);
    }
  }
}
