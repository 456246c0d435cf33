/**
 * The `Pentomino` class (logicpuzzles/broken/pentominoes/pent.py).
 *
 * A pentomino has a name and a list of (x, y) cells that its methods
 * rewrite in place: `rotate` turns every cell a quarter clockwise,
 * `flip_horizontal` mirrors the cells inside their own x range,
 * `normalize` shifts them so the least x and least y are 0. The method
 * `get_all_rotations_and_flips` runs normalize-record-rotate four times,
 * flips, runs it four more times, and returns one new pentomino per
 * distinct sorted configuration it recorded.
 */
module Pent {
  import opened Pairs
  import Nominoes
  import opened Py

  /** `(y, -x)`: a quarter turn clockwise of one cell. */
  function TurnCell(c: Pair): Pair
  {
    (c.1, -c.0)
  }

  /** `[(y, -x) for x, y in self.coords]`. */
  function Turn(p: seq<Pair>): (r: seq<Pair>)
    ensures |r| == |p| && forall i :: 0 <= i < |p| ==> r[i] == TurnCell(p[i])
  {
    seq(|p|, i requires 0 <= i < |p| => TurnCell(p[i]))
  }

  /** k quarter turns. */
  function Turns(p: seq<Pair>, k: nat): (r: seq<Pair>)
    ensures |r| == |p|
  {
    if k == 0 then p else Turn(Turns(p, k - 1))
  }

  /**
   * A clockwise quarter turn is three of the counter-clockwise turns of
   * `nominoes.rotate`; two of either are a half turn, and four of them
   * give the cells back.
   */
  lemma TurnsAreRotations(p: seq<Pair>)
    ensures Turns(p, 1) == Nominoes.Rotate(Nominoes.Rotate(Nominoes.Rotate(p)))
    ensures Turns(p, 2) == Nominoes.Rotate(Nominoes.Rotate(p))
    ensures Turns(p, 3) == Nominoes.Rotate(p)
    ensures Turns(p, 4) == p
  {
    var r1 := Nominoes.Rotate(p);
    var r2 := Nominoes.Rotate(r1);
    var r3 := Nominoes.Rotate(r2);
    var t1 := Turns(p, 1);
    var t2 := Turns(p, 2);
    var t3 := Turns(p, 3);
    var t4 := Turns(p, 4);
    assert Turns(p, 0) == p;
    assert t1 == Turn(p) && t2 == Turn(t1) && t3 == Turn(t2) && t4 == Turn(t3);
    forall i | 0 <= i < |p|
      ensures t1[i] == r3[i] && t2[i] == r2[i] && t3[i] == r1[i] && t4[i] == p[i]
    {
      assert t1[i] == TurnCell(p[i]);
      assert t2[i] == TurnCell(t1[i]);
      assert t3[i] == TurnCell(t2[i]);
      assert t4[i] == TurnCell(t3[i]);
    }
  }

  /** A turn after `nominoes.reflect` is the mirror image of a counter-clockwise turn. */
  lemma TurnReflect(p: seq<Pair>)
    ensures Turn(Nominoes.Reflect(p)) == Nominoes.Reflect(Nominoes.Rotate(p))
  {
    var a := Turn(Nominoes.Reflect(p));
    var b := Nominoes.Reflect(Nominoes.Rotate(p));
    forall i | 0 <= i < |p|
      ensures a[i] == b[i]
    {
      assert a[i] == TurnCell(Nominoes.RefCell(p[i]));
      assert b[i] == Nominoes.RefCell(Nominoes.RotCell(p[i]));
    }
  }

  /** Turning a shifted shape is turning it, then shifting by the turned offset. */
  lemma TurnShift(p: seq<Pair>, dx: int, dy: int)
    ensures Turn(Shift(p, dx, dy)) == Shift(Turn(p), dy, -dx)
  {
  }

  /** Mirroring a shifted shape is mirroring it, then shifting by the mirrored offset. */
  lemma ReflectShift(p: seq<Pair>, dx: int, dy: int)
    ensures Nominoes.Reflect(Shift(p, dx, dy)) == Shift(Nominoes.Reflect(p), -dx, dy)
  {
  }

  /** `[(max_x - x, y) for x, y in self.coords]` with `max_x = max(x for x, y in self.coords)`. */
  function Flip(p: seq<Pair>): (r: seq<Pair>)
    requires p != []
    ensures |r| == |p| && forall i :: 0 <= i < |p| ==> r[i] == (MaxX(p) - p[i].0, p[i].1)
  {
    seq(|p|, i requires 0 <= i < |p| => (MaxX(p) - p[i].0, p[i].1))
  }

  /** The horizontal flip is the mirror image in the y axis moved right by the greatest x. */
  lemma FlipIsMirror(p: seq<Pair>)
    requires p != []
    ensures Flip(p) == Shift(Nominoes.Reflect(p), MaxX(p), 0)
  {
  }

  /**
   * After a flip the least x is 0 and the greatest is the old width, so
   * a second flip does not give the cells back: it gives them shifted so
   * that their least x is 0.
   */
  lemma FlipFacts(p: seq<Pair>)
    requires p != []
    ensures MinX(Flip(p)) == 0 && MaxX(Flip(p)) == MaxX(p) - MinX(p)
    ensures Flip(Flip(p)) == Shift(p, -MinX(p), 0)
  {
    FlipBounds(p);
    FlipTwice(p, MaxX(p) - MinX(p));
  }

  /** The least x after a flip is 0 and the greatest is the old width. */
  lemma FlipBounds(p: seq<Pair>)
    requires p != []
    ensures MinX(Flip(p)) == 0 && MaxX(Flip(p)) == MaxX(p) - MinX(p)
  {
    var f := Flip(p);
    MinXFacts(p);
    MaxXFacts(p);
    var i :| 0 <= i < |p| && p[i].0 == MaxX(p);
    var j :| 0 <= j < |p| && p[j].0 == MinX(p);
    FlipLeast(f, i);
    FlipGreatest(f, j, MaxX(p) - MinX(p));
  }

  /** A shape with no negative x and a cell at x = 0 has least x 0. */
  lemma FlipLeast(f: seq<Pair>, i: int)
    requires 0 <= i < |f| && f[i].0 == 0 && forall k :: 0 <= k < |f| ==> f[k].0 >= 0
    ensures MinX(f) == 0
  {
    MinXFacts(f);
  }

  /** A shape with no x above w and a cell at x = w has greatest x w. */
  lemma FlipGreatest(f: seq<Pair>, j: int, w: int)
    requires 0 <= j < |f| && f[j].0 == w && forall k :: 0 <= k < |f| ==> f[k].0 <= w
    ensures MaxX(f) == w
  {
    MaxXFacts(f);
  }

  /** Flipping twice, when the first flip leaves greatest x w, shifts by the greatest x less w. */
  lemma FlipTwice(p: seq<Pair>, w: int)
    requires p != [] && MaxX(Flip(p)) == w
    ensures Flip(Flip(p)) == Shift(p, w - MaxX(p), 0)
  {
  }

  /** `normalize`: the cells shifted so the least x and the least y are 0. */
  function Normalized(p: seq<Pair>): seq<Pair>
    requires p != []
  {
    Shift(p, -MinX(p), -MinY(p))
  }

  /**
   * Normalizing keeps the cell count and every difference between cells,
   * puts the least x and least y at 0, changes nothing the second time,
   * and sorted it is `nominoes.normalize`.
   */
  lemma NormalizedFacts(p: seq<Pair>)
    requires p != []
    ensures |Normalized(p)| == |p| && Anchored(Normalized(p))
    ensures Normalized(Normalized(p)) == Normalized(p)
    ensures NoDup(p) ==> NoDup(Normalized(p))
    ensures Sort(Normalized(p)) == Nominoes.Normalize(p)
  {
    var q := Normalized(p);
    ShiftMin(p, -MinX(p), -MinY(p));
    ShiftShift(q, 0, 0, 0, 0);
    ShiftBack(p, -MinX(p), -MinY(p));
  }

  /** Normalizing a shifted shape gives the same as normalizing the shape. */
  lemma NormalizedShift(p: seq<Pair>, dx: int, dy: int)
    requires p != []
    ensures Normalized(Shift(p, dx, dy)) == Normalized(p)
  {
    ShiftMin(p, dx, dy);
    ShiftShift(p, dx, dy, -MinX(p) - dx, -MinY(p) - dy);
  }

  /** One pass of the inner loop of `get_all_rotations_and_flips`: normalize, then rotate. */
  function Step(p: seq<Pair>): (r: seq<Pair>)
    requires p != []
    ensures |r| == |p|
  {
    Turn(Normalized(p))
  }

  /** k passes of the inner loop. */
  function Steps(p: seq<Pair>, k: nat): (r: seq<Pair>)
    requires p != []
    ensures |r| == |p|
  {
    if k == 0 then p else Step(Steps(p, k - 1))
  }

  /** The configurations recorded in k passes: `tuple(sorted(self.coords))` after each normalize. */
  function Recorded(p: seq<Pair>, k: nat): (r: seq<seq<Pair>>)
    requires p != []
    ensures |r| == k
  {
    if k == 0 then [] else Recorded(p, k - 1) + [Nominoes.Normalize(Steps(p, k - 1))]
  }

  /**
   * Up to a shift, k passes only turn the shape k times, whatever shift
   * it started from.
   */
  lemma {:induction false} StepsShift(p: seq<Pair>, k: nat, dx: int, dy: int) returns (a: int, b: int)
    requires p != []
    ensures Steps(Shift(p, dx, dy), k) == Shift(Turns(p, k), a, b)
  {
    if k == 0 {
      a, b := dx, dy;
    } else {
      var a0, b0 := StepsShift(p, k - 1, dx, dy);
      a, b := StepShift(Turns(p, k - 1), a0, b0);
    }
  }

  /** Up to a shift, one pass only turns the shape. */
  lemma StepShift(t: seq<Pair>, dx: int, dy: int) returns (a: int, b: int)
    requires t != []
    ensures Step(Shift(t, dx, dy)) == Shift(Turn(t), a, b)
  {
    NormalizedShift(t, dx, dy);
    TurnShift(t, -MinX(t), -MinY(t));
    a, b := -MinY(t), MinX(t);
  }

  /** The configuration recorded in pass j is the normal form of j clockwise turns of any shift of p. */
  lemma RecordedTurns(p: seq<Pair>, dx: int, dy: int, j: nat)
    requires p != [] && j < 4
    ensures Recorded(Shift(p, dx, dy), 4)[j] == Nominoes.Normalize(Turns(p, j))
  {
    var q := Shift(p, dx, dy);
    var a, b := StepsShift(p, j, dx, dy);
    RecordedIndex(q, 4, j);
    NormalizedShift(Turns(p, j), a, b);
    NormalizedFacts(Steps(q, j));
    NormalizedFacts(Turns(p, j));
  }

  /** The j-th recorded configuration is the sorted normal form after j passes. */
  lemma {:induction false} RecordedIndex(p: seq<Pair>, k: nat, j: nat)
    requires p != [] && j < k
    ensures Recorded(p, k)[j] == Nominoes.Normalize(Steps(p, j))
  {
    if j < k - 1 {
      RecordedIndex(p, k - 1, j);
    }
  }

  /** The coordinates after the first round, flipped: where the second round starts. */
  function Flipped(p: seq<Pair>): (r: seq<Pair>)
    requires p != []
    ensures |r| == |p|
  {
    Flip(Steps(p, 4))
  }

  /** Every configuration `get_all_rotations_and_flips` records, in either round. */
  ghost function Configs(p: seq<Pair>): set<seq<Pair>>
    requires p != []
  {
    Py.Elements(Recorded(p, 4)) + Py.Elements(Recorded(Flipped(p), 4))
  }

  /** `self.coords` when `get_all_rotations_and_flips` returns: the second round's four passes, no flip after. */
  function FinalCoords(p: seq<Pair>): (r: seq<Pair>)
    requires p != []
    ensures |r| == |p|
  {
    Steps(Flipped(p), 4)
  }

  /** The first round records the normal forms of p and of its three clockwise turns. */
  lemma FirstRound(p: seq<Pair>)
    requires p != []
    ensures var nf := Nominoes.NormalForms(p);
      Recorded(p, 4) == [nf[0], nf[3], nf[2], nf[1]]
  {
    var nf := Nominoes.NormalForms(p);
    var ts := Nominoes.Transforms(p);
    assert Shift(p, 0, 0) == p;
    TurnsAreRotations(p);
    assert Turns(p, 0) == p;
    RecordedTurns(p, 0, 0, 0);
    RecordedTurns(p, 0, 0, 1);
    RecordedTurns(p, 0, 0, 2);
    RecordedTurns(p, 0, 0, 3);
    assert nf[0] == Nominoes.Normalize(ts[0]) && nf[1] == Nominoes.Normalize(ts[1]);
    assert nf[2] == Nominoes.Normalize(ts[2]) && nf[3] == Nominoes.Normalize(ts[3]);
  }

  /** The second round starts from a shift of the mirror image of p. */
  lemma SecondStart(p: seq<Pair>) returns (dx: int, dy: int)
    requires p != []
    ensures Flipped(p) == Shift(Nominoes.Reflect(p), dx, dy)
  {
    assert Shift(p, 0, 0) == p;
    var a, b := StepsShift(p, 4, 0, 0);
    TurnFour(p);
    dx, dy := FlipShift(p, a, b);
  }

  /** Four clockwise turns give the cells back. */
  lemma TurnFour(p: seq<Pair>)
    ensures Turns(p, 4) == p
  {
    TurnsAreRotations(p);
  }

  /** Flipping a shift of q is shifting the mirror image of q. */
  lemma FlipShift(q: seq<Pair>, a: int, b: int) returns (dx: int, dy: int)
    requires q != []
    ensures Flip(Shift(q, a, b)) == Shift(Nominoes.Reflect(q), dx, dy)
  {
    var s := Shift(q, a, b);
    FlipIsMirror(s);
    ReflectShift(q, a, b);
    ShiftShift(Nominoes.Reflect(q), -a, b, MaxX(s), 0);
    dx, dy := MaxX(s) - a, b;
  }

  /** Clockwise turns of a mirror image are mirror images of counter-clockwise turns. */
  lemma MirrorTurns(p: seq<Pair>)
    ensures var f := Nominoes.Reflect(p);
      var r1 := Nominoes.Rotate(p);
      var r2 := Nominoes.Rotate(r1);
      Turns(f, 0) == f && Turns(f, 1) == Nominoes.Reflect(r1) &&
      Turns(f, 2) == Nominoes.Reflect(r2) && Turns(f, 3) == Nominoes.Reflect(Nominoes.Rotate(r2))
  {
    var r1 := Nominoes.Rotate(p);
    var r2 := Nominoes.Rotate(r1);
    TurnReflect(p);
    TurnReflect(r1);
    TurnReflect(r2);
  }

  /** The second round records the normal forms of the four mirror images. */
  lemma SecondRound(p: seq<Pair>)
    requires p != []
    ensures Recorded(Flipped(p), 4) == Nominoes.NormalForms(p)[4..]
  {
    var nf := Nominoes.NormalForms(p);
    var ts := Nominoes.Transforms(p);
    var f := Nominoes.Reflect(p);
    var dx, dy := SecondStart(p);
    MirrorTurns(p);
    RecordedTurns(f, dx, dy, 0);
    RecordedTurns(f, dx, dy, 1);
    RecordedTurns(f, dx, dy, 2);
    RecordedTurns(f, dx, dy, 3);
    assert nf[4] == Nominoes.Normalize(ts[4]) && nf[5] == Nominoes.Normalize(ts[5]);
    assert nf[6] == Nominoes.Normalize(ts[6]) && nf[7] == Nominoes.Normalize(ts[7]);
    FourSame(Recorded(Flipped(p), 4), nf[4..]);
  }

  /** Two four-element lists with equal elements are equal. */
  lemma FourSame<T>(a: seq<T>, b: seq<T>)
    requires |a| == 4 && |b| == 4 && a[0] == b[0] && a[1] == b[1] && a[2] == b[2] && a[3] == b[3]
    ensures a == b
  {
  }

  /**
   * The configurations `get_all_rotations_and_flips` records are exactly
   * the normal forms of the eight transformations `canonical` ranges over.
   */
  lemma ConfigsAreNormalForms(p: seq<Pair>)
    requires p != []
    ensures Configs(p) == Py.Elements(Nominoes.NormalForms(p))
  {
    FirstRound(p);
    SecondRound(p);
    EightElements(Recorded(p, 4), Recorded(Flipped(p), 4), Nominoes.NormalForms(p));
  }

  /** The elements of a reordered first half and of the second half are the elements of the whole. */
  lemma EightElements<T>(first: seq<T>, second: seq<T>, all: seq<T>)
    requires |all| == 8 && first == [all[0], all[3], all[2], all[1]] && second == all[4..]
    ensures Py.Elements(first) + Py.Elements(second) == Py.Elements(all)
  {
    forall c | c in Py.Elements(first) + Py.Elements(second)
      ensures c in Py.Elements(all)
    {
      if c in Py.Elements(first) {
        var i :| 0 <= i < 4 && first[i] == c;
        assert c == all[[0, 3, 2, 1][i]];
      } else {
        var i :| 0 <= i < 4 && second[i] == c;
        assert c == all[4 + i];
      }
    }
    forall c | c in Py.Elements(all)
      ensures c in Py.Elements(first) + Py.Elements(second)
    {
      var k :| 0 <= k < 8 && all[k] == c;
      if k < 4 {
        assert c == first[[0, 3, 2, 1][k]];
      } else {
        assert c == second[k - 4];
      }
    }
  }

  /**
   * So there are at most eight configurations; each has p's cell count, is
   * sorted, has least x and least y 0, repeats no cell when p repeats
   * none; and the canonical form of p is one of them.
   */
  lemma ConfigsFacts(p: seq<Pair>)
    requires p != []
    ensures |Configs(p)| <= 8
    ensures forall c :: c in Configs(p) ==> |c| == |p| && Sorted(c) && Anchored(c)
    ensures NoDup(p) ==> forall c :: c in Configs(p) ==> NoDup(c)
    ensures Nominoes.Canonical(p) in Configs(p)
  {
    ConfigsAreNormalForms(p);
    Py.ElementsBound(Nominoes.NormalForms(p));
    NormalFormsShaped(p);
  }

  /** Every normal form of p keeps p's size, is sorted and anchored, and repeats no cell when p repeats none; the canonical form is one of them. */
  lemma NormalFormsShaped(p: seq<Pair>)
    requires p != []
    ensures forall c :: c in Py.Elements(Nominoes.NormalForms(p)) ==>
      |c| == |p| && Sorted(c) && Anchored(c) && (NoDup(p) ==> NoDup(c))
    ensures Nominoes.Canonical(p) in Py.Elements(Nominoes.NormalForms(p))
  {
    var nf := Nominoes.NormalForms(p);
    forall c | c in Py.Elements(nf)
      ensures |c| == |p| && Sorted(c) && Anchored(c) && (NoDup(p) ==> NoDup(c))
    {
      var k :| 0 <= k < 8 && nf[k] == c;
      NormalFormAt(p, k);
    }
    var m :| 0 <= m < 8 && nf[m] == Nominoes.Canonical(p);
  }

  /** The k-th normal form of p keeps p's size, is sorted and anchored, and repeats no cell when p repeats none. */
  lemma NormalFormAt(p: seq<Pair>, k: int)
    requires p != [] && 0 <= k < 8
    ensures var c := Nominoes.NormalForms(p)[k];
      |c| == |p| && Sorted(c) && Anchored(c) && (NoDup(p) ==> NoDup(c))
  {
    var ts := Nominoes.Transforms(p);
    Nominoes.NormalizeFacts(ts[k]);
    if NoDup(p) {
      Nominoes.TransformsDistinct(p);
      Nominoes.NormalizeDistinct(ts[k]);
    }
  }

  /** A pentomino: a name and the cells its methods rewrite in place. */
  class Pentomino {
    var name: string
    var coords: seq<Pair>

    constructor (name: string, coords: seq<Pair>)
      ensures this.name == name && this.coords == coords
    {
      this.name := name;
      this.coords := coords;
    }

    /** `rotate`: every cell a quarter turn clockwise. */
    method Rotate()
      modifies this`coords
      ensures coords == Turn(old(coords))
    {
      coords := Turn(coords);
    }

    /** `flip_horizontal`: `max` over no cells raises ValueError before anything changes. */
    method FlipHorizontal() returns (r: Py.Result<()>)
      modifies this`coords
      ensures old(coords) == [] ==> r == Py.Err(Py.ValueError) && coords == old(coords)
      ensures old(coords) != [] ==> r == Py.Ok(()) && coords == Flip(old(coords))
    {
      if coords == [] {
        return Py.Err(Py.ValueError);
      }
      coords := Flip(coords);
      r := Py.Ok(());
    }

    /** `normalize`: `min` over no cells raises ValueError before anything changes. */
    method Normalize() returns (r: Py.Result<()>)
      modifies this`coords
      ensures old(coords) == [] ==> r == Py.Err(Py.ValueError) && coords == old(coords)
      ensures old(coords) != [] ==> r == Py.Ok(()) && coords == Normalized(old(coords))
    {
      if coords == [] {
        return Py.Err(Py.ValueError);
      }
      coords := Normalized(coords);
      r := Py.Ok(());
    }

    /** `get_coords(offset_r, offset_c)`: the cells moved by the offsets; shifting back gives them again. */
    function GetCoords(offsetR: int, offsetC: int): (r: seq<Pair>)
      reads this
      ensures |r| == |coords| && Shift(r, -offsetR, -offsetC) == coords
    {
      ShiftBack(coords, offsetR, offsetC);
      Shift(coords, offsetR, offsetC)
    }

    /**
     * `get_all_rotations_and_flips`: two rounds of four normalize-record-rotate
     * passes with a flip between them, then one new pentomino of the same
     * name per distinct recorded configuration. The object keeps the
     * coordinates the last pass left. With no cells the first `normalize`
     * raises ValueError.
     */
    method GetAllRotationsAndFlips() returns (r: Py.Result<seq<Pentomino>>)
      modifies this`coords
      ensures old(coords) == [] <==> r.Err?
      ensures r.Err? ==> r.error == Py.ValueError && coords == old(coords)
      ensures r.Ok? ==> coords == FinalCoords(old(coords))
      ensures r.Ok? ==> (set i | 0 <= i < |r.value| :: r.value[i].coords) == Configs(old(coords))
      ensures r.Ok? ==> forall i :: 0 <= i < |r.value| ==> fresh(r.value[i]) && r.value[i].name == name
      ensures r.Ok? ==> forall i, j :: 0 <= i < j < |r.value| ==> r.value[i].coords != r.value[j].coords
    {
      if coords == [] {
        return Py.Err(Py.ValueError);
      }
      ghost var start := coords;
      var configurations: set<seq<Pair>> := {};
      for pass := 0 to 2
        invariant coords != []
        invariant pass == 0 ==> coords == start && configurations == {}
        invariant pass == 1 ==> coords == Flipped(start) && configurations == Py.Elements(Recorded(start, 4))
        invariant pass == 2 ==> coords == FinalCoords(start) && configurations == Configs(start)
      {
        var seen := RecordRound();
        configurations := configurations + seen;
        if pass == 0 {
          var flipped := FlipHorizontal();
        }
      }
      var pieces := Pieces(configurations);
      r := Py.Ok(pieces);
    }

    /** The inner loop of `get_all_rotations_and_flips`: four normalize-record-rotate passes. */
    method RecordRound() returns (seen: set<seq<Pair>>)
      requires coords != []
      modifies this`coords
      ensures coords == Steps(old(coords), 4) && seen == Py.Elements(Recorded(old(coords), 4))
    {
      ghost var from := coords;
      seen := {};
      for k := 0 to 4
        invariant coords != [] && coords == Steps(from, k)
        invariant seen == Py.Elements(Recorded(from, k))
      {
        var normalized := Normalize();
        var config := Sort(coords);
        Py.ElementsSnoc(Recorded(from, k), config);
        seen := seen + {config};
        Rotate();
      }
    }

    /** `[Pentomino(self.name, list(config)) for config in configurations]`. */
    method Pieces(configurations: set<seq<Pair>>) returns (pieces: seq<Pentomino>)
      ensures (set i | 0 <= i < |pieces| :: pieces[i].coords) == configurations
      ensures forall i :: 0 <= i < |pieces| ==> fresh(pieces[i]) && pieces[i].name == name
      ensures forall i, j :: 0 <= i < j < |pieces| ==> pieces[i].coords != pieces[j].coords
    {
      var configs := Nominoes.ListOf(configurations);
      pieces := [];
      for i := 0 to |configs|
        invariant |pieces| == i
        invariant forall j :: 0 <= j < i ==> fresh(pieces[j]) && pieces[j].name == name && pieces[j].coords == configs[j]
      {
        var piece := new Pentomino(name, configs[i]);
        pieces := pieces + [piece];
      }
      assert (set i | 0 <= i < |pieces| :: pieces[i].coords) == Py.Elements(configs);
    }
  }
}
