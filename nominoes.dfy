/**
 * Polyomino growth beside the last cell (logicpuzzles/broken/pentominoes/nominoes.py).
 *
 * A polyomino is a list of (x, y) cells. `rotate` turns every cell a
 * quarter, `reflect` mirrors it in the y axis, `normalize` shifts the
 * shape so its least x and least y are 0 and sorts the cells, and
 * `canonical` is the least normal form (in tuple order) of the four
 * rotations and their mirror images. `generate_polyominoes(n)` starts from
 * the one-cell shape and, n - 1 times, grows every shape by one cell
 * beside its LAST cell and keeps the canonical forms of the results.
 * That growth does not reach every free polyomino: from four cells on some
 * shapes, such as the T tetromino, are never produced.
 */
module Nominoes {
  import opened Pairs
  import opened Py

  /** `(-y, x)`: a quarter turn of one cell. */
  function RotCell(c: Pair): Pair
  {
    (-c.1, c.0)
  }

  /** `(-x, y)`: the mirror image of one cell. */
  function RefCell(c: Pair): Pair
  {
    (-c.0, c.1)
  }

  /** `rotate(polyomino)`. */
  function Rotate(p: seq<Pair>): (r: seq<Pair>)
    ensures |r| == |p| && forall i :: 0 <= i < |p| ==> r[i] == RotCell(p[i])
  {
    seq(|p|, i requires 0 <= i < |p| => RotCell(p[i]))
  }

  /** `reflect(polyomino)`. */
  function Reflect(p: seq<Pair>): (r: seq<Pair>)
    ensures |r| == |p| && forall i :: 0 <= i < |p| ==> r[i] == RefCell(p[i])
  {
    seq(|p|, i requires 0 <= i < |p| => RefCell(p[i]))
  }

  /** Four quarter turns give the shape back. */
  lemma RotateFour(p: seq<Pair>)
    ensures Rotate(Rotate(Rotate(Rotate(p)))) == p
  {
    var q := Rotate(Rotate(Rotate(Rotate(p))));
    forall i | 0 <= i < |p|
      ensures q[i] == p[i]
    {
      assert q[i] == RotCell(RotCell(RotCell(RotCell(p[i]))));
    }
  }

  /** Mirroring twice gives the shape back. */
  lemma ReflectTwice(p: seq<Pair>)
    ensures Reflect(Reflect(p)) == p
  {
    var q := Reflect(Reflect(p));
    forall i | 0 <= i < |p|
      ensures q[i] == p[i]
    {
      assert q[i] == RefCell(RefCell(p[i]));
    }
  }

  /** A turn after a mirror is a mirror after three turns. */
  lemma RotateReflect(p: seq<Pair>)
    ensures Rotate(Reflect(p)) == Reflect(Rotate(Rotate(Rotate(p))))
  {
    var a := Rotate(Reflect(p));
    var b := Reflect(Rotate(Rotate(Rotate(p))));
    forall i | 0 <= i < |p|
      ensures a[i] == b[i]
    {
      assert a[i] == RotCell(RefCell(p[i]));
      assert b[i] == RefCell(RotCell(RotCell(RotCell(p[i]))));
    }
  }

  /** Turning and mirroring keep a shape free of repeated cells. */
  lemma TurnsKeepDistinct(p: seq<Pair>)
    requires NoDup(p)
    ensures NoDup(Rotate(p)) && NoDup(Reflect(p))
  {
  }

  /** `transformations` in `canonical`: the four rotations, then the mirror image of each. */
  function Transforms(p: seq<Pair>): (ts: seq<seq<Pair>>)
    ensures |ts| == 8 && forall k :: 0 <= k < 8 ==> |ts[k]| == |p|
  {
    var r1 := Rotate(p);
    var r2 := Rotate(r1);
    var r3 := Rotate(r2);
    [p, r1, r2, r3, Reflect(p), Reflect(r1), Reflect(r2), Reflect(r3)]
  }

  /** `normalize`: the cells shifted so the least x and least y are 0, sorted. */
  function Normalize(p: seq<Pair>): seq<Pair>
    requires p != []
  {
    Sort(Shift(p, -MinX(p), -MinY(p)))
  }

  /**
   * The normal form is a sorted permutation of the cells shifted by the
   * least x and least y, so it has as many cells and touches both axes.
   */
  lemma NormalizeFacts(p: seq<Pair>)
    requires p != []
    ensures var r := Normalize(p);
      |r| == |p| && Sorted(r) && Anchored(r) && multiset(r) == multiset(Shift(p, -MinX(p), -MinY(p)))
  {
    NormalFormFacts(p, MinX(p), MinY(p));
  }

  /** Normalizing keeps a shape free of repeated cells. */
  lemma NormalizeDistinct(p: seq<Pair>)
    requires p != [] && NoDup(p)
    ensures NoDup(Normalize(p))
  {
    ShiftSortNoDup(p, MinX(p), MinY(p));
  }

  /** The eight normal forms `canonical` takes the minimum of. */
  function NormalForms(p: seq<Pair>): (fs: seq<seq<Pair>>)
    requires p != []
    ensures |fs| == 8
  {
    var ts := Transforms(p);
    seq(8, k requires 0 <= k < 8 => Normalize(ts[k]))
  }

  /** `canonical(polyomino)`: the least of the eight normal forms. */
  function Canonical(p: seq<Pair>): (r: seq<Pair>)
    requires p != []
    ensures r in NormalForms(p) && forall f :: f in NormalForms(p) ==> SeqLe(r, f)
  {
    MinSeqFacts(NormalForms(p));
    MinSeq(NormalForms(p))
  }

  /** Shapes whose transformation lists hold the same shapes have the same canonical form. */
  lemma CanonicalSame(p: seq<Pair>, q: seq<Pair>)
    requires p != [] && q != []
    requires forall t :: t in Transforms(p) <==> t in Transforms(q)
    ensures Canonical(p) == Canonical(q)
  {
    var fp, fq := NormalForms(p), NormalForms(q);
    forall x
      ensures x in fp <==> x in fq
    {
      if x in fp {
        var k :| 0 <= k < 8 && fp[k] == x;
        assert Transforms(p)[k] in Transforms(q);
        var j :| 0 <= j < 8 && Transforms(q)[j] == Transforms(p)[k];
        assert fq[j] == x;
      }
      if x in fq {
        var k :| 0 <= k < 8 && fq[k] == x;
        assert Transforms(q)[k] in Transforms(p);
        var j :| 0 <= j < 8 && Transforms(p)[j] == Transforms(q)[k];
        assert fp[j] == x;
      }
    }
    MinSeqSameElements(fp, fq);
  }

  /** A quarter turn permutes the eight transformations. */
  lemma TransformsRotate(p: seq<Pair>)
    ensures forall t :: t in Transforms(Rotate(p)) <==> t in Transforms(p)
  {
    RotateFour(p);
  }

  /** A mirror image permutes the eight transformations. */
  lemma TransformsReflect(p: seq<Pair>)
    ensures forall t :: t in Transforms(Reflect(p)) <==> t in Transforms(p)
  {
    var r1 := Rotate(p);
    var r2 := Rotate(r1);
    var r3 := Rotate(r2);
    RotateReflect(p);
    RotateReflect(r3);
    RotateFour(r2);
    RotateReflect(r2);
    RotateFour(r1);
    ReflectTwice(p);
    ReflectTwice(r1);
    ReflectTwice(r2);
    ReflectTwice(r3);
  }

  /** `canonical` does not see a quarter turn. */
  lemma CanonicalRotate(p: seq<Pair>)
    requires p != []
    ensures Canonical(Rotate(p)) == Canonical(p)
  {
    TransformsRotate(p);
    CanonicalSame(Rotate(p), p);
  }

  /** `canonical` does not see a mirror image. */
  lemma CanonicalReflect(p: seq<Pair>)
    requires p != []
    ensures Canonical(Reflect(p)) == Canonical(p)
  {
    TransformsReflect(p);
    CanonicalSame(Reflect(p), p);
  }

  /** Every transformation of a shape without repeated cells has none. */
  lemma TransformsDistinct(p: seq<Pair>)
    requires NoDup(p)
    ensures forall k :: 0 <= k < 8 ==> NoDup(Transforms(p)[k])
  {
    var r1 := Rotate(p);
    var r2 := Rotate(r1);
    TurnsKeepDistinct(p);
    TurnsKeepDistinct(r1);
    TurnsKeepDistinct(r2);
    TurnsKeepDistinct(Rotate(r2));
  }

  /**
   * The canonical form is one of the normal forms, so it has p's cell
   * count, is sorted, touches both axes and, when p repeats no cell,
   * repeats none either.
   */
  lemma CanonicalFacts(p: seq<Pair>)
    requires p != []
    ensures |Canonical(p)| == |p| && Sorted(Canonical(p)) && Anchored(Canonical(p))
    ensures NoDup(p) ==> NoDup(Canonical(p))
  {
    var k :| 0 <= k < 8 && NormalForms(p)[k] == Canonical(p);
    var t := Transforms(p)[k];
    NormalizeFacts(t);
    if NoDup(p) {
      TransformsDistinct(p);
      NormalizeDistinct(t);
    }
  }

  /** The one-cell shape at the origin is fixed by a turn and by a mirror, so it is all eight of its transformations. */
  lemma TransformsCell(p: seq<Pair>)
    requires |p| == 1 && p[0] == (0, 0)
    ensures Transforms(p) == [p, p, p, p, p, p, p, p]
  {
    assert Rotate(p) == p && Reflect(p) == p;
    TransformsFixed(p);
  }

  lemma TransformsFixed(p: seq<Pair>)
    requires Rotate(p) == p && Reflect(p) == p
    ensures Transforms(p) == [p, p, p, p, p, p, p, p]
  {
  }

  /** The one-cell shape at the origin is already normal. */
  lemma NormalizeCell(p: seq<Pair>)
    requires |p| == 1 && p[0] == (0, 0)
    ensures Normalize(p) == p
  {
    assert Shift(p, -MinX(p), -MinY(p)) == p;
    assert Sort(p) == Insert(p[0], Sort([]));
  }

  /** A normal shape that is all eight of its transformations is all eight of its normal forms. */
  lemma NormalFormsFixed(p: seq<Pair>)
    requires p != [] && Transforms(p) == [p, p, p, p, p, p, p, p] && Normalize(p) == p
    ensures NormalForms(p) == [p, p, p, p, p, p, p, p]
  {
    forall k | 0 <= k < 8
      ensures NormalForms(p)[k] == p
    {
      assert Transforms(p)[k] == p;
    }
  }

  /** A normal shape that is all eight of its transformations is its own canonical form. */
  lemma CanonicalFixed(p: seq<Pair>)
    requires p != [] && Transforms(p) == [p, p, p, p, p, p, p, p] && Normalize(p) == p
    ensures Canonical(p) == p
  {
    NormalFormsFixed(p);
  }

  /** The one-cell shape at the origin is all eight of its transformations and already normal. */
  lemma CellFacts(p: seq<Pair>)
    requires |p| == 1 && p[0] == (0, 0)
    ensures p != [] && Transforms(p) == [p, p, p, p, p, p, p, p] && Normalize(p) == p
  {
    TransformsCell(p);
    NormalizeCell(p);
  }

  /** `canonical([(0, 0)])` is `((0, 0),)`: the one-cell shape is its own canonical form. */
  lemma CanonicalCell(p: seq<Pair>)
    requires p == [(0, 0)]
    ensures Canonical(p) == p
  {
    CellFacts(p);
    CanonicalFixed(p);
  }

  /**
   * `canonical(polyomino)` as written: the rotations are built by a loop
   * that turns the last one, then the mirror images are appended, and the
   * least normal form is returned.
   */
  method CanonicalOf(p: seq<Pair>) returns (r: seq<Pair>)
    requires p != []
    ensures r == Canonical(p)
  {
    var ts := [p];
    for i := 0 to 3
      invariant |ts| == i + 1 && ts[0] == p
      invariant forall k :: 1 <= k <= i ==> ts[k] == Rotate(ts[k - 1])
    {
      ts := ts + [Rotate(ts[|ts| - 1])];
    }
    ts := ts + [Reflect(ts[0]), Reflect(ts[1]), Reflect(ts[2]), Reflect(ts[3])];
    assert ts == Transforms(p);
    r := MinSeq(seq(8, k requires 0 <= k < 8 => Normalize(ts[k])));
  }

  /** The four neighbours `add_block` tries, in its order: right, left, up, down. */
  function Neighbours(c: Pair): seq<Pair>
  {
    [(c.0 + 1, c.1), (c.0 - 1, c.1), (c.0, c.1 + 1), (c.0, c.1 - 1)]
  }

  /** The shapes p + [b] for the blocks b of bs, in order, that p does not hold yet. */
  function Grow(p: seq<Pair>, bs: seq<Pair>): seq<seq<Pair>>
    decreases |bs|
  {
    if bs == [] then []
    else
      var b := bs[|bs| - 1];
      var r := Grow(p, bs[..|bs| - 1]);
      if b in p then r else r + [p + [b]]
  }

  /** Each grown shape is p plus one block of bs not in p, and every such block gives one. */
  lemma {:induction false} GrowMeans(p: seq<Pair>, bs: seq<Pair>)
    ensures |Grow(p, bs)| <= |bs|
    ensures forall e :: e in Grow(p, bs) ==> |e| == |p| + 1 && e[..|p|] == p && e[|p|] in bs && e[|p|] !in p
    ensures forall b :: b in bs && b !in p ==> p + [b] in Grow(p, bs)
    decreases |bs|
  {
    if bs != [] {
      var b := bs[|bs| - 1];
      GrowMeans(p, bs[..|bs| - 1]);
      assert forall x :: x in bs ==> x in bs[..|bs| - 1] || x == b;
    }
  }

  /** `add_block(polyomino)`: one more cell beside the last one. */
  function Extensions(p: seq<Pair>): seq<seq<Pair>>
    requires p != []
  {
    Grow(p, Neighbours(p[|p| - 1]))
  }

  /**
   * `add_block` as written: a loop over the four neighbours of the last
   * cell that appends `polyomino + [block]` for each block not yet present.
   */
  method AddBlock(p: seq<Pair>) returns (shapes: seq<seq<Pair>>)
    requires p != []
    ensures shapes == Extensions(p)
  {
    var last := p[|p| - 1];
    var blocks := Neighbours(last);
    shapes := [];
    for i := 0 to |blocks|
      invariant shapes == Grow(p, blocks[..i])
    {
      assert blocks[..i + 1][..i] == blocks[..i];
      assert Grow(p, blocks[..i + 1]) == if blocks[i] in p then shapes else shapes + [p + [blocks[i]]];
      if blocks[i] !in p {
        shapes := shapes + [p + [blocks[i]]];
      }
    }
    assert blocks[..|blocks|] == blocks;
  }

  /** Every extension has one more cell, a neighbour of the last cell not already present; each such neighbour is used. */
  lemma ExtensionsMeans(p: seq<Pair>)
    requires p != []
    ensures |Extensions(p)| <= 4
    ensures forall e :: e in Extensions(p) ==>
      |e| == |p| + 1 && e[..|p|] == p && e[|p|] !in p && e[|p|] in Neighbours(p[|p| - 1])
    ensures forall b :: b in Neighbours(p[|p| - 1]) && b !in p ==> p + [b] in Extensions(p)
    ensures NoDup(p) ==> forall e :: e in Extensions(p) ==> NoDup(e)
  {
    GrowMeans(p, Neighbours(p[|p| - 1]));
    forall e | e in Extensions(p) && NoDup(p)
      ensures NoDup(e)
    {
      forall i, j | 0 <= i < j < |e|
        ensures e[i] != e[j]
      {
        if j < |p| {
          assert e[i] == e[..|p|][i] && e[j] == e[..|p|][j];
        } else {
          assert e[i] == e[..|p|][i];
        }
      }
    }
  }

  /** Every shape in the set has at least one cell, so `add_block` can read its last cell. */
  ghost predicate AllNonEmpty(shapes: set<seq<Pair>>)
  {
    forall s :: s in shapes ==> s != []
  }

  /** The canonical forms of a list of non-empty shapes. */
  function CanonSet(es: seq<seq<Pair>>): set<seq<Pair>>
    requires forall e :: e in es ==> e != []
  {
    set e | e in es :: Canonical(e)
  }

  /** The union of f(x) over the members x of xs. */
  ghost function UnionOf<T, U>(xs: set<T>, f: T --> set<U>): set<U>
    requires forall x :: x in xs ==> f.requires(x)
  {
    set x, u | x in xs && u in f(x) :: u
  }

  /** Adding one member to xs adds f of it to the union. */
  lemma UnionOfAdd<T, U>(xs: set<T>, y: T, f: T --> set<U>)
    requires forall x :: x in xs + {y} ==> f.requires(x)
    ensures UnionOf(xs + {y}, f) == UnionOf(xs, f) + f(y)
  {
    forall u | u in UnionOf(xs + {y}, f)
      ensures u in UnionOf(xs, f) + f(y)
    {
      var x :| x in xs + {y} && u in f(x);
      if x != y {
        assert x in xs;
      }
    }
    forall u | u in UnionOf(xs, f) + f(y)
      ensures u in UnionOf(xs + {y}, f)
    {
      if u in UnionOf(xs, f) {
        var x :| x in xs && u in f(x);
        assert x in xs + {y};
      } else {
        assert y in xs + {y};
      }
    }
  }

  /** The canonical forms of the extensions `add_block` gives for one shape. */
  function ExtendedForms(s: seq<Pair>): set<seq<Pair>>
    requires s != []
  {
    ExtensionsMeans(s);
    CanonSet(Extensions(s))
  }

  /** A canonical form of an extension of s comes from an extension with one more cell, free of repeats when s is. */
  lemma ExtendedFrom(s: seq<Pair>, c: seq<Pair>) returns (e: seq<Pair>)
    requires s != [] && c in ExtendedForms(s)
    ensures e in Extensions(s) && |e| == |s| + 1 && (NoDup(s) ==> NoDup(e)) && c == Canonical(e)
  {
    ExtensionsMeans(s);
    e :| e in Extensions(s) && c == Canonical(e);
  }

  /** One round of `generate_polyominoes`: the canonical forms of every extension of every shape. */
  ghost function Grown(shapes: set<seq<Pair>>): set<seq<Pair>>
    requires AllNonEmpty(shapes)
  {
    UnionOf(shapes, ExtendedForms)
  }

  /** `shapes` after n - 1 rounds, starting from the canonical one-cell shape. */
  ghost function Shapes(n: int): (r: set<seq<Pair>>)
    ensures forall s :: s in r ==> |s| == (if n <= 1 then 1 else n)
    decreases n
  {
    if n <= 1 then
      CanonicalFacts([(0, 0)]);
      {Canonical([(0, 0)])}
    else
      var prev := Shapes(n - 1);
      GrownSize(prev, n - 1);
      Grown(prev)
  }

  /** Before any round there is one shape: the single cell at the origin. */
  lemma ShapesStart(n: int)
    requires n <= 1
    ensures Shapes(n) == {[(0, 0)]}
  {
    CanonicalCell([(0, 0)]);
  }

  /** The one-cell shape at the origin is sorted, touches both axes and repeats no cell. */
  lemma CellShape(p: seq<Pair>)
    requires p == [(0, 0)]
    ensures Sorted(p) && Anchored(p) && NoDup(p)
  {
    assert MinX(p) == 0 && MinY(p) == 0;
  }

  /**
   * Every shape `generate_polyominoes(n)` lists is a canonical form with
   * max(n, 1) cells: sorted, touching both axes, no cell twice.
   */
  lemma {:induction false} ShapesFacts(n: int)
    ensures forall c :: c in Shapes(n) ==> |c| == (if n <= 1 then 1 else n)
    ensures forall c :: c in Shapes(n) ==> Sorted(c) && Anchored(c) && NoDup(c)
    decreases n
  {
    if n <= 1 {
      StartFacts(n);
    } else {
      ShapesFacts(n - 1);
      GrownDistinct(Shapes(n - 1));
    }
  }

  /** Before any round every listed shape is the sorted, anchored one-cell shape. */
  lemma StartFacts(n: int)
    requires n <= 1
    ensures forall c :: c in Shapes(n) ==> Sorted(c) && Anchored(c) && NoDup(c)
  {
    ShapesStart(n);
    CellShape([(0, 0)]);
  }

  /** Growing shapes without repeated cells gives canonical forms without repeated cells. */
  lemma GrownDistinct(shapes: set<seq<Pair>>)
    requires forall s :: s in shapes ==> s != [] && NoDup(s)
    ensures AllNonEmpty(shapes)
    ensures forall c :: c in Grown(shapes) ==> Sorted(c) && Anchored(c) && NoDup(c)
  {
    forall c | c in Grown(shapes)
      ensures Sorted(c) && Anchored(c) && NoDup(c)
    {
      var s :| s in shapes && c in ExtendedForms(s);
      var e := ExtendedFrom(s, c);
      CanonicalFacts(e);
    }
  }

  /** Growing shapes of m cells gives shapes of m + 1 cells. */
  lemma GrownSize(shapes: set<seq<Pair>>, m: int)
    requires forall s :: s in shapes ==> |s| == m && s != []
    ensures AllNonEmpty(shapes)
    ensures forall c :: c in Grown(shapes) ==> |c| == m + 1
  {
    forall c | c in Grown(shapes)
      ensures |c| == m + 1
    {
      var s :| s in shapes && c in ExtendedForms(s);
      var e := ExtendedFrom(s, c);
      CanonicalFacts(e);
    }
  }

  /** Growing one more shape adds the canonical forms of its extensions. */
  lemma GrownAdd(done: set<seq<Pair>>, s: seq<Pair>)
    requires AllNonEmpty(done) && s != []
    ensures AllNonEmpty(done + {s})
    ensures Grown(done + {s}) == Grown(done) + ExtendedForms(s)
  {
    assert forall x :: x in done + {s} ==> x in done || x == s;
    UnionOfAdd(done, s, ExtendedForms);
  }

  /** Taking s out of what remains moves it to what is done. */
  lemma MoveOne<T>(all: set<T>, rest: set<T>, s: T)
    requires rest <= all && s in rest
    ensures all - (rest - {s}) == (all - rest) + {s}
  {
  }

  /** Some member of a non-empty set of shapes: the next one a set iteration visits. */
  method PickShape<T>(shapes: set<T>) returns (s: T)
    requires shapes != {}
    ensures s in shapes
  {
    if forall t :: t !in shapes {
      assert false;
    }
    s :| s in shapes;
  }

  /** Extending a list by one shape adds its canonical form. */
  lemma CanonSetSnoc(es: seq<seq<Pair>>, e: seq<Pair>)
    requires (forall x :: x in es ==> x != []) && e != []
    ensures CanonSet(es + [e]) == CanonSet(es) + {Canonical(e)}
  {
    assert forall x :: x in es + [e] <==> x in es || x == e;
  }

  /** The inner loop of a round: the canonical form of each extension, collected into a set. */
  method CanonicalForms(exts: seq<seq<Pair>>) returns (forms: set<seq<Pair>>)
    requires forall e :: e in exts ==> e != []
    ensures forms == CanonSet(exts)
  {
    forms := {};
    for j := 0 to |exts|
      invariant forall x :: x in exts[..j] ==> x in exts
      invariant forms == CanonSet(exts[..j])
    {
      assert exts[..j + 1] == exts[..j] + [exts[j]];
      assert exts[j] in exts;
      CanonSetSnoc(exts[..j], exts[j]);
      var c := CanonicalOf(exts[j]);
      forms := forms + {c};
    }
    assert exts[..|exts|] == exts;
  }

  /**
   * The body of the round loop in `generate_polyominoes`: every shape is
   * extended by `add_block` and the canonical form of each extension is
   * added to `new_shapes`.
   */
  method GrowRound(shapes: set<seq<Pair>>) returns (next: set<seq<Pair>>)
    requires AllNonEmpty(shapes)
    ensures next == Grown(shapes)
  {
    next := {};
    var rest := shapes;
    while rest != {}
      invariant rest <= shapes
      invariant next == Grown(shapes - rest)
      decreases |rest|
    {
      var s := PickShape(rest);
      var exts := AddBlock(s);
      ExtensionsMeans(s);
      var forms := CanonicalForms(exts);
      next := next + forms;
      GrownAdd(shapes - rest, s);
      MoveOne(shapes, rest, s);
      rest := rest - {s};
    }
  }

  /** `[list(shape) for shape in shapes]`: the members of a set, each once, in iteration order. */
  method ListOf<T>(shapes: set<T>) returns (r: seq<T>)
    ensures Py.Elements(r) == shapes && NoDup(r)
  {
    r := [];
    var rest := shapes;
    while rest != {}
      invariant rest <= shapes && Py.Elements(r) == shapes - rest && NoDup(r)
      decreases |rest|
    {
      var s := PickShape(rest);
      FreshSnoc(r, s);
      r := r + [s];
      rest := rest - {s};
    }
  }

  /** Appending an element not yet listed keeps the list repetition-free and adds it to the listed set. */
  lemma FreshSnoc<T>(r: seq<T>, s: T)
    requires NoDup(r) && s !in Py.Elements(r)
    ensures NoDup(r + [s]) && Py.Elements(r + [s]) == Py.Elements(r) + {s}
  {
    Py.ElementsSnoc(r, s);
    forall i, j | 0 <= i < j < |r| + 1
      ensures (r + [s])[i] != (r + [s])[j]
    {
      if j == |r| {
        assert (r + [s])[i] == r[i];
      }
    }
  }

  /** The rounds of `generate_polyominoes(n)`: n - 1 of them (none when n <= 1) from the canonical one-cell shape. */
  method GrowRounds(n: int) returns (shapes: set<seq<Pair>>)
    ensures shapes == Shapes(n)
  {
    shapes := FirstShapes();
    for round := 0 to Py.RangeLen(n - 1)
      invariant shapes == Shapes(round + 1)
    {
      shapes := GrowRound(shapes);
    }
  }

  /** `shapes = {canonical([(0, 0)])}`: the set the rounds start from. */
  method FirstShapes() returns (shapes: set<seq<Pair>>)
    ensures shapes == Shapes(1)
  {
    var origin := [(0, 0)];
    var first := CanonicalOf(origin);
    shapes := {first};
  }

  /** `generate_polyominoes(n)`: the shapes after the rounds, listed once each. */
  method GeneratePolyominoes(n: int) returns (r: seq<seq<Pair>>)
    ensures Py.Elements(r) == Shapes(n) && NoDup(r)
  {
    var shapes := GrowRounds(n);
    r := ListOf(shapes);
  }
}
