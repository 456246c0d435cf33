/**
 * Python's built-in ordering on tuples of ints, as the polyomino code
 * uses it: `sorted` on a list of (x, y) pairs, tuple comparison of two
 * sorted shapes, and `min`/`max` of a coordinate.
 */
module Pairs {
  import opened Py

  type Pair = (int, int)

  /** `a <= b` on 2-tuples: first components, then second ones. */
  predicate PairLe(a: Pair, b: Pair)
  {
    a.0 < b.0 || (a.0 == b.0 && a.1 <= b.1)
  }

  predicate Sorted(s: seq<Pair>)
  {
    forall i, j :: 0 <= i < j < |s| ==> PairLe(s[i], s[j])
  }

  /** Inserts x before the first element it does not exceed. */
  function Insert(x: Pair, s: seq<Pair>): seq<Pair>
  {
    if s == [] then [x]
    else if PairLe(x, s[0]) then [x] + s
    else [s[0]] + Insert(x, s[1..])
  }

  /** Inserting adds exactly x. */
  lemma {:induction false} InsertCount(x: Pair, s: seq<Pair>)
    ensures multiset(Insert(x, s)) == multiset(s) + multiset{x}
    decreases |s|
  {
    if s != [] {
      assert s == [s[0]] + s[1..];
      if !PairLe(x, s[0]) {
        InsertCount(x, s[1..]);
      }
    }
  }

  /** A lower bound of x and of every element of s bounds every element of the insertion. */
  lemma {:induction false} InsertBound(a: Pair, x: Pair, s: seq<Pair>)
    requires PairLe(a, x) && forall k :: 0 <= k < |s| ==> PairLe(a, s[k])
    ensures forall k :: 0 <= k < |Insert(x, s)| ==> PairLe(a, Insert(x, s)[k])
    decreases |s|
  {
    if s != [] && !PairLe(x, s[0]) {
      InsertBound(a, x, s[1..]);
      var t := Insert(x, s[1..]);
      forall k | 0 <= k < |[s[0]] + t|
        ensures PairLe(a, ([s[0]] + t)[k])
      {
        if k > 0 {
          assert ([s[0]] + t)[k] == t[k - 1];
        }
      }
    }
  }

  /** A sorted list stays sorted under a head that bounds all of it. */
  lemma ConsSorted(a: Pair, t: seq<Pair>)
    requires Sorted(t) && forall k :: 0 <= k < |t| ==> PairLe(a, t[k])
    ensures Sorted([a] + t)
  {
    forall i, j | 0 <= i < j < |[a] + t|
      ensures PairLe(([a] + t)[i], ([a] + t)[j])
    {
      assert ([a] + t)[j] == t[j - 1];
      if i > 0 {
        assert ([a] + t)[i] == t[i - 1];
      }
    }
  }

  /** Inserting into a sorted list keeps it sorted. */
  lemma {:induction false} InsertSorted(x: Pair, s: seq<Pair>)
    requires Sorted(s)
    ensures Sorted(Insert(x, s))
    decreases |s|
  {
    if s == [] {
    } else if PairLe(x, s[0]) {
      forall k | 0 <= k < |s| ensures PairLe(x, s[k]) {
        if k > 0 {
          assert PairLe(s[0], s[k]);
        }
      }
      ConsSorted(x, s);
    } else {
      InsertSorted(x, s[1..]);
      forall k | 0 <= k < |s[1..]| ensures PairLe(s[0], s[1..][k]) {
        assert s[1..][k] == s[k + 1];
      }
      InsertBound(s[0], x, s[1..]);
      ConsSorted(s[0], Insert(x, s[1..]));
    }
  }

  /** `sorted(s)`: a sorted permutation of s. */
  function Sort(s: seq<Pair>): seq<Pair>
  {
    if s == [] then [] else Insert(s[0], Sort(s[1..]))
  }

  /** `sorted(s)` is a sorted permutation of s. */
  lemma {:induction false} SortFacts(s: seq<Pair>)
    ensures Sorted(Sort(s)) && multiset(Sort(s)) == multiset(s)
    decreases |s|
  {
    if s != [] {
      SortFacts(s[1..]);
      InsertCount(s[0], Sort(s[1..]));
      InsertSorted(s[0], Sort(s[1..]));
      assert s == [s[0]] + s[1..];
    }
  }

  /** The head of a sorted list is `<=` each of its elements. */
  lemma HeadLeast(s: seq<Pair>, y: Pair)
    requires Sorted(s) && y in s
    ensures PairLe(s[0], y)
  {
    var k :| 0 <= k < |s| && s[k] == y;
    if k > 0 {
      assert PairLe(s[0], s[k]);
    }
  }

  /** Equal multisets lose the same head. */
  lemma DropHead(a: seq<Pair>, b: seq<Pair>)
    requires a != [] && b != [] && a[0] == b[0] && multiset(a) == multiset(b)
    ensures multiset(a[1..]) == multiset(b[1..])
  {
    assert a == [a[0]] + a[1..] && b == [b[0]] + b[1..];
    assert multiset(a) == multiset{a[0]} + multiset(a[1..]);
    assert multiset(b) == multiset{a[0]} + multiset(b[1..]);
    forall z
      ensures multiset(a[1..])[z] == multiset(b[1..])[z]
    {
      assert multiset(a)[z] == multiset{a[0]}[z] + multiset(a[1..])[z];
      assert multiset(b)[z] == multiset{a[0]}[z] + multiset(b[1..])[z];
    }
  }

  /** A sorted permutation is unique: `sorted` depends only on the multiset of its input. */
  lemma {:induction false} SortedUnique(a: seq<Pair>, b: seq<Pair>)
    requires Sorted(a) && Sorted(b) && multiset(a) == multiset(b)
    ensures a == b
    decreases |a|
  {
    if a != [] {
      assert a[0] in multiset(b);
      assert b[0] in multiset(a);
      HeadLeast(b, a[0]);
      HeadLeast(a, b[0]);
      DropHead(a, b);
      SortedUnique(a[1..], b[1..]);
      assert a == [a[0]] + a[1..] && b == [b[0]] + b[1..];
    }
  }

  /** A sequence without repeats has every multiplicity at most one, and conversely. */
  lemma {:induction false} NoDupCount<T>(s: seq<T>)
    ensures NoDup(s) <==> forall x :: multiset(s)[x] <= 1
    decreases |s|
  {
    if s != [] {
      var t := s[1..];
      assert s == [s[0]] + t;
      NoDupCount(t);
      if NoDup(s) {
        assert NoDup(t) by {
          forall i, j | 0 <= i < j < |t| ensures t[i] != t[j] { assert t[i] == s[i + 1] && t[j] == s[j + 1]; }
        }
        assert s[0] !in t by {
          forall k | 0 <= k < |t| ensures t[k] != s[0] {
            assert t[k] == s[k + 1];
          }
        }
      }
      if forall x :: multiset(s)[x] <= 1 {
        assert forall x :: multiset(t)[x] <= 1 by {
          forall x ensures multiset(t)[x] <= 1 { assert multiset(s)[x] == multiset(t)[x] + multiset{s[0]}[x]; }
        }
        assert multiset(t)[s[0]] == 0 by {
          assert multiset(s)[s[0]] == multiset(t)[s[0]] + 1;
        }
        forall i, j | 0 <= i < j < |s| ensures s[i] != s[j] {
          if i == 0 {
            assert s[j] == t[j - 1] && s[j] in multiset(t);
          } else {
            assert s[i] == t[i - 1] && s[j] == t[j - 1];
          }
        }
      }
    }
  }

  /** `sorted` keeps a list free of repeats. */
  lemma SortNoDup(s: seq<Pair>)
    requires NoDup(s)
    ensures NoDup(Sort(s))
  {
    SortFacts(s);
    NoDupCount(s);
    NoDupCount(Sort(s));
  }

  /**
   * Python's `<=` on tuples of pairs: the first differing position
   * decides, and a proper prefix comes first.
   */
  predicate SeqLe(s: seq<Pair>, t: seq<Pair>)
    decreases |s|
  {
    if s == [] then true
    else if t == [] then false
    else if s[0] == t[0] then SeqLe(s[1..], t[1..])
    else PairLe(s[0], t[0])
  }

  /** Any two shapes compare one way or the other. */
  lemma {:induction false} SeqLeTotal(s: seq<Pair>, t: seq<Pair>)
    ensures SeqLe(s, t) || SeqLe(t, s)
    decreases |s|
  {
    if s != [] && t != [] && s[0] == t[0] {
      SeqLeTotal(s[1..], t[1..]);
    }
  }

  /** Shapes that compare both ways are equal. */
  lemma {:induction false} SeqLeAntisym(s: seq<Pair>, t: seq<Pair>)
    requires SeqLe(s, t) && SeqLe(t, s)
    ensures s == t
    decreases |s|
  {
    if s != [] && t != [] {
      if s[0] == t[0] {
        SeqLeAntisym(s[1..], t[1..]);
        assert s == [s[0]] + s[1..] && t == [t[0]] + t[1..];
      }
    }
  }

  /** Tuple order is transitive. */
  lemma {:induction false} SeqLeTrans(s: seq<Pair>, t: seq<Pair>, u: seq<Pair>)
    requires SeqLe(s, t) && SeqLe(t, u)
    ensures SeqLe(s, u)
    decreases |s|
  {
    if s != [] && t != [] && u != [] && s[0] == t[0] && t[0] == u[0] {
      SeqLeTrans(s[1..], t[1..], u[1..]);
    }
  }

  /** Tuple order is total, antisymmetric and transitive. */
  lemma SeqLeOrder(s: seq<Pair>, t: seq<Pair>, u: seq<Pair>)
    ensures SeqLe(s, t) || SeqLe(t, s)
    ensures SeqLe(s, t) && SeqLe(t, s) ==> s == t
    ensures SeqLe(s, t) && SeqLe(t, u) ==> SeqLe(s, u)
  {
    SeqLeTotal(s, t);
    if SeqLe(s, t) && SeqLe(t, s) {
      SeqLeAntisym(s, t);
    }
    if SeqLe(s, t) && SeqLe(t, u) {
      SeqLeTrans(s, t, u);
    }
  }

  /** `min` of a non-empty list of shapes: the first one that no later one undercuts. */
  function MinSeq(c: seq<seq<Pair>>): (m: seq<Pair>)
    requires c != []
    decreases |c|
  {
    if |c| == 1 then c[0]
    else
      var rest := MinSeq(c[..|c| - 1]);
      if SeqLe(rest, c[|c| - 1]) then rest else c[|c| - 1]
  }

  /** The minimum is one of the shapes and is `<=` every shape. */
  lemma {:induction false} MinSeqFacts(c: seq<seq<Pair>>)
    requires c != []
    ensures MinSeq(c) in c
    ensures forall x :: x in c ==> SeqLe(MinSeq(c), x)
    decreases |c|
  {
    if |c| == 1 {
      SeqLeOrder(c[0], c[0], c[0]);
    } else {
      var n := |c| - 1;
      var pre := c[..n];
      MinSeqFacts(pre);
      var rest := MinSeq(pre);
      forall x | x in c
        ensures SeqLe(MinSeq(c), x)
      {
        SeqLeOrder(rest, c[n], x);
        SeqLeOrder(c[n], rest, x);
        SeqLeOrder(x, x, x);
        if x != c[n] {
          assert x in pre by {
            var k :| 0 <= k < |c| && c[k] == x;
            assert pre[k] == x;
          }
        }
      }
    }
  }

  /** `min` depends only on which shapes occur, not on their order or repeats. */
  lemma MinSeqSameElements(a: seq<seq<Pair>>, b: seq<seq<Pair>>)
    requires a != [] && b != [] && forall x :: x in a <==> x in b
    ensures MinSeq(a) == MinSeq(b)
  {
    MinSeqFacts(a);
    MinSeqFacts(b);
    SeqLeOrder(MinSeq(a), MinSeq(b), MinSeq(a));
  }

  /** `min(x for x, y in p)`. */
  function MinX(p: seq<Pair>): int
    requires p != []
  {
    LeastX(p)
  }

  function LeastX(p: seq<Pair>): int
    requires p != []
  {
    if |p| == 1 then p[0].0
    else
      var rest := LeastX(p[1..]);
      if p[0].0 <= rest then p[0].0 else rest
  }

  /** `min(y for x, y in p)`. */
  function MinY(p: seq<Pair>): int
    requires p != []
  {
    LeastY(p)
  }

  function LeastY(p: seq<Pair>): int
    requires p != []
  {
    if |p| == 1 then p[0].1
    else
      var rest := LeastY(p[1..]);
      if p[0].1 <= rest then p[0].1 else rest
  }

  /** `max(x for x, y in p)`. */
  function MaxX(p: seq<Pair>): int
    requires p != []
  {
    if |p| == 1 then p[0].0
    else
      var rest := MaxX(p[1..]);
      if p[0].0 >= rest then p[0].0 else rest
  }

  /** The least x is some cell's x and at most every cell's x. */
  lemma {:induction false} MinXFacts(p: seq<Pair>)
    requires p != []
    ensures exists i :: 0 <= i < |p| && p[i].0 == MinX(p)
    ensures forall i :: 0 <= i < |p| ==> MinX(p) <= p[i].0
    decreases |p|
  {
    if |p| > 1 {
      MinXFacts(p[1..]);
      assert forall i :: 1 <= i < |p| ==> p[i] == p[1..][i - 1];
      if MinX(p) == p[0].0 {
        assert p[0].0 == MinX(p);
      } else {
        var k :| 0 <= k < |p[1..]| && p[1..][k].0 == MinX(p[1..]);
        assert p[k + 1].0 == MinX(p);
      }
    } else {
      assert p[0].0 == MinX(p);
    }
  }

  /** The least y is some cell's y and at most every cell's y. */
  lemma {:induction false} MinYFacts(p: seq<Pair>)
    requires p != []
    ensures exists i :: 0 <= i < |p| && p[i].1 == MinY(p)
    ensures forall i :: 0 <= i < |p| ==> MinY(p) <= p[i].1
    decreases |p|
  {
    if |p| > 1 {
      MinYFacts(p[1..]);
      assert forall i :: 1 <= i < |p| ==> p[i] == p[1..][i - 1];
      if MinY(p) == p[0].1 {
        assert p[0].1 == MinY(p);
      } else {
        var k :| 0 <= k < |p[1..]| && p[1..][k].1 == MinY(p[1..]);
        assert p[k + 1].1 == MinY(p);
      }
    } else {
      assert p[0].1 == MinY(p);
    }
  }

  /** The greatest x is some cell's x and at least every cell's x. */
  lemma {:induction false} MaxXFacts(p: seq<Pair>)
    requires p != []
    ensures exists i :: 0 <= i < |p| && p[i].0 == MaxX(p)
    ensures forall i :: 0 <= i < |p| ==> p[i].0 <= MaxX(p)
    decreases |p|
  {
    if |p| > 1 {
      MaxXFacts(p[1..]);
      assert forall i :: 1 <= i < |p| ==> p[i] == p[1..][i - 1];
      if MaxX(p) == p[0].0 {
        assert p[0].0 == MaxX(p);
      } else {
        var k :| 0 <= k < |p[1..]| && p[1..][k].0 == MaxX(p[1..]);
        assert p[k + 1].0 == MaxX(p);
      }
    } else {
      assert p[0].0 == MaxX(p);
    }
  }

  /** `[(x + dx, y + dy) for x, y in p]`. */
  function Shift(p: seq<Pair>, dx: int, dy: int): (r: seq<Pair>)
    ensures |r| == |p| && forall i :: 0 <= i < |p| ==> r[i] == (p[i].0 + dx, p[i].1 + dy)
  {
    seq(|p|, i requires 0 <= i < |p| => (p[i].0 + dx, p[i].1 + dy))
  }

  /** Shifting back undoes a shift, and shifting keeps a list free of repeats. */
  lemma ShiftBack(p: seq<Pair>, dx: int, dy: int)
    ensures Shift(Shift(p, dx, dy), -dx, -dy) == p
    ensures NoDup(p) ==> NoDup(Shift(p, dx, dy))
  {
  }

  /** Two shifts make one. */
  lemma ShiftShift(p: seq<Pair>, a: int, b: int, c: int, d: int)
    ensures Shift(Shift(p, a, b), c, d) == Shift(p, a + c, b + d)
  {
  }

  /** Shifting moves the least x and the least y by the shift. */
  lemma {:induction false} ShiftMin(p: seq<Pair>, dx: int, dy: int)
    requires p != []
    ensures MinX(Shift(p, dx, dy)) == MinX(p) + dx && MinY(Shift(p, dx, dy)) == MinY(p) + dy
    decreases |p|
  {
    if |p| > 1 {
      ShiftMin(p[1..], dx, dy);
      assert Shift(p, dx, dy)[1..] == Shift(p[1..], dx, dy);
    }
  }

  /** Sorting keeps the length and exactly the members. */
  lemma SortMembers(s: seq<Pair>)
    ensures |Sort(s)| == |s| && forall c :: c in Sort(s) <==> c in s
  {
    var r := Sort(s);
    SortFacts(s);
    assert |r| == |multiset(r)| == |multiset(s)| == |s|;
    forall c
      ensures c in r <==> c in s
    {
      assert c in r <==> c in multiset(r);
      assert c in s <==> c in multiset(s);
    }
  }

  /** Shifting by the negated lower bounds mx, my and sorting keeps the length; every cell is then non-negative and comes from p. */
  lemma ShiftSortCells(p: seq<Pair>, mx: int, my: int)
    requires forall i :: 0 <= i < |p| ==> mx <= p[i].0 && my <= p[i].1
    ensures |Sort(Shift(p, -mx, -my))| == |p|
    ensures forall c :: c in Sort(Shift(p, -mx, -my)) ==> c.0 >= 0 && c.1 >= 0 && (c.0 + mx, c.1 + my) in p
  {
    var s := Shift(p, -mx, -my);
    SortMembers(s);
    forall c | c in Sort(s)
      ensures c.0 >= 0 && c.1 >= 0 && (c.0 + mx, c.1 + my) in p
    {
      var i :| 0 <= i < |s| && s[i] == c;
      assert p[i] == (c.0 + mx, c.1 + my);
    }
  }

  /** Shifting by the least x and y and sorting gives a sorted, anchored permutation of the shifted cells. */
  lemma NormalFormFacts(p: seq<Pair>, mx: int, my: int)
    requires p != [] && mx == MinX(p) && my == MinY(p)
    ensures var r := Sort(Shift(p, -mx, -my));
      |r| == |p| && Sorted(r) && Anchored(r) && multiset(r) == multiset(Shift(p, -mx, -my))
  {
    MinXFacts(p);
    MinYFacts(p);
    var ix :| 0 <= ix < |p| && p[ix].0 == mx;
    var iy :| 0 <= iy < |p| && p[iy].1 == my;
    var s := Shift(p, -mx, -my);
    SortFacts(s);
    assert |Sort(s)| == |multiset(Sort(s))| == |multiset(s)| == |p|;
    ShiftSortAnchored(p, mx, my, ix, iy);
  }

  /** Shifting and sorting keeps a shape free of repeated cells. */
  lemma ShiftSortNoDup(p: seq<Pair>, mx: int, my: int)
    requires NoDup(p)
    ensures NoDup(Sort(Shift(p, -mx, -my)))
  {
    ShiftBack(p, -mx, -my);
    SortNoDup(Shift(p, -mx, -my));
  }

  /** Shifting by bounds that some cell attains on each axis, then sorting, gives an anchored shape. */
  lemma ShiftSortAnchored(p: seq<Pair>, mx: int, my: int, ix: int, iy: int)
    requires forall i :: 0 <= i < |p| ==> mx <= p[i].0 && my <= p[i].1
    requires 0 <= ix < |p| && 0 <= iy < |p| && p[ix].0 == mx && p[iy].1 == my
    ensures Anchored(Sort(Shift(p, -mx, -my)))
  {
    var s := Shift(p, -mx, -my);
    ShiftSortCells(p, mx, my);
    SortKeeps(s, ix);
    SortKeeps(s, iy);
    AnchoredBy(Sort(s), s[ix], s[iy]);
  }

  /** Every element of a list is in its sorted copy. */
  lemma SortKeeps(s: seq<Pair>, i: int)
    requires 0 <= i < |s|
    ensures s[i] in Sort(s)
  {
    SortMembers(s);
  }

  /** The smallest coordinates of a non-empty shape, both zero after shifting by their negatives. */
  predicate Anchored(p: seq<Pair>)
  {
    p != [] && MinX(p) == 0 && MinY(p) == 0
  }

  /** A shape with no negative coordinate, a cell on the y axis and a cell on the x axis is anchored. */
  lemma AnchoredBy(p: seq<Pair>, a: Pair, b: Pair)
    requires a in p && b in p && a.0 == 0 && b.1 == 0
    requires forall c :: c in p ==> c.0 >= 0 && c.1 >= 0
    ensures Anchored(p)
  {
    MinXFacts(p);
    MinYFacts(p);
    var i :| 0 <= i < |p| && p[i] == a;
    var j :| 0 <= j < |p| && p[j] == b;
    var kx :| 0 <= kx < |p| && p[kx].0 == MinX(p);
    var ky :| 0 <= ky < |p| && p[ky].1 == MinY(p);
    assert p[kx] in p && p[ky] in p;
  }
}
