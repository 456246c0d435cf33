/**
 * The solver front end of `smt_utils.py`: variable registration through a
 * cache shared by every problem, constraint acceptance, the all-solutions
 * enumeration with blocking clauses, and the fixed-width folds and
 * distances the puzzle encoders build objectives from.
 *
 * The SMT engine itself is abstracted as the finite set of assignments that
 * satisfy everything asserted so far; asserting a formula filters that set,
 * and a satisfiable check hands back any one of its members.
 */
module Smt {
  import opened Py

  /** A variable handle: a one-bit variable or a bit-vector of some width, built for one backend. */
  datatype Var = BitVar(name: string, z3: bool) | BVVar(name: string, z3: bool, width: nat)

  /** A model of the engine: a value for each variable (a missing one reads as 0). */
  type Assignment = map<Var, int>

  /** What `add_constraint` may be handed. */
  datatype Constraint =
    | Formula(holds: Assignment -> bool)                 // a formula-constructor object
    | BitTerm(z3: bool, holds: Assignment -> bool)       // a one-bit term of some backend
    | Other                                              // anything else

  function Lookup(a: Assignment, v: Var): int
  {
    if v in a then a[v] else 0
  }

  /** Two models give the same value to every variable of `vs`. */
  predicate Agree(a: Assignment, b: Assignment, vs: seq<Var>)
  {
    forall i :: 0 <= i < |vs| ==> Lookup(a, vs[i]) == Lookup(b, vs[i])
  }

  /** The solution reported to the caller: the model restricted to the free variables. */
  function Project(m: Assignment, free: seq<Var>): (r: map<Var, int>)
    ensures r.Keys == set i | 0 <= i < |free| :: free[i]
    ensures forall v :: v in r ==> r[v] == Lookup(m, v)
  {
    map v | v in (set i | 0 <= i < |free| :: free[i]) :: Lookup(m, v)
  }

  /** The models left once the blocking clauses of all of `ms` are asserted. */
  function Remaining(space: set<Assignment>, ms: seq<Assignment>, unique: seq<Var>): (r: set<Assignment>)
    ensures r <= space
    ensures forall a :: a in r <==> a in space && forall i :: 0 <= i < |ms| ==> !Agree(a, ms[i], unique)
  {
    set a | a in space && forall i :: 0 <= i < |ms| ==> !Agree(a, ms[i], unique)
  }

  /** Asserting the blocking clause of a model removes it, and everything that agrees with it on `unique`. */
  lemma BlockShrinks(space: set<Assignment>, ms: seq<Assignment>, m: Assignment, unique: seq<Var>)
    requires m in Remaining(space, ms, unique)
    ensures Remaining(space, ms + [m], unique) < Remaining(space, ms, unique)
    ensures forall a :: a in Remaining(space, ms + [m], unique) <==>
                        a in Remaining(space, ms, unique) && !Agree(a, m, unique)
  {
    assert Agree(m, m, unique);
    assert (ms + [m])[|ms|] == m;
    assert m !in Remaining(space, ms + [m], unique);
    assert forall i :: 0 <= i < |ms| ==> (ms + [m])[i] == ms[i];
  }

  /** The blocking clause of m keeps exactly the assignments that disagree with m on `unique`. */
  function Block(space: set<Assignment>, m: Assignment, unique: seq<Var>): (r: set<Assignment>)
    ensures forall a :: a in r <==> a in space && !Agree(a, m, unique)
  {
    set a | a in space && !Agree(a, m, unique)
  }

  /** Blocking a reported model takes one more model off what is left, and shrinks it. */
  lemma BlockStep(start: set<Assignment>, ms: seq<Assignment>, m: Assignment, unique: seq<Var>)
    requires m in Remaining(start, ms, unique)
    ensures Block(Remaining(start, ms, unique), m, unique) == Remaining(start, ms + [m], unique)
    ensures |Remaining(start, ms + [m], unique)| < |Remaining(start, ms, unique)|
  {
    BlockShrinks(start, ms, m, unique);
    ProperSubsetCard(Remaining(start, ms + [m], unique), Remaining(start, ms, unique), m);
  }

  /** Each report is the projection of a model drawn from `start`. */
  ghost predicate Reported(sols: seq<map<Var, int>>, models: seq<Assignment>, start: set<Assignment>, free: seq<Var>)
  {
    |sols| == |models| &&
    forall i :: 0 <= i < |sols| ==> models[i] in start && sols[i] == Project(models[i], free)
  }

  lemma ReportedSnoc(sols: seq<map<Var, int>>, models: seq<Assignment>, start: set<Assignment>, free: seq<Var>, m: Assignment)
    requires Reported(sols, models, start, free) && m in start
    ensures Reported(sols + [Project(m, free)], models + [m], start, free)
  {
  }

  lemma ProperSubsetCard<T>(a: set<T>, b: set<T>, x: T)
    requires a <= b && x in b && x !in a
    ensures |a| < |b|
  {
    SubsetCard(a, b - {x});
  }

  lemma SubsetCard<T>(a: set<T>, b: set<T>)
    requires a <= b
    ensures |a| <= |b|
    decreases a
  {
    if a != {} {
      var y :| y in a;
      SubsetCard(a - {y}, b - {y});
    }
  }

  /** Every pair of reported models differs on the unique variables. */
  predicate Distinct(ms: seq<Assignment>, unique: seq<Var>)
  {
    forall i, j :: 0 <= i < j < |ms| ==> !Agree(ms[j], ms[i], unique)
  }

  lemma DistinctSnoc(ms: seq<Assignment>, m: Assignment, unique: seq<Var>)
    requires Distinct(ms, unique)
    requires forall i :: 0 <= i < |ms| ==> !Agree(m, ms[i], unique)
    ensures Distinct(ms + [m], unique)
  {
    var ms' := ms + [m];
    forall i, j | 0 <= i < j < |ms'|
      ensures !Agree(ms'[j], ms'[i], unique)
    {
      if j < |ms| {
        assert ms'[j] == ms[j] && ms'[i] == ms[i];
      }
    }
  }

  /** With no unique variables every model agrees with every other, so at most one solution is reported. */
  lemma NoUniqueVarsOneSolution(ms: seq<Assignment>)
    requires Distinct(ms, [])
    ensures |ms| <= 1
  {
    if |ms| >= 2 {
      assert Agree(ms[1], ms[0], []);
    }
  }

  // ---------------------------------------------------------------------
  // Names
  // ---------------------------------------------------------------------

  /** The cache key of a request: name, backend flag and requested length. */
  function Key(name: string, isZ3: bool, bvlen: int): string
  {
    name + "_" + IntToString(if isZ3 then 1 else 0) + "_" + IntToString(bvlen)
  }

  /** The engine-level name of the variable. */
  function VarName(name: string, bvlen: int): string
  {
    name + "_" + IntToString(bvlen)
  }

  /** What follows the last '_' of a string (all of it when there is none). */
  function AfterLastSeparator(s: string): string
  {
    if s == [] || s[|s| - 1] == '_' then [] else AfterLastSeparator(s[..|s| - 1]) + [s[|s| - 1]]
  }

  lemma {:induction false} AfterLastSeparatorOf(p: string, t: string)
    requires forall i :: 0 <= i < |t| ==> t[i] != '_'
    ensures AfterLastSeparator(p + "_" + t) == t
  {
    var u := p + "_" + t;
    if t != [] {
      assert u[..|u| - 1] == p + "_" + t[..|t| - 1];
      AfterLastSeparatorOf(p, t[..|t| - 1]);
    }
  }

  /** Splitting at the last '_' when the tail holds none. */
  lemma LastSeparator(p1: string, t1: string, p2: string, t2: string)
    requires forall i :: 0 <= i < |t1| ==> t1[i] != '_'
    requires forall i :: 0 <= i < |t2| ==> t2[i] != '_'
    requires p1 + "_" + t1 == p2 + "_" + t2
    ensures p1 == p2 && t1 == t2
  {
    var s := p1 + "_" + t1;
    AfterLastSeparatorOf(p1, t1);
    AfterLastSeparatorOf(p2, t2);
    assert p1 == s[..|p1|] == p2;
  }

  /** Two requests share a cache entry exactly when name, backend and length all coincide. */
  lemma KeyInjective(n1: string, z1: bool, b1: int, n2: string, z2: bool, b2: int)
    ensures Key(n1, z1, b1) == Key(n2, z2, b2) <==> n1 == n2 && z1 == z2 && b1 == b2
  {
    if Key(n1, z1, b1) == Key(n2, z2, b2) {
      var d1 := IntToString(if z1 then 1 else 0);
      var d2 := IntToString(if z2 then 1 else 0);
      assert Key(n1, z1, b1) == (n1 + "_" + d1) + "_" + IntToString(b1);
      assert Key(n2, z2, b2) == (n2 + "_" + d2) + "_" + IntToString(b2);
      LastSeparator(n1 + "_" + d1, IntToString(b1), n2 + "_" + d2, IntToString(b2));
      IntToStringInjective(b1, b2);
      assert |d1| == 1 && |d2| == 1;
      LastSeparator(n1, d1, n2, d2);
      IntToStringInjective(if z1 then 1 else 0, if z2 then 1 else 0);
    }
  }

  /** The module-level variable cache, shared by every problem in the process. */
  class Cache {
    var entries: map<string, Var>

    constructor()
      ensures entries == map[]
    {
      entries := map[];
    }
  }

  /** The handle a fresh request builds: one bit for length 0, the problem's default width otherwise. */
  function FreshHandle(name: string, isZ3: bool, bvlen: int, defaultBvlen: nat): (v: Var)
    ensures v.name == VarName(name, bvlen) && v.z3 == isZ3
    ensures v.BitVar? <==> bvlen == 0
    ensures v.BVVar? ==> v.width == defaultBvlen
  {
    if bvlen == 0 then BitVar(VarName(name, bvlen), isZ3) else BVVar(VarName(name, bvlen), isZ3, defaultBvlen)
  }

  // ---------------------------------------------------------------------
  // Fixed-width arithmetic
  // ---------------------------------------------------------------------

  function Pow2(n: nat): (r: nat)
    ensures r >= 1
  {
    if n == 0 then 1 else 2 * Pow2(n - 1)
  }

  /** A Python integer converted to a bit-vector of width `w`: its low `w` bits. */
  function ToBV(w: nat, x: int): (r: int)
    ensures 0 <= r < Pow2(w)
  {
    x % Pow2(w)
  }

  /** A value that already fits is its own bit pattern. */
  lemma ToBVFits(w: nat, x: int)
    requires 0 <= x < Pow2(w)
    ensures ToBV(w, x) == x
  {
    DivModUnique(x, 0, x, Pow2(w));
  }

  /** The two's-complement reading of a width-`w` bit pattern. */
  function Signed(w: nat, x: int): int
    requires w >= 1
  {
    if x < Pow2(w - 1) then x else x - Pow2(w)
  }

  function Sum(vals: seq<int>): int
  {
    if vals == [] then 0 else Sum(vals[..|vals| - 1]) + vals[|vals| - 1]
  }

  predicate AllBelow(vals: seq<int>, bound: int)
  {
    forall i :: 0 <= i < |vals| ==> 0 <= vals[i] < bound
  }

  lemma ModShift(x: int, q: int, m: int)
    requires m > 0
    ensures (x + q * m) % m == x % m
  {
    var r := x % m;
    var k := x / m;
    assert x == k * m + r;
    assert (k + q) * m == k * m + q * m;
    DivModUnique(x + q * m, k + q, r, m);
  }

  lemma ModAdd(a: int, v: int, m: int)
    requires m > 0
    ensures (a % m + v) % m == (a + v) % m
  {
    var q := a / m;
    assert a == q * m + a % m;
    ModShift(a % m + v, q, m);
  }

  /** A signed difference of two patterns, taken back to `w` bits: the subtraction of hwtypes. */
  function Sub(w: nat, a: int, b: int): (r: int)
    ensures 0 <= r < Pow2(w)
  {
    (a - b) % Pow2(w)
  }

  lemma SubFits(w: nat, a: int, b: int)
    requires 0 <= a - b < Pow2(w)
    ensures Sub(w, a, b) == a - b
  {
    DivModUnique(a - b, 0, a - b, Pow2(w));
  }

  lemma SubWraps(w: nat, a: int, b: int)
    requires 0 <= a - b + Pow2(w) && a - b < 0
    ensures Sub(w, a, b) == a - b + Pow2(w)
  {
    DivModUnique(a - b, -1, a - b + Pow2(w), Pow2(w));
  }

  /** `L1`: the distance of two coordinates, comparing them as SIGNED numbers. */
  function L1(w: nat, a: int, b: int): (r: int)
    requires w >= 1
    ensures 0 <= r < Pow2(w)
  {
    var x := ToBV(w, a);
    var y := ToBV(w, b);
    if Signed(w, x) >= Signed(w, y) then Sub(w, x, y) else Sub(w, y, x)
  }

  /** `L1` does not depend on the order of its arguments. */
  lemma L1Symmetric(w: nat, a: int, b: int)
    requires w >= 1
    ensures L1(w, a, b) == L1(w, b, a)
  {
    var x := ToBV(w, a);
    var y := ToBV(w, b);
    if Signed(w, x) == Signed(w, y) {
      assert x == y;
    }
  }

  /** Between non-negative coordinates below half the range, `L1` is the absolute difference. */
  lemma L1IsDistance(w: nat, a: int, b: int)
    requires w >= 1
    requires 0 <= a < Pow2(w - 1) && 0 <= b < Pow2(w - 1)
    ensures L1(w, a, b) == if a >= b then a - b else b - a
  {
    assert Pow2(w) == 2 * Pow2(w - 1);
    ToBVFits(w, a);
    ToBVFits(w, b);
    if a >= b {
      SubFits(w, a, b);
    } else {
      SubFits(w, b, a);
    }
  }

  /** `L1_circ`: the shorter way round a circle of `hScale` positions, comparing as UNSIGNED numbers. */
  function L1Circ(w: nat, a: int, b: int, hScale: int): (r: int)
    ensures 0 <= r < Pow2(w)
  {
    var x := ToBV(w, a);
    var y := ToBV(w, b);
    var d := if x > y then Sub(w, x, y) else Sub(w, y, x);
    var d2 := Sub(w, ToBV(w, hScale), d);
    if d < d2 then d else d2
  }

  /** On a circle that fits the width, `L1_circ` is the circular distance, at most half way round. */
  lemma L1CircIsCircularDistance(w: nat, a: int, b: int, hScale: int)
    requires 0 <= a < hScale && 0 <= b < hScale && hScale < Pow2(w)
    ensures var d := if a >= b then a - b else b - a;
            L1Circ(w, a, b, hScale) == (if d < hScale - d then d else hScale - d)
    ensures 2 * L1Circ(w, a, b, hScale) <= hScale
    ensures L1Circ(w, a, b, hScale) == L1Circ(w, b, a, hScale)
  {
    ToBVFits(w, a);
    ToBVFits(w, b);
    ToBVFits(w, hScale);
    var d := if a >= b then a - b else b - a;
    if a > b {
      SubFits(w, a, b);
    } else {
      SubFits(w, b, a);
    }
    SubFits(w, hScale, d);
  }

  /** `diff_circ`: the step from `b` forward to `a` round a circle of `hScale` positions. */
  function DiffCirc(w: nat, a: int, b: int, hScale: int): (r: int)
    ensures 0 <= r < Pow2(w)
  {
    var x := ToBV(w, a);
    var y := ToBV(w, b);
    if y > x then ToBV(w, x + ToBV(w, hScale) - y) else Sub(w, x, y)
  }

  /** On a circle that fits the width, `diff_circ` is the difference modulo the circle. */
  lemma DiffCircIsModular(w: nat, a: int, b: int, hScale: int)
    requires 0 <= a < hScale && 0 <= b < hScale && hScale < Pow2(w)
    ensures DiffCirc(w, a, b, hScale) == (a - b) % hScale
  {
    ToBVFits(w, a);
    ToBVFits(w, b);
    ToBVFits(w, hScale);
    if b > a {
      ToBVFits(w, a + hScale - b);
      DivModUnique(a - b, -1, a + hScale - b, hScale);
    } else {
      SubFits(w, a, b);
      DivModUnique(a - b, 0, a - b, hScale);
    }
  }

  /** `L2`: the squared difference, in `w` bits. */
  function L2(w: nat, a: int, b: int): (r: int)
    ensures 0 <= r < Pow2(w)
  {
    var d := Sub(w, ToBV(w, a), ToBV(w, b));
    (d * d) % Pow2(w)
  }

  /** When the square fits, `L2` is the exact squared difference, whichever way round. */
  lemma L2IsSquare(w: nat, a: int, b: int)
    requires 0 <= a < Pow2(w) && 0 <= b < Pow2(w)
    requires (a - b) * (a - b) < Pow2(w)
    ensures L2(w, a, b) == (a - b) * (a - b)
  {
    var m := Pow2(w);
    ToBVFits(w, a);
    ToBVFits(w, b);
    var e := a - b;
    assert (e * e) % m == e * e by {
      DivModUnique(e * e, 0, e * e, m);
    }
    if a >= b {
      SubFits(w, a, b);
    } else {
      SubWraps(w, a, b);
      WrappedSquare(e, m);
    }
  }

  /** Squaring the wrapped difference gives the same residue as squaring the difference. */
  lemma WrappedSquare(e: int, m: int)
    requires m > 0
    ensures ((e + m) * (e + m)) % m == (e * e) % m
  {
    assert (e + m) * (e + m) == e * e + (2 * e + m) * m;
    ModShift(e * e, 2 * e + m, m);
  }

  /** The distance kinds `norm` accepts. */
  predicate NormKind(kind: string)
  {
    kind == "diff" || kind == "diff_circ" || kind == "L1" || kind == "L1_circ" || kind == "L2"
  }

  /** The objective `norm` sums, one term per pair of coordinates. */
  function NormTerms(w: nat, pairs: seq<(int, int)>, kind: string, hScale: int): (r: seq<int>)
    requires w >= 1
    requires NormKind(kind)
    ensures |r| == |pairs|
    ensures AllBelow(r, Pow2(w))
  {
    seq(|pairs|, i requires 0 <= i < |pairs| => Term(w, kind, pairs[i].0, pairs[i].1, hScale))
  }

  /** One term of `norm`: the kind's distance built from bit-vector operations. */
  function Term(w: nat, kind: string, a: int, b: int, hScale: int): (r: int)
    requires w >= 1
    ensures 0 <= r < Pow2(w)
  {
    if kind == "diff" then Sub(w, ToBV(w, a), ToBV(w, b))
    else if kind == "diff_circ" then DiffCirc(w, a, b, hScale)
    else if kind == "L1" then L1(w, a, b)
    else if kind == "L2" then L2(w, a, b)
    else L1Circ(w, a, b, hScale)
  }

  /** The distance each kind stands for, on exact integers. */
  function Distance(kind: string, a: int, b: int, hScale: int): int
    requires hScale > 0
  {
    var d := if a >= b then a - b else b - a;
    if kind == "diff" then a - b
    else if kind == "diff_circ" then (a - b) % hScale
    else if kind == "L1" then d
    else if kind == "L2" then (a - b) * (a - b)
    else if d < hScale - d then d else hScale - d
  }

  /** The coordinates lie on a circle of hScale positions that fits in half the
      width, and for L2 every square fits the width. */
  predicate NormInRange(w: nat, pairs: seq<(int, int)>, kind: string, hScale: int)
  {
    forall i :: 0 <= i < |pairs| ==> InRange(w, pairs[i], kind, hScale)
  }

  predicate InRange(w: nat, p: (int, int), kind: string, hScale: int)
  {
    w >= 1 && 0 < hScale < Pow2(w - 1) && 0 <= p.0 < hScale && 0 <= p.1 < hScale
    && (kind == "L2" ==> Square(p.0 - p.1) < Pow2(w))
  }

  function Square(d: int): int
  {
    d * d
  }

  /** Each kind of `norm` term agrees, modulo the width, with the distance it stands for. */
  lemma TermIsDistance(w: nat, kind: string, a: int, b: int, hScale: int)
    requires NormKind(kind) && InRange(w, (a, b), kind, hScale)
    ensures Term(w, kind, a, b, hScale) % Pow2(w) == Distance(kind, a, b, hScale) % Pow2(w)
  {
    var m := Pow2(w);
    var t := Term(w, kind, a, b, hScale);
    assert m == 2 * Pow2(w - 1);
    DivModUnique(t, 0, t, m);
    if kind == "diff" {
      DiffTerm(w, a, b);
    } else if kind == "diff_circ" {
      DiffCircIsModular(w, a, b, hScale);
      DivModUnique((a - b) % hScale, 0, t, m);
    } else if kind == "L1" {
      L1IsDistance(w, a, b);
    } else if kind == "L2" {
      L2IsSquare(w, a, b);
    } else {
      L1CircIsCircularDistance(w, a, b, hScale);
    }
  }

  /** The `diff` term is the difference taken back to the width. */
  lemma DiffTerm(w: nat, a: int, b: int)
    requires 0 <= a < Pow2(w) && 0 <= b < Pow2(w)
    ensures Sub(w, ToBV(w, a), ToBV(w, b)) == (a - b) % Pow2(w)
  {
    ToBVFits(w, a);
    ToBVFits(w, b);
  }

  /** Sums of entries that agree modulo m agree modulo m. */
  lemma {:induction false} SumCongruent(xs: seq<int>, ys: seq<int>, m: int)
    requires m > 0 && |xs| == |ys|
    requires forall i :: 0 <= i < |xs| ==> xs[i] % m == ys[i] % m
    ensures Sum(xs) % m == Sum(ys) % m
  {
    if xs != [] {
      var n := |xs| - 1;
      SumCongruent(xs[..n], ys[..n], m);
      ModAdd(Sum(xs[..n]), xs[n], m);
      ModAdd(Sum(ys[..n]), ys[n], m);
      ModAdd(xs[n], Sum(xs[..n]) % m, m);
      ModAdd(ys[n], Sum(ys[..n]) % m, m);
    }
  }

  /** The distances of all pairs for one kind. */
  function Distances(pairs: seq<(int, int)>, kind: string, hScale: int): (r: seq<int>)
    requires hScale > 0
    ensures |r| == |pairs|
  {
    seq(|pairs|, i requires 0 <= i < |pairs| => Distance(kind, pairs[i].0, pairs[i].1, hScale))
  }

  /** Every kind of `norm` totals, in the width, the distances it stands for:
      signed differences, differences round the circle, absolute differences,
      circular distances or squared differences. */
  lemma NormIsTotalDistance(w: nat, pairs: seq<(int, int)>, kind: string, hScale: int)
    requires w >= 1 && hScale > 0
    requires NormKind(kind) && NormInRange(w, pairs, kind, hScale)
    ensures Sum(NormTerms(w, pairs, kind, hScale)) % Pow2(w) == Sum(Distances(pairs, kind, hScale)) % Pow2(w)
  {
    forall i | 0 <= i < |pairs|
      ensures NormTerms(w, pairs, kind, hScale)[i] % Pow2(w) == Distances(pairs, kind, hScale)[i] % Pow2(w)
    {
      var p := pairs[i];
      assert InRange(w, p, kind, hScale);
      TermIsDistance(w, kind, p.0, p.1, hScale);
    }
    SumCongruent(NormTerms(w, pairs, kind, hScale), Distances(pairs, kind, hScale), Pow2(w));
  }

  /** A fold result: the least of the entries, or `init` if that is smaller. */
  predicate IsLeast(m: int, init: int, vals: seq<int>)
  {
    (m == init || m in vals) &&
    m <= init && forall i :: 0 <= i < |vals| ==> m <= vals[i]
  }

  /** A fold result: the greatest of the entries, or `init` if that is larger. */
  predicate IsGreatest(m: int, init: int, vals: seq<int>)
  {
    (m == init || m in vals) &&
    m >= init && forall i :: 0 <= i < |vals| ==> m >= vals[i]
  }

  /** The entries whose predicate holds. */
  function Selected(vals: seq<int>, preds: seq<bool>): (r: seq<int>)
    requires |vals| == |preds|
    ensures |r| <= |vals|
    ensures forall x :: x in r <==> exists i :: 0 <= i < |vals| && preds[i] && vals[i] == x
  {
    if vals == [] then []
    else
      var rest := Selected(vals[..|vals| - 1], preds[..|preds| - 1]);
      assert forall i :: 0 <= i < |vals| - 1 ==> vals[..|vals| - 1][i] == vals[i];
      if preds[|preds| - 1] then rest + [vals[|vals| - 1]] else rest
  }

  /** One solving problem: its default width, its backend, its registered variables and its engine. */
  class Problem {
    const defaultBvlen: nat
    const isZ3: bool
    const cache: Cache
    var freeVars: seq<Var>
    var uniqueVars: seq<Var>
    /** The assignments satisfying every constraint asserted so far. */
    var space: set<Assignment>

    constructor(defaultBvlen: nat, isZ3: bool, cache: Cache, initial: set<Assignment>)
      ensures this.defaultBvlen == defaultBvlen && this.isZ3 == isZ3 && this.cache == cache
      ensures freeVars == [] && uniqueVars == [] && space == initial
    {
      this.defaultBvlen := defaultBvlen;
      this.isZ3 := isZ3;
      this.cache := cache;
      freeVars := [];
      uniqueVars := [];
      space := initial;
    }

    /**
     * `new_var`: the handle comes from the shared cache when the same request
     * was made before (by any problem); it is always recorded as free, and
     * as unique when asked.
     */
    method NewVar(name: string, bvlen: Option<int>, isUnique: bool) returns (v: Var)
      modifies this`freeVars, this`uniqueVars, cache
      ensures var len := if bvlen.Some? then bvlen.value else defaultBvlen;
              var key := Key(name, isZ3, len);
              (key in old(cache.entries) ==> v == old(cache.entries)[key] && cache.entries == old(cache.entries)) &&
              (key !in old(cache.entries) ==> v == FreshHandle(name, isZ3, len, defaultBvlen) &&
                                              cache.entries == old(cache.entries)[key := v])
      ensures freeVars == old(freeVars) + [v]
      ensures uniqueVars == if isUnique then old(uniqueVars) + [v] else old(uniqueVars)
    {
      var len := if bvlen.Some? then bvlen.value else defaultBvlen;
      var key := Key(name, isZ3, len);
      if key in cache.entries {
        v := cache.entries[key];
      } else {
        v := FreshHandle(name, isZ3, len, defaultBvlen);
        cache.entries := cache.entries[key := v];
      }
      freeVars := freeVars + [v];
      if isUnique {
        uniqueVars := uniqueVars + [v];
      }
    }

    /**
     * `add_constraint`: a formula-constructor object, or a one-bit term of
     * this problem's backend, is asserted; anything else is a ValueError
     * and the engine is left alone.
     */
    method AddConstraint(c: Constraint) returns (r: Result<()>)
      modifies this`space
      ensures (c.Formula? || (c.BitTerm? && c.z3 == isZ3)) ==>
                (r == Ok(()) && space == set a | a in old(space) && c.holds(a))
      ensures !(c.Formula? || (c.BitTerm? && c.z3 == isZ3)) ==>
                (r == Err(ValueError) && space == old(space))
    {
      if c.Formula? || (c.BitTerm? && c.z3 == isZ3) {
        space := set a | a in space && c.holds(a);
        r := Ok(());
      } else {
        r := Err(ValueError);
      }
    }

    /**
     * The all-solutions loop shared by both backends: check, report the
     * model projected onto the free variables, then block every model that
     * agrees with it on the unique variables. A positive `cap` stops right
     * after the cap-th report, before its blocking clause is asserted.
     */
    method AllSat(cap: nat) returns (sols: seq<map<Var, int>>, ghost models: seq<Assignment>)
      modifies this`space
      ensures |sols| == |models|
      ensures forall i :: 0 <= i < |sols| ==> models[i] in old(space) && sols[i] == Project(models[i], freeVars)
      ensures Distinct(models, uniqueVars)
      ensures cap > 0 ==> |sols| <= cap
      ensures (cap == 0 || |sols| < cap) ==>
              (space == {} &&
               forall a :: a in old(space) ==> exists i :: 0 <= i < |models| && Agree(a, models[i], uniqueVars))
      ensures space == Remaining(old(space), if cap > 0 && |sols| == cap then models[..cap - 1] else models, uniqueVars)
    {
      sols := [];
      models := [];
      ghost var start := space;
      while space != {}
        invariant Reported(sols, models, start, freeVars)
        invariant Distinct(models, uniqueVars)
        invariant cap > 0 ==> |sols| < cap
        invariant space == Remaining(start, models, uniqueVars)
        decreases |space|
      {
        var m :| m in space;
        DistinctSnoc(models, m, uniqueVars);
        ReportedSnoc(sols, models, start, freeVars, m);
        BlockStep(start, models, m, uniqueVars);
        sols := sols + [Project(m, freeVars)];
        models := models + [m];
        if cap > 0 && |sols| >= cap {
          assert models[..cap - 1] == models[..|models| - 1];
          return;
        }
        space := Block(space, m, uniqueVars);
      }
      forall a | a in start
        ensures exists i :: 0 <= i < |models| && Agree(a, models[i], uniqueVars)
      {
        assert a !in Remaining(start, models, uniqueVars);
      }
    }

    /** `solve`: a negative count fails its assertion; 0 asks for every solution; k stops after k. */
    method Solve(numSols: int) returns (r: Result<seq<map<Var, int>>>, ghost models: seq<Assignment>)
      modifies this`space
      ensures numSols < 0 ==> r == Err(AssertionError) && space == old(space)
      ensures numSols >= 0 ==>
              (r.Ok? && |r.value| == |models| &&
               (forall i :: 0 <= i < |models| ==> models[i] in old(space) && r.value[i] == Project(models[i], freeVars)) &&
               Distinct(models, uniqueVars) &&
               (numSols > 0 ==> |models| <= numSols) &&
               ((numSols == 0 || |models| < numSols) ==>
                 forall a :: a in old(space) ==> exists i :: 0 <= i < |models| && Agree(a, models[i], uniqueVars)))
      ensures numSols >= 0 ==>
              space == Remaining(old(space), if numSols > 0 && |models| == numSols then models[..numSols - 1] else models, uniqueVars)
    {
      if numSols < 0 {
        r := Err(AssertionError);
        models := [];
        return;
      }
      var sols;
      sols, models := AllSat(numSols);
      r := Ok(sols);
    }

    /** `gen_min`: fold from the all-ones pattern, keeping the smaller value (unsigned). */
    method GenMin(vals: seq<int>) returns (m: int)
      requires AllBelow(vals, Pow2(defaultBvlen))
      ensures IsLeast(m, Pow2(defaultBvlen) - 1, vals)
      ensures vals != [] ==> m in vals
    {
      m := Pow2(defaultBvlen) - 1;
      for i := 0 to |vals|
        invariant IsLeast(m, Pow2(defaultBvlen) - 1, vals[..i])
        invariant i > 0 ==> m in vals[..i]
      {
        assert vals[..i + 1] == vals[..i] + [vals[i]];
        if vals[i] < m {
          m := vals[i];
        }
      }
      assert vals[..|vals|] == vals;
    }

    /** `gen_max`: fold from zero, keeping the larger value (unsigned). */
    method GenMax(vals: seq<int>) returns (m: int)
      requires AllBelow(vals, Pow2(defaultBvlen))
      ensures IsGreatest(m, 0, vals)
      ensures vals != [] ==> m in vals
    {
      m := 0;
      for i := 0 to |vals|
        invariant IsGreatest(m, 0, vals[..i])
        invariant i > 0 ==> m in vals[..i]
      {
        assert vals[..i + 1] == vals[..i] + [vals[i]];
        if vals[i] > m {
          m := vals[i];
        }
      }
      assert vals[..|vals|] == vals;
    }

    /** `gen_min_pred`: the least value whose predicate holds; the lists must be equally long. */
    method GenMinPred(vals: seq<int>, preds: seq<bool>) returns (r: Result<int>)
      requires AllBelow(vals, Pow2(defaultBvlen))
      ensures |vals| != |preds| <==> r == Err(AssertionError)
      ensures |vals| == |preds| ==> r.Ok? && IsLeast(r.value, Pow2(defaultBvlen) - 1, Selected(vals, preds))
    {
      if |vals| != |preds| {
        return Err(AssertionError);
      }
      var m := Pow2(defaultBvlen) - 1;
      for i := 0 to |vals|
        invariant IsLeast(m, Pow2(defaultBvlen) - 1, Selected(vals[..i], preds[..i]))
      {
        assert vals[..i + 1][..i] == vals[..i] && preds[..i + 1][..i] == preds[..i];
        if preds[i] && vals[i] < m {
          m := vals[i];
        }
      }
      assert vals[..|vals|] == vals && preds[..|preds|] == preds;
      r := Ok(m);
    }

    /** `gen_total`: the sum, in the requested width (default: the problem's), wrapping on overflow. */
    method GenTotal(vals: seq<int>, bvlen: Option<nat>) returns (t: int)
      ensures var w := if bvlen.Some? then bvlen.value else defaultBvlen;
              t == Sum(vals) % Pow2(w) && 0 <= t < Pow2(w)
    {
      var w := if bvlen.Some? then bvlen.value else defaultBvlen;
      var m := Pow2(w);
      t := 0;
      assert vals[..0] == [];
      DivModUnique(0, 0, 0, m);
      for i := 0 to |vals|
        invariant t == Sum(vals[..i]) % m
      {
        assert vals[..i + 1][..i] == vals[..i];
        ghost var before := Sum(vals[..i]);
        assert Sum(vals[..i + 1]) == before + vals[i];
        ModAdd(before, vals[i], m);
        t := (t + vals[i]) % m;
        assert t == (before + vals[i]) % m;
      }
      assert vals[..|vals|] == vals;
    }

    /** `combine`: dispatch on the mode; an unknown mode, or `min_pred` without predicates, fails an assertion. */
    method Combine(vals: seq<int>, mode: string, preds: Option<seq<bool>>) returns (r: Result<int>)
      requires AllBelow(vals, Pow2(defaultBvlen))
      ensures mode !in {"min", "max", "total", "min_pred"} ==> r == Err(AssertionError)
      ensures mode == "min" ==> r.Ok? && IsLeast(r.value, Pow2(defaultBvlen) - 1, vals)
      ensures mode == "max" ==> r.Ok? && IsGreatest(r.value, 0, vals)
      ensures mode == "total" ==> r == Ok(Sum(vals) % Pow2(defaultBvlen))
      ensures mode == "min_pred" ==>
              if preds.None? || |preds.value| != |vals| then r == Err(AssertionError)
              else r.Ok? && IsLeast(r.value, Pow2(defaultBvlen) - 1, Selected(vals, preds.value))
    {
      if mode == "min" {
        var m := GenMin(vals);
        r := Ok(m);
      } else if mode == "max" {
        var m := GenMax(vals);
        r := Ok(m);
      } else if mode == "total" {
        var t := GenTotal(vals, None);
        r := Ok(t);
      } else if mode == "min_pred" {
        if preds.None? {
          r := Err(AssertionError);
        } else {
          r := GenMinPred(vals, preds.value);
        }
      } else {
        r := Err(AssertionError);
      }
    }

    /** `norm`: the sum of per-pair distances of one kind; any other kind fails an assertion. */
    method Norm(pairs: seq<(int, int)>, kind: string, hScale: int) returns (r: Result<int>)
      requires defaultBvlen >= 1
      ensures !NormKind(kind) <==> r == Err(AssertionError)
      ensures NormKind(kind) ==>
              r == Ok(Sum(NormTerms(defaultBvlen, pairs, kind, hScale)) % Pow2(defaultBvlen))
    {
      if !NormKind(kind) {
        return Err(AssertionError);
      }
      var t := GenTotal(NormTerms(defaultBvlen, pairs, kind, hScale), None);
      r := Ok(t);
    }
  }

  /** `gen_total` does not widen: two halves of the range add up to zero. */
  lemma TotalWraps(w: nat)
    requires w >= 1
    ensures Sum([Pow2(w - 1), Pow2(w - 1)]) % Pow2(w) == 0
  {
    assert Sum([Pow2(w - 1), Pow2(w - 1)]) == Sum([Pow2(w - 1)]) + Pow2(w - 1);
    DivModUnique(Pow2(w), 1, 0, Pow2(w));
  }
}
