/**
 * The arithmetic-expression search of logicpuzzles/broken/digits/digits.py.
 *
 * `solve(digits, goal, ops)` enumerates expressions over the digits: a
 * single digit is itself; otherwise, for every size i and every
 * combination `lhs` of i digits, the right operands are the DISTINCT
 * digits not in `lhs`, and every pair of sub-results is combined with
 * every operator of `ops`. A wrapper records every (value, text) pair any
 * call yields; `solve` returns the texts whose value is the goal, longest
 * first, and the recorded texts by value. The generators are modelled as
 * functions that return everything a call yields, or the first exception
 * the exhaustive consumption in `solve` reaches.
 */
module Digits {
  import opened Py

  /** A yielded pair: the value and the expression text. */
  type Sol = (int, string)

  /** Everything one call of `recurse` yields, and every pair the wrapper recorded during it. */
  datatype Run = Run(out: seq<Sol>, seen: set<Sol>)

  /** Python's `l // r`: the quotient rounded towards minus infinity. */
  function FloorDiv(l: int, r: int): int
    requires r != 0
  {
    if r > 0 then l / r else (-l) / (-r)
  }

  /**
   * `eval(op, l, r)`: None stands for an operation without a natural
   * result (a negative difference, a zero divisor, an inexact quotient);
   * an operator other than the four raises ValueError.
   */
  function Eval(op: char, l: int, r: int): Result<Option<int>>
  {
    if op == '+' then Ok(Some(l + r))
    else if op == '*' then Ok(Some(l * r))
    else if op == '-' then (if l - r < 0 then Ok(None) else Ok(Some(l - r)))
    else if op == '/' then
      (if r == 0 then Ok(None)
       else
         var q := FloorDiv(l, r);
         if q * r != l then Ok(None) else Ok(Some(q)))
    else Err(ValueError)
  }

  /** Only '+', '*', '-' and '/' are operators; any other character raises ValueError. */
  lemma EvalKnown(op: char, l: int, r: int)
    ensures Eval(op, l, r).Ok? <==> op in "+*-/"
    ensures Eval(op, l, r).Err? ==> Eval(op, l, r).error == ValueError
  {
  }

  /** '-' gives v exactly when v is a natural number that added to r gives l, and nothing when l < r. */
  lemma EvalSub(l: int, r: int, v: int)
    ensures Eval('-', l, r) == Ok(Some(v)) <==> v >= 0 && v + r == l
    ensures Eval('-', l, r) == Ok(None) <==> l < r
  {
  }

  /** '/' gives q exactly when q times r is l for a non-zero r: inexact quotients give nothing. */
  lemma EvalDiv(l: int, r: int, q: int)
    ensures Eval('/', l, r) == Ok(Some(q)) <==> r != 0 && q * r == l
  {
    if r != 0 && q * r == l {
      if r > 0 {
        DivModUnique(l, q, 0, r);
      } else {
        assert -l == q * (-r);
        DivModUnique(-l, q, 0, -r);
      }
    }
  }

  /** On natural operands every operator that gives a value gives a natural number. */
  lemma EvalNatural(op: char, l: int, r: int)
    requires l >= 0 && r >= 0
    ensures Eval(op, l, r).Ok? && Eval(op, l, r).value.Some? ==> Eval(op, l, r).value.value >= 0
  {
    if op == '*' {
      assert l * r >= 0;
    }
  }

  /** `f"({lp}{op}{rp})"`. */
  function Text(lp: string, op: char, rp: string): string
  {
    "(" + lp + [op] + rp + ")"
  }

  /**
   * `for op in ops` for one pair of operands: skip a None, assert a
   * natural value (AssertionError otherwise), yield the combined text.
   */
  function Apply(l: Sol, r: Sol, ops: string): Result<seq<Sol>>
    decreases |ops|
  {
    if ops == [] then Ok([])
    else
      match Eval(ops[0], l.0, r.0)
      case Err(e) => Err(e)
      case Ok(v) =>
        if v.None? then Apply(l, r, ops[1..])
        else if v.value < 0 then Err(AssertionError)
        else
          match Apply(l, r, ops[1..])
          case Err(e) => Err(e)
          case Ok(rest) => Ok([(v.value, Text(l.1, ops[0], r.1))] + rest)
  }

  /** The pairs of `itertools.product(lhs_sols, rhs_sols)` with one left operand. */
  function Row(l: Sol, rs: seq<Sol>, ops: string): Result<seq<Sol>>
    decreases |rs|
  {
    if rs == [] then Ok([])
    else
      match Apply(l, rs[0], ops)
      case Err(e) => Err(e)
      case Ok(a) =>
        match Row(l, rs[1..], ops)
        case Err(e) => Err(e)
        case Ok(b) => Ok(a + b)
  }

  /** `for (lval, lp), (rval, rp) in it.product(lhs_sols, rhs_sols)`. */
  function Product(ls: seq<Sol>, rs: seq<Sol>, ops: string): Result<seq<Sol>>
    decreases |ls|
  {
    if ls == [] then Ok([])
    else
      match Row(ls[0], rs, ops)
      case Err(e) => Err(e)
      case Ok(a) =>
        match Product(ls[1..], rs, ops)
        case Err(e) => Err(e)
        case Ok(b) => Ok(a + b)
  }

  /** `itertools.combinations(s, k)`: the k-element subsequences, in lexicographic order of positions. */
  function Combos(s: seq<int>, k: nat): (cs: seq<seq<int>>)
    ensures forall c :: c in cs ==> |c| == k && forall x :: x in c ==> x in s
    decreases |s|
  {
    if k == 0 then [[]]
    else if |s| < k then []
    else
      var with := Combos(s[1..], k - 1);
      assert forall c :: c in with ==> forall x :: x in c ==> x in s;
      seq(|with|, j requires 0 <= j < |with| => [s[0]] + with[j]) + Combos(s[1..], k)
  }

  /** The combinations of one element start with the first element alone. */
  lemma FirstSingle(s: seq<int>)
    requires |s| >= 1
    ensures Combos(s, 1) != [] && Combos(s, 1)[0] == [s[0]]
  {
    assert Combos(s[1..], 0) == [[]];
  }

  /** x put into an ascending list unless it is there already. */
  function InsertNew(x: int, t: seq<int>): seq<int>
  {
    if t == [] then [x]
    else if x < t[0] then [x] + t
    else if x == t[0] then t
    else [t[0]] + InsertNew(x, t[1..])
  }

  lemma {:induction false} InsertNewMembers(x: int, t: seq<int>)
    ensures forall y :: y in InsertNew(x, t) <==> y in t || y == x
  {
    if t != [] && x > t[0] {
      InsertNewMembers(x, t[1..]);
      assert t == [t[0]] + t[1..];
    }
  }

  lemma {:induction false} InsertNewAscending(x: int, t: seq<int>)
    requires Ascending(t)
    ensures Ascending(InsertNew(x, t))
  {
    if t != [] && x > t[0] {
      InsertNewAscending(x, t[1..]);
      var u := InsertNew(x, t[1..]);
      InsertNewMembers(x, t[1..]);
      forall k | 0 <= k < |u|
        ensures t[0] < u[k]
      {
        assert u[k] in u;
      }
    } else if t != [] && x < t[0] {
      forall i, j | 0 <= i < j < |[x] + t|
        ensures ([x] + t)[i] < ([x] + t)[j]
      {
        if i == 0 {
          assert t[0] <= t[j - 1];
        }
      }
    }
  }

  lemma InsertNewFacts(x: int, t: seq<int>)
    requires Ascending(t)
    ensures Ascending(InsertNew(x, t)) && Elements(InsertNew(x, t)) == Elements(t) + {x}
  {
    InsertNewAscending(x, t);
    InsertNewMembers(x, t);
    ElementsIn(t);
    ElementsIn(InsertNew(x, t));
  }

  /** The distinct elements in ascending order. */
  function SortDistinct(s: seq<int>): (r: seq<int>)
    ensures Ascending(r) && Elements(r) == Elements(s)
  {
    if s == [] then []
    else
      InsertNewFacts(s[0], SortDistinct(s[1..]));
      ElementsIn(s);
      ElementsIn(s[1..]);
      InsertNew(s[0], SortDistinct(s[1..]))
  }

  /**
   * `tuple(set(digits) - set(lhs))`: the distinct digits not in lhs, each
   * once, listed in ascending order.
   */
  function Rhs(ds: seq<int>, lhs: seq<int>): (r: seq<int>)
    ensures Ascending(r) && Elements(r) == Elements(ds) - Elements(lhs)
  {
    var kept := Filter(ds, x => x !in lhs);
    ElementsIn(kept);
    ElementsIn(ds);
    ElementsIn(lhs);
    SortDistinct(kept)
  }

  /** Leaving out at least one digit makes the right operands fewer than the digits. */
  lemma RhsShorter(ds: seq<int>, lhs: seq<int>)
    requires lhs != [] && forall x :: x in lhs ==> x in ds
    ensures |Rhs(ds, lhs)| < |ds|
  {
    var first := lhs[0];
    assert first in lhs;
    var r := Rhs(ds, lhs);
    DistinctCard(r);
    ElementsBound(ds);
    ElementsIn(ds);
    ElementsIn(lhs);
    assert Elements(r) == Elements(ds) - Elements(lhs);
    assert first in Elements(ds) && first in Elements(lhs);
    SubsetCard(Elements(r), Elements(ds) - {first});
  }

  /**
   * `recurse(digits)`: a single digit yields itself; otherwise every split
   * size from 1 to N - 1 in turn. `seen` adds this call's own yields to
   * what its sub-calls recorded.
   */
  function Recurse(ds: seq<int>, ops: string): Result<Run>
    decreases |ds|, 2
  {
    if |ds| == 1 then
      var s := (ds[0], IntToString(ds[0]));
      Ok(Run([s], {s}))
    else
      match Splits(ds, 1, ops)
      case Err(e) => Err(e)
      case Ok(run) => Ok(Run(run.out, run.seen + Elements(run.out)))
  }

  /** `for i in range(i, N)`. */
  function Splits(ds: seq<int>, i: nat, ops: string): Result<Run>
    requires 1 <= i
    decreases |ds|, 1, |ds| - i
  {
    if i >= |ds| then Ok(Run([], {}))
    else
      match Sides(ds, Combos(ds, i), ops)
      case Err(e) => Err(e)
      case Ok(a) =>
        match Splits(ds, i + 1, ops)
        case Err(e) => Err(e)
        case Ok(b) => Ok(Run(a.out + b.out, a.seen + b.seen))
  }

  /**
   * `for lhs in it.combinations(digits, i)`: `product` draws all of the
   * left sub-results before the right ones, then combines the pairs.
   */
  function Sides(ds: seq<int>, lhss: seq<seq<int>>, ops: string): Result<Run>
    requires forall lhs :: lhs in lhss ==> 1 <= |lhs| < |ds| && forall x :: x in lhs ==> x in ds
    decreases |ds|, 0, |lhss|
  {
    if lhss == [] then Ok(Run([], {}))
    else
      var lhs := lhss[0];
      RhsShorter(ds, lhs);
      match Recurse(lhs, ops)
      case Err(e) => Err(e)
      case Ok(l) =>
        match Recurse(Rhs(ds, lhs), ops)
        case Err(e) => Err(e)
        case Ok(r) =>
          match Product(l.out, r.out, ops)
          case Err(e) => Err(e)
          case Ok(here) =>
            match Sides(ds, lhss[1..], ops)
            case Err(e) => Err(e)
            case Ok(rest) => Ok(Run(here + rest.out, l.seen + r.seen + rest.seen))
  }

  /** A compound result: a natural value and a parenthesised text. */
  predicate Compound(s: Sol)
  {
    s.0 >= 0 && |s.1| >= 2 && s.1[0] == '(' && s.1[|s.1| - 1] == ')'
  }

  predicate AllNatural(ss: seq<Sol>)
  {
    forall s :: s in ss ==> s.0 >= 0
  }

  /**
   * Every pair `Apply` yields is compound; with natural operands the only
   * exception it can raise is ValueError.
   */
  lemma {:induction false} ApplyFacts(l: Sol, r: Sol, ops: string)
    ensures Apply(l, r, ops).Ok? ==> forall s :: s in Apply(l, r, ops).value ==> Compound(s)
    ensures l.0 >= 0 && r.0 >= 0 && Apply(l, r, ops).Err? ==> Apply(l, r, ops).error == ValueError
    decreases |ops|
  {
    if ops != [] {
      ApplyFacts(l, r, ops[1..]);
      if l.0 >= 0 && r.0 >= 0 {
        EvalNatural(ops[0], l.0, r.0);
      }
    }
  }

  lemma {:induction false} RowFacts(l: Sol, rs: seq<Sol>, ops: string)
    ensures Row(l, rs, ops).Ok? ==> forall s :: s in Row(l, rs, ops).value ==> Compound(s)
    ensures l.0 >= 0 && AllNatural(rs) && Row(l, rs, ops).Err? ==> Row(l, rs, ops).error == ValueError
    decreases |rs|
  {
    if rs != [] {
      ApplyFacts(l, rs[0], ops);
      RowFacts(l, rs[1..], ops);
      assert AllNatural(rs) ==> AllNatural(rs[1..]);
    }
  }

  lemma {:induction false} ProductFacts(ls: seq<Sol>, rs: seq<Sol>, ops: string)
    ensures Product(ls, rs, ops).Ok? ==> forall s :: s in Product(ls, rs, ops).value ==> Compound(s)
    ensures AllNatural(ls) && AllNatural(rs) && Product(ls, rs, ops).Err? ==> Product(ls, rs, ops).error == ValueError
    decreases |ls|
  {
    if ls != [] {
      RowFacts(ls[0], rs, ops);
      ProductFacts(ls[1..], rs, ops);
      assert AllNatural(ls) ==> AllNatural(ls[1..]);
    }
  }

  /**
   * A single digit yields itself with its decimal text; every other call
   * yields only compound pairs. With natural digits every yielded value is
   * natural and the only exception is ValueError: the assert on the value
   * never fails.
   */
  lemma {:induction false} RecurseFacts(ds: seq<int>, ops: string)
    ensures |ds| == 1 ==> Recurse(ds, ops) == Ok(Run([(ds[0], IntToString(ds[0]))], {(ds[0], IntToString(ds[0]))}))
    ensures |ds| != 1 && Recurse(ds, ops).Ok? ==> forall s :: s in Recurse(ds, ops).value.out ==> Compound(s)
    ensures (forall d :: d in ds ==> d >= 0) && Recurse(ds, ops).Ok? ==> AllNatural(Recurse(ds, ops).value.out)
    ensures (forall d :: d in ds ==> d >= 0) && Recurse(ds, ops).Err? ==> Recurse(ds, ops).error == ValueError
    decreases |ds|, 2
  {
    if |ds| == 1 {
      assert ds[0] in ds;
    } else {
      SplitsFacts(ds, 1, ops);
    }
  }

  lemma {:induction false} SplitsFacts(ds: seq<int>, i: nat, ops: string)
    requires 1 <= i
    ensures Splits(ds, i, ops).Ok? ==> forall s :: s in Splits(ds, i, ops).value.out ==> Compound(s)
    ensures (forall d :: d in ds ==> d >= 0) && Splits(ds, i, ops).Err? ==> Splits(ds, i, ops).error == ValueError
    decreases |ds|, 1, |ds| - i
  {
    if i < |ds| {
      var a := Sides(ds, Combos(ds, i), ops);
      var b := Splits(ds, i + 1, ops);
      SidesFacts(ds, Combos(ds, i), ops);
      SplitsFacts(ds, i + 1, ops);
      if a.Ok? && b.Ok? {
        assert Splits(ds, i, ops) == Ok(Run(a.value.out + b.value.out, a.value.seen + b.value.seen));
      }
    }
  }

  lemma {:induction false} SidesFacts(ds: seq<int>, lhss: seq<seq<int>>, ops: string)
    requires forall lhs :: lhs in lhss ==> 1 <= |lhs| < |ds| && forall x :: x in lhs ==> x in ds
    ensures Sides(ds, lhss, ops).Ok? ==> forall s :: s in Sides(ds, lhss, ops).value.out ==> Compound(s)
    ensures (forall d :: d in ds ==> d >= 0) && Sides(ds, lhss, ops).Err? ==> Sides(ds, lhss, ops).error == ValueError
    decreases |ds|, 0, |lhss|
  {
    if lhss != [] {
      var lhs := lhss[0];
      RhsShorter(ds, lhs);
      var rhs := Rhs(ds, lhs);
      assert forall x :: x in rhs ==> x in ds by {
        forall x | x in rhs
          ensures x in ds
        {
          ElementsIn(rhs);
          ElementsIn(ds);
        }
      }
      RecurseFacts(lhs, ops);
      RecurseFacts(rhs, ops);
      var l := Recurse(lhs, ops);
      var r := Recurse(rhs, ops);
      if l.Ok? && r.Ok? {
        ProductFacts(l.value.out, r.value.out, ops);
      }
      SidesFacts(ds, lhss[1..], ops);
    }
  }

  /**
   * An operator string whose first character `eval` does not know, such
   * as the default "asmd": the first combination raises.
   */
  predicate FirstUnknown(ops: string)
  {
    ops != [] && ops[0] !in "+*-/"
  }

  /** With an unknown first operator any pair of operands raises ValueError; without pairs nothing is yielded. */
  lemma {:induction false} ProductFirstUnknown(ls: seq<Sol>, rs: seq<Sol>, ops: string)
    requires FirstUnknown(ops)
    ensures ls != [] && rs != [] ==> Product(ls, rs, ops) == Err(ValueError)
    ensures ls == [] || rs == [] ==> Product(ls, rs, ops).Ok? && Product(ls, rs, ops).value == []
    decreases |ls|
  {
    if ls != [] {
      if rs == [] {
        var none: seq<Sol> := [];
        assert Row(ls[0], rs, ops) == Ok(none);
        ProductFirstUnknown(ls[1..], rs, ops);
        assert Product(ls[1..], rs, ops) == Ok(none);
        assert none + none == none;
      } else {
        assert Apply(ls[0], rs[0], ops) == Err(ValueError);
      }
    }
  }

  /** Every digit is v. */
  predicate AllSame(ds: seq<int>, v: int)
  {
    ds == [] || (ds[0] == v && AllSame(ds[1..], v))
  }

  lemma {:induction false} AllSameMeans(ds: seq<int>, v: int)
    ensures AllSame(ds, v) <==> forall x :: x in ds ==> x == v
  {
    if ds != [] {
      AllSameMeans(ds[1..], v);
      var h := ds[0];
      assert h in ds;
      assert forall x :: x in ds[1..] ==> x in ds;
      assert forall x :: x in ds ==> x == h || x in ds[1..];
    }
  }

  /** When every digit is v there is never a right operand, so nothing is combined. */
  lemma {:induction false} QuietRecurse(ds: seq<int>, v: int, ops: string)
    requires FirstUnknown(ops) && AllSame(ds, v)
    ensures Recurse(ds, ops).Ok?
    decreases |ds|, 2
  {
    if |ds| != 1 {
      QuietSplits(ds, v, 1, ops);
    }
  }

  lemma {:induction false} QuietSplits(ds: seq<int>, v: int, i: nat, ops: string)
    requires 1 <= i && FirstUnknown(ops) && AllSame(ds, v)
    ensures Splits(ds, i, ops).Ok?
    decreases |ds|, 1, |ds| - i
  {
    if i < |ds| {
      QuietSides(ds, v, Combos(ds, i), ops);
      QuietSplits(ds, v, i + 1, ops);
    }
  }

  lemma {:induction false} QuietSides(ds: seq<int>, v: int, lhss: seq<seq<int>>, ops: string)
    requires forall lhs :: lhs in lhss ==> 1 <= |lhs| < |ds| && forall x :: x in lhs ==> x in ds
    requires FirstUnknown(ops) && AllSame(ds, v)
    ensures Sides(ds, lhss, ops).Ok?
    decreases |ds|, 0, |lhss|
  {
    if lhss != [] {
      var lhs := lhss[0];
      assert lhs in lhss;
      RhsShorter(ds, lhs);
      AllSameMeans(ds, v);
      AllSameMeans(lhs, v);
      ElementsIn(lhs);
      ElementsIn(ds);
      var first := lhs[0];
      assert first in lhs;
      assert first in ds;
      assert Elements(ds) <= Elements(lhs) by {
        forall x | x in Elements(ds)
          ensures x in Elements(lhs)
        {
          assert x == v == first;
        }
      }
      var rhs := Rhs(ds, lhs);
      assert Elements(rhs) == {};
      DistinctCard(rhs);
      assert Recurse(rhs, ops) == Ok(Run([], {}));
      QuietRecurse(lhs, v, ops);
      ProductFirstUnknown(Recurse(lhs, ops).value.out, [], ops);
      QuietSides(ds, v, lhss[1..], ops);
    }
  }

  /**
   * With two distinct digits or more, the first digit against the rest
   * reaches an operator, and `eval` raises ValueError.
   */
  lemma {:induction false} LoudRecurse(ds: seq<int>, ops: string)
    requires FirstUnknown(ops) && |Elements(ds)| >= 2
    ensures Recurse(ds, ops) == Err(ValueError)
    decreases |ds|
  {
    ElementsBound(ds);
    FirstSingle(ds);
    var lhs := [ds[0]];
    assert forall x :: x in lhs ==> x in ds;
    RhsShorter(ds, lhs);
    var rhs := Rhs(ds, lhs);
    ElementsIn(lhs);
    assert Elements(lhs) == {ds[0]};
    SubsetCard({ds[0]}, Elements(ds));
    assert rhs != [];
    RecurseFacts(lhs, ops);
    var a := (ds[0], IntToString(ds[0]));
    assert Recurse(lhs, ops).value.out == [a];
    if |rhs| == 1 {
      RecurseFacts(rhs, ops);
      ProductFirstUnknown([a], Recurse(rhs, ops).value.out, ops);
    } else {
      DistinctCard(rhs);
      LoudRecurse(rhs, ops);
    }
    var lhss := Combos(ds, 1);
    assert lhss[0] == lhs;
    assert Sides(ds, lhss, ops) == Err(ValueError);
    assert Splits(ds, 1, ops) == Err(ValueError);
  }

  /**
   * With an unknown first operator, `solve` raises exactly when the
   * digits hold two distinct values, and the exception is ValueError.
   */
  lemma UnknownOperatorFails(ds: seq<int>, ops: string)
    requires FirstUnknown(ops)
    ensures Recurse(ds, ops).Err? <==> |Elements(ds)| >= 2
    ensures Recurse(ds, ops).Err? ==> Recurse(ds, ops).error == ValueError
  {
    if |Elements(ds)| >= 2 {
      LoudRecurse(ds, ops);
    } else if ds != [] {
      var v := ds[0];
      ElementsIn(ds);
      assert v in Elements(ds);
      SubsetCard({v}, Elements(ds));
      AllSameMeans(ds, v);
      QuietRecurse(ds, v, ops);
    }
  }

  /**
   * The default operators "asmd" are letters, not operators: `solve` with
   * them raises ValueError for every digit list with two distinct values,
   * and for no other.
   */
  lemma DefaultOperators(ds: seq<int>)
    ensures Recurse(ds, "asmd").Err? <==> |Elements(ds)| >= 2
    ensures Recurse(ds, "asmd").Err? ==> Recurse(ds, "asmd").error == ValueError
  {
    UnknownOperatorFails(ds, "asmd");
  }

  predicate LongestFirst(r: seq<string>)
  {
    forall i, j :: 0 <= i < j < |r| ==> |r[i]| >= |r[j]|
  }

  /** Puts a new text t after every text at least as long, keeping the order by length. */
  method InsertByLength(r: seq<string>, t: string) returns (r': seq<string>)
    requires NoDup(r) && LongestFirst(r) && t !in r
    ensures forall x :: x in r' <==> x in r || x == t
    ensures NoDup(r') && LongestFirst(r')
  {
    var k := 0;
    while k < |r| && |r[k]| >= |t|
      invariant 0 <= k <= |r|
      invariant forall i :: 0 <= i < k ==> |r[i]| >= |t|
    {
      k := k + 1;
    }
    r' := r[..k] + [t] + r[k..];
    Placed(r, t, k, r');
  }

  /** The facts about one insertion position. */
  lemma Placed(r: seq<string>, t: string, k: nat, r': seq<string>)
    requires NoDup(r) && LongestFirst(r) && t !in r
    requires k <= |r| && (forall i :: 0 <= i < k ==> |r[i]| >= |t|) && (k < |r| ==> |r[k]| < |t|)
    requires r' == r[..k] + [t] + r[k..]
    ensures forall x :: x in r' <==> x in r || x == t
    ensures NoDup(r') && LongestFirst(r')
  {
    assert r == r[..k] + r[k..];
    assert forall i :: 0 <= i < k ==> r'[i] == r[i];
    assert forall i :: k < i < |r'| ==> r'[i] == r[i - 1];
    forall i, j | 0 <= i < j < |r'|
      ensures r'[i] != r'[j] && |r'[i]| >= |r'[j]|
    {
      if j == k {
        assert r'[i] == r[i];
      } else if i == k {
        assert r'[j] == r[j - 1];
        assert |r[k]| >= |r[j - 1]|;
      }
    }
  }

  /** `sorted(sols, key=len, reverse=True)`: the texts without repetition, longest first. */
  method SortedByLength(texts: set<string>) returns (r: seq<string>)
    ensures Elements(r) == texts
    ensures NoDup(r) && LongestFirst(r)
  {
    r := [];
    var rest := texts;
    while rest != {}
      invariant rest <= texts && (forall x :: x in r <==> x in texts && x !in rest)
      invariant NoDup(r) && LongestFirst(r)
      decreases |rest|
    {
      var t :| t in rest;
      r := InsertByLength(r, t);
      rest := rest - {t};
    }
    ElementsIn(r);
  }

  /**
   * `solve(digits, goal, ops)`: every recorded pair is consumed; the
   * result is the recorded texts whose value is the goal, longest first,
   * and the recorded texts of every value. An exception of the search
   * comes out of `solve` unchanged.
   */
  method Solve(digits: seq<int>, goal: int, ops: string) returns (r: Result<(seq<string>, map<int, set<string>>)>)
    ensures Recurse(digits, ops).Err? ==> r == Err(Recurse(digits, ops).error)
    ensures Recurse(digits, ops).Ok? ==> r.Ok?
    ensures r.Ok? ==>
              && Recurse(digits, ops).Ok?
              && var seen := Recurse(digits, ops).value.seen;
                 var (sols, all) := r.value;
                 && (forall p :: p in sols <==> (goal, p) in seen)
                 && NoDup(sols) && LongestFirst(sols)
                 && (forall v, p :: v in all && p in all[v] <==> (v, p) in seen)
                 && (forall v :: v in all ==> all[v] != {})
  {
    var run := Recurse(digits, ops);
    if run.Err? {
      return Err(run.error);
    }
    var seen := run.value.seen;
    var goals := set s | s in seen && s.0 == goal :: s.1;
    var values := set s | s in seen :: s.0;
    var all := map v | v in values :: (set s | s in seen && s.0 == v :: s.1);
    var sols := SortedByLength(goals);
    ElementsIn(sols);
    forall v | v in all
      ensures all[v] != {}
    {
      var s :| s in seen && s.0 == v;
      assert s.1 in all[v];
    }
    r := Ok((sols, all));
  }
}
