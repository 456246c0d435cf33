/**
 * `mastermind/mm.py`: scoring a guess against the answer. Black pegs
 * count the positions where guess and answer agree. White pegs come from
 * a greedy pass: every guess position, in order, claims the first answer
 * position that holds its value and that nothing has claimed yet. The
 * black positions count as claimed from the start, but the black guess
 * positions still take part in the pass. `process_guess` and
 * `process_guess2` are two loops computing this. Both are proved against
 * one specification, `Score` and `Score2`, which agree whenever the two
 * lists have the same length.
 */
module Mastermind {
  import opened Py

  /** `all(isinstance(v, int) and v >= 0 for v in vals)`. */
  predicate NonNegative(s: seq<int>)
  {
    forall i :: 0 <= i < |s| ==> s[i] >= 0
  }

  function Min(a: nat, b: nat): nat
  {
    if a <= b then a else b
  }

  /** `[g == a for g, a in zip(guess, ans)]`: the black positions, over the shorter length. */
  function Mask(guess: seq<int>, ans: seq<int>): (m: seq<bool>)
    ensures |m| == Min(|guess|, |ans|)
    ensures forall i :: 0 <= i < |m| ==> (m[i] <==> guess[i] == ans[i])
  {
    seq(Min(|guess|, |ans|), i requires 0 <= i < Min(|guess|, |ans|) => guess[i] == ans[i])
  }

  /** `sum` over a list of booleans, from position k on. */
  function TruesFrom(s: seq<bool>, k: nat): nat
    decreases |s| - k
  {
    if k >= |s| then 0 else (if s[k] then 1 else 0) + TruesFrom(s, k + 1)
  }

  function Trues(s: seq<bool>): nat
  {
    TruesFrom(s, 0)
  }

  /** A count of true entries is at most the number of entries. */
  lemma {:induction false} TruesFromBound(s: seq<bool>, k: nat)
    requires k <= |s|
    ensures TruesFrom(s, k) <= |s| - k
    decreases |s| - k
  {
    if k < |s| {
      TruesFromBound(s, k + 1);
    }
  }

  /** Setting one false entry to true adds one to the count of every suffix holding it. */
  lemma {:induction false} TruesFromSet(s: seq<bool>, k: nat, i: nat)
    requires i < |s| && !s[i]
    ensures TruesFrom(s[i := true], k) == TruesFrom(s, k) + (if k <= i then 1 else 0)
    decreases |s| - k
  {
    if k < |s| {
      TruesFromSet(s, k + 1, i);
    }
  }

  /** All entries false: the count is 0. */
  lemma {:induction false} TruesFromNone(s: seq<bool>, k: nat)
    requires forall i :: 0 <= i < |s| ==> !s[i]
    ensures TruesFrom(s, k) == 0
    decreases |s| - k
  {
    if k < |s| {
      TruesFromNone(s, k + 1);
    }
  }

  /** All entries true: the count is the length. */
  lemma {:induction false} TruesFromAll(s: seq<bool>, k: nat)
    requires k <= |s| && forall i :: 0 <= i < |s| ==> s[i]
    ensures TruesFrom(s, k) == |s| - k
    decreases |s| - k
  {
    if k < |s| {
      TruesFromAll(s, k + 1);
    }
  }

  // ---------------------------------------------------------------- the specification

  /**
   * The answer position a guess value of v claims: the first position from
   * ai on that is unclaimed and holds v. `used` is as long as the shorter
   * list, so reading it past its end is the IndexError of `used[ai]`.
   */
  function Claim(ans: seq<int>, used: seq<bool>, v: int, ai: nat): (r: Result<Option<nat>>)
    ensures r.Ok? && r.value.Some? ==>
              var j := r.value.value;
              ai <= j < |ans| && j < |used| && !used[j] && ans[j] == v &&
              forall k :: ai <= k < j ==> used[k] || ans[k] != v
    ensures r.Ok? && r.value.None? ==>
              (ai < |ans| ==> |ans| <= |used|) && forall j :: ai <= j < |ans| ==> used[j] || ans[j] != v
    ensures r.Err? ==> r.error == IndexError && |used| < |ans|
    decreases |ans| - ai
  {
    if ai >= |ans| then Ok(None)
    else if ai >= |used| then Err(IndexError)
    else if !used[ai] && ans[ai] == v then Ok(Some(ai))
    else Claim(ans, used, v, ai + 1)
  }

  /** The white pegs of guess positions gi.., added to acc, each claiming an answer position in turn. */
  function Whites(guess: seq<int>, ans: seq<int>, used: seq<bool>, gi: nat, acc: nat): Result<nat>
    decreases |guess| - gi
  {
    if gi >= |guess| then Ok(acc)
    else
      var c := Claim(ans, used, guess[gi], 0);
      if c.Err? then Err(c.error)
      else if c.value.None? then Whites(guess, ans, used, gi + 1, acc)
      else Whites(guess, ans, used[c.value.value := true], gi + 1, acc + 1)
  }

  /** `process_guess(guess, ans)`: (black, white), or the error it raises. */
  function Score(guess: seq<int>, ans: seq<int>): Result<(nat, nat)>
  {
    if !NonNegative(guess) || !NonNegative(ans) then Err(AssertionError)
    else
      var w := Whites(guess, ans, Mask(guess, ans), 0, 0);
      if w.Err? then Err(w.error) else Ok((Trues(Mask(guess, ans)), w.value))
  }

  /**
   * `process_guess2(guess, ans)`: the same pass over the first len(guess)
   * answer positions; an answer shorter than the guess raises IndexError.
   */
  function Score2(guess: seq<int>, ans: seq<int>): Result<(nat, nat)>
  {
    if |ans| < |guess| then Err(IndexError)
    else
      var w := Whites(guess, ans[..|guess|], Mask(guess, ans), 0, 0);
      if w.Err? then Err(w.error) else Ok((Trues(Mask(guess, ans)), w.value))
  }

  // ---------------------------------------------------------------- the two implementations

  /** `process_guess`: the claiming loop breaks at the first unclaimed match. */
  method ProcessGuess(guess: seq<int>, ans: seq<int>) returns (r: Result<(nat, nat)>)
    ensures r == Score(guess, ans)
  {
    if !NonNegative(guess) || !NonNegative(ans) {
      return Err(AssertionError);
    }
    var used := Mask(guess, ans);
    var numBlack := Trues(used);
    var numWhite := 0;
    for gi := 0 to |guess|
      invariant Whites(guess, ans, used, gi, numWhite) == Whites(guess, ans, Mask(guess, ans), 0, 0)
    {
      var g := guess[gi];
      var ai := 0;
      while ai < |ans|
        invariant ai <= |ans|
        invariant Claim(ans, used, g, 0) == Claim(ans, used, g, ai)
        invariant Whites(guess, ans, used, gi, numWhite) == Whites(guess, ans, Mask(guess, ans), 0, 0)
      {
        if ai >= |used| {
          return Err(IndexError);
        }
        if !used[ai] && ans[ai] == g {
          numWhite := numWhite + 1;
          used := used[ai := true];
          break;
        }
        ai := ai + 1;
      }
    }
    return Ok((numBlack, numWhite));
  }

  /** `key[ai][gi]`: whether guess position gi holds the value of answer position ai. */
  function Key(guess: seq<int>, ans: seq<int>): (key: seq<seq<bool>>)
    ensures |key| == |ans|
    ensures forall ai :: 0 <= ai < |ans| ==> |key[ai]| == |guess|
    ensures forall ai, gi :: 0 <= ai < |ans| && 0 <= gi < |guess| ==> (key[ai][gi] <==> guess[gi] == ans[ai])
  {
    seq(|ans|, ai requires 0 <= ai < |ans| => seq(|guess|, gi requires 0 <= gi < |guess| => guess[gi] == ans[ai]))
  }

  /**
   * `process_guess2`: a key matrix, black flags on the diagonal, and a
   * pass without `break` in which a guess position stops claiming once
   * its white flag is set.
   */
  method ProcessGuess2(guess: seq<int>, ans: seq<int>) returns (r: Result<(nat, nat)>)
    ensures r == Score2(guess, ans)
  {
    var n := |guess|;
    if |ans| < n {
      return Err(IndexError);
    }
    var key := Key(guess, ans);
    var used := seq(n, ai requires 0 <= ai < n => key[ai][ai]);
    assert used == Mask(guess, ans);
    var numBlack := Trues(used);
    var white := seq(|ans|, _ => false);
    TruesFromNone(white, 0);
    ghost var a := ans[..n];
    for gi := 0 to n
      invariant |used| == n == |a| && |white| == |ans|
      invariant forall j :: gi <= j < |white| ==> !white[j]
      invariant Whites(guess, a, used, gi, Trues(white)) == Whites(guess, a, Mask(guess, ans), 0, 0)
    {
      ghost var before, count := used, Trues(white);
      WhitesFresh(white, gi);
      for ai := 0 to n
        invariant |used| == n && |white| == |ans|
        invariant WhitesAfter(white, gi, count)
        invariant Scanned(a, before, guess[gi], ai, white[gi], used)
      {
        var isWhite := !white[gi] && !used[ai] && key[ai][gi];
        ScanStep(a, before, guess[gi], ai, white[gi], used);
        if isWhite {
          WhiteSet(white, gi, count);
          white := white[gi := true];
          used := used[ai := true];
        }
      }
      ScanDone(guess, a, before, gi, white[gi], used, count);
    }
    return Ok((numBlack, Trues(white)));
  }

  /**
   * During the inner pass for guess position gi, no later position is
   * white yet, and the white count is the count before the pass plus
   * the flag of gi.
   */
  ghost predicate WhitesAfter(white: seq<bool>, gi: nat, count: nat)
  {
    gi < |white| &&
    (forall j :: gi < j < |white| ==> !white[j]) &&
    Trues(white) == count + (if white[gi] then 1 else 0)
  }

  lemma WhitesFresh(white: seq<bool>, gi: nat)
    requires gi < |white| && forall j :: gi <= j < |white| ==> !white[j]
    ensures WhitesAfter(white, gi, Trues(white))
  {
  }

  lemma WhiteSet(white: seq<bool>, gi: nat, count: nat)
    requires WhitesAfter(white, gi, count) && !white[gi]
    ensures WhitesAfter(white[gi := true], gi, count)
  {
    TruesFromSet(white, 0, gi);
  }

  /**
   * The inner pass of `process_guess2` has looked at answer positions
   * before ai: the guess value g has claimed the position `Claim` names
   * if that lies before ai, and nothing otherwise.
   */
  ghost predicate Scanned(a: seq<int>, before: seq<bool>, g: int, ai: nat, claimed: bool, used: seq<bool>)
  {
    var c := Claim(a, before, g, 0);
    c.Ok? &&
    if c.value.Some? && c.value.value < ai then claimed && used == before[c.value.value := true]
    else !claimed && used == before && c == Claim(a, before, g, ai)
  }

  lemma ScanStep(a: seq<int>, before: seq<bool>, g: int, ai: nat, claimed: bool, used: seq<bool>)
    requires |before| == |a| && ai < |a| && Scanned(a, before, g, ai, claimed, used)
    ensures var isWhite := !claimed && !used[ai] && a[ai] == g;
            Scanned(a, before, g, ai + 1, claimed || isWhite, if isWhite then used[ai := true] else used)
  {
  }

  /** After the inner pass, the white count and `used` are where `Whites` takes the next guess position. */
  lemma ScanDone(guess: seq<int>, a: seq<int>, before: seq<bool>, gi: nat, claimed: bool, used: seq<bool>, count: nat)
    requires gi < |guess| && |before| == |a| && Scanned(a, before, guess[gi], |a|, claimed, used)
    ensures Whites(guess, a, before, gi, count) == Whites(guess, a, used, gi + 1, count + (if claimed then 1 else 0))
  {
  }

  /** `check(guess, ans, nb, nw)`: both implementations must return (nb, nw), else ValueError. */
  function Check(guess: seq<int>, ans: seq<int>, nb: int, nw: int): Result<()>
  {
    var gold := Score(guess, ans);
    if gold.Err? then Err(gold.error)
    else if gold.value.0 != nb || gold.value.1 != nw then Err(ValueError)
    else
      var gold2 := Score2(guess, ans);
      if gold2.Err? then Err(gold2.error)
      else if gold2.value.0 != nb || gold2.value.1 != nw then Err(ValueError)
      else Ok(())
  }

  // ---------------------------------------------------------------- properties

  /** With `used` as long as the answer, no claim reads past its end. */
  lemma {:induction false} WhitesDefined(guess: seq<int>, ans: seq<int>, used: seq<bool>, gi: nat, acc: nat)
    requires |used| >= |ans|
    ensures Whites(guess, ans, used, gi, acc).Ok?
    decreases |guess| - gi
  {
    if gi < |guess| {
      var c := Claim(ans, used, guess[gi], 0);
      if c.value.None? {
        WhitesDefined(guess, ans, used, gi + 1, acc);
      } else {
        WhitesDefined(guess, ans, used[c.value.value := true], gi + 1, acc + 1);
      }
    }
  }

  /** Each white peg claims an answer position left unclaimed, so whites never outnumber the unclaimed positions. */
  lemma {:induction false} WhitesBound(guess: seq<int>, ans: seq<int>, used: seq<bool>, gi: nat, acc: nat)
    requires |used| == |ans| && Whites(guess, ans, used, gi, acc).Ok?
    ensures Whites(guess, ans, used, gi, acc).value + Trues(used) <= acc + |used|
    decreases |guess| - gi
  {
    if gi >= |guess| {
      TruesFromBound(used, 0);
    } else {
      var c := Claim(ans, used, guess[gi], 0);
      if c.value.None? {
        WhitesBound(guess, ans, used, gi + 1, acc);
      } else {
        var j := c.value.value;
        TruesFromSet(used, 0, j);
        WhitesBound(guess, ans, used[j := true], gi + 1, acc + 1);
      }
    }
  }

  /** With lists of equal length, black plus white pegs never exceed the number of positions. */
  lemma ScoreBound(guess: seq<int>, ans: seq<int>)
    requires |guess| == |ans| && Score(guess, ans).Ok?
    ensures Score(guess, ans).value.0 + Score(guess, ans).value.1 <= |ans|
  {
    WhitesBound(guess, ans, Mask(guess, ans), 0, 0);
  }

  /**
   * The two implementations agree on lists of equal length; they differ
   * only in their errors: `process_guess` checks for negative values and
   * `process_guess2` for an answer shorter than the guess.
   */
  lemma ScoresAgree(guess: seq<int>, ans: seq<int>)
    ensures |guess| == |ans| && NonNegative(guess) && NonNegative(ans) ==> Score(guess, ans) == Score2(guess, ans)
    ensures |guess| == |ans| && NonNegative(guess) && NonNegative(ans) ==> Score(guess, ans).Ok?
    ensures Score2(guess, ans).Err? <==> |ans| < |guess|
  {
    assert ans[..|ans|] == ans;
    if |guess| >= |ans| {
      WhitesDefined(guess, ans, Mask(guess, ans), 0, 0);
    }
    if |ans| >= |guess| {
      WhitesDefined(guess, ans[..|guess|], Mask(guess, ans), 0, 0);
    }
  }

  /** With every answer position claimed, no guess position finds anything. */
  lemma {:induction false} WhitesNone(guess: seq<int>, ans: seq<int>, used: seq<bool>, gi: nat, acc: nat)
    requires |used| >= |ans| && forall j :: 0 <= j < |used| ==> used[j]
    ensures Whites(guess, ans, used, gi, acc) == Ok(acc)
    decreases |guess| - gi
  {
    if gi < |guess| {
      WhitesNone(guess, ans, used, gi + 1, acc);
    }
  }

  /** A guess equal to the answer scores (len, 0) in both implementations. */
  lemma SelfScore(ans: seq<int>)
    requires NonNegative(ans)
    ensures Score(ans, ans) == Ok((|ans|, 0)) && Score2(ans, ans) == Ok((|ans|, 0))
  {
    var m := Mask(ans, ans);
    WhitesNone(ans, ans, m, 0, 0);
    TruesFromAll(m, 0);
    assert ans[..|ans|] == ans;
  }

  /** The six `check` calls of the module all pass. */
  lemma TestVectors()
    ensures Check([1, 2, 1], [2, 1, 2], 0, 2) == Ok(())
    ensures Check([1, 1, 3], [1, 2, 2], 1, 0) == Ok(())
    ensures Check([1, 1, 2], [1, 3, 1], 1, 1) == Ok(())
    ensures Check([1, 2, 3], [3, 1, 2], 0, 3) == Ok(())
    ensures Check([1, 2, 3], [4, 5, 6], 0, 0) == Ok(())
    ensures Check([1, 2, 3], [1, 2, 3], 3, 0) == Ok(())
  {
    Example1();
    Vector([1, 2, 1], [2, 1, 2], 0, 2);
    Example2();
    Vector([1, 1, 3], [1, 2, 2], 1, 0);
    Example3();
    Vector([1, 1, 2], [1, 3, 1], 1, 1);
    Example4();
    Vector([1, 2, 3], [3, 1, 2], 0, 3);
    Example5();
    Vector([1, 2, 3], [4, 5, 6], 0, 0);
    SelfScore([1, 2, 3]);
  }

  lemma Example1()
    ensures Score([1, 2, 1], [2, 1, 2]) == Ok((0, 2))
  {
    var m := Mask([1, 2, 1], [2, 1, 2]);
    assert m == [false, false, false];
  }

  lemma Example2()
    ensures Score([1, 1, 3], [1, 2, 2]) == Ok((1, 0))
  {
    var m := Mask([1, 1, 3], [1, 2, 2]);
    assert m == [true, false, false];
  }

  lemma Example3()
    ensures Score([1, 1, 2], [1, 3, 1]) == Ok((1, 1))
  {
    var m := Mask([1, 1, 2], [1, 3, 1]);
    assert m == [true, false, false];
  }

  lemma Example4()
    ensures Score([1, 2, 3], [3, 1, 2]) == Ok((0, 3))
  {
    var m := Mask([1, 2, 3], [3, 1, 2]);
    assert m == [false, false, false];
  }

  lemma Example5()
    ensures Score([1, 2, 3], [4, 5, 6]) == Ok((0, 0))
  {
    var m := Mask([1, 2, 3], [4, 5, 6]);
    assert m == [false, false, false];
  }

  /** One vector: the score of `process_guess` decides `check`, since the two agree on equal lengths. */
  lemma Vector(guess: seq<int>, ans: seq<int>, nb: nat, nw: nat)
    requires |guess| == |ans| && NonNegative(guess) && NonNegative(ans)
    requires Score(guess, ans) == Ok((nb, nw))
    ensures Check(guess, ans, nb, nw) == Ok(())
  {
    ScoresAgree(guess, ans);
  }

  // ---------------------------------------------------------------- finding: black positions also claim

  /**
   * The white pegs as the game defines them: a guess position that is
   * already black takes no part in the claiming pass.
   */
  function CWhites(guess: seq<int>, ans: seq<int>, used: seq<bool>, gi: nat, acc: nat): Result<nat>
    decreases |guess| - gi
  {
    if gi >= |guess| then Ok(acc)
    else if gi < |ans| && guess[gi] == ans[gi] then CWhites(guess, ans, used, gi + 1, acc)
    else
      var c := Claim(ans, used, guess[gi], 0);
      if c.Err? then Err(c.error)
      else if c.value.None? then CWhites(guess, ans, used, gi + 1, acc)
      else CWhites(guess, ans, used[c.value.value := true], gi + 1, acc + 1)
  }

  /** `process_guess` with the black guess positions left out of the white pass. */
  function CorrectedScore(guess: seq<int>, ans: seq<int>): Result<(nat, nat)>
  {
    if !NonNegative(guess) || !NonNegative(ans) then Err(AssertionError)
    else
      var w := CWhites(guess, ans, Mask(guess, ans), 0, 0);
      if w.Err? then Err(w.error) else Ok((Trues(Mask(guess, ans)), w.value))
  }

  /** The values at answer positions k.. that `used` leaves unclaimed. */
  function Unused(ans: seq<int>, used: seq<bool>, k: nat): multiset<int>
    requires |used| == |ans|
    decreases |ans| - k
  {
    if k >= |ans| then multiset{}
    else (if used[k] then multiset{} else multiset{ans[k]}) + Unused(ans, used, k + 1)
  }

  /** The guess values at the positions k.. that are not black. */
  function Open(guess: seq<int>, ans: seq<int>, k: nat): multiset<int>
    requires |guess| == |ans|
    decreases |guess| - k
  {
    if k >= |guess| then multiset{}
    else (if guess[k] == ans[k] then multiset{} else multiset{guess[k]}) + Open(guess, ans, k + 1)
  }

  /** The values at the black positions k.. */
  function Blacks(guess: seq<int>, ans: seq<int>, k: nat): multiset<int>
    requires |guess| == |ans|
    decreases |guess| - k
  {
    if k >= |guess| then multiset{}
    else (if guess[k] == ans[k] then multiset{guess[k]} else multiset{}) + Blacks(guess, ans, k + 1)
  }

  /** Claiming a position below k leaves the unclaimed values from k on alone. */
  lemma {:induction false} UnusedAbove(ans: seq<int>, used: seq<bool>, j: nat, k: nat)
    requires |used| == |ans| && j < k && j < |used|
    ensures Unused(ans, used[j := true], k) == Unused(ans, used, k)
    decreases |ans| - k
  {
    if k < |ans| {
      UnusedAbove(ans, used, j, k + 1);
    }
  }

  /** Claiming an unclaimed position j removes one copy of its value. */
  lemma {:induction false} UnusedClaim(ans: seq<int>, used: seq<bool>, j: nat, k: nat)
    requires |used| == |ans| && k <= j < |ans| && !used[j]
    ensures Unused(ans, used, k) == Unused(ans, used[j := true], k) + multiset{ans[j]}
    decreases j - k
  {
    if k < j {
      UnusedClaim(ans, used, j, k + 1);
    } else {
      UnusedAbove(ans, used, j, k + 1);
    }
  }

  /** A value with no unclaimed position holding it is not among the unclaimed values. */
  lemma {:induction false} UnusedAbsent(ans: seq<int>, used: seq<bool>, v: int, k: nat)
    requires |used| == |ans| && forall j :: k <= j < |ans| ==> used[j] || ans[j] != v
    ensures v !in Unused(ans, used, k)
    decreases |ans| - k
  {
    if k < |ans| {
      UnusedAbsent(ans, used, v, k + 1);
    }
  }

  lemma MultisetFrom(s: seq<int>, k: nat)
    requires k < |s|
    ensures multiset(s[k..]) == multiset{s[k]} + multiset(s[k + 1..])
  {
    assert s[k..] == [s[k]] + s[k + 1..];
  }

  /** Black and open positions split the guess. */
  lemma {:induction false} GuessParts(guess: seq<int>, ans: seq<int>, k: nat)
    requires |guess| == |ans| && k <= |guess|
    ensures multiset(guess[k..]) == Blacks(guess, ans, k) + Open(guess, ans, k)
    decreases |guess| - k
  {
    if k < |guess| {
      GuessParts(guess, ans, k + 1);
      MultisetFrom(guess, k);
    }
  }

  /** Black positions and the values the mask leaves unclaimed split the answer. */
  lemma {:induction false} AnswerParts(guess: seq<int>, ans: seq<int>, k: nat)
    requires |guess| == |ans| && k <= |guess|
    ensures multiset(ans[k..]) == Blacks(guess, ans, k) + Unused(ans, Mask(guess, ans), k)
    decreases |guess| - k
  {
    if k < |guess| {
      AnswerParts(guess, ans, k + 1);
      MultisetFrom(ans, k);
    }
  }

  /** The black count is the number of black values. */
  lemma {:induction false} BlackCount(guess: seq<int>, ans: seq<int>, k: nat)
    requires |guess| == |ans| && k <= |guess|
    ensures TruesFrom(Mask(guess, ans), k) == |Blacks(guess, ans, k)|
    decreases |guess| - k
  {
    if k < |guess| {
      BlackCount(guess, ans, k + 1);
    }
  }

  /** A value absent from u adds nothing to the common part. */
  lemma MeetAbsent(v: int, r: multiset<int>, u: multiset<int>)
    requires v !in u
    ensures |(multiset{v} + r) * u| == |r * u|
  {
    assert (multiset{v} + r) * u == r * u by {
      assert forall x :: ((multiset{v} + r) * u)[x] == (r * u)[x];
    }
  }

  /** A value present in u adds one to the common part and uses up one copy of it. */
  lemma MeetPresent(v: int, r: multiset<int>, u: multiset<int>, u': multiset<int>)
    requires u == u' + multiset{v}
    ensures |(multiset{v} + r) * u| == 1 + |r * u'|
  {
    assert (multiset{v} + r) * u == multiset{v} + r * u' by {
      assert forall x :: ((multiset{v} + r) * u)[x] == (multiset{v} + r * u')[x];
    }
  }

  /** The common part of two lists sharing the black values b is b plus the common part of the rest. */
  lemma MeetShared(b: multiset<int>, g: multiset<int>, a: multiset<int>)
    ensures |(b + g) * (b + a)| == |b| + |g * a|
  {
    assert (b + g) * (b + a) == b + g * a by {
      assert forall x :: ((b + g) * (b + a))[x] == (b + g * a)[x];
    }
  }

  /** An open guess value that no unclaimed answer position holds adds nothing to the common part. */
  lemma MissCount(guess: seq<int>, ans: seq<int>, used: seq<bool>, gi: nat)
    requires |guess| == |ans| == |used| && gi < |guess| && guess[gi] != ans[gi]
    requires forall j :: 0 <= j < |ans| ==> used[j] || ans[j] != guess[gi]
    ensures |Open(guess, ans, gi) * Unused(ans, used, 0)| == |Open(guess, ans, gi + 1) * Unused(ans, used, 0)|
  {
    var v, r := guess[gi], Open(guess, ans, gi + 1);
    assert Open(guess, ans, gi) == multiset{v} + r;
    UnusedAbsent(ans, used, v, 0);
    MeetAbsent(v, r, Unused(ans, used, 0));
  }

  /** An open guess value that claims answer position j adds one and uses up that value. */
  lemma HitCount(guess: seq<int>, ans: seq<int>, used: seq<bool>, gi: nat, j: nat)
    requires |guess| == |ans| == |used| && gi < |guess| && guess[gi] != ans[gi]
    requires j < |ans| && !used[j] && ans[j] == guess[gi]
    ensures |Open(guess, ans, gi) * Unused(ans, used, 0)| == 1 + |Open(guess, ans, gi + 1) * Unused(ans, used[j := true], 0)|
  {
    var v, r := guess[gi], Open(guess, ans, gi + 1);
    assert Open(guess, ans, gi) == multiset{v} + r;
    UnusedClaim(ans, used, j, 0);
    MeetPresent(v, r, Unused(ans, used, 0), Unused(ans, used[j := true], 0));
  }

  /** The corrected pass pairs each open guess value with an unclaimed answer value while one remains. */
  lemma {:induction false} CWhitesCount(guess: seq<int>, ans: seq<int>, used: seq<bool>, gi: nat, acc: nat)
    requires |guess| == |ans| == |used|
    ensures CWhites(guess, ans, used, gi, acc).Ok?
    ensures CWhites(guess, ans, used, gi, acc).value == acc + |Open(guess, ans, gi) * Unused(ans, used, 0)|
    decreases |guess| - gi
  {
    if gi >= |guess| {
      assert Open(guess, ans, gi) * Unused(ans, used, 0) == multiset{};
    } else if guess[gi] == ans[gi] {
      assert CWhites(guess, ans, used, gi, acc) == CWhites(guess, ans, used, gi + 1, acc);
      assert Open(guess, ans, gi) == Open(guess, ans, gi + 1);
      CWhitesCount(guess, ans, used, gi + 1, acc);
    } else {
      var c := Claim(ans, used, guess[gi], 0);
      if c.value.None? {
        assert CWhites(guess, ans, used, gi, acc) == CWhites(guess, ans, used, gi + 1, acc);
        MissCount(guess, ans, used, gi);
        CWhitesCount(guess, ans, used, gi + 1, acc);
      } else {
        var j := c.value.value;
        assert CWhites(guess, ans, used, gi, acc) == CWhites(guess, ans, used[j := true], gi + 1, acc + 1);
        HitCount(guess, ans, used, gi, j);
        CWhitesCount(guess, ans, used[j := true], gi + 1, acc + 1);
      }
    }
  }

  /**
   * For lists of equal length the corrected score counts every common
   * value once: black plus white pegs is the size of the multiset
   * intersection of guess and answer.
   */
  lemma CorrectedCounts(guess: seq<int>, ans: seq<int>)
    requires |guess| == |ans| && NonNegative(guess) && NonNegative(ans)
    ensures CorrectedScore(guess, ans).Ok?
    ensures CorrectedScore(guess, ans).value.0 + CorrectedScore(guess, ans).value.1
            == |multiset(guess) * multiset(ans)|
  {
    var b, o, u := Blacks(guess, ans, 0), Open(guess, ans, 0), Unused(ans, Mask(guess, ans), 0);
    GuessParts(guess, ans, 0);
    AnswerParts(guess, ans, 0);
    BlackCount(guess, ans, 0);
    assert guess[0..] == guess && ans[0..] == ans;
    CWhitesCount(guess, ans, Mask(guess, ans), 0, 0);
    MeetShared(b, o, u);
    TruesFromBound(Mask(guess, ans), 0);
  }

  /**
   * As written, the black first position also claims the second answer
   * position: two pegs where the lists share one value. The corrected
   * score gives one.
   */
  lemma BlackAlsoClaims()
    ensures Score([1, 2], [1, 1]) == Ok((1, 1))
    ensures Score2([1, 2], [1, 1]) == Ok((1, 1))
    ensures |multiset([1, 2]) * multiset([1, 1])| == 1
    ensures CorrectedScore([1, 2], [1, 1]) == Ok((1, 0))
  {
    var m := Mask([1, 2], [1, 1]);
    assert m == [true, false];
    assert [1, 1][..2] == [1, 1];
    assert multiset([1, 2]) * multiset([1, 1]) == multiset{1} by {
      assert multiset([1, 2]) == multiset{1, 2};
      assert multiset([1, 1]) == multiset{1, 1};
    }
  }
}
