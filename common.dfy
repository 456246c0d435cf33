/** Python behaviour that several puzzle modules share: optional values, the
    exceptions a routine can raise, decimal rendering of integers, `str.split`
    and `str.join`, and negative list indexing. */
module Py {

  datatype Option<+T> = None | Some(value: T)

  /** The Python exception classes the modelled code can raise. */
  datatype Error = AssertionError | ValueError | IndexError | KeyError | TypeError | NotImplementedError

  datatype Result<+T> = Ok(value: T) | Err(error: Error)

  /** Decimal digits of a non-negative integer, as `str(n)` renders it. */
  function NatToString(n: nat): (s: string)
    ensures |s| >= 1
    ensures forall i :: 0 <= i < |s| ==> '0' <= s[i] <= '9'
    ensures n < 10 ==> s == [DigitChar(n)]
  {
    if n < 10 then [DigitChar(n)] else NatToString(n / 10) + [DigitChar(n % 10)]
  }

  function DigitChar(d: nat): (ch: char)
    requires d < 10
    ensures '0' <= ch <= '9' && ch as int - '0' as int == d
  {
    "0123456789"[d]
  }

  /** `str(n)` for any integer: a leading '-' for negative values. */
  function IntToString(n: int): (s: string)
    ensures |s| >= 1
    ensures forall i :: 0 <= i < |s| ==> s[i] != '_' && s[i] != ',' && s[i] != '\n'
    ensures n >= 0 ==> s == NatToString(n)
  {
    if n >= 0 then NatToString(n) else "-" + NatToString(-n)
  }

  /** The value of a string of decimal digits. */
  function DigitsValue(s: string): nat
    requires forall i :: 0 <= i < |s| ==> '0' <= s[i] <= '9'
  {
    if s == [] then 0 else DigitsValue(s[..|s| - 1]) * 10 + (s[|s| - 1] as int - '0' as int)
  }

  /** Reading the digits back gives the number: `int(str(n)) == n`. */
  lemma {:induction false} NatToStringRoundTrip(n: nat)
    ensures DigitsValue(NatToString(n)) == n
  {
    if n >= 10 {
      NatToStringRoundTrip(n / 10);
      var s := NatToString(n);
      assert s[..|s| - 1] == NatToString(n / 10);
      assert s[|s| - 1] == DigitChar(n % 10);
    }
  }

  /** Different integers print differently. */
  lemma IntToStringInjective(a: int, b: int)
    requires IntToString(a) == IntToString(b)
    ensures a == b
  {
    LeadingMinus(a);
    LeadingMinus(b);
    if a >= 0 && b >= 0 {
      NatToStringInjective(a, b);
    } else if a < 0 && b < 0 {
      NegativeInjective(a, b);
    }
  }

  lemma NegativeInjective(a: int, b: int)
    requires a < 0 && b < 0 && IntToString(a) == IntToString(b)
    ensures a == b
  {
    NegativeText(a);
    NegativeText(b);
    NatToStringInjective(-a, -b);
  }

  lemma NatToStringInjective(m: nat, n: nat)
    requires NatToString(m) == NatToString(n)
    ensures m == n
  {
    NatToStringRoundTrip(m);
    NatToStringRoundTrip(n);
  }

  lemma NegativeText(a: int)
    requires a < 0
    ensures IntToString(a)[1..] == NatToString(-a)
  {
  }

  /** A printed integer starts with '-' exactly when it is negative. */
  lemma LeadingMinus(n: int)
    ensures IntToString(n)[0] == '-' <==> n < 0
  {
    if n >= 0 {
      var s := NatToString(n);
      assert '0' <= s[0] <= '9';
    }
  }

  /** Python's `sep.join(parts)`. */
  function Join(parts: seq<string>, sep: string): (s: string)
    ensures parts == [] ==> s == []
  {
    if parts == [] then []
    else if |parts| == 1 then parts[0]
    else parts[0] + sep + Join(parts[1..], sep)
  }

  /** Concatenation without separator: `"".join(parts)`. */
  function Concat(parts: seq<string>): (s: string)
  {
    if parts == [] then [] else parts[0] + Concat(parts[1..])
  }

  /** Appending one more part appends its text. */
  lemma {:induction false} ConcatSnoc(parts: seq<string>, x: string)
    ensures Concat(parts + [x]) == Concat(parts) + x
  {
    if parts != [] {
      assert (parts + [x])[1..] == parts[1..] + [x];
      ConcatSnoc(parts[1..], x);
    }
  }

  /** Parts of one width w make a text w times as long as their number. */
  lemma {:induction false} ConcatWidth(parts: seq<string>, w: nat)
    requires forall i :: 0 <= i < |parts| ==> |parts[i]| == w
    ensures |Concat(parts)| == |parts| * w
  {
    if parts != [] {
      ConcatWidth(parts[1..], w);
      MulSucc(|parts| - 1, w);
    }
  }

  /** Parts of one width w put character k of part i at column i*w + k. */
  lemma {:induction false} ConcatAt(parts: seq<string>, w: nat, i: int, k: int)
    requires forall j :: 0 <= j < |parts| ==> |parts[j]| == w
    requires 0 <= i < |parts| && 0 <= k < w
    ensures i * w + k < |Concat(parts)| && Concat(parts)[i * w + k] == parts[i][k]
  {
    ConcatWidth(parts, w);
    if i > 0 {
      var rest := parts[1..];
      ConcatAt(rest, w, i - 1, k);
      MulSucc(i - 1, w);
      assert Concat(parts) == parts[0] + Concat(rest);
    }
  }

  /** An element of a concatenation lies in one of its parts. */
  lemma InAppend<T>(a: seq<T>, b: seq<T>, x: T)
    ensures x in a + b <==> x in a || x in b
  {
  }

  /** A prefix one longer is the shorter prefix and the next element. */
  lemma TakeSnoc<T>(s: seq<T>, i: int)
    requires 0 <= i < |s|
    ensures s[..i + 1] == s[..i] + [s[i]]
  {
  }

  lemma MulSucc(a: int, w: int)
    ensures (a + 1) * w == a * w + w
  {
  }

  /** Python's `s.split(sep)` for a one-character separator: the pieces
      between separators, always at least one piece. */
  function Split(s: string, sep: char): (pieces: seq<string>)
    ensures |pieces| >= 1
    ensures forall k, i :: 0 <= k < |pieces| && 0 <= i < |pieces[k]| ==> pieces[k][i] != sep
  {
    if s == [] then [[]]
    else
      var rest := Split(s[1..], sep);
      if s[0] == sep then [[]] + rest else [[s[0]] + rest[0]] + rest[1..]
  }

  /** `sep.join(s.split(sep)) == s`. */
  lemma {:induction false} SplitJoin(s: string, sep: char)
    ensures Join(Split(s, sep), [sep]) == s
  {
    if s != [] {
      SplitJoin(s[1..], sep);
      var rest := Split(s[1..], sep);
      if s[0] == sep {
        assert Split(s, sep) == [[]] + rest;
      } else {
        var pieces := Split(s, sep);
        assert pieces == [[s[0]] + rest[0]] + rest[1..];
        if |rest| == 1 {
          assert Join(pieces, [sep]) == [s[0]] + rest[0];
        } else {
          assert pieces[1..] == rest[1..];
          assert Join(rest, [sep]) == rest[0] + [sep] + Join(rest[1..], [sep]);
        }
      }
    }
  }

  /** Splitting a separator-free string gives the string back as the only piece. */
  lemma {:induction false} SplitNoSep(s: string, sep: char)
    requires forall i :: 0 <= i < |s| ==> s[i] != sep
    ensures Split(s, sep) == [s]
  {
    if s != [] {
      SplitNoSep(s[1..], sep);
      assert [s[0]] + s[1..] == s;
    }
  }

  /** Splitting pieces joined by a separator they do not contain gives the pieces back. */
  lemma {:induction false} JoinSplit(parts: seq<string>, sep: char)
    requires |parts| >= 1
    requires forall k, i :: 0 <= k < |parts| && 0 <= i < |parts[k]| ==> parts[k][i] != sep
    ensures Split(Join(parts, [sep]), sep) == parts
  {
    if |parts| == 1 {
      SplitNoSep(parts[0], sep);
    } else {
      JoinSplit(parts[1..], sep);
      SplitPrefix(parts[0], [sep] + Join(parts[1..], [sep]), sep);
      assert parts[0] + [sep] + Join(parts[1..], [sep]) == parts[0] + ([sep] + Join(parts[1..], [sep]));
      assert ([sep] + Join(parts[1..], [sep]))[1..] == Join(parts[1..], [sep]);
    }
  }

  /** A separator-free prefix glues onto the first piece of what follows a separator. */
  lemma {:induction false} SplitPrefix(p: string, t: string, sep: char)
    requires forall i :: 0 <= i < |p| ==> p[i] != sep
    requires |t| >= 1 && t[0] == sep
    ensures Split(p + t, sep) == [p] + Split(t[1..], sep)
  {
    if p == [] {
      assert p + t == t;
    } else {
      SplitPrefix(p[1..], t, sep);
      assert (p + t)[1..] == p[1..] + t;
      assert (p + t)[0] == p[0];
      var rest := Split(p[1..] + t, sep);
      assert rest == [p[1..]] + Split(t[1..], sep);
      assert [p[0]] + p[1..] == p;
    }
  }

  /** The lines of a text block without one leading and one trailing empty
      line: `rows = s.split("\n")`, then `rows = rows[1:]` when `rows[0]` is
      empty and `rows = rows[:-1]` when `rows[-1]` is; `rows[-1]` raises
      IndexError when the only line has been dropped. */
  function TrimLines(text: string): (r: Result<seq<string>>)
    ensures r.Err? <==> text == []
    ensures r.Err? ==> r.error == IndexError
  {
    var rows := Split(text, '\n');
    var rows1 := if rows[0] == [] then rows[1..] else rows;
    if rows1 == [] then Err(IndexError)
    else Ok(if rows1[|rows1| - 1] == [] then rows1[..|rows1| - 1] else rows1)
  }

  /** A text block written as a triple-quoted string that opens with a newline,
      with or without a closing newline, trims back to its lines. */
  lemma TrimLinesFramed(lines: seq<string>, closing: bool)
    requires forall k, i :: 0 <= k < |lines| && 0 <= i < |lines[k]| ==> lines[k][i] != '\n'
    requires !closing ==> lines != [] && lines[|lines| - 1] != []
    ensures TrimLines(Join([""] + lines + (if closing then [""] else []), "\n")) == Ok(lines)
  {
    var all := [""] + lines + (if closing then [""] else []);
    forall k, i | 0 <= k < |all| && 0 <= i < |all[k]|
      ensures all[k][i] != '\n'
    {
      assert all[k] == lines[k - 1];
    }
    JoinSplit(all, '\n');
    TrimLinesRows(Join(all, "\n"), all, lines, closing);
  }

  /** TrimLines on a text that splits into an empty first line, the lines, and
      an empty last line when closing. */
  lemma TrimLinesRows(text: string, all: seq<string>, lines: seq<string>, closing: bool)
    requires all == [""] + lines + (if closing then [""] else [])
    requires Split(text, '\n') == all
    requires !closing ==> lines != [] && lines[|lines| - 1] != []
    ensures TrimLines(text) == Ok(lines)
  {
    var rows1 := all[1..];
    if closing {
      assert rows1 == lines + [""];
      assert rows1[..|rows1| - 1] == lines;
    } else {
      assert rows1 == lines;
    }
  }

  /** Python list indexing `xs[i]` with negative indices counting from the end:
      the position it reads, or None when it raises IndexError. */
  function PyIndex(i: int, len: nat): (k: Option<nat>)
    ensures k.Some? ==> k.value < len
    ensures k.Some? <==> -(len as int) <= i < len
    ensures 0 <= i < len ==> k == Some(i)
    ensures -(len as int) <= i < 0 ==> k == Some(i + len)
  {
    if 0 <= i < len then Some(i) else if -(len as int) <= i < 0 then Some(i + len) else None
  }

  /** The number of elements of `s` that satisfy `p`. */
  function CountIf<T>(s: seq<T>, p: T -> bool): (n: nat)
    ensures n <= |s|
  {
    if s == [] then 0 else (if p(s[0]) then 1 else 0) + CountIf(s[1..], p)
  }

  /** The elements of `s` that satisfy `p`, in order. */
  function Filter<T(!new)>(s: seq<T>, p: T -> bool): (r: seq<T>)
    ensures |r| <= |s|
    ensures forall x :: x in r <==> x in s && p(x)
  {
    if s == [] then [] else (if p(s[0]) then [s[0]] else []) + Filter(s[1..], p)
  }

  lemma {:induction false} FilterLength<T(!new)>(s: seq<T>, p: T -> bool)
    ensures |Filter(s, p)| == CountIf(s, p)
  {
    if s != [] {
      FilterLength(s[1..], p);
    }
  }

  lemma {:induction false} FilterAppend<T(!new)>(s: seq<T>, t: seq<T>, p: T -> bool)
    ensures Filter(s + t, p) == Filter(s, p) + Filter(t, p)
  {
    if s != [] {
      FilterAppend(s[1..], t, p);
      assert (s + t)[1..] == s[1..] + t;
    } else {
      assert s + t == t;
    }
  }

  /** Python's `str.center(width)` (CPython puts the odd pad character on
      the left only when both the pad and the width are odd). */
  function Center(s: string, width: int): (r: string)
    ensures |s| >= width ==> r == s
    ensures |s| < width ==> |r| == width
  {
    if |s| >= width then s
    else
      var marg := width - |s|;
      var left := marg / 2 + (if marg % 2 == 1 && width % 2 == 1 then 1 else 0);
      Spaces(left) + s + Spaces(marg - left)
  }

  /** Python's `str.rjust(width)`. */
  function RJust(s: string, width: int): (r: string)
    ensures |r| == if |s| >= width then |s| else width
    ensures r[|r| - |s|..] == s
  {
    if |s| >= width then s else Spaces(width - |s|) + s
  }

  /** The length of `range(n)`: n, or 0 when n is negative. */
  function RangeLen(n: int): (k: nat)
    ensures n >= 0 ==> k == n
    ensures n < 0 ==> k == 0
  {
    if n < 0 then 0 else n
  }

  /** `" " * n`, which is empty for n <= 0. */
  function Spaces(n: int): (r: string)
    ensures |r| == if n < 0 then 0 else n
    ensures forall i :: 0 <= i < |r| ==> r[i] == ' '
    decreases if n < 0 then 0 else n
  {
    if n <= 0 then [] else " " + Spaces(n - 1)
  }

  /** `s * n`, which is empty for n <= 0. */
  function Repeat(s: string, n: int): (r: string)
    ensures |r| == if n < 0 then 0 else n * |s|
    ensures forall i :: 0 <= i < |r| ==> r[i] in s
    decreases if n < 0 then 0 else n
  {
    if n <= 0 then [] else s + Repeat(s, n - 1)
  }

  lemma MulAtLeast(d: int, m: int)
    requires d >= 1 && m >= 0
    ensures d * m >= m
  {
    if d > 1 {
      MulAtLeast(d - 1, m);
      assert d * m == (d - 1) * m + m;
    }
  }

  /** A quotient of a non-negative number by a positive one is non-negative. */
  lemma DivNonneg(x: int, m: int)
    requires 0 <= x && 0 < m
    ensures 0 <= x / m
  {
  }

  /** Euclidean division is determined by any quotient and remainder that fit. */
  lemma DivModUnique(x: int, k: int, r: int, m: int)
    requires m > 0 && 0 <= r < m && x == k * m + r
    ensures x % m == r && x / m == k
  {
    var k' := x / m;
    var r' := x % m;
    assert x == k' * m + r';
    if k' < k {
      MulAtLeast(k - k', m);
      assert false;
    } else if k < k' {
      MulAtLeast(k' - k, m);
      assert false;
    }
  }

  /** What `random.sample(population, k)` may return: k different members of the population. */
  predicate IsSample<T(==)>(sample: seq<T>, population: seq<T>, k: int)
  {
    |sample| == k &&
    (forall i :: 0 <= i < |sample| ==> sample[i] in population) &&
    (forall i, j :: 0 <= i < j < |sample| ==> sample[i] != sample[j])
  }

  /** No element occurs twice. */
  predicate NoDup<T(==)>(s: seq<T>)
  {
    forall i, j :: 0 <= i < j < |s| ==> s[i] != s[j]
  }

  /** Strictly increasing. */
  predicate Ascending(s: seq<int>)
  {
    forall i, j :: 0 <= i < j < |s| ==> s[i] < s[j]
  }

  /** The set of a sequence's elements (`set(s)`). */
  function Elements<T(==)>(s: seq<T>): set<T>
  {
    set i | 0 <= i < |s| :: s[i]
  }

  /** A sequence without repetitions has as many elements as its length. */
  lemma {:induction false} DistinctCard<T>(s: seq<T>)
    requires forall i, j :: 0 <= i < j < |s| ==> s[i] != s[j]
    ensures |Elements(s)| == |s|
  {
    if s != [] {
      var t := s[..|s| - 1];
      DistinctCard(t);
      assert Elements(s) == Elements(t) + {s[|s| - 1]};
      assert s[|s| - 1] !in Elements(t);
    }
  }

  /** A sequence has at most as many elements as its length. */
  lemma {:induction false} ElementsBound<T>(s: seq<T>)
    ensures |Elements(s)| <= |s|
  {
    if s != [] {
      var t := s[..|s| - 1];
      ElementsBound(t);
      assert Elements(s) == Elements(t) + {s[|s| - 1]};
    }
  }

  /** The elements are exactly what the sequence contains. */
  lemma ElementsIn<T>(s: seq<T>)
    ensures forall x :: x in Elements(s) <==> x in s
  {
    forall x | x in s
      ensures x in Elements(s)
    {
      var i :| 0 <= i < |s| && s[i] == x;
    }
  }

  /** The elements of a sequence with one more element at the end. */
  lemma ElementsSnoc<T>(s: seq<T>, x: T)
    ensures Elements(s + [x]) == Elements(s) + {x}
  {
    assert forall i :: 0 <= i < |s| ==> (s + [x])[i] == s[i];
    assert (s + [x])[|s|] == x;
  }

  /** Counting over one more element. */
  lemma {:induction false} CountIfSnoc<T>(s: seq<T>, x: T, p: T -> bool)
    ensures CountIf(s + [x], p) == CountIf(s, p) + (if p(x) then 1 else 0)
  {
    if s != [] {
      CountIfSnoc(s[1..], x, p);
      assert (s + [x])[1..] == s[1..] + [x];
    }
  }

  /** Nothing is counted exactly when no element satisfies the predicate. */
  lemma {:induction false} CountIfZero<T>(s: seq<T>, p: T -> bool)
    ensures CountIf(s, p) == 0 <==> forall i :: 0 <= i < |s| ==> !p(s[i])
  {
    if s != [] {
      CountIfZero(s[1..], p);
      assert forall i :: 1 <= i < |s| ==> s[i] == s[1..][i - 1];
    }
  }

  /** A subset is no larger than its superset, and only an equal set is as large. */
  lemma SubsetCard<T>(a: set<T>, b: set<T>)
    requires a <= b
    ensures |b| == |a| + |b - a|
    ensures |a| == |b| ==> a == b
  {
    assert b == a + (b - a);
    assert a * (b - a) == {};
    if |a| == |b| {
      assert |b - a| == 0;
    }
  }
}
