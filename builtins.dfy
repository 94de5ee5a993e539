/** Models of the Python built-ins that the core relies on: `str.strip()`,
    `str.split(sep)`, the ordering of `str` values and `sorted()`, the
    built-in `round()` (to an integer and to two decimals) and `int()` on a
    number. Arithmetic is over mathematical reals, not IEEE doubles. */
module PyBuiltins {
  import opened Wrappers

  /** `float(s)` and `int(s)` on a string: `None` stands for the
      `ValueError` they raise on text that is not a number. */
  type RealParser = string -> Option<real>
  type IntParser = string -> Option<int>

  // ---------------------------------------------------------------------
  // str.strip()
  // ---------------------------------------------------------------------

  /** The characters `str.isspace()` accepts, which `str.strip()` removes. */
  predicate IsSpace(c: char) {
    || c == ' ' || '\t' <= c <= '\r' || '\U{001C}' <= c <= '\U{001F}'
    || c == '\U{0085}' || c == '\U{00A0}' || c == '\U{1680}' || '\U{2000}' <= c <= '\U{200A}'
    || c == '\U{2028}' || c == '\U{2029}' || c == '\U{202F}' || c == '\U{205F}' || c == '\U{3000}'
  }

  /** The index of the first character of `s` at or after `i` that is not
      white space (`|s|` if there is none). */
  function SkipLeadingSpace(s: string, i: nat): (n: nat)
    requires i <= |s|
    ensures i <= n <= |s|
    ensures forall k :: i <= k < n ==> IsSpace(s[k])
    ensures n < |s| ==> !IsSpace(s[n])
    decreases |s| - i
  {
    if i < |s| && IsSpace(s[i]) then SkipLeadingSpace(s, i + 1) else i
  }

  /** The index just past the last character of `s[lo..j]` that is not white
      space (`lo` if there is none). */
  function SkipTrailingSpace(s: string, lo: nat, j: nat): (n: nat)
    requires lo <= j <= |s|
    ensures lo <= n <= j
    ensures forall k :: n <= k < j ==> IsSpace(s[k])
    ensures lo < n ==> !IsSpace(s[n - 1])
    decreases j - lo
  {
    if lo < j && IsSpace(s[j - 1]) then SkipTrailingSpace(s, lo, j - 1) else j
  }

  /** `s.strip()`: the slice of `s` between its leading and its trailing
      white space. */
  function Strip(s: string): (r: string)
    ensures r == [] <==> forall k :: 0 <= k < |s| ==> IsSpace(s[k])
    ensures r != [] ==> !IsSpace(r[0]) && !IsSpace(r[|r| - 1])
    ensures var i := SkipLeadingSpace(s, 0);
      && i + |r| <= |s| && r == s[i..i + |r|]
      && (forall k :: 0 <= k < i ==> IsSpace(s[k]))
      && (forall k :: i + |r| <= k < |s| ==> IsSpace(s[k]))
  {
    var i := SkipLeadingSpace(s, 0);
    var j := SkipTrailingSpace(s, i, |s|);
    s[i..j]
  }

  // ---------------------------------------------------------------------
  // str.split(sep)
  // ---------------------------------------------------------------------

  /** `s.split(sep)` for a one-character separator: the pieces between the
      occurrences of `sep`; there is always at least one piece. */
  function Split(s: string, sep: char): (parts: seq<string>)
    ensures |parts| >= 1
    ensures forall i :: 0 <= i < |parts| ==> sep !in parts[i]
  {
    if s == [] then [[]]
    else
      var rest := Split(s[1..], sep);
      if s[0] == sep then [[]] + rest
      else [[s[0]] + rest[0]] + rest[1..]
  }

  /** `sep.join(parts)`. */
  function Join(parts: seq<string>, sep: char): string
    requires |parts| >= 1
  {
    if |parts| == 1 then parts[0] else parts[0] + [sep] + Join(parts[1..], sep)
  }

  /** Joining the pieces of a split gives back the original text. */
  lemma {:induction false} JoinSplit(s: string, sep: char)
    ensures Join(Split(s, sep), sep) == s
  {
    if s != [] {
      JoinSplit(s[1..], sep);
      var rest := Split(s[1..], sep);
      if s[0] != sep {
        if |rest| == 1 {
          assert Join(Split(s, sep), sep) == [s[0]] + rest[0];
        } else {
          assert Split(s, sep)[1..] == rest[1..];
          assert Join(Split(s, sep), sep) == [s[0]] + rest[0] + [sep] + Join(rest[1..], sep);
        }
      } else {
        assert Split(s, sep)[1..] == rest;
      }
    }
  }

  /** A piece free of the separator, followed by the separator and a tail,
      splits into that piece followed by the pieces of the tail. */
  lemma {:induction false} SplitPiece(a: string, t: string, sep: char)
    requires sep !in a
    ensures Split(a + [sep] + t, sep) == [a] + Split(t, sep)
    ensures Split(a, sep) == [a]
  {
    if a != [] {
      SplitPiece(a[1..], t, sep);
      assert (a + [sep] + t)[1..] == a[1..] + [sep] + t;
      assert [a[0]] + a[1..] == a;
    } else {
      assert [] + [sep] + t == [sep] + t;
      assert ([sep] + t)[1..] == t;
    }
  }

  /** Splitting the join of separator-free pieces gives back the pieces. */
  lemma {:induction false} SplitJoin(parts: seq<string>, sep: char)
    requires |parts| >= 1
    requires forall i :: 0 <= i < |parts| ==> sep !in parts[i]
    ensures Split(Join(parts, sep), sep) == parts
  {
    if |parts| == 1 {
      SplitPiece(parts[0], [], sep);
    } else {
      SplitJoin(parts[1..], sep);
      SplitPiece(parts[0], Join(parts[1..], sep), sep);
      assert [parts[0]] + parts[1..] == parts;
    }
  }

  // ---------------------------------------------------------------------
  // Ordering of str values and sorted()
  // ---------------------------------------------------------------------

  /** Python's `a < b` on `str`: lexicographic by code point. */
  predicate StrLess(a: string, b: string) {
    if a == [] then b != []
    else b != [] && (a[0] < b[0] || (a[0] == b[0] && StrLess(a[1..], b[1..])))
  }

  lemma {:induction false} StrLessIrreflexive(a: string)
    ensures !StrLess(a, a)
  {
    if a != [] {
      StrLessIrreflexive(a[1..]);
    }
  }

  lemma {:induction false} StrLessTransitive(a: string, b: string, c: string)
    requires StrLess(a, b) && StrLess(b, c)
    ensures StrLess(a, c)
  {
    if a != [] && b != [] && c != [] && a[0] == b[0] == c[0] {
      StrLessTransitive(a[1..], b[1..], c[1..]);
    }
  }

  lemma {:induction false} StrLessTotal(a: string, b: string)
    ensures a == b || StrLess(a, b) || StrLess(b, a)
  {
    if a != [] && b != [] && a[0] == b[0] {
      assert a == [a[0]] + a[1..] && b == [b[0]] + b[1..];
      StrLessTotal(a[1..], b[1..]);
    }
  }

  lemma {:induction false} StrLessAsymmetric(a: string, b: string)
    ensures StrLess(a, b) ==> !StrLess(b, a)
  {
    if a != [] && b != [] && a[0] == b[0] {
      StrLessAsymmetric(a[1..], b[1..]);
    }
  }

  ghost predicate StrictlySorted(s: seq<string>) {
    forall i, j :: 0 <= i < j < |s| ==> StrLess(s[i], s[j])
  }

  ghost predicate Distinct<T>(s: seq<T>) {
    forall i, j :: 0 <= i < j < |s| ==> s[i] != s[j]
  }

  /** Two duplicate-free lists with no common element concatenate to a
      duplicate-free list. */
  lemma DistinctAppend<T>(a: seq<T>, b: seq<T>)
    requires Distinct(a) && Distinct(b)
    requires forall x :: x in a ==> x !in b
    ensures Distinct(a + b)
  {
    forall i, j | 0 <= i < j < |a + b| ensures (a + b)[i] != (a + b)[j] {
      if i < |a| && |a| <= j {
        assert (a + b)[i] in a && (a + b)[j] in b;
      }
    }
  }

  /** Removing the element at `k` from a duplicate-free list leaves a
      duplicate-free list of exactly the other elements. */
  lemma DistinctRemove<T>(s: seq<T>, k: nat)
    requires Distinct(s) && k < |s|
    ensures var rest := s[..k] + s[k + 1..];
      Distinct(rest) && forall y :: y in rest <==> y in s && y != s[k]
  {
    var rest := s[..k] + s[k + 1..];
    assert forall j :: 0 <= j < |rest| ==> rest[j] == if j < k then s[j] else s[j + 1];
    forall y | y in s && y != s[k] ensures y in rest {
      var j :| 0 <= j < |s| && s[j] == y;
      if j < k {
        assert rest[j] == y;
      } else {
        assert rest[j - 1] == y;
      }
    }
  }

  lemma StrictlySortedIsDistinct(s: seq<string>)
    requires StrictlySorted(s)
    ensures Distinct(s)
  {
    forall i, j | 0 <= i < j < |s| ensures s[i] != s[j] {
      StrLessIrreflexive(s[i]);
    }
  }

  /** Inserts `x` at its place in a strictly sorted sequence. */
  function Insert(s: seq<string>, x: string): (r: seq<string>)
    requires StrictlySorted(s) && x !in s
    ensures StrictlySorted(r)
    ensures |r| == |s| + 1
    ensures forall y :: y in r <==> y == x || y in s
  {
    if s == [] then [x]
    else if StrLess(x, s[0]) then
      assert StrictlySorted([x] + s) by {
        forall j | 0 < j < |s| ensures StrLess(x, s[j]) {
          StrLessTransitive(x, s[0], s[j]);
        }
      }
      [x] + s
    else
      StrLessTotal(x, s[0]);
      var t := Insert(s[1..], x);
      assert StrictlySorted([s[0]] + t) by {
        forall j | 0 <= j < |t| ensures StrLess(s[0], t[j]) {
          assert t[j] in t;
        }
      }
      [s[0]] + t
  }

  /** `sorted(keys)` for a sequence of distinct strings. */
  function Sorted(keys: seq<string>): (r: seq<string>)
    requires Distinct(keys)
    ensures StrictlySorted(r)
    ensures |r| == |keys|
    ensures forall y :: y in r <==> y in keys
  {
    if keys == [] then []
    else
      var last := keys[|keys| - 1];
      var init := keys[..|keys| - 1];
      assert last !in init;
      Insert(Sorted(init), last)
  }


  /** Nothing in a strictly sorted sequence comes before its first element. */
  lemma FirstIsLeast(s: seq<string>, y: string)
    requires StrictlySorted(s) && y in s
    ensures !StrLess(y, s[0])
  {
    var j :| 0 <= j < |s| && s[j] == y;
    StrLessIrreflexive(s[0]);
    if j > 0 {
      StrLessAsymmetric(s[0], s[j]);
    }
  }

  /** A strictly sorted sequence is determined by its elements: the order
      `sorted()` gives does not depend on the order of its input. */
  lemma {:induction false} SortedUnique(s: seq<string>, t: seq<string>)
    requires StrictlySorted(s) && StrictlySorted(t)
    requires forall y :: y in s <==> y in t
    ensures s == t
  {
    if s != [] {
      assert s[0] in s;
    }
    if t != [] {
      assert t[0] in t;
    }
    if s != [] && t != [] {
      assert s[0] in s && t[0] in t;
      FirstIsLeast(t, s[0]);
      FirstIsLeast(s, t[0]);
      StrLessTotal(s[0], t[0]);
      StrictlySortedIsDistinct(s);
      StrictlySortedIsDistinct(t);
      forall y ensures y in s[1..] <==> y in t[1..] {
        if y in s[1..] {
          var k :| 1 <= k < |s| && s[k] == y;
          assert y != s[0];
          assert y in t;
        }
        if y in t[1..] {
          var k :| 1 <= k < |t| && t[k] == y;
          assert y != t[0];
          assert y in s;
        }
      }
      SortedUnique(s[1..], t[1..]);
      assert s == [s[0]] + s[1..] && t == [t[0]] + t[1..];
    }
  }

  // ---------------------------------------------------------------------
  // round(), int() and round(x, 2)
  // ---------------------------------------------------------------------

  function Abs(x: real): real {
    if x < 0.0 then -x else x
  }

  /** `round(x)`: the nearest integer, ties to the even neighbour. */
  function RoundHalfEven(x: real): (n: int)
    ensures Abs(n as real - x) <= 0.5
    ensures Abs(n as real - x) == 0.5 ==> n % 2 == 0
  {
    var f := x.Floor;
    var d := x - f as real;
    if d < 0.5 then f
    else if d > 0.5 then f + 1
    else if f % 2 == 0 then f
    else f + 1
  }

  /** No integer is nearer to `x` than `round(x)`. */
  lemma RoundIsNearest(x: real, m: int)
    ensures Abs(RoundHalfEven(x) as real - x) <= Abs(m as real - x)
  {
    var n := RoundHalfEven(x);
    if m != n {
      assert m <= n - 1 || m >= n + 1;
    }
  }

  /** `round` leaves integers alone. */
  lemma RoundOfInteger(n: int)
    ensures RoundHalfEven(n as real) == n
  {
    assert (n as real).Floor == n;
  }

  /** `round` is monotone. */
  lemma RoundMonotone(x: real, y: real)
    requires x <= y
    ensures RoundHalfEven(x) <= RoundHalfEven(y)
  {
    var fx, fy := x.Floor, y.Floor;
    if fx < fy {
      assert RoundHalfEven(x) <= fx + 1 <= fy <= RoundHalfEven(y);
    }
  }

  /** `int(x)` on a number: truncation toward zero. */
  function Trunc(x: real): (n: int)
    ensures 0.0 <= x ==> n as real <= x < n as real + 1.0
    ensures x < 0.0 ==> n as real - 1.0 < x <= n as real
  {
    if x >= 0.0 then x.Floor else -((-x).Floor)
  }

  /** An integer not below `x` is not below `int(x)`; one not above `x` is
      not above `int(x)`. */
  lemma TruncBetween(x: real, m: int)
    ensures x <= m as real ==> Trunc(x) <= m
    ensures m as real <= x ==> m <= Trunc(x)
  {
  }

  /** A real with at most two decimal places. */
  predicate IsCents(x: real) {
    (x * 100.0).Floor as real == x * 100.0
  }

  /** `round(x, 2)` on exact reals: the nearest multiple of 0.01, ties to
      the even hundredth. */
  function Round2(x: real): (r: real)
    ensures IsCents(r)
    ensures Abs(r - x) <= 0.005
  {
    var n := RoundHalfEven(x * 100.0);
    assert (n as real / 100.0) * 100.0 == n as real;
    n as real / 100.0
  }

  /** Rounding to two decimals stays between bounds that themselves have at
      most two decimals. */
  lemma Round2Between(lo: real, x: real, hi: real)
    requires IsCents(lo) && IsCents(hi) && lo <= x <= hi
    ensures lo <= Round2(x) <= hi
  {
    var a, b := (lo * 100.0).Floor, (hi * 100.0).Floor;
    RoundMonotone(a as real, x * 100.0);
    RoundMonotone(x * 100.0, b as real);
    RoundOfInteger(a);
    RoundOfInteger(b);
  }
}
