/** Optional values: `None` stands for PHP's `null` (a field or array slot never assigned). */
module Optional {
  datatype Option<+T> = None | Some(value: T)
}

/**
 * The string primitives the decoders are built from: PHP's `substr` with a
 * non-negative start and length, digit strings, `explode` and ASCII `strtoupper`.
 */
module Text {

  /** True when every character of `s` is an ASCII decimal digit. */
  predicate IsDigits(s: string) {
    forall i :: 0 <= i < |s| ==> '0' <= s[i] <= '9'
  }

  function Pow10(n: nat): (p: nat)
    ensures p >= 1
  {
    if n == 0 then 1 else 10 * Pow10(n - 1)
  }

  /** The number a digit string denotes; leading zeros are allowed ("01930" is 1930). */
  function DigitsValue(s: string): (v: nat)
    requires IsDigits(s)
    ensures v < Pow10(|s|)
  {
    if s == [] then 0
    else
      var v' := DigitsValue(s[..|s| - 1]);
      var d := s[|s| - 1] as int - '0' as int;
      assert v' * 10 + d < Pow10(|s| - 1) * 10 by {
        assert v' + 1 <= Pow10(|s| - 1);
      }
      v' * 10 + d
  }

  /** The value of one decimal digit. */
  function DigitValue(c: char): int {
    c as int - '0' as int
  }

  /** Appending a digit multiplies the value by ten and adds the digit. */
  lemma DigitsValueSnoc(s: string, c: char)
    requires IsDigits(s) && '0' <= c <= '9'
    ensures DigitsValue(s + [c]) == DigitsValue(s) * 10 + DigitValue(c)
  {
    assert (s + [c])[..|s|] == s;
  }

  lemma DigitsValueOfTwo(a: char, b: char)
    requires '0' <= a <= '9' && '0' <= b <= '9'
    ensures DigitsValue([a, b]) == DigitValue(a) * 10 + DigitValue(b)
  {
    DigitsValueSnoc([], a);
    assert [] + [a] == [a];
    DigitsValueSnoc([a], b);
    assert [a] + [b] == [a, b];
  }

  lemma DigitsValueOfThree(a: char, b: char, c: char)
    requires '0' <= a <= '9' && '0' <= b <= '9' && '0' <= c <= '9'
    ensures DigitsValue([a, b, c]) == DigitValue(a) * 100 + DigitValue(b) * 10 + DigitValue(c)
  {
    DigitsValueOfTwo(a, b);
    DigitsValueSnoc([a, b], c);
    assert [a, b] + [c] == [a, b, c];
  }

  lemma DigitsValueOfFive(a: char, b: char, c: char, d: char, e: char)
    requires '0' <= a <= '9' && '0' <= b <= '9' && '0' <= c <= '9' && '0' <= d <= '9' && '0' <= e <= '9'
    ensures DigitsValue([a, b, c, d, e]) ==
      DigitValue(a) * 10000 + DigitValue(b) * 1000 + DigitValue(c) * 100 + DigitValue(d) * 10 + DigitValue(e)
  {
    DigitsValueOfThree(a, b, c);
    DigitsValueSnoc([a, b, c], d);
    assert [a, b, c] + [d] == [a, b, c, d];
    DigitsValueSnoc([a, b, c, d], e);
    assert [a, b, c, d] + [e] == [a, b, c, d, e];
  }

  /**
   * How many characters `substr(s, start, len)` yields on a string of `n`
   * characters: `len` when the slice fits, what is left when the string ends
   * inside it, none when it starts past the end.
   */
  function SliceLength(n: nat, start: nat, len: nat): nat {
    if start + len <= n then len else if start <= n then n - start else 0
  }

  /**
   * `substr(s, start, len)`: the characters of `s` from `start` on, at most `len`
   * of them; empty when `start` is at or past the end of `s`.
   */
  function Sub(s: string, start: nat, len: nat): (r: string)
    ensures |r| == SliceLength(|s|, start, len)
    ensures start + len <= |s| ==> r == s[start..start + len]
    ensures start + len > |s| ==> r == SubFrom(s, start)
  {
    if |s| <= start then []
    else if start + len <= |s| then s[start..start + len]
    else s[start..]
  }

  /** `substr(s, start)`: everything from `start` on, empty past the end. */
  function SubFrom(s: string, start: nat): (r: string)
    ensures |r| == if start <= |s| then |s| - start else 0
    ensures start <= |s| ==> r == s[start..]
  {
    if |s| <= start then [] else s[start..]
  }

  /** Two adjacent slices make up the slice that spans both. */
  lemma SubAdjacent(s: string, start: nat, n: nat, m: nat)
    ensures Sub(s, start, n) + Sub(s, start + n, m) == Sub(s, start, n + m)
  {
    var a, b, c := Sub(s, start, n), Sub(s, start + n, m), Sub(s, start, n + m);
    assert |a + b| == |c|;
    forall i | 0 <= i < |c| ensures (a + b)[i] == c[i] {
      if i >= |a| {
        assert |a| == n;
        assert (a + b)[i] == b[i - n];
      }
    }
  }

  /** A slice followed by everything after it is everything from the slice's start. */
  lemma SubThenRest(s: string, start: nat, n: nat)
    ensures Sub(s, start, n) + SubFrom(s, start + n) == SubFrom(s, start)
  {
    var a, b, c := Sub(s, start, n), SubFrom(s, start + n), SubFrom(s, start);
    assert |a + b| == |c|;
    forall i | 0 <= i < |c| ensures (a + b)[i] == c[i] {
      if i >= |a| {
        assert |a| == n;
        assert (a + b)[i] == b[i - n];
      }
    }
  }

  /** The slice at the position of a middle piece is that piece. */
  lemma SubOfJoin(pre: string, x: string, post: string)
    ensures Sub(pre + x + post, |pre|, |x|) == x
  {
    assert (pre + x + post)[|pre|..|pre| + |x|] == x;
  }

  /** A slice that ends within `a` does not see what is appended to `a`. */
  lemma SubOfLeft(a: string, b: string, start: nat, n: nat)
    requires start + n <= |a|
    ensures Sub(a + b, start, n) == Sub(a, start, n)
  {
    assert (a + b)[start..start + n] == a[start..start + n];
  }

  /** The slice right after `a`, as long as `b`, is `b`. */
  lemma SubOfRight(a: string, b: string)
    ensures Sub(a + b, |a|, |b|) == b
  {
    assert (a + b)[|a|..|a| + |b|] == b;
  }

  /** Pieces of equal length at the front of equal strings are equal, and so are the rests. */
  lemma ConcatInjective(a: string, b: string, c: string, d: string)
    requires |a| == |c| && a + b == c + d
    ensures a == c && b == d
  {
    assert a == (a + b)[..|a|] && c == (c + d)[..|c|];
    assert b == (a + b)[|a|..] && d == (c + d)[|c|..];
  }

  /** Slices that end before `k` do not see what comes at or after `k`. */
  lemma SubOfPrefix(s: string, k: nat, start: nat, n: nat)
    requires start + n <= k <= |s|
    ensures Sub(s[..k], start, n) == Sub(s, start, n)
  {
  }

  /** Two lines that differ at most in their first character. */
  predicate SameAfterFirst(s: string, t: string) {
    |s| == |t| && 0 < |s| && s[1..] == t[1..]
  }

  /** Slices that start at 1 or later do not see the first character. */
  lemma SubIgnoresFirst(s: string, t: string, start: nat, n: nat)
    requires SameAfterFirst(s, t) && 1 <= start
    ensures Sub(s, start, n) == Sub(t, start, n) && SubFrom(s, start) == SubFrom(t, start)
  {
    var a, b := Sub(s, start, n), Sub(t, start, n);
    forall i | 0 <= i < |a| ensures a[i] == b[i] {
      assert s[start + i] == s[1..][start + i - 1];
    }
    var c, d := SubFrom(s, start), SubFrom(t, start);
    forall i | 0 <= i < |c| ensures c[i] == d[i] {
      assert s[start + i] == s[1..][start + i - 1];
    }
  }

  /** Every slice that starts at 1 or later is the same in both lines. */
  lemma SlicesIgnoreFirst(s: string, t: string)
    requires SameAfterFirst(s, t)
    ensures forall start: nat, n: nat :: 1 <= start ==> Sub(s, start, n) == Sub(t, start, n)
    ensures forall start: nat :: 1 <= start ==> SubFrom(s, start) == SubFrom(t, start)
  {
    forall start: nat, n: nat | 1 <= start
      ensures Sub(s, start, n) == Sub(t, start, n)
    {
      SubIgnoresFirst(s, t, start, n);
    }
    forall start: nat | 1 <= start
      ensures SubFrom(s, start) == SubFrom(t, start)
    {
      SubIgnoresFirst(s, t, start, 0);
    }
  }

  /** Joins `parts` with `sep` between neighbours (PHP `implode`). */
  function Join(parts: seq<string>, sep: char): string
    requires |parts| >= 1
  {
    if |parts| == 1 then parts[0] else parts[0] + [sep] + Join(parts[1..], sep)
  }

  /**
   * PHP `explode(sep, s)`: the pieces of `s` between occurrences of `sep`; a string
   * without `sep` (the empty string included) is a single piece.
   */
  function Explode(s: string, sep: char): (parts: seq<string>)
    ensures |parts| >= 1
  {
    if s == [] then [[]]
    else
      var rest := Explode(s[1..], sep);
      if s[0] == sep then [[]] + rest
      else [[s[0]] + rest[0]] + rest[1..]
  }

  /**
   * No piece holds the separator, joining the pieces with the separator gives
   * the string back, and there is a single piece exactly when the separator
   * does not occur.
   */
  lemma {:induction false} ExplodeJoin(s: string, sep: char)
    ensures forall i :: 0 <= i < |Explode(s, sep)| ==> sep !in Explode(s, sep)[i]
    ensures Join(Explode(s, sep), sep) == s
    ensures |Explode(s, sep)| == 1 <==> sep !in s
  {
    if s != [] {
      ExplodeJoin(s[1..], sep);
      var rest := Explode(s[1..], sep);
      assert s == [s[0]] + s[1..];
      if s[0] == sep {
        assert ([[]] + rest)[1..] == rest;
      } else {
        var parts := [[s[0]] + rest[0]] + rest[1..];
        assert parts[1..] == rest[1..];
        assert forall i :: 1 <= i < |parts| ==> parts[i] == rest[i];
      }
    }
  }

  /** ASCII `strtoupper` of one character. */
  function Upper(c: char): (u: char)
    ensures !('a' <= u <= 'z')
    ensures 'a' <= c <= 'z' ==> 'A' <= u <= 'Z' && u as int + 32 == c as int
    ensures !('a' <= c <= 'z') ==> u == c
  {
    if 'a' <= c <= 'z' then (c as int - 32) as char else c
  }
}
