/**
 * Text as the store sees it. SQLite compares TEXT values with its BINARY
 * collation: byte by byte on the UTF-8 encoding, a proper prefix sorting
 * first. On valid UTF-8 that is the order of code points, which is what
 * `Compare` computes on Dafny's `char`.
 */
module Text {

  /** Three-way comparison of two strings: -1, 0 or 1 as `a` sorts before, with or after `b`. */
  function Compare(a: string, b: string): (r: int)
    ensures -1 <= r <= 1
    ensures r == 0 <==> a == b
  {
    if a == [] && b == [] then 0
    else if a == [] then -1
    else if b == [] then 1
    else if a[0] < b[0] then -1
    else if a[0] > b[0] then 1
    else
      assert a == [a[0]] + a[1..] && b == [b[0]] + b[1..];
      Compare(a[1..], b[1..])
  }

  /** Swapping the arguments flips the answer. */
  lemma {:induction false} CompareFlip(a: string, b: string)
    ensures Compare(b, a) == -Compare(a, b)
  {
    if a != [] && b != [] && a[0] == b[0] {
      CompareFlip(a[1..], b[1..]);
    }
  }

  /** `Compare(_, _) <= 0` is transitive, so ORDER BY on text is a total preorder. */
  lemma {:induction false} CompareTransitive(a: string, b: string, c: string)
    requires Compare(a, b) <= 0 && Compare(b, c) <= 0
    ensures Compare(a, c) <= 0
  {
    if a != [] && b != [] && c != [] && a[0] == b[0] == c[0] {
      CompareTransitive(a[1..], b[1..], c[1..]);
    }
  }

  /** Comparing concatenations whose first parts have equal length: the first parts decide unless equal. */
  lemma {:induction false} CompareAppend(a1: string, a2: string, b1: string, b2: string)
    requires |a1| == |b1|
    ensures Compare(a1 + a2, b1 + b2) == if a1 != b1 then Compare(a1, b1) else Compare(a2, b2)
  {
    if a1 != [] {
      assert (a1 + a2)[1..] == a1[1..] + a2;
      assert (b1 + b2)[1..] == b1[1..] + b2;
      assert a1 == [a1[0]] + a1[1..] && b1 == [b1[0]] + b1[1..];
      CompareAppend(a1[1..], a2, b1[1..], b2);
    } else {
      assert a1 + a2 == a2 && b1 + b2 == b2;
    }
  }

  /** `needle` occurs as a contiguous piece of `s`. */
  predicate Contains(s: string, needle: string) {
    exists i, j :: 0 <= i <= j <= |s| && s[i..j] == needle
  }

  /** The character of a decimal digit. */
  function DigitChar(k: int): (c: char)
    requires 0 <= k < 10
    ensures '0' <= c <= '9' && c as int - '0' as int == k
  {
    ('0' as int + k) as char
  }

  function Pow10(w: nat): (p: nat)
    ensures p >= 1
  {
    if w == 0 then 1 else 10 * Pow10(w - 1)
  }

  /** `n` written in exactly `w` decimal digits, padded on the left with zeros (strftime's `%m`, `%d`). */
  function Digits(n: nat, w: nat): (s: string)
    ensures |s| == w
    ensures forall i :: 0 <= i < w ==> '0' <= s[i] <= '9'
  {
    if w == 0 then [] else Digits(n / 10, w - 1) + [DigitChar(n % 10)]
  }

  /** The value of a string of decimal digits; 0 for the empty string. */
  function DigitsValue(s: string): (n: nat)
    requires forall i :: 0 <= i < |s| ==> '0' <= s[i] <= '9'
    ensures n < Pow10(|s|)
  {
    if s == [] then 0
    else 10 * DigitsValue(s[..|s| - 1]) + (s[|s| - 1] as int - '0' as int)
  }

  predicate AllDigits(s: string) {
    forall i :: 0 <= i < |s| ==> '0' <= s[i] <= '9'
  }

  /** Reading back a padded number gives the number. */
  lemma {:induction false} DigitsRoundTrip(n: nat, w: nat)
    requires n < Pow10(w)
    ensures DigitsValue(Digits(n, w)) == n
  {
    if w > 0 {
      var s := Digits(n, w);
      assert s[..|s| - 1] == Digits(n / 10, w - 1);
      DigitsRoundTrip(n / 10, w - 1);
    }
  }

  /** Writing the value of a digit string back in the same width gives the string. */
  lemma {:induction false} DigitsOfValue(s: string)
    requires AllDigits(s)
    ensures Digits(DigitsValue(s), |s|) == s
  {
    if s != [] {
      var init := s[..|s| - 1];
      DigitsOfValue(init);
      var k := s[|s| - 1] as int - '0' as int;
      LastDigit(DigitsValue(init), k);
      assert s == init + [s[|s| - 1]];
    }
  }

  lemma LastDigit(m: nat, k: int)
    requires 0 <= k < 10
    ensures (10 * m + k) / 10 == m && (10 * m + k) % 10 == k
  {
  }

  /** Fixed-width numerals compare as strings exactly as their values compare as numbers. */
  lemma {:induction false} CompareDigits(a: nat, b: nat, w: nat)
    requires a < Pow10(w) && b < Pow10(w)
    ensures Compare(Digits(a, w), Digits(b, w)) == if a < b then -1 else if a == b then 0 else 1
  {
    if w > 0 {
      assert a / 10 < Pow10(w - 1) && b / 10 < Pow10(w - 1);
      CompareDigits(a / 10, b / 10, w - 1);
      CompareAppend(Digits(a / 10, w - 1), [DigitChar(a % 10)], Digits(b / 10, w - 1), [DigitChar(b % 10)]);
      if Digits(a / 10, w - 1) == Digits(b / 10, w - 1) {
        assert a / 10 == b / 10;
        assert [DigitChar(a % 10)][1..] == [] == [DigitChar(b % 10)][1..];
      }
    }
  }
}
