/**
 * Integer arithmetic and the iostream formatting the progress bar relies on:
 * C++ truncating division, decimal rendering of integers, `std::setw` padding
 * and `std::string::resize`.
 */
module Format {

  function Abs(x: int): nat {
    if x < 0 then -x else x
  }

  /**
   * Signed division as C++ `/` and `std::chrono::duration_cast` compute it: the
   * quotient is truncated toward zero, so the remainder is smaller than the
   * divisor in magnitude and carries the sign of the dividend.
   */
  function TruncDiv(a: int, b: int): (q: int)
    requires b != 0
    ensures Abs(a - q * b) < Abs(b)
    ensures a - q * b == 0 || (a - q * b < 0 <==> a < 0)
    ensures a >= 0 && b > 0 ==> q == a / b
  {
    var q0 := Abs(a) / Abs(b);
    var r0 := Abs(a) % Abs(b);
    assert Abs(a) == q0 * Abs(b) + r0;
    if (a < 0) == (b < 0) then
      assert a - q0 * b == if a < 0 then -r0 else r0;
      q0
    else
      assert a - (-q0) * b == if a < 0 then -r0 else r0;
      -q0
  }

  lemma MulMonotone(a: int, b: int, d: int)
    requires a <= b && d >= 0
    ensures a * d <= b * d
  {
    assert b * d - a * d == (b - a) * d;
  }

  /** Euclidean division has at most one quotient with a remainder in [0, d). */
  lemma DivUnique(x: int, d: int, q: int, r: int)
    requires d > 0 && x == q * d + r && 0 <= r < d
    ensures x / d == q
  {
    var q' := x / d;
    assert x == q' * d + x % d && 0 <= x % d < d;
    assert (q + 1) * d == q * d + d;
    assert (q' + 1) * d == q' * d + d;
    if q' > q {
      MulMonotone(q + 1, q', d);
      assert false;
    } else if q' < q {
      MulMonotone(q' + 1, q, d);
      assert false;
    }
  }

  function Pow10(k: nat): nat {
    if k == 0 then 1 else 10 * Pow10(k - 1)
  }

  /** The number of decimal digits of n; 0 has none. */
  function DigitCount(n: nat): nat {
    if n == 0 then 0 else 1 + DigitCount(n / 10)
  }

  /** DigitCount(n) = d exactly when n lies in [10^(d-1), 10^d). */
  lemma {:induction false} DigitCountBounds(n: nat)
    requires n > 0
    ensures DigitCount(n) >= 1
    ensures Pow10(DigitCount(n) - 1) <= n < Pow10(DigitCount(n))
  {
    if n >= 10 {
      DigitCountBounds(n / 10);
      var d := DigitCount(n / 10);
      assert DigitCount(n) == d + 1;
      assert Pow10(d) == 10 * Pow10(d - 1);
      assert 10 * (n / 10) <= n < 10 * (n / 10) + 10;
    }
  }

  lemma {:induction false} DigitCountMonotone(a: nat, b: nat)
    requires a <= b
    ensures DigitCount(a) <= DigitCount(b)
  {
    if a > 0 {
      DigitCountMonotone(a / 10, b / 10);
    }
  }

  /** Removing four trailing digits at once, as count_places does. */
  lemma DigitCountDrop4(n: nat)
    requires n >= 10000
    ensures DigitCount(n) == 4 + DigitCount(n / 10000)
  {
    assert n / 10 / 10 / 10 / 10 == n / 10000;
    assert DigitCount(n) == 1 + DigitCount(n / 10);
    assert DigitCount(n / 10) == 1 + DigitCount(n / 10 / 10);
    assert DigitCount(n / 10 / 10) == 1 + DigitCount(n / 10 / 10 / 10);
    assert DigitCount(n / 10 / 10 / 10) == 1 + DigitCount(n / 10 / 10 / 10 / 10);
  }

  predicate IsDigit(c: char) {
    '0' <= c <= '9'
  }

  /** ECMAScript `\w`: a letter, a digit or the underscore. */
  predicate IsWordChar(c: char) {
    ('a' <= c <= 'z') || ('A' <= c <= 'Z') || IsDigit(c) || c == '_'
  }

  predicate AllDigits(s: string) {
    forall i :: 0 <= i < |s| ==> IsDigit(s[i])
  }

  function DigitChar(d: nat): (c: char)
    requires d < 10
    ensures IsDigit(c)
  {
    ('0' as int + d) as char
  }

  /** The decimal text of n, as `operator<<` writes a non-negative integer. */
  function NatToString(n: nat): (s: string)
    ensures AllDigits(s)
    ensures |s| == if n == 0 then 1 else DigitCount(n)
    decreases n
  {
    if n < 10 then [DigitChar(n)] else NatToString(n / 10) + [DigitChar(n % 10)]
  }

  /** The value of a string of decimal digits. */
  function DigitsValue(s: string): nat
    requires AllDigits(s)
  {
    if s == [] then 0 else 10 * DigitsValue(s[..|s| - 1]) + (s[|s| - 1] as int - '0' as int)
  }

  /** Reading back the decimal text of n gives n. */
  lemma {:induction false} NatToStringRoundTrip(n: nat)
    ensures DigitsValue(NatToString(n)) == n
  {
    var s := NatToString(n);
    if n >= 10 {
      assert s[..|s| - 1] == NatToString(n / 10);
      NatToStringRoundTrip(n / 10);
    }
  }

  /** The decimal text of x, with a leading '-' when x is negative. */
  function IntToString(x: int): (s: string)
    ensures forall i :: 0 <= i < |s| ==> IsDigit(s[i]) || s[i] == '-'
    ensures |s| == (if x < 0 then 1 else 0) + (if x == 0 then 1 else DigitCount(Abs(x)))
  {
    if x < 0 then "-" + NatToString(-x) else NatToString(x)
  }

  /** The text of x is a '-' exactly for a negative x, then the decimal digits of abs(x). */
  lemma IntToStringValue(x: int)
    ensures var s := IntToString(x);
      var digits := if x < 0 then s[1..] else s;
      && ((|s| > 0 && s[0] == '-') <==> x < 0)
      && AllDigits(digits) && DigitsValue(digits) == Abs(x)
  {
    NatToStringRoundTrip(Abs(x));
    if x < 0 {
      assert IntToString(x)[1..] == NatToString(-x);
    }
  }

  function Repeat(c: char, k: nat): (s: string)
    ensures |s| == k && forall i :: 0 <= i < k ==> s[i] == c
  {
    if k == 0 then [] else [c] + Repeat(c, k - 1)
  }

  /**
   * `std::setw(w) << s` with the default right adjustment: pads on the left
   * with the fill character up to width w and never truncates.
   */
  function PadLeft(s: string, w: int, fill: char): (r: string)
    ensures |r| == if |s| >= w then |s| else w
    ensures |r| >= |s| && r[|r| - |s|..] == s
    ensures forall i :: 0 <= i < |r| - |s| ==> r[i] == fill
  {
    if |s| >= w then s else Repeat(fill, w - |s|) + s
  }

  /** `std::string::resize(k, fill)`: truncate to k characters or pad on the right. */
  function Resize(s: string, k: nat, fill: char): (r: string)
    ensures |r| == k
    ensures forall i :: 0 <= i < k && i < |s| ==> r[i] == s[i]
    ensures forall i :: |s| <= i < k ==> r[i] == fill
  {
    if |s| >= k then s[..k] else s + Repeat(fill, k - |s|)
  }

  /**
   * Resizing a head of s to a and the rest of s to b is resizing s to a + b;
   * this is how print_bar spreads the description over its two segments.
   */
  lemma ResizeSplit(s: string, a: nat, b: nat, fill: char)
    ensures Resize(s[..if a < |s| then a else |s|], a, fill)
          + Resize(if a > |s| then [] else s[a..], b, fill)
         == Resize(s, a + b, fill)
  {
    var lhs := Resize(s[..if a < |s| then a else |s|], a, fill)
             + Resize(if a > |s| then [] else s[a..], b, fill);
    var rhs := Resize(s, a + b, fill);
    assert |lhs| == |rhs|;
    forall i | 0 <= i < |lhs| ensures lhs[i] == rhs[i] {
      if i < a {
        assert lhs[i] == Resize(s[..if a < |s| then a else |s|], a, fill)[i];
      } else {
        assert lhs[i] == Resize(if a > |s| then [] else s[a..], b, fill)[i - a];
      }
    }
  }
}
