/** `Base62`: encode and decode, on JavaScript numbers.

    A quotient or product that is no double is rounded, so the loops are exact only
    because the rounding error stays small; `rnd` is the rounding of one operation. */
module Base62 {
  import opened Schema

  const BASE62_ALPHABET: string := "0123456789" + "ABCDEFGHIJKLMNOPQRSTUVWXYZ" + "abcdefghijklmnopqrstuvwxyz"

  const TWO_53: int := 0x20_0000_0000_0000

  // ----- Doubles ----------------------------------------------------------------------

  function Pow2(k: nat): (r: real)
    ensures r >= 1.0
  {
    if k == 0 then 1.0 else 2.0 * Pow2(k - 1)
  }

  function Abs(x: real): real { if x < 0.0 then -x else x }

  ghost predicate IsScaledUp(x: real, m: int, k: nat) { x == m as real * Pow2(k) }

  ghost predicate IsScaledDown(x: real, m: int, k: nat) { x * Pow2(k) == m as real }

  /** The finite numbers of the binary64 format: an integer of 53 bits times a power of
      two from 2^-1074 to 2^971. */
  ghost predicate IsDouble(x: real) {
    || (exists m: int, k: nat :: -TWO_53 < m < TWO_53 && k <= 971 && IsScaledUp(x, m, k))
    || (exists m: int, k: nat :: -TWO_53 < m < TWO_53 && k <= 1074 && IsScaledDown(x, m, k))
  }

  /** Rounding to a nearest double, whichever way ties go, of what is far from overflow. */
  ghost predicate RoundsToNearest(rnd: real -> real) {
    forall x: real, d: real :: Abs(x) <= TWO_53 as real && IsDouble(d) ==>
      IsDouble(rnd(x)) && Abs(rnd(x) - x) <= Abs(d - x)
  }

  lemma IntegersAreDoubles(n: int)
    requires -TWO_53 <= n <= TWO_53
    ensures IsDouble(n as real)
  {
    if n == TWO_53 || n == -TWO_53 {
      assert Pow2(1) == 2.0 * Pow2(0);
      assert IsScaledUp(n as real, n / 2, 1);
    } else {
      assert IsScaledUp(n as real, n, 0);
    }
  }

  lemma ThirtySecondsAreDoubles(t: int)
    requires -TWO_53 < t < TWO_53
    ensures IsDouble(t as real / 32.0)
  {
    assert Pow2(5) == 2.0 * Pow2(4) == 4.0 * Pow2(3) == 8.0 * Pow2(2) == 16.0 * Pow2(1) == 32.0 * Pow2(0);
    assert IsScaledDown(t as real / 32.0, t, 5);
  }

  lemma IntegersAreExact(rnd: real -> real, n: int)
    requires RoundsToNearest(rnd) && -TWO_53 <= n <= TWO_53
    ensures rnd(n as real) == n as real
  {
    IntegersAreDoubles(n);
    assert Abs(rnd(n as real) - n as real) <= Abs(n as real - n as real);
  }

  /** Below 2^48 the doubles are at most 1/32 apart. */
  lemma ErrorIsSmall(rnd: real -> real, x: real)
    requires RoundsToNearest(rnd) && 0.0 <= x <= (TWO_53 / 32 - 1) as real
    ensures Abs(rnd(x) - x) <= 1.0 / 64.0
  {
    var t := (32.0 * x).Floor;
    assert t as real <= 32.0 * x < t as real + 1.0;
    ThirtySecondsAreDoubles(t);
    ThirtySecondsAreDoubles(t + 1);
    var low, high := t as real / 32.0, (t + 1) as real / 32.0;
    assert high == low + 1.0 / 32.0 && low <= x < high;
    assert Abs(rnd(x) - x) <= Abs(low - x) && Abs(rnd(x) - x) <= Abs(high - x);
  }

  /** `Math.floor(num / 62)` is the integer quotient for every safe integer. */
  lemma DivisionIsExact(rnd: real -> real, n: int)
    requires RoundsToNearest(rnd) && 0 <= n < TWO_53
    ensures rnd(n as real / 62.0).Floor == n / 62
  {
    var q, r, x := n / 62, n % 62, n as real / 62.0;
    assert n == 62 * q + r && n as real == 62.0 * q as real + r as real;
    assert x == q as real + r as real / 62.0;
    assert q as real <= x <= q as real + 61.0 / 62.0;
    ErrorIsSmall(rnd, x);
    IntegersAreDoubles(q);
    assert Abs(rnd(x) - x) <= Abs(q as real - x);
    assert q as real <= rnd(x) < q as real + 1.0;
  }

  // ----- Positional notation --------------------------------------------------------------

  /** The character at a position of the alphabet. */
  function Digit(i: int): char
    requires 0 <= i < 62
  {
    if i < 10 then ('0' as int + i) as char
    else if i < 36 then ('A' as int + (i - 10)) as char
    else ('a' as int + (i - 36)) as char
  }

  lemma AlphabetIsDigits(i: int)
    requires 0 <= i < 62
    ensures BASE62_ALPHABET[i] == Digit(i)
  {
    if i < 10 {
      assert "0123456789"[i] == Digit(i);
    } else if i < 36 {
      assert "ABCDEFGHIJKLMNOPQRSTUVWXYZ"[i - 10] == Digit(i);
    } else {
      assert "abcdefghijklmnopqrstuvwxyz"[i - 36] == Digit(i);
    }
  }

  predicate IsDigit(c: char) { '0' <= c <= '9' || 'A' <= c <= 'Z' || 'a' <= c <= 'z' }

  /** `BASE62_ALPHABET.indexOf(c)`. */
  function IndexOf(c: char): int {
    if '0' <= c <= '9' then c as int - '0' as int
    else if 'A' <= c <= 'Z' then c as int - 'A' as int + 10
    else if 'a' <= c <= 'z' then c as int - 'a' as int + 36
    else -1
  }

  lemma IndexOfDigit(i: int)
    requires 0 <= i < 62
    ensures IsDigit(Digit(i)) && IndexOf(Digit(i)) == i
  {
  }

  lemma DigitOfIndex(c: char)
    requires IsDigit(c)
    ensures 0 <= IndexOf(c) < 62 && Digit(IndexOf(c)) == c
  {
  }

  function Digits(n: nat): string {
    if n == 0 then "" else Digits(n / 62) + [Digit(n % 62)]
  }

  /** What encoding yields; a negative number has no digits. */
  function Encoded(n: int): string {
    if n == 0 then [Digit(0)] else if n < 0 then "" else Digits(n)
  }

  predicate AllDigits(s: string) { forall i :: 0 <= i < |s| ==> IsDigit(s[i]) }

  function Value(s: string): (v: nat)
    requires AllDigits(s)
    decreases |s|
  {
    if s == "" then 0
    else DigitOfIndex(s[|s| - 1]); 62 * Value(s[..|s| - 1]) + IndexOf(s[|s| - 1])
  }

  // ----- The loops ----------------------------------------------------------------------------

  function Reversed(s: string): string
    decreases |s|
  {
    if s == "" then "" else [s[|s| - 1]] + Reversed(s[..|s| - 1])
  }

  lemma ReversedPush(s: string, c: char)
    ensures Reversed(s + [c]) == [c] + Reversed(s)
  {
    assert (s + [c])[..|s|] == s;
  }

  lemma EncodeStep(all: string, num: nat, result: string)
    requires 0 < num && all == Digits(num) + Reversed(result)
    ensures all == Digits(num / 62) + Reversed(result + [Digit(num % 62)])
  {
    ReversedPush(result, Digit(num % 62));
    assert Digits(num) == Digits(num / 62) + [Digit(num % 62)];
    assert all == Digits(num / 62) + ([Digit(num % 62)] + Reversed(result));
  }

  method Encode(n: int, rnd: real -> real) returns (s: string)
    requires RoundsToNearest(rnd) && n < TWO_53
    ensures s == Encoded(n)
  {
    if n == 0 {
      return [Digit(0)];
    }
    var result := "";
    var num := n;
    while num > 0
      invariant n > 0 ==> 0 <= num <= n && Digits(n) == Digits(num) + Reversed(result)
      invariant n < 0 ==> num == n && result == ""
      decreases num
    {
      EncodeStep(Digits(n), num, result);
      DivisionIsExact(rnd, num);
      result := result + [Digit(num % 62)];
      num := rnd(num as real / 62.0).Floor;
    }
    return Reversed(result);
  }

  lemma ValueOfPrefix(s: string, i: nat)
    requires AllDigits(s) && i < |s|
    ensures Value(s[..i + 1]) == 62 * Value(s[..i]) + IndexOf(s[i]) && 0 <= IndexOf(s[i]) < 62
  {
    DigitOfIndex(s[i]);
    assert s[..i + 1][..i] == s[..i];
  }

  lemma {:induction false} PrefixesAreSmaller(s: string, i: nat)
    requires AllDigits(s) && i <= |s|
    ensures Value(s[..i]) <= Value(s)
    decreases |s| - i
  {
    if i == |s| {
      assert s[..i] == s;
    } else {
      ValueOfPrefix(s, i);
      PrefixesAreSmaller(s, i + 1);
    }
  }

  /** `number * 62 + index`, each operation rounded. */
  function Shifted(rnd: real -> real, number: real, index: int): real { rnd(rnd(number * 62.0) + index as real) }

  lemma StepIsExact(rnd: real -> real, v: nat, d: nat)
    requires RoundsToNearest(rnd) && 62 * v + d <= TWO_53
    ensures Shifted(rnd, v as real, d) == (62 * v + d) as real
  {
    assert v as real * 62.0 == (62 * v) as real;
    IntegersAreExact(rnd, 62 * v);
    IntegersAreExact(rnd, 62 * v + d);
  }

  /** None stands for the error on a foreign character. */
  method Decode(s: string, rnd: real -> real) returns (r: Option<real>)
    requires RoundsToNearest(rnd)
    ensures r.Some? <==> AllDigits(s)
    ensures AllDigits(s) && Value(s) <= TWO_53 ==> r == Some(Value(s) as real)
  {
    var number := 0.0;
    for i := 0 to |s|
      invariant AllDigits(s[..i])
      invariant AllDigits(s) && Value(s) <= TWO_53 ==> number == Value(s[..i]) as real
    {
      var index := IndexOf(s[i]);
      if index == -1 {
        return None;
      }
      if AllDigits(s) && Value(s) <= TWO_53 {
        ValueOfPrefix(s, i);
        PrefixesAreSmaller(s, i + 1);
        StepIsExact(rnd, Value(s[..i]), index);
      }
      assert s[..i + 1] == s[..i] + [s[i]];
      number := Shifted(rnd, number, index);
    }
    assert s[..|s|] == s;
    return Some(number);
  }

  // ----- Round trips ----------------------------------------------------------------------------

  lemma {:induction false} ValueOfDigits(n: nat)
    ensures AllDigits(Digits(n)) && Value(Digits(n)) == n
  {
    if n > 0 {
      ValueOfDigits(n / 62);
      IndexOfDigit(n % 62);
      assert Digits(n)[..|Digits(n)| - 1] == Digits(n / 62);
    }
  }

  lemma DecodeEncode(n: nat)
    ensures AllDigits(Encoded(n)) && Encoded(n) != "" && Value(Encoded(n)) == n
  {
    ValueOfDigits(n);
    IndexOfDigit(0);
  }

  lemma EncodedInjective(a: nat, b: nat)
    ensures Encoded(a) == Encoded(b) ==> a == b
  {
    DecodeEncode(a);
    DecodeEncode(b);
  }

  /** No leading zero, except for zero itself. */
  predicate IsCanonical(s: string) {
    s != "" && AllDigits(s) && (s[0] == '0' ==> s == "0")
  }

  lemma DigitsSplit(q: nat, r: nat)
    requires r < 62 && 62 * q + r > 0
    ensures Digits(62 * q + r) == Digits(q) + [Digit(r)]
  {
    var n := 62 * q + r;
    assert n / 62 == q && n % 62 == r;
  }

  lemma DigitsAppend(front: string, c: char)
    requires AllDigits(front) && IsDigit(c) && Digits(Value(front)) == front
    requires Value(front) > 0 || IndexOf(c) > 0
    ensures AllDigits(front + [c]) && Value(front + [c]) > 0 && Digits(Value(front + [c])) == front + [c]
  {
    DigitOfIndex(c);
    assert (front + [c])[..|front|] == front;
    assert Value(front + [c]) == 62 * Value(front) + IndexOf(c);
    DigitsSplit(Value(front), IndexOf(c));
  }

  lemma {:induction false} DigitsOfValue(s: string)
    requires AllDigits(s) && s != "" && s[0] != '0'
    ensures Value(s) > 0 && Digits(Value(s)) == s
    decreases |s|
  {
    var n := |s| - 1;
    if n > 0 {
      DigitsOfValue(s[..n]);
    }
    DigitsAppend(s[..n], s[n]);
    assert s == s[..n] + [s[n]];
  }

  lemma {:induction false} DigitsLead(n: nat)
    ensures n > 0 ==> Digits(n) != "" && Digits(n)[0] != '0'
  {
    if n >= 62 {
      DigitsLead(n / 62);
    } else if n > 0 {
      IndexOfDigit(n);
      assert Digits(0) == "" && Digits(n) == [Digit(n)];
    }
  }

  /** The strings that survive decoding and encoding are exactly the canonical ones. */
  lemma EncodeDecode(s: string)
    requires AllDigits(s)
    ensures Encoded(Value(s)) == s <==> IsCanonical(s)
  {
    if IsCanonical(s) {
      if s == "0" {
        assert Value(s[..0]) == 0;
      } else {
        DigitsOfValue(s);
      }
    }
    DecodeEncode(Value(s));
    DigitsLead(Value(s));
    IndexOfDigit(0);
  }

  // ----- Length ---------------------------------------------------------------------------------

  function Pow62(k: nat): (r: nat)
    ensures r >= 1
  {
    if k == 0 then 1 else 62 * Pow62(k - 1)
  }

  /** A number has at most k digits exactly when it is below 62^k. */
  lemma {:induction false} DigitCount(n: nat, k: nat)
    ensures |Digits(n)| <= k <==> n < Pow62(k)
    decreases k
  {
    if n > 0 && k > 0 {
      DigitCount(n / 62, k - 1);
      assert n / 62 < Pow62(k - 1) <==> n < 62 * Pow62(k - 1);
    } else {
      assert Pow62(k) >= 1;
    }
  }

  lemma AtMostNineDigits(n: nat)
    requires n < TWO_53
    ensures |Encoded(n)| <= 9
  {
    DigitCount(n, 9);
    assert Pow62(3) == 62 * Pow62(2) == 3844 * Pow62(1) == 238328;
    assert Pow62(6) == 62 * Pow62(5) == 3844 * Pow62(4) == 238328 * Pow62(3);
    assert Pow62(9) == 62 * Pow62(8) == 3844 * Pow62(7) == 238328 * Pow62(6);
  }
}
