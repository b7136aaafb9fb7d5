/** Java's 32-bit int as used by the test harness: the wrap-around of
    AtomicInteger.getAndIncrement and the decimal text of "" + n. */
module JavaInt {

  const MinInt: int := -0x8000_0000
  const MaxInt: int := 0x7fff_ffff
  /** The number of distinct int values. */
  const Modulus: int := 0x1_0000_0000

  predicate IsInt32(x: int)
  {
    MinInt <= x <= MaxInt
  }

  /** The value an AtomicInteger holds after one increment: past the largest
      int it wraps to the smallest. */
  function Increment(x: int): (r: int)
    requires IsInt32(x)
    ensures IsInt32(r)
    ensures r == x + 1 || r == x + 1 - Modulus
  {
    if x == MaxInt then MinInt else x + 1
  }

  /** The value after k increments. */
  function Advance(x: int, k: nat): (r: int)
    requires IsInt32(x)
    ensures IsInt32(r)
    decreases k
  {
    if k == 0 then x else Increment(Advance(x, k - 1))
  }

  /** Fewer than 2^32 increments move x by k, modulo 2^32, into the int range. */
  lemma {:induction false} AdvanceClosedForm(x: int, k: nat)
    requires IsInt32(x) && k < Modulus
    ensures Advance(x, k) == if x + k <= MaxInt then x + k else x + k - Modulus
    decreases k
  {
    if k > 0 {
      AdvanceClosedForm(x, k - 1);
    }
  }

  /** No value repeats within 2^32 successive increments. */
  lemma AdvanceInjective(x: int, j: nat, k: nat)
    requires IsInt32(x) && j < k < Modulus
    ensures Advance(x, j) != Advance(x, k)
  {
    AdvanceClosedForm(x, j);
    AdvanceClosedForm(x, k);
  }

  function DigitChar(d: int): char
    requires 0 <= d < 10
  {
    "0123456789"[d]
  }

  predicate IsDigit(c: char)
  {
    '0' <= c <= '9'
  }

  function DigitValue(c: char): int
    requires IsDigit(c)
  {
    c as int - '0' as int
  }

  /** Decimal digits of a natural number, most significant first. */
  function NaturalToString(n: nat): string
    decreases n
  {
    if n < 10 then [DigitChar(n)]
    else NaturalToString(n / 10) + [DigitChar(n % 10)]
  }

  /** The text of a natural number is a non-empty string of digits with no
      leading zero. */
  lemma {:induction false} NaturalToStringDigits(n: nat)
    ensures var s := NaturalToString(n);
      |s| > 0 && (forall i :: 0 <= i < |s| ==> IsDigit(s[i])) && (s[0] == '0' ==> n == 0)
    decreases n
  {
    if n >= 10 {
      NaturalToStringDigits(n / 10);
    }
  }

  /** Integer.toString, the text of "" + x: a negative value is a minus sign
      before the text of its magnitude. */
  function IntToString(x: int): string
    decreases if x < 0 then 1 else 0
  {
    if x < 0 then "-" + IntToString(-x) else NaturalToString(x)
  }

  /** The number a string of decimal digits stands for. */
  function DigitsValue(s: string): nat
    requires forall i :: 0 <= i < |s| ==> IsDigit(s[i])
    decreases |s|
  {
    if s == [] then 0
    else 10 * DigitsValue(s[..|s| - 1]) + DigitValue(s[|s| - 1])
  }

  /** The inverse of IntToString on its image (Integer.parseInt without the
      leading '+' it also accepts). */
  function ParseInt(s: string): int
    requires |s| > 0
    requires forall i :: 0 < i < |s| ==> IsDigit(s[i])
    requires s[0] == '-' || IsDigit(s[0])
  {
    if s[0] == '-' then 0 - DigitsValue(s[1..]) as int else DigitsValue(s)
  }

  lemma {:induction false} NaturalRoundTrip(n: nat)
    ensures var s := NaturalToString(n);
      (forall i :: 0 <= i < |s| ==> IsDigit(s[i])) && DigitsValue(s) == n
    decreases n
  {
    NaturalToStringDigits(n);
    if n >= 10 {
      NaturalRoundTrip(n / 10);
      var s := NaturalToString(n);
      assert s[..|s| - 1] == NaturalToString(n / 10);
    }
  }

  /** Reading back the decimal text of an int gives the int; the text starts
      with '-' exactly for negative values. */
  lemma IntRoundTrip(x: int)
    ensures var s := IntToString(x);
      |s| > 0 && (s[0] == '-' <==> x < 0) &&
      (forall i :: 0 < i < |s| ==> IsDigit(s[i])) && (s[0] == '-' || IsDigit(s[0])) &&
      ParseInt(s) == x
  {
    var s := IntToString(x);
    if x < 0 {
      var digits := NaturalToString(-x);
      NaturalRoundTrip(-x);
      NaturalToStringDigits(-x);
      assert s == "-" + digits;
      assert s[1..] == digits;
      assert forall i :: 0 < i < |s| ==> s[i] == digits[i - 1];
    } else {
      NaturalRoundTrip(x);
      NaturalToStringDigits(x);
    }
  }

  /** Distinct ints have distinct decimal texts. */
  lemma IntToStringInjective(x: int, y: int)
    requires x != y
    ensures IntToString(x) != IntToString(y)
  {
    IntRoundTrip(x);
    IntRoundTrip(y);
  }
}
