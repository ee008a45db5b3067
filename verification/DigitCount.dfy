/** The three versions of count_digits. */
module DigitCount {
  import opened Numerals

  const POWERS_OF_10_32: seq<nat> := [
    0, 10, 100, 1000, 10000, 100000, 1000000, 10000000, 100000000, 1000000000
  ]

  const POWERS_OF_10_64: seq<nat> := [
    0, 10, 100, 1000, 10000,
    100000, 1000000, 10000000, 100000000, 1000000000,
    10000000000, 100000000000, 1000000000000, 10000000000000, 100000000000000,
    1000000000000000, 10000000000000000, 100000000000000000, 1000000000000000000, 10000000000000000000
  ]

  /** For each t the longest bit length l, up to 64, with l * 1233 >> 12 == t. */
  const LONGEST: seq<nat> := [
    3, 6, 9, 13, 16, 19, 23, 26, 29, 33, 36, 39, 43, 46, 49, 53, 56, 59, 63, 64
  ]

  lemma TablesHoldPowers(t: nat)
    requires t < 20
    ensures |POWERS_OF_10_64| == 20 && POWERS_OF_10_64[t] == if t == 0 then 0 else Pow(10, t)
    ensures |POWERS_OF_10_32| == 10 && (t < 10 ==> POWERS_OF_10_32[t] == POWERS_OF_10_64[t])
  {
  }

  /** 2^LONGEST[t] lies in the t-th decade. */
  lemma LongestInDecade(t: nat)
    requires t < 20
    ensures Pow(10, t) <= Pow(2, LONGEST[t]) <= Pow(10, t + 1)
  {
    assert Pow(10, 1) == 10;
    assert Pow(10, 2) == 100;
    assert Pow(10, 3) == 1000;
    assert Pow(10, 4) == 10000;
    assert Pow(10, 5) == 100000;
    assert Pow(10, 6) == 1000000;
    assert Pow(10, 7) == 10000000;
    assert Pow(10, 8) == 100000000;
    assert Pow(10, 9) == 1000000000;
    assert Pow(10, 10) == 10000000000;
    assert Pow(10, 11) == 100000000000;
    assert Pow(10, 12) == 1000000000000;
    assert Pow(10, 13) == 10000000000000;
    assert Pow(10, 14) == 100000000000000;
    assert Pow(10, 15) == 1000000000000000;
    assert Pow(10, 16) == 10000000000000000;
    assert Pow(10, 17) == 100000000000000000;
    assert Pow(10, 18) == 1000000000000000000;
    assert Pow(10, 19) == 10000000000000000000;
    assert Pow(10, 20) == 100000000000000000000;
    assert Pow(2, 3) == 0x8;
    assert Pow(2, 6) == 0x40;
    assert Pow(2, 9) == 0x200;
    assert Pow(2, 13) == 0x2000;
    assert Pow(2, 16) == 0x10000;
    assert Pow(2, 19) == 0x80000;
    assert Pow(2, 23) == 0x800000;
    assert Pow(2, 26) == 0x4000000;
    assert Pow(2, 29) == 0x20000000;
    assert Pow(2, 33) == 0x200000000;
    assert Pow(2, 36) == 0x1000000000;
    assert Pow(2, 39) == 0x8000000000;
    assert Pow(2, 43) == 0x80000000000;
    assert Pow(2, 46) == 0x400000000000;
    assert Pow(2, 49) == 0x2000000000000;
    assert Pow(2, 53) == 0x20000000000000;
    assert Pow(2, 56) == 0x100000000000000;
    assert Pow(2, 59) == 0x800000000000000;
    assert Pow(2, 63) == 0x8000000000000000;
    assert Pow(2, 64) == 0x10000000000000000;
  }

  lemma {:induction false} PowMonotone(b: nat, m: nat, n: nat)
    requires b > 0 && m <= n
    ensures Pow(b, m) <= Pow(b, n)
  {
    if m < n {
      PowMonotone(b, m, n - 1);
      PowPositive(b, n - 1);
      MulAtLeast(Pow(b, n - 1), b);
    }
  }

  /** The number of bits of n | 1: the word size minus the leading zeros. */
  function BitLength(n: nat): (l: nat)
    ensures l >= 1 && n < Pow(2, l) && (l >= 2 ==> Pow(2, l - 1) <= n)
  {
    if n < 2 then 1 else 1 + BitLength(n / 2)
  }

  lemma {:induction false} BitLengthAtMost(n: nat, bits: nat)
    requires bits > 0 && n < Pow(2, bits)
    ensures BitLength(n) <= bits
  {
    if BitLength(n) > bits { PowMonotone(2, bits, BitLength(n) - 1); }
  }

  lemma LongestBrackets(l: nat)
    requires 1 <= l <= 64
    ensures
      var t := l * 1233 / 4096;
      |LONGEST| == 20 && t < 20 && l <= LONGEST[t] && (t > 0 ==> LONGEST[t - 1] < l)
  {
  }

  /** l * 1233 >> 12 approximates l * log10(2) well enough: a number of bit length l has
      that many decimal digits or one more. */
  lemma GuessWithinOne(n: nat)
    requires n < Pow(2, 64)
    ensures
      var t := BitLength(n) * 1233 / 4096;
      t < 20 && n < Pow(10, t + 1) && (t > 0 ==> Pow(10, t - 1) <= n)
  {
    hide Pow, LONGEST;
    var l := BitLength(n);
    var t := l * 1233 / 4096;
    BitLengthAtMost(n, 64);
    LongestBrackets(l);
    LongestInDecade(t);
    PowMonotone(2, l, LONGEST[t]);
    if t > 0 {
      LongestInDecade(t - 1);
      PowMonotone(2, LONGEST[t - 1], l - 1);
    }
  }

  /** The count by leading zeros, for either table: the power table is not left, and the
      result is the number of decimal digits. */
  lemma GuessCorrected(n: nat, powers: seq<nat>)
    requires (powers == POWERS_OF_10_64 && n < Pow(2, 64)) || (powers == POWERS_OF_10_32 && n < Pow(2, 32))
    ensures
      var t := BitLength(n) * 1233 / 4096;
      t < |powers| && |Decimal(n)| == t - (if n < powers[t] then 1 else 0) + 1
  {
    hide Pow, POWERS_OF_10_64, POWERS_OF_10_32, LONGEST, Numeral;
    PowMonotone(2, 32, 64);
    GuessWithinOne(n);
    var t := BitLength(n) * 1233 / 4096;
    if n < Pow(2, 32) { BitLengthAtMost(n, 32); }
    TablesHoldPowers(t);
    NumeralLength(n, 10, false, if t > 0 && n < Pow(10, t) then t else t + 1);
  }

  /** With a leading-zero count, 64 bits. */
  function CountDigits64(n: nat): (count: nat)
    requires n < Pow(2, 64)
    ensures count == |Decimal(n)|
  {
    GuessCorrected(n, POWERS_OF_10_64);
    var t := BitLength(n) * 1233 / 4096;
    t - (if n < POWERS_OF_10_64[t] then 1 else 0) + 1
  }

  /** With a leading-zero count, 32 bits. */
  function CountDigits32(n: nat): (count: nat)
    requires n < Pow(2, 32)
    ensures count == |Decimal(n)|
  {
    GuessCorrected(n, POWERS_OF_10_32);
    var t := BitLength(n) * 1233 / 4096;
    t - (if n < POWERS_OF_10_32[t] then 1 else 0) + 1
  }

  lemma FourDigits(n: nat)
    ensures n < 10 ==> |Decimal(n)| == 1
    ensures 10 <= n < 100 ==> |Decimal(n)| == 2
    ensures 100 <= n < 1000 ==> |Decimal(n)| == 3
    ensures 1000 <= n < 10000 ==> |Decimal(n)| == 4
    ensures n >= 10000 ==> |Decimal(n)| == |Decimal(n / 10000)| + 4
  {
    assert n / 10 / 10 / 10 / 10 == n / 10000;
    assert n >= 10 ==> |Decimal(n)| == |Decimal(n / 10)| + 1;
    assert n >= 100 ==> |Decimal(n / 10)| == |Decimal(n / 10 / 10)| + 1;
    assert n >= 1000 ==> |Decimal(n / 10 / 10)| == |Decimal(n / 10 / 10 / 10)| + 1;
    assert n >= 10000 ==> |Decimal(n / 10 / 10 / 10)| == |Decimal(n / 10 / 10 / 10 / 10)| + 1;
  }

  /** Without one: four digits per division. */
  method CountDigitsFallback(n: nat) returns (count: nat)
    ensures count == |Decimal(n)|
  {
    var rest := n;
    count := 1;
    while true
      invariant count >= 1 && |Decimal(n)| == |Decimal(rest)| + count - 1
      decreases rest
    {
      FourDigits(rest);
      if rest < 10 { return count; }
      if rest < 100 { return count + 1; }
      if rest < 1000 { return count + 2; }
      if rest < 10000 { return count + 3; }
      rest := rest / 10000;
      count := count + 4;
    }
  }
}
