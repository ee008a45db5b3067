/** Numerals in a base up to sixteen, and how many digits a number has. */
module Numerals {

  type Base = b: nat | 2 <= b <= 16 witness 10

  function DigitChar(d: nat, upper: bool): (c: char)
    requires d < 16
    ensures DigitValue(c) == d
    ensures c == '0' <==> d == 0
  {
    if d < 10 then '0' + d as char
    else if upper then 'A' + (d - 10) as char
    else 'a' + (d - 10) as char
  }

  function DigitValue(c: char): nat {
    if '0' <= c <= '9' then (c - '0') as nat
    else if 'A' <= c <= 'F' then (c - 'A') as nat + 10
    else if 'a' <= c <= 'f' then (c - 'a') as nat + 10
    else 0
  }

  /** The numeral of n, most significant digit first. */
  function Numeral(n: nat, base: Base, upper: bool): (s: string)
    ensures |s| >= 1
  {
    if n < base then [DigitChar(n, upper)]
    else DivideLess(n, base); Numeral(n / base, base, upper) + [DigitChar(n % base, upper)]
  }

  lemma DivideLess(n: nat, base: Base)
    requires n > 0
    ensures 0 <= n / base < n
  {
  }

  /** What a string of digits stands for. */
  function Value(s: string, base: Base): nat {
    if s == "" then 0 else Value(s[..|s| - 1], base) * base + DigitValue(s[|s| - 1])
  }

  /** Reading a numeral gives back the number. */
  lemma {:induction false} ValueNumeral(n: nat, base: Base, upper: bool)
    ensures Value(Numeral(n, base, upper), base) == n
  {
    if n < base {
      assert Value([], base) == 0;
    } else {
      DivideLess(n, base);
      ValueNumeral(n / base, base, upper);
      var init := Numeral(n / base, base, upper);
      assert (init + [DigitChar(n % base, upper)])[..|init|] == init;
      hide Numeral, DigitValue;
      DivMod(n, base);
    }
  }

  /** Only zero has a numeral that starts with 0, and that is the single digit 0. */
  lemma {:induction false} NoLeadingZero(n: nat, base: Base, upper: bool)
    ensures Numeral(n, base, upper)[0] == '0' <==> n == 0
  {
    if n >= base {
      DivideLess(n, base);
      NoLeadingZero(n / base, base, upper);
      PositiveQuotient(n, base);
    }
  }

  lemma PositiveQuotient(n: nat, base: Base)
    requires n >= base
    ensures n / base > 0
  {
  }

  function Pow(b: nat, e: nat): nat {
    if e == 0 then 1 else b * Pow(b, e - 1)
  }

  /** A numeral has k digits exactly if its value lies in the k-th power interval. */
  lemma {:induction false} NumeralLength(n: nat, base: Base, upper: bool, k: nat)
    requires k > 0
    requires n < Pow(base, k) && (k > 1 ==> Pow(base, k - 1) <= n)
    ensures |Numeral(n, base, upper)| == k
  {
    if k == 1 {
      assert Pow(base, 0) == 1;
    } else {
      DivideBounds(n, base, Pow(base, k - 1), if k == 2 then 0 else Pow(base, k - 2));
      assert k == 2 ==> Pow(base, 1) == base * Pow(base, 0) == base;
      PowPositive(base, k - 2);
      assert base <= Pow(base, k - 1) by {
        assert Pow(base, k - 1) == base * Pow(base, k - 2);
        MulAtLeast(base, Pow(base, k - 2));
      }
      NumeralLength(n / base, base, upper, k - 1);
    }
  }

  lemma MulAtLeast(a: nat, b: nat)
    requires b >= 1
    ensures a * b >= a
  {
  }

  lemma {:induction false} PowPositive(b: nat, e: nat)
    requires b > 0
    ensures Pow(b, e) > 0
  {
    if e > 0 { PowPositive(b, e - 1); }
  }

  lemma DivMod(n: nat, base: Base)
    ensures (n / base) * base + n % base == n
  {
  }

  lemma DivideBounds(n: nat, base: Base, hi: nat, lo: nat)
    requires n < base * hi && base * lo <= n
    ensures lo <= n / base < hi
  {
    var q := n / base;
    DivMod(n, base);
    MulCancel(lo, q + 1, base);
    MulCancel(q, hi, base);
  }

  lemma MulCancel(a: int, b: int, c: int)
    requires c > 0 && a * c < b * c
    ensures a < b
  {
  }

  /** n divided by the base j times. */
  function Divided(n: nat, base: Base, j: nat): nat
    decreases j
  {
    if j == 0 then n else Divided(n / base, base, j - 1)
  }

  lemma DigitByTable(d: nat)
    requires d < 16
    ensures DigitChar(d, false) == "0123456789abcdef"[d] && DigitChar(d, true) == "0123456789ABCDEF"[d]
  {
  }

  /** Every digit by itself: from the right, the remainders of dividing on, spelled by the
      table of its case. */
  lemma {:induction false} NumeralByTable(n: nat, base: Base, upper: bool, j: nat)
    requires j < |Numeral(n, base, upper)|
    ensures var digits := Numeral(n, base, upper);
            digits[|digits| - 1 - j] ==
            (if upper then "0123456789ABCDEF" else "0123456789abcdef")[Divided(n, base, j) % base]
    decreases j
  {
    DigitByTable(Divided(n, base, j) % base);
    if n < base {
      RemainderOfSmall(n, base);
    } else if j > 0 {
      NumeralByTable(n / base, base, upper, j - 1);
    }
  }

  lemma RemainderOfSmall(n: nat, base: Base)
    requires n < base
    ensures n % base == n
  {
  }

  /** The decimal digits of n. */
  function Decimal(n: nat): string { Numeral(n, 10, false) }
}
