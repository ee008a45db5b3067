/** Parsing a nonnegative decimal in 32-bit unsigned arithmetic. */
module DecimalParser {
  import opened Numerals
  import opened Optional

  const UINT_RANGE: nat := 0x1_0000_0000
  const UINT_MAX: nat := 0xFFFF_FFFF
  const INT_MAX: nat := 0x7FFF_FFFF

  predicate IsDigit(c: char) { '0' <= c <= '9' }

  predicate AllDigits(s: string) {
    forall i :: 0 <= i < |s| ==> IsDigit(s[i])
  }

  /** The end of the run of digits at position i. */
  function RunEnd(text: string, i: nat): (j: nat)
    requires i <= |text|
    ensures i <= j <= |text| && AllDigits(text[i..j]) && (j < |text| ==> !IsDigit(text[j]))
    decreases |text| - i
  {
    if i < |text| && IsDigit(text[i]) then
      var j := RunEnd(text, i + 1);
      assert text[i..j] == [text[i]] + text[i + 1..j];
      j
    else i
  }

  /** What the digits stand for, modulo 2^32. */
  function Wrapped(digits: string): nat { Value(digits, 10) % UINT_RANGE }

  /** The word accumulated from the first k digits. */
  function WordAt(digits: string, k: nat): nat
    requires k <= |digits|
  {
    Wrapped(digits[..k])
  }

  /** The wrap test fires at digit k: the accumulated word becomes smaller. */
  predicate WrapSeenAt(digits: string, k: nat)
    requires k < |digits|
  {
    WordAt(digits, k + 1) < WordAt(digits, k)
  }

  /** It fires at one of the first n digits. */
  predicate WrapSeenBy(digits: string, n: nat)
    requires n <= |digits|
  {
    n > 0 && (WrapSeenBy(digits, n - 1) || WrapSeenAt(digits, n - 1))
  }

  predicate WrapSeen(digits: string) { WrapSeenBy(digits, |digits|) }

  lemma {:induction false} WrapSeenLater(digits: string, m: nat, n: nat)
    requires m <= n <= |digits| && WrapSeenBy(digits, m)
    ensures WrapSeenBy(digits, n)
  {
    if m < n { WrapSeenLater(digits, m, n - 1); }
  }

  /** The parser's answer for a run of digits; None is the exception. */
  ghost function Parsed(digits: string): Option<nat> {
    if WrapSeen(digits) || Wrapped(digits) > INT_MAX then None else Some(Wrapped(digits))
  }

  /** value * 10 + digit in unsigned arithmetic. */
  function NextWord(value: nat, digit: nat): nat { (value * 10 + digit) % UINT_RANGE }

  lemma OneMoreDigit(digits: string, k: nat)
    requires k < |digits| && IsDigit(digits[k])
    ensures DigitValue(digits[k]) == (digits[k] - '0') as nat
    ensures Value(digits[..k + 1], 10) == Value(digits[..k], 10) * 10 + DigitValue(digits[k])
    ensures WordAt(digits, k + 1) == NextWord(WordAt(digits, k), DigitValue(digits[k]))
  {
    assert digits[..k + 1][..k] == digits[..k];
    hide Value;
    var v, d := Value(digits[..k], 10), DigitValue(digits[k]);
    ModStep(v, d, UINT_RANGE);
  }

  lemma ModStep(v: nat, d: nat, m: nat)
    requires m > 0
    ensures (v * 10 + d) % m == ((v % m) * 10 + d) % m
  {
    var q := v / m;
    assert v == q * m + v % m;
    assert v * 10 + d == (q * 10) * m + ((v % m) * 10 + d);
    AddMultiple((v % m) * 10 + d, q * 10, m);
  }

  lemma {:induction false} AddMultiple(x: nat, q: nat, m: nat)
    requires m > 0
    ensures (q * m + x) % m == x % m
  {
    if q > 0 {
      AddMultiple(x, q - 1, m);
      AddOnce((q - 1) * m + x, m);
      assert (q - 1) * m + x + m == q * m + x;
    }
  }

  lemma AddOnce(x: nat, m: nat)
    requires m > 0
    ensures (x + m) % m == x % m
  {
    var d := (x + m) / m;
    assert x + m == d * m + (x + m) % m;
    assert x == (x / m) * m + x % m;
    MulCancel(d - 1, x / m + 1, m);
    MulCancel(x / m, d, m);
  }

  lemma FirstAndLastWord(digits: string)
    ensures WordAt(digits, 0) == 0 && WordAt(digits, |digits|) == Wrapped(digits)
  {
    assert digits[..|digits|] == digits;
  }

  lemma RunStep(text: string, i: nat)
    requires i < |text| && IsDigit(text[i])
    ensures RunEnd(text, i + 1) == RunEnd(text, i) > i
    ensures RunEnd(text, i) == i + 1 <==> i + 1 == |text| || !IsDigit(text[i + 1])
  {
  }

  /** Advances over the digits at position start. */
  method ParseNonnegativeInt(text: string, start: nat) returns (r: Option<nat>, end: nat)
    requires start < |text| && IsDigit(text[start])
    ensures r == Parsed(text[start..RunEnd(text, start)])
    ensures r.Some? ==> end == RunEnd(text, start)
  {
    hide WordAt, AllDigits, DigitValue, RunEnd, NextWord, Wrapped;
    ghost var digits := text[start..RunEnd(text, start)];
    var value := 0;
    end := start;
    FirstAndLastWord(digits);
    RunStep(text, start);
    while true
      invariant start <= end < |text| && IsDigit(text[end]) && RunEnd(text, end) == RunEnd(text, start)
      invariant value == WordAt(digits, end - start)
      invariant !WrapSeenBy(digits, end - start)
      decreases |text| - end
    {
      RunStep(text, end);
      OneMoreDigit(digits, end - start);
      var newValue := NextWord(value, (text[end] - '0') as nat);
      end := end + 1;
      if newValue < value {
        WrapSeenLater(digits, end - start, |digits|);
        value := UINT_MAX;
        break;
      }
      value := newValue;
      if end == |text| || !IsDigit(text[end]) {
        break;
      }
    }
    if value > INT_MAX { return None, end; }
    return Some(value), end;
  }

  lemma {:induction false} ValueOfPrefix(digits: string, k: nat)
    requires k <= |digits|
    ensures Value(digits[..k], 10) <= Value(digits, 10)
    decreases |digits|
  {
    if k == |digits| {
      assert digits[..k] == digits;
    } else {
      ValueOfPrefix(digits[..|digits| - 1], k);
      assert digits[..|digits| - 1][..k] == digits[..k];
    }
  }

  /** As long as the value fits a word the accumulated word does not decrease. */
  lemma {:induction false} NoWrapBelow(digits: string, n: nat)
    requires n <= |digits| && Value(digits[..n], 10) < UINT_RANGE
    ensures !WrapSeenBy(digits, n)
  {
    if n > 0 {
      hide Value, Wrapped;
      PrefixesGrow(digits, n - 1, n);
      WrappedSmall(digits[..n]);
      WrappedSmall(digits[..n - 1]);
      NoWrapBelow(digits, n - 1);
    }
  }

  lemma PrefixesGrow(digits: string, k: nat, n: nat)
    requires k <= n <= |digits|
    ensures Value(digits[..k], 10) <= Value(digits[..n], 10)
  {
    assert digits[..n][..k] == digits[..k];
    ValueOfPrefix(digits[..n], k);
  }

  lemma WrappedSmall(digits: string)
    requires Value(digits, 10) < UINT_RANGE
    ensures Wrapped(digits) == Value(digits, 10)
  {
  }

  /** The answer the caller wants. */
  function Wanted(digits: string): Option<nat> {
    if Value(digits, 10) <= INT_MAX then Some(Value(digits, 10)) else None
  }

  /** Below 2^32 the parser is exact: it returns values up to INT_MAX and throws for the
      others. From 2^32 on it still throws, unless the wrap test never fires and the value
      modulo 2^32 is at most INT_MAX; then it returns that remainder. */
  lemma ParsedIsWanted(digits: string)
    ensures Value(digits, 10) < UINT_RANGE ==> Parsed(digits) == Wanted(digits)
    ensures Parsed(digits) == Wanted(digits) <==>
            Value(digits, 10) < UINT_RANGE || WrapSeen(digits) || Wrapped(digits) > INT_MAX
  {
    assert digits[..|digits|] == digits;
    hide Value, Wrapped, WrapSeenBy;
    if Value(digits, 10) < UINT_RANGE {
      NoWrapBelow(digits, |digits|);
      WrappedSmall(digits);
    }
  }

  /** The wrap test fires somewhere on the way to v: v modulo 2^32 is smaller than v / 10
      is, or that already holds of v / 10. */
  predicate Wraps(v: nat) {
    v > 0 && (v % UINT_RANGE < (v / 10) % UINT_RANGE || Wraps(v / 10))
  }

  lemma {:induction false} WrapsMean(digits: string, n: nat)
    requires AllDigits(digits) && n <= |digits|
    ensures WrapSeenBy(digits, n) <==> Wraps(Value(digits[..n], 10))
  {
    if n > 0 {
      OneMoreDigit(digits, n - 1);
      hide Value;
      WrapsMean(digits, n - 1);
      assert digits[..n - 1 + 1] == digits[..n];
      assert Value(digits[..n], 10) / 10 == Value(digits[..n - 1], 10);
    }
  }

  /** The answer is right or wrong by the number alone, however it is spelled. */
  lemma WrongExactly(digits: string)
    requires AllDigits(digits)
    ensures var v := Value(digits, 10);
            Parsed(digits) != Wanted(digits) <==> v >= 4294967296 && !Wraps(v) && v % 4294967296 <= 2147483647
  {
    ParsedIsWanted(digits);
    WrapsMean(digits, |digits|);
    assert digits[..|digits|] == digits;
    hide Value, Wraps, WrapSeenBy;
  }

  lemma {:induction false} NoWrapsBelow(v: nat)
    requires v < UINT_RANGE
    ensures !Wraps(v)
  {
    if v > 0 { NoWrapsBelow(v / 10); }
  }

  lemma WrapsOnce(v: nat)
    requires v / 10 < UINT_RANGE <= v
    ensures !Wraps(v) <==> v / 10 <= v % UINT_RANGE
  {
    hide Wraps;
    WrapsStep(v);
    NoWrapsBelow(v / 10);
    var word := v / 10;
    assert word % UINT_RANGE == word;
  }

  lemma WrapsStep(v: nat)
    ensures Wraps(v) <==> v > 0 && (v % UINT_RANGE < (v / 10) % UINT_RANGE || Wraps(v / 10))
  {
  }

  /** When only the last digit leads past 2^32, that is easily told. */
  lemma WrongAfterOneWrap(digits: string)
    requires AllDigits(digits)
    requires Value(digits, 10) / 10 < 4294967296 <= Value(digits, 10)
    ensures var v := Value(digits, 10);
            Parsed(digits) != Wanted(digits) <==> v / 10 <= v % 4294967296 <= 2147483647
  {
    hide Value, Wraps, Parsed, Wanted;
    WrongExactly(digits);
    WrapsOnce(Value(digits, 10));
  }

  lemma {:induction false} DecimalIsDigits(v: nat)
    ensures AllDigits(Decimal(v))
  {
    if v >= 10 { DecimalIsDigits(v / 10); }
  }

  lemma {:induction false} RunEndAt(text: string, i: nat, j: nat)
    requires i <= j <= |text| && AllDigits(text[i..j]) && (j < |text| ==> !IsDigit(text[j]))
    ensures RunEnd(text, i) == j
    decreases j - i
  {
    if i < j {
      assert IsDigit(text[i..j][0]);
      assert text[i + 1..j] == text[i..j][1..];
      RunEndAt(text, i + 1, j);
    }
  }

  lemma DigitsListed()
    ensures forall c: char :: IsDigit(c) <==> c in "0123456789"
  {
    forall c: char | IsDigit(c) ensures c in "0123456789" {
      assert c == "0123456789"[c as int - 48];
    }
  }

  /** Printing, then parsing what was printed inside any text: the digits end where they
      were meant to, a value up to INT_MAX comes back, and every other 32-bit value is
      rejected. */
  lemma PrintThenParse(v: nat, before: string, after: string)
    requires v < 4294967296 && (after != "" ==> after[0] !in "0123456789")
    ensures
      var text, start := before + Decimal(v) + after, |before|;
      IsDigit(text[start]) && RunEnd(text, start) == start + |Decimal(v)| &&
      Parsed(text[start..RunEnd(text, start)]) == if v <= 2147483647 then Some(v) else None
  {
    DigitsListed();
    var text, start := before + Decimal(v) + after, |before|;
    hide Numeral;
    DecimalIsDigits(v);
    assert text[start..start + |Decimal(v)|] == Decimal(v);
    assert text[start] == Decimal(v)[0];
    RunEndAt(text, start, start + |Decimal(v)|);
    ValueNumeral(v, 10, false);
    ParsedIsWanted(Decimal(v));
  }

  const TEN_BILLION: string := "10000000000"

  /** A number far too big that is accepted: the step from 10^9 to 10^10 wraps to the
      greater word 1410065408. */
  lemma TooBigAccepted()
    ensures Parsed(TEN_BILLION) == Some(1410065408) && Wanted(TEN_BILLION) == None
  {
    var s := TEN_BILLION;
    PowerPrefix(9);
    PowerPrefix(10);
    assert Pow(10, 9) == 1000000000;
    assert Pow(10, 10) == 10000000000;
    assert s[..11] == s;
    hide Value, Pow;
    NoWrapBelow(s, 10);
  }

  lemma {:induction false} PowerPrefix(k: nat)
    requires k <= 10
    ensures |TEN_BILLION| == 11 && AllDigits(TEN_BILLION)
    ensures Value(TEN_BILLION[..k + 1], 10) == Pow(10, k)
  {
    OneMoreDigit(TEN_BILLION, k);
    if k > 0 {
      PowerPrefix(k - 1);
      assert TEN_BILLION[k] == '0';
    } else {
      assert TEN_BILLION[..0] == "";
    }
  }
}
