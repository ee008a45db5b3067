/** Writing decimals two digits at a time. */
module DecimalText {
  import opened DigitCount
  import opened Numerals

  const UNITS: string := "0123456789"

  /** The table of digit pairs, ten pairs a row. */
  const ROW_0: string := "00010203040506070809"
  const ROW_1: string := "10111213141516171819"
  const ROW_2: string := "20212223242526272829"
  const ROW_3: string := "30313233343536373839"
  const ROW_4: string := "40414243444546474849"
  const ROW_5: string := "50515253545556575859"
  const ROW_6: string := "60616263646566676869"
  const ROW_7: string := "70717273747576777879"
  const ROW_8: string := "80818283848586878889"
  const ROW_9: string := "90919293949596979899"

  const ROWS: seq<string> := [ROW_0, ROW_1, ROW_2, ROW_3, ROW_4, ROW_5, ROW_6, ROW_7, ROW_8, ROW_9]

  function Glue(rows: seq<string>): string {
    if rows == [] then "" else rows[0] + Glue(rows[1..])
  }

  const DIGITS: string := Glue(ROWS)

  lemma {:induction false} GlueAt(rows: seq<string>, t: nat, k: nat)
    requires forall i :: 0 <= i < |rows| ==> |rows[i]| == 20
    requires t < |rows| && k < 20
    ensures |Glue(rows)| == 20 * |rows| && Glue(rows)[20 * t + k] == rows[t][k]
  {
    if t > 0 {
      GlueAt(rows[1..], t - 1, k);
    } else if |rows| > 1 {
      GlueAt(rows[1..], 0, k);
    } else {
      assert Glue(rows[1..]) == "";
    }
  }

  /** A row of the table: ten pairs with the same first digit. */
  ghost predicate IsRow(row: string, first: char) {
    |row| == 20 && forall u :: 0 <= u < 10 ==> row[2 * u] == first && row[2 * u + 1] == UNITS[u]
  }

  lemma Row0() ensures IsRow(ROW_0, '0') { }
  lemma Row1() ensures IsRow(ROW_1, '1') { }
  lemma Row2() ensures IsRow(ROW_2, '2') { }
  lemma Row3() ensures IsRow(ROW_3, '3') { }
  lemma Row4() ensures IsRow(ROW_4, '4') { }
  lemma Row5() ensures IsRow(ROW_5, '5') { }
  lemma Row6() ensures IsRow(ROW_6, '6') { }
  lemma Row7() ensures IsRow(ROW_7, '7') { }
  lemma Row8() ensures IsRow(ROW_8, '8') { }
  lemma Row9() ensures IsRow(ROW_9, '9') { }

  lemma UnitIsDigitChar(d: nat)
    requires d < 10
    ensures UNITS[d] == DigitChar(d, false)
  {
  }

  lemma RowIs(t: nat)
    requires t < 10
    ensures |ROWS| == 10 && IsRow(ROWS[t], UNITS[t])
  {
    hide IsRow, ROW_0, ROW_1, ROW_2, ROW_3, ROW_4, ROW_5, ROW_6, ROW_7, ROW_8, ROW_9;
    Row0(); Row1(); Row2(); Row3(); Row4(); Row5(); Row6(); Row7(); Row8(); Row9();
  }

  /** Each pair of the table spells its own index. */
  lemma DigitPair(i: nat)
    requires i < 100
    ensures |DIGITS| == 200
    ensures DIGITS[2 * i] == DigitChar(i / 10, false) && DIGITS[2 * i + 1] == DigitChar(i % 10, false)
  {
    hide DigitChar, Glue, ROWS, UNITS;
    var t, u := i / 10, i % 10;
    forall r | 0 <= r < 10
      ensures |ROWS| == 10 && |ROWS[r]| == 20
    {
      RowIs(r);
    }
    RowIs(t);
    GlueAt(ROWS, t, 2 * u);
    GlueAt(ROWS, t, 2 * u + 1);
    UnitIsDigitChar(t);
    UnitIsDigitChar(u);
  }

  lemma LastTwoDigits(v: nat)
    ensures v >= 100 ==>
              Decimal(v) == Decimal(v / 100) + [DigitChar(v % 100 / 10, false), DigitChar(v % 100 % 10, false)]
    ensures 10 <= v < 100 ==> Decimal(v) == [DigitChar(v / 10, false), DigitChar(v % 10, false)]
    ensures v < 10 ==> Decimal(v) == ['0' + v as char]
  {
    if v >= 100 {
      assert v / 10 / 10 == v / 100 && v / 10 % 10 == v % 100 / 10 && v % 10 == v % 100 % 10;
      assert Decimal(v) == Decimal(v / 10) + [DigitChar(v % 10, false)];
      assert Decimal(v / 10) == Decimal(v / 10 / 10) + [DigitChar(v / 10 % 10, false)];
    } else if v >= 10 {
      assert Decimal(v) == Decimal(v / 10) + [DigitChar(v % 10, false)];
      assert Decimal(v / 10) == [DigitChar(v / 10, false)];
    }
  }

  /** Puts the two digits of i in front of what has been written. */
  method PutPair(buffer: array<char>, p: nat, i: nat, ghost end: nat) returns (q: nat)
    requires 2 <= p <= end <= buffer.Length && i < 100
    modifies buffer
    ensures q == p - 2
    ensures buffer[q..end] == [DigitChar(i / 10, false), DigitChar(i % 10, false)] + old(buffer[p..end])
    ensures buffer[..q] == old(buffer[..q]) && buffer[end..] == old(buffer[end..])
  {
    hide DIGITS, DigitChar;
    DigitPair(i);
    var index := i * 2;
    q := p - 1;
    buffer[q] := DIGITS[index + 1];
    q := q - 1;
    buffer[q] := DIGITS[index];
  }

  /** Writes the decimal digits of value so that they end before end. */
  method FormatDecimal(buffer: array<char>, end: nat, value: nat) returns (p: nat)
    requires |Decimal(value)| <= end <= buffer.Length
    modifies buffer
    ensures p == end - |Decimal(value)|
    ensures buffer[p..end] == Decimal(value)
    ensures buffer[..p] == old(buffer[..p]) && buffer[end..] == old(buffer[end..])
  {
    hide Numeral, DigitChar;
    p := end;
    var rest := value;
    while rest >= 100
      invariant |Decimal(rest)| <= p <= end && p - |Decimal(rest)| == end - |Decimal(value)|
      invariant Decimal(value) == Decimal(rest) + buffer[p..end]
      invariant buffer[..p] == old(buffer[..p]) && buffer[end..] == old(buffer[end..])
    {
      LastTwoDigits(rest);
      p := PutPair(buffer, p, rest % 100, end);
      rest := rest / 100;
    }
    LastTwoDigits(rest);
    if rest < 10 {
      ghost var done := buffer[p..end];
      p := p - 1;
      buffer[p] := '0' + rest as char;
      assert buffer[p..end] == ['0' + rest as char] + done;
    } else {
      p := PutPair(buffer, p, rest, end);
    }
  }

  function Abs(value: int): nat { if value < 0 then -value else value }

  /** Conversion of a signed value to an unsigned word. */
  function ToUnsigned(value: int, bits: nat): (w: nat)
    ensures w < Pow(2, bits)
  {
    PowPositive(2, bits);
    value % Pow(2, bits)
  }

  /** 0 - w in unsigned arithmetic. */
  function NegateUnsigned(w: nat, bits: nat): nat
    requires w < Pow(2, bits)
  {
    if w == 0 then 0 else Pow(2, bits) - w
  }

  /** The unsigned magnitude as the writers compute it. */
  function Magnitude(value: int, bits: nat): nat {
    var w := ToUnsigned(value, bits);
    if value < 0 then NegateUnsigned(w, bits) else w
  }

  /** It is the true one, also for the most negative number. */
  lemma MagnitudeIsAbs(value: int, bits: nat)
    requires bits > 0 && 0 <= value + Pow(2, bits - 1) && value < Pow(2, bits)
    ensures Magnitude(value, bits) == Abs(value)
  {
    assert Pow(2, bits) == 2 * Pow(2, bits - 1);
    PowPositive(2, bits - 1);
    if value < 0 {
      ModUnique(value, Pow(2, bits), -1);
    } else {
      ModUnique(value, Pow(2, bits), 0);
    }
  }

  lemma ModUnique(x: int, m: nat, q: int)
    requires m > 0 && q * m <= x < (q + 1) * m
    ensures x % m == x - q * m
  {
    var d := x / m;
    assert d * m + x % m == x;
    MulCancel(d, q + 1, m);
    MulCancel(q, d + 1, m);
  }

  /** digits10 of a 64-bit word, plus a digit, a sign and a null character. */
  const BUFFER_SIZE: nat := 22

  lemma AtMostTwentyDigits(n: nat)
    requires n < Pow(2, 64)
    ensures |Decimal(n)| <= 20
  {
    GuessCorrected(n, POWERS_OF_10_64);
    TablesHoldPowers(0);
  }

  /** The fast formatter: digits are written from the end of a fixed buffer. */
  class FormatInt {
    const buffer: array<char>
    var str: nat

    ghost predicate Valid()
      reads this
    {
      buffer.Length == BUFFER_SIZE && str < BUFFER_SIZE
    }

    /** data() and size(). */
    function Text(): string
      reads this, buffer
      requires Valid()
    {
      buffer[str..BUFFER_SIZE - 1]
    }

    constructor Unsigned(value: nat)
      requires value < Pow(2, 64)
      ensures Valid() && Text() == Decimal(value)
    {
      buffer := new char[BUFFER_SIZE];
      new;
      AtMostTwentyDigits(value);
      str := FormatDecimal(buffer, BUFFER_SIZE - 1, value);
    }

    constructor Signed(value: int)
      requires 0 <= value + Pow(2, 63) && value < Pow(2, 63)
      ensures Valid() && Text() == (if value < 0 then "-" else "") + Decimal(Abs(value))
    {
      buffer := new char[BUFFER_SIZE];
      new;
      hide Pow;
      MagnitudeIsAbs(value, 64);
      var absValue := ToUnsigned(value, 64);
      if value < 0 { absValue := NegateUnsigned(absValue, 64); }
      AtMostTwentyDigits(absValue);
      str := FormatDecimal(buffer, BUFFER_SIZE - 1, absValue);
      if value < 0 {
        ghost var digits := buffer[str..BUFFER_SIZE - 1];
        str := str - 1;
        buffer[str] := '-';
        assert buffer[str..BUFFER_SIZE - 1] == "-" + digits;
      }
    }
  }
}
