/** Writing integers into a buffer. */
module IntWriter {
  import opened DecimalText
  import opened DigitCount
  import opened IntLayout
  import opened MemoryBuffers
  import opened Numerals

  /** A format specification; the type is a conversion letter or 0. */
  datatype FormatSpec = FormatSpec(layout: IntSpec, sign: bool, plus: bool, hash: bool, typ: char)

  const NO_TYPE: char := '\0'

  predicate KnownType(typ: char) {
    typ == NO_TYPE || typ == 'd' || typ == 'x' || typ == 'X' || typ == 'b' || typ == 'B' || typ == 'o'
  }

  function BaseOf(typ: char): Base
    requires KnownType(typ)
  {
    if typ == 'x' || typ == 'X' then 16 else if typ == 'b' || typ == 'B' then 2 else if typ == 'o' then 8 else 10
  }

  /** Sign, then base prefix. */
  function PrefixOf(value: int, spec: FormatSpec): string
    requires KnownType(spec.typ)
  {
    (if value < 0 then "-" else if spec.sign then (if spec.plus then "+" else " ") else "") +
    (if !spec.hash || BaseOf(spec.typ) == 10 then "" else if spec.typ == 'o' then "0" else ['0', spec.typ])
  }

  function DigitsOf(value: int, spec: FormatSpec): string
    requires KnownType(spec.typ)
  {
    Numeral(Abs(value), BaseOf(spec.typ), spec.typ == 'X')
  }

  /** The field of an integer. */
  function Formatted(value: int, spec: FormatSpec): string
    requires KnownType(spec.typ)
  {
    var digits := DigitsOf(value, spec);
    Field(Plan(|digits|, spec.layout, PrefixOf(value, spec)), spec.layout.fill, digits)
  }

  /** What the digits say: they stand for the magnitude in the chosen base, without
      leading zeros. */
  lemma DigitsDecode(value: int, spec: FormatSpec)
    requires KnownType(spec.typ)
    ensures Value(DigitsOf(value, spec), BaseOf(spec.typ)) == Abs(value)
    ensures DigitsOf(value, spec)[0] == '0' <==> value == 0
  {
    ValueNumeral(Abs(value), BaseOf(spec.typ), spec.typ == 'X');
    NoLeadingZero(Abs(value), BaseOf(spec.typ), spec.typ == 'X');
  }

  /** The letters that are known, and the digits each of them writes: in base 16 with small
      or capital letters, in base 2, 8 or 10. */
  lemma DigitsByTable(value: int, spec: FormatSpec, j: nat)
    ensures KnownType(spec.typ) <==> spec.typ as int == 0 || spec.typ in "dxXbBo"
    ensures KnownType(spec.typ) && j < |DigitsOf(value, spec)| ==>
              var magnitude := if value < 0 then -value else value;
              var digits := DigitsOf(value, spec);
              var digit := digits[|digits| - 1 - j];
              match spec.typ
              case 'x' => digit == "0123456789abcdef"[Divided(magnitude, 16, j) % 16]
              case 'X' => digit == "0123456789ABCDEF"[Divided(magnitude, 16, j) % 16]
              case 'b' => digit == "01"[Divided(magnitude, 2, j) % 2]
              case 'B' => digit == "01"[Divided(magnitude, 2, j) % 2]
              case 'o' => digit == "01234567"[Divided(magnitude, 8, j) % 8]
              case _ => digit == "0123456789"[Divided(magnitude, 10, j) % 10]
  {
    hide Numeral, Divided;
    if KnownType(spec.typ) && j < |DigitsOf(value, spec)| {
      NumeralByTable(Abs(value), BaseOf(spec.typ), spec.typ == 'X', j);
    }
  }

  /** What stands before the digits: a minus, or what the flags ask for; then with '#' the
      letter after a 0, which for octal stands alone. */
  lemma PrefixByCase(value: int, spec: FormatSpec)
    requires KnownType(spec.typ)
    ensures
      var sign := if value < 0 then "-" else if !spec.sign then "" else if spec.plus then "+" else " ";
      PrefixOf(value, spec) ==
      if !spec.hash then sign
      else match spec.typ
        case 'x' => sign + "0x"
        case 'X' => sign + "0X"
        case 'b' => sign + "0b"
        case 'B' => sign + "0B"
        case 'o' => sign + "0"
        case _ => sign
  {
  }

  const PLAIN: IntSpec := IntSpec(0, ' ', Default, -1)

  /** Without width or precision there is no padding. */
  lemma PlainField(value: int, spec: FormatSpec)
    requires KnownType(spec.typ) && spec.layout == PLAIN
    ensures Formatted(value, spec) == PrefixOf(value, spec) + DigitsOf(value, spec)
  {
    hide Plan, Field, DigitsOf, PrefixOf;
    FieldByCase(PLAIN, PrefixOf(value, spec), DigitsOf(value, spec));
  }

  lemma SomeNumerals()
    ensures Numeral(255, 16, false) == "ff" && Numeral(255, 16, true) == "FF"
    ensures Numeral(8, 8, false) == "10" && Numeral(5, 2, false) == "101" && Numeral(7, 10, false) == "7"
  {
    assert Numeral(255, 16, false) == Numeral(15, 16, false) + "f" && Numeral(255, 16, true) == Numeral(15, 16, true) + "F";
    assert Numeral(8, 8, false) == Numeral(1, 8, false) + "0";
    assert Numeral(5, 2, false) == Numeral(2, 2, false) + "1" && Numeral(2, 2, false) == Numeral(1, 2, false) + "0";
  }

  /** Some fields: 255 in both cases of hexadecimal, 8 in octal, 5 in binary, and signs. */
  lemma SomeFields()
    ensures Formatted(255, FormatSpec(PLAIN, false, false, false, 'x')) == "ff"
    ensures Formatted(255, FormatSpec(PLAIN, false, false, true, 'X')) == "0XFF"
    ensures Formatted(8, FormatSpec(PLAIN, false, false, true, 'o')) == "010"
    ensures Formatted(5, FormatSpec(PLAIN, false, false, true, 'b')) == "0b101"
    ensures Formatted(-7, FormatSpec(PLAIN, true, true, false, 'd')) == "-7"
    ensures Formatted(7, FormatSpec(PLAIN, true, true, false, 'd')) == "+7"
    ensures Formatted(7, FormatSpec(PLAIN, true, false, false, 'd')) == " 7"
  {
    hide Numeral, Formatted;
    SomeNumerals();
    PlainField(255, FormatSpec(PLAIN, false, false, false, 'x'));
    PlainField(255, FormatSpec(PLAIN, false, false, true, 'X'));
    PlainField(8, FormatSpec(PLAIN, false, false, true, 'o'));
    PlainField(5, FormatSpec(PLAIN, false, false, true, 'b'));
    PlainField(-7, FormatSpec(PLAIN, true, true, false, 'd'));
    PlainField(7, FormatSpec(PLAIN, true, true, false, 'd'));
    PlainField(7, FormatSpec(PLAIN, true, false, false, 'd'));
  }

  /** The values of the integer types with words of the given size. */
  predicate InRange(value: int, bits: nat) {
    (bits == 32 || bits == 64) && 0 <= value + Pow(2, bits - 1) && value < Pow(2, bits)
  }

  /** The number of digits in base 2, 8 or 16, by shifting them out. */
  method CountInBase(value: nat, base: Base, ghost upper: bool) returns (count: nat)
    ensures count == |Numeral(value, base, upper)|
  {
    var n: nat := value;
    count := 0;
    while true
      invariant count + |Numeral(n, base, upper)| == |Numeral(value, base, upper)|
      decreases n
    {
      count := count + 1;
      QuotientIsZero(n, base);
      if n / base == 0 { return; }
      n := n / base;
    }
  }

  lemma QuotientIsZero(n: nat, base: Base)
    ensures n / base == 0 <==> n < base
    ensures n >= base ==> n / base < n
  {
  }

  /** Writes those digits so that they end before end. */
  method WriteInBase(a: array<char>, end: nat, value: nat, base: Base, upper: bool) returns (p: nat)
    requires |Numeral(value, base, upper)| <= end <= a.Length
    modifies a
    ensures p == end - |Numeral(value, base, upper)|
    ensures a[p..end] == Numeral(value, base, upper)
    ensures a[..p] == old(a[..p]) && a[end..] == old(a[end..])
  {
    hide DigitChar, Numeral;
    var n: nat := value;
    p := end;
    while true
      invariant |Numeral(n, base, upper)| <= p <= end
      invariant p - |Numeral(n, base, upper)| == end - |Numeral(value, base, upper)|
      invariant Numeral(value, base, upper) == Numeral(n, base, upper) + a[p..end]
      invariant a[..p] == old(a[..p]) && a[end..] == old(a[end..])
      decreases n
    {
      QuotientIsZero(n, base);
      LastDigit(n, base, upper);
      ghost var done := a[p..end];
      p := p - 1;
      a[p] := DigitChar(n % base, upper);
      assert a[p..end] == [DigitChar(n % base, upper)] + done;
      if n / base == 0 { return; }
      n := n / base;
    }
  }

  lemma LastDigit(n: nat, base: Base, upper: bool)
    ensures Numeral(n, base, upper) ==
            (if n < base then "" else Numeral(n / base, base, upper)) + [DigitChar(n % base, upper)]
  {
    if n < base { SmallRemainder(n, base); }
  }

  lemma SmallRemainder(n: nat, base: Base)
    requires n < base
    ensures n % base == n
  {
  }

  class BasicWriter {
    const buffer: MemoryBuffer

    constructor ()
      ensures fresh(buffer) && fresh(buffer.store) && buffer.Valid() && buffer.Contents() == ""
    {
      buffer := new MemoryBuffer();
    }

    /** Appends n characters and returns where they start. */
    method GrowBuffer(n: nat) returns (start: nat)
      requires buffer.Valid()
      modifies buffer
      ensures buffer.Valid() && (buffer.store == old(buffer.store) || fresh(buffer.store))
      ensures start == |old(buffer.Contents())| && Grown(old(buffer.Contents()), n, buffer.Contents())
    {
      start := buffer.size;
      buffer.Resize(start + n);
    }

    /** Appends n equal characters. */
    method AppendFill(n: nat, c: char)
      requires buffer.Valid()
      modifies buffer, buffer.store
      ensures buffer.Valid() && (buffer.store == old(buffer.store) || fresh(buffer.store))
      ensures buffer.Contents() == old(buffer.Contents()) + Repeat(c, n)
    {
      var p := GrowBuffer(n);
      buffer.Fill(p, p + n, c);
    }

    /** Centers the content in the field at start. */
    method FillPadding(start: nat, totalSize: nat, contentSize: nat, fill: char) returns (content: nat)
      requires buffer.Valid() && contentSize <= totalSize && start + totalSize <= |buffer.Contents()|
      modifies buffer.store
      ensures content == start + (totalSize - contentSize) / 2
      ensures
        var padding := totalSize - contentSize;
        buffer.Contents() ==
        Splice(Splice(old(buffer.Contents()), start, Repeat(fill, padding / 2)),
               content + contentSize, Repeat(fill, padding - padding / 2))
    {
      hide Splice;
      var padding := totalSize - contentSize;
      var leftPadding := padding / 2;
      buffer.Fill(start, start + leftPadding, fill);
      content := start + leftPadding;
      buffer.Fill(content + contentSize, start + totalSize, fill);
    }

    /** Lays out a number narrower than its field. */
    method AlignNumber(numDigits: nat, spec: IntSpec, prefix: string) returns (last: int)
      requires buffer.Valid() && spec.precision <= numDigits && spec.width > |prefix| + numDigits
      modifies buffer, buffer.store
      ensures buffer.Valid() && (buffer.store == old(buffer.store) || fresh(buffer.store))
      ensures Framed(old(buffer.Contents()), Plan(numDigits, spec, prefix), spec.fill, numDigits, buffer.Contents())
      ensures last + 1 == DigitsEnd(|old(buffer.Contents())|, Plan(numDigits, spec, prefix), numDigits)
    {
      hide Splice, Framed, Repeat, Plan, DigitsEnd, MemoryBuffer.Contents;
      ghost var before := buffer.Contents();
      var size := |prefix| + numDigits;
      var p := GrowBuffer(spec.width);
      ghost var grown := buffer.Contents();
      var end := p + spec.width;
      if spec.align == Left {
        LeftField(before, numDigits, spec, prefix, grown);
        buffer.Copy(p, prefix);
        p := p + size;
        buffer.Fill(p, end, spec.fill);
      } else if spec.align == Center {
        CenterField(before, numDigits, spec, prefix, grown);
        p := FillPadding(p, spec.width, size, spec.fill);
        buffer.Copy(p, prefix);
        p := p + size;
      } else {
        if spec.align == Numeric {
          NumericField(before, numDigits, spec, prefix, grown);
          if |prefix| != 0 {
            buffer.Copy(p, prefix);
            p := p + |prefix|;
            size := size - |prefix|;
          }
        } else {
          RightField(before, numDigits, spec, prefix, grown);
          buffer.Copy(end - size, prefix);
        }
        buffer.Fill(p, end - size, spec.fill);
        p := end;
      }
      return p - 1;
    }

    /** Lays out a field and returns the position of its last digit. */
    method PrepareIntBuffer(numDigits: nat, spec: IntSpec, prefix: string) returns (last: int)
      requires buffer.Valid()
      modifies buffer, buffer.store
      ensures buffer.Valid() && (buffer.store == old(buffer.store) || fresh(buffer.store))
      ensures Framed(old(buffer.Contents()), Plan(numDigits, spec, prefix), spec.fill, numDigits, buffer.Contents())
      ensures last + 1 == DigitsEnd(|old(buffer.Contents())|, Plan(numDigits, spec, prefix), numDigits)
      decreases if spec.precision > numDigits then 1 else 0
    {
      hide Splice, Framed, Repeat, MemoryBuffer.Contents;
      ghost var before := buffer.Contents();
      if spec.precision > numDigits {
        var used := UsedPrefix(numDigits, spec, prefix);
        var numberSize := |used| + spec.precision;
        var subspec := IntSpec(numberSize, '0', Numeric, -1);
        if numberSize >= spec.width {
          last := PrepareIntBuffer(numDigits, subspec, used);
          NoFill(before, numDigits, spec, prefix, buffer.Contents());
          return;
        }
        buffer.Reserve(spec.width);
        var fillSize := spec.width - numberSize;
        if spec.align != Left { AppendFill(fillSize, spec.fill); }
        last := PrepareIntBuffer(numDigits, subspec, used);
        ghost var contents := buffer.Contents();
        if spec.align == Left {
          AppendFill(fillSize, spec.fill);
          PreciseLeft(before, numDigits, spec, prefix, contents);
        } else {
          PreciseRight(before, numDigits, spec, prefix, contents);
        }
        return;
      }
      var size := |prefix| + numDigits;
      if spec.width <= size {
        var p := GrowBuffer(size);
        NarrowField(before, numDigits, spec, prefix, buffer.Contents());
        buffer.Copy(p, prefix);
        return p + size - 1;
      }
      last := AlignNumber(numDigits, spec, prefix);
    }

    /** Writes decimal digits whose last is at the given position. */
    method PutDecimal(last: int, value: nat)
      requires buffer.Valid() && |Decimal(value)| <= last + 1 <= |buffer.Contents()|
      modifies buffer.store
      ensures buffer.Contents() == Splice(old(buffer.Contents()), last + 1 - |Decimal(value)|, Decimal(value))
    {
      hide Numeral, Splice;
      ghost var before := buffer.store[..];
      var p := FormatDecimal(buffer.store, last + 1, value);
      SpliceOfPrefix(before, buffer.store[..], buffer.size, p, Decimal(value));
    }

    /** Writes digits in base 2, 8 or 16 whose last is at the given position. */
    method PutInBase(last: int, value: nat, base: Base, upper: bool)
      requires buffer.Valid() && |Numeral(value, base, upper)| <= last + 1 <= |buffer.Contents()|
      modifies buffer.store
      ensures buffer.Contents() ==
              Splice(old(buffer.Contents()), last + 1 - |Numeral(value, base, upper)|, Numeral(value, base, upper))
    {
      hide Numeral, Splice;
      ghost var before := buffer.store[..];
      var p := WriteInBase(buffer.store, last + 1, value, base, upper);
      SpliceOfPrefix(before, buffer.store[..], buffer.size, p, Numeral(value, base, upper));
    }

    /** Appends the field of a number in decimal. */
    method AppendDecimal(value: nat, bits: nat, spec: IntSpec, prefix: string)
      requires buffer.Valid() && value < Pow(2, bits) && (bits == 32 || bits == 64)
      modifies buffer, buffer.store
      ensures buffer.Valid() && (buffer.store == old(buffer.store) || fresh(buffer.store))
      ensures buffer.Contents() ==
              old(buffer.Contents()) + Field(Plan(|Decimal(value)|, spec, prefix), spec.fill, Decimal(value))
    {
      hide Numeral, Pow, Framed, DigitsEnd, Plan, Field, Splice, MemoryBuffer.Contents;
      ghost var before := buffer.Contents();
      var numDigits := if bits == 32 then CountDigits32(value) else CountDigits64(value);
      var last := PrepareIntBuffer(numDigits, spec, prefix);
      ghost var framed := buffer.Contents();
      DigitsInside(before, Plan(numDigits, spec, prefix), spec.fill, numDigits, framed);
      DigitsComplete(before, spec, prefix, Decimal(value), framed);
      PutDecimal(last, value);
    }

    /** Appends the field of a number in base 2, 8 or 16. */
    method AppendInBase(value: nat, base: Base, upper: bool, spec: IntSpec, prefix: string)
      requires buffer.Valid()
      modifies buffer, buffer.store
      ensures buffer.Valid() && (buffer.store == old(buffer.store) || fresh(buffer.store))
      ensures
        var digits := Numeral(value, base, upper);
        buffer.Contents() == old(buffer.Contents()) + Field(Plan(|digits|, spec, prefix), spec.fill, digits)
    {
      hide Numeral, Framed, DigitsEnd, Plan, Field, Splice, MemoryBuffer.Contents;
      ghost var before := buffer.Contents();
      var numDigits := CountInBase(value, base, upper);
      var last := PrepareIntBuffer(numDigits, spec, prefix);
      ghost var framed := buffer.Contents();
      DigitsInside(before, Plan(numDigits, spec, prefix), spec.fill, numDigits, framed);
      DigitsComplete(before, spec, prefix, Numeral(value, base, upper), framed);
      PutInBase(last, value, base, upper);
    }

    /** Appends the field of value: fill, sign and base prefix, inner padding, the digits
        of its magnitude, fill. An unknown type is an error and appends nothing. */
    method WriteInt(value: int, bits: nat, spec: FormatSpec) returns (ok: bool)
      requires buffer.Valid() && InRange(value, bits)
      modifies buffer, buffer.store
      ensures buffer.Valid() && (buffer.store == old(buffer.store) || fresh(buffer.store))
      ensures ok <==> KnownType(spec.typ)
      ensures buffer.Contents() ==
              if ok then old(buffer.Contents()) + Formatted(value, spec) else old(buffer.Contents())
    {
      hide Numeral, Pow, Plan, Field, MemoryBuffer.Contents;
      MagnitudeIsAbs(value, bits);
      var absValue := ToUnsigned(value, bits);
      var prefix := "";
      if value < 0 {
        prefix := "-";
        absValue := NegateUnsigned(absValue, bits);
      } else if spec.sign {
        prefix := if spec.plus then "+" else " ";
      }
      if spec.typ == NO_TYPE || spec.typ == 'd' {
        AppendDecimal(absValue, bits, spec.layout, prefix);
      } else if spec.typ == 'x' || spec.typ == 'X' {
        if spec.hash { prefix := prefix + ['0', spec.typ]; }
        AppendInBase(absValue, 16, spec.typ == 'X', spec.layout, prefix);
      } else if spec.typ == 'b' || spec.typ == 'B' {
        if spec.hash { prefix := prefix + ['0', spec.typ]; }
        AppendInBase(absValue, 2, false, spec.layout, prefix);
      } else if spec.typ == 'o' {
        if spec.hash { prefix := prefix + "0"; }
        AppendInBase(absValue, 8, false, spec.layout, prefix);
      } else {
        return false;
      }
      assert prefix == PrefixOf(value, spec);
      return true;
    }

    /** The unpadded decimal writer. */
    method WriteDecimal(value: int, bits: nat)
      requires buffer.Valid() && InRange(value, bits)
      modifies buffer, buffer.store
      ensures buffer.Valid()
      ensures buffer.Contents() == old(buffer.Contents()) + (if value < 0 then "-" else "") + Decimal(Abs(value))
    {
      hide Numeral, Pow, Grown, Splice, MemoryBuffer.Contents;
      MagnitudeIsAbs(value, bits);
      ghost var before, prefix := buffer.Contents(), if value < 0 then "-" else "";
      var absValue, prefixSize := ToUnsigned(value, bits), 0;
      if value < 0 { absValue, prefixSize := NegateUnsigned(absValue, bits), 1; }
      var numDigits := if bits == 32 then CountDigits32(absValue) else CountDigits64(absValue);
      var start := GrowBuffer(prefixSize + numDigits);
      PlainNumber(before, prefix, Decimal(absValue), buffer.Contents());
      PutDecimal(start + prefixSize + numDigits - 1, absValue);
      if value < 0 { buffer.Copy(start, "-"); }
    }
  }
}
