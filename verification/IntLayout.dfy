/** How an integer is laid out in its field. */
module IntLayout {
  import opened MemoryBuffers

  datatype Alignment = Default | Left | Right | Center | Numeric

  /** precision is negative if none was given. */
  datatype IntSpec = IntSpec(width: nat, fill: char, align: Alignment, precision: int)

  /** Fill, sign and base prefix, inner padding, digits, fill. */
  datatype Layout = Layout(left: nat, prefix: string, inner: nat, innerFill: char, right: nat)

  function Max(a: int, b: int): int { if a < b then b else a }

  /** The octal prefix counts as a digit: a longer precision makes it go. */
  function UsedPrefix(numDigits: nat, spec: IntSpec, prefix: string): string {
    if spec.precision > numDigits && prefix != "" && prefix[|prefix| - 1] == '0'
    then prefix[..|prefix| - 1]
    else prefix
  }

  /** The field width decides the outer fill. With a precision longer than the number the
      fill goes to one side only, the left one unless the alignment is to the left. */
  function Plan(numDigits: nat, spec: IntSpec, prefix: string): Layout {
    var used := UsedPrefix(numDigits, spec, prefix);
    var zeros := Max(spec.precision - numDigits, 0);
    var pad := Max(spec.width - (|used| + zeros + numDigits), 0);
    if spec.align == Left then Layout(0, used, zeros, '0', pad)
    else if spec.precision > numDigits then Layout(pad, used, zeros, '0', 0)
    else if spec.align == Center then Layout(pad / 2, used, 0, '0', pad - pad / 2)
    else if spec.align == Numeric then Layout(0, used, pad, spec.fill, 0)
    else Layout(pad, used, 0, '0', 0)
  }

  function Before(l: Layout, fill: char): string {
    Repeat(fill, l.left) + l.prefix + Repeat(l.innerFill, l.inner)
  }

  function After(l: Layout, fill: char): string { Repeat(fill, l.right) }

  /** The whole field. */
  function Field(l: Layout, fill: char, digits: string): string {
    Before(l, fill) + digits + After(l, fill)
  }

  /** The fill is split evenly, with the odd character on the right. */
  predicate Centred(l: Layout) { l.left <= l.right <= l.left + 1 }

  /** A field to be centred is so exactly if the precision does not exceed the digits, or
      leaves nothing to fill. */
  lemma CentredExactly(numDigits: nat, spec: IntSpec, prefix: string)
    requires spec.align == Center
    ensures Centred(Plan(numDigits, spec, prefix)) <==>
              spec.precision <= numDigits || spec.width <= |UsedPrefix(numDigits, spec, prefix)| + spec.precision
  {
  }

  /** One digit with a precision of three, to be centred in ten: all the fill goes left. */
  lemma PreciseIsNotCentred()
    ensures Plan(1, IntSpec(10, '*', Center, 3), "") == Layout(7, "", 2, '0', 0)
    ensures Field(Plan(1, IntSpec(10, '*', Center, 3), ""), '*', "5") == "*******005"
  {
  }

  /** The field is as wide as asked for, or as the number needs. */
  lemma FieldLength(spec: IntSpec, prefix: string, digits: string)
    ensures
      var used := UsedPrefix(|digits|, spec, prefix);
      |Field(Plan(|digits|, spec, prefix), spec.fill, digits)| ==
      Max(spec.width, |used| + Max(spec.precision, |digits|))
  {
  }

  /** The field, alignment by alignment. */
  lemma FieldByCase(spec: IntSpec, prefix: string, digits: string)
    requires spec.precision <= |digits|
    ensures
      var pad := if spec.width > |prefix| + |digits| then spec.width - |prefix| - |digits| else 0;
      Field(Plan(|digits|, spec, prefix), spec.fill, digits) ==
      match spec.align
      case Left => prefix + digits + Repeat(spec.fill, pad)
      case Center => Repeat(spec.fill, pad / 2) + prefix + digits + Repeat(spec.fill, pad - pad / 2)
      case Numeric => prefix + Repeat(spec.fill, pad) + digits
      case _ => Repeat(spec.fill, pad) + prefix + digits
  {
  }

  /** With a precision beyond the digits, zeros make up the difference, a trailing 0 of the
      prefix is dropped, and the fill goes to one side. */
  lemma PreciseFieldByCase(spec: IntSpec, prefix: string, digits: string)
    requires spec.precision > |digits|
    ensures
      var used := if prefix != "" && prefix[|prefix| - 1] == '0' then prefix[..|prefix| - 1] else prefix;
      var number := used + Repeat('0', spec.precision - |digits|) + digits;
      var pad := if spec.width > |number| then spec.width - |number| else 0;
      Field(Plan(|digits|, spec, prefix), spec.fill, digits) ==
      if spec.align == Left then number + Repeat(spec.fill, pad) else Repeat(spec.fill, pad) + number
  {
  }

  /** Where the digits end in a field appended to start characters. */
  function DigitsEnd(start: nat, l: Layout, numDigits: nat): nat {
    start + l.left + |l.prefix| + l.inner + numDigits
  }

  /** contents is before with a field appended whose digits may still be anything. */
  predicate Framed(before: string, l: Layout, fill: char, numDigits: nat, contents: string) {
    var end := DigitsEnd(|before|, l, numDigits);
    |contents| == end + l.right &&
    contents[..end - numDigits] == before + Before(l, fill) &&
    contents[end..] == After(l, fill)
  }

  lemma DigitsInside(before: string, l: Layout, fill: char, n: nat, contents: string)
    requires Framed(before, l, fill, n, contents)
    ensures n <= DigitsEnd(|before|, l, n) <= |contents|
  {
  }

  /** Writing the digits completes the field. */
  lemma DigitsComplete(before: string, spec: IntSpec, prefix: string, digits: string, contents: string)
    requires Framed(before, Plan(|digits|, spec, prefix), spec.fill, |digits|, contents)
    ensures
      var l := Plan(|digits|, spec, prefix);
      Splice(contents, DigitsEnd(|before|, l, |digits|) - |digits|, digits) == before + Field(l, spec.fill, digits)
  {
  }

  /** A precision beyond the number of digits is a zero-filled numeric field of its own,
      inside fill on the left ... */
  lemma PreciseRight(before: string, n: nat, spec: IntSpec, prefix: string, contents: string)
    requires spec.precision > n && spec.align != Left
    requires
      var used := UsedPrefix(n, spec, prefix);
      var pad := Max(spec.width - (|used| + spec.precision), 0);
      Framed(before + Repeat(spec.fill, pad), Plan(n, IntSpec(|used| + spec.precision, '0', Numeric, -1), used), '0', n,
             contents)
    ensures Framed(before, Plan(n, spec, prefix), spec.fill, n, contents)
  {
  }

  /** ... or followed by fill. */
  lemma PreciseLeft(before: string, n: nat, spec: IntSpec, prefix: string, contents: string)
    requires spec.precision > n && spec.align == Left
    requires
      var used := UsedPrefix(n, spec, prefix);
      Framed(before, Plan(n, IntSpec(|used| + spec.precision, '0', Numeric, -1), used), '0', n, contents)
    ensures
      var pad := Max(spec.width - (|UsedPrefix(n, spec, prefix)| + spec.precision), 0);
      Framed(before, Plan(n, spec, prefix), spec.fill, n, contents + Repeat(spec.fill, pad))
  {
  }

  /** A precise number as wide as the field needs no fill. */
  lemma NoFill(before: string, n: nat, spec: IntSpec, prefix: string, contents: string)
    requires spec.precision > n && spec.width <= |UsedPrefix(n, spec, prefix)| + spec.precision
    requires
      var used := UsedPrefix(n, spec, prefix);
      Framed(before, Plan(n, IntSpec(|used| + spec.precision, '0', Numeric, -1), used), '0', n, contents)
    ensures Framed(before, Plan(n, spec, prefix), spec.fill, n, contents)
  {
  }

  /** Freshly grown space after the old contents. */
  predicate Grown(before: string, n: nat, contents: string) {
    |contents| == |before| + n && contents[..|before|] == before
  }

  lemma NarrowField(before: string, n: nat, spec: IntSpec, prefix: string, contents: string)
    requires spec.precision <= n && spec.width <= |prefix| + n && Grown(before, |prefix| + n, contents)
    ensures Framed(before, Plan(n, spec, prefix), spec.fill, n, Splice(contents, |before|, prefix))
  {
    var l := Plan(n, spec, prefix);
    assert l == Layout(l.left, prefix, 0, l.innerFill, 0) && l.left == 0;
    hide Plan;
    assert before + Before(l, spec.fill) == before + prefix;
  }

  predicate Wide(before: string, n: nat, spec: IntSpec, prefix: string, contents: string) {
    spec.precision <= n && spec.width > |prefix| + n && Grown(before, spec.width, contents)
  }

  lemma LeftField(before: string, n: nat, spec: IntSpec, prefix: string, contents: string)
    requires Wide(before, n, spec, prefix, contents) && spec.align == Left
    ensures
      var size := |prefix| + n;
      Framed(before, Plan(n, spec, prefix), spec.fill, n,
             Splice(Splice(contents, |before|, prefix), |before| + size, Repeat(spec.fill, spec.width - size)))
    ensures DigitsEnd(|before|, Plan(n, spec, prefix), n) == |before| + |prefix| + n
  {
  }

  lemma CenterField(before: string, n: nat, spec: IntSpec, prefix: string, contents: string)
    requires Wide(before, n, spec, prefix, contents) && spec.align == Center
    ensures
      var size, padding := |prefix| + n, spec.width - |prefix| - n;
      var content := |before| + padding / 2;
      Framed(before, Plan(n, spec, prefix), spec.fill, n,
             Splice(Splice(Splice(contents, |before|, Repeat(spec.fill, padding / 2)),
                           content + size, Repeat(spec.fill, padding - padding / 2)),
                    content, prefix))
    ensures DigitsEnd(|before|, Plan(n, spec, prefix), n) == |before| + (spec.width - |prefix| - n) / 2 + |prefix| + n
  {
  }

  lemma NumericField(before: string, n: nat, spec: IntSpec, prefix: string, contents: string)
    requires Wide(before, n, spec, prefix, contents) && spec.align == Numeric
    ensures
      Framed(before, Plan(n, spec, prefix), spec.fill, n,
             Splice(Splice(contents, |before|, prefix), |before| + |prefix|,
                    Repeat(spec.fill, spec.width - |prefix| - n)))
    ensures Splice(contents, |before|, "") == contents
    ensures DigitsEnd(|before|, Plan(n, spec, prefix), n) == |before| + spec.width
  {
  }

  lemma RightField(before: string, n: nat, spec: IntSpec, prefix: string, contents: string)
    requires Wide(before, n, spec, prefix, contents) && (spec.align == Right || spec.align == Default)
    ensures
      var size := |prefix| + n;
      Framed(before, Plan(n, spec, prefix), spec.fill, n,
             Splice(Splice(contents, |before| + spec.width - size, prefix), |before|,
                    Repeat(spec.fill, spec.width - size)))
    ensures DigitsEnd(|before|, Plan(n, spec, prefix), n) == |before| + spec.width
  {
  }

  /** A number written without padding. */
  lemma PlainNumber(before: string, prefix: string, digits: string, contents: string)
    requires Grown(before, |prefix| + |digits|, contents)
    ensures |before| + |prefix| + |digits| == |contents|
    ensures
      var written := Splice(contents, |before| + |prefix|, digits);
      (prefix == "" ==> written == before + prefix + digits) &&
      Splice(written, |before|, prefix) == before + prefix + digits
  {
  }
}
