/** Byte-wise lexicographic order on symbol names, and why names nested in a name are
    its immediate neighbours. */
module SymbolOrder {
  import opened Names

  /** The order of std::map<string, ...>. */
  predicate Less(a: string, b: string) {
    b != "" && (a == "" || a[0] < b[0] || (a[0] == b[0] && Less(a[1..], b[1..])))
  }

  predicate LessOrEqual(a: string, b: string) { a == b || Less(a, b) }

  lemma {:induction false} LessTotal(a: string, b: string)
    ensures a == b || Less(a, b) || Less(b, a)
  {
    if a != "" && b != "" && a[0] == b[0] {
      LessTotal(a[1..], b[1..]);
      assert a == [a[0]] + a[1..] && b == [b[0]] + b[1..];
    }
  }

  lemma {:induction false} LessTrans(a: string, b: string, c: string)
    requires Less(a, b) && Less(b, c)
    ensures Less(a, c)
  {
    if a != "" && a[0] == b[0] && b[0] == c[0] { LessTrans(a[1..], b[1..], c[1..]); }
  }

  lemma {:induction false} LessIrrefl(a: string)
    ensures !Less(a, a)
  {
    if a != "" { LessIrrefl(a[1..]); }
  }

  lemma LessAsym(a: string, b: string)
    requires Less(a, b)
    ensures !Less(b, a) && a != b
  {
  }

  /** The first difference decides; a name sorts before its extensions. */
  predicate DiffersAt(a: string, b: string, k: nat) {
    k <= |a| && k < |b| && a[..k] == b[..k] && (k == |a| || a[k] < b[k])
  }

  lemma {:induction false} LessMeans(a: string, b: string)
    ensures Less(a, b) <==> exists k: nat :: DiffersAt(a, b, k)
  {
    if a == "" || b == "" || a[0] != b[0] {
      if b != "" && (a == "" || a[0] < b[0]) { assert DiffersAt(a, b, 0); }
      forall k: nat | DiffersAt(a, b, k) ensures k == 0 {
      }
    } else {
      LessMeans(a[1..], b[1..]);
      if k: nat :| DiffersAt(a[1..], b[1..], k) {
        assert a[..k + 1] == [a[0]] + a[1..][..k] && b[..k + 1] == [b[0]] + b[1..][..k];
        assert DiffersAt(a, b, k + 1);
      }
      if k: nat :| DiffersAt(a, b, k) {
        assert a[1..][..k - 1] == a[..k][1..] && b[1..][..k - 1] == b[..k][1..];
        assert DiffersAt(a[1..], b[1..], k - 1);
      }
    }
  }

  /** A character that symbol names may contain. */
  predicate Legal(c: char) { c == '.' || IsLetterDigitUnderscore(c) }

  /** ValidateSymbolName of the database: empty components are not its concern. */
  predicate ValidSymbolName(name: string) {
    forall i :: 0 <= i < |name| ==> Legal(name[i])
  }

  /** By code: a dot, a letter, a digit or an underscore. */
  lemma SymbolNameByCode(name: string)
    ensures ValidSymbolName(name) <==> forall i :: 0 <= i < |name| ==> name[i] as int == 46 || WordCode(name[i] as int)
  {
    assert forall i :: 0 <= i < |name| ==> (Legal(name[i]) <==> name[i] as int == 46 || WordCode(name[i] as int));
  }

  /** IsSubSymbol(outer, name): name is outer or nested in it. */
  predicate Covers(outer: string, name: string) {
    outer == name || DottedPrefix(outer, name)
  }

  lemma {:induction false} PrefixLess(a: string, q: string)
    requires DottedPrefix(a, q)
    ensures Less(a, q)
  {
    if a != "" {
      assert a[0] == q[..|a|][0] == q[0];
      assert q[1..][..|a| - 1] == q[..|a|][1..];
      PrefixLess(a[1..], q[1..]);
    }
  }

  /** '.' sorts below every other legal character, so a legal name between a and
      something nested in a is itself nested in a. */
  lemma {:induction false} BetweenIsNested(a: string, x: string, q: string)
    requires DottedPrefix(a, q) && Less(a, x) && LessOrEqual(x, q)
    requires ValidSymbolName(x)
    ensures DottedPrefix(a, x)
  {
    if x != q {
      if a == "" {
        assert Legal(x[0]);
      } else {
        assert a[0] == q[..|a|][0] == q[0];
        assert q[1..][..|a| - 1] == q[..|a|][1..];
        LessAsym(x, q);
        BetweenIsNested(a[1..], x[1..], q[1..]);
        assert x[..|a|] == [x[0]] + x[1..][..|a| - 1];
      }
    }
  }
}
