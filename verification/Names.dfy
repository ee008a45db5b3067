/** Dotted names: positions of dots, components, enclosing scopes. */
module Names {

  /** find_last_of('.'): the position of the last dot, or -1. */
  function LastDot(s: string): (i: int)
    ensures -1 <= i < |s|
    ensures i >= 0 ==> s[i] == '.'
    ensures forall j :: i < j < |s| ==> s[j] != '.'
  {
    if s == "" then -1
    else if s[|s| - 1] == '.' then |s| - 1
    else LastDot(s[..|s| - 1])
  }

  /** find_first_of('.'): the position of the first dot, or -1. */
  function FirstDot(s: string): (i: int)
    ensures -1 <= i < |s|
    ensures i >= 0 ==> s[i] == '.'
    ensures forall j :: 0 <= j < (if i < 0 then |s| else i) ==> s[j] != '.'
  {
    if s == "" then -1
    else if s[0] == '.' then 0
    else var i := FirstDot(s[1..]); if i < 0 then -1 else i + 1
  }

  predicate HasDot(s: string) { LastDot(s) >= 0 }

  function Enclosing(s: string): string
    requires HasDot(s)
  {
    s[..LastDot(s)]
  }

  /** A package and the packages around it. */
  function PackageNames(name: string): set<string>
    decreases |name|
  {
    {name} + if HasDot(name) then PackageNames(Enclosing(name)) else {}
  }

  /** The components of a dotted name; always at least one. */
  function Components(s: string): (cs: seq<string>)
    ensures |cs| >= 1
    decreases |s|
  {
    if HasDot(s) then Components(Enclosing(s)) + [s[LastDot(s) + 1..]] else [s]
  }

  function Join(cs: seq<string>): string
    requires |cs| >= 1
  {
    if |cs| == 1 then cs[0] else Join(cs[..|cs| - 1]) + "." + cs[|cs| - 1]
  }

  predicate DotFree(cs: seq<string>) {
    forall i :: 0 <= i < |cs| ==> !HasDot(cs[i])
  }

  lemma JoinSnoc(cs: seq<string>, c: string)
    requires |cs| >= 1
    ensures Join(cs + [c]) == Join(cs) + "." + c
  {
  }

  lemma {:induction false} JoinComponents(s: string)
    ensures Join(Components(s)) == s && DotFree(Components(s))
    decreases |s|
  {
    if HasDot(s) {
      var i := LastDot(s);
      JoinComponents(s[..i]);
      JoinSnoc(Components(s[..i]), s[i + 1..]);
      SplitAtDot(s, i);
    }
  }

  lemma SplitAtDot(s: string, i: nat)
    requires i < |s| && s[i] == '.'
    ensures s == s[..i] + "." + s[i + 1..]
  {
  }

  lemma LastDotIs(s: string, i: nat)
    requires i < |s| && s[i] == '.' && forall j :: i < j < |s| ==> s[j] != '.'
    ensures LastDot(s) == i
  {
  }

  lemma NoDotBehind(a: string, b: string, j: nat)
    requires !HasDot(b) && |a| <= j < |a + b|
    ensures (a + b)[j] != '.'
  {
  }

  lemma LastDotOfJoin(a: string, b: string)
    requires !HasDot(b)
    ensures LastDot(a + "." + b) == |a|
  {
    var t := a + ".";
    forall j: nat | |t| <= j < |t + b|
      ensures (t + b)[j] != '.'
    {
      NoDotBehind(t, b, j);
    }
    LastDotIs(t + b, |a|);
  }

  lemma CutAtDot(a: string, b: string)
    ensures (a + "." + b)[..|a|] == a && (a + "." + b)[|a| + 1..] == b
  {
  }

  lemma ComponentsSnoc(a: string, b: string)
    requires !HasDot(b)
    ensures Components(a + "." + b) == Components(a) + [b]
  {
    LastDotOfJoin(a, b);
    CutAtDot(a, b);
  }

  lemma {:induction false} ComponentsJoin(cs: seq<string>)
    requires |cs| >= 1 && DotFree(cs)
    ensures Components(Join(cs)) == cs
  {
    if |cs| > 1 {
      var init, last := cs[..|cs| - 1], cs[|cs| - 1];
      assert cs == init + [last];
      ComponentsJoin(init);
      JoinSnoc(init, last);
      hide Join, Components;
      ComponentsSnoc(Join(init), last);
    } else {
      assert cs == [cs[0]];
    }
  }

  /** q is a proper dotted prefix of n. */
  predicate DottedPrefix(q: string, n: string) {
    |q| < |n| && n[..|q|] == q && n[|q|] == '.'
  }

  lemma PrefixMeans(q: string, n: string)
    ensures DottedPrefix(q, n) <==> q + "." <= n
  {
    if DottedPrefix(q, n) { assert n[..|q| + 1] == q + "."; }
    if q + "." <= n { assert n[..|q|] == (q + ".")[..|q|] && n[|q|] == (q + ".")[|q|]; }
  }

  lemma EnclosingIsPrefix(n: string)
    requires HasDot(n)
    ensures DottedPrefix(Enclosing(n), n)
  {
  }

  /** The longest proper dotted prefix is the enclosing name; every other one is a
      proper dotted prefix of that. */
  lemma PrefixOfEnclosing(q: string, n: string)
    requires DottedPrefix(q, n)
    ensures HasDot(n)
    ensures q == Enclosing(n) || DottedPrefix(q, Enclosing(n))
  {
  }

  predicate IsLetterDigitUnderscore(c: char) {
    'a' <= c <= 'z' || 'A' <= c <= 'Z' || '0' <= c <= '9' || c == '_'
  }

  /** ValidateSymbolName: a non-empty run of letters, digits and underscores. */
  predicate ValidIdentifier(name: string) {
    name != "" && forall i :: 0 <= i < |name| ==> IsLetterDigitUnderscore(name[i])
  }

  /** Letters, digits and the underscore, by code. */
  predicate WordCode(c: int) { 48 <= c <= 57 || 65 <= c <= 90 || c == 95 || 97 <= c <= 122 }

  predicate Word(name: string) {
    |name| > 0 && forall i :: 0 <= i < |name| ==> WordCode(name[i] as int)
  }

  lemma IdentifierIsWord(name: string)
    ensures ValidIdentifier(name) <==> Word(name)
  {
    assert forall i :: 0 <= i < |name| ==> (IsLetterDigitUnderscore(name[i]) <==> WordCode(name[i] as int));
  }
}
