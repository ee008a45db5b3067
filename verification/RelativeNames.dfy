/** What a name in a field or method stands for, spelled out on strings: scopes are the
    dotted prefixes of the name it is written in. */
module RelativeNames {
  import opened LookupSpec
  import opened Names
  import opened PoolSpec
  import opened Protos
  import opened TablesSpec

  /** h is the part of n before its first dot. */
  predicate HeadOf(n: string, h: string) { '.' !in h && (h == n || h + "." <= n) }

  /** In that scope the head of the name is found, and is such that the search ends: of a
      longer name, something that can have members; of a type, a type. */
  predicate SettlesAt(kinds: Kinds, scope: string, n: string, h: string, asType: bool) {
    var head := scope + "." + h;
    head in kinds &&
    if h != n then kinds[head] in {Message, Package, Enum, Service} else asType ==> kinds[head] in {Message, Enum}
  }

  /** scope is the innermost scope around `from` in which the search ends. */
  ghost predicate Innermost(kinds: Kinds, from: string, n: string, h: string, asType: bool, scope: string) {
    && scope + "." <= from && SettlesAt(kinds, scope, n, h, asType)
    && forall s :: s + "." <= from && SettlesAt(kinds, s, n, h, asType) ==> |s| <= |scope|
  }

  ghost predicate FoundAs(kinds: Kinds, from: string, n: string, h: string, asType: bool, full: string) {
    || (exists scope :: Innermost(kinds, from, n, h, asType, scope) && full == scope + "." + n)
    || (full == n && forall s :: s + "." <= from ==> !SettlesAt(kinds, s, n, h, asType))
  }

  /** n, written inside the symbol `from`, stands for the full name. */
  ghost predicate StandsFor(kinds: Kinds, from: string, n: string, asType: bool, full: string) {
    if n != "" && n[0] == '.' then full == n[1..]
    else exists h :: HeadOf(n, h) && FoundAs(kinds, from, n, h, asType, full)
  }

  predicate AcceptableAs(role: Role, kind: SymbolType) {
    match role
    case Extendee => kind == Message
    case MethodType => kind == Message
    case FieldType(NoType) => kind == Message || kind == Enum
    case FieldType(MessageType) => kind == Message
    case FieldType(EnumType) => kind == Enum
    case FieldType(PrimitiveType) => false
  }

  ghost predicate UseOk(kinds: Kinds, use: Use, from: string) {
    exists full :: StandsFor(kinds, from, use.name, use.role.FieldType?, full) && full in kinds
                   && AcceptableAs(use.role, kinds[full])
  }

  /** Every operand belongs to a declaration of the file. */
  ghost predicate OperandsOwned(proto: FileProto) {
    forall g :: 0 <= g < |proto.operands| ==> proto.operands[g].owner < |Declarations(proto)|
  }

  /** Every name in every operand stands for something acceptable, seen from the full name
      of the field or method that it is written in. */
  ghost predicate UsesOk(kinds: Kinds, proto: FileProto)
    requires OperandsOwned(proto)
  {
    forall g, i :: 0 <= g < |proto.operands| && 0 <= i < |proto.operands[g].uses| ==>
      UseOk(kinds, proto.operands[g].uses[i], Declarations(proto)[proto.operands[g].owner].fullName)
  }

  /** Every link is the symbol that its name stands for. */
  ghost predicate LinksStandFor(kinds: Kinds, proto: FileProto, links: Links)
    requires OperandsOwned(proto)
  {
    |links| == |proto.operands| && forall g :: 0 <= g < |links| ==>
      |links[g]| == |proto.operands[g].uses| && forall i :: 0 <= i < |links[g]| ==>
        var use, from := proto.operands[g].uses[i], Declarations(proto)[proto.operands[g].owner].fullName;
        && StandsFor(kinds, from, use.name, use.role.FieldType?, links[g][i].fullName)
        && links[g][i].fullName in kinds && links[g][i].kind == kinds[links[g][i].fullName]
  }

  // ------------------------------------------------------------- the search

  lemma HeadIsFirstPart(n: string)
    requires n == "" || n[0] != '.'
    ensures forall h :: HeadOf(n, h) <==> h == FirstPart(n)
  {
    forall h ensures HeadOf(n, h) <==> h == FirstPart(n) {
      var i := FirstDot(n);
      if HeadOf(n, h) && h != n { assert n[|h|] == (h + ".")[|h|]; }
      if i >= 0 { assert n[..i] + "." == n[..i + 1]; }
    }
  }

  /** The scopes of a name are the one around it and the scopes of that. */
  lemma ScopesSplit(from: string)
    ensures HasDot(from) ==> forall s :: s + "." <= from <==> s == Enclosing(from) || s + "." <= Enclosing(from)
    ensures !HasDot(from) ==> forall s :: !(s + "." <= from)
  {
    forall s
      ensures HasDot(from) ==> (s + "." <= from <==> s == Enclosing(from) || s + "." <= Enclosing(from))
      ensures !HasDot(from) ==> !(s + "." <= from)
    {
      PrefixMeans(s, from);
      if DottedPrefix(s, from) { PrefixOfEnclosing(s, from); }
      if HasDot(from) {
        EnclosingIsPrefix(from);
        PrefixMeans(s, Enclosing(from));
      }
    }
  }

  lemma InnermostOnce(kinds: Kinds, from: string, n: string, h: string, asType: bool, scope: string, other: string)
    requires Innermost(kinds, from, n, h, asType, scope) && Innermost(kinds, from, n, h, asType, other)
    ensures scope == other
  {
    hide SettlesAt;
    assert scope == from[..|scope|] && other == from[..|other|] by {
      assert (scope + ".")[..|scope|] == scope && (other + ".")[..|other|] == other;
    }
  }

  lemma FoundOnce(kinds: Kinds, from: string, n: string, h: string, asType: bool, a: string, b: string)
    requires FoundAs(kinds, from, n, h, asType, a) && FoundAs(kinds, from, n, h, asType, b)
    ensures a == b
  {
    hide SettlesAt;
    if scope :| Innermost(kinds, from, n, h, asType, scope) && a == scope + "." + n {
      if other :| Innermost(kinds, from, n, h, asType, other) && b == other + "." + n {
        InnermostOnce(kinds, from, n, h, asType, scope, other);
      }
    }
  }

  /** The search scope after scope, going outwards, finds what stands there. */
  lemma {:induction false} TargetIsFound(kinds: Kinds, components: seq<string>, k: nat, n: string, mode: ResolveMode)
    requires DotFree(components) && 1 <= k <= |components| && (n == "" || n[0] != '.')
    ensures FoundAs(kinds, Scope(components, k), n, FirstPart(n), mode.LookupTypes?, Target(kinds, components, k, n, mode))
  {
    hide Scope, FirstPart, DotFree;
    var from, h, asType := Scope(components, k), FirstPart(n), mode.LookupTypes?;
    ScopeChop(components, k);
    ScopesSplit(from);
    if k > 1 {
      var inner := Scope(components, k - 1);
      SettlesMeans(kinds, inner, n, mode);
      if Settles(kinds, inner, n, mode) {
        forall s | s + "." <= from ensures |s| <= |inner| {}
        assert Innermost(kinds, from, n, h, asType, inner);
      } else {
        TargetIsFound(kinds, components, k - 1, n, mode);
        OuterIsFound(kinds, from, inner, n, h, asType, Target(kinds, components, k - 1, n, mode));
      }
    }
  }

  /** A scope that does not settle the search makes no difference. */
  lemma OuterIsFound(kinds: Kinds, from: string, inner: string, n: string, h: string, asType: bool, full: string)
    requires forall s :: s + "." <= from <==> s == inner || s + "." <= inner
    requires !SettlesAt(kinds, inner, n, h, asType) && FoundAs(kinds, inner, n, h, asType, full)
    ensures FoundAs(kinds, from, n, h, asType, full)
  {
    hide SettlesAt;
    if scope :| Innermost(kinds, inner, n, h, asType, scope) && full == scope + "." + n {
      assert Innermost(kinds, from, n, h, asType, scope);
    }
  }

  lemma SettlesMeans(kinds: Kinds, scope: string, n: string, mode: ResolveMode)
    ensures Settles(kinds, scope, n, mode) <==> SettlesAt(kinds, scope, n, FirstPart(n), mode.LookupTypes?)
  {
    assert |FirstPart(n)| < |n| <==> FirstPart(n) != n;
  }

  /** The meaning of a name is what it stands for. */
  lemma MeaningStandsFor(kinds: Kinds, n: string, from: string, mode: ResolveMode, full: string)
    ensures Meaning(kinds, n, from, mode) == full <==> StandsFor(kinds, from, n, mode.LookupTypes?, full)
  {
    if n == "" || n[0] != '.' {
      hide FirstPart, Scope, Components, DotFree, FoundAs, HeadOf;
      HeadIsFirstPart(n);
      WholeScope(from);
      TargetIsFound(kinds, Components(from), |Components(from)|, n, mode);
      if StandsFor(kinds, from, n, mode.LookupTypes?, full) {
        FoundOnce(kinds, from, n, FirstPart(n), mode.LookupTypes?, full, Meaning(kinds, n, from, mode));
      }
    }
  }

  // ------------------------------------------------------------- a file's references

  /** The references of a file are in order exactly if all its uses are. */
  lemma ReferencesMean(kinds: Kinds, proto: FileProto)
    requires OperandsOwned(proto)
    ensures ReferencesOk(kinds, References(proto)) <==> UsesOk(kinds, proto)
  {
    hide Declarations, Meaning, StandsFor;
    var ds := Declarations(proto);
    forall g, i | 0 <= g < |proto.operands| && 0 <= i < |proto.operands[g].uses|
      ensures ReferenceOk(kinds, References(proto)[g][i]) <==>
                UseOk(kinds, proto.operands[g].uses[i], ds[proto.operands[g].owner].fullName)
    {
      UseMeans(kinds, proto.operands[g].uses[i], ds[proto.operands[g].owner].fullName);
    }
  }

  lemma UseMeans(kinds: Kinds, use: Use, from: string)
    ensures ReferenceOk(kinds, ReferenceOf(use, from)) <==> UseOk(kinds, use, from)
  {
    hide Meaning, StandsFor;
    forall full
      ensures MeaningOf(kinds, ReferenceOf(use, from)) == full <==>
                StandsFor(kinds, from, use.name, use.role.FieldType?, full)
    {
      MeaningStandsFor(kinds, use.name, from, ModeOf(use.role), full);
    }
    assert forall kind :: kind in AcceptedIn(use.role) <==> AcceptableAs(use.role, kind);
  }

  lemma LinksMean(view: map<string, Symbol>, proto: FileProto, links: Links)
    requires OperandsOwned(proto) && AllLinksMeant(view, References(proto), links)
    requires forall n :: n in view ==> view[n].fullName == n
    ensures LinksStandFor(KindsOf(view), proto, links)
  {
    hide Declarations, Meaning, StandsFor;
    var ds := Declarations(proto);
    forall g | 0 <= g < |links|
      ensures |links[g]| == |proto.operands[g].uses|
      ensures forall i :: 0 <= i < |links[g]| ==> LinkMeant(view, References(proto)[g][i], links[g][i])
    {
      assert LinksMeant(view, References(proto)[g], links[g]);
    }
    forall g, i | 0 <= g < |links| && 0 <= i < |links[g]|
      ensures
        var use, from := proto.operands[g].uses[i], ds[proto.operands[g].owner].fullName;
        StandsFor(KindsOf(view), from, use.name, use.role.FieldType?, links[g][i].fullName)
    {
      var use, from := proto.operands[g].uses[i], ds[proto.operands[g].owner].fullName;
      assert LinkMeant(view, References(proto)[g][i], links[g][i]);
      MeaningStandsFor(KindsOf(view), use.name, from, ModeOf(use.role), links[g][i].fullName);
    }
  }

  /** A name in two parts, seen from foo.bar: foo.baz settles it if it is a message, a
      package, an enum or a service, and nothing else does. */
  lemma ThroughScope(kinds: Kinds, asType: bool)
    requires "foo.baz" in kinds
    ensures StandsFor(kinds, "foo.bar", "baz.Q", asType,
                      if kinds["foo.baz"] in {Message, Package, Enum, Service} then "foo.baz.Q" else "baz.Q")
  {
    forall s | s + "." <= "foo.bar"
      ensures s == "foo"
    {
      assert "foo.bar"[|s|] == (s + ".")[|s|] == '.';
      assert s == "foo.bar"[..|s|];
    }
    assert "foo" + "." <= "foo.bar" && "foo" + "." + "baz" == "foo.baz" && "foo" + "." + "baz.Q" == "foo.baz.Q";
    assert HeadOf("baz.Q", "baz");
    if kinds["foo.baz"] in {Message, Package, Enum, Service} {
      assert Innermost(kinds, "foo.bar", "baz.Q", "baz", asType, "foo");
    }
  }
}
