/** Copying a built file back into a proto, which decides whether a file that is offered
    once more is the one that is there. */
module CopyBack {
  import opened BuilderSpec
  import opened Declaring
  import opened ExpectedView
  import opened LookupSpec
  import opened Names
  import opened Optional
  import opened PoolProperties
  import opened PoolSpec
  import opened Protos
  import opened Rollback
  import opened TablesSpec

  /** What the parts of a proto that are not modelled become: numbers, labels, types,
      options and so on. */
  type CopyRest = (FileProto, Links) -> string

  predicate SameShape(operands: seq<Operand>, links: Links) {
    |links| == |operands| && forall g :: 0 <= g < |operands| ==> |links[g]| == |operands[g].uses|
  }

  /** A field type that was left open is written as what the field turned out to be. */
  function CopiedRole(role: Role, kind: SymbolType): Role {
    if role == FieldType(NoType) then FieldType(if kind == Enum then EnumType else MessageType) else role
  }

  function CopiedUse(use: Use, fullName: string, kind: SymbolType): Use {
    Use("." + fullName, CopiedRole(use.role, kind))
  }

  /** Every name is written as a dot and the full name of what it is linked to. */
  function CopiedOperand(o: Operand, links: seq<Symbol>): Operand
    requires |links| == |o.uses|
  {
    o.(uses := seq(|o.uses|, i requires 0 <= i < |o.uses| => CopiedUse(o.uses[i], links[i].fullName, links[i].kind)))
  }

  function CopiedOperands(operands: seq<Operand>, links: Links): seq<Operand>
    requires SameShape(operands, links)
  {
    seq(|operands|, g requires 0 <= g < |operands| => CopiedOperand(operands[g], links[g]))
  }

  function NameOf(p: PoolState, f: Option<nat>): string {
    if f.Some? && f.value in p.descriptors then p.descriptors[f.value].proto.name else ""
  }

  function ImportNames(p: PoolState, imports: seq<Option<nat>>): seq<string> {
    seq(|imports|, i requires 0 <= i < |imports| => NameOf(p, imports[i]))
  }

  predicate Copyable(p: PoolState, f: nat) {
    f in p.descriptors && f in p.links && SameShape(p.descriptors[f].proto.operands, p.links[f])
  }

  /** FileDescriptor::CopyTo: imports, public imports and linked types come from the
      descriptor, not from the proto it was made from. */
  function CopiedBack(p: PoolState, f: nat, copyRest: CopyRest): FileProto
    requires Copyable(p, f)
  {
    var d := p.descriptors[f];
    d.proto.(dependency := ImportNames(p, d.imports),
             publicDependency := d.publicImports,
             operands := CopiedOperands(d.proto.operands, p.links[f]),
             rest := copyRest(d.proto, p.links[f]))
  }

  /** ExistingFileMatchesProto, for the existing file of the proto's name. */
  predicate Matches(p: PoolState, proto: FileProto, copyRest: CopyRest) {
    && HasFile(p, proto.name)
    && Copyable(p, FileNamed(p, proto.name))
    && CopiedBack(p, FileNamed(p, proto.name), copyRest) == proto
  }

  // ------------------------------------------------------------- what is copied

  function KindAt(kinds: Kinds, name: string): SymbolType {
    if name in kinds then kinds[name] else Message
  }

  function QualifiedUse(kinds: Kinds, use: Use, owner: string): Use {
    var meaning := MeaningOf(kinds, ReferenceOf(use, owner));
    CopiedUse(use, meaning, KindAt(kinds, meaning))
  }

  function QualifiedOperand(kinds: Kinds, o: Operand, owner: string): Operand {
    o.(uses := seq(|o.uses|, i requires 0 <= i < |o.uses| => QualifiedUse(kinds, o.uses[i], owner)))
  }

  /** All names written in full, with a leading dot, and no field type left open. */
  function InFull(kinds: Kinds, proto: FileProto): FileProto {
    var ds := Declarations(proto);
    proto.(operands := seq(|proto.operands|, g requires 0 <= g < |proto.operands| =>
             QualifiedOperand(kinds, proto.operands[g], OwnerName(ds, proto.operands[g].owner))))
  }

  predicate WrittenInFull(kinds: Kinds, use: Use, owner: string) {
    use.name == "." + MeaningOf(kinds, ReferenceOf(use, owner)) && use.role != FieldType(NoType)
  }

  predicate OperandInFull(kinds: Kinds, o: Operand, owner: string) {
    forall i :: 0 <= i < |o.uses| ==> WrittenInFull(kinds, o.uses[i], owner)
  }

  predicate AllInFull(kinds: Kinds, proto: FileProto) {
    forall g :: 0 <= g < |proto.operands| ==>
      OperandInFull(kinds, proto.operands[g], OwnerName(Declarations(proto), proto.operands[g].owner))
  }

  /** Linked to what they mean, the names are copied in full. */
  lemma CopiedInFull(view: map<string, Symbol>, proto: FileProto, links: Links)
    requires AllLinksMeant(view, References(proto), links) && forall n :: n in view ==> view[n].fullName == n
    ensures SameShape(proto.operands, links)
    ensures CopiedOperands(proto.operands, links) == InFull(KindsOf(view), proto).operands
  {
    hide MeaningOf, KindsOf, Declarations;
    var ds, copied := Declarations(proto), InFull(KindsOf(view), proto).operands;
    forall g | 0 <= g < |proto.operands|
      ensures |links[g]| == |proto.operands[g].uses|
      ensures CopiedOperand(proto.operands[g], links[g]) == copied[g]
    {
      assert LinksMeant(view, References(proto)[g], links[g]);
      OperandCopied(view, proto.operands[g], OwnerName(ds, proto.operands[g].owner), links[g]);
    }
  }

  lemma OperandCopied(view: map<string, Symbol>, o: Operand, owner: string, links: seq<Symbol>)
    requires LinksMeant(view, ReferencesOf(o, owner), links) && forall n :: n in view ==> view[n].fullName == n
    ensures CopiedOperand(o, links) == QualifiedOperand(KindsOf(view), o, owner)
  {
    hide MeaningOf, CopiedRole;
    forall i | 0 <= i < |o.uses|
      ensures CopiedUse(o.uses[i], links[i].fullName, links[i].kind) == QualifiedUse(KindsOf(view), o.uses[i], owner)
    {
      assert LinkMeant(view, ReferencesOf(o, owner)[i], links[i]);
    }
  }

  lemma ImportsCopied(p: PoolState, f: nat)
    requires Inv(p) && Built(p, f)
    ensures ImportNames(p, p.descriptors[f].imports) == p.descriptors[f].proto.dependency
    ensures p.descriptors[f].publicImports == p.descriptors[f].proto.publicDependency
  {
    hide Owned, AllDeclared, IsPackage, DescriptorsOk, SymbolsOk, ImportsInTable;
    var d := p.descriptors[f];
    forall i | 0 <= i < |d.imports|
      ensures NameOf(p, d.imports[i]) == d.proto.dependency[i]
    {
      assert FileOk(p, d.proto.dependency[i]);
    }
  }

  lemma ViewNamed(p: PoolState, f: nat, dependencies: set<nat>)
    requires Inv(p)
    ensures var view := View(p, f, dependencies); forall n :: n in view ==> view[n].fullName == n
  {
    assert forall n :: n in p.core.symbols.entries ==> SymbolOk(p, n);
    hide MayUse;
  }

  /** Item by item: imports by the names of their files, types by a dot and the full names of
      what they are linked to, open field types as what that is. */
  lemma MatchesByItem(p: PoolState, proto: FileProto, copyRest: CopyRest)
    requires Matches(p, proto, copyRest)
    ensures
      var f := FileNamed(p, proto.name);
      var d := p.descriptors[f];
      var links: Links := p.links[f];
      && |proto.dependency| == |d.imports| && proto.publicDependency == d.publicImports
      && (forall i :: 0 <= i < |d.imports| && d.imports[i].Some? && d.imports[i].value in p.descriptors ==>
            proto.dependency[i] == p.descriptors[d.imports[i].value].proto.name)
      && |proto.operands| == |d.proto.operands| == |links|
      && forall g :: 0 <= g < |links| ==>
           |proto.operands[g].uses| == |links[g]| == |d.proto.operands[g].uses| && forall i :: 0 <= i < |links[g]| ==>
             var use, stored := proto.operands[g].uses[i], d.proto.operands[g].uses[i];
             && use.name == "." + links[g][i].fullName
             && (stored.role != FieldType(NoType) ==> use.role == stored.role)
             && (stored.role == FieldType(NoType) ==>
                   use.role == FieldType(if links[g][i].kind == Enum then EnumType else MessageType))
  {
    var f := FileNamed(p, proto.name);
    var d, links := p.descriptors[f], p.links[f];
    assert proto.operands == CopiedOperands(d.proto.operands, links);
    assert forall g :: 0 <= g < |links| ==> proto.operands[g] == CopiedOperand(d.proto.operands[g], links[g]);
  }

  /** Between calls: a file offered once more is taken for the one that is there if and
      only if it is that file's proto with every name and field type written in full. */
  lemma MatchesExactly(p: PoolState, proto: FileProto, copyRest: CopyRest, dependencies: set<nat>)
    requires Settled(p) && HasFile(p, proto.name) && FileNamed(p, proto.name) in p.descriptors
    requires DependenciesOf(p, FileNamed(p, proto.name), dependencies)
    ensures var f := FileNamed(p, proto.name);
            && Copyable(p, f)
            && (Matches(p, proto, copyRest) <==>
                  var stored := p.descriptors[f].proto;
                  proto == InFull(KindsOf(View(p, f, dependencies)), stored).(rest := copyRest(stored, p.links[f])))
  {
    hide Inv, PackagesClosed, Built, View, KindsOf, SeesEnough, Reached, ReferencesOk, AllLinksMeant;
    var f := FileNamed(p, proto.name);
    ReferencesStayMeant(p, p, proto.name, dependencies) by { LoadsRefl(p); }
    ViewNamed(p, f, dependencies);
    CopiedInFull(View(p, f, dependencies), p.descriptors[f].proto, p.links[f]);
    ImportsCopied(p, f);
    TableName(p, proto.name);
  }

  lemma TableName(p: PoolState, name: string)
    requires Inv(p) && HasFile(p, name)
    ensures FileNamed(p, name) in p.descriptors && p.descriptors[FileNamed(p, name)].proto.name == name
  {
    assert FileOk(p, name);
  }

  /** The very proto that a file was built from is refused when it is offered again, unless
      all its names and field types were written in full and the rest is copied as it was. */
  lemma AgainExactly(p: PoolState, name: string, copyRest: CopyRest, dependencies: set<nat>)
    requires Settled(p) && HasFile(p, name) && FileNamed(p, name) in p.descriptors
    requires DependenciesOf(p, FileNamed(p, name), dependencies)
    ensures
      var f := FileNamed(p, name);
      var proto, kinds := p.descriptors[f].proto, KindsOf(View(p, f, dependencies));
      && Copyable(p, f)
      && (Matches(p, proto, copyRest) <==>
            && copyRest(proto, p.links[f]) == proto.rest
            && AllInFull(kinds, proto))
  {
    hide Settled, Copyable, View, KindsOf, MeaningOf, Matches, DependenciesOf;
    var f := FileNamed(p, name);
    var proto, kinds := p.descriptors[f].proto, KindsOf(View(p, f, dependencies));
    SettledName(p, name);
    MatchesExactly(p, proto, copyRest, dependencies);
    InFullAlready(kinds, proto);
  }

  lemma SettledName(p: PoolState, name: string)
    requires Settled(p) && HasFile(p, name)
    ensures FileNamed(p, name) in p.descriptors && p.descriptors[FileNamed(p, name)].proto.name == name
  {
    TableName(p, name);
  }

  lemma InFullAlready(kinds: Kinds, proto: FileProto)
    ensures InFull(kinds, proto) == proto <==> AllInFull(kinds, proto)
  {
    hide MeaningOf, Declarations, OperandInFull;
    var ds, full := Declarations(proto), InFull(kinds, proto);
    forall g | 0 <= g < |proto.operands|
      ensures full.operands[g] == proto.operands[g] <==>
                OperandInFull(kinds, proto.operands[g], OwnerName(ds, proto.operands[g].owner))
    {
      OperandAlready(kinds, proto.operands[g], OwnerName(ds, proto.operands[g].owner));
    }
    assert full == proto <==> forall g :: 0 <= g < |proto.operands| ==> full.operands[g] == proto.operands[g];
  }

  lemma OperandAlready(kinds: Kinds, o: Operand, owner: string)
    ensures QualifiedOperand(kinds, o, owner) == o <==> OperandInFull(kinds, o, owner)
  {
    hide MeaningOf;
    var full := QualifiedOperand(kinds, o, owner);
    assert forall i :: 0 <= i < |o.uses| ==> (full.uses[i] == o.uses[i] <==> WrittenInFull(kinds, o.uses[i], owner));
    assert full == o <==> full.uses == o.uses;
  }

  /** The names of the proto mean the same, and the same kinds of thing, in both. */
  predicate Agree(kinds: Kinds, others: Kinds, refs: seq<seq<Reference>>) {
    forall g :: 0 <= g < |refs| ==> forall i :: 0 <= i < |refs[g]| ==> AgreeOn(kinds, others, refs[g][i])
  }

  predicate AgreeOn(kinds: Kinds, others: Kinds, ref: Reference) {
    && MeaningOf(kinds, ref) == MeaningOf(others, ref)
    && KindAt(kinds, MeaningOf(kinds, ref)) == KindAt(others, MeaningOf(kinds, ref))
  }

  /** A name written in full means the same wherever it is looked up, and is acceptable
      where the original is. */
  lemma QualifiedMeansSame(home: Kinds, kinds: Kinds, use: Use, owner: string)
    requires AgreeOn(home, kinds, ReferenceOf(use, owner))
    ensures var ref, copy := ReferenceOf(use, owner), ReferenceOf(QualifiedUse(home, use, owner), owner);
            MeaningOf(kinds, copy) == MeaningOf(kinds, ref) && (ReferenceOk(kinds, copy) <==> ReferenceOk(kinds, ref))
  {
    hide Target;
    var meaning := MeaningOf(home, ReferenceOf(use, owner));
    assert ("." + meaning)[1..] == meaning;
  }

  predicate SameMeanings(kinds: Kinds, refs: seq<seq<Reference>>, others: seq<seq<Reference>>) {
    |refs| == |others| && forall g :: 0 <= g < |refs| ==>
      |refs[g]| == |others[g]| &&
      forall i :: 0 <= i < |refs[g]| ==> MeaningOf(kinds, refs[g][i]) == MeaningOf(kinds, others[g][i])
  }

  /** Copying is a round trip: written down with the meanings of one pool, a file is in
      order in any pool that agrees on them exactly if the original is, and every name in it
      means the same. */
  lemma CopyBuildsAgain(base: PoolState, proto: FileProto, home: Kinds, rest: string)
    requires Agree(home, ExpectedKinds(base, proto), References(proto))
    ensures
      var kinds := ExpectedKinds(base, proto);
      var copy := InFull(home, proto).(rest := rest);
      && (Acceptable(base, copy) <==> Acceptable(base, proto))
      && ExpectedKinds(base, copy) == kinds
      && (ReferencesOk(kinds, References(copy)) <==> ReferencesOk(kinds, References(proto)))
      && SameMeanings(kinds, References(copy), References(proto))
  {
    hide ExpectedKinds, Acceptable, MeaningOf, ReferenceOk, QualifiedUse, AgreeOn, ReferenceOf, Declarations;
    var kinds, ds := ExpectedKinds(base, proto), Declarations(proto);
    var copy := InFull(home, proto).(rest := rest);
    SameAcceptable(base, proto, copy);
    SameExpected(base, proto, copy);
    SameDeclarations(proto, copy);
    forall g, i | 0 <= g < |proto.operands| && 0 <= i < |proto.operands[g].uses|
      ensures MeaningOf(kinds, References(copy)[g][i]) == MeaningOf(kinds, References(proto)[g][i])
      ensures ReferenceOk(kinds, References(copy)[g][i]) <==> ReferenceOk(kinds, References(proto)[g][i])
    {
      var use, owner := proto.operands[g].uses[i], OwnerName(ds, proto.operands[g].owner);
      assert References(proto)[g][i] == ReferenceOf(use, owner);
      assert References(copy)[g][i] == ReferenceOf(QualifiedUse(home, use, owner), owner);
      QualifiedMeansSame(home, kinds, use, owner);
    }
  }

  /** Operands and the rest have no part in what a file contains. */
  lemma SameAcceptable(base: PoolState, proto: FileProto, copy: FileProto)
    requires copy == proto.(operands := copy.operands, rest := copy.rest)
    ensures Acceptable(base, copy) <==> Acceptable(base, proto)
  {
    hide SomeClash, PackageNames, PackageError, Declarations;
    SameDeclarations(proto, copy);
  }

  lemma SameExpected(base: PoolState, proto: FileProto, copy: FileProto)
    requires copy == proto.(operands := copy.operands, rest := copy.rest)
    ensures ExpectedKinds(base, copy) == ExpectedKinds(base, proto)
  {
    hide InPackage, Imported, KindIn, NamesOf, PackageNames, Declarations;
    SameDeclarations(proto, copy);
    forall g ensures Imported(base, copy, g) <==> Imported(base, proto, g) {
      SameImported(base, proto, copy, g);
    }
  }

  lemma SameDeclarations(proto: FileProto, copy: FileProto)
    requires copy == proto.(operands := copy.operands, rest := copy.rest)
    ensures Declarations(copy) == Declarations(proto)
  {
  }

  lemma SameImported(base: PoolState, proto: FileProto, copy: FileProto, g: nat)
    requires copy.dependency == proto.dependency
    ensures Imported(base, copy, g) <==> Imported(base, proto, g)
  {
  }
}
