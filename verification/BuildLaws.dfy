/** When a build succeeds, spelled out on names, character codes and lists. */
module BuildLaws {
  import opened BuilderSpec
  import opened Declaring
  import opened LookupSpec
  import opened Names
  import opened Protos
  import opened RelativeNames
  import opened TablesSpec

  // ------------------------------------------------------------- packages

  /** q is the name or a scope around it. */
  predicate Around(q: string, name: string) { q == name || q + "." <= name }

  /** last is what follows the last dot of q. */
  predicate LastPart(q: string, last: string) {
    '.' !in last && (q == last || (|q| > |last| && q[|q| - |last| - 1..] == "." + last))
  }

  ghost predicate BadPart(q: string) { exists last :: LastPart(q, last) && !Word(last) }

  /** Nothing that is known lies between the name and q. */
  ghost predicate NoneKnownInside(kinds: Kinds, name: string, q: string) {
    forall r :: Around(r, name) && r in kinds ==> |r| <= |q|
  }

  ghost predicate Spoils(kinds: Kinds, name: string, q: string) {
    Around(q, name) && NoneKnownInside(kinds, name, q) && if q in kinds then kinds[q] != Package else BadPart(q)
  }

  lemma AroundEnclosing(q: string, name: string)
    ensures HasDot(name) ==> (Around(q, name) <==> q == name || Around(q, Enclosing(name)))
    ensures !HasDot(name) ==> (Around(q, name) <==> q == name)
    ensures Around(q, name) ==> |q| <= |name|
  {
    ScopesSplit(name);
  }

  lemma LastComponentIsLast(q: string)
    ensures LastPart(q, LastComponent(q))
  {
    var i := LastDot(q);
    if i >= 0 { assert q[i..] == "." + q[i + 1..]; }
  }

  lemma LastPartIs(q: string)
    ensures BadPart(q) <==> !ValidIdentifier(LastComponent(q))
  {
    hide ValidIdentifier, LastPart, LastComponent, Word;
    LastComponentIsLast(q);
    IdentifierIsWord(LastComponent(q));
    forall last | LastPart(q, last) ensures last == LastComponent(q) {
      LastPartOnce(q, last, LastComponent(q));
    }
  }

  lemma LastPartOnce(q: string, a: string, b: string)
    requires LastPart(q, a) && LastPart(q, b)
    ensures a == b
  {
    LongerLastPart(q, a, b);
    LongerLastPart(q, b, a);
    assert q[|q| - |a|..] == a && q[|q| - |b|..] == b;
  }

  lemma LongerLastPart(q: string, a: string, b: string)
    requires LastPart(q, a) && LastPart(q, b)
    ensures |b| <= |a| && q[|q| - |a|..] == a
  {
    if q != a {
      assert q[|q| - |a| - 1..][0] == '.' && q[|q| - |a| - 1..][1..] == a;
    }
  }

  /** Declaring a package fails exactly if, before and at the first known name outwards,
      something is not a package or not an identifier. */
  lemma {:induction false} PackageErrorMeans(kinds: Kinds, name: string)
    ensures PackageError(kinds, name) <==> exists q :: Spoils(kinds, name, q)
    decreases |name|
  {
    hide ValidIdentifier, LastComponent, BadPart;
    LastPartIs(name);
    forall q
      ensures HasDot(name) ==> (Around(q, name) <==> q == name || Around(q, Enclosing(name)))
      ensures !HasDot(name) ==> (Around(q, name) <==> q == name)
      ensures Around(q, name) ==> |q| <= |name|
    {
      AroundEnclosing(q, name);
    }
    if name in kinds {
      assert Spoils(kinds, name, name) <==> kinds[name] != Package;
    } else {
      assert Spoils(kinds, name, name) <==> BadPart(name);
      if HasDot(name) {
        PackageErrorMeans(kinds, Enclosing(name));
        SpoilsEnclosing(kinds, name);
      }
    }
  }

  lemma SpoilsEnclosing(kinds: Kinds, name: string)
    requires HasDot(name) && name !in kinds
    ensures forall q :: q != name ==> (Spoils(kinds, name, q) <==> Spoils(kinds, Enclosing(name), q))
  {
    hide BadPart;
    forall q
      ensures Around(q, name) <==> q == name || Around(q, Enclosing(name))
      ensures Around(q, Enclosing(name)) ==> q != name
    {
      AroundEnclosing(q, name);
      AroundEnclosing(q, Enclosing(name));
    }
  }

  lemma {:induction false} PackageNamesMean(name: string)
    ensures forall q :: q in PackageNames(name) <==> Around(q, name)
    decreases |name|
  {
    forall q
      ensures HasDot(name) ==> (Around(q, name) <==> q == name || Around(q, Enclosing(name)))
      ensures !HasDot(name) ==> (Around(q, name) <==> q == name)
    {
      AroundEnclosing(q, name);
    }
    if HasDot(name) { PackageNamesMean(Enclosing(name)); }
  }

  // ------------------------------------------------------------- the whole file

  /** Given the files and symbols there are: the package can be declared; the imports are
      there and differ, and the public ones are among them; every declaration has an
      identifier for a name, and a full name that neither a symbol, nor the package or a
      package around it, nor an earlier declaration has. */
  ghost predicate InOrder(files: set<string>, kinds: Kinds, proto: FileProto) {
    var ds, package := Declarations(proto), proto.package;
    && (package != "" ==> !exists q :: Spoils(kinds, package, q))
    && (forall i :: 0 <= i < |proto.dependency| ==> proto.dependency[i] in files + {proto.name})
    && (forall i, j :: 0 <= i < j < |proto.dependency| ==> proto.dependency[i] != proto.dependency[j])
    && (forall k :: 0 <= k < |proto.publicDependency| ==> 0 <= proto.publicDependency[k] < |proto.dependency|)
    && (forall j :: 0 <= j < |ds| ==>
          && Word(ds[j].name) && ds[j].fullName !in kinds
          && (package != "" ==> !Around(ds[j].fullName, package)))
    && (forall i, j :: 0 <= i < j < |ds| ==> ds[i].fullName != ds[j].fullName)
  }

  lemma FineMeans(files: set<string>, kinds: Kinds, proto: FileProto)
    ensures FineAmong(files, kinds, proto) <==> InOrder(files, kinds, proto)
  {
    hide Declarations, Spoils, Around, ValidIdentifier, Word, PackageError;
    PackageErrorMeans(kinds, proto.package);
    ImportsMean(files, proto);
    ClashesMean(kinds, proto);
  }

  lemma ImportsMean(files: set<string>, proto: FileProto)
    ensures ImportsAmong(files, proto) <==>
              && (forall i :: 0 <= i < |proto.dependency| ==> proto.dependency[i] in files + {proto.name})
              && (forall i, j :: 0 <= i < j < |proto.dependency| ==> proto.dependency[i] != proto.dependency[j])
              && (forall k :: 0 <= k < |proto.publicDependency| ==> 0 <= proto.publicDependency[k] < |proto.dependency|)
  {
  }

  lemma ClashesMean(kinds: Kinds, proto: FileProto)
    ensures
      var ds, package := Declarations(proto), proto.package;
      !SomeClash(TakenWith(kinds.Keys, proto), ds, |ds|) <==>
        && (forall j :: 0 <= j < |ds| ==>
              && Word(ds[j].name) && ds[j].fullName !in kinds
              && (package != "" ==> !Around(ds[j].fullName, package)))
        && (forall i, j :: 0 <= i < j < |ds| ==> ds[i].fullName != ds[j].fullName)
  {
    hide Declarations, Around, ValidIdentifier, Word, PackageNames;
    var ds, package := Declarations(proto), proto.package;
    var taken := TakenWith(kinds.Keys, proto);
    PackageNamesMean(package);
    forall j | 0 <= j < |ds|
      ensures Clashes(taken, ds, j) <==>
                || !Word(ds[j].name) || ds[j].fullName in kinds
                || (package != "" && Around(ds[j].fullName, package))
                || exists i :: 0 <= i < j && ds[i].fullName == ds[j].fullName
    {
      IdentifierIsWord(ds[j].name);
    }
  }
}
