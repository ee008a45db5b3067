/** What a build will see when it links its references, told from the pool before it and
    its proto alone. */
module ExpectedView {
  import opened BuilderSpec
  import opened BuildSteps
  import opened Declaring
  import opened LookupSpec
  import opened Names
  import opened Optional
  import opened PoolSpec
  import opened Protos
  import opened TablesSpec

  /** Some import of the proto reaches the file g by public imports. */
  ghost predicate Imported(base: PoolState, proto: FileProto, g: nat) {
    exists i :: 0 <= i < |proto.dependency| && ImportReaches(base, proto.dependency[i], g)
  }

  ghost predicate ImportReaches(base: PoolState, name: string, g: nat) {
    HasFile(base, name) && Reaches(base.descriptors, FileNamed(base, name), g)
  }

  /** The kind of the first declaration of a full name. */
  function KindIn(ds: seq<Declaration>, name: string): SymbolType
    requires name in NamesOf(ds)
  {
    if ds[0].fullName == name then ds[0].kind else KindIn(ds[1..], name)
  }

  /** A symbol of the pool may be used if its file is imported, or if it is a package that
      the proto or an imported file is in. */
  ghost predicate MayImport(base: PoolState, proto: FileProto, name: string)
    requires name in base.core.symbols.entries
  {
    var s := base.core.symbols.entries[name].value;
    Imported(base, proto, s.file) ||
    (s.kind == Package &&
     (InPackage(proto.package, name) ||
      exists g :: Imported(base, proto, g) && g in base.descriptors && InPackage(base.descriptors[g].proto.package, name)))
  }

  /** The names that the references of the proto can mean: what it may use of the pool,
      its packages and its own declarations. */
  ghost function ExpectedKinds(base: PoolState, proto: FileProto): Kinds {
    var ds := Declarations(proto);
    map n | n in Taken(base, proto) + NamesOf(ds) && (n in base.core.symbols.entries ==> MayImport(base, proto, n)) ::
      if n in base.core.symbols.entries then base.core.symbols.entries[n].value.kind
      else if n in NamesOf(ds) then KindIn(ds, n)
      else Package
  }

  function WithSelfImport(proto: FileProto): FileProto {
    proto.(dependency := proto.dependency + [proto.name])
  }

  lemma SelfImportFine(base: PoolState, proto: FileProto)
    requires ImportsFine(base, proto) && proto.name !in proto.dependency
    ensures ImportsFine(base, WithSelfImport(proto))
  {
    assert forall k :: 0 <= k < |proto.publicDependency| ==> 0 <= proto.publicDependency[k] < |proto.dependency|;
  }

  lemma SelfImportReaches(base: PoolState, proto: FileProto, g: nat)
    requires !HasFile(base, proto.name)
    ensures Imported(base, WithSelfImport(proto), g) <==> Imported(base, proto, g)
  {
    hide Reaches;
    var more := WithSelfImport(proto).dependency;
    assert forall i :: 0 <= i < |proto.dependency| ==> more[i] == proto.dependency[i];
  }

  /** A file may import itself as well: that is never an error, and changes nothing of
      what its references can mean. */
  lemma SelfImportIsAllowed(base: PoolState, proto: FileProto)
    requires Acceptable(base, proto) && proto.name !in proto.dependency
    ensures Acceptable(base, WithSelfImport(proto))
    ensures ExpectedKinds(base, WithSelfImport(proto)) == ExpectedKinds(base, proto)
  {
    hide SomeClash, InPackage, Imported, ImportsFine, KindIn, NamesOf, Taken, PackageError;
    SelfImportFine(base, proto);
    forall g ensures Imported(base, WithSelfImport(proto), g) <==> Imported(base, proto, g) {
      SelfImportReaches(base, proto, g);
    }
    SameDeclared(base, proto);
  }

  /** The imports have no part in what a file declares. */
  lemma SameDeclared(base: PoolState, proto: FileProto)
    ensures Declarations(WithSelfImport(proto)) == Declarations(proto)
    ensures Taken(base, WithSelfImport(proto)) == Taken(base, proto)
  {
  }

  // ------------------------------------------------------------- imports

  /** The file f of the proto has joined the pool, with all its imports found. */
  ghost predicate Joined(base: PoolState, p: PoolState, f: nat, proto: FileProto) {
    && DescriptorsOk(base) && FilesOk(base) && base.nextAddress <= f
    && Sub(base.descriptors, p.descriptors) && Sub(base.core.files.entries, p.core.files.entries)
    && f in p.descriptors && p.descriptors[f].proto == proto
    && HasFile(p, proto.name) && FileNamed(p, proto.name) == f
    && ImportsFine(base, proto) && Complete(p, f)
  }

  lemma ReachesFurther(ds: map<nat, FileDescriptor>, f: nat, g: nat, h: nat)
    requires Reaches(ds, f, g) && PublicImport(ds, g, h)
    ensures Reaches(ds, f, h)
  {
    var path :| PublicPath(ds, path) && path[0] == f && path[|path| - 1] == g;
    var longer := path + [h];
    assert PublicPath(ds, longer) by {
      forall i | 0 <= i < |longer| - 1
        ensures PublicImport(ds, longer[i], longer[i + 1])
      {
        if i < |path| - 1 { assert PublicImport(ds, path[i], path[i + 1]); }
      }
    }
    assert longer[0] == f && longer[|longer| - 1] == h;
  }

  lemma ReachesInMore(ds: map<nat, FileDescriptor>, more: map<nat, FileDescriptor>, f: nat, g: nat)
    requires Sub(ds, more) && Reaches(ds, f, g)
    ensures Reaches(more, f, g)
  {
    var path :| PublicPath(ds, path) && path[0] == f && path[|path| - 1] == g;
    forall i | 0 <= i < |path| - 1
      ensures PublicImport(more, path[i], path[i + 1])
    {
      assert PublicImport(ds, path[i], path[i + 1]);
    }
    assert PublicPath(more, path);
  }

  /** The files that the imports reach, and the file itself. */
  ghost function ReachedSet(base: PoolState, proto: FileProto, f: nat): set<nat> {
    (set g | g in base.descriptors && Imported(base, proto, g)) + {f}
  }

  /** What the file imports directly is in that set. */
  lemma ImportInSet(base: PoolState, p: PoolState, f: nat, proto: FileProto, g: nat)
    requires Joined(base, p, f, proto) && Some(g) in p.descriptors[f].imports
    ensures g in ReachedSet(base, proto, f)
  {
    var i :| 0 <= i < |proto.dependency| && p.descriptors[f].imports[i] == Some(g);
    var name := proto.dependency[i];
    if name != proto.name {
      assert FileOk(base, name);
      ReachesSelf(base.descriptors, g);
      assert ImportReaches(base, name, g);
    }
  }

  lemma SetClosed(base: PoolState, p: PoolState, f: nat, proto: FileProto)
    requires Joined(base, p, f, proto)
    ensures Closed(p.descriptors, ReachedSet(base, proto, f), ReachedSet(base, proto, f))
  {
    forall h, g | h in ReachedSet(base, proto, f) && PublicImport(p.descriptors, h, g)
      ensures g in ReachedSet(base, proto, f)
    {
      if h == f {
        ImportInSet(base, p, f, proto, g);
      } else {
        assert PublicImport(base.descriptors, h, g);
        assert DescriptorOk(base, h);
        var i :| 0 <= i < |proto.dependency| && ImportReaches(base, proto.dependency[i], h);
        ReachesFurther(base.descriptors, FileNamed(base, proto.dependency[i]), h, g);
        assert ImportReaches(base, proto.dependency[i], g);
      }
    }
  }

  /** The dependency set, told from the pool before the build. */
  lemma DependenciesExpected(base: PoolState, p: PoolState, f: nat, proto: FileProto, dependencies: set<nat>)
    requires Joined(base, p, f, proto) && DependenciesOf(p, f, dependencies)
    ensures forall g :: g in dependencies && g != f ==> g in base.descriptors && Imported(base, proto, g)
    ensures forall g :: Imported(base, proto, g) ==> g in dependencies
  {
    SetClosed(base, p, f, proto);
    forall g | g in dependencies
      ensures g in ReachedSet(base, proto, f)
    {
      var h :| Some(h) in p.descriptors[f].imports && Reaches(p.descriptors, h, g);
      ImportInSet(base, p, f, proto, h);
      ClosedContainsReach(p.descriptors, ReachedSet(base, proto, f), h, g);
    }
    forall g | Imported(base, proto, g)
      ensures g in dependencies
    {
      var i :| 0 <= i < |proto.dependency| && ImportReaches(base, proto.dependency[i], g);
      var h := FileNamed(base, proto.dependency[i]);
      assert p.descriptors[f].imports[i] == Some(h);
      ReachesInMore(base.descriptors, p.descriptors, h, g);
    }
  }

  // ------------------------------------------------------------- symbols

  /** The symbols of the pool are as before, with the proto's packages and declarations
      added for f. */
  ghost predicate SymbolsJoined(base: PoolState, p: PoolState, f: nat, proto: FileProto) {
    && Sub(base.core.symbols.entries, p.core.symbols.entries)
    && p.core.symbols.entries.Keys == Taken(base, proto) + NamesOf(Declarations(proto))
    && AllDeclared(p, f, Declarations(proto))
    && forall n :: n in p.core.symbols.entries && n !in base.core.symbols.entries ==> AddedFor(p, f, proto, n)
  }

  ghost predicate AddedFor(p: PoolState, f: nat, proto: FileProto, n: string)
    requires n in p.core.symbols.entries
  {
    var s := p.core.symbols.entries[n].value;
    s.file == f && (s.kind == Package || n in NamesOf(Declarations(proto)))
  }

  lemma {:induction false} KindDeclared(p: PoolState, f: nat, ds: seq<Declaration>, n: string)
    requires AllDeclared(p, f, ds) && n in NamesOf(ds)
    ensures n in p.core.symbols.entries && KindIn(ds, n) == p.core.symbols.entries[n].value.kind
  {
    if ds[0].fullName == n {
      assert Declared(p, f, ds[0]);
    } else {
      KindDeclared(p, f, ds[1..], n);
    }
  }

  /** The packages that the build may see are those of the proto and of what it imports. */
  lemma PackagesExpected(base: PoolState, p: PoolState, f: nat, proto: FileProto, dependencies: set<nat>, n: string)
    requires Joined(base, p, f, proto) && DependenciesOf(p, f, dependencies)
    ensures PackageDeclared(p, f, dependencies, n) <==>
              InPackage(proto.package, n) ||
              exists g :: Imported(base, proto, g) && g in base.descriptors && InPackage(base.descriptors[g].proto.package, n)
  {
    hide Imported, InPackage, Reached, DescriptorsOk, FilesOk, ImportsFine, Complete;
    DependenciesExpected(base, p, f, proto, dependencies);
    forall g | g in base.descriptors
      ensures g in p.descriptors && p.descriptors[g] == base.descriptors[g]
    {
    }
  }

  lemma OldUse(base: PoolState, p: PoolState, f: nat, proto: FileProto, dependencies: set<nat>, n: string)
    requires Joined(base, p, f, proto) && DependenciesOf(p, f, dependencies) && SymbolsOk(base)
    requires n in base.core.symbols.entries && Sub(base.core.symbols.entries, p.core.symbols.entries)
    ensures MayUse(p, f, dependencies, n) <==> MayImport(base, proto, n)
  {
    hide Imported, InPackage, Reached, FilesOk, ImportsFine, Complete, PackageDeclared;
    DependenciesExpected(base, p, f, proto, dependencies);
    PackagesExpected(base, p, f, proto, dependencies, n);
    var s := base.core.symbols.entries[n].value;
    assert InTable(base, s.file);
    assert DescriptorOk(base, s.file);
  }

  lemma OldKindExpected(base: PoolState, p: PoolState, f: nat, proto: FileProto, dependencies: set<nat>, n: string)
    requires Joined(base, p, f, proto) && DependenciesOf(p, f, dependencies) && SymbolsOk(base)
    requires SymbolsJoined(base, p, f, proto) && n in base.core.symbols.entries
    ensures MayUse(p, f, dependencies, n) <==> n in ExpectedKinds(base, proto)
    ensures n in ExpectedKinds(base, proto) ==> ExpectedKinds(base, proto)[n] == base.core.symbols.entries[n].value.kind
  {
    hide MayImport, KindIn, Joined, Reached, AllDeclared, MayUse, SymbolsOk, Declarations, NamesOf;
    OldUse(base, p, f, proto, dependencies, n);
  }

  lemma NewKindExpected(base: PoolState, p: PoolState, f: nat, proto: FileProto, n: string)
    requires SymbolsJoined(base, p, f, proto) && n in p.core.symbols.entries && n !in base.core.symbols.entries
    ensures n in ExpectedKinds(base, proto) && ExpectedKinds(base, proto)[n] == p.core.symbols.entries[n].value.kind
    ensures p.core.symbols.entries[n].value.file == f
  {
    hide MayImport, KindIn, AllDeclared, Declarations, NamesOf;
    assert AddedFor(p, f, proto, n);
    if n in NamesOf(Declarations(proto)) { KindDeclared(p, f, Declarations(proto), n); }
  }

  /** What a build sees when its declarations are done is what was expected. */
  lemma ViewExpected(base: PoolState, p: PoolState, f: nat, proto: FileProto, dependencies: set<nat>)
    requires Joined(base, p, f, proto) && DependenciesOf(p, f, dependencies) && SymbolsOk(base)
    requires SymbolsJoined(base, p, f, proto)
    ensures KindsOf(View(p, f, dependencies)) == ExpectedKinds(base, proto)
  {
    hide MayUse, ExpectedKinds, Joined, SymbolsJoined, Reached, SymbolsOk;
    ExpectedIsDeclared(base, p, f, proto);
    OldStays(base, p, f, proto);
    forall n | n in p.core.symbols.entries
      ensures MayUse(p, f, dependencies, n) <==> n in ExpectedKinds(base, proto)
      ensures n in ExpectedKinds(base, proto) ==> ExpectedKinds(base, proto)[n] == p.core.symbols.entries[n].value.kind
    {
      if n in base.core.symbols.entries {
        OldKindExpected(base, p, f, proto, dependencies, n);
      } else {
        NewKindExpected(base, p, f, proto, n);
        OwnUse(p, f, dependencies, n);
      }
    }
  }

  lemma OwnUse(p: PoolState, f: nat, dependencies: set<nat>, n: string)
    requires n in p.core.symbols.entries && p.core.symbols.entries[n].value.file == f
    ensures MayUse(p, f, dependencies, n)
  {
  }

  lemma OldStays(base: PoolState, p: PoolState, f: nat, proto: FileProto)
    requires SymbolsJoined(base, p, f, proto)
    ensures Sub(base.core.symbols.entries, p.core.symbols.entries)
  {
  }

  lemma ExpectedIsDeclared(base: PoolState, p: PoolState, f: nat, proto: FileProto)
    requires SymbolsJoined(base, p, f, proto)
    ensures ExpectedKinds(base, proto).Keys <= p.core.symbols.entries.Keys
  {
  }

  // ------------------------------------------------------------- a file's contents

  /** p1 has the package, p2 the imports and p the declarations of the file f as well. */
  ghost predicate ContentsAdded(base: PoolState, p1: PoolState, p2: PoolState, p: PoolState, f: nat, proto: FileProto) {
    && Sub(base.core.symbols.entries, p1.core.symbols.entries) && PackagesAdded(base, p1, f, proto.package)
    && p2.core.symbols.entries == p1.core.symbols.entries
    && Sub(p2.core.symbols.entries, p.core.symbols.entries) && SymbolsFor(p2, p, f)
    && p.core.symbols.entries.Keys == p2.core.symbols.entries.Keys + NamesOf(Declarations(proto))
  }

  lemma ContentsExpected(base: PoolState, p1: PoolState, p2: PoolState, p: PoolState, f: nat, proto: FileProto,
                         dependencies: set<nat>)
    requires Linked(base) && Joined(base, p, f, proto) && ContentsAdded(base, p1, p2, p, f, proto)
    requires p1.core.symbols.entries.Keys == Taken(base, proto)
    requires AllDeclared(p, f, Declarations(proto)) && DependenciesOf(p, f, dependencies)
    ensures KindsOf(View(p, f, dependencies)) == ExpectedKinds(base, proto) && SymbolsJoined(base, p, f, proto)
  {
    hide Joined, AllDeclared, Reached, View, KindsOf, ExpectedKinds, Taken, NamesOf, DescriptorsOk, FilesOk;
    assert SymbolsJoined(base, p, f, proto) by {
      forall n | n in p.core.symbols.entries && n !in base.core.symbols.entries
        ensures AddedFor(p, f, proto, n)
      {
        if n in p1.core.symbols.entries { assert PackageOf(p1, f, n); }
      }
    }
    ViewExpected(base, p, f, proto, dependencies);
  }

  /** All symbols a build adds have a name, and belong to its file. */
  lemma ContentsNew(base: PoolState, p1: PoolState, p2: PoolState, p: PoolState, f: nat, proto: FileProto)
    requires ContentsAdded(base, p1, p2, p, f, proto) && NamesGiven(base, p1) && base.nextAddress <= f
    requires f in p.descriptors && p.descriptors[f].proto == proto
    requires var ds := Declarations(proto); AllWellNamed(ds) && !SomeClash(p2.core.symbols.entries.Keys, ds, |ds|)
    ensures OnlyNewFiles(base, p)
  {
    NamesNotEmpty(p2.core.symbols.entries.Keys, Declarations(proto));
    hide NamesOf, Declarations, AllWellNamed, SomeClash, PackageNames;
    forall n | n in p.core.symbols.entries && n !in base.core.symbols.entries
      ensures NewSymbolOk(base, p, n)
    {
      if n in p1.core.symbols.entries { assert PackageOf(p1, f, n); }
    }
  }

  lemma BuildingJoined(base: PoolState, p: PoolState, f: nat, proto: FileProto)
    requires Inv(base) && Nested(base.core) && Building(base, p, f, proto.name) && p.descriptors[f].proto == proto
    requires ImportsFine(base, proto) && Complete(p, f)
    ensures Joined(base, p, f, proto)
  {
  }

  lemma BuildingGrown(base: PoolState, p: PoolState, f: nat, name: string)
    requires Nested(base.core) && Building(base, p, f, name)
    ensures Sub(base.core.symbols.entries, p.core.symbols.entries) && base.nextAddress <= f
  {
  }

  /** The package, the imports and the declarations of a file together. */
  lemma ContentsDone(base: PoolState, p1: PoolState, p2: PoolState, p: PoolState, f: nat, proto: FileProto,
                     dependencies: set<nat>)
    requires Inv(base) && Nested(base.core) && Building(base, p1, f, proto.name) && Building(base, p, f, proto.name)
    requires PackagesAdded(base, p1, f, proto.package) && NamesGiven(base, p1) && p2.core == p1.core
    requires Progress(p2, p) && SymbolsFor(p2, p, f) && p.descriptors[f].proto == proto
    requires var taken, ds := p2.core.symbols.entries.Keys, Declarations(proto);
             p.core.symbols.entries.Keys == taken + NamesOf(ds) && !SomeClash(taken, ds, |ds|) && AllDeclared(p, f, ds)
    requires ImportsFine(base, proto) && ImportsRecorded(p, f) && DependenciesOf(p, f, dependencies)
    ensures OnlyNewFiles(base, p)
    ensures Joined(base, p, f, proto)
    ensures p1.core.symbols.entries.Keys == Taken(base, proto) ==>
              KindsOf(View(p, f, dependencies)) == ExpectedKinds(base, proto) && SymbolsJoined(base, p, f, proto)
  {
    hide ImportsFine, Building, PackagesAdded, NamesGiven, Advances, PackagesClosed, SymbolsFor, SomeClash,
         AllDeclared, Complete, Reached, OnlyNewFiles, View, KindsOf, ExpectedKinds, Taken, Joined,
         AllWellNamed, NamesOf, SymbolsJoined;
    BuildingGrown(base, p1, f, proto.name);
    GrownSymbols(p2, p);
    DeclarationsWellNamed(proto);
    BuildingJoined(base, p, f, proto);
    ContentsNew(base, p1, p2, p, f, proto);
    if p1.core.symbols.entries.Keys == Taken(base, proto) {
      ContentsExpected(base, p1, p2, p, f, proto, dependencies);
    }
  }
}
