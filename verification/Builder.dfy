/** DescriptorPool and DescriptorBuilder: loading files from the fallback database,
    building them inside a checkpoint, and looking names up while doing so. */
module Builder {
  import opened Journal
  import opened TablesSpec
  import opened Rollback
  import opened Tables
  import opened Protos
  import opened Names
  import opened Optional
  import opened PoolSpec
  import opened BuildSteps
  import opened LookupSpec
  import opened BuilderSpec
  import opened Declaring
  import opened CopyBack
  import opened ExpectedView
  import opened NameIndexes
  import opened PoolProperties
  import opened PoolContents
  import opened Loading
  import opened RelativeNames
  import opened BuildLaws

  class DescriptorPool {
    const tables: Tables
    const fallbackDatabase: Option<Database>
    var pendingFiles: seq<string>
    var knownBadFiles: set<string>
    var knownBadSymbols: set<string>
    var nextAddress: nat
    var descriptors: map<nat, FileDescriptor>
    var links: map<nat, Links>
    /** The checks not modelled one by one: of numbers, labels, options, extension ranges
        and default values, by what the pool holds before the build and the proto. */
    const failsOtherChecks: Checks
    const copyRest: CopyRest

    constructor (database: Option<Database>, failsOtherChecks: Checks, copyRest: CopyRest)
      requires database.Some? ==> database.value.Valid()
      ensures Valid() && fallbackDatabase == database && fresh(tables)
      ensures this.failsOtherChecks == failsOtherChecks && this.copyRest == copyRest
      ensures Now() == EmptyPool(database)
    {
      tables := new Tables();
      fallbackDatabase := database;
      this.failsOtherChecks := failsOtherChecks;
      this.copyRest := copyRest;
      pendingFiles, knownBadFiles, knownBadSymbols := [], {}, {};
      nextAddress, descriptors, links := 0, map[], map[];
    }

    function Now(): PoolState
      reads this, tables
    {
      PoolState(tables.Contents(), pendingFiles, nextAddress, descriptors, links, fallbackDatabase)
    }

    ghost predicate Valid()
      reads this, tables
    {
      Inv(Now()) && (fallbackDatabase.Some? ==> fallbackDatabase.value.Valid())
    }

    /** Names in the database that are neither in the file table nor being loaded: the
        measure of all recursion below. */
    ghost function Left(): set<string>
      reads this, tables
    {
      Unloaded(Now())
    }

    method NewString(value: string) returns (s: PoolString)
      requires Valid()
      modifies this`nextAddress, tables
      ensures Valid() && Progress(old(Now()), Now())
      ensures s.id == value && s in tables.strings
      ensures SameFiles(old(Now()), Now()) && SameSymbols(old(Now()), Now())
    {
      hide Owned, Linked;
      var address := nextAddress;
      nextAddress := nextAddress + 1;
      AllocationAdvances(old(Now()), Op.AllocateString(Key(value, address)), nextAddress);
      s := tables.AllocateString(address, value);
    }

    method NewNames(name: string, package: string) returns (s: PoolString, t: PoolString)
      requires Valid()
      modifies this`nextAddress, tables
      ensures Valid() && Progress(old(Now()), Now())
      ensures s.id == name && t.id == package && s in tables.strings && t in tables.strings
      ensures SameFiles(old(Now()), Now()) && SameSymbols(old(Now()), Now())
    {
      hide Inv, Advances, PackagesClosed;
      ghost var p0 := Now();
      s := NewString(name);
      ghost var p1 := Now();
      t := NewString(package);
      StillOwned(p1, Now(), s);
      ProgressTrans(p0, p1, Now());
    }

    method InsertSymbol(name: PoolString, symbol: Symbol) returns (added: bool)
      requires Valid() && name in tables.strings && InTable(Now(), symbol.file) && symbol.fullName == name.id
      modifies tables
      ensures Valid() && Advances(old(Now()), Now())
      ensures symbol.kind != Package ==> Progress(old(Now()), Now())
      ensures SameFiles(old(Now()), Now()) && nextAddress == old(nextAddress)
      ensures added == (name.id !in old(tables.symbolsByName))
      ensures tables.symbolsByName ==
                if added then old(tables.symbolsByName)[name.id := Entry(name, symbol)] else old(tables.symbolsByName)
    {
      hide Owned, Linked;
      SymbolAdvances(Now(), name, symbol);
      added := tables.AddSymbol(name, symbol);
    }

    method NewBlock() returns (address: nat)
      requires Valid()
      modifies this`nextAddress, tables
      ensures Valid() && Progress(old(Now()), Now())
      ensures SameFiles(old(Now()), Now()) && SameSymbols(old(Now()), Now())
      ensures address == old(nextAddress) < nextAddress
    {
      hide Owned, Linked;
      address := nextAddress;
      nextAddress := nextAddress + 1;
      AllocationAdvances(old(Now()), Op.AllocateBytes(1, address), nextAddress);
      tables.AllocateBytes(1, address);
    }

    method NewFileTables()
      requires Valid()
      modifies this`nextAddress, tables
      ensures Valid() && Progress(old(Now()), Now())
      ensures SameFiles(old(Now()), Now()) && SameSymbols(old(Now()), Now())
    {
      hide Owned, Linked;
      var address := nextAddress;
      nextAddress := nextAddress + 1;
      AllocationAdvances(old(Now()), Op.AllocateFileTables(address), nextAddress);
      tables.AllocateFileTables(address);
    }

    /** Room for a FileDescriptor and its FileDescriptorTables. */
    method NewFile() returns (address: nat)
      requires Valid()
      modifies this`nextAddress, tables
      ensures Valid() && Progress(old(Now()), Now())
      ensures SameFiles(old(Now()), Now()) && SameSymbols(old(Now()), Now())
      ensures address == old(nextAddress) < nextAddress
    {
      hide Inv, Advances, PackagesClosed;
      ghost var p0 := Now();
      address := NewBlock();
      ghost var p1 := Now();
      NewFileTables();
      ProgressTrans(p0, p1, Now());
      NextAddressPast(p1, Now(), address);
    }

    method NewAddress() returns (address: nat)
      requires Valid()
      modifies this`nextAddress
      ensures Valid() && Progress(old(Now()), Now())
      ensures SameFiles(old(Now()), Now()) && SameSymbols(old(Now()), Now())
      ensures address == old(nextAddress) < nextAddress
    {
      hide Owned, Linked;
      address := nextAddress;
      nextAddress := nextAddress + 1;
      GrowsRefl(tables.Contents());
      SameTablesProgress(old(Now()), Now());
    }

    method FindFile(name: string) returns (r: Option<nat>)
      ensures r == PoolSpec.FindFile(Now(), name)
    {
      r := if name in tables.filesByName then Some(tables.filesByName[name].value) else None;
    }

    method FindSymbol(name: string) returns (r: Option<Symbol>)
      ensures r == if name in tables.symbolsByName then Some(tables.symbolsByName[name].value) else None
    {
      r := if name in tables.symbolsByName then Some(tables.symbolsByName[name].value) else None;
    }

    /** What makes the build of a file succeed, told from the pool before it alone: its
        package, imports and declarations are in order, the other checks pass, and all its
        references mean something acceptable. */
    ghost predicate Buildable(p: PoolState, proto: FileProto) {
      Acceptable(p, proto) && !failsOtherChecks(ContentOf(p), proto) && ReferencesOk(ExpectedKinds(p, proto), References(proto))
    }

    /** A build that was tried at p0 and ended at p: what decided it is the pool with the
        imports loaded, save those that are known bad by then.  If it failed, nothing but
        those was added. */
    ghost predicate Decided(p0: PoolState, p: PoolState, proto: FileProto, bad: set<string>, found: bool) {
      exists loaded ::
        && Loads(p0, loaded) && Loads(loaded, p)
        && AllFromDatabase(p0, loaded) && AllFromDatabase(p0, p)
        && (ImportsLoaded(p0, proto) ==> loaded == p0)
        && (forall n :: n in proto.dependency ==> HasFile(loaded, n) || n in bad)
        && (found <==> Buildable(loaded, proto))
        && (!found ==> p.core == loaded.core)
    }

    /** A pool with a database builds only what the database has. */
    ghost predicate Given(proto: FileProto) {
      fallbackDatabase.Some? ==>
        proto.name in fallbackDatabase.value.files && fallbackDatabase.value.files[proto.name] == proto
    }

    /** It is worth asking the database for the symbol: its definition is not known through
        a scope of it, and the file said to contain it has not been loaded. */
    ghost predicate MayDefine(p: PoolState, name: string) {
      && fallbackDatabase.Some?
      && (forall q :: DottedPrefix(q, name) && q in p.core.symbols.entries ==>
            p.core.symbols.entries[q].value.kind == Package)
      && name in fallbackDatabase.value.symbolFile
      && !HasFile(p, fallbackDatabase.value.symbolFile[name])
    }

    /** Looking the name up asks for nothing that the database would load a file for. */
    ghost predicate Silent(p: PoolState, name: string, relativeTo: string) {
      forall n :: Asks(name, relativeTo, n) ==> !MayDefine(p, n)
    }

    ghost predicate AllSilent(p: PoolState, refs: seq<Reference>) {
      forall i :: 0 <= i < |refs| ==> Silent(p, refs[i].name, refs[i].relativeTo)
    }

    ghost predicate FileSilent(p: PoolState, refs: seq<seq<Reference>>) {
      forall g :: 0 <= g < |refs| ==> AllSilent(p, refs[g])
    }

    /** Building the file in this pool asks for no symbol of another file that could be
        loaded then. */
    ghost predicate Silently(p: PoolState, proto: FileProto) {
      forall g, i, n :: 0 <= g < |References(proto)| && 0 <= i < |References(proto)[g]|
                        && Asks(References(proto)[g][i].name, References(proto)[g][i].relativeTo, n) ==>
                          !MayDefine(p, n) || fallbackDatabase.value.symbolFile[n] == proto.name
    }

    /** What has been loaded so far, if nothing beyond the imports was asked for. */
    ghost function Here(): Load
      reads this, tables
    {
      Load(ContentOf(Now()), knownBadFiles, true)
    }

    ghost predicate At(l: Load)
      reads this, tables
    {
      l.silent ==> Here() == l
    }

    /** Every file in the table has its package and its imports: so it is between calls, and
        while imports are loaded for a first file. */
    ghost predicate Sound()
      reads this, tables
    {
      Healthy(Now()) && Recorded(Now())
    }

    lemma SilentByContents(p: PoolState, proto: FileProto)
      requires Inv(p) && fallbackDatabase.Some?
      ensures Silently(p, proto) <==> AsksNothing(fallbackDatabase.value, ContentOf(p), proto)
    {
      hide Inv, ContentOf, Asks, References, KindTable, KindsKnown;
      FilesKnown(p);
      SymbolsKnown(p);
      assert forall n :: MayDefine(p, n) <==> Wanted(fallbackDatabase.value, ContentOf(p), n);
      hide MayDefine, Wanted;
    }

    /** The condition for a build in terms of names alone: no definition of scopes, meanings
        or packages stands in between. */
    ghost predicate CanBuild(p: PoolState, proto: FileProto)
      requires OperandsOwned(proto)
    {
      && proto.name !in p.core.files.entries
      && InOrder(p.core.files.entries.Keys, KindTable(p.core.symbols.entries), proto)
      && !failsOtherChecks(ContentOf(p), proto)
      && UsesOk(ExpectedKinds(p, proto), proto)
    }

    lemma BuildableMeans(p: PoolState, proto: FileProto)
      requires OperandsOwned(proto)
      ensures Buildable(p, proto) <==> CanBuild(p, proto)
    {
      hide FineAmong, InOrder, UsesOk, ReferencesOk, ExpectedKinds, ContentOf, References;
      FineMeans(p.core.files.entries.Keys, KindTable(p.core.symbols.entries), proto);
      ReferencesMean(ExpectedKinds(p, proto), proto);
    }

    /** What was copied back builds again where its original does, if the other checks do not
        tell them apart. */
    lemma CopyIsBuildable(p: PoolState, proto: FileProto, home: Kinds, rest: string)
      requires Agree(home, ExpectedKinds(p, proto), References(proto))
      requires failsOtherChecks(ContentOf(p), InFull(home, proto).(rest := rest)) == failsOtherChecks(ContentOf(p), proto)
      ensures Buildable(p, InFull(home, proto).(rest := rest)) <==> Buildable(p, proto)
    {
      hide Acceptable, ExpectedKinds, ContentOf, InFull, ReferencesOk, Agree;
      CopyBuildsAgain(p, proto, home, rest);
    }

    lemma SilentAlone(p: PoolState, proto: FileProto)
      requires fallbackDatabase.None?
      ensures Silently(p, proto)
    {
    }

    /** What makes a build succeed is told by the contents. */
    lemma BuildableByContents(p: PoolState, proto: FileProto)
      requires Inv(p) && Recorded(p)
      ensures Buildable(p, proto) <==> BuildableIn(ContentOf(p), failsOtherChecks, proto)
    {
      hide Inv, ContentOf, AcceptableTo, Acceptable, ExpectedKinds, KindsIn, ReferencesOk;
      AcceptableByContents(p, proto);
      ExpectedByContents(p, proto);
    }

    /** What the build of a file itself asks for, it does not load. */
    lemma StaysSilent(base: PoolState, p: PoolState, f: nat, proto: FileProto)
      requires Nested(base.core) && Building(base, p, f, proto.name) && Silently(base, proto)
      ensures FileSilent(p, References(proto))
    {
      BuildingGrown(base, p, f, proto.name);
      hide Inv, Asks, Extends, OthersOk, SameDescriptors;
      forall n | MayDefine(p, n)
        ensures MayDefine(base, n) && fallbackDatabase.value.symbolFile[n] != proto.name
      {
      }
      hide MayDefine;
    }

    method TryFindFileInFallbackDatabase(name: string) returns (found: bool)
      requires Valid() && !HasFile(Now(), name)
      modifies this, tables
      ensures Valid() && Loads(old(Now()), Now()) && old(knownBadFiles) <= knownBadFiles
      ensures found == HasFile(Now(), name)
      ensures fallbackDatabase.Some? && !found ==> name in knownBadFiles
      ensures found ==> fallbackDatabase.Some? && name in fallbackDatabase.value.files && name !in old(knownBadFiles)
      ensures old(fallbackDatabase.Some? && name in fallbackDatabase.value.files && name !in knownBadFiles
                  && name !in pendingFiles && Healthy(Now())) ==>
                Decided(old(Now()), Now(), fallbackDatabase.value.files[name], knownBadFiles, found)
      ensures name in old(pendingFiles) ==> Now() == old(Now())
      ensures AllFromDatabase(old(Now()), Now())
      ensures fallbackDatabase.Some? && old(Sound()) ==>
                At(TryFile(fallbackDatabase.value, failsOtherChecks, old(Here()), old(pendingFiles), name))
      decreases Left(), 6
    {
      hide Inv, Loads, Healthy, Buildable, ImportsLoaded, Build, ContentOf, Recorded, AllFromDatabase;
      LoadsRefl(Now());
      SameAllFromDatabase(Now());
      if fallbackDatabase.None? { return false; }
      if name in knownBadFiles { return false; }
      if name !in fallbackDatabase.value.files {
        knownBadFiles := knownBadFiles + {name};
        return false;
      }
      var built := BuildFileFromDatabase(fallbackDatabase.value.files[name]);
      if built.None? {
        knownBadFiles := knownBadFiles + {name};
        return false;
      }
      return true;
    }

    method BuildFileFromDatabase(proto: FileProto) returns (result: Option<nat>)
      requires Valid() && !HasFile(Now(), proto.name)
      requires fallbackDatabase.Some? && Given(proto)
      modifies this, tables
      ensures Valid() && Loads(old(Now()), Now()) && old(knownBadFiles) <= knownBadFiles
      ensures result.Some? == HasFile(Now(), proto.name)
      ensures result.Some? ==> result.value == FileNamed(Now(), proto.name)
      ensures result.Some? ==> proto.name !in old(knownBadFiles)
      ensures old(proto.name !in knownBadFiles && proto.name !in pendingFiles && Healthy(Now())) ==>
                Decided(old(Now()), Now(), proto, knownBadFiles, result.Some?)
      ensures proto.name in old(pendingFiles) ==> Now() == old(Now())
      ensures result.None? ==> proto.name in knownBadFiles
      ensures result.Some? ==> result.value in descriptors && descriptors[result.value].proto == proto
      ensures AllFromDatabase(old(Now()), Now())
      ensures old(Sound()) ==>
                At(TryFile(fallbackDatabase.value, failsOtherChecks, old(Here()), old(pendingFiles), proto.name))
      decreases Left(), 5
    {
      hide Inv, Advances, PackagesClosed, OnlyNewFiles, NewResolved, Healthy, Buildable, ImportsLoaded, Build, ContentOf,
           Recorded, AllFromDatabase;
      LoadsRefl(Now());
      SameAllFromDatabase(Now());
      if proto.name in knownBadFiles { return None; }
      var builder := new DescriptorBuilder(this);
      ghost var loaded;
      ghost var p0 := Now();
      result, loaded := builder.BuildFile(proto);
      LoadedFromDatabase(p0, loaded);
      LoadedFromDatabase(p0, Now());
      FilesKnown(Now());
      if result.None? {
        knownBadFiles := knownBadFiles + {proto.name};
      }
    }

    /** Whether some proper dotted prefix of the name is a known symbol other than a
        package; then the name's definition must be known too. */
    method IsSubSymbolOfBuiltType(name: string) returns (r: bool)
      ensures r == exists q :: DottedPrefix(q, name) && q in tables.symbolsByName
                               && tables.symbolsByName[q].value.kind != Package
    {
      var prefix := name;
      while true
        invariant prefix == name || DottedPrefix(prefix, name)
        invariant forall q :: DottedPrefix(q, name) && q in tables.symbolsByName
                              && tables.symbolsByName[q].value.kind != Package
                              ==> DottedPrefix(q, prefix)
        decreases |prefix|
      {
        var dot := LastDot(prefix);
        forall q | DottedPrefix(q, prefix)
          ensures dot >= 0 && (q == prefix[..dot] || DottedPrefix(q, prefix[..dot]))
        {
          PrefixOfEnclosing(q, prefix);
        }
        if dot < 0 { break; }
        assert DottedPrefix(prefix[..dot], name);
        prefix := prefix[..dot];
        if prefix in tables.symbolsByName && tables.symbolsByName[prefix].value.kind != Package {
          return true;
        }
      }
      return false;
    }

    /** Succeeds exactly if the file the database names is built by this call. */
    method TryFindSymbolInFallbackDatabase(name: string) returns (found: bool)
      requires Valid()
      modifies this, tables
      ensures Valid() && Loads(old(Now()), Now()) && old(knownBadFiles) <= knownBadFiles
      ensures !MayDefine(old(Now()), name) ==> Now() == old(Now()) && knownBadFiles == old(knownBadFiles)
      ensures found <==>
                && old(MayDefine(Now(), name) && name !in knownBadSymbols)
                && HasFile(Now(), fallbackDatabase.value.symbolFile[name])
      ensures old(MayDefine(Now(), name) && name !in knownBadSymbols && Healthy(Now())
                  && fallbackDatabase.value.symbolFile[name] !in knownBadFiles
                  && fallbackDatabase.value.symbolFile[name] !in pendingFiles) ==>
                var proto := fallbackDatabase.value.files[fallbackDatabase.value.symbolFile[name]];
                Decided(old(Now()), Now(), proto, knownBadFiles, found)
      ensures AllFromDatabase(old(Now()), Now())
      ensures old(MayDefine(Now(), name) && name !in knownBadSymbols && Sound()) ==>
                At(TryFile(fallbackDatabase.value, failsOtherChecks, old(Here()), old(pendingFiles),
                           fallbackDatabase.value.symbolFile[name]))
      ensures fallbackDatabase.Some? && !found ==> name in knownBadSymbols
      decreases Left(), 6
    {
      hide Inv, Loads, Healthy, Decided, ContentOf, Recorded, AllFromDatabase;
      LoadsRefl(Now());
      SameAllFromDatabase(Now());
      if fallbackDatabase.None? { return false; }
      if name in knownBadSymbols { return false; }
      var sub := IsSubSymbolOfBuiltType(name);
      if sub || name !in fallbackDatabase.value.symbolFile
         || fallbackDatabase.value.symbolFile[name] in tables.filesByName
      {
        knownBadSymbols := knownBadSymbols + {name};
        return false;
      }
      var fileName := fallbackDatabase.value.symbolFile[name];
      var built := BuildFileFromDatabase(fallbackDatabase.value.files[fileName]);
      if built.None? {
        knownBadSymbols := knownBadSymbols + {name};
        return false;
      }
      return true;
    }

    // ----------------------------------------------------------- public calls

    /** Between public calls. */
    ghost predicate Idle()
      reads this, tables
    {
      Valid() && Settled(Now())
    }

    method ForgetBadNames()
      modifies this`knownBadFiles, this`knownBadSymbols
      ensures knownBadFiles == {} && knownBadSymbols == {}
    {
      knownBadFiles, knownBadSymbols := {}, {};
    }

    /** What looking for a file between calls comes to. */
    ghost function LoadFile(p: PoolState, name: string): Load
      requires fallbackDatabase.Some? && fallbackDatabase.value.Valid()
    {
      TryFile(fallbackDatabase.value, failsOtherChecks, Load(ContentOf(p), {}, true), [], name)
    }

    /** The file of that name, loaded from the database if need be. */
    method FindFileByName(name: string) returns (r: Option<nat>)
      requires Idle()
      modifies this, tables
      ensures Idle() && Loads(old(Now()), Now())
      ensures r == PoolSpec.FindFile(Now(), name)
      ensures r == if name in tables.filesByName then Some(tables.filesByName[name].value) else None
      ensures r.Some? && !HasFile(old(Now()), name) ==>
                fallbackDatabase.Some? && name in fallbackDatabase.value.files
      ensures HasFile(old(Now()), name) ==> Now() == old(Now())
      ensures !HasFile(old(Now()), name) && fallbackDatabase.Some? && name in fallbackDatabase.value.files ==>
                var proto := fallbackDatabase.value.files[name];
                && Decided(old(Now()), Now(), proto, knownBadFiles, r.Some?)
                && (ImportsLoaded(old(Now()), proto) ==> (r.Some? <==> Buildable(old(Now()), proto)))
      ensures AllFromDatabase(old(Now()), Now())
      ensures fallbackDatabase.Some? && !HasFile(old(Now()), name) ==>
                var l := LoadFile(old(Now()), name);
                l.silent ==> ContentOf(Now()) == l.content && (r.Some? <==> name in l.content.files)
    {
      hide Inv, Advances, PackagesClosed, AllBuilt, AllResolved, Healthy, OnlyNewFiles, NewResolved, Buildable,
           ImportsLoaded, ContentOf, Recorded, AllFromDatabase, TryFile;
      ghost var p0 := Now();
      LoadsRefl(p0);
      SameAllFromDatabase(p0);
      SettledIsHealthy(p0);
      SettledIsRecorded(p0);
      ForgetBadNames();
      r := FindFile(name);
      if r.None? {
        var found := TryFindFileInFallbackDatabase(name);
        StaysSettled(p0, Now());
        FilesKnown(Now());
        if found { r := FindFile(name); }
      }
    }

    /** The symbol of that full name, its file loaded from the database if need be. */
    method FindByName(name: string) returns (r: Option<Symbol>)
      requires Idle()
      modifies this, tables
      ensures Idle() && Loads(old(Now()), Now())
      ensures r.Some? ==> name in tables.symbolsByName && r.value == tables.symbolsByName[name].value
      ensures name in old(tables.symbolsByName) ==> r == Some(old(tables.symbolsByName)[name].value)
      ensures name !in old(tables.symbolsByName) ==>
                (r.Some? <==> MayDefine(old(Now()), name) && HasFile(Now(), fallbackDatabase.value.symbolFile[name])
                              && name in tables.symbolsByName)
      ensures name !in old(tables.symbolsByName) && MayDefine(old(Now()), name) ==>
                var fileName := fallbackDatabase.value.symbolFile[name];
                Decided(old(Now()), Now(), fallbackDatabase.value.files[fileName], knownBadFiles, HasFile(Now(), fileName))
      ensures AllFromDatabase(old(Now()), Now())
      ensures name !in old(tables.symbolsByName) && MayDefine(old(Now()), name) ==>
                var fileName := fallbackDatabase.value.symbolFile[name];
                var l := LoadFile(old(Now()), fileName);
                l.silent ==>
                  && ContentOf(Now()) == l.content
                  && (r.Some? <==> fileName in l.content.files && name in l.content.symbols)
    {
      hide Inv, Advances, PackagesClosed, AllBuilt, Buildable, OnlyNewFiles, ContentOf, AllFromDatabase, Recorded,
           TryFile, Decided, Healthy, NewResolved, AllResolved;
      ghost var p0 := Now();
      LoadsRefl(p0);
      SameAllFromDatabase(p0);
      SettledIsHealthy(p0);
      SettledIsRecorded(p0);
      ForgetBadNames();
      r := FindSymbol(name);
      if r.None? {
        var found := TryFindSymbolInFallbackDatabase(name);
        StaysSettled(p0, Now());
        FilesKnown(Now());
        SymbolsKnown(Now());
        if found { r := FindSymbol(name); }
      }
    }

    /** Builds a file into a pool without a database.  It succeeds exactly if a file that is
        copied back as this very proto is already there, or none of its name is and its
        package, imports, declarations, references and other checks are in order in the pool
        as it is; otherwise the tables are as before. */
    method BuildFile(proto: FileProto) returns (result: Option<nat>)
      requires Idle() && fallbackDatabase.None?
      modifies this, tables
      ensures Idle() && Loads(old(Now()), Now())
      ensures result.None? ==> tables.Contents() == old(tables.Contents())
      ensures result.Some? ==> result == PoolSpec.FindFile(Now(), proto.name)
                               && result.value in descriptors && Built(Now(), result.value)
      ensures HasFile(old(Now()), proto.name) ==> (result.Some? <==> Matches(old(Now()), proto, copyRest))
      ensures !HasFile(old(Now()), proto.name) ==>
                && (result.Some? <==> Buildable(old(Now()), proto))
                && (result.Some? ==> descriptors[result.value].proto == proto)
                && (result.Some? ==> ContentOf(Now()) == WithFile(ContentOf(old(Now())), proto))
      ensures !HasFile(old(Now()), proto.name) && OperandsOwned(proto) ==>
                && (result.Some? <==> CanBuild(old(Now()), proto))
                && (result.Some? ==>
                      result.value in links
                      && LinksStandFor(ExpectedKinds(old(Now()), proto), proto, links[result.value]))
    {
      hide Inv, Advances, PackagesClosed, AllBuilt, Acceptable, ReferencesOk, ExpectedKinds, Built, ContentOf, WithFile,
           CanBuild, LinksStandFor, UsesOk, InOrder, AllLinksMeant, View, KindsOf, References;
      ghost var p0 := Now();
      SettledIsHealthy(p0);
      ForgetBadNames();
      if OperandsOwned(proto) { BuildableMeans(p0, proto); }
      var builder := new DescriptorBuilder(this);
      ghost var loaded;
      result, loaded := builder.BuildFile(proto);
      StaysSettled(p0, Now());
      if !HasFile(p0, proto.name) && result.Some? && OperandsOwned(proto) {
        ViewNamed(Now(), builder.file, builder.dependencies);
        LinksMean(View(Now(), builder.file, builder.dependencies), proto, builder.links);
      }
      if HasFile(p0, proto.name) && result.Some? { StillBuilt(p0, Now(), proto.name); }
    }
  }

  class DescriptorBuilder {
    const pool: DescriptorPool
    var hadErrors: bool
    var file: nat
    var dependencies: set<nat>
    var symbolsByParent: map<(Parent, string), Symbol>
    var links: Links
    var reportedImpossible: bool

    constructor (pool: DescriptorPool)
      ensures this.pool == pool && !hadErrors && !reportedImpossible
    {
      this.pool := pool;
      hadErrors := false;
      dependencies := {};
      symbolsByParent := map[];
      links := [];
      reportedImpossible := false;
    }

    /** The builder points only at descriptors of the pool, its own file among those in
        the table. */
    ghost predicate Ready()
      reads this, pool, pool.tables
    {
      pool.Valid() && InTable(pool.Now(), file) && dependencies <= pool.descriptors.Keys
    }

    // ----------------------------------------------------------- looking up

    method FindSymbolNotEnforcingDeps(name: string) returns (r: Option<Symbol>)
      requires pool.Valid()
      modifies pool, pool.tables
      ensures pool.Valid() && Loads(old(pool.Now()), pool.Now())
      ensures r.Some? ==> name in pool.tables.symbolsByName && pool.tables.symbolsByName[name].value == r.value
      ensures name in old(pool.tables.symbolsByName) ==>
                pool.Now() == old(pool.Now()) && r == Some(old(pool.tables.symbolsByName)[name].value)
      ensures name !in old(pool.tables.symbolsByName) ==>
                (r.Some? <==> old(pool.MayDefine(pool.Now(), name) && name !in pool.knownBadSymbols)
                              && HasFile(pool.Now(), pool.fallbackDatabase.value.symbolFile[name])
                              && name in pool.tables.symbolsByName)
      ensures old(pool.knownBadFiles) <= pool.knownBadFiles
      ensures !pool.MayDefine(old(pool.Now()), name) ==>
                pool.Now() == old(pool.Now()) && pool.knownBadFiles == old(pool.knownBadFiles)
      decreases pool.Left(), 7
    {
      LoadsRefl(pool.Now());
      r := pool.FindSymbol(name);
      if r.None? {
        var found := pool.TryFindSymbolInFallbackDatabase(name);
        if found {
          r := pool.FindSymbol(name);
        }
      }
    }

    method IsInPackage(f: nat, name: string) returns (r: bool)
      requires f in pool.descriptors
      ensures r == InPackage(pool.descriptors[f].proto.package, name)
      ensures r == Around(name, pool.descriptors[f].proto.package)
    {
      PrefixMeans(name, pool.descriptors[f].proto.package);
      var package := pool.descriptors[f].proto.package;
      r := |name| <= |package| && package[..|name|] == name && (|package| == |name| || package[|name|] == '.');
    }

    method SomeDependencyInPackage(name: string) returns (r: bool)
      requires dependencies <= pool.descriptors.Keys
      ensures r == exists d :: d in dependencies && InPackage(pool.descriptors[d].proto.package, name)
      ensures r == exists d :: d in dependencies && Around(name, pool.descriptors[d].proto.package)
    {
      hide InPackage, Around;
      var rest := dependencies;
      while rest != {}
        invariant rest <= dependencies
        invariant forall d :: d in dependencies - rest ==> !InPackage(pool.descriptors[d].proto.package, name)
        invariant forall d :: d in dependencies - rest ==> !Around(name, pool.descriptors[d].proto.package)
        decreases rest
      {
        var d :| d in rest;
        r := IsInPackage(d, name);
        if r { return; }
        rest := rest - {d};
      }
      r := false;
    }

    /** What the build sees does not depend on what is loaded while it looks. */
    method FindSymbol(name: string) returns (r: Option<Symbol>)
      requires Ready()
      modifies pool, pool.tables
      ensures Ready() && Loads(old(pool.Now()), pool.Now())
      ensures r.Some? ==> Seen(pool.Now(), file, dependencies, name, r.value)
      ensures SeesEnough(old(pool.Now()), file, dependencies) ==>
                r == Find(View(old(pool.Now()), file, dependencies), name)
      ensures name in old(pool.tables.symbolsByName) ==>
                var s := old(pool.tables.symbolsByName)[name].value;
                r == if s.file == file || s.file in dependencies ||
                        (s.kind == Package && exists d :: (d == file || d in dependencies)
                                                          && Around(name, old(pool.descriptors)[d].proto.package))
                     then Some(s) else None
      ensures old(pool.knownBadFiles) <= pool.knownBadFiles
      ensures !pool.MayDefine(old(pool.Now()), name) ==>
                pool.Now() == old(pool.Now()) && pool.knownBadFiles == old(pool.knownBadFiles)
      decreases pool.Left(), 8
    {
      hide Inv, Advances, PackagesClosed, DescriptorsOk, SeesEnough, OnlyNewFiles, InPackage, NewResolved, Healthy, Around, pool.MayDefine, SameDescriptors, NewFileOk;
      InvParts(pool.Now());
      ghost var p0 := pool.Now();
      r := FindSymbolNotEnforcingDeps(name);
      ghost var p := pool.Now();
      StillReady(p0, p, file, dependencies);
      if SeesEnough(p0, file, dependencies) { ViewStable(p0, p, file, dependencies); }
      if r.None? { return; }
      if r.value.file == file || r.value.file in dependencies { return; }
      if r.value.kind == Package {
        var inPackage := IsInPackage(file, name);
        if inPackage { return; }
        inPackage := SomeDependencyInPackage(name);
        if inPackage { return; }
      }
      r := None;
    }

    /** One round of the search: look for the first part of the name in `scope`, and if
        that settles it, for the whole name. */
    method LookupInScope(scope: string, name: string, mode: ResolveMode) returns (settled: bool, r: Option<Symbol>)
      requires Ready()
      modifies pool, pool.tables
      ensures Ready() && Loads(old(pool.Now()), pool.Now())
      ensures settled && r.Some? ==> Seen(pool.Now(), file, dependencies, scope + "." + name, r.value)
      ensures SeesEnough(old(pool.Now()), file, dependencies) ==>
                var view := View(old(pool.Now()), file, dependencies);
                settled == Settles(KindsOf(view), scope, name, mode) && (settled ==> r == Find(view, scope + "." + name))
      ensures old(pool.knownBadFiles) <= pool.knownBadFiles
      ensures !pool.MayDefine(old(pool.Now()), scope + "." + FirstPart(name))
              && !pool.MayDefine(old(pool.Now()), scope + "." + name) ==>
                pool.Now() == old(pool.Now()) && pool.knownBadFiles == old(pool.knownBadFiles)
      decreases pool.Left(), 9
    {
      hide Inv, Advances, PackagesClosed, View, DescriptorsOk, SeesEnough, MayUse, OnlyNewFiles, NewResolved,
           Healthy, pool.MayDefine, DescriptorPool.Now, Tables.Contents;
      InvParts(pool.Now());
      ghost var p0 := pool.Now();
      var firstPartOfName := FirstPart(name);
      var scopeToTry := scope + "." + firstPartOfName;
      r := FindSymbol(scopeToTry);
      settled := false;
      if r.Some? {
        if |firstPartOfName| < |name| {
          if IsAggregate(r.value.kind) {
            ghost var p1, head := pool.Now(), r;
            UnloadedShrinks(p0, p1);
            scopeToTry := scopeToTry + name[|firstPartOfName|..];
            assert scopeToTry == scope + "." + name;
            r := FindSymbol(scopeToTry);
            LookedUp(p0, p1, pool.Now(), file, dependencies);
            settled := true;
          }
        } else if mode.LookupTypes? ==> IsType(r.value.kind) {
          settled := true;
        }
      }
    }

    method LookupSymbolNoPlaceholder(name: string, relativeTo: string, mode: ResolveMode) returns (r: Option<Symbol>)
      requires Ready()
      modifies pool, pool.tables
      ensures Ready() && Loads(old(pool.Now()), pool.Now())
      ensures r.Some? ==> SeenAs(pool.Now(), file, dependencies, name, relativeTo, r.value)
      ensures SeesEnough(old(pool.Now()), file, dependencies) ==>
                var view := View(old(pool.Now()), file, dependencies);
                r == Find(view, Meaning(KindsOf(view), name, relativeTo, mode))
      ensures old(pool.knownBadFiles) <= pool.knownBadFiles
      ensures pool.Silent(old(pool.Now()), name, relativeTo) ==>
                pool.Now() == old(pool.Now()) && pool.knownBadFiles == old(pool.knownBadFiles)
      decreases pool.Left(), 10
    {
      hide Inv, Advances, PackagesClosed, View, Settles, Components, Scope, DotFree, DescriptorsOk, SeesEnough,
           Seen, KindsOf, OnlyNewFiles, NewResolved, Healthy, DescriptorPool.Now, Tables.Contents,
           pool.MayDefine;
      InvParts(pool.Now());
      ghost var p0 := pool.Now();
      if name != "" && name[0] == '.' {
        r := FindSymbol(name[1..]);
        return;
      }
      var scopeToTry := relativeTo;
      ghost var components := Components(relativeTo);
      ghost var kinds := KindsOf(View(p0, file, dependencies));
      ghost var k := |components|;
      WholeScope(relativeTo);
      LoadsRefl(p0);
      while true
        invariant Ready() && Loads(p0, pool.Now())
        invariant 1 <= k <= |components| && scopeToTry == Scope(components, k)
        invariant old(pool.knownBadFiles) <= pool.knownBadFiles
        invariant pool.Silent(p0, name, relativeTo) ==>
                    pool.Now() == p0 && pool.knownBadFiles == old(pool.knownBadFiles)
        invariant SeesEnough(p0, file, dependencies) ==>
                    Meaning(kinds, name, relativeTo, mode) == Target(kinds, components, k, name, mode)
        decreases k
      {
        ghost var p1 := pool.Now();
        UnloadedShrinks(p0, p1);
        ScopeChop(components, k);
        var dot := LastDot(scopeToTry);
        if dot < 0 {
          r := FindSymbol(name);
          LookedUp(p0, p1, pool.Now(), file, dependencies);
          return;
        }
        k := k - 1;
        scopeToTry := scopeToTry[..dot];
        AsksInScope(name, relativeTo, k);
        var settled;
        settled, r := LookupInScope(scopeToTry, name, mode);
        LookedUp(p0, p1, pool.Now(), file, dependencies);
        if settled {
          assert ScopedAt(components, k, name, scopeToTry + "." + name);
          return;
        }
      }
    }

    // ----------------------------------------------------------- dependencies

    /** Adds to dependencies_ every file that f reaches by public imports through files
        not yet in it. */
    method RecordPublicDependencies(f: Option<nat>)
      requires DescriptorsOk(pool.Now()) && dependencies <= pool.descriptors.Keys
      requires f.Some? ==> f.value in pool.descriptors
      modifies this`dependencies
      ensures old(dependencies) <= dependencies <= pool.descriptors.Keys
      ensures f.None? ==> dependencies == old(dependencies)
      ensures f.Some? ==> f.value in dependencies
      ensures f.Some? ==> forall g :: g in dependencies - old(dependencies) ==> Reaches(pool.descriptors, f.value, g)
      ensures Closed(pool.descriptors, dependencies - old(dependencies), dependencies)
      decreases pool.descriptors.Keys - dependencies
    {
      if f.None? || f.value in dependencies { return; }
      ghost var ds := pool.descriptors;
      ReachesSelf(ds, f.value);
      dependencies := dependencies + {f.value};
      var d := pool.descriptors[f.value];
      assert DescriptorOk(pool.Now(), f.value);
      assert forall j :: 0 <= j < |d.publicImports| ==> d.publicImports[j] in d.publicImports;
      var i := 0;
      while i < |d.publicImports|
        invariant i <= |d.publicImports|
        invariant forall j :: 0 <= j < |d.publicImports| ==> d.publicImports[j] < |d.imports|
        invariant old(dependencies) + {f.value} <= dependencies <= ds.Keys
        invariant forall g :: g in dependencies - old(dependencies) ==> Reaches(ds, f.value, g)
        invariant Closed(ds, dependencies - old(dependencies) - {f.value}, dependencies)
        invariant forall j :: 0 <= j < i && d.imports[d.publicImports[j]].Some? ==>
                    d.imports[d.publicImports[j]].value in dependencies
      {
        assert d.publicImports[i] in d.publicImports;
        var g := d.imports[d.publicImports[i]];
        assert g in d.imports;
        ghost var before := dependencies;
        RecordPublicDependencies(g);
        if g.Some? {
          assert PublicImport(ds, f.value, g.value);
          forall h | h in dependencies - before ensures Reaches(ds, f.value, h) {
            ReachesStep(ds, f.value, g.value, h);
          }
        }
        i := i + 1;
      }
    }

    /** dependencies_ becomes exactly what the imports reach by public imports. */
    method RecordDependencies(imports: seq<Option<nat>>)
      requires DescriptorsOk(pool.Now())
      requires forall g :: Some(g) in imports ==> g in pool.descriptors
      modifies this`dependencies
      ensures dependencies <= pool.descriptors.Keys
      ensures Reached(pool.descriptors, imports, dependencies)
    {
      ghost var ds := pool.descriptors;
      dependencies := {};
      var i := 0;
      while i < |imports|
        invariant i <= |imports| && dependencies <= ds.Keys
        invariant Closed(ds, dependencies, dependencies)
        invariant forall j :: 0 <= j < i && imports[j].Some? ==> imports[j].value in dependencies
        invariant forall g :: g in dependencies ==> exists f :: Some(f) in imports && Reaches(ds, f, g)
      {
        assert imports[i] in imports;
        RecordPublicDependencies(imports[i]);
        i := i + 1;
      }
      forall f, g | Some(f) in imports && Reaches(ds, f, g) ensures g in dependencies {
        ClosedContainsReach(ds, dependencies, f, g);
      }
    }

    // ----------------------------------------------------------- adding symbols

    method AddPackage(name: PoolString)
      requires pool.Valid() && name in pool.tables.strings && InTable(pool.Now(), file)
      modifies this`hadErrors, pool`nextAddress, pool.tables
      ensures pool.Valid() && Advances(old(pool.Now()), pool.Now()) && SameFiles(old(pool.Now()), pool.Now())
      ensures hadErrors == (old(hadErrors) || PackageError(KindTable(old(pool.tables.symbolsByName)), name.id))
      ensures !hadErrors ==> IsPackage(pool.Now(), name.id)
      ensures !hadErrors && OrphansOnly(old(pool.Now()), name.id) ==>
                PackageComplete(old(pool.Now()), pool.Now(), name.id)
      ensures PackagesAdded(old(pool.Now()), pool.Now(), file, name.id)
      ensures !hadErrors ==> NamesGiven(old(pool.Now()), pool.Now())
      decreases |name.id|, 1
    {
      hide Inv, Advances, PackagesClosed, OrphansOnly, HasDot, Enclosing, LastComponent, ValidIdentifier,
           InTable, PackageError;
      ghost var p0 := pool.Now();
      PackageErrorStep(p0.core.symbols.entries, name.id);
      ghost var e := Entry(name, Symbol(Package, file, file, name.id));
      var added := pool.InsertSymbol(name, Symbol(Package, file, file, name.id));
      ghost var p1 := pool.Now();
      InTableStable(p0, p1, file);
      if added {
        if OrphansOnly(p0, name.id) { PackageAdded(p0, p1, name.id, e); }
        if ValidIdentifier(LastComponent(name.id)) { NameGiven(p0, p1, name.id, e); }
        if HasDot(name.id) {
          EnclosingIsPrefix(name.id);
          KindEntered(p0.core.symbols.entries, name.id, e);
          LongerNameIrrelevant(KindTable(p0.core.symbols.entries), name.id, Package, Enclosing(name.id));
          AddParentPackage(name.id);
          AdvancesTrans(p0, p1, pool.Now());
          PackageStays(p1, pool.Now(), name.id);
          AddedTrans(p0, p1, pool.Now(), file, name.id);
        }
        if !ValidIdentifier(LastComponent(name.id)) { hadErrors := true; }
      } else {
        assert SameSymbols(p0, p1);
        var existing := pool.FindSymbol(name.id);
        if existing.value.kind != Package {
          hadErrors := true;
        } else {
          assert IsPackage(p0, name.id);
          if OrphansOnly(p0, name.id) { OrphansNone(p0, p1, name.id); }
        }
      }
    }

    method AddParentPackage(name: string)
      requires pool.Valid() && InTable(pool.Now(), file) && HasDot(name)
      modifies this`hadErrors, pool`nextAddress, pool.tables
      ensures pool.Valid() && Advances(old(pool.Now()), pool.Now()) && SameFiles(old(pool.Now()), pool.Now())
      ensures hadErrors == (old(hadErrors) || PackageError(KindTable(old(pool.tables.symbolsByName)), Enclosing(name)))
      ensures !hadErrors && OrphansOnly(old(pool.Now()), Enclosing(name)) ==>
                PackageComplete(old(pool.Now()), pool.Now(), Enclosing(name))
      ensures PackagesAdded(old(pool.Now()), pool.Now(), file, Enclosing(name))
      ensures !hadErrors ==> NamesGiven(old(pool.Now()), pool.Now())
      decreases |name|, 0
    {
      hide Inv, Advances, PackagesClosed, OrphansOnly, InTable, PackageError;
      ghost var p1 := pool.Now();
      var parentName := pool.NewString(Enclosing(name));
      ghost var p2 := pool.Now();
      if OrphansOnly(p1, parentName.id) { OrphansStable(p1, p2, parentName.id); }
      InTableStable(p1, p2, file);
      AddPackage(parentName);
      AdvancesTrans(p1, p2, pool.Now());
    }

    ghost function Index(): Registry
      reads this, pool, pool.tables
    {
      Registry(pool.tables.symbolsByName, symbolsByParent)
    }

    method AddSymbol(fullName: PoolString, d: Declaration, symbol: Symbol) returns (added: bool)
      requires pool.Valid() && fullName in pool.tables.strings && fullName.id == d.fullName
      requires InTable(pool.Now(), symbol.file) && symbol.kind != Package && symbol.fullName == d.fullName
      modifies this`hadErrors, this`symbolsByParent, this`reportedImpossible, pool.tables
      ensures pool.Valid() && Progress(old(pool.Now()), pool.Now()) && SameFiles(old(pool.Now()), pool.Now())
      ensures Index() == AddToBoth(old(Index()), d, fullName, symbol).0
      ensures var outcome := AddToBoth(old(Index()), d, fullName, symbol).1;
              && added == outcome.Added?
              && hadErrors == (old(hadErrors) || outcome.AlreadyDefined?)
              && reportedImpossible == (old(reportedImpossible) || outcome.IndexesDisagree?)
    {
      hide Inv, Progress, Advances;
      added := pool.InsertSymbol(fullName, symbol);
      if added {
        if (d.parent, d.name) in symbolsByParent {
          reportedImpossible := true;
          return false;
        }
        symbolsByParent := symbolsByParent[(d.parent, d.name) := symbol];
      } else {
        hadErrors := true;
      }
    }

    /** An enum value is also entered under its own enum, where it is not yet listed. */
    method EnterInEnum(d: Declaration, s: Symbol, addedToOuterScope: bool)
      modifies this`hadErrors, this`symbolsByParent
      ensures symbolsByParent == AddAliases(old(symbolsByParent), d, s)
      ensures hadErrors == (old(hadErrors) || (!addedToOuterScope && AliasIsNew(old(symbolsByParent), d)))
    {
      if d.alias == [] { return; }
      var addedToInnerScope := (d.alias[0], d.name) !in symbolsByParent;
      if addedToInnerScope {
        symbolsByParent := symbolsByParent[(d.alias[0], d.name) := s];
        if !addedToOuterScope { hadErrors := true; }
      }
    }

    /** Builds one declared thing and registers it. An enum value that its enum lists but
        the scope around it refuses is reported once more. */
    method Declare(d: Declaration) returns (ghost key: PoolString, ghost symbol: Symbol)
      requires pool.Valid() && InTable(pool.Now(), file) && WellNamed(d)
      modifies this`hadErrors, this`symbolsByParent, this`reportedImpossible, pool`nextAddress, pool.tables
      ensures pool.Valid() && Progress(old(pool.Now()), pool.Now()) && SameFiles(old(pool.Now()), pool.Now())
      ensures symbol.kind == d.kind && symbol.file == file
      ensures Index() == Register(old(Index()), d, key, symbol).0
      ensures var outcome := Register(old(Index()), d, key, symbol).1;
              && hadErrors == (old(hadErrors) || !ValidIdentifier(d.name) || outcome.AlreadyDefined?
                               || (outcome.IndexesDisagree? && AliasIsNew(old(symbolsByParent), d)))
              && reportedImpossible == (old(reportedImpossible) || outcome.IndexesDisagree?)
      ensures d.alias != [] ==>
                && (d.alias[0], d.name) in symbolsByParent
                && ((d.alias[0], d.name) !in old(symbolsByParent) && (d.alias[0], d.name) != (d.parent, d.name) ==>
                      symbolsByParent[(d.alias[0], d.name)] == symbol)
    {
      hide Inv, Advances, PackagesClosed, ValidIdentifier, Grows, SameDescriptors, NewFileOk;
      ghost var p0 := pool.Now();
      var descriptor := pool.NewAddress();
      ghost var p' := pool.Now();
      var fullName := pool.NewString(d.fullName);
      ghost var p1 := pool.Now();
      ProgressTrans(p0, p', p1);
      var s := Symbol(d.kind, descriptor, file, d.fullName);
      if !ValidIdentifier(d.name) { hadErrors := true; }
      var addedToOuterScope := AddSymbol(fullName, d, s);
      ProgressTrans(p0, p1, pool.Now());
      EnterInEnum(d, s, addedToOuterScope);
      key, symbol := fullName, s;
    }

    /** The "convert children" part of a build, over the declarations in order. */
    method DeclareSymbols(ds: seq<Declaration>)
      requires pool.Valid() && InTable(pool.Now(), file) && symbolsByParent == map[]
      requires AllWellNamed(ds) && UnnamedShows(ds)
      modifies this`hadErrors, this`symbolsByParent, this`reportedImpossible, pool`nextAddress, pool.tables
      ensures pool.Valid() && Progress(old(pool.Now()), pool.Now()) && SameFiles(old(pool.Now()), pool.Now())
      ensures hadErrors == (old(hadErrors) || SomeClash(old(pool.tables.symbolsByName).Keys, ds, |ds|))
      ensures !hadErrors ==> AllDeclared(pool.Now(), file, ds) && AllFoundTwice(Index(), ds)
      ensures reportedImpossible ==
                (old(reportedImpossible) || SomeDisagree(old(pool.tables.symbolsByName).Keys, ds, |ds|))
      ensures pool.tables.symbolsByName.Keys == old(pool.tables.symbolsByName).Keys + NamesOf(ds)
      ensures SymbolsFor(old(pool.Now()), pool.Now(), file)
      ensures forall d :: d in ds && d.alias != [] ==> (d.alias[0], d.name) in symbolsByParent
    {
      hide Inv, Advances, PackagesClosed, Register, WellNamed, Progress, FoundTwice, SomeClash, SomeDisagree,
           KeysListed, NamedBefore, SymbolsFor;
      ghost var p0 := pool.Now();
      ghost var taken := p0.core.symbols.entries.Keys;
      NothingDeclared(p0, ds);
      var i := 0;
      while i < |ds|
        invariant i <= |ds|
        invariant pool.Valid() && InTable(pool.Now(), file) && KeysListed(symbolsByParent, taken, ds, i)
        invariant Progress(p0, pool.Now()) && SameFiles(p0, pool.Now())
        invariant forall n :: n in pool.tables.symbolsByName <==> n in taken || NamedBefore(ds, i, n)
        invariant old(hadErrors) || SomeClash(taken, ds, i) ==> hadErrors
        invariant hadErrors ==> old(hadErrors) || SomeClash(taken, ds, i) || SomeDisagree(taken, ds, i)
        invariant !hadErrors ==> forall j :: 0 <= j < i ==> Declared(pool.Now(), file, ds[j])
        invariant !hadErrors && !SomeDisagree(taken, ds, i) ==> forall j :: 0 <= j < i ==> FoundTwice(Index(), ds[j])
        invariant reportedImpossible == (old(reportedImpossible) || SomeDisagree(taken, ds, i))
        invariant SymbolsFor(p0, pool.Now(), file)
        invariant forall j :: 0 <= j < i && ds[j].alias != [] ==> (ds[j].alias[0], ds[j].name) in symbolsByParent
      {
        ghost var p, r := pool.Now(), Index();
        ghost var key, symbol := Declare(ds[i]);
        assert ds[i] in ds;
        DeclaredStep(taken, ds, i, r, key, symbol);
        SymbolFor(p0, p, pool.Now(), file, ds[i], key, symbol, r);
        NoneForgotten(r, ds[i], key, symbol);
        ProgressTrans(p0, p, pool.Now());
        i := i + 1;
      }
      NamesAll(ds);
      if SomeDisagree(taken, ds, |ds|) { DisagreeClashes(taken, ds); }
      assert !hadErrors ==> forall d :: d in ds ==> Declared(pool.Now(), file, d);
    }

    // ----------------------------------------------------------- imports

    method CollectImports(proto: FileProto) returns (imports: seq<Option<nat>>)
      modifies this`hadErrors
      ensures |imports| == |proto.dependency|
      ensures forall j :: 0 <= j < |imports| ==> imports[j] == PoolSpec.FindFile(pool.Now(), proto.dependency[j])
      ensures hadErrors == (old(hadErrors) || exists j :: 0 <= j < |imports| && BadImport(pool.Now(), proto, j))
    {
      ghost var p := pool.Now();
      var seenDependencies: set<string> := {};
      imports := [];
      while |imports| < |proto.dependency|
        invariant |imports| <= |proto.dependency|
        invariant forall n :: n in seenDependencies <==> exists j :: 0 <= j < |imports| && proto.dependency[j] == n
        invariant forall j :: 0 <= j < |imports| ==> imports[j] == PoolSpec.FindFile(p, proto.dependency[j])
        invariant hadErrors == (old(hadErrors) || exists j :: 0 <= j < |imports| && BadImport(p, proto, j))
      {
        var name := proto.dependency[|imports|];
        assert BadImport(p, proto, |imports|) <==> name in seenDependencies || !HasFile(p, name);
        if name in seenDependencies { hadErrors := true; }
        seenDependencies := seenDependencies + {name};
        var dependency := pool.FindFile(name);
        if dependency.None? { hadErrors := true; }
        imports := imports + [dependency];
      }
    }

    method CollectPublicImports(proto: FileProto) returns (publicImports: seq<nat>)
      modifies this`hadErrors
      ensures forall k :: k in publicImports ==> k < |proto.dependency|
      ensures hadErrors == (old(hadErrors) || BadPublicImport(proto, |proto.publicDependency|))
      ensures !hadErrors ==> publicImports == proto.publicDependency
    {
      publicImports := [];
      var i := 0;
      while i < |proto.publicDependency|
        invariant i <= |proto.publicDependency|
        invariant forall k :: k in publicImports ==> k < |proto.dependency|
        invariant hadErrors == (old(hadErrors) || BadPublicImport(proto, i))
        invariant !hadErrors ==> publicImports == proto.publicDependency[..i]
      {
        // Only valid indexes are recorded.
        var index := proto.publicDependency[i];
        if 0 <= index < |proto.dependency| {
          publicImports := publicImports + [index];
        } else {
          hadErrors := true;
        }
        i := i + 1;
      }
    }

    /** Looks the imports up in the file table and checks the public ones, then stores
        both in the descriptor. */
    method ResolveDependencies(proto: FileProto, ghost base: PoolState)
      requires Nested(base.core) && DescriptorsOk(base) && Building(base, pool.Now(), file, proto.name)
      requires pool.descriptors[file].proto == proto
      requires forall g :: g in pool.descriptors ==> g <= file
      requires forall n :: HasFile(pool.Now(), n) && !HasFile(base, n) ==> n == proto.name
      modifies this`hadErrors, pool`descriptors
      ensures Building(base, pool.Now(), file, proto.name) && pool.descriptors[file].proto == proto
      ensures pool.Now() == old(pool.Now()).(descriptors := pool.descriptors)
      ensures hadErrors == (old(hadErrors) || ImportErrors(old(pool.Now()), proto))
      ensures !hadErrors ==> ImportsRecorded(pool.Now(), file)
    {
      hide Inv, Grows, SameDescriptors, OthersOk;
      ghost var p := pool.Now();
      var imports := CollectImports(proto);
      var publicImports := CollectPublicImports(proto);
      var d := FileDescriptor(proto, imports, publicImports);
      FoundInTable(p, proto, imports);
      ImportsSet(base, p, file, proto.name, d);
      if !hadErrors { NoErrorsRecorded(p, proto, file, d); }
      pool.descriptors := pool.descriptors[file := d];
      assert pool.Now() == p.(descriptors := p.descriptors[file := d]);
    }

    // ----------------------------------------------------------- cross-linking

    /** The names one field or method operand needs; the first failure ends it. */
    method CrossLinkField(refs: seq<Reference>) returns (ok: bool, linked: seq<Symbol>)
      requires Ready()
      modifies pool, pool.tables
      ensures Ready() && Loads(old(pool.Now()), pool.Now())
      ensures ok ==> LinksOk(pool.Now(), file, dependencies, refs, linked)
      ensures SeesEnough(old(pool.Now()), file, dependencies) ==>
                var view := View(old(pool.Now()), file, dependencies);
                && (ok <==> forall i :: 0 <= i < |refs| ==> ReferenceOk(KindsOf(view), refs[i]))
                && (ok ==> LinksMeant(view, refs, linked))
      ensures old(pool.knownBadFiles) <= pool.knownBadFiles
      ensures pool.AllSilent(old(pool.Now()), refs) ==>
                pool.Now() == old(pool.Now()) && pool.knownBadFiles == old(pool.knownBadFiles)
      decreases pool.Left(), 11
    {
      hide Inv, Advances, PackagesClosed, View, Meaning, Seen, SeenAs, ReferenceOk, DescriptorsOk, SeesEnough,
           KindsOf, OnlyNewFiles, NewResolved, Healthy, pool.Silent, DescriptorPool.Now, Tables.Contents;
      InvParts(pool.Now());
      ghost var p0 := pool.Now();
      ghost var view := View(p0, file, dependencies);
      LoadsRefl(p0);
      linked := [];
      while |linked| < |refs|
        invariant |linked| <= |refs|
        invariant Ready() && Loads(p0, pool.Now())
        invariant LinksOk(pool.Now(), file, dependencies, refs[..|linked|], linked)
        invariant old(pool.knownBadFiles) <= pool.knownBadFiles
        invariant pool.AllSilent(p0, refs) ==> pool.Now() == p0 && pool.knownBadFiles == old(pool.knownBadFiles)
        invariant SeesEnough(p0, file, dependencies) ==>
                    forall i :: 0 <= i < |linked| ==> ReferenceOk(KindsOf(view), refs[i]) && LinkMeant(view, refs[i], linked[i])
      {
        ghost var p := pool.Now();
        UnloadedShrinks(p0, p);
        var ref := refs[|linked|];
        var r := LookupSymbolNoPlaceholder(ref.name, ref.relativeTo, ref.mode);
        LookedUp(p0, p, pool.Now(), file, dependencies);
        if SeesEnough(p0, file, dependencies) { ReferenceDecided(view, ref, r); }
        if r.None? || r.value.kind !in ref.accepts {
          return false, linked;
        }
        LinksStable(p, pool.Now(), file, dependencies, refs[..|linked|], linked);
        assert LinkOk(pool.Now(), file, dependencies, ref, r.value);
        linked := linked + [r.value];
      }
      assert refs[..|refs|] == refs;
      ok := true;
    }

    method CrossLinkFile(references: seq<seq<Reference>>)
      requires Ready()
      modifies this`hadErrors, this`links, pool, pool.tables
      ensures Ready() && Loads(old(pool.Now()), pool.Now())
      ensures old(hadErrors) ==> hadErrors
      ensures !hadErrors ==> AllLinksOk(pool.Now(), file, dependencies, references, links)
      ensures SeesEnough(old(pool.Now()), file, dependencies) ==>
                var view := View(old(pool.Now()), file, dependencies);
                && hadErrors == (old(hadErrors) || !ReferencesOk(KindsOf(view), references))
                && (!hadErrors ==> AllLinksMeant(view, references, links))
      ensures old(pool.knownBadFiles) <= pool.knownBadFiles
      ensures pool.FileSilent(old(pool.Now()), references) ==>
                pool.Now() == old(pool.Now()) && pool.knownBadFiles == old(pool.knownBadFiles)
      decreases pool.Left(), 12
    {
      hide Inv, Advances, PackagesClosed, AllLinksOk, AllLinksMeant, LinksMeant, ReferencesOk, ReferenceOk,
           View, DescriptorsOk, SeesEnough, KindsOf, OnlyNewFiles, pool.AllSilent, NewResolved, Healthy,
           DescriptorPool.Now, Tables.Contents;
      InvParts(pool.Now());
      assert this as object != pool && this as object != pool.tables;
      ghost var p0 := pool.Now();
      ghost var view := View(p0, file, dependencies);
      LoadsRefl(p0);
      NoReferences(p0, file, dependencies, references);
      var done := [];
      while |done| < |references|
        invariant |done| <= |references|
        invariant Ready() && Loads(p0, pool.Now())
        invariant old(hadErrors) ==> hadErrors
        invariant old(pool.knownBadFiles) <= pool.knownBadFiles
        invariant pool.FileSilent(p0, references) ==>
                    pool.Now() == p0 && pool.knownBadFiles == old(pool.knownBadFiles)
        invariant !hadErrors ==> AllLinksOk(pool.Now(), file, dependencies, references[..|done|], done)
        invariant SeesEnough(p0, file, dependencies) ==>
                    && hadErrors == (old(hadErrors) || !ReferencesOk(KindsOf(view), references[..|done|]))
                    && (!hadErrors ==> AllLinksMeant(view, references[..|done|], done))
      {
        ghost var p := pool.Now();
        UnloadedShrinks(p0, p);
        var n := |done|;
        var ok, linked := CrossLinkField(references[n]);
        LookedUp(p0, p, pool.Now(), file, dependencies);
        if SeesEnough(p0, file, dependencies) {
          GroupLinked(KindsOf(view), references, n, ok);
          if ok && !hadErrors { MeantAppended(view, references, done, n, linked); }
        }
        if !ok {
          hadErrors := true;
        } else if !hadErrors {
          LinkAppended(p, pool.Now(), file, dependencies, references, done, n, linked);
        }
        done := done + [linked];
      }
      assert references[..|references|] == references;
      links := done;
    }

    /** Allocates the file's descriptor, tables and names. */
    method AllocateFile(proto: FileProto) returns (name: PoolString, package: PoolString)
      requires pool.Valid()
      modifies this`file, this`symbolsByParent, pool`nextAddress, pool`descriptors, pool.tables
      ensures pool.Valid() && Progress(old(pool.Now()), pool.Now())
      ensures file == old(pool.nextAddress) && symbolsByParent == map[]
      ensures unchanged(this`hadErrors) && unchanged(this`reportedImpossible)
      ensures pool.descriptors == old(pool.descriptors)[file := FileDescriptor(proto, [], [])]
      ensures pool.tables.filesByName == old(pool.tables.filesByName) && SameSymbols(old(pool.Now()), pool.Now())
      ensures name.id == proto.name && name in pool.tables.strings
      ensures package.id == proto.package && package in pool.tables.strings
    {
      hide Inv, Advances, PackagesClosed;
      InvParts(pool.Now());
      OldDescriptors(pool.Now(), pool.nextAddress);
      ghost var p0 := pool.Now();
      file := pool.NewFile();
      symbolsByParent := map[];
      ghost var p1 := pool.Now();
      name, package := pool.NewNames(proto.name, proto.package);
      ghost var p2 := pool.Now();
      ProgressTrans(p0, p1, p2);
      NextAddressPast(p1, p2, file);
      NewDescriptor(p2, file, proto);
      pool.descriptors := pool.descriptors[file := FileDescriptor(proto, [], [])];
      ProgressTrans(p0, p2, pool.Now());
    }

    /** Adds the file to the file table, unless one of its name is there. */
    method StartFile(proto: FileProto, ghost base: PoolState) returns (added: bool, package: PoolString)
      requires pool.Valid() && Nested(base.core) && DescriptorsOk(base)
      requires pool.Now() == base.(core := Opened(base))
      modifies this`file, this`symbolsByParent, pool`nextAddress, pool`descriptors, pool.tables
      ensures pool.Valid() && Grows(Opened(base), pool.Now().core)
      ensures pool.Now().pending == base.pending && SameDescriptors(base, pool.Now())
      ensures added == !HasFile(base, proto.name)
      ensures added ==> Started(base, pool.Now(), file, proto)
      ensures package.id == proto.package && package in pool.tables.strings
      ensures symbolsByParent == map[] && unchanged(this`hadErrors) && unchanged(this`reportedImpossible)
    {
      hide Linked, Extends, PackagesClosed, Started, DescriptorsOk;
      OldDescriptors(base, base.nextAddress);
      assert this as object != pool && this as object != pool.tables;
      var name;
      name, package := AllocateFile(proto);
      ghost var p := pool.Now();
      AddFileCases(base, p, file, proto, name);
      added := pool.tables.AddFile(name, file);
      assert pool.Now() == p.(core := Step(p.core, Op.AddFile(name, file)));
    }

    /** Declares the file's package, if it has one. */
    method DeclarePackage(proto: FileProto, package: PoolString, ghost base: PoolState)
      requires pool.Valid() && Nested(base.core) && Started(base, pool.Now(), file, proto)
      requires package.id == proto.package && package in pool.tables.strings
      modifies this`hadErrors, pool`nextAddress, pool.tables
      ensures pool.Valid() && Building(base, pool.Now(), file, proto.name)
      ensures SameFiles(old(pool.Now()), pool.Now())
      ensures hadErrors == (old(hadErrors) ||
                !PackageFine(base, proto))
      ensures !hadErrors && proto.package != "" ==> IsPackage(pool.Now(), proto.package)
      ensures !hadErrors && PackagesClosed(base) ==>
                PackagesClosed(pool.Now()) && pool.tables.symbolsByName.Keys == Taken(base, proto)
      ensures PackagesAdded(base, pool.Now(), file, proto.package)
      ensures !hadErrors ==> NamesGiven(base, pool.Now())
    {
      hide Inv, Advances, PackagesClosed, OrphansOnly, PackageError;
      ghost var p := pool.Now();
      if package.id != "" {
        if PackagesClosed(base) { ClosedNoOrphans(p, package.id); }
        AddPackage(package);
        BuildingAdvances(base, p, pool.Now(), file, proto.name);
      }
    }

    /** Imports and the dependency set that follows from them. */
    method LinkImports(proto: FileProto, ghost base: PoolState)
      requires pool.Valid() && Nested(base.core) && DescriptorsOk(base)
      requires Building(base, pool.Now(), file, proto.name) && pool.descriptors[file].proto == proto
      requires forall g :: g in pool.descriptors ==> g <= file
      requires forall n :: HasFile(pool.Now(), n) <==> HasFile(base, n) || n == proto.name
      modifies this`hadErrors, this`dependencies, pool`descriptors
      ensures Ready() && Building(base, pool.Now(), file, proto.name) && pool.descriptors[file].proto == proto
      ensures pool.Now() == old(pool.Now()).(descriptors := pool.descriptors)
      ensures hadErrors == (old(hadErrors) || !ImportsFine(base, proto))
      ensures !hadErrors ==> ImportsRecorded(pool.Now(), file)
      ensures DependenciesOf(pool.Now(), file, dependencies)
    {
      hide Inv, DescriptorsOk, ImportErrors, ImportsFine, ImportsRecorded, Reached, Grows, SameDescriptors,
           OthersOk;
      ImportErrorsMean(base, pool.Now(), proto);
      ResolveDependencies(proto, base);
      BuildingLinks(base, pool.Now(), file, proto.name);
      RecordDependencies(pool.descriptors[file].imports);
    }

    /** The part of a build before cross-linking: nothing is loaded meanwhile. */
    method BuildContents(proto: FileProto, package: PoolString, ghost base: PoolState)
      requires pool.Valid() && Inv(base) && Nested(base.core)
      requires Started(base, pool.Now(), file, proto)
      requires package.id == proto.package && package in pool.tables.strings
      requires !hadErrors && symbolsByParent == map[]
      modifies this`hadErrors, this`dependencies, this`symbolsByParent, this`reportedImpossible
      modifies pool`nextAddress, pool`descriptors, pool.tables
      ensures Ready() && Building(base, pool.Now(), file, proto.name) && pool.descriptors[file].proto == proto
      ensures DependenciesOf(pool.Now(), file, dependencies)
      ensures !hadErrors ==> Built(pool.Now(), file) && AllFoundTwice(Index(), Declarations(proto))
      ensures !hadErrors ==> OnlyNewFiles(base, pool.Now())
      ensures forall n :: HasFile(pool.Now(), n) ==> HasFile(base, n) || n == proto.name
      ensures !hadErrors && PackagesClosed(base) ==>
                && PackagesClosed(pool.Now())
                && KindsOf(View(pool.Now(), file, dependencies)) == ExpectedKinds(base, proto)
                && Joined(base, pool.Now(), file, proto) && SymbolsJoined(base, pool.Now(), file, proto)
      ensures PackagesClosed(base) ==> hadErrors == !ContentsFine(base, proto)
      ensures reportedImpossible ==> old(reportedImpossible) || hadErrors
      ensures PackagesClosed(base) && PackageFine(base, proto) ==>
                reportedImpossible == (old(reportedImpossible) || DeclarationsDisagree(base, proto))
      ensures pool.Left() == old(pool.Left())
    {
      hide Inv, Grows, PackagesClosed, PackageError, AllFoundTwice, AllDeclared, Taken, SomeClash, SomeDisagree,
           ImportsFine, SameDescriptors, OthersOk, View, KindsOf, ExpectedKinds, NamesOf, DescriptorsOk,
           SymbolsFor, PackagesAdded, NamesGiven, OnlyNewFiles, Joined, SymbolsJoined;
      InvParts(base);
      DeclarePackage(proto, package, base);
      ghost var p1 := pool.Now();
      LinkImports(proto, base);
      ghost var p2 := pool.Now();
      if PackagesClosed(p1) { SamePackages(p1, p2); }
      DeclareAll(proto);
      BuildingAdvances(base, p2, pool.Now(), file, proto.name);
      if ImportsRecorded(p2, file) { ImportsStable(p2, pool.Now(), file); }
      if IsPackage(p2, proto.package) { PackageStays(p2, pool.Now(), proto.package); }
      ContentsFineParts(base, proto);
      if !hadErrors { ContentsDone(base, p1, p2, pool.Now(), file, proto, dependencies); }
    }

    method DeclareAll(proto: FileProto)
      requires Ready() && symbolsByParent == map[]
      modifies this`hadErrors, this`symbolsByParent, this`reportedImpossible, pool`nextAddress, pool.tables
      ensures Ready() && Progress(old(pool.Now()), pool.Now()) && SameFiles(old(pool.Now()), pool.Now())
      ensures var taken, ds := old(pool.tables.symbolsByName).Keys, Declarations(proto);
              && hadErrors == (old(hadErrors) || SomeClash(taken, ds, |ds|))
              && (!hadErrors ==> AllDeclared(pool.Now(), file, ds) && AllFoundTwice(Index(), ds))
              && reportedImpossible == (old(reportedImpossible) || SomeDisagree(taken, ds, |ds|))
              && pool.tables.symbolsByName.Keys == taken + NamesOf(ds)
      ensures reportedImpossible ==> old(reportedImpossible) || hadErrors
      ensures SymbolsFor(old(pool.Now()), pool.Now(), file)
    {
      hide Inv, Progress, AllDeclared, AllFoundTwice, SomeClash, SomeDisagree, AllWellNamed, UnnamedShows,
           NamesOf, SymbolsFor;
      ghost var taken, ds := pool.tables.symbolsByName.Keys, Declarations(proto);
      DeclarationsWellNamed(proto);
      DeclarationsUnnamedShow(proto);
      if SomeDisagree(taken, ds, |ds|) { DisagreeClashes(taken, ds); }
      DeclareSymbols(Declarations(proto));
    }

    method Abort(ghost base: PoolState)
      requires pool.Valid() && Inv(base) && Grows(Opened(base), pool.Now().core)
      requires pool.Now().pending == base.pending && SameDescriptors(base, pool.Now())
      modifies pool.tables
      ensures pool.Valid() && Progress(base, pool.Now()) && pool.tables.Contents() == base.core
    {
      RollbackBuild(base, pool.Now());
      hide Owned, Linked, Grows, PackagesClosed;
      ghost var p := pool.Now();
      pool.tables.RollbackToLastCheckpoint();
      assert pool.Now() == p.(core := Step(p.core, RollbackToLastCheckpoint));
    }

    method Commit(name: string, ghost base: PoolState)
      requires pool.Valid() && Inv(base) && Nested(base.core)
      requires Building(base, pool.Now(), file, name) && Built(pool.Now(), file) && name !in base.pending
      requires FromDatabase(pool.Now(), name)
      modifies pool.tables
      ensures pool.Valid() && Advances(base, pool.Now()) && Built(pool.Now(), file)
      ensures PackagesClosed(old(pool.Now())) ==> PackagesClosed(pool.Now())
      ensures SameFiles(old(pool.Now()), pool.Now()) && SameSymbols(old(pool.Now()), pool.Now())
      ensures PackagesClosed(base) && PackagesClosed(old(pool.Now())) ==> Progress(base, pool.Now())
    {
      hide Inv, Advances, PackagesClosed, Building, Built;
      ghost var p := pool.Now();
      CommitBuild(base, p, file, name);
      pool.tables.ClearLastCheckpoint();
      assert pool.Now() == p.(core := Step(p.core, ClearLastCheckpoint));
    }

    /** Cross-links the declared file and decides whether the build stands. */
    method FinishFile(proto: FileProto, failing: bool, ghost base: PoolState)
      requires Ready() && Nested(base.core) && Building(base, pool.Now(), file, proto.name)
      requires pool.descriptors[file].proto == proto
      requires !hadErrors ==> Built(pool.Now(), file) && AllFoundTwice(Index(), Declarations(proto))
      requires DependenciesOf(pool.Now(), file, dependencies)
      modifies this`hadErrors, this`links, pool, pool.tables
      ensures Ready() && Loads(old(pool.Now()), pool.Now())
      ensures Building(base, pool.Now(), file, proto.name) && pool.descriptors[file].proto == proto
      ensures old(hadErrors) ==> hadErrors
      ensures unchanged(this`reportedImpossible)
      ensures !hadErrors ==> FileLinked(pool.Now(), symbolsByParent, file, dependencies, links, proto)
      ensures SeesEnough(old(pool.Now()), file, dependencies) ==>
                var view := View(old(pool.Now()), file, dependencies);
                && hadErrors == (old(hadErrors) || failing || !ReferencesOk(KindsOf(view), References(proto)))
                && (!hadErrors ==> AllLinksMeant(view, References(proto), links))
      ensures old(pool.knownBadFiles) <= pool.knownBadFiles
      ensures pool.FileSilent(old(pool.Now()), References(proto)) ==>
                pool.Now() == old(pool.Now()) && pool.knownBadFiles == old(pool.knownBadFiles)
      decreases pool.Left(), 13
    {
      hide Inv, Advances, PackagesClosed, AllLinksOk, AllLinksMeant, ReferencesOk, AllFoundTwice, Built,
           DependenciesOf, DescriptorsOk, Building, SameSymbols, InTable, OnlyNewFiles, View, KindsOf,
           SeesEnough;
      ghost var p, r := pool.Now(), Index();
      CrossLinkFile(References(proto));
      AfterLinking(base, p, pool.Now(), file, proto, dependencies);
      if failing { hadErrors := true; }
      if !hadErrors { FoundTwiceStable(r, Index(), Declarations(proto)); }
    }

    /** What the file's fields and methods point at. */
    method StoreLinks(ghost base: PoolState)
      requires Ready() && Inv(base) && base.nextAddress <= file
      modifies pool`links
      ensures Ready() && pool.Now() == WithLinks(old(pool.Now()), file, links)
      ensures Progress(base, old(pool.Now())) ==> Progress(base, pool.Now())
      ensures Built(old(pool.Now()), file) ==> Built(pool.Now(), file)
    {
      hide Inv, Progress, Built;
      InvParts(base);
      LinksStored(base, pool.Now(), file, links);
      pool.links := pool.links[file := links];
    }

    /** Rolls the build back if anything went wrong, and clears its checkpoint otherwise. */
    method EndBuild(proto: FileProto, ghost base: PoolState) returns (result: Option<nat>)
      requires Ready() && Inv(base) && Nested(base.core)
      requires Building(base, pool.Now(), file, proto.name) && proto.name !in base.pending
      requires pool.descriptors[file].proto == proto
      requires !hadErrors ==> FileLinked(pool.Now(), symbolsByParent, file, dependencies, links, proto)
      requires !hadErrors ==> OnlyNewFiles(base, pool.Now())
      requires !hadErrors && Healthy(base) ==> Resolvable(base, pool.Now(), file, dependencies, links, proto)
      requires !hadErrors && PackagesClosed(base) ==> PackagesClosed(pool.Now())
      requires reportedImpossible ==> hadErrors
      requires pool.Given(proto)
      modifies pool`links, pool.tables
      ensures pool.Valid() && Loads(base, pool.Now())
      ensures result == if hadErrors then None else Some(file)
      ensures reportedImpossible ==> result.None?
      ensures !hadErrors ==> FileDone(pool.Now(), symbolsByParent, file, dependencies, links, proto)
      ensures !hadErrors ==> SameFiles(old(pool.Now()), pool.Now()) && SameSymbols(old(pool.Now()), pool.Now())
      ensures !hadErrors ==> file in pool.links && pool.links[file] == links
      ensures hadErrors ==> pool.tables.Contents() == base.core
    {
      hide Inv, PackagesClosed, AllLinksOk, AllFoundTwice, Built, Reached, Grows, OthersOk, Advances, FileDone,
           Resolved;
      ghost var linked := pool.Now();
      if hadErrors {
        Abort(base);
        result := None;
      } else {
        Commit(proto.name, base);
        StoreLinks(base);
        if Healthy(base) { StoredResolved(base, linked, pool.Now(), file, dependencies, links, proto); }
        CommitDone(linked, pool.Now(), symbolsByParent, file, dependencies, links, proto);
        result := Some(file);
      }
    }

    /** Nothing but that file was added since p0, if anything was, and none found bad. */
    ghost predicate BuiltAlone(p0: PoolState, proto: FileProto, bad: set<string>, ok: bool)
      reads pool, pool.tables
    {
      && pool.knownBadFiles == bad
      && ContentOf(pool.Now()) == if ok then WithFile(ContentOf(p0), proto) else ContentOf(p0)
    }

    /** From the file's entry in the file table to the end of its build. */
    method BuildStarted(proto: FileProto, package: PoolString, failing: bool, ghost base: PoolState)
      returns (result: Option<nat>)
      requires pool.Valid() && Inv(base) && Started(base, pool.Now(), file, proto) && !HasFile(base, proto.name)
      requires package.id == proto.package && package in pool.tables.strings
      requires !hadErrors && !reportedImpossible && symbolsByParent == map[] && proto.name !in base.pending
      requires pool.Given(proto)
      modifies this`hadErrors, this`dependencies, this`symbolsByParent, this`reportedImpossible, this`links, pool, pool.tables
      ensures pool.Valid() && Loads(base, pool.Now())
      ensures result.Some? ==>
                result.value == file && FileDone(pool.Now(), symbolsByParent, file, dependencies, links, proto)
      ensures result.Some? ==> file in pool.links && pool.links[file] == links
      ensures result.None? ==> pool.tables.Contents() == base.core
      ensures reportedImpossible ==> result.None?
      ensures Healthy(base) ==>
                && (result.Some? <==> ContentsFine(base, proto) && !failing
                                      && ReferencesOk(ExpectedKinds(base, proto), References(proto)))
                && (result.Some? ==> AllLinksMeant(View(pool.Now(), file, dependencies), References(proto), links))
                && (result.Some? ==> KindsOf(View(pool.Now(), file, dependencies)) == ExpectedKinds(base, proto))
      ensures old(pool.knownBadFiles) <= pool.knownBadFiles
      ensures pool.Silently(base, proto) && Healthy(base) ==>
                BuiltAlone(base, proto, old(pool.knownBadFiles), result.Some?)
      decreases pool.Left(), 14
    {
      hide Inv, PackagesClosed, FileLinked, FileDone, ReferencesOk, AllFoundTwice, Reached, DescriptorsOk,
           ContentsFine, Started, Building, Progress, InTable, OnlyNewFiles, View, KindsOf, ExpectedKinds,
           AllLinksMeant, SeesEnough, Built, Tables.Contents, NewResolved, pool.Silently, pool.AllSilent, ContentOf, WithFile, Joined,
           SymbolsJoined;
      assert this as object != pool && this as object != pool.tables;
      InvParts(base);
      BuildContents(proto, package, base);
      ghost var declared := pool.Now();
      if Healthy(base) && !hadErrors {
        BuildingHealthy(base, declared, file, proto.name);
        HealthySees(declared, file, dependencies);
        ContentJoined(base, declared, file, proto);
      }
      if pool.Silently(base, proto) { pool.StaysSilent(base, declared, file, proto); }
      FinishFile(proto, failing, base);
      ghost var linked := pool.Now();
      if !hadErrors {
        Finished(base, declared, linked, file, proto, dependencies);
        if Healthy(base) { FinishedResolved(base, declared, linked, file, proto, dependencies, links); }
      }
      result := EndBuild(proto, base);
      if hadErrors {
        UndoneDescriptors(base, pool.Now());
        SameFilesKnown(base, pool.Now());
        SameSymbolsKnown(base, pool.Now());
      } else {
        SameView(linked, pool.Now(), file, dependencies);
        SameFilesKnown(linked, pool.Now());
        SameSymbolsKnown(linked, pool.Now());
      }
    }

    method OpenBuild()
      requires pool.Valid() && Nested(pool.Now().core)
      modifies pool.tables
      ensures pool.Valid() && pool.Now() == old(pool.Now().(core := Opened(pool.Now())))
    {
      ghost var base := pool.Now();
      OpenCheckpoint(base);
      pool.tables.AddCheckpoint();
      assert pool.Now() == base.(core := Opened(base));
    }

    /** The part of a build that its own checkpoint covers. */
    method BuildInCheckpoint(proto: FileProto) returns (result: Option<nat>)
      requires pool.Valid() && !hadErrors && !reportedImpossible && proto.name !in pool.pendingFiles
      requires pool.Given(proto) && (pool.fallbackDatabase.Some? ==> proto.name in pool.Left())
      modifies this, pool, pool.tables
      ensures pool.Valid() && Loads(old(pool.Now()), pool.Now())
      ensures result.Some? ==>
                result.value == file && FileDone(pool.Now(), symbolsByParent, file, dependencies, links, proto)
      ensures result.Some? ==> file in pool.links && pool.links[file] == links
      ensures result.None? ==> pool.tables.Contents() == old(pool.tables.Contents())
      ensures reportedImpossible || HasFile(old(pool.Now()), proto.name) ==> result.None?
      ensures Healthy(old(pool.Now())) ==>
                && (result.Some? <==> pool.Buildable(old(pool.Now()), proto))
                && (result.Some? ==> AllLinksMeant(View(pool.Now(), file, dependencies), References(proto), links))
                && (result.Some? ==> KindsOf(View(pool.Now(), file, dependencies)) == ExpectedKinds(old(pool.Now()), proto))
      ensures old(pool.knownBadFiles) <= pool.knownBadFiles
      ensures pool.Silently(old(pool.Now()), proto) && Healthy(old(pool.Now())) ==>
                BuiltAlone(old(pool.Now()), proto, old(pool.knownBadFiles), result.Some?)
      decreases pool.Left(), if pool.fallbackDatabase.None? then 20 else 2
    {
      hide Inv, PackagesClosed, FileDone, ReferencesOk, Reached, DescriptorsOk, ContentsFine, Started, Grows,
           Progress, OnlyNewFiles, View, ExpectedKinds, AllLinksMeant, Healthy, NewResolved, pool.Silently, ContentOf, WithFile;
      ghost var base := pool.Now();
      assert this as object != pool && this as object != pool.tables;
      InvParts(base);
      var failing := pool.failsOtherChecks(ContentOf(pool.Now()), proto);
      OpenBuild();
      var added, package := StartFile(proto, base);
      if added {
        StartedShrinks(base, pool.Now(), file, proto);
        result := BuildStarted(proto, package, failing, base);
      } else {
        Abort(base);
        SameTablesLoads(base, pool.Now());
        UndoneDescriptors(base, pool.Now());
        SameFilesKnown(base, pool.Now());
        SameSymbolsKnown(base, pool.Now());
        hadErrors := true;
        result := None;
      }
    }

    /** Loads, before the checkpoint is taken, the imports that are not there yet. */
    method LoadDependencies(proto: FileProto)
      requires pool.Valid() && pool.fallbackDatabase.Some? && proto.name in pool.Left()
      modifies pool, pool.tables
      ensures pool.Valid() && Loads(old(pool.Now()), pool.Now())
      ensures !HasFile(pool.Now(), proto.name)
      ensures ImportsLoaded(old(pool.Now()), proto) ==> pool.Now() == old(pool.Now())
      ensures old(pool.knownBadFiles) <= pool.knownBadFiles
      ensures forall n :: n in proto.dependency ==> HasFile(pool.Now(), n) || n in pool.knownBadFiles
      ensures old(pool.Sound()) ==>
                pool.At(TryImports(pool.fallbackDatabase.value, pool.failsOtherChecks, old(pool.Here()),
                                   old(pool.pendingFiles) + [proto.name], proto.dependency))
      decreases pool.Left(), 2
    {
      hide Inv, PackagesClosed, Advances, Unloaded, OnlyNewFiles, Healthy, NewResolved, ContentOf, Recorded, TryImports;
      ghost var p0 := pool.Now();
      PendingPushed(p0, proto.name);
      pool.pendingFiles := pool.pendingFiles + [proto.name];
      ghost var p1 := pool.Now();
      assert p1 == p0.(pending := p0.pending + [proto.name]);
      PendingIrrelevant(p0, p1.pending);
      SameFilesKnown(p0, p1);
      SameSymbolsKnown(p0, p1);
      LoadEach(proto, p0.pending);
      ghost var p := pool.Now();
      PendingPopped(p0, p, proto.name);
      PendingLoads(p0, p, proto.name);
      pool.pendingFiles := pool.pendingFiles[..|pool.pendingFiles| - 1];
      assert pool.Now() == p.(pending := p0.pending);
      SameFilesKnown(p, pool.Now());
      SameSymbolsKnown(p, pool.Now());
    }

    /** Tries the imports in order. */
    method LoadEach(proto: FileProto, ghost pending: seq<string>)
      requires pool.Valid() && pool.fallbackDatabase.Some? && pool.pendingFiles == pending + [proto.name]
      modifies pool, pool.tables
      ensures pool.Valid() && Loads(old(pool.Now()), pool.Now()) && old(pool.knownBadFiles) <= pool.knownBadFiles
      ensures ImportsLoaded(old(pool.Now()), proto) ==> pool.Now() == old(pool.Now())
      ensures forall n :: n in proto.dependency ==> HasFile(pool.Now(), n) || n in pool.knownBadFiles
      ensures pool.pendingFiles == old(pool.pendingFiles)
      ensures old(pool.Sound()) ==>
                pool.At(TryImports(pool.fallbackDatabase.value, pool.failsOtherChecks, old(pool.Here()),
                                   old(pool.pendingFiles), proto.dependency))
      decreases pool.Left(), 7
    {
      hide Inv, PackagesClosed, Advances, Unloaded, OnlyNewFiles, Healthy, NewResolved, ContentOf, Recorded, TryImports,
           TryFile, AllFromDatabase;
      ghost var p1 := pool.Now();
      ghost var database, fails, sound := pool.fallbackDatabase.value, pool.failsOtherChecks, pool.Sound();
      ghost var l := pool.Here();
      LoadsRefl(p1);
      assert proto.dependency[0..] == proto.dependency;
      var k := 0;
      while k < |proto.dependency|
        invariant k <= |proto.dependency|
        invariant pool.Valid() && Loads(p1, pool.Now()) && old(pool.knownBadFiles) <= pool.knownBadFiles
        invariant pool.pendingFiles == p1.pending
        invariant ImportsLoaded(p1, proto) ==> pool.Now() == p1
        invariant forall j :: 0 <= j < k ==>
                    HasFile(pool.Now(), proto.dependency[j]) || proto.dependency[j] in pool.knownBadFiles
        invariant sound ==> pool.Sound() && pool.At(l)
        invariant TryImports(database, fails, old(pool.Here()), p1.pending, proto.dependency) ==
                  TryImports(database, fails, l, p1.pending, proto.dependency[k..])
      {
        ghost var p := pool.Now();
        UnloadedShrinks(p1, p);
        FilesKnown(p);
        TryImportsStep(database, fails, l, p1.pending, proto.dependency[k..]);
        assert proto.dependency[k..][1..] == proto.dependency[k + 1..];
        l := if proto.dependency[k] in l.content.files then l
             else TryFile(database, fails, l, p1.pending, proto.dependency[k]);
        if proto.dependency[k] !in pool.tables.filesByName {
          var _ := pool.TryFindFileInFallbackDatabase(proto.dependency[k]);
          LoadsTrans(p1, p, pool.Now());
          UnloadedShrinks(p, pool.Now());
          FilesStay(p, pool.Now());
          if sound { StaysSound(p, pool.Now()); }
        }
        k := k + 1;
      }
      TryImportsDone(database, fails, l, p1.pending, proto.dependency[k..]);
    }

    method IsPending(name: string) returns (r: bool)
      ensures r == (name in pool.pendingFiles)
    {
      var i := 0;
      while i < |pool.pendingFiles|
        invariant i <= |pool.pendingFiles|
        invariant forall j :: 0 <= j < i ==> pool.pendingFiles[j] != name
      {
        if pool.pendingFiles[i] == name { return true; }
        i := i + 1;
      }
      return false;
    }

    /** Loads the imports, if there is a database to load them from, then builds; `loaded`
        is the pool in between. */
    method LoadAndBuild(proto: FileProto)
      returns (result: Option<nat>, ghost loaded: PoolState)
      requires pool.Valid() && !hadErrors && !reportedImpossible && proto.name !in pool.pendingFiles
      requires pool.Given(proto) && (pool.fallbackDatabase.Some? ==> proto.name in pool.Left())
      modifies this, pool, pool.tables
      ensures pool.Valid() && Loads(old(pool.Now()), loaded) && Loads(loaded, pool.Now())
      ensures Loads(old(pool.Now()), pool.Now())
      ensures pool.fallbackDatabase.None? || ImportsLoaded(old(pool.Now()), proto) ==> loaded == old(pool.Now())
      ensures result.Some? ==>
                result.value == file && FileDone(pool.Now(), symbolsByParent, file, dependencies, links, proto)
      ensures result.Some? ==> file in pool.links && pool.links[file] == links
      ensures result.None? ==> pool.tables.Contents() == loaded.core
      ensures result.None? && !HasFile(old(pool.Now()), proto.name) ==> !HasFile(pool.Now(), proto.name)
      ensures reportedImpossible || HasFile(old(pool.Now()), proto.name) ==> result.None?
      ensures Healthy(old(pool.Now())) ==>
                && (result.Some? <==> pool.Buildable(loaded, proto))
                && (result.Some? ==> AllLinksMeant(View(pool.Now(), file, dependencies), References(proto), links))
                && (result.Some? ==> KindsOf(View(pool.Now(), file, dependencies)) == ExpectedKinds(loaded, proto))
      ensures old(pool.knownBadFiles) <= pool.knownBadFiles
      ensures pool.fallbackDatabase.Some? && proto.name !in old(pool.pendingFiles) ==>
                forall n :: n in proto.dependency ==> HasFile(loaded, n) || n in pool.knownBadFiles
      ensures pool.fallbackDatabase.Some? && old(pool.Sound()) && !HasFile(old(pool.Now()), proto.name) ==>
                pool.At(Build(pool.fallbackDatabase.value, pool.failsOtherChecks, old(pool.Here()),
                              old(pool.pendingFiles), proto.name))
      ensures pool.fallbackDatabase.None? && Healthy(old(pool.Now())) && !HasFile(old(pool.Now()), proto.name)
              && proto.name !in old(pool.pendingFiles) ==>
                BuiltAlone(old(pool.Now()), proto, old(pool.knownBadFiles), result.Some?)
      decreases pool.Left(), if pool.fallbackDatabase.None? then 21 else 3
    {
      hide Inv, Advances, PackagesClosed, FileDone, ReferencesOk, Acceptable, OnlyNewFiles, View, ExpectedKinds,
           AllLinksMeant, Healthy, pool.Buildable, pool.Silently, ContentOf, WithFile, Recorded, TryImports,
           BuildableIn, AsksNothing, NewResolved;
      ghost var p0 := pool.Now();
      LoadsRefl(p0);
      assert this as object != pool && this as object != pool.tables;
      if pool.fallbackDatabase.Some? {
        LoadDependencies(proto);
        ghost var p1 := pool.Now();
        StillLoadable(p0, p1, proto.name);
        if Healthy(p0) { StaysHealthy(p0, p1); }
        loaded := p1;
        if Healthy(p0) && Recorded(p0) {
          StaysSound(p0, p1);
          pool.SilentByContents(p1, proto);
          pool.BuildableByContents(p1, proto);
        }
        result := BuildInCheckpoint(proto);
        LoadsTrans(p0, p1, pool.Now());
      } else {
        loaded := p0;
        pool.SilentAlone(p0, proto);
        result := BuildInCheckpoint(proto);
      }
    }

    /** Builds the file unless one of its name is in the pool or being loaded.  `loaded` is
        the pool once the imports are there, which decides whether the build succeeds. */
    method BuildFile(proto: FileProto)
      returns (result: Option<nat>, ghost loaded: PoolState)
      requires pool.Valid() && !hadErrors && !reportedImpossible
      requires pool.Given(proto) && (pool.fallbackDatabase.Some? ==> !HasFile(pool.Now(), proto.name))
      modifies this, pool, pool.tables
      ensures pool.Valid() && Loads(old(pool.Now()), loaded) && Loads(loaded, pool.Now())
      ensures Loads(old(pool.Now()), pool.Now())
      ensures pool.fallbackDatabase.None? || ImportsLoaded(old(pool.Now()), proto) ==> loaded == old(pool.Now())
      ensures result.None? ==> pool.tables.Contents() == loaded.core
      ensures !HasFile(old(pool.Now()), proto.name) ==>
                && result == PoolSpec.FindFile(pool.Now(), proto.name)
                && (result.Some? ==> FileDone(pool.Now(), symbolsByParent, file, dependencies, links, proto))
                && (result.Some? ==> file in pool.links && pool.links[file] == links)
      ensures HasFile(old(pool.Now()), proto.name) ==>
                result == if Matches(old(pool.Now()), proto, pool.copyRest)
                          then PoolSpec.FindFile(old(pool.Now()), proto.name) else None
      ensures reportedImpossible ==> result.None?
      ensures Healthy(old(pool.Now())) && !HasFile(old(pool.Now()), proto.name) && proto.name !in old(pool.pendingFiles) ==>
                && (result.Some? <==> pool.Buildable(loaded, proto))
                && (result.Some? ==> AllLinksMeant(View(pool.Now(), file, dependencies), References(proto), links))
                && (result.Some? ==> KindsOf(View(pool.Now(), file, dependencies)) == ExpectedKinds(loaded, proto))
      ensures proto.name in old(pool.pendingFiles) && !HasFile(old(pool.Now()), proto.name) ==>
                result.None? && pool.Now() == old(pool.Now())
      ensures old(pool.knownBadFiles) <= pool.knownBadFiles
      ensures pool.fallbackDatabase.Some? && proto.name !in old(pool.pendingFiles) ==>
                forall n :: n in proto.dependency ==> HasFile(loaded, n) || n in pool.knownBadFiles
      ensures pool.fallbackDatabase.Some? && old(pool.Sound()) && !HasFile(old(pool.Now()), proto.name) ==>
                pool.At(Build(pool.fallbackDatabase.value, pool.failsOtherChecks, old(pool.Here()),
                              old(pool.pendingFiles), proto.name))
      ensures pool.fallbackDatabase.None? && Healthy(old(pool.Now())) && !HasFile(old(pool.Now()), proto.name)
              && proto.name !in old(pool.pendingFiles) ==>
                BuiltAlone(old(pool.Now()), proto, old(pool.knownBadFiles), result.Some?)
      decreases pool.Left(), if pool.fallbackDatabase.None? then 22 else 4
    {
      hide Inv, Advances, PackagesClosed, ReferencesOk, Acceptable, FileLinked, OnlyNewFiles, View,
           ExpectedKinds, AllLinksMeant, Healthy, CopiedBack, Copyable, ContentOf, WithFile, Recorded, TryImports, Finish;
      LoadsRefl(pool.Now());
      loaded := pool.Now();
      var existing := pool.FindFile(proto.name);
      if existing.Some? {
        if Matches(pool.Now(), proto, pool.copyRest) { return existing, loaded; }
      }
      var pending := IsPending(proto.name);
      if pending {
        hadErrors := true;
        return None, loaded;
      }
      result, loaded := LoadAndBuild(proto);
    }
  }
}
