/** What a pool holds, told by names alone: the protos of its files and, for each symbol,
    its kind and the file it belongs to.  Everything that decides a build can be told from
    it. */
module PoolContents {
  import opened BuilderSpec
  import opened BuildSteps
  import opened ExpectedView
  import opened LookupSpec
  import opened Names
  import opened Optional
  import opened PoolProperties
  import opened PoolSpec
  import opened Protos
  import opened Rollback
  import opened TablesSpec

  datatype Known = Known(kind: SymbolType, file: string)

  datatype Content = Content(files: map<string, FileProto>, symbols: map<string, Known>)

  function ContentOf(p: PoolState): Content {
    Content(
      map n | n in p.core.files.entries && FileNamed(p, n) in p.descriptors :: p.descriptors[FileNamed(p, n)].proto,
      map n | n in p.core.symbols.entries && p.core.symbols.entries[n].value.file in p.descriptors ::
        KnownAs(p, p.core.symbols.entries[n].value))
  }

  function KnownAs(p: PoolState, s: Symbol): Known
    requires s.file in p.descriptors
  {
    Known(s.kind, p.descriptors[s.file].proto.name)
  }

  function KindsKnown(c: Content): Kinds {
    map n | n in c.symbols :: c.symbols[n].kind
  }

  // ------------------------------------------------------------- what a build sees

  ghost predicate PublicImportName(files: map<string, FileProto>, a: string, b: string) {
    a in files && exists k :: k in files[a].publicDependency && ImportAt(files[a], k, b)
  }

  predicate ImportAt(proto: FileProto, k: int, name: string) {
    0 <= k < |proto.dependency| && proto.dependency[k] == name
  }

  ghost predicate NamePath(files: map<string, FileProto>, path: seq<string>) {
    |path| >= 1 && forall i :: 0 <= i < |path| - 1 ==> PublicImportName(files, path[i], path[i + 1])
  }

  ghost predicate NameReaches(files: map<string, FileProto>, a: string, b: string) {
    exists path :: NamePath(files, path) && path[0] == a && path[|path| - 1] == b
  }

  /** Some import of the proto is there and reaches the file by public imports. */
  ghost predicate ImportedName(c: Content, proto: FileProto, file: string) {
    exists i :: 0 <= i < |proto.dependency| && ImportNameReaches(c, proto.dependency[i], file)
  }

  ghost predicate ImportNameReaches(c: Content, name: string, file: string) {
    name in c.files && NameReaches(c.files, name, file)
  }

  ghost predicate MayImportName(c: Content, proto: FileProto, name: string)
    requires name in c.symbols
  {
    var s := c.symbols[name];
    ImportedName(c, proto, s.file) ||
    (s.kind == Package &&
     (InPackage(proto.package, name) ||
      exists g :: ImportedName(c, proto, g) && g in c.files && InPackage(c.files[g].package, name)))
  }

  /** The names that the references of the proto can mean, and their kinds. */
  ghost function KindsIn(c: Content, proto: FileProto): Kinds {
    var ds := Declarations(proto);
    map n | n in TakenWith(c.symbols.Keys, proto) + NamesOf(ds) && (n in c.symbols ==> MayImportName(c, proto, n)) ::
      if n in c.symbols then c.symbols[n].kind
      else if n in NamesOf(ds) then KindIn(ds, n)
      else Package
  }

  /** The contents with the file of the proto added. */
  function WithFile(c: Content, proto: FileProto): Content {
    var ds := Declarations(proto);
    Content(
      c.files[proto.name := proto],
      map n | n in TakenWith(c.symbols.Keys, proto) + NamesOf(ds) ::
        if n in c.symbols then c.symbols[n]
        else Known(if n in NamesOf(ds) then KindIn(ds, n) else Package, proto.name))
  }

  ghost predicate AcceptableTo(c: Content, proto: FileProto) {
    proto.name !in c.files && FineAmong(c.files.Keys, KindsKnown(c), proto)
  }

  /** What makes a build succeed, by contents, up to checks not modelled one by one. */
  ghost predicate Fits(c: Content, proto: FileProto) {
    && AcceptableTo(c, proto)
    && ReferencesOk(KindsIn(c, proto), References(proto))
  }

  // ------------------------------------------------------------- names for addresses

  /** All files in the table have their imports recorded. */
  ghost predicate Recorded(p: PoolState) {
    forall n :: n in p.core.files.entries ==> ImportsRecorded(p, FileNamed(p, n))
  }

  lemma SettledIsRecorded(p: PoolState)
    requires Settled(p)
    ensures Recorded(p)
  {
    hide Inv, AllResolved, Complete;
    assert forall n :: n in p.core.files.entries ==> Built(p, FileNamed(p, n));
  }

  lemma StaysRecorded(p0: PoolState, p: PoolState)
    requires Recorded(p0) && Advances(p0, p)
    ensures Recorded(p)
  {
    hide Extends, AllDeclared;
    forall n | n in p.core.files.entries
      ensures ImportsRecorded(p, FileNamed(p, n))
    {
      if n in p0.core.files.entries { ImportsStable(p0, p, FileNamed(p0, n)); }
      else { assert NewFileOk(p0, p, n); }
    }
  }

  lemma FilesKnown(p: PoolState)
    requires Inv(p)
    ensures ContentOf(p).files.Keys == p.core.files.entries.Keys
    ensures forall n :: HasFile(p, n) ==> ContentOf(p).files[n] == p.descriptors[FileNamed(p, n)].proto
    ensures forall n :: HasFile(p, n) ==> ContentOf(p).files[n].name == n
  {
    hide Owned, DescriptorsOk, SymbolsOk, ImportsInTable, KnownAs;
    assert forall n :: n in p.core.files.entries ==> FileOk(p, n);
  }

  lemma SymbolsKnown(p: PoolState)
    requires Inv(p)
    ensures ContentOf(p).symbols.Keys == p.core.symbols.entries.Keys
    ensures forall n :: n in p.core.symbols.entries ==>
              && p.core.symbols.entries[n].value.file in p.descriptors
              && ContentOf(p).symbols[n] == KnownAs(p, p.core.symbols.entries[n].value)
    ensures KindsKnown(ContentOf(p)) == KindTable(p.core.symbols.entries)
  {
    hide Owned, DescriptorsOk, FilesOk;
    assert forall n :: n in p.core.symbols.entries ==> SymbolOk(p, n);
  }

  /** The name of a file in the table. */
  function NameAt(p: PoolState, f: nat): string
    requires f in p.descriptors
  {
    p.descriptors[f].proto.name
  }

  lemma PublicImportNamed(p: PoolState, f: nat, g: nat)
    requires Inv(p) && Recorded(p) && InTable(p, f) && PublicImport(p.descriptors, f, g)
    ensures InTable(p, g) && PublicImportName(ContentOf(p).files, NameAt(p, f), NameAt(p, g))
  {
    FilesKnown(p);
    hide Owned, DescriptorsOk, SymbolsOk, ContentOf;
    var d := p.descriptors[f];
    assert ImportsRecorded(p, FileNamed(p, d.proto.name));
    var k :| k in d.publicImports && k < |d.imports| && d.imports[k] == Some(g);
    assert FileOk(p, d.proto.dependency[k]) && FileOk(p, d.proto.name);
    assert ImportAt(d.proto, k, NameAt(p, g));
  }

  lemma PublicNameImported(p: PoolState, a: string, b: string)
    requires Inv(p) && Recorded(p) && PublicImportName(ContentOf(p).files, a, b)
    ensures HasFile(p, a) && HasFile(p, b) && PublicImport(p.descriptors, FileNamed(p, a), FileNamed(p, b))
  {
    FilesKnown(p);
    hide Owned, DescriptorsOk, SymbolsOk, ContentOf;
    assert FileOk(p, a) && ImportsRecorded(p, FileNamed(p, a));
    var d := p.descriptors[FileNamed(p, a)];
    var k :| k in d.proto.publicDependency && ImportAt(d.proto, k, b);
    assert k in d.publicImports;
  }

  lemma {:induction false} PathNamed(p: PoolState, path: seq<nat>, i: nat)
    requires Inv(p) && Recorded(p) && PublicPath(p.descriptors, path) && InTable(p, path[0]) && i < |path|
    ensures InTable(p, path[i])
    ensures i > 0 ==>
              InTable(p, path[i - 1]) &&
              PublicImportName(ContentOf(p).files, NameAt(p, path[i - 1]), NameAt(p, path[i]))
  {
    if i > 0 {
      PathNamed(p, path, i - 1);
      PublicImportNamed(p, path[i - 1], path[i]);
    }
  }

  /** From a file of the table the same files are reached, by addresses and by names. */
  lemma ReachedByName(p: PoolState, a: string, g: nat)
    requires Inv(p) && Recorded(p) && HasFile(p, a) && Reaches(p.descriptors, FileNamed(p, a), g)
    ensures InTable(p, g) && NameReaches(ContentOf(p).files, a, NameAt(p, g))
  {
    hide Inv, Recorded, ContentOf, PublicImport, PublicImportName;
    TableNamed(p, a);
    var path :| PublicPath(p.descriptors, path) && path[0] == FileNamed(p, a) && path[|path| - 1] == g;
    forall i | 0 <= i < |path|
      ensures InTable(p, path[i])
      ensures i > 0 ==>
                InTable(p, path[i - 1]) &&
                PublicImportName(ContentOf(p).files, NameAt(p, path[i - 1]), NameAt(p, path[i]))
    {
      PathNamed(p, path, i);
    }
    var names := seq(|path|, i requires 0 <= i < |path| => NameAt(p, path[i]));
    assert NamePath(ContentOf(p).files, names) by {
      forall i | 0 <= i < |names| - 1 ensures PublicImportName(ContentOf(p).files, names[i], names[i + 1]) {
        assert PublicImportName(ContentOf(p).files, NameAt(p, path[i + 1 - 1]), NameAt(p, path[i + 1]));
      }
    }
  }

  lemma TableNamed(p: PoolState, a: string)
    requires Inv(p) && HasFile(p, a)
    ensures InTable(p, FileNamed(p, a)) && NameAt(p, FileNamed(p, a)) == a
  {
    assert FileOk(p, a);
  }

  lemma NameReached(p: PoolState, a: string, b: string)
    requires Inv(p) && Recorded(p) && HasFile(p, a) && NameReaches(ContentOf(p).files, a, b)
    ensures HasFile(p, b) && Reaches(p.descriptors, FileNamed(p, a), FileNamed(p, b))
  {
    hide Inv, Recorded, ContentOf, PublicImport, PublicImportName;
    var names :| NamePath(ContentOf(p).files, names) && names[0] == a && names[|names| - 1] == b;
    forall i | 0 <= i < |names|
      ensures HasFile(p, names[i])
      ensures i > 0 ==>
                HasFile(p, names[i - 1]) &&
                PublicImport(p.descriptors, FileNamed(p, names[i - 1]), FileNamed(p, names[i]))
    {
      if i > 0 {
        assert PublicImportName(ContentOf(p).files, names[i - 1], names[i - 1 + 1]);
        PublicNameImported(p, names[i - 1], names[i]);
      }
    }
    var path := seq(|names|, i requires 0 <= i < |names| => FileNamed(p, names[i]));
    assert PublicPath(p.descriptors, path) by {
      forall i | 0 <= i < |path| - 1 ensures PublicImport(p.descriptors, path[i], path[i + 1]) {
        assert PublicImport(p.descriptors, FileNamed(p, names[i + 1 - 1]), FileNamed(p, names[i + 1]));
      }
    }
  }

  lemma ImportedByName(p: PoolState, proto: FileProto, g: nat)
    requires Inv(p) && Recorded(p)
    ensures Imported(p, proto, g) ==> InTable(p, g)
    ensures InTable(p, g) ==> (Imported(p, proto, g) <==> ImportedName(ContentOf(p), proto, NameAt(p, g)))
  {
    FilesKnown(p);
    hide Inv, Recorded, ContentOf, Reaches, NameReaches;
    if Imported(p, proto, g) {
      var i :| 0 <= i < |proto.dependency| && ImportReaches(p, proto.dependency[i], g);
      ReachedByName(p, proto.dependency[i], g);
      assert ImportNameReaches(ContentOf(p), proto.dependency[i], NameAt(p, g));
    }
    if InTable(p, g) && ImportedName(ContentOf(p), proto, NameAt(p, g)) {
      var i :| 0 <= i < |proto.dependency| && ImportNameReaches(ContentOf(p), proto.dependency[i], NameAt(p, g));
      NameReached(p, proto.dependency[i], NameAt(p, g));
      assert ImportReaches(p, proto.dependency[i], g);
    }
  }

  lemma ImportedInTable(p: PoolState, proto: FileProto, name: string)
    requires Inv(p) && Recorded(p) && ImportedName(ContentOf(p), proto, name)
    ensures HasFile(p, name) && InTable(p, FileNamed(p, name)) && Imported(p, proto, FileNamed(p, name))
  {
    FilesKnown(p);
    hide Inv, Recorded, ContentOf, Reaches, NameReaches;
    var i :| 0 <= i < |proto.dependency| && ImportNameReaches(ContentOf(p), proto.dependency[i], name);
    NameReached(p, proto.dependency[i], name);
    TableNamed(p, name);
    assert ImportReaches(p, proto.dependency[i], FileNamed(p, name));
  }

  lemma MayImportByName(p: PoolState, proto: FileProto, n: string)
    requires Inv(p) && Recorded(p) && n in p.core.symbols.entries && n in ContentOf(p).symbols
    ensures MayImport(p, proto, n) <==> MayImportName(ContentOf(p), proto, n)
  {
    FilesKnown(p);
    SymbolsKnown(p);
    var s := p.core.symbols.entries[n].value;
    assert InTable(p, s.file) by { assert SymbolOk(p, n); }
    hide Inv, Recorded, ContentOf, Imported, ImportedName, InPackage;
    ImportedByName(p, proto, s.file);
    forall g | Imported(p, proto, g)
      ensures InTable(p, g) && ImportedName(ContentOf(p), proto, NameAt(p, g))
    {
      ImportedByName(p, proto, g);
    }
    forall name | ImportedName(ContentOf(p), proto, name)
      ensures HasFile(p, name) && InTable(p, FileNamed(p, name)) && Imported(p, proto, FileNamed(p, name))
    {
      ImportedInTable(p, proto, name);
    }
  }

  /** What the references of a file can mean is told by the contents. */
  lemma ExpectedByContents(p: PoolState, proto: FileProto)
    requires Inv(p) && Recorded(p)
    ensures ExpectedKinds(p, proto) == KindsIn(ContentOf(p), proto)
  {
    hide Inv, Recorded, ContentOf, MayImport, MayImportName, KindIn, NamesOf, Declarations, TakenWith, KindTable;
    SymbolsKnown(p);
    forall n | n in p.core.symbols.entries
      ensures MayImport(p, proto, n) <==> MayImportName(ContentOf(p), proto, n)
    {
      MayImportByName(p, proto, n);
    }
  }

  /** So is whether its package, imports and declarations are in order. */
  lemma AcceptableByContents(p: PoolState, proto: FileProto)
    requires Inv(p)
    ensures AcceptableTo(ContentOf(p), proto) <==> Acceptable(p, proto)
  {
    hide Inv, ContentOf, FineAmong, KindsKnown, KindTable;
    FilesKnown(p);
    SymbolsKnown(p);
  }

  /** The contents once the file has joined the pool. */
  lemma ContentJoined(base: PoolState, p: PoolState, f: nat, proto: FileProto)
    requires Inv(base) && Inv(p) && Joined(base, p, f, proto) && SymbolsJoined(base, p, f, proto)
    requires !HasFile(base, proto.name) && forall n :: HasFile(p, n) ==> HasFile(base, n) || n == proto.name
    ensures ContentOf(p) == WithFile(ContentOf(base), proto)
  {
    hide Inv, ContentOf, KindIn, NamesOf, Declarations, KindTable, AllDeclared, DescriptorsOk, FilesOk, TakenWith,
         Joined, KindsKnown, KnownAs;
    FilesJoined(base, p, f, proto);
    SymbolsKnown(base);
    SymbolsKnown(p);
    forall n | n in p.core.symbols.entries
      ensures ContentOf(p).symbols[n] == WithFile(ContentOf(base), proto).symbols[n]
    {
      SymbolJoined(base, p, f, proto, n);
    }
  }

  lemma FilesJoined(base: PoolState, p: PoolState, f: nat, proto: FileProto)
    requires Inv(base) && Inv(p) && Joined(base, p, f, proto)
    requires !HasFile(base, proto.name) && forall n :: HasFile(p, n) ==> HasFile(base, n) || n == proto.name
    ensures ContentOf(p).files == ContentOf(base).files[proto.name := proto]
  {
    hide Inv, ContentOf, ImportsFine, Complete, DescriptorsOk, FilesOk;
    FilesKnown(base);
    FilesKnown(p);
    forall n | HasFile(p, n)
      ensures ContentOf(p).files[n] == if n == proto.name then proto else ContentOf(base).files[n]
    {
      if n != proto.name { TableNamed(base, n); }
    }
    assert forall n :: n in ContentOf(p).files.Keys <==> HasFile(p, n);
    assert forall n :: n in ContentOf(base).files.Keys <==> HasFile(base, n);
  }

  lemma SymbolJoined(base: PoolState, p: PoolState, f: nat, proto: FileProto, n: string)
    requires Inv(base) && Inv(p) && Joined(base, p, f, proto) && SymbolsJoined(base, p, f, proto)
    requires n in p.core.symbols.entries
    ensures n in ContentOf(p).symbols && n in WithFile(ContentOf(base), proto).symbols
    ensures ContentOf(p).symbols[n] == WithFile(ContentOf(base), proto).symbols[n]
  {
    SymbolsKnown(base);
    SymbolsKnown(p);
    if n in NamesOf(Declarations(proto)) { KindDeclared(p, f, Declarations(proto), n); }
    hide Inv, ContentOf, KindIn, NamesOf, Declarations, KindTable, AllDeclared, PackageNames;
    if n !in base.core.symbols.entries { assert AddedFor(p, f, proto, n); }
  }

  /** The contents depend on the file and symbol tables and their descriptors only. */
  lemma SameFilesKnown(p: PoolState, p': PoolState)
    requires Inv(p) && Inv(p') && p'.core.files.entries == p.core.files.entries
    requires Sub(p.descriptors, p'.descriptors)
    ensures ContentOf(p').files == ContentOf(p).files
  {
    hide Inv, ContentOf;
    FilesKnown(p);
    FilesKnown(p');
    forall n | n in p.core.files.entries
      ensures ContentOf(p').files[n] == ContentOf(p).files[n]
    {
      TableNamed(p, n);
      assert HasFile(p, n);
    }
  }

  lemma SameSymbolsKnown(p: PoolState, p': PoolState)
    requires Inv(p) && Inv(p')
    requires p'.core.symbols.entries == p.core.symbols.entries && Sub(p.descriptors, p'.descriptors)
    ensures ContentOf(p').symbols == ContentOf(p).symbols
  {
    hide Inv, ContentOf, KindTable, KindsKnown;
    SymbolsKnown(p);
    SymbolsKnown(p');
  }

  lemma PendingIrrelevant(p: PoolState, pending: seq<string>)
    ensures Healthy(p) ==> Healthy(p.(pending := pending))
    ensures Recorded(p) ==> Recorded(p.(pending := pending))
  {
    SamePackages(p, p.(pending := pending));
    assert forall f :: Packaged(p, f) <==> Packaged(p.(pending := pending), f);
    assert forall f :: ImportsRecorded(p, f) <==> ImportsRecorded(p.(pending := pending), f);
  }

  lemma UndoneDescriptors(base: PoolState, p: PoolState)
    requires Progress(base, p)
    ensures Sub(base.descriptors, p.descriptors)
  {
  }

  lemma StaysSound(p0: PoolState, p: PoolState)
    requires Healthy(p0) && Recorded(p0) && Progress(p0, p)
    ensures Healthy(p) && Recorded(p)
  {
    StaysHealthy(p0, p);
    StaysRecorded(p0, p);
  }
}
