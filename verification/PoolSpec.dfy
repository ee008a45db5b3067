/** The whole pool as a value, the invariant every build keeps, and what one build may
    change. */
module PoolSpec {
  import opened TablesSpec
  import opened Rollback
  import opened Protos
  import opened Names
  import opened Optional

  /** A FileDescriptor object: the proto it is made from, dependencies_ (None is NULL)
      and public_dependencies_ (indexes into the former). */
  datatype FileDescriptor = FileDescriptor(proto: FileProto, imports: seq<Option<nat>>, publicImports: seq<nat>)

  /** What the fields and methods of a file point at, in the order of its references. */
  type Links = seq<seq<Symbol>>

  /** Addresses are handed out in increasing order and never reused.  `links` has an entry
      for each file that was built to its end. */
  datatype PoolState = PoolState(
    core: State, pending: seq<string>, nextAddress: nat, descriptors: map<nat, FileDescriptor>,
    links: map<nat, Links>, database: Option<Database>)

  function EmptyPool(database: Option<Database>): PoolState {
    PoolState(EmptyState, [], 0, map[], map[], database)
  }

  predicate HasFile(p: PoolState, name: string) { name in p.core.files.entries }

  function FileNamed(p: PoolState, name: string): nat
    requires HasFile(p, name)
  {
    p.core.files.entries[name].value
  }

  function FindFile(p: PoolState, name: string): Option<nat> {
    if HasFile(p, name) then Some(FileNamed(p, name)) else None
  }

  /** f points at a descriptor that the file table still holds. */
  ghost predicate InTable(p: PoolState, f: nat) {
    f in p.descriptors && HasFile(p, p.descriptors[f].proto.name) && FileNamed(p, p.descriptors[f].proto.name) == f
  }

  // ------------------------------------------------------------- invariant

  /** Pointers between descriptors lead to descriptors that were there before, or to
      the descriptor itself. */
  ghost predicate DescriptorOk(p: PoolState, f: nat)
    requires f in p.descriptors
  {
    var d := p.descriptors[f];
    && f < p.nextAddress
    && (forall g :: Some(g) in d.imports ==> g in p.descriptors && g <= f)
    && (forall k :: k in d.publicImports ==> k < |d.imports|)
  }

  ghost predicate ImportsInTable(p: PoolState, f: nat)
    requires f in p.descriptors
  {
    forall g :: Some(g) in p.descriptors[f].imports ==> InTable(p, g)
  }

  ghost predicate DescriptorsOk(p: PoolState) {
    && (forall f :: f in p.descriptors ==> DescriptorOk(p, f))
    && (forall f :: f in p.links ==> f < p.nextAddress)
  }

  ghost predicate FileOk(p: PoolState, n: string)
    requires HasFile(p, n)
  {
    var f := FileNamed(p, n);
    f in p.descriptors && p.descriptors[f].proto.name == n && ImportsInTable(p, f)
  }

  ghost predicate FilesOk(p: PoolState) {
    forall n :: n in p.core.files.entries ==> FileOk(p, n)
  }

  /** A symbol stands under its own full name. */
  ghost predicate SymbolOk(p: PoolState, s: string)
    requires s in p.core.symbols.entries
  {
    InTable(p, p.core.symbols.entries[s].value.file) && p.core.symbols.entries[s].value.fullName == s
  }

  ghost predicate SymbolsOk(p: PoolState) {
    forall s :: s in p.core.symbols.entries ==> SymbolOk(p, s)
  }

  /** Every pointer held by a table or by a file in the tables leads to a descriptor
      that the file table still holds. */
  ghost predicate Linked(p: PoolState) {
    DescriptorsOk(p) && FilesOk(p) && SymbolsOk(p)
  }

  ghost predicate Inv(p: PoolState) {
    Owned(p.core) && Linked(p)
  }

  /** All imports of f were found: they are the table's files of the imported names. */
  ghost predicate Complete(p: PoolState, f: nat) {
    f in p.descriptors &&
    var d := p.descriptors[f];
    && |d.imports| == |d.proto.dependency|
    && forall i :: 0 <= i < |d.imports| ==>
         HasFile(p, d.proto.dependency[i]) && d.imports[i] == Some(FileNamed(p, d.proto.dependency[i]))
  }

  /** The imports and public imports of f are the ones its proto lists, each once. */
  ghost predicate ImportsRecorded(p: PoolState, f: nat) {
    Complete(p, f) &&
    var d := p.descriptors[f];
    && (forall i, j :: 0 <= i < j < |d.proto.dependency| ==> d.proto.dependency[i] != d.proto.dependency[j])
    && d.publicImports == d.proto.publicDependency
  }

  /** f is everything its proto asks for: distinct imports, all found and recorded in
      order, its public imports, its package, and all the symbols it declares. */
  ghost predicate Built(p: PoolState, f: nat) {
    ImportsRecorded(p, f) &&
    var d := p.descriptors[f];
    && (d.proto.package != "" ==> IsPackage(p, d.proto.package))
    && AllDeclared(p, f, Declarations(d.proto))
  }

  ghost predicate Declared(p: PoolState, f: nat, s: Declaration) {
    && ValidIdentifier(s.name)
    && s.fullName in p.core.symbols.entries
    && var v := p.core.symbols.entries[s.fullName].value; v.kind == s.kind && v.file == f
  }

  ghost predicate AllDeclared(p: PoolState, f: nat, ds: seq<Declaration>) {
    forall s :: s in ds ==> Declared(p, f, s)
  }

  ghost predicate IsPackage(p: PoolState, n: string) {
    n in p.core.symbols.entries && p.core.symbols.entries[n].value.kind == Package
  }

  /** Every package's enclosing name is a package. */
  ghost predicate PackagesClosed(p: PoolState) {
    forall n :: IsPackage(p, n) && HasDot(n) ==> IsPackage(p, Enclosing(n))
  }

  // ------------------------------------------------------------- change

  ghost predicate Sub<K, V>(a: map<K, V>, b: map<K, V>) {
    forall k :: k in a ==> k in b && b[k] == a[k]
  }

  /** The tables only gained entries, and if a checkpoint is open the gain can be
      undone exactly. */
  ghost predicate Grows(s0: State, s: State) {
    && s.checkpoints == s0.checkpoints
    && s0.strings <= s.strings
    && Sub(s0.symbols.entries, s.symbols.entries)
    && Sub(s0.files.entries, s.files.entries)
    && (s0.checkpoints != [] ==> Extends(s0, s))
  }

  lemma GrowsRefl(s: State)
    ensures Grows(s, s)
  {
  }

  lemma GrowsTrans(s0: State, s1: State, s2: State)
    requires Grows(s0, s1) && Grows(s1, s2)
    ensures Grows(s0, s2)
  {
    if s0.checkpoints != [] { ExtendsTrans(s0, s1, s2); }
  }

  lemma StepGrows(s: State, op: Op)
    requires Nested(s) && !IsPop(op) && !op.AddCheckpoint?
    ensures Grows(s, Step(s, op))
  {
    ExtendsRefl(s);
    StepExtends(s, s, op);
  }

  /** Descriptors that existed keep their contents; addresses only move on. */
  ghost predicate SameDescriptors(p0: PoolState, p: PoolState) {
    && p.database == p0.database
    && p0.nextAddress <= p.nextAddress
    && Sub(p0.descriptors, p.descriptors)
    && Sub(p0.links, p.links)
  }

  ghost predicate NewFileOk(p0: PoolState, p: PoolState, n: string)
    requires HasFile(p, n)
  {
    n !in p0.pending && FileNamed(p, n) >= p0.nextAddress && Built(p, FileNamed(p, n)) && FromDatabase(p, n)
  }

  /** A file that a pool with a database loads is the one that the database has. */
  ghost predicate FromDatabase(p: PoolState, n: string)
    requires HasFile(p, n)
  {
    p.database.Some? ==>
      && n in p.database.value.files && FileNamed(p, n) in p.descriptors
      && p.descriptors[FileNamed(p, n)].proto == p.database.value.files[n]
  }

  ghost predicate AllFromDatabase(p0: PoolState, p: PoolState) {
    forall n :: n in p.core.files.entries && n !in p0.core.files.entries ==> FromDatabase(p, n)
  }

  /** What any amount of loading may do to a pool: the pending list is as before, what
      was there is untouched, and every file that appeared is completely built. */
  ghost predicate Advances(p0: PoolState, p: PoolState) {
    && Grows(p0.core, p.core)
    && p.pending == p0.pending
    && SameDescriptors(p0, p)
    && forall n :: n in p.core.files.entries && n !in p0.core.files.entries ==> NewFileOk(p0, p, n)
  }

  /** Advances, and if all packages had their parents they still do. */
  ghost predicate Progress(p0: PoolState, p: PoolState) {
    Advances(p0, p) && (PackagesClosed(p0) ==> PackagesClosed(p))
  }

  /** Every symbol that was added has a name and belongs to a file that was added, which
      declares it or is in that package. */
  ghost predicate OnlyNewFiles(p0: PoolState, p: PoolState) {
    forall n :: n in p.core.symbols.entries && n !in p0.core.symbols.entries ==> NewSymbolOk(p0, p, n)
  }

  ghost predicate NewSymbolOk(p0: PoolState, p: PoolState, n: string)
    requires n in p.core.symbols.entries
  {
    var s := p.core.symbols.entries[n].value;
    n != "" && s.file >= p0.nextAddress && s.file in p.descriptors && GivenBy(p.descriptors[s.file].proto, n, s.kind)
  }

  predicate GivenBy(proto: FileProto, n: string, kind: SymbolType) {
    n in NamesOf(Declarations(proto)) || (kind == Package && n in PackageNames(proto.package))
  }

  /** Progress by adding whole files. */
  ghost predicate AddsFiles(p0: PoolState, p: PoolState) {
    Progress(p0, p) && OnlyNewFiles(p0, p)
  }

  lemma LoadedFromDatabase(p0: PoolState, p: PoolState)
    requires Advances(p0, p)
    ensures AllFromDatabase(p0, p)
  {
  }

  lemma SameAllFromDatabase(p: PoolState)
    ensures AllFromDatabase(p, p)
  {
  }

  lemma GrownSymbols(p0: PoolState, p: PoolState)
    requires Advances(p0, p)
    ensures Sub(p0.core.symbols.entries, p.core.symbols.entries) && p0.nextAddress <= p.nextAddress
    ensures Sub(p0.descriptors, p.descriptors) && p.database == p0.database
  {
  }

  lemma BuiltStable(p0: PoolState, p: PoolState, f: nat)
    requires Sub(p0.core.files.entries, p.core.files.entries) && Sub(p0.descriptors, p.descriptors)
    requires Sub(p0.core.symbols.entries, p.core.symbols.entries)
    requires Built(p0, f)
    ensures Built(p, f)
  {
  }

  lemma AdvancesRefl(p: PoolState)
    ensures Advances(p, p) && Progress(p, p) && AddsFiles(p, p)
  {
  }

  lemma AdvancesTrans(p0: PoolState, p1: PoolState, p2: PoolState)
    requires Advances(p0, p1) && Advances(p1, p2)
    ensures Advances(p0, p2)
  {
    GrowsTrans(p0.core, p1.core, p2.core);
    forall n | n in p2.core.files.entries && n !in p0.core.files.entries
      ensures NewFileOk(p0, p2, n)
    {
      if n in p1.core.files.entries {
        BuiltStable(p1, p2, FileNamed(p1, n));
      }
    }
  }

  lemma ProgressTrans(p0: PoolState, p1: PoolState, p2: PoolState)
    requires Progress(p0, p1) && Progress(p1, p2)
    ensures Progress(p0, p2)
  {
    AdvancesTrans(p0, p1, p2);
  }

  lemma AddsFilesTrans(p0: PoolState, p1: PoolState, p2: PoolState)
    requires AddsFiles(p0, p1) && AddsFiles(p1, p2)
    ensures AddsFiles(p0, p2)
  {
    hide Advances, PackagesClosed, GivenBy;
    ProgressTrans(p0, p1, p2);
    GrownSymbols(p0, p1);
    GrownSymbols(p1, p2);
    forall n | n in p2.core.symbols.entries && n !in p0.core.symbols.entries
      ensures NewSymbolOk(p0, p2, n)
    {
      if n in p1.core.symbols.entries { assert NewSymbolOk(p0, p1, n); }
    }
  }

  /** An addition that touches neither the file table nor any file pointer. */
  lemma AllocationAdvances(p: PoolState, op: Op, next: nat)
    requires Inv(p) && next >= p.nextAddress
    requires !IsPop(op) && !op.AddCheckpoint? && !op.AddSymbol? && !op.AddFile?
    ensures var p' := p.(core := Step(p.core, op), nextAddress := next);
            Inv(p') && Progress(p, p')
  {
    StepGrows(p.core, op);
    StepKeepsOwned(p.core, op);
    SameTablesProgress(p, p.(core := Step(p.core, op), nextAddress := next));
  }

  lemma SameTablesProgress(p: PoolState, p': PoolState)
    requires Linked(p) && Grows(p.core, p'.core)
    requires p'.core.files.entries == p.core.files.entries
    requires p'.core.symbols.entries == p.core.symbols.entries
    requires p' == p.(core := p'.core, nextAddress := p'.nextAddress) && p'.nextAddress >= p.nextAddress
    ensures Linked(p') && Progress(p, p')
  {
    assert DescriptorsOk(p') by {
      forall f | f in p'.descriptors ensures DescriptorOk(p', f) { assert DescriptorOk(p, f); }
    }
    SameTables(p, p');
    assert forall n :: IsPackage(p, n) <==> IsPackage(p', n);
    hide Linked, Extends, NewFileOk;
  }

  /** The invariant does not depend on anything but these parts. */
  lemma SameTables(p: PoolState, p': PoolState)
    requires Linked(p)
    requires p'.core.files.entries == p.core.files.entries
    requires p'.core.symbols.entries == p.core.symbols.entries
    requires Sub(p.descriptors, p'.descriptors) && DescriptorsOk(p')
    ensures Linked(p')
  {
    forall f | InTable(p, f) ensures InTable(p', f) {}
    forall n | n in p'.core.files.entries
      ensures FileOk(p', n)
    {
      assert FileOk(p, n);
    }
  }

  /** Adding a symbol of a file in the table. */
  lemma SymbolAdvances(p: PoolState, name: PoolString, symbol: Symbol)
    requires Inv(p) && name in p.core.strings && InTable(p, symbol.file) && symbol.fullName == name.id
    ensures var p' := p.(core := Step(p.core, Op.AddSymbol(name, symbol)));
            Inv(p') && Advances(p, p') && (symbol.kind != Package ==> Progress(p, p'))
  {
    var op := Op.AddSymbol(name, symbol);
    var p' := p.(core := Step(p.core, op));
    StepGrows(p.core, op);
    StepKeepsOwned(p.core, op);
    SymbolLinked(p, p');
    if symbol.kind != Package {
      assert forall n :: IsPackage(p, n) <==> IsPackage(p', n);
    }
  }

  lemma SymbolLinked(p: PoolState, p': PoolState)
    requires Linked(p)
    requires p'.core.files.entries == p.core.files.entries
    requires p' == p.(core := p'.core)
    requires forall n :: n in p'.core.symbols.entries ==>
               if n in p.core.symbols.entries then p'.core.symbols.entries[n] == p.core.symbols.entries[n]
               else InTable(p, p'.core.symbols.entries[n].value.file) && p'.core.symbols.entries[n].value.fullName == n
    ensures Linked(p')
  {
  }
}
