/** The steps of one build, seen on the pool's value: opening its checkpoint, adding
    the file, and the two ways of ending. */
module BuildSteps {
  import opened Journal
  import opened TablesSpec
  import opened Rollback
  import opened Protos
  import opened Optional
  import opened PoolSpec

  function Opened(base: PoolState): State
    requires Nested(base.core)
  {
    Step(base.core, AddCheckpoint)
  }

  /** p is base with one more checkpoint open and, since then, only additions: the file
      `name` at f, and files that were loaded completely on the way. */
  ghost predicate Building(base: PoolState, p: PoolState, f: nat, name: string)
    requires Nested(base.core)
  {
    && Inv(p)
    && Grows(Opened(base), p.core)
    && p.pending == base.pending
    && SameDescriptors(base, p)
    && base.nextAddress <= f
    && InTable(p, f) && p.descriptors[f].proto.name == name
    && OthersOk(base, p, name)
  }

  ghost predicate OthersOk(base: PoolState, p: PoolState, name: string) {
    forall n :: n in p.core.files.entries && n !in base.core.files.entries && n != name ==> NewFileOk(base, p, n)
  }

  lemma OpenCheckpoint(base: PoolState)
    requires Inv(base)
    ensures Inv(base.(core := Opened(base)))
    ensures Grows(Opened(base), Opened(base))
    ensures PackagesClosed(base) ==> PackagesClosed(base.(core := Opened(base)))
  {
    StepKeepsOwned(base.core, AddCheckpoint);
    GrowsRefl(Opened(base));
    SameTables(base, base.(core := Opened(base)));
    SamePackages(base, base.(core := Opened(base)));
  }

  lemma SamePackages(p: PoolState, p': PoolState)
    requires p'.core.symbols.entries == p.core.symbols.entries
    ensures PackagesClosed(p) <==> PackagesClosed(p')
  {
  }

  /** A descriptor that nothing points at yet. */
  lemma NewDescriptor(p: PoolState, f: nat, proto: FileProto)
    requires Inv(p) && f !in p.descriptors && f < p.nextAddress
    ensures var p' := p.(descriptors := p.descriptors[f := FileDescriptor(proto, [], [])]);
            Inv(p') && Progress(p, p')
  {
    var p' := p.(descriptors := p.descriptors[f := FileDescriptor(proto, [], [])]);
    forall g | g in p'.descriptors
      ensures DescriptorOk(p', g)
    {
      if g != f { assert DescriptorOk(p, g); }
    }
    SameTables(p, p');
    SamePackages(p, p');
    GrowsRefl(p.core);
  }

  lemma FileAdded(base: PoolState, p: PoolState, f: nat, key: PoolString)
    requires Nested(base.core) && Inv(p) && Progress(base.(core := Opened(base)), p)
    requires p.core.files.entries == base.core.files.entries
    requires key in p.core.strings && key.id !in p.core.files.entries
    requires base.nextAddress <= f && f in p.descriptors
    requires p.descriptors[f].proto.name == key.id && p.descriptors[f].imports == []
    ensures var p' := p.(core := Step(p.core, Op.AddFile(key, f)));
            && Building(base, p', f, key.id)
            && (PackagesClosed(base) ==> PackagesClosed(p'))
            && p'.core.symbols.entries == p.core.symbols.entries
  {
    hide Linked, Extends, PackagesClosed, Built, NewFileOk;
    var p' := p.(core := Step(p.core, Op.AddFile(key, f)));
    AddFileCore(p.core, key, f);
    FileAddedLinked(p, p', f, key.id);
    SamePackages(base, base.(core := Opened(base)));
    SamePackages(p, p');
    GrowsTrans(Opened(base), p.core, p'.core);
  }

  lemma AddFileCore(s: State, key: PoolString, f: nat)
    requires Owned(s) && key in s.strings && key.id !in s.files.entries
    ensures var s' := Step(s, Op.AddFile(key, f));
            && Owned(s') && Grows(s, s')
            && s'.symbols == s.symbols
            && s'.files.entries == s.files.entries[key.id := Entry(key, f)]
  {
    StepGrows(s, Op.AddFile(key, f));
    StepKeepsOwned(s, Op.AddFile(key, f));
  }

  lemma FileAddedLinked(p: PoolState, p': PoolState, f: nat, name: string)
    requires Linked(p) && f in p.descriptors && name !in p.core.files.entries
    requires p.descriptors[f].proto.name == name && p.descriptors[f].imports == []
    requires p' == p.(core := p'.core)
    requires p'.core.symbols.entries == p.core.symbols.entries
    requires Sub(p.core.files.entries, p'.core.files.entries)
    requires p'.core.files.entries.Keys == p.core.files.entries.Keys + {name}
    requires FileNamed(p', name) == f
    ensures Linked(p') && InTable(p', f)
  {
    forall g | InTable(p, g) ensures InTable(p', g) {}
    forall n | n in p'.core.files.entries
      ensures FileOk(p', n)
    {
      if n != name { assert FileOk(p, n); }
    }
  }

  lemma BuildingAdvances(base: PoolState, p: PoolState, p': PoolState, f: nat, name: string)
    requires Nested(base.core) && Building(base, p, f, name)
    requires Inv(p') && Advances(p, p')
    ensures Building(base, p', f, name)
  {
    hide Owned, Linked, Extends;
    GrowsTrans(Opened(base), p.core, p'.core);
    OthersStayOk(base, p, p', name);
  }

  lemma OthersStayOk(base: PoolState, p: PoolState, p': PoolState, name: string)
    requires OthersOk(base, p, name) && Advances(p, p')
    requires p.pending == base.pending && SameDescriptors(base, p)
    ensures OthersOk(base, p', name)
  {
    forall n | n in p'.core.files.entries && n !in base.core.files.entries && n != name
      ensures NewFileOk(base, p', n)
    {
      if n in p.core.files.entries { BuiltStable(p, p', FileNamed(p, n)); }
    }
  }

  /** Filling in the imports of the file being built. */
  lemma ImportsSet(base: PoolState, p: PoolState, f: nat, name: string, d: FileDescriptor)
    requires Nested(base.core) && DescriptorsOk(base) && Building(base, p, f, name)
    requires forall g :: g in p.descriptors ==> g <= f
    requires d.proto == p.descriptors[f].proto
    requires forall g :: Some(g) in d.imports ==> InTable(p, g)
    requires forall k :: k in d.publicImports ==> k < |d.imports|
    requires forall n :: HasFile(p, n) && !HasFile(base, n) ==> n == name
    ensures Building(base, p.(descriptors := p.descriptors[f := d]), f, name)
  {
    hide Owned, Extends, FilesOk, SymbolsOk;
    var p' := p.(descriptors := p.descriptors[f := d]);
    assert f !in base.descriptors by {
      assert forall g :: g in base.descriptors ==> DescriptorOk(base, g);
    }
    ImportsSetLinked(p, f, d);
    assert forall n :: n in p'.core.files.entries ==> HasFile(p, n);
    assert OthersOk(base, p', name);
  }

  lemma ImportsSetLinked(p: PoolState, f: nat, d: FileDescriptor)
    requires Linked(p) && InTable(p, f)
    requires forall g :: g in p.descriptors ==> g <= f
    requires d.proto == p.descriptors[f].proto
    requires forall g :: Some(g) in d.imports ==> InTable(p, g)
    requires forall k :: k in d.publicImports ==> k < |d.imports|
    ensures var p' := p.(descriptors := p.descriptors[f := d]); Linked(p') && InTable(p', f)
  {
  }

  lemma RollbackCore(s0: State, s: State)
    requires Nested(s0) && Nested(s) && Grows(Step(s0, AddCheckpoint), s)
    ensures Step(s, RollbackToLastCheckpoint) == s0
  {
  }

  /** Rolling back leaves the tables exactly as before the build. */
  lemma RollbackBuild(base: PoolState, p: PoolState)
    requires Inv(base) && Inv(p) && Grows(Opened(base), p.core)
    requires p.pending == base.pending && SameDescriptors(base, p)
    ensures Enabled(|p.core.checkpoints|, RollbackToLastCheckpoint)
    ensures var p' := p.(core := Step(p.core, RollbackToLastCheckpoint));
            p'.core == base.core && Inv(p') && Progress(base, p')
  {
    RollbackCore(base.core, p.core);
    var p' := p.(core := base.core);
    DescriptorsStay(p, p');
    SameTables(base, p');
    SamePackages(base, p');
    GrowsRefl(base.core);
  }

  lemma DescriptorsStay(p: PoolState, p': PoolState)
    requires DescriptorsOk(p) && p' == p.(core := p'.core)
    ensures DescriptorsOk(p')
  {
  }

  /** Clearing the checkpoint makes the file, and what was loaded with it, part of the
      pool. */
  lemma CommitBuild(base: PoolState, p: PoolState, f: nat, name: string)
    requires Inv(base) && Nested(base.core) && Building(base, p, f, name) && Built(p, f)
    requires name !in base.pending && FromDatabase(p, name)
    ensures Owned(p.core) && p.core.checkpoints != []
    ensures var p' := p.(core := Step(p.core, ClearLastCheckpoint));
            && p'.core.files.entries == p.core.files.entries
            && p'.core.symbols.entries == p.core.symbols.entries
            && Inv(p') && Advances(base, p') && Built(p', f)
            && (PackagesClosed(p) ==> PackagesClosed(p'))
  {
    var p' := p.(core := Step(p.core, ClearLastCheckpoint));
    StepKeepsOwned(p.core, ClearLastCheckpoint);
    CommitGrows(base.core, p.core);
    CommitTables(base, p, p', f, name);
  }

  lemma CommitTables(base: PoolState, p: PoolState, p': PoolState, f: nat, name: string)
    requires Inv(base) && Building(base, p, f, name) && Built(p, f)
    requires name !in base.pending && FromDatabase(p, name)
    requires p' == p.(core := p'.core)
    requires p'.core.files.entries == p.core.files.entries
    requires p'.core.symbols.entries == p.core.symbols.entries
    ensures Linked(p') && Built(p', f) && (PackagesClosed(p) ==> PackagesClosed(p'))
    ensures forall n :: n in p'.core.files.entries && n !in base.core.files.entries ==> NewFileOk(base, p', n)
  {
    hide Owned, Extends, PackagesClosed, AllDeclared, ImportsRecorded, DescriptorOk, FilesOk, SymbolsOk;
    DescriptorsStay(p, p');
    SameTables(p, p');
    SamePackages(p, p');
    BuiltStable(p, p', f);
    forall n | n in p'.core.files.entries && n !in base.core.files.entries
      ensures NewFileOk(base, p', n)
    {
      BuiltStable(p, p', FileNamed(p, n));
    }
  }

  lemma CommitGrows(s0: State, s: State)
    requires Nested(s0) && Nested(s) && Grows(Step(s0, AddCheckpoint), s)
    ensures Enabled(|s.checkpoints|, ClearLastCheckpoint)
    ensures Grows(s0, Step(s, ClearLastCheckpoint))
    ensures Step(s, ClearLastCheckpoint).files.entries == s.files.entries
    ensures Step(s, ClearLastCheckpoint).symbols.entries == s.symbols.entries
  {
  }

  /** While a name is on the pending list no build may add a file of that name. */
  lemma PendingPopped(p0: PoolState, p: PoolState, name: string)
    requires Inv(p) && Progress(p0.(pending := p0.pending + [name]), p)
    ensures Inv(p.(pending := p0.pending)) && Progress(p0, p.(pending := p0.pending))
    ensures OnlyNewFiles(p0.(pending := p0.pending + [name]), p) ==> OnlyNewFiles(p0, p.(pending := p0.pending))
    ensures !HasFile(p0, name) ==> !HasFile(p, name)
  {
    var p1 := p0.(pending := p0.pending + [name]);
    var p' := p.(pending := p0.pending);
    SameTables(p, p');
    SamePackages(p0, p1);
    SamePackages(p, p');
    forall n | n in p'.core.files.entries && n !in p0.core.files.entries
      ensures NewFileOk(p0, p', n)
    {
      assert NewFileOk(p1, p, n);
      BuiltStable(p, p', FileNamed(p, n));
    }
    assert name in p1.pending;
  }
}
