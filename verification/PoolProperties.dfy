/** What loading files may do to a pool, what holds of it between public calls, and what
    follows from that. */
module PoolProperties {
  import opened Rollback
  import opened Names
  import opened Optional
  import opened PoolSpec
  import opened Protos
  import opened LookupSpec

  // ------------------------------------------------------------- loading

  /** The package of every file in the table has been declared, and all packages around
      it: so it is between calls, and while a sound file is being linked. */
  ghost predicate Healthy(p: PoolState) {
    PackagesClosed(p) && forall n :: n in p.core.files.entries ==> Packaged(p, FileNamed(p, n))
  }

  ghost predicate Packaged(p: PoolState, f: nat) {
    f in p.descriptors && (p.descriptors[f].proto.package != "" ==> IsPackage(p, p.descriptors[f].proto.package))
  }

  lemma StaysHealthy(p0: PoolState, p: PoolState)
    requires Healthy(p0) && Progress(p0, p)
    ensures Healthy(p)
  {
    hide Extends, PackagesClosed;
    forall n | n in p.core.files.entries
      ensures Packaged(p, FileNamed(p, n))
    {
      if n in p0.core.files.entries {
        assert Packaged(p0, FileNamed(p0, n));
      } else {
        assert NewFileOk(p0, p, n);
      }
    }
  }

  /** All references of f mean something acceptable among what f may use, and are linked to
      what they mean. */
  ghost predicate Resolved(p: PoolState, f: nat) {
    f in p.descriptors && exists dependencies :: ResolvedIn(p, f, dependencies)
  }

  ghost predicate ResolvedIn(p: PoolState, f: nat, dependencies: set<nat>)
    requires f in p.descriptors
  {
    && DependenciesOf(p, f, dependencies) && SeesEnough(p, f, dependencies)
    && ReferencesOk(KindsOf(View(p, f, dependencies)), References(p.descriptors[f].proto))
    && f in p.links && AllLinksMeant(View(p, f, dependencies), References(p.descriptors[f].proto), p.links[f])
  }

  ghost predicate NewResolved(p0: PoolState, p: PoolState) {
    forall n :: n in p.core.files.entries && n !in p0.core.files.entries ==> Resolved(p, FileNamed(p, n))
  }

  /** What building and loading does: whole files are added, from a healthy pool on with
      all that they refer to. */
  ghost predicate Loads(p0: PoolState, p: PoolState) {
    AddsFiles(p0, p) && (Healthy(p0) ==> NewResolved(p0, p))
  }

  lemma LoadsRefl(p: PoolState)
    ensures Loads(p, p)
  {
    AdvancesRefl(p);
  }

  lemma SameTablesLoads(p0: PoolState, p: PoolState)
    requires Progress(p0, p) && p.core == p0.core
    ensures Loads(p0, p)
  {
    hide Progress;
  }

  lemma ResolvedStable(p0: PoolState, p: PoolState, f: nat)
    requires DescriptorsOk(p0) && AddsFiles(p0, p) && Resolved(p0, f)
    ensures Resolved(p, f)
  {
    hide Advances, PackagesClosed, OnlyNewFiles, SeesEnough, View, KindsOf, ReferencesOk, DependenciesOf,
         DescriptorsOk, AllLinksMeant;
    var dependencies :| ResolvedIn(p0, f, dependencies);
    DependenciesStable(p0, p, f, dependencies);
    ViewStable(p0, p, f, dependencies);
    OldDescriptor(p0, p, f);
    assert ResolvedIn(p, f, dependencies);
  }

  lemma OldDescriptor(p0: PoolState, p: PoolState, f: nat)
    requires Advances(p0, p) && f in p0.descriptors
    ensures f in p.descriptors && p.descriptors[f] == p0.descriptors[f]
    ensures f in p0.links ==> f in p.links && p.links[f] == p0.links[f]
  {
  }

  lemma ResolvedSame(p: PoolState, p': PoolState, f: nat)
    requires p'.core.symbols.entries == p.core.symbols.entries && p'.descriptors == p.descriptors
    requires f in p.links ==> f in p'.links && p'.links[f] == p.links[f]
    ensures Resolved(p, f) ==> Resolved(p', f)
  {
    if Resolved(p, f) {
      var dependencies :| ResolvedIn(p, f, dependencies);
      SameView(p, p', f, dependencies);
      hide View, KindsOf, ReferencesOk;
      assert ResolvedIn(p', f, dependencies);
    }
  }

  lemma LoadsTrans(p0: PoolState, p1: PoolState, p2: PoolState)
    requires Inv(p1) && Loads(p0, p1) && Loads(p1, p2)
    ensures Loads(p0, p2)
  {
    AddsFilesTrans(p0, p1, p2);
    if Healthy(p0) {
      StaysHealthy(p0, p1);
      forall n | n in p2.core.files.entries && n !in p0.core.files.entries
        ensures Resolved(p2, FileNamed(p2, n))
      {
        if n in p1.core.files.entries {
          ResolvedStable(p1, p2, FileNamed(p1, n));
          SameFile(p1, p2, n);
        }
      }
    }
    hide Inv, AddsFiles, Healthy, Resolved;
  }

  lemma SameFile(p0: PoolState, p: PoolState, n: string)
    requires Advances(p0, p) && HasFile(p0, n)
    ensures HasFile(p, n) && FileNamed(p, n) == FileNamed(p0, n)
  {
  }

  /** Only the tables and descriptors count. */
  lemma SameNewResolved(p0: PoolState, p0': PoolState, p: PoolState, p': PoolState)
    requires p0'.core.files.entries == p0.core.files.entries && p'.core.files.entries == p.core.files.entries
    requires p'.core.symbols.entries == p.core.symbols.entries && p'.descriptors == p.descriptors
    requires p'.links == p.links && NewResolved(p0, p)
    ensures NewResolved(p0', p')
  {
    hide Resolved;
    forall n | n in p'.core.files.entries && n !in p0'.core.files.entries
      ensures Resolved(p', FileNamed(p', n))
    {
      ResolvedSame(p, p', FileNamed(p, n));
    }
  }

  // ------------------------------------------------------------- between calls

  /** No build is in progress: nothing is pending, no checkpoint is open, every package
      has its parent, and every file in the table is completely built, with all that it
      refers to. */
  ghost predicate Settled(p: PoolState) {
    && Inv(p)
    && p.core.checkpoints == [] && p.pending == []
    && PackagesClosed(p)
    && AllBuilt(p) && AllResolved(p)
  }

  ghost predicate AllBuilt(p: PoolState) {
    forall n :: n in p.core.files.entries ==> Built(p, FileNamed(p, n))
  }

  ghost predicate AllResolved(p: PoolState) {
    forall n :: n in p.core.files.entries ==> Resolved(p, FileNamed(p, n))
  }

  lemma SettledIsHealthy(p: PoolState)
    requires Settled(p)
    ensures Healthy(p)
  {
    hide Inv, PackagesClosed;
    forall n | n in p.core.files.entries
      ensures Packaged(p, FileNamed(p, n))
    {
      assert Built(p, FileNamed(p, n));
    }
  }

  lemma EmptySettled(database: Option<Database>)
    ensures Settled(EmptyPool(database))
  {
  }

  /** Whatever was loaded or failed to load in between, a settled pool stays settled. */
  lemma StaysSettled(p0: PoolState, p: PoolState)
    requires Settled(p0) && Inv(p) && Loads(p0, p)
    ensures Settled(p)
  {
    hide Extends, PackagesClosed, Resolved;
    SettledIsHealthy(p0);
    forall n | n in p.core.files.entries
      ensures Built(p, FileNamed(p, n)) && Resolved(p, FileNamed(p, n))
    {
      if n in p0.core.files.entries {
        BuiltStable(p0, p, FileNamed(p0, n));
        ResolvedStable(p0, p, FileNamed(p0, n));
      } else {
        assert NewFileOk(p0, p, n);
      }
    }
  }

  /** Once a file is in the pool, nothing that is loaded later changes what it may use, and
      so what its references mean: always something acceptable. */
  lemma ReferencesStayMeant(p0: PoolState, p: PoolState, name: string, dependencies: set<nat>)
    requires Settled(p0) && Loads(p0, p) && HasFile(p0, name) && FileNamed(p0, name) in p0.descriptors
    requires DependenciesOf(p0, FileNamed(p0, name), dependencies)
    ensures
      var f := FileNamed(p0, name);
      && HasFile(p, name) && FileNamed(p, name) == f && f in p.descriptors && DependenciesOf(p, f, dependencies)
      && View(p, f, dependencies) == View(p0, f, dependencies)
      && ReferencesOk(KindsOf(View(p, f, dependencies)), References(p.descriptors[f].proto))
      && f in p.links && AllLinksMeant(View(p, f, dependencies), References(p.descriptors[f].proto), p.links[f])
  {
    var f := FileNamed(p0, name);
    hide Advances, PackagesClosed, OnlyNewFiles, SeesEnough, View, KindsOf, ReferencesOk, AllBuilt, Reached,
         AllLinksMeant;
    SameFile(p0, p, name);
    var d :| ResolvedIn(p0, f, d);
    OneDependencySet(p0, f, d, dependencies);
    DependenciesStable(p0, p, f, d);
    ViewStable(p0, p, f, d);
    OldDescriptor(p0, p, f);
  }

  lemma OneDependencySet(p: PoolState, f: nat, d: set<nat>, dependencies: set<nat>)
    requires f in p.descriptors && DependenciesOf(p, f, d) && DependenciesOf(p, f, dependencies)
    ensures d == dependencies
  {
    hide Reaches;
  }

  lemma StillBuilt(p0: PoolState, p: PoolState, name: string)
    requires Settled(p) && Progress(p0, p) && HasFile(p0, name)
    requires Inv(p0)
    ensures HasFile(p, name) && FileNamed(p, name) == FileNamed(p0, name) && Built(p, FileNamed(p, name))
    ensures FileNamed(p0, name) in p0.descriptors && FileNamed(p, name) in p.descriptors
    ensures p.descriptors[FileNamed(p, name)] == p0.descriptors[FileNamed(p0, name)]
  {
  }

  ghost predicate Imports(p: PoolState, f: nat, g: nat) {
    f in p.descriptors && Some(g) in p.descriptors[f].imports
  }

  ghost predicate ImportWalk(p: PoolState, walk: seq<nat>) {
    |walk| >= 1 && forall i :: 0 <= i < |walk| - 1 ==> Imports(p, walk[i], walk[i + 1])
  }

  lemma {:induction false} WalkDescends(p: PoolState, walk: seq<nat>, i: nat, j: nat)
    requires Inv(p) && ImportWalk(p, walk) && i <= j < |walk|
    ensures walk[j] <= walk[i]
    decreases j
  {
    if i < j {
      WalkDescends(p, walk, i, j - 1);
      assert Imports(p, walk[j - 1], walk[j]);
      assert DescriptorOk(p, walk[j - 1]);
    }
  }

  /** Among the files of a pool, even in the middle of a build, the only import cycles
      are files that import themselves. */
  lemma ImportCyclesAreSelfImports(p: PoolState, walk: seq<nat>)
    requires Inv(p) && ImportWalk(p, walk) && walk[0] == walk[|walk| - 1]
    ensures forall f :: f in walk ==> f == walk[0]
  {
    forall i | 0 <= i < |walk| ensures walk[i] == walk[0] {
      WalkDescends(p, walk, 0, i);
      WalkDescends(p, walk, i, |walk| - 1);
    }
  }

  /** Following imports from a file in the table never leaves the table. */
  lemma {:induction false} ImportsStayInTable(p: PoolState, walk: seq<nat>, i: nat)
    requires Inv(p) && ImportWalk(p, walk) && i < |walk| && InTable(p, walk[0])
    ensures InTable(p, walk[i])
  {
    if i > 0 {
      ImportsStayInTable(p, walk, i - 1);
      assert FileOk(p, p.descriptors[walk[i - 1]].proto.name);
      assert Imports(p, walk[i - 1], walk[i]);
    }
  }

  /** Every dotted prefix of a package name is the name of a package. */
  lemma {:induction false} PackagePrefixesArePackages(p: PoolState, n: string, q: string)
    requires PackagesClosed(p) && IsPackage(p, n) && DottedPrefix(q, n)
    ensures IsPackage(p, q)
    decreases |n|
  {
    PrefixOfEnclosing(q, n);
    if q != Enclosing(n) {
      PackagePrefixesArePackages(p, Enclosing(n), q);
    }
  }

  /** A settled pool holds no trace of builds that failed: each symbol belongs to a file
      in the table, whose imports are all in the table too and whose references all mean
      something acceptable. */
  lemma NoTraceOfFailedBuilds(p: PoolState, name: string)
    requires Settled(p) && name in p.core.symbols.entries
    ensures var f := p.core.symbols.entries[name].value.file;
            && InTable(p, f) && Built(p, f) && Resolved(p, f)
            && forall g :: Imports(p, f, g) ==> InTable(p, g)
  {
  }
}
