/** What a build can see, what a relative name means, and which files its public
    imports bring in. */
module LookupSpec {
  import opened TablesSpec
  import opened Protos
  import opened Names
  import opened Optional
  import opened PoolSpec

  // ------------------------------------------------------------- visibility

  predicate IsAggregate(k: SymbolType) { k == Message || k == Package || k == Enum || k == Service }

  predicate IsType(k: SymbolType) { k == Message || k == Enum }

  /** The package is `name` or lies inside it. */
  predicate InPackage(package: string, name: string) {
    package == name || DottedPrefix(name, package)
  }

  /** The file being built or one of its dependencies declares a package in `name`. */
  ghost predicate PackageDeclared(p: PoolState, file: nat, dependencies: set<nat>, name: string) {
    exists d :: (d == file || d in dependencies) && d in p.descriptors
                && InPackage(p.descriptors[d].proto.package, name)
  }

  /** A build of `file` may use the symbol of that full name: one of its own or of a
      dependency's, or a package that one of these is in. */
  ghost predicate MayUse(p: PoolState, file: nat, dependencies: set<nat>, name: string) {
    name in p.core.symbols.entries &&
    var s := p.core.symbols.entries[name].value;
    s.file == file || s.file in dependencies ||
    (s.kind == Package && PackageDeclared(p, file, dependencies, name))
  }

  /** The symbols that the build sees. */
  ghost function View(p: PoolState, file: nat, dependencies: set<nat>): map<string, Symbol> {
    map n | n in p.core.symbols.entries && MayUse(p, file, dependencies, n) :: p.core.symbols.entries[n].value
  }

  function Find(view: map<string, Symbol>, name: string): Option<Symbol> {
    if name in view then Some(view[name]) else None
  }

  /** The names that can be seen, and what they are: all that decides a name's meaning. */
  type Kinds = map<string, SymbolType>

  function KindsOf(view: map<string, Symbol>): Kinds {
    map n | n in view :: view[n].kind
  }

  /** Every package that the file or a dependency is in has been declared, and all
      packages around it. */
  ghost predicate SeesEnough(p: PoolState, file: nat, dependencies: set<nat>) {
    PackageKnown(p, file) && forall d :: d in dependencies ==> PackageKnown(p, d)
  }

  ghost predicate PackageKnown(p: PoolState, d: nat) {
    d in p.descriptors &&
    (p.descriptors[d].proto.package != "" ==>
       forall n :: InPackage(p.descriptors[d].proto.package, n) ==> n in p.core.symbols.entries)
  }

  lemma PackageKnownStable(p0: PoolState, p: PoolState, d: nat)
    requires DescriptorsOk(p0) && Advances(p0, p) && PackageKnown(p0, d)
    ensures PackageKnown(p, d) && d < p0.nextAddress && p.descriptors[d] == p0.descriptors[d]
  {
    GrownSymbols(p0, p);
    assert DescriptorOk(p0, d);
  }

  lemma SeesEnoughStable(p0: PoolState, p: PoolState, file: nat, dependencies: set<nat>)
    requires DescriptorsOk(p0) && Advances(p0, p) && SeesEnough(p0, file, dependencies)
    ensures SeesEnough(p, file, dependencies)
    ensures file < p0.nextAddress && forall d :: d in dependencies ==> d < p0.nextAddress
  {
    hide PackageKnown, Advances, DescriptorsOk;
    PackageKnownStable(p0, p, file);
    forall d | d in dependencies
      ensures PackageKnown(p, d) && d < p0.nextAddress
    {
      PackageKnownStable(p0, p, d);
    }
  }

  /** What is loaded later is never seen: neither the new files' own symbols nor their
      packages, as every package that may be seen is known already. */
  lemma ViewStable(p0: PoolState, p: PoolState, file: nat, dependencies: set<nat>)
    requires DescriptorsOk(p0) && AddsFiles(p0, p) && SeesEnough(p0, file, dependencies)
    ensures SeesEnough(p, file, dependencies) && View(p, file, dependencies) == View(p0, file, dependencies)
  {
    SeesEnoughStable(p0, p, file, dependencies);
    GrownSymbols(p0, p);
    forall n
      ensures MayUse(p, file, dependencies, n) <==> MayUse(p0, file, dependencies, n)
    {
      SeenBefore(p0, p, file, dependencies, n);
    }
    assert forall n :: MayUse(p0, file, dependencies, n) ==>
             n in p0.core.symbols.entries && n in p.core.symbols.entries &&
             p.core.symbols.entries[n] == p0.core.symbols.entries[n];
    hide MayUse, AddsFiles, SeesEnough, DescriptorsOk;
  }

  lemma SeenBefore(p0: PoolState, p: PoolState, file: nat, dependencies: set<nat>, name: string)
    requires AddsFiles(p0, p) && SeesEnough(p0, file, dependencies)
    requires file < p0.nextAddress && forall d :: d in dependencies ==> d < p0.nextAddress
    ensures MayUse(p, file, dependencies, name) <==> MayUse(p0, file, dependencies, name)
  {
    hide Grows, InPackage, PackagesClosed, NewFileOk;
    assert Sub(p0.core.symbols.entries, p.core.symbols.entries) by { GrownSymbols(p0, p); }
    assert PackageDeclared(p, file, dependencies, name) <==> PackageDeclared(p0, file, dependencies, name) by {
      forall d | d == file || d in dependencies
        ensures d in p0.descriptors && d in p.descriptors && p.descriptors[d] == p0.descriptors[d]
      {
        assert d == file ==> PackageKnown(p0, file);
        assert d in dependencies ==> PackageKnown(p0, d);
      }
    }
    if PackageDeclared(p0, file, dependencies, name) && name != "" {
      var d :| (d == file || d in dependencies) && d in p0.descriptors && InPackage(p0.descriptors[d].proto.package, name);
      assert PackageKnown(p0, d);
      NotInUnnamed(p0.descriptors[d].proto.package, name);
    }
  }

  lemma NotInUnnamed(package: string, name: string)
    requires InPackage(package, name) && name != ""
    ensures package != ""
  {
  }

  lemma SameUse(p: PoolState, p': PoolState, f: nat, dependencies: set<nat>, name: string)
    requires p'.core.symbols.entries == p.core.symbols.entries && p'.descriptors == p.descriptors
    ensures MayUse(p', f, dependencies, name) <==> MayUse(p, f, dependencies, name)
  {
    assert PackageDeclared(p', f, dependencies, name) <==> PackageDeclared(p, f, dependencies, name);
  }

  lemma SameView(p: PoolState, p': PoolState, f: nat, dependencies: set<nat>)
    requires p'.core.symbols.entries == p.core.symbols.entries && p'.descriptors == p.descriptors
    ensures View(p', f, dependencies) == View(p, f, dependencies)
  {
    forall n
      ensures MayUse(p', f, dependencies, n) <==> MayUse(p, f, dependencies, n)
    {
      SameUse(p, p', f, dependencies, n);
    }
    hide MayUse;
  }

  // ------------------------------------------------------------- relative names

  function FirstPart(name: string): string {
    if FirstDot(name) < 0 then name else name[..FirstDot(name)]
  }

  /** The scope made of the first k components. */
  function Scope(components: seq<string>, k: nat): string
    requires 1 <= k <= |components|
  {
    Join(components[..k])
  }

  /** Cutting a scope at its last dot gives the next one out; the outermost has no dot. */
  lemma ScopeChop(components: seq<string>, k: nat)
    requires DotFree(components) && 1 <= k <= |components|
    ensures HasDot(Scope(components, k)) <==> k > 1
    ensures k > 1 ==> Enclosing(Scope(components, k)) == Scope(components, k - 1)
  {
    if k == 1 {
      assert components[..1] == [components[0]];
    } else {
      assert components[..k] == components[..k - 1] + [components[k - 1]];
      JoinSnoc(components[..k - 1], components[k - 1]);
      hide Join;
      LastDotOfJoin(Join(components[..k - 1]), components[k - 1]);
      CutAtDot(Join(components[..k - 1]), components[k - 1]);
    }
  }

  lemma WholeScope(s: string)
    ensures Scope(Components(s), |Components(s)|) == s && DotFree(Components(s))
  {
    JoinComponents(s);
    assert Components(s)[..|Components(s)|] == Components(s);
  }

  /** In that scope the first part of the name is something that settles the search. */
  predicate Settles(kinds: Kinds, scope: string, name: string, mode: ResolveMode) {
    var head := scope + "." + FirstPart(name);
    head in kinds &&
    if |FirstPart(name)| < |name| then IsAggregate(kinds[head])
    else mode.LookupTypes? ==> IsType(kinds[head])
  }

  /** The full name that a relative name stands for inside the first k components, one
      scope after the other going outwards. */
  function Target(kinds: Kinds, components: seq<string>, k: nat, name: string, mode: ResolveMode): string
    requires 1 <= k <= |components|
  {
    if k == 1 then name
    else if Settles(kinds, Scope(components, k - 1), name, mode) then Scope(components, k - 1) + "." + name
    else Target(kinds, components, k - 1, name, mode)
  }

  /** The full name that `name`, written inside the symbol `relativeTo`, stands for. A
      leading dot makes it absolute. */
  function Meaning(kinds: Kinds, name: string, relativeTo: string, mode: ResolveMode): string {
    if name != "" && name[0] == '.' then name[1..]
    else Target(kinds, Components(relativeTo), |Components(relativeTo)|, name, mode)
  }

  /** The innermost scope in which the first part settles the search decides, even if the
      rest of the name is not found there; if there is none, the root. */
  lemma {:induction false} InnermostDecides(kinds: Kinds, components: seq<string>, k: nat, n: nat, name: string,
                                            mode: ResolveMode)
    requires 1 <= k <= n <= |components|
    requires forall j :: k <= j < n ==> !Settles(kinds, Scope(components, j), name, mode)
    requires k > 1 ==> Settles(kinds, Scope(components, k - 1), name, mode)
    ensures Target(kinds, components, n, name, mode) == if k == 1 then name else Scope(components, k - 1) + "." + name
  {
    if k < n { InnermostDecides(kinds, components, k, n - 1, name, mode); }
  }

  /** The full names that a name can stand for at all. */
  ghost predicate Candidate(name: string, relativeTo: string, full: string) {
    if name != "" && name[0] == '.' then full == name[1..]
    else full == name || exists k :: ScopedAt(Components(relativeTo), k, name, full)
  }

  /** The full names that looking a name up may ask for. */
  ghost predicate Asks(name: string, relativeTo: string, full: string) {
    || Candidate(name, relativeTo, full)
    || exists k :: ScopedAt(Components(relativeTo), k, FirstPart(name), full)
  }

  predicate ScopedAt(components: seq<string>, k: nat, name: string, full: string) {
    1 <= k <= |components| && full == Scope(components, k) + "." + name
  }

  lemma AsksInScope(name: string, relativeTo: string, k: nat)
    requires 1 <= k <= |Components(relativeTo)| && (name == "" || name[0] != '.')
    ensures Asks(name, relativeTo, Scope(Components(relativeTo), k) + "." + FirstPart(name))
    ensures Asks(name, relativeTo, Scope(Components(relativeTo), k) + "." + name)
  {
    hide Components, Scope, FirstPart;
    assert ScopedAt(Components(relativeTo), k, name, Scope(Components(relativeTo), k) + "." + name);
    assert ScopedAt(Components(relativeTo), k, FirstPart(name), Scope(Components(relativeTo), k) + "." + FirstPart(name));
  }

  // ------------------------------------------------------------- references

  /** The full name that a reference stands for. */
  function MeaningOf(kinds: Kinds, ref: Reference): string {
    Meaning(kinds, ref.name, ref.relativeTo, ref.mode)
  }

  /** The reference means something acceptable. */
  predicate ReferenceOk(kinds: Kinds, ref: Reference) {
    MeaningOf(kinds, ref) in kinds && kinds[MeaningOf(kinds, ref)] in ref.accepts
  }

  /** Group after group, all references mean something acceptable. */
  predicate ReferencesOk(kinds: Kinds, refs: seq<seq<Reference>>) {
    forall g, i :: 0 <= g < |refs| && 0 <= i < |refs[g]| ==> ReferenceOk(kinds, refs[g][i])
  }

  /** s is the symbol that the reference means. */
  predicate LinkMeant(view: map<string, Symbol>, ref: Reference, s: Symbol) {
    Find(view, MeaningOf(KindsOf(view), ref)) == Some(s)
  }

  predicate LinksMeant(view: map<string, Symbol>, refs: seq<Reference>, links: seq<Symbol>) {
    |links| == |refs| && forall i :: 0 <= i < |refs| ==> LinkMeant(view, refs[i], links[i])
  }

  predicate AllLinksMeant(view: map<string, Symbol>, refs: seq<seq<Reference>>, links: Links) {
    |links| == |refs| && forall g :: 0 <= g < |refs| ==> LinksMeant(view, refs[g], links[g])
  }

  // ------------------------------------------------------------- public imports

  /** f publicly imports g. */
  ghost predicate PublicImport(ds: map<nat, FileDescriptor>, f: nat, g: nat) {
    f in ds && exists k :: k in ds[f].publicImports && k < |ds[f].imports| && ds[f].imports[k] == Some(g)
  }

  ghost predicate PublicPath(ds: map<nat, FileDescriptor>, path: seq<nat>) {
    |path| >= 1 && forall i :: 0 <= i < |path| - 1 ==> PublicImport(ds, path[i], path[i + 1])
  }

  /** There is a chain of public imports, possibly empty, from f to g. */
  ghost predicate Reaches(ds: map<nat, FileDescriptor>, f: nat, g: nat) {
    exists path :: PublicPath(ds, path) && path[0] == f && path[|path| - 1] == g
  }

  /** s holds exactly the files that some import in the list reaches. */
  ghost predicate Reached(ds: map<nat, FileDescriptor>, imports: seq<Option<nat>>, s: set<nat>) {
    forall g :: g in s <==> exists f :: Some(f) in imports && Reaches(ds, f, g)
  }

  ghost predicate Closed(ds: map<nat, FileDescriptor>, from: set<nat>, within: set<nat>) {
    forall f, g :: f in from && PublicImport(ds, f, g) ==> g in within
  }

  lemma ReachesSelf(ds: map<nat, FileDescriptor>, f: nat)
    ensures Reaches(ds, f, f)
  {
    assert PublicPath(ds, [f]);
  }

  lemma ReachesStep(ds: map<nat, FileDescriptor>, f: nat, g: nat, h: nat)
    requires PublicImport(ds, f, g) && Reaches(ds, g, h)
    ensures Reaches(ds, f, h)
  {
    var path :| PublicPath(ds, path) && path[0] == g && path[|path| - 1] == h;
    var longer := [f] + path;
    assert PublicPath(ds, longer) by {
      forall i | 0 <= i < |longer| - 1
        ensures PublicImport(ds, longer[i], longer[i + 1])
      {
        if i > 0 { assert PublicImport(ds, path[i - 1], path[i]); }
      }
    }
    assert longer[|longer| - 1] == h;
  }

  /** A set closed under public imports contains all that its members reach. */
  lemma ClosedContainsReach(ds: map<nat, FileDescriptor>, s: set<nat>, f: nat, g: nat)
    requires Closed(ds, s, s) && f in s && Reaches(ds, f, g)
    ensures g in s
  {
    var path :| PublicPath(ds, path) && path[0] == f && path[|path| - 1] == g;
    PathStays(ds, s, path, |path| - 1);
  }

  lemma {:induction false} PathStays(ds: map<nat, FileDescriptor>, s: set<nat>, path: seq<nat>, i: nat)
    requires Closed(ds, s, s) && PublicPath(ds, path) && path[0] in s && i < |path|
    ensures path[i] in s
  {
    if i > 0 {
      PathStays(ds, s, path, i - 1);
      assert PublicImport(ds, path[i - 1], path[i]);
    }
  }

  /** Descriptors whose pointers lead to descriptors. */
  ghost predicate Closing(ds: map<nat, FileDescriptor>) {
    forall f, g :: f in ds && Some(g) in ds[f].imports ==> g in ds
  }

  lemma {:induction false} PathInBoth(ds: map<nat, FileDescriptor>, more: map<nat, FileDescriptor>, path: seq<nat>,
                                       i: nat)
    requires Closing(ds) && Sub(ds, more) && PublicPath(more, path) && path[0] in ds && i < |path|
    ensures path[i] in ds
    ensures i > 0 ==> PublicImport(ds, path[i - 1], path[i])
  {
    if i > 0 {
      PathInBoth(ds, more, path, i - 1);
      assert PublicImport(more, path[i - 1], path[i]);
      assert Some(path[i]) in ds[path[i - 1]].imports;
    }
  }

  /** New descriptors do not change what the old ones reach. */
  lemma ReachesStable(ds: map<nat, FileDescriptor>, more: map<nat, FileDescriptor>, f: nat, g: nat)
    requires Closing(ds) && Sub(ds, more) && f in ds
    ensures Reaches(more, f, g) <==> Reaches(ds, f, g)
    ensures Reaches(ds, f, g) ==> g in ds
  {
    if Reaches(more, f, g) {
      var path :| PublicPath(more, path) && path[0] == f && path[|path| - 1] == g;
      forall i | 0 <= i < |path| - 1 ensures PublicImport(ds, path[i], path[i + 1]) {
        PathInBoth(ds, more, path, i + 1);
      }
      PathInBoth(ds, more, path, |path| - 1);
      assert PublicPath(ds, path);
    }
    if Reaches(ds, f, g) {
      var path :| PublicPath(ds, path) && path[0] == f && path[|path| - 1] == g;
      forall i | 0 <= i < |path| - 1 ensures PublicImport(more, path[i], path[i + 1]) {
        assert PublicImport(ds, path[i], path[i + 1]);
      }
      assert PublicPath(more, path);
    }
  }

  lemma ReachedStable(ds: map<nat, FileDescriptor>, more: map<nat, FileDescriptor>, imports: seq<Option<nat>>,
                      s: set<nat>)
    requires Closing(ds) && Sub(ds, more) && Reached(ds, imports, s)
    requires forall f :: Some(f) in imports ==> f in ds
    ensures Reached(more, imports, s)
  {
    hide Reaches, Closing;
    forall f, g | f in ds
      ensures Reaches(more, f, g) <==> Reaches(ds, f, g)
    {
      ReachesStable(ds, more, f, g);
    }
  }

  /** dependencies_ of a file: what its imports reach by public imports. */
  ghost predicate DependenciesOf(p: PoolState, f: nat, dependencies: set<nat>)
    requires f in p.descriptors
  {
    Reached(p.descriptors, p.descriptors[f].imports, dependencies)
  }

  lemma DependenciesStable(p0: PoolState, p: PoolState, f: nat, dependencies: set<nat>)
    requires Advances(p0, p) && DescriptorsOk(p0) && f in p0.descriptors
    requires DependenciesOf(p0, f, dependencies)
    ensures f in p.descriptors && DependenciesOf(p, f, dependencies)
  {
    hide Reached, Grows;
    assert forall g :: g in p0.descriptors ==> DescriptorOk(p0, g);
    ReachedStable(p0.descriptors, p.descriptors, p0.descriptors[f].imports, dependencies);
  }
}
