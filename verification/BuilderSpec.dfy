/** Facts about pool values that the builder's methods rely on. */
module BuilderSpec {
  import opened Journal
  import opened TablesSpec
  import opened Rollback
  import opened Protos
  import opened Names
  import opened Optional
  import opened PoolProperties
  import opened PoolSpec
  import opened LookupSpec
  import opened Declaring
  import opened NameIndexes
  import opened BuildSteps

  /** Names in the database that are neither in the file table nor being loaded. */
  ghost function Unloaded(p: PoolState): set<string> {
    if p.database.None? then {}
    else p.database.value.files.Keys - p.core.files.entries.Keys - (set n | n in p.pending)
  }

  lemma UnloadedShrinks(p0: PoolState, p: PoolState)
    requires Advances(p0, p)
    ensures Unloaded(p) <= Unloaded(p0) && p.pending == p0.pending
  {
  }

  ghost predicate SameFiles(p0: PoolState, p: PoolState) {
    && p.core.files.entries == p0.core.files.entries
    && p.descriptors == p0.descriptors
    && p.pending == p0.pending
  }

  ghost predicate SameSymbols(p0: PoolState, p: PoolState) {
    p.core.symbols.entries == p0.core.symbols.entries
  }

  lemma InTableStable(p0: PoolState, p: PoolState, f: nat)
    requires Advances(p0, p) && InTable(p0, f)
    ensures InTable(p, f)
  {
  }

  lemma StillReady(p0: PoolState, p: PoolState, f: nat, dependencies: set<nat>)
    requires Advances(p0, p) && InTable(p0, f) && dependencies <= p0.descriptors.Keys
    ensures InTable(p, f) && dependencies <= p.descriptors.Keys
  {
    InTableStable(p0, p, f);
  }

  /** A lookup at p1 that ends at p2, seen from an earlier state p0: whatever was loaded,
      the build sees the same. */
  lemma LookedUp(p0: PoolState, p1: PoolState, p2: PoolState, file: nat, dependencies: set<nat>)
    requires DescriptorsOk(p0) && Inv(p1) && Loads(p0, p1) && Loads(p1, p2)
    ensures Loads(p0, p2)
    ensures SeesEnough(p0, file, dependencies) ==>
              SeesEnough(p1, file, dependencies) && View(p1, file, dependencies) == View(p0, file, dependencies)
  {
    LoadsTrans(p0, p1, p2);
    if SeesEnough(p0, file, dependencies) { ViewStable(p0, p1, file, dependencies); }
  }

  /** s is the table's symbol of that name, and the build of `file` may see it. */
  ghost predicate Seen(p: PoolState, file: nat, dependencies: set<nat>, name: string, s: Symbol) {
    name in p.core.symbols.entries && p.core.symbols.entries[name].value == s
    && MayUse(p, file, dependencies, name)
  }

  lemma SeenStable(p0: PoolState, p: PoolState, file: nat, dependencies: set<nat>, name: string, s: Symbol)
    requires Advances(p0, p) && Seen(p0, file, dependencies, name, s)
    ensures Seen(p, file, dependencies, name, s)
  {
  }

  // ------------------------------------------------------------- packages

  /** All packages have their parent, save for children of `name`. */
  ghost predicate OrphansOnly(p: PoolState, name: string) {
    forall n :: IsPackage(p, n) && HasDot(n) ==> IsPackage(p, Enclosing(n)) || Enclosing(n) == name
  }

  function LastComponent(name: string): string {
    name[LastDot(name) + 1..]
  }

  /** The symbols that were added are the package or packages around it, declared by f. */
  ghost predicate PackagesAdded(p0: PoolState, p: PoolState, f: nat, name: string) {
    forall n :: n in p.core.symbols.entries && n !in p0.core.symbols.entries ==>
                  PackageOf(p, f, n) && n in PackageNames(name)
  }

  ghost predicate PackageOf(p: PoolState, f: nat, n: string)
    requires n in p.core.symbols.entries
  {
    p.core.symbols.entries[n].value.kind == Package && p.core.symbols.entries[n].value.file == f
  }

  /** No symbol with an empty full name was added. */
  ghost predicate NamesGiven(p0: PoolState, p: PoolState) {
    forall n :: n in p.core.symbols.entries && n !in p0.core.symbols.entries ==> n != ""
  }

  lemma AddedTrans(p0: PoolState, p1: PoolState, p2: PoolState, f: nat, name: string)
    requires HasDot(name) && Advances(p1, p2)
    requires PackagesAdded(p0, p1, f, name) && PackagesAdded(p1, p2, f, Enclosing(name))
    ensures PackagesAdded(p0, p2, f, name)
    ensures NamesGiven(p0, p1) && NamesGiven(p1, p2) ==> NamesGiven(p0, p2)
  {
    GrownSymbols(p1, p2);
    hide Advances;
    forall n | n in p2.core.symbols.entries && n !in p0.core.symbols.entries
      ensures PackageOf(p2, f, n) && n in PackageNames(name)
    {
      if n in p1.core.symbols.entries { assert PackageOf(p1, f, n); }
    }
  }

  /** Declaring the package `name` is an error: walking outwards, before any package
      that exists, there is a component that is not an identifier, or the first
      existing symbol is not a package. */
  predicate PackageError(kinds: Kinds, name: string)
    decreases |name|
  {
    if name in kinds then kinds[name] != Package
    else !ValidIdentifier(LastComponent(name)) || (HasDot(name) && PackageError(kinds, Enclosing(name)))
  }

  function KindTable(symbols: map<string, Entry<string, Symbol>>): Kinds {
    map n | n in symbols :: symbols[n].value.kind
  }

  /** From p0 to p the package and all packages around it have been declared, and then
      no package lacks its parent. */
  ghost predicate PackageComplete(p0: PoolState, p: PoolState, name: string) {
    PackagesClosed(p) && p.core.symbols.entries.Keys == p0.core.symbols.entries.Keys + PackageNames(name)
  }

  lemma {:induction false} PackageNamesKnown(p: PoolState, name: string)
    requires PackagesClosed(p) && IsPackage(p, name)
    ensures PackageNames(name) <= p.core.symbols.entries.Keys
    decreases |name|
  {
    if HasDot(name) { PackageNamesKnown(p, Enclosing(name)); }
  }

  lemma PackageErrorStep(symbols: map<string, Entry<string, Symbol>>, name: string)
    ensures PackageError(KindTable(symbols), name) <==>
              if name in symbols then symbols[name].value.kind != Package
              else !ValidIdentifier(LastComponent(name)) ||
                   (HasDot(name) && PackageError(KindTable(symbols), Enclosing(name)))
  {
  }

  lemma {:induction false} LongerNameIrrelevant(kinds: Kinds, longer: string, kind: SymbolType, name: string)
    requires |name| < |longer|
    ensures PackageError(kinds[longer := kind], name) == PackageError(kinds, name)
    decreases |name|
  {
    if name !in kinds && HasDot(name) {
      LongerNameIrrelevant(kinds, longer, kind, Enclosing(name));
    }
  }

  lemma KindEntered(symbols: map<string, Entry<string, Symbol>>, n: string, e: Entry<string, Symbol>)
    ensures KindTable(symbols[n := e]) == KindTable(symbols)[n := e.value.kind]
  {
  }

  lemma PackageAdded(p: PoolState, p': PoolState, name: string, e: Entry<string, Symbol>)
    requires OrphansOnly(p, name)
    requires name !in p.core.symbols.entries && e.value.kind == Package
    requires p'.core.symbols.entries == p.core.symbols.entries[name := e]
    ensures !HasDot(name) ==> PackagesClosed(p')
    ensures HasDot(name) ==> OrphansOnly(p', Enclosing(name))
  {
  }

  lemma NameGiven(p: PoolState, p': PoolState, name: string, e: Entry<string, Symbol>)
    requires ValidIdentifier(LastComponent(name)) && p'.core.symbols.entries == p.core.symbols.entries[name := e]
    ensures NamesGiven(p, p')
  {
  }

  lemma OrphansStable(p: PoolState, p': PoolState, name: string)
    requires OrphansOnly(p, name) && SameSymbols(p, p')
    ensures OrphansOnly(p', name)
  {
  }

  lemma OrphansNone(p: PoolState, p': PoolState, name: string)
    requires OrphansOnly(p, name) && IsPackage(p, name) && SameSymbols(p, p')
    ensures PackagesClosed(p') && PackageNames(name) <= p'.core.symbols.entries.Keys
  {
  }

  lemma PackageStays(p: PoolState, p': PoolState, name: string)
    requires Advances(p, p') && IsPackage(p, name)
    ensures IsPackage(p', name)
  {
  }

  // ------------------------------------------------------------- imports

  /** The i-th import fails: not in the table, or listed before. */
  ghost predicate BadImport(p: PoolState, proto: FileProto, i: nat)
    requires i < |proto.dependency|
  {
    !HasFile(p, proto.dependency[i]) || exists j :: 0 <= j < i && proto.dependency[j] == proto.dependency[i]
  }

  ghost predicate ImportErrors(p: PoolState, proto: FileProto) {
    || (exists i :: 0 <= i < |proto.dependency| && BadImport(p, proto, i))
    || BadPublicImport(proto, |proto.publicDependency|)
  }

  lemma NoErrorsRecorded(p: PoolState, proto: FileProto, f: nat, d: FileDescriptor)
    requires f in p.descriptors && !ImportErrors(p, proto) && d.proto == proto
    requires |d.imports| == |proto.dependency| && d.publicImports == proto.publicDependency
    requires forall j :: 0 <= j < |d.imports| ==> d.imports[j] == FindFile(p, proto.dependency[j])
    ensures ImportsRecorded(p.(descriptors := p.descriptors[f := d]), f)
  {
    forall i, j | 0 <= i <= j < |proto.dependency|
      ensures HasFile(p, proto.dependency[j]) && (i < j ==> proto.dependency[i] != proto.dependency[j])
    {
      assert !BadImport(p, proto, j);
    }
  }

  /** One of the first n public imports is not the index of an import. */
  ghost predicate BadPublicImport(proto: FileProto, n: nat) {
    exists k :: 0 <= k < n <= |proto.publicDependency| && !(0 <= proto.publicDependency[k] < |proto.dependency|)
  }

  lemma FoundInTable(p: PoolState, proto: FileProto, imports: seq<Option<nat>>)
    requires Inv(p) && |imports| == |proto.dependency|
    requires forall j :: 0 <= j < |imports| ==> imports[j] == FindFile(p, proto.dependency[j])
    ensures forall g :: Some(g) in imports ==> InTable(p, g)
  {
  }

  // ------------------------------------------------------------- references

  /** s is acceptable, and visible under a full name that the reference can stand for. */
  ghost predicate LinkOk(p: PoolState, file: nat, dependencies: set<nat>, ref: Reference, s: Symbol) {
    s.kind in ref.accepts && SeenAs(p, file, dependencies, ref.name, ref.relativeTo, s)
  }

  ghost predicate SeenAs(p: PoolState, file: nat, dependencies: set<nat>, name: string, relativeTo: string, s: Symbol) {
    exists n :: Candidate(name, relativeTo, n) && Seen(p, file, dependencies, n, s)
  }

  ghost predicate LinksOk(p: PoolState, file: nat, dependencies: set<nat>, refs: seq<Reference>, links: seq<Symbol>) {
    |links| == |refs| && forall i :: 0 <= i < |refs| ==> LinkOk(p, file, dependencies, refs[i], links[i])
  }

  lemma LinksStable(p0: PoolState, p: PoolState, file: nat, dependencies: set<nat>, refs: seq<Reference>,
                    links: seq<Symbol>)
    requires Advances(p0, p) && LinksOk(p0, file, dependencies, refs, links)
    ensures LinksOk(p, file, dependencies, refs, links)
  {
    forall i | 0 <= i < |refs|
      ensures LinkOk(p, file, dependencies, refs[i], links[i])
    {
      assert LinkOk(p0, file, dependencies, refs[i], links[i]);
      var ref := refs[i];
      var n :| Candidate(ref.name, ref.relativeTo, n) && Seen(p0, file, dependencies, n, links[i]);
      SeenStable(p0, p, file, dependencies, n, links[i]);
    }
  }

  ghost predicate AllLinksOk(p: PoolState, file: nat, dependencies: set<nat>, refs: seq<seq<Reference>>,
                             links: Links)
  {
    |links| == |refs| && forall g :: 0 <= g < |refs| ==> LinksOk(p, file, dependencies, refs[g], links[g])
  }

  lemma NoReferences(p: PoolState, file: nat, dependencies: set<nat>, refs: seq<seq<Reference>>)
    ensures ReferencesOk(KindsOf(View(p, file, dependencies)), refs[..0])
    ensures AllLinksMeant(View(p, file, dependencies), refs[..0], [])
    ensures AllLinksOk(p, file, dependencies, refs[..0], [])
  {
  }

  lemma LinkAppended(p0: PoolState, p: PoolState, file: nat, dependencies: set<nat>, refs: seq<seq<Reference>>,
                     links: Links, n: nat, linked: seq<Symbol>)
    requires n < |refs| && Advances(p0, p)
    requires AllLinksOk(p0, file, dependencies, refs[..n], links)
    requires LinksOk(p, file, dependencies, refs[n], linked)
    ensures AllLinksOk(p, file, dependencies, refs[..n + 1], links + [linked])
  {
    hide LinksOk, Advances;
    forall g | 0 <= g < n
      ensures LinksOk(p, file, dependencies, refs[g], links[g])
    {
      assert LinksOk(p0, file, dependencies, refs[..n][g], links[g]);
      LinksStable(p0, p, file, dependencies, refs[g], links[g]);
    }
  }

  /** Looking a name up that means nothing, or something unacceptable, is the only way a
      single reference fails. */
  lemma ReferenceDecided(view: map<string, Symbol>, ref: Reference, r: Option<Symbol>)
    requires r == Find(view, MeaningOf(KindsOf(view), ref))
    ensures ReferenceOk(KindsOf(view), ref) <==> r.Some? && r.value.kind in ref.accepts
  {
    hide MeaningOf;
  }

  /** One more group of references. */
  lemma GroupLinked(kinds: Kinds, refs: seq<seq<Reference>>, n: nat, ok: bool)
    requires n < |refs| && (ok <==> forall i :: 0 <= i < |refs[n]| ==> ReferenceOk(kinds, refs[n][i]))
    ensures ReferencesOk(kinds, refs[..n + 1]) <==> (ReferencesOk(kinds, refs[..n]) && ok)
  {
    hide ReferenceOk;
    assert refs[..n + 1][n] == refs[n];
    assert forall g :: 0 <= g < n ==> refs[..n + 1][g] == refs[..n][g];
  }

  lemma MeantAppended(view: map<string, Symbol>, refs: seq<seq<Reference>>, links: Links, n: nat,
                      linked: seq<Symbol>)
    requires n < |refs| && AllLinksMeant(view, refs[..n], links) && LinksMeant(view, refs[n], linked)
    ensures AllLinksMeant(view, refs[..n + 1], links + [linked])
  {
    hide LinksMeant;
    forall g | 0 <= g < n
      ensures LinksMeant(view, refs[g], links[g])
    {
      assert LinksMeant(view, refs[..n][g], links[g]);
    }
  }

  // ------------------------------------------------------------- a whole build

  /** The build of proto has begun: its descriptor f is in the file table, still empty,
      and it is the newest descriptor there is. */
  ghost predicate Started(base: PoolState, p: PoolState, f: nat, proto: FileProto)
    requires Nested(base.core)
  {
    && Building(base, p, f, proto.name)
    && p.descriptors[f] == FileDescriptor(proto, [], [])
    && SameSymbols(base, p)
    && (PackagesClosed(base) ==> PackagesClosed(p))
    && (forall g :: g in p.descriptors ==> g <= f)
    && (forall n :: HasFile(p, n) <==> HasFile(base, n) || n == proto.name)
  }

  lemma OldDescriptors(base: PoolState, f: nat)
    requires DescriptorsOk(base) && base.nextAddress <= f
    ensures f !in base.descriptors && forall g :: g in base.descriptors ==> g <= f
  {
  }

  lemma FileStarted(base: PoolState, p: PoolState, f: nat, proto: FileProto, key: PoolString)
    requires Nested(base.core) && Inv(p) && Progress(base.(core := Opened(base)), p)
    requires p.core.files.entries == base.core.files.entries && SameSymbols(base, p)
    requires key in p.core.strings && key.id == proto.name && !HasFile(base, key.id)
    requires base.nextAddress <= f && f in p.descriptors && p.descriptors[f] == FileDescriptor(proto, [], [])
    requires forall g :: g in p.descriptors ==> g <= f
    ensures Started(base, p.(core := Step(p.core, Op.AddFile(key, f))), f, proto)
  {
    hide Inv, Grows, SameDescriptors, OthersOk;
    FileAdded(base, p, f, key);
  }

  lemma AddFileCases(base: PoolState, p: PoolState, f: nat, proto: FileProto, key: PoolString)
    requires Nested(base.core) && Inv(p) && Progress(base.(core := Opened(base)), p)
    requires p.core.files.entries == base.core.files.entries && SameSymbols(base, p)
    requires key in p.core.strings && key.id == proto.name
    requires base.nextAddress <= f && f in p.descriptors && p.descriptors[f] == FileDescriptor(proto, [], [])
    requires forall g :: g in p.descriptors ==> g <= f
    ensures var p' := p.(core := Step(p.core, Op.AddFile(key, f)));
            && Inv(p') && Grows(Opened(base), p'.core)
            && (!HasFile(base, key.id) ==> Started(base, p', f, proto))
  {
    assert Nested(p.core);
    hide Owned, Linked, Extends, OthersOk;
    if HasFile(base, key.id) {
      assert Step(p.core, Op.AddFile(key, f)) == p.core;
    } else {
      FileStarted(base, p, f, proto, key);
    }
  }

  lemma StillOwned(p: PoolState, p': PoolState, key: PoolString)
    requires Advances(p, p') && key in p.core.strings
    ensures key in p'.core.strings
  {
  }

  lemma NextAddressPast(p: PoolState, p': PoolState, address: nat)
    requires Advances(p, p') && address < p.nextAddress
    ensures address < p'.nextAddress
  {
  }

  /** The full names taken once the file's package is declared. */
  function TakenWith(names: set<string>, proto: FileProto): set<string> {
    names + if proto.package == "" then {} else PackageNames(proto.package)
  }

  ghost function Taken(base: PoolState, proto: FileProto): set<string> {
    TakenWith(base.core.symbols.entries.Keys, proto)
  }

  /** Every import is in the pool, or is the file itself. */
  ghost predicate ImportsLoaded(p: PoolState, proto: FileProto) {
    forall i :: 0 <= i < |proto.dependency| ==> HasFile(p, proto.dependency[i]) || proto.dependency[i] == proto.name
  }

  /** Every name the file imports is among these files, or is the file's own. */
  ghost predicate ImportsAmong(files: set<string>, proto: FileProto) {
    && (forall i :: 0 <= i < |proto.dependency| ==> proto.dependency[i] in files || proto.dependency[i] == proto.name)
    && (forall i, j :: 0 <= i < j < |proto.dependency| ==> proto.dependency[i] != proto.dependency[j])
    && !BadPublicImport(proto, |proto.publicDependency|)
  }

  ghost predicate ImportsFine(base: PoolState, proto: FileProto) {
    ImportsAmong(base.core.files.entries.Keys, proto)
  }

  /** The file's package can be declared. */
  predicate PackageAmong(kinds: Kinds, proto: FileProto) {
    proto.package != "" ==> !PackageError(kinds, proto.package)
  }

  ghost predicate PackageFine(base: PoolState, proto: FileProto) {
    PackageAmong(KindTable(base.core.symbols.entries), proto)
  }

  /** Some declaration of the file reaches the branch that is said to be impossible. */
  ghost predicate DeclarationsDisagree(base: PoolState, proto: FileProto) {
    SomeDisagree(Taken(base, proto), Declarations(proto), |Declarations(proto)|)
  }

  /** What the part of a build before cross-linking checks, by the files and symbols there
      are. */
  ghost predicate FineAmong(files: set<string>, kinds: Kinds, proto: FileProto) {
    var ds := Declarations(proto);
    PackageAmong(kinds, proto) && ImportsAmong(files, proto) && !SomeClash(TakenWith(kinds.Keys, proto), ds, |ds|)
  }

  ghost predicate ContentsFine(base: PoolState, proto: FileProto) {
    FineAmong(base.core.files.entries.Keys, KindTable(base.core.symbols.entries), proto)
  }

  lemma ContentsFineParts(base: PoolState, proto: FileProto)
    ensures ContentsFine(base, proto) <==>
              && PackageFine(base, proto)
              && ImportsFine(base, proto)
              && !SomeClash(Taken(base, proto), Declarations(proto), |Declarations(proto)|)
  {
    assert KindTable(base.core.symbols.entries).Keys == base.core.symbols.entries.Keys;
  }

  /** What makes a build succeed on a pool `base`, up to references and other checks. */
  ghost predicate Acceptable(base: PoolState, proto: FileProto) {
    !HasFile(base, proto.name) && ContentsFine(base, proto)
  }

  lemma ImportErrorsMean(base: PoolState, p: PoolState, proto: FileProto)
    requires forall n :: HasFile(p, n) <==> HasFile(base, n) || n == proto.name
    ensures ImportErrors(p, proto) <==> !ImportsFine(base, proto)
  {
    if ImportsFine(base, proto) {
      forall i | 0 <= i < |proto.dependency| ensures !BadImport(p, proto, i) {}
    } else if !BadPublicImport(proto, |proto.publicDependency|) {
      if i :| 0 <= i < |proto.dependency| && !HasFile(p, proto.dependency[i]) {
        assert BadImport(p, proto, i);
      } else {
        var i, j :| 0 <= i < j < |proto.dependency| && proto.dependency[i] == proto.dependency[j];
        assert BadImport(p, proto, j);
      }
    }
  }

  lemma ImportsStable(p0: PoolState, p: PoolState, f: nat)
    requires Sub(p0.core.files.entries, p.core.files.entries) && Sub(p0.descriptors, p.descriptors)
    requires ImportsRecorded(p0, f)
    ensures ImportsRecorded(p, f)
  {
  }

  lemma ClosedNoOrphans(p: PoolState, name: string)
    requires PackagesClosed(p)
    ensures OrphansOnly(p, name)
  {
  }

  lemma BuildingLinks(base: PoolState, p: PoolState, f: nat, name: string)
    requires Nested(base.core) && Building(base, p, f, name)
    ensures DescriptorsOk(p)
    ensures forall g :: Some(g) in p.descriptors[f].imports ==> g in p.descriptors
  {
  }

  lemma InvParts(p: PoolState)
    requires Inv(p)
    ensures Nested(p.core) && DescriptorsOk(p)
  {
  }

  /** f is in the pool as its proto says: completely built, every name it uses linked to
      an acceptable symbol among what it may see, its dependency set what public imports
      make it, and every symbol it declares known to both name indexes. */
  ghost predicate FileDone(p: PoolState, byParent: ByParent, f: nat, dependencies: set<nat>, links: Links,
                           proto: FileProto)
  {
    && HasFile(p, proto.name) && FileNamed(p, proto.name) == f
    && FileLinked(p, byParent, f, dependencies, links, proto)
  }

  ghost predicate FileLinked(p: PoolState, byParent: ByParent, f: nat, dependencies: set<nat>, links: Links,
                             proto: FileProto)
  {
    && f in p.descriptors && Built(p, f) && p.descriptors[f].proto == proto
    && DependenciesOf(p, f, dependencies)
    && AllLinksOk(p, f, dependencies, References(proto), links)
    && AllFoundTwice(Registry(p.core.symbols.entries, byParent), Declarations(proto))
  }

  lemma CommitDone(p: PoolState, p': PoolState, byParent: ByParent, f: nat, dependencies: set<nat>,
                   links: Links, proto: FileProto)
    requires SameFiles(p, p') && SameSymbols(p, p') && InTable(p, f)
    requires FileLinked(p, byParent, f, dependencies, links, proto) && Built(p', f)
    ensures FileDone(p', byParent, f, dependencies, links, proto)
  {
    hide AllLinksOk, Built, Reached, AllFoundTwice;
    AfterCommit(p, p', f, dependencies, References(proto), links);
  }

  /** Clearing the checkpoint changes none of what the build established. */
  lemma AfterCommit(p: PoolState, p': PoolState, f: nat, dependencies: set<nat>, refs: seq<seq<Reference>>,
                    links: Links)
    requires SameFiles(p, p') && SameSymbols(p, p') && f in p.descriptors
    requires DependenciesOf(p, f, dependencies) && AllLinksOk(p, f, dependencies, refs, links)
    ensures DependenciesOf(p', f, dependencies) && AllLinksOk(p', f, dependencies, refs, links)
  {
    forall g, i | 0 <= g < |refs| && 0 <= i < |refs[g]|
      ensures LinkOk(p', f, dependencies, refs[g][i], links[g][i])
    {
      var ref := refs[g][i];
      assert LinksOk(p, f, dependencies, refs[g], links[g]);
      assert LinkOk(p, f, dependencies, ref, links[g][i]);
      var n :| Candidate(ref.name, ref.relativeTo, n) && Seen(p, f, dependencies, n, links[g][i]);
      SameUse(p, p', f, dependencies, n);
    }
    forall g | 0 <= g < |refs| ensures LinksOk(p', f, dependencies, refs[g], links[g]) {
      assert LinksOk(p, f, dependencies, refs[g], links[g]);
    }
  }

  /** A build that has declared all of its file leaves the pool healthy. */
  lemma BuildingHealthy(base: PoolState, p: PoolState, f: nat, name: string)
    requires Nested(base.core) && Healthy(base) && Building(base, p, f, name)
    requires Built(p, f) && PackagesClosed(p)
    ensures Healthy(p)
  {
    hide Inv, Extends, PackagesClosed, AllDeclared;
    assert Opened(base).files == base.core.files && Opened(base).symbols == base.core.symbols;
    assert FileNamed(p, name) == f;
    forall n | n in p.core.files.entries
      ensures Packaged(p, FileNamed(p, n))
    {
      if n in base.core.files.entries {
        assert Packaged(base, FileNamed(base, n));
      } else if n != name {
        assert NewFileOk(base, p, n);
      }
    }
  }

  /** Linking, whatever it loads, changes nothing of what the build sees or has added. */
  lemma Finished(base: PoolState, declared: PoolState, linked: PoolState, f: nat, proto: FileProto,
                 dependencies: set<nat>)
    requires Nested(base.core) && Building(base, declared, f, proto.name)
    requires OnlyNewFiles(base, declared) && Loads(declared, linked)
    ensures OnlyNewFiles(base, linked)
    ensures PackagesClosed(declared) ==> PackagesClosed(linked)
    ensures SeesEnough(declared, f, dependencies) ==> View(linked, f, dependencies) == View(declared, f, dependencies)
  {
    hide SeesEnough, View, Advances, PackagesClosed, DescriptorsOk, Grows, OthersOk, FilesOk, SymbolsOk, Owned,
         NewResolved, Healthy;
    GrownSymbols(declared, linked);
    forall n | n in linked.core.symbols.entries && n !in base.core.symbols.entries
      ensures NewSymbolOk(base, linked, n)
    {
      if n in declared.core.symbols.entries { assert NewSymbolOk(base, declared, n); }
      else { assert NewSymbolOk(declared, linked, n); }
    }
    if SeesEnough(declared, f, dependencies) { ViewStable(declared, linked, f, dependencies); }
  }

  /** All that is missing for the references of the new files to be resolved is to store
      the links of f. */
  ghost predicate Resolvable(base: PoolState, p: PoolState, f: nat, dependencies: set<nat>, links: Links,
                             proto: FileProto)
  {
    && OthersResolved(base, p, proto.name)
    && SeesEnough(p, f, dependencies) && AllLinksMeant(View(p, f, dependencies), References(proto), links)
    && ReferencesOk(KindsOf(View(p, f, dependencies)), References(proto))
  }

  ghost predicate OthersResolved(base: PoolState, p: PoolState, name: string) {
    forall n :: n in p.core.files.entries && n !in base.core.files.entries && n != name ==> Resolved(p, FileNamed(p, n))
  }

  /** When the references of the file were in order, they and those of all that was loaded
      meanwhile are so at the end. */
  lemma FinishedResolved(base: PoolState, declared: PoolState, linked: PoolState, f: nat, proto: FileProto,
                         dependencies: set<nat>, links: Links)
    requires Nested(base.core) && Building(base, declared, f, proto.name) && declared.descriptors[f].proto == proto
    requires Loads(declared, linked) && Healthy(declared)
    requires forall n :: HasFile(declared, n) ==> HasFile(base, n) || n == proto.name
    requires SeesEnough(declared, f, dependencies)
    requires AllLinksMeant(View(declared, f, dependencies), References(proto), links)
    requires ReferencesOk(KindsOf(View(declared, f, dependencies)), References(proto))
    ensures Resolvable(base, linked, f, dependencies, links, proto)
  {
    hide Healthy, Grows, Linked, OthersOk, SeesEnough, ReferencesOk, View, KindsOf, Advances, PackagesClosed,
         OnlyNewFiles, Owned, AllLinksMeant, Resolved;
    BuildingLinks(base, declared, f, proto.name);
    ViewStable(declared, linked, f, dependencies);
    forall n | n in linked.core.files.entries && n !in base.core.files.entries && n != proto.name
      ensures Resolved(linked, FileNamed(linked, n))
    {
      assert !HasFile(declared, n);
    }
  }

  function WithLinks(p: PoolState, f: nat, links: Links): PoolState {
    p.(links := p.links[f := links])
  }

  lemma LinksStored(base: PoolState, p: PoolState, f: nat, links: Links)
    requires Inv(p) && DescriptorsOk(base) && InTable(p, f) && base.nextAddress <= f
    ensures Inv(WithLinks(p, f, links))
    ensures Progress(base, p) ==> Progress(base, WithLinks(p, f, links))
    ensures Built(p, f) ==> Built(WithLinks(p, f, links), f)
  {
    var p' := WithLinks(p, f, links);
    hide Owned, Grows, FilesOk, SymbolsOk;
    assert DescriptorOk(p, f);
    assert forall g :: g in p.descriptors ==> DescriptorOk(p, g) && DescriptorOk(p', g);
    SameTables(p, p');
    SamePackages(p, p');
    if Built(p, f) { BuiltStable(p, p', f); }
    if Progress(base, p) {
      forall n | n in p'.core.files.entries && n !in base.core.files.entries
        ensures NewFileOk(base, p', n)
      {
        assert NewFileOk(base, p, n);
        BuiltStable(p, p', FileNamed(p, n));
      }
    }
  }

  lemma StoredResolved(base: PoolState, linked: PoolState, p: PoolState, f: nat, dependencies: set<nat>, links: Links,
                       proto: FileProto)
    requires Resolvable(base, linked, f, dependencies, links, proto) && Inv(linked) && InTable(linked, f)
    requires SameFiles(linked, p) && SameSymbols(linked, p) && p.links == linked.links[f := links]
    requires linked.descriptors[f].proto == proto && DependenciesOf(linked, f, dependencies)
    ensures NewResolved(base, p)
  {
    hide ReferencesOk, View, KindsOf, AllLinksMeant, DescriptorsOk, SymbolsOk, ImportsInTable, Owned;
    SameView(linked, p, f, dependencies);
    assert ResolvedIn(p, f, dependencies);
    forall n | n in p.core.files.entries && n !in base.core.files.entries
      ensures Resolved(p, FileNamed(p, n))
    {
      assert FileOk(linked, n);
      if n != proto.name { ResolvedSame(linked, p, FileNamed(p, n)); }
    }
  }

  /** In a healthy pool a file and what it depends on see enough. */
  lemma HealthySees(p: PoolState, f: nat, dependencies: set<nat>)
    requires Inv(p) && Healthy(p) && InTable(p, f) && DependenciesOf(p, f, dependencies)
    ensures SeesEnough(p, f, dependencies)
  {
    DependenciesInTable(p, f, dependencies);
    TableFileKnown(p, f);
    forall d | d in dependencies
      ensures PackageKnown(p, d)
    {
      TableFileKnown(p, d);
    }
  }

  lemma TableFileKnown(p: PoolState, d: nat)
    requires Healthy(p) && InTable(p, d)
    ensures PackageKnown(p, d)
  {
    assert Packaged(p, d);
    var package := p.descriptors[d].proto.package;
    forall n | InPackage(package, n) && package != ""
      ensures n in p.core.symbols.entries
    {
      if n != package { PackagePrefixesArePackages(p, package, n); }
    }
  }

  lemma DependenciesInTable(p: PoolState, f: nat, dependencies: set<nat>)
    requires Inv(p) && InTable(p, f) && DependenciesOf(p, f, dependencies)
    ensures forall d :: d in dependencies ==> InTable(p, d)
  {
    var table := set g | g in p.descriptors && InTable(p, g);
    forall h, g | h in table && PublicImport(p.descriptors, h, g)
      ensures g in table
    {
      assert FileOk(p, p.descriptors[h].proto.name);
    }
    assert FileOk(p, p.descriptors[f].proto.name);
    forall d | d in dependencies
      ensures InTable(p, d)
    {
      var h :| Some(h) in p.descriptors[f].imports && Reaches(p.descriptors, h, d);
      ClosedContainsReach(p.descriptors, table, h, d);
    }
  }

  /** Putting a name on the pending list takes it out of what can still be loaded. */
  lemma PendingPushed(p: PoolState, name: string)
    requires Inv(p) && name in Unloaded(p)
    ensures var p' := p.(pending := p.pending + [name]);
            Inv(p') && Loads(p', p') && Unloaded(p') < Unloaded(p) && !HasFile(p, name)
  {
    var p' := p.(pending := p.pending + [name]);
    SameTables(p, p');
    LoadsRefl(p');
    assert name in p'.pending;
  }

  /** The pending list does not matter for what loading did. */
  lemma PendingLoads(p0: PoolState, p: PoolState, name: string)
    requires Inv(p) && Loads(p0.(pending := p0.pending + [name]), p)
    ensures Loads(p0, p.(pending := p0.pending))
  {
    var p1 := p0.(pending := p0.pending + [name]);
    hide Inv, Progress, PackagesClosed, Resolved;
    PendingPopped(p0, p, name);
    if Healthy(p0) {
      SamePackages(p0, p1);
      assert forall f :: Packaged(p0, f) <==> Packaged(p1, f);
      SameNewResolved(p1, p0, p, p.(pending := p0.pending));
    }
  }

  lemma FilesStay(p0: PoolState, p: PoolState)
    requires Advances(p0, p)
    ensures forall n :: HasFile(p0, n) ==> HasFile(p, n)
  {
  }

  lemma StillLoadable(p0: PoolState, p: PoolState, name: string)
    requires Advances(p0, p) && name in Unloaded(p0) && !HasFile(p, name)
    ensures name in Unloaded(p) && Unloaded(p) <= Unloaded(p0)
  {
  }

  lemma StartedShrinks(base: PoolState, p: PoolState, f: nat, proto: FileProto)
    requires Nested(base.core) && Started(base, p, f, proto)
    ensures Unloaded(p) <= Unloaded(base) - {proto.name}
  {
    hide Inv, PackagesClosed, OthersOk, Extends;
  }

  /** What cross-linking leaves as it was. */
  lemma AfterLinking(base: PoolState, p: PoolState, p': PoolState, f: nat, proto: FileProto, dependencies: set<nat>)
    requires Nested(base.core) && Building(base, p, f, proto.name) && p.descriptors[f].proto == proto
    requires Advances(p, p') && Inv(p') && DependenciesOf(p, f, dependencies)
    ensures Building(base, p', f, proto.name) && f in p'.descriptors && p'.descriptors[f].proto == proto
    ensures DependenciesOf(p', f, dependencies)
    ensures Built(p, f) ==> Built(p', f)
    ensures Sub(p.core.symbols.entries, p'.core.symbols.entries)
  {
    hide Owned, FilesOk, SymbolsOk, PackagesClosed, Reached, Extends, Built, OthersOk;
    BuildingAdvances(base, p, p', f, proto.name);
    DependenciesStable(p, p', f, dependencies);
    if Built(p, f) { BuiltStable(p, p', f); }
  }

  lemma FoundTwiceStable(r: Registry, r': Registry, ds: seq<Declaration>)
    requires Sub(r.byName, r'.byName) && r'.byParent == r.byParent
    requires AllFoundTwice(r, ds)
    ensures AllFoundTwice(r', ds)
  {
  }
}
