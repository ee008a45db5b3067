/** Declaring a file's symbols one after the other: which declarations fail, and when the
    two name indexes come apart. */
module Declaring {
  import opened NameIndexes
  import opened Names
  import opened PoolSpec
  import opened Protos
  import opened TablesSpec

  /** The j-th declaration fails: its name is not an identifier, or its full name was
      taken before the file's declarations or by an earlier one of them. */
  ghost predicate Clashes(taken: set<string>, ds: seq<Declaration>, j: nat)
    requires j < |ds|
  {
    || !ValidIdentifier(ds[j].name)
    || ds[j].fullName in taken
    || exists i :: 0 <= i < j && ds[i].fullName == ds[j].fullName
  }

  /** The names that the first i declarations give. */
  ghost predicate NamedBefore(ds: seq<Declaration>, i: nat, n: string) {
    exists j :: 0 <= j < i <= |ds| && ds[j].fullName == n
  }

  ghost predicate SomeClash(taken: set<string>, ds: seq<Declaration>, i: nat) {
    exists j :: 0 <= j < i <= |ds| && Clashes(taken, ds, j)
  }

  /** The j-th declaration gives a full name that is new, to the pool and in the file. */
  ghost predicate Fresh(taken: set<string>, ds: seq<Declaration>, j: nat)
    requires j < |ds|
  {
    ds[j].fullName !in taken && !NamedBefore(ds, j, ds[j].fullName)
  }

  /** A fresh declaration among the first n has this parent and name. */
  ghost predicate KeyBefore(taken: set<string>, ds: seq<Declaration>, n: nat, parent: Parent, name: string) {
    exists i :: 0 <= i < n <= |ds| && ds[i].parent == parent && ds[i].name == name && Fresh(taken, ds, i)
  }

  /** The second index of names holds the fresh declarations, besides enum aliases. */
  ghost predicate KeysListed(byParent: ByParent, taken: set<string>, ds: seq<Declaration>, n: nat) {
    forall parent: Parent, name: string :: !parent.InEnum? ==>
      ((parent, name) in byParent <==> KeyBefore(taken, ds, n, parent, name))
  }

  /** The j-th declaration reaches the branch that is said to be impossible. */
  ghost predicate Disagrees(taken: set<string>, ds: seq<Declaration>, j: nat)
    requires j < |ds|
  {
    Fresh(taken, ds, j) && KeyBefore(taken, ds, j, ds[j].parent, ds[j].name)
  }

  ghost predicate SomeDisagree(taken: set<string>, ds: seq<Declaration>, n: nat) {
    exists j :: 0 <= j < n <= |ds| && Disagrees(taken, ds, j)
  }

  /** A oneof and another member of one name, in a message whose full name is empty. */
  predicate Twins(a: Declaration, b: Declaration) {
    Unnamed(a.parent) && a.parent == b.parent && a.name == b.name && ((a.kind == Oneof) != (b.kind == Oneof))
  }

  /** The branch is reached exactly by the second of two such members whose full names
      are both new. */
  lemma DisagreesExactly(taken: set<string>, ds: seq<Declaration>, j: nat)
    requires AllWellNamed(ds) && j < |ds|
    ensures Disagrees(taken, ds, j) <==>
              Fresh(taken, ds, j) && exists i :: 0 <= i < j && Fresh(taken, ds, i) && Twins(ds[i], ds[j])
  {
    forall i | 0 <= i < j && Fresh(taken, ds, j) && ds[i].parent == ds[j].parent && ds[i].name == ds[j].name
      ensures Twins(ds[i], ds[j])
    {
      assert ds[i] in ds && ds[j] in ds;
      assert ds[i].fullName != ds[j].fullName;
      SameNamesUnlessTwins(ds[i], ds[j]);
    }
  }

  /** So the indexes come apart in a list of declarations exactly if it has such members. */
  lemma TwinsDisagree(taken: set<string>, ds: seq<Declaration>)
    requires AllWellNamed(ds)
    ensures SomeDisagree(taken, ds, |ds|) <==>
              exists i, j :: 0 <= i < j < |ds| && Fresh(taken, ds, i) && Fresh(taken, ds, j) && Twins(ds[i], ds[j])
  {
    hide Fresh, Twins, Disagrees, AllWellNamed;
    forall j | 0 <= j < |ds|
      ensures Disagrees(taken, ds, j) <==>
                Fresh(taken, ds, j) && exists i :: 0 <= i < j && Fresh(taken, ds, i) && Twins(ds[i], ds[j])
    {
      DisagreesExactly(taken, ds, j);
    }
  }

  lemma SameNamesUnlessTwins(a: Declaration, b: Declaration)
    requires WellNamed(a) && WellNamed(b) && a.parent == b.parent && a.name == b.name && a.fullName != b.fullName
    ensures Twins(a, b)
  {
  }

  /** A message without a full name shows as an error. */
  lemma DisagreeClashes(taken: set<string>, ds: seq<Declaration>)
    requires AllWellNamed(ds) && UnnamedShows(ds) && SomeDisagree(taken, ds, |ds|)
    ensures SomeClash(taken, ds, |ds|)
  {
    var j :| 0 <= j < |ds| && Disagrees(taken, ds, j);
    DisagreesExactly(taken, ds, j);
    assert ds[j] in ds;
    var d :| d in ds && d.name == "";
    var k :| 0 <= k < |ds| && ds[k] == d;
    assert Clashes(taken, ds, k);
  }

  lemma NothingDeclared(p: PoolState, ds: seq<Declaration>)
    ensures Progress(p, p)
    ensures var taken := p.core.symbols.entries.Keys;
            !SomeClash(taken, ds, 0) && !SomeDisagree(taken, ds, 0) && KeysListed(map[], taken, ds, 0)
    ensures forall n :: !NamedBefore(ds, 0, n)
    ensures forall f :: SymbolsFor(p, p, f)
  {
  }

  /** What registering the i-th declaration adds to what is known about the first i. */
  lemma DeclaredStep(taken: set<string>, ds: seq<Declaration>, i: nat, r: Registry,
                     key: PoolString, s: Symbol)
    requires i < |ds| && WellNamed(ds[i]) && KeysListed(r.byParent, taken, ds, i)
    requires forall n :: n in r.byName <==> n in taken || NamedBefore(ds, i, n)
    ensures var (r', o) := Register(r, ds[i], key, s);
            && KeysListed(r'.byParent, taken, ds, i + 1)
            && Sub(r.byName, r'.byName)
            && (forall n :: n in r'.byName <==> n in taken || NamedBefore(ds, i + 1, n))
            && (SomeClash(taken, ds, i + 1) <==>
                  SomeClash(taken, ds, i) || o.AlreadyDefined? || !ValidIdentifier(ds[i].name))
            && (SomeDisagree(taken, ds, i + 1) <==> SomeDisagree(taken, ds, i) || o.IndexesDisagree?)
            && (!o.AlreadyDefined? ==> ds[i].fullName in r'.byName && r'.byName[ds[i].fullName].value == s)
            && (o.Added? ==> FoundTwice(r', ds[i]))
            && (forall d :: FoundTwice(r, d) ==> FoundTwice(r', d))
  {
    hide ValidIdentifier, WellNamed, KeysListed;
    var (r', o) := Register(r, ds[i], key, s);
    KeysListedStep(taken, ds, i, r, key, s);
    forall n ensures n in r'.byName <==> n in taken || NamedBefore(ds, i + 1, n) {
      if n in taken || NamedBefore(ds, i, n) {} else { assert n in r'.byName <==> n == ds[i].fullName; }
    }
    assert Clashes(taken, ds, i) <==> o.AlreadyDefined? || !ValidIdentifier(ds[i].name);
    assert Disagrees(taken, ds, i) <==> o.IndexesDisagree?;
  }

  lemma KeysListedStep(taken: set<string>, ds: seq<Declaration>, i: nat, r: Registry, key: PoolString, s: Symbol)
    requires i < |ds| && WellNamed(ds[i]) && KeysListed(r.byParent, taken, ds, i)
    requires forall n :: n in r.byName <==> n in taken || NamedBefore(ds, i, n)
    ensures KeysListed(Register(r, ds[i], key, s).0.byParent, taken, ds, i + 1)
    ensures Register(r, ds[i], key, s).1.IndexesDisagree? <==> Disagrees(taken, ds, i)
  {
    hide Fresh;
    assert Fresh(taken, ds, i) <==> ds[i].fullName !in r.byName by { FreshIs(taken, ds, i, r.byName); }
    forall parent: Parent, name | !parent.InEnum?
      ensures KeyBefore(taken, ds, i + 1, parent, name) <==>
              KeyBefore(taken, ds, i, parent, name) ||
              (ds[i].parent == parent && ds[i].name == name && Fresh(taken, ds, i))
    {
    }
  }

  lemma FreshIs(taken: set<string>, ds: seq<Declaration>, i: nat, byName: ByName)
    requires i < |ds| && forall n :: n in byName <==> n in taken || NamedBefore(ds, i, n)
    ensures Fresh(taken, ds, i) <==> ds[i].fullName !in byName
  {
  }

  lemma NamesAll(ds: seq<Declaration>)
    ensures forall n :: NamedBefore(ds, |ds|, n) <==> n in NamesOf(ds)
  {
    forall n | n in NamesOf(ds)
      ensures NamedBefore(ds, |ds|, n)
    {
      var d :| d in ds && d.fullName == n;
      var j :| 0 <= j < |ds| && ds[j] == d;
    }
  }

  /** The symbols that were added belong to f. */
  ghost predicate SymbolsFor(p0: PoolState, p: PoolState, f: nat) {
    forall n :: n in p.core.symbols.entries && n !in p0.core.symbols.entries ==>
                  p.core.symbols.entries[n].value.file == f
  }

  lemma SymbolFor(p0: PoolState, p: PoolState, p': PoolState, f: nat, d: Declaration, key: PoolString, s: Symbol,
                  r: Registry)
    requires SymbolsFor(p0, p, f) && s.file == f && r.byName == p.core.symbols.entries
    requires p'.core.symbols.entries == Register(r, d, key, s).0.byName
    ensures SymbolsFor(p0, p', f)
  {
  }

  /** Declarations that do not clash have names. */
  lemma NamesNotEmpty(taken: set<string>, ds: seq<Declaration>)
    requires AllWellNamed(ds) && !SomeClash(taken, ds, |ds|)
    ensures "" !in NamesOf(ds)
  {
    forall d | d in ds
      ensures d.fullName != ""
    {
      var j :| 0 <= j < |ds| && ds[j] == d;
      assert !Clashes(taken, ds, j);
      NamedNotEmpty(d);
    }
  }

  lemma NamedNotEmpty(d: Declaration)
    requires WellNamed(d) && d.name != ""
    ensures d.fullName != ""
  {
  }
}
