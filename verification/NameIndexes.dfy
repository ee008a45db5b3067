/** The two indexes of a build: symbols by full name (pool-wide) and by parent and name
    (per file), and when they can come apart. */
module NameIndexes {
  import opened Journal
  import opened TablesSpec
  import opened Protos

  type ByName = map<string, Entry<string, Symbol>>
  type ByParent = map<(Parent, string), Symbol>

  datatype Registry = Registry(byName: ByName, byParent: ByParent)

  datatype Outcome =
    | Added
    | AlreadyDefined
    | IndexesDisagree  // new by full name, yet known by parent: "this shouldn't be possible"

  function AddToBoth(r: Registry, d: Declaration, key: Key<string>, s: Symbol): (Registry, Outcome) {
    if d.fullName in r.byName then (r, AlreadyDefined)
    else
      var named := r.(byName := r.byName[d.fullName := Entry(key, s)]);
      if (d.parent, d.name) in r.byParent then (named, IndexesDisagree)
      else (named.(byParent := r.byParent[(d.parent, d.name) := s]), Added)
  }

  function AddAlias(byParent: ByParent, parent: Parent, name: string, s: Symbol): ByParent {
    if (parent, name) in byParent then byParent else byParent[(parent, name) := s]
  }

  function AddAliases(byParent: ByParent, d: Declaration, s: Symbol): ByParent {
    if d.alias == [] then byParent else AddAlias(byParent, d.alias[0], d.name, s)
  }

  predicate AliasIsNew(byParent: ByParent, d: Declaration) {
    d.alias != [] && (d.alias[0], d.name) !in byParent
  }

  /** One declaration: AddSymbol, then for enum values the alias below the enum. */
  function Register(r: Registry, d: Declaration, key: Key<string>, s: Symbol): (Registry, Outcome) {
    var (r', o) := AddToBoth(r, d, key, s);
    (r'.(byParent := AddAliases(r'.byParent, d, s)), o)
  }

  lemma NoneForgotten(r: Registry, d: Declaration, key: Key<string>, s: Symbol)
    ensures r.byParent.Keys <= Register(r, d, key, s).0.byParent.Keys
  {
  }

  /** It does happen: an unnamed message outside any package, with a oneof and a field
      of one name. */
  lemma UnnamedMessageDisagrees(key: Key<string>, s: Symbol)
    ensures var m := MessageProto("", ["x"], ["x"], [], [], []);
            var ds := MessageDeclarations(m, InFile(""), [0]);
            && |ds| == 3 && ds[0].kind == Oneof && ds[1].kind == Field
            && var r1 := Register(Registry(map[], map[]), ds[0], key, s);
               && r1.1 == Added
               && Register(r1.0, ds[1], key, s).1 == IndexesDisagree
  {
  }

  /** Found by full name and by parent and name, as the same symbol. */
  ghost predicate FoundTwice(r: Registry, d: Declaration) {
    && d.fullName in r.byName
    && (d.parent, d.name) in r.byParent
    && r.byParent[(d.parent, d.name)] == r.byName[d.fullName].value
  }

  ghost predicate AllFoundTwice(r: Registry, ds: seq<Declaration>) {
    forall d :: d in ds ==> FoundTwice(r, d)
  }
}
