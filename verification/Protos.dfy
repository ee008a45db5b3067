/** The parts of a FileDescriptorProto that decide what building it does to the pool,
    and the sequence of AddSymbol calls that its declarations make. */
module Protos {
  import opened TablesSpec

  datatype EnumProto = EnumProto(name: string, values: seq<string>)

  datatype ServiceProto = ServiceProto(name: string, methods: seq<string>)

  datatype MessageProto = MessageProto(
    name: string, oneofs: seq<string>, fields: seq<string>, nested: seq<MessageProto>,
    enums: seq<EnumProto>, extensions: seq<string>)

  datatype ResolveMode = LookupAll | LookupTypes

  /** What a name in a field or method is for. A field type that goes with a primitive type
      is never acceptable. */
  datatype Role = Extendee | FieldType(has: TypeGiven) | MethodType

  datatype TypeGiven = NoType | MessageType | EnumType | PrimitiveType

  datatype Use = Use(name: string, role: Role)

  /** What a field or one operand of a method needs, in order; the first failure ends it.
      `owner` is the place of the field or method among the file's declarations. */
  datatype Operand = Operand(owner: nat, uses: seq<Use>)

  /** One name to cross-link: where it is written, how it is looked up and which
      types of symbol are acceptable there. */
  datatype Reference = Reference(name: string, relativeTo: string, mode: ResolveMode, accepts: set<SymbolType>)

  datatype FileProto = FileProto(
    name: string, package: string, dependency: seq<string>, publicDependency: seq<int>,
    messages: seq<MessageProto>, enums: seq<EnumProto>, services: seq<ServiceProto>, extensions: seq<string>,
    operands: seq<Operand>,
    // Everything else in it, serialized.
    rest: string)

  /** A finite fallback database.  A file is found under its own name; the file said to
      contain a symbol may in truth not define it. */
  datatype Database = Database(files: map<string, FileProto>, symbolFile: map<string, string>) {
    predicate Valid() {
      && (forall n :: n in files ==> files[n].name == n)
      && (forall s :: s in symbolFile ==> symbolFile[s] in files)
    }
  }

  /** A descriptor pointer, as far as it serves as the parent of a name.  `path` tells
      pointers apart; fullName is what the descriptor pointed at says. */
  datatype Parent =
    | InFile(package: string)
    | InMessage(path: seq<nat>, fullName: string)
    | InEnum(path: seq<nat>, fullName: string)
    | InService(path: seq<nat>, fullName: string)

  /** The arguments of one AddSymbol call; `alias` is the enum under which an enum value
      is listed a second time. */
  datatype Declaration = Declaration(
    fullName: string, parent: Parent, name: string, kind: SymbolType, alias: seq<Parent>)

  function InScope(scope: string, name: string): string {
    if scope == "" then name else scope + "." + name
  }

  function ScopeOf(p: Parent): string {
    if p.InFile? then p.package else p.fullName
  }

  function ServiceDeclarations(s: ServiceProto, package: string, path: seq<nat>): seq<Declaration> {
    var full := InScope(package, s.name);
    seq(|s.methods|, i requires 0 <= i < |s.methods| =>
      Declaration(full + "." + s.methods[i], InService(path, full), s.methods[i], Method, []))
    + [Declaration(full, InFile(package), s.name, Service, [])]
  }

  /** An enum value's full name is made from the enum's: its own name replaces the
      enum's at the end. */
  function EnumDeclarations(e: EnumProto, parent: Parent, path: seq<nat>): seq<Declaration> {
    var full := InScope(ScopeOf(parent), e.name);
    seq(|e.values|, i requires 0 <= i < |e.values| =>
      Declaration(full[..|full| - |e.name|] + e.values[i], parent, e.values[i], EnumValue, [InEnum(path, full)]))
    + [Declaration(full, parent, e.name, Enum, [])]
  }

  function NamesIn(names: seq<string>, parent: Parent, kind: SymbolType): seq<Declaration> {
    seq(|names|, i requires 0 <= i < |names| =>
      Declaration(InScope(ScopeOf(parent), names[i]), parent, names[i], kind, []))
  }

  /** BuildOneof joins with a dot even when the message's full name is empty. */
  function OneofDeclarations(names: seq<string>, parent: Parent): seq<Declaration> {
    seq(|names|, i requires 0 <= i < |names| =>
      Declaration(ScopeOf(parent) + "." + names[i], parent, names[i], Oneof, []))
  }

  function MessageDeclarations(m: MessageProto, parent: Parent, path: seq<nat>): seq<Declaration>
    decreases m, 0
  {
    var self := InMessage(path, InScope(ScopeOf(parent), m.name));
    OneofDeclarations(m.oneofs, self)
    + NamesIn(m.fields, self, Field)
    + MessagesDeclarations(m.nested, self, path + [0], 0)
    + EnumsDeclarations(m.enums, self, path + [1], 0)
    + NamesIn(m.extensions, self, Field)
    + [Declaration(self.fullName, parent, m.name, Message, [])]
  }

  function MessagesDeclarations(ms: seq<MessageProto>, parent: Parent, path: seq<nat>, i: nat): seq<Declaration>
    requires i <= |ms|
    decreases ms, |ms| - i
  {
    if i == |ms| then []
    else MessageDeclarations(ms[i], parent, path + [i]) + MessagesDeclarations(ms, parent, path, i + 1)
  }

  function EnumsDeclarations(es: seq<EnumProto>, parent: Parent, path: seq<nat>, i: nat): seq<Declaration>
    requires i <= |es|
    decreases |es| - i
  {
    if i == |es| then []
    else EnumDeclarations(es[i], parent, path + [i]) + EnumsDeclarations(es, parent, path, i + 1)
  }

  function ServicesDeclarations(ss: seq<ServiceProto>, package: string, i: nat): seq<Declaration>
    requires i <= |ss|
    decreases |ss| - i
  {
    if i == |ss| then []
    else ServiceDeclarations(ss[i], package, [2, i]) + ServicesDeclarations(ss, package, i + 1)
  }

  /** The AddSymbol calls of BuildFile's "convert children" part, in order. */
  function Declarations(p: FileProto): seq<Declaration> {
    MessagesDeclarations(p.messages, InFile(p.package), [0], 0)
    + EnumsDeclarations(p.enums, InFile(p.package), [1], 0)
    + ServicesDeclarations(p.services, p.package, 0)
    + NamesIn(p.extensions, InFile(p.package), Field)
  }

  /** The full names that the declarations give. */
  function NamesOf(ds: seq<Declaration>): set<string> {
    set d | d in ds :: d.fullName
  }

  // ------------------------------------------------------------- references

  /** Only field types are looked up as types. */
  function ModeOf(role: Role): ResolveMode {
    if role.FieldType? then LookupTypes else LookupAll
  }

  function AcceptedIn(role: Role): set<SymbolType> {
    match role
    case FieldType(NoType) => {Message, Enum}
    case FieldType(EnumType) => {Enum}
    case FieldType(PrimitiveType) => {}
    case _ => {Message}
  }

  function OwnerName(ds: seq<Declaration>, k: nat): string {
    if k < |ds| then ds[k].fullName else ""
  }

  /** A name is looked up from the full name of the field or method that it is written in. */
  function ReferenceOf(use: Use, owner: string): Reference {
    Reference(use.name, owner, ModeOf(use.role), AcceptedIn(use.role))
  }

  function ReferencesOf(o: Operand, owner: string): seq<Reference> {
    seq(|o.uses|, i requires 0 <= i < |o.uses| => ReferenceOf(o.uses[i], owner))
  }

  /** The names to cross-link, group by group. */
  function References(p: FileProto): seq<seq<Reference>> {
    var ds := Declarations(p);
    seq(|p.operands|, g requires 0 <= g < |p.operands| =>
      ReferencesOf(p.operands[g], OwnerName(ds, p.operands[g].owner)))
  }

  // ------------------------------------------------------------- well-named declarations

  /** The full name that a parent and a name determine, for everything but oneofs. */
  function Qualified(parent: Parent, name: string): string {
    if parent.InService? then parent.fullName + "." + name else InScope(ScopeOf(parent), name)
  }

  predicate WellNamed(d: Declaration) {
    && d.kind != Package
    && !d.parent.InEnum?
    && d.fullName == (if d.kind == Oneof then ScopeOf(d.parent) + "." + d.name else Qualified(d.parent, d.name))
    && (d.kind == Oneof ==> d.parent.InMessage?)
    && forall p :: p in d.alias ==> p.InEnum?
  }

  predicate AllWellNamed(ds: seq<Declaration>) {
    forall d :: d in ds ==> WellNamed(d)
  }

  lemma {:induction false} MessageWellNamed(m: MessageProto, parent: Parent, path: seq<nat>)
    requires parent.InFile? || parent.InMessage?
    ensures AllWellNamed(MessageDeclarations(m, parent, path))
    decreases m, 0
  {
    var self := InMessage(path, InScope(ScopeOf(parent), m.name));
    MessagesWellNamed(m.nested, self, path + [0], 0);
    EnumsWellNamed(m.enums, self, path + [1], 0);
  }

  lemma {:induction false} MessagesWellNamed(ms: seq<MessageProto>, parent: Parent, path: seq<nat>, i: nat)
    requires i <= |ms| && (parent.InFile? || parent.InMessage?)
    ensures AllWellNamed(MessagesDeclarations(ms, parent, path, i))
    decreases ms, |ms| - i
  {
    if i < |ms| {
      MessageWellNamed(ms[i], parent, path + [i]);
      MessagesWellNamed(ms, parent, path, i + 1);
    }
  }

  lemma {:induction false} EnumsWellNamed(es: seq<EnumProto>, parent: Parent, path: seq<nat>, i: nat)
    requires i <= |es| && (parent.InFile? || parent.InMessage?)
    ensures AllWellNamed(EnumsDeclarations(es, parent, path, i))
    decreases |es| - i
  {
    if i < |es| {
      var e := es[i];
      var full := InScope(ScopeOf(parent), e.name);
      forall d | d in EnumDeclarations(e, parent, path + [i])
        ensures WellNamed(d)
      {
        if d.kind == EnumValue {
          assert full[..|full| - |e.name|] + d.name == InScope(ScopeOf(parent), d.name);
        }
      }
      EnumsWellNamed(es, parent, path, i + 1);
    }
  }

  lemma {:induction false} ServicesWellNamed(ss: seq<ServiceProto>, package: string, i: nat)
    requires i <= |ss|
    ensures AllWellNamed(ServicesDeclarations(ss, package, i))
    decreases |ss| - i
  {
    if i < |ss| {
      ServicesWellNamed(ss, package, i + 1);
    }
  }

  /** Every symbol a file declares gets the full name that its parent and its own name
      determine; enum values included, although their names are cut out of the enum's. */
  lemma DeclarationsWellNamed(p: FileProto)
    ensures AllWellNamed(Declarations(p))
  {
    MessagesWellNamed(p.messages, InFile(p.package), [0], 0);
    EnumsWellNamed(p.enums, InFile(p.package), [1], 0);
    ServicesWellNamed(p.services, p.package, 0);
  }

  predicate Unnamed(p: Parent) { p.InMessage? && p.fullName == "" }

  /** If something is declared in a message with an empty full name, a message with an
      empty name is declared too. */
  predicate UnnamedShows(ds: seq<Declaration>) {
    (exists d :: d in ds && Unnamed(d.parent)) ==> exists d :: d in ds && d.name == ""
  }

  lemma {:induction false} MessageUnnamedShows(m: MessageProto, parent: Parent, path: seq<nat>)
    requires !Unnamed(parent)
    ensures UnnamedShows(MessageDeclarations(m, parent, path))
    decreases m, 0
  {
    var self := InMessage(path, InScope(ScopeOf(parent), m.name));
    var ds := MessageDeclarations(m, parent, path);
    if Unnamed(self) {
      assert ds[|ds| - 1].name == "";
    } else {
      MessagesUnnamedShows(m.nested, self, path + [0], 0);
      EnumsParent(m.enums, self, path + [1], 0);
    }
  }

  lemma {:induction false} MessagesUnnamedShows(ms: seq<MessageProto>, parent: Parent, path: seq<nat>, i: nat)
    requires i <= |ms| && !Unnamed(parent)
    ensures UnnamedShows(MessagesDeclarations(ms, parent, path, i))
    decreases ms, |ms| - i
  {
    if i < |ms| {
      MessageUnnamedShows(ms[i], parent, path + [i]);
      MessagesUnnamedShows(ms, parent, path, i + 1);
    }
  }

  lemma {:induction false} EnumsParent(es: seq<EnumProto>, parent: Parent, path: seq<nat>, i: nat)
    requires i <= |es|
    ensures forall d :: d in EnumsDeclarations(es, parent, path, i) ==> d.parent == parent
    decreases |es| - i
  {
    if i < |es| { EnumsParent(es, parent, path, i + 1); }
  }

  lemma {:induction false} ServicesParent(ss: seq<ServiceProto>, package: string, i: nat)
    requires i <= |ss|
    ensures forall d :: d in ServicesDeclarations(ss, package, i) ==> !d.parent.InMessage?
    decreases |ss| - i
  {
    if i < |ss| { ServicesParent(ss, package, i + 1); }
  }

  lemma DeclarationsUnnamedShow(p: FileProto)
    ensures UnnamedShows(Declarations(p))
  {
    MessagesUnnamedShows(p.messages, InFile(p.package), [0], 0);
    EnumsParent(p.enums, InFile(p.package), [1], 0);
    ServicesParent(p.services, p.package, 0);
  }
}
