/** Loading a file from the fallback database, told by contents: which files are tried, in
    which order, and which of them end up in the pool. */
module Loading {
  import opened BuilderSpec
  import opened BuildLaws
  import opened ExpectedView
  import opened LookupSpec
  import opened Names
  import opened PoolContents
  import opened Protos
  import opened RelativeNames
  import opened TablesSpec

  type Checks = (Content, FileProto) -> bool

  /** What has been loaded, which names were found bad, and whether linking has asked for
      nothing that the database would have loaded more for. */
  datatype Load = Load(content: Content, bad: set<string>, silent: bool)

  /** The build succeeds in these contents. */
  ghost predicate BuildableIn(c: Content, fails: Checks, proto: FileProto) {
    Fits(c, proto) && !fails(c, proto)
  }

  /** The database would be asked for the symbol, and names a file that is not there. */
  predicate Wanted(database: Database, c: Content, name: string) {
    && (forall q :: q in c.symbols && DottedPrefix(q, name) ==> c.symbols[q].kind == Package)
    && name in database.symbolFile && database.symbolFile[name] !in c.files
  }

  /** Linking the file asks for no symbol of another file that could be loaded then. */
  ghost predicate AsksNothing(database: Database, c: Content, proto: FileProto) {
    forall g, i, n :: 0 <= g < |References(proto)| && 0 <= i < |References(proto)[g]|
                      && Asks(References(proto)[g][i].name, References(proto)[g][i].relativeTo, n) ==>
                        !Wanted(database, c, n) || database.symbolFile[n] == proto.name
  }

  ghost function NotPending(database: Database, pending: seq<string>): set<string> {
    database.files.Keys - set n | n in pending
  }

  /** TryFindFileInFallbackDatabase for a name that is not in the pool. */
  ghost function TryFile(database: Database, fails: Checks, l: Load, pending: seq<string>, name: string): (r: Load)
    requires database.Valid()
    ensures r.silent ==> l.silent
    ensures l.content.files.Keys <= r.content.files.Keys
    decreases NotPending(database, pending), 1, 0
  {
    if name in l.bad then l
    else if name !in database.files then l.(bad := l.bad + {name})
    else
      var r := Build(database, fails, l, pending, name);
      if name in r.content.files then r else r.(bad := r.bad + {name})
  }

  /** BuildFile: the imports in order, then the file itself. */
  ghost function Build(database: Database, fails: Checks, l: Load, pending: seq<string>, name: string): (r: Load)
    requires database.Valid() && name in database.files
    ensures r.silent ==> l.silent
    ensures l.content.files.Keys <= r.content.files.Keys
    decreases NotPending(database, pending), 0, 0
  {
    if name in pending then l
    else
      assert name in NotPending(database, pending) && name !in NotPending(database, pending + [name]);
      var proto := database.files[name];
      Finish(database, fails, TryImports(database, fails, l, pending + [name], proto.dependency), proto)
  }

  /** The build proper, once the imports have been tried. */
  ghost function Finish(database: Database, fails: Checks, l: Load, proto: FileProto): (r: Load)
    ensures r.silent ==> l.silent
    ensures l.content.files.Keys <= r.content.files.Keys
  {
    Load(if BuildableIn(l.content, fails, proto) then WithFile(l.content, proto) else l.content,
            l.bad,
            l.silent && AsksNothing(database, l.content, proto))
  }

  ghost function TryImports(database: Database, fails: Checks, l: Load, pending: seq<string>, names: seq<string>):
    (r: Load)
    requires database.Valid()
    ensures r.silent ==> l.silent
    ensures l.content.files.Keys <= r.content.files.Keys
    decreases NotPending(database, pending), 2, |names|
  {
    if names == [] then l
    else
      var first := if names[0] in l.content.files then l else TryFile(database, fails, l, pending, names[0]);
      TryImports(database, fails, first, pending, names[1..])
  }

  lemma TryImportsStep(database: Database, fails: Checks, l: Load, pending: seq<string>, names: seq<string>)
    requires database.Valid() && names != []
    ensures var first := if names[0] in l.content.files then l else TryFile(database, fails, l, pending, names[0]);
            first.silent ==> l.silent
    ensures var first := if names[0] in l.content.files then l else TryFile(database, fails, l, pending, names[0]);
            TryImports(database, fails, l, pending, names) == TryImports(database, fails, first, pending, names[1..])
  {
    hide TryFile;
  }

  lemma TryImportsDone(database: Database, fails: Checks, l: Load, pending: seq<string>, names: seq<string>)
    requires database.Valid() && names == []
    ensures TryImports(database, fails, l, pending, names) == l
  {
  }

  // ------------------------------------------------------------- courses

  /** A database that names no file for any symbol is asked for none. */
  lemma {:induction false} SilentWithoutSymbols(database: Database, fails: Checks, l: Load, pending: seq<string>,
                                                name: string)
    requires database.Valid() && database.symbolFile == map[] && l.silent
    ensures TryFile(database, fails, l, pending, name).silent
    decreases NotPending(database, pending), 1, 0
  {
    if name in database.files && name !in l.bad && name !in pending {
      assert name in NotPending(database, pending) && name !in NotPending(database, pending + [name]);
      SilentImports(database, fails, l, pending + [name], database.files[name].dependency);
    }
  }

  lemma {:induction false} SilentImports(database: Database, fails: Checks, l: Load, pending: seq<string>,
                                         names: seq<string>)
    requires database.Valid() && database.symbolFile == map[] && l.silent
    ensures TryImports(database, fails, l, pending, names).silent
    decreases NotPending(database, pending), 2, |names|
  {
    if names != [] {
      if names[0] !in l.content.files { SilentWithoutSymbols(database, fails, l, pending, names[0]); }
      var first := if names[0] in l.content.files then l else TryFile(database, fails, l, pending, names[0]);
      SilentImports(database, fails, first, pending, names[1..]);
    }
  }

  /** The contents with these files of the database added, in order. */
  function Gathered(database: Database, base: Content, loaded: seq<string>): Content
    requires forall n :: n in loaded ==> n in database.files
  {
    if loaded == [] then base
    else WithFile(Gathered(database, base, loaded[..|loaded| - 1]), database.files[loaded[|loaded| - 1]])
  }

  lemma {:induction false} GatheredFiles(database: Database, base: Content, loaded: seq<string>)
    requires database.Valid() && forall n :: n in loaded ==> n in database.files
    ensures forall n :: n in Gathered(database, base, loaded).files <==> n in base.files || n in loaded
  {
    if loaded != [] {
      var shorter, last := loaded[..|loaded| - 1], loaded[|loaded| - 1];
      GatheredFiles(database, base, shorter);
      assert loaded == shorter + [last];
    }
  }

  /** Some of the files, each once, in any order. */
  predicate Picked(loaded: seq<string>, order: seq<string>) {
    && (forall n :: n in loaded ==> n in order)
    && (forall i, j :: 0 <= i < j < |loaded| ==> loaded[i] != loaded[j])
  }

  predicate HasImports(c: Content, proto: FileProto) {
    forall n :: n in proto.dependency ==> n in c.files
  }

  /** The i-th file imports only what is there or comes earlier, and its build will do
      whichever files of the course have been added by then, as long as its imports are
      among them. */
  ghost predicate Comes(database: Database, fails: Checks, base: Content, order: seq<string>, i: nat)
    requires i < |order| && forall n :: n in order ==> n in database.files
  {
    var proto := database.files[order[i]];
    && order[i] !in base.files
    && (forall n :: n in proto.dependency ==> n in base.files || n in order[..i])
    && forall loaded :: Picked(loaded, order) && order[i] !in loaded
                        && HasImports(Gathered(database, base, loaded), proto) ==>
         && BuildableIn(Gathered(database, base, loaded), fails, proto)
         && AsksNothing(database, Gathered(database, base, loaded), proto)
  }

  /** Files of the database, imports before what imports them, that can all be built. */
  ghost predicate Course(database: Database, fails: Checks, base: Content, order: seq<string>) {
    && database.Valid() && (forall n :: n in order ==> n in database.files)
    && (forall i, j :: 0 <= i < j < |order| ==> order[i] != order[j])
    && forall i :: 0 <= i < |order| ==> Comes(database, fails, base, order, i)
  }

  /** Some files of the course have been added, and none was found bad. */
  ghost predicate OnCourse(database: Database, base: Content, order: seq<string>, l: Load, loaded: seq<string>) {
    && l.silent && Picked(loaded, order) && (forall n :: n in order ==> n in database.files && n !in l.bad)
    && l.content == Gathered(database, base, loaded)
  }

  predicate NonePending(order: seq<string>, n: nat, pending: seq<string>)
    requires n <= |order|
  {
    forall j :: 0 <= j < n ==> order[j] !in pending
  }

  /** A file of the course is loaded, with earlier ones only. */
  lemma {:induction false} CourseLoads(database: Database, fails: Checks, base: Content, order: seq<string>, i: nat,
                                       l: Load, loaded: seq<string>, pending: seq<string>)
    returns (more: seq<string>)
    requires Course(database, fails, base, order) && i < |order| && OnCourse(database, base, order, l, loaded)
    requires order[i] !in loaded && NonePending(order, i + 1, pending)
    ensures OnCourse(database, base, order, TryFile(database, fails, l, pending, order[i]), more)
    ensures order[i] in more && forall n :: n in more ==> n in loaded || n in order[..i + 1]
    ensures loaded <= more
    decreases i, 1, 0
  {
    hide Gathered, AsksNothing, BuildableIn, WithFile;
    var name, proto := order[i], database.files[order[i]];
    assert Comes(database, fails, base, order, i);
    assert name !in order[..i];
    more := ImportsLoad(database, fails, base, order, i, l, loaded, pending + [name], proto.dependency);
    var tried := TryImports(database, fails, l, pending + [name], proto.dependency);
    GatheredFiles(database, base, more);
    assert BuildableIn(tried.content, fails, proto) && AsksNothing(database, tried.content, proto);
    FinishGathers(database, fails, base, order, tried, more, name);
    GatheredFiles(database, base, more + [name]);
    more := more + [name];
  }

  lemma FinishGathers(database: Database, fails: Checks, base: Content, order: seq<string>, l: Load,
                      loaded: seq<string>, name: string)
    requires OnCourse(database, base, order, l, loaded) && name in order && name !in loaded
    requires BuildableIn(l.content, fails, database.files[name]) && AsksNothing(database, l.content, database.files[name])
    ensures OnCourse(database, base, order, Finish(database, fails, l, database.files[name]), loaded + [name])
  {
    hide BuildableIn, AsksNothing, WithFile;
    assert (loaded + [name])[..|loaded|] == loaded;
  }

  lemma {:induction false} ImportsLoad(database: Database, fails: Checks, base: Content, order: seq<string>, i: nat,
                                       l: Load, loaded: seq<string>, pending: seq<string>, names: seq<string>)
    returns (more: seq<string>)
    requires Course(database, fails, base, order) && i < |order| && OnCourse(database, base, order, l, loaded)
    requires NonePending(order, i, pending)
    requires forall n :: n in names ==> n in base.files || n in order[..i]
    ensures OnCourse(database, base, order, TryImports(database, fails, l, pending, names), more)
    ensures forall n :: n in names ==> n in base.files || n in more
    ensures forall n :: n in more ==> n in loaded || n in order[..i]
    ensures loaded <= more
    decreases i, 0, |names|
  {
    hide Gathered, Comes, Finish;
    if names == [] { return loaded; }
    GatheredFiles(database, base, loaded);
    var first, then_ := l, loaded;
    if names[0] !in l.content.files {
      var j :| 0 <= j < i && order[j] == names[0];
      then_ := CourseLoads(database, fails, base, order, j, l, loaded, pending);
      first := TryFile(database, fails, l, pending, names[0]);
    }
    more := ImportsLoad(database, fails, base, order, i, first, then_, pending, names[1..]);
  }

  /** Every file of a course is found. */
  lemma CourseIsFound(database: Database, fails: Checks, base: Content, order: seq<string>, name: string)
    requires Course(database, fails, base, order) && name in order
    ensures var l := TryFile(database, fails, Load(base, {}, true), [], name);
            l.silent && name in l.content.files
  {
    var i :| 0 <= i < |order| && order[i] == name;
    var more := CourseLoads(database, fails, base, order, i, Load(base, {}, true), [], []);
    GatheredFiles(database, base, more);
  }

  // ------------------------------------------------------------- two files

  /** A message, and a file that imports it and has a field of that type. */
  const USED: FileProto :=
    FileProto("a.proto", "", [], [], [MessageProto("A", [], [], [], [], [])], [], [], [], [], "")

  const USER: FileProto :=
    FileProto("b.proto", "", ["a.proto"], [], [MessageProto("B", [], ["f"], [], [], [])], [], [], [],
              [Operand(0, [Use(".A", FieldType(NoType))])], "")

  const TWO_FILES: Database := Database(map["a.proto" := USED, "b.proto" := USER], map[])

  const NOTHING: Content := Content(map[], map[])

  lemma UsedDeclares()
    ensures Declarations(USED) == [Declaration("A", InFile(""), "A", Message, [])]
    ensures NamesOf(Declarations(USED)) == {"A"} && KindIn(Declarations(USED), "A") == Message
    ensures ValidIdentifier("A")
  {
  }

  lemma UserDeclares()
    ensures Declarations(USER) ==
            [Declaration("B.f", InMessage([0, 0], "B"), "f", Field, []), Declaration("B", InFile(""), "B", Message, [])]
    ensures NamesOf(Declarations(USER)) == {"B.f", "B"}
    ensures ValidIdentifier("B") && ValidIdentifier("f")
  {
    assert [0] + [0] == [0, 0];
    var b, f := Declaration("B", InFile(""), "B", Message, []), Declaration("B.f", InMessage([0, 0], "B"), "f", Field, []);
    assert "B" + "." + "f" == "B.f";
    assert NamesIn(["f"], InMessage([0, 0], "B"), Field) == [f];
    assert MessageDeclarations(USER.messages[0], InFile(""), [0, 0]) == [f, b];
    assert NamesOf([f, b]) == {f.fullName, b.fullName} by {
      assert f in [f, b] && b in [f, b];
    }
  }

  lemma UsedFits(c: Content)
    requires "a.proto" !in c.files && "A" !in c.symbols
    ensures Fits(c, USED)
  {
    hide Declarations, KindsIn;
    UsedDeclares();
    assert KindsKnown(c).Keys == c.symbols.Keys;
  }

  lemma UsedContent()
    ensures WithFile(NOTHING, USED) == Content(map["a.proto" := USED], map["A" := Known(Message, "a.proto")])
  {
    hide Declarations, KindIn, NamesOf;
    UsedDeclares();
  }

  lemma UserFine()
    ensures FineAmong({"a.proto"}, map["A" := Message], USER)
  {
    hide Declarations, NamesOf, ValidIdentifier;
    UserDeclares();
    assert "B" != "A" && "B.f" != "A" && "B" != "B.f";
  }

  lemma UserSees(c: Content)
    requires c == Content(map["a.proto" := USED], map["A" := Known(Message, "a.proto")])
    ensures "A" in KindsIn(c, USER) && KindsIn(c, USER)["A"] == Message
  {
    hide Declarations, NamesOf;
    UserDeclares();
    assert ImportedName(c, USER, "a.proto") by {
      assert NamePath(c.files, ["a.proto"]);
      assert ImportNameReaches(c, USER.dependency[0], "a.proto");
    }
  }

  lemma UserFits()
    ensures Fits(WithFile(NOTHING, USED), USER)
  {
    hide Declarations, FineAmong, KindsIn, WithFile;
    var c := WithFile(NOTHING, USED);
    UsedContent();
    UserFine();
    UserSees(c);
    assert KindsKnown(c) == map["A" := Message];
    var owner := OwnerName(Declarations(USER), 0);
    assert ReferencesOf(USER.operands[0], owner) == [ReferenceOf(Use(".A", FieldType(NoType)), owner)];
    assert ".A"[1..] == "A";
    assert References(USER)[0] == ReferencesOf(USER.operands[0], owner);
    assert ReferenceOk(KindsIn(c, USER), ReferenceOf(Use(".A", FieldType(NoType)), owner));
    assert ReferencesOk(KindsIn(c, USER), References(USER));
    assert c.files.Keys == {"a.proto"};
  }

  /** A condition with instances: a file that uses a type of another is on a course. */
  lemma TwoFilesAreACourse(fails: Checks)
    requires forall c, proto :: !fails(c, proto)
    ensures Course(TWO_FILES, fails, NOTHING, ["a.proto", "b.proto"])
  {
    hide Fits, WithFile;
    var order := ["a.proto", "b.proto"];
    forall loaded | Picked(loaded, order) && "a.proto" !in loaded
      ensures Fits(Gathered(TWO_FILES, NOTHING, loaded), USED)
    {
      OnlyUser(loaded);
    }
    forall loaded | Picked(loaded, order) && "b.proto" !in loaded && HasImports(Gathered(TWO_FILES, NOTHING, loaded), USER)
      ensures Fits(Gathered(TWO_FILES, NOTHING, loaded), USER)
    {
      OnlyUsed(loaded);
      UserFits();
    }
    assert Comes(TWO_FILES, fails, NOTHING, order, 0);
    assert Comes(TWO_FILES, fails, NOTHING, order, 1);
  }

  lemma OnlyOne(loaded: seq<string>, n: string)
    requires forall m :: m in loaded ==> m == n
    requires forall i, j :: 0 <= i < j < |loaded| ==> loaded[i] != loaded[j]
    ensures loaded == [] || loaded == [n]
  {
    if loaded != [] {
      assert loaded[0] in loaded && loaded[|loaded| - 1] in loaded;
      assert loaded[0] == loaded[|loaded| - 1];
    }
  }

  lemma OnlyUser(loaded: seq<string>)
    requires Picked(loaded, ["a.proto", "b.proto"]) && "a.proto" !in loaded
    ensures Fits(Gathered(TWO_FILES, NOTHING, loaded), USED)
  {
    hide Fits, Declarations;
    OnlyOne(loaded, "b.proto");
    if loaded == [] {
      UsedFits(NOTHING);
    } else {
      UserDeclares();
      assert Gathered(TWO_FILES, NOTHING, loaded) == WithFile(Gathered(TWO_FILES, NOTHING, []), USER);
      UsedFits(WithFile(NOTHING, USER));
    }
  }

  lemma OnlyUsed(loaded: seq<string>)
    requires Picked(loaded, ["a.proto", "b.proto"]) && "b.proto" !in loaded
    requires HasImports(Gathered(TWO_FILES, NOTHING, loaded), USER)
    ensures Gathered(TWO_FILES, NOTHING, loaded) == WithFile(NOTHING, USED)
  {
    hide WithFile;
    assert USER.dependency[0] in USER.dependency;
    OnlyOne(loaded, "a.proto");
    assert Gathered(TWO_FILES, NOTHING, ["a.proto"]) == WithFile(Gathered(TWO_FILES, NOTHING, []), USED);
  }

  // ------------------------------------------------------------- a relative name

  /** In package foo, a message A and a message B with a field of type A, written "A". */
  const RELATIVE: FileProto :=
    FileProto("c.proto", "foo", [], [],
              [MessageProto("A", [], [], [], [], []), MessageProto("B", [], ["a"], [], [], [])], [], [], [],
              [Operand(1, [Use("A", FieldType(NoType))])], "")

  const FIELD: string := "foo.B.a"

  lemma MessageADeclares()
    ensures MessageDeclarations(RELATIVE.messages[0], InFile("foo"), [0, 0]) ==
            [Declaration("foo.A", InFile("foo"), "A", Message, [])]
  {
    assert "foo" + "." + "A" == "foo.A";
  }

  lemma MessageBDeclares()
    ensures MessageDeclarations(RELATIVE.messages[1], InFile("foo"), [0, 1]) ==
            [Declaration(FIELD, InMessage([0, 1], "foo.B"), "a", Field, []),
             Declaration("foo.B", InFile("foo"), "B", Message, [])]
  {
    assert "foo" + "." + "B" == "foo.B" && "foo.B" + "." + "a" == FIELD;
    assert NamesIn(["a"], InMessage([0, 1], "foo.B"), Field) ==
           [Declaration(FIELD, InMessage([0, 1], "foo.B"), "a", Field, [])];
  }

  lemma RelativeDeclares()
    ensures
      Declarations(RELATIVE) ==
      [Declaration("foo.A", InFile("foo"), "A", Message, []),
       Declaration(FIELD, InMessage([0, 1], "foo.B"), "a", Field, []),
       Declaration("foo.B", InFile("foo"), "B", Message, [])]
  {
    hide MessageDeclarations;
    assert [0] + [0] == [0, 0] && [0] + [1] == [0, 1];
    MessageADeclares();
    MessageBDeclares();
    assert MessagesDeclarations(RELATIVE.messages, InFile("foo"), [0], 1) ==
           MessageDeclarations(RELATIVE.messages[1], InFile("foo"), [0, 1]);
  }

  lemma RelativeSees()
    ensures KindsIn(NOTHING, RELATIVE) ==
            map["foo" := Package, "foo.A" := Message, FIELD := Field, "foo.B" := Message]
  {
    hide Declarations;
    RelativeDeclares();
    var ds := Declarations(RELATIVE);
    assert !HasDot("foo");
    assert PackageNames("foo") == {"foo"};
    assert NamesOf(ds) == {"foo.A", FIELD, "foo.B"} by {
      assert ds[0] in ds && ds[1] in ds && ds[2] in ds;
    }
    assert KindIn(ds[1..][1..], "foo.B") == KindIn(ds[1..], "foo.B") == Message;
    assert KindIn(ds, "foo.A") == Message && KindIn(ds, FIELD) == Field && KindIn(ds, "foo.B") == Message;
  }

  lemma ScopesOfField()
    ensures forall s :: s + "." <= FIELD <==> s == "foo" || s == "foo.B"
  {
    forall s | s + "." <= FIELD
      ensures s == "foo" || s == "foo.B"
    {
      assert FIELD[|s|] == (s + ".")[|s|] == '.';
      assert |s| == 3 || |s| == 5;
      assert s == FIELD[..|s|];
    }
    assert "foo" + "." <= FIELD && "foo.B" + "." <= FIELD;
  }

  /** From the field, "A" is foo.A: the scope foo.B has no A, and foo has. */
  lemma RelativeStandsFor(kinds: Kinds)
    requires kinds == map["foo" := Package, "foo.A" := Message, FIELD := Field, "foo.B" := Message]
    ensures StandsFor(kinds, FIELD, "A", true, "foo.A")
  {
    ScopesOfField();
    assert "foo.B" + "." + "A" == "foo.B.A" && "foo" + "." + "A" == "foo.A";
    assert "foo.B.A" !in kinds;
    assert !SettlesAt(kinds, "foo.B", "A", "A", true) && SettlesAt(kinds, "foo", "A", "A", true);
    hide SettlesAt;
    assert Innermost(kinds, FIELD, "A", "A", true, "foo");
    assert HeadOf("A", "A");
  }

  lemma FooIsFine()
    ensures !exists q :: Spoils(map[], "foo", q)
  {
    hide Spoils;
    assert LastComponent("foo") == "foo" && !HasDot("foo");
    PackageErrorMeans(map[], "foo");
  }

  lemma OutsideFoo(full: string)
    requires |full| > 3
    ensures !Around(full, "foo")
  {
    AroundEnclosing(full, "foo");
  }

  lemma RelativeInOrder()
    ensures InOrder({}, map[], RELATIVE)
  {
    hide Declarations, Spoils, Around;
    RelativeDeclares();
    FooIsFine();
    assert "foo.A" != "foo.B" && "foo.A" != FIELD && "foo.B" != FIELD;
    OutsideFoo("foo.A");
    OutsideFoo("foo.B");
    OutsideFoo(FIELD);
  }

  /** Such a file can be built. */
  lemma RelativeFits()
    ensures Fits(NOTHING, RELATIVE)
  {
    hide Declarations, InOrder, KindsIn, StandsFor, FineAmong;
    RelativeInOrder();
    FineMeans({}, map[], RELATIVE);
    assert KindsKnown(NOTHING) == map[] && NOTHING.files.Keys == {};
    RelativeDeclares();
    RelativeSees();
    RelativeStandsFor(KindsIn(NOTHING, RELATIVE));
    var use := Use("A", FieldType(NoType));
    assert StandsFor(KindsIn(NOTHING, RELATIVE), FIELD, use.name, use.role.FieldType?, "foo.A");
    assert UseOk(KindsIn(NOTHING, RELATIVE), use, FIELD);
    assert UsesOk(KindsIn(NOTHING, RELATIVE), RELATIVE);
    ReferencesMean(KindsIn(NOTHING, RELATIVE), RELATIVE);
  }
}
