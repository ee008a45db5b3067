/** Which full names a file gives, to what kinds of thing, read off the proto itself. */
module GivenNames {
  import opened Protos
  import opened TablesSpec

  function Dotted(scope: string, name: string): string {
    if scope == "" then name else scope + "." + name
  }

  /** An enum gives its own name, and its values the names they would have beside it; they
      are listed under the enum. */
  ghost predicate EnumGives(e: EnumProto, scope: string, full: string, kind: SymbolType, under: string) {
    || (kind == Enum && full == Dotted(scope, e.name) && under == "")
    || (kind == EnumValue && under == Dotted(scope, e.name) && exists v :: v in e.values && full == Dotted(scope, v))
  }

  ghost predicate ServiceGives(s: ServiceProto, scope: string, full: string, kind: SymbolType, under: string) {
    || (kind == Service && full == Dotted(scope, s.name) && under == "")
    || (kind == Method && under == "" && exists m :: m in s.methods && full == Dotted(scope, s.name) + "." + m)
  }

  ghost predicate MessageGives(m: MessageProto, scope: string, full: string, kind: SymbolType, under: string) {
    var self := Dotted(scope, m.name);
    || (kind == Message && full == self && under == "")
    || (kind == Oneof && under == "" && exists o :: o in m.oneofs && full == self + "." + o)
    || (kind == Field && under == "" && exists f :: (f in m.fields || f in m.extensions) && full == Dotted(self, f))
    || (exists i :: 0 <= i < |m.nested| && MessageGives(m.nested[i], self, full, kind, under))
    || (exists i :: 0 <= i < |m.enums| && EnumGives(m.enums[i], self, full, kind, under))
  }

  ghost predicate FileGives(p: FileProto, full: string, kind: SymbolType, under: string) {
    || (exists i :: 0 <= i < |p.messages| && MessageGives(p.messages[i], p.package, full, kind, under))
    || (exists i :: 0 <= i < |p.enums| && EnumGives(p.enums[i], p.package, full, kind, under))
    || (exists i :: 0 <= i < |p.services| && ServiceGives(p.services[i], p.package, full, kind, under))
    || (kind == Field && under == "" && exists f :: f in p.extensions && full == Dotted(p.package, f))
  }

  // ------------------------------------------------------------- declarations

  predicate Is(d: Declaration, full: string, kind: SymbolType, under: string) {
    d.fullName == full && d.kind == kind &&
    if d.alias == [] then under == "" else d.alias[0].InEnum? && d.alias[0].fullName == under
  }

  ghost predicate Has(ds: seq<Declaration>, full: string, kind: SymbolType, under: string) {
    exists i :: 0 <= i < |ds| && Is(ds[i], full, kind, under)
  }

  lemma HasConcat(a: seq<Declaration>, b: seq<Declaration>, full: string, kind: SymbolType, under: string)
    ensures Has(a + b, full, kind, under) <==> Has(a, full, kind, under) || Has(b, full, kind, under)
  {
    hide Is;
    if i :| 0 <= i < |a| && Is(a[i], full, kind, under) { assert (a + b)[i] == a[i]; }
    if i :| 0 <= i < |b| && Is(b[i], full, kind, under) { assert (a + b)[|a| + i] == b[i]; }
    if i :| 0 <= i < |a + b| && Is((a + b)[i], full, kind, under) {
      if i < |a| { assert Is(a[i], full, kind, under); } else { assert Is(b[i - |a|], full, kind, under); }
    }
  }

  lemma NoneGiven(full: string, kind: SymbolType, under: string)
    ensures !Has([], full, kind, under)
  {
  }

  lemma HasOne(d: Declaration, full: string, kind: SymbolType, under: string)
    ensures Has([d], full, kind, under) <==> Is(d, full, kind, under)
  {
    if Is(d, full, kind, under) { assert Is([d][0], full, kind, under); }
  }

  lemma DottedInScope(scope: string, name: string)
    ensures InScope(scope, name) == Dotted(scope, name)
  {
  }

  lemma NamesAre(names: seq<string>, parent: Parent, k: SymbolType)
    ensures var ds := NamesIn(names, parent, k);
            && |ds| == |names|
            && forall i :: 0 <= i < |names| ==>
                 ds[i] == Declaration(Dotted(ScopeOf(parent), names[i]), parent, names[i], k, [])
  {
    hide ScopeOf, Dotted, InScope;
    forall name ensures InScope(ScopeOf(parent), name) == Dotted(ScopeOf(parent), name) {
      DottedInScope(ScopeOf(parent), name);
    }
  }

  lemma NamesGive(names: seq<string>, parent: Parent, k: SymbolType, full: string, kind: SymbolType, under: string)
    ensures Has(NamesIn(names, parent, k), full, kind, under) <==>
              kind == k && under == "" && exists n :: n in names && full == Dotted(ScopeOf(parent), n)
  {
    hide Dotted, ScopeOf, NamesIn;
    NamesAre(names, parent, k);
    var ds := NamesIn(names, parent, k);
    if n :| n in names && full == Dotted(ScopeOf(parent), n) && kind == k && under == "" {
      var i :| 0 <= i < |names| && names[i] == n;
      assert Is(ds[i], full, kind, under);
    }
    if i :| 0 <= i < |ds| && Is(ds[i], full, kind, under) { assert names[i] in names; }
  }

  lemma OneofsGive(names: seq<string>, parent: Parent, full: string, kind: SymbolType, under: string)
    ensures Has(OneofDeclarations(names, parent), full, kind, under) <==>
              kind == Oneof && under == "" && exists n :: n in names && full == ScopeOf(parent) + "." + n
  {
    var ds := OneofDeclarations(names, parent);
    if n :| n in names && full == ScopeOf(parent) + "." + n && kind == Oneof && under == "" {
      var i :| 0 <= i < |names| && names[i] == n;
      assert Is(ds[i], full, kind, under);
    }
    if i :| 0 <= i < |ds| && Is(ds[i], full, kind, under) { assert names[i] in names; }
  }

  lemma EnumGivesExactly(e: EnumProto, parent: Parent, path: seq<nat>, full: string, kind: SymbolType, under: string)
    ensures Has(EnumDeclarations(e, parent, path), full, kind, under) <==> EnumGives(e, ScopeOf(parent), full, kind, under)
  {
    var self := InScope(ScopeOf(parent), e.name);
    var ds := EnumDeclarations(e, parent, path);
    assert |ds| == |e.values| + 1 && ds[|e.values|] == Declaration(self, parent, e.name, Enum, []);
    forall i | 0 <= i < |e.values|
      ensures ds[i] == Declaration(Dotted(ScopeOf(parent), e.values[i]), parent, e.values[i], EnumValue, [InEnum(path, self)])
    {
      assert self[..|self| - |e.name|] + e.values[i] == Dotted(ScopeOf(parent), e.values[i]);
    }
    hide EnumDeclarations;
    if EnumGives(e, ScopeOf(parent), full, kind, under) {
      if kind == Enum {
        assert Is(ds[|e.values|], full, kind, under);
      } else {
        var v :| v in e.values && full == Dotted(ScopeOf(parent), v);
        var i :| 0 <= i < |e.values| && e.values[i] == v;
        assert Is(ds[i], full, kind, under);
      }
    }
    if i :| 0 <= i < |ds| && Is(ds[i], full, kind, under) {
      if i < |e.values| { assert e.values[i] in e.values; }
    }
  }

  lemma {:induction false} EnumsGive(es: seq<EnumProto>, parent: Parent, path: seq<nat>, i: nat, full: string,
                                     kind: SymbolType, under: string)
    requires i <= |es|
    ensures Has(EnumsDeclarations(es, parent, path, i), full, kind, under) <==>
              exists j :: i <= j < |es| && EnumGives(es[j], ScopeOf(parent), full, kind, under)
    decreases |es| - i
  {
    hide EnumDeclarations, EnumGives, Has;
    if i == |es| { NoneGiven(full, kind, under); }
    if i < |es| {
      EnumGivesExactly(es[i], parent, path + [i], full, kind, under);
      EnumsGive(es, parent, path, i + 1, full, kind, under);
      HasConcat(EnumDeclarations(es[i], parent, path + [i]), EnumsDeclarations(es, parent, path, i + 1), full, kind, under);
    }
  }

  lemma ServiceGivesExactly(s: ServiceProto, package: string, path: seq<nat>, full: string, kind: SymbolType,
                            under: string)
    ensures Has(ServiceDeclarations(s, package, path), full, kind, under) <==> ServiceGives(s, package, full, kind, under)
  {
    var self := InScope(package, s.name);
    var ds := ServiceDeclarations(s, package, path);
    assert |ds| == |s.methods| + 1 && ds[|s.methods|] == Declaration(self, InFile(package), s.name, Service, []);
    assert forall i :: 0 <= i < |s.methods| ==>
             ds[i] == Declaration(self + "." + s.methods[i], InService(path, self), s.methods[i], Method, []);
    hide ServiceDeclarations;
    if ServiceGives(s, package, full, kind, under) {
      if kind == Service {
        assert Is(ds[|s.methods|], full, kind, under);
      } else {
        var m :| m in s.methods && full == self + "." + m;
        var i :| 0 <= i < |s.methods| && s.methods[i] == m;
        assert Is(ds[i], full, kind, under);
      }
    }
    if i :| 0 <= i < |ds| && Is(ds[i], full, kind, under) {
      if i < |s.methods| { assert s.methods[i] in s.methods; }
    }
  }

  lemma {:induction false} ServicesGive(ss: seq<ServiceProto>, package: string, i: nat, full: string, kind: SymbolType,
                                        under: string)
    requires i <= |ss|
    ensures Has(ServicesDeclarations(ss, package, i), full, kind, under) <==>
              exists j :: i <= j < |ss| && ServiceGives(ss[j], package, full, kind, under)
    decreases |ss| - i
  {
    hide ServiceDeclarations, ServiceGives, Has;
    if i == |ss| { NoneGiven(full, kind, under); }
    if i < |ss| {
      ServiceGivesExactly(ss[i], package, [2, i], full, kind, under);
      ServicesGive(ss, package, i + 1, full, kind, under);
      HasConcat(ServiceDeclarations(ss[i], package, [2, i]), ServicesDeclarations(ss, package, i + 1), full, kind, under);
    }
  }

  lemma {:induction false} MessageGivesExactly(m: MessageProto, parent: Parent, path: seq<nat>, full: string,
                                               kind: SymbolType, under: string)
    requires parent.InFile? || parent.InMessage?
    ensures Has(MessageDeclarations(m, parent, path), full, kind, under) <==>
              MessageGives(m, ScopeOf(parent), full, kind, under)
    decreases m, 0
  {
    hide OneofDeclarations, NamesIn, MessagesDeclarations, EnumsDeclarations, EnumGives, Has, Dotted, InScope;
    var self := InMessage(path, InScope(ScopeOf(parent), m.name));
    DottedInScope(ScopeOf(parent), m.name);
    OneofsGive(m.oneofs, self, full, kind, under);
    NamesGive(m.fields, self, Field, full, kind, under);
    MessagesGive(m.nested, self, path + [0], 0, full, kind, under);
    EnumsGive(m.enums, self, path + [1], 0, full, kind, under);
    NamesGive(m.extensions, self, Field, full, kind, under);
    var last := Declaration(self.fullName, parent, m.name, Message, []);
    HasOne(last, full, kind, under);
    var a, b := OneofDeclarations(m.oneofs, self), NamesIn(m.fields, self, Field);
    var c, d := MessagesDeclarations(m.nested, self, path + [0], 0), EnumsDeclarations(m.enums, self, path + [1], 0);
    var e := NamesIn(m.extensions, self, Field);
    assert MessageDeclarations(m, parent, path) == a + b + c + d + e + [last];
    HasConcat(a, b, full, kind, under);
    HasConcat(a + b, c, full, kind, under);
    HasConcat(a + b + c, d, full, kind, under);
    HasConcat(a + b + c + d, e, full, kind, under);
    HasConcat(a + b + c + d + e, [last], full, kind, under);
  }

  lemma {:induction false} MessagesGive(ms: seq<MessageProto>, parent: Parent, path: seq<nat>, i: nat, full: string,
                                        kind: SymbolType, under: string)
    requires i <= |ms| && (parent.InFile? || parent.InMessage?)
    ensures Has(MessagesDeclarations(ms, parent, path, i), full, kind, under) <==>
              exists j :: i <= j < |ms| && MessageGives(ms[j], ScopeOf(parent), full, kind, under)
    decreases ms, |ms| - i
  {
    hide MessageGives, Has;
    if i == |ms| { NoneGiven(full, kind, under); }
    if i < |ms| {
      MessageGivesExactly(ms[i], parent, path + [i], full, kind, under);
      MessagesGive(ms, parent, path, i + 1, full, kind, under);
      HasConcat(MessageDeclarations(ms[i], parent, path + [i]), MessagesDeclarations(ms, parent, path, i + 1),
                full, kind, under);
    }
  }

  /** The declarations of a file are exactly what its messages, enums, services and
      extensions give names to, at every depth. */
  lemma FileGivesExactly(p: FileProto, full: string, kind: SymbolType, under: string)
    ensures Has(Declarations(p), full, kind, under) <==> FileGives(p, full, kind, under)
  {
    hide MessagesDeclarations, EnumsDeclarations, ServicesDeclarations, NamesIn, MessageGives, EnumGives, ServiceGives, Has;
    MessagesGive(p.messages, InFile(p.package), [0], 0, full, kind, under);
    EnumsGive(p.enums, InFile(p.package), [1], 0, full, kind, under);
    ServicesGive(p.services, p.package, 0, full, kind, under);
    NamesGive(p.extensions, InFile(p.package), Field, full, kind, under);
    var a := MessagesDeclarations(p.messages, InFile(p.package), [0], 0);
    var b := EnumsDeclarations(p.enums, InFile(p.package), [1], 0);
    var c, d := ServicesDeclarations(p.services, p.package, 0), NamesIn(p.extensions, InFile(p.package), Field);
    assert Declarations(p) == a + b + c + d;
    HasConcat(a, b, full, kind, under);
    HasConcat(a + b, c, full, kind, under);
    HasConcat(a + b + c, d, full, kind, under);
  }
}
