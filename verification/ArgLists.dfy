/** Argument lists whose types are packed, four bits each, into a 64-bit word. */
module ArgLists {
  import opened Numerals

  type Type = t: nat | t < 16
  const NONE: Type := 0
  const MAX_PACKED_ARGS: nat := 16

  datatype Arg<V> = Arg(typ: Type, value: V)

  /** make_type: the first type in the low bits, the others shifted up by four; as the two
      share no bit, or is addition, and what is shifted beyond 64 bits is lost. */
  function MakeType(types: seq<Type>): (word: nat) {
    if types == [] then 0 else types[0] + 16 * (MakeType(types[1..]) % 0x1000_0000_0000_0000)
  }

  /** ArgList::type: four bits, counted from the low end. */
  function TypeAt(word: nat, index: nat): Type
    decreases index
  {
    if index == 0 then word % 16 else TypeAt(word / 16, index - 1)
  }

  /** The four bits by themselves: the word divided index times by sixteen, modulo that. */
  lemma {:induction false} TypeAtMeans(word: nat, index: nat)
    ensures TypeAt(word, index) == Divided(word, 16, index) % 16
    decreases index
  {
    if index > 0 { TypeAtMeans(word / 16, index - 1); }
  }

  lemma {:induction false} LowTypes(word: nat, k: nat, index: nat)
    requires index < k
    ensures Pow(16, k) > 0 && TypeAt(word % Pow(16, k), index) == TypeAt(word, index)
    decreases index
  {
    PowPositive(16, k);
    PowPositive(16, k - 1);
    SplitRemainder(word, Pow(16, k - 1));
    if index > 0 { LowTypes(word / 16, k - 1, index - 1); }
  }

  lemma SplitRemainder(word: nat, m: nat)
    requires m > 0
    ensures word % (16 * m) % 16 == word % 16
    ensures word % (16 * m) / 16 == word / 16 % m
  {
    var q, r := word / 16, word % 16;
    var d, e := q / m, q % m;
    assert word == 16 * (d * m + e) + r;
    assert word == d * (16 * m) + (16 * e + r);
    RemainderIs(word, 16 * m, d, 16 * e + r);
  }

  lemma RemainderIs(word: nat, m: nat, d: nat, r: nat)
    requires word == d * m + r && r < m
    ensures word % m == r
  {
    assert word == (word / m) * m + word % m;
    MulCancel(d, word / m + 1, m);
    MulCancel(word / m, d + 1, m);
  }

  /** The packed word holds the first sixteen types, and NONE after the last one. */
  lemma {:induction false} TypeAtIs(types: seq<Type>, index: nat)
    requires index < MAX_PACKED_ARGS
    ensures TypeAt(MakeType(types), index) == if index < |types| then types[index] else NONE
    decreases index
  {
    if types == [] {
      NothingSet(index);
    } else {
      FirstType(types);
      hide MakeType, Pow;
      if index > 0 {
        LowTypes(MakeType(types[1..]), 15, index - 1);
        TypeAtIs(types[1..], index - 1);
      }
    }
  }

  lemma FirstType(types: seq<Type>)
    requires types != []
    ensures Pow(16, 15) > 0
    ensures MakeType(types) % 16 == types[0] && MakeType(types) / 16 == MakeType(types[1..]) % Pow(16, 15)
  {
    assert Pow(16, 5) == 0x10_0000;
    assert Pow(16, 10) == 0x100_0000_0000;
    assert Pow(16, 15) == 0x1000_0000_0000_0000;
  }

  lemma {:induction false} NothingSet(index: nat)
    ensures TypeAt(0, index) == NONE
  {
    if index > 0 { NothingSet(index - 1); }
  }

  /** Below sixteen arguments only the values are stored, from sixteen on whole arguments. */
  datatype ArgList<V> =
    | OfValues(types: nat, values: seq<V>)
    | OfArgs(types: nat, args: seq<Arg<V>>)

  function Types<V>(args: seq<Arg<V>>): (ts: seq<Type>)
    ensures |ts| == |args| && forall i :: 0 <= i < |args| ==> ts[i] == args[i].typ
  {
    seq(|args|, i requires 0 <= i < |args| => args[i].typ)
  }

  /** The array behind the list. The types of exactly sixteen arguments are left unset,
      as the packed word has them all; so is the value of the end marker. */
  function Stored<V>(args: seq<Arg<V>>, unset: Arg<V>): (stored: seq<Arg<V>>)
    ensures |stored| == |args| + 1
  {
    seq(|args|, i requires 0 <= i < |args| =>
      if |args| == MAX_PACKED_ARGS then Arg(unset.typ, args[i].value) else args[i]) +
    [Arg(NONE, unset.value)]
  }

  /** make_arg_list. */
  function MakeArgList<V>(args: seq<Arg<V>>, unset: Arg<V>): ArgList<V> {
    if |args| < MAX_PACKED_ARGS
    then OfValues(MakeType(Types(args)),
                  seq(if |args| == 0 then 1 else |args|, i requires 0 <= i =>
                    if i < |args| then args[i].value else unset.value))
    else OfArgs(MakeType(Types(args)), Stored(args, unset))
  }

  /** Sixteen is the limit, and the word has 64 bits. */
  lemma PackedBelowSixteen<V>(args: seq<Arg<V>>, unset: Arg<V>)
    ensures MakeArgList(args, unset).OfValues? <==> |args| < 16
    ensures MakeArgList(args, unset).types < 0x1_0000_0000_0000_0000
  {
  }

  predicate NoneFree<V>(args: seq<Arg<V>>) {
    forall i :: 0 <= i < |args| ==> args[i].typ != NONE
  }

  /** operator[]. The packed list is the plain list: argument number index, and an
      argument of type NONE for every index past the end. No access leaves the array. */
  method Get<V>(list: ArgList<V>, index: nat, unset: Arg<V>, ghost args: seq<Arg<V>>) returns (arg: Arg<V>)
    requires NoneFree(args) && list == MakeArgList(args, unset)
    ensures if index < |args| then arg == args[index] else arg.typ == NONE
  {
    TypeAtIs(Types(args), MAX_PACKED_ARGS - 1);
    var useValues := TypeAt(list.types, MAX_PACKED_ARGS - 1) == NONE;
    if index < MAX_PACKED_ARGS {
      TypeAtIs(Types(args), index);
      var argType := TypeAt(list.types, index);
      var value := unset.value;
      if argType != NONE {
        value := if useValues then list.values[index] else list.args[index].value;
      }
      return Arg(argType, value);
    }
    if useValues { return Arg(NONE, unset.value); }
    var i := MAX_PACKED_ARGS;
    while i <= index
      invariant MAX_PACKED_ARGS <= i <= index + 1 && i <= |args|
    {
      if list.args[i].typ == NONE { return list.args[i]; }
      i := i + 1;
    }
    return list.args[index];
  }
}
