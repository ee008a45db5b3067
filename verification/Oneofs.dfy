/** The field arrays of a message's oneofs. Fields are known by their position in the
    message, oneofs by their index. */
module Oneofs {
  import opened Optional

  /** The fields of a oneof, in declaration order. */
  function Members(containing: seq<Option<nat>>, oneof: nat): (ms: seq<nat>)
    ensures forall k :: 0 <= k < |ms| ==> ms[k] < |containing|
  {
    if containing == [] then []
    else
      var last := |containing| - 1;
      Members(containing[..last], oneof) + (if containing[last] == Some(oneof) then [last] else [])
  }

  /** Members lists exactly the fields of the oneof, each once, in ascending order. */
  lemma {:induction false} MembersExact(containing: seq<Option<nat>>, oneof: nat)
    ensures forall j, k :: 0 <= j < k < |Members(containing, oneof)| ==>
              Members(containing, oneof)[j] < Members(containing, oneof)[k]
    ensures forall i :: 0 <= i < |containing| ==>
              (i in Members(containing, oneof) <==> containing[i] == Some(oneof))
  {
    if containing != [] {
      MembersExact(containing[..|containing| - 1], oneof);
    }
  }

  lemma {:induction false} MembersOfPrefix(containing: seq<Option<nat>>, i: nat, oneof: nat)
    requires i <= |containing|
    ensures Members(containing[..i], oneof) <= Members(containing, oneof)
    decreases |containing|
  {
    if i < |containing| {
      MembersOfPrefix(containing[..|containing| - 1], i, oneof);
      assert containing[..|containing| - 1][..i] == containing[..i];
    } else {
      assert containing[..i] == containing;
    }
  }

  lemma MembersStep(containing: seq<Option<nat>>, i: nat, oneof: nat)
    requires i < |containing|
    ensures Members(containing[..i + 1], oneof) ==
            Members(containing[..i], oneof) + (if containing[i] == Some(oneof) then [i] else [])
  {
    assert containing[..i + 1][..i] == containing[..i];
  }

  /** The position of field i among the members of its oneof. */
  lemma MemberPosition(containing: seq<Option<nat>>, i: nat, oneof: nat)
    requires i < |containing| && containing[i] == Some(oneof)
    ensures
      var k := |Members(containing[..i], oneof)|;
      k < |Members(containing, oneof)| && Members(containing, oneof)[k] == i
  {
    MembersStep(containing, i, oneof);
    MembersOfPrefix(containing, i + 1, oneof);
  }

  class OneofDescriptor {
    var fieldCount: nat
    var fields: array<nat>

    constructor ()
      ensures fieldCount == 0
    {
      fieldCount := 0;
      fields := new nat[0];
    }
  }

  class Message {
    /** For each field the oneof it is in, and its position there. */
    const containingOneof: seq<Option<nat>>
    const indexInOneof: array<nat>
    const oneofDecls: seq<OneofDescriptor>

    ghost predicate Valid() {
      indexInOneof.Length == |containingOneof| &&
      (forall i :: 0 <= i < |containingOneof| && containingOneof[i].Some? ==> containingOneof[i].value < |oneofDecls|) &&
      forall o, p :: 0 <= o < p < |oneofDecls| ==> oneofDecls[o] != oneofDecls[p]
    }

    /** Members among the first n fields. */
    ghost function MembersUpTo(n: nat, o: nat): seq<nat>
      requires n <= |containingOneof|
    {
      Members(containingOneof[..n], o)
    }

    constructor (containingOneof: seq<Option<nat>>, oneofDecls: seq<OneofDescriptor>)
      requires forall i :: 0 <= i < |containingOneof| && containingOneof[i].Some? ==> containingOneof[i].value < |oneofDecls|
      requires forall o, p :: 0 <= o < p < |oneofDecls| ==> oneofDecls[o] != oneofDecls[p]
      ensures Valid() && fresh(indexInOneof)
      ensures this.containingOneof == containingOneof && this.oneofDecls == oneofDecls
    {
      this.containingOneof := containingOneof;
      this.oneofDecls := oneofDecls;
      indexInOneof := new nat[|containingOneof|];
    }

    /** The oneof's array holds its members, all of them and nothing else. */
    ghost predicate Linked(o: nat)
      requires o < |oneofDecls|
      reads this, oneofDecls[o], oneofDecls[o].fields
    {
      oneofDecls[o].fieldCount == oneofDecls[o].fields.Length &&
      oneofDecls[o].fields[..] == Members(containingOneof, o)
    }

    /** The field is in its oneof's array where its index says. */
    ghost predicate PointsBack(i: nat)
      requires i < |containingOneof| && containingOneof[i].Some?
      requires Valid()
      reads this, indexInOneof, oneofDecls, set o | o in oneofDecls :: o.fields
    {
      var decl := oneofDecls[containingOneof[i].value];
      indexInOneof[i] < decl.fields.Length && indexInOneof[i] < decl.fieldCount && decl.fields[indexInOneof[i]] == i
    }

    /** First pass: count the fields of each oneof. */
    method CountFields()
      requires Valid()
      requires forall o :: 0 <= o < |oneofDecls| ==> oneofDecls[o].fieldCount == 0
      modifies oneofDecls
      ensures forall o :: 0 <= o < |oneofDecls| ==>
                oneofDecls[o].fieldCount == |Members(containingOneof, o)|
    {
      for i := 0 to |containingOneof|
        invariant forall o :: 0 <= o < |oneofDecls| ==> oneofDecls[o].fieldCount == |MembersUpTo(i, o)|
      {
        forall o {:trigger oneofDecls[o]} | 0 <= o < |oneofDecls| { MembersStep(containingOneof, i, o); }
        if containingOneof[i].Some? {
          var decl := oneofDecls[containingOneof[i].value];
          decl.fieldCount := decl.fieldCount + 1;
        }
      }
      assert containingOneof[..|containingOneof|] == containingOneof;
    }

    /** A fresh array for all members of the oneof, and none in it yet. */
    ghost predicate Empty(o: nat)
      requires o < |oneofDecls|
      reads oneofDecls[o], oneofDecls[o].fields
    {
      oneofDecls[o].fieldCount == 0 && oneofDecls[o].fields.Length == |Members(containingOneof, o)|
    }

    method AllocateFieldsOf(o: nat)
      requires o < |oneofDecls| && oneofDecls[o].fieldCount == |Members(containingOneof, o)|
      modifies oneofDecls[o]
      ensures Empty(o) && fresh(oneofDecls[o].fields)
    {
      var decl := oneofDecls[o];
      decl.fields := new nat[decl.fieldCount];
      decl.fieldCount := 0;
    }

    /** Second pass: allocate the arrays and start counting again. A oneof without fields
        is an error. */
    method AllocateFields() returns (hadErrors: bool)
      requires Valid()
      requires forall o :: 0 <= o < |oneofDecls| ==>
                 oneofDecls[o].fieldCount == |Members(containingOneof, o)|
      modifies oneofDecls
      ensures hadErrors <==> exists o :: 0 <= o < |oneofDecls| && Members(containingOneof, o) == []
      ensures forall o :: 0 <= o < |oneofDecls| ==> Empty(o) && fresh(oneofDecls[o].fields)
      ensures forall o, p :: 0 <= o < p < |oneofDecls| ==> oneofDecls[o].fields != oneofDecls[p].fields
    {
      hide Members;
      hadErrors := false;
      for i := 0 to |oneofDecls|
        invariant hadErrors <==> exists o :: 0 <= o < i && Members(containingOneof, o) == []
        invariant forall o :: i <= o < |oneofDecls| ==>
                    oneofDecls[o].fieldCount == |Members(containingOneof, o)|
        invariant forall o :: 0 <= o < i ==> Empty(o) && fresh(oneofDecls[o].fields)
        invariant forall o, p :: 0 <= o < p < i ==> oneofDecls[o].fields != oneofDecls[p].fields
      {
        if oneofDecls[i].fieldCount == 0 {
          assert Members(containingOneof, i) == [];
          hadErrors := true;
        }
        AllocateFieldsOf(i);
      }
    }

    /** The first n fields are in the array of oneof o, if they belong there. */
    ghost predicate FilledUpTo(n: nat, o: nat)
      requires o < |oneofDecls| && n <= |containingOneof|
      reads oneofDecls[o], oneofDecls[o].fields
    {
      var decl := oneofDecls[o];
      decl.fieldCount == |MembersUpTo(n, o)| <= decl.fields.Length == |Members(containingOneof, o)| &&
      decl.fields[..decl.fieldCount] == MembersUpTo(n, o)
    }

    /** Third pass, one field: it goes to the next free place of its oneof's array. */
    method FillField(i: nat)
      requires Valid() && i < |containingOneof| && containingOneof[i].Some?
      requires FilledUpTo(i, containingOneof[i].value)
      requires oneofDecls[containingOneof[i].value].fields != indexInOneof
      modifies indexInOneof, oneofDecls[containingOneof[i].value], oneofDecls[containingOneof[i].value].fields
      ensures FilledUpTo(i + 1, containingOneof[i].value)
      ensures oneofDecls[containingOneof[i].value].fields == old(oneofDecls[containingOneof[i].value].fields)
      ensures indexInOneof[..] == old(indexInOneof[..])[i := |MembersUpTo(i, containingOneof[i].value)|]
    {
      MembersStep(containingOneof, i, containingOneof[i].value);
      MembersOfPrefix(containingOneof, i + 1, containingOneof[i].value);
      var decl := oneofDecls[containingOneof[i].value];
      indexInOneof[i] := decl.fieldCount;
      decl.fields[decl.fieldCount] := i;
      decl.fieldCount := decl.fieldCount + 1;
    }

    /** Each oneof has an array of its own. */
    ghost predicate Separate()
      reads this, oneofDecls
    {
      (forall o :: 0 <= o < |oneofDecls| ==> oneofDecls[o].fields != indexInOneof) &&
      forall o, p :: 0 <= o < p < |oneofDecls| ==> oneofDecls[o].fields != oneofDecls[p].fields
    }

    ghost predicate AllFilledUpTo(n: nat)
      requires n <= |containingOneof|
      reads oneofDecls, set o | o in oneofDecls :: o.fields
    {
      forall o :: 0 <= o < |oneofDecls| ==> FilledUpTo(n, o)
    }

    /** A field changes nothing for the oneofs it is not in. */
    method FillStep(i: nat)
      requires Valid() && Separate() && i < |containingOneof| && AllFilledUpTo(i)
      modifies oneofDecls, indexInOneof, set o | o in oneofDecls :: o.fields
      ensures forall o :: 0 <= o < |oneofDecls| ==> oneofDecls[o].fields == old(oneofDecls[o].fields)
      ensures AllFilledUpTo(i + 1)
      ensures indexInOneof[..] ==
              if containingOneof[i].Some?
              then old(indexInOneof[..])[i := |MembersUpTo(i, containingOneof[i].value)|]
              else old(indexInOneof[..])
    {
      forall o | 0 <= o < |oneofDecls| && containingOneof[i] != Some(o)
        ensures FilledUpTo(i + 1, o)
      {
        assert FilledUpTo(i, o);
        MembersStep(containingOneof, i, o);
      }
      hide Members;
      if containingOneof[i].Some? {
        FillField(i);
      }
    }

    /** Third pass: fill them in. */
    method FillFields()
      requires Valid() && Separate()
      requires forall o :: 0 <= o < |oneofDecls| ==> Empty(o)
      modifies oneofDecls, indexInOneof, set o | o in oneofDecls :: o.fields
      ensures forall o :: 0 <= o < |oneofDecls| ==> oneofDecls[o].fields == old(oneofDecls[o].fields) && Linked(o)
      ensures forall i :: 0 <= i < |containingOneof| && containingOneof[i].Some? ==> PointsBack(i)
    {
      forall o | 0 <= o < |oneofDecls|
        ensures FilledUpTo(0, o)
      {
        assert Empty(o);
      }
      hide FilledUpTo, AllFilledUpTo, Members;
      for i := 0 to |containingOneof|
        invariant forall o :: 0 <= o < |oneofDecls| ==> oneofDecls[o].fields == old(oneofDecls[o].fields)
        invariant AllFilledUpTo(i)
        invariant forall j :: 0 <= j < i && containingOneof[j].Some? ==>
                    indexInOneof[j] == |MembersUpTo(j, containingOneof[j].value)|
      {
        FillStep(i);
      }
      FilledIsLinked();
    }

    /** When all fields have been filled in, arrays and indexes agree. */
    lemma FilledIsLinked()
      requires Valid()
      requires AllFilledUpTo(|containingOneof|)
      requires forall j :: 0 <= j < |containingOneof| && containingOneof[j].Some? ==>
                 indexInOneof[j] == |MembersUpTo(j, containingOneof[j].value)|
      ensures forall o :: 0 <= o < |oneofDecls| ==> Linked(o)
      ensures forall i :: 0 <= i < |containingOneof| && containingOneof[i].Some? ==> PointsBack(i)
    {
      assert containingOneof[..|containingOneof|] == containingOneof;
      forall o | 0 <= o < |oneofDecls|
        ensures Linked(o)
      {
        assert FilledUpTo(|containingOneof|, o);
        var fields := oneofDecls[o].fields;
        assert fields[..fields.Length] == fields[..];
      }
      forall i | 0 <= i < |containingOneof| && containingOneof[i].Some?
        ensures PointsBack(i)
      {
        MemberPosition(containingOneof, i, containingOneof[i].value);
        assert Linked(containingOneof[i].value);
      }
    }

    /** The three passes: every oneof gets exactly its fields, in declaration order, and
        every field of a oneof knows its place. */
    method LinkOneofs() returns (hadErrors: bool)
      requires Valid()
      requires forall o :: 0 <= o < |oneofDecls| ==> oneofDecls[o].fieldCount == 0
      modifies oneofDecls, indexInOneof
      ensures hadErrors <==> exists o :: 0 <= o < |oneofDecls| && Members(containingOneof, o) == []
      ensures forall o :: 0 <= o < |oneofDecls| ==> Linked(o)
      ensures forall i :: 0 <= i < |containingOneof| && containingOneof[i].Some? ==> PointsBack(i)
    {
      CountFields();
      hadErrors := AllocateFields();
      FillFields();
    }
  }
}
