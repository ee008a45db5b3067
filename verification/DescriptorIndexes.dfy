/** The ordered symbol index of a descriptor database: one probe of a sorted map tells
    which entry defines a symbol or a scope around it. */
module DescriptorIndexes {
  import opened Names
  import opened Optional
  import opened SymbolOrder

  datatype Entry<+V> = Entry(key: string, value: V)

  /** A std::map lists its entries in strictly ascending key order. */
  ghost predicate Sorted<V>(es: seq<Entry<V>>) {
    forall i, j :: 0 <= i < j < |es| ==> Less(es[i].key, es[j].key)
  }

  ghost predicate LegalKeys<V>(es: seq<Entry<V>>) {
    forall i :: 0 <= i < |es| ==> ValidSymbolName(es[i].key)
  }

  /** No key is nested in another key. */
  ghost predicate AncestorFree<V>(es: seq<Entry<V>>) {
    forall i, j :: 0 <= i < |es| && 0 <= j < |es| ==> !DottedPrefix(es[i].key, es[j].key)
  }

  ghost predicate Covered<V>(es: seq<Entry<V>>, name: string) {
    exists i :: 0 <= i < |es| && Covers(es[i].key, name)
  }

  ghost predicate HasNested<V>(es: seq<Entry<V>>, name: string) {
    exists i :: 0 <= i < |es| && DottedPrefix(name, es[i].key)
  }

  /** The value of a key that is name or encloses it, by looking at every key. */
  function FullScan<V>(es: seq<Entry<V>>, name: string): (r: Option<V>)
    ensures r.None? <==> !Covered(es, name)
  {
    if es == [] then None
    else if Covers(es[0].key, name) then Some(es[0].value)
    else
      var r := FullScan(es[1..], name);
      assert Covered(es, name) <==> Covered(es[1..], name) by {
        if i :| 0 <= i < |es| && Covers(es[i].key, name) { assert Covers(es[1..][i - 1].key, name); }
        if i :| 0 <= i < |es[1..]| && Covers(es[1..][i].key, name) { assert Covers(es[i + 1].key, name); }
      }
      r
  }

  /** Dotted prefixes of one name are nested in one another. */
  lemma PrefixesNest(a: string, b: string, name: string)
    requires Covers(a, name) && Covers(b, name)
    ensures a == b || DottedPrefix(a, b) || DottedPrefix(b, a)
  {
  }

  /** In an ancestor-free index the scan's answer does not depend on the order of the
      scan: a covering key is unique. */
  lemma {:induction false} FullScanUnique<V>(es: seq<Entry<V>>, name: string, i: nat)
    requires Sorted(es) && AncestorFree(es)
    requires i < |es| && Covers(es[i].key, name)
    ensures FullScan(es, name) == Some(es[i].value)
  {
    if Covers(es[0].key, name) {
      PrefixesNest(es[0].key, es[i].key, name);
      LessIrrefl(es[i].key);
    } else {
      FullScanUnique(es[1..], name, i - 1);
    }
  }

  /** upper_bound: the number of keys that are at most name. */
  function UpperBound<V>(es: seq<Entry<V>>, name: string): (k: nat)
    requires Sorted(es)
    ensures k <= |es|
    ensures forall i :: 0 <= i < k ==> LessOrEqual(es[i].key, name)
    ensures forall i :: k <= i < |es| ==> Less(name, es[i].key)
  {
    if es == [] then 0
    else
      var last := es[|es| - 1].key;
      if Less(name, last) then UpperBound(es[..|es| - 1], name)
      else
        assert forall i :: 0 <= i < |es| ==> LessOrEqual(es[i].key, name) by {
          forall i | 0 <= i < |es|
            ensures LessOrEqual(es[i].key, name)
          {
            LessTotal(last, name);
            if i < |es| - 1 && last != name { LessTrans(es[i].key, last, name); }
          }
        }
        |es|
  }

  /** FindLastLessOrEqual: the last key at most name; the end when the map is empty and,
      as the iterator is not stepped back from begin(), the first key when every key is
      greater. */
  function LastLessOrEqual<V>(es: seq<Entry<V>>, name: string): (k: nat)
    requires Sorted(es)
    ensures k <= |es| && (k == |es| <==> es == [])
    ensures forall i :: k < i < |es| ==> Less(name, es[i].key)
    ensures es != [] ==> LessOrEqual(es[k].key, name) || (k == 0 && Less(name, es[0].key))
  {
    var k := UpperBound(es, name);
    if k != 0 then k - 1 else k
  }

  /** The one-probe answer. */
  function Probe<V>(es: seq<Entry<V>>, name: string): Option<V>
    requires Sorted(es)
  {
    var k := LastLessOrEqual(es, name);
    if k != |es| && Covers(es[k].key, name) then Some(es[k].value) else None
  }

  lemma CoverIsLessOrEqual(a: string, q: string)
    requires Covers(a, q)
    ensures LessOrEqual(a, q) && !Less(q, a)
  {
    if a == q {
      LessIrrefl(q);
    } else {
      PrefixLess(a, q);
      LessAsym(a, q);
    }
  }

  /** Every key from a covering key up to the probed one is nested in the covering key. */
  lemma CoverReachesProbe<V>(es: seq<Entry<V>>, name: string, i: nat)
    requires Sorted(es) && LegalKeys(es)
    requires i < |es| && Covers(es[i].key, name)
    ensures i <= LastLessOrEqual(es, name) < |es|
    ensures forall j :: i < j <= LastLessOrEqual(es, name) ==> DottedPrefix(es[i].key, es[j].key)
  {
    CoverIsLessOrEqual(es[i].key, name);
    forall j | i < j <= LastLessOrEqual(es, name)
      ensures DottedPrefix(es[i].key, es[j].key)
    {
      if es[i].key == name {
        if es[j].key != name { LessAsym(es[j].key, name); }
        LessIrrefl(name);
      } else {
        BetweenIsNested(es[i].key, es[j].key, name);
      }
    }
  }

  /** The single probe answers like a scan of all keys, for every query string. */
  lemma ProbeIsFullScan<V>(es: seq<Entry<V>>, name: string)
    requires Sorted(es) && LegalKeys(es) && AncestorFree(es)
    ensures Probe(es, name) == FullScan(es, name)
  {
    hide DottedPrefix, Less, LegalKeys, Covers, FullScan;
    if i :| 0 <= i < |es| && Covers(es[i].key, name) {
      CoverReachesProbe(es, name, i);
      FullScanUnique(es, name, i);
    }
  }

  /** The case the two neighbour checks overlook: the new name sorts before every key,
      and of the keys only the first is known to be nested in it. */
  predicate Missed<V>(es: seq<Entry<V>>, name: string) {
    |es| > 0 && DottedPrefix(name, es[0].key) && (|es| > 1 ==> !DottedPrefix(name, es[1].key))
  }

  /** What the neighbour checks of AddSymbol let through. */
  predicate NeighboursAllow<V>(es: seq<Entry<V>>, name: string)
    requires Sorted(es)
  {
    var k := LastLessOrEqual(es, name);
    k == |es| ||
    (!Covers(es[k].key, name) && (k + 1 == |es| || !Covers(name, es[k + 1].key)))
  }

  /** Entries nested in name follow name immediately. */
  lemma NestedFollows<V>(es: seq<Entry<V>>, name: string, i: nat)
    requires Sorted(es) && LegalKeys(es)
    requires i < |es| && DottedPrefix(name, es[i].key)
    ensures UpperBound(es, name) <= i
    ensures DottedPrefix(name, es[UpperBound(es, name)].key)
  {
    PrefixLess(name, es[i].key);
    LessAsym(name, es[i].key);
    var k := UpperBound(es, name);
    BetweenIsNested(name, es[k].key, es[i].key);
  }

  /** The missed case passes both checks: the probe ends on the first key, which the
      predecessor check was not meant to see and the successor check steps over. */
  lemma MissedIsAllowed<V>(es: seq<Entry<V>>, name: string)
    requires Sorted(es) && LegalKeys(es) && Missed(es, name)
    ensures UpperBound(es, name) == 0 && NeighboursAllow(es, name)
    ensures !Covered(es, name)
  {
    PrefixLess(name, es[0].key);
    LessAsym(name, es[0].key);
    assert UpperBound(es, name) == 0;
    forall i | 0 <= i < |es|
      ensures !Covers(es[i].key, name) && es[i].key != name
    {
      LessAsym(name, es[i].key);
      if Covers(es[i].key, name) { CoverIsLessOrEqual(es[i].key, name); }
    }
  }

  /** The predecessor check finds any enclosing key and the successor check any nested
      key, except in the missed case. */
  lemma NeighbourChecks<V>(es: seq<Entry<V>>, name: string)
    requires Sorted(es) && LegalKeys(es) && AncestorFree(es)
    ensures NeighboursAllow(es, name) <==>
            (!Covered(es, name) && !HasNested(es, name)) || Missed(es, name)
  {
    hide DottedPrefix, Less;
    if Missed(es, name) {
      MissedIsAllowed(es, name);
    } else if i :| 0 <= i < |es| && Covers(es[i].key, name) {
      CoverReachesProbe(es, name, i);
    } else if i :| 0 <= i < |es| && DottedPrefix(name, es[i].key) {
      NestedFollows(es, name, i);
    }
  }

  /** Insertion at the sorted place. */
  function Inserted<V>(es: seq<Entry<V>>, e: Entry<V>): seq<Entry<V>>
    requires Sorted(es)
  {
    var k := UpperBound(es, e.key);
    es[..k] + [e] + es[k..]
  }

  lemma InsertedSorted<V>(es: seq<Entry<V>>, e: Entry<V>)
    requires Sorted(es) && forall i :: 0 <= i < |es| ==> es[i].key != e.key
    ensures Sorted(Inserted(es, e))
  {
  }

  /** Insertion keeps an index ancestor-free exactly if the new key neither encloses nor
      is nested in an old one. */
  lemma InsertedAncestorFree<V>(es: seq<Entry<V>>, e: Entry<V>)
    requires Sorted(es) && AncestorFree(es)
    requires forall i :: 0 <= i < |es| ==> es[i].key != e.key
    ensures AncestorFree(Inserted(es, e)) <==> !Covered(es, e.key) && !HasNested(es, e.key)
  {
    assert !DottedPrefix(e.key, e.key);
    hide DottedPrefix, Less;
    var k, after := UpperBound(es, e.key), Inserted(es, e);
    assert after[k] == e;
    forall i | 0 <= i < |es|
      ensures es[i] == after[if i < k then i else i + 1]
    {
    }
  }

  /** One AddSymbol call; the refused ones change nothing. */
  function Admits<V>(es: seq<Entry<V>>, name: string): bool
    requires Sorted(es)
  {
    ValidSymbolName(name) && NeighboursAllow(es, name)
  }

  function Added<V>(es: seq<Entry<V>>, e: Entry<V>): seq<Entry<V>>
    requires Sorted(es)
  {
    if Admits(es, e.key) then Inserted(es, e) else es
  }

  /** A key that is present is the probed one, so an admitted name is new. */
  lemma KeyIsNew<V>(es: seq<Entry<V>>, name: string)
    requires Sorted(es) && NeighboursAllow(es, name)
    ensures forall i :: 0 <= i < |es| ==> es[i].key != name
  {
    LessIrrefl(name);
    var k := LastLessOrEqual(es, name);
    forall i | 0 <= i < |es|
      ensures es[i].key != name
    {
      if i < k { LessAsym(es[i].key, es[k].key); }
    }
  }

  lemma AddedKeepsSorted<V>(es: seq<Entry<V>>, e: Entry<V>)
    requires Sorted(es) && LegalKeys(es)
    ensures Sorted(Added(es, e)) && LegalKeys(Added(es, e))
  {
    if Admits(es, e.key) {
      KeyIsNew(es, e.key);
      InsertedSorted(es, e);
    }
  }

  /** The invariant survives a call if and only if the call is not a missed case. */
  lemma AddedAncestorFree<V>(es: seq<Entry<V>>, e: Entry<V>)
    requires Sorted(es) && LegalKeys(es) && AncestorFree(es)
    ensures AncestorFree(Added(es, e)) <==> !(ValidSymbolName(e.key) && Missed(es, e.key))
  {
    NeighbourChecks(es, e.key);
    if Admits(es, e.key) {
      KeyIsNew(es, e.key);
      InsertedAncestorFree(es, e);
    }
  }

  /** Once two keys are nested in one another, they stay in the map. */
  lemma AddedKeepsNesting<V>(es: seq<Entry<V>>, e: Entry<V>)
    requires Sorted(es) && !AncestorFree(es)
    ensures !AncestorFree(Added(es, e))
  {
    var i, j :| 0 <= i < |es| && 0 <= j < |es| && DottedPrefix(es[i].key, es[j].key);
    var k, after := UpperBound(es, e.key), Added(es, e);
    if Admits(es, e.key) {
      assert after[if i < k then i else i + 1] == es[i] && after[if j < k then j else j + 1] == es[j];
    }
  }

  /** A whole run of AddSymbol calls. */
  function AddAll<V>(es: seq<Entry<V>>, calls: seq<Entry<V>>): seq<Entry<V>>
    requires Sorted(es) && LegalKeys(es)
    decreases |calls|
  {
    if calls == [] then es
    else
      AddedKeepsSorted(es, calls[0]);
      AddAll(Added(es, calls[0]), calls[1..])
  }

  /** No call of the run meets the missed case. */
  predicate NeverMissed<V>(es: seq<Entry<V>>, calls: seq<Entry<V>>)
    requires Sorted(es) && LegalKeys(es)
    decreases |calls|
  {
    calls != [] ==>
      (AddedKeepsSorted(es, calls[0]);
       !(ValidSymbolName(calls[0].key) && Missed(es, calls[0].key)) &&
       NeverMissed(Added(es, calls[0]), calls[1..]))
  }

  /** A run leaves the index sorted and legal, and ancestor-free if and only if it never
      met the missed case. */
  lemma {:induction false} RunAncestorFree<V>(es: seq<Entry<V>>, calls: seq<Entry<V>>)
    requires Sorted(es) && LegalKeys(es)
    ensures Sorted(AddAll(es, calls)) && LegalKeys(AddAll(es, calls))
    ensures AncestorFree(AddAll(es, calls)) <==> AncestorFree(es) && NeverMissed(es, calls)
    decreases |calls|
  {
    if calls != [] {
      AddedKeepsSorted(es, calls[0]);
      RunAncestorFree(Added(es, calls[0]), calls[1..]);
      if AncestorFree(es) {
        AddedAncestorFree(es, calls[0]);
      } else {
        AddedKeepsNesting(es, calls[0]);
      }
    }
  }

  /** What a miss costs: the new key outer is then followed by the key inner nested in
      it, and lookups of names nested in outer that sort after inner but are not inside
      inner come back empty. All other names are answered whenever a key covers them. */
  lemma AfterMiss<V>(es: seq<Entry<V>>, e: Entry<V>, name: string)
    requires Sorted(es) && LegalKeys(es) && AncestorFree(es)
    requires ValidSymbolName(e.key) && Missed(es, e.key)
    ensures Sorted(Added(es, e)) && Added(es, e) == [e] + es
    ensures (Probe([e] + es, name).None? && Covered([e] + es, name)) <==>
            (DottedPrefix(e.key, name) && Less(es[0].key, name) && !DottedPrefix(es[0].key, name))
  {
    var after := [e] + es;
    assert after[1] == es[0];
    hide DottedPrefix, Less, Missed;
    MissedIsAllowed(es, e.key);
    AddedKeepsSorted(es, e);
    assert Added(es, e) == after;
    if i :| 0 < i < |after| && Covers(after[i].key, name) {
      CoverInRest(es, e, name, i);
      CoverIsLessOrEqual(es[0].key, es[0].key);
    } else if Covers(e.key, name) {
      assert Covers(after[0].key, name);
      CoverByNew(es, e, name);
    } else {
      assert Covers(after[0].key, name) <==> Covers(e.key, name);
    }
  }

  /** A name that an old key covers is still found. */
  lemma CoverInRest<V>(es: seq<Entry<V>>, e: Entry<V>, name: string, i: nat)
    requires Sorted(es) && LegalKeys(es) && AncestorFree(es) && Missed(es, e.key)
    requires Sorted([e] + es) && LegalKeys([e] + es)
    requires 0 < i < |[e] + es| && Covers(([e] + es)[i].key, name)
    ensures Probe([e] + es, name).Some?
    ensures DottedPrefix(e.key, name) ==> Covers(es[0].key, name)
  {
    var after := [e] + es;
    CoverReachesProbe(after, name, i);
    hide DottedPrefix, Sorted, LegalKeys;
    assert forall j :: 0 < j < |after| ==> after[j] == es[j - 1];
    var k := LastLessOrEqual(after, name);
    assert after[k] == (if k == 0 then e else es[k - 1]);
    if DottedPrefix(e.key, name) {
      OnlyFirstNested(es, e.key);
      PrefixesNest(e.key, after[i].key, name);
      assert Less(after[0].key, after[i].key) by { assert Sorted(after); OrderOf(after, 0, i); }
      LessAsym(e.key, after[i].key);
      if DottedPrefix(after[i].key, e.key) { PrefixLess(after[i].key, e.key); }
    }
  }

  lemma OrderOf<V>(es: seq<Entry<V>>, i: nat, j: nat)
    requires Sorted(es) && i < j < |es|
    ensures Less(es[i].key, es[j].key)
  {
  }

  /** A name that only the new key covers is found unless the old first key is in the
      way of the probe. */
  lemma CoverByNew<V>(es: seq<Entry<V>>, e: Entry<V>, name: string)
    requires |es| > 0 && Sorted(es) && LegalKeys(es) && Missed(es, e.key)
    requires Sorted([e] + es) && LegalKeys([e] + es)
    requires Covers(e.key, name)
    requires forall i :: 0 < i < |[e] + es| ==> !Covers(([e] + es)[i].key, name)
    ensures Probe([e] + es, name).None? <==> Less(es[0].key, name)
    ensures Less(es[0].key, name) ==> DottedPrefix(e.key, name)
  {
    hide DottedPrefix, Less, Sorted, LegalKeys, Missed;
    var after := [e] + es;
    var k := LastLessOrEqual(after, name);
    assert after[0] == e && after[1] == es[0];
    CoverIsLessOrEqual(e.key, name);
    assert UpperBound(after, name) == k + 1;
    assert k <= 1 by {
      CoverReachesProbe(after, name, 0);
      OnlyFirstNested(es, e.key);
      assert forall j :: 0 < j < |after| ==> after[j] == es[j - 1];
      assert after[k] == (if k == 0 then e else es[k - 1]);
    }
    OrderOf(after, 0, 1);
    LessAsym(e.key, es[0].key);
    if Less(name, es[0].key) { LessAsym(name, es[0].key); }
    assert !Covers(after[1].key, name);
  }

  /** In the missed case no key but the first is nested in the new name. */
  lemma OnlyFirstNested<V>(es: seq<Entry<V>>, name: string)
    requires Sorted(es) && LegalKeys(es) && Missed(es, name)
    ensures forall j :: 0 < j < |es| ==> !DottedPrefix(name, es[j].key)
  {
    forall j | 0 < j < |es|
      ensures !DottedPrefix(name, es[j].key)
    {
      PrefixLess(name, es[0].key);
      if DottedPrefix(name, es[j].key) {
        LessTrans(name, es[0].key, es[1].key);
        BetweenIsNested(name, es[1].key, es[j].key);
      }
    }
  }

  lemma CoversMeans(outer: string, name: string)
    ensures Covers(outer, name) <==> outer == name || outer + "." <= name
  {
    PrefixMeans(outer, name);
  }

  /** What one probe finds covers the name, and a key that is the name is found. */
  lemma ProbeMeans<V>(es: seq<Entry<V>>, name: string)
    requires Sorted(es)
    ensures forall x :: x in es && x.key == name ==> Probe(es, name) == Some(x.value)
    ensures Probe(es, name).Some? ==>
              exists x :: x in es && x.value == Probe(es, name).value && (x.key == name || x.key + "." <= name)
  {
    var k := LastLessOrEqual(es, name);
    if k < |es| { CoversMeans(es[k].key, name); }
    hide DottedPrefix, Less;
    forall x | x in es && x.key == name
      ensures Probe(es, name) == Some(x.value)
    {
      var i :| 0 <= i < |es| && es[i] == x;
      LessIrrefl(name);
      if i < k { LessAsym(es[i].key, es[k].key); }
    }
  }

  lemma ScanMeans<V>(es: seq<Entry<V>>, name: string)
    requires Sorted(es) && AncestorFree(es)
    ensures forall x :: x in es && x.key + "." <= name ==> FullScan(es, name) == Some(x.value)
  {
    forall x | x in es && x.key + "." <= name
      ensures FullScan(es, name) == Some(x.value)
    {
      var i :| 0 <= i < |es| && es[i] == x;
      CoversMeans(x.key, name);
      FullScanUnique(es, name, i);
    }
  }

  /** An accepted call stores its entry and keeps the others. */
  lemma InsertedMembers<V>(es: seq<Entry<V>>, e: Entry<V>)
    requires Sorted(es)
    ensures forall x :: x in Inserted(es, e) <==> x in es || x == e
  {
    var k := UpperBound(es, e.key);
    assert es == es[..k] + es[k..];
  }

  /** What was accepted is found at once, with its own value: the missed case included. */
  lemma AddedIsFound<V>(es: seq<Entry<V>>, e: Entry<V>)
    requires Sorted(es) && LegalKeys(es) && Admits(es, e.key)
    ensures Sorted(Added(es, e)) && Probe(Added(es, e), e.key) == Some(e.value)
  {
    AddedKeepsSorted(es, e);
    InsertedMembers(es, e);
    ProbeMeans(Added(es, e), e.key);
  }

  /** Some key encloses the name, or is it; some key is nested in it. */
  ghost predicate AroundIn<V>(es: seq<Entry<V>>, name: string) {
    exists x :: x in es && (x.key == name || x.key + "." <= name)
  }

  ghost predicate InsideIn<V>(es: seq<Entry<V>>, name: string) {
    exists x :: x in es && name + "." <= x.key
  }

  predicate FirstOnly<V>(es: seq<Entry<V>>, name: string) {
    |es| > 0 && name + "." <= es[0].key && (|es| > 1 ==> !(name + "." <= es[1].key))
  }

  lemma NeighboursMean<V>(es: seq<Entry<V>>, name: string)
    ensures Covered(es, name) <==> AroundIn(es, name)
    ensures HasNested(es, name) <==> InsideIn(es, name)
    ensures Missed(es, name) <==> FirstOnly(es, name)
  {
    hide DottedPrefix;
    forall i | 0 <= i < |es|
      ensures es[i] in es
      ensures Covers(es[i].key, name) <==> es[i].key == name || es[i].key + "." <= name
      ensures DottedPrefix(name, es[i].key) <==> name + "." <= es[i].key
    {
      CoversMeans(es[i].key, name);
      PrefixMeans(name, es[i].key);
    }
  }

  /** What a call accepts, from an ancestor-free index, and what it stores. */
  lemma AddedMeans<V>(es: seq<Entry<V>>, e: Entry<V>)
    requires Sorted(es) && LegalKeys(es)
    ensures Admits(es, e.key) ==> forall x :: x in Added(es, e) <==> x in es || x == e
    ensures AncestorFree(es) ==>
              && (Admits(es, e.key) <==>
                  ValidSymbolName(e.key) && (Missed(es, e.key) || (!Covered(es, e.key) && !HasNested(es, e.key))))
              && (AncestorFree(Added(es, e)) <==> !(Admits(es, e.key) && Missed(es, e.key)))
              && (Admits(es, e.key) <==>
                  && (forall i :: 0 <= i < |e.key| ==> e.key[i] as int == 46 || WordCode(e.key[i] as int))
                  && (FirstOnly(es, e.key) || (!AroundIn(es, e.key) && !InsideIn(es, e.key))))
  {
    hide AncestorFree, Covered, HasNested, AroundIn, InsideIn, FirstOnly, LegalKeys, Legal, WordCode, Missed;
    SymbolNameByCode(e.key);
    NeighboursMean(es, e.key);
    InsertedMembers(es, e);
    if AncestorFree(es) {
      NeighbourChecks(es, e.key);
      AddedAncestorFree(es, e);
    }
  }

  class DescriptorIndex<Value> {
    var bySymbol: seq<Entry<Value>>

    ghost predicate Valid()
      reads this
    {
      Sorted(bySymbol) && LegalKeys(bySymbol)
    }

    constructor ()
      ensures Valid() && bySymbol == []
    {
      bySymbol := [];
    }

    method FindLastLessOrEqual(name: string) returns (iter: nat)
      requires Valid()
      ensures iter == LastLessOrEqual(bySymbol, name)
    {
      iter := UpperBound(bySymbol, name);
      if iter != 0 { iter := iter - 1; }
    }

    /** Any query string is answered like a scan of all keys, as long as no two keys are
        nested in one another; None stands for the default value. */
    method FindSymbol(name: string) returns (r: Option<Value>)
      requires Valid()
      ensures r == Probe(bySymbol, name)
      ensures AncestorFree(bySymbol) ==> r == FullScan(bySymbol, name)
      ensures forall x :: x in bySymbol && x.key == name ==> r == Some(x.value)
      ensures AncestorFree(bySymbol) ==>
                forall x :: x in bySymbol && x.key + "." <= name ==> r == Some(x.value)
      ensures r.Some? ==> exists x :: x in bySymbol && x.value == r.value && (x.key == name || x.key + "." <= name)
    {
      var iter := FindLastLessOrEqual(name);
      ProbeMeans(bySymbol, name);
      if AncestorFree(bySymbol) {
        ProbeIsFullScan(bySymbol, name);
        ScanMeans(bySymbol, name);
      }
      r := if iter != |bySymbol| && Covers(bySymbol[iter].key, name)
      then Some(bySymbol[iter].value) else None;
    }

    method ValidateSymbolName(name: string) returns (valid: bool)
      ensures valid <==> ValidSymbolName(name)
    {
      for i := 0 to |name|
        invariant forall j :: 0 <= j < i ==> Legal(name[j])
      {
        if name[i] != '.' && name[i] != '_' &&
           (name[i] < '0' || name[i] > '9') &&
           (name[i] < 'A' || name[i] > 'Z') &&
           (name[i] < 'a' || name[i] > 'z') {
          return false;
        }
      }
      return true;
    }

    /** Between enclosing and nested keys of the whole index, only the missed case gets
        past the two neighbour checks. */
    method AddSymbol(name: string, value: Value) returns (added: bool)
      requires Valid()
      modifies this
      ensures Valid()
      ensures bySymbol == Added(old(bySymbol), Entry(name, value))
      ensures added <==> Admits(old(bySymbol), name)
      ensures old(AncestorFree(bySymbol)) ==>
                (added <==>
                 (ValidSymbolName(name) &&
                  (Missed(old(bySymbol), name) ||
                   (!Covered(old(bySymbol), name) && !HasNested(old(bySymbol), name)))))
      ensures old(AncestorFree(bySymbol)) ==>
                (AncestorFree(bySymbol) <==> !(added && Missed(old(bySymbol), name)))
      ensures added ==> forall x :: x in bySymbol <==> x in old(bySymbol) || x == Entry(name, value)
      ensures !added ==> bySymbol == old(bySymbol)
      ensures old(AncestorFree(bySymbol)) ==>
                (added <==>
                 && (forall i :: 0 <= i < |name| ==> name[i] as int == 46 || WordCode(name[i] as int))
                 && (FirstOnly(old(bySymbol), name) ||
                     (!AroundIn(old(bySymbol), name) && !InsideIn(old(bySymbol), name))))
    {
      hide AncestorFree, Covered, HasNested, AroundIn, InsideIn, FirstOnly, Sorted, LegalKeys, Legal, WordCode, Missed;
      AddedMeans(bySymbol, Entry(name, value));
      AddedKeepsSorted(bySymbol, Entry(name, value));
      var valid := ValidateSymbolName(name);
      if !valid { return false; }
      var iter := FindLastLessOrEqual(name);
      if iter == |bySymbol| {
        assert Added(bySymbol, Entry(name, value)) == [Entry(name, value)];
        bySymbol := [Entry(name, value)];
        return true;
      }
      if Covers(bySymbol[iter].key, name) { return false; }
      iter := iter + 1;
      if iter != |bySymbol| && Covers(name, bySymbol[iter].key) { return false; }
      bySymbol := Inserted(bySymbol, Entry(name, value));
      return true;
    }
  }

  /** The missed case happens: with the one key "a.b", the symbol "a" is accepted, after
      which "a.c" is not found although "a" encloses it. */
  lemma MissHappens()
    ensures
      var es := [Entry("a.b", 1)];
      Sorted(es) && LegalKeys(es) && AncestorFree(es) && Missed(es, "a") &&
      Added(es, Entry("a", 2)) == [Entry("a", 2), Entry("a.b", 1)] &&
      Sorted([Entry("a", 2), Entry("a.b", 1)]) &&
      Probe([Entry("a", 2), Entry("a.b", 1)], "a.c") == None &&
      FullScan([Entry("a", 2), Entry("a.b", 1)], "a.c") == Some(2)
  {
    var es := [Entry("a.b", 1)];
    NamesOfMiss();
    hide DottedPrefix, Less;
    assert [Entry("a", 2)] + es == [Entry("a", 2), Entry("a.b", 1)];
    AfterMiss(es, Entry("a", 2), "a.c");
  }

  lemma NamesOfMiss()
    ensures DottedPrefix("a", "a.b") && DottedPrefix("a", "a.c") && !DottedPrefix("a.b", "a.c")
    ensures !DottedPrefix("a.b", "a.b") && ValidSymbolName("a") && ValidSymbolName("a.b")
    ensures Less("a.b", "a.c")
  {
    assert "a.b"[..1] == "a" && "a.c"[..1] == "a";
    assert "a.b"[1..] == ".b" && "a.c"[1..] == ".c" && ".b"[1..] == "b" && ".c"[1..] == "c";
    assert Less("b", "c") && Less(".b", ".c");
  }
}
