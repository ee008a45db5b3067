/** DescriptorPool::Tables, updated in place.  Every method is tied to one step of
    TablesSpec; keys are read through addresses that are still allocated. */
module Tables {
  import opened Journal
  import opened TablesSpec
  import opened Rollback

  predicate KeysLive<V>(entries: map<string, Entry<string, V>>, live: seq<PoolString>) {
    forall n :: n in entries ==> entries[n].key in live
  }

  /** t with the keys journaled at positions lo..hi erased from the entries. */
  function Erased<I, V>(t: Table<I, V>, lo: nat, hi: nat): Table<I, V>
    requires lo <= hi <= |t.journal|
  {
    t.(entries := t.entries - Ids(t.journal[lo..hi]))
  }

  lemma ErasedStep<I, V>(t: Table<I, V>, lo: nat, i: nat)
    requires lo <= i < |t.journal|
    ensures Erased(t, lo, i + 1).entries == Erased(t, lo, i).entries - {t.journal[i].id}
  {
  }

  /** The tables after a rollback are sound, and what is left in them after the
      erasures only reads strings that survive. */
  lemma RollbackIsSafe(s: State)
    requires Owned(s) && s.checkpoints != []
    ensures KeysOwned(s.symbols, s.strings) && KeysOwned(s.files, s.strings) && Nested(s)
    ensures Owned(Step(s, Op.RollbackToLastCheckpoint))
    ensures var c := s.checkpoints[|s.checkpoints| - 1];
            && KeysLive(Undo(s.symbols, c.symbols).entries, s.strings[..c.strings])
            && KeysLive(Undo(s.files, c.files).entries, s.strings[..c.strings])
  {
    StepKeepsOwned(s, Op.RollbackToLastCheckpoint);
    assert OwnedAt(s, s.checkpoints[|s.checkpoints| - 1]);
  }

  class Tables {
    var strings: seq<PoolString>
    var messages: seq<nat>
    var fileTables: seq<nat>
    var allocations: seq<nat>
    var symbolsByName: map<string, Entry<string, Symbol>>
    var filesByName: map<string, Entry<string, nat>>
    var extensions: map<ExtensionId, Entry<ExtensionId, nat>>
    var checkpoints: seq<CheckPoint>
    var symbolsAfterCheckpoint: seq<PoolString>
    var filesAfterCheckpoint: seq<PoolString>
    var extensionsAfterCheckpoint: seq<Key<ExtensionId>>

    function Contents(): State
      reads this
    {
      State(strings, messages, fileTables, allocations,
            Table(symbolsByName, symbolsAfterCheckpoint),
            Table(filesByName, filesAfterCheckpoint),
            Table(extensions, extensionsAfterCheckpoint),
            checkpoints)
    }

    predicate Valid()
      reads this
    {
      Owned(Contents())
    }

    constructor ()
      ensures Valid() && Contents() == EmptyState
    {
      strings, messages, fileTables, allocations := [], [], [], [];
      symbolsByName, filesByName, extensions := map[], map[], map[];
      checkpoints := [];
      symbolsAfterCheckpoint, filesAfterCheckpoint, extensionsAfterCheckpoint := [], [], [];
    }

    method AddSymbol(fullName: PoolString, symbol: Symbol) returns (added: bool)
      requires Valid() && fullName in strings
      modifies this`symbolsByName, this`symbolsAfterCheckpoint
      ensures Valid() && Contents() == Step(old(Contents()), Op.AddSymbol(fullName, symbol))
      ensures added == (fullName.id !in old(symbolsByName))
      ensures symbolsByName ==
                if added then old(symbolsByName)[fullName.id := Entry(fullName, symbol)] else old(symbolsByName)
      ensures symbolsAfterCheckpoint == old(symbolsAfterCheckpoint) + if added then [fullName] else []
    {
      StepKeepsOwned(Contents(), Op.AddSymbol(fullName, symbol));
      added := fullName.id !in symbolsByName;
      if added {
        symbolsByName := symbolsByName[fullName.id := Entry(fullName, symbol)];
        symbolsAfterCheckpoint := symbolsAfterCheckpoint + [fullName];
      }
    }

    method AddFile(name: PoolString, file: nat) returns (added: bool)
      requires Valid() && name in strings
      modifies this`filesByName, this`filesAfterCheckpoint
      ensures Valid() && Contents() == Step(old(Contents()), Op.AddFile(name, file))
      ensures added == (name.id !in old(filesByName))
      ensures filesByName == if added then old(filesByName)[name.id := Entry(name, file)] else old(filesByName)
      ensures filesAfterCheckpoint == old(filesAfterCheckpoint) + if added then [name] else []
    {
      StepKeepsOwned(Contents(), Op.AddFile(name, file));
      added := name.id !in filesByName;
      if added {
        filesByName := filesByName[name.id := Entry(name, file)];
        filesAfterCheckpoint := filesAfterCheckpoint + [name];
      }
    }

    method AddExtension(key: Key<ExtensionId>, field: nat) returns (added: bool)
      requires Valid()
      modifies this`extensions, this`extensionsAfterCheckpoint
      ensures Valid() && Contents() == Step(old(Contents()), Op.AddExtension(key, field))
      ensures added == (key.id !in old(extensions))
      ensures extensions == if added then old(extensions)[key.id := Entry(key, field)] else old(extensions)
      ensures extensionsAfterCheckpoint == old(extensionsAfterCheckpoint) + if added then [key] else []
    {
      StepKeepsOwned(Contents(), Op.AddExtension(key, field));
      added := key.id !in extensions;
      if added {
        extensions := extensions[key.id := Entry(key, field)];
        extensionsAfterCheckpoint := extensionsAfterCheckpoint + [key];
      }
    }

    /** `address` is where the allocator put the new string. */
    method AllocateString(address: nat, value: string) returns (result: PoolString)
      requires Valid()
      modifies this`strings
      ensures Valid() && result == Key(value, address) && result in strings
      ensures Contents() == Step(old(Contents()), Op.AllocateString(result))
      ensures strings == old(strings) + [result]
    {
      result := Key(value, address);
      StepKeepsOwned(Contents(), Op.AllocateString(result));
      strings := strings + [result];
    }

    method AllocateMessage(address: nat)
      requires Valid()
      modifies this`messages
      ensures Valid() && Contents() == Step(old(Contents()), Op.AllocateMessage(address))
      ensures messages == old(messages) + [address]
    {
      StepKeepsOwned(Contents(), Op.AllocateMessage(address));
      messages := messages + [address];
    }

    method AllocateFileTables(address: nat)
      requires Valid()
      modifies this`fileTables
      ensures Valid() && Contents() == Step(old(Contents()), Op.AllocateFileTables(address))
      ensures fileTables == old(fileTables) + [address]
    {
      StepKeepsOwned(Contents(), Op.AllocateFileTables(address));
      fileTables := fileTables + [address];
    }

    method AllocateBytes(size: nat, address: nat)
      requires Valid()
      modifies this`allocations
      ensures Valid() && Contents() == Step(old(Contents()), Op.AllocateBytes(size, address))
      ensures allocations == if size == 0 then old(allocations) else old(allocations) + [address]
    {
      StepKeepsOwned(Contents(), Op.AllocateBytes(size, address));
      if size == 0 { return; }
      allocations := allocations + [address];
    }

    method AddCheckpoint()
      requires Valid()
      modifies this`checkpoints
      ensures Valid() && Contents() == Step(old(Contents()), Op.AddCheckpoint)
      ensures checkpoints == old(checkpoints) + [
                CheckPoint(|strings|, |messages|, |fileTables|, |allocations|, |symbolsAfterCheckpoint|,
                           |filesAfterCheckpoint|, |extensionsAfterCheckpoint|)]
    {
      StepKeepsOwned(Contents(), Op.AddCheckpoint);
      checkpoints := checkpoints + [Mark(Contents())];
    }

    method ClearLastCheckpoint()
      requires Valid() && checkpoints != []
      modifies this`checkpoints, this`symbolsAfterCheckpoint, this`filesAfterCheckpoint, this`extensionsAfterCheckpoint
      ensures Valid() && Contents() == Step(old(Contents()), Op.ClearLastCheckpoint)
      ensures checkpoints == old(checkpoints)[..|old(checkpoints)| - 1]
      ensures checkpoints == [] ==>
                symbolsAfterCheckpoint == [] && filesAfterCheckpoint == [] && extensionsAfterCheckpoint == []
      ensures checkpoints != [] ==>
                && symbolsAfterCheckpoint == old(symbolsAfterCheckpoint)
                && filesAfterCheckpoint == old(filesAfterCheckpoint)
                && extensionsAfterCheckpoint == old(extensionsAfterCheckpoint)
    {
      StepKeepsOwned(Contents(), Op.ClearLastCheckpoint);
      checkpoints := checkpoints[..|checkpoints| - 1];
      if checkpoints == [] {
        symbolsAfterCheckpoint := [];
        filesAfterCheckpoint := [];
        extensionsAfterCheckpoint := [];
      }
    }

    /** symbols_by_name_.erase(key): hashes the text at `key` and compares it with the
        texts of the keys in the table, so all of those must still be allocated. */
    method EraseSymbol(key: PoolString)
      requires key in strings && KeysLive(symbolsByName, strings)
      modifies this`symbolsByName
      ensures symbolsByName == old(symbolsByName) - {key.id}
    {
      symbolsByName := symbolsByName - {key.id};
    }

    method EraseFile(key: PoolString)
      requires key in strings && KeysLive(filesByName, strings)
      modifies this`filesByName
      ensures filesByName == old(filesByName) - {key.id}
    {
      filesByName := filesByName - {key.id};
    }

    method EraseSymbolsFrom(first: nat)
      requires KeysOwned(Contents().symbols, strings) && first <= |symbolsAfterCheckpoint|
      modifies this`symbolsByName
      ensures symbolsByName == old(Undo(Contents().symbols, first).entries)
    {
      ghost var t := Contents().symbols;
      var i := first;
      while i < |symbolsAfterCheckpoint|
        invariant first <= i <= |symbolsAfterCheckpoint|
        invariant symbolsByName == Erased(t, first, i).entries
      {
        ErasedStep(t, first, i);
        EraseSymbol(symbolsAfterCheckpoint[i]);
        i := i + 1;
      }
      assert t.journal[first..] == t.journal[first..i];
    }

    method EraseFilesFrom(first: nat)
      requires KeysOwned(Contents().files, strings) && first <= |filesAfterCheckpoint|
      modifies this`filesByName
      ensures filesByName == old(Undo(Contents().files, first).entries)
    {
      ghost var t := Contents().files;
      var i := first;
      while i < |filesAfterCheckpoint|
        invariant first <= i <= |filesAfterCheckpoint|
        invariant filesByName == Erased(t, first, i).entries
      {
        ErasedStep(t, first, i);
        EraseFile(filesAfterCheckpoint[i]);
        i := i + 1;
      }
      assert t.journal[first..] == t.journal[first..i];
    }

    method EraseExtensionsFrom(first: nat)
      requires first <= |extensionsAfterCheckpoint|
      modifies this`extensions
      ensures extensions == old(Undo(Contents().extensions, first).entries)
    {
      ghost var t := Contents().extensions;
      var i := first;
      while i < |extensionsAfterCheckpoint|
        invariant first <= i <= |extensionsAfterCheckpoint|
        invariant extensions == Erased(t, first, i).entries
      {
        ErasedStep(t, first, i);
        extensions := extensions - {extensionsAfterCheckpoint[i].id};
        i := i + 1;
      }
      assert t.journal[first..] == t.journal[first..i];
    }

    /** Cuts the lists back, freeing the strings: by now no key may read them. */
    method Truncate(c: CheckPoint)
      requires Le(c, Mark(Contents())) && checkpoints != []
      requires KeysLive(symbolsByName, strings[..c.strings])
      requires KeysLive(filesByName, strings[..c.strings])
      modifies this
      ensures Contents() == State(
                old(strings[..c.strings]), old(messages[..c.messages]),
                old(fileTables[..c.fileTables]), old(allocations[..c.allocations]),
                Table(old(symbolsByName), old(symbolsAfterCheckpoint[..c.symbols])),
                Table(old(filesByName), old(filesAfterCheckpoint[..c.files])),
                Table(old(extensions), old(extensionsAfterCheckpoint[..c.extensions])),
                old(checkpoints[..|checkpoints| - 1]))
    {
      hide KeysLive;
      symbolsAfterCheckpoint := symbolsAfterCheckpoint[..c.symbols];
      filesAfterCheckpoint := filesAfterCheckpoint[..c.files];
      extensionsAfterCheckpoint := extensionsAfterCheckpoint[..c.extensions];
      strings := strings[..c.strings];
      messages := messages[..c.messages];
      fileTables := fileTables[..c.fileTables];
      allocations := allocations[..c.allocations];
      checkpoints := checkpoints[..|checkpoints| - 1];
    }

    method RollbackToLastCheckpoint()
      requires Valid() && checkpoints != []
      modifies this
      ensures Valid() && Contents() == Step(old(Contents()), Op.RollbackToLastCheckpoint)
      ensures
        var c := old(checkpoints)[|old(checkpoints)| - 1];
        && c.strings <= |old(strings)| && strings == old(strings)[..c.strings]
        && c.messages <= |old(messages)| && messages == old(messages)[..c.messages]
        && c.fileTables <= |old(fileTables)| && fileTables == old(fileTables)[..c.fileTables]
        && c.allocations <= |old(allocations)| && allocations == old(allocations)[..c.allocations]
        && c.symbols <= |old(symbolsAfterCheckpoint)| && c.files <= |old(filesAfterCheckpoint)|
        && c.extensions <= |old(extensionsAfterCheckpoint)|
        && symbolsAfterCheckpoint == old(symbolsAfterCheckpoint)[..c.symbols]
        && filesAfterCheckpoint == old(filesAfterCheckpoint)[..c.files]
        && extensionsAfterCheckpoint == old(extensionsAfterCheckpoint)[..c.extensions]
        && symbolsByName == old(symbolsByName) - (set k | k in old(symbolsAfterCheckpoint)[c.symbols..] :: k.id)
        && filesByName == old(filesByName) - (set k | k in old(filesAfterCheckpoint)[c.files..] :: k.id)
        && extensions == old(extensions) - (set k | k in old(extensionsAfterCheckpoint)[c.extensions..] :: k.id)
      ensures checkpoints == old(checkpoints)[..|old(checkpoints)| - 1]
    {
      var checkpoint := checkpoints[|checkpoints| - 1];
      RollbackIsSafe(Contents());
      hide Owned, KeysOwned, KeysLive;
      EraseSymbolsFrom(checkpoint.symbols);
      EraseFilesFrom(checkpoint.files);
      EraseExtensionsFrom(checkpoint.extensions);
      Truncate(checkpoint);
    }
  }
}
