/** Nested rollback is exact, and no table key outlives the string that owns it. */
module Rollback {
  import opened Journal
  import opened TablesSpec

  /** t is t0 plus journaled insertions. */
  ghost predicate Undoes<I, V>(t: Table<I, V>, t0: Table<I, V>) {
    |t0.journal| <= |t.journal| && Undo(t, |t0.journal|) == t0
  }

  /** s is s0 plus additions and checkpoints that can all still be undone. */
  ghost predicate Extends(s0: State, s: State) {
    && s0.strings <= s.strings && s0.messages <= s.messages
    && s0.fileTables <= s.fileTables && s0.allocations <= s.allocations
    && Undoes(s.symbols, s0.symbols) && Undoes(s.files, s0.files) && Undoes(s.extensions, s0.extensions)
    && s0.checkpoints <= s.checkpoints
    && forall i :: |s0.checkpoints| <= i < |s.checkpoints| ==> Le(Mark(s0), s.checkpoints[i])
  }

  lemma ExtendsRefl(s: State)
    ensures Extends(s, s)
  {
  }

  lemma UndoesTrans<I, V>(t0: Table<I, V>, t1: Table<I, V>, t2: Table<I, V>)
    requires Undoes(t1, t0) && Undoes(t2, t1)
    ensures Undoes(t2, t0)
  {
  }

  lemma ExtendsTrans(s0: State, s1: State, s2: State)
    requires Extends(s0, s1) && Extends(s1, s2)
    ensures Extends(s0, s2)
  {
    UndoesTrans(s0.symbols, s1.symbols, s2.symbols);
    UndoesTrans(s0.files, s1.files, s2.files);
    UndoesTrans(s0.extensions, s1.extensions, s2.extensions);
    forall i | |s0.checkpoints| <= i < |s2.checkpoints|
      ensures Le(Mark(s0), s2.checkpoints[i])
    {
      if i < |s1.checkpoints| { assert s2.checkpoints[i] == s1.checkpoints[i]; }
    }
  }

  /** Cutting s back to the sizes of a state it extends gives that state. */
  lemma RestoreExtended(s0: State, s: State)
    requires Extends(s0, s)
    ensures Le(Mark(s0), Mark(s))
    ensures Restore(s, Mark(s0)).(checkpoints := s0.checkpoints) == s0
  {
  }

  /** Cutting back no further than s0 keeps extending s0. */
  lemma RestoreExtends(s0: State, s: State, c: CheckPoint)
    requires Extends(s0, s) && Le(c, Mark(s)) && Le(Mark(s0), c)
    ensures Extends(s0, Restore(s, c))
  {
    UndoCompose(s.symbols, c.symbols, |s0.symbols.journal|);
    UndoCompose(s.files, c.files, |s0.files.journal|);
    UndoCompose(s.extensions, c.extensions, |s0.extensions.journal|);
  }

  lemma InsertUndoes<I, V>(t: Table<I, V>, t0: Table<I, V>, key: Key<I>, value: V)
    requires Undoes(t, t0)
    ensures Undoes(Insert(t, key, value), t0)
  {
    InsertThenUndo(t, key, value, |t0.journal|);
  }

  lemma MarkGrows(s0: State, s: State)
    requires Extends(s0, s)
    ensures Le(Mark(s0), Mark(s))
  {
  }

  predicate IsPop(op: Op) { op.ClearLastCheckpoint? || op.RollbackToLastCheckpoint? }

  /** A step that does not pop the last checkpoint above s0 keeps s0 recoverable. */
  lemma StepExtends(s0: State, s: State, op: Op)
    requires Nested(s) && Enabled(|s.checkpoints|, op) && Extends(s0, s)
    requires IsPop(op) ==> |s.checkpoints| > |s0.checkpoints| + 1
    ensures Extends(s0, Step(s, op))
  {
    hide Undoes, Mark;
    match op
    case AddSymbol(name, symbol) => InsertUndoes(s.symbols, s0.symbols, name, symbol);
    case AddFile(name, file) => InsertUndoes(s.files, s0.files, name, file);
    case AddExtension(key, field) => InsertUndoes(s.extensions, s0.extensions, key, field);
    case AddCheckpoint => MarkGrows(s0, s);
    case RollbackToLastCheckpoint => RestoreExtends(s0, s, s.checkpoints[|s.checkpoints| - 1]);
    case _ =>
  }

  lemma {:induction false} RunExtends(s0: State, s: State, ops: seq<Op>)
    requires Nested(s) && Extends(s0, s) && |s.checkpoints| > |s0.checkpoints|
    requires Inside(|s.checkpoints| - |s0.checkpoints|, ops)
    ensures Executable(|s.checkpoints|, ops)
    ensures Extends(s0, Run(s, ops))
    ensures |Run(s, ops).checkpoints| == |s0.checkpoints| + 1
    ensures Run(s, ops).checkpoints == s0.checkpoints + [Run(s, ops).checkpoints[|s0.checkpoints|]]
    ensures s.checkpoints[|s0.checkpoints|] == Run(s, ops).checkpoints[|s0.checkpoints|]
    decreases |ops|
  {
    var d := |s0.checkpoints|;
    if ops == [] {
      assert s.checkpoints[..d] == s0.checkpoints;
    } else {
      assert DepthAfter(|s.checkpoints|, ops[0]) - d == DepthAfter(|s.checkpoints| - d, ops[0]);
      StepExtends(s0, s, ops[0]);
      assert Inside(DepthAfter(|s.checkpoints| - d, ops[0]), ops[1..]);
      RunExtends(s0, Step(s, ops[0]), ops[1..]);
    }
  }

  lemma {:induction false} RunConcat(s: State, a: seq<Op>, b: seq<Op>)
    requires Nested(s) && Executable(|s.checkpoints|, a)
    requires Executable(|Run(s, a).checkpoints|, b)
    ensures Executable(|s.checkpoints|, a + b)
    ensures Run(s, a + b) == Run(Run(s, a), b)
    decreases |a|
  {
    if a == [] {
      assert a + b == b;
    } else {
      assert (a + b)[1..] == a[1..] + b;
      RunConcat(Step(s, a[0]), a[1..], b);
    }
  }

  /** Whatever happens between a checkpoint and its rollback, including checkpoints
      opened, cleared and rolled back in between, the rollback gives back the tables,
      the allocation lists and the journals exactly as they were. */
  lemma NestedRollbackIsExact(s: State, ops: seq<Op>)
    requires Nested(s) && Inside(1, ops)
    ensures Executable(|s.checkpoints|, [AddCheckpoint] + ops + [RollbackToLastCheckpoint])
    ensures Run(s, [AddCheckpoint] + ops + [RollbackToLastCheckpoint]) == s
  {
    var mid := OpenThenRun(s, ops);
    assert Executable(|mid.checkpoints|, [RollbackToLastCheckpoint]);
    RunConcat(s, [AddCheckpoint] + ops, [RollbackToLastCheckpoint]);
    assert Run(mid, [RollbackToLastCheckpoint]) == Step(mid, RollbackToLastCheckpoint) by {
      assert Run(Step(mid, RollbackToLastCheckpoint), []) == Step(mid, RollbackToLastCheckpoint);
    }
    assert mid.checkpoints[..|s.checkpoints|] == s.checkpoints;
    RestoreExtended(s, mid);
  }

  /** Clearing instead keeps everything the run added, drops the checkpoint, and
      leaves it undoable exactly when an outer checkpoint is still open. */
  lemma ClearKeepsAdditions(s: State, ops: seq<Op>)
    requires Nested(s) && Inside(1, ops)
    ensures Executable(|s.checkpoints|, [AddCheckpoint] + ops)
    ensures Executable(|s.checkpoints|, [AddCheckpoint] + ops + [ClearLastCheckpoint])
    ensures var mid := Run(s, [AddCheckpoint] + ops);
            var end := Run(s, [AddCheckpoint] + ops + [ClearLastCheckpoint]);
            && end.strings == mid.strings && end.messages == mid.messages
            && end.fileTables == mid.fileTables && end.allocations == mid.allocations
            && end.symbols.entries == mid.symbols.entries
            && end.files.entries == mid.files.entries
            && end.extensions.entries == mid.extensions.entries
            && end.checkpoints == s.checkpoints
            && (s.checkpoints != [] ==> Extends(s, end))
            && (s.checkpoints == [] ==> end.symbols.journal == [] && end.files.journal == []
                                        && end.extensions.journal == [])
  {
    var mid := OpenThenRun(s, ops);
    assert Executable(|mid.checkpoints|, [ClearLastCheckpoint]);
    RunConcat(s, [AddCheckpoint] + ops, [ClearLastCheckpoint]);
    assert Run(mid, [ClearLastCheckpoint]) == Step(mid, ClearLastCheckpoint) by {
      assert Run(Step(mid, ClearLastCheckpoint), []) == Step(mid, ClearLastCheckpoint);
    }
    assert mid.checkpoints[..|s.checkpoints|] == s.checkpoints;
  }

  lemma OpenThenRun(s: State, ops: seq<Op>) returns (mid: State)
    requires Nested(s) && Inside(1, ops)
    ensures Executable(|s.checkpoints|, [AddCheckpoint] + ops)
    ensures mid == Run(s, [AddCheckpoint] + ops)
    ensures Extends(s, mid) && mid.checkpoints == s.checkpoints + [Mark(s)]
  {
    var open := Step(s, AddCheckpoint);
    ExtendsRefl(s);
    StepExtends(s, s, AddCheckpoint);
    RunExtends(s, open, ops);
    mid := Run(open, ops);
    assert Run(s, [AddCheckpoint]) == open by { assert Run(open, []) == open; }
    RunConcat(s, [AddCheckpoint], ops);
  }

  // ---------------------------------------------------------------- ownership

  predicate KeysOwned<V>(t: Table<string, V>, owners: seq<PoolString>) {
    && (forall n :: n in t.entries ==> t.entries[n].key.id == n && t.entries[n].key in owners)
    && (forall k :: k in t.journal ==> k in owners)
  }

  /** Undoing t back to n entries leaves only keys owned by the given strings. */
  predicate OwnedAfterUndo<V>(t: Table<string, V>, n: nat, owners: seq<PoolString>) {
    n <= |t.journal| && KeysOwned(Undo(t, n), owners)
  }

  /** No key of the symbol or file table, and no journaled key, points at a string
      that has been freed, and this will still be so after any rollback. */
  predicate Owned(s: State) {
    && Nested(s)
    && KeysOwned(s.symbols, s.strings)
    && KeysOwned(s.files, s.strings)
    && forall i :: 0 <= i < |s.checkpoints| ==> OwnedAt(s, s.checkpoints[i])
  }

  predicate OwnedAt(s: State, c: CheckPoint)
    requires Le(c, Mark(s))
  {
    && OwnedAfterUndo(s.symbols, c.symbols, s.strings[..c.strings])
    && OwnedAfterUndo(s.files, c.files, s.strings[..c.strings])
  }

  /** The caller's side of the bargain: symbol and file names passed in are strings
      that the pool allocated and still owns. */
  predicate KeyAllocated(s: State, op: Op) {
    match op
    case AddSymbol(name, _) => name in s.strings
    case AddFile(name, _) => name in s.strings
    case _ => true
  }

  lemma StepKeepsOwned(s: State, op: Op)
    requires Owned(s) && Enabled(|s.checkpoints|, op) && KeyAllocated(s, op)
    ensures Owned(Step(s, op))
  {
    var r := Step(s, op);
    if op.RollbackToLastCheckpoint? {
      assert OwnedAt(s, s.checkpoints[|s.checkpoints| - 1]);
    }
    hide OwnedAt;
    forall i | 0 <= i < |r.checkpoints|
      ensures OwnedAt(r, r.checkpoints[i])
    {
      if i == |s.checkpoints| { OwnedNow(s); } else { StepKeepsOwnedAt(s, op, s.checkpoints[i]); }
    }
  }

  lemma OwnedNow(s: State)
    requires KeysOwned(s.symbols, s.strings) && KeysOwned(s.files, s.strings)
    ensures OwnedAt(s, Mark(s)) && OwnedAt(s.(checkpoints := s.checkpoints + [Mark(s)]), Mark(s))
  {
    UndoNothing(s.symbols);
    UndoNothing(s.files);
    assert s.strings[..|s.strings|] == s.strings;
  }

  /** Nothing that stays recoverable at c loses its owners. */
  lemma StepKeepsOwnedAt(s: State, op: Op, c: CheckPoint)
    requires Nested(s) && Enabled(|s.checkpoints|, op) && Le(c, Mark(s)) && OwnedAt(s, c)
    requires op.ClearLastCheckpoint? ==> |s.checkpoints| > 1
    requires op.RollbackToLastCheckpoint? ==> Le(c, s.checkpoints[|s.checkpoints| - 1])
    ensures Le(c, Mark(Step(s, op))) && OwnedAt(Step(s, op), c)
  {
    hide KeysOwned;
    var r := Step(s, op);
    match op
    case AddSymbol(name, symbol) => InsertThenUndo(s.symbols, name, symbol, c.symbols);
    case AddFile(name, file) => InsertThenUndo(s.files, name, file, c.files);
    case AllocateString(text) => assert r.strings[..c.strings] == s.strings[..c.strings];
    case RollbackToLastCheckpoint =>
      var top := s.checkpoints[|s.checkpoints| - 1];
      UndoCompose(s.symbols, top.symbols, c.symbols);
      UndoCompose(s.files, top.files, c.files);
      assert r.strings[..c.strings] == s.strings[..c.strings];
    case _ =>
  }

  predicate KeysAllocated(s: State, ops: seq<Op>)
    requires Nested(s) && Executable(|s.checkpoints|, ops)
    decreases |ops|
  {
    ops == [] || (KeyAllocated(s, ops[0]) && KeysAllocated(Step(s, ops[0]), ops[1..]))
  }

  /** After any executable run from a sound state, balanced or not, every key left in
      the symbol and file tables is owned by a string still allocated. */
  lemma {:induction false} NoDanglingKeys(s: State, ops: seq<Op>)
    requires Owned(s) && Executable(|s.checkpoints|, ops) && KeysAllocated(s, ops)
    ensures Owned(Run(s, ops))
    decreases |ops|
  {
    if ops != [] {
      StepKeepsOwned(s, ops[0]);
      NoDanglingKeys(Step(s, ops[0]), ops[1..]);
    }
  }
}
