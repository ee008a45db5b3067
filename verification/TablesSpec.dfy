/** What DescriptorPool::Tables holds, as a value, and what each of its mutators
    does to that value. */
module TablesSpec {
  import opened Journal

  datatype SymbolType = Message | Field | Oneof | Enum | EnumValue | Service | Method | Package

  /** A non-null symbol: its type, its descriptor, the file that defines it, and the full
      name that the descriptor holds. */
  datatype Symbol = Symbol(kind: SymbolType, descriptor: nat, file: nat, fullName: string)

  type PoolString = Key<string>
  type ExtensionId = (nat, int)

  /** Sizes of the allocation lists and journals when the checkpoint was taken. */
  datatype CheckPoint = CheckPoint(
    strings: nat, messages: nat, fileTables: nat, allocations: nat,
    symbols: nat, files: nat, extensions: nat)

  datatype State = State(
    strings: seq<PoolString>,
    messages: seq<nat>,
    fileTables: seq<nat>,
    allocations: seq<nat>,
    symbols: Table<string, Symbol>,
    files: Table<string, nat>,
    extensions: Table<ExtensionId, nat>,
    checkpoints: seq<CheckPoint>)

  const EmptyState := State([], [], [], [], Table(map[], []), Table(map[], []), Table(map[], []), [])

  function Mark(s: State): CheckPoint {
    CheckPoint(|s.strings|, |s.messages|, |s.fileTables|, |s.allocations|,
               |s.symbols.journal|, |s.files.journal|, |s.extensions.journal|)
  }

  predicate Le(a: CheckPoint, b: CheckPoint) {
    && a.strings <= b.strings && a.messages <= b.messages
    && a.fileTables <= b.fileTables && a.allocations <= b.allocations
    && a.symbols <= b.symbols && a.files <= b.files && a.extensions <= b.extensions
  }

  /** Checkpoints only ever grow towards the top of the stack and never exceed the
      present sizes. */
  predicate Nested(s: State) {
    && (forall i :: 0 <= i < |s.checkpoints| ==> Le(s.checkpoints[i], Mark(s)))
    && (forall i, j :: 0 <= i < j < |s.checkpoints| ==> Le(s.checkpoints[i], s.checkpoints[j]))
  }

  /** The tables cut back to the sizes in c; the checkpoint stack is not touched. */
  function Restore(s: State, c: CheckPoint): State
    requires Le(c, Mark(s))
  {
    s.(strings := s.strings[..c.strings],
       messages := s.messages[..c.messages],
       fileTables := s.fileTables[..c.fileTables],
       allocations := s.allocations[..c.allocations],
       symbols := Undo(s.symbols, c.symbols),
       files := Undo(s.files, c.files),
       extensions := Undo(s.extensions, c.extensions))
  }

  datatype Op =
    | AddSymbol(name: PoolString, symbol: Symbol)
    | AddFile(fileName: PoolString, file: nat)
    | AddExtension(extension: Key<ExtensionId>, field: nat)
    | AllocateString(text: PoolString)
    | AllocateMessage(message: nat)
    | AllocateFileTables(table: nat)
    | AllocateBytes(size: nat, block: nat)
    | AddCheckpoint
    | ClearLastCheckpoint
    | RollbackToLastCheckpoint

  /** Popping a checkpoint needs one to be open; everything else is always allowed. */
  predicate Enabled(depth: nat, op: Op) {
    op.ClearLastCheckpoint? || op.RollbackToLastCheckpoint? ==> depth > 0
  }

  function DepthAfter(depth: nat, op: Op): nat
    requires Enabled(depth, op)
  {
    match op
    case AddCheckpoint => depth + 1
    case ClearLastCheckpoint => depth - 1
    case RollbackToLastCheckpoint => depth - 1
    case _ => depth
  }

  /** Once no checkpoint is open nothing can be undone, so the journals are dropped. */
  function Commit(s: State): State {
    if s.checkpoints != [] then s
    else s.(symbols := s.symbols.(journal := []),
            files := s.files.(journal := []),
            extensions := s.extensions.(journal := []))
  }

  function Step(s: State, op: Op): (r: State)
    requires Nested(s) && Enabled(|s.checkpoints|, op)
    ensures Nested(r) && |r.checkpoints| == DepthAfter(|s.checkpoints|, op)
  {
    match op
    case AddSymbol(name, symbol) => s.(symbols := Insert(s.symbols, name, symbol))
    case AddFile(name, file) => s.(files := Insert(s.files, name, file))
    case AddExtension(key, field) => s.(extensions := Insert(s.extensions, key, field))
    case AllocateString(text) => s.(strings := s.strings + [text])
    case AllocateMessage(m) => s.(messages := s.messages + [m])
    case AllocateFileTables(t) => s.(fileTables := s.fileTables + [t])
    case AllocateBytes(size, block) =>
      if size == 0 then s else s.(allocations := s.allocations + [block])
    case AddCheckpoint => s.(checkpoints := s.checkpoints + [Mark(s)])
    case ClearLastCheckpoint => Commit(s.(checkpoints := s.checkpoints[..|s.checkpoints| - 1]))
    case RollbackToLastCheckpoint =>
      var n := |s.checkpoints| - 1;
      Restore(s, s.checkpoints[n]).(checkpoints := s.checkpoints[..n])
  }

  /** A run is executable when it never pops an empty checkpoint stack. */
  predicate Executable(depth: nat, ops: seq<Op>)
    decreases |ops|
  {
    ops == [] || (Enabled(depth, ops[0]) && Executable(DepthAfter(depth, ops[0]), ops[1..]))
  }

  function Run(s: State, ops: seq<Op>): (r: State)
    requires Nested(s) && Executable(|s.checkpoints|, ops)
    ensures Nested(r)
    decreases |ops|
  {
    if ops == [] then s else Run(Step(s, ops[0]), ops[1..])
  }

  /** The run keeps at least `depth` of its own checkpoints open all along and ends
      with exactly one: what may happen between an AddCheckpoint and the pop that
      pairs with it. */
  predicate Inside(depth: nat, ops: seq<Op>)
    decreases |ops|
  {
    depth >= 1 &&
    if ops == [] then depth == 1
    else Enabled(depth, ops[0]) && Inside(DepthAfter(depth, ops[0]), ops[1..])
  }
}
