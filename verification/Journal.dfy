/** Insert-only lookup tables with an undo journal, the building block of the
    descriptor pool's tables. */
module Journal {

  /** A key as a table holds it: the value it compares equal by, and the address
      it is read through.  Tables never copy their keys, so the address matters. */
  datatype Key<I> = Key(id: I, address: nat)

  datatype Entry<I, V> = Entry(key: Key<I>, value: V)

  /** A hash table together with the list of keys inserted since the journal was
      last cleared. */
  datatype Table<I, V> = Table(entries: map<I, Entry<I, V>>, journal: seq<Key<I>>)

  function Ids<I>(keys: seq<Key<I>>): set<I> {
    set k | k in keys :: k.id
  }

  /** InsertIfNotPresent followed, when it inserted, by a push onto the journal. */
  function Insert<I, V>(t: Table<I, V>, key: Key<I>, value: V): Table<I, V> {
    if key.id in t.entries then t
    else Table(t.entries[key.id := Entry(key, value)], t.journal + [key])
  }

  /** Forgets every insertion journaled at position n or later. */
  function Undo<I, V>(t: Table<I, V>, n: nat): Table<I, V>
    requires n <= |t.journal|
  {
    Table(t.entries - Ids(t.journal[n..]), t.journal[..n])
  }

  lemma InsertThenUndo<I, V>(t: Table<I, V>, key: Key<I>, value: V, n: nat)
    requires n <= |t.journal|
    ensures n <= |Insert(t, key, value).journal|
    ensures Undo(Insert(t, key, value), n) == Undo(t, n)
  {
  }

  /** Undoing in two stages is undoing at once. */
  lemma UndoCompose<I, V>(t: Table<I, V>, m: nat, n: nat)
    requires n <= m <= |t.journal|
    ensures Undo(Undo(t, m), n) == Undo(t, n)
  {
  }

  lemma UndoNothing<I, V>(t: Table<I, V>)
    ensures Undo(t, |t.journal|) == t
  {
  }
}
