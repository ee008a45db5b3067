/** A growable character buffer. */
module MemoryBuffers {
  const INLINE_BUFFER_SIZE: nat := 500

  function Repeat(c: char, n: nat): (s: string)
    ensures |s| == n && forall i :: 0 <= i < n ==> s[i] == c
  {
    seq(n, _ => c)
  }

  /** s with t written over it from position at. */
  function Splice(s: string, at: nat, t: string): (r: string)
    requires at + |t| <= |s|
    ensures |r| == |s|
  {
    s[..at] + t + s[at + |t|..]
  }

  /** The same when the rest of a longer string stays as it is. */
  lemma SpliceOfPrefix(s: string, r: string, size: nat, at: nat, t: string)
    requires at + |t| <= size <= |s| == |r|
    requires r[..at] == s[..at] && r[at..at + |t|] == t && r[at + |t|..] == s[at + |t|..]
    ensures r[..size] == Splice(s[..size], at, t)
  {
    var end := at + |t|;
    assert r == s[..at] + t + s[end..];
    assert s[..size][..at] == s[..at] && s[..size][end..] == s[end..size];
  }

  class MemoryBuffer {
    var store: array<char>
    var size: nat

    ghost predicate Valid()
      reads this
    {
      size <= store.Length
    }

    ghost function Contents(): string
      reads this, store
      requires Valid()
    {
      store[..size]
    }

    constructor ()
      ensures Valid() && fresh(store) && Contents() == ""
    {
      store := new char[INLINE_BUFFER_SIZE];
      size := 0;
    }

    /** Moves to storage at least half as large again. */
    method Grow(n: nat)
      requires Valid()
      modifies this
      ensures Valid() && fresh(store)
      ensures store.Length >= n && store.Length >= old(store.Length) + old(store.Length) / 2
      ensures Contents() == old(Contents())
    {
      var newCapacity := store.Length + store.Length / 2;
      if newCapacity < n { newCapacity := n; }
      var newStore := new char[newCapacity];
      forall i | 0 <= i < size {
        newStore[i] := store[i];
      }
      store := newStore;
    }

    /** What is kept of the old contents stays where it is; new characters are not
        initialized. */
    method Resize(n: nat)
      requires Valid()
      modifies this
      ensures Valid() && (store == old(store) || fresh(store))
      ensures |Contents()| == n
      ensures if n < |old(Contents())| then Contents() == old(Contents())[..n]
              else Contents()[..|old(Contents())|] == old(Contents())
    {
      if n > store.Length { Grow(n); }
      size := n;
    }

    method Reserve(n: nat)
      requires Valid()
      modifies this
      ensures Valid() && (store == old(store) || fresh(store)) && store.Length >= n
      ensures Contents() == old(Contents())
    {
      if n > store.Length { Grow(n); }
    }

    method Fill(from: nat, to: nat, c: char)
      requires Valid() && from <= to <= |Contents()|
      modifies store
      ensures Contents() == Splice(old(Contents()), from, Repeat(c, to - from))
    {
      forall i | from <= i < to {
        store[i] := c;
      }
    }

    method Copy(at: nat, s: string)
      requires Valid() && at + |s| <= |Contents()|
      modifies store
      ensures Contents() == Splice(old(Contents()), at, s)
    {
      forall i | 0 <= i < |s| {
        store[at + i] := s[i];
      }
    }
  }
}
