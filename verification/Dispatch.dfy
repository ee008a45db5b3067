/** What a session does with the bytes it receives, independent of buffer positions. */
module Dispatch {
  import opened Frames
  import opened Optional

  /** The handler of one packet number. Whether a handler reports success may depend on
      everything dispatched to the session before. */
  datatype Functor = Functor(parses: seq<Byte> -> bool, handle: (seq<Frame>, seq<Byte>) -> bool)

  /** The table has UINT16_MAX slots, one fewer than there are packet numbers. */
  const SLOTS: nat := 65535

  /** The bytes waiting in a session's receive buffer, and the packets its handlers got. */
  datatype Inbox = Inbox(buffered: seq<Byte>, dispatched: seq<Frame>)

  type Functors = fs: seq<Option<Functor>> | |fs| == SLOTS witness seq(SLOTS, _ => None)

  /** The head frame is one the handler table can be asked about. */
  predicate Addressable(bs: seq<Byte>) {
    HeadComplete(bs) ==> HeadSane(bs) && Head(bs).number < SLOTS
  }

  /** A complete head frame is refused, and stays in the buffer, if its number has no
      handler or its payload does not parse. */
  predicate Refused(functors: Functors, f: Frame)
    requires f.number < SLOTS
  {
    functors[f.number].None? || !functors[f.number].value.parses(f.payload)
  }

  /** The handler's verdict on a frame that comes after those in done. */
  predicate Succeeds(functors: Functors, done: seq<Frame>, f: Frame)
    requires f.number < SLOTS
  {
    !Refused(functors, f) && functors[f.number].value.handle(done, f.payload)
  }

  /** Every frame the loop looks at is addressable. */
  predicate Safe(functors: Functors, inbox: Inbox)
    decreases |inbox.buffered|
  {
    var bs := inbox.buffered;
    Addressable(bs) &&
    (HeadComplete(bs) && Succeeds(functors, inbox.dispatched, Head(bs)) ==>
       Safe(functors, Inbox(Tail(bs), inbox.dispatched + [Head(bs)])))
  }

  /** PacketHandlerManager::Handle on a complete head frame. */
  function Handled(functors: Functors, inbox: Inbox): Inbox
    requires HeadSane(inbox.buffered) && Head(inbox.buffered).number < SLOTS
  {
    var f := Head(inbox.buffered);
    if Refused(functors, f) then inbox else Inbox(Tail(inbox.buffered), inbox.dispatched + [f])
  }

  /** The loop of OnRecv: until no frame is complete or one is not handled successfully. */
  function Drain(functors: Functors, inbox: Inbox): Inbox
    requires Safe(functors, inbox)
    decreases |inbox.buffered|
  {
    if !HeadComplete(inbox.buffered) then inbox
    else if Succeeds(functors, inbox.dispatched, Head(inbox.buffered))
    then Drain(functors, Handled(functors, inbox))
    else Handled(functors, inbox)
  }

  /** One pass through the loop. */
  lemma DrainStep(functors: Functors, inbox: Inbox)
    requires Safe(functors, inbox)
    ensures !HeadComplete(inbox.buffered) ==> Drain(functors, inbox) == inbox
    ensures HeadComplete(inbox.buffered) ==>
              HeadSane(inbox.buffered) && Head(inbox.buffered).number < SLOTS &&
              var next := Handled(functors, inbox);
              if Succeeds(functors, inbox.dispatched, Head(inbox.buffered))
              then |next.buffered| < |inbox.buffered| && Safe(functors, next) &&
                   Drain(functors, inbox) == Drain(functors, next)
              else Drain(functors, inbox) == next
  {
  }

  /** One pass, on bytes: the head frame goes to the handler in the slot of its own number.
      It stays if there is none or its payload does not parse; otherwise it is taken, and
      unless the handler reports success the loop ends there. */
  lemma DrainByByte(functors: Functors, inbox: Inbox)
    requires Safe(functors, inbox)
    ensures
      var c := inbox.buffered;
      if |c| < 2 || c[0] as int + 256 * c[1] as int == 0 || c[0] as int + 256 * c[1] as int > |c| then Drain(functors, inbox) == inbox
      else
        4 <= c[0] as int + 256 * c[1] as int && c[2] as int + 256 * c[3] as int < 65535 &&
        var size, n := c[0] as int + 256 * c[1] as int, c[2] as int + 256 * c[3] as int;
        var slot, payload := functors[n], c[4..size];
        if slot.None? || !slot.value.parses(payload) then Drain(functors, inbox) == inbox
        else
          var next := Inbox(c[size..], inbox.dispatched + [Frame(n, payload)]);
          if slot.value.handle(inbox.dispatched, payload)
          then Safe(functors, next) && Drain(functors, inbox) == Drain(functors, next)
          else Drain(functors, inbox) == next
  {
    HeadByByte(inbox.buffered);
    DrainStep(functors, inbox);
  }

  predicate Fits(inbox: Inbox, chunk: seq<Byte>) {
    0 < |chunk| && |inbox.buffered| + |chunk| <= MAX_BUF_SIZE
  }

  function Appended(inbox: Inbox, chunk: seq<Byte>): Inbox {
    if Fits(inbox, chunk) then inbox.(buffered := inbox.buffered + chunk) else inbox
  }

  /** One OnRecv call: a chunk that does not fit is dropped whole. */
  function Received(functors: Functors, inbox: Inbox, chunk: seq<Byte>): Inbox
    requires Safe(functors, Appended(inbox, chunk))
  {
    if Fits(inbox, chunk) then Drain(functors, Appended(inbox, chunk)) else inbox
  }

  /** A chunk that is empty, or too long for the room beside the buffered bytes, is lost
      whole; any other is appended before the loop. */
  lemma ReceivedByByte(functors: Functors, inbox: Inbox, chunk: seq<Byte>)
    requires Safe(functors, Appended(inbox, chunk))
    ensures if chunk == [] || |inbox.buffered| + |chunk| > 65535 then Received(functors, inbox, chunk) == inbox
            else
              var longer := Inbox(inbox.buffered + chunk, inbox.dispatched);
              Safe(functors, longer) && Received(functors, inbox, chunk) == Drain(functors, longer)
  {
  }

  predicate AllSafe(functors: Functors, inbox: Inbox, chunks: seq<seq<Byte>>)
    decreases |chunks|
  {
    chunks != [] ==>
      Safe(functors, Appended(inbox, chunks[0])) &&
      AllSafe(functors, Received(functors, inbox, chunks[0]), chunks[1..])
  }

  function ReceivedAll(functors: Functors, inbox: Inbox, chunks: seq<seq<Byte>>): Inbox
    requires AllSafe(functors, inbox, chunks)
    decreases |chunks|
  {
    if chunks == [] then inbox
    else ReceivedAll(functors, Received(functors, inbox, chunks[0]), chunks[1..])
  }

  /** The chunks that were not dropped, joined. */
  function Kept(functors: Functors, inbox: Inbox, chunks: seq<seq<Byte>>): seq<Byte>
    requires AllSafe(functors, inbox, chunks)
    decreases |chunks|
  {
    if chunks == [] then []
    else
      (if Fits(inbox, chunks[0]) then chunks[0] else []) +
      Kept(functors, Received(functors, inbox, chunks[0]), chunks[1..])
  }

  /** All bytes ever accepted: the dispatched frames, then what is buffered. */
  function History(inbox: Inbox): seq<Byte>
    requires AllEncodable(inbox.dispatched)
  {
    EncodeAll(inbox.dispatched) + inbox.buffered
  }

  lemma HandledKeepsHistory(functors: Functors, inbox: Inbox)
    requires HeadSane(inbox.buffered) && Head(inbox.buffered).number < SLOTS
    requires AllEncodable(inbox.dispatched)
    ensures AllEncodable(Handled(functors, inbox).dispatched)
    ensures History(Handled(functors, inbox)) == History(inbox)
  {
    var f := Head(inbox.buffered);
    EncodeDecode(inbox.buffered);
    EncodeAllConcat(inbox.dispatched, [f]);
    EncodeAllOne(f);
  }

  lemma {:induction false} DrainKeepsHistory(functors: Functors, inbox: Inbox)
    requires Safe(functors, inbox) && AllEncodable(inbox.dispatched)
    ensures AllEncodable(Drain(functors, inbox).dispatched)
    ensures History(Drain(functors, inbox)) == History(inbox)
    decreases |inbox.buffered|
  {
    if HeadComplete(inbox.buffered) {
      HandledKeepsHistory(functors, inbox);
      if Succeeds(functors, inbox.dispatched, Head(inbox.buffered)) {
        DrainKeepsHistory(functors, Handled(functors, inbox));
      }
    }
  }

  /** Conservation on the receiving side, whatever the handlers do: the frames dispatched
      and the bytes still buffered are exactly the bytes of the chunks not dropped. */
  lemma {:induction false} ReceivedAllKeepsHistory(functors: Functors, inbox: Inbox, chunks: seq<seq<Byte>>)
    requires AllSafe(functors, inbox, chunks) && AllEncodable(inbox.dispatched)
    ensures AllEncodable(ReceivedAll(functors, inbox, chunks).dispatched)
    ensures History(ReceivedAll(functors, inbox, chunks)) == History(inbox) + Kept(functors, inbox, chunks)
    decreases |chunks|
  {
    if chunks != [] {
      if Fits(inbox, chunks[0]) { DrainKeepsHistory(functors, Appended(inbox, chunks[0])); }
      ReceivedAllKeepsHistory(functors, Received(functors, inbox, chunks[0]), chunks[1..]);
    }
  }

  /** Each frame finds, in the slot of its own number, a handler that parses its payload
      and reports success on it after the frames before. */
  lemma {:induction false} ServedMeans(functors: Functors, done: seq<Frame>, fs: seq<Frame>)
    ensures Served(functors, done, fs) <==>
              forall k :: 0 <= k < |fs| ==>
                fs[k].number < 65535 && 4 + |fs[k].payload| <= 65535 && functors[fs[k].number].Some? &&
                var h := functors[fs[k].number].value;
                h.parses(fs[k].payload) && h.handle(done + fs[..k], fs[k].payload)
    decreases |fs|
  {
    if fs != [] {
      ServedMeans(functors, done + [fs[0]], fs[1..]);
      forall k | 0 < k < |fs|
        ensures fs[k] == fs[1..][k - 1] && done + fs[..k] == done + [fs[0]] + fs[1..][..k - 1]
      {
      }
      assert done + fs[..0] == done;
    }
  }

  /** Frames that are all registered, parse and are handled successfully, in this order. */
  predicate Served(functors: Functors, done: seq<Frame>, fs: seq<Frame>)
    decreases |fs|
  {
    fs != [] ==>
      Encodable(fs[0]) && fs[0].number < SLOTS && Succeeds(functors, done, fs[0]) &&
      Served(functors, done + [fs[0]], fs[1..])
  }

  lemma {:induction false} ServedEncodable(functors: Functors, done: seq<Frame>, fs: seq<Frame>)
    requires Served(functors, done, fs)
    ensures AllEncodable(fs)
    decreases |fs|
  {
    if fs != [] {
      ServedEncodable(functors, done + [fs[0]], fs[1..]);
      assert fs == [fs[0]] + fs[1..];
    }
  }

  /** How many frames lie wholly within the first n bytes of their encoding. */
  function WholeFrames(fs: seq<Frame>, n: nat): (k: nat)
    ensures k <= |fs|
  {
    if fs == [] || n < Size(fs[0]) then 0 else 1 + WholeFrames(fs[1..], n - Size(fs[0]))
  }

  /** Where a session stands that got the first bytes bs of the frames' encoding. */
  function Reached(done: seq<Frame>, fs: seq<Frame>, bs: seq<Byte>): Inbox
    requires AllEncodable(fs) && bs <= EncodeAll(fs)
    decreases |fs|
  {
    if fs == [] || |bs| < Size(fs[0]) then Inbox(bs, done)
    else
      assert bs[Size(fs[0])..] <= EncodeAll(fs[1..]);
      Reached(done + [fs[0]], fs[1..], bs[Size(fs[0])..])
  }

  /** Reached in closed form: the whole frames are dispatched, in order. */
  lemma {:induction false} ReachedDispatched(done: seq<Frame>, fs: seq<Frame>, bs: seq<Byte>)
    requires AllEncodable(fs) && bs <= EncodeAll(fs)
    ensures Reached(done, fs, bs).dispatched == done + fs[..WholeFrames(fs, |bs|)]
    decreases |fs|
  {
    var k := WholeFrames(fs, |bs|);
    if fs == [] || |bs| < Size(fs[0]) {
      assert done + fs[..0] == done;
    } else {
      var rest := bs[Size(fs[0])..];
      assert rest <= EncodeAll(fs[1..]);
      ReachedDispatched(done + [fs[0]], fs[1..], rest);
      assert done + [fs[0]] + fs[1..][..k - 1] == done + fs[..k];
    }
  }

  /** What is buffered then is a proper prefix of the next frame. */
  lemma {:induction false} ReachedBuffered(done: seq<Frame>, fs: seq<Frame>, bs: seq<Byte>)
    requires AllEncodable(fs) && bs <= EncodeAll(fs)
    ensures WholeFrames(fs, |bs|) == |fs| ==> Reached(done, fs, bs).buffered == []
    ensures WholeFrames(fs, |bs|) < |fs| ==>
              Reached(done, fs, bs).buffered < Encode(fs[WholeFrames(fs, |bs|)])
    decreases |fs|
  {
    if fs != [] && |bs| >= Size(fs[0]) {
      var rest := bs[Size(fs[0])..];
      assert rest <= EncodeAll(fs[1..]);
      ReachedBuffered(done + [fs[0]], fs[1..], rest);
    }
  }

  /** Dispatched frames and buffered bytes together are the bytes taken. */
  lemma {:induction false} ReachedConserves(done: seq<Frame>, fs: seq<Frame>, bs: seq<Byte>)
    requires AllEncodable(fs) && bs <= EncodeAll(fs)
    ensures EncodeAll(fs[..WholeFrames(fs, |bs|)]) + Reached(done, fs, bs).buffered == bs
    decreases |fs|
  {
    if fs != [] && |bs| >= Size(fs[0]) {
      var rest, k := bs[Size(fs[0])..], WholeFrames(fs, |bs|);
      assert rest <= EncodeAll(fs[1..]);
      ReachedConserves(done + [fs[0]], fs[1..], rest);
      TakeFrames(fs, k);
      hide Encode, Size;
      assert bs == Encode(fs[0]) + rest;
    }
  }

  lemma TakeFrames(fs: seq<Frame>, k: nat)
    requires 0 < k <= |fs| && AllEncodable(fs)
    ensures fs[..k] == [fs[0]] + fs[1..][..k - 1]
    ensures EncodeAll(fs[..k]) == Encode(fs[0]) + EncodeAll(fs[1..][..k - 1])
  {
  }

  /** One pass of the loop over the first bytes of served frames. */
  lemma {:induction false} DrainServed(functors: Functors, done: seq<Frame>, fs: seq<Frame>, bs: seq<Byte>)
    requires Served(functors, done, fs) && AllEncodable(fs) && bs <= EncodeAll(fs)
    ensures Safe(functors, Inbox(bs, done))
    ensures Drain(functors, Inbox(bs, done)) == Reached(done, fs, bs)
    decreases |fs|
  {
    if fs == [] {
    } else if |bs| < Size(fs[0]) {
      assert bs <= Encode(fs[0]);
      PrefixIncomplete(fs[0], bs);
    } else {
      var rest := bs[Size(fs[0])..];
      assert rest <= EncodeAll(fs[1..]);
      assert bs == Encode(fs[0]) + rest;
      DecodeEncode(fs[0], rest);
      DrainServed(functors, done + [fs[0]], fs[1..], rest);
    }
  }

  predicate Joinable(fs: seq<Frame>, a: seq<Byte>, b: seq<Byte>) {
    AllEncodable(fs) && a + b <= EncodeAll(fs)
  }

  /** Bytes can be taken in two goes. What is left after the first goes on with the
      second in the encoding of the frames that are left ... */
  lemma {:induction false} SplitJoinable(done: seq<Frame>, fs: seq<Frame>, a: seq<Byte>, b: seq<Byte>)
    requires Joinable(fs, a, b)
    ensures a <= EncodeAll(fs)
    ensures Joinable(fs[WholeFrames(fs, |a|)..], Reached(done, fs, a).buffered, b)
    decreases |fs|
  {
    if fs != [] && |a| >= Size(fs[0]) {
      var a' := a[Size(fs[0])..];
      assert (a + b)[Size(fs[0])..] == a' + b;
      SplitJoinable(done + [fs[0]], fs[1..], a', b);
      assert fs[WholeFrames(fs, |a|)..] == fs[1..][WholeFrames(fs[1..], |a'|)..];
    } else {
      assert fs[0..] == fs;
    }
  }

  /** ... those frames are still to be served ... */
  lemma {:induction false} SplitServed(functors: Functors, done: seq<Frame>, fs: seq<Frame>, a: seq<Byte>)
    requires Served(functors, done, fs) && AllEncodable(fs) && a <= EncodeAll(fs)
    ensures Served(functors, Reached(done, fs, a).dispatched, fs[WholeFrames(fs, |a|)..])
    decreases |fs|
  {
    if fs != [] && |a| >= Size(fs[0]) {
      var a' := a[Size(fs[0])..];
      assert a' <= EncodeAll(fs[1..]);
      SplitServed(functors, done + [fs[0]], fs[1..], a');
      assert fs[WholeFrames(fs, |a|)..] == fs[1..][WholeFrames(fs[1..], |a'|)..];
    } else {
      assert fs[0..] == fs;
    }
  }

  /** ... and the second leads where all the bytes at once would. */
  lemma {:induction false} SplitReached(done: seq<Frame>, fs: seq<Frame>, a: seq<Byte>, b: seq<Byte>)
    requires Joinable(fs, a, b) && a <= EncodeAll(fs)
    requires Joinable(fs[WholeFrames(fs, |a|)..], Reached(done, fs, a).buffered, b)
    ensures
      var r := Reached(done, fs, a);
      Reached(done, fs, a + b) == Reached(r.dispatched, fs[WholeFrames(fs, |a|)..], r.buffered + b)
    decreases |fs|
  {
    if fs != [] && |a| >= Size(fs[0]) {
      var a' := a[Size(fs[0])..];
      assert (a + b)[Size(fs[0])..] == a' + b;
      assert fs[WholeFrames(fs, |a|)..] == fs[1..][WholeFrames(fs[1..], |a'|)..];
      SplitReached(done + [fs[0]], fs[1..], a', b);
    } else {
      assert fs[0..] == fs;
    }
  }

  function Join(chunks: seq<seq<Byte>>): seq<Byte> {
    if chunks == [] then [] else chunks[0] + Join(chunks[1..])
  }

  /** Chunks small enough for the buffer: even when it holds all but one byte of the
      largest frame, the largest chunk still fits. */
  predicate SmallEnough(fs: seq<Frame>, chunks: seq<seq<Byte>>) {
    forall c :: c in chunks ==> 0 < |c| <= MAX_BUF_SIZE && forall f :: f in fs ==> Size(f) - 1 + |c| <= MAX_BUF_SIZE
  }

  /** No chunk is dropped for want of room. */
  predicate AllFit(functors: Functors, inbox: Inbox, chunks: seq<seq<Byte>>)
    requires AllSafe(functors, inbox, chunks)
    decreases |chunks|
  {
    chunks != [] ==>
      Fits(inbox, chunks[0]) && AllFit(functors, Received(functors, inbox, chunks[0]), chunks[1..])
  }

  /** Dispatch does not depend on how the stream was cut. For served frames, and any
      chunks that spell a beginning of their encoding, no append fails and the session
      stands where the joined bytes alone determine; as every initial run of the chunks is
      such a run too, this holds after each call. */
  lemma {:induction false} CutIndependent(functors: Functors, done: seq<Frame>, fs: seq<Frame>,
                                          buffered: seq<Byte>, chunks: seq<seq<Byte>>)
    requires Served(functors, done, fs) && Joinable(fs, buffered, Join(chunks))
    requires SmallEnough(fs, chunks) && WholeFrames(fs, |buffered|) == 0
    ensures AllSafe(functors, Inbox(buffered, done), chunks)
    ensures AllFit(functors, Inbox(buffered, done), chunks)
    ensures ReceivedAll(functors, Inbox(buffered, done), chunks) == Reached(done, fs, buffered + Join(chunks))
    decreases |chunks|
  {
    if chunks == [] {
      assert buffered + Join(chunks) == buffered;
    } else {
      var c, later := chunks[0], Join(chunks[1..]);
      var bs := buffered + c;
      assert buffered + Join(chunks) == bs + later;
      assert fs == [] ==> buffered == [];
      assert Fits(Inbox(buffered, done), c);
      SplitJoinable(done, fs, bs, later);
      SplitServed(functors, done, fs, bs);
      SplitReached(done, fs, bs, later);
      DrainServed(functors, done, fs, bs);
      ReachedBuffered(done, fs, bs);
      var r, rest := Reached(done, fs, bs), fs[WholeFrames(fs, |bs|)..];
      CutIndependent(functors, r.dispatched, rest, r.buffered, chunks[1..]);
    }
  }

  /** The result for a session that starts empty: exactly the frames that have arrived
      whole are dispatched, with their numbers and payloads, in order. */
  lemma ExactDispatch(functors: Functors, fs: seq<Frame>, chunks: seq<seq<Byte>>)
    requires Served(functors, [], fs) && Joinable(fs, [], Join(chunks)) && SmallEnough(fs, chunks)
    ensures AllSafe(functors, Inbox([], []), chunks) && AllFit(functors, Inbox([], []), chunks)
    ensures
      var r, k := ReceivedAll(functors, Inbox([], []), chunks), WholeFrames(fs, |Join(chunks)|);
      r.dispatched == fs[..k] && EncodeAll(fs[..k]) + r.buffered == Join(chunks) &&
      (if k == |fs| then r.buffered == [] else r.buffered < Encode(fs[k]))
  {
    var stream := Join(chunks);
    assert [] + stream == stream;
    CutIndependent(functors, [], fs, [], chunks);
    ReachedDispatched([], fs, stream);
    ReachedBuffered([], fs, stream);
    ReachedConserves([], fs, stream);
    assert [] + fs[..WholeFrames(fs, |stream|)] == fs[..WholeFrames(fs, |stream|)];
  }

  /** A refused frame at the head blocks the session for good: whatever arrives later,
      nothing more is dispatched and the buffer only fills up. */
  lemma {:induction false} RefusedBlocks(functors: Functors, inbox: Inbox, chunks: seq<seq<Byte>>)
    requires HeadSane(inbox.buffered) && Head(inbox.buffered).number < SLOTS
    requires Refused(functors, Head(inbox.buffered))
    ensures AllSafe(functors, inbox, chunks)
    ensures ReceivedAll(functors, inbox, chunks) ==
            Inbox(inbox.buffered + Kept(functors, inbox, chunks), inbox.dispatched)
    decreases |chunks|
  {
    if chunks != [] {
      var next := Appended(inbox, chunks[0]);
      assert Head(next.buffered) == Head(inbox.buffered) by {
        assert next.buffered[HEADER_SIZE..HeadSize(inbox.buffered)] ==
               inbox.buffered[HEADER_SIZE..HeadSize(inbox.buffered)];
      }
      assert Received(functors, inbox, chunks[0]) == next;
      RefusedBlocks(functors, next, chunks[1..]);
    }
  }
}
