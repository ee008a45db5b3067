/** The sending side of a session: frames queue in the send buffer, and each call hands
    the oldest one to the socket. */
module Outgoing {
  import opened Frames

  /** The frames the socket took, and the frames still in the send buffer. */
  datatype Outbox = Outbox(sent: seq<Frame>, queue: seq<Frame>) {
    predicate Valid() { AllEncodable(sent) && AllEncodable(queue) }
  }

  /** One SendPacket call: its frame, and whether the socket would take a frame. */
  datatype Call = Call(frame: Frame, taken: bool)

  function Backlog(out: Outbox): nat
    requires out.Valid()
  {
    |EncodeAll(out.queue)|
  }

  predicate HasRoom(out: Outbox, f: Frame)
    requires out.Valid()
  {
    Backlog(out) + Size(f) <= MAX_BUF_SIZE
  }

  /** SendPacket reports success: the frame was queued and the oldest one was taken. */
  predicate Sends(out: Outbox, call: Call)
    requires out.Valid()
  {
    HasRoom(out, call.frame) && call.frame.payload != [] && call.taken
  }

  /** A frame without payload is refused, but only after its header was queued. */
  function After(out: Outbox, call: Call): (next: Outbox)
    requires out.Valid() && Encodable(call.frame)
    ensures next.Valid()
  {
    if !HasRoom(out, call.frame) then out
    else
      var queue := out.queue + [call.frame];
      if Sends(out, call) then Outbox(out.sent + [queue[0]], queue[1..]) else out.(queue := queue)
  }

  /** A call that would be taken by the socket is reported as failed, and yet leaves a frame
      behind, exactly if its payload is empty and its header has room. */
  lemma FailedButQueued(out: Outbox, f: Frame)
    requires out.Valid() && Encodable(f)
    ensures var call := Call(f, true);
            (!Sends(out, call) && After(out, call) != out) <==> (HasRoom(out, f) && f.payload == [])
  {
  }

  /** The smallest such packet. */
  lemma EmptyPayloadIsQueued()
    ensures var call := Call(Frame(1, []), true);
            !Sends(Outbox([], []), call) && After(Outbox([], []), call) == Outbox([], [Frame(1, [])])
  {
  }

  predicate AllCallsEncodable(calls: seq<Call>) {
    forall i :: 0 <= i < |calls| ==> Encodable(calls[i].frame)
  }

  function AfterAll(out: Outbox, calls: seq<Call>): (last: Outbox)
    requires out.Valid() && AllCallsEncodable(calls)
    ensures last.Valid()
    decreases |calls|
  {
    if calls == [] then out else AfterAll(After(out, calls[0]), calls[1..])
  }

  /** The frames that found room, in call order. */
  function Queued(out: Outbox, calls: seq<Call>): seq<Frame>
    requires out.Valid() && AllCallsEncodable(calls)
    decreases |calls|
  {
    if calls == [] then []
    else (if HasRoom(out, calls[0].frame) then [calls[0].frame] else []) + Queued(After(out, calls[0]), calls[1..])
  }

  /** The number of calls that reported success. */
  function Successes(out: Outbox, calls: seq<Call>): nat
    requires out.Valid() && AllCallsEncodable(calls)
    decreases |calls|
  {
    if calls == [] then 0
    else (if Sends(out, calls[0]) then 1 else 0) + Successes(After(out, calls[0]), calls[1..])
  }

  /** Sending is first-in first-out and loses nothing: after any run, the frames sent
      followed by the frames queued are the frames accepted, in order, and one frame was
      sent per successful call. */
  lemma {:induction false} FifoConserving(out: Outbox, calls: seq<Call>)
    requires out.Valid() && AllCallsEncodable(calls)
    ensures
      var last := AfterAll(out, calls);
      last.sent + last.queue == out.sent + out.queue + Queued(out, calls) &&
      |last.sent| == |out.sent| + Successes(out, calls) && out.sent <= last.sent
    decreases |calls|
  {
    if calls != [] {
      var next := After(out, calls[0]);
      FifoConserving(next, calls[1..]);
      hide AfterAll, EncodeAll, HasRoom;
      assert next.sent + next.queue ==
             out.sent + out.queue + (if HasRoom(out, calls[0].frame) then [calls[0].frame] else []);
    }
  }

  /** The backlog never shrinks: every frame that was queued and not taken delays all
      later ones for good, as each later call sends one frame and queues one. */
  lemma {:induction false} BacklogNeverShrinks(out: Outbox, calls: seq<Call>)
    requires out.Valid() && AllCallsEncodable(calls)
    ensures |AfterAll(out, calls).queue| == |out.queue| + |Queued(out, calls)| - Successes(out, calls)
    ensures Successes(out, calls) <= |Queued(out, calls)|
    decreases |calls|
  {
    if calls != [] { BacklogNeverShrinks(After(out, calls[0]), calls[1..]); }
  }

  /** A queue too full for any of the frames offered stays as it is: nothing is ever sent
      again, even if the socket would take it. */
  lemma {:induction false} FullQueueIsStuck(out: Outbox, calls: seq<Call>)
    requires out.Valid() && AllCallsEncodable(calls)
    requires forall i :: 0 <= i < |calls| ==> !HasRoom(out, calls[i].frame)
    ensures AfterAll(out, calls) == out
    decreases |calls|
  {
    if calls != [] { FullQueueIsStuck(out, calls[1..]); }
  }

  function WithOldestSent(out: Outbox): Outbox
    requires out.queue != []
  {
    Outbox(out.sent + [out.queue[0]], out.queue[1..])
  }

  /** A queued frame joins the end of the send buffer. */
  lemma QueueBytes(out: Outbox, f: Frame)
    requires out.Valid() && Encodable(f)
    ensures
      var next := After(out, Call(f, false));
      next.sent == out.sent &&
      EncodeAll(next.queue) == EncodeAll(out.queue) + if HasRoom(out, f) then Encode(f) else []
    ensures Sends(out, Call(f, true)) ==>
              After(out, Call(f, false)).queue != [] &&
              WithOldestSent(After(out, Call(f, false))) == After(out, Call(f, true))
  {
    EncodeAllConcat(out.queue, [f]);
    EncodeAllOne(f);
  }

  /** The oldest frame is the packet at the head of the buffer, and goes to the wire. */
  lemma OldestBytes(out: Outbox)
    requires out.Valid() && out.queue != []
    ensures HeadComplete(EncodeAll(out.queue))
    ensures
      var bs, next := EncodeAll(out.queue), WithOldestSent(out);
      next.Valid() && EncodeAll(next.sent) == EncodeAll(out.sent) + bs[..HeadSize(bs)] &&
      EncodeAll(next.queue) == bs[HeadSize(bs)..]
  {
    DecodeEncode(out.queue[0], EncodeAll(out.queue[1..]));
    EncodeAllConcat(out.sent, [out.queue[0]]);
    EncodeAllOne(out.queue[0]);
  }

  /** One call, on bytes: c is the send buffer before it. The frame joins the buffer if it
      fits; if it has a payload and the socket takes a packet, the first one in the buffer
      leaves it. */
  lemma SentByByte(out: Outbox, number: nat, payload: seq<Byte>, taken: bool)
    requires out.Valid() && number < 65536 && 4 + |payload| < 65536
    ensures Encodable(Frame(number, payload))
    ensures
      var c, size := EncodeAll(out.queue), 4 + |payload|;
      var fits := |c| + size <= 65535;
      var queued := if fits then c + [size % 256, size / 256, number % 256, number / 256] + payload else c;
      var call := Call(Frame(number, payload), taken);
      var next := After(out, call);
      && (Sends(out, call) <==> fits && payload != [] && taken)
      && (!Sends(out, call) ==> EncodeAll(next.sent) == EncodeAll(out.sent) && EncodeAll(next.queue) == queued)
      && (Sends(out, call) ==>
            && |queued| >= 2 && queued[0] as int + 256 * queued[1] as int <= |queued|
            && EncodeAll(next.sent) == EncodeAll(out.sent) + queued[..queued[0] as int + 256 * queued[1] as int]
            && EncodeAll(next.queue) == queued[queued[0] as int + 256 * queued[1] as int..])
  {
    FrameByByte(number, payload);
    var f := Frame(number, payload);
    QueueBytes(out, f);
    hide EncodeAll, Encode, Header;
    if Sends(out, Call(f, true)) {
      var waiting := After(out, Call(f, false));
      OldestBytes(waiting);
      HeadByByte(EncodeAll(waiting.queue));
    }
  }
}
