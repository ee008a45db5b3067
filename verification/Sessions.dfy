/** Sessions: reassembling packets from received chunks, and sending packets. */
module Sessions {
  import opened Dispatch
  import opened Frames
  import opened Optional
  import opened Outgoing
  import opened PacketBuffers

  class PacketHandlerManager {
    const packetFunctors: array<Option<Functor>>

    ghost predicate Valid()
      reads this
    {
      packetFunctors.Length == SLOTS
    }

    ghost function Functors(): Functors
      reads this, packetFunctors
      requires Valid()
    {
      packetFunctors[..]
    }

    constructor ()
      ensures Valid() && fresh(packetFunctors)
      ensures forall n :: 0 <= n < SLOTS ==> Functors()[n] == None
      ensures packetFunctors.Length == 65535
    {
      packetFunctors := new Option<Functor>[SLOTS](_ => None);
    }

    /** The first handler registered for a number keeps it. */
    method Register(protocolNumber: nat, functor: Functor) returns (ok: bool)
      requires Valid() && protocolNumber < SLOTS
      modifies packetFunctors
      ensures ok <==> old(Functors())[protocolNumber] == None
      ensures Functors() == if ok then old(Functors())[protocolNumber := Some(functor)] else old(Functors())
      ensures ok ==> Functors()[protocolNumber] == Some(functor)
    {
      if protocolNumber > packetFunctors.Length { return false; }
      if packetFunctors[protocolNumber].Some? { return false; }
      packetFunctors[protocolNumber] := Some(functor);
      return true;
    }

    /** A packet is consumed once it has parsed, whatever its handler then says. */
    method Handle(session: Session, packetBuffer: PacketBuffer) returns (ok: bool)
      requires Valid() && packetBuffer.Valid()
      requires HeadSane(packetBuffer.Contents()) && Head(packetBuffer.Contents()).number < SLOTS
      modifies session`dispatched, packetBuffer`readPos
      ensures packetBuffer.Valid()
      ensures Inbox(packetBuffer.Contents(), session.dispatched) ==
              Handled(Functors(), old(Inbox(packetBuffer.Contents(), session.dispatched)))
      ensures ok <==> Succeeds(Functors(), old(session.dispatched), Head(old(packetBuffer.Contents())))
      ensures
        var c := old(packetBuffer.Contents());
        |c| >= 4 && c[2] as int + 256 * c[3] as int < 65535 && 4 <= c[0] as int + 256 * c[1] as int <= |c| &&
        var size, n := c[0] as int + 256 * c[1] as int, c[2] as int + 256 * c[3] as int;
        var slot, payload := Functors()[n], c[4..size];
        var taken := slot.Some? && slot.value.parses(payload);
        && packetBuffer.Contents() == (if taken then c[size..] else c)
        && session.dispatched == old(session.dispatched) + (if taken then [Frame(n, payload)] else [])
        && (ok <==> taken && slot.value.handle(old(session.dispatched), payload))
    {
      HeadByByte(packetBuffer.Contents());
      ghost var f := Head(packetBuffer.Contents());
      var packetNo := packetBuffer.GetPacketNo();
      var functor := packetFunctors[packetNo];
      if functor.None? { return false; }
      var payload := packetBuffer.GetPayload();
      if !functor.value.parses(payload) { return false; }
      packetBuffer.ConsumePacket();
      ok := functor.value.handle(session.dispatched, payload);
      session.dispatched := session.dispatched + [Frame(packetNo, payload)];
    }
  }

  class Session {
    const manager: PacketHandlerManager
    const recvBuffer: PacketBuffer
    const sendBuffer: PacketBuffer
    /** What handlers were called with, and what the socket took. */
    var dispatched: seq<Frame>
    var wire: seq<Byte>
    /** The frames behind the bytes on the wire and in the send buffer. */
    ghost var outbox: Outbox

    ghost predicate Valid()
      reads this, manager, recvBuffer, sendBuffer, sendBuffer.buffer
    {
      manager.Valid() && recvBuffer.Valid() &&
      recvBuffer != sendBuffer && recvBuffer.buffer != sendBuffer.buffer && SendValid()
    }

    ghost predicate SendValid()
      reads this, sendBuffer, sendBuffer.buffer
    {
      sendBuffer.Valid() && outbox.Valid() &&
      wire == EncodeAll(outbox.sent) && sendBuffer.Contents() == EncodeAll(outbox.queue)
    }

    ghost function Received(): Inbox
      reads this, recvBuffer, recvBuffer.buffer
      requires recvBuffer.Valid()
    {
      Inbox(recvBuffer.Contents(), dispatched)
    }

    constructor (manager: PacketHandlerManager)
      requires manager.Valid()
      ensures Valid() && this.manager == manager
      ensures Received() == Inbox([], []) && outbox == Outbox([], [])
      ensures fresh(recvBuffer) && fresh(recvBuffer.buffer) && fresh(sendBuffer) && fresh(sendBuffer.buffer)
    {
      this.manager := manager;
      recvBuffer := new PacketBuffer();
      sendBuffer := new PacketBuffer();
      dispatched, wire, outbox := [], [], Outbox([], []);
    }

    /** The packet at the head of the receive buffer goes to its handler. */
    method HandleHead() returns (handled: bool)
      requires manager.Valid() && recvBuffer.Valid()
      requires HeadSane(recvBuffer.Contents()) && Head(recvBuffer.Contents()).number < SLOTS
      modifies this`dispatched, recvBuffer`readPos
      ensures recvBuffer.Valid() && Received() == Handled(manager.Functors(), old(Received()))
      ensures handled <==> Succeeds(manager.Functors(), old(dispatched), Head(old(recvBuffer.Contents())))
    {
      handled := manager.Handle(this, recvBuffer);
    }

    method OnRecv(bytes: seq<Byte>)
      requires Valid() && Safe(manager.Functors(), Appended(Received(), bytes))
      modifies this`dispatched, recvBuffer, recvBuffer.buffer
      ensures Valid()
      ensures Received() == Dispatch.Received(manager.Functors(), old(Received()), bytes)
    {
      hide PacketBuffer.Contents, Drain, Handled, Succeeds, HeadComplete;
      if |bytes| > MAX_BUF_SIZE { return; }
      var appended := recvBuffer.AppendBuffer(bytes);
      if !appended { return; }
      ghost var functors, start := manager.Functors(), Received();
      while true
        invariant Valid() && manager.Functors() == functors
        invariant Safe(functors, Received()) && Drain(functors, Received()) == Drain(functors, start)
        modifies this`dispatched, recvBuffer`readPos
        decreases |recvBuffer.Contents()|
      {
        DrainStep(functors, Received());
        var able := recvBuffer.IsAbleToGetPacket();
        if !able { return; }
        var handled := HandleHead();
        if !handled { return; }
      }
    }

    /** Puts a packet in the send buffer. */
    method QueuePacket(number: nat, payload: seq<Byte>) returns (ok: bool)
      requires SendValid() && Encodable(Frame(number, payload))
      modifies this`outbox, sendBuffer, sendBuffer.buffer
      ensures SendValid() && outbox == After(old(outbox), Call(Frame(number, payload), false))
      ensures ok <==> HasRoom(old(outbox), Frame(number, payload)) && payload != []
    {
      QueueBytes(outbox, Frame(number, payload));
      hide After, Encode, EncodeAll, PacketBuffer.Contents;
      ok := sendBuffer.SetPacket(number, payload);
      outbox := After(outbox, Call(Frame(number, payload), false));
    }

    /** The socket takes the packet at the head of the send buffer. */
    method SendHead()
      requires SendValid() && outbox.queue != []
      modifies this`wire, this`outbox, sendBuffer`readPos
      ensures SendValid() && outbox == WithOldestSent(old(outbox))
    {
      OldestBytes(outbox);
      hide EncodeAll, HeadSize, WithOldestSent, PacketBuffer.Contents;
      var packet := sendBuffer.GetPacketBuffer();
      wire := wire + packet;
      sendBuffer.ConsumePacket();
      outbox := WithOldestSent(outbox);
    }

    /** The socket takes the whole oldest packet or nothing. */
    method SendPacket(number: nat, payload: seq<Byte>, taken: bool) returns (ok: bool)
      requires Valid() && Encodable(Frame(number, payload))
      modifies this`wire, this`outbox, sendBuffer, sendBuffer.buffer
      ensures Valid()
      ensures ok <==> Sends(old(outbox), Call(Frame(number, payload), taken))
      ensures outbox == After(old(outbox), Call(Frame(number, payload), taken))
      ensures
        var c, size := old(sendBuffer.Contents()), 4 + |payload|;
        var fits := |c| + size <= 65535;
        var queued := if fits then c + [size % 256, size / 256, number % 256, number / 256] + payload else c;
        && (ok <==> fits && payload != [] && taken)
        && (!ok ==> wire == old(wire) && sendBuffer.Contents() == queued)
        && (ok ==> |queued| >= 2 && queued[0] as int + 256 * queued[1] as int <= |queued|
                   && wire == old(wire) + queued[..queued[0] as int + 256 * queued[1] as int]
                   && sendBuffer.Contents() == queued[queued[0] as int + 256 * queued[1] as int..])
    {
      hide EncodeAll, PacketBuffer.Contents;
      QueueBytes(outbox, Frame(number, payload));
      SentByByte(outbox, number, payload, taken);
      var queued := QueuePacket(number, payload);
      if !queued { return false; }
      if !taken { return false; }
      SendHead();
      return true;
    }
  }

  /** From one session to another: when the receiver serves what the sender's socket took,
      it dispatches exactly that, however the network cut the stream; and that is an
      initial part of what the sender accepted. */
  lemma EndToEnd(calls: seq<Call>, functors: Functors, chunks: seq<seq<Byte>>)
    requires AllCallsEncodable(calls)
    requires
      var sent := AfterAll(Outbox([], []), calls).sent;
      Served(functors, [], sent) && SmallEnough(sent, chunks) && Join(chunks) == EncodeAll(sent)
    ensures AllSafe(functors, Inbox([], []), chunks)
    ensures
      var accepted := Queued(Outbox([], []), calls);
      var n := Successes(Outbox([], []), calls);
      n <= |accepted| && ReceivedAll(functors, Inbox([], []), chunks) == Inbox([], accepted[..n])
  {
    var sent := AfterAll(Outbox([], []), calls).sent;
    FifoConserving(Outbox([], []), calls);
    BacklogNeverShrinks(Outbox([], []), calls);
    assert [] + Join(chunks) == Join(chunks);
    ExactDispatch(functors, sent, chunks);
    AllWhole(sent);
    assert sent[..|sent|] == sent;
    assert [] + [] + Queued(Outbox([], []), calls) == Queued(Outbox([], []), calls);
  }

  lemma {:induction false} AllWhole(fs: seq<Frame>)
    requires AllEncodable(fs)
    ensures WholeFrames(fs, |EncodeAll(fs)|) == |fs|
  {
    if fs != [] { AllWhole(fs[1..]); }
  }
}
