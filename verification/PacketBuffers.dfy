/** The fixed-size buffer between a socket and the packet handlers. */
module PacketBuffers {
  import opened Frames

  lemma HeaderThenPayload(before: seq<Byte>, f: Frame)
    requires Encodable(f)
    ensures before + Header(f) + f.payload == before + Encode(f)
    ensures f.payload == [] ==> Header(f) == Encode(f)
  {
  }

  class PacketBuffer {
    const buffer: array<Byte>
    var readPos: nat
    var writePos: nat

    ghost predicate Valid()
      reads this
    {
      buffer.Length == MAX_BUF_SIZE && readPos <= writePos <= MAX_BUF_SIZE
    }

    /** The bytes written and not yet consumed. */
    ghost function Contents(): seq<Byte>
      reads this, buffer
      requires Valid()
    {
      buffer[readPos..writePos]
    }

    constructor ()
      ensures Valid() && fresh(buffer) && Contents() == [] && buffer.Length == 65535
    {
      buffer := new Byte[MAX_BUF_SIZE](_ => 0);
      readPos := 0;
      writePos := 0;
    }

    method GetRemainSize() returns (n: nat)
      requires Valid()
      ensures n == MAX_BUF_SIZE - writePos
    {
      n := buffer.Length - writePos;
    }

    method GetBufferSize() returns (n: nat)
      requires Valid()
      ensures n == |Contents()|
    {
      n := writePos - readPos;
    }

    method GetPacketSize() returns (n: nat)
      requires Valid()
      ensures n == HeadSize(Contents()) < 0x1_0000
      ensures n == if |Contents()| < 2 then 0 else Contents()[0] as int + 256 * Contents()[1] as int
    {
      HeadByByte(Contents());
      var bufferSize := GetBufferSize();
      if bufferSize < 2 { return 0; }
      n := Word(buffer[readPos], buffer[readPos + 1]);
    }

    /** The guard looks at the write position only, so a caller has to know that the
        whole header is there. */
    method GetPacketNo() returns (n: nat)
      requires Valid() && readPos + HEADER_SIZE <= MAX_BUF_SIZE
      ensures HEADER_SIZE <= |Contents()| ==> n == Word(Contents()[2], Contents()[3])
      ensures 4 <= |Contents()| ==> n == Contents()[2] as int + 256 * Contents()[3] as int
      ensures n < 0x1_0000
    {
      hide Word;
      if writePos < HEADER_SIZE { return 0; }
      var low, high := buffer[readPos + 2], buffer[readPos + 3];
      WordsByByte(low, high, 0);
      n := Word(low, high);
      assert HEADER_SIZE <= |Contents()| ==> Contents()[2] == low && Contents()[3] == high;
    }

    method IsAbleToGetPacket() returns (able: bool)
      requires Valid()
      ensures able <==> HeadComplete(Contents())
      ensures able <==> |Contents()| >= 2 && 0 < Contents()[0] as int + 256 * Contents()[1] as int <= |Contents()|
    {
      HeadByByte(Contents());
      var packetSize := GetPacketSize();
      if packetSize == 0 { return false; }
      var packetBufferSize := GetBufferSize();
      if packetBufferSize == 0 { return false; }
      return packetSize <= packetBufferSize;
    }

    /** The bytes of the packet at the head. */
    method GetPacketBuffer() returns (packet: seq<Byte>)
      requires Valid() && HeadComplete(Contents())
      ensures packet == Contents()[..HeadSize(Contents())]
      ensures |Contents()| >= 2 && packet == Contents()[..Contents()[0] as int + 256 * Contents()[1] as int]
    {
      HeadByByte(Contents());
      var size := GetPacketSize();
      packet := buffer[readPos..writePos][..size];
    }

    method GetPayload() returns (payload: seq<Byte>)
      requires Valid() && HeadSane(Contents())
      ensures payload == Head(Contents()).payload
      ensures |Contents()| >= 4 && payload == Contents()[4..Contents()[0] as int + 256 * Contents()[1] as int]
    {
      HeadByByte(Contents());
      var size := GetPacketSize();
      payload := buffer[readPos..writePos][HEADER_SIZE..size];
    }

    /** Moves the contents to the front. */
    method ReArrange()
      requires Valid()
      modifies this, buffer
      ensures Valid() && Contents() == old(Contents())
      ensures writePos == |Contents()|
    {
      var bufferSize := GetBufferSize();
      forall i | 0 <= i < bufferSize {
        buffer[i] := buffer[readPos + i];
      }
      readPos := 0;
      writePos := bufferSize;
    }

    /** Drops bytes from the front, unless there are not that many. */
    method TruncateBuffer(size: nat)
      requires Valid()
      modifies `readPos
      ensures Valid()
      ensures Contents() == if size <= |old(Contents())| then old(Contents())[size..] else old(Contents())
    {
      var bufferSize := GetBufferSize();
      if size > bufferSize { return; }
      readPos := readPos + size;
    }

    /** Drops the packet at the head, unless it has not arrived whole. */
    method ConsumePacket()
      requires Valid()
      modifies `readPos
      ensures Valid()
      ensures Contents() == if HeadComplete(old(Contents())) then old(Contents())[HeadSize(old(Contents()))..]
                            else old(Contents())
      ensures
        var c := old(Contents());
        Contents() == if |c| >= 2 && c[0] as int + 256 * c[1] as int <= |c| then c[c[0] as int + 256 * c[1] as int..] else c
    {
      HeadByByte(Contents());
      var packetSize := GetPacketSize();
      TruncateBuffer(packetSize);
    }

    /** CopyMemory at the write position. */
    method Write(bytes: seq<Byte>)
      requires Valid() && writePos + |bytes| <= MAX_BUF_SIZE
      modifies `writePos, buffer
      ensures Valid() && Contents() == old(Contents()) + bytes
      ensures writePos == old(writePos) + |bytes|
    {
      forall i | 0 <= i < |bytes| {
        buffer[writePos + i] := bytes[i];
      }
      writePos := writePos + |bytes|;
    }

    /** Room for n more bytes, moving the contents to the front only if needed. */
    method MakeRoom(n: nat) returns (room: bool)
      requires Valid()
      modifies this, buffer
      ensures Valid() && Contents() == old(Contents())
      ensures room <==> |Contents()| + n <= MAX_BUF_SIZE
      ensures room ==> writePos + n <= MAX_BUF_SIZE
    {
      var remain := GetRemainSize();
      if n > remain {
        ReArrange();
        remain := GetRemainSize();
      }
      return n <= remain;
    }

    method AppendBuffer(bytes: seq<Byte>) returns (ok: bool)
      requires Valid()
      modifies this, buffer
      ensures Valid()
      ensures ok <==> 0 < |bytes| <= MAX_BUF_SIZE - |old(Contents())|
      ensures ok <==> 0 < |bytes| && |old(Contents())| + |bytes| <= 65535
      ensures Contents() == if ok then old(Contents()) + bytes else old(Contents())
    {
      if |bytes| == 0 { return false; }
      var room := MakeRoom(|bytes|);
      if !room { return false; }
      Write(bytes);
      return true;
    }

    /** SetPacketSize, then SetPacketNo. */
    method SetHeader(ghost f: Frame, packetSize: nat, number: nat)
      requires Valid() && writePos + HEADER_SIZE <= MAX_BUF_SIZE
      requires Encodable(f) && packetSize == Size(f) && number == f.number
      modifies `writePos, buffer
      ensures Valid() && Contents() == old(Contents()) + Header(f)
      ensures Contents() == old(Contents()) + [packetSize % 256, packetSize / 256, number % 256, number / 256]
      ensures writePos == old(writePos) + HEADER_SIZE
    {
      hide Contents, WordBytes;
      WordsByByte(0, 0, packetSize);
      WordsByByte(0, 0, number);
      Write(WordBytes(packetSize));
      Write(WordBytes(number));
    }

    /** Queues a frame. A frame without payload is refused by the last append, after its
        header has been written. */
    method SetPacket(number: nat, payload: seq<Byte>) returns (ok: bool)
      requires Valid() && Encodable(Frame(number, payload))
      modifies this, buffer
      ensures Valid()
      ensures ok <==> |old(Contents())| + HEADER_SIZE + |payload| <= MAX_BUF_SIZE && payload != []
      ensures Contents() == if |old(Contents())| + HEADER_SIZE + |payload| <= MAX_BUF_SIZE
                            then old(Contents()) + Encode(Frame(number, payload))
                            else old(Contents())
      ensures ok <==> |old(Contents())| + 4 + |payload| <= 65535 && payload != []
      ensures
        var size := 4 + |payload|;
        Contents() == if |old(Contents())| + size <= 65535
                      then old(Contents()) + [size % 256, size / 256, number % 256, number / 256] + payload
                      else old(Contents())
    {
      FrameByByte(number, payload);
      hide Contents, Header, Encode;
      ghost var f := Frame(number, payload);
      HeaderThenPayload(Contents(), f);
      var packetSize := (HEADER_SIZE + |payload|) % 0x1_0000;
      var room := MakeRoom(packetSize);
      if !room { return false; }
      SetHeader(f, packetSize, number);
      ok := AppendBuffer(payload);
    }
  }
}
