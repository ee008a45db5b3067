/** Packets on the wire: a little-endian size, a little-endian number, the payload. */
module Frames {
  type Byte = b: int | 0 <= b < 0x100

  const MAX_BUF_SIZE: nat := 65535
  const HEADER_SIZE: nat := 4

  datatype Frame = Frame(number: nat, payload: seq<Byte>)

  /** The size field counts the header, so 16 bits leave room for 65531 payload bytes. */
  predicate Encodable(f: Frame) {
    f.number < 0x1_0000 && HEADER_SIZE + |f.payload| < 0x1_0000
  }

  predicate AllEncodable(fs: seq<Frame>) {
    forall i :: 0 <= i < |fs| ==> Encodable(fs[i])
  }

  function Word(lo: Byte, hi: Byte): nat { lo + 0x100 * hi }

  function WordBytes(n: nat): (bs: seq<Byte>)
    requires n < 0x1_0000
    ensures |bs| == 2 && Word(bs[0], bs[1]) == n
  {
    [n % 0x100, n / 0x100]
  }

  function Size(f: Frame): nat { HEADER_SIZE + |f.payload| }

  function Header(f: Frame): (bs: seq<Byte>)
    requires Encodable(f)
    ensures |bs| == HEADER_SIZE
  {
    WordBytes(Size(f)) + WordBytes(f.number)
  }

  function Encode(f: Frame): (bs: seq<Byte>)
    requires Encodable(f)
    ensures |bs| == Size(f)
  {
    Header(f) + f.payload
  }

  function EncodeAll(fs: seq<Frame>): seq<Byte>
    requires AllEncodable(fs)
  {
    if fs == [] then [] else Encode(fs[0]) + EncodeAll(fs[1..])
  }

  lemma {:induction false} EncodeAllConcat(fs: seq<Frame>, gs: seq<Frame>)
    requires AllEncodable(fs) && AllEncodable(gs)
    ensures EncodeAll(fs + gs) == EncodeAll(fs) + EncodeAll(gs)
  {
    if fs == [] {
      assert fs + gs == gs;
    } else {
      EncodeAllConcat(fs[1..], gs);
      assert (fs + gs)[1..] == fs[1..] + gs;
    }
  }

  lemma EncodeAllOne(f: Frame)
    requires Encodable(f)
    ensures EncodeAll([f]) == Encode(f)
  {
  }

  /** The size a buffer announces; 0 while the size field is incomplete. */
  function HeadSize(bs: seq<Byte>): nat {
    if |bs| < 2 then 0 else Word(bs[0], bs[1])
  }

  /** IsAbleToGetPacket. */
  predicate HeadComplete(bs: seq<Byte>) { 0 < HeadSize(bs) <= |bs| }

  /** The source gives frames shorter than their header no meaning. */
  predicate HeadSane(bs: seq<Byte>) {
    HeadComplete(bs) && HEADER_SIZE <= HeadSize(bs)
  }

  function Head(bs: seq<Byte>): (f: Frame)
    requires HeadSane(bs)
    ensures Encodable(f) && Size(f) == HeadSize(bs)
  {
    Frame(Word(bs[2], bs[3]), bs[HEADER_SIZE..HeadSize(bs)])
  }

  function Tail(bs: seq<Byte>): (rest: seq<Byte>)
    requires HeadSane(bs)
    ensures |rest| < |bs|
  {
    bs[HeadSize(bs)..]
  }

  /** Decoding undoes encoding, and needs no byte after the frame. */
  lemma DecodeEncode(f: Frame, rest: seq<Byte>)
    requires Encodable(f)
    ensures HeadSane(Encode(f) + rest)
    ensures Head(Encode(f) + rest) == f && Tail(Encode(f) + rest) == rest
  {
  }

  /** Encoding undoes decoding: no byte of the stream is lost. */
  lemma EncodeDecode(bs: seq<Byte>)
    requires HeadSane(bs)
    ensures Encode(Head(bs)) + Tail(bs) == bs
  {
    var f := Head(bs);
    WordUnique(bs[0], bs[1]);
    WordUnique(bs[2], bs[3]);
    assert Encode(f) == bs[..HeadSize(bs)];
  }

  lemma WordUnique(lo: Byte, hi: Byte)
    ensures WordBytes(Word(lo, hi)) == [lo, hi]
  {
  }

  /** A proper prefix of a frame is not taken for a frame. */
  lemma PrefixIncomplete(f: Frame, bs: seq<Byte>)
    requires Encodable(f) && bs <= Encode(f) && |bs| < Size(f)
    ensures !HeadComplete(bs)
  {
  }

  // ------------------------------------------------------------- byte by byte

  /** Words have their low byte first. */
  lemma WordsByByte(lo: Byte, hi: Byte, n: nat)
    requires n < 65536
    ensures Word(lo, hi) == lo as int + 256 * hi as int
    ensures WordBytes(n) == [n % 256, n / 256]
  {
  }

  /** Where the head frame starts, its size and number stand in the first four bytes. */
  lemma HeadByByte(bs: seq<Byte>)
    ensures HeadSize(bs) == if |bs| < 2 then 0 else bs[0] as int + 256 * bs[1] as int
    ensures HeadComplete(bs) <==> |bs| >= 2 && 0 < bs[0] as int + 256 * bs[1] as int <= |bs|
    ensures HeadSane(bs) ==>
              && Head(bs) == Frame(bs[2] as int + 256 * bs[3] as int, bs[4..bs[0] as int + 256 * bs[1] as int])
              && Tail(bs) == bs[bs[0] as int + 256 * bs[1] as int..]
  {
  }

  lemma FrameByByte(number: nat, payload: seq<Byte>)
    requires number < 65536 && 4 + |payload| < 65536
    ensures Encodable(Frame(number, payload))
    ensures Header(Frame(number, payload)) ==
            [(4 + |payload|) % 256, (4 + |payload|) / 256, number % 256, number / 256]
    ensures Encode(Frame(number, payload)) ==
            [(4 + |payload|) % 256, (4 + |payload|) / 256, number % 256, number / 256] + payload
  {
  }
}
