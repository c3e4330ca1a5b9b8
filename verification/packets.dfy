/** Wire-level vocabulary shared by every part of the TFTP engine: the
    fixed sizes of RFC 1350, the integer widths the Go code uses, and the
    five packet kinds as an abstract tagged datatype (the byte layout of
    section 5 of RFC 1350 is not modelled). */
module Packets {

  /** An octet, Go's `byte`. */
  type byte = b: int | 0 <= b < 0x100

  /** Go's `uint8`, the width of `TFTPServer.Retries`. */
  type u8 = x: int | 0 <= x < 0x100

  /** Go's `uint16`, the width of block numbers and error codes. */
  type u16 = x: int | 0 <= x < 0x1_0000

  /** Opcode plus block number (or error code) in front of every Data/Ack packet. */
  const HeaderSize: nat := 4

  /** Largest payload of one Data packet. */
  const BlockSize: nat := 512

  /** `DatagramSize`: header plus a full block; every receive buffer has this size. */
  const DatagramSize: nat := 516

  /** `ErrIllegalOp`, error code 4 of RFC 1350. */
  const ErrIllegalOp: u16 := 4

  datatype Option<+T> = None | Some(value: T)

  /** Filename and transfer mode of a ReadReq or WriteReq. */
  datatype Request = Request(filename: string, mode: string)

  datatype Packet =
    | ReadReq(rrq: Request)
    | WriteReq(wrq: Request)
    | Data(block: u16, payload: seq<byte>)
    | Ack(block: u16)
    | Err(code: u16, message: string)

  /** The block number after `b` once a uint16 increment wraps. */
  function NextBlock(b: u16): (r: u16)
    ensures r != b
    ensures r == 0 <==> b == 0xFFFF
    ensures b < 0xFFFF ==> r == b + 1
  {
    (b + 1) % 0x1_0000
  }

  /** The at most `BlockSize` payload bytes starting at `cursor`: what one
      `Data.MarshalBinary` call takes from a reader positioned at `cursor`. */
  function Chunk(payload: seq<byte>, cursor: nat): (c: seq<byte>)
    requires cursor <= |payload|
    ensures |c| <= BlockSize && cursor + |c| <= |payload|
    ensures c == payload[cursor..cursor + |c|]
    ensures |c| < BlockSize <==> |payload| < cursor + BlockSize
    ensures |c| < BlockSize ==> cursor + |c| == |payload|
  {
    if cursor + BlockSize <= |payload| then payload[cursor..cursor + BlockSize]
    else payload[cursor..]
  }

  /** The length a datagram carrying `p` has on the wire (Data and Ack only). */
  function WireLength(p: Packet): (n: nat)
    requires p.Data? || p.Ack?
    ensures n >= HeaderSize
    ensures p.Data? && |p.payload| <= BlockSize ==> n <= DatagramSize
    ensures p.Data? ==> (n == DatagramSize <==> |p.payload| == BlockSize)
  {
    if p.Data? then HeaderSize + |p.payload| else HeaderSize
  }

  /** The Acks answering a list of block numbers, one for one, in order. */
  function AcksFor(blocks: seq<u16>): (acks: seq<Packet>)
    ensures |acks| == |blocks|
  {
    seq(|blocks|, i requires 0 <= i < |blocks| => Ack(blocks[i]))
  }

  /** The Ack of the first block number comes first. */
  lemma AcksForCons(blocks: seq<u16>)
    requires |blocks| > 0
    ensures AcksFor(blocks) == [Ack(blocks[0])] + AcksFor(blocks[1..])
  {
  }

  /** The block numbers a list of Data packets carries. */
  function BlockNumbers(pkts: seq<Packet>): (bs: seq<u16>)
    requires forall i :: 0 <= i < |pkts| ==> pkts[i].Data?
    ensures |bs| == |pkts|
  {
    seq(|pkts|, i requires 0 <= i < |pkts| => pkts[i].block)
  }

  /** Appending one Data packet appends the Ack of its block number. */
  lemma AcksForSnoc(pkts: seq<Packet>, p: Packet)
    requires forall i :: 0 <= i < |pkts| ==> pkts[i].Data?
    requires p.Data?
    ensures AcksFor(BlockNumbers(pkts + [p])) == AcksFor(BlockNumbers(pkts)) + [Ack(p.block)]
  {
    var ps := pkts + [p];
    assert BlockNumbers(ps) == BlockNumbers(pkts) + [p.block];
  }

  /** Reference framing of a payload into Data payloads: full 512-byte
      pieces followed by one shorter piece, which is empty when the length
      is a multiple of 512 (section 6 of RFC 1350: a block under 512 bytes
      ends the transfer). */
  function Split(p: seq<byte>): (pieces: seq<seq<byte>>)
    ensures |pieces| >= 1
    ensures forall i :: 0 <= i < |pieces| ==> |pieces[i]| <= BlockSize
    decreases |p|
  {
    if |p| < BlockSize then [p] else [p[..BlockSize]] + Split(p[BlockSize..])
  }

  /** The pieces glued back together, in order. */
  function Concat(pieces: seq<seq<byte>>): seq<byte>
  {
    if pieces == [] then [] else pieces[0] + Concat(pieces[1..])
  }

  lemma {:induction false} SplitLength(p: seq<byte>)
    ensures |Split(p)| == |p| / BlockSize + 1
    decreases |p|
  {
    if |p| >= BlockSize {
      SplitLength(p[BlockSize..]);
    }
  }

  /** Piece `j` is what `Chunk` takes at offset `j * 512`: the reference
      framing and the reader-based marshalling agree. */
  lemma {:induction false} SplitChunk(p: seq<byte>, j: nat)
    requires j < |Split(p)|
    ensures j * BlockSize <= |p|
    ensures Split(p)[j] == Chunk(p, j * BlockSize)
    decreases |p|
  {
    if |p| >= BlockSize && j > 0 {
      SplitChunk(p[BlockSize..], j - 1);
      assert Split(p)[j] == Split(p[BlockSize..])[j - 1];
      assert (j - 1) * BlockSize + BlockSize == j * BlockSize;
    }
  }

  /** Every piece but the last is full and the last is short. */
  lemma {:induction false} SplitShape(p: seq<byte>, j: nat)
    requires j < |Split(p)|
    ensures j < |Split(p)| - 1 ==> |Split(p)[j]| == BlockSize
    ensures j == |Split(p)| - 1 ==> |Split(p)[j]| < BlockSize
    decreases |p|
  {
    if |p| >= BlockSize && j > 0 {
      SplitShape(p[BlockSize..], j - 1);
    }
  }

  /** Gluing the pieces back together gives the payload byte for byte. */
  lemma {:induction false} ConcatSplit(p: seq<byte>)
    ensures Concat(Split(p)) == p
    decreases |p|
  {
    if |p| >= BlockSize {
      ConcatSplit(p[BlockSize..]);
      assert p == p[..BlockSize] + p[BlockSize..];
    }
  }
}
