/** Whole transfers: the read session against the client of the
    repository's read test, and the write session fed with an upload
    framed the same way the read session frames its payload. */
module Transfer {
  import opened Packets
  import ReadSession
  import WriteSession

  /** The client loop of `TestReadServer` (server_test.go): what it has
      copied so far, the Acks it wrote, and whether it has stopped. */
  datatype Client = Client(received: seq<byte>, acks: seq<Packet>, finished: bool)

  /** One iteration of the test client: copy the Data payload, ack its
      block, stop after a datagram shorter than `DatagramSize`. */
  function ClientReceive(c: Client, pkt: Packet): (r: Client)
    requires pkt.Data?
    ensures r.finished <==> |pkt.payload| < BlockSize
    ensures c.received <= r.received && r.received[|c.received|..] == pkt.payload
    ensures |r.acks| == |c.acks| + 1 && r.acks[..|c.acks|] == c.acks
    ensures r.acks[|c.acks|] == Ack(pkt.block)
  {
    Client(c.received + pkt.payload, c.acks + [Ack(pkt.block)], WireLength(pkt) < DatagramSize)
  }

  /** The test client run over a list of Data packets: it takes them in
      order until it has stopped. */
  function ClientRun(c: Client, pkts: seq<Packet>): (r: Client)
    requires forall i :: 0 <= i < |pkts| ==> pkts[i].Data?
    ensures c.finished ==> r == c
    ensures c.received <= r.received && c.acks <= r.acks
    decreases |pkts|
  {
    if c.finished || pkts == [] then c
    else ClientRun(ClientReceive(c, pkts[0]), pkts[1..])
  }

  /** The replies the test client writes for a list of Data packets, as
      the read session observes them. */
  function AckEvents(pkts: seq<Packet>): (evs: seq<ReadSession.Event>)
    requires forall i :: 0 <= i < |pkts| ==> pkts[i].Data?
    ensures |evs| == |pkts|
    ensures forall i :: 0 <= i < |pkts| ==> evs[i] == ReadSession.AckRecv(pkts[i].block)
  {
    seq(|pkts|, i requires 0 <= i < |pkts| => ReadSession.AckRecv(pkts[i].block))
  }

  /** Where a lossless read session of `payload` ends: completed on the
      last block, numbered |payload| / 512 + 1 modulo 65536, with its whole
      retry budget. */
  function Done(payload: seq<byte>, retries: u8): (st: ReadSession.State)
    ensures st.phase == ReadSession.Complete && st.retriesLeft == retries
    ensures ReadSession.Valid(payload, retries, st)
  {
    ReadSession.State((|payload| / BlockSize + 1) % 0x1_0000, |payload| / BlockSize * BlockSize, retries, ReadSession.Complete)
  }

  /** One iteration of the exchange, on the session's side: the Ack of
      the current block moves the session to the next block with its
      budget restored, or completes it on the last block. */
  lemma AckedStep(payload: seq<byte>, retries: u8, st: ReadSession.State)
    returns (next: ReadSession.State)
    requires ReadSession.Valid(payload, retries, st) && st.phase == ReadSession.Sending
    requires st.retriesLeft == retries
    ensures next == ReadSession.Step(payload, retries, st, ReadSession.AckRecv(ReadSession.Current(payload, st).block)).0
    ensures next.phase == ReadSession.Sending || next.phase == ReadSession.Complete
    ensures next.phase == ReadSession.Sending ==>
      next.cursor == st.cursor + BlockSize && next.retriesLeft == retries
    ensures next.phase == ReadSession.Complete ==> next == Done(payload, retries)
    ensures ReadSession.Valid(payload, retries, next)
  {
    var pkt := ReadSession.Current(payload, st);
    next := ReadSession.Step(payload, retries, st, ReadSession.AckRecv(pkt.block)).0;
    if next.phase == ReadSession.Complete {
      assert st.cursor / BlockSize * BlockSize == st.cursor;
      assert |payload| / BlockSize == st.cursor / BlockSize;
    }
  }

  /** From any block, with a full budget, the test client's Acks drive the
      session through the remaining blocks, each written once, to `Done`. */
  lemma {:induction false} RunAcked(payload: seq<byte>, retries: u8, st: ReadSession.State)
    requires ReadSession.Valid(payload, retries, st) && st.phase == ReadSession.Sending
    requires st.retriesLeft == retries
    ensures st.cursor / BlockSize < |ReadSession.Blocks(payload)|
    ensures var rest := ReadSession.Blocks(payload)[st.cursor / BlockSize..];
      ReadSession.Run(payload, retries, st, AckEvents(rest)) == ReadSession.Outcome(Done(payload, retries), rest)
    decreases |payload| - st.cursor
  {
    var bs := ReadSession.Blocks(payload);
    var j := st.cursor / BlockSize;
    ReadSession.BlockAt(payload, retries, st);
    var pkt := ReadSession.Current(payload, st);
    var evs := AckEvents(bs[j..]);
    assert evs[0] == ReadSession.AckRecv(pkt.block);
    var next := AckedStep(payload, retries, st);
    if next.phase == ReadSession.Sending {
      RunAcked(payload, retries, next);
      assert next.cursor / BlockSize == j + 1;
      assert evs[1..] == AckEvents(bs[j + 1..]);
      assert bs[j..] == [pkt] + bs[j + 1..];
    } else {
      SplitLength(payload);
      assert j + 1 == |bs|;
      assert bs[j..] == [pkt];
    }
  }

  /** The session side of the lock-step exchange: fed the Acks the test
      client writes, a session with any positive budget writes every block
      of the framing exactly once and completes. */
  lemma AckedRunCompletes(payload: seq<byte>, retries: u8)
    requires retries >= 1
    ensures var bs := ReadSession.Blocks(payload);
      ReadSession.Run(payload, retries, ReadSession.Init(payload, retries), AckEvents(bs))
        == ReadSession.Outcome(Done(payload, retries), bs)
  {
    RunAcked(payload, retries, ReadSession.Init(payload, retries));
    assert ReadSession.Blocks(payload)[0..] == ReadSession.Blocks(payload);
  }

  /** One iteration of the exchange, on the client's side. */
  lemma ClientStep(c: Client, bs: seq<Packet>, j: nat)
    requires forall i :: 0 <= i < |bs| ==> bs[i].Data?
    requires j < |bs| && !c.finished
    ensures ClientRun(c, bs[j..]) == ClientRun(ClientReceive(c, bs[j]), bs[j + 1..])
  {
    assert bs[j..][1..] == bs[j + 1..];
  }

  /** The test client after block `j`: it has copied the bytes of blocks
      0 .. j, acked each with its own number, and stops exactly when
      block `j` is the last. */
  lemma ClientAdvance(payload: seq<byte>, j: nat)
    requires j < |ReadSession.Blocks(payload)|
    ensures j * BlockSize <= |payload|
    ensures var bs := ReadSession.Blocks(payload);
      var k := j * BlockSize + |bs[j].payload|;
      && k <= |payload|
      && (j + 1 < |bs| ==> k == (j + 1) * BlockSize)
      && (j + 1 == |bs| ==> k == |payload|)
      && ClientReceive(Client(payload[..j * BlockSize], AcksFor(BlockNumbers(bs[..j])), false), bs[j])
         == Client(payload[..k], AcksFor(BlockNumbers(bs[..j + 1])), j + 1 == |bs|)
  {
    var bs := ReadSession.Blocks(payload);
    SplitLength(payload);
    SplitChunk(payload, j);
    SplitShape(payload, j);
    var piece := bs[j].payload;
    var k := j * BlockSize + |piece|;
    assert piece == payload[j * BlockSize..k];
    assert payload[..j * BlockSize] + piece == payload[..k];
    assert bs[..j + 1] == bs[..j] + [bs[j]];
    AcksForSnoc(bs[..j], bs[j]);
  }

  /** A client that has copied the first `j` blocks and acked each of them
      copies the rest, acks each, and stops on the last. */
  lemma {:induction false} ClientFrom(payload: seq<byte>, j: nat)
    requires j < |ReadSession.Blocks(payload)|
    ensures j * BlockSize <= |payload|
    ensures var bs := ReadSession.Blocks(payload);
      ClientRun(Client(payload[..j * BlockSize], AcksFor(BlockNumbers(bs[..j])), false), bs[j..])
        == Client(payload, AcksFor(BlockNumbers(bs)), true)
    decreases |ReadSession.Blocks(payload)| - j
  {
    var bs := ReadSession.Blocks(payload);
    ClientAdvance(payload, j);
    ClientStep(Client(payload[..j * BlockSize], AcksFor(BlockNumbers(bs[..j])), false), bs, j);
    if j + 1 < |bs| {
      ClientFrom(payload, j + 1);
    } else {
      assert payload[..|payload|] == payload;
      assert bs[..j + 1] == bs;
    }
  }

  /** The client side of the lock-step exchange: fed the framing, the test
      client rebuilds the payload byte for byte, acks every block with its
      own number and stops on the last block. */
  lemma ClientRebuilds(payload: seq<byte>)
    ensures var bs := ReadSession.Blocks(payload);
      ClientRun(Client([], [], false), bs) == Client(payload, AcksFor(BlockNumbers(bs)), true)
  {
    var bs := ReadSession.Blocks(payload);
    SplitLength(payload);
    ClientFrom(payload, 0);
    assert payload[..0] == [] && bs[..0] == [] && bs[0..] == bs;
  }

  /** Where the lock-step exchange stands: while the session is sending
      block `j`, the client holds the bytes of blocks 0 .. j-1 and has
      acked each of them; once it is Complete, everything went out. */
  ghost predicate InLockstep(payload: seq<byte>, retries: u8, st: ReadSession.State,
                             client: Client, sent: seq<Packet>)
  {
    var bs := ReadSession.Blocks(payload);
    && ReadSession.Valid(payload, retries, st)
    && (st.phase == ReadSession.Sending || st.phase == ReadSession.Complete)
    && (st.phase == ReadSession.Sending ==>
        && st.cursor / BlockSize < |bs|
        && st.cursor == st.cursor / BlockSize * BlockSize
        && st.retriesLeft == retries
        && sent == bs[..st.cursor / BlockSize]
        && client == Client(payload[..st.cursor], AcksFor(BlockNumbers(sent)), false))
    && (st.phase == ReadSession.Complete ==>
        && st == Done(payload, retries)
        && sent == bs
        && client == Client(payload, AcksFor(BlockNumbers(bs)), true))
  }

  /** One round of the exchange: the session sends its current block, the
      client copies it and acks it, and the session steps on that Ack. */
  lemma LockstepRound(payload: seq<byte>, retries: u8, st: ReadSession.State,
                      client: Client, sent: seq<Packet>)
    requires InLockstep(payload, retries, st, client, sent) && st.phase == ReadSession.Sending
    ensures var pkt := ReadSession.Current(payload, st);
      var next := ReadSession.Step(payload, retries, st, ReadSession.AckRecv(pkt.block)).0;
      && InLockstep(payload, retries, next, ClientReceive(client, pkt), sent + [pkt])
      && (next.phase == ReadSession.Sending ==> next.cursor > st.cursor)
  {
    var bs := ReadSession.Blocks(payload);
    var pkt := ReadSession.Current(payload, st);
    ReadSession.BlockAt(payload, retries, st);
    var j := st.cursor / BlockSize;
    var next := AckedStep(payload, retries, st);
    ClientAdvance(payload, j);
    assert bs[..j + 1] == bs[..j] + [pkt];
    if next.phase == ReadSession.Complete {
      assert payload[..|payload|] == payload;
      assert bs[..j + 1] == bs;
    } else {
      assert next.cursor / BlockSize == j + 1;
    }
  }

  /** The framing as the test reads it: `|payload| / 512 + 1` Data packets
      numbered 1, 2, ... modulo 65536, all full but the last, which is short. */
  lemma FramingShape(payload: seq<byte>)
    ensures var bs := ReadSession.Blocks(payload);
      && |bs| == |payload| / BlockSize + 1
      && (forall i :: 0 <= i < |bs| ==> bs[i].block == (i + 1) % 0x1_0000)
      && (forall i :: 0 <= i < |bs| - 1 ==> |bs[i].payload| == BlockSize)
      && |bs[|bs| - 1].payload| < BlockSize
  {
    var bs := ReadSession.Blocks(payload);
    SplitLength(payload);
    forall i | 0 <= i < |bs|
      ensures bs[i].block == (i + 1) % 0x1_0000
      ensures i < |bs| - 1 ==> |bs[i].payload| == BlockSize
      ensures i == |bs| - 1 ==> |bs[i].payload| < BlockSize
    {
      SplitShape(payload, i);
    }
  }

  /** A lossless lock-step exchange between the read session and the test
      client, driven until the session ends. Running the session on the
      client's Acks writes exactly `sent` and ends in `final`, which is
      Complete; the client, fed `sent`, rebuilds the payload byte for byte.
      Exactly `|payload| / 512 + 1` Data packets went out, block numbers
      1, 2, ... modulo 65536, the last one short (empty when the length is
      a multiple of 512). */
  method LockstepRead(payload: seq<byte>, retries: u8)
    returns (client: Client, sent: seq<Packet>, final: ReadSession.State)
    requires retries >= 1
    ensures sent == ReadSession.Blocks(payload)
    ensures |sent| == |payload| / BlockSize + 1
    ensures forall i :: 0 <= i < |sent| ==> sent[i].Data? && sent[i].block == (i + 1) % 0x1_0000
    ensures ReadSession.Run(payload, retries, ReadSession.Init(payload, retries), AckEvents(sent))
         == ReadSession.Outcome(final, sent)
    ensures ClientRun(Client([], [], false), sent) == client
    ensures final.phase == ReadSession.Complete
    ensures client.finished && client.received == payload
    ensures forall i :: 0 <= i < |sent| - 1 ==> |sent[i].payload| == BlockSize
    ensures |sent[|sent| - 1].payload| < BlockSize
    ensures client.acks == AcksFor(BlockNumbers(sent))
  {
    var st := ReadSession.Init(payload, retries);
    client := Client([], [], false);
    sent := [];
    SplitLength(payload);
    assert payload[..0] == [] && ReadSession.Blocks(payload)[..0] == [];
    while st.phase == ReadSession.Sending
      invariant InLockstep(payload, retries, st, client, sent)
      decreases |payload| - st.cursor, if st.phase == ReadSession.Sending then 1 else 0
    {
      var pkt := ReadSession.Current(payload, st);
      LockstepRound(payload, retries, st, client, sent);
      st := ReadSession.Step(payload, retries, st, ReadSession.AckRecv(pkt.block)).0;
      client := ClientReceive(client, pkt);
      sent := sent + [pkt];
    }
    final := st;
    FramingShape(payload);
    AckedRunCompletes(payload, retries);
    ClientRebuilds(payload);
  }

  /** What `data` pads the payload of a shorter datagram to: the bytes the
      receive buffer still holds past `n` (zero here; any value works). */
  function Pad(piece: seq<byte>): (t: WriteSession.Tail)
    requires |piece| <= BlockSize
    ensures t[..|piece|] == piece
  {
    piece + seq(BlockSize - |piece|, _ => 0)
  }

  /** The datagrams of an upload of `content`, framed and numbered as a
      read session frames its payload, each stored and acked. */
  function Upload(content: seq<byte>): (evs: seq<WriteSession.Event>)
    ensures |evs| == |ReadSession.Blocks(content)|
  {
    var bs := ReadSession.Blocks(content);
    seq(|bs|, i requires 0 <= i < |bs| =>
      WriteSession.Recv(HeaderSize + |bs[i].payload|, WriteSession.AsData(bs[i].block, Pad(bs[i].payload)), WriteSession.Stored))
  }

  lemma {:induction false} AppendedUpload(content: seq<byte>, k: nat)
    requires k <= |Upload(content)|
    ensures WriteSession.Appended(Upload(content)[k..]) == Concat(Split(content)[k..])
    decreases |Upload(content)| - k
  {
    var evs := Upload(content);
    if k < |evs| {
      AppendedUpload(content, k + 1);
      assert evs[k..][1..] == evs[k + 1..];
      assert Split(content)[k..][1..] == Split(content)[k + 1..];
      assert WriteSession.Contribution(evs[k]) == Split(content)[k];
    } else {
      assert Split(content)[k..] == [];
    }
  }

  /** The write session inverts the framing: an upload of any content,
      followed by anything at all, completes the session with the file
      equal to the content, each block acked with its own number. */
  lemma UploadRoundTrip(content: seq<byte>, later: seq<WriteSession.Event>)
    ensures var begin := WriteSession.Begin(true, true);
      var evs := Upload(content);
      && WriteSession.CleanUpload(evs)
      && WriteSession.Run(begin.state, evs + later)
           == WriteSession.Outcome(WriteSession.State(content, WriteSession.Complete),
                                   AcksFor(BlockNumbers(ReadSession.Blocks(content))), |evs|)
    ensures var evs := Upload(content);
      WriteSession.Session(true, true, evs + later)
        == WriteSession.Outcome(WriteSession.State(content, WriteSession.Complete),
                                [Ack(0)] + AcksFor(BlockNumbers(ReadSession.Blocks(content))), |evs|)
  {
    var evs := Upload(content);
    var bs := ReadSession.Blocks(content);
    forall i | 0 <= i < |evs|
      ensures WriteSession.Accepted(evs[i]) && evs[i].sink == WriteSession.Stored
      ensures i < |evs| - 1 ==> evs[i].n == DatagramSize
      ensures i == |evs| - 1 ==> evs[i].n < DatagramSize
    {
      SplitShape(content, i);
    }
    assert WriteSession.CleanUpload(evs);
    WriteSession.CleanUploadCompletes(WriteSession.State([], WriteSession.Receiving), evs, later);
    AppendedUpload(content, 0);
    assert evs[0..] == evs;
    assert Split(content)[0..] == Split(content);
    ConcatSplit(content);
    assert WriteSession.Carried(evs) == BlockNumbers(bs);
  }
}
