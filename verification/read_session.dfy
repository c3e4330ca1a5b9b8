/** `handleRead`: the stop-and-wait sender of one read transfer
    (sections 2 and 6 of RFC 1350), as a step function over abstract
    events. One step is one iteration of the `RETRY` loop: write the
    current Data datagram, then wait for one reply. */
module ReadSession {
  import opened Packets

  /** What one iteration of the retry loop observes. */
  datatype Event =
    | Timeout              // conn.Read passed the read deadline
    | AckRecv(block: u16)  // the reply decodes as an Ack
    | ErrRecv              // the reply decodes as an Err packet
    | Garbage              // the reply decodes as neither
    | ReadFailure          // conn.Read failed other than by a timeout
    | WriteFailure         // conn.Write failed, so nothing went out

  datatype Abort = RetriesExhausted | PeerError | WriteFailed | ReadFailed

  datatype Phase = Sending | Complete | Aborted(why: Abort)

  /** `block` is `dataPkt.Block` after the last `MarshalBinary`, `cursor` the
      offset of the current block's first byte in the payload, and
      `retriesLeft` the retry loop's counter `i`. */
  datatype State = State(block: u16, cursor: nat, retriesLeft: nat, phase: Phase)

  /** The states the session can be in while serving `payload` with a
      retry budget of `retries`: the cursor sits on a block boundary, the
      block number is the 1-based ordinal of that block modulo 65536, and a
      completed session stopped on the short final block. */
  predicate Valid(payload: seq<byte>, retries: u8, st: State)
  {
    && st.cursor <= |payload|
    && st.cursor % BlockSize == 0
    && st.block == (st.cursor / BlockSize + 1) % 0x1_0000
    && st.retriesLeft <= retries
    && (st.phase == Sending ==> st.retriesLeft >= 1)
    && (st.phase == Complete ==> |payload| < st.cursor + BlockSize)
  }

  /** The datagram the session (re)transmits in state `st`: the bytes
      `data` built by the last `MarshalBinary`. */
  function Current(payload: seq<byte>, st: State): Packet
    requires st.cursor <= |payload|
  {
    Data(st.block, Chunk(payload, st.cursor))
  }

  /** Lines 110-125: the first `MarshalBinary` numbers the first block 1;
      a zero retry budget ends the session before anything is sent. */
  function Init(payload: seq<byte>, retries: u8): (st: State)
    ensures Valid(payload, retries, st)
    ensures st.block == 1 && st.cursor == 0
    ensures st.phase == Sending <==> retries > 0
    ensures st.phase == Sending ==> st.retriesLeft == retries
  {
    if retries == 0 then State(1, 0, 0, Aborted(RetriesExhausted))
    else State(1, 0, retries, Sending)
  }

  /** The events after which the loop falls through its `switch` and
      spends one retry: a timeout, an undecodable reply, and an Ack for any
      block but the current one. */
  predicate Retransmits(st: State, ev: Event)
  {
    ev.Timeout? || ev.Garbage? || (ev.AckRecv? && ev.block != st.block)
  }

  lemma NextOrdinal(c: nat)
    requires c % BlockSize == 0
    ensures (c + BlockSize) % BlockSize == 0
    ensures NextBlock((c / BlockSize + 1) % 0x1_0000) == ((c + BlockSize) / BlockSize + 1) % 0x1_0000
  {
  }

  /** Lines 125-159: one iteration of the retry loop. Only the Ack of the
      current block moves on; after the Ack of a short block the session
      is complete; every other reply keeps the block and the cursor. */
  function Step(payload: seq<byte>, retries: u8, st: State, ev: Event): (r: (State, Option<Packet>))
    requires Valid(payload, retries, st) && st.phase == Sending
    ensures Valid(payload, retries, r.0)
    ensures r.1 == (if ev == WriteFailure then None else Some(Current(payload, st)))
    ensures r.0.cursor != st.cursor <==> ev == AckRecv(st.block) && |Chunk(payload, st.cursor)| == BlockSize
    ensures r.0.cursor != st.cursor ==>
      r.0 == State(NextBlock(st.block), st.cursor + BlockSize, retries, Sending)
    ensures r.0.cursor == st.cursor ==> r.0.block == st.block
    ensures r.0.cursor == st.cursor ==> Current(payload, r.0) == Current(payload, st)
    ensures r.0.phase == Aborted(WriteFailed) <==> ev == WriteFailure
    ensures r.0.phase == Aborted(ReadFailed) <==> ev == ReadFailure
    ensures r.0.phase == Complete <==> ev == AckRecv(st.block) && |Chunk(payload, st.cursor)| < BlockSize
    ensures r.0.phase == Aborted(PeerError) <==> ev == ErrRecv
    ensures r.0.phase == Aborted(RetriesExhausted) <==> Retransmits(st, ev) && st.retriesLeft == 1
    ensures Retransmits(st, ev) ==> r.0.retriesLeft == st.retriesLeft - 1
  {
    var sent := Some(Current(payload, st));
    match ev
    case WriteFailure => (st.(phase := Aborted(WriteFailed)), None)
    case ReadFailure => (st.(phase := Aborted(ReadFailed)), sent)
    case ErrRecv => (st.(phase := Aborted(PeerError)), sent)
    case AckRecv(b) =>
      if b == st.block then
        if |Chunk(payload, st.cursor)| == BlockSize then
          NextOrdinal(st.cursor);
          (State(NextBlock(st.block), st.cursor + BlockSize, retries, Sending), sent)
        else (st.(phase := Complete), sent)
      else (Retry(st), sent)
    case Timeout => (Retry(st), sent)
    case Garbage => (Retry(st), sent)
  }

  /** Spend one retry; running out ends the session ("exhausted retries"). */
  function Retry(st: State): State
    requires st.retriesLeft >= 1
  {
    if st.retriesLeft == 1 then st.(retriesLeft := 0, phase := Aborted(RetriesExhausted))
    else st.(retriesLeft := st.retriesLeft - 1)
  }

  /** The final state of a session and every datagram it wrote. */
  datatype Outcome = Outcome(state: State, sent: seq<Packet>)

  /** Feed events to the session until it ends or the events run out. */
  function Run(payload: seq<byte>, retries: u8, st: State, evs: seq<Event>): (r: Outcome)
    requires Valid(payload, retries, st)
    ensures Valid(payload, retries, r.state)
    ensures st.cursor <= r.state.cursor
    ensures |r.sent| <= |evs|
    ensures st.phase != Sending ==> r == Outcome(st, [])
    decreases |evs|
  {
    if st.phase != Sending || evs == [] then Outcome(st, [])
    else
      var (next, out) := Step(payload, retries, st, evs[0]);
      var rest := Run(payload, retries, next, evs[1..]);
      Outcome(rest.state, (if out.Some? then [out.value] else []) + rest.sent)
  }

  /** A session that has ended sends nothing more, whatever arrives later. */
  lemma {:induction false} RunQuietAfterEnd(payload: seq<byte>, retries: u8, st: State, evs: seq<Event>, later: seq<Event>)
    requires Valid(payload, retries, st)
    requires Run(payload, retries, st, evs).state.phase != Sending
    ensures Run(payload, retries, st, evs + later) == Run(payload, retries, st, evs)
    decreases |evs|
  {
    if st.phase == Sending {
      if evs == [] {
        assert false;
      }
      assert (evs + later)[0] == evs[0];
      assert (evs + later)[1..] == evs[1..] + later;
      var (next, _) := Step(payload, retries, st, evs[0]);
      RunQuietAfterEnd(payload, retries, next, evs[1..], later);
    }
  }

  /** If `retriesLeft` replies in a row are timeouts, junk or stale Acks,
      the same datagram goes out exactly that many times and the session
      ends with "exhausted retries", without moving on. */
  lemma {:induction false} ExhaustsRetries(payload: seq<byte>, retries: u8, st: State, evs: seq<Event>)
    requires Valid(payload, retries, st) && st.phase == Sending
    requires |evs| == st.retriesLeft
    requires forall i :: 0 <= i < |evs| ==> Retransmits(st, evs[i])
    ensures Run(payload, retries, st, evs)
      == Outcome(st.(retriesLeft := 0, phase := Aborted(RetriesExhausted)),
                 seq(|evs|, _ => Current(payload, st)))
    decreases |evs|
  {
    var (next, out) := Step(payload, retries, st, evs[0]);
    if st.retriesLeft == 1 {
      assert next == st.(retriesLeft := 0, phase := Aborted(RetriesExhausted));
    } else {
      assert next == st.(retriesLeft := st.retriesLeft - 1);
      forall i | 0 <= i < |evs[1..]|
        ensures Retransmits(next, evs[1..][i])
      {
        assert evs[1..][i] == evs[i + 1];
      }
      ExhaustsRetries(payload, retries, next, evs[1..]);
      assert next.(retriesLeft := 0, phase := Aborted(RetriesExhausted))
          == st.(retriesLeft := 0, phase := Aborted(RetriesExhausted));
    }
  }

  /** An Err packet from the peer ends the session at once: the datagram
      written in that iteration is the last one, and the block does not
      advance. */
  lemma PeerErrorEnds(payload: seq<byte>, retries: u8, st: State, later: seq<Event>)
    requires Valid(payload, retries, st) && st.phase == Sending
    ensures Run(payload, retries, st, [ErrRecv] + later)
      == Outcome(st.(phase := Aborted(PeerError)), [Current(payload, st)])
  {
  }

  /** A session still sending has used every event, and each of them
      wrote one datagram: the loop waits for no other signal to go on. */
  lemma {:induction false} RunSendsEveryStep(payload: seq<byte>, retries: u8, st: State, evs: seq<Event>)
    requires Valid(payload, retries, st) && st.phase == Sending
    ensures var r := Run(payload, retries, st, evs);
      r.state.phase == Sending ==> |r.sent| == |evs|
    decreases |evs|
  {
    if evs != [] {
      var (next, _) := Step(payload, retries, st, evs[0]);
      if next.phase == Sending {
        RunSendsEveryStep(payload, retries, next, evs[1..]);
      }
    }
  }

  // ---------------------------------------------------------------------
  // The whole trace of datagrams one session writes.

  /** The Data packets of a complete transfer: the reference framing,
      numbered 1, 2, 3, ... modulo 65536. */
  function Blocks(payload: seq<byte>): (bs: seq<Packet>)
    ensures forall i :: 0 <= i < |bs| ==> bs[i].Data? && |bs[i].payload| <= BlockSize
  {
    var pieces := Split(payload);
    seq(|pieces|, j requires 0 <= j < |pieces| => Data((j + 1) % 0x1_0000, pieces[j]))
  }

  /** Length of the run of equal datagrams that ends at index `i`. */
  function RunLength(t: seq<Packet>, i: nat): (n: nat)
    requires i < |t|
    ensures 1 <= n <= i + 1
  {
    if i == 0 || t[i] != t[i - 1] then 1 else RunLength(t, i - 1) + 1
  }

  /** No datagram is written more than `k` times in a row. */
  predicate RunsAtMost(t: seq<Packet>, k: nat)
  {
    forall i :: 0 <= i < |t| ==> RunLength(t, i) <= k
  }

  /** The trace with each run of repeated datagrams collapsed to one:
      what a client sees once retransmissions are discarded. */
  function Dedup(t: seq<Packet>): (d: seq<Packet>)
    ensures |d| <= |t|
    decreases |t|
  {
    if |t| <= 1 then t
    else if t[|t| - 1] == t[|t| - 2] then Dedup(t[..|t| - 1])
    else Dedup(t[..|t| - 1]) + [t[|t| - 1]]
  }

  lemma {:induction false} RunLengthPrefix(t: seq<Packet>, x: Packet, i: nat)
    requires i < |t|
    ensures RunLength(t + [x], i) == RunLength(t, i)
  {
    if i > 0 && t[i] == t[i - 1] {
      RunLengthPrefix(t, x, i - 1);
    }
  }

  /** Block `j` of the reference framing is the datagram a valid state at
      that block transmits, and consecutive blocks differ. */
  lemma BlockAt(payload: seq<byte>, retries: u8, st: State)
    requires Valid(payload, retries, st)
    ensures st.cursor / BlockSize < |Blocks(payload)|
    ensures Blocks(payload)[st.cursor / BlockSize] == Current(payload, st)
    ensures st.cursor / BlockSize + 1 < |Blocks(payload)| ==>
      Blocks(payload)[st.cursor / BlockSize + 1] != Current(payload, st)
  {
    var j := st.cursor / BlockSize;
    SplitLength(payload);
    SplitChunk(payload, j);
    assert j * BlockSize == st.cursor;
  }

  /** What a trace `t` says about block `j` of the framing `bs`, whose
      datagram is `x`: no run is longer than the budget `retries`, the
      deduplicated trace is the framing up to block `j` (included once `x`
      was sent), and while sending the trailing run of `x` and the retries
      left `left` add up to at most the budget. */
  predicate TraceAt(t: seq<Packet>, bs: seq<Packet>, j: nat, x: Packet, retries: nat, sending: bool, left: nat)
    requires j < |bs|
  {
    && RunsAtMost(t, retries)
    && if |t| > 0 && t[|t| - 1] == x then
         && Dedup(t) == bs[..j + 1]
         && (sending ==> RunLength(t, |t| - 1) + left <= retries)
       else
         && Dedup(t) == bs[..j]
         && (sending ==> left == retries)
  }

  /** Writing `x` once more, with at least one retry left. */
  lemma TraceAppend(t: seq<Packet>, bs: seq<Packet>, j: nat, x: Packet, retries: nat, left: nat)
    requires j < |bs| && bs[j] == x && left >= 1
    requires TraceAt(t, bs, j, x, retries, true, left)
    ensures TraceAt(t + [x], bs, j, x, retries, true, left - 1)
    ensures TraceAt(t + [x], bs, j, x, retries, false, left)
    ensures j + 1 < |bs| && bs[j + 1] != x ==> TraceAt(t + [x], bs, j + 1, bs[j + 1], retries, true, retries)
  {
    var t' := t + [x];
    assert t'[..|t|] == t;
    forall i | 0 <= i < |t|
      ensures RunLength(t', i) <= retries
    {
      RunLengthPrefix(t, x, i);
    }
    if |t| > 0 && t[|t| - 1] == x {
      RunLengthPrefix(t, x, |t| - 1);
      assert RunLength(t', |t|) == RunLength(t, |t| - 1) + 1;
    } else {
      assert RunLength(t', |t|) == 1;
      assert bs[..j + 1] == bs[..j] + [x];
    }
    assert RunsAtMost(t', retries);
    assert Dedup(t') == bs[..j + 1];
  }

  /** What the trace written so far says about the session state `st`. */
  predicate Tracks(payload: seq<byte>, retries: u8, t: seq<Packet>, st: State)
    requires Valid(payload, retries, st)
  {
    var j := st.cursor / BlockSize;
    && j < |Blocks(payload)|
    && (st.phase == Complete ==> |t| > 0 && t[|t| - 1] == Current(payload, st))
    && TraceAt(t, Blocks(payload), j, Current(payload, st), retries, st.phase == Sending, st.retriesLeft)
  }

  lemma StepTracks(payload: seq<byte>, retries: u8, t: seq<Packet>, st: State, ev: Event)
    requires Valid(payload, retries, st) && st.phase == Sending
    requires Tracks(payload, retries, t, st)
    ensures var r := Step(payload, retries, st, ev);
      Tracks(payload, retries, t + (if r.1.Some? then [r.1.value] else []), r.0)
  {
    var r := Step(payload, retries, st, ev);
    var next := r.0;
    var j := st.cursor / BlockSize;
    var bs := Blocks(payload);
    var x := Current(payload, st);
    BlockAt(payload, retries, st);
    if r.1.Some? {
      TraceAppend(t, bs, j, x, retries, st.retriesLeft);
      if next.cursor != st.cursor {
        BlockAt(payload, retries, next);
        assert next.cursor / BlockSize == j + 1;
      } else {
        assert Current(payload, next) == x;
      }
    } else {
      assert Current(payload, next) == x;
      assert t + [] == t;
    }
  }

  /** The trace so far extended by one step and then by the rest of the
      run, regrouped. Kept apart from `RunTracks`, whose context makes this
      sequence equality expensive. */
  lemma TraceRegroup(t: seq<Packet>, out: seq<Packet>, rest: seq<Packet>)
    ensures t + (out + rest) == (t + out) + rest
  {
  }

  /** One step of `Run`, unfolded, with what it does to the trace. */
  lemma RunCons(payload: seq<byte>, retries: u8, t: seq<Packet>, st: State, evs: seq<Event>)
    returns (next: State, out: seq<Packet>)
    requires Valid(payload, retries, st) && st.phase == Sending && evs != []
    requires Tracks(payload, retries, t, st)
    ensures Valid(payload, retries, next)
    ensures Tracks(payload, retries, t + out, next)
    ensures Run(payload, retries, st, evs)
      == Outcome(Run(payload, retries, next, evs[1..]).state, out + Run(payload, retries, next, evs[1..]).sent)
  {
    var step := Step(payload, retries, st, evs[0]);
    next := step.0;
    out := if step.1.Some? then [step.1.value] else [];
    StepTracks(payload, retries, t, st, evs[0]);
  }

  lemma {:induction false} RunTracks(payload: seq<byte>, retries: u8, t: seq<Packet>, st: State, evs: seq<Event>)
    requires Valid(payload, retries, st)
    requires Tracks(payload, retries, t, st)
    ensures var r := Run(payload, retries, st, evs);
      Tracks(payload, retries, t + r.sent, r.state)
    decreases |evs|
  {
    var r := Run(payload, retries, st, evs);
    if st.phase == Sending && evs != [] {
      var next, out := RunCons(payload, retries, t, st, evs);
      RunTracks(payload, retries, t + out, next, evs[1..]);
      var rest := Run(payload, retries, next, evs[1..]);
      TraceRegroup(t, out, rest.sent);
    } else {
      assert t + r.sent == t;
    }
  }

  /** Lines 117-163, over any sequence of events: every datagram written
      is a block of the reference framing, the blocks go out in order
      numbered 1, 2, 3, ... modulo 65536, none is skipped, none is written
      more than `retries` times in a row, and a completed session has sent
      all `|payload| / 512 + 1` blocks, ending with a short one. */
  lemma SessionTrace(payload: seq<byte>, retries: u8, evs: seq<Event>)
    ensures var r := Run(payload, retries, Init(payload, retries), evs);
      && RunsAtMost(r.sent, retries)
      && Dedup(r.sent) <= Blocks(payload)
      && (r.state.phase == Complete ==>
            && Dedup(r.sent) == Blocks(payload)
            && |Blocks(payload)| == |payload| / BlockSize + 1)
  {
    var st := Init(payload, retries);
    SplitLength(payload);
    BlockAt(payload, retries, st);
    assert Tracks(payload, retries, [], st);
    RunTracks(payload, retries, [], st, evs);
    var r := Run(payload, retries, st, evs);
    assert [] + r.sent == r.sent;
    var j := r.state.cursor / BlockSize;
    var bs := Blocks(payload);
    if r.state.phase == Complete {
      assert j + 1 == |bs|;
      assert bs[..j + 1] == bs;
    }
  }
}
