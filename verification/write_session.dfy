/** `handleWrite`: the receiving side of one write transfer (section 4 of
    RFC 1350). The session acknowledges the request with Ack(0), then
    appends the payload of every Data datagram to the file and
    acknowledges the block number it carried, until a datagram shorter
    than `DatagramSize` arrives. It checks neither order nor duplicates.
    The file is a byte sequence. */
module WriteSession {
  import opened Packets

  /** How many bytes one `conn.Read` into the 516-byte buffer returned. */
  type Length = n: nat | n <= DatagramSize

  /** The payload reader of a Data packet decoded from the receive buffer:
      the 512 bytes after the header, whatever part of them the last
      datagram actually filled. */
  type Tail = s: seq<byte> | |s| == BlockSize witness seq(BlockSize, _ => 0)

  /** How the whole 516-byte receive buffer decodes. The Err decoding is
      tried first (line 221); the opcode field makes the two exclusive. */
  datatype Decoded = AsErr | AsData(block: u16, tail: Tail) | Undecodable

  /** What becomes of an accepted payload: `file.Write` and then the Ack's
      `conn.Write` (lines 242-261). A failed file write is taken to have
      written nothing. */
  datatype Sink = Stored | FileWriteFailed | AckWriteFailed

  /** One iteration of the receive loop. */
  datatype Event = Recv(n: Length, d: Decoded, sink: Sink) | RecvFailure

  datatype Abort =
    | InitialAckFailed | CreateFailed | ReadFailed | PeerError
    | DecodeFailed | ShortDatagram | DiskFailed | AckFailed

  /** `Panicked` is reachable only by the code as written (see StepAsWritten). */
  datatype Phase = Receiving | Complete | Aborted(why: Abort) | Panicked

  datatype State = State(file: seq<byte>, phase: Phase)

  /** The final state, every Ack written, and how many events the session
      consumed before it ended. */
  datatype Outcome = Outcome(state: State, acks: seq<Packet>, consumed: nat)

  /** Lines 185-203: the zero-valued `ackPkt` goes out as Ack(0) before the
      file is created, so a creation failure still leaves the client acked. */
  function Begin(initialAckSent: bool, created: bool): (r: Outcome)
    ensures r.acks == (if initialAckSent then [Ack(0)] else [])
    ensures r.state.phase == Receiving <==> initialAckSent && created
    ensures r.state.file == [] && r.consumed == 0
  {
    if !initialAckSent then Outcome(State([], Aborted(InitialAckFailed)), [], 0)
    else if !created then Outcome(State([], Aborted(CreateFailed)), [Ack(0)], 0)
    else Outcome(State([], Receiving), [Ack(0)], 0)
  }

  /** A datagram too short to hold the 4-byte header, while the stale
      buffer still decodes as a Data packet. */
  predicate IsShortData(ev: Event)
  {
    ev.Recv? && ev.d.AsData? && ev.n < HeaderSize
  }

  /** A datagram whose payload the session takes: a decoded Data packet at
      least as long as the header that reaches the file. */
  predicate Accepted(ev: Event)
  {
    ev.Recv? && ev.d.AsData? && ev.n >= HeaderSize && ev.sink != FileWriteFailed
  }

  /** The bytes an accepted datagram contributes: the first `n - 4` of the
      decoded payload, the part this datagram actually filled. */
  function Contribution(ev: Event): (c: seq<byte>)
    ensures !Accepted(ev) ==> c == []
    ensures Accepted(ev) ==> |c| == ev.n - HeaderSize && c <= ev.d.tail
  {
    if Accepted(ev) then ev.d.tail[..ev.n - HeaderSize] else []
  }

  /** Lines 214-261 as written, with a failed file write taken to write
      nothing (see `Sink`), including the slice `data[:n-4]`, which panics
      at run time when `n < 4`. */
  function StepAsWritten(st: State, ev: Event): (r: (State, Option<Packet>))
    requires st.phase == Receiving
    ensures r.0.phase == Panicked <==> IsShortData(ev)
    ensures !IsShortData(ev) ==> r.0.file == st.file + Contribution(ev)
    ensures r.1.Some? <==> Accepted(ev) && ev.sink == Stored
    ensures r.1.Some? ==> r.1.value == Ack(ev.d.block)
  {
    match ev
    case RecvFailure => (st.(phase := Aborted(ReadFailed)), None)
    case Recv(n, d, sink) =>
      match d
      case AsErr => (st.(phase := Aborted(PeerError)), None)
      case Undecodable => (st.(phase := Aborted(DecodeFailed)), None)
      case AsData(b, tail) =>
        if n < HeaderSize then (st.(phase := Panicked), None)
        else match sink
          case FileWriteFailed => (st.(phase := Aborted(DiskFailed)), None)
          case AckWriteFailed => (State(st.file + tail[..n - HeaderSize], Aborted(AckFailed)), None)
          case Stored =>
            var phase := if n == DatagramSize then Receiving else Complete;
            (State(st.file + tail[..n - HeaderSize], phase), Some(Ack(b)))
  }

  /** The receive loop with the slice guarded: a datagram shorter than the
      header is refused like an undecodable one. Everywhere else it is the
      code as written. */
  function Step(st: State, ev: Event): (r: (State, Option<Packet>))
    requires st.phase == Receiving
    ensures r.0.phase != Panicked
    ensures r.0.file == st.file + Contribution(ev)
    ensures r.1.Some? <==> Accepted(ev) && ev.sink == Stored
    ensures r.1.Some? ==> r.1.value == Ack(ev.d.block)
    ensures r.0.phase == Receiving <==> Accepted(ev) && ev.sink == Stored && ev.n == DatagramSize
    ensures r.0.phase == Complete <==> Accepted(ev) && ev.sink == Stored && ev.n < DatagramSize
    ensures r.0.phase == Aborted(PeerError) <==> ev.Recv? && ev.d.AsErr?
    ensures !IsShortData(ev) ==> r == StepAsWritten(st, ev)
  {
    if IsShortData(ev) then (st.(phase := Aborted(ShortDatagram)), None)
    else StepAsWritten(st, ev)
  }

  /** Feed events to the session until it ends or the events run out. */
  function Run(st: State, evs: seq<Event>): (r: Outcome)
    ensures r.consumed <= |evs|
    ensures st.phase != Receiving ==> r == Outcome(st, [], 0)
    ensures r.state.phase != Panicked || st.phase == Panicked
    decreases |evs|
  {
    if st.phase != Receiving || evs == [] then Outcome(st, [], 0)
    else
      var (next, ack) := Step(st, evs[0]);
      var rest := Run(next, evs[1..]);
      Outcome(rest.state, (if ack.Some? then [ack.value] else []) + rest.acks, rest.consumed + 1)
  }

  /** The whole of `handleWrite` after the dial: `Begin`, then the receive
      loop. Ack(0) comes first exactly when it was written, and the loop
      reads nothing unless both the Ack and the file creation succeeded. */
  function Session(initialAckSent: bool, created: bool, evs: seq<Event>): (r: Outcome)
    ensures (|r.acks| >= 1 && r.acks[0] == Ack(0)) <==> initialAckSent
    ensures !initialAckSent ==> r.acks == []
    ensures !(initialAckSent && created) ==> r.consumed == 0 && r.state.phase.Aborted? && r.state.file == []
    ensures r.consumed <= |evs|
    ensures r.state.phase != Panicked
  {
    var begin := Begin(initialAckSent, created);
    var rest := Run(begin.state, evs);
    Outcome(rest.state, begin.acks + rest.acks, rest.consumed)
  }

  /** The same loop over the code as written. It panics only on a
      header-short Data datagram, and that datagram is the last one it
      consumes. */
  function RunAsWritten(st: State, evs: seq<Event>): (r: Outcome)
    ensures r.consumed <= |evs|
    ensures st.phase != Receiving ==> r == Outcome(st, [], 0)
    ensures r.state.phase == Panicked && st.phase != Panicked ==>
      r.consumed >= 1 && IsShortData(evs[r.consumed - 1])
    decreases |evs|
  {
    if st.phase != Receiving || evs == [] then Outcome(st, [], 0)
    else
      var (next, ack) := StepAsWritten(st, evs[0]);
      var rest := RunAsWritten(next, evs[1..]);
      Outcome(rest.state, (if ack.Some? then [ack.value] else []) + rest.acks, rest.consumed + 1)
  }

  /** Reference: the payload bytes of a list of datagrams, in order. */
  function Appended(evs: seq<Event>): seq<byte>
  {
    if evs == [] then [] else Contribution(evs[0]) + Appended(evs[1..])
  }

  /** The file is what the session had plus the in-order concatenation of
      the payloads of every datagram it consumed, duplicates and
      out-of-order blocks included. */
  lemma {:induction false} FileIsConcatenation(st: State, evs: seq<Event>)
    requires st.phase == Receiving
    ensures var r := Run(st, evs);
      r.state.file == st.file + Appended(evs[..r.consumed])
    decreases |evs|
  {
    var r := Run(st, evs);
    if evs == [] {
      assert evs[..r.consumed] == [];
    } else {
      var (next, ack) := Step(st, evs[0]);
      var rest := Run(next, evs[1..]);
      if next.phase == Receiving {
        FileIsConcatenation(next, evs[1..]);
        assert evs[..r.consumed][1..] == evs[1..][..rest.consumed];
      } else {
        assert evs[..r.consumed] == [evs[0]];
        assert Appended([evs[0]]) == Contribution(evs[0]);
      }
    }
  }

  /** The loop reads until the last datagram comes: a session still
      receiving has consumed every event, one that ended consumed at least
      one, and every consumed datagram before the last was a full, stored
      Data datagram. */
  lemma {:induction false} RunReadsUntilLast(st: State, evs: seq<Event>)
    requires st.phase == Receiving
    ensures var r := Run(st, evs);
      && (r.state.phase == Receiving ==> r.consumed == |evs|)
      && (r.state.phase != Receiving ==> r.consumed >= 1)
      && forall i :: 0 <= i < r.consumed - 1 ==>
           Accepted(evs[i]) && evs[i].sink == Stored && evs[i].n == DatagramSize
    decreases |evs|
  {
    if evs != [] {
      var next := Step(st, evs[0]).0;
      if next.phase == Receiving {
        RunReadsUntilLast(next, evs[1..]);
        var rest := Run(next, evs[1..]);
        forall i | 0 <= i < rest.consumed
          ensures Accepted(evs[i]) && evs[i].sink == Stored && evs[i].n == DatagramSize
        {
          if i > 0 {
            assert evs[1..][i - 1] == evs[i];
          }
        }
      }
    }
  }

  /** An upload the session takes completely: every datagram decodes as
      Data, is stored and acked, all but the last are full, and the last
      is short. */
  predicate CleanUpload(evs: seq<Event>)
  {
    && |evs| > 0
    && (forall i :: 0 <= i < |evs| ==> Accepted(evs[i]) && evs[i].sink == Stored)
    && (forall i :: 0 <= i < |evs| - 1 ==> evs[i].n == DatagramSize)
    && evs[|evs| - 1].n < DatagramSize
  }

  /** The block numbers the Data datagrams of an upload carried. */
  function Carried(evs: seq<Event>): (bs: seq<u16>)
    requires forall i :: 0 <= i < |evs| ==> evs[i].Recv? && evs[i].d.AsData?
    ensures |bs| == |evs|
  {
    seq(|evs|, i requires 0 <= i < |evs| => evs[i].d.block)
  }

  /** What follows the first datagram of a longer clean upload is itself
      a clean upload. */
  lemma CleanUploadTail(evs: seq<Event>)
    requires CleanUpload(evs) && |evs| > 1
    ensures CleanUpload(evs[1..])
  {
    forall i | 0 <= i < |evs[1..]| - 1
      ensures evs[1..][i].n == DatagramSize
    {
      assert evs[1..][i] == evs[i + 1];
    }
  }

  /** A clean upload completes the session exactly at its short last
      datagram, whatever follows it: the file gets every payload in order
      and every datagram is acked with the block it carried. */
  lemma {:induction false} CleanUploadCompletes(st: State, evs: seq<Event>, later: seq<Event>)
    requires st.phase == Receiving
    requires CleanUpload(evs)
    ensures Run(st, evs + later)
      == Outcome(State(st.file + Appended(evs), Complete), AcksFor(Carried(evs)), |evs|)
    decreases |evs|
  {
    var next := Step(st, evs[0]).0;
    assert evs + later == [evs[0]] + (evs[1..] + later);
    RunStored(st, evs[0], evs[1..] + later);
    var cs := Carried(evs);
    AcksForCons(cs);
    if |evs| == 1 {
      assert cs[1..] == [];
    } else {
      CleanUploadTail(evs);
      CleanUploadCompletes(next, evs[1..], later);
      assert cs[1..] == Carried(evs[1..]);
    }
  }

  /** One stored Data datagram, unfolded: it is acked with its own block
      number and the run goes on from the state it leaves. */
  lemma RunStored(st: State, ev: Event, rest: seq<Event>)
    requires st.phase == Receiving
    requires Accepted(ev) && ev.sink == Stored
    ensures var next := Step(st, ev).0;
      && next.file == st.file + Contribution(ev)
      && (next.phase == Receiving <==> ev.n == DatagramSize)
      && (next.phase != Receiving ==> next.phase == Complete)
      && Run(st, [ev] + rest)
         == Outcome(Run(next, rest).state, [Ack(ev.d.block)] + Run(next, rest).acks, Run(next, rest).consumed + 1)
  {
    assert ([ev] + rest)[0] == ev;
    assert ([ev] + rest)[1..] == rest;
  }

  /** Conversely, a session completes only on a clean upload: the
      datagrams it consumed are full stored Data datagrams followed by one
      short one. */
  lemma {:induction false} CompleteOnlyOnCleanUpload(st: State, evs: seq<Event>)
    requires st.phase == Receiving
    requires Run(st, evs).state.phase == Complete
    ensures CleanUpload(evs[..Run(st, evs).consumed])
    decreases |evs|
  {
    var r := Run(st, evs);
    var (next, ack) := Step(st, evs[0]);
    var pre := evs[..r.consumed];
    if next.phase == Receiving {
      CompleteOnlyOnCleanUpload(next, evs[1..]);
      var rest := Run(next, evs[1..]);
      var pre' := evs[1..][..rest.consumed];
      assert pre == [evs[0]] + pre';
      forall i | 0 <= i < |pre|
        ensures Accepted(pre[i]) && pre[i].sink == Stored
        ensures i < |pre| - 1 ==> pre[i].n == DatagramSize
      {
        if i > 0 {
          assert pre[i] == pre'[i - 1];
        }
      }
    } else {
      assert pre == [evs[0]];
    }
  }

  /** Two event lists that differ at most in the block numbers the Data
      datagrams carry. */
  predicate SameButBlocks(a: seq<Event>, b: seq<Event>)
  {
    && |a| == |b|
    && forall i :: 0 <= i < |a| ==>
         a[i] == b[i]
         || (a[i].Recv? && b[i].Recv? && a[i].d.AsData? && b[i].d.AsData?
             && a[i].n == b[i].n && a[i].sink == b[i].sink && a[i].d.tail == b[i].d.tail)
  }

  /** No ordering check: the block numbers the client sends change the
      Acks but neither the file nor how the session ends. */
  lemma {:induction false} BlockNumbersIgnored(st: State, a: seq<Event>, b: seq<Event>)
    requires SameButBlocks(a, b)
    ensures Run(st, a).state == Run(st, b).state
    ensures Run(st, a).consumed == Run(st, b).consumed
    decreases |a|
  {
    if st.phase == Receiving && a != [] {
      assert SameButBlocks(a[1..], b[1..]) by {
        forall i | 0 <= i < |a[1..]|
          ensures a[1..][i] == a[i + 1] && b[1..][i] == b[i + 1]
        {
        }
      }
      var na := Step(st, a[0]).0;
      assert na == Step(st, b[0]).0;
      BlockNumbersIgnored(na, a[1..], b[1..]);
    }
  }

  /** A datagram that arrives twice is written twice. */
  lemma DuplicateWrittenTwice(st: State, ev: Event)
    requires st.phase == Receiving
    requires Accepted(ev) && ev.sink == Stored && ev.n == DatagramSize
    ensures Run(st, [ev, ev]).state.file == st.file + Contribution(ev) + Contribution(ev)
    ensures Run(st, [ev, ev]).acks == [Ack(ev.d.block), Ack(ev.d.block)]
  {
    var s1 := Step(st, ev).0;
    assert [ev, ev][1..] == [ev];
    assert Run(s1, [ev]).state.file == s1.file + Contribution(ev);
  }

  // ---------------------------------------------------------------------
  // The slice `data[:n-4]` (see README, Findings).

  /** As written, an empty datagram after a full Data block panics: the
      empty read leaves the receive buffer holding the previous block, so
      it decodes as that Data packet again, and `n - 4` is negative. A
      panic in a session goroutine ends the whole server process. */
  lemma EmptyDatagramPanics(tail: Tail)
    ensures var full := Recv(DatagramSize, AsData(1, tail), Stored);
      var empty := Recv(0, AsData(1, tail), Stored);
      RunAsWritten(State([], Receiving), [full, empty]).state.phase == Panicked
  {
    var full := Recv(DatagramSize, AsData(1, tail), Stored);
    var empty := Recv(0, AsData(1, tail), Stored);
    var s1 := StepAsWritten(State([], Receiving), full).0;
    assert s1.phase == Receiving;
    var s2 := StepAsWritten(s1, empty).0;
    assert s2.phase == Panicked;
    assert [empty][1..] == [];
    assert RunAsWritten(s1, [empty]).state == s2;
    assert [full, empty][1..] == [empty];
  }

  /** The guarded loop never panics, on any input, and differs from the
      code as written only when a too-short datagram decodes as Data. */
  lemma {:induction false} GuardedRunAgrees(st: State, evs: seq<Event>)
    requires st.phase == Receiving
    requires forall i :: 0 <= i < |evs| ==> !IsShortData(evs[i])
    ensures Run(st, evs) == RunAsWritten(st, evs)
    decreases |evs|
  {
    if evs != [] {
      var next := Step(st, evs[0]).0;
      if next.phase == Receiving {
        forall i | 0 <= i < |evs[1..]|
          ensures !IsShortData(evs[1..][i])
        {
          assert evs[1..][i] == evs[i + 1];
        }
        GuardedRunAgrees(next, evs[1..]);
      }
    }
  }
}
