/** The dispatcher of `TFTPServer.Serve`: configuration defaults, the
    nil checks made before the first read, and the per-datagram
    classification and read/write policy. Sessions are not run here: the
    dispatcher's output is a list of effects, among them "spawn a read
    (write) session", which the ReadSession and WriteSession modules
    model one session at a time. */
module Server {
  import opened Packets

  /** Go's `time.Duration`: a count of nanoseconds, only compared with zero here. */
  type Duration = int

  const Second: Duration := 1_000_000_000
  const DefaultRetries: u8 := 10
  const DefaultTimeout: Duration := 4 * Second

  const ReadDenied: string := "ReadReq is not allowed"
  const WriteDenied: string := "WriteReq is not allowed"

  /** The `TFTPServer` fields the engine reads. `payload == None` stands for
      a nil slice, which differs from an empty one. The logger is not a
      field here: every `s.Log` call is taken to succeed, that is, `Log`
      is taken to be non-nil. */
  datatype Config = Config(
    writeAllowed: bool,
    readAllowed: bool,
    writeDir: string,
    payload: Option<seq<byte>>,
    retries: u8,
    timeout: Duration)

  datatype ServeError = NilConnection | PayloadRequired | ListenerReadFailed

  datatype Start = Started(cfg: Config) | Refused(err: ServeError)

  /** A configuration the dispatcher hands to its sessions. */
  predicate Ready(cfg: Config)
  {
    cfg.payload.Some? && cfg.retries >= 1 && cfg.timeout != 0
  }

  /** Lines 46-61 of `Serve`: refuse a nil connection, then a nil payload,
      then replace a zero retry count and a zero timeout by the defaults. */
  function StartServe(s: Config, hasConn: bool): (r: Start)
    ensures !hasConn ==> r == Refused(NilConnection)
    ensures hasConn && s.payload.None? ==> r == Refused(PayloadRequired)
    ensures hasConn && s.payload.Some? ==> r.Started? && Ready(r.cfg)
    ensures r.Started? ==>
      && r.cfg.retries == (if s.retries == 0 then DefaultRetries else s.retries)
      && r.cfg.timeout == (if s.timeout == 0 then DefaultTimeout else s.timeout)
      && r.cfg.(retries := s.retries, timeout := s.timeout) == s
  {
    if !hasConn then Refused(NilConnection)
    else if s.payload.None? then Refused(PayloadRequired)
    else
      var retries := if s.retries == 0 then DefaultRetries else s.retries;
      var timeout := if s.timeout == 0 then DefaultTimeout else s.timeout;
      Started(s.(retries := retries, timeout := timeout))
  }

  /** Applying the defaults to a configuration that already went through
      them changes nothing, and a configuration with no zero fields is
      taken as it is. */
  lemma StartServeIdempotent(s: Config)
    requires s.payload.Some?
    ensures StartServe(s, true).Started?
    ensures StartServe(StartServe(s, true).cfg, true) == StartServe(s, true)
    ensures s.retries != 0 && s.timeout != 0 ==> StartServe(s, true) == Started(s)
  {
  }

  /** One datagram on the listener, as the two speculative decodings of
      lines 72 and 83 see it: `Some(req)` when `UnmarshalBinary` succeeds. */
  datatype Incoming = Incoming(asReadReq: Option<Request>, asWriteReq: Option<Request>)

  /** What the dispatcher does for one datagram, in order. */
  datatype Effect =
    | Reply(pkt: Packet)          // conn.WriteTo(data, addr) on the listener
    | SpawnRead(rrq: Request)     // go s.handleRead(addr, rrq)
    | SpawnWrite(wrq: Request)    // go s.handleWrite(addr, wrq)
    | LogBadRequest               // s.Log.Printf("bad request")

  /** Lines 72-95: the body of the dispatcher loop for one datagram. A
      refused request is answered and then falls through to the next
      decoding, exactly as the Go `if` without `continue` does. A
      datagram that starts a session does nothing else; one that starts
      none ends with the "bad request" line; every reply is an IllegalOp
      error. */
  function Dispatch(cfg: Config, d: Incoming): (es: seq<Effect>)
    ensures |es| >= 1
    ensures SingleOpcode(d) ==> forall i :: 0 <= i < |es| && IsSpawn(es[i]) ==> es == [es[i]]
    ensures (forall i :: 0 <= i < |es| ==> !IsSpawn(es[i])) ==> es[|es| - 1] == LogBadRequest
    ensures forall e :: e in es && e.Reply? ==> e.pkt.Err? && e.pkt.code == ErrIllegalOp
    ensures d.asReadReq.Some? && !cfg.readAllowed ==>
      es == [Reply(Err(ErrIllegalOp, ReadDenied))] + Dispatch(cfg, d.(asReadReq := None))
    decreases if d.asReadReq.Some? then 1 else 0
  {
    var afterRead :=
      if d.asWriteReq.Some? then
        if !cfg.writeAllowed then [Reply(Err(ErrIllegalOp, WriteDenied)), LogBadRequest]
        else [SpawnWrite(d.asWriteReq.value)]
      else [LogBadRequest];
    if d.asReadReq.Some? then
      if !cfg.readAllowed then [Reply(Err(ErrIllegalOp, ReadDenied))] + afterRead
      else [SpawnRead(d.asReadReq.value)]
    else afterRead
  }

  /** An effect that starts a session. */
  predicate IsSpawn(e: Effect)
  {
    e.SpawnRead? || e.SpawnWrite?
  }

  /** The replies among a list of effects: what goes out on the listener. */
  function Replies(es: seq<Effect>): (r: seq<Packet>)
    ensures |r| <= |es|
  {
    if es == [] then [] else (if es[0].Reply? then [es[0].pkt] else []) + Replies(es[1..])
  }

  /** The sessions among a list of effects, in spawn order. */
  function Spawns(es: seq<Effect>): (r: seq<Effect>)
    ensures |r| <= |es|
    ensures forall i :: 0 <= i < |r| ==> r[i].SpawnRead? || r[i].SpawnWrite?
  {
    if es == [] then []
    else (if es[0].SpawnRead? || es[0].SpawnWrite? then [es[0]] else []) + Spawns(es[1..])
  }

  /** The opcode is the first field of every packet, so no datagram decodes
      both as a ReadReq and as a WriteReq. */
  predicate SingleOpcode(d: Incoming)
  {
    !(d.asReadReq.Some? && d.asWriteReq.Some?)
  }

  /** What a direct opcode switch decides for one datagram: the reference
      classification the speculative double decoding must agree with. */
  datatype Action =
    | StartRead(rrq: Request)
    | StartWrite(wrq: Request)
    | RejectIllegalOp(message: string)
    | Drop

  function Classify(cfg: Config, d: Incoming): Action
  {
    match (d.asReadReq, d.asWriteReq)
    case (Some(r), _) => if cfg.readAllowed then StartRead(r) else RejectIllegalOp(ReadDenied)
    case (None, Some(w)) => if cfg.writeAllowed then StartWrite(w) else RejectIllegalOp(WriteDenied)
    case (None, None) => Drop
  }

  /** The datagrams the listener sends and the sessions it starts for one
      request are exactly those of the reference classification: an allowed
      request starts one session and sends nothing, a refused one sends one
      IllegalOp error and starts nothing, junk is only logged. */
  lemma DispatchAgreesWithClassify(cfg: Config, d: Incoming)
    requires SingleOpcode(d)
    ensures var es := Dispatch(cfg, d);
      match Classify(cfg, d)
      case StartRead(r) => Replies(es) == [] && Spawns(es) == [SpawnRead(r)]
      case StartWrite(w) => Replies(es) == [] && Spawns(es) == [SpawnWrite(w)]
      case RejectIllegalOp(m) => Replies(es) == [Err(ErrIllegalOp, m)] && Spawns(es) == []
      case Drop => Replies(es) == [] && Spawns(es) == [] && es == [LogBadRequest]
  {
  }

  /** A refused request is answered and then still reported as a bad
      request, because the refusal branch has no `continue`. */
  lemma RefusedRequestIsAlsoLogged(cfg: Config, d: Incoming)
    requires SingleOpcode(d)
    requires Classify(cfg, d).RejectIllegalOp?
    ensures |Dispatch(cfg, d)| == 2
    ensures Dispatch(cfg, d)[0] == Reply(Err(ErrIllegalOp, Classify(cfg, d).message))
    ensures Dispatch(cfg, d)[1] == LogBadRequest
  {
  }

  /** The listener: each element is one `conn.ReadFrom` outcome. */
  datatype ListenerEvent = Datagram(d: Incoming) | ListenerFailure

  /** Effects produced so far, and the error `Serve` returned (`None`
      while the loop is still running when the events run out). */
  datatype Served = Served(effects: seq<Effect>, err: Option<ServeError>)

  /** Lines 65-96: dispatch datagrams until the listener fails. */
  function Listen(cfg: Config, evs: seq<ListenerEvent>): (r: Served)
    ensures r.err.Some? <==> ListenerFailure in evs
    ensures r.err.Some? ==> r.err.value == ListenerReadFailed
    ensures ListenerFailure !in evs ==> r.effects == DispatchAll(cfg, evs)
  {
    if evs == [] then Served([], None)
    else match evs[0]
      case ListenerFailure => Served([], Some(ListenerReadFailed))
      case Datagram(d) =>
        var rest := Listen(cfg, evs[1..]);
        assert evs == [evs[0]] + evs[1..];
        Served(Dispatch(cfg, d) + rest.effects, rest.err)
  }

  /** Reference: the effects of every datagram in the list, one after the other. */
  function DispatchAll(cfg: Config, evs: seq<ListenerEvent>): seq<Effect>
  {
    if evs == [] then []
    else (if evs[0].Datagram? then Dispatch(cfg, evs[0].d) else []) + DispatchAll(cfg, evs[1..])
  }

  /** `Serve` as a whole: the nil checks come before the first read, so a
      refused start produces no effect whatever the listener would deliver. */
  function Serve(s: Config, hasConn: bool, evs: seq<ListenerEvent>): (r: Served)
    ensures !hasConn ==> r == Served([], Some(NilConnection))
    ensures hasConn && s.payload.None? ==> r == Served([], Some(PayloadRequired))
    ensures hasConn && s.payload.Some? ==> r == Listen(StartServe(s, true).cfg, evs)
  {
    match StartServe(s, hasConn)
    case Refused(e) => Served([], Some(e))
    case Started(cfg) => Listen(cfg, evs)
  }

  /** Nothing after a listener failure is read or answered: the effects
      are those of the datagrams before the first failure. */
  lemma {:induction false} ListenStopsAtFailure(cfg: Config, before: seq<ListenerEvent>, after: seq<ListenerEvent>)
    requires ListenerFailure !in before
    ensures Listen(cfg, before + [ListenerFailure] + after)
         == Served(DispatchAll(cfg, before), Some(ListenerReadFailed))
  {
    if before == [] {
      assert before + [ListenerFailure] + after == [ListenerFailure] + after;
    } else {
      var evs := before + [ListenerFailure] + after;
      assert evs[0] == before[0];
      assert evs[1..] == before[1..] + [ListenerFailure] + after;
      ListenStopsAtFailure(cfg, before[1..], after);
    }
  }

  /** With reads disabled no read session is ever started, whatever arrives. */
  lemma {:induction false} NoReadSessionWhenDisallowed(cfg: Config, evs: seq<ListenerEvent>)
    requires !cfg.readAllowed
    ensures forall e :: e in Listen(cfg, evs).effects ==> !e.SpawnRead?
  {
    if evs != [] && evs[0].Datagram? {
      NoReadSessionWhenDisallowed(cfg, evs[1..]);
      var here := Dispatch(cfg, evs[0].d);
      assert forall e :: e in here ==> !e.SpawnRead?;
      assert Listen(cfg, evs).effects == here + Listen(cfg, evs[1..]).effects;
    }
  }

  /** With writes disabled no write session is ever started, whatever arrives. */
  lemma {:induction false} NoWriteSessionWhenDisallowed(cfg: Config, evs: seq<ListenerEvent>)
    requires !cfg.writeAllowed
    ensures forall e :: e in Listen(cfg, evs).effects ==> !e.SpawnWrite?
  {
    if evs != [] && evs[0].Datagram? {
      NoWriteSessionWhenDisallowed(cfg, evs[1..]);
      var here := Dispatch(cfg, evs[0].d);
      assert forall e :: e in here ==> !e.SpawnWrite?;
      assert Listen(cfg, evs).effects == here + Listen(cfg, evs[1..]).effects;
    }
  }
}
