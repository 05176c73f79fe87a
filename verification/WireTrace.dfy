/** The session over bytes: which frames count, and the session together with its decoder, one event at a time. */
module WireTrace {
  import opened Registers
  import opened Bytes
  import opened Response
  import Request
  import opened SessionProtocol
  import FrameDecoder

  // ---------- what the router makes of a frame ----------

  const FC4_REJECTED := 0x84

  /** Addressed to this dongle and this inverter, and intact. */
  predicate Targeted(p: Parsed, dongle: seq<byte>, inverter: seq<byte>) {
    !p.packetError && p.tcpFunction == TRANSLATED_DATA && p.dongle == dongle && p.serial == inverter
  }

  predicate WellShaped(p: Parsed) {
    var n := |ValueList(p)|;
    && p.deviceFunction == Request.READ_INPUT && p.exception == 0 && n > 0 && p.addressAction == 1
    && p.dataLength == p.frameLength - 14 && p.valueLength == 2 * n && |p.value| == p.valueLength
    && p.register >= 0 && p.register + n <= TOTAL_REGISTERS
  }

  /** What the router makes of a frame. The sanity table for input registers is empty, so it rejects nothing. */
  function Classify(frame: seq<byte>, dongle: seq<byte>, inverter: seq<byte>): FrameClass {
    var p := Parse(frame);
    if !p.packetError && p.tcpFunction == FUNCTION_193 then Fc193
    else if Targeted(p, dongle, inverter) && p.deviceFunction == FC4_REJECTED && p.register >= 0
    then Rejection(p.register)
    else if Targeted(p, dongle, inverter) && WellShaped(p) then Fc4(p.register, ValueList(p))
    else Unusable
  }

  function Deliveries(frames: seq<seq<byte>>, dongle: seq<byte>, inverter: seq<byte>, clock: nat -> int, first: nat)
    : seq<Routed>
    decreases |frames|
  {
    if frames == [] then []
    else
      [Routed(Classify(frames[0], dongle, inverter), clock(first))]
      + Deliveries(frames[1..], dongle, inverter, clock, first + 1)
  }

  // ---------- the session and its decoder ----------

  /** A region between two awaits, or what the reader of generation `reader` gets from its socket. */
  datatype WireEvent =
    | Region(event: Event)
    | SocketRead(reader: nat, chunk: seq<byte>, clock: nat -> int)
    | PartialTimeout(reader: nat)

  /** Whom the session talks to. */
  datatype Peer = Peer(dongle: seq<byte>, inverter: seq<byte>)

  /** The session's state, and what its current decoder has buffered. */
  datatype Wire = Wire(session: State, buffer: seq<byte>)

  const SILENT := Wire(INITIAL, [])

  const RULES := FrameDecoder.Resyncing(FrameDecoder.MAX_PACKET_SIZE)

  /** What the reader of generation `g` gets from its socket still counts. */
  predicate Listening(s: State, g: nat) {
    g == s.generation && g in s.readers && s.readers[g].Reading?
  }

  /** The regions that leave an empty decoder behind: a new connection, and the end of a completed cleanup. */
  predicate Empties(s: State, e: Event) {
    match e
    case ConnectDone => s.lock.Dialing?
    case CloseEnd => s.lock == Closing(false)
    case TaintedEnd => InTaintedPhase(s) && s.lock == Closing(true)
    case CleanupDone => s.lock.CleaningUp?
    case _ => false
  }

  function WireStep(w: Wire, e: WireEvent, peer: Peer): Wire {
    match e
    case Region(event) =>
      if event.Chunk? then w
      else Wire(Step(w.session, event), if Empties(w.session, event) then [] else w.buffer)
    case SocketRead(g, chunk, clock) =>
      if Listening(w.session, g) then
        var o := FrameDecoder.Scan(w.buffer + chunk, RULES);
        var routed := Deliveries(FrameDecoder.Frames(o.pieces), peer.dongle, peer.inverter, clock,
                                 w.session.counters.routed);
        Wire(Step(w.session, Chunk(g, routed)), o.rest)
      else Wire(Step(w.session, Chunk(g, [])), w.buffer)
    case PartialTimeout(g) => if Listening(w.session, g) then w.(buffer := []) else w
  }

  /** Everything since the session was created. */
  function WireRun(trace: seq<WireEvent>, peer: Peer): Wire {
    if trace == [] then SILENT
    else WireStep(WireRun(trace[..|trace| - 1], peer), trace[|trace| - 1], peer)
  }

  lemma WireRunSnoc(trace: seq<WireEvent>, e: WireEvent, peer: Peer)
    ensures WireRun(trace + [e], peer) == WireStep(WireRun(trace, peer), e, peer)
  {
    assert (trace + [e])[..|trace|] == trace;
  }
}
