/** What the accepted history says about the bytes that came over the wire, on every run of the session. */
module WireHistory {
  import opened Options
  import opened Bytes
  import opened SessionProtocol
  import opened SessionSafety
  import opened WireTrace
  import SessionCounters
  import Request
  import Response
  import FrameDecoder
  import StreamFraming
  import CutIndependence
  import Registers
  import ObservationStore
  import DirectEnergy
  import ReadSession
  import FrameMeaning

  // ---------- the history of one connection ----------

  datatype Answer = Answer(start: nat, values: seq<nat>)

  /** What generation `g` has had accepted, in order. */
  function Observed(log: seq<Accepted>, g: nat): seq<Answer> {
    if log == [] then []
    else
      var a := log[|log| - 1];
      Observed(log[..|log| - 1], g) + (if a.generation == g then [Answer(a.start, a.values)] else [])
  }

  /** The usable FC4 responses among frames, in order. */
  function Usable(frames: seq<seq<byte>>, peer: Peer): seq<Answer>
    decreases |frames|
  {
    if frames == [] then []
    else
      var c := Classify(frames[0], peer.dongle, peer.inverter);
      (if c.Fc4? then [Answer(c.start, c.values)] else []) + Usable(frames[1..], peer)
  }

  /** What the decoder of generation `g` was given while its reader counted: chunks, and timeouts of a partial frame. */
  function Heard(trace: seq<WireEvent>, peer: Peer, g: nat): seq<StreamFraming.Op> {
    if trace == [] then []
    else
      var before, e := trace[..|trace| - 1], trace[|trace| - 1];
      Heard(before, peer, g) + HeardNow(WireRun(before, peer).session, e, g)
  }

  function HeardNow(s: State, e: WireEvent, g: nat): seq<StreamFraming.Op> {
    match e
    case Region(_) => []
    case SocketRead(r, chunk, _) => if r == g && Listening(s, g) then [StreamFraming.Feed(chunk)] else []
    case PartialTimeout(r) => if r == g && Listening(s, g) then [StreamFraming.DiscardPartial] else []
  }

  /** What a decoder of its own makes of that. */
  function Decoded(trace: seq<WireEvent>, peer: Peer, g: nat): StreamFraming.Ledger {
    StreamFraming.Run(Heard(trace, peer, g), RULES)
  }

  // ---------- every run of the wire is a run of the session ----------

  lemma ReachableStep(s: State, e: Event)
    requires Reachable(s)
    ensures Reachable(Step(s, e))
  {
    var events :| s == Run(INITIAL, events);
    assert (events + [e])[..|events|] == events;
    assert Step(s, e) == Run(INITIAL, events + [e]);
  }

  lemma {:induction false} WireReachable(trace: seq<WireEvent>, peer: Peer)
    ensures Reachable(WireRun(trace, peer).session)
  {
    hide Reachable, Step, Listening, Empties, Deliveries, FrameDecoder.Scan, FrameDecoder.Frames;
    if trace == [] {
      InitialReachable();
    } else {
      var w, e := WireRun(trace[..|trace| - 1], peer), trace[|trace| - 1];
      WireReachable(trace[..|trace| - 1], peer);
      ReachableWireStep(w, e, peer);
    }
  }

  lemma InitialReachable()
    ensures Reachable(INITIAL)
  {
    assert INITIAL == Run(INITIAL, []);
  }

  lemma ReachableWireStep(w: Wire, e: WireEvent, peer: Peer)
    requires Reachable(w.session)
    ensures Reachable(WireStep(w, e, peer).session)
  {
    hide Reachable, Step, Listening, Empties, Deliveries, FrameDecoder.Scan, FrameDecoder.Frames;
    match e
    case Region(event) =>
      ReachableStep(w.session, event);
    case SocketRead(g, chunk, clock) =>
      var o := FrameDecoder.Scan(w.buffer + chunk, RULES);
      ReachableStep(w.session, Chunk(g, []));
      ReachableStep(w.session, Chunk(g, Deliveries(FrameDecoder.Frames(o.pieces), peer.dongle, peer.inverter, clock,
                                                   w.session.counters.routed)));
    case PartialTimeout(_) =>
  }

  // ---------- one region ----------

  /** Readers are only started by a new connection, under a number never used before; none is forgotten. */
  ghost predicate ReadersMoved(s: State, t: State) {
    && (forall g :: g in s.readers ==> g in t.readers)
    && (forall g :: Listening(t, g) ==> Listening(s, g))
  }

  lemma SettleKeeps(s: State, reason: Outcome)
    ensures var t := SettlePending(s, reason);
            t.log == s.log && t.readers == s.readers && t.generation == s.generation
  {
  }

  lemma CloseMoves(s: State, byRequest: bool)
    requires forall g :: g in s.readers ==> g <= s.generation
    ensures CloseRegion(s, byRequest).log == s.log && ReadersMoved(s, CloseRegion(s, byRequest))
  {
    SettleKeeps(s.(generation := s.generation + 1, connection := None, connectionLost := false,
                   lock := Closing(byRequest)), SessionClosed);
    hide SettlePending;
  }

  lemma TaintMoves(s: State, outcome: Outcome)
    requires Waiting(s) && forall g :: g in s.readers ==> g <= s.generation
    ensures Taint(s, outcome).log == s.log && ReadersMoved(s, Taint(s, outcome))
  {
    CloseMoves(Fenced(s, outcome), true);
    hide CloseRegion;
  }

  lemma LossMoves(s: State, g: nat)
    requires forall g :: g in s.readers ==> g <= s.generation
    ensures Step(s, ReaderFailed(g)).log == s.log && ReadersMoved(s, Step(s, ReaderFailed(g)))
  {
    SettleKeeps(s.(connection := None, generation := s.generation + 1, connectionLost := true,
                   lock := CleaningUp(g), counters := s.counters.(losses := s.counters.losses + 1)), ConnectionLost);
    hide SettlePending;
  }

  /** No region but a socket read logs anything, and only a completed dial starts a reader. */
  lemma RegionMoves(s: State, e: Event)
    requires !e.Chunk? && forall g :: g in s.readers ==> g <= s.generation
    ensures Step(s, e).log == s.log
    ensures !(e.ConnectDone? && s.lock.Dialing?) ==> ReadersMoved(s, Step(s, e))
  {
    hide SettlePending, CloseRegion, Taint, ReadersMoved;
    match e
    case CloseBegin => CloseMoves(s, false); NothingMoved(s);
    case TaintedClose => CloseMoves(s, true); NothingMoved(s);
    case Expire =>
      NothingMoved(s);
      if Waiting(s) {
        TaintMoves(s, if s.requests[s.inFlight.value].phase.Draining? then AmbiguousDrain else ResponseTimeout);
      }
    case IoError => NothingMoved(s); if Waiting(s) { TaintMoves(s, AmbiguousIo); }
    case Cancel =>
      if Waiting(s) { TaintMoves(s, Cancelled); } else { OtherMoves(s, e); }
    case ReaderFailed(g) => LossMoves(s, g);
    case _ => OtherMoves(s, e);
  }

  lemma NothingMoved(s: State)
    ensures ReadersMoved(s, s)
  {
  }

  lemma OtherMoves(s: State, e: Event)
    requires e.ConnectBegin? || e.ConnectDone? || e.ConnectFailed? || e.CloseEnd? || e.Register? || e.DrainDone?
             || e.Resume? || (e.Cancel? && !Waiting(s)) || e.TaintedEnd? || e.ReaderError? || e.CleanupDone?
             || e.ReaderExit?
    ensures Step(s, e).log == s.log
    ensures !(e.ConnectDone? && s.lock.Dialing?) ==> ReadersMoved(s, Step(s, e))
  {
  }

  // ---------- one chunk ----------

  lemma ObservedSnoc(log: seq<Accepted>, a: Accepted, g: nat)
    ensures Observed(log + [a], g)
         == Observed(log, g) + (if a.generation == g then [Answer(a.start, a.values)] else [])
  {
    assert (log + [a])[..|log|] == log;
  }

  /** What one routed frame adds to the history. */
  function Logged(s: State, f: FrameClass, at: int): seq<Accepted> {
    if f.Fc4? then
      [Accepted(f.start, f.values, at, s.generation, if Explicit(s, f.start, f.values) then s.pending else None)]
    else []
  }

  lemma DispatchLogs(s: State, f: Routed)
    ensures var t := Dispatch(s, f);
            && t.generation == s.generation && t.readers == s.readers && t.counters.routed == s.counters.routed
            && t.log == s.log + Logged(s, f.frame, f.at)
  {
    SettleKeeps(s.(counters := s.counters.(rejections := s.counters.rejections + 1)), Rejected);
    hide Explicit;
    assert s.log + [] == s.log;
    if f.frame.Rejection? {
      SettleCounts(s.(counters := s.counters.(rejections := s.counters.rejections + 1)), Rejected);
      hide SettlePending, Candidate;
    }
  }

  lemma SettleCounts(s: State, reason: Outcome)
    ensures SettlePending(s, reason).counters == s.counters
  {
  }

  lemma RouteLogs(s: State, f: Routed)
    ensures var t := Route(s, f, s.generation);
            && t.generation == s.generation && t.readers == s.readers
            && t.counters.routed == s.counters.routed + 1
            && t.log == s.log + Logged(s, f.frame, f.at)
  {
    hide Dispatch;
    var counted := s.(counters := s.counters.(routed := s.counters.routed + 1));
    DispatchLogs(counted, f);
    assert Logged(counted, f.frame, f.at) == Logged(s, f.frame, f.at);
    hide Logged;
  }

  function AnswerOf(f: FrameClass): seq<Answer> {
    if f.Fc4? then [Answer(f.start, f.values)] else []
  }

  /** It enters the history of its generation exactly when it is usable. */
  lemma LoggedObserved(s: State, f: FrameClass, at: int, g: nat)
    ensures Observed(s.log + Logged(s, f, at), g)
         == Observed(s.log, g) + (if g == s.generation then AnswerOf(f) else [])
  {
    assert s.log + [] == s.log && Observed(s.log, g) + [] == Observed(s.log, g);
    if f.Fc4? {
      ObservedSnoc(s.log, Logged(s, f, at)[0], g);
    }
    hide Observed, Explicit;
  }

  lemma UsableCons(frames: seq<seq<byte>>, peer: Peer)
    requires frames != []
    ensures Usable(frames, peer)
         == AnswerOf(Classify(frames[0], peer.dongle, peer.inverter)) + Usable(frames[1..], peer)
  {
    hide Classify;
  }

  /** Routing the frames of a chunk is routing the first one and then the others. */
  lemma FirstRouted(s: State, frames: seq<seq<byte>>, peer: Peer, clock: nat -> int)
    requires frames != []
    ensures var f := Routed(Classify(frames[0], peer.dongle, peer.inverter), clock(s.counters.routed));
            var u := Route(s, f, s.generation);
            && u.generation == s.generation && u.readers == s.readers && u.log == s.log + Logged(s, f.frame, f.at)
            && RouteAll(s, Deliveries(frames, peer.dongle, peer.inverter, clock, s.counters.routed), s.generation)
            == RouteAll(u, Deliveries(frames[1..], peer.dongle, peer.inverter, clock, u.counters.routed), s.generation)
  {
    hide Classify, Route, Logged;
    var f := Routed(Classify(frames[0], peer.dongle, peer.inverter), clock(s.counters.routed));
    RouteLogs(s, f);
    var later := Deliveries(frames[1..], peer.dongle, peer.inverter, clock, s.counters.routed + 1);
    assert ([f] + later)[1..] == later;
  }

  lemma FirstObserved(s: State, f: Routed, frames: seq<seq<byte>>, peer: Peer, g: nat)
    requires frames != [] && f.frame == Classify(frames[0], peer.dongle, peer.inverter)
    ensures Observed(s.log + Logged(s, f.frame, f.at), g)
            + (if g == s.generation then Usable(frames[1..], peer) else [])
         == Observed(s.log, g) + (if g == s.generation then Usable(frames, peer) else [])
  {
    hide Classify, Logged;
    LoggedObserved(s, f.frame, f.at, g);
    UsableCons(frames, peer);
    hide *;
    Regroup(Observed(s.log, g), AnswerOf(f.frame), Usable(frames[1..], peer));
  }

  lemma {:induction false} FramesObserved(s: State, frames: seq<seq<byte>>, peer: Peer, clock: nat -> int, g: nat)
    ensures var t := RouteAll(s, Deliveries(frames, peer.dongle, peer.inverter, clock, s.counters.routed),
                              s.generation);
            && t.generation == s.generation && t.readers == s.readers
            && Observed(t.log, g) == Observed(s.log, g) + (if g == s.generation then Usable(frames, peer) else [])
    decreases |frames|
  {
    hide Classify, Observed, Route, Logged;
    if frames == [] {
      NothingAppended(Observed(s.log, g));
    } else {
      hide Usable, RouteAll, Deliveries;
      var f := Routed(Classify(frames[0], peer.dongle, peer.inverter), clock(s.counters.routed));
      FirstRouted(s, frames, peer, clock);
      FirstObserved(s, f, frames, peer, g);
      FramesObserved(Route(s, f, s.generation), frames[1..], peer, clock, g);
    }
  }

  // ---------- the invariant ----------

  /**
   * The history of a generation is what a decoder of its own makes of everything it was given; the session's decoder
   * is that decoder while the generation is current, and a generation without a reader was given nothing.
   */
  ghost predicate Traced(trace: seq<WireEvent>, peer: Peer, g: nat) {
    var w := WireRun(trace, peer);
    && Observed(w.session.log, g) == Usable(FrameDecoder.Frames(Decoded(trace, peer, g).pieces), peer)
    && (Listening(w.session, g) ==> w.buffer == Decoded(trace, peer, g).buffer)
    && (g !in w.session.readers ==> Heard(trace, peer, g) == [])
  }

  lemma HeardSnoc(trace: seq<WireEvent>, e: WireEvent, peer: Peer, g: nat)
    ensures Heard(trace + [e], peer, g) == Heard(trace, peer, g) + HeardNow(WireRun(trace, peer).session, e, g)
  {
    assert (trace + [e])[..|trace|] == trace;
  }

  /** Nobody listens while a lock is held across a close or a cleanup. */
  lemma NobodyListens(s: State, g: nat)
    requires Reachable(s) && !s.lock.Free? && !s.lock.Dialing?
    ensures !Listening(s, g)
  {
    ReachableInv(s);
    var events :| s == Run(INITIAL, events);
    SessionCounters.RunCounted(events);
    hide Run;
  }

  lemma UnheardOf()
    ensures StreamFraming.Run([], RULES) == StreamFraming.Ledger([], 0, []) && FrameDecoder.Frames([]) == []
  {
  }

  lemma Dialled(s: State, g: nat)
    requires s.lock.Dialing? && forall g :: g in s.readers ==> g <= s.generation
    ensures var t := Step(s, ConnectDone);
            (Listening(t, g) ==> g !in s.readers) && (g in s.readers ==> g in t.readers)
  {
  }

  lemma RegionTraced(trace: seq<WireEvent>, e: Event, peer: Peer, g: nat)
    requires Traced(trace, peer, g)
    ensures Traced(trace + [Region(e)], peer, g)
  {
    hide Step, WireRun, Heard, Observed, Usable, Reachable, Inv, Listening, StreamFraming.Run, FrameDecoder.Frames;
    var w := WireRun(trace, peer);
    WireRunSnoc(trace, Region(e), peer);
    HeardSnoc(trace, Region(e), peer, g);
    WireReachable(trace, peer);
    NothingAppended(Heard(trace, peer, g));
    if !e.Chunk? {
      RegionEffect(w.session, e, g);
      UnheardOf();
    }
  }

  /** After a region someone listens only who did before, or on a new connection, whose decoder is empty. */
  lemma RegionEffect(s: State, e: Event, g: nat)
    requires Reachable(s) && !e.Chunk?
    ensures Step(s, e).log == s.log && (g in s.readers ==> g in Step(s, e).readers)
    ensures Listening(Step(s, e), g) ==> if Empties(s, e) then g !in s.readers else Listening(s, g)
  {
    hide Step, Listening, Reachable;
    ReachableInv(s);
    assert ConnectionOk(s.connection, s.generation, s.readers, s.lock);
    RegionMoves(s, e);
    if e.ConnectDone? && s.lock.Dialing? {
      Dialled(s, g);
    } else if Empties(s, e) {
      NobodyListens(s, g);
    }
  }

  lemma TimeoutTraced(trace: seq<WireEvent>, r: nat, peer: Peer, g: nat)
    requires Traced(trace, peer, g)
    ensures Traced(trace + [PartialTimeout(r)], peer, g)
  {
    var e := PartialTimeout(r);
    WireRunSnoc(trace, e, peer);
    HeardSnoc(trace, e, peer, g);
    NothingAppended(Heard(trace, peer, g));
    if r == g && Listening(WireRun(trace, peer).session, g) {
      Discarded(Heard(trace, peer, g));
    }
    hide WireRun, Heard, Observed, Usable, StreamFraming.Run, FrameDecoder.Frames;
  }

  /** Giving up a partial frame hands over nothing. */
  lemma Discarded(ops: seq<StreamFraming.Op>)
    ensures var l := StreamFraming.Run(ops + [StreamFraming.DiscardPartial], RULES);
            && l.buffer == []
            && FrameDecoder.Frames(l.pieces) == FrameDecoder.Frames(StreamFraming.Run(ops, RULES).pieces)
  {
    var before := StreamFraming.Run(ops, RULES);
    assert (ops + [StreamFraming.DiscardPartial])[..|ops|] == ops;
    FrameDecoder.PiecesAppend(before.pieces, [FrameDecoder.Skipped(before.buffer)]);
    hide StreamFraming.Run;
  }

  lemma Fed(ops: seq<StreamFraming.Op>, chunk: seq<byte>)
    ensures var before, l := StreamFraming.Run(ops, RULES), StreamFraming.Run(ops + [StreamFraming.Feed(chunk)], RULES);
            var o := FrameDecoder.Scan(before.buffer + chunk, RULES);
            && l.buffer == o.rest
            && FrameDecoder.Frames(l.pieces) == FrameDecoder.Frames(before.pieces) + FrameDecoder.Frames(o.pieces)
  {
    hide FrameDecoder.Scan;
    var before := StreamFraming.Run(ops, RULES);
    assert (ops + [StreamFraming.Feed(chunk)])[..|ops|] == ops;
    FrameDecoder.PiecesAppend(before.pieces, FrameDecoder.Scan(before.buffer + chunk, RULES).pieces);
    hide StreamFraming.Run;
  }

  lemma {:induction false} UsableAppend(a: seq<seq<byte>>, b: seq<seq<byte>>, peer: Peer)
    ensures Usable(a + b, peer) == Usable(a, peer) + Usable(b, peer)
    decreases |a|
  {
    hide Classify;
    if a == [] {
      assert a + b == b;
    } else {
      assert (a + b)[1..] == a[1..] + b;
      UsableAppend(a[1..], b, peer);
    }
  }

  /** A chunk that counts, of whichever connection. */
  lemma ChunkRead(w: Wire, e: WireEvent, peer: Peer, g: nat)
    requires e.SocketRead? && Listening(w.session, e.reader)
    ensures var o := FrameDecoder.Scan(w.buffer + e.chunk, RULES);
            var t := WireStep(w, e, peer);
            && t.buffer == o.rest && t.session.generation == w.session.generation
            && t.session.readers == w.session.readers
            && Observed(t.session.log, g)
            == Observed(w.session.log, g) + (if e.reader == g then Usable(FrameDecoder.Frames(o.pieces), peer) else [])
  {
    FramesObserved(w.session, FrameDecoder.Frames(FrameDecoder.Scan(w.buffer + e.chunk, RULES).pieces), peer, e.clock,
                   g);
    hide Observed, Usable, FrameDecoder.Frames, FrameDecoder.Scan, Deliveries, RouteAll;
  }

  lemma HeardTraced(trace: seq<WireEvent>, e: WireEvent, peer: Peer, g: nat)
    requires e.SocketRead? && Listening(WireRun(trace, peer).session, e.reader) && Traced(trace, peer, g)
    ensures Traced(trace + [e], peer, g)
  {
    var w := WireRun(trace, peer);
    var frames := FrameDecoder.Frames(FrameDecoder.Scan(w.buffer + e.chunk, RULES).pieces);
    WireRunSnoc(trace, e, peer);
    HeardSnoc(trace, e, peer, g);
    NothingAppended(Heard(trace, peer, g));
    NothingAppended(Observed(w.session.log, g));
    ChunkRead(w, e, peer, g);
    if e.reader == g {
      Fed(Heard(trace, peer, g), e.chunk);
      UsableAppend(FrameDecoder.Frames(Decoded(trace, peer, g).pieces), frames, peer);
    }
    hide WireRun, WireStep, Heard, Observed, Usable, StreamFraming.Run, FrameDecoder.Frames, FrameDecoder.Scan;
  }

  /** Bytes that no longer count. */
  lemma UnheardTraced(trace: seq<WireEvent>, e: WireEvent, peer: Peer, g: nat)
    requires e.SocketRead? && !Listening(WireRun(trace, peer).session, e.reader) && Traced(trace, peer, g)
    ensures Traced(trace + [e], peer, g)
  {
    WireRunSnoc(trace, e, peer);
    HeardSnoc(trace, e, peer, g);
    NothingAppended(Heard(trace, peer, g));
    hide WireRun, Heard, Observed, Usable, StreamFraming.Run, FrameDecoder.Frames, FrameDecoder.Scan, Deliveries,
         RouteAll;
  }

  lemma {:induction false} RunTraced(trace: seq<WireEvent>, peer: Peer, g: nat)
    ensures Traced(trace, peer, g)
    decreases |trace|
  {
    if trace == [] {
      UnheardOf();
    } else {
      var before, e := trace[..|trace| - 1], trace[|trace| - 1];
      RunTraced(before, peer, g);
      assert trace == before + [e];
      hide Traced, WireRun, Listening;
      match e
      case Region(event) => RegionTraced(before, event, peer, g);
      case PartialTimeout(r) => TimeoutTraced(before, r, peer, g);
      case SocketRead(r, _, _) =>
        if Listening(WireRun(before, peer).session, r) {
          HeardTraced(before, e, peer, g);
        } else {
          UnheardTraced(before, e, peer, g);
        }
    }
  }

  // ---------- what it says ----------

  /**
   * On every run, what was accepted under a generation is exactly the usable responses, in order, among the frames
   * that decoding the bytes read on that connection yields. Nothing else enters the history.
   */
  lemma HistoryIsDecoded(trace: seq<WireEvent>, peer: Peer, g: nat)
    ensures Observed(WireRun(trace, peer).session.log, g)
         == Usable(FrameDecoder.Frames(Decoded(trace, peer, g).pieces), peer)
  {
    RunTraced(trace, peer, g);
    hide WireRun, Heard, Observed, Usable, Decoded, FrameDecoder.Frames;
  }

  /** If no partial frame timed out and the stream is undivided, it is a single pass over it, however it was cut. */
  lemma HistoryIsOnePass(trace: seq<WireEvent>, peer: Peer, g: nat, chunks: seq<seq<byte>>)
    requires Heard(trace, peer, g) == StreamFraming.Feeds(chunks)
    requires CutIndependence.Undivided(StreamFraming.Join(chunks), RULES)
    ensures Observed(WireRun(trace, peer).session.log, g)
         == Usable(FrameDecoder.Frames(FrameDecoder.Scan(StreamFraming.Join(chunks), RULES).pieces), peer)
  {
    HistoryIsDecoded(trace, peer, g);
    CutIndependence.OnePass(chunks, RULES);
    hide WireRun, Heard, Observed, Usable, CutIndependence.Undivided, FrameDecoder.Frames, FrameDecoder.Scan,
         StreamFraming.Run;
  }

  /** The packets in which the inverter answers. */
  ghost predicate Answering(packets: seq<seq<byte>>, answers: seq<Answer>, protocol: nat, peer: Peer) {
    && protocol in {2, 5} && |peer.dongle| == |peer.inverter| == 10 && |packets| == |answers|
    && forall i :: 0 <= i < |answers| ==> IsAnswer(packets[i], answers[i], protocol, peer)
  }

  ghost predicate IsAnswer(packet: seq<byte>, a: Answer, protocol: nat, peer: Peer)
    requires protocol in {2, 5} && |peer.dongle| == |peer.inverter| == 10
  {
    && ValidRange(a.start, |a.values|) && (forall i :: 0 <= i < |a.values| ==> a.values[i] < 0x1_0000)
    && packet == Request.ResponsePacket(protocol, peer.dongle, peer.inverter, a.start, a.values)
  }

  lemma {:induction false} AnswersUsable(packets: seq<seq<byte>>, answers: seq<Answer>, protocol: nat, peer: Peer)
    requires Answering(packets, answers, protocol, peer)
    ensures Usable(packets, peer) == answers
    decreases |packets|
  {
    hide Classify, IsAnswer;
    if packets != [] {
      hide Usable;
      assert IsAnswer(packets[0], answers[0], protocol, peer);
      AnswersUsable(packets[1..], answers[1..], protocol, peer);
      OneAnswer(packets[0], answers[0], protocol, peer);
      UsableCons(packets, peer);
    }
  }

  lemma OneAnswer(packet: seq<byte>, a: Answer, protocol: nat, peer: Peer)
    requires protocol in {2, 5} && |peer.dongle| == |peer.inverter| == 10 && IsAnswer(packet, a, protocol, peer)
    ensures AnswerOf(Classify(packet, peer.dongle, peer.inverter)) == [a]
  {
    hide Classify;
    ReadSession.GoodReplyClassified(packet, protocol, peer.dongle, peer.inverter, a.start, a.values);
  }

  /** Answers to reads, however the network cuts them, become the history of their connection: these and no others. */
  lemma AnswersBecomeHistory(trace: seq<WireEvent>, peer: Peer, g: nat, chunks: seq<seq<byte>>,
                             packets: seq<seq<byte>>, answers: seq<Answer>, protocol: nat)
    requires Heard(trace, peer, g) == StreamFraming.Feeds(chunks) && StreamFraming.Join(chunks)
          == StreamFraming.Concat(packets)
    requires StreamFraming.Clean(packets, RULES) && Answering(packets, answers, protocol, peer)
    ensures Observed(WireRun(trace, peer).session.log, g) == answers
  {
    HistoryIsDecoded(trace, peer, g);
    StreamFraming.CleanStreamRecovered(packets, chunks, RULES);
    AnswersUsable(packets, answers, protocol, peer);
    hide WireRun, Heard, Observed, Usable, Answering, FrameDecoder.Frames, StreamFraming.Run, StreamFraming.Clean;
  }

  /**
   * With the decoder's own rules the cut can matter: behind a header that promises more, followed by any bytes, an
   * answer is handed over when a chunk ends with it, and swallowed when the bytes come at once.
   */
  lemma AnswerCanBeSwallowed(f: seq<byte>, a: Answer, protocol: nat, peer: Peer, pad: seq<byte>, s: seq<byte>)
    requires protocol in {2, 5} && |peer.dongle| == |peer.inverter| == 10 && IsAnswer(f, a, protocol, peer)
    requires pad != [] && 6 + |f| + |pad| <= FrameDecoder.MAX_PACKET_SIZE
    requires s == StreamFraming.Envelope(f, |pad|) + f + pad
    ensures FrameDecoder.Frames(FrameDecoder.Scan(s, RULES).pieces) == [s]
    ensures StreamFraming.Prefix([f], FrameDecoder.Frames(FrameDecoder.Scan(s[..6 + |f|], RULES).pieces))
    ensures !CutIndependence.Undivided(s, RULES)
  {
    AnswerAccepted(f, a, protocol, peer);
    hide IsAnswer, FrameDecoder.Scan, FrameDecoder.Frames, CutIndependence.Undivided, Response.AcceptedTranslated,
         StreamFraming.WellFormed, StreamFraming.Envelope;
    StreamFraming.ChunkingCanMatter(f, pad, s, RULES);
    CutIndependence.EmbeddedDivides(f, pad, s, RULES);
  }

  lemma AnswerAccepted(f: seq<byte>, a: Answer, protocol: nat, peer: Peer)
    requires protocol in {2, 5} && |peer.dongle| == |peer.inverter| == 10 && IsAnswer(f, a, protocol, peer)
    ensures StreamFraming.WellFormed(f, FrameDecoder.MAX_PACKET_SIZE) && Response.AcceptedTranslated(f)
  {
    Request.ResponseParses(f, protocol, peer.dongle, peer.inverter, a.start, a.values);
    Request.ResponseFields(f, protocol, peer.dongle, peer.inverter, a.start, a.values);
    hide Response.Parse;
    assert FrameDecoder.PrefixAt(f, 0) by {
      assert f[..2][0] == f[0] && f[..2][1] == f[1];
    }
  }

  lemma {:induction false} InHistory(log: seq<Accepted>, k: nat)
    requires k < |log|
    ensures Answer(log[k].start, log[k].values) in Observed(log, log[k].generation)
  {
    if k < |log| - 1 {
      assert log[..|log| - 1][k] == log[k];
      InHistory(log[..|log| - 1], k);
    }
  }

  lemma {:induction false} UsableSource(frames: seq<seq<byte>>, peer: Peer, a: Answer) returns (i: nat)
    requires a in Usable(frames, peer)
    ensures i < |frames| && Classify(frames[i], peer.dongle, peer.inverter) == Fc4(a.start, a.values)
    decreases |frames|
  {
    hide Classify;
    UsableCons(frames, peer);
    if a in AnswerOf(Classify(frames[0], peer.dongle, peer.inverter)) {
      i := 0;
    } else {
      var later := UsableSource(frames[1..], peer, a);
      i := later + 1;
    }
  }

  /**
   * A completed read was answered by a frame decoded from the bytes read on the connection it was sent on, whose bytes
   * spell exactly its range and the values it returned.
   */
  lemma ReplyWasRead(trace: seq<WireEvent>, peer: Peer, id: nat) returns (i: nat)
    requires var s := WireRun(trace, peer).session; id < |s.requests| && s.requests[id].future.Result?
    ensures var s := WireRun(trace, peer).session; var r := s.requests[id];
            var frames := FrameDecoder.Frames(Decoded(trace, peer, r.generation).pieces);
            && i < |frames| && r.registeredAt <= r.future.place < |s.log|
            && Classify(frames[i], peer.dongle, peer.inverter) == Fc4(r.start, s.log[r.future.place].values)
            && FrameMeaning.AnswerBytes(frames[i], peer.dongle, peer.inverter, r.start,
                                        s.log[r.future.place].values)
            && |s.log[r.future.place].values| == r.count
  {
    hide WireRun, Heard, Observed, Usable, Classify, FrameDecoder.Frames, Reachable, Inv, StreamFraming.Run,
         FrameMeaning.AnswerBytes, Response.Framed;
    var s := WireRun(trace, peer).session;
    var r := s.requests[id];
    WireReachable(trace, peer);
    PendingIsCurrent(s, id);
    InHistory(s.log, r.future.place);
    HistoryIsDecoded(trace, peer, r.generation);
    var frames := FrameDecoder.Frames(Decoded(trace, peer, r.generation).pieces);
    i := UsableSource(frames, peer, Answer(r.start, s.log[r.future.place].values));
    DecodedAreFramed(Heard(trace, peer, r.generation));
    FrameMeaning.AnswerExactly(frames[i], peer.dongle, peer.inverter, r.start, s.log[r.future.place].values);
  }

  // ---------- of the object ----------

  /** Whatever has happened to the session object, its history is what its connections said. */
  lemma ObjectHistory(session: ReadSession.LuxReadSession, g: nat)
    requires session.Lived()
    ensures Reachable(session.Model())
    ensures Observed(session.log, g)
         == Usable(FrameDecoder.Frames(Decoded(session.trace, session.Addressed(), g).pieces), session.Addressed())
  {
    hide WireRun, Observed, Usable, Decoded, Reachable, FrameDecoder.Frames;
    WireReachable(session.trace, session.Addressed());
    HistoryIsDecoded(session.trace, session.Addressed(), g);
  }

  /** Whatever comes over the wire, the session goes on as the state machine does. */
  lemma {:induction false} GoesOn(trace: seq<WireEvent>, more: seq<WireEvent>, peer: Peer) returns (events: seq<Event>)
    ensures WireRun(trace + more, peer).session == Run(WireRun(trace, peer).session, events)
    decreases |more|
  {
    if more == [] {
      assert trace + more == trace;
      events := [];
    } else {
      hide WireRun, WireStep;
      var last := |more| - 1;
      var before := GoesOn(trace, more[..last], peer);
      assert trace + more == (trace + more[..last]) + [more[last]];
      WireRunSnoc(trace + more[..last], more[last], peer);
      events := OneMoreStep(WireRun(trace, peer).session, before, WireRun(trace + more[..last], peer), more[last],
                            peer);
    }
  }

  lemma OneMoreStep(s: State, before: seq<Event>, w: Wire, e: WireEvent, peer: Peer) returns (events: seq<Event>)
    requires w.session == Run(s, before)
    ensures WireStep(w, e, peer).session == Run(s, events)
  {
    events := before;
    var step := match e
      case Region(event) => event
      case SocketRead(g, chunk, clock) =>
        if Listening(w.session, g) then
          Chunk(g, Deliveries(FrameDecoder.Frames(FrameDecoder.Scan(w.buffer + chunk, RULES).pieces), peer.dongle,
                              peer.inverter, clock, w.session.counters.routed))
        else Chunk(g, [])
      case PartialTimeout(_) => ConnectBegin;
    if !e.PartialTimeout? && !(e.Region? && e.event.Chunk?) {
      assert (before + [step])[..|before|] == before;
      events := before + [step];
    }
    hide Step, Listening, Empties, Deliveries, FrameDecoder.Scan, FrameDecoder.Frames;
  }

  /**
   * Once a request of the object has timed out, ended ambiguously or been cancelled, everything the object accepts
   * from then on came over a newer connection.
   */
  twostate lemma ObjectFenced(session: ReadSession.LuxReadSession, id: nat)
    requires old(session.Lived()) && session.Lived() && old(session.trace) <= session.trace
    requires id < |old(session.requests)| && Retired(old(session.requests)[id])
    ensures |session.log| >= |old(session.log)| && session.log[..|old(session.log)|] == old(session.log)
    ensures forall k :: |old(session.log)| <= k < |session.log| ==>
              session.log[k].generation > old(session.requests)[id].generation
  {
    hide WireRun, Run, Reachable, Inv;
    var earlier, peer := old(session.trace), session.Addressed();
    var more := session.trace[|earlier|..];
    assert session.trace == earlier + more;
    WireReachable(earlier, peer);
    var events := GoesOn(earlier, more, peer);
    ReachableInv(old(session.Model()));
    LateRepliesFenced(old(session.Model()), events, id);
    RunKeeps(old(session.Model()), events);
  }

  /** Whatever a decoder has been through, the frames it handed over are as long as their headers say. */
  lemma {:induction false} DecodedAreFramed(ops: seq<StreamFraming.Op>)
    ensures forall f :: f in FrameDecoder.Frames(StreamFraming.Run(ops, RULES).pieces) ==> Response.Framed(f)
    decreases |ops|
  {
    hide Response.Framed, FrameDecoder.Scan, FrameDecoder.Frames;
    if ops == [] {
      UnheardOf();
    } else {
      var before, op := ops[..|ops| - 1], ops[|ops| - 1];
      DecodedAreFramed(before);
      assert ops == before + [op];
      match op
      case Feed(chunk) =>
        Fed(before, chunk);
        ReadSession.FramesAreFramed(StreamFraming.Run(before, RULES).buffer + chunk, RULES);
      case DiscardPartial => Discarded(before);
      hide StreamFraming.Run;
    }
  }

  /**
   * Every accepted observation of the object is a frame decoded from the bytes of its connection, and its bytes spell
   * the observation: whom it is from, its range and its values.
   */
  lemma ObservationWasRead(session: ReadSession.LuxReadSession, k: nat) returns (i: nat)
    requires session.Lived() && k < |session.log|
    ensures var a := session.log[k];
            var frames := FrameDecoder.Frames(Decoded(session.trace, session.Addressed(), a.generation).pieces);
            && i < |frames|
            && Classify(frames[i], session.dongleSerial, session.inverterSerial) == Fc4(a.start, a.values)
            && FrameMeaning.AnswerBytes(frames[i], session.dongleSerial, session.inverterSerial, a.start, a.values)
  {
    hide WireRun, Observed, Usable, Heard, Reachable, Classify, FrameDecoder.Frames, FrameMeaning.AnswerBytes,
         StreamFraming.Run, Response.Framed;
    var a, peer := session.log[k], session.Addressed();
    InHistory(session.log, k);
    ObjectHistory(session, a.generation);
    var frames := FrameDecoder.Frames(Decoded(session.trace, peer, a.generation).pieces);
    i := UsableSource(frames, peer, Answer(a.start, a.values));
    DecodedAreFramed(Heard(session.trace, peer, a.generation));
    FrameMeaning.AnswerExactly(frames[i], session.dongleSerial, session.inverterSerial, a.start, a.values);
  }

  /** All four values come from one response that spans the first block. */
  predicate ComputedFrom(n: DirectEnergy.Snapshot, c: FrameClass) {
    && c.Fc4? && c.start == 0 && |c.values| == Registers.HARDWARE_READ_BLOCK_SIZE
    && n.pinv.value == Some(c.values[DirectEnergy.PINV])
    && n.prec.value == Some(c.values[DirectEnergy.PREC])
    && n.grid.value == Some(c.values[DirectEnergy.PTOGRID] as int - c.values[DirectEnergy.PTOUSER] as int)
    && n.soc.value == Some(c.values[DirectEnergy.SOC_SOH] % 256)
  }

  /** So a coherent direct-energy snapshot of its maps shows one frame that one connection carried, and no other. */
  lemma CoherentFrameWasRead(session: ReadSession.LuxReadSession, k: nat) returns (i: nat)
    requires session.Valid() && session.Lived()
    requires DirectEnergy.DirectEnergySnapshot(session.store.Model()).coherentSequence == Some(k)
    ensures 1 <= k <= |session.log|
    ensures var frames := FrameDecoder.Frames(Decoded(session.trace, session.Addressed(),
                                                      session.log[k - 1].generation).pieces);
            && i < |frames|
            && ComputedFrom(DirectEnergy.DirectEnergySnapshot(session.store.Model()),
                            Classify(frames[i], session.dongleSerial, session.inverterSerial))
  {
    hide ObservationStore.StoreOf, DirectEnergy.DirectEnergySnapshot, WireRun, Decoded, Classify, FrameDecoder.Frames,
         ObservationStore.Newest;
    DirectEnergy.CoherentExactly(session.log, k);
    DirectEnergy.CoherentValues(session.log, k);
    i := ObservationWasRead(session, k - 1);
  }
}
