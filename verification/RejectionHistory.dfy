/** A request that was refused was refused by bytes that came over its own connection. */
module RejectionHistory {
  import opened Options
  import opened Bytes
  import opened SessionProtocol
  import opened SessionSafety
  import opened WireTrace
  import opened WireHistory
  import SessionCounters
  import FrameDecoder
  import StreamFraming
  import FrameMeaning
  import Response

  /** Request `id` is there before and after, for the same range on the same generation. */
  predicate SameRequest(s: State, t: State, id: nat) {
    id < |s.requests| && id < |t.requests|
    && t.requests[id].start == s.requests[id].start && t.requests[id].generation == s.requests[id].generation
  }

  predicate Refused(s: State, id: nat) {
    id < |s.requests| && s.requests[id].future == Failed(Rejected)
  }

  // ---------- what makes a request refused ----------

  lemma SettleRefuses(s: State, reason: Outcome, id: nat)
    requires id < |s.requests|
    ensures var t := SettlePending(s, reason);
            SameRequest(s, t, id) && (Refused(t, id) ==> Refused(s, id) || reason == Rejected)
  {
  }

  lemma CloseRefuses(s: State, byRequest: bool, id: nat)
    requires id < |s.requests|
    ensures var t := CloseRegion(s, byRequest); SameRequest(s, t, id) && (Refused(t, id) ==> Refused(s, id))
  {
    SettleRefuses(s.(generation := s.generation + 1, connection := None, connectionLost := false,
                     lock := Closing(byRequest)), SessionClosed, id);
    hide SettlePending;
  }

  lemma TaintRefuses(s: State, o: Outcome, id: nat)
    requires Waiting(s) && id < |s.requests|
    ensures var t := Taint(s, o); SameRequest(s, t, id) && (Refused(t, id) ==> Refused(s, id))
  {
    CloseRefuses(Fenced(s, o), true, id);
    hide CloseRegion;
  }

  lemma OtherRefuses(s: State, e: Event, id: nat)
    requires !e.Chunk? && !e.CloseBegin? && !e.TaintedClose? && !e.Expire? && !e.IoError? && !(e.Cancel? && Waiting(s))
    requires !e.Register? && id < |s.requests|
    ensures var t := Step(s, e); SameRequest(s, t, id) && (Refused(t, id) ==> Refused(s, id))
  {
    if e.ReaderFailed? {
      SettleRefuses(s.(connection := None, generation := s.generation + 1, connectionLost := true,
                       lock := CleaningUp(e.reader),
                       counters := s.counters.(losses := s.counters.losses + 1)), ConnectionLost, id);
    }
    hide SettlePending, CloseRegion, Taint, RouteAll;
  }

  /** No region but the routing of frames refuses a request. */
  lemma RegionRefusesNone(s: State, e: Event, id: nat)
    requires !e.Chunk?
    ensures Refused(Step(s, e), id) ==> Refused(s, id) && SameRequest(s, Step(s, e), id)
  {
    SessionCounters.StepFiles(s, e);
    hide SettlePending, CloseRegion, Taint, RouteAll;
    if id < |s.requests| {
      match e
      case CloseBegin => CloseRefuses(s, false, id);
      case TaintedClose => CloseRefuses(s, true, id);
      case Expire =>
        if Waiting(s) {
          TaintRefuses(s, if s.requests[s.inFlight.value].phase.Draining? then AmbiguousDrain else ResponseTimeout, id);
        }
      case IoError => if Waiting(s) { TaintRefuses(s, AmbiguousIo, id); }
      case Cancel => if Waiting(s) { TaintRefuses(s, Cancelled, id); } else { OtherRefuses(s, e, id); }
      case Register(_, _) =>
      case _ => OtherRefuses(s, e, id);
    } else {
      assert e.Register? || |Step(s, e).requests| == |s.requests|;
    }
  }

  /** A frame refuses a request only if it is the refusal of that request's start, on its generation. */
  lemma RouteRefuses(s: State, f: Routed, id: nat)
    requires id < |s.requests|
    ensures var t := Route(s, f, s.generation);
            && SameRequest(s, t, id) && t.generation == s.generation
            && (Refused(t, id) ==>
                  Refused(s, id)
                  || (f.frame == Rejection(s.requests[id].start) && s.requests[id].generation == s.generation))
  {
    hide AcceptFc4;
    if f.frame.Fc4? {
      AcceptRefuses(s.(counters := s.counters.(routed := s.counters.routed + 1)), f.frame.start, f.frame.values, f.at,
                    id);
    }
  }

  lemma AcceptRefuses(s: State, start: nat, values: seq<nat>, at: int, id: nat)
    requires id < |s.requests|
    ensures var t := AcceptFc4(s, start, values, at);
            SameRequest(s, t, id) && t.generation == s.generation && (Refused(t, id) ==> Refused(s, id))
  {
  }

  lemma {:induction false} FramesRefuse(s: State, frames: seq<seq<byte>>, peer: Peer, clock: nat -> int, id: nat)
    requires id < |s.requests|
    ensures var t := RouteAll(s, Deliveries(frames, peer.dongle, peer.inverter, clock, s.counters.routed),
                              s.generation);
            && SameRequest(s, t, id)
            && (Refused(t, id) ==>
                  Refused(s, id)
                  || (s.requests[id].generation == s.generation
                      && exists i :: 0 <= i < |frames|
                           && Classify(frames[i], peer.dongle, peer.inverter) == Rejection(s.requests[id].start)))
    decreases |frames|
  {
    hide Classify, Route, Logged;
    if frames != [] {
      hide RouteAll, Deliveries;
      var f := Routed(Classify(frames[0], peer.dongle, peer.inverter), clock(s.counters.routed));
      var u := Route(s, f, s.generation);
      FirstRouted(s, frames, peer, clock);
      RouteRefuses(s, f, id);
      FramesRefuse(u, frames[1..], peer, clock, id);
      var t := RouteAll(u, Deliveries(frames[1..], peer.dongle, peer.inverter, clock, u.counters.routed), s.generation);
      if Refused(t, id) && !Refused(u, id) {
        var i :| 0 <= i < |frames[1..]|
                 && Classify(frames[1..][i], peer.dongle, peer.inverter) == Rejection(s.requests[id].start);
        assert frames[i + 1] == frames[1..][i];
      }
    }
  }

  // ---------- over the history of the wire ----------

  ghost predicate RefusalAmong(frames: seq<seq<byte>>, peer: Peer, start: nat) {
    exists i :: 0 <= i < |frames| && Classify(frames[i], peer.dongle, peer.inverter) == Rejection(start)
  }

  /** The refusal of a refused request is among what its connection's decoder has handed over. */
  ghost predicate RefusalHeard(trace: seq<WireEvent>, peer: Peer, id: nat) {
    var s := WireRun(trace, peer).session;
    Refused(s, id) ==>
      RefusalAmong(FrameDecoder.Frames(Decoded(trace, peer, s.requests[id].generation).pieces), peer,
                   s.requests[id].start)
  }

  lemma MoreFrames(frames: seq<seq<byte>>, more: seq<seq<byte>>, peer: Peer, start: nat)
    requires RefusalAmong(frames, peer, start) || RefusalAmong(more, peer, start)
    ensures RefusalAmong(frames + more, peer, start)
  {
    hide Classify;
    if RefusalAmong(frames, peer, start) {
      var i :| 0 <= i < |frames| && Classify(frames[i], peer.dongle, peer.inverter) == Rejection(start);
      assert (frames + more)[i] == frames[i];
    } else {
      var i :| 0 <= i < |more| && Classify(more[i], peer.dongle, peer.inverter) == Rejection(start);
      assert (frames + more)[|frames| + i] == more[i];
    }
  }

  /** Whatever happens next, a decoder's frames stay, and a chunk that counts adds the frames it completes. */
  lemma DecodedGrows(trace: seq<WireEvent>, e: WireEvent, peer: Peer, g: nat)
    ensures var w := WireRun(trace, peer);
            var before := FrameDecoder.Frames(Decoded(trace, peer, g).pieces);
            FrameDecoder.Frames(Decoded(trace + [e], peer, g).pieces)
            == if e.SocketRead? && e.reader == g && Listening(w.session, g)
               then before + FrameDecoder.Frames(FrameDecoder.Scan(w.buffer + e.chunk, RULES).pieces)
               else before
  {
    RunTraced(trace, peer, g);
    HeardSnoc(trace, e, peer, g);
    NothingAppended(Heard(trace, peer, g));
    var w := WireRun(trace, peer);
    if e.SocketRead? && e.reader == g && Listening(w.session, g) {
      Fed(Heard(trace, peer, g), e.chunk);
    } else if e.PartialTimeout? && e.reader == g && Listening(w.session, g) {
      Discarded(Heard(trace, peer, g));
    }
    hide WireRun, Heard, Listening, Observed, Usable, StreamFraming.Run, FrameDecoder.Frames, FrameDecoder.Scan;
  }

  lemma StepRefuses(w: Wire, e: WireEvent, peer: Peer, id: nat)
    requires Refused(WireStep(w, e, peer).session, id)
    ensures var t := WireStep(w, e, peer).session;
            && SameRequest(w.session, t, id)
            && (Refused(w.session, id)
                || (e.SocketRead? && Listening(w.session, e.reader) && e.reader == t.requests[id].generation
                    && RefusalAmong(FrameDecoder.Frames(FrameDecoder.Scan(w.buffer + e.chunk, RULES).pieces), peer,
                                    t.requests[id].start)))
  {
    hide FrameDecoder.Frames, FrameDecoder.Scan, Deliveries, Classify, Step, RouteAll;
    var s := w.session;
    match e
    case Region(event) =>
      if !event.Chunk? {
        RegionRefusesNone(s, event, id);
      }
    case PartialTimeout(_) =>
    case SocketRead(g, chunk, clock) =>
      if Listening(s, g) {
        ChunkStep(s, g, FrameDecoder.Frames(FrameDecoder.Scan(w.buffer + chunk, RULES).pieces), peer, clock, id);
      } else {
        EmptyChunk(s, g, id);
      }
  }

  lemma EmptyChunk(s: State, g: nat, id: nat)
    ensures var t := Step(s, Chunk(g, [])); t.requests == s.requests
  {
  }

  lemma ChunkStep(s: State, g: nat, frames: seq<seq<byte>>, peer: Peer, clock: nat -> int, id: nat)
    requires Listening(s, g)
    requires Refused(Step(s, Chunk(g, Deliveries(frames, peer.dongle, peer.inverter, clock, s.counters.routed))), id)
    ensures var t := Step(s, Chunk(g, Deliveries(frames, peer.dongle, peer.inverter, clock, s.counters.routed)));
            && SameRequest(s, t, id)
            && (Refused(s, id)
                || (g == t.requests[id].generation && RefusalAmong(frames, peer, t.requests[id].start)))
  {
    var routed := Deliveries(frames, peer.dongle, peer.inverter, clock, s.counters.routed);
    SessionCounters.RouteAllFiles(s, routed, g);
    hide Deliveries, RouteAll, Classify;
    assert Step(s, Chunk(g, routed)) == RouteAll(s, routed, g);
    assert |RouteAll(s, routed, g).requests| == |s.requests|;
    FramesRefuse(s, frames, peer, clock, id);
  }

  lemma {:induction false} RefusalsHeard(trace: seq<WireEvent>, peer: Peer, id: nat)
    ensures RefusalHeard(trace, peer, id)
    decreases |trace|
  {
    hide Decoded, FrameDecoder.Frames, FrameDecoder.Scan, WireStep, RefusalAmong, Listening;
    if trace != [] {
      var before, e := trace[..|trace| - 1], trace[|trace| - 1];
      RefusalsHeard(before, peer, id);
      assert trace == before + [e];
      WireRunSnoc(before, e, peer);
      var w, t := WireRun(before, peer), WireRun(trace, peer).session;
      hide WireRun;
      if Refused(t, id) {
        StepRefuses(w, e, peer, id);
        var g, start := t.requests[id].generation, t.requests[id].start;
        DecodedGrows(before, e, peer, g);
        var heard := FrameDecoder.Frames(Decoded(before, peer, g).pieces);
        if e.SocketRead? && e.reader == g && Listening(w.session, g) {
          MoreFrames(heard, FrameDecoder.Frames(FrameDecoder.Scan(w.buffer + e.chunk, RULES).pieces), peer, start);
        }
      }
    }
  }

  /**
   * A request refused by the inverter was refused by a frame decoded from the bytes of the connection it was sent on,
   * whose bytes spell the refusal of its start.
   */
  lemma RefusalWasRead(trace: seq<WireEvent>, peer: Peer, id: nat) returns (i: nat)
    requires Refused(WireRun(trace, peer).session, id)
    ensures var r := WireRun(trace, peer).session.requests[id];
            var frames := FrameDecoder.Frames(Decoded(trace, peer, r.generation).pieces);
            i < |frames| && FrameMeaning.RejectionBytes(frames[i], peer.dongle, peer.inverter, r.start)
  {
    hide WireRun, Heard, FrameDecoder.Frames, StreamFraming.Run, Classify, Response.Framed, FrameMeaning.RejectionBytes;
    RefusalsHeard(trace, peer, id);
    var r := WireRun(trace, peer).session.requests[id];
    var frames := FrameDecoder.Frames(Decoded(trace, peer, r.generation).pieces);
    i :| 0 <= i < |frames| && Classify(frames[i], peer.dongle, peer.inverter) == Rejection(r.start);
    DecodedAreFramed(Heard(trace, peer, r.generation));
    FrameMeaning.RejectionExactly(frames[i], peer.dongle, peer.inverter, r.start);
  }
}
