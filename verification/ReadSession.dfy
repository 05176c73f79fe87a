/** The session object: the same regions as the state machine, working on its fields, from bytes on the wire. */
module ReadSession {
  import opened Options
  import opened Bytes
  import opened Response
  import Request
  import FrameDecoder
  import FrameMeaning
  import opened SessionProtocol
  import opened SessionSafety
  import opened ObservationStore
  import opened WireTrace
  import Subscriptions

  class LuxReadSession {
    const dongleSerial: seq<byte>
    const inverterSerial: seq<byte>
    var generation: nat
    var connection: Option<nat>
    var connectionLost: bool
    var readers: map<nat, ReaderState>
    var lock: Lock
    var pending: Option<nat>
    var inFlight: Option<nat>
    var requests: seq<SessionProtocol.Request>
    var log: seq<Accepted>
    var counters: Counters
    var store: RegisterStore
    var decoder: FrameDecoder.LuxFrameDecoder
    const hub: Subscriptions.ObservationHub
    /** Everything that has happened to the object, in order. */
    ghost var trace: seq<WireEvent>

    ghost function Model(): State
      reads this
    {
      State(generation, connection, connectionLost, readers, lock, pending, inFlight, requests, log, counters)
    }

    /** The register maps show the accepted history, and its observations are the ones published, by number. */
    ghost predicate Published()
      reads this`log, this`store, store, hub
    {
      store.Model() == StoreOf(log) && hub.Valid() && hub.sequence == |log|
    }

    ghost predicate Valid()
      reads this`log, this`store, this`decoder, store, decoder, hub
    {
      Published() && decoder.max == FrameDecoder.MAX_PACKET_SIZE
    }

    ghost function Addressed(): Peer {
      Peer(dongleSerial, inverterSerial)
    }

    /** What the session is, its history has made of it. */
    ghost predicate Lived()
      reads this, decoder
    {
      Wire(Model(), decoder.buffer) == WireRun(trace, Addressed())
    }

    /** One more region of the history, when it moved the session as the state machine moves. */
    twostate lemma Advances(e: Event)
      requires old(Lived()) && !e.Chunk? && trace == old(trace) + [Region(e)]
      requires Model() == Step(old(Model()), e)
      requires decoder.buffer == if Empties(old(Model()), e) then [] else old(decoder.buffer)
      ensures Lived()
    {
      WireRunSnoc(old(trace), Region(e), Addressed());
      hide WireRun, Step, Empties;
    }

    constructor (dongle: seq<byte>, inverter: seq<byte>)
      requires |dongle| == 10 && |inverter| == 10
      ensures Valid() && Model() == INITIAL && dongleSerial == dongle && inverterSerial == inverter
      ensures Lived() && trace == []
      ensures fresh(store) && fresh(decoder) && fresh(hub) && hub.subscribers == []
    {
      dongleSerial, inverterSerial := dongle, inverter;
      generation, connection, connectionLost, readers, lock := 0, None, false, map[], Free;
      pending, inFlight, requests, log, counters := None, None, [], [], INITIAL.counters;
      store := new RegisterStore();
      decoder := new FrameDecoder.LuxFrameDecoder(FrameDecoder.MAX_PACKET_SIZE);
      hub := new Subscriptions.ObservationHub();
      trace := [];
    }

    /** `_connect_locked` up to its dial; a session that is connected already does not dial. */
    method BeginConnect() returns (dial: bool)
      requires lock.Free?
      modifies this`lock, this`trace
      ensures dial <==> !Connected(old(Model()))
      ensures Model() == Step(old(Model()), ConnectBegin) && trace == old(trace) + [Region(ConnectBegin)]
      ensures old(Lived()) ==> Lived()
    {
      dial := !(connection.Some? && connection.value in readers && readers[connection.value] != Exited);
      if dial {
        lock := Dialing;
      }
      trace := trace + [Region(ConnectBegin)];
      hide Step, WireRun;
      if old(Lived()) {
        Advances(ConnectBegin);
      }
    }

    method FailConnect()
      requires lock.Dialing?
      modifies this`lock, this`trace
      ensures Model() == Step(old(Model()), ConnectFailed) && trace == old(trace) + [Region(ConnectFailed)]
      ensures old(Lived()) ==> Lived()
    {
      lock := Free;
      trace := trace + [Region(ConnectFailed)];
      if old(Lived()) {
        Advances(ConnectFailed);
      }
    }

    /** The dial has succeeded while the lifecycle lock was held: install a new generation with its own decoder. */
    method InstallConnection()
      requires Valid() && lock.Dialing?
      modifies this`generation, this`decoder, this`connection, this`lock, this`connectionLost, this`counters,
               this`readers, this`trace
      ensures Valid() && Model() == Step(old(Model()), ConnectDone)
      ensures fresh(decoder) && decoder.buffer == []
      ensures trace == old(trace) + [Region(ConnectDone)] && (old(Lived()) ==> Lived())
    {
      hide WireRun, Step;
      OpenGeneration();
      trace := trace + [Region(ConnectDone)];
      if old(Lived()) {
        Advances(ConnectDone);
      }
    }

    /** What it does to the session. */
    method OpenGeneration()
      requires Valid() && lock.Dialing?
      modifies this`generation, this`decoder, this`connection, this`lock, this`connectionLost, this`counters,
               this`readers
      ensures Valid() && Model() == Step(old(Model()), ConnectDone)
      ensures fresh(decoder) && decoder.buffer == []
    {
      hide StoreOf, Published;
      var empty := new FrameDecoder.LuxFrameDecoder(FrameDecoder.MAX_PACKET_SIZE);
      generation := generation + 1;
      decoder := empty;
      connection := Some(generation);
      lock := Free;
      connectionLost := false;
      counters := counters.(connections := counters.connections + 1);
      readers := readers[generation := Reading];
    }

    /** `_fail_pending`: the future is settled once, and the slot is free again. */
    method FailPending(reason: Outcome)
      modifies this`pending, this`requests
      ensures Model() == SettlePending(old(Model()), reason)
    {
      var was := pending;
      pending := None;
      if was.Some? && was.value < |requests| {
        var r := requests[was.value];
        requests := requests[was.value := r.(future := if r.future.Unset? then Failed(reason) else r.future)];
      }
    }

    /** `async_close` up to its first await, on behalf of the caller or of a request being given up. */
    method BeginClose(byRequest: bool)
      modifies this`connection, this`connectionLost, this`generation, this`lock, this`pending, this`requests
      ensures Model() == CloseRegion(old(Model()), byRequest)
    {
      connection := None;
      connectionLost := false;
      generation := generation + 1;
      lock := Closing(byRequest);
      FailPending(SessionClosed);
    }

    /** `async_close` for its caller, up to its first await. */
    method Close()
      requires lock.Free?
      modifies this`connection, this`connectionLost, this`generation, this`lock, this`pending, this`requests,
               this`trace
      ensures Model() == Step(old(Model()), CloseBegin) && trace == old(trace) + [Region(CloseBegin)]
      ensures old(Lived()) ==> Lived()
    {
      hide CloseRegion, WireRun;
      BeginClose(false);
      trace := trace + [Region(CloseBegin)];
      if old(Lived()) {
        Advances(CloseBegin);
      }
    }

    /** Its last region: the decoder is emptied and the lifecycle lock released. */
    method EndClose()
      requires lock == Closing(false)
      modifies this`lock, this`trace, decoder
      ensures Model() == Step(old(Model()), CloseEnd) && trace == old(trace) + [Region(CloseEnd)]
      ensures decoder.buffer == [] && (old(Lived()) ==> Lived())
    {
      hide WireRun;
      decoder.Reset();
      lock := Free;
      trace := trace + [Region(CloseEnd)];
      if old(Lived()) {
        Advances(CloseEnd);
      }
    }

    /**
     * The synchronous head of `async_read_input`: build the packet, let the guard look at it, register the request.
     * Returns the bytes handed to the socket, or nothing when the source raises before registering.
     */
    method RegisterRead(start: int, count: int) returns (packet: Option<seq<byte>>)
      requires |dongleSerial| == 10 && |inverterSerial| == 10
      modifies this`pending, this`inFlight, this`requests, this`counters, this`trace
      ensures Model() == Step(old(Model()), Register(start, count))
      ensures trace == old(trace) + [Region(Register(start, count))] && (old(Lived()) ==> Lived())
      ensures packet.Some?
              ==> |requests| == |old(requests)| + 1 && pending == Some(|old(requests)|) && ValidRange(start, count)
      ensures packet.Some? ==>
                packet.value == Request.RequestPacket(dongleSerial, inverterSerial, Request.READ_INPUT, start, count)
      ensures packet.None? ==> Model() == old(Model())
    {
      hide WireRun;
      trace := trace + [Region(Register(start, count))];
      packet := FileRequest(start, count);
      if old(Lived()) {
        Advances(Register(start, count));
      }
    }

    /** What it does to the session. */
    method FileRequest(start: int, count: int) returns (packet: Option<seq<byte>>)
      requires |dongleSerial| == 10 && |inverterSerial| == 10
      modifies this`pending, this`inFlight, this`requests, this`counters
      ensures Model() == Step(old(Model()), Register(start, count))
      ensures packet.Some?
              ==> |requests| == |old(requests)| + 1 && pending == Some(|old(requests)|) && ValidRange(start, count)
      ensures packet.Some? ==>
                packet.value == Request.RequestPacket(dongleSerial, inverterSerial, Request.READ_INPUT, start, count)
      ensures packet.None? ==> Model() == old(Model())
    {
      hide Request.RequestPacket, Request.Guard;
      if !ValidRange(start, count) || inFlight.Some? || pending.Some? {
        return None;
      }
      if connection.None? || connection.value !in readers || readers[connection.value] == Exited {
        return None;
      }
      var built := Request.PreparePacketForRead(dongleSerial, inverterSerial, start, count, Request.READ_INPUT);
      // The guard cannot fire on a packet the builder has just built.
      Request.GuardExact(built.bytes, dongleSerial, inverterSerial, start, count);
      assert Request.Guard(built.bytes, dongleSerial, inverterSerial, start, count) == Request.Send;
      pending := Some(|requests|);
      inFlight := Some(|requests|);
      requests := requests + [SessionProtocol.Request(start, count, generation, |log|, Unset, Draining, None)];
      counters := counters.(explicitRequests := counters.explicitRequests + 1);
      packet := Some(built.bytes);
    }

    /** The slot is freed, the future dropped and the generation fenced off, before anything is awaited. */
    method FenceRequest(outcome: Outcome)
      requires SessionProtocol.Waiting(Model())
      modifies this`pending, this`requests, this`counters, this`generation
      ensures Model() == Fenced(old(Model()), outcome)
    {
      var id := inFlight.value;
      var r := requests[id];
      if pending == Some(id) {
        pending := None;
      }
      requests := requests[id := r.(future := if r.future.Unset? then Dropped else r.future,
                                    phase := Tainted, outcome := Some(outcome))];
      counters := counters.(timeouts := counters.timeouts + (if outcome.ResponseTimeout? then 1 else 0),
                            ambiguous := counters.ambiguous +
                                (if outcome.AmbiguousDrain? || outcome.AmbiguousIo? then 1 else 0));
      generation := generation + 1;
    }

    /**
     * The except branches that cannot tell what the inverter received, up to the point where they await the lifecycle
     * lock or the close: all in one region.
     */
    method GiveUpRequest(outcome: Outcome)
      requires SessionProtocol.Waiting(Model())
      modifies this`pending, this`requests, this`counters, this`generation, this`connection, this`connectionLost,
               this`lock
      ensures Model() == Taint(old(Model()), outcome)
    {
      hide CloseRegion, Fenced;
      FenceRequest(outcome);
      if lock.Free? {
        BeginClose(true);
      }
    }

    /** A deadline has passed: ambiguous while the writer drains, a timeout once it has. */
    method ExpireRequest()
      requires SessionProtocol.Waiting(Model())
      modifies this`pending, this`requests, this`counters, this`generation, this`connection, this`connectionLost,
               this`lock, this`trace
      ensures Model() == Step(old(Model()), Expire) && trace == old(trace) + [Region(Expire)]
      ensures old(Lived()) ==> Lived()
    {
      hide Taint, WireRun;
      trace := trace + [Region(Expire)];
      GiveUpRequest(if requests[inFlight.value].phase.Draining? then AmbiguousDrain else ResponseTimeout);
      if old(Lived()) {
        Advances(Expire);
      }
    }

    method CancelRequest()
      requires SessionProtocol.Waiting(Model())
      modifies this`pending, this`requests, this`counters, this`generation, this`connection, this`connectionLost,
               this`lock, this`trace
      ensures Model() == Step(old(Model()), Cancel) && trace == old(trace) + [Region(Cancel)]
      ensures old(Lived()) ==> Lived()
    {
      hide Taint, WireRun;
      trace := trace + [Region(Cancel)];
      GiveUpRequest(Cancelled);
      if old(Lived()) {
        Advances(Cancel);
      }
    }

    method FailDrain()
      requires SessionProtocol.Waiting(Model()) && requests[inFlight.value].phase.Draining?
      modifies this`pending, this`requests, this`counters, this`generation, this`connection, this`connectionLost,
               this`lock, this`trace
      ensures Model() == Step(old(Model()), IoError) && trace == old(trace) + [Region(IoError)]
      ensures old(Lived()) ==> Lived()
    {
      hide Taint, WireRun;
      trace := trace + [Region(IoError)];
      GiveUpRequest(AmbiguousIo);
      if old(Lived()) {
        Advances(IoError);
      }
    }

    /** The bytes of the request have left; from here on its reply is awaited. */
    method DrainCompleted()
      requires SessionProtocol.Waiting(Model()) && requests[inFlight.value].phase.Draining?
      modifies this`requests, this`trace
      ensures Model() == Step(old(Model()), DrainDone) && trace == old(trace) + [Region(DrainDone)]
      ensures old(Lived()) ==> Lived()
    {
      hide WireRun;
      requests := requests[inFlight.value := requests[inFlight.value].(phase := Replying)];
      trace := trace + [Region(DrainDone)];
      if old(Lived()) {
        Advances(DrainDone);
      }
    }

    /** The close a given-up request has been waiting for begins once the lifecycle lock is free. */
    method CloseTainted()
      requires InTaintedPhase(Model()) && lock.Free?
      modifies this`connection, this`connectionLost, this`generation, this`lock, this`pending, this`requests,
               this`trace
      ensures Model() == Step(old(Model()), TaintedClose) && trace == old(trace) + [Region(TaintedClose)]
      ensures old(Lived()) ==> Lived()
    {
      hide CloseRegion, WireRun;
      BeginClose(true);
      trace := trace + [Region(TaintedClose)];
      if old(Lived()) {
        Advances(TaintedClose);
      }
    }

    /** The `finally` branch: the request is finalised and the request lock released. */
    method Conclude(outcome: Outcome)
      requires inFlight.Some? && inFlight.value < |requests|
      modifies this`inFlight, this`requests, this`counters
      ensures Model() == Finish(old(Model()), outcome)
    {
      var id := inFlight.value;
      requests := requests[id := requests[id].(phase := Finished, outcome := Some(outcome))];
      counters := counters.(finalised := counters.finalised + 1,
                            successes := counters.successes + (if outcome.Success? then 1 else 0));
      inFlight := None;
    }

    /** A given-up request is finalised with the outcome already recorded for it, and lets go of a lock it holds. */
    method FinishGivenUp()
      requires InTaintedPhase(Model())
      modifies this`lock, this`inFlight, this`requests, this`counters
      ensures Model() == FinishTainted(old(Model()))
    {
      hide Finish;
      var recorded := requests[inFlight.value].outcome;
      if lock == Closing(true) {
        lock := Free;
      }
      Conclude(if recorded.Some? then recorded.value else SessionClosed);
    }

    /** That close has ended. */
    method EndTainted()
      requires InTaintedPhase(Model()) && lock == Closing(true)
      modifies this`lock, this`inFlight, this`requests, this`counters, this`trace, decoder
      ensures Model() == Step(old(Model()), TaintedEnd) && trace == old(trace) + [Region(TaintedEnd)]
      ensures decoder.buffer == [] && (old(Lived()) ==> Lived())
    {
      hide FinishTainted, WireRun;
      decoder.Reset();
      FinishGivenUp();
      trace := trace + [Region(TaintedEnd)];
      if old(Lived()) {
        Advances(TaintedEnd);
      }
    }

    /** A cancellation while a given-up request awaits its close cuts the cleanup short. */
    method CancelTainted()
      requires InTaintedPhase(Model())
      modifies this`lock, this`inFlight, this`requests, this`counters, this`trace
      ensures Model() == Step(old(Model()), Cancel) && trace == old(trace) + [Region(Cancel)]
      ensures old(Lived()) ==> Lived()
    {
      hide FinishTainted, WireRun;
      FinishGivenUp();
      trace := trace + [Region(Cancel)];
      if old(Lived()) {
        Advances(Cancel);
      }
    }

    /** The awaited future is done: finalise the request with what it holds and release the request lock. */
    method FinishRequest()
      requires SessionProtocol.Waiting(Model()) && requests[inFlight.value].phase.Replying?
      requires requests[inFlight.value].future.Result? || requests[inFlight.value].future.Failed?
      modifies this`requests, this`inFlight, this`counters, this`trace
      ensures Model() == Step(old(Model()), Resume) && trace == old(trace) + [Region(Resume)]
      ensures old(Lived()) ==> Lived()
    {
      hide WireRun;
      hide Finish;
      var future := requests[inFlight.value].future;
      Conclude(if future.Result? then Success else future.reason);
      trace := trace + [Region(Resume)];
      if old(Lived()) {
        Advances(Resume);
      }
    }

    /** The reader of generation `g` has met an exception, such as a closed socket or too long a silence. */
    method FailReader(g: nat)
      requires g in readers && readers[g].Reading?
      modifies this`readers, this`trace
      ensures Model() == Step(old(Model()), ReaderError(g)) && trace == old(trace) + [Region(ReaderError(g))]
      ensures old(Lived()) ==> Lived()
    {
      hide WireRun;
      readers := readers[g := if g == generation then Failing else Exited];
      trace := trace + [Region(ReaderError(g))];
      if old(Lived()) {
        Advances(ReaderError(g));
      }
    }

    /** A cancelled reader is gone; only a reader whose generation has passed is ever cancelled. */
    method ExitReader(g: nat)
      requires g in readers && g != generation
      modifies this`readers, this`trace
      ensures Model() == Step(old(Model()), ReaderExit(g)) && trace == old(trace) + [Region(ReaderExit(g))]
      ensures old(Lived()) ==> Lived()
    {
      hide WireRun;
      readers := readers[g := Exited];
      trace := trace + [Region(ReaderExit(g))];
      if old(Lived()) {
        Advances(ReaderExit(g));
      }
    }

    /** `_reader_failed` once it holds the lifecycle lock, up to its next await; a stale reader changes nothing. */
    method ReaderFailed(g: nat)
      requires lock.Free? && g in readers && readers[g].Failing?
      modifies this`connection, this`connectionLost, this`generation, this`lock, this`pending, this`requests,
               this`counters, this`readers, this`trace
      ensures Model() == Step(old(Model()), SessionProtocol.ReaderFailed(g))
      ensures trace == old(trace) + [Region(SessionProtocol.ReaderFailed(g))] && (old(Lived()) ==> Lived())
    {
      hide WireRun, Step;
      trace := trace + [Region(SessionProtocol.ReaderFailed(g))];
      LoseConnection(g);
      if old(Lived()) {
        Advances(SessionProtocol.ReaderFailed(g));
      }
    }

    /** What it does to the session. */
    method LoseConnection(g: nat)
      requires lock.Free? && g in readers && readers[g].Failing?
      modifies this`connection, this`connectionLost, this`generation, this`lock, this`pending, this`requests,
               this`counters, this`readers
      ensures Model() == Step(old(Model()), SessionProtocol.ReaderFailed(g))
    {
      hide SettlePending;
      if g != generation {
        readers := readers[g := Exited];
        return;
      }
      connection := None;
      generation := generation + 1;
      connectionLost := true;
      lock := CleaningUp(g);
      counters := counters.(losses := counters.losses + 1);
      FailPending(ConnectionLost);
    }

    /** Its last region: the decoder is emptied, the lifecycle lock released and the reader gone. */
    method EndCleanup()
      requires lock.CleaningUp?
      modifies this`lock, this`readers, this`trace, decoder
      ensures Model() == Step(old(Model()), CleanupDone) && trace == old(trace) + [Region(CleanupDone)]
      ensures decoder.buffer == [] && (old(Lived()) ==> Lived())
    {
      hide WireRun;
      decoder.Reset();
      readers := readers[lock.reader := Exited];
      lock := Free;
      trace := trace + [Region(CleanupDone)];
      if old(Lived()) {
        Advances(CleanupDone);
      }
    }

    /** `_route_frame`: what is logged, the frame's bytes spell; every answer of the current generation is logged. */
    method RouteFrame(frame: seq<byte>, g: nat, at: int)
      requires Valid() && Framed(frame)
      modifies this`log, this`counters, this`pending, this`requests, store, hub
      ensures Valid() && Model() == Route(old(Model()), Routed(Classify(frame, dongleSerial, inverterSerial), at), g)
      ensures |log| > |old(log)| ==>
                FrameMeaning.AnswerBytes(frame, dongleSerial, inverterSerial, log[|old(log)|].start,
                                         log[|old(log)|].values)
      ensures forall start, values ::
                g == generation && FrameMeaning.AnswerBytes(frame, dongleSerial, inverterSerial, start, values) ==>
                  |log| > |old(log)| && log[|old(log)|].start == start && log[|old(log)|].values == values
    {
      hide StoreOf, Published, Route, Classify, Framed, FrameMeaning.AnswerBytes;
      FrameMeaning.RoutedBytes(Model(), frame, dongleSerial, inverterSerial, at, g);
      DispatchFrame(frame, g, at);
    }

    method DispatchFrame(frame: seq<byte>, g: nat, at: int)
      requires Valid() && Framed(frame)
      modifies this`log, this`counters, this`pending, this`requests, store, hub
      ensures Valid() && Model() == Route(old(Model()), Routed(Classify(frame, dongleSerial, inverterSerial), at), g)
      ensures generation == old(generation)
    {
      hide StoreOf, Parse, Record, ValueList, AcceptFc4, SettlePending, Published;
      if g != generation {
        return;
      }
      counters := counters.(routed := counters.routed + 1);
      var response := ParseResponse(frame);
      if !response.packetError && response.tcpFunction == FUNCTION_193 {
        counters := counters.(fc193 := counters.fc193 + 1);
        return;
      }
      var targeted := Targeted(response, dongleSerial, inverterSerial);
      var candidate := if pending.Some? && pending.value < |requests|
          && requests[pending.value].generation == generation
                       then pending else None;
      if targeted && response.deviceFunction == FC4_REJECTED && response.register >= 0 {
        if candidate.Some? && response.register == requests[candidate.value].start {
          counters := counters.(rejections := counters.rejections + 1);
          FailPending(Rejected);
        } else {
          counters := counters.(routerRejected := counters.routerRejected + 1);
        }
        return;
      }
      if !(targeted && WellShaped(response)) {
        counters := counters.(routerRejected := counters.routerRejected + 1);
        return;
      }
      AcceptFrame(response.register, ValueList(response), candidate, at);
    }

    /** An accepted observation enters the maps and the history, and is offered to every subscriber. */
    method RecordObservation(accepted: Accepted)
      requires Published()
      modifies this`log, store, hub
      ensures Published() && log == old(log) + [accepted] && |hub.subscribers| == |old(hub.subscribers)|
      ensures forall i :: 0 <= i < |hub.subscribers| ==>
                hub.subscribers[i] == Subscriptions.Offer(old(hub.subscribers)[i], |log|)
    {
      hide StoreOf, Record;
      StoreOfAppend(log, accepted);
      var _ := store.Accept(accepted);
      hub.Publish();
      log := log + [accepted];
    }

    /** The tail of `_route_frame`, once the frame is known to be a usable FC4 response. */
    method AcceptFrame(start: nat, values: seq<nat>, candidate: Option<nat>, at: int)
      requires Published() && candidate == Candidate(Model())
      modifies this`log, this`counters, this`pending, this`requests, store, hub
      ensures Published() && |hub.subscribers| == |old(hub.subscribers)|
      ensures forall i :: 0 <= i < |hub.subscribers| ==>
                hub.subscribers[i] == Subscriptions.Offer(old(hub.subscribers)[i], |log|)
      ensures Model() == AcceptFc4(old(Model()), start, values, at)
    {
      hide Published, Subscriptions.Offer;
      var explicit := candidate.Some? && requests[candidate.value].start == start
                      && requests[candidate.value].count == |values|;
      RecordObservation(Accepted(start, values, at, generation, if explicit then candidate else None));
      if explicit {
        var id := candidate.value;
        var r := requests[id];
        pending := None;
        requests := requests[id := r.(future := if r.future.Unset? then Result(|log| - 1) else r.future)];
        counters := counters.(validated := counters.validated + 1, expected := counters.expected + 1);
      } else {
        counters := counters.(validated := counters.validated + 1, unmatched := counters.unmatched + 1);
      }
    }

    /** The loop over the frames of one chunk. */
    method RouteFrames(frames: seq<seq<byte>>, g: nat, clock: nat -> int)
      requires Valid() && g == generation && forall f :: f in frames ==> Framed(f)
      modifies this`log, this`counters, this`pending, this`requests, store, hub
      ensures Valid()
      ensures Model() == RouteAll(old(Model()),
              Deliveries(frames, dongleSerial, inverterSerial, clock, old(counters).routed), g)
    {
      hide StoreOf, Route, Classify, Framed, Published;
      ghost var whole := RouteAll(Model(), Deliveries(frames, dongleSerial, inverterSerial, clock, counters.routed), g);
      assert frames[0..] == frames;
      for i := 0 to |frames|
        invariant Valid()
        invariant whole == RouteAll(Model(),
                  Deliveries(frames[i..], dongleSerial, inverterSerial, clock, counters.routed), g)
      {
        assert frames[i..][0] == frames[i] && frames[i..][1..] == frames[i + 1..];
        RouteCounts(Model(), Routed(Classify(frames[i], dongleSerial, inverterSerial), clock(counters.routed)));
        RouteFrame(frames[i], g, clock(counters.routed));
      }
      assert frames[|frames|..] == [];
    }

    /**
     * One read of the socket returns to the reader of generation `g`. Bytes of a passed generation end that reader and
     * nothing else; otherwise its decoder is fed and every completed frame is routed.
     */
    method ReceiveChunk(g: nat, chunk: seq<byte>, clock: nat -> int)
      requires Valid() && g in readers && readers[g].Reading?
      modifies this`log, this`counters, this`pending, this`requests, this`readers, this`trace, store, hub, decoder
      ensures Valid()
      ensures var o := FrameDecoder.Scan(old(decoder.buffer) + chunk, RULES);
              var routed := Deliveries(FrameDecoder.Frames(o.pieces), dongleSerial, inverterSerial, clock,
                                       old(counters).routed);
              && decoder.buffer == (if g == generation then o.rest else old(decoder.buffer))
              && Model() == Step(old(Model()), Chunk(g, routed))
      ensures g != generation ==> Model() == old(Model()).(readers := readers) && readers == old(readers)[g := Exited]
      ensures g != generation ==> store.Model() == old(store.Model()) && hub.subscribers == old(hub.subscribers)
      ensures trace == old(trace) + [SocketRead(g, chunk, clock)] && (old(Lived()) ==> Lived())
    {
      hide StoreOf, Published, RouteAll, Deliveries, FrameDecoder.Scan, FrameDecoder.Frames, WireRun;
      trace := trace + [SocketRead(g, chunk, clock)];
      WireRunSnoc(old(trace), SocketRead(g, chunk, clock), Addressed());
      if g != generation {
        readers := readers[g := Exited];
      } else {
        DecodeChunk(chunk, clock);
      }
    }

    /** Bytes of the current generation: its decoder is fed, and every completed frame routed. */
    method DecodeChunk(chunk: seq<byte>, clock: nat -> int)
      requires Valid()
      modifies this`log, this`counters, this`pending, this`requests, store, hub, decoder
      ensures Valid()
      ensures var o := FrameDecoder.Scan(old(decoder.buffer) + chunk, RULES);
              && decoder.buffer == o.rest
              && Model() == RouteAll(old(Model()), Deliveries(FrameDecoder.Frames(o.pieces), dongleSerial,
                                                              inverterSerial, clock, old(counters).routed), generation)
    {
      hide StoreOf, Published, RouteAll, Deliveries, FrameDecoder.Scan, FrameDecoder.Frames;
      FramesAreFramed(decoder.buffer + chunk, RULES);
      var frames := decoder.Feed(chunk);
      RouteFrames(frames, generation, clock);
    }

    /** The current reader has waited too long for the rest of a frame and gives up what is buffered. */
    method TimeOutPartialFrame(g: nat)
      requires Valid() && Listening(Model(), g)
      modifies this`trace, decoder
      ensures Valid() && Model() == old(Model()) && decoder.buffer == []
      ensures trace == old(trace) + [PartialTimeout(g)] && (old(Lived()) ==> Lived())
    {
      hide StoreOf, WireRun;
      var _ := decoder.DiscardPartial();
      trace := trace + [PartialTimeout(g)];
      WireRunSnoc(old(trace), PartialTimeout(g), Addressed());
    }
  }

  lemma StoreOfAppend(log: seq<Accepted>, a: Accepted)
    ensures StoreOf(log + [a]) == Record(StoreOf(log), a)
  {
    hide Record;
    assert (log + [a])[..|log|] == log;
  }

  lemma RouteCounts(s: State, f: Routed)
    ensures Route(s, f, s.generation).counters.routed == s.counters.routed + 1
  {
  }

  /** Every frame the decoder hands over is exactly as long as its header says, so parsing it cannot fail. */
  lemma {:induction false} FramesAreFramed(buffer: seq<byte>, rules: FrameDecoder.Rules)
    ensures forall f :: f in FrameDecoder.Frames(FrameDecoder.Scan(buffer, rules).pieces) ==> Framed(f)
    decreases |buffer|
  {
    hide Framed, FrameDecoder.NextMove;
    match FrameDecoder.NextMove(buffer, rules)
    case Stop =>
    case Take(piece, bad) =>
      var tail := buffer[|piece.bytes|..];
      FramesAreFramed(tail, rules);
      if piece.Frame? {
        FramePieceIsFramed(buffer, rules, piece, bad);
      }
      FrameDecoder.PiecesAppend([piece], FrameDecoder.Scan(tail, rules).pieces);
  }

  lemma FramePieceIsFramed(buffer: seq<byte>, rules: FrameDecoder.Rules, piece: FrameDecoder.Piece, bad: nat)
    requires FrameDecoder.NextMove(buffer, rules) == FrameDecoder.Take(piece, bad) && piece.Frame?
    ensures Framed(piece.bytes)
  {
    hide FrameDecoder.Search;
    assert FrameDecoder.HeadOf(buffer, rules.max).Whole?;
    assert piece.bytes[4..6] == buffer[4..6] && piece.bytes[..2] == buffer[..2] == PREFIX;
  }

  // ---------- from bytes to registers ----------

  /** The inverter's answer to a valid read is classified as exactly that read's registers and values. */
  lemma GoodReplyClassified(frame: seq<byte>, protocol: nat, dongle: seq<byte>, inverter: seq<byte>, start: nat,
      values: seq<nat>)
    requires protocol in {2, 5} && |dongle| == 10 && |inverter| == 10 && ValidRange(start, |values|)
    requires forall i :: 0 <= i < |values| ==> values[i] < 0x1_0000
    requires frame == Request.ResponsePacket(protocol, dongle, inverter, start, values)
    ensures Classify(frame, dongle, inverter) == Fc4(start, values)
  {
    hide Parse;
    Request.ResponseParses(frame, protocol, dongle, inverter, start, values);
    Request.ParsedResponseValues(Parse(frame), protocol, dongle, inverter, start, values);
    hide ValueList, Words;
  }

  /** A reply hit by a burst of up to sixteen flipped bits never reaches a register or a request. */
  lemma DamagedReplyUnusable(frame: seq<byte>, damaged: seq<byte>, dongle: seq<byte>, inverter: seq<byte>, i: nat,
      k: bv8)
    requires AcceptedTranslated(frame) && |damaged| == |frame| >= 20 && damaged[..20] == frame[..20]
    requires i < |Protected(frame)|
    requires Crc.DifferByBurst(Protected(frame), Slice(damaged, 20, Declared(frame)), i, k)
    ensures Classify(damaged, dongle, inverter) == Unusable
  {
    CorruptionRejected(frame, damaged, i, k);
    hide Parse;
  }

  /** A complete reply arriving on an empty buffer is handed over at once, as one frame. */
  lemma ReplyIsOneFrame(packet: seq<byte>, protocol: nat, dongle: seq<byte>, inverter: seq<byte>, start: nat,
      values: seq<nat>)
    requires protocol in {2, 5} && |dongle| == 10 && |inverter| == 10 && start < 0x1_0000 && |values| <= 125
    requires forall i :: 0 <= i < |values| ==> values[i] < 0x1_0000
    requires packet == Request.ResponsePacket(protocol, dongle, inverter, start, values)
    ensures FrameDecoder.Scan(packet, FrameDecoder.Resyncing(FrameDecoder.MAX_PACKET_SIZE))
         == FrameDecoder.Outcome([FrameDecoder.Frame(packet)], 0, [])
  {
    hide AcceptedTranslated, FrameDecoder.Scan;
    var rules := FrameDecoder.Resyncing(FrameDecoder.MAX_PACKET_SIZE);
    Request.ResponseFields(packet, protocol, dongle, inverter, start, values);
    assert FrameDecoder.PrefixAt(packet, 0) by {
      assert packet[..2][0] == packet[0] && packet[..2][1] == packet[1];
    }
    FrameDecoder.ScanOfWhole(packet, rules);
    FrameDecoder.ScanOfShortFront([], rules);
    assert packet[|packet|..] == [] && packet[..|packet|] == packet;
  }

  /** Routing that reply completes the request it answers, whatever the session's past. */
  lemma ReplyCompletes(s: State, id: nat, packet: seq<byte>, protocol: nat, dongle: seq<byte>, inverter: seq<byte>,
                       values: seq<nat>, at: int)
    requires Reachable(s) && id < |s.requests| && s.pending == Some(id) && ValidRange(s.requests[id].start, |values|)
    requires |values| == s.requests[id].count && protocol in {2, 5} && |dongle| == 10 && |inverter| == 10
    requires forall i :: 0 <= i < |values| ==> values[i] < 0x1_0000
    requires packet == Request.ResponsePacket(protocol, dongle, inverter, s.requests[id].start, values)
    ensures var t := Route(s, Routed(Classify(packet, dongle, inverter), at), s.generation);
            id < |t.requests| && t.requests[id].future == Result(|s.log|)
  {
    hide Classify, Parse;
    var start := s.requests[id].start;
    GoodReplyClassified(packet, protocol, dongle, inverter, start, values);
    PendingIsCurrent(s, id);
    CompletesExactly(s, id, Routed(Fc4(start, values), at), s.generation);
  }

  /**
   * A successful read leaves every register of its range observed, no earlier than a response accepted after the
   * request was registered, however much has been routed since.
   */
  lemma SuccessObserves(s: State, id: nat, r: int)
    requires Reachable(s) && id < |s.requests| && s.requests[id].outcome == Some(Success) && ClockNeverBack(s.log)
    requires s.requests[id].start <= r < s.requests[id].start + s.requests[id].count
    ensures var shown := StoreOf(s.log).observedAt;
            r in shown && exists k :: s.requests[id].registeredAt <= k < |s.log| && s.log[k].at <= shown[r]
  {
    PendingIsCurrent(s, id);
    var k := s.requests[id].future.place;
    assert Covers(s.log[k], r, Any);
    var m := Newest(s.log, r, Any);
    assert k <= m;
    ShownTime(s.log, r);
    hide StoreOf, Newest;
    assert s.log[k].at <= s.log[m].at;
  }
}
