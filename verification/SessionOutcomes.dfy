/** How requests end: which frame or event settles a request, and what is then recorded for it. */
module SessionOutcomes {
  import opened Options
  import opened SessionProtocol
  import opened SessionSafety
  import SessionCounters

  // ---------- one routed frame ----------

  /** What a frame of the current generation is counted as; one that is no answer and no refusal of the pending read. */
  lemma CountedByClass(s: State, f: Routed)
    ensures var c, d := s.counters, Route(s, f, s.generation).counters;
            var refuses := f.frame.Rejection? && s.pending.Some? && s.pending.value < |s.requests|
                           && s.requests[s.pending.value].generation == s.generation
                           && s.requests[s.pending.value].start == f.frame.register;
            && d.routed == c.routed + 1
            && d.fc193 == c.fc193 + (if f.frame == Fc193 then 1 else 0)
            && d.validated == c.validated + (if f.frame.Fc4? then 1 else 0)
            && d.rejections == c.rejections + (if refuses then 1 else 0)
            && d.routerRejected
            == c.routerRejected + (if f.frame == Unusable || (f.frame.Rejection? && !refuses) then 1 else 0)
  {
  }

  /**
   * A frame fails the pending request if and only if it is a refusal, on the request's connection, of its start; the
   * reason is then the refusal, and the slot is free.
   */
  lemma RejectsExactly(s: State, id: nat, f: Routed, g: nat)
    requires Reachable(s) && id < |s.requests| && s.pending == Some(id)
    ensures var t := Route(s, f, g);
            && id < |t.requests|
            && (t.requests[id].future.Failed? <==> g == s.requests[id].generation
                                                   && f.frame == Rejection(s.requests[id].start))
            && (t.requests[id].future.Failed? ==> t.requests[id].future.reason == Rejected && t.pending.None?)
            && (forall other: nat :: other < |s.requests| && other != id ==> t.requests[other] == s.requests[other])
  {
    PendingIsCurrent(s, id);
    ReachableInv(s);
    hide Reachable;
  }

  // ---------- one region ----------

  /** What each event makes of the pending request's future, apart from the frames of a chunk. */
  lemma SettledExactly(s: State, id: nat, e: Event)
    requires Reachable(s) && id < |s.requests| && s.pending == Some(id) && !e.Chunk?
    ensures var t := Step(s, e);
            && id < |t.requests|
            && (t.requests[id].future == Failed(SessionClosed) <==> e.CloseBegin?)
            && (t.requests[id].future == Failed(ConnectionLost) <==>
                  e == ReaderFailed(s.generation) && s.generation in s.readers && s.readers[s.generation].Failing?)
            && (t.requests[id].future.Dropped? <==>
                  e.Expire? || e.Cancel? || (e.IoError? && s.requests[id].phase.Draining?))
            && (t.requests[id].future.Unset? || t.requests[id].future.Dropped?
                || t.requests[id].future == Failed(SessionClosed) || t.requests[id].future == Failed(ConnectionLost))
  {
    ReachableInv(s);
    hide Reachable;
  }

  /** Request `id` holds the request lock, in this phase. */
  predicate InPhase(s: State, id: nat, phase: Phase) {
    s.inFlight == Some(id) && id < |s.requests| && s.requests[id].phase == phase
  }

  /**
   * The outcome an event gives request `id`: its own deadline, ambiguous while it drains,
       its I/O error or cancellation,
   * or what its future holds when its coroutine goes on.
   */
  function Verdict(s: State, id: nat, e: Event): Option<Outcome> {
    if e.Expire? && InPhase(s, id, Replying) then Some(ResponseTimeout)
    else if e.Expire? && InPhase(s, id, Draining) then Some(AmbiguousDrain)
    else if e.IoError? && InPhase(s, id, Draining) then Some(AmbiguousIo)
    else if e.Cancel? && (InPhase(s, id, Draining) || InPhase(s, id, Replying)) then Some(Cancelled)
    else if e.Resume? && InPhase(s, id, Replying) && s.requests[id].future.Result? then Some(Success)
    else if e.Resume? && InPhase(s, id, Replying) && s.requests[id].future.Failed?
    then Some(s.requests[id].future.reason)
    else None
  }

  lemma TaintGives(s: State, id: nat, o: Outcome)
    requires Waiting(s) && id < |s.requests|
    ensures var t := Taint(s, o);
            && id < |t.requests|
            && t.requests[id].outcome == (if s.inFlight == Some(id) then Some(o) else s.requests[id].outcome)
            && (s.pending != Some(id) && s.inFlight != Some(id) ==> t.requests[id].future == s.requests[id].future)
  {
    SettleKeepsOutcomes(Fenced(s, o).(generation := s.generation + 2, connection := None, connectionLost := false,
                                      lock := Closing(true)), SessionClosed);
    hide SettlePending;
  }

  lemma CloseGives(s: State, id: nat, byRequest: bool)
    requires id < |s.requests|
    ensures var t := CloseRegion(s, byRequest);
            && id < |t.requests| && t.requests[id].outcome == s.requests[id].outcome
            && (s.pending != Some(id) ==> t.requests[id].future == s.requests[id].future)
  {
    SettleKeepsOutcomes(s.(generation := s.generation + 1, connection := None, connectionLost := false,
                           lock := Closing(byRequest)), SessionClosed);
    hide SettlePending;
  }

  lemma LossGives(s: State, id: nat, g: nat)
    requires id < |s.requests|
    ensures var t := Step(s, ReaderFailed(g));
            && id < |t.requests| && t.requests[id].outcome == s.requests[id].outcome
            && (s.pending != Some(id) ==> t.requests[id].future == s.requests[id].future)
  {
    SettleKeepsOutcomes(s.(connection := None, generation := s.generation + 1, connectionLost := true,
                           lock := CleaningUp(g), counters := s.counters.(losses := s.counters.losses + 1)),
                        ConnectionLost);
    hide SettlePending;
  }

  /** The event leaves request `id` with the outcome it had, or gives it the one that stands for the event. */
  ghost predicate Concludes(s: State, id: nat, e: Event) {
    var t := Step(s, e);
    id < |s.requests| && id < |t.requests|
    && t.requests[id].outcome
    == (if s.requests[id].outcome.Some? then s.requests[id].outcome else Verdict(s, id, e))
    && (s.pending != Some(id) && (s.requests[id].outcome.Some? || e.Resume?) ==>
          t.requests[id].future == s.requests[id].future)
  }

  lemma GivenUpConcludes(s: State, id: nat, e: Event)
    requires id < |s.requests| && RequestOk(s.requests[id], id, s.generation, s.log)
    requires e.Expire? || e.IoError? || (e.Cancel? && Waiting(s))
    ensures Concludes(s, id, e)
  {
    hide Taint, SettlePending, CloseRegion, RouteAll;
    if Waiting(s) {
      TaintGives(s, id, if e.Cancel? then Cancelled else if e.IoError? then AmbiguousIo
                        else if s.requests[s.inFlight.value].phase.Draining? then AmbiguousDrain else ResponseTimeout);
    }
  }

  lemma FinishConcludes(s: State, id: nat, e: Event)
    requires id < |s.requests| && RequestOk(s.requests[id], id, s.generation, s.log)
    requires e.Resume? || e.TaintedEnd? || (e.Cancel? && !Waiting(s))
    ensures Concludes(s, id, e)
  {
    hide Taint, SettlePending, CloseRegion, RouteAll;
  }

  lemma OthersConclude(s: State, id: nat, e: Event)
    requires id < |s.requests|
    requires !e.Expire? && !e.IoError? && !e.Cancel? && !e.Resume? && !e.TaintedEnd?
    ensures Concludes(s, id, e)
  {
    hide RouteAll, CloseRegion, SettlePending, Taint, FinishTainted, Finish;
    match e
    case Chunk(g, frames) => ChunkKeepsOutcomes(s, frames, g);
    case CloseBegin => CloseGives(s, id, false);
    case TaintedClose => CloseGives(s, id, true);
    case ReaderFailed(g) => LossGives(s, id, g);
    case _ =>
  }

  /** An outcome is given once, by the event that stands for it, and stays whatever else happens. */
  lemma OutcomeExactly(s: State, id: nat, e: Event)
    requires Reachable(s) && id < |s.requests|
    ensures var t, before := Step(s, e), s.requests[id].outcome;
            id < |t.requests| && t.requests[id].outcome == if before.Some? then before else Verdict(s, id, e)
  {
    ReachableInv(s);
    assert RequestOk(s.requests[id], id, s.generation, s.log);
    hide Reachable, Inv, RequestOk, Step, Verdict;
    if e.Expire? || e.IoError? || (e.Cancel? && Waiting(s)) {
      GivenUpConcludes(s, id, e);
    } else if e.Resume? || e.TaintedEnd? || e.Cancel? {
      FinishConcludes(s, id, e);
    } else {
      OthersConclude(s, id, e);
    }
  }

  lemma SettleKeepsOutcomes(s: State, reason: Outcome)
    ensures var t := SettlePending(s, reason);
            && |t.requests| == |s.requests| && (t.pending == s.pending || t.pending.None?)
            && forall id: nat :: id < |s.requests| ==>
                 t.requests[id].outcome == s.requests[id].outcome
                 && (s.pending != Some(id) ==> t.requests[id].future == s.requests[id].future)
  {
  }

  lemma RouteKeepsOutcomes(s: State, f: Routed, g: nat)
    ensures var t := Route(s, f, g);
            && |t.requests| == |s.requests| && (t.pending == s.pending || t.pending.None?)
            && forall id: nat :: id < |s.requests| ==>
                 t.requests[id].outcome == s.requests[id].outcome
                 && (s.pending != Some(id) ==> t.requests[id].future == s.requests[id].future)
  {
  }

  lemma {:induction false} ChunkKeepsOutcomes(s: State, frames: seq<Routed>, g: nat)
    ensures var t := RouteAll(s, frames, g);
            && |t.requests| == |s.requests| && (t.pending == s.pending || t.pending.None?)
            && forall id: nat :: id < |s.requests| ==>
                 t.requests[id].outcome == s.requests[id].outcome
                 && (s.pending != Some(id) ==> t.requests[id].future == s.requests[id].future)
    decreases |frames|
  {
    hide Route;
    if frames != [] {
      RouteKeepsOutcomes(s, frames[0], g);
      ChunkKeepsOutcomes(Route(s, frames[0], g), frames[1..], g);
    }
  }

  // ---------- over whole runs ----------

  /** What is recorded for a request is what its future said, unless the request gave up on it. */
  ghost predicate OutcomeMatches(r: Request) {
    r.outcome.Some? ==>
      (r.outcome.value.Success? && r.future.Result?) || r.future == Failed(r.outcome.value)
      || Uncorrelated(r.outcome.value)
  }

  lemma EventConcludes(s: State, id: nat, e: Event)
    requires Inv(s) && id < |s.requests|
    ensures Concludes(s, id, e) && (s.requests[id].outcome.Some? ==> s.pending != Some(id))
  {
    assert RequestOk(s.requests[id], id, s.generation, s.log);
    assert PendingOk(s.pending, s.inFlight, s.requests, s.connection.Some?, s.generation);
    hide Inv, Concludes, Step, Verdict;
    if e.Expire? || e.IoError? || (e.Cancel? && Waiting(s)) {
      GivenUpConcludes(s, id, e);
    } else if e.Resume? || e.TaintedEnd? || e.Cancel? {
      FinishConcludes(s, id, e);
    } else {
      OthersConclude(s, id, e);
    }
  }

  lemma EventMatches(s: State, id: nat, e: Event)
    requires Inv(s) && id < |s.requests| && OutcomeMatches(s.requests[id])
    ensures id < |Step(s, e).requests| && OutcomeMatches(Step(s, e).requests[id])
  {
    EventConcludes(s, id, e);
    if InPhase(s, id, Replying) && !s.requests[id].future.Unset? {
      SettledBeforeResume(s, id);
    }
    hide Step, Inv;
  }

  /** A coroutine goes on with what its future holds only once that is settled, and then the slot is free. */
  lemma SettledBeforeResume(s: State, id: nat)
    requires Inv(s) && InPhase(s, id, Replying) && !s.requests[id].future.Unset?
    ensures s.pending != Some(id)
  {
  }

  lemma StepMatches(s: State, e: Event)
    requires Inv(s) && forall id: nat :: id < |s.requests| ==> OutcomeMatches(s.requests[id])
    ensures forall id: nat :: id < |Step(s, e).requests| ==> OutcomeMatches(Step(s, e).requests[id])
  {
    var t := Step(s, e);
    SessionCounters.StepFiles(s, e);
    if e.Register? && |t.requests| > |s.requests| {
      assert t.requests[|s.requests|].outcome.None?;
    }
    hide Step, Inv, OutcomeMatches;
    forall id: nat | id < |t.requests| ensures OutcomeMatches(t.requests[id]) {
      if id < |s.requests| {
        EventMatches(s, id, e);
      } else {
        OpenMatches(t.requests[id]);
      }
    }
  }

  lemma OpenMatches(r: Request)
    requires r.outcome.None?
    ensures OutcomeMatches(r)
  {
  }

  lemma {:induction false} RunMatches(events: seq<Event>)
    ensures forall id: nat :: id < |Run(INITIAL, events).requests| ==>
              OutcomeMatches(Run(INITIAL, events).requests[id])
    decreases |events|
  {
    hide Step, Inv, OutcomeMatches;
    if events != [] {
      var before := events[..|events| - 1];
      RunMatches(before);
      InitialInv();
      RunKeeps(INITIAL, before);
      StepMatches(Run(INITIAL, before), events[|events| - 1]);
    }
  }

  /**
   * On every run: a finished request succeeded with the response its future holds, or failed for the reason its future
   * holds, or gave up by its own deadline, error or cancellation.
   */
  lemma OutcomeIsItsFuture(s: State, id: nat)
    requires Reachable(s) && id < |s.requests|
    ensures OutcomeMatches(s.requests[id])
    ensures s.requests[id].phase.Finished? ==> s.requests[id].outcome.Some?
  {
    ReachableInv(s);
    assert RequestOk(s.requests[id], id, s.generation, s.log);
    var events :| s == Run(INITIAL, events);
    RunMatches(events);
    hide Run, OutcomeMatches;
  }

  // ---------- the lifecycle lock and new requests ----------

  /** A request is given up by its own deadline, error or cancellation. */
  predicate GivesUp(s: State, e: Event) {
    Waiting(s) && (e.Expire? || e.Cancel? || (e.IoError? && s.requests[s.inFlight.value].phase.Draining?))
  }

  /** A close begins: for its caller, for a request that gives up, or for one that waited for the lock. */
  predicate Closes(s: State, e: Event) {
    s.lock.Free? && (e.CloseBegin? || GivesUp(s, e) || (e.TaintedClose? && InTaintedPhase(s)))
  }

  /** The current reader's failure takes the connection down. */
  predicate Loses(s: State, e: Event) {
    s.lock.Free? && e == ReaderFailed(s.generation) && s.generation in s.readers && s.readers[s.generation].Failing?
  }

  /** The reader of generation `g` is in this state. */
  predicate ReaderIs(s: State, g: nat, r: ReaderState) {
    g in s.readers && s.readers[g] == r
  }

  /** Settling, closing and giving up touch nothing else of the connection. */
  lemma SettleIs(s: State, reason: Outcome)
    ensures var t := SettlePending(s, reason); t == s.(pending := None, requests := t.requests)
  {
  }

  lemma CloseIs(s: State, byRequest: bool)
    ensures var t := CloseRegion(s, byRequest);
            t == s.(generation := s.generation + 1, connection := None, connectionLost := false,
                    lock := Closing(byRequest), pending := None, requests := t.requests)
  {
    SettleIs(s.(generation := s.generation + 1, connection := None, connectionLost := false,
                lock := Closing(byRequest)), SessionClosed);
    hide SettlePending;
  }

  lemma TaintIs(s: State, o: Outcome)
    requires Waiting(s)
    ensures var t := Taint(s, o);
            && t.readers == s.readers && t.counters.connections == s.counters.connections
            && t.counters.losses == s.counters.losses
            && t.generation == s.generation + (if s.lock.Free? then 2 else 1)
            && t.connection == (if s.lock.Free? then None else s.connection)
            && t.connectionLost == (if s.lock.Free? then false else s.connectionLost)
            && t.lock == if s.lock.Free? then Closing(true) else s.lock
  {
    CloseIs(Fenced(s, o), true);
    hide CloseRegion;
  }

  lemma LossIs(s: State, g: nat)
    ensures var t := Step(s, ReaderFailed(g));
            if Loses(s, ReaderFailed(g)) && g == s.generation then
              t == s.(connection := None, generation := s.generation + 1, connectionLost := true,
                      lock := CleaningUp(g), counters := s.counters.(losses := s.counters.losses + 1),
                      pending := None, requests := t.requests)
            else t == s.(readers := t.readers)
                 && t.readers == if ReaderIs(s, g, Failing) && s.lock.Free? then s.readers[g := Exited] else s.readers
  {
    SettleIs(s.(connection := None, generation := s.generation + 1, connectionLost := true,
                lock := CleaningUp(g), counters := s.counters.(losses := s.counters.losses + 1)), ConnectionLost);
    hide SettlePending;
  }

  /** What an event does to lock, connection and readers; `t` is `Step(s, e)`. */
  lemma Bystanders(s: State, e: Event)
    ensures var t := Step(s, e);
            && (GivesUp(s, e) ==> (e.Expire? || e.IoError? || e.Cancel?) && !InTaintedPhase(s))
            && (GivesUp(s, e) ==>
                  && t.readers == s.readers && t.counters.connections == s.counters.connections
                  && t.counters.losses == s.counters.losses
                  && t.generation == s.generation + (if s.lock.Free? then 2 else 1)
                  && t.connection == (if s.lock.Free? then None else s.connection)
                  && t.connectionLost == (if s.lock.Free? then false else s.connectionLost)
                  && t.lock == if s.lock.Free? then Closing(true) else s.lock)
            && ((e.Expire? || e.IoError?) && !GivesUp(s, e) ==> t == s)
            && (e.Cancel? && !GivesUp(s, e) ==>
                  && t == s.(lock := t.lock, inFlight := t.inFlight, requests := t.requests, counters := t.counters)
                  && t.lock == (if InTaintedPhase(s) && s.lock == Closing(true) then Free else s.lock)
                  && t.counters.connections == s.counters.connections && t.counters.losses == s.counters.losses)
  {
    hide Taint;
    if GivesUp(s, e) {
      TaintIs(s, if e.Cancel? then Cancelled else if e.IoError? then AmbiguousIo
                 else if s.requests[s.inFlight.value].phase.Draining? then AmbiguousDrain else ResponseTimeout);
    }
    hide RouteAll, CloseRegion, SettlePending;
  }

  /** Who holds the lifecycle lock after an event. */
  lemma LockExactly(s: State, e: Event)
    ensures var t := Step(s, e);
            var gaveUp := GivesUp(s, e);
            var cleaned := InTaintedPhase(s) && (e.TaintedEnd? || e.Cancel?);
            && (t.lock.Dialing? <==> (s.lock.Dialing? && !e.ConnectDone? && !e.ConnectFailed?)
                                     || (s.lock.Free? && e.ConnectBegin? && !Connected(s)))
            && (t.lock == Closing(false) <==> (s.lock == Closing(false) && !e.CloseEnd?)
                                              || (s.lock.Free? && e.CloseBegin?))
            && (t.lock == Closing(true) <==>
                  (s.lock == Closing(true) && !cleaned)
                  || (s.lock.Free? && (gaveUp || (InTaintedPhase(s) && e.TaintedClose?))))
            && (t.lock.CleaningUp? <==>
                  (s.lock.CleaningUp? && !e.CleanupDone?)
                  || (s.lock.Free? && e == ReaderFailed(s.generation) && s.generation in s.readers
                      && s.readers[s.generation].Failing?))
  {
    Bystanders(s, e);
    hide RouteAll, CloseRegion, SettlePending, Taint, GivesUp;
    match e
    case Chunk(r, frames) => ChunkKeepsLock(s, frames, r);
    case CloseBegin => CloseIs(s, false);
    case TaintedClose => CloseIs(s, true);
    case ReaderFailed(r) => LossIs(s, r);
    case _ =>
  }

  lemma {:induction false} ChunkKeepsLock(s: State, frames: seq<Routed>, g: nat)
    ensures RouteAll(s, frames, g).lock == s.lock
    decreases |frames|
  {
    if frames != [] {
      assert Route(s, frames[0], g).lock == s.lock;
      hide Route;
      ChunkKeepsLock(Route(s, frames[0], g), frames[1..], g);
    }
  }

  /** Where the generation, the connection and its counters go with each event. */
  lemma ConnectionExactly(s: State, e: Event)
    ensures var t := Step(s, e);
            var opens := e.ConnectDone? && s.lock.Dialing?;
            && t.generation == s.generation + (if opens then 1 else 0) + (if GivesUp(s, e) then 1 else 0)
                               + (if Closes(s, e) then 1 else 0) + (if Loses(s, e) then 1 else 0)
            && t.connection == (if opens then Some(s.generation + 1)
                                else if Closes(s, e) || Loses(s, e) then None else s.connection)
            && t.connectionLost == (if Loses(s, e) then true
                                    else if opens || Closes(s, e) then false else s.connectionLost)
            && t.counters.connections == s.counters.connections + (if opens then 1 else 0)
            && t.counters.losses == s.counters.losses + (if Loses(s, e) then 1 else 0)
  {
    Bystanders(s, e);
    hide RouteAll, CloseRegion, SettlePending, Taint, GivesUp;
    match e
    case Chunk(r, frames) => ChunkKeepsConnection(s, frames, r);
    case CloseBegin => CloseIs(s, false);
    case TaintedClose => CloseIs(s, true);
    case ReaderFailed(r) => LossIs(s, r);
    case _ =>
  }

  lemma {:induction false} ChunkKeepsConnection(s: State, frames: seq<Routed>, g: nat)
    ensures var t := RouteAll(s, frames, g);
            && t.generation == s.generation && t.connection == s.connection && t.connectionLost == s.connectionLost
            && t.counters.connections == s.counters.connections && t.counters.losses == s.counters.losses
            && t.readers == s.readers
    decreases |frames|
  {
    if frames != [] {
      RouteKeepsConnection(s, frames[0], g);
      hide Route;
      ChunkKeepsConnection(Route(s, frames[0], g), frames[1..], g);
    }
  }

  lemma RouteKeepsConnection(s: State, f: Routed, g: nat)
    ensures var t := Route(s, f, g);
            && t.generation == s.generation && t.connection == s.connection && t.connectionLost == s.connectionLost
            && t.counters.connections == s.counters.connections && t.counters.losses == s.counters.losses
            && t.readers == s.readers
  {
  }

  /** A reader ends: its generation has passed and it notices, fails or is cancelled, or its cleanup is done. */
  predicate ReaderEnds(s: State, g: nat, e: Event) {
    || (g != s.generation && g in s.readers
        && (((e == ReaderError(g) || (e.Chunk? && e.reader == g)) && s.readers[g].Reading?)
            || (e == ReaderFailed(g) && s.readers[g].Failing? && s.lock.Free?) || e == ReaderExit(g)))
    || (e.CleanupDone? && s.lock == CleaningUp(g))
  }

  lemma ReadersKept(s: State, e: Event)
    requires !e.ConnectDone? && !e.ReaderError? && !e.ReaderFailed? && !e.ReaderExit? && !e.CleanupDone?
    requires e.Chunk? ==> e.reader == s.generation
    ensures Step(s, e).readers == s.readers
  {
    Bystanders(s, e);
    hide RouteAll, CloseRegion, SettlePending, Taint, GivesUp;
    match e
    case Chunk(r, frames) => ChunkKeepsConnection(s, frames, r);
    case CloseBegin => CloseIs(s, false);
    case TaintedClose => CloseIs(s, true);
    case Expire => NoMoreThanGivingUp(s, e);
    case IoError => NoMoreThanGivingUp(s, e);
    case Cancel => NoMoreThanGivingUp(s, e);
    case _ =>
  }

  lemma NoMoreThanGivingUp(s: State, e: Event)
    requires e.Expire? || e.IoError? || e.Cancel?
    ensures Step(s, e).readers == s.readers
  {
    Bystanders(s, e);
    hide Step, GivesUp;
  }

  /** Where each reader goes with each event. */
  lemma ReadersExactly(s: State, g: nat, e: Event)
    ensures var t := Step(s, e);
            var opens := e.ConnectDone? && s.lock.Dialing? && g == s.generation + 1;
            var fails := e == ReaderError(g) && g == s.generation && ReaderIs(s, g, Reading);
            && (ReaderIs(t, g, Reading) <==> opens || (ReaderIs(s, g, Reading) && !fails && !ReaderEnds(s, g, e)))
            && (ReaderIs(t, g, Failing) <==>
                  !opens && (fails || (ReaderIs(s, g, Failing) && !ReaderEnds(s, g, e))))
  {
    hide RouteAll, CloseRegion, SettlePending, Taint, GivesUp, FinishTainted, Finish, RegisterRequest;
    match e
    case ReaderFailed(r) => LossIs(s, r);
    case ConnectDone =>
    case ReaderError(_) =>
    case ReaderExit(_) =>
    case CleanupDone =>
    case Chunk(r, _) => if r == s.generation { ReadersKept(s, e); }
    case _ => ReadersKept(s, e); hide Step;
  }

  /** A read is registered if and only if its range is valid, no request is in flight and a live connection is there. */
  lemma RegisteredExactly(s: State, start: int, count: int)
    requires Reachable(s)
    ensures var t, n := Step(s, Register(start, count)), |s.requests|;
            if && 0 <= start && 1 <= count <= 125 && start + count <= 750 && s.inFlight.None?
               && s.connection.Some? && s.connection.value in s.readers && s.readers[s.connection.value] != Exited
            then
              && t.requests == s.requests + [Request(start, count, s.generation, |s.log|, Unset, Draining, None)]
              && t.pending == t.inFlight == Some(n)
            else t == s
  {
    ReachableInv(s);
    hide Reachable;
  }
}
