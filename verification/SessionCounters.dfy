/** What the session's counters count, on every run, and when requests were registered. */
module SessionCounters {
  import opened Options
  import opened SessionProtocol
  import opened SessionSafety

  predicate TimedOut(o: Outcome) {
    o.ResponseTimeout?
  }

  predicate Ambiguous(o: Outcome) {
    o.AmbiguousDrain? || o.AmbiguousIo?
  }

  predicate Succeeded(o: Outcome) {
    o.Success?
  }

  function Indicator(o: Option<Outcome>, p: Outcome -> bool): nat {
    if o.Some? && p(o.value) then 1 else 0
  }

  function Outcomes(requests: seq<Request>): (o: seq<Option<Outcome>>)
    ensures |o| == |requests|
  {
    seq(|requests|, i requires 0 <= i < |requests| => requests[i].outcome)
  }

  function CountOf(outcomes: seq<Option<Outcome>>, p: Outcome -> bool): nat {
    if outcomes == [] then 0
    else CountOf(outcomes[..|outcomes| - 1], p) + Indicator(outcomes[|outcomes| - 1], p)
  }

  /** How many requests ended so. */
  function Ended(requests: seq<Request>, p: Outcome -> bool): nat {
    CountOf(Outcomes(requests), p)
  }

  lemma CountAppend(outcomes: seq<Option<Outcome>>, o: Option<Outcome>, p: Outcome -> bool)
    ensures CountOf(outcomes + [o], p) == CountOf(outcomes, p) + Indicator(o, p)
  {
    assert (outcomes + [o])[..|outcomes|] == outcomes;
  }

  lemma {:induction false} CountReplaced(outcomes: seq<Option<Outcome>>, i: nat, o: Option<Outcome>, p: Outcome -> bool)
    requires i < |outcomes|
    ensures CountOf(outcomes[i := o], p) == CountOf(outcomes, p) - Indicator(outcomes[i], p) + Indicator(o, p)
  {
    var last := |outcomes| - 1;
    if i == last {
      assert outcomes[i := o][..last] == outcomes[..last];
    } else {
      assert outcomes[i := o][..last] == outcomes[..last][i := o];
      CountReplaced(outcomes[..last], i, o, p);
    }
  }

  /** The three counters of outcomes. */
  ghost predicate OutcomesCounted(c: Counters, outcomes: seq<Option<Outcome>>) {
    && c.timeouts == CountOf(outcomes, TimedOut)
    && c.ambiguous == CountOf(outcomes, Ambiguous)
    && c.successes == CountOf(outcomes, Succeeded)
  }

  /** One connection for every reader ever started, the current one installed; each one lost is installed no longer. */
  ghost predicate ConnectionsCounted(s: State) {
    && s.counters.connections == |s.readers|
    && s.counters.losses + (if s.connection.Some? then 1 else 0) <= s.counters.connections
    && (forall g :: g in s.readers ==> g <= s.generation)
    && (s.generation in s.readers ==> s.connection == Some(s.generation))
    && (s.lock.CleaningUp? ==> s.lock.reader in s.readers)
  }

  ghost predicate Counted(s: State) {
    OutcomesCounted(s.counters, Outcomes(s.requests)) && ConnectionsCounted(s)
  }

  /** Nothing the counters of outcomes depend on has changed. */
  predicate SameOutcomes(s: State, t: State) {
    && Outcomes(t.requests) == Outcomes(s.requests)
    && t.counters.timeouts == s.counters.timeouts && t.counters.ambiguous == s.counters.ambiguous
    && t.counters.successes == s.counters.successes
  }

  predicate SameConnections(s: State, t: State) {
    && t.readers == s.readers && t.counters.connections == s.counters.connections
    && t.counters.losses == s.counters.losses && (t.lock == s.lock || !t.lock.CleaningUp?)
    && (if t.generation == s.generation then t.connection == s.connection
        else t.generation > s.generation && (t.connection == s.connection || t.connection.None?))
  }

  lemma SameCounts(s: State, t: State)
    requires Counted(s) && SameOutcomes(s, t) && SameConnections(s, t)
    ensures Counted(t)
  {
  }

  lemma SettleSame(s: State, reason: Outcome)
    ensures SameOutcomes(s, SettlePending(s, reason)) && SameConnections(s, SettlePending(s, reason))
  {
  }

  lemma CloseSame(s: State, byRequest: bool)
    ensures SameOutcomes(s, CloseRegion(s, byRequest)) && SameConnections(s, CloseRegion(s, byRequest))
  {
    var bumped := s.(generation := s.generation + 1, connection := None, connectionLost := false,
                    lock := Closing(byRequest));
    SettleSame(bumped, SessionClosed);
    hide SettlePending;
  }

  lemma RouteSame(s: State, f: Routed, g: nat)
    ensures SameOutcomes(s, Route(s, f, g)) && SameConnections(s, Route(s, f, g))
  {
    var c := s.counters;
    var rejected := s.(counters := c.(routed := c.routed + 1, rejections := c.rejections + 1));
    SettleSame(rejected, Rejected);
    hide SettlePending;
  }

  lemma {:induction false} RouteAllSame(s: State, frames: seq<Routed>, g: nat)
    ensures SameOutcomes(s, RouteAll(s, frames, g)) && SameConnections(s, RouteAll(s, frames, g))
    decreases |frames|
  {
    hide Route;
    if frames != [] {
      RouteSame(s, frames[0], g);
      RouteAllSame(Route(s, frames[0], g), frames[1..], g);
    }
  }

  /** Giving a request its outcome changes the counters by exactly that outcome. */
  lemma OutcomeGiven(s: State, t: State, id: nat, o: Outcome)
    requires Counted(s) && id < |s.requests| && SameConnections(s, t)
    requires s.requests[id].outcome.None? || s.requests[id].outcome == Some(o)
    requires Outcomes(t.requests) == Outcomes(s.requests)[id := Some(o)]
    requires var first := s.requests[id].outcome.None?;
             && t.counters.timeouts == s.counters.timeouts + (if first && TimedOut(o) then 1 else 0)
             && t.counters.ambiguous == s.counters.ambiguous + (if first && Ambiguous(o) then 1 else 0)
             && t.counters.successes == s.counters.successes + (if first && Succeeded(o) then 1 else 0)
    ensures Counted(t)
  {
    var outcomes := Outcomes(s.requests);
    CountReplaced(outcomes, id, Some(o), TimedOut);
    CountReplaced(outcomes, id, Some(o), Ambiguous);
    CountReplaced(outcomes, id, Some(o), Succeeded);
    hide CountOf;
  }

  lemma TaintOutcome(s: State, o: Outcome)
    requires Waiting(s)
    ensures var t := Taint(s, o);
            && Outcomes(t.requests) == Outcomes(s.requests)[s.inFlight.value := Some(o)] && SameConnections(s, t)
            && t.counters.timeouts == s.counters.timeouts + (if TimedOut(o) then 1 else 0)
            && t.counters.ambiguous == s.counters.ambiguous + (if Ambiguous(o) then 1 else 0)
            && t.counters.successes == s.counters.successes
  {
    var id := s.inFlight.value;
    var t := Fenced(s, o);
    assert Outcomes(t.requests) == Outcomes(s.requests)[id := Some(o)];
    CloseSame(t, true);
    assert Taint(s, o) == if t.lock.Free? then CloseRegion(t, true) else t;
    hide CloseRegion, Outcomes, Taint, Fenced;
  }

  lemma TaintCounted(s: State, o: Outcome)
    requires Inv(s) && Counted(s) && Waiting(s) && !o.Success?
    ensures Counted(Taint(s, o))
  {
    var id := s.inFlight.value;
    assert RequestOk(s.requests[id], id, s.generation, s.log);
    TaintOutcome(s, o);
    hide Inv, Taint, RequestOk, Counted, SameConnections;
    OutcomeGiven(s, Taint(s, o), id, o);
  }

  lemma FinishOutcome(s: State, o: Outcome)
    requires s.inFlight.Some? && s.inFlight.value < |s.requests|
    ensures var t := Finish(s, o);
            && Outcomes(t.requests) == Outcomes(s.requests)[s.inFlight.value := Some(o)] && SameConnections(s, t)
            && t.counters.timeouts == s.counters.timeouts && t.counters.ambiguous == s.counters.ambiguous
            && t.counters.successes == s.counters.successes + (if Succeeded(o) then 1 else 0)
  {
  }

  lemma ResumeCounted(s: State)
    requires Inv(s) && Counted(s)
    ensures Counted(Step(s, Resume))
  {
    if Step(s, Resume) != s {
      var id := s.inFlight.value;
      assert RequestOk(s.requests[id], id, s.generation, s.log);
      var o := if s.requests[id].future.Result? then Success else s.requests[id].future.reason;
      FinishOutcome(s, o);
      hide Inv, RequestOk, Counted, SameConnections, Finish;
      OutcomeGiven(s, Finish(s, o), id, o);
    }
  }

  lemma FinishTaintedCounted(s: State)
    requires Inv(s) && Counted(s) && InTaintedPhase(s)
    ensures Counted(FinishTainted(s))
  {
    var id := s.inFlight.value;
    assert RequestOk(s.requests[id], id, s.generation, s.log);
    var unlocked := s.(lock := if s.lock == Closing(true) then Free else s.lock);
    SameCounts(s, unlocked);
    var o := s.requests[id].outcome.value;
    FinishOutcome(unlocked, o);
    hide Inv, RequestOk, Counted, SameConnections, Finish;
    OutcomeGiven(unlocked, Finish(unlocked, o), id, o);
  }

  lemma RegisterCounted(s: State, start: nat, count: nat)
    requires Counted(s)
    ensures Counted(RegisterRequest(s, start, count))
  {
    var t := RegisterRequest(s, start, count);
    var outcomes := Outcomes(s.requests);
    assert Outcomes(t.requests) == outcomes + [None];
    CountAppend(outcomes, None, TimedOut);
    CountAppend(outcomes, None, Ambiguous);
    CountAppend(outcomes, None, Succeeded);
    hide CountOf, Outcomes;
  }

  lemma DrainSame(s: State)
    ensures SameOutcomes(s, Step(s, DrainDone)) && SameConnections(s, Step(s, DrainDone))
  {
  }

  lemma NewReader(readers: map<nat, ReaderState>, g: nat, r: ReaderState)
    requires g !in readers
    ensures |readers[g := r]| == |readers| + 1
  {
    var more := readers[g := r];
    assert more.Keys == readers.Keys + {g};
    assert |more| == |more.Keys| == |readers.Keys| + 1;
  }

  /** A new reader is started for a generation no reader has had. */
  lemma ConnectCounted(s: State)
    requires Inv(s) && Counted(s)
    ensures Counted(Step(s, ConnectDone))
  {
    if s.lock.Dialing? {
      assert ConnectionOk(s.connection, s.generation, s.readers, s.lock);
      hide Inv, OutcomesCounted;
      var g := s.generation + 1;
      NewReader(s.readers, g, Reading);
      assert s.connection.None?;
    }
  }

  lemma ReaderSet(s: State, g: nat, r: ReaderState)
    requires Counted(s) && g in s.readers
    ensures Counted(SetReader(s, g, r))
  {
    var t := SetReader(s, g, r);
    assert t.readers.Keys == s.readers.Keys;
    assert |t.readers| == |t.readers.Keys| == |s.readers.Keys| == |s.readers|;
    hide OutcomesCounted;
  }

  lemma ReaderFailedCounted(s: State, g: nat)
    requires Inv(s) && Counted(s)
    ensures Counted(Step(s, ReaderFailed(g)))
  {
    assert ConnectionOk(s.connection, s.generation, s.readers, s.lock);
    if g in s.readers && s.readers[g].Failing? && s.lock.Free? {
      if g != s.generation {
        ReaderSet(s, g, Exited);
      } else {
        var lost := s.(connection := None, generation := s.generation + 1, connectionLost := true,
                       lock := CleaningUp(g), counters := s.counters.(losses := s.counters.losses + 1));
        hide Inv, OutcomesCounted;
        assert Counted(lost);
        SettleSame(lost, ConnectionLost);
        SameCounts(lost, SettlePending(lost, ConnectionLost));
      }
    }
  }

  lemma LifecycleCounted(s: State, e: Event)
    requires Inv(s) && Counted(s)
    requires e.ConnectBegin? || e.ConnectFailed? || e.CloseBegin? || e.CloseEnd? || e.DrainDone? || e.TaintedClose?
    ensures Counted(Step(s, e))
  {
    CloseSame(s, false);
    CloseSame(s, true);
    DrainSame(s);
    var t := Step(s, e);
    assert SameOutcomes(s, t) && SameConnections(s, t) by {
      hide CloseRegion, Inv, Counted, Outcomes;
    }
    hide CloseRegion, Inv, Step;
    SameCounts(s, t);
  }

  lemma ReaderCounted(s: State, e: Event)
    requires Inv(s) && Counted(s) && (e.Chunk? || e.ReaderError? || e.CleanupDone? || e.ReaderExit?)
    ensures Counted(Step(s, e))
  {
    assert s.lock.CleaningUp? ==> s.lock.reader in s.readers;
    hide Inv, Counted, RouteAll, SameOutcomes, SameConnections, SetReader;
    match e
    case Chunk(g, frames) =>
      if g in s.readers && s.readers[g].Reading? {
        ReaderSet(s, g, Exited);
        RouteAllSame(s, frames, g);
        SameCounts(s, RouteAll(s, frames, g));
      }
    case ReaderError(g) =>
      if g in s.readers {
        ReaderSet(s, g, if g == s.generation then Failing else Exited);
      }
    case CleanupDone =>
      if s.lock.CleaningUp? {
        CleanedUp(s);
      }
    case ReaderExit(g) =>
      if g in s.readers {
        ReaderSet(s, g, Exited);
      }
    case _ =>
  }

  lemma CleanedUp(s: State)
    requires Counted(s) && s.lock.CleaningUp? && s.lock.reader in s.readers
    ensures Counted(SetReader(s, s.lock.reader, Exited).(lock := Free))
  {
    ReaderSet(s, s.lock.reader, Exited);
    hide OutcomesCounted;
  }

  lemma RequestCounted(s: State, e: Event)
    requires Inv(s) && Counted(s)
    requires e.Register? || e.Resume? || e.Expire? || e.IoError? || e.Cancel? || e.TaintedEnd?
    ensures Counted(Step(s, e))
  {
    hide Inv, Counted, Taint, FinishTainted;
    match e
    case Register(start, count) =>
      if Step(s, e) != s {
        RegisterCounted(s, start, count);
      }
    case Resume => ResumeCounted(s);
    case Expire =>
      if Waiting(s) {
        TaintCounted(s, if s.requests[s.inFlight.value].phase.Draining? then AmbiguousDrain else ResponseTimeout);
      }
    case IoError =>
      if Waiting(s) {
        TaintCounted(s, AmbiguousIo);
      }
    case Cancel =>
      if Waiting(s) {
        TaintCounted(s, Cancelled);
      } else if InTaintedPhase(s) {
        FinishTaintedCounted(s);
      }
    case TaintedEnd =>
      if InTaintedPhase(s) {
        FinishTaintedCounted(s);
      }
    case _ =>
  }

  lemma StepCounted(s: State, e: Event)
    requires Inv(s) && Counted(s)
    ensures Counted(Step(s, e))
  {
    hide Inv, Counted, Step;
    match e
    case ConnectBegin => LifecycleCounted(s, e);
    case ConnectFailed => LifecycleCounted(s, e);
    case ConnectDone => ConnectCounted(s);
    case CloseBegin => LifecycleCounted(s, e);
    case CloseEnd => LifecycleCounted(s, e);
    case DrainDone => LifecycleCounted(s, e);
    case TaintedClose => LifecycleCounted(s, e);
    case Chunk(g, frames) => ReaderCounted(s, e);
    case ReaderError(g) => ReaderCounted(s, e);
    case ReaderFailed(g) => ReaderFailedCounted(s, g);
    case CleanupDone => ReaderCounted(s, e);
    case ReaderExit(g) => ReaderCounted(s, e);
    case _ => RequestCounted(s, e);
  }

  lemma InitialCounted()
    ensures Counted(INITIAL)
  {
    assert Outcomes(INITIAL.requests) == [] && |INITIAL.readers| == 0;
  }

  lemma {:induction false} RunCounted(events: seq<Event>)
    ensures Counted(Run(INITIAL, events))
  {
    hide Counted, Step, Inv;
    if events == [] {
      InitialCounted();
    } else {
      var before := events[..|events| - 1];
      RunCounted(before);
      InitialInv();
      RunKeeps(INITIAL, before);
      StepCounted(Run(INITIAL, before), events[|events| - 1]);
    }
  }

  /**
   * In every reachable state the timeouts, ambiguous requests and successes are the requests that ended so; there is
   * one reader for every connection; and every lost connection is one that is no longer installed.
   */
  lemma CountersMeanOutcomes(s: State)
    requires Reachable(s)
    ensures s.counters.timeouts == Ended(s.requests, TimedOut)
    ensures s.counters.ambiguous == Ended(s.requests, Ambiguous)
    ensures s.counters.successes == Ended(s.requests, Succeeded)
    ensures s.counters.connections == |s.readers|
    ensures s.counters.losses + (if s.connection.Some? then 1 else 0) <= s.counters.connections
  {
    var events :| s == Run(INITIAL, events);
    RunCounted(events);
    hide Run;
  }

  // ---------- when requests were registered ----------

  datatype Filing = Filing(start: nat, count: nat, registeredAt: nat)

  /** What never changes about the requests. */
  function Filings(requests: seq<Request>): (f: seq<Filing>)
    ensures |f| == |requests|
  {
    seq(|requests|, i requires 0 <= i < |requests| =>
      Filing(requests[i].start, requests[i].count, requests[i].registeredAt))
  }

  lemma SettleFiles(s: State, reason: Outcome)
    ensures Filings(SettlePending(s, reason).requests) == Filings(s.requests)
  {
  }

  lemma CloseFiles(s: State, byRequest: bool)
    ensures Filings(CloseRegion(s, byRequest).requests) == Filings(s.requests)
  {
    SettleFiles(s.(generation := s.generation + 1, connection := None, connectionLost := false,
                   lock := Closing(byRequest)), SessionClosed);
    hide SettlePending;
  }

  lemma TaintFiles(s: State, o: Outcome)
    requires Waiting(s)
    ensures Filings(Taint(s, o).requests) == Filings(s.requests)
  {
    var t := Fenced(s, o);
    assert Filings(t.requests) == Filings(s.requests);
    CloseFiles(t, true);
    assert Taint(s, o) == if t.lock.Free? then CloseRegion(t, true) else t;
    hide CloseRegion, Filings, Taint, Fenced;
  }

  lemma FinishFiles(s: State, o: Outcome)
    requires s.inFlight.Some? && s.inFlight.value < |s.requests|
    ensures Filings(Finish(s, o).requests) == Filings(s.requests)
  {
  }

  lemma RouteFiles(s: State, f: Routed, g: nat)
    ensures Filings(Route(s, f, g).requests) == Filings(s.requests)
  {
    var c := s.counters;
    SettleFiles(s.(counters := c.(routed := c.routed + 1, rejections := c.rejections + 1)), Rejected);
    hide SettlePending;
  }

  lemma {:induction false} RouteAllFiles(s: State, frames: seq<Routed>, g: nat)
    ensures Filings(RouteAll(s, frames, g).requests) == Filings(s.requests)
    decreases |frames|
  {
    hide Route;
    if frames != [] {
      RouteFiles(s, frames[0], g);
      RouteAllFiles(Route(s, frames[0], g), frames[1..], g);
    }
  }

  lemma StepFiles(s: State, e: Event)
    ensures var before, after := Filings(s.requests), Filings(Step(s, e).requests);
            after == before || (e.Register? && |after| == |before| + 1 && after[..|before|] == before
                                && after[|before|].registeredAt == |s.log|)
  {
    hide Taint, CloseRegion, Finish, SettlePending, RouteAll;
    match e
    case CloseBegin => CloseFiles(s, false);
    case TaintedClose => CloseFiles(s, true);
    case Register(start, count) =>
      if Step(s, e) != s {
        assert Filings(Step(s, e).requests) == Filings(s.requests) + [Filing(start, count, |s.log|)];
      }
    case Expire =>
      if Waiting(s) {
        TaintFiles(s, AmbiguousDrain);
        TaintFiles(s, ResponseTimeout);
      }
    case IoError =>
      if Waiting(s) {
        TaintFiles(s, AmbiguousIo);
      }
    case Cancel => EndFiles(s, e);
    case TaintedEnd => EndFiles(s, e);
    case Resume => EndFiles(s, e);
    case Chunk(g, frames) => RouteAllFiles(s, frames, g);
    case ReaderFailed(g) =>
      SettleFiles(s.(connection := None, generation := s.generation + 1, connectionLost := true,
                     lock := CleaningUp(g), counters := s.counters.(losses := s.counters.losses + 1)), ConnectionLost);
    case _ =>
  }

  lemma EndFiles(s: State, e: Event)
    requires e.Cancel? || e.TaintedEnd? || e.Resume?
    ensures Filings(Step(s, e).requests) == Filings(s.requests)
  {
    hide Taint, Finish;
    if Waiting(s) {
      TaintFiles(s, Cancelled);
      FinishFiles(s, Success);
      if s.requests[s.inFlight.value].future.Failed? {
        FinishFiles(s, s.requests[s.inFlight.value].future.reason);
      }
    } else if InTaintedPhase(s) {
      var recorded := s.requests[s.inFlight.value].outcome;
      FinishFiles(s.(lock := if s.lock == Closing(true) then Free else s.lock),
                  if recorded.Some? then recorded.value else SessionClosed);
    }
  }

  /** Requests filed during a run were registered when everything logged before the run was already there. */
  lemma {:induction false} FiledDuring(s: State, events: seq<Event>)
    requires Inv(s)
    ensures var t := Run(s, events);
            && |s.requests| <= |t.requests| && Filings(t.requests)[..|s.requests|] == Filings(s.requests)
            && forall id :: |s.requests| <= id < |t.requests| ==> t.requests[id].registeredAt >= |s.log|
    decreases |events|
  {
    hide Step, Inv;
    if events != [] {
      var before := events[..|events| - 1];
      FiledDuring(s, before);
      RunKeeps(s, before);
      var m := Run(s, before);
      StepFiles(m, events[|events| - 1]);
      var t := Run(s, events);
      forall id | |s.requests| <= id < |t.requests|
        ensures t.requests[id].registeredAt >= |s.log|
      {
        assert Filings(t.requests)[id].registeredAt == t.requests[id].registeredAt;
        if id < |m.requests| {
          assert Filings(t.requests)[..|m.requests|][id] == Filings(m.requests)[id];
        }
      }
    }
  }
}
