/** What every interleaving of the read session keeps, and what that means for late replies. */
module SessionSafety {
  import opened Options
  import opened SessionProtocol

  // ---------- the invariant, part by part ----------

  /** An installed connection belongs to the current generation, has a live reader, and nobody holds the lock. */
  ghost predicate ConnectionOk(connection: Option<nat>, generation: nat, readers: map<nat, ReaderState>, lock: Lock) {
    && (connection.Some? ==>
          connection.value == generation && generation in readers && readers[generation] != Exited && lock.Free?)
    && (forall g :: g in readers ==> g <= generation)
    && (lock.CleaningUp? ==> lock.reader <= generation)
  }

  predicate IsWaiting(r: Request) {
    r.phase.Draining? || r.phase.Replying?
  }

  /** At most one request is unfinished, the newest; it is pending exactly while it waits with its future unset. */
  ghost predicate PendingOk(pending: Option<nat>, inFlight: Option<nat>, requests: seq<Request>, connected: bool,
      generation: nat) {
    && (inFlight.Some? ==> inFlight.value + 1 == |requests| && !requests[inFlight.value].phase.Finished?)
    && (forall i :: 0 <= i < |requests| && inFlight != Some(i) ==> requests[i].phase.Finished?)
    && (pending.Some? ==>
          && pending == inFlight && connected && requests[pending.value].generation == generation
          && requests[pending.value].future.Unset? && IsWaiting(requests[pending.value]))
    && ((inFlight.Some? && IsWaiting(requests[inFlight.value]) && requests[inFlight.value].future.Unset?)
        ==> pending == inFlight)
  }

  /** The outcomes after which the inverter's reply may still be on its way. */
  predicate Uncorrelated(o: Outcome) {
    o.ResponseTimeout? || o.AmbiguousDrain? || o.AmbiguousIo? || o.Cancelled?
  }

  predicate Retired(r: Request) {
    r.outcome.Some? && Uncorrelated(r.outcome.value)
  }

  /** Request `id`: what it was completed by, and that an uncorrelated end has left its generation behind. */
  ghost predicate RequestOk(r: Request, id: nat, generation: nat, log: seq<Accepted>) {
    && r.generation <= generation && r.registeredAt <= |log|
    && ValidRange(r.start, r.count)
    && (r.future.Result? ==>
          && r.registeredAt <= r.future.place < |log|
          && var a := log[r.future.place];
             a.request == Some(id) && a.generation == r.generation && a.start == r.start && |a.values| == r.count)
    && (Retired(r) ==> r.generation < generation)
    && (IsWaiting(r) ==> r.outcome.None? && !r.future.Dropped?)
    && (r.phase.Tainted? ==> Retired(r))
    && (r.phase.Finished? ==> r.outcome.Some? && (r.outcome.value.Success? ==> r.future.Result?))
    && (r.future.Failed?
       ==> r.future.reason.Rejected? || r.future.reason.ConnectionLost? || r.future.reason.SessionClosed?)
  }

  ghost predicate RequestsOk(requests: seq<Request>, generation: nat, log: seq<Accepted>) {
    forall id: nat :: id < |requests| ==> RequestOk(requests[id], id, generation, log)
  }

  ghost predicate LogOk(log: seq<Accepted>, requests: seq<Request>, generation: nat) {
    && (forall k :: 0 <= k < |log| ==> log[k].generation <= generation)
    && (forall k :: 0 <= k < |log| && log[k].request.Some? ==>
          log[k].request.value < |requests| && requests[log[k].request.value].future == Result(k))
  }

  function ExplicitCount(log: seq<Accepted>): nat {
    if log == [] then 0
    else ExplicitCount(log[..|log| - 1]) + if log[|log| - 1].request.Some? then 1 else 0
  }

  /** A success that is certain but not yet noticed by its coroutine. */
  function ResultWaiting(inFlight: Option<nat>, requests: seq<Request>): nat {
    if inFlight.Some? && inFlight.value < |requests| && requests[inFlight.value].future.Result? then 1 else 0
  }

  ghost predicate CountersOk(c: Counters, log: seq<Accepted>, inFlight: Option<nat>, requests: seq<Request>) {
    && c.routed == c.validated + c.fc193 + c.rejections + c.routerRejected
    && c.validated == |log| == c.expected + c.unmatched
    && c.expected == ExplicitCount(log)
    && c.explicitRequests == |requests| == c.finalised + (if inFlight.Some? then 1 else 0)
    && c.successes + ResultWaiting(inFlight, requests) <= c.expected
  }

  ghost predicate Inv(s: State) {
    && ConnectionOk(s.connection, s.generation, s.readers, s.lock)
    && PendingOk(s.pending, s.inFlight, s.requests, s.connection.Some?, s.generation)
    && RequestsOk(s.requests, s.generation, s.log)
    && LogOk(s.log, s.requests, s.generation)
    && CountersOk(s.counters, s.log, s.inFlight, s.requests)
  }

  lemma InitialInv()
    ensures Inv(INITIAL)
  {
    assert ConnectionOk(None, 0, map[], Free);
    assert PendingOk(None, None, [], false, 0);
    assert RequestsOk([], 0, []);
  }

  // ---------- what happens to the parts ----------

  /** A request that was in order stays so when the generation moves on and the log grows. */
  lemma StaysOk(r: Request, id: nat, generation: nat, log: seq<Accepted>, later: nat, longer: seq<Accepted>)
    requires RequestOk(r, id, generation, log)
    requires generation <= later && |log| <= |longer| && longer[..|log|] == log
    ensures RequestOk(r, id, later, longer)
  {
    if r.future.Result? {
      assert longer[..|log|][r.future.place] == log[r.future.place];
    }
  }

  lemma RequestsLater(requests: seq<Request>, generation: nat, log: seq<Accepted>, later: nat, longer: seq<Accepted>)
    requires RequestsOk(requests, generation, log)
    requires generation <= later && |log| <= |longer| && longer[..|log|] == log
    ensures RequestsOk(requests, later, longer)
  {
    hide RequestOk;
    forall id: nat | id < |requests| ensures RequestOk(requests[id], id, later, longer) {
      StaysOk(requests[id], id, generation, log, later, longer);
    }
  }

  lemma RequestReplaced(requests: seq<Request>, generation: nat, log: seq<Accepted>, id: nat, r: Request)
    requires id < |requests| && RequestsOk(requests, generation, log) && RequestOk(r, id, generation, log)
    ensures RequestsOk(requests[id := r], generation, log)
  {
    hide RequestOk;
  }

  /** A future that holds a result is never touched again. */
  lemma LogAfterReplacement(log: seq<Accepted>, requests: seq<Request>, generation: nat, id: nat, r: Request)
    requires id < |requests| && LogOk(log, requests, generation)
    requires requests[id].future.Result? ==> r.future == requests[id].future
    ensures LogOk(log, requests[id := r], generation)
  {
  }

  lemma LogLater(log: seq<Accepted>, requests: seq<Request>, generation: nat, later: nat)
    requires LogOk(log, requests, generation) && generation <= later
    ensures LogOk(log, requests, later)
  {
  }

  lemma AppendCounts(log: seq<Accepted>, a: Accepted)
    ensures ExplicitCount(log + [a]) == ExplicitCount(log) + if a.request.Some? then 1 else 0
  {
    assert (log + [a])[..|log|] == log;
  }

  // ---------- every region keeps it ----------

  lemma SettleKeeps(s: State, reason: Outcome)
    requires Inv(s) && (reason.Rejected? || reason.ConnectionLost? || reason.SessionClosed?)
    ensures Inv(SettlePending(s, reason)) && SettlePending(s, reason).pending.None?
  {
    if s.pending.Some? {
      var id := s.pending.value;
      var r := s.requests[id];
      var settled := r.(future := Failed(reason));
      assert RequestOk(r, id, s.generation, s.log);
      RequestReplaced(s.requests, s.generation, s.log, id, settled);
      LogAfterReplacement(s.log, s.requests, s.generation, id, settled);
      assert SettlePending(s, reason) == s.(pending := None, requests := s.requests[id := settled]);
      hide RequestsOk, LogOk, ConnectionOk, RequestOk;
    } else {
      assert SettlePending(s, reason) == s;
    }
  }

  /** Moving to a later generation without a connection, once nothing is pending. */
  lemma BumpKeeps(s: State, t: State)
    requires Inv(s) && t.generation == s.generation + 1 && t.connection.None? && s.pending.None?
    requires t.lock.CleaningUp? ==> t.lock.reader <= t.generation
    requires t == s.(generation := t.generation, connection := None, connectionLost := t.connectionLost, lock := t.lock,
                     counters := s.counters.(losses := t.counters.losses))
    ensures Inv(t)
  {
    assert s.log[..|s.log|] == s.log;
    RequestsLater(s.requests, s.generation, s.log, t.generation, s.log);
    LogLater(s.log, s.requests, s.generation, t.generation);
    hide RequestsOk, LogOk;
  }

  /** Settling first and moving on afterwards is the same as the other way round. */
  lemma CloseRegionKeeps(s: State, byRequest: bool)
    requires Inv(s)
    ensures Inv(CloseRegion(s, byRequest))
    ensures CloseRegion(s, byRequest).log == s.log && CloseRegion(s, byRequest).generation == s.generation + 1
  {
    SettleKeeps(s, SessionClosed);
    hide Inv;
    var settled := SettlePending(s, SessionClosed);
    var t := CloseRegion(s, byRequest);
    assert t == settled.(generation := s.generation + 1, connection := None, connectionLost := false,
                         lock := Closing(byRequest));
    BumpKeeps(settled, t);
  }

  /** The state between the first statements of an except branch and the close that follows them. */
  function Marked(s: State, outcome: Outcome): State
    requires Waiting(s)
  {
    var id := s.inFlight.value;
    var r := s.requests[id];
    var c := s.counters;
    s.(pending := None, connection := None, generation := s.generation + 1,
       requests := s.requests[id := r.(future := if r.future.Unset? then Dropped else r.future,
                                       phase := Tainted, outcome := Some(outcome))],
       counters := c.(timeouts := c.timeouts + (if outcome == ResponseTimeout then 1 else 0),
                      ambiguous := c.ambiguous + (if outcome == AmbiguousDrain || outcome == AmbiguousIo
                                                       then 1 else 0)))
  }

  lemma MarkedKeeps(s: State, outcome: Outcome)
    requires Inv(s) && Waiting(s) && Uncorrelated(outcome)
    ensures Inv(Marked(s, outcome))
  {
    var id := s.inFlight.value;
    var r := s.requests[id];
    var t := Marked(s, outcome);
    assert s.log[..|s.log|] == s.log;
    RequestsLater(s.requests, s.generation, s.log, t.generation, s.log);
    assert RequestOk(r, id, s.generation, s.log);
    RequestReplaced(s.requests, t.generation, s.log, id, t.requests[id]);
    LogLater(s.log, s.requests, s.generation, t.generation);
    LogAfterReplacement(s.log, s.requests, t.generation, id, t.requests[id]);
    hide RequestsOk, LogOk, RequestOk;
  }

  lemma TaintKeeps(s: State, outcome: Outcome)
    requires Inv(s) && Waiting(s) && Uncorrelated(outcome)
    ensures Inv(Taint(s, outcome))
    ensures Taint(s, outcome).log == s.log && Taint(s, outcome).generation > s.generation
  {
    var marked := Marked(s, outcome);
    MarkedKeeps(s, outcome);
    assert s.pending.Some? ==> s.pending == s.inFlight;
    assert !s.lock.Free? ==> s.connection.None?;
    hide Inv;
    if s.lock.Free? {
      CloseRegionKeeps(marked, true);
      assert Taint(s, outcome) == CloseRegion(marked, true);
    } else {
      assert Taint(s, outcome) == marked;
    }
  }

  lemma FinishKeeps(s: State, outcome: Outcome)
    requires Inv(s) && s.inFlight.Some? && s.pending.None?
    requires outcome.Success? ==> s.requests[s.inFlight.value].future.Result?
    requires Uncorrelated(outcome) ==> s.requests[s.inFlight.value].generation < s.generation
    ensures Inv(Finish(s, outcome))
  {
    var id := s.inFlight.value;
    var r := s.requests[id].(phase := Finished, outcome := Some(outcome));
    assert RequestOk(s.requests[id], id, s.generation, s.log);
    RequestReplaced(s.requests, s.generation, s.log, id, r);
    LogAfterReplacement(s.log, s.requests, s.generation, id, r);
    hide RequestsOk, LogOk, RequestOk, ConnectionOk;
  }

  lemma FinishTaintedKeeps(s: State)
    requires Inv(s) && InTaintedPhase(s)
    ensures Inv(FinishTainted(s)) && FinishTainted(s).log == s.log && FinishTainted(s).generation == s.generation
  {
    var id := s.inFlight.value;
    assert RequestOk(s.requests[id], id, s.generation, s.log);
    var unlocked := s.(lock := if s.lock == Closing(true) then Free else s.lock);
    assert Inv(unlocked) by {
      hide RequestsOk, LogOk, PendingOk, CountersOk, RequestOk;
    }
    FinishKeeps(unlocked, s.requests[id].outcome.value);
    hide Inv;
  }

  lemma RegisterKeeps(s: State, start: nat, count: nat)
    requires Inv(s) && ValidRange(start, count) && s.inFlight.None? && s.connection.Some? && s.pending.None?
    ensures Inv(RegisterRequest(s, start, count))
  {
    var t := RegisterRequest(s, start, count);
    assert RequestOk(t.requests[|s.requests|], |s.requests|, s.generation, s.log);
    assert RequestsOk(t.requests, t.generation, t.log) by {
      hide RequestOk;
    }
    assert LogOk(t.log, t.requests, t.generation);
    hide RequestsOk, LogOk, RequestOk, ConnectionOk;
  }

  /** Appending the completing observation and resolving the future keep requests and log in step. */
  lemma CompletionKeeps(requests: seq<Request>, generation: nat, log: seq<Accepted>, id: nat, a: Accepted)
    requires id < |requests| && RequestsOk(requests, generation, log) && LogOk(log, requests, generation)
    requires requests[id].generation == generation == a.generation && requests[id].future.Unset?
             && IsWaiting(requests[id])
    requires a.request == Some(id) && a.start == requests[id].start && |a.values| == requests[id].count
    ensures var updated := requests[id := requests[id].(future := Result(|log|))];
            RequestsOk(updated, generation, log + [a]) && LogOk(log + [a], updated, generation)
  {
    var r := requests[id].(future := Result(|log|));
    RequestsLater(requests, generation, log, generation, log + [a]);
    assert RequestOk(requests[id], id, generation, log + [a]);
    RequestReplaced(requests, generation, log + [a], id, r);
    LogAfterReplacement(log, requests, generation, id, r);
    LogAppended(log, requests[id := r], generation, a);
  }

  lemma MatchedKeeps(s: State, f: Routed)
    requires Inv(s) && f.frame.Fc4? && Explicit(s, f.frame.start, f.frame.values)
    ensures Inv(Route(s, f, s.generation))
  {
    hide RequestsOk, LogOk, RequestOk, ConnectionOk, ExplicitCount;
    var id := s.pending.value;
    var a := Accepted(f.frame.start, f.frame.values, f.at, s.generation, Some(id));
    var r := s.requests[id].(future := Result(|s.log|));
    var c := s.counters;
    CompletionKeeps(s.requests, s.generation, s.log, id, a);
    AppendCounts(s.log, a);
    assert Route(s, f, s.generation)
        == s.(pending := None, log := s.log + [a], requests := s.requests[id := r],
              counters := c.(routed := c.routed + 1, validated := c.validated + 1, expected := c.expected + 1));
    hide Route;
  }

  lemma LogAppended(log: seq<Accepted>, requests: seq<Request>, generation: nat, a: Accepted)
    requires LogOk(log, requests, generation) && a.generation <= generation
    requires a.request.Some? ==> a.request.value < |requests| && requests[a.request.value].future == Result(|log|)
    ensures LogOk(log + [a], requests, generation)
  {
  }

  lemma UnmatchedRoutes(s: State, f: Routed)
    requires f.frame.Fc4? && !Explicit(s, f.frame.start, f.frame.values)
    ensures var c := s.counters;
            Route(s, f, s.generation)
            == s.(log := s.log + [Accepted(f.frame.start, f.frame.values, f.at, s.generation, None)],
                  counters := c.(routed := c.routed + 1, validated := c.validated + 1, unmatched := c.unmatched + 1))
  {
    var routed := s.(counters := s.counters.(routed := s.counters.routed + 1));
    assert Explicit(routed, f.frame.start, f.frame.values) == Explicit(s, f.frame.start, f.frame.values);
    hide Explicit;
  }

  lemma UnmatchedKeeps(s: State, f: Routed)
    requires Inv(s) && f.frame.Fc4? && !Explicit(s, f.frame.start, f.frame.values)
    ensures Inv(Route(s, f, s.generation))
  {
    var a := Accepted(f.frame.start, f.frame.values, f.at, s.generation, None);
    hide Route, Explicit;
    UnmatchedRoutes(s, f);
    RequestsLater(s.requests, s.generation, s.log, s.generation, s.log + [a]);
    LogAppended(s.log, s.requests, s.generation, a);
    AppendCounts(s.log, a);
    hide RequestsOk, LogOk, RequestOk, ConnectionOk, PendingOk, ExplicitCount, ResultWaiting;
  }

  lemma CountedKeeps(s: State, t: State)
    requires Inv(s)
    requires t == s.(counters := s.counters.(routed := s.counters.routed + 1, fc193 := t.counters.fc193,
                     rejections := t.counters.rejections, routerRejected := t.counters.routerRejected))
    requires t.counters.fc193 + t.counters.rejections + t.counters.routerRejected
          == s.counters.fc193 + s.counters.rejections + s.counters.routerRejected + 1
    ensures Inv(t)
  {
    hide RequestsOk, LogOk, RequestOk, ConnectionOk, PendingOk, ExplicitCount, ResultWaiting;
  }

  lemma RejectionKeeps(s: State, f: Routed)
    requires Inv(s) && f.frame.Rejection?
    ensures Inv(Route(s, f, s.generation))
  {
    hide Inv, SettlePending;
    var c := s.counters;
    var counted := s.(counters := c.(routed := c.routed + 1, rejections := c.rejections + 1));
    var ignored := s.(counters := c.(routed := c.routed + 1, routerRejected := c.routerRejected + 1));
    CountedKeeps(s, counted);
    CountedKeeps(s, ignored);
    SettleKeeps(counted, Rejected);
    assert Route(s, f, s.generation) == ignored || Route(s, f, s.generation) == SettlePending(counted, Rejected);
  }

  lemma RouteInvKeeps(s: State, f: Routed)
    requires Inv(s)
    ensures Inv(Route(s, f, s.generation))
  {
    hide Inv;
    match f.frame
    case Fc4(start, values) =>
      if Explicit(s, start, values) {
        MatchedKeeps(s, f);
      } else {
        UnmatchedKeeps(s, f);
      }
    case Rejection(_) => RejectionKeeps(s, f);
    case Fc193 => CountedKeeps(s, Route(s, f, s.generation));
    case Unusable => CountedKeeps(s, Route(s, f, s.generation));
  }

  /** One routed frame: the invariant holds on, and only its own observation, if any, joins the log. */
  lemma RouteKeeps(s: State, f: Routed, g: nat)
    requires Inv(s)
    ensures var t := Route(s, f, g);
            && Inv(t) && t.generation == s.generation && t.readers == s.readers && t.connection == s.connection
            && (t.log == s.log
                || (f.frame.Fc4? && g == s.generation && |t.log| == |s.log| + 1 && t.log[..|s.log|] == s.log
                                   && t.log[|s.log|].generation == g))
  {
    hide Inv;
    if g == s.generation {
      RouteInvKeeps(s, f);
    }
  }

  /** `t` has only accepted, since `s`, observations of a generation current at the time. */
  ghost predicate LogGrows(s: State, t: State) {
    && |s.log| <= |t.log| && t.log[..|s.log|] == s.log
    && forall k :: |s.log| <= k < |t.log| ==> s.generation <= t.log[k].generation <= t.generation
  }

  lemma {:induction false} RouteAllKeeps(s: State, frames: seq<Routed>, g: nat)
    requires Inv(s)
    ensures var t := RouteAll(s, frames, g);
            Inv(t) && t.generation == s.generation && t.readers == s.readers && t.connection == s.connection
            && LogGrows(s, t)
    decreases |frames|
  {
    hide Inv;
    if frames != [] {
      var m := Route(s, frames[0], g);
      RouteKeeps(s, frames[0], g);
      RouteAllKeeps(m, frames[1..], g);
      var t := RouteAll(s, frames, g);
      assert t.log[..|s.log|] == t.log[..|m.log|][..|s.log|];
      assert forall k :: |s.log| <= k < |m.log| ==> t.log[k] == t.log[..|m.log|][k];
    }
  }

  /** Steps that touch neither requests nor log. */
  lemma UnrelatedFieldsKeep(s: State, t: State)
    requires Inv(s)
    requires t == s.(readers := t.readers, lock := t.lock, connectionLost := t.connectionLost,
                     connection := t.connection, generation := t.generation,
                     counters := s.counters.(connections := t.counters.connections))
    requires ConnectionOk(t.connection, t.generation, t.readers, t.lock) && t.generation >= s.generation
    requires s.pending.Some? ==> t.connection.Some? && t.generation == s.generation
    ensures Inv(t)
  {
    assert s.log[..|s.log|] == s.log;
    RequestsLater(s.requests, s.generation, s.log, t.generation, s.log);
    LogLater(s.log, s.requests, s.generation, t.generation);
    hide RequestsOk, LogOk, RequestOk, ConnectionOk, ExplicitCount, ResultWaiting;
  }

  lemma DrainKeeps(s: State)
    requires Inv(s)
    ensures Inv(Step(s, DrainDone))
  {
    var t := Step(s, DrainDone);
    if Waiting(s) && s.requests[s.inFlight.value].phase.Draining? {
      var id := s.inFlight.value;
      var r := s.requests[id].(phase := Replying);
      assert RequestOk(s.requests[id], id, s.generation, s.log);
      RequestReplaced(s.requests, s.generation, s.log, id, r);
      LogAfterReplacement(s.log, s.requests, s.generation, id, r);
      assert t == s.(requests := s.requests[id := r]);
      hide RequestsOk, LogOk, RequestOk, ConnectionOk;
    } else {
      assert t == s;
    }
  }

  lemma ReaderFailedKeeps(s: State, g: nat)
    requires Inv(s)
    ensures Inv(Step(s, ReaderFailed(g))) && Step(s, ReaderFailed(g)).log == s.log
    ensures Step(s, ReaderFailed(g)).generation >= s.generation
  {
    var t := Step(s, ReaderFailed(g));
    PendingMeansConnected(s);
    assert ConnectionOk(s.connection, s.generation, s.readers, s.lock);
    hide Inv;
    if g in s.readers && s.readers[g].Failing? && s.lock.Free? {
      if g != s.generation {
        UnrelatedFieldsKeep(s, t);
      } else {
        SettleKeeps(s, ConnectionLost);
        BumpKeeps(SettlePending(s, ConnectionLost), t);
      }
    }
  }

  lemma PendingMeansConnected(s: State)
    requires Inv(s)
    ensures s.pending.Some? ==> s.connection.Some?
  {
  }

  lemma ConnectKeeps(s: State)
    requires Inv(s) && s.lock.Dialing?
    ensures Inv(Step(s, ConnectDone)) && Step(s, ConnectDone).log == s.log
    ensures s.generation <= Step(s, ConnectDone).generation
  {
    PendingMeansConnected(s);
    assert ConnectionOk(s.connection, s.generation, s.readers, s.lock);
    hide Inv;
    UnrelatedFieldsKeep(s, Step(s, ConnectDone));
  }

  lemma LifecycleKeeps(s: State, e: Event)
    requires Inv(s) && (e.ConnectBegin? || e.ConnectFailed? || e.ConnectDone? || e.CloseBegin? || e.CloseEnd?
                        || e.CleanupDone?)
    ensures Inv(Step(s, e)) && Step(s, e).log == s.log && s.generation <= Step(s, e).generation
  {
    PendingMeansConnected(s);
    assert ConnectionOk(s.connection, s.generation, s.readers, s.lock);
    hide Inv, CloseRegion, SettlePending, RouteAll, Taint, FinishTainted, Finish, RegisterRequest;
    var t := Step(s, e);
    match e
    case CloseBegin =>
      if s.lock.Free? {
        CloseRegionKeeps(s, false);
      }
    case ConnectDone =>
      if s.lock.Dialing? {
        ConnectKeeps(s);
      }
    case _ => UnrelatedFieldsKeep(s, t);
  }

  lemma ResumeKeeps(s: State)
    requires Inv(s)
    ensures Inv(Step(s, Resume))
  {
    var t := Step(s, Resume);
    if t != s {
      var id := s.inFlight.value;
      assert RequestOk(s.requests[id], id, s.generation, s.log);
      assert s.pending.None?;
      FinishKeeps(s, t.requests[id].outcome.value);
    }
  }

  lemma RequestEventKeeps(s: State, e: Event)
    requires Inv(s)
    requires e.Register? || e.DrainDone? || e.Resume? || e.Expire? || e.IoError? || e.Cancel? || e.TaintedClose?
             || e.TaintedEnd?
    ensures Inv(Step(s, e)) && Step(s, e).log == s.log && s.generation <= Step(s, e).generation
  {
    hide Inv, Taint, CloseRegion, FinishTainted;
    match e
    case Register(start, count) =>
      if Step(s, e) != s {
        RegisterKeeps(s, start, count);
      }
    case DrainDone => DrainKeeps(s);
    case Resume => ResumeKeeps(s);
    case Expire =>
      if Waiting(s) {
        TaintKeeps(s, if s.requests[s.inFlight.value].phase.Draining? then AmbiguousDrain else ResponseTimeout);
      }
    case IoError =>
      if Waiting(s) && s.requests[s.inFlight.value].phase.Draining? {
        TaintKeeps(s, AmbiguousIo);
      }
    case Cancel =>
      if Waiting(s) {
        TaintKeeps(s, Cancelled);
      } else if InTaintedPhase(s) {
        FinishTaintedKeeps(s);
      }
    case TaintedClose =>
      if InTaintedPhase(s) && s.lock.Free? {
        CloseRegionKeeps(s, true);
      }
    case TaintedEnd =>
      if InTaintedPhase(s) && s.lock == Closing(true) {
        FinishTaintedKeeps(s);
      }
  }

  lemma SetReaderKeeps(s: State, g: nat, r: ReaderState)
    requires Inv(s) && g in s.readers && (g == s.generation ==> r != Exited)
    ensures Inv(SetReader(s, g, r)) && LogGrows(s, SetReader(s, g, r))
  {
    PendingMeansConnected(s);
    assert ConnectionOk(s.connection, s.generation, s.readers, s.lock);
    hide Inv;
    UnrelatedFieldsKeep(s, SetReader(s, g, r));
  }

  lemma ReaderEventKeeps(s: State, e: Event)
    requires Inv(s) && (e.Chunk? || e.ReaderError? || e.ReaderFailed? || e.ReaderExit?)
    ensures Inv(Step(s, e)) && LogGrows(s, Step(s, e)) && s.generation <= Step(s, e).generation
  {
    hide Inv, RouteAll, SettlePending, CloseRegion, Taint, FinishTainted, Finish, RegisterRequest;
    match e
    case Chunk(g, frames) =>
      if g in s.readers && s.readers[g].Reading? {
        if g == s.generation {
          RouteAllKeeps(s, frames, g);
        } else {
          SetReaderKeeps(s, g, Exited);
        }
      }
    case ReaderFailed(g) => ReaderFailedKeeps(s, g);
    case ReaderError(g) =>
      if g in s.readers && s.readers[g].Reading? {
        SetReaderKeeps(s, g, if g == s.generation then Failing else Exited);
      }
    case ReaderExit(g) =>
      if g in s.readers && g != s.generation {
        SetReaderKeeps(s, g, Exited);
      }
  }

  /** No event of any coroutine breaks the invariant, takes an observation back, or accepts a stale one. */
  lemma StepKeeps(s: State, e: Event)
    requires Inv(s)
    ensures Inv(Step(s, e)) && LogGrows(s, Step(s, e)) && s.generation <= Step(s, e).generation
  {
    hide Step, Inv;
    match e
    case ConnectBegin => LifecycleKeeps(s, e);
    case ConnectFailed => LifecycleKeeps(s, e);
    case ConnectDone => LifecycleKeeps(s, e);
    case CloseBegin => LifecycleKeeps(s, e);
    case CloseEnd => LifecycleKeeps(s, e);
    case CleanupDone => LifecycleKeeps(s, e);
    case Chunk(_, _) => ReaderEventKeeps(s, e);
    case ReaderError(_) => ReaderEventKeeps(s, e);
    case ReaderFailed(_) => ReaderEventKeeps(s, e);
    case ReaderExit(_) => ReaderEventKeeps(s, e);
    case _ => RequestEventKeeps(s, e);
  }

  // ---------- whole runs ----------

  lemma {:induction false} RunKeeps(s: State, events: seq<Event>)
    requires Inv(s)
    ensures Inv(Run(s, events)) && LogGrows(s, Run(s, events)) && s.generation <= Run(s, events).generation
    decreases |events|
  {
    hide Step, Inv;
    if events != [] {
      var m := Run(s, events[..|events| - 1]);
      RunKeeps(s, events[..|events| - 1]);
      StepKeeps(m, events[|events| - 1]);
      var t := Run(s, events);
      assert t.log[..|s.log|] == t.log[..|m.log|][..|s.log|];
      assert forall k :: |s.log| <= k < |m.log| ==> t.log[k] == t.log[..|m.log|][k];
    }
  }

  ghost predicate Reachable(s: State) {
    exists events: seq<Event> :: s == Run(INITIAL, events)
  }

  lemma ReachableInv(s: State)
    requires Reachable(s)
    ensures Inv(s)
  {
    var events :| s == Run(INITIAL, events);
    InitialInv();
    RunKeeps(INITIAL, events);
  }

  /**
   * In every reachable state a pending request belongs to the current generation and a writer is installed for that
   * generation; and a completed request was completed by an observation accepted after its registration, on its own
   * generation, for exactly its range, which completed no other request.
   */
  lemma PendingIsCurrent(s: State, id: nat)
    requires Reachable(s) && id < |s.requests|
    ensures s.pending == Some(id) ==> s.requests[id].generation == s.generation && s.connection == Some(s.generation)
    ensures s.requests[id].future.Result? ==>
              var r, k := s.requests[id], s.requests[id].future.place;
              && r.registeredAt <= k < |s.log| && s.log[k].generation == r.generation
              && s.log[k].start == r.start && |s.log[k].values| == r.count
              && forall other: nat :: other < |s.requests| && s.requests[other].future == Result(k) ==> other == id
    ensures s.requests[id].outcome == Some(Success) ==> s.requests[id].future.Result?
  {
    ReachableInv(s);
    assert RequestOk(s.requests[id], id, s.generation, s.log);
    forall other: nat | other < |s.requests| && s.requests[id].future.Result?
      && s.requests[other].future == s.requests[id].future
      ensures other == id
    {
      assert RequestOk(s.requests[other], other, s.generation, s.log);
    }
  }

  /**
   * Fencing. Once a request has timed out, ended ambiguously or been cancelled, nothing its connection still delivers
   * is ever accepted: every later observation, and with it every later completion, is of a newer generation.
   */
  lemma LateRepliesFenced(s: State, events: seq<Event>, id: nat)
    requires Reachable(s) && id < |s.requests| && Retired(s.requests[id])
    ensures var t := Run(s, events);
            && |s.log| <= |t.log| && t.log[..|s.log|] == s.log
            && (forall k :: |s.log| <= k < |t.log| ==> t.log[k].generation > s.requests[id].generation)
            && (forall i: nat ::
                  i < |t.requests| && t.requests[i].future.Result? && t.requests[i].future.place >= |s.log|
                  ==> t.requests[i].generation > s.requests[id].generation)
  {
    ReachableInv(s);
    assert RequestOk(s.requests[id], id, s.generation, s.log);
    RunKeeps(s, events);
    var t := Run(s, events);
    forall i: nat | i < |t.requests| && t.requests[i].future.Result? && t.requests[i].future.place >= |s.log|
      ensures t.requests[i].generation > s.requests[id].generation
    {
      assert RequestOk(t.requests[i], i, t.generation, t.log);
    }
  }

  /** Bytes from a reader whose generation has passed end that reader, and change nothing else. */
  lemma StaleBytesHarmless(s: State, g: nat, frames: seq<Routed>)
    requires g != s.generation
    ensures Step(s, Chunk(g, frames))
         == if g in s.readers && s.readers[g].Reading? then s.(readers := s.readers[g := Exited]) else s
    ensures forall f: Routed :: Route(s, f, g) == s
  {
  }

  /** The session's counters, on every run. */
  lemma Accounting(s: State)
    requires Reachable(s)
    ensures s.counters.validated == s.counters.expected + s.counters.unmatched == |s.log|
    ensures s.counters.routed
            == s.counters.validated + s.counters.fc193 + s.counters.rejections + s.counters.routerRejected
    ensures s.counters.explicitRequests == |s.requests|
         == s.counters.finalised + (if s.inFlight.Some? then 1 else 0)
    ensures forall i: nat :: i < |s.requests| ==> (s.requests[i].phase.Finished? <==> s.inFlight != Some(i))
    ensures s.counters.successes <= s.counters.expected == ExplicitCount(s.log)
  {
    ReachableInv(s);
  }

  /**
   * Correlation without transaction ids: while a request is pending, a routed frame completes it exactly when it
   * belongs to the current generation and carries the request's own range.
   */
  lemma CompletesExactly(s: State, id: nat, f: Routed, g: nat)
    requires Reachable(s) && id < |s.requests| && s.pending == Some(id)
    ensures var t, r := Route(s, f, g), s.requests[id];
            (t.requests[id].future.Result? <==>
               g == r.generation && f.frame.Fc4? && f.frame.start == r.start && |f.frame.values| == r.count)
            && (t.requests[id].future.Result? ==> t.requests[id].future.place == |s.log| && t.pending.None?)
  {
    ReachableInv(s);
  }

  /** A request can succeed: connect, register, drain, receive the reply, resume. */
  lemma ReplyAnswersRequest(start: nat, values: seq<nat>, at: int, s: State)
    requires ValidRange(start, |values|)
    requires s == Step(Step(Step(Step(Step(Step(INITIAL, ConnectBegin), ConnectDone), Register(start, |values|)),
                                 DrainDone), Chunk(1, [Routed(Fc4(start, values), at)])), Resume)
    ensures s.requests == [Request(start, |values|, 1, 0, Result(0), Finished, Some(Success))]
    ensures s.log == [Accepted(start, values, at, 1, Some(0))]
  {
    var connected := Step(Step(INITIAL, ConnectBegin), ConnectDone);
    FirstConnection();
    hide SettlePending, CloseRegion, Taint, FinishTainted;
    var registered := Step(connected, Register(start, |values|));
    assert registered == RegisterRequest(connected, start, |values|);
    var waiting := Step(registered, DrainDone);
    assert waiting.requests == [Request(start, |values|, 1, 0, Unset, Replying, None)];
    OneReply(waiting, start, values, at);
  }

  lemma FirstConnection()
    ensures var connected := Step(Step(INITIAL, ConnectBegin), ConnectDone);
            && connected == INITIAL.(generation := 1, connection := Some(1), readers := map[1 := Reading],
                                     counters := INITIAL.counters.(connections := 1))
            && Connected(connected)
  {
  }

  lemma OneReply(waiting: State, start: nat, values: seq<nat>, at: int)
    requires waiting.generation == 1 && 1 in waiting.readers && waiting.readers[1].Reading? && waiting.log == []
    requires waiting.pending == waiting.inFlight == Some(0)
    requires waiting.requests == [Request(start, |values|, 1, 0, Unset, Replying, None)]
    ensures var s := Step(Step(waiting, Chunk(1, [Routed(Fc4(start, values), at)])), Resume);
            && s.requests == [Request(start, |values|, 1, 0, Result(0), Finished, Some(Success))]
            && s.log == [Accepted(start, values, at, 1, Some(0))]
  {
    hide SettlePending, CloseRegion, Taint, FinishTainted;
    var f := Routed(Fc4(start, values), at);
    var answered := Route(waiting, f, 1);
    assert RouteAll(waiting, [f], 1) == RouteAll(answered, [], 1) == answered;
    assert answered.requests == [Request(start, |values|, 1, 0, Result(0), Replying, None)];
  }
}
