/** The recovery ledger: what every reconnect attempt leaves behind in the event log and the counters. */
module RecoveryLedger {
  import opened AcquisitionHealth
  import opened BlockPlanner
  import opened Recovery

  // ---------- one reconnect ----------

  predicate IsRefusal(ev: RecoveryEvent) {
    ev.outcome.RollingBudgetExhausted?
  }

  /** Rolling-budget refusals among the recorded events. */
  function Refusals(log: seq<RecoveryEvent>): nat {
    if log == [] then 0
    else Refusals(log[..|log| - 1]) + (if IsRefusal(log[|log| - 1]) then 1 else 0)
  }

  /** The reconnect starts the other events belong to, in the order they were recorded. */
  function Attempted(log: seq<RecoveryEvent>): seq<Start> {
    if log == [] then []
    else Attempted(log[..|log| - 1]) + (if IsRefusal(log[|log| - 1]) then [] else [StartOf(log[|log| - 1].recovery)])
  }

  lemma LogSnoc(log: seq<RecoveryEvent>, ev: RecoveryEvent)
    ensures Refusals(log + [ev]) == Refusals(log) + (if IsRefusal(ev) then 1 else 0)
    ensures Attempted(log + [ev]) == Attempted(log) + (if IsRefusal(ev) then [] else [StartOf(ev.recovery)])
  {
    assert (log + [ev])[..|log|] == log;
  }

  /** Exactly one event was added, for the recovery that was attached, and it is not a refusal. */
  ghost predicate EndedAs(s: Client, t: Client, a: ActiveRecovery) {
    t.active.None? && |t.log| == |s.log| + 1 && t.log[..|s.log|] == s.log
    && !IsRefusal(t.log[|s.log|]) && StartOf(t.log[|s.log|].recovery) == StartOf(a)
  }

  ghost predicate StillAttached(s: Client, t: Client, a: ActiveRecovery) {
    t.log == s.log && t.active.Some? && StartOf(t.active.value) == StartOf(a)
  }

  /** A reconnect in progress: each way it ends, and what it does to the counters. */
  ghost predicate DialEffect(s: Client, t: Client, r: Recovered, dials: int)
    requires s.active.Some?
  {
    && t.times == s.times && t.starts == s.starts && t.tick >= s.tick
    && t.n.requests == s.n.requests && t.n.attempts == s.n.attempts && t.n.completed == s.n.completed
    && t.n.dials <= s.n.dials + dials
    && (if r.Reconnected? then StillAttached(s, t, s.active.value) && t.n.successful == s.n.successful + 1
        else if r.error.CloseInterrupted? then StillAttached(s, t, s.active.value) && t.n.successful == s.n.successful
        else EndedAs(s, t, s.active.value) && t.n.successful == s.n.successful)
    && (if r == Raised(ConnectionError) then t.n.failed == s.n.failed + 1 else t.n.failed == s.n.failed)
    && (r.Raised? ==> !r.error.UnclassifiedError? && !r.error.RecoveryExhaustedError?)
  }

  /** `u` is further into the same reconnect than `s`, with nothing decided yet. */
  ghost predicate Later(s: Client, u: Client, dials: int) {
    && s.active.Some? && u.active.Some? && StartOf(u.active.value) == StartOf(s.active.value)
    && u.times == s.times && u.starts == s.starts && u.log == s.log && u.tick >= s.tick
    && u.n.requests == s.n.requests && u.n.attempts == s.n.attempts && u.n.completed == s.n.completed
    && u.n.successful == s.n.successful && u.n.failed == s.n.failed && u.n.dials <= s.n.dials + dials
  }

  lemma DialEffectMore(s: Client, t: Client, r: Recovered, dials: nat)
    requires s.active.Some? && DialEffect(s, t, r, 0)
    ensures DialEffect(s, t, r, dials)
  {
  }

  lemma EffectFromLater(s: Client, u: Client, dials: int, t: Client, r: Recovered, more: int)
    requires Later(s, u, dials) && DialEffect(u, t, r, more)
    ensures DialEffect(s, t, r, dials + more)
  {
  }

  lemma GiveUpEffect(u: Client, w: World, outcome: Ending, e: Error)
    requires u.active.Some? && !outcome.RollingBudgetExhausted?
    requires e.CancelledError? || e.SessionClosedError?
    ensures DialEffect(u, GiveUp(u, w, outcome), Raised(e), 0)
  {
  }

  lemma AfterDialEffect(u: Client, w: World)
    requires u.active.Some?
    ensures DialEffect(u, AfterDial(u, w).0, AfterDial(u, w).1, 0)
  {
  }

  lemma LastDialEffect(u: Client, w: World)
    requires u.active.Some?
    ensures var g := u.(health := Degraded, n := u.n.(failed := u.n.failed + 1, abandoned := u.n.abandoned + 1));
            DialEffect(u, GiveUp(g, w, ConnectionAttemptsExhausted), Raised(ConnectionError), 0)
  {
  }

  /** One dial and the pause behind it come after the state before. */
  lemma StepsLater(s: Client)
    requires s.active.Some?
    ensures var d := DialStarted(s); var f := DialRefused(d);
            && Later(s, d, 1) && Later(s, d.(health := Degraded), 1) && Later(s, f, 1) && Later(s, Ticked(f, 2), 1)
            && Later(s, Ticked(f, 2).(health := Degraded), 1)
  {
  }

  lemma {:induction false} DialKeeps(s: Client, w: World, p: Policy, attempt: nat)
    requires s.active.Some? && attempt <= p.dialsPerReconnect
    ensures DialEffect(s, Dial(s, w, p, attempt).0, Dial(s, w, p, attempt).1, p.dialsPerReconnect - attempt)
    decreases p.dialsPerReconnect - attempt
  {
    var r := Dial(s, w, p, attempt);
    if attempt == p.dialsPerReconnect {
      AfterDialEffect(s, w);
    } else {
      var d := DialStarted(s);
      var f := DialRefused(d);
      StepsLater(s);
      hide DialEffect, AfterDial, GiveUp, Later, DialStarted, DialRefused, Ticked;
      var u := if w.dial(s.tick).Connected? then d
               else if w.dial(s.tick).DialCancelled? then d.(health := Degraded)
               else if attempt + 1 == p.dialsPerReconnect then f
               else if PauseAt(w, f.tick, p.repeatedCooldown).Interrupt? then Ticked(f, 2).(health := Degraded)
               else Ticked(f, 2);
      var goesOn := w.dial(s.tick).DialFailed? && attempt + 1 < p.dialsPerReconnect
                    && PauseAt(w, f.tick, p.repeatedCooldown).Continue?;
      var more := if goesOn then p.dialsPerReconnect - attempt - 1 else 0;
      assert DialEffect(u, r.0, r.1, more) by {
        if goesOn {
          DialKeeps(u, w, p, attempt + 1);
        }
        AfterDialEffect(d, w);
        GiveUpEffect(u, w, CancelledEnding, CancelledError);
        GiveUpEffect(u, w, ShutdownEnding, SessionClosedError);
        LastDialEffect(f, w);
      }
      hide Dial, PauseAt;
      EffectFromLater(s, u, 1, r.0, r.1, more);
    }
  }

  /** A recovery starting at `m`: the shorter cooldown exactly when no earlier start is left in the deque. */
  predicate BegunAt(a: ActiveRecovery, m: Moment, kept: seq<int>, p: Policy) {
    a.started == m.monotonic && a.recoveryStartedAt == m.now
    && a.cooldown == if kept == [] then p.initialCooldown else p.repeatedCooldown
  }

  /** A budgeted reconnect: refused with one event, or attempted, its start written down before anything can fail. */
  ghost predicate RecoverEffect(s: Client, t: Client, r: Recovered, w: World, p: Policy) {
    var m := w.at(s.tick);
    var kept := Prune(s.times, m.monotonic - p.window);
    if |kept| >= p.perWindow then
      && r == Raised(RecoveryExhaustedError)
      && t.times == kept && t.starts == s.starts && t.active == s.active && t.tick >= s.tick
      && |t.log| == |s.log| + 1 && t.log[..|s.log|] == s.log && IsRefusal(t.log[|s.log|])
      && t.n == s.n.(exhausted := s.n.exhausted + 1, abandoned := s.n.abandoned + 1)
    else
      exists a :: BegunAt(a, m, kept, p) && DialEffect(Begun(s, m, kept, a), t, r, p.dialsPerReconnect)
  }

  lemma BegunKeeps(s: Client, w: World, p: Policy, kept: seq<int>, a: ActiveRecovery)
    ensures var b := Begun(s, w.at(s.tick), kept, a);
            DialEffect(b, AfterBegun(b, w, p, a.cooldown).0, AfterBegun(b, w, p, a.cooldown).1, p.dialsPerReconnect)
  {
    var b := Begun(s, w.at(s.tick), kept, a);
    var u := Ticked(b, 2);
    var v := u.(health := Degraded);
    DialKeeps(u, w, p, 0);
    GiveUpEffect(v, w, CancelledEnding, CancelledError);
    GiveUpEffect(u, w, ShutdownEnding, SessionClosedError);
    assert Later(b, u, 0) && Later(b, v, 0);
    var r := AfterBegun(b, w, p, a.cooldown);
    if PauseAt(w, b.tick, a.cooldown).Continue? {
      EffectFromLater(b, u, 0, r.0, r.1, p.dialsPerReconnect);
    } else if PauseAt(w, b.tick, a.cooldown).Stop? {
      EffectFromLater(b, u, 0, r.0, r.1, 0);
      DialEffectMore(b, r.0, r.1, p.dialsPerReconnect);
    } else {
      EffectFromLater(b, v, 0, r.0, r.1, 0);
      DialEffectMore(b, r.0, r.1, p.dialsPerReconnect);
    }
    hide DialEffect, Begun, Dial, GiveUp, PauseAt, Later;
  }

  lemma RecoverKeeps(s: Client, w: World, p: Policy, kind: FailureKind, block: InputReadBlock, at: int)
    ensures RecoverEffect(s, Recover(s, w, p, kind, block, at).0, Recover(s, w, p, kind, block, at).1, w, p)
  {
    var m := w.at(s.tick);
    var kept := Prune(s.times, m.monotonic - p.window);
    if |kept| < p.perWindow {
      var cooldown := if kept == [] then p.initialCooldown else p.repeatedCooldown;
      BegunKeeps(s, w, p, kept, Beginning(m, kind, block, at, cooldown));
      hide Dial, Prune, Begun, DialEffect, Ticked, PauseAt, GiveUp, Refused;
    } else {
      hide Dial, Prune, Begun, DialEffect;
    }
  }

  // ---------- the ledger over an acquisition ----------

  function One(b: bool): nat {
    if b then 1 else 0
  }

  /** Attempts and refusals that have no event, apart from the recovery still attached. */
  function Lost(s: Client): int {
    |s.starts| + Refusals(s.log) - |s.log| - One(s.active.Some?)
  }

  lemma OneMoreEvent(before: seq<RecoveryEvent>, after: seq<RecoveryEvent>)
    requires |after| == |before| + 1 && after[..|before|] == before
    ensures Refusals(after) == Refusals(before) + One(IsRefusal(after[|before|]))
    ensures Attempted(after)
         == Attempted(before) + (if IsRefusal(after[|before|]) then [] else [StartOf(after[|before|].recovery)])
  {
    assert after == before + [after[|before|]];
    LogSnoc(before, after[|before|]);
  }

  lemma TerminateLedger(s: Client, w: World, own: bool, outcome: Ending)
    requires (own ==> s.active.Some?) && !outcome.RollingBudgetExhausted?
    ensures var t := EndOwn(s, w, own, outcome);
            && Lost(t) == Lost(s) && t.starts == s.starts && Refusals(t.log) == Refusals(s.log)
            && (t.active.Some? <==> s.active.Some? && !own)
  {
    if own {
      OneMoreEvent(s.log, EndOwn(s, w, own, outcome).log);
    }
  }

  /** What a failed read does to the ledger. */
  ghost predicate FailureBooked(s: Client, t: Client, r: Recovered, own: bool) {
    var attempted := |t.starts| == |s.starts| + 1;
    var refused := Refusals(t.log) > Refusals(s.log);
    && (attempted || t.starts == s.starts)
    && Refusals(t.log) == Refusals(s.log) + One(refused)
    && Lost(t) == Lost(s) + One(attempted && s.active.Some?)
    && (r.Raised? ==> !r.error.UnclassifiedError?)
    && (if r.Reconnected? then attempted && !refused && t.active.Some?
        else if attempted then
          !refused && !r.error.RecoveryExhaustedError? && (t.active.Some? <==> r.error.CloseInterrupted?)
        else !r.error.CloseInterrupted? && (refused ==> r.error.RecoveryExhaustedError?)
             && (t.active.Some? <==> s.active.Some? && (own ==> refused)))
  }

  lemma RecoverBooked(s: Client, t: Client, r: Recovered, w: World, p: Policy, own: bool)
    requires RecoverEffect(s, t, r, w, p)
    ensures FailureBooked(s, t, r, own)
  {
    hide Prune;
    if |t.log| == |s.log| + 1 && t.log[..|s.log|] == s.log {
      OneMoreEvent(s.log, t.log);
    }
  }

  predicate SameLedger(s: Client, u: Client) {
    u.starts == s.starts && u.log == s.log && u.active == s.active
  }

  lemma BookedFrom(s: Client, u: Client, t: Client, r: Recovered, own: bool)
    requires SameLedger(s, u) && FailureBooked(u, t, r, own)
    ensures FailureBooked(s, t, r, own)
  {
  }

  lemma EndedBooked(u: Client, w: World, own: bool, outcome: Ending, t: Client, e: Error)
    requires (own ==> u.active.Some?) && !outcome.RollingBudgetExhausted?
    requires SameLedger(EndOwn(u, w, own, outcome), t)
    requires e.SessionClosedError? || e.RecoveryExhaustedError?
    ensures FailureBooked(u, t, Raised(e), own)
  {
    hide Refusals, EndOwn;
    TerminateLedger(u, w, own, outcome);
    assert Lost(t) == Lost(EndOwn(u, w, own, outcome)) && Refusals(t.log) == Refusals(u.log);
    hide Lost;
  }

  lemma OnFailureBooked(s: Client, w: World, p: Policy, c: Cursor, kind: FailureKind, block: InputReadBlock, at: int)
    requires c.own ==> s.active.Some?
    ensures FailureBooked(s, OnFailure(s, w, p, c, kind, block, at).0, OnFailure(s, w, p, c, kind, block, at).1, c.own)
  {
    var counted := s.(n := CountFailure(s.n, kind));
    var degraded := counted.(health := Degraded);
    var r := OnFailure(s, w, p, c, kind, block, at);
    hide CountFailure, FailureBooked, Recover, RecoverEffect;
    assert SameLedger(s, counted) && SameLedger(s, degraded);
    if c.own && w.at(s.tick).shutdown && kind.SessionClosed? {
      EndedBooked(degraded, w, true, ReacquisitionShutdown, r.0, SessionClosedError);
      BookedFrom(s, degraded, r.0, r.1, c.own);
    } else if c.reconnects >= p.perAcquisition {
      EndedBooked(counted, w, c.own, ReacquisitionFailed, r.0, RecoveryExhaustedError);
      BookedFrom(s, counted, r.0, r.1, c.own);
    } else {
      RecoverKeeps(counted, w, p, kind, block, at);
      RecoverBooked(counted, r.0, r.1, w, p, c.own);
      BookedFrom(s, counted, r.0, r.1, c.own);
    }
  }

  /** The ways an acquisition can end with its recovery neither recorded nor detached. */
  ghost predicate LeavesAttached(a: Acquisition, refusalsBefore: nat) {
    a.Failed? && (a.error.CloseInterrupted? || a.error.UnclassifiedError?
                  || (a.error.RecoveryExhaustedError? && Refusals(a.end.log) > refusalsBefore))
  }

  /** The general law: each reconnect begun on top of an attached recovery loses that recovery's event, and nothing
      else does. */
  ghost predicate AcquisitionBooked(s: Client, a: Acquisition, own: bool) {
    var attempts := |a.end.starts| - |s.starts|;
    && attempts >= 0 && Refusals(a.end.log) >= Refusals(s.log)
    && Lost(a.end) == Lost(s) + (if s.active.Some? || attempts == 0 then attempts else attempts - 1)
    && (a.end.active.Some? <==>
          if attempts == 0 && !own then s.active.Some? else LeavesAttached(a, Refusals(s.log)))
  }

  lemma CompletedBooked(s: Client, w: World, e: Setup, c: Cursor)
    requires c.own ==> s.active.Some?
    ensures AcquisitionBooked(s, Completed(s, w, e, c), c.own)
  {
    hide ProfileFresh;
    if c.own {
      OneMoreEvent(s.log, Completed(s, w, e, c).end.log);
    }
  }

  lemma BookedOn(s: Client, u: Client, a: Acquisition, own: bool)
    requires SameLedger(s, u) && AcquisitionBooked(u, a, own)
    ensures AcquisitionBooked(s, a, own)
  {
  }

  /** The rest of the acquisition after a reconnect. */
  lemma BookedAfterReconnect(s: Client, t: Client, a: Acquisition, own: bool)
    requires FailureBooked(s, t, Reconnected, own) && AcquisitionBooked(t, a, true)
    ensures AcquisitionBooked(s, a, own)
  {
    hide Lost;
  }

  lemma BookedOnFailure(s: Client, t: Client, e: Error, own: bool)
    requires FailureBooked(s, t, Raised(e), own) && (own ==> s.active.Some?)
    ensures AcquisitionBooked(s, Failed(t, e), own)
  {
    hide Lost;
  }

  /** An acquisition ended by the read itself: nothing attempted, its own recovery recorded or, unclassified, left. */
  lemma BookedOnRaise(u: Client, w: World, own: bool, outcome: Ending, e: Error)
    requires (own ==> u.active.Some?) && !outcome.RollingBudgetExhausted?
    requires e.CancelledError? || e.ReadRejectedError?
    ensures AcquisitionBooked(u, Failed(EndOwn(u, w, own, outcome), e), own)
  {
    TerminateLedger(u, w, own, outcome);
    hide Lost, EndOwn, Refusals;
    var a := Failed(EndOwn(u, w, own, outcome), e);
    assert !LeavesAttached(a, Refusals(u.log));
  }

  /** The general ledger law for every world, from every point of the selection loop. */
  lemma {:induction false} SelectBooked(s: Client, w: World, e: Setup, c: Cursor)
    requires (c.own ==> s.active.Some?) && (e.policy.None? ==> !c.own)
    ensures AcquisitionBooked(s, Select(s, w, e, c), c.own)
    decreases Allowance(e, c), |e.blocks| - c.i
  {
    hide AcquisitionBooked, FailureBooked, OnFailure, Completed, EndOwn, FreshAt;
    if c.i >= |e.blocks| {
      CompletedBooked(s, w, e, c);
      return;
    }
    var block := e.blocks[c.i];
    var next := c.(i := c.i + 1);
    var skipped := Ticked(s, 1);
    var done := Asked(s);
    var degraded := done.(health := Degraded);
    var a := Select(s, w, e, c);
    assert SameLedger(s, skipped) && SameLedger(s, done) && SameLedger(s, degraded);
    if FreshAt(RequiredIn(e.required, block), w.at(s.tick), e.target) {
      SelectBooked(skipped, w, e, next);
      BookedOn(s, skipped, a, c.own);
    } else {
      match w.read(s.tick + 1, block)
      case Answered =>
        SelectBooked(done, w, e, next);
        BookedOn(s, done, a, c.own);
      case ReadCancelled =>
        BookedOnRaise(degraded, w, c.own, ReacquisitionCancelled, CancelledError);
        BookedOn(s, degraded, a, c.own);
      case ReadRejected =>
        BookedOnRaise(degraded, w, c.own, ReacquisitionRejected, ReadRejectedError);
        BookedOn(s, degraded, a, c.own);
      case ReadUnclassified =>
        UnclassifiedBooked(s, a, c.own);
      case ReadFailed(kind) =>
        if e.policy.None? {
          UnclassifiedBooked(s, a, false);
        } else {
          FailedReadBooked(s, w, e, c, kind);
        }
    }
  }

  lemma UnclassifiedBooked(s: Client, a: Acquisition, own: bool)
    requires (own ==> s.active.Some?) && SameLedger(s, a.end) && a.Failed?
    requires if own then a.error.UnclassifiedError? else a.error.UnclassifiedError? || a.error.OriginalError?
    ensures AcquisitionBooked(s, a, own)
  {
  }

  lemma FailedReadBooked(s: Client, w: World, e: Setup, c: Cursor, kind: FailureKind)
    requires (c.own ==> s.active.Some?) && e.policy.Some? && c.i < |e.blocks|
    requires !FreshAt(RequiredIn(e.required, e.blocks[c.i]), w.at(s.tick), e.target)
    requires w.read(s.tick + 1, e.blocks[c.i]) == ReadFailed(kind)
    ensures AcquisitionBooked(s, Select(s, w, e, c), c.own)
    decreases Allowance(e, c), |e.blocks| - c.i, 0
  {
    var p, block, at := e.policy.value, e.blocks[c.i], w.at(s.tick + 1).now;
    var done := Asked(s);
    assert SameLedger(s, done);
    SelectFails(s, w, e, c, kind);
    hide AcquisitionBooked, FailureBooked, OnFailure, Select, FreshAt;
    OnFailureBooked(done, w, p, c, kind, block, at);
    var r := OnFailure(done, w, p, c, kind, block, at);
    if r.1.Raised? {
      BookedOnFailure(done, r.0, r.1.error, c.own);
      BookedOn(s, done, Failed(r.0, r.1.error), c.own);
    } else {
      SelectBooked(r.0, w, e, Again(c, r.0.tick));
      var a := Select(r.0, w, e, Again(c, r.0.tick));
      BookedAfterReconnect(done, r.0, a, c.own);
      BookedOn(s, done, a, c.own);
    }
  }
}
