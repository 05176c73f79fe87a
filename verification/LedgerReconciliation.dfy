/** The recovery counters and the recorded events tell the same story: what the events add up to. */
module LedgerReconciliation {
  import opened AcquisitionHealth
  import opened Options
  import opened BlockPlanner
  import opened Recovery
  import opened RecoveryLedger
  import opened LedgerExactness

  /** Dials, failed dials, established connections, completed recoveries and exhausted reconnects. */
  datatype Tally = Tally(dials: nat, failedDials: nat, successful: nat, completed: nat, failed: nat)

  const NO_TALLY := Tally(0, 0, 0, 0, 0)

  function Plus(a: Tally, b: Tally): Tally {
    Tally(a.dials + b.dials, a.failedDials + b.failedDials, a.successful + b.successful,
          a.completed + b.completed, a.failed + b.failed)
  }

  function OfEvent(ev: RecoveryEvent): Tally {
    Tally(ev.recovery.dials, ev.recovery.failedDials, One(ev.reconnectSucceeded),
          One(ev.outcome.ProfileRecovered?), One(ev.outcome.ConnectionAttemptsExhausted?))
  }

  function OfEvents(log: seq<RecoveryEvent>): Tally {
    if log == [] then NO_TALLY else Plus(OfEvents(log[..|log| - 1]), OfEvent(log[|log| - 1]))
  }

  function OfActive(active: Option<ActiveRecovery>): Tally {
    if active.None? then NO_TALLY
    else Tally(active.value.dials, active.value.failedDials, One(active.value.connectedAfter.Some?), 0, 0)
  }

  function OfCounters(n: Counters): Tally {
    Tally(n.dials, n.failedDials, n.successful, n.completed, n.failed)
  }

  /** The events, with the recovery still attached, account for every counter. */
  ghost predicate Reconciled(s: Client) {
    OfCounters(s.n) == Plus(OfEvents(s.log), OfActive(s.active))
  }

  predicate Linked(s: Client) {
    s.active.Some? && s.active.value.connectedAfter.Some?
  }

  predicate Unlinked(s: Client) {
    s.active.Some? && s.active.value.connectedAfter.None?
  }

  predicate SameTally(s: Client, u: Client) {
    u.log == s.log && u.active == s.active && OfCounters(u.n) == OfCounters(s.n)
  }

  /** How a reconnect goes on: reconciled, and connected if it says so. */
  ghost predicate Sound(r: (Client, Recovered)) {
    Reconciled(r.0) && (r.1.Reconnected? ==> Linked(r.0))
  }

  lemma ReconciledOn(s: Client, u: Client)
    requires Reconciled(s) && SameTally(s, u)
    ensures Reconciled(u) && (Linked(s) ==> Linked(u)) && (Unlinked(s) ==> Unlinked(u))
  {
  }

  lemma RecordReconciled(s: Client, ev: RecoveryEvent)
    ensures OfEvents(s.log + [ev]) == Plus(OfEvents(s.log), OfEvent(ev))
  {
    assert (s.log + [ev])[..|s.log|] == s.log;
  }

  lemma GiveUpReconciled(s: Client, w: World, outcome: Ending)
    requires Reconciled(s) && Unlinked(s) && !outcome.ProfileRecovered? && !outcome.ConnectionAttemptsExhausted?
    ensures Reconciled(GiveUp(s, w, outcome))
  {
    RecordReconciled(s, RecoveryEvent(s.active.value, w.at(s.tick).now, false, outcome));
    hide OfEvents;
  }

  lemma LastDialReconciled(s: Client, w: World)
    requires Reconciled(s) && Unlinked(s)
    ensures var g := s.(health := Degraded, n := s.n.(failed := s.n.failed + 1, abandoned := s.n.abandoned + 1));
            Reconciled(GiveUp(g, w, ConnectionAttemptsExhausted))
  {
    RecordReconciled(s, RecoveryEvent(s.active.value, w.at(s.tick).now, false, ConnectionAttemptsExhausted));
    hide OfEvents;
  }

  lemma DialStepReconciled(s: Client)
    requires Reconciled(s) && Unlinked(s)
    ensures Reconciled(DialStarted(s)) && Unlinked(DialStarted(s))
    ensures Reconciled(DialRefused(DialStarted(s))) && Unlinked(DialRefused(DialStarted(s)))
  {
    hide OfEvents;
  }

  lemma EstablishedReconciled(s: Client, m: Moment)
    requires Reconciled(s) && Unlinked(s)
    ensures Sound((Established(s, m), Reconnected))
  {
    hide OfEvents;
  }

  lemma GaveUp(s: Client, w: World, outcome: Ending, e: Error)
    requires Reconciled(s) && Unlinked(s) && !outcome.ProfileRecovered? && !outcome.ConnectionAttemptsExhausted?
    ensures Sound((GiveUp(s, w, outcome), Raised(e)))
  {
    hide Reconciled, GiveUp;
    GiveUpReconciled(s, w, outcome);
  }

  lemma AfterDialReconciled(s: Client, w: World)
    requires Reconciled(s) && Unlinked(s)
    ensures Sound(AfterDial(s, w))
  {
    var t := Ticked(s, 1);
    assert SameTally(s, t);
    ReconciledOn(s, t);
    hide Reconciled, GiveUp, Established, Linked, Ticked;
    if !w.at(s.tick).shutdown {
      EstablishedReconciled(t, w.at(s.tick));
    } else if w.closing(s.tick).Closed? {
      GaveUp(t, w, ShutdownEnding, SessionClosedError);
    }
  }

  lemma {:induction false} DialReconciled(s: Client, w: World, p: Policy, attempt: nat)
    requires Reconciled(s) && Unlinked(s)
    ensures Sound(Dial(s, w, p, attempt))
    decreases p.dialsPerReconnect - attempt
  {
    hide Reconciled, Sound, Linked;
    if attempt >= p.dialsPerReconnect {
      AfterDialReconciled(s, w);
      return;
    }
    var d := DialStarted(s);
    DialStepReconciled(s);
    if w.dial(s.tick).Connected? {
      hide GiveUp, DialRefused, DialStarted, PauseAt, AfterDial;
      AfterDialReconciled(d, w);
    } else if w.dial(s.tick).DialCancelled? {
      var g := d.(health := Degraded);
      assert SameTally(d, g);
      ReconciledOn(d, g);
      hide GiveUp, DialRefused, DialStarted, PauseAt, AfterDial;
      GaveUp(g, w, CancelledEnding, CancelledError);
    } else {
      FailedDialReconciled(s, w, p, attempt);
    }
  }

  lemma FailedDialReconciled(s: Client, w: World, p: Policy, attempt: nat)
    requires Reconciled(s) && Unlinked(s) && attempt < p.dialsPerReconnect && w.dial(s.tick).DialFailed?
    ensures Sound(Dial(s, w, p, attempt))
    decreases p.dialsPerReconnect - attempt, 0
  {
    hide Reconciled, Linked, AfterDial;
    DialStepReconciled(s);
    var f := DialRefused(DialStarted(s));
    hide DialStarted, DialRefused;
    if attempt + 1 >= p.dialsPerReconnect {
      LastDialReconciled(f, w);
      hide GiveUp;
    } else {
      hide GiveUp, Ticked, Sound;
      var h := Ticked(f, 2);
      Waited(f);
      match PauseAt(w, f.tick, p.repeatedCooldown)
      case Interrupt => GaveUp(h.(health := Degraded), w, CancelledEnding, CancelledError);
      case Stop => GaveUp(h, w, ShutdownEnding, SessionClosedError);
      case Continue => DialReconciled(h, w, p, attempt + 1);
    }
  }

  lemma StartReconciled(s: Client, m: Moment, kept: seq<int>, a: ActiveRecovery)
    requires Reconciled(s) && s.active.None? && a.connectedAfter.None? && a.dials == a.failedDials == 0
    ensures Reconciled(Begun(s, m, kept, a)) && Unlinked(Begun(s, m, kept, a))
  {
    hide OfEvents;
  }

  lemma BegunReconciled(s: Client, w: World, p: Policy, kept: seq<int>, a: ActiveRecovery, cooldown: int)
    requires Reconciled(s) && s.active.None? && a.connectedAfter.None? && a.dials == a.failedDials == 0
    ensures Sound(AfterBegun(Begun(s, w.at(s.tick), kept, a), w, p, cooldown))
  {
    StartReconciled(s, w.at(s.tick), kept, a);
    var b := Begun(s, w.at(s.tick), kept, a);
    hide Reconciled, Linked, Begun, Dial;
    hide Sound, GiveUp, Ticked, Unlinked;
    var u := Ticked(b, 2);
    Waited(b);
    match PauseAt(w, b.tick, cooldown)
    case Interrupt => GaveUp(u.(health := Degraded), w, CancelledEnding, CancelledError);
    case Stop => GaveUp(u, w, ShutdownEnding, SessionClosedError);
    case Continue => DialReconciled(u, w, p, 0);
  }

  lemma Waited(b: Client)
    requires Reconciled(b) && Unlinked(b)
    ensures var u := Ticked(b, 2);
            && Reconciled(u) && Unlinked(u) && Reconciled(u.(health := Degraded)) && Unlinked(u.(health := Degraded))
  {
    var u := Ticked(b, 2);
    assert SameTally(b, u) && SameTally(b, u.(health := Degraded));
    hide Reconciled, Unlinked, Ticked;
    ReconciledOn(b, u);
    ReconciledOn(b, u.(health := Degraded));
  }

  lemma RefusedReconciled(s: Client, w: World, kept: seq<int>, a: ActiveRecovery)
    requires Reconciled(s) && a.dials == a.failedDials == 0
    ensures Reconciled(Refused(s, w, kept, a))
  {
    var ev := RecoveryEvent(a, w.at(s.tick + 1).now, false, RollingBudgetExhausted);
    RefusedTally(s, w, kept, a, ev);
    RecordReconciled(s, ev);
    PlusNothing(s, Refused(s, w, kept, a), ev);
    hide OfEvents, Refused, OfCounters, OfActive, OfEvent, Reconciled;
  }

  lemma RefusedTally(s: Client, w: World, kept: seq<int>, a: ActiveRecovery, ev: RecoveryEvent)
    requires a.dials == a.failedDials == 0
             && ev == RecoveryEvent(a, w.at(s.tick + 1).now, false, RollingBudgetExhausted)
    ensures var t := Refused(s, w, kept, a);
            t.log == s.log + [ev] && t.active == s.active && OfCounters(t.n) == OfCounters(s.n)
    ensures OfEvent(ev) == NO_TALLY
  {
  }

  lemma PlusNothing(s: Client, t: Client, ev: RecoveryEvent)
    requires Reconciled(s) && t.log == s.log + [ev] && t.active == s.active && OfCounters(t.n) == OfCounters(s.n)
    requires OfEvent(ev) == NO_TALLY && OfEvents(t.log) == Plus(OfEvents(s.log), OfEvent(ev))
    ensures Reconciled(t)
  {
    hide OfEvents, OfCounters, OfActive, OfEvent;
  }

  lemma RecoverReconciled(s: Client, w: World, p: Policy, kind: FailureKind, block: InputReadBlock, at: int)
    requires Reconciled(s) && s.active.None?
    ensures Sound(Recover(s, w, p, kind, block, at))
  {
    hide Reconciled, Refused, AfterBegun, Begun, Prune, Linked;
    var m := w.at(s.tick);
    var kept := Prune(s.times, m.monotonic - p.window);
    if |kept| >= p.perWindow {
      RefusedReconciled(s, w, kept, Beginning(m, kind, block, at, 0));
    } else {
      hide Sound;
      var cooldown := if kept == [] then p.initialCooldown else p.repeatedCooldown;
      BegunReconciled(s, w, p, kept, Beginning(m, kind, block, at, cooldown), cooldown);
    }
  }

  // ---------- over an acquisition ----------

  lemma EndOwnReconciled(s: Client, w: World, own: bool, outcome: Ending)
    requires Reconciled(s) && (own ==> Linked(s)) && !outcome.ProfileRecovered? && !outcome.ConnectionAttemptsExhausted?
    ensures Reconciled(EndOwn(s, w, own, outcome))
  {
    hide OfEvents;
    if own {
      RecordReconciled(s, RecoveryEvent(s.active.value, w.at(s.tick).now, true, outcome));
    }
  }

  lemma CompletedReconciled(s: Client, w: World, e: Setup, c: Cursor)
    requires Reconciled(s) && (c.own ==> Linked(s))
    ensures Reconciled(Completed(s, w, e, c).end)
  {
    hide ProfileFresh, OfEvents;
    var healthy := ProfileFresh(e, w.at(s.tick));
    var t := Completed(s, w, e, c).end;
    if c.own {
      var outcome := if healthy then ProfileRecovered else ProfileRemainedStale;
      var ev := RecoveryEvent(s.active.value, w.at(s.tick + 1).now, true, outcome);
      RecordReconciled(s, ev);
      assert t.log == s.log + [ev] && t.active.None?;
      assert OfCounters(t.n) == Plus(OfCounters(s.n), Tally(0, 0, 0, One(healthy), 0));
      hide Completed;
    }
  }

  lemma OnFailureReconciled(s: Client, w: World, p: Policy, c: Cursor, kind: FailureKind, block: InputReadBlock,
      at: int)
    requires Reconciled(s) && (if c.own then Linked(s) && c.reconnects >= p.perAcquisition else s.active.None?)
    ensures Sound(OnFailure(s, w, p, c, kind, block, at))
  {
    var counted := s.(n := CountFailure(s.n, kind));
    var degraded := counted.(health := Degraded);
    var r := OnFailure(s, w, p, c, kind, block, at);
    assert SameTally(s, counted) && SameTally(s, degraded);
    ReconciledOn(s, counted);
    ReconciledOn(s, degraded);
    if c.own && w.at(s.tick).shutdown && kind.SessionClosed? {
      EndOwnReconciled(degraded, w, true, ReacquisitionShutdown);
    } else if c.reconnects >= p.perAcquisition {
      EndOwnReconciled(counted, w, c.own, ReacquisitionFailed);
      ReconciledOn(EndOwn(counted, w, c.own, ReacquisitionFailed), r.0);
    } else {
      hide Reconciled, CountFailure;
      RecoverReconciled(counted, w, p, kind, block, at);
    }
    hide Reconciled, Recover, Terminate, Linked, CountFailure;
  }

  lemma {:induction false} SelectReconciled(s: Client, w: World, e: Setup, c: Cursor)
    requires Reconciled(s) && (if c.own then Linked(s) else s.active.None?)
    requires e.policy.Some? ==> e.policy.value.perAcquisition == 1 && (c.own ==> c.reconnects >= 1)
    ensures Reconciled(Select(s, w, e, c).end)
    decreases Allowance(e, c), |e.blocks| - c.i
  {
    hide Reconciled, OnFailure, FreshAt, Completed, EndOwn;
    if c.i >= |e.blocks| {
      CompletedReconciled(s, w, e, c);
      return;
    }
    var block := e.blocks[c.i];
    var next := c.(i := c.i + 1);
    var degraded := Asked(s).(health := Degraded);
    ReconciledOn(s, Ticked(s, 1));
    ReconciledOn(s, Asked(s));
    ReconciledOn(s, degraded);
    if FreshAt(RequiredIn(e.required, block), w.at(s.tick), e.target) {
      SelectReconciled(Ticked(s, 1), w, e, next);
    } else {
      match w.read(s.tick + 1, block)
      case Answered => SelectReconciled(Asked(s), w, e, next);
      case ReadCancelled => EndOwnReconciled(degraded, w, c.own, ReacquisitionCancelled);
      case ReadRejected => EndOwnReconciled(degraded, w, c.own, ReacquisitionRejected);
      case ReadUnclassified =>
      case ReadFailed(kind) =>
        if e.policy.Some? {
          SelectFails(s, w, e, c, kind);
          FailedReadReconciled(s, w, e, c, kind);
        }
    }
  }

  lemma FailedReadReconciled(s: Client, w: World, e: Setup, c: Cursor, kind: FailureKind)
    requires Reconciled(s) && (if c.own then Linked(s) else s.active.None?) && e.policy.Some? && c.i < |e.blocks|
    requires e.policy.value.perAcquisition == 1 && (c.own ==> c.reconnects >= 1)
    requires !FreshAt(RequiredIn(e.required, e.blocks[c.i]), w.at(s.tick), e.target)
    requires w.read(s.tick + 1, e.blocks[c.i]) == ReadFailed(kind)
    ensures Reconciled(Select(s, w, e, c).end)
    decreases Allowance(e, c), |e.blocks| - c.i, 0
  {
    assert c.own ==> s.active.Some?;
    hide Reconciled, OnFailure, FreshAt, RequiredIn, Select, Linked;
    SelectFails(s, w, e, c, kind);
    var block, at := e.blocks[c.i], w.at(s.tick + 1).now;
    assert SameTally(s, Asked(s));
    ReconciledOn(s, Asked(s));
    assert c.own || Asked(s).active.None?;
    hide SameTally, Asked;
    OnFailureReconciled(Asked(s), w, e.policy.value, c, kind, block, at);
    var r := OnFailure(Asked(s), w, e.policy.value, c, kind, block, at);
    if r.1.Reconnected? {
      SelectReconciled(r.0, w, e, Again(c, r.0.tick));
    }
  }

  lemma AcquireReconciled(s: Client, w: World, e: Setup)
    requires Reconciled(s) && s.active.None? && (e.policy.Some? ==> e.policy.value.perAcquisition == 1)
    ensures Reconciled(Acquire(s, w, e).end)
  {
    hide Select, Reconciled;
    SelectReconciled(s, w, e, Cursor(0, 0, false, s.tick));
  }

  lemma NothingReconciled(s: Client)
    requires s.log == [] && s.active.None? && OfCounters(s.n) == NO_TALLY
    ensures Reconciled(s)
  {
    assert OfEvents(s.log) == NO_TALLY;
    hide OfEvents, OfCounters;
  }

  lemma LifeDetached(w: World, acquisitions: seq<Setup>, p: Policy)
    requires Undisturbed(w) && AllUnder(acquisitions, p) && p.perAcquisition == 1
    ensures Life(w, acquisitions).active.None?
  {
    hide Undisturbed, AllUnder, Life, Refusals;
    LifeClean(w, acquisitions, p);
  }

  lemma {:induction false} LifeReconciled(w: World, acquisitions: seq<Setup>, p: Policy)
    requires Undisturbed(w) && AllUnder(acquisitions, p) && p.perAcquisition == 1
    ensures Reconciled(Life(w, acquisitions))
  {
    hide Acquire, Undisturbed, Reconciled;
    if acquisitions == [] {
      NothingReconciled(NEW_CLIENT);
    } else {
      var before, e := acquisitions[..|acquisitions| - 1], acquisitions[|acquisitions| - 1];
      assert AllUnder(before, p) && e.policy == Some(p);
      hide AllUnder;
      LifeReconciled(w, before, p);
      LifeDetached(w, before, p);
      AcquireReconciled(Life(w, before), w, e);
    }
  }

  lemma Detached(s: Client)
    requires Reconciled(s) && s.active.None?
    ensures OfCounters(s.n) == OfEvents(s.log)
  {
    hide OfEvents;
  }

  /**
   * With one reconnect per acquisition, over a whole undisturbed life, the recorded events account for every counter:
   * the dials and failed dials they carry, the reconnects they call successful, the recoveries they call completed and
   * the exhausted dialling they report add up to exactly the client's totals.
   */
  lemma EventsAccountForCounters(w: World, acquisitions: seq<Setup>, p: Policy)
    requires Undisturbed(w) && AllUnder(acquisitions, p) && p.perAcquisition == 1
    ensures var s := Life(w, acquisitions); OfCounters(s.n) == OfEvents(s.log)
  {
    hide Life, Undisturbed, AllUnder, Reconciled, OfEvents;
    LifeReconciled(w, acquisitions, p);
    LifeDetached(w, acquisitions, p);
    Detached(Life(w, acquisitions));
  }
}
