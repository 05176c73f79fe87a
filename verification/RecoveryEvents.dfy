/** What every recorded recovery event says about its dials, over a whole life under one policy. */
module RecoveryEvents {
  import opened Options
  import opened AcquisitionHealth
  import opened BlockPlanner
  import opened Recovery
  import opened LedgerExactness
  import opened DialOutcomes
  import SelectionExact

  /**
   * A recovery counts as reconnected exactly when its time to connection is known; then one dial, the last, did not
   * fail. One that ran out of attempts has made all of them, and all have failed. A refused one has made none.
   */
  ghost predicate EventSound(ev: RecoveryEvent, p: Policy) {
    var a := ev.recovery;
    && (ev.reconnectSucceeded <==> a.connectedAfter.Some?)
    && a.failedDials <= a.dials <= p.dialsPerReconnect
    && (ev.reconnectSucceeded ==> a.dials == a.failedDials + 1)
    && (ev.outcome == ConnectionAttemptsExhausted ==> a.dials == a.failedDials == p.dialsPerReconnect)
    && (ev.outcome == RollingBudgetExhausted ==> a.dials == 0)
    && (ev.outcome == ProfileRecovered || ev.outcome == ProfileRemainedStale ==> ev.reconnectSucceeded)
  }

  ghost predicate LogSound(log: seq<RecoveryEvent>, p: Policy) {
    forall i :: 0 <= i < |log| ==> EventSound(log[i], p)
  }

  /** A recovery owned by the acquisition has connected with its last dial. */
  predicate OwnedSound(s: Client, p: Policy) {
    && s.active.Some? && s.active.value.connectedAfter.Some?
    && s.active.value.dials == s.active.value.failedDials + 1 <= p.dialsPerReconnect
  }

  lemma OneMoreSound(before: seq<RecoveryEvent>, after: seq<RecoveryEvent>, p: Policy)
    requires LogSound(before, p) && |after| == |before| + 1 && after[..|before|] == before
    requires EventSound(after[|before|], p)
    ensures LogSound(after, p)
  {
    hide EventSound;
    forall i | 0 <= i < |after| ensures EventSound(after[i], p) {
      if i < |before| {
        assert after[i] == before[i];
      }
    }
  }

  lemma DialSound(b: Client, t: Client, r: Recovered, w: World, p: Policy, from: nat, k: nat, failed: nat, at: int)
    requires b.active.Some? && b.active.value.dials == b.active.value.failedDials == 0
    requires b.active.value.connectedAfter.None? && LogSound(b.log, p) && k < p.dialsPerReconnect
    requires EndOf(w, from, p.repeatedCooldown, k + 1 == p.dialsPerReconnect, k) == Some(r)
    requires failed == k + (if w.dial(DialTick(from, k)) == DialFailed then 1 else 0)
    requires EndedBy(b, t, r, k + 1, failed, at)
    ensures LogSound(t.log, p) && (r.Reconnected? ==> OwnedSound(t, p))
  {
    if r.Raised? && !r.error.CloseInterrupted? {
      assert EventSound(t.log[|b.log|], p);
      OneMoreSound(b.log, t.log, p);
    }
    hide PauseOver, PauseStopped, LogSound;
  }

  lemma DecidedSound(b: Client, t: Client, r: Recovered, w: World, p: Policy, tick: nat, k: nat)
    requires b.active.Some? && b.active.value.dials == b.active.value.failedDials == 0
    requires b.active.value.connectedAfter.None? && LogSound(b.log, p)
    requires DecidedBy(b, t, r, w, p, tick, k)
    ensures LogSound(t.log, p) && (r.Reconnected? ==> OwnedSound(t, p))
  {
    hide PauseOver, PauseStopped, LogSound, EndOf, EndedBy, GoesOn, OwnedSound;
    var a := b.active.value;
    if PauseStopped(w, tick, a.cooldown) || !PauseOver(w, tick, a.cooldown) {
      OneMoreSound(b.log, t.log, p);
    } else {
      var dial := DialTick(tick + 2, k);
      DialSound(b, t, r, w, p, tick + 2, k, k + (if w.dial(dial) == DialFailed then 1 else 0),
                w.at(dial + 1).monotonic);
    }
  }

  lemma RecoverSound(s: Client, w: World, p: Policy, kind: FailureKind, block: InputReadBlock, at: int)
    requires p.Valid() && LogSound(s.log, p)
    ensures var r := Recover(s, w, p, kind, block, at);
            LogSound(r.0.log, p) && (r.1.Reconnected? ==> OwnedSound(r.0, p))
  {
    hide Recover, DecidedBy, LogSound, OwnedSound;
    var k := ReconnectExactly(s, w, p, kind, block, at);
    var r, m := Recover(s, w, p, kind, block, at), w.at(s.tick);
    if r.1 == Raised(RecoveryExhaustedError) {
      assert EventSound(r.0.log[|s.log|], p);
      OneMoreSound(s.log, r.0.log, p);
    } else {
      var cooldown := if |r.0.times| == 1 then p.initialCooldown else p.repeatedCooldown;
      var a := ActiveRecovery(kind, block, m.monotonic, at, m.now, cooldown, None, 0, 0);
      DecidedSound(WithRecovery(s, a, r.0.times), r.0, r.1, w, p, s.tick + 1, k);
    }
  }

  lemma EndOwnSound(s: Client, w: World, p: Policy, own: bool, outcome: Ending)
    requires LogSound(s.log, p) && (own ==> OwnedSound(s, p))
    requires outcome != ConnectionAttemptsExhausted && outcome != RollingBudgetExhausted
    ensures LogSound(EndOwn(s, w, own, outcome).log, p)
  {
    if own {
      OneMoreSound(s.log, EndOwn(s, w, own, outcome).log, p);
    }
    hide LogSound;
  }

  lemma OnFailureSound(s: Client, w: World, p: Policy, c: Cursor, kind: FailureKind, block: InputReadBlock, at: int)
    requires p.Valid() && LogSound(s.log, p) && (c.own ==> OwnedSound(s, p))
    ensures var r := OnFailure(s, w, p, c, kind, block, at);
            LogSound(r.0.log, p) && (r.1.Reconnected? ==> OwnedSound(r.0, p))
  {
    var counted := s.(n := CountFailure(s.n, kind));
    RecoverSound(counted, w, p, kind, block, at);
    EndOwnSound(counted, w, p, c.own, ReacquisitionFailed);
    EndOwnSound(counted.(health := Degraded), w, p, c.own, ReacquisitionShutdown);
    hide Recover, LogSound, OwnedSound, EndOwn;
    if c.own && w.at(s.tick).shutdown && kind.SessionClosed? {
      OwnEnds(counted.(health := Degraded), w, ReacquisitionShutdown);
    }
  }

  lemma OwnEnds(s: Client, w: World, outcome: Ending)
    requires s.active.Some?
    ensures EndOwn(s, w, true, outcome) == Terminate(s, w, outcome)
  {
  }

  lemma CompletedSound(s: Client, w: World, p: Policy, e: Setup, c: Cursor)
    requires LogSound(s.log, p) && (c.own ==> OwnedSound(s, p))
    ensures LogSound(Completed(s, w, e, c).end.log, p)
  {
    hide ProfileFresh;
    if c.own {
      OneMoreSound(s.log, Completed(s, w, e, c).end.log, p);
    }
    hide LogSound;
  }

  /** Looking at a block and asking for it change neither events nor recovery. */
  lemma StepsSound(s: Client, p: Policy, own: bool)
    requires LogSound(s.log, p) && (own ==> OwnedSound(s, p))
    ensures own ==> s.active.Some? && OwnedSound(Ticked(s, 1), p) && OwnedSound(Asked(s), p)
                    && OwnedSound(Asked(s).(health := Degraded), p)
    ensures own ==> Ticked(s, 1).active.Some? && Asked(s).active.Some?
    ensures Ticked(s, 1).log == Asked(s).log == s.log
  {
    hide LogSound;
  }

  lemma {:induction false} SelectSound(s: Client, w: World, p: Policy, e: Setup, c: Cursor)
    requires p.Valid() && e.policy == Some(p) && LogSound(s.log, p) && (c.own ==> OwnedSound(s, p))
    ensures LogSound(Select(s, w, e, c).end.log, p)
    decreases Allowance(e, c), |e.blocks| - c.i, 1
  {
    StepsSound(s, p, c.own);
    hide OnFailure, FreshAt, Completed, LogSound, EndOwn, OwnedSound, RequiredIn, Asked, Ticked, Select;
    if c.i >= |e.blocks| {
      CompletedSound(s, w, p, e, c);
      SelectCompletes(s, w, e, c);
      return;
    }
    var block, next := e.blocks[c.i], c.(i := c.i + 1);
    var done, reply := Asked(s), w.read(s.tick + 1, block);
    SelectPasses(s, w, e, c);
    if FreshAt(RequiredIn(e.required, block), w.at(s.tick), e.target) {
      SelectSound(Ticked(s, 1), w, p, e, next);
    } else if reply.Answered? {
      SelectSound(done, w, p, e, next);
    } else if reply.ReadFailed? {
      FailedReadSound(s, w, p, e, c, reply.kind);
    } else {
      EndingSound(s, w, p, e, c);
    }
  }

  lemma EndingSound(s: Client, w: World, p: Policy, e: Setup, c: Cursor)
    requires e.policy == Some(p) && LogSound(s.log, p) && (c.own ==> OwnedSound(s, p)) && c.i < |e.blocks|
    requires !FreshAt(RequiredIn(e.required, e.blocks[c.i]), w.at(s.tick), e.target)
    requires var reply := w.read(s.tick + 1, e.blocks[c.i]); !reply.Answered? && !reply.ReadFailed?
    ensures LogSound(Select(s, w, e, c).end.log, p)
  {
    hide Select, FreshAt, LogSound, SelectionExact.Due;
    var end := Select(s, w, e, c).end;
    SelectionExact.DueExactly(e, e.blocks[c.i], w.at(s.tick));
    SelectionExact.UnansweredRead(s, w, e, c);
    if |end.log| > |s.log| {
      OneMoreSound(s.log, end.log, p);
    }
  }

  lemma FailedReadSound(s: Client, w: World, p: Policy, e: Setup, c: Cursor, kind: FailureKind)
    requires p.Valid() && e.policy == Some(p) && LogSound(s.log, p) && (c.own ==> OwnedSound(s, p)) && c.i < |e.blocks|
    requires !FreshAt(RequiredIn(e.required, e.blocks[c.i]), w.at(s.tick), e.target)
    requires w.read(s.tick + 1, e.blocks[c.i]) == ReadFailed(kind)
    ensures LogSound(Select(s, w, e, c).end.log, p)
    decreases Allowance(e, c), |e.blocks| - c.i, 0
  {
    StepsSound(s, p, c.own);
    SelectFails(s, w, e, c, kind);
    hide OnFailure, FreshAt, Completed, LogSound, EndOwn, RequiredIn, Asked, Ticked, Select;
    var done, block, at := Asked(s), e.blocks[c.i], w.at(s.tick + 1).now;
    OnFailureSound(done, w, p, c, kind, block, at);
    var r := OnFailure(done, w, p, c, kind, block, at);
    if r.1.Reconnected? {
      SelectSound(r.0, w, p, e, Again(c, r.0.tick));
    }
  }

  /** So it is for every event of every life under one policy, whatever the environment does. */
  lemma {:induction false} EveryEventSound(w: World, acquisitions: seq<Setup>, p: Policy)
    requires p.Valid() && AllUnder(acquisitions, p)
    ensures LogSound(Life(w, acquisitions).log, p)
  {
    hide Select, LogSound;
    if acquisitions == [] {
      NothingSound(p);
    } else {
      var before := acquisitions[..|acquisitions| - 1];
      EveryEventSound(w, before, p);
      var b := Life(w, before);
      SelectSound(b, w, p, acquisitions[|acquisitions| - 1], Cursor(0, 0, false, b.tick));
    }
  }

  lemma NothingSound(p: Policy)
    ensures LogSound(NEW_CLIENT.log, p)
  {
  }
}
