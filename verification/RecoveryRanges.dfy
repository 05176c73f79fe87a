/** The time ranges of recorded recoveries: one client's are disjoint, so charging them never needs the cap. */
module RecoveryRanges {
  import opened AcquisitionHealth
  import opened Options
  import opened BlockPlanner
  import opened Recovery
  import Freshness
  import opened EpisodeEvidence

  ghost predicate WallClockRuns(w: World) {
    forall i: nat, j: nat :: i <= j ==> w.at(i).now <= w.at(j).now
  }

  /** Everything recorded so far had ended by `t`. */
  ghost predicate EndedBy(log: seq<RecoveryEvent>, t: int) {
    forall i :: 0 <= i < |log| ==> log[i].endedAt <= t
  }

  /** Each recorded episode starts only when those recorded before it have ended, and ends no earlier than it starts. */
  ghost predicate Successive(log: seq<RecoveryEvent>) {
    && (forall i, j :: 0 <= i < j < |log| ==> log[i].endedAt <= log[j].recovery.episodeStartedAt)
    && (forall i :: 0 <= i < |log| ==> log[i].recovery.episodeStartedAt <= log[i].endedAt)
  }

  ghost predicate Orderly(s: Client, w: World) {
    Successive(s.log) && EndedBy(s.log, w.at(s.tick).now)
  }

  /** The attached recovery's episode started after everything recorded, and not in the future. */
  ghost predicate Owning(s: Client, w: World) {
    && Orderly(s, w) && s.active.Some?
    && EndedBy(s.log, s.active.value.episodeStartedAt) && s.active.value.episodeStartedAt <= w.at(s.tick).now
  }

  ghost predicate Going(r: (Client, Recovered), w: World) {
    Orderly(r.0, w) && (r.1.Reconnected? ==> Owning(r.0, w))
  }

  lemma SuccessiveSnoc(log: seq<RecoveryEvent>, ev: RecoveryEvent)
    requires Successive(log) && EndedBy(log, ev.recovery.episodeStartedAt) && ev.recovery.episodeStartedAt <= ev.endedAt
    ensures Successive(log + [ev]) && EndedBy(log + [ev], ev.endedAt)
  {
  }

  lemma OrderlyOn(s: Client, u: Client, w: World)
    requires WallClockRuns(w) && Orderly(s, w) && u.log == s.log && u.tick >= s.tick
    ensures Orderly(u, w)
    ensures Owning(s, w) && u.active.Some? && u.active.value.episodeStartedAt == s.active.value.episodeStartedAt ==>
              Owning(u, w)
  {
    assert w.at(s.tick).now <= w.at(u.tick).now;
  }

  /** Recording the attached recovery at consultation `u`, however it ended. */
  lemma RecordedOrderly(s: Client, t: Client, w: World, u: nat, ok: bool, outcome: Ending)
    requires WallClockRuns(w) && Owning(s, w) && s.tick <= u <= t.tick
    requires t.log == s.log + [RecoveryEvent(s.active.value, w.at(u).now, ok, outcome)]
    ensures Orderly(t, w)
  {
    assert w.at(s.tick).now <= w.at(u).now <= w.at(t.tick).now;
    SuccessiveSnoc(s.log, RecoveryEvent(s.active.value, w.at(u).now, ok, outcome));
  }

  lemma GaveUp(s: Client, w: World, outcome: Ending, e: Error)
    requires WallClockRuns(w) && Owning(s, w)
    ensures Going((GiveUp(s, w, outcome), Raised(e)), w)
  {
    var t := GiveUp(s, w, outcome);
    assert t.log == s.log + [RecoveryEvent(s.active.value, w.at(s.tick).now, false, outcome)];
    hide Owning, Orderly, WallClockRuns;
    RecordedOrderly(s, t, w, s.tick, false, outcome);
  }

  lemma AfterDialGoing(s: Client, w: World)
    requires WallClockRuns(w) && Owning(s, w)
    ensures Going(AfterDial(s, w), w)
  {
    var t := Ticked(s, 1);
    var e := Established(t, w.at(s.tick));
    OrderlyOn(s, t, w);
    OrderlyOn(s, e, w);
    hide Orderly, Owning, WallClockRuns, GiveUp;
    if w.at(s.tick).shutdown && w.closing(s.tick).Closed? {
      GaveUp(t, w, ShutdownEnding, SessionClosedError);
    }
  }

  lemma DialStepGoing(s: Client, w: World)
    requires WallClockRuns(w) && Owning(s, w)
    ensures var d := DialStarted(s); var f := DialRefused(d);
            && Owning(d, w) && Owning(d.(health := Degraded), w) && Owning(f, w)
            && Owning(Ticked(f, 2), w) && Owning(Ticked(f, 2).(health := Degraded), w)
            && Owning(f.(health := Degraded, n := f.n.(failed := f.n.failed + 1, abandoned := f.n.abandoned + 1)), w)
  {
    var d := DialStarted(s);
    var f := DialRefused(d);
    OrderlyOn(s, d, w);
    OrderlyOn(s, d.(health := Degraded), w);
    OrderlyOn(s, f, w);
    OrderlyOn(s, Ticked(f, 2), w);
    OrderlyOn(s, Ticked(f, 2).(health := Degraded), w);
    OrderlyOn(s, f.(health := Degraded, n := f.n.(failed := f.n.failed + 1, abandoned := f.n.abandoned + 1)), w);
    hide Orderly, WallClockRuns;
  }

  lemma {:induction false} DialGoing(s: Client, w: World, p: Policy, attempt: nat)
    requires WallClockRuns(w) && Owning(s, w)
    ensures Going(Dial(s, w, p, attempt), w)
    decreases p.dialsPerReconnect - attempt
  {
    if attempt >= p.dialsPerReconnect {
      AfterDialGoing(s, w);
      return;
    }
    DialStepGoing(s, w);
    var d := DialStarted(s);
    var f := DialRefused(d);
    hide Orderly, WallClockRuns, Going, GiveUp, AfterDial, DialStarted, DialRefused;
    if w.dial(s.tick).Connected? {
      AfterDialGoing(d, w);
    } else if w.dial(s.tick).DialCancelled? {
      GaveUp(d.(health := Degraded), w, CancelledEnding, CancelledError);
    } else if attempt + 1 >= p.dialsPerReconnect {
      GaveUp(f.(health := Degraded, n := f.n.(failed := f.n.failed + 1, abandoned := f.n.abandoned + 1)), w,
             ConnectionAttemptsExhausted, ConnectionError);
    } else {
      hide Owning;
      match PauseAt(w, f.tick, p.repeatedCooldown)
      case Interrupt => GaveUp(Ticked(f, 2).(health := Degraded), w, CancelledEnding, CancelledError);
      case Stop => GaveUp(Ticked(f, 2), w, ShutdownEnding, SessionClosedError);
      case Continue => DialGoing(Ticked(f, 2), w, p, attempt + 1);
    }
  }

  lemma BegunGoing(s: Client, w: World, p: Policy, kept: seq<int>, a: ActiveRecovery, cooldown: int)
    requires WallClockRuns(w) && Orderly(s, w)
    requires EndedBy(s.log, a.episodeStartedAt) && a.episodeStartedAt <= w.at(s.tick).now
    ensures Going(AfterBegun(Begun(s, w.at(s.tick), kept, a), w, p, cooldown), w)
  {
    var b := Begun(s, w.at(s.tick), kept, a);
    assert Owning(s.(active := Some(a)), w);
    OrderlyOn(s.(active := Some(a)), b, w);
    OrderlyOn(b, Ticked(b, 2), w);
    OrderlyOn(b, Ticked(b, 2).(health := Degraded), w);
    hide Orderly, WallClockRuns, Going, GiveUp, Begun, EndedBy;
    match PauseAt(w, b.tick, cooldown)
    case Interrupt => GaveUp(Ticked(b, 2).(health := Degraded), w, CancelledEnding, CancelledError);
    case Stop => GaveUp(Ticked(b, 2), w, ShutdownEnding, SessionClosedError);
    case Continue => DialGoing(Ticked(b, 2), w, p, 0);
  }

  lemma RefusedGoing(s: Client, w: World, kept: seq<int>, a: ActiveRecovery)
    requires WallClockRuns(w) && Orderly(s, w)
    requires EndedBy(s.log, a.episodeStartedAt) && a.episodeStartedAt <= w.at(s.tick).now
    ensures Orderly(Refused(s, w, kept, a), w)
  {
    var t := Refused(s, w, kept, a);
    assert Owning(s.(active := Some(a)), w);
    assert t.log == s.log + [RecoveryEvent(a, w.at(s.tick + 1).now, false, RollingBudgetExhausted)];
    RecordedOrderly(s.(active := Some(a)), t, w, s.tick + 1, false, RollingBudgetExhausted);
  }

  lemma RecoverGoing(s: Client, w: World, p: Policy, kind: FailureKind, block: InputReadBlock, at: int)
    requires WallClockRuns(w) && Orderly(s, w) && EndedBy(s.log, at) && at <= w.at(s.tick).now
    ensures Going(Recover(s, w, p, kind, block, at), w)
  {
    hide Orderly, WallClockRuns, Owning, Begun, AfterBegun, Refused, Prune, EndedBy;
    var m := w.at(s.tick);
    var kept := Prune(s.times, m.monotonic - p.window);
    var cooldown := if kept == [] then p.initialCooldown else p.repeatedCooldown;
    if |kept| >= p.perWindow {
      RefusedGoing(s, w, kept, Beginning(m, kind, block, at, 0));
    } else {
      BegunGoing(s, w, p, kept, Beginning(m, kind, block, at, cooldown), cooldown);
    }
  }

  // ---------- over acquisitions ----------

  lemma EndOwnOrderly(s: Client, w: World, own: bool, outcome: Ending)
    requires WallClockRuns(w) && Orderly(s, w) && (own ==> Owning(s, w))
    ensures Orderly(EndOwn(s, w, own, outcome), w)
  {
    if own {
      var t := EndOwn(s, w, own, outcome);
      var ok := s.active.value.connectedAfter.Some?;
      assert t.log == s.log + [RecoveryEvent(s.active.value, w.at(s.tick).now, ok, outcome)];
      RecordedOrderly(s, t, w, s.tick, ok, outcome);
    }
  }

  lemma OnFailureGoing(s: Client, w: World, p: Policy, c: Cursor, kind: FailureKind, block: InputReadBlock, at: int)
    requires WallClockRuns(w) && Orderly(s, w) && (c.own ==> Owning(s, w))
    requires EndedBy(s.log, at) && at <= w.at(s.tick).now
    ensures Going(OnFailure(s, w, p, c, kind, block, at), w)
  {
    var counted := s.(n := CountFailure(s.n, kind));
    var degraded := counted.(health := Degraded);
    OrderlyOn(s, counted, w);
    OrderlyOn(s, degraded, w);
    hide CountFailure, Recover, Orderly, Owning, EndedBy, WallClockRuns;
    var r := OnFailure(s, w, p, c, kind, block, at);
    if c.own && w.at(s.tick).shutdown && kind.SessionClosed? {
      EndOwnOrderly(degraded, w, true, ReacquisitionShutdown);
    } else if c.reconnects >= p.perAcquisition {
      var ended := EndOwn(counted, w, c.own, ReacquisitionFailed);
      EndOwnOrderly(counted, w, c.own, ReacquisitionFailed);
      OrderlyOn(ended, r.0, w);
    } else {
      RecoverGoing(counted, w, p, kind, block, at);
    }
  }

  lemma CompletedOrderly(s: Client, w: World, e: Setup, c: Cursor)
    requires WallClockRuns(w) && Orderly(s, w) && (c.own ==> Owning(s, w))
    ensures Orderly(Completed(s, w, e, c).end, w)
  {
    hide ProfileFresh;
    var t := Completed(s, w, e, c).end;
    if c.own {
      var outcome := if ProfileFresh(e, w.at(s.tick)) then ProfileRecovered else ProfileRemainedStale;
      assert t.log == s.log + [RecoveryEvent(s.active.value, w.at(s.tick + 1).now, true, outcome)];
      RecordedOrderly(s, t, w, s.tick + 1, true, outcome);
    } else {
      OrderlyOn(s, t, w);
    }
  }

  lemma AskedOn(s: Client, w: World)
    requires WallClockRuns(w) && Orderly(s, w)
    ensures Orderly(Asked(s), w) && Orderly(Asked(s).(health := Degraded), w) && Orderly(Ticked(s, 1), w)
    ensures Owning(s, w) ==> Owning(Asked(s), w) && Owning(Asked(s).(health := Degraded), w) && Owning(Ticked(s, 1), w)
    ensures EndedBy(Asked(s).log, w.at(s.tick + 1).now) && w.at(s.tick + 1).now <= w.at(Asked(s).tick).now
  {
    OrderlyOn(s, Asked(s), w);
    OrderlyOn(s, Asked(s).(health := Degraded), w);
    OrderlyOn(s, Ticked(s, 1), w);
    assert w.at(s.tick).now <= w.at(s.tick + 1).now;
  }

  lemma {:induction false} SelectOrderly(s: Client, w: World, e: Setup, c: Cursor)
    requires WallClockRuns(w) && Orderly(s, w) && (c.own ==> Owning(s, w))
    ensures Orderly(Select(s, w, e, c).end, w)
    decreases Allowance(e, c), |e.blocks| - c.i
  {
    hide WallClockRuns, Orderly, EndedBy, OnFailure, FreshAt, Completed, EndOwn, RequiredIn;
    if c.i >= |e.blocks| {
      CompletedOrderly(s, w, e, c);
      return;
    }
    var block := e.blocks[c.i];
    var next := c.(i := c.i + 1);
    AskedOn(s, w);
    if FreshAt(RequiredIn(e.required, block), w.at(s.tick), e.target) {
      SelectOrderly(Ticked(s, 1), w, e, next);
    } else {
      match w.read(s.tick + 1, block)
      case Answered => SelectOrderly(Asked(s), w, e, next);
      case ReadCancelled => EndOwnOrderly(Asked(s).(health := Degraded), w, c.own, ReacquisitionCancelled);
      case ReadRejected => EndOwnOrderly(Asked(s).(health := Degraded), w, c.own, ReacquisitionRejected);
      case ReadUnclassified =>
      case ReadFailed(kind) =>
        if e.policy.Some? {
          FailedReadOrderly(s, w, e, c, kind);
        }
    }
  }

  lemma FailedReadOrderly(s: Client, w: World, e: Setup, c: Cursor, kind: FailureKind)
    requires WallClockRuns(w) && Orderly(s, w) && (c.own ==> Owning(s, w)) && e.policy.Some? && c.i < |e.blocks|
    requires !FreshAt(RequiredIn(e.required, e.blocks[c.i]), w.at(s.tick), e.target)
    requires w.read(s.tick + 1, e.blocks[c.i]) == ReadFailed(kind)
    ensures Orderly(Select(s, w, e, c).end, w)
    decreases Allowance(e, c), |e.blocks| - c.i, 0
  {
    SelectFails(s, w, e, c, kind);
    hide WallClockRuns, Orderly, EndedBy, OnFailure, FreshAt, Select, RequiredIn;
    var block, at := e.blocks[c.i], w.at(s.tick + 1).now;
    AskedOn(s, w);
    hide Owning;
    OnFailureGoing(Asked(s), w, e.policy.value, c, kind, block, at);
    var r := OnFailure(Asked(s), w, e.policy.value, c, kind, block, at);
    if r.1.Reconnected? {
      SelectOrderly(r.0, w, e, Again(c, r.0.tick));
    }
  }

  lemma {:induction false} LifeOrderly(w: World, acquisitions: seq<Setup>)
    requires WallClockRuns(w)
    ensures Orderly(Life(w, acquisitions), w)
  {
    if acquisitions != [] {
      var before := acquisitions[..|acquisitions| - 1];
      LifeOrderly(w, before);
      hide Select, WallClockRuns, Orderly;
      var s := Life(w, before);
      SelectOrderly(s, w, acquisitions[|acquisitions| - 1], Cursor(0, 0, false, s.tick));
    }
  }

  // ---------- what it means for the charged time ----------

  function RangesOf(log: seq<RecoveryEvent>): seq<Range> {
    seq(|log|, i requires 0 <= i < |log| => Range(log[i].recovery.episodeStartedAt, log[i].endedAt))
  }

  /** An event's range: from the request whose failure began it to when it was recorded. */
  lemma RangeExactly(log: seq<RecoveryEvent>, i: nat)
    requires i < |log|
    ensures |RangesOf(log)| == |log|
    ensures RangesOf(log)[i].start == log[i].recovery.episodeStartedAt && RangesOf(log)[i].end == log[i].endedAt
  {
  }

  /** The recovery ranges one client records over its whole life, under any policy, are pairwise disjoint. */
  lemma RecordedRangesDisjoint(w: World, acquisitions: seq<Setup>, from: nat)
    requires WallClockRuns(w) && from <= |Life(w, acquisitions).log|
    ensures PairwiseDisjoint(RangesOf(Life(w, acquisitions).log[from..]))
  {
    LifeOrderly(w, acquisitions);
  }

  /**
   * So for the events a phase reads back, which are the newest recorded ones, the charged recovery time never exceeds
   * the stale seconds and the cap changes nothing.
   */
  lemma RecordedRecoveriesNeedNoCap(w: World, acquisitions: seq<Setup>, from: nat,
                                    samples: seq<Freshness.Sample>, target: int, capacity: nat)
    requires WallClockRuns(w) && from <= |Life(w, acquisitions).log| && Freshness.Regular(samples)
    ensures var t := Freshness.Stream(samples, target, capacity);
            ChargedTo(Freshness.Finish(t, target, capacity).episodes, RangesOf(Life(w, acquisitions).log[from..]))
            <= t.stale
  {
    hide WallClockRuns, Life, Freshness.Regular, Freshness.Stream, Freshness.Finish, ChargedTo, PairwiseDisjoint;
    RecordedRangesDisjoint(w, acquisitions, from);
    CapNeverBites(samples, target, capacity, RangesOf(Life(w, acquisitions).log[from..]));
  }
}
