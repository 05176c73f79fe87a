/** Bounds on what an acquisition may cost, and the rolling reconnect budget over a whole life. */
module RecoveryBudget {
  import opened AcquisitionHealth
  import opened BlockPlanner
  import opened Recovery
  import opened RecoveryLedger

  // ---------- reads, dials and recoveries in one acquisition ----------

  /** `own`: one successful reconnect has not been completed yet. */
  ghost predicate CountersOk(s: Client, own: bool) {
    && s.n.completed + One(own) <= s.n.successful
    && s.n.successful + s.n.failed <= s.n.attempts == |s.starts|
  }

  /** What follows a failed read: at most one recovery, attempted or refused, while the allowance lasts. */
  ghost predicate FailureCost(s: Client, t: Client, r: Recovered, allowed: nat, dials: nat) {
    && t.n.requests == s.n.requests
    && t.n.dials <= s.n.dials + allowed * dials
    && |t.starts| + Refusals(t.log) <= |s.starts| + Refusals(s.log) + allowed
    && CountersOk(t, r.Reconnected?)
  }

  lemma RecoverCost(s: Client, t: Client, r: Recovered, w: World, p: Policy, own: bool)
    requires RecoverEffect(s, t, r, w, p) && CountersOk(s, own)
    ensures FailureCost(s, t, r, 1, p.dialsPerReconnect)
  {
    hide Prune;
    RecoverBooked(s, t, r, w, p, own);
    hide Refusals;
  }

  lemma EndCost(u: Client, w: World, own: bool, outcome: Ending, t: Client, e: Error, dials: nat)
    requires (own ==> u.active.Some?) && !outcome.RollingBudgetExhausted? && CountersOk(u, own)
    requires SameLedger(EndOwn(u, w, own, outcome), t)
    requires t.n == EndOwn(u, w, own, outcome).n.(exhausted := t.n.exhausted, abandoned := t.n.abandoned)
    ensures FailureCost(u, t, Raised(e), 0, dials)
  {
    TerminateLedger(u, w, own, outcome);
    hide Refusals;
  }

  lemma CostFrom(s: Client, u: Client, t: Client, r: Recovered, allowed: nat, dials: nat)
    requires SameLedger(s, u) && u.n.dials == s.n.dials && u.n.requests == s.n.requests
    requires FailureCost(u, t, r, allowed, dials)
    ensures FailureCost(s, t, r, allowed, dials)
  {
  }

  lemma OnFailureCost(s: Client, w: World, p: Policy, c: Cursor, kind: FailureKind, block: InputReadBlock, at: int)
    requires (c.own ==> s.active.Some?) && CountersOk(s, c.own)
    ensures var r := OnFailure(s, w, p, c, kind, block, at);
            FailureCost(s, r.0, r.1, One(c.reconnects < p.perAcquisition), p.dialsPerReconnect)
  {
    var counted := s.(n := CountFailure(s.n, kind));
    var degraded := counted.(health := Degraded);
    var r := OnFailure(s, w, p, c, kind, block, at);
    var dials := p.dialsPerReconnect;
    hide Recover, RecoverEffect, FailureCost;
    assert CountersOk(counted, c.own) && CountersOk(degraded, c.own);
    hide CountersOk;
    assert SameLedger(s, counted) && SameLedger(s, degraded);
    if c.own && w.at(s.tick).shutdown && kind.SessionClosed? {
      EndCost(degraded, w, true, ReacquisitionShutdown, r.0, SessionClosedError, dials);
      CostFrom(s, degraded, r.0, r.1, 0, dials);
      assert c.reconnects < p.perAcquisition ==> FailureCost(s, r.0, r.1, 1, dials) by {
        CostMore(s, r.0, r.1, dials);
      }
    } else if c.reconnects >= p.perAcquisition {
      EndCost(counted, w, c.own, ReacquisitionFailed, r.0, RecoveryExhaustedError, dials);
      CostFrom(s, counted, r.0, r.1, 0, dials);
    } else {
      RecoverKeeps(counted, w, p, kind, block, at);
      RecoverCost(counted, r.0, r.1, w, p, c.own);
      CostFrom(s, counted, r.0, r.1, 1, dials);
    }
  }

  lemma CostMore(s: Client, t: Client, r: Recovered, dials: nat)
    requires FailureCost(s, t, r, 0, dials)
    ensures FailureCost(s, t, r, 1, dials)
  {
  }

  function DialsPer(e: Setup): nat {
    if e.policy.Some? then e.policy.value.dialsPerReconnect else 0
  }

  /** Reads still allowed: the rest of this pass, and one whole pass for each reconnect still allowed. */
  function ReadsLeft(e: Setup, c: Cursor): int {
    |e.blocks| - c.i + Allowance(e, c) * |e.blocks|
  }

  function DialsLeft(e: Setup, c: Cursor): int {
    Allowance(e, c) * DialsPer(e)
  }

  ghost predicate WithinCost(s: Client, end: Client, asks: int, dials: int, recoveries: int) {
    && end.n.requests <= s.n.requests + asks
    && end.n.dials <= s.n.dials + dials
    && |end.starts| + Refusals(end.log) <= |s.starts| + Refusals(s.log) + recoveries
    && CountersOk(end, false)
  }

  lemma OneAllowanceLess(a: int, k: int)
    ensures (a - 1) * k == a * k - k
  {
  }

  lemma CompletedCost(s: Client, w: World, e: Setup, c: Cursor)
    requires (c.own ==> s.active.Some?) && CountersOk(s, c.own)
    ensures WithinCost(s, Completed(s, w, e, c).end, 0, 0, 0)
  {
    hide ProfileFresh;
    if c.own {
      OneMoreEvent(s.log, Completed(s, w, e, c).end.log);
    }
    hide Refusals;
  }

  lemma RaisedCost(u: Client, w: World, own: bool, outcome: Ending)
    requires (own ==> u.active.Some?) && !outcome.RollingBudgetExhausted? && CountersOk(u, own)
    ensures WithinCost(u, EndOwn(u, w, own, outcome), 0, 0, 0)
  {
    TerminateLedger(u, w, own, outcome);
    hide Refusals;
  }

  /** `u` is `s` some reads later. */
  predicate Moved(s: Client, u: Client, asked: nat) {
    SameLedger(s, u) && u.n.dials == s.n.dials && u.n.requests == s.n.requests + asked
  }

  lemma CostOn(s: Client, u: Client, end: Client, asked: nat, asks: int, dials: int, recoveries: int)
    requires Moved(s, u, asked)
    requires WithinCost(u, end, asks, dials, recoveries)
    ensures WithinCost(s, end, asked + asks, dials, recoveries)
  {
  }

  lemma CostWeaker(s: Client, end: Client, asks: int, dials: int, recoveries: int, more: int, moreDials: int,
      moreRecoveries: int)
    requires WithinCost(s, end, asks, dials, recoveries)
    requires asks <= more && dials <= moreDials && recoveries <= moreRecoveries
    ensures WithinCost(s, end, more, moreDials, moreRecoveries)
  {
  }

  /** Looking at a block and asking for it leave the counters in order. */
  lemma StepsCounted(s: Client, own: bool)
    requires CountersOk(s, own)
    ensures CountersOk(Ticked(s, 1), own) && CountersOk(Asked(s), own)
         && CountersOk(Asked(s).(health := Degraded), own)
    ensures Moved(s, Ticked(s, 1), 0) && Moved(s, Asked(s), 1) && Moved(s, Asked(s).(health := Degraded), 1)
    ensures Ticked(s, 1).active == Asked(s).active == s.active
  {
  }

  /** A block that needs no reconnect takes one read at most off what is left. */
  lemma WhatIsLeft(e: Setup, c: Cursor)
    requires c.i <= |e.blocks|
    ensures ReadsLeft(e, c) >= |e.blocks| - c.i && DialsLeft(e, c) >= 0 && Allowance(e, c) >= 0
    ensures c.i < |e.blocks| ==>
              var next := c.(i := c.i + 1);
              && DialsLeft(e, next) == DialsLeft(e, c) && ReadsLeft(e, next) == ReadsLeft(e, c) - 1
              && Allowance(e, next) == Allowance(e, c)
  {
  }

  lemma {:induction false} SelectCost(s: Client, w: World, e: Setup, c: Cursor)
    requires (c.own ==> s.active.Some?) && (e.policy.None? ==> !c.own)
    requires c.i <= |e.blocks| && CountersOk(s, c.own)
    ensures WithinCost(s, Select(s, w, e, c).end, ReadsLeft(e, c), DialsLeft(e, c), Allowance(e, c))
    decreases Allowance(e, c), |e.blocks| - c.i, 1
  {
    hide CountersOk, WithinCost, ReadsLeft, DialsLeft, Allowance, FailureCost, EndOwn, OnFailure, FreshAt, Completed,
         Moved, Ticked, Asked;
    var asks, dials, recoveries := ReadsLeft(e, c), DialsLeft(e, c), Allowance(e, c);
    WhatIsLeft(e, c);
    if c.i == |e.blocks| {
      CompletedCost(s, w, e, c);
      CostWeaker(s, Completed(s, w, e, c).end, 0, 0, 0, asks, dials, recoveries);
      return;
    }
    var block := e.blocks[c.i];
    var next := c.(i := c.i + 1);
    var skipped := Ticked(s, 1);
    var done := Asked(s);
    var degraded := done.(health := Degraded);
    var end := Select(s, w, e, c).end;
    StepsCounted(s, c.own);
    if FreshAt(RequiredIn(e.required, block), w.at(s.tick), e.target) {
      SelectCost(skipped, w, e, next);
      CostOn(s, skipped, end, 0, asks - 1, dials, recoveries);
      CostWeaker(s, end, asks - 1, dials, recoveries, asks, dials, recoveries);
    } else {
      match w.read(s.tick + 1, block)
      case Answered =>
        SelectCost(done, w, e, next);
        CostOn(s, done, end, 1, asks - 1, dials, recoveries);
      case ReadCancelled =>
        RaisedCost(degraded, w, c.own, ReacquisitionCancelled);
        RaisedWithin(s, degraded, end, asks, dials, recoveries);
      case ReadRejected =>
        RaisedCost(degraded, w, c.own, ReacquisitionRejected);
        RaisedWithin(s, degraded, end, asks, dials, recoveries);
      case ReadUnclassified =>
        UncountedCost(if e.policy.None? then degraded else done, c.own);
        RaisedWithin(s, end, end, asks, dials, recoveries);
      case ReadFailed(kind) =>
        if e.policy.None? {
          UncountedCost(degraded, c.own);
          RaisedWithin(s, degraded, end, asks, dials, recoveries);
        } else {
          FailedReadCost(s, w, e, c, kind);
        }
    }
  }

  lemma UncountedCost(u: Client, own: bool)
    requires CountersOk(u, own)
    ensures WithinCost(u, u, 0, 0, 0)
  {
  }

  lemma RaisedWithin(s: Client, u: Client, end: Client, asks: int, dials: int, recoveries: int)
    requires Moved(s, u, 1)
    requires WithinCost(u, end, 0, 0, 0) && asks >= 1 && dials >= 0 && recoveries >= 0
    ensures WithinCost(s, end, asks, dials, recoveries)
  {
  }

  lemma FailedReadCost(s: Client, w: World, e: Setup, c: Cursor, kind: FailureKind)
    requires (c.own ==> s.active.Some?) && e.policy.Some? && c.i < |e.blocks| && CountersOk(Asked(s), c.own)
    requires !FreshAt(RequiredIn(e.required, e.blocks[c.i]), w.at(s.tick), e.target)
    requires w.read(s.tick + 1, e.blocks[c.i]) == ReadFailed(kind)
    ensures WithinCost(s, Select(s, w, e, c).end, ReadsLeft(e, c), DialsLeft(e, c), Allowance(e, c))
    decreases Allowance(e, c), |e.blocks| - c.i, 0
  {
    var p, block, at, done := e.policy.value, e.blocks[c.i], w.at(s.tick + 1).now, Asked(s);
    var asks, dials, recoveries, per := ReadsLeft(e, c), DialsLeft(e, c), Allowance(e, c), p.dialsPerReconnect;
    var allowed := One(c.reconnects < p.perAcquisition);
    var r := OnFailure(done, w, p, c, kind, block, at);
    SelectFails(s, w, e, c, kind);
    AllowanceSteps(e, c, r.0.tick);
    hide CountersOk, FailureCost, OnFailure, Allowance, ReadsLeft, DialsLeft, WithinCost, FreshAt, Select;
    OnFailureCost(done, w, p, c, kind, block, at);
    if r.1.Raised? {
      RaisedCostWithin(s, done, r.0, r.1, allowed, per, asks, dials, recoveries);
    } else {
      var again := Again(c, r.0.tick);
      CostCounters(done, r.0, r.1, allowed, per);
      SelectCost(r.0, w, e, again);
      ReconnectedCostWithin(s, done, r.0, Select(r.0, w, e, again).end, per,
                            ReadsLeft(e, again), DialsLeft(e, again), asks, dials, recoveries);
    }
  }

  lemma ReconnectedCostWithin(s: Client, done: Client, t: Client, end: Client, per: nat,
                              asks: int, dials: int, allAsks: int, allDials: int, recoveries: nat)
    requires SameLedger(s, done) && done.n.dials == s.n.dials && done.n.requests == s.n.requests + 1
    requires FailureCost(done, t, Reconnected, 1, per) && WithinCost(t, end, asks, dials, recoveries - 1)
    requires asks <= allAsks - 1 && dials + per <= allDials
    ensures WithinCost(s, end, allAsks, allDials, recoveries)
  {
  }

  lemma CostCounters(s: Client, t: Client, r: Recovered, allowed: nat, dials: nat)
    requires FailureCost(s, t, r, allowed, dials)
    ensures CountersOk(t, r.Reconnected?)
  {
  }

  /** A reconnect uses up one of the allowance, which pays for its dials and for the pass it starts. */
  lemma AllowanceSteps(e: Setup, c: Cursor, tick: nat)
    requires e.policy.Some? && c.i < |e.blocks|
    ensures var allowed := One(c.reconnects < e.policy.value.perAcquisition);
            && allowed <= Allowance(e, c) && allowed * e.policy.value.dialsPerReconnect <= DialsLeft(e, c)
            && ReadsLeft(e, c) >= 1
    ensures var again := Again(c, tick);
            c.reconnects < e.policy.value.perAcquisition ==>
              && Allowance(e, again) == Allowance(e, c) - 1
              && ReadsLeft(e, again) <= ReadsLeft(e, c) - 1
              && DialsLeft(e, again) + e.policy.value.dialsPerReconnect <= DialsLeft(e, c)
  {
    OneAllowanceLess(Allowance(e, c), |e.blocks|);
    OneAllowanceLess(Allowance(e, c), e.policy.value.dialsPerReconnect);
    assert Allowance(e, c) * |e.blocks| >= 0;
  }

  lemma RaisedCostWithin(s: Client, done: Client, end: Client, r: Recovered, allowed: nat, per: nat,
                         asks: int, dials: int, recoveries: nat)
    requires SameLedger(s, done) && done.n.dials == s.n.dials && done.n.requests == s.n.requests + 1
    requires FailureCost(done, end, r, allowed, per) && r.Raised?
    requires asks >= 1 && allowed * per <= dials && allowed <= recoveries
    ensures WithinCost(s, end, asks, dials, recoveries)
  {
  }

  /**
   * Under any failure pattern an acquisition ends, having issued at most one pass of reads more than its
   * reconnect allowance, dialled within its allowance, and recovered at most as often as it may.
   */
  lemma AcquisitionCost(s: Client, w: World, e: Setup)
    requires CountersOk(s, false)
    ensures var end := Acquire(s, w, e).end;
            var reconnects := if e.policy.Some? then e.policy.value.perAcquisition else 0;
            && end.n.requests <= s.n.requests + (reconnects + 1) * |e.blocks|
            && end.n.dials <= s.n.dials + reconnects * DialsPer(e)
            && |end.starts| + Refusals(end.log) <= |s.starts| + Refusals(s.log) + reconnects
            && CountersOk(end, false)
  {
    hide Select, Refusals, CountersOk;
    SelectCost(s, w, e, Cursor(0, 0, false, s.tick));
  }

  /** Over a whole life: completed recoveries never outnumber successful reconnects, nor these the attempts. */
  lemma {:induction false} LifeCounters(w: World, acquisitions: seq<Setup>)
    ensures CountersOk(Life(w, acquisitions), false)
  {
    if acquisitions != [] {
      LifeCounters(w, acquisitions[..|acquisitions| - 1]);
      AcquisitionCost(Life(w, acquisitions[..|acquisitions| - 1]), w, acquisitions[|acquisitions| - 1]);
    }
  }
}
