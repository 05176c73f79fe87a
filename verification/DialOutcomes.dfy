/** How a reconnect ends: which of its dials decides it, what it raises, and what is recorded. */
module DialOutcomes {
  import opened Options
  import opened AcquisitionHealth
  import opened BlockPlanner
  import opened Recovery

  // ---------- one pause, one dial ----------

  /** A pause that lasts, with no shutdown at either end of it. */
  predicate PauseOver(w: World, t: nat, delay: int) {
    !w.at(t).shutdown && (delay == 0 || (w.pause(t, delay) == Elapsed && !w.at(t + 1).shutdown))
  }

  /** The pause ends in a shutdown: signalled before it, or as it elapses, or waking it. */
  predicate PauseStopped(w: World, t: nat, delay: int) {
    w.at(t).shutdown
    || (delay != 0 && (w.pause(t, delay) == Woken || (w.pause(t, delay) == Elapsed && w.at(t + 1).shutdown)))
  }

  lemma PauseExactly(w: World, t: nat, delay: int)
    ensures PauseAt(w, t, delay) == Continue <==> PauseOver(w, t, delay)
    ensures PauseAt(w, t, delay) == Stop <==> PauseStopped(w, t, delay)
    ensures PauseAt(w, t, delay) == Interrupt <==>
              !w.at(t).shutdown && delay != 0 && w.pause(t, delay) == PauseCancelled
  {
  }

  /** A dial and the pause behind it are three consultations: the dial of attempt `k` is this one. */
  function DialTick(from: nat, k: nat): nat {
    from + 3 * k
  }

  /** The attempt fails and its pause passes. */
  predicate GoesOn(w: World, from: nat, delay: int, k: nat) {
    w.dial(DialTick(from, k)) == DialFailed && PauseOver(w, DialTick(from, k) + 1, delay)
  }

  /** How attempt `k` ends the dialling, if it does; `last` when no further attempt is allowed. */
  function EndOf(w: World, from: nat, delay: int, last: bool, k: nat): Option<Recovered> {
    var t := DialTick(from, k);
    match w.dial(t)
    case DialCancelled => Some(Raised(CancelledError))
    case Connected =>
      if !w.at(t + 1).shutdown then Some(Reconnected)
      else if w.closing(t + 1) == CloseCancelled then Some(Raised(CloseInterrupted))
      else Some(Raised(SessionClosedError))
    case DialFailed =>
      if last then Some(Raised(ConnectionError))
      else if PauseOver(w, t + 1, delay) then None
      else if PauseStopped(w, t + 1, delay) then Some(Raised(SessionClosedError))
      else Some(Raised(CancelledError))
  }

  /** The outcome recorded with each error; `CloseInterrupted` records nothing. */
  function EndingFor(e: Error): Ending {
    match e
    case CancelledError => CancelledEnding
    case ConnectionError => ConnectionAttemptsExhausted
    case _ => ShutdownEnding
  }

  /** `a` after this many more dials, so many of them failed. */
  function Dialled(a: ActiveRecovery, dials: nat, failed: nat): ActiveRecovery {
    a.(dials := a.dials + dials, failedDials := a.failedDials + failed)
  }

  /** What a reconnect that ended so, after these dials, has made of the client. */
  ghost predicate EndedBy(s: Client, t: Client, r: Recovered, dials: nat, failed: nat, connectedAt: int)
    requires s.active.Some?
  {
    var a := Dialled(s.active.value, dials, failed);
    && t.times == s.times && t.starts == s.starts
    && t.n.dials == s.n.dials + dials && t.n.failedDials == s.n.failedDials + failed
    && t.n.establishments == s.n.establishments + failed
    && t.n.successful == s.n.successful + (if r.Reconnected? then 1 else 0)
    && t.n.failed == s.n.failed + (if r == Raised(ConnectionError) then 1 else 0)
    && t.n.abandoned == s.n.abandoned + (if r == Raised(ConnectionError) then 1 else 0)
    && t.health == (if r == Raised(ConnectionError) || r == Raised(CancelledError) then Degraded else s.health)
    && (match r
        case Reconnected =>
          t.log == s.log && t.active == Some(a.(connectedAfter := Some(connectedAt - a.started)))
        case Raised(CloseInterrupted) => t.log == s.log && t.active == Some(a)
        case Raised(e) =>
          && t.active.None? && |t.log| == |s.log| + 1 && t.log[..|s.log|] == s.log
          && var ev := t.log[|s.log|];
             ev.recovery == a && !ev.reconnectSucceeded && ev.outcome == EndingFor(e))
  }

  lemma OneDial(s: Client, w: World, p: Policy, attempt: nat)
    requires s.active.Some? && attempt < p.dialsPerReconnect
    requires var last := attempt + 1 == p.dialsPerReconnect; EndOf(w, s.tick, p.repeatedCooldown, last, 0).Some?
    ensures var last, t, r := attempt + 1 == p.dialsPerReconnect, DialTick(s.tick, 0), Dial(s, w, p, attempt);
            && EndOf(w, s.tick, p.repeatedCooldown, last, 0) == Some(r.1)
            && EndedBy(s, r.0, r.1, 1, if w.dial(t) == DialFailed then 1 else 0, w.at(t + 1).monotonic)
  {
    PauseExactly(w, s.tick + 1, p.repeatedCooldown);
    hide PauseAt, PauseOver, PauseStopped;
  }

  lemma EndedLater(s: Client, t: Client, r: Recovered, dials: nat, failed: nat, connectedAt: int)
    requires s.active.Some?
    requires EndedBy(Ticked(DialRefused(DialStarted(s)), 2), t, r, dials, failed, connectedAt)
    ensures EndedBy(s, t, r, dials + 1, failed + 1, connectedAt)
  {
  }

  lemma AnotherDial(s: Client, w: World, p: Policy, attempt: nat)
    requires s.active.Some? && attempt + 1 < p.dialsPerReconnect && GoesOn(w, s.tick, p.repeatedCooldown, 0)
    ensures Dial(s, w, p, attempt) == Dial(Ticked(DialRefused(DialStarted(s)), 2), w, p, attempt + 1)
  {
    PauseExactly(w, s.tick + 1, p.repeatedCooldown);
    hide PauseAt, PauseOver, PauseStopped, GiveUp, AfterDial;
  }

  /**
   * Some attempt decides the dialling: those before it failed and were paused after, and it ends in what is raised, or
   * connects. The dials and failures counted, and the event recorded, are exactly those up to it.
   */
  lemma {:induction false} DialExactly(s: Client, w: World, p: Policy, attempt: nat) returns (k: nat)
    requires s.active.Some? && attempt < p.dialsPerReconnect
    ensures attempt + k < p.dialsPerReconnect
    ensures forall j: nat :: j < k ==> GoesOn(w, s.tick, p.repeatedCooldown, j)
    ensures var t := DialTick(s.tick, k); var r := Dial(s, w, p, attempt);
            && EndOf(w, s.tick, p.repeatedCooldown, attempt + k + 1 == p.dialsPerReconnect, k) == Some(r.1)
            && EndedBy(s, r.0, r.1, k + 1, k + (if w.dial(t) == DialFailed then 1 else 0), w.at(t + 1).monotonic)
    decreases p.dialsPerReconnect - attempt
  {
    hide Dial, EndedBy, PauseOver, PauseStopped;
    var delay, u := p.repeatedCooldown, Ticked(DialRefused(DialStarted(s)), 2);
    assert u.active.Some? && u.tick == s.tick + 3;
    hide DialRefused, DialStarted, Ticked;
    if attempt + 1 < p.dialsPerReconnect && GoesOn(w, s.tick, delay, 0) {
      var later := DialExactly(u, w, p, attempt + 1);
      k := later + 1;
      AnotherDial(s, w, p, attempt);
      var t := DialTick(u.tick, later);
      var r := Dial(s, w, p, attempt);
      EndedLater(s, r.0, r.1, later + 1, later + (if w.dial(t) == DialFailed then 1 else 0), w.at(t + 1).monotonic);
      OnwardTicks(w, s.tick, u.tick, delay, k);
    } else {
      OneDial(s, w, p, attempt);
      k := 0;
    }
  }

  /** Three consultations on, the attempts are numbered one less. */
  lemma OnwardTicks(w: World, from: nat, onward: nat, delay: int, k: nat)
    requires onward == from + 3 && k >= 1 && GoesOn(w, from, delay, 0)
    requires forall j: nat :: j < k - 1 ==> GoesOn(w, onward, delay, j)
    ensures forall j: nat :: j < k ==> GoesOn(w, from, delay, j)
    ensures DialTick(onward, k - 1) == DialTick(from, k)
    ensures forall last :: EndOf(w, onward, delay, last, k - 1) == EndOf(w, from, delay, last, k)
  {
    forall j: nat | j < k ensures GoesOn(w, from, delay, j) {
      if j > 0 {
        assert GoesOn(w, onward, delay, j - 1);
      }
    }
  }

  /** Dial `k` decides: those before it failed and were paused after, and it ends in `r`, counted and recorded so. */
  ghost predicate DecidedAt(s: Client, t: Client, r: Recovered, w: World, p: Policy, k: nat)
    requires s.active.Some?
  {
    var tick := DialTick(s.tick, k);
    && k < p.dialsPerReconnect
    && (forall j: nat :: j < k ==> GoesOn(w, s.tick, p.repeatedCooldown, j))
    && EndOf(w, s.tick, p.repeatedCooldown, k + 1 == p.dialsPerReconnect, k) == Some(r)
    && EndedBy(s, t, r, k + 1, k + (if w.dial(tick) == DialFailed then 1 else 0), w.at(tick + 1).monotonic)
  }

  lemma SomeDialDecides(s: Client, w: World, p: Policy)
    requires s.active.Some? && p.dialsPerReconnect >= 1
    ensures var r := Dial(s, w, p, 0); exists k: nat :: DecidedAt(s, r.0, r.1, w, p, k)
  {
    var k := DialExactly(s, w, p, 0);
    hide Dial, EndOf, EndedBy, GoesOn;
    assert DecidedAt(s, Dial(s, w, p, 0).0, Dial(s, w, p, 0).1, w, p, k);
  }

  // ---------- undisturbed dialling ----------

  /** Nothing is cancelled and no shutdown is signalled while `n` dials may be made. */
  ghost predicate Calm(w: World, from: nat, n: nat, delay: int) {
    forall t: nat :: from <= t <= from + 3 * n ==>
      !w.at(t).shutdown && w.dial(t) != DialCancelled && w.pause(t, delay) == Elapsed
  }

  lemma CalmGoesOn(w: World, from: nat, n: nat, delay: int, k: nat)
    requires Calm(w, from, n, delay) && k < n
    ensures w.dial(DialTick(from, k)) == Connected || w.dial(DialTick(from, k)) == DialFailed
    ensures !w.at(DialTick(from, k) + 1).shutdown
    ensures w.dial(DialTick(from, k)) == DialFailed <==> GoesOn(w, from, delay, k)
  {
    var t := DialTick(from, k);
    assert from <= t && t + 2 <= from + 3 * n;
    assert !w.at(t + 1).shutdown && !w.at(t + 2).shutdown && w.pause(t + 1, delay) == Elapsed;
    assert w.dial(t) != DialCancelled;
  }

  /**
   * Undisturbed, a reconnect uses every attempt it is allowed: it connects if and only if one of them connects, and
   * gives up if and only if all of them fail.
   */
  lemma UsesEveryAttempt(s: Client, w: World, p: Policy)
    requires s.active.Some? && p.dialsPerReconnect >= 1 && Calm(w, s.tick, p.dialsPerReconnect, p.repeatedCooldown)
    ensures var r := Dial(s, w, p, 0).1;
            && (r == Reconnected <==>
                  exists k: nat :: k < p.dialsPerReconnect && w.dial(DialTick(s.tick, k)) == Connected)
            && (r == Raised(ConnectionError) <==>
                  forall k: nat :: k < p.dialsPerReconnect ==> w.dial(DialTick(s.tick, k)) == DialFailed)
  {
    var k := DialExactly(s, w, p, 0);
    var r := Dial(s, w, p, 0).1;
    hide *;
    CalmlyDecided(w, s.tick, p.dialsPerReconnect, p.repeatedCooldown, k, r);
  }

  lemma CalmlyDecided(w: World, from: nat, n: nat, delay: int, k: nat, r: Recovered)
    requires Calm(w, from, n, delay) && k < n && forall j: nat :: j < k ==> GoesOn(w, from, delay, j)
    requires EndOf(w, from, delay, k + 1 == n, k) == Some(r)
    ensures r == Reconnected <==> exists k: nat :: k < n && w.dial(DialTick(from, k)) == Connected
    ensures r == Raised(ConnectionError) <==> forall k: nat :: k < n ==> w.dial(DialTick(from, k)) == DialFailed
  {
    hide Calm, PauseOver, PauseStopped, DialTick, GoesOn;
    CalmGoesOn(w, from, n, delay, k);
    if GoesOn(w, from, delay, k) && k + 1 < n {
      PausePasses(w, from, delay, k);
      assert false;
    }
    forall j: nat | j < k ensures w.dial(DialTick(from, j)) == DialFailed {
      CalmGoesOn(w, from, n, delay, j);
    }
    assert k + 1 < n ==> w.dial(DialTick(from, k)) == Connected;
  }

  lemma PausePasses(w: World, from: nat, delay: int, k: nat)
    requires GoesOn(w, from, delay, k)
    ensures EndOf(w, from, delay, false, k).None?
  {
  }

  // ---------- a whole reconnect ----------

  /** The client with a recovery just begun for this failure. */
  function WithRecovery(s: Client, a: ActiveRecovery, times: seq<int>): Client {
    s.(health := Recovering, active := Some(a), times := times, n := s.n.(attempts := s.n.attempts + 1),
       starts := s.starts + [Start(a.started, a.recoveryStartedAt, a.kind, a.block, a.episodeStartedAt, a.cooldown)])
  }

  /** The first pause of a recovery ended it. */
  ghost predicate StoppedEarly(s: Client, t: Client, a: ActiveRecovery, outcome: Ending, health: Health) {
    && t.active.None? && t.health == health && t.n == s.n && t.times == s.times && t.starts == s.starts
    && |t.log| == |s.log| + 1 && t.log[..|s.log|] == s.log
    && var ev := t.log[|s.log|];
       ev.recovery == a && !ev.reconnectSucceeded && ev.outcome == outcome
  }

  /** A refused reconnect: one event for this failure, and the acquisition is abandoned. */
  ghost predicate RefusedFor(s: Client, t: Client, a: ActiveRecovery) {
    && t.active == s.active && t.starts == s.starts && t.health == Degraded
    && t.n == s.n.(exhausted := s.n.exhausted + 1, abandoned := s.n.abandoned + 1)
    && |t.log| == |s.log| + 1 && t.log[..|s.log|] == s.log
    && var ev := t.log[|s.log|];
       ev.recovery == a && !ev.reconnectSucceeded && ev.outcome == RollingBudgetExhausted
  }

  /** The first pause ends the recovery, or one of its dials decides. */
  ghost predicate DecidedBy(b: Client, t: Client, r: Recovered, w: World, p: Policy, tick: nat, k: nat)
    requires b.active.Some?
  {
    var a := b.active.value;
    if PauseStopped(w, tick, a.cooldown) then
      r == Raised(SessionClosedError) && StoppedEarly(b, t, a, ShutdownEnding, b.health)
    else if !PauseOver(w, tick, a.cooldown) then
      r == Raised(CancelledError) && StoppedEarly(b, t, a, CancelledEnding, Degraded)
    else
      var from, dial := tick + 2, DialTick(tick + 2, k);
      && k < p.dialsPerReconnect
      && (forall j: nat :: j < k ==> GoesOn(w, from, p.repeatedCooldown, j))
      && EndOf(w, from, p.repeatedCooldown, k + 1 == p.dialsPerReconnect, k) == Some(r)
      && EndedBy(b, t, r, k + 1, k + (if w.dial(dial) == DialFailed then 1 else 0), w.at(dial + 1).monotonic)
  }

  lemma AfterBegunExactly(b: Client, w: World, p: Policy) returns (k: nat)
    requires b.active.Some? && p.dialsPerReconnect >= 1
    ensures var r := AfterBegun(b, w, p, b.active.value.cooldown);
            DecidedBy(b, r.0, r.1, w, p, b.tick, k)
  {
    hide Dial, PauseOver, PauseStopped, EndOf, GoesOn;
    PauseExactly(w, b.tick, b.active.value.cooldown);
    hide PauseAt;
    k := DialExactly(Ticked(b, 2), w, p, 0);
  }

  lemma SameStart(s: Client, b: Client, t: Client, r: Recovered, w: World, p: Policy, tick: nat, k: nat)
    requires s.active.Some? && b == s.(tick := b.tick) && DecidedBy(b, t, r, w, p, tick, k)
    ensures DecidedBy(s, t, r, w, p, tick, k)
  {
    hide PauseOver, PauseStopped, EndOf, GoesOn;
  }

  /**
   * A reconnect for a failure of this kind on this block: refused with one event naming them; or its start is recorded
   * with them, and the first pause ends it, or one of its dials decides.
   */
  lemma ReconnectExactly(s: Client, w: World, p: Policy, kind: FailureKind, block: InputReadBlock, at: int)
    returns (k: nat)
    requires p.Valid()
    ensures var m := w.at(s.tick); var r := Recover(s, w, p, kind, block, at);
            if r.1 == Raised(RecoveryExhaustedError) then
              RefusedFor(s, r.0, ActiveRecovery(kind, block, m.monotonic, at, m.now, 0, None, 0, 0))
            else
              var cooldown := if |r.0.times| == 1 then p.initialCooldown else p.repeatedCooldown;
              var a := ActiveRecovery(kind, block, m.monotonic, at, m.now, cooldown, None, 0, 0);
              DecidedBy(WithRecovery(s, a, r.0.times), r.0, r.1, w, p, s.tick + 1, k)
  {
    var m := w.at(s.tick);
    var kept := Prune(s.times, m.monotonic - p.window);
    hide Prune, AfterBegun, DecidedBy;
    k := 0;
    if |kept| < p.perWindow {
      var cooldown := if kept == [] then p.initialCooldown else p.repeatedCooldown;
      var a := Beginning(m, kind, block, at, cooldown);
      var b := Begun(s, m, kept, a);
      k := AfterBegunExactly(b, w, p);
      var r := AfterBegun(b, w, p, cooldown);
      NotRefused(b, r.0, r.1, w, p, b.tick, k);
      SameStart(WithRecovery(s, a, r.0.times), b, r.0, r.1, w, p, b.tick, k);
    }
  }

  lemma NotRefused(b: Client, t: Client, r: Recovered, w: World, p: Policy, tick: nat, k: nat)
    requires b.active.Some? && DecidedBy(b, t, r, w, p, tick, k)
    ensures r != Raised(RecoveryExhaustedError) && t.times == b.times && t.starts == b.starts
  {
    hide PauseOver, PauseStopped;
  }
}
