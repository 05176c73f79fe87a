/** When the recovery ledger balances: under which policies every attempt and refusal has exactly one event. */
module LedgerExactness {
  import opened AcquisitionHealth
  import opened Options
  import opened BlockPlanner
  import opened Recovery
  import opened RecoveryLedger
  import opened RecoveryBudget

  /** No cancellation arrives while a shut-down session is being closed, and every read failure is of a known class. */
  ghost predicate Undisturbed(w: World) {
    && (forall t: nat :: w.closing(t).Closed?)
    && (forall t: nat, b: InputReadBlock :: !w.read(t, b).ReadUnclassified?)
  }

  predicate Disturbance(e: Error) {
    e.CloseInterrupted? || e.UnclassifiedError?
  }

  lemma {:induction false} DialUndisturbed(s: Client, w: World, p: Policy, attempt: nat)
    requires s.active.Some? && Undisturbed(w)
    ensures var r := Dial(s, w, p, attempt).1; r.Raised? ==> !Disturbance(r.error)
    decreases p.dialsPerReconnect - attempt
  {
    if attempt < p.dialsPerReconnect {
      DialUndisturbed(Ticked(DialRefused(DialStarted(s)), 2), w, p, attempt + 1);
    }
  }

  lemma OnFailureUndisturbed(s: Client, w: World, p: Policy, c: Cursor, kind: FailureKind, block: InputReadBlock,
      at: int)
    requires (c.own ==> s.active.Some?) && Undisturbed(w)
    ensures var r := OnFailure(s, w, p, c, kind, block, at).1; r.Raised? ==> !Disturbance(r.error)
  {
    hide Recover, Terminate, CountFailure, Undisturbed;
    RecoverUndisturbed(s.(n := CountFailure(s.n, kind)), w, p, kind, block, at);
  }

  lemma RecoverUndisturbed(s: Client, w: World, p: Policy, kind: FailureKind, block: InputReadBlock, at: int)
    requires Undisturbed(w)
    ensures var r := Recover(s, w, p, kind, block, at).1; r.Raised? ==> !Disturbance(r.error)
  {
    hide Dial, Prune, Undisturbed;
    var m := w.at(s.tick);
    var kept := Prune(s.times, m.monotonic - p.window);
    var cooldown := if kept == [] then p.initialCooldown else p.repeatedCooldown;
    DialUndisturbed(Ticked(Begun(s, m, kept, Beginning(m, kind, block, at, cooldown)), 2), w, p, 0);
  }

  lemma {:induction false} SelectUndisturbed(s: Client, w: World, e: Setup, c: Cursor)
    requires (c.own ==> s.active.Some?) && Undisturbed(w)
    ensures var a := Select(s, w, e, c); a.Failed? ==> !Disturbance(a.error)
    decreases Allowance(e, c), |e.blocks| - c.i
  {
    hide OnFailure, FreshAt, ProfileFresh;
    if c.i < |e.blocks| {
      var block := e.blocks[c.i];
      var reply := w.read(s.tick + 1, block);
      assert !reply.ReadUnclassified?;
      hide Undisturbed;
      if FreshAt(RequiredIn(e.required, block), w.at(s.tick), e.target) {
        SelectUndisturbed(Ticked(s, 1), w, e, c.(i := c.i + 1));
      } else if reply.Answered? {
        SelectUndisturbed(Asked(s), w, e, c.(i := c.i + 1));
      } else if reply.ReadFailed? && e.policy.Some? {
        var at := w.at(s.tick + 1).now;
        SelectFails(s, w, e, c, reply.kind);
        OnFailureUndisturbed(Asked(s), w, e.policy.value, c, reply.kind, block, at);
        var r := OnFailure(Asked(s), w, e.policy.value, c, reply.kind, block, at);
        if r.1.Reconnected? {
          SelectUndisturbed(r.0, w, e, Again(c, r.0.tick));
        }
      }
    }
  }

  // ---------- at most one reconnect an acquisition ----------

  /** Nothing attached, and one event for each attempt and each refusal. */
  ghost predicate Clean(s: Client) {
    s.active.None? && |s.log| == |s.starts| + Refusals(s.log)
  }

  /** From a balanced ledger, under any policy and in any world: exactly when the acquisition leaves it balanced. */
  lemma AcquisitionBalancesExactly(s: Client, w: World, e: Setup)
    requires Clean(s)
    ensures var a := Acquire(s, w, e);
            var attempts := |a.end.starts| - |s.starts|;
            Clean(a.end) <==> attempts == 0 || (attempts == 1 && !LeavesAttached(a, Refusals(s.log)))
  {
    SelectBooked(s, w, e, Cursor(0, 0, false, s.tick));
    hide Select, Refusals, LeavesAttached;
  }

  lemma OneReconnectKeepsClean(s: Client, w: World, e: Setup)
    requires Clean(s) && CountersOk(s, false) && Undisturbed(w)
    requires e.policy.Some? ==> e.policy.value.perAcquisition == 1
    ensures Clean(Acquire(s, w, e).end) && CountersOk(Acquire(s, w, e).end, false)
  {
    var c := Cursor(0, 0, false, s.tick);
    SelectBooked(s, w, e, c);
    SelectUndisturbed(s, w, e, c);
    AcquisitionCost(s, w, e);
    hide Select, Undisturbed, Refusals;
  }

  ghost predicate AllUnder(acquisitions: seq<Setup>, p: Policy) {
    forall i :: 0 <= i < |acquisitions| ==> acquisitions[i].policy == Some(p)
  }

  lemma {:induction false} LifeClean(w: World, acquisitions: seq<Setup>, p: Policy)
    requires Undisturbed(w) && AllUnder(acquisitions, p) && p.perAcquisition == 1
    ensures Clean(Life(w, acquisitions)) && CountersOk(Life(w, acquisitions), false)
  {
    if acquisitions != [] {
      var before := acquisitions[..|acquisitions| - 1];
      LifeClean(w, before, p);
      hide Acquire, Undisturbed, Clean, CountersOk;
      OneReconnectKeepsClean(Life(w, before), w, acquisitions[|acquisitions| - 1]);
    }
  }

  // ---------- which event belongs to which attempt ----------

  /** The events of attempts, with the recovery still attached, are the attempts themselves in order. */
  ghost predicate Matched(s: Client) {
    Attempted(s.log) + (if s.active.Some? then [StartOf(s.active.value)] else []) == s.starts
  }

  lemma RecoverMatched(s: Client, t: Client, r: Recovered, w: World, p: Policy)
    requires RecoverEffect(s, t, r, w, p) && Matched(s) && s.active.None?
    ensures Matched(t)
  {
    var m := w.at(s.tick);
    var kept := Prune(s.times, m.monotonic - p.window);
    assert Attempted(s.log) + [] == s.starts && Attempted(s.log) == s.starts;
    if |t.log| == |s.log| + 1 && t.log[..|s.log|] == s.log {
      OneMoreEvent(s.log, t.log);
    }
    hide Prune, Attempted;
    if |kept| < p.perWindow {
      var a :| BegunAt(a, m, kept, p) && DialEffect(Begun(s, m, kept, a), t, r, p.dialsPerReconnect);
      assert t.starts == s.starts + [StartOf(a)];
    } else {
      assert Attempted(t.log) + [] == Attempted(t.log);
    }
  }

  lemma TerminateMatched(s: Client, w: World, own: bool, outcome: Ending)
    requires (own ==> s.active.Some?) && !outcome.RollingBudgetExhausted? && Matched(s)
    ensures Matched(EndOwn(s, w, own, outcome))
  {
    if own {
      var t := EndOwn(s, w, own, outcome);
      OneMoreEvent(s.log, t.log);
      assert Attempted(t.log) + [] == Attempted(t.log);
    }
  }

  lemma MatchedOn(s: Client, u: Client)
    requires SameLedger(s, u) && Matched(s)
    ensures Matched(u)
  {
  }

  lemma OnFailureMatched(s: Client, w: World, p: Policy, c: Cursor, kind: FailureKind, block: InputReadBlock, at: int)
    requires Matched(s) && (c.own <==> s.active.Some?) && (c.own ==> c.reconnects >= p.perAcquisition)
    ensures Matched(OnFailure(s, w, p, c, kind, block, at).0)
  {
    var counted := s.(n := CountFailure(s.n, kind));
    var degraded := counted.(health := Degraded);
    var r := OnFailure(s, w, p, c, kind, block, at);
    assert SameLedger(s, counted) && SameLedger(s, degraded);
    hide Matched, Recover, CountFailure, RecoverEffect;
    MatchedOn(s, counted);
    MatchedOn(s, degraded);
    if c.own && w.at(s.tick).shutdown && kind.SessionClosed? {
      TerminateMatched(degraded, w, true, ReacquisitionShutdown);
    } else if c.reconnects >= p.perAcquisition {
      TerminateMatched(counted, w, c.own, ReacquisitionFailed);
      MatchedOn(EndOwn(counted, w, c.own, ReacquisitionFailed), r.0);
    } else {
      RecoverKeeps(counted, w, p, kind, block, at);
      RecoverMatched(counted, r.0, r.1, w, p);
    }
  }

  /** While no earlier recovery is overwritten, each attempt's event is recorded under that attempt, in order. */
  lemma {:induction false} SelectMatched(s: Client, w: World, e: Setup, c: Cursor)
    requires Matched(s) && (c.own <==> s.active.Some?)
    requires e.policy.Some? ==> e.policy.value.perAcquisition == 1 && (c.own ==> c.reconnects >= 1)
    ensures Matched(Select(s, w, e, c).end)
    decreases Allowance(e, c), |e.blocks| - c.i
  {
    hide Matched, OnFailure, FreshAt, ProfileFresh, EndOwn;
    var end := Select(s, w, e, c).end;
    if c.i >= |e.blocks| {
      CompletedMatched(s, w, e, c);
      return;
    }
    var block := e.blocks[c.i];
    var next := c.(i := c.i + 1);
    var degraded := Asked(s).(health := Degraded);
    MatchedOn(s, Ticked(s, 1));
    MatchedOn(s, Asked(s));
    MatchedOn(s, degraded);
    if FreshAt(RequiredIn(e.required, block), w.at(s.tick), e.target) {
      SelectMatched(Ticked(s, 1), w, e, next);
    } else {
      match w.read(s.tick + 1, block)
      case Answered => SelectMatched(Asked(s), w, e, next);
      case ReadCancelled => TerminateMatched(degraded, w, c.own, ReacquisitionCancelled);
      case ReadRejected => TerminateMatched(degraded, w, c.own, ReacquisitionRejected);
      case ReadUnclassified =>
      case ReadFailed(kind) =>
        if e.policy.Some? {
          FailedReadMatched(s, w, e, c, kind);
        }
    }
  }

  lemma CompletedMatched(s: Client, w: World, e: Setup, c: Cursor)
    requires Matched(s) && (c.own <==> s.active.Some?)
    ensures Matched(Completed(s, w, e, c).end)
  {
    hide ProfileFresh;
    if c.own {
      var t := Completed(s, w, e, c).end;
      OneMoreEvent(s.log, t.log);
      assert Attempted(t.log) + [] == Attempted(t.log);
    }
  }

  lemma FailedReadMatched(s: Client, w: World, e: Setup, c: Cursor, kind: FailureKind)
    requires Matched(s) && (c.own <==> s.active.Some?) && e.policy.Some? && c.i < |e.blocks|
    requires e.policy.value.perAcquisition == 1 && (c.own ==> c.reconnects >= 1)
    requires !FreshAt(RequiredIn(e.required, e.blocks[c.i]), w.at(s.tick), e.target)
    requires w.read(s.tick + 1, e.blocks[c.i]) == ReadFailed(kind)
    ensures Matched(Select(s, w, e, c).end)
    decreases Allowance(e, c), |e.blocks| - c.i, 0
  {
    SelectFails(s, w, e, c, kind);
    hide Matched, OnFailure, FreshAt, Select;
    var block, at := e.blocks[c.i], w.at(s.tick + 1).now;
    MatchedOn(s, Asked(s));
    OnFailureMatched(Asked(s), w, e.policy.value, c, kind, block, at);
    var r := OnFailure(Asked(s), w, e.policy.value, c, kind, block, at);
    if r.1.Reconnected? {
      SelectMatched(r.0, w, e, Again(c, r.0.tick));
    }
  }

  /**
   * With one reconnect per acquisition, over a whole life: the events other than refusals are exactly the
   * reconnect attempts, in order, and every event recorded is one or the other.
   */
  lemma {:induction false} EveryAttemptHasItsEvent(w: World, acquisitions: seq<Setup>, p: Policy)
    requires Undisturbed(w) && AllUnder(acquisitions, p) && p.perAcquisition == 1
    ensures var s := Life(w, acquisitions);
            s.active.None? && Attempted(s.log) == s.starts && |s.log| == |s.starts| + Refusals(s.log)
  {
    var s := Life(w, acquisitions);
    LifeClean(w, acquisitions, p);
    if acquisitions != [] {
      var before := acquisitions[..|acquisitions| - 1];
      var b := Life(w, before);
      EveryAttemptHasItsEvent(w, before, p);
      assert Attempted(b.log) + [] == Attempted(b.log);
      SelectMatched(b, w, acquisitions[|acquisitions| - 1], Cursor(0, 0, false, b.tick));
      hide Select, Attempted, Undisturbed;
    }
    assert Attempted(s.log) + [] == Attempted(s.log);
  }

  // ---------- more than one reconnect an acquisition ----------

  /** Registers are never observed, every read times out, every dial connects. */
  function TimeoutWorld(): World {
    World(t => Moment(0, 0, map[], false), (t, b) => ReadFailed(RequestTimeout), t => Connected, (t, d) => Elapsed,
        t => Closed)
  }

  function OneBlockSetup(p: Policy): Setup {
    Setup(Some(p), [InputReadBlock(0, 40)], {0}, 1)
  }

  /** In that world a reconnect whose budget is not used up always succeeds. */
  lemma TimeoutReconnects(s: Client, p: Policy, c: Cursor, block: InputReadBlock)
    requires p.Valid() && (c.own ==> s.active.Some?) && c.reconnects < p.perAcquisition
    requires |s.times| < p.perWindow && forall i :: 0 <= i < |s.times| ==> s.times[i] == 0
    ensures var r := OnFailure(s, TimeoutWorld(), p, c, RequestTimeout, block, 0);
            r.1.Reconnected? && r.0.times == s.times + [0] && |r.0.starts| == |s.starts| + 1
  {
    assert Prune(s.times, 0 - p.window) == s.times;
  }

  /** Where the client is after its first failed read and reconnect. */
  function FirstReconnect(p: Policy): Client {
    OnFailure(Asked(NEW_CLIENT), TimeoutWorld(), p, Cursor(0, 0, false, 0), RequestTimeout, InputReadBlock(0, 40), 0).0
  }

  lemma NeverFresh(required: set<int>, target: int)
    ensures !FreshAt(required, Moment(0, 0, map[], false), target)
  {
    if required != {} {
      var r := Member(required);
      assert r !in Moment(0, 0, map[], false).observedAt;
    }
  }

  lemma FirstReconnectBooked(p: Policy)
    requires p.Valid()
    ensures var s := FirstReconnect(p);
            && s.times == [0] && |s.starts| == 1
            && FailureBooked(Asked(NEW_CLIENT), s, Reconnected, false)
  {
    var c, s := Cursor(0, 0, false, 0), Asked(NEW_CLIENT);
    hide OnFailure, FailureBooked;
    TimeoutReconnects(s, p, c, InputReadBlock(0, 40));
    OnFailureBooked(s, TimeoutWorld(), p, c, RequestTimeout, InputReadBlock(0, 40), 0);
  }

  lemma FirstReconnectState(p: Policy)
    requires p.Valid()
    ensures var s := FirstReconnect(p); s.active.Some? && s.times == [0] && |s.starts| == 1 && s.log == []
  {
    hide *;
    FirstReconnectBooked(p);
    NothingOwed();
    NothingRecorded(Asked(NEW_CLIENT), FirstReconnect(p));
  }

  lemma NothingOwed()
    ensures var s := Asked(NEW_CLIENT);
            s.active.None? && s.starts == [] && Refusals(s.log) == 0 && Lost(s) == 0
  {
    hide Refusals;
    NoRefusals(Asked(NEW_CLIENT).log);
  }

  lemma NoRefusals(log: seq<RecoveryEvent>)
    requires log == []
    ensures Refusals(log) == 0
  {
  }

  /** A first reconnect that has succeeded has left no event behind. */
  lemma NothingRecorded(s: Client, t: Client)
    requires FailureBooked(s, t, Reconnected, false) && s.active.None? && Lost(s) == 0 && Refusals(s.log) == 0
    requires |t.starts| == 1 && s.starts == []
    ensures t.log == [] && t.active.Some?
  {
    hide Refusals;
  }

  lemma FirstReconnectFacts(p: Policy)
    requires p.Valid()
    ensures var e := OneBlockSetup(p); var s := FirstReconnect(p);
            && s.active.Some? && s.times == [0] && |s.starts| == 1 && s.log == []
            && Acquire(NEW_CLIENT, TimeoutWorld(), e) == Select(s, TimeoutWorld(), e, Cursor(0, 1, true, s.tick))
  {
    hide OnFailure, FreshAt, Select;
    var e, c := OneBlockSetup(p), Cursor(0, 0, false, 0);
    FirstReconnectState(p);
    NeverFresh(RequiredIn(e.required, e.blocks[0]), e.target);
    SelectFails(NEW_CLIENT, TimeoutWorld(), e, c, RequestTimeout);
    TimeoutReconnects(Asked(NEW_CLIENT), p, c, e.blocks[0]);
  }

  /** Allowed two reconnects, the client overwrites or abandons the first recovery without recording it. */
  lemma SecondReconnectLosesAnEvent(p: Policy)
    requires p.Valid() && p.perAcquisition >= 2
    ensures !Clean(Acquire(NEW_CLIENT, TimeoutWorld(), OneBlockSetup(p)).end)
  {
    var w, e := TimeoutWorld(), OneBlockSetup(p);
    var s := FirstReconnect(p);
    var c := Cursor(0, 1, true, s.tick);
    FirstReconnectFacts(p);
    hide Acquire, FirstReconnect;
    var block := e.blocks[0];
    NeverFresh(RequiredIn(e.required, block), e.target);
    hide FreshAt;
    SelectFails(s, w, e, c, RequestTimeout);
    SelectBooked(s, w, e, c);
    assert Lost(s) == 0;
    if p.perWindow >= 2 {
      TimeoutReconnects(Asked(s), p, c, block);
      var r := OnFailure(Asked(s), w, p, c, RequestTimeout, block, 0);
      SelectBooked(r.0, w, e, Again(c, r.0.tick));
      hide Select, OnFailure;
    } else {
      SecondIsRefused(Asked(s), p, c, block);
      hide Select, OnFailure;
    }
  }

  lemma SecondIsRefused(s: Client, p: Policy, c: Cursor, block: InputReadBlock)
    requires p.Valid() && p.perWindow == 1 && c.own && s.active.Some? && c.reconnects < p.perAcquisition
             && s.times == [0]
    ensures var r := OnFailure(s, TimeoutWorld(), p, c, RequestTimeout, block, 0);
            r.1.Raised? && r.0.active.Some?
  {
    assert Prune([0], 0 - p.window) == [0];
  }

  lemma OneAcquisition(w: World, e: Setup)
    ensures Life(w, [e]) == Acquire(NEW_CLIENT, w, e).end
  {
    assert [e][..0] == [];
    hide Acquire;
  }

  /**
   * The ledger balances at the end of every acquisition of every undisturbed life
   * if and only if the policy allows one reconnect per acquisition.
   */
  lemma LedgerBalancesExactly(p: Policy)
    requires p.Valid()
    ensures (forall w: World, acquisitions: seq<Setup> :: Undisturbed(w) && AllUnder(acquisitions, p) ==>
               Clean(Life(w, acquisitions)))
            <==> p.perAcquisition == 1
  {
    if p.perAcquisition == 1 {
      forall w: World, acquisitions: seq<Setup> | Undisturbed(w) && AllUnder(acquisitions, p)
        ensures Clean(Life(w, acquisitions))
      {
        LifeClean(w, acquisitions, p);
      }
    } else {
      SecondReconnectLosesAnEvent(p);
      var w, lives := TimeoutWorld(), [OneBlockSetup(p)];
      assert Undisturbed(w) && AllUnder(lives, p);
      OneAcquisition(w, OneBlockSetup(p));
      hide Acquire, Clean, Life;
      assert !Clean(Life(w, lives));
    }
  }
}
