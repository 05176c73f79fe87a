/** The hybrid read client: its recovery methods and refresh loop, proved against the acquisition functions. */
module HybridClient {
  import opened AcquisitionHealth
  import opened Options
  import opened BlockPlanner
  import opened DiagnosticJournal
  import opened Recovery
  import opened RecoveryBudget
  import opened RollingWindow
  import opened AcquisitionFreshness
  import opened SelectionExact
  import DialOutcomes

  datatype Turn = Passed | Restarted | Ended(error: Error)

  class LuxPowerHybridReadClient {
    const world: World
    const policy: Option<Policy>
    const blocks: seq<InputReadBlock>
    const required: set<int>
    var target: int
    var health: Health
    var attemptTimes: seq<int>
    var events: seq<RecoveryEvent>
    var eventsRecorded: nat
    var active: Option<ActiveRecovery>
    var counters: Counters
    /** How often the environment has been consulted. */
    var tick: nat
    ghost var starts: seq<Start>
    ghost var log: seq<RecoveryEvent>
    /** The configuration of every acquisition so far, in order. */
    ghost var acquisitions: seq<Setup>

    ghost function Model(): Client
      reads this
    {
      Client(tick, attemptTimes, starts, log, active, health, counters)
    }

    ghost function Config(): Setup
      reads this`target
    {
      Setup(policy, blocks, required, target)
    }

    /** The bounded event deque holds the newest of everything recorded. */
    ghost predicate Valid()
      reads this
    {
      events == Retained(log, RECOVERY_EVENT_CAPACITY) && eventsRecorded == |log|
    }

    /** What the client is, its acquisitions have made of it. */
    ghost predicate Lived()
      reads this
    {
      && Model() == Life(world, acquisitions)
      && forall i :: 0 <= i < |acquisitions| ==>
           acquisitions[i].policy == policy && acquisitions[i].blocks == blocks && acquisitions[i].required == required
    }

    constructor (world: World, policy: Option<Policy>, blocks: seq<InputReadBlock>, required: set<int>, target: int)
      requires policy.Some? ==> policy.value.Valid()
      requires target > 0
      ensures Valid() && Model() == NEW_CLIENT && Config() == Setup(policy, blocks, required, target)
      ensures this.world == world && acquisitions == [] && Lived()
    {
      this.world, this.policy, this.blocks, this.required, this.target := world, policy, blocks, required, target;
      health, attemptTimes, events, eventsRecorded, active, tick := Degraded, [], [], 0, None, 0;
      counters := NEW_CLIENT.n;
      starts, log, acquisitions := [], [], [];
    }

    method SetFreshnessTarget(newTarget: int)
      requires Valid() && newTarget > 0
      modifies this`target
      ensures Valid() && Model() == old(Model()) && target == newTarget && (old(Lived()) ==> Lived())
    {
      target := newTarget;
    }

    method RecordRecovery(recovery: ActiveRecovery, succeeded: bool, outcome: Ending)
      requires Valid()
      modifies this`events, this`eventsRecorded, this`log
      ensures Valid() && Model() == Record(old(Model()), world, recovery, succeeded, outcome)
    {
      var event := RecoveryEvent(recovery, world.at(tick).now, succeeded, outcome);
      PushRetains(log, RECOVERY_EVENT_CAPACITY, event);
      events := Push(events, RECOVERY_EVENT_CAPACITY, event);
      eventsRecorded := eventsRecorded + 1;
      log := log + [event];
    }

    method TerminateRecovery(outcome: Ending)
      requires Valid() && active.Some?
      modifies this`events, this`eventsRecorded, this`log, this`active
      ensures Valid() && Model() == Terminate(old(Model()), world, outcome)
    {
      RecordRecovery(active.value, active.value.connectedAfter.Some?, outcome);
      active := None;
    }

    method AbandonRecovery()
      requires Valid()
      modifies this`health, this`counters
      ensures Valid() && Model() == Abandon(old(Model()))
    {
      health := Degraded;
      counters := counters.(exhausted := counters.exhausted + 1, abandoned := counters.abandoned + 1);
    }

    /** Records the recovery as not connected and detaches it; the caller raises. */
    method GiveUpRecovery(outcome: Ending)
      requires Valid() && active.Some?
      modifies this`events, this`eventsRecorded, this`log, this`active
      ensures Valid() && Model() == GiveUp(old(Model()), world, outcome)
    {
      RecordRecovery(active.value, false, outcome);
      active := None;
    }

    method ShutdownDuring(delay: int) returns (pause: Pause)
      requires Valid()
      modifies this`tick
      ensures Valid() && Model() == Ticked(old(Model()), 2) && pause == PauseAt(world, old(tick), delay)
    {
      var before, after := world.at(tick).shutdown, world.at(tick + 1).shutdown;
      var reply := world.pause(tick, delay);
      tick := tick + 2;
      if before {
        return Stop;
      }
      if delay == 0 {
        return Continue;
      }
      match reply
      case PauseCancelled => return Interrupt;
      case Woken => return Stop;
      case Elapsed => return if after then Stop else Continue;
    }

    /** After the dial loop. */
    method Establish() returns (result: Recovered)
      requires Valid() && active.Some?
      modifies this
      ensures Valid() && target == old(target)
      ensures (Model(), result) == AfterDial(old(Model()), world)
    {
      var m := world.at(tick);
      var closing := world.closing(tick);
      tick := tick + 1;
      if m.shutdown {
        if closing.CloseCancelled? {
          return Raised(CloseInterrupted);
        }
        GiveUpRecovery(ShutdownEnding);
        return Raised(SessionClosedError);
      }
      counters := counters.(successful := counters.successful + 1);
      active := Some(active.value.(connectedAfter := Some(m.monotonic - active.value.started)));
      return Reconnected;
    }

    /** The dials a reconnect is allowed, until one of them decides. */
    method DialTransport(p: Policy) returns (result: Recovered)
      requires Valid() && active.Some?
      modifies this
      ensures Valid() && target == old(target)
      ensures (Model(), result) == Dial(old(Model()), world, p, 0)
      ensures p.dialsPerReconnect >= 1 ==>
                exists k: nat :: DialOutcomes.DecidedAt(old(Model()), Model(), result, world, p, k)
    {
      hide Dial, DialOutcomes.DecidedAt;
      if p.dialsPerReconnect >= 1 {
        DialOutcomes.SomeDialDecides(Model(), world, p);
      }
      result := DialLoop(p);
    }

    method DialLoop(p: Policy) returns (result: Recovered)
      requires Valid() && active.Some?
      modifies this
      ensures Valid() && target == old(target)
      ensures (Model(), result) == Dial(old(Model()), world, p, 0)
    {
      hide AfterDial, PauseAt, GiveUp, DialStarted, DialRefused;
      var attempt := 0;
      while attempt < p.dialsPerReconnect
        invariant Valid() && active.Some? && target == old(target)
        invariant Dial(Model(), world, p, attempt) == Dial(old(Model()), world, p, 0)
      {
        var reply := world.dial(tick);
        ghost var s := Model();
        DialOnce();
        if reply.Connected? {
          break;
        }
        if reply.DialCancelled? {
          health := Degraded;
          GiveUpRecovery(CancelledEnding);
          return Raised(CancelledError);
        }
        DialFailedOnce();
        if attempt + 1 >= p.dialsPerReconnect {
          counters := counters.(failed := counters.failed + 1, abandoned := counters.abandoned + 1);
          health := Degraded;
          GiveUpRecovery(ConnectionAttemptsExhausted);
          return Raised(ConnectionError);
        }
        var pause := ShutdownDuring(p.repeatedCooldown);
        if pause.Interrupt? {
          health := Degraded;
          GiveUpRecovery(CancelledEnding);
          return Raised(CancelledError);
        }
        if pause.Stop? {
          GiveUpRecovery(ShutdownEnding);
          return Raised(SessionClosedError);
        }
        attempt := attempt + 1;
      }
      result := Establish();
    }

    method DialOnce()
      requires Valid() && active.Some?
      modifies this`tick, this`counters, this`active
      ensures Valid() && active.Some? && Model() == DialStarted(old(Model()))
    {
      tick := tick + 1;
      active := Some(active.value.(dials := active.value.dials + 1));
      counters := counters.(dials := counters.dials + 1);
    }

    method DialFailedOnce()
      requires Valid() && active.Some?
      modifies this`counters, this`active
      ensures Valid() && active.Some? && Model() == DialRefused(old(Model()))
    {
      counters := counters.(establishments := counters.establishments + 1, failedDials := counters.failedDials + 1);
      active := Some(active.value.(failedDials := active.value.failedDials + 1));
    }

    method PruneAttempts(cutoff: int)
      requires Valid()
      modifies this`attemptTimes
      ensures Valid() && Model() == old(Model()).(times := Prune(old(attemptTimes), cutoff))
    {
      while attemptTimes != [] && attemptTimes[0] < cutoff
        invariant Prune(attemptTimes, cutoff) == Prune(old(attemptTimes), cutoff)
        invariant Model() == old(Model()).(times := attemptTimes)
        decreases |attemptTimes|
      {
        attemptTimes := attemptTimes[1..];
      }
    }

    /** The cooldown and the dialling of a reconnect that has begun. */
    method Reconnect(p: Policy, cooldown: int) returns (result: Recovered)
      requires Valid() && active.Some?
      modifies this
      ensures Valid() && target == old(target)
      ensures (Model(), result) == AfterBegun(old(Model()), world, p, cooldown)
    {
      hide Dial, PauseAt, GiveUp;
      var pause := ShutdownDuring(cooldown);
      if pause.Interrupt? {
        health := Degraded;
        GiveUpRecovery(CancelledEnding);
        return Raised(CancelledError);
      }
      if pause.Stop? {
        GiveUpRecovery(ShutdownEnding);
        return Raised(SessionClosedError);
      }
      result := DialTransport(p);
    }

    /** The rolling budget is used up: one event, and the acquisition is abandoned. */
    method RefuseRecovery(refused: ActiveRecovery)
      requires Valid()
      modifies this`events, this`eventsRecorded, this`log, this`health, this`counters
      ensures Valid()
      ensures Model() == Abandon(Record(old(Model()), world, refused, false, RollingBudgetExhausted))
    {
      hide Record, Abandon;
      RecordRecovery(refused, false, RollingBudgetExhausted);
      AbandonRecovery();
    }

    /** The recovery is attached and its start written down. */
    method BeginRecovery(m: Moment, begun: ActiveRecovery)
      requires Valid()
      modifies this`health, this`active, this`attemptTimes, this`starts, this`counters
      ensures Valid() && active == Some(begun)
      ensures Model() == old(Model()).(health := Recovering, active := Some(begun),
                                       times := old(attemptTimes) + [m.monotonic],
                                       starts := old(starts) + [StartOf(begun)],
                                       n := old(counters).(attempts := old(counters).attempts + 1))
    {
      health := Recovering;
      active := Some(begun);
      attemptTimes := attemptTimes + [m.monotonic];
      starts := starts + [StartOf(begun)];
      counters := counters.(attempts := counters.attempts + 1);
    }

    /** One budgeted clean reconnect; it never retries the request. */
    method RecoverTransport(p: Policy, kind: FailureKind, block: InputReadBlock, episodeStartedAt: int)
      returns (result: Recovered)
      requires Valid()
      modifies this
      ensures Valid() && target == old(target)
      ensures (Model(), result) == Recover(old(Model()), world, p, kind, block, episodeStartedAt)
    {
      hide Prune, AfterBegun, StartOf, Abandon, Record;
      var m := world.at(tick);
      tick := tick + 1;
      PruneAttempts(m.monotonic - p.window);
      if |attemptTimes| >= p.perWindow {
        RefuseRecovery(ActiveRecovery(kind, block, m.monotonic, episodeStartedAt, m.now, 0, None, 0, 0));
        return Raised(RecoveryExhaustedError);
      }
      var cooldown := if attemptTimes == [] then p.initialCooldown else p.repeatedCooldown;
      BeginRecovery(m, ActiveRecovery(kind, block, m.monotonic, episodeStartedAt, m.now, cooldown, None, 0, 0));
      result := Reconnect(p, cooldown);
    }

    method CountRecoveryFailure(kind: FailureKind)
      requires Valid()
      modifies this`counters
      ensures Valid() && counters == CountFailure(old(counters), kind)
    {
      match kind
      case RequestTimeout => counters := counters.(timeouts := counters.timeouts + 1);
      case ConnectionLost => counters := counters.(losses := counters.losses + 1);
      case ConnectionEstablishment => counters := counters.(establishments := counters.establishments + 1);
      case AmbiguousRequest => counters := counters.(ambiguous := counters.ambiguous + 1);
      case SessionClosed =>
    }

    /** The handler of a recoverable failure of the block's read. */
    method HandleFailure(p: Policy, c: Cursor, kind: FailureKind, block: InputReadBlock, requestedAt: int)
      returns (result: Recovered)
      requires Valid() && (c.own ==> active.Some?)
      modifies this
      ensures Valid() && target == old(target)
      ensures (Model(), result) == OnFailure(old(Model()), world, p, c, kind, block, requestedAt)
    {
      hide Recover, Terminate, CountFailure;
      CountRecoveryFailure(kind);
      if c.own && world.at(tick).shutdown && kind.SessionClosed? {
        health := Degraded;
        TerminateRecovery(ReacquisitionShutdown);
        return Raised(SessionClosedError);
      }
      if c.reconnects >= p.perAcquisition {
        if c.own {
          TerminateRecovery(ReacquisitionFailed);
        }
        AbandonRecovery();
        return Raised(RecoveryExhaustedError);
      }
      result := RecoverTransport(p, kind, block, requestedAt);
    }

    /** After the last selection pass. */
    method ConcludeRefresh(own: bool)
      requires Valid() && (own ==> active.Some?)
      modifies this
      ensures Valid() && target == old(target)
      ensures forall c: Cursor :: c.own == own ==>
                Completed(old(Model()), world, old(Config()), c) == Refreshed(Model(), c.passStart)
    {
      hide ProfileFresh;
      var m := world.at(tick);
      tick := tick + 1;
      health := if ProfileFresh(Setup(policy, blocks, required, target), m) then Healthy else Degraded;
      if own {
        if health.Healthy? {
          counters := counters.(completed := counters.completed + 1);
          RecordRecovery(active.value, true, ProfileRecovered);
        } else {
          RecordRecovery(active.value, true, ProfileRemainedStale);
        }
        active := None;
      }
    }

    /** A read that ended the acquisition by itself. */
    method EndAcquisition(own: bool, outcome: Ending)
      requires Valid() && (own ==> active.Some?)
      modifies this
      ensures Valid() && target == old(target)
      ensures Model() == EndOwn(old(Model()).(health := Degraded), world, own, outcome) && counters == old(counters)
    {
      health := Degraded;
      if own {
        TerminateRecovery(outcome);
      }
    }

    /** One turn of the selection loop: read the block if and only if it is due, with one request. */
    method RefreshBlock(c: Cursor) returns (turn: Turn)
      requires Valid() && c.i < |blocks| && (c.own ==> active.Some?)
      modifies this
      ensures Valid() && target == old(target)
      ensures turn.Restarted? ==> active.Some? && policy.Some? && c.reconnects < policy.value.perAcquisition
      ensures turn.Passed? && c.own ==> active.Some?
      ensures counters.requests
           == old(counters.requests) + (if Due(old(Config()), blocks[c.i], world.at(old(tick))) then 1 else 0)
      ensures Select(old(Model()), world, old(Config()), c) ==
              match turn
              case Passed => Select(Model(), world, old(Config()), c.(i := c.i + 1))
              case Restarted => Select(Model(), world, old(Config()), Again(c, tick))
              case Ended(error) => Failed(Model(), error)
    {
      hide FreshAt, OnFailure, Completed, EndOwn, Due;
      ghost var s := Model();
      var block := blocks[c.i];
      DueExactly(Config(), block, world.at(tick));
      if FreshAt(RequiredIn(required, block), world.at(tick), target) {
        tick := tick + 1;
        return Passed;
      }
      var requestedAt, reply := world.at(tick + 1).now, world.read(tick + 1, block);
      counters := counters.(requests := counters.requests + 1);
      tick := tick + 2;
      assert Model() == Asked(s);
      match reply
      case Answered =>
        return Passed;
      case ReadCancelled =>
        EndAcquisition(c.own, ReacquisitionCancelled);
        return Ended(CancelledError);
      case ReadRejected =>
        EndAcquisition(c.own, ReacquisitionRejected);
        return Ended(ReadRejectedError);
      case ReadUnclassified =>
        if policy.None? {
          health := Degraded;
        }
        return Ended(if policy.None? then OriginalError else UnclassifiedError);
      case ReadFailed(kind) =>
        if policy.None? {
          health := Degraded;
          return Ended(OriginalError);
        }
        SelectFails(s, world, Config(), c, kind);
        FailureCounted(Model(), world, policy.value, c, kind, block, requestedAt);
        hide Select;
        var result := HandleFailure(policy.value, c, kind, block, requestedAt);
        return if result.Raised? then Ended(result.error) else Restarted;
    }

    /** One pass over the blocks, cut short by a reconnect. */
    method SelectionPass(reconnects: nat, own: bool) returns (turn: Turn)
      requires Valid() && (own ==> active.Some?)
      modifies this
      ensures Valid() && target == old(target)
      ensures turn.Restarted? ==> active.Some? && policy.Some? && reconnects < policy.value.perAcquisition
      ensures turn.Passed? && own ==> active.Some?
      ensures Select(old(Model()), world, old(Config()), Cursor(0, reconnects, own, old(tick))) ==
              match turn
              case Passed => Select(Model(), world, old(Config()), Cursor(|blocks|, reconnects, own, old(tick)))
              case Restarted => Select(Model(), world, old(Config()), Cursor(0, reconnects + 1, true, tick))
              case Ended(error) => Failed(Model(), error)
    {
      hide Select;
      var passStart, i := tick, 0;
      while i < |blocks|
        invariant i <= |blocks|
        invariant Valid() && target == old(target) && (own ==> active.Some?)
        invariant Select(old(Model()), world, old(Config()), Cursor(0, reconnects, own, passStart))
               == Select(Model(), world, old(Config()), Cursor(i, reconnects, own, passStart))
      {
        turn := RefreshBlock(Cursor(i, reconnects, own, passStart));
        if !turn.Passed? {
          return;
        }
        i := i + 1;
      }
      turn := Passed;
    }

    /** Pass after pass over the blocks, starting over after each reconnect. */
    method SelectionLoop() returns (turn: Turn, reconnects: nat, own: bool, ghost start: nat)
      requires Valid()
      modifies this
      ensures Valid() && target == old(target) && !turn.Restarted?
      ensures turn.Passed? ==>
                && (own ==> active.Some?)
                && Acquire(old(Model()), world, old(Config()))
                == Select(Model(), world, old(Config()), Cursor(|blocks|, reconnects, own, start))
      ensures turn.Ended? ==> Acquire(old(Model()), world, old(Config())) == Failed(Model(), turn.error)
    {
      ghost var whole := Acquire(Model(), world, Config());
      hide Select;
      assert whole == Select(Model(), world, Config(), Cursor(0, 0, false, tick));
      hide Acquire;
      reconnects, own, start := 0, false, tick;
      turn := SelectionPass(reconnects, own);
      while turn.Restarted?
        invariant Valid() && target == old(target) && (own && turn.Passed? ==> active.Some?)
        invariant turn.Restarted? ==> active.Some? && policy.Some? && reconnects < policy.value.perAcquisition
        invariant match turn
                  case Restarted => whole
                      == Select(Model(), world, old(Config()), Cursor(0, reconnects + 1, true, tick))
                  case Passed =>
                    whole == Select(Model(), world, old(Config()), Cursor(|blocks|, reconnects, own, start))
                  case Ended(raised) => whole == Failed(Model(), raised)
        decreases if turn.Restarted? then policy.value.perAcquisition - reconnects else 0, turn.Restarted?
      {
        reconnects, own, start := reconnects + 1, true, tick;
        turn := SelectionPass(reconnects, own);
      }
    }

    /** Reads whichever blocks are not fresh, and says what came of it. */
    method RefreshProfile() returns (error: Option<Error>)
      requires Valid()
      modifies this
      ensures Valid() && target == old(target)
      ensures var a := Acquire(old(Model()), world, old(Config()));
              Model() == a.end && error == if a.Failed? then Some(a.error) else None
    {
      hide Select, Acquire, Completed;
      var turn, reconnects, own;
      ghost var start;
      turn, reconnects, own, start := SelectionLoop();
      if turn.Ended? {
        return Some(turn.error);
      }
      SelectCompletes(Model(), world, old(Config()), Cursor(|blocks|, reconnects, own, start));
      ConcludeRefresh(own);
      error := None;
    }

    /**
     * The public refresh, whatever the environment does: bounded reads and dials; the reconnect budget over the whole
     * life so far; and on a normal return no required register older than the final pass allows.
     */
    method AsyncRefreshProfile() returns (error: Option<Error>)
      requires Valid() && Lived()
      modifies this
      ensures Valid() && Lived() && target == old(target) && acquisitions == old(acquisitions) + [old(Config())]
      ensures var reconnects := if policy.Some? then policy.value.perAcquisition else 0;
              && counters.requests <= old(counters.requests) + (reconnects + 1) * |blocks|
              && counters.dials <= old(counters.dials) + reconnects * DialsPer(old(Config()))
      ensures policy.Some? && ClockRuns(world) ==>
                forall lo :: StartsWithin(starts, lo, policy.value.window) <= policy.value.perWindow
      ensures error.None? && StoreGrows(world) && AnswersObserve(world) && target >= 0 && BlocksCover(old(Config())) ==>
                ReturnedFresh(old(tick))
      ensures counters.completed <= counters.successful && counters.successful + counters.failed <= counters.attempts
    {
      hide Acquire, StoreGrows, AnswersObserve, BlocksCover, ClockRuns, StartsWithin, CountersOk, Life;
      ghost var s, e := Model(), Config();
      ghost var before := acquisitions;
      LifeSnoc(world, before, e);
      LifeCounters(world, before);
      AcquisitionCost(s, world, e);
      error := RefreshProfile();
      acquisitions := before + [e];
      PassStartsLater(s, world, e);
      if policy.Some? && ClockRuns(world) {
        forall lo
          ensures StartsWithin(starts, lo, policy.value.window) <= policy.value.perWindow
        {
          RollingBudgetHolds(world, acquisitions, policy.value, lo);
        }
      }
      if error.None? && StoreGrows(world) && AnswersObserve(world) && target >= 0 && BlocksCover(e) {
        NormalReturnIsFresh(s, world, e);
        ghost var a := Acquire(s, world, e);
        assert Model() == a.end && a.Refreshed?;
        assert ObservedSince(required, world.at(tick), world.at(a.passStart).now - target);
      }
      CountersMeaning(Model());
    }

    /** Every required register is observed no earlier than some later point of this refresh less the target. */
    ghost predicate ReturnedFresh(since: nat)
      reads this
    {
      exists passStart: nat :: since <= passStart <= tick
        && ObservedSince(required, world.at(tick), world.at(passStart).now - target)
    }
  }

  lemma LifeSnoc(w: World, acquisitions: seq<Setup>, e: Setup)
    ensures Life(w, acquisitions + [e]) == Acquire(Life(w, acquisitions), w, e).end
  {
    assert (acquisitions + [e])[..|acquisitions|] == acquisitions;
  }

  lemma CountersMeaning(s: Client)
    requires CountersOk(s, false)
    ensures s.n.completed <= s.n.successful && s.n.successful + s.n.failed <= s.n.attempts
  {
  }
}
