/** The hybrid client on top of the session: what the session's own runs guarantee about the client's environment. */
module SessionWorld {
  import opened Options
  import opened SessionProtocol
  import opened SessionSafety
  import opened SessionCounters
  import opened ObservationStore
  import ReadSession
  import BlockPlanner
  import Registers
  import Recovery
  import AcquisitionFreshness

  /** Between two consultations a request for exactly the block was registered and ended in success. */
  ghost predicate AnsweredIn(s: State, t: State, b: BlockPlanner.InputReadBlock, id: nat) {
    && |s.requests| <= id < |t.requests| && t.requests[id].start == b.start && t.requests[id].count == b.count
    && t.requests[id].outcome == Some(Success)
  }

  predicate Steps(trace: nat -> State, during: nat -> seq<Event>, i: nat) {
    trace(i + 1) == Run(trace(i), during(i))
  }

  /** What is accepted after a consultation is stamped no earlier than that consultation's clock. */
  ghost predicate StampedLater(now: int, before: seq<Accepted>, after: seq<Accepted>) {
    forall k :: |before| <= k < |after| ==> after[k].at >= now
  }

  ghost predicate Answers(s: State, t: State, b: BlockPlanner.InputReadBlock) {
    exists id: nat :: AnsweredIn(s, t, b, id)
  }

  predicate Shows(w: Recovery.World, trace: nat -> State, i: nat) {
    w.at(i).observedAt == StoreOf(trace(i).log).observedAt
  }

  /**
   * The environment is a session running: `trace(i)` is its state at consultation `i` and `during(i)` what happens
   * before the next one; its maps are what the client sees, observations are stamped by a clock that does not go back,
   * and a read counts as answered only when it was.
   */
  ghost predicate Mirrors(w: Recovery.World, trace: nat -> State, during: nat -> seq<Event>) {
    && Reachable(trace(0))
    && (forall i: nat :: Steps(trace, during, i))
    && (forall i: nat :: Shows(w, trace, i))
    && (forall i: nat :: ClockNeverBack(trace(i).log))
    && (forall i: nat, j: nat :: i <= j ==> w.at(i).now <= w.at(j).now)
    && (forall i: nat :: StampedLater(w.at(i).now, trace(i).log, trace(i + 1).log))
    && (forall i: nat, b: BlockPlanner.InputReadBlock ::
          w.read(i, b).Answered? ==> Answers(trace(i), trace(i + 1), b))
  }

  lemma {:induction false} RunAppend(s: State, a: seq<Event>, b: seq<Event>)
    ensures Run(s, a + b) == Run(Run(s, a), b)
    decreases |b|
  {
    hide Step;
    if b == [] {
      assert a + b == a;
    } else {
      assert (a + b)[..|a + b| - 1] == a + b[..|b| - 1];
      RunAppend(s, a, b[..|b| - 1]);
    }
  }

  lemma StillReachable(s: State, events: seq<Event>)
    requires Reachable(s)
    ensures Reachable(Run(s, events))
  {
    var past :| s == Run(INITIAL, past);
    RunAppend(INITIAL, past, events);
    hide Run;
    assert Run(s, events) == Run(INITIAL, past + events);
  }

  lemma {:induction false} TraceReachable(w: Recovery.World, trace: nat -> State, during: nat -> seq<Event>, i: nat)
    requires Mirrors(w, trace, during)
    ensures Reachable(trace(i))
  {
    if i > 0 {
      TraceReachable(w, trace, during, i - 1);
      assert Steps(trace, during, i - 1);
      hide Mirrors, Reachable, Run;
      StillReachable(trace(i - 1), during(i - 1));
    }
  }

  lemma LogOnlyGrows(s: State, events: seq<Event>)
    requires Reachable(s)
    ensures var t := Run(s, events); |s.log| <= |t.log| && t.log[..|s.log|] == s.log
  {
    hide Reachable, Run, Inv;
    ReachableInv(s);
    RunKeeps(s, events);
  }

  lemma {:induction false} TraceGrows(w: Recovery.World, trace: nat -> State, during: nat -> seq<Event>, i: nat, j: nat)
    requires Mirrors(w, trace, during) && i <= j
    ensures |trace(i).log| <= |trace(j).log| && trace(j).log[..|trace(i).log|] == trace(i).log
    decreases j
  {
    if i < j {
      assert Steps(trace, during, j - 1);
      hide Mirrors, Run, Reachable;
      TraceGrows(w, trace, during, i, j - 1);
      TraceReachable(w, trace, during, j - 1);
      LogOnlyGrows(trace(j - 1), during(j - 1));
      Longer(trace(i).log, trace(j - 1).log, trace(j).log);
    }
  }

  lemma Longer<T>(a: seq<T>, b: seq<T>, c: seq<T>)
    requires |a| <= |b| <= |c| && b[..|a|] == a && c[..|b|] == b
    ensures c[..|a|] == a
  {
    assert c[..|a|] == c[..|b|][..|a|];
  }

  lemma TimesGrow(w: Recovery.World, trace: nat -> State, during: nat -> seq<Event>, i: nat, j: nat, r: int)
    requires Mirrors(w, trace, during) && i <= j && r in w.at(i).observedAt
    ensures r in w.at(j).observedAt && w.at(i).observedAt[r] <= w.at(j).observedAt[r]
  {
    assert ClockNeverBack(trace(j).log) && Shows(w, trace, i) && Shows(w, trace, j);
    hide Mirrors, StoreOf, ClockNeverBack;
    TraceGrows(w, trace, during, i, j);
    TimesNeverRegress(trace(i).log, trace(j).log, r);
  }

  /** A request that succeeded during the run leaves its registers observed by something accepted during the run. */
  lemma SucceededDuring(s: State, events: seq<Event>, id: nat, r: int)
    requires Reachable(s) && ClockNeverBack(Run(s, events).log)
    requires var t := Run(s, events);
             |s.requests| <= id < |t.requests| && t.requests[id].outcome == Some(Success)
             && t.requests[id].start <= r < t.requests[id].start + t.requests[id].count
    ensures var t := Run(s, events); var shown := StoreOf(t.log).observedAt;
            r in shown && exists k :: |s.log| <= k < |t.log| && t.log[k].at <= shown[r]
  {
    StillReachable(s, events);
    hide Reachable, Run, Inv, StoreOf, ClockNeverBack;
    var t := Run(s, events);
    ReachableInv(s);
    FiledDuring(s, events);
    ReadSession.SuccessObserves(t, id, r);
    var k :| t.requests[id].registeredAt <= k < |t.log| && t.log[k].at <= StoreOf(t.log).observedAt[r];
    assert |s.log| <= k;
  }

  lemma AnswerObserved(w: Recovery.World, trace: nat -> State, during: nat -> seq<Event>, i: nat,
                       b: BlockPlanner.InputReadBlock, r: int)
    requires Mirrors(w, trace, during) && w.read(i, b).Answered? && b.Contains(r)
    ensures r in w.at(i + 1).observedAt && w.at(i + 1).observedAt[r] >= w.at(i).now
  {
    assert Steps(trace, during, i) && Shows(w, trace, i + 1);
    assert StampedLater(w.at(i).now, trace(i).log, trace(i + 1).log);
    assert ClockNeverBack(trace(i + 1).log) && Answers(trace(i), trace(i + 1), b);
    hide Mirrors, Run, Reachable, StoreOf, ClockNeverBack;
    TraceReachable(w, trace, during, i);
    var id: nat :| AnsweredIn(trace(i), trace(i + 1), b, id);
    SucceededDuring(trace(i), during(i), id, r);
  }

  /** The session keeps what the acquisition guarantee asks of the environment. */
  lemma SessionAnswersReads(w: Recovery.World, trace: nat -> State, during: nat -> seq<Event>)
    requires Mirrors(w, trace, during)
    ensures AcquisitionFreshness.StoreGrows(w) && AcquisitionFreshness.AnswersObserve(w)
  {
    assert forall i: nat, j: nat :: i <= j ==> w.at(i).now <= w.at(j).now;
    hide Mirrors;
    forall i: nat, j: nat, r: int | i <= j && r in w.at(i).observedAt
      ensures r in w.at(j).observedAt && w.at(i).observedAt[r] <= w.at(j).observedAt[r]
    {
      TimesGrow(w, trace, during, i, j, r);
    }
    forall i: nat, b: BlockPlanner.InputReadBlock, r: int | w.read(i, b).Answered? && b.Contains(r)
      ensures r in w.at(i + 1).observedAt && w.at(i + 1).observedAt[r] >= w.at(i).now
    {
      AnswerObserved(w, trace, during, i, b, r);
    }
  }

  /**
   * Client and session together: whatever the session goes through, when a refresh of a planned profile returns
   * normally, every required register is observed no earlier than the start of the final pass less the target.
   */
  lemma RefreshOverSession(s: Recovery.Client, w: Recovery.World, e: Recovery.Setup,
                           trace: nat -> State, during: nat -> seq<Event>)
    requires Mirrors(w, trace, during) && e.target >= 0
    requires BlockPlanner.PlanAlignedInputBlocks(e.required, Registers.HARDWARE_READ_BLOCK_SIZE)
          == BlockPlanner.Planned(e.blocks)
    ensures var a := Recovery.Acquire(s, w, e);
            a.Refreshed? ==>
              && (forall r :: r in e.required ==>
                    r in StoreOf(trace(a.end.tick).log).observedAt
                    && StoreOf(trace(a.end.tick).log).observedAt[r] >= w.at(a.passStart).now - e.target)
  {
    var a := Recovery.Acquire(s, w, e);
    assert Shows(w, trace, a.end.tick);
    hide Mirrors, StoreOf, Recovery.Acquire, BlockPlanner.PlanAlignedInputBlocks, AcquisitionFreshness.StoreGrows,
         AcquisitionFreshness.AnswersObserve, AcquisitionFreshness.BlocksCover;
    SessionAnswersReads(w, trace, during);
    AcquisitionFreshness.PlannedBlocksCover(e);
    AcquisitionFreshness.NormalReturnIsFresh(s, w, e);
  }
}
