/** The rolling reconnect budget, decided on a pruned deque, holds for every window of the client's whole life. */
module RollingWindow {
  import opened Options
  import opened BlockPlanner
  import opened Recovery
  import opened RecoveryLedger

  ghost predicate ClockRuns(w: World) {
    forall i: nat, j: nat :: i <= j ==> w.at(i).monotonic <= w.at(j).monotonic
  }

  function Clocks(starts: seq<Start>): seq<int> {
    seq(|starts|, i requires 0 <= i < |starts| => starts[i].monotonic)
  }

  ghost predicate NonDecreasing(t: seq<int>) {
    forall i, j :: 0 <= i < j < |t| ==> t[i] <= t[j]
  }

  /** Any `max` + 1 starts in a row take longer than the window. */
  ghost predicate Spaced(t: seq<int>, max: nat, window: int) {
    forall i, j :: 0 <= i && j == i + max && j < |t| ==> t[j] - t[i] > window
  }

  /** The deque is the newest part of all starts; those before it have left every window that can still come. */
  ghost predicate Budgeted(times: seq<int>, t: seq<int>, now: int, max: nat, window: int) {
    && |times| <= |t| && times == t[|t| - |times|..]
    && NonDecreasing(t) && (forall i :: 0 <= i < |t| ==> t[i] <= now)
    && (forall i :: 0 <= i < |t| - |times| ==> t[i] < now - window)
    && Spaced(t, max, window)
  }

  lemma BudgetedLater(times: seq<int>, t: seq<int>, now: int, later: int, max: nat, window: int)
    requires Budgeted(times, t, now, max, window) && now <= later
    ensures Budgeted(times, t, later, max, window)
  {
  }

  lemma {:induction false} PruneDropsOld(times: seq<int>, cutoff: int)
    ensures var kept := Prune(times, cutoff);
            |kept| <= |times| && kept == times[|times| - |kept|..]
            && forall i :: 0 <= i < |times| - |kept| ==> times[i] < cutoff
  {
    if times != [] && times[0] < cutoff {
      PruneDropsOld(times[1..], cutoff);
      var kept := Prune(times, cutoff);
      forall i | 0 <= i < |times| - |kept|
        ensures times[i] < cutoff
      {
        if i > 0 {
          assert times[i] == times[1..][i - 1];
        }
      }
    }
  }

  lemma PruneBudgeted(times: seq<int>, t: seq<int>, now: int, max: nat, window: int)
    requires Budgeted(times, t, now, max, window)
    ensures Budgeted(Prune(times, now - window), t, now, max, window)
  {
    PruneDropsOld(times, now - window);
    var kept := Prune(times, now - window);
    hide Prune;
    var first := |t| - |times|;
    forall i | first <= i < |t| - |kept|
      ensures t[i] < now - window
    {
      assert t[i] == times[i - first];
    }
    assert kept == t[|t| - |kept|..];
  }

  lemma StartBudgeted(times: seq<int>, t: seq<int>, now: int, max: nat, window: int)
    requires Budgeted(times, t, now, max, window) && |times| < max
    ensures Budgeted(times + [now], t + [now], now, max, window)
  {
    var u := t + [now];
    forall i, j | 0 <= i && j == i + max && j < |u|
      ensures u[j] - u[i] > window
    {
      if j == |t| {
        assert t[i] < now - window;
      }
    }
  }

  ghost predicate BudgetKept(s: Client, w: World, p: Policy) {
    Budgeted(s.times, Clocks(s.starts), w.at(s.tick).monotonic, p.perWindow, p.window)
  }

  lemma BudgetKeptOn(s: Client, u: Client, w: World, p: Policy)
    requires BudgetKept(s, w, p) && ClockRuns(w)
    requires u.times == s.times && u.starts == s.starts && u.tick >= s.tick
    ensures BudgetKept(u, w, p)
  {
    BudgetedLater(s.times, Clocks(s.starts), w.at(s.tick).monotonic, w.at(u.tick).monotonic, p.perWindow, p.window);
  }

  lemma RecoverBudget(s: Client, t: Client, r: Recovered, w: World, p: Policy)
    requires RecoverEffect(s, t, r, w, p) && BudgetKept(s, w, p) && ClockRuns(w)
    ensures BudgetKept(t, w, p) && t.tick >= s.tick
  {
    var m := w.at(s.tick);
    var kept := Prune(s.times, m.monotonic - p.window);
    PruneBudgeted(s.times, Clocks(s.starts), m.monotonic, p.perWindow, p.window);
    hide Prune, Budgeted, Clocks, ClockRuns;
    if |kept| >= p.perWindow {
      BudgetKeptOn(s.(times := kept), t, w, p);
    } else {
      var a :| BegunAt(a, m, kept, p) && DialEffect(Begun(s, m, kept, a), t, r, p.dialsPerReconnect);
      var b := Begun(s, m, kept, a);
      BegunBudget(s, kept, w, p, a);
      assert t.times == b.times && t.starts == b.starts && t.tick >= b.tick >= s.tick;
      hide BudgetKept;
      BudgetKeptOn(b.(tick := s.tick), t, w, p);
    }
  }

  lemma BegunBudget(s: Client, kept: seq<int>, w: World, p: Policy, a: ActiveRecovery)
    requires Budgeted(kept, Clocks(s.starts), w.at(s.tick).monotonic, p.perWindow, p.window) && |kept| < p.perWindow
    requires a.started == w.at(s.tick).monotonic
    ensures BudgetKept(Begun(s, w.at(s.tick), kept, a).(tick := s.tick), w, p)
  {
    var m := w.at(s.tick);
    assert Clocks(Begun(s, m, kept, a).starts) == Clocks(s.starts) + [m.monotonic];
    hide Budgeted, Clocks;
    StartBudgeted(kept, Clocks(s.starts), m.monotonic, p.perWindow, p.window);
  }

  lemma OnFailureBudget(s: Client, w: World, p: Policy, c: Cursor, kind: FailureKind, block: InputReadBlock, at: int)
    requires (c.own ==> s.active.Some?) && BudgetKept(s, w, p) && ClockRuns(w)
    ensures BudgetKept(OnFailure(s, w, p, c, kind, block, at).0, w, p)
  {
    var counted := s.(n := CountFailure(s.n, kind));
    var r := OnFailure(s, w, p, c, kind, block, at);
    hide BudgetKept, Recover, RecoverEffect, CountFailure;
    if (c.own && w.at(s.tick).shutdown && kind.SessionClosed?) || c.reconnects >= p.perAcquisition {
      BudgetKeptOn(s, r.0, w, p);
    } else {
      BudgetKeptOn(s, counted, w, p);
      RecoverKeeps(counted, w, p, kind, block, at);
      RecoverBudget(counted, r.0, r.1, w, p);
    }
  }

  lemma {:induction false} SelectBudget(s: Client, w: World, e: Setup, c: Cursor, p: Policy)
    requires (c.own ==> s.active.Some?) && (e.policy.None? || e.policy == Some(p))
    requires BudgetKept(s, w, p) && ClockRuns(w)
    ensures BudgetKept(Select(s, w, e, c).end, w, p)
    decreases Allowance(e, c), |e.blocks| - c.i, 1
  {
    hide BudgetKept, ClockRuns, OnFailure, FreshAt, ProfileFresh;
    var end := Select(s, w, e, c).end;
    if c.i >= |e.blocks| {
      BudgetKeptOn(s, end, w, p);
      return;
    }
    var block := e.blocks[c.i];
    var next := c.(i := c.i + 1);
    var done := Asked(s);
    if FreshAt(RequiredIn(e.required, block), w.at(s.tick), e.target) {
      BudgetKeptOn(s, Ticked(s, 1), w, p);
      SelectBudget(Ticked(s, 1), w, e, next, p);
    } else if w.read(s.tick + 1, block).Answered? {
      BudgetKeptOn(s, done, w, p);
      SelectBudget(done, w, e, next, p);
    } else if w.read(s.tick + 1, block).ReadFailed? && e.policy.Some? {
      FailedReadBudget(s, w, e, c, p, w.read(s.tick + 1, block).kind);
    } else {
      BudgetKeptOn(s, end, w, p);
    }
  }

  lemma FailedReadBudget(s: Client, w: World, e: Setup, c: Cursor, p: Policy, kind: FailureKind)
    requires (c.own ==> s.active.Some?) && e.policy == Some(p) && c.i < |e.blocks|
    requires BudgetKept(s, w, p) && ClockRuns(w)
    requires !FreshAt(RequiredIn(e.required, e.blocks[c.i]), w.at(s.tick), e.target)
    requires w.read(s.tick + 1, e.blocks[c.i]) == ReadFailed(kind)
    ensures BudgetKept(Select(s, w, e, c).end, w, p)
    decreases Allowance(e, c), |e.blocks| - c.i, 0
  {
    SelectFails(s, w, e, c, kind);
    hide BudgetKept, ClockRuns, OnFailure, FreshAt, Select;
    var done := Asked(s);
    BudgetKeptOn(s, done, w, p);
    OnFailureBudget(done, w, p, c, kind, e.blocks[c.i], w.at(s.tick + 1).now);
    var r := OnFailure(done, w, p, c, kind, e.blocks[c.i], w.at(s.tick + 1).now);
    if r.1.Reconnected? {
      SelectBudget(r.0, w, e, Again(c, r.0.tick), p);
    }
  }

  /** Every acquisition of the life runs under this policy, or under none. */
  ghost predicate Under(acquisitions: seq<Setup>, p: Policy) {
    forall i :: 0 <= i < |acquisitions| ==> acquisitions[i].policy.None? || acquisitions[i].policy == Some(p)
  }

  lemma {:induction false} LifeBudget(w: World, acquisitions: seq<Setup>, p: Policy)
    requires ClockRuns(w) && Under(acquisitions, p)
    ensures BudgetKept(Life(w, acquisitions), w, p)
  {
    if acquisitions != [] {
      var before := acquisitions[..|acquisitions| - 1];
      LifeBudget(w, before, p);
      var e := acquisitions[|acquisitions| - 1];
      var s := Life(w, before);
      SelectBudget(s, w, e, Cursor(0, 0, false, s.tick), p);
    }
  }

  // ---------- what the spacing means ----------

  function CountWithin(t: seq<int>, lo: int, hi: int): nat {
    if t == [] then 0
    else CountWithin(t[..|t| - 1], lo, hi) + One(lo <= t[|t| - 1] <= hi)
  }

  lemma {:induction false} CountAtMostLength(t: seq<int>, k: nat, lo: int, hi: int)
    requires k <= |t| && forall i :: 0 <= i < k ==> t[i] < lo
    ensures CountWithin(t, lo, hi) <= |t| - k
  {
    if |t| > k {
      CountAtMostLength(t[..|t| - 1], k, lo, hi);
    } else if t != [] {
      CountAtMostLength(t[..|t| - 1], k - 1, lo, hi);
    }
  }

  lemma {:induction false} SpacedCount(t: seq<int>, max: nat, window: int, lo: int)
    requires NonDecreasing(t) && Spaced(t, max, window)
    ensures CountWithin(t, lo, lo + window) <= max
    decreases |t|
  {
    if |t| > max {
      var last := t[|t| - 1];
      if lo <= last <= lo + window {
        var k := |t| - max;
        forall i | 0 <= i < k
          ensures t[i] < lo
        {
          assert t[i] <= t[k - 1] && t[|t| - 1] - t[k - 1] > window;
        }
        CountAtMostLength(t, k, lo, lo + window);
      } else {
        SpacedCount(t[..|t| - 1], max, window, lo);
      }
    } else {
      CountAtMostLength(t, 0, lo, lo + window);
    }
  }

  /** Reconnect starts in the closed window that begins at `lo`. */
  function StartsWithin(starts: seq<Start>, lo: int, window: int): nat {
    CountWithin(Clocks(starts), lo, lo + window)
  }

  /**
   * Over a client's whole life, with a monotonic clock, every closed window of `rolling_window_seconds`
   * holds at most `max_reconnects_per_window` reconnect starts.
   */
  lemma RollingBudgetHolds(w: World, acquisitions: seq<Setup>, p: Policy, lo: int)
    requires ClockRuns(w) && Under(acquisitions, p)
    ensures StartsWithin(Life(w, acquisitions).starts, lo, p.window) <= p.perWindow
  {
    LifeBudget(w, acquisitions, p);
    SpacedCount(Clocks(Life(w, acquisitions).starts), p.perWindow, p.window, lo);
  }

  /** The budget also refuses only when it must: a refusal means the window before it is already full. */
  lemma RefusedOnlyWhenFull(s: Client, w: World, p: Policy, kind: FailureKind, block: InputReadBlock, at: int)
    requires BudgetKept(s, w, p) && ClockRuns(w)
    ensures var now := w.at(s.tick).monotonic;
            Recover(s, w, p, kind, block, at).1 == Raised(RecoveryExhaustedError) <==>
              CountWithin(Clocks(s.starts), now - p.window, now) >= p.perWindow
  {
    var now := w.at(s.tick).monotonic;
    RecoverKeeps(s, w, p, kind, block, at);
    PruneBudgeted(s.times, Clocks(s.starts), now, p.perWindow, p.window);
    KeptIsWindow(s.times, Clocks(s.starts), now, p.window, p.perWindow);
    hide Recover, Prune, Budgeted, CountWithin, Clocks;
  }

  /** A reconnect cools down only initially exactly when the closed window before it holds no other start. */
  lemma CooldownExactly(s: Client, w: World, p: Policy, kind: FailureKind, block: InputReadBlock, at: int)
    requires BudgetKept(s, w, p) && ClockRuns(w)
    ensures var now := w.at(s.tick).monotonic;
            var starts := Recover(s, w, p, kind, block, at).0.starts;
            CountWithin(Clocks(s.starts), now - p.window, now) < p.perWindow ==>
              && |starts| == |s.starts| + 1 && starts[|s.starts|].monotonic == now
              && starts[|s.starts|].cooldown
                 == if CountWithin(Clocks(s.starts), now - p.window, now) == 0 then p.initialCooldown
                    else p.repeatedCooldown
  {
    var now := w.at(s.tick).monotonic;
    RecoverKeeps(s, w, p, kind, block, at);
    PruneBudgeted(s.times, Clocks(s.starts), now, p.perWindow, p.window);
    KeptIsWindow(s.times, Clocks(s.starts), now, p.window, p.perWindow);
    hide Recover, Prune, Budgeted, CountWithin, Clocks;
  }

  lemma {:induction false} PruneKeepsFresh(times: seq<int>, cutoff: int)
    ensures Prune(times, cutoff) == [] || Prune(times, cutoff)[0] >= cutoff
  {
    if times != [] && times[0] < cutoff {
      PruneKeepsFresh(times[1..], cutoff);
    }
  }

  lemma KeptIsWindow(times: seq<int>, t: seq<int>, now: int, window: int, max: nat)
    requires Budgeted(times, t, now, max, window)
    ensures CountWithin(t, now - window, now) == |Prune(times, now - window)|
  {
    var kept := Prune(times, now - window);
    PruneBudgeted(times, t, now, max, window);
    PruneKeepsFresh(times, now - window);
    hide Prune;
    var k := |t| - |kept|;
    forall i | k <= i < |t|
      ensures now - window <= t[i]
    {
      assert t[k] == kept[0] && t[k] <= t[i];
    }
    CountExactly(t, k, now - window, now);
  }

  lemma {:induction false} CountExactly(t: seq<int>, k: nat, lo: int, hi: int)
    requires k <= |t| && (forall i :: 0 <= i < k ==> t[i] < lo) && (forall i :: k <= i < |t| ==> lo <= t[i] <= hi)
    ensures CountWithin(t, lo, hi) == |t| - k
  {
    if |t| > k {
      CountExactly(t[..|t| - 1], k, lo, hi);
    } else if t != [] {
      CountExactly(t[..|t| - 1], k - 1, lo, hi);
    }
  }
}
