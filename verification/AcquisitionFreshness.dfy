/** What a normal return of a profile refresh guarantees about the age of every required register. */
module AcquisitionFreshness {
  import opened BlockPlanner
  import opened Registers
  import opened Recovery
  import opened RecoveryLedger

  /** Wall clock and observation times never go back, and registers stay observed. */
  ghost predicate StoreGrows(w: World) {
    && (forall i: nat, j: nat :: i <= j ==> w.at(i).now <= w.at(j).now)
    && (forall i: nat, j: nat, r: int :: i <= j && r in w.at(i).observedAt ==>
          r in w.at(j).observedAt && w.at(i).observedAt[r] <= w.at(j).observedAt[r])
  }

  /** An answered read leaves every register of its block observed no earlier than it was requested. */
  ghost predicate AnswersObserve(w: World) {
    forall i: nat, b: InputReadBlock, r: int :: w.read(i, b).Answered? && b.Contains(r) ==>
      r in w.at(i + 1).observedAt && w.at(i + 1).observedAt[r] >= w.at(i).now
  }

  /** Observed at this consultation, no earlier than `since`. */
  ghost predicate ObservedSince(required: set<int>, m: Moment, since: int) {
    forall r :: r in required ==> r in m.observedAt && m.observedAt[r] >= since
  }

  /** The blocks the selection pass has been through have no register older than it allows. */
  ghost predicate PassedOver(e: Setup, i: nat, m: Moment, since: int) {
    forall k :: 0 <= k < i && k < |e.blocks| ==> ObservedSince(RequiredIn(e.required, e.blocks[k]), m, since)
  }

  ghost predicate PassOk(s: Client, w: World, e: Setup, c: Cursor) {
    c.passStart <= s.tick && PassedOver(e, c.i, w.at(s.tick), w.at(c.passStart).now - e.target)
  }

  lemma StaysObserved(w: World, required: set<int>, i: nat, j: nat, since: int)
    requires StoreGrows(w) && i <= j && ObservedSince(required, w.at(i), since)
    ensures ObservedSince(required, w.at(j), since)
  {
  }

  /** Passing one more block, observed at the later consultation. */
  lemma PassesBlock(s: Client, u: Client, w: World, e: Setup, c: Cursor)
    requires StoreGrows(w) && PassOk(s, w, e, c) && u.tick >= s.tick && c.i < |e.blocks|
    requires ObservedSince(RequiredIn(e.required, e.blocks[c.i]), w.at(u.tick), w.at(c.passStart).now - e.target)
    ensures PassOk(u, w, e, c.(i := c.i + 1))
  {
    var since := w.at(c.passStart).now - e.target;
    hide StoreGrows, ObservedSince;
    forall k | 0 <= k < c.i
      ensures ObservedSince(RequiredIn(e.required, e.blocks[k]), w.at(u.tick), since)
    {
      StaysObserved(w, RequiredIn(e.required, e.blocks[k]), s.tick, u.tick, since);
    }
  }

  lemma FreshBlockPasses(s: Client, w: World, e: Setup, c: Cursor)
    requires StoreGrows(w) && PassOk(s, w, e, c) && c.i < |e.blocks|
    requires FreshAt(RequiredIn(e.required, e.blocks[c.i]), w.at(s.tick), e.target)
    ensures PassOk(Ticked(s, 1), w, e, c.(i := c.i + 1))
  {
    var required := RequiredIn(e.required, e.blocks[c.i]);
    var since := w.at(c.passStart).now - e.target;
    assert w.at(c.passStart).now <= w.at(s.tick).now;
    assert ObservedSince(required, w.at(s.tick), since);
    hide RequiredIn, PassOk, FreshAt;
    StaysObserved(w, required, s.tick, s.tick + 1, since);
    PassesBlock(s, Ticked(s, 1), w, e, c);
  }

  lemma AnsweredBlockPasses(s: Client, w: World, e: Setup, c: Cursor)
    requires StoreGrows(w) && AnswersObserve(w) && PassOk(s, w, e, c) && c.i < |e.blocks| && e.target >= 0
    requires w.read(s.tick + 1, e.blocks[c.i]).Answered?
    ensures PassOk(Asked(s), w, e, c.(i := c.i + 1))
  {
    var required := RequiredIn(e.required, e.blocks[c.i]);
    var since := w.at(c.passStart).now - e.target;
    assert w.at(c.passStart).now <= w.at(s.tick + 1).now;
    forall r | r in required
      ensures r in w.at(s.tick + 2).observedAt && w.at(s.tick + 2).observedAt[r] >= since
    {
      assert e.blocks[c.i].Contains(r);
      assert w.read(s.tick + 1, e.blocks[c.i]).Answered?;
    }
    hide AnswersObserve, RequiredIn, PassOk;
    PassesBlock(s, Asked(s), w, e, c);
  }

  ghost predicate ReturnOk(a: Acquisition, w: World, e: Setup) {
    a.Refreshed? ==>
      && a.passStart <= a.end.tick
      && PassedOver(e, |e.blocks|, w.at(a.end.tick), w.at(a.passStart).now - e.target)
  }

  lemma CompletedOk(s: Client, w: World, e: Setup, c: Cursor)
    requires (c.own ==> s.active.Some?) && StoreGrows(w) && PassOk(s, w, e, c) && c.i >= |e.blocks|
    ensures ReturnOk(Completed(s, w, e, c), w, e)
  {
    var since := w.at(c.passStart).now - e.target;
    assert Completed(s, w, e, c).end.tick == s.tick + 1;
    hide Completed, StoreGrows, ObservedSince;
    forall k | 0 <= k < |e.blocks|
      ensures ObservedSince(RequiredIn(e.required, e.blocks[k]), w.at(s.tick + 1), since)
    {
      StaysObserved(w, RequiredIn(e.required, e.blocks[k]), s.tick, s.tick + 1, since);
    }
  }

  lemma {:induction false} SelectReturns(s: Client, w: World, e: Setup, c: Cursor)
    requires (c.own ==> s.active.Some?) && StoreGrows(w) && AnswersObserve(w) && e.target >= 0
    requires PassOk(s, w, e, c)
    ensures ReturnOk(Select(s, w, e, c), w, e)
    decreases Allowance(e, c), |e.blocks| - c.i
  {
    hide StoreGrows, AnswersObserve, OnFailure, FreshAt, Completed, PassedOver;
    if c.i >= |e.blocks| {
      CompletedOk(s, w, e, c);
      return;
    }
    var block := e.blocks[c.i];
    if FreshAt(RequiredIn(e.required, block), w.at(s.tick), e.target) {
      FreshBlockPasses(s, w, e, c);
      SelectReturns(Ticked(s, 1), w, e, c.(i := c.i + 1));
    } else if w.read(s.tick + 1, block).Answered? {
      AnsweredBlockPasses(s, w, e, c);
      SelectReturns(Asked(s), w, e, c.(i := c.i + 1));
    } else if w.read(s.tick + 1, block).ReadFailed? && e.policy.Some? {
      var kind := w.read(s.tick + 1, block).kind;
      SelectFails(s, w, e, c, kind);
      var r := OnFailure(Asked(s), w, e.policy.value, c, kind, block, w.at(s.tick + 1).now);
      if r.1.Reconnected? {
        assert PassOk(r.0, w, e, Again(c, r.0.tick)) by {
          NothingPassedYet(e, w.at(r.0.tick), w.at(r.0.tick).now - e.target);
        }
        SelectReturns(r.0, w, e, Again(c, r.0.tick));
      }
    }
  }

  lemma NothingPassedYet(e: Setup, m: Moment, since: int)
    ensures PassedOver(e, 0, m, since)
  {
  }

  ghost predicate BlocksCover(e: Setup) {
    forall r :: r in e.required ==> exists k :: 0 <= k < |e.blocks| && e.blocks[k].Contains(r)
  }

  /**
   * Whatever failed on the way: if the refresh returns normally, every required register has an observation no
   * older than the start of the final selection pass less the freshness target.
   */
  lemma NormalReturnIsFresh(s: Client, w: World, e: Setup)
    requires StoreGrows(w) && AnswersObserve(w) && e.target >= 0 && BlocksCover(e)
    ensures var a := Acquire(s, w, e);
            a.Refreshed? ==>
              ObservedSince(e.required, w.at(a.end.tick), w.at(a.passStart).now - e.target)
  {
    NothingPassedYet(e, w.at(s.tick), w.at(s.tick).now - e.target);
    SelectReturns(s, w, e, Cursor(0, 0, false, s.tick));
    var a := Acquire(s, w, e);
    hide Select, Acquire, StoreGrows, AnswersObserve;
    if a.Refreshed? {
      var m, since := w.at(a.end.tick), w.at(a.passStart).now - e.target;
      forall r | r in e.required
        ensures r in m.observedAt && m.observedAt[r] >= since
      {
        var k :| 0 <= k < |e.blocks| && e.blocks[k].Contains(r);
        assert ObservedSince(RequiredIn(e.required, e.blocks[k]), m, since);
        assert r in RequiredIn(e.required, e.blocks[k]);
      }
    }
  }

  /** The planned blocks of a profile cover its registers, so the guarantee holds for every profile. */
  lemma PlannedBlocksCover(e: Setup)
    requires PlanAlignedInputBlocks(e.required, HARDWARE_READ_BLOCK_SIZE) == Planned(e.blocks)
    ensures BlocksCover(e)
  {
    PlanCovers(e.required, HARDWARE_READ_BLOCK_SIZE);
    hide PlanAlignedInputBlocks;
    forall r | r in e.required
      ensures exists k :: 0 <= k < |e.blocks| && e.blocks[k].Contains(r)
    {
      var i :| OnlyBlockWith(e.blocks, r, i);
    }
  }

  /** Health is never overstated: `healthy` after a normal return means every block was fresh when it was decided. */
  lemma HealthyExactly(s: Client, w: World, e: Setup)
    ensures var a := Acquire(s, w, e);
            a.Refreshed? ==>
              && a.end.tick > 0
              && (a.end.health.Healthy? <==> ProfileFresh(e, w.at(a.end.tick - 1)))
  {
    SelectHealth(s, w, e, Cursor(0, 0, false, s.tick));
  }

  lemma {:induction false} SelectHealth(s: Client, w: World, e: Setup, c: Cursor)
    requires c.own ==> s.active.Some?
    ensures var a := Select(s, w, e, c);
            a.Refreshed? ==>
              && a.end.tick > 0
              && (a.end.health.Healthy? <==> ProfileFresh(e, w.at(a.end.tick - 1)))
    decreases Allowance(e, c), |e.blocks| - c.i
  {
    hide OnFailure, FreshAt, ProfileFresh;
    if c.i < |e.blocks| {
      var block := e.blocks[c.i];
      if FreshAt(RequiredIn(e.required, block), w.at(s.tick), e.target) {
        SelectHealth(Ticked(s, 1), w, e, c.(i := c.i + 1));
      } else if w.read(s.tick + 1, block).Answered? {
        SelectHealth(Asked(s), w, e, c.(i := c.i + 1));
      } else if w.read(s.tick + 1, block).ReadFailed? && e.policy.Some? {
        var kind := w.read(s.tick + 1, block).kind;
        SelectFails(s, w, e, c, kind);
        var r := OnFailure(Asked(s), w, e.policy.value, c, kind, block, w.at(s.tick + 1).now);
        if r.1.Reconnected? {
          SelectHealth(r.0, w, e, Again(c, r.0.tick));
        }
      }
    }
  }

  /** The final pass begins during the acquisition. */
  lemma PassStartsLater(s: Client, w: World, e: Setup)
    ensures var a := Acquire(s, w, e); a.Refreshed? ==> s.tick <= a.passStart <= a.end.tick
  {
    SelectPassStart(s, w, e, Cursor(0, 0, false, s.tick));
  }

  lemma FailureMovesOn(s: Client, w: World, p: Policy, c: Cursor, kind: FailureKind, block: InputReadBlock, at: int)
    requires c.own ==> s.active.Some?
    ensures OnFailure(s, w, p, c, kind, block, at).0.tick >= s.tick
  {
    var counted := s.(n := CountFailure(s.n, kind));
    RecoverKeeps(counted, w, p, kind, block, at);
    hide Recover, Prune;
  }

  lemma {:induction false} SelectPassStart(s: Client, w: World, e: Setup, c: Cursor)
    requires (c.own ==> s.active.Some?) && c.passStart <= s.tick
    ensures var a := Select(s, w, e, c); a.Refreshed? ==> c.passStart <= a.passStart <= a.end.tick
    decreases Allowance(e, c), |e.blocks| - c.i
  {
    hide OnFailure, FreshAt, ProfileFresh, RequiredIn;
    if c.i < |e.blocks| {
      var block := e.blocks[c.i];
      if FreshAt(RequiredIn(e.required, block), w.at(s.tick), e.target) {
        SelectPassStart(Ticked(s, 1), w, e, c.(i := c.i + 1));
      } else if w.read(s.tick + 1, block).Answered? {
        SelectPassStart(Asked(s), w, e, c.(i := c.i + 1));
      } else if w.read(s.tick + 1, block).ReadFailed? && e.policy.Some? {
        var kind := w.read(s.tick + 1, block).kind;
        SelectFails(s, w, e, c, kind);
        var r := OnFailure(Asked(s), w, e.policy.value, c, kind, block, w.at(s.tick + 1).now);
        if r.1.Reconnected? {
          FailureMovesOn(Asked(s), w, e.policy.value, c, kind, block, w.at(s.tick + 1).now);
          SelectPassStart(r.0, w, e, Again(c, r.0.tick));
        }
      }
    }
  }
}
