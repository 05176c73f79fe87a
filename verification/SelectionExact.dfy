/** Which blocks a refresh made, what it counts, and how it leaves the client, in terms of ages and replies alone. */
module SelectionExact {
  import opened Options
  import opened AcquisitionHealth
  import opened BlockPlanner
  import opened Recovery
  import opened RecoveryLedger
  import opened AcquisitionFreshness
  import DialOutcomes

  /** `r` is required and lies in the block. */
  predicate Wanted(e: Setup, block: InputReadBlock, r: int) {
    r in e.required && block.start <= r < block.start + block.count
  }

  /** Never observed, or longer ago than the target allows. */
  predicate TooOld(m: Moment, target: int, r: int) {
    r !in m.observedAt || m.now - m.observedAt[r] > target
  }

  /** The block has no required register, or one that is missing or too old at this consultation. */
  ghost predicate Due(e: Setup, block: InputReadBlock, m: Moment) {
    (forall r :: !Wanted(e, block, r)) || exists r :: Wanted(e, block, r) && TooOld(m, e.target, r)
  }

  lemma DueExactly(e: Setup, block: InputReadBlock, m: Moment)
    ensures FreshAt(RequiredIn(e.required, block), m, e.target) <==> !Due(e, block, m)
  {
    var required := RequiredIn(e.required, block);
    assert forall r :: r in required <==> Wanted(e, block, r);
    if required != {} {
      var some := Member(required);
      assert Wanted(e, block, some);
    }
  }

  // ---------- the reads of a selection ----------

  /** The consultation at which a block was read. */
  datatype Read = Read(tick: nat, block: InputReadBlock)

  /** What selection reads from a cursor on: due blocks, in order, from the start again after each reconnect. */
  ghost function Reads(s: Client, w: World, e: Setup, c: Cursor): seq<Read>
    requires c.own ==> s.active.Some?
    decreases Allowance(e, c), |e.blocks| - c.i
  {
    if c.i >= |e.blocks| then []
    else
      var block, next := e.blocks[c.i], c.(i := c.i + 1);
      if !Due(e, block, w.at(s.tick)) then Reads(Ticked(s, 1), w, e, next)
      else
        var done := Asked(s);
        var reply := w.read(s.tick + 1, block);
        [Read(s.tick + 1, block)]
        + (if reply.Answered? then Reads(done, w, e, next)
           else if reply.ReadFailed? && e.policy.Some? then
             var p, at := e.policy.value, w.at(s.tick + 1).now;
             OnFailureLeavesActive(done, w, p, c, reply.kind, block, at);
             var r := OnFailure(done, w, p, c, reply.kind, block, at);
             if r.1.Raised? then [] else Reads(r.0, w, e, Again(c, r.0.tick))
           else [])
  }

  /** How many of these reads failed in this way. */
  ghost function FailedReads(made: seq<Read>, w: World, kind: FailureKind): nat {
    if made == [] then 0
    else (if w.read(made[0].tick, made[0].block) == ReadFailed(kind) then 1 else 0)
         + FailedReads(made[1..], w, kind)
  }

  /** What the reads and failed dials in between have added to the counters. */
  ghost predicate CountedFor(s: Client, t: Client, w: World, e: Setup, made: seq<Read>) {
    && t.n.requests == s.n.requests + |made|
    && (e.policy.Some? ==>
          && t.n.timeouts == s.n.timeouts + FailedReads(made, w, RequestTimeout)
          && t.n.losses == s.n.losses + FailedReads(made, w, ConnectionLost)
          && t.n.ambiguous == s.n.ambiguous + FailedReads(made, w, AmbiguousRequest)
          && t.n.establishments - t.n.failedDials
          == s.n.establishments - s.n.failedDials + FailedReads(made, w, ConnectionEstablishment))
  }

  /** A failure counts once by its kind; a reconnect counts further only what its dials do. */
  lemma FailureCounted(s: Client, w: World, p: Policy, c: Cursor, kind: FailureKind, block: InputReadBlock, at: int)
    requires c.own ==> s.active.Some?
    ensures var t := OnFailure(s, w, p, c, kind, block, at).0;
            && t.n.requests == s.n.requests
            && t.n.timeouts == s.n.timeouts + One(kind == RequestTimeout)
            && t.n.losses == s.n.losses + One(kind == ConnectionLost)
            && t.n.ambiguous == s.n.ambiguous + One(kind == AmbiguousRequest)
            && t.n.establishments - t.n.failedDials
            == s.n.establishments - s.n.failedDials + One(kind == ConnectionEstablishment)
  {
    var counted := s.(n := CountFailure(s.n, kind));
    RecoverCounts(counted, w, p, kind, block, at);
    hide Recover;
  }

  ghost predicate SameCounts(s: Client, t: Client) {
    && t.n.requests == s.n.requests && t.n.timeouts == s.n.timeouts && t.n.losses == s.n.losses
    && t.n.ambiguous == s.n.ambiguous && t.n.establishments - t.n.failedDials == s.n.establishments - s.n.failedDials
  }

  lemma {:induction false} DialCounts(s: Client, w: World, p: Policy, attempt: nat)
    requires s.active.Some?
    ensures SameCounts(s, Dial(s, w, p, attempt).0)
    decreases p.dialsPerReconnect - attempt
  {
    var f := DialRefused(DialStarted(s));
    if attempt < p.dialsPerReconnect {
      DialCounts(Ticked(f, 2), w, p, attempt + 1);
    }
    hide PauseAt;
  }

  lemma RecoverCounts(s: Client, w: World, p: Policy, kind: FailureKind, block: InputReadBlock, at: int)
    ensures SameCounts(s, Recover(s, w, p, kind, block, at).0)
  {
    hide Dial, Prune, PauseAt;
    var m := w.at(s.tick);
    var kept := Prune(s.times, m.monotonic - p.window);
    if |kept| < p.perWindow {
      var cooldown := if kept == [] then p.initialCooldown else p.repeatedCooldown;
      DialCounts(Ticked(Begun(s, m, kept, Beginning(m, kind, block, at, cooldown)), 2), w, p, 0);
    }
  }

  lemma CountedOn(s: Client, u: Client, t: Client, w: World, e: Setup, first: Read, more: seq<Read>)
    requires CountedFor(s, u, w, e, [first]) && CountedFor(u, t, w, e, more)
    ensures CountedFor(s, t, w, e, [first] + more)
  {
    FailedFirst(first, more, w, RequestTimeout);
    FailedFirst(first, more, w, ConnectionLost);
    FailedFirst(first, more, w, AmbiguousRequest);
    FailedFirst(first, more, w, ConnectionEstablishment);
    hide FailedReads;
  }

  lemma FailedFirst(first: Read, more: seq<Read>, w: World, kind: FailureKind)
    ensures FailedReads([first] + more, w, kind) == FailedReads([first], w, kind) + FailedReads(more, w, kind)
    ensures FailedReads([first], w, kind) == One(w.read(first.tick, first.block) == ReadFailed(kind))
    ensures FailedReads([], w, kind) == 0
  {
    assert ([first] + more)[1..] == more;
    assert [first][1..] == [];
  }

  lemma NothingCounted(s: Client, t: Client, w: World, e: Setup)
    requires t.n == s.n
    ensures CountedFor(s, t, w, e, [])
  {
  }

  lemma OneCounted(s: Client, t: Client, w: World, e: Setup, read: Read)
    requires t.n == Asked(s).n && !w.read(read.tick, read.block).ReadFailed?
    ensures CountedFor(s, t, w, e, [read])
  {
    FailedFirst(read, [], w, RequestTimeout);
    FailedFirst(read, [], w, ConnectionLost);
    FailedFirst(read, [], w, AmbiguousRequest);
    FailedFirst(read, [], w, ConnectionEstablishment);
    hide FailedReads;
  }

  lemma FailedCounted(s: Client, w: World, e: Setup, c: Cursor, read: Read, at: int)
    requires (c.own ==> s.active.Some?) && e.policy.Some? && w.read(read.tick, read.block).ReadFailed?
    ensures var kind := w.read(read.tick, read.block).kind;
            CountedFor(s, OnFailure(Asked(s), w, e.policy.value, c, kind, read.block, at).0, w, e, [read])
  {
    hide OnFailure, FailedReads;
    FailureCounted(Asked(s), w, e.policy.value, c, w.read(read.tick, read.block).kind, read.block, at);
    FailedFirst(read, [], w, RequestTimeout);
    FailedFirst(read, [], w, ConnectionLost);
    FailedFirst(read, [], w, AmbiguousRequest);
    FailedFirst(read, [], w, ConnectionEstablishment);
  }

  lemma UnpolicedCounted(s: Client, t: Client, w: World, e: Setup, read: Read)
    requires e.policy.None? && t.n == Asked(s).n
    ensures CountedFor(s, t, w, e, [read])
  {
  }

  /** One request for every read made, and every failure counted by its kind. */
  lemma {:induction false} SelectCounted(s: Client, w: World, e: Setup, c: Cursor)
    requires c.own ==> s.active.Some?
    ensures CountedFor(s, Select(s, w, e, c).end, w, e, Reads(s, w, e, c))
    decreases Allowance(e, c), |e.blocks| - c.i
  {
    hide OnFailure, FreshAt, Due, ProfileFresh, CountedFor;
    if c.i >= |e.blocks| {
      CompletedCounts(s, w, e, c);
      return;
    }
    var block, next, end := e.blocks[c.i], c.(i := c.i + 1), Select(s, w, e, c).end;
    var read, reply, done := Read(s.tick + 1, block), w.read(s.tick + 1, block), Asked(s);
    DueExactly(e, block, w.at(s.tick));
    if !Due(e, block, w.at(s.tick)) {
      SelectCounted(Ticked(s, 1), w, e, next);
      CountedAfterLook(s, Ticked(s, 1), end, w, e, Reads(s, w, e, c));
    } else if reply.Answered? {
      SelectCounted(done, w, e, next);
      OneCounted(s, done, w, e, read);
      CountedOn(s, done, end, w, e, read, Reads(done, w, e, next));
    } else if reply.ReadFailed? && e.policy.Some? {
      var at := w.at(s.tick + 1).now;
      FailedCounted(s, w, e, c, read, at);
      SelectFails(s, w, e, c, reply.kind);
      var r := OnFailure(done, w, e.policy.value, c, reply.kind, block, at);
      if r.1.Reconnected? {
        SelectCounted(r.0, w, e, Again(c, r.0.tick));
        CountedOn(s, r.0, end, w, e, read, Reads(r.0, w, e, Again(c, r.0.tick)));
      } else {
        NothingAfter(read);
      }
    } else {
      NothingAfter(read);
      EndingCounted(s, end, w, e, c, read);
    }
  }

  lemma NothingAfter(read: Read)
    ensures [read] + [] == [read]
  {
  }

  lemma CountedAfterLook(s: Client, u: Client, t: Client, w: World, e: Setup, made: seq<Read>)
    requires u.n == s.n && CountedFor(u, t, w, e, made)
    ensures CountedFor(s, t, w, e, made)
  {
  }

  lemma CompletedCounts(s: Client, w: World, e: Setup, c: Cursor)
    requires c.own ==> s.active.Some?
    ensures CountedFor(s, Completed(s, w, e, c).end, w, e, [])
  {
    hide ProfileFresh;
  }

  lemma EndingCounted(s: Client, t: Client, w: World, e: Setup, c: Cursor, read: Read)
    requires (c.own ==> s.active.Some?) && t.n == Asked(s).n
    requires w.read(read.tick, read.block).ReadFailed? ==> e.policy.None?
    ensures CountedFor(s, t, w, e, [read])
  {
    if e.policy.None? {
      UnpolicedCounted(s, t, w, e, read);
    } else {
      OneCounted(s, t, w, e, read);
    }
  }

  /** Every read is of a block that is due where it is decided, one consultation before. */
  lemma {:induction false} OnlyDueBlocksAreRead(s: Client, w: World, e: Setup, c: Cursor, i: nat)
    requires (c.own ==> s.active.Some?) && i < |Reads(s, w, e, c)|
    ensures var read := Reads(s, w, e, c)[i];
            read.tick > 0 && read.block in e.blocks && Due(e, read.block, w.at(read.tick - 1))
    decreases Allowance(e, c), |e.blocks| - c.i
  {
    hide OnFailure, Due;
    var block, next := e.blocks[c.i], c.(i := c.i + 1);
    if !Due(e, block, w.at(s.tick)) {
      OnlyDueBlocksAreRead(Ticked(s, 1), w, e, next, i);
    } else if i > 0 {
      var reply, done := w.read(s.tick + 1, block), Asked(s);
      if reply.Answered? {
        OnlyDueBlocksAreRead(done, w, e, next, i - 1);
      } else {
        var p, at := e.policy.value, w.at(s.tick + 1).now;
        OnFailureLeavesActive(done, w, p, c, reply.kind, block, at);
        var r := OnFailure(done, w, p, c, reply.kind, block, at);
        OnlyDueBlocksAreRead(r.0, w, e, Again(c, r.0.tick), i - 1);
      }
    }
  }

  /** One request for every read of the whole refresh, each of a block that is due, and each failure counted. */
  lemma RefreshReadsExactly(s: Client, w: World, e: Setup)
    ensures var made := Reads(s, w, e, Cursor(0, 0, false, s.tick));
            && CountedFor(s, Acquire(s, w, e).end, w, e, made)
            && forall i :: 0 <= i < |made| ==>
                 made[i].tick > 0 && made[i].block in e.blocks && Due(e, made[i].block, w.at(made[i].tick - 1))
  {
    var c := Cursor(0, 0, false, s.tick);
    SelectCounted(s, w, e, c);
    hide Select, CountedFor, Due, Reads;
    forall i | 0 <= i < |Reads(s, w, e, c)|
      ensures var read := Reads(s, w, e, c)[i];
              read.tick > 0 && read.block in e.blocks && Due(e, read.block, w.at(read.tick - 1))
    {
      OnlyDueBlocksAreRead(s, w, e, c, i);
    }
  }

  /** A selection that finds nothing due makes no request and goes through all blocks. */
  lemma {:induction false} NothingDueNothingRead(s: Client, w: World, e: Setup, c: Cursor)
    requires (c.own ==> s.active.Some?) && c.i <= |e.blocks|
    requires forall k: nat :: c.i <= k < |e.blocks| ==> !Due(e, e.blocks[k], w.at(s.tick + k - c.i))
    ensures Reads(s, w, e, c) == []
    ensures Select(s, w, e, c) == Completed(Ticked(s, |e.blocks| - c.i), w, e, c.(i := |e.blocks|))
    decreases |e.blocks| - c.i
  {
    hide Due, FreshAt, Completed;
    if c.i < |e.blocks| {
      DueExactly(e, e.blocks[c.i], w.at(s.tick));
      assert !Due(e, e.blocks[c.i], w.at(s.tick + c.i - c.i));
      NothingDueNothingRead(Ticked(s, 1), w, e, c.(i := c.i + 1));
    }
  }

  /** The block has a required register, and all of them are observed no longer ago than the target allows. */
  ghost predicate BlockFresh(e: Setup, block: InputReadBlock, m: Moment) {
    && (exists r :: Wanted(e, block, r))
    && (forall r :: Wanted(e, block, r) ==> r in m.observedAt && m.now - m.observedAt[r] <= e.target)
  }

  ghost predicate AllFresh(e: Setup, m: Moment) {
    forall k :: 0 <= k < |e.blocks| ==> BlockFresh(e, e.blocks[k], m)
  }

  lemma NotDueIsFresh(e: Setup, block: InputReadBlock, m: Moment)
    ensures BlockFresh(e, block, m) <==> !Due(e, block, m)
  {
    if !BlockFresh(e, block, m) && exists r :: Wanted(e, block, r) {
      var r :| Wanted(e, block, r) && !(r in m.observedAt && m.now - m.observedAt[r] <= e.target);
      assert TooOld(m, e.target, r);
    }
  }

  lemma AllFreshExactly(e: Setup, m: Moment)
    ensures ProfileFresh(e, m) <==> AllFresh(e, m)
    ensures AllFresh(e, m) <==> forall k :: 0 <= k < |e.blocks| ==> !Due(e, e.blocks[k], m)
  {
    forall k | 0 <= k < |e.blocks|
      ensures FreshAt(RequiredIn(e.required, e.blocks[k]), m, e.target) <==> !Due(e, e.blocks[k], m)
    {
      DueExactly(e, e.blocks[k], m);
    }
    forall k | 0 <= k < |e.blocks|
      ensures BlockFresh(e, e.blocks[k], m) <==> !Due(e, e.blocks[k], m)
    {
      NotDueIsFresh(e, e.blocks[k], m);
    }
    hide FreshAt, RequiredIn, BlockFresh, Due;
  }

  /** A refresh during which all required registers stay within the target makes no request and ends healthy. */
  lemma FreshProfileIsLeftAlone(s: Client, w: World, e: Setup)
    requires forall t: nat :: s.tick <= t <= s.tick + |e.blocks| ==> AllFresh(e, w.at(t))
    ensures var a := Acquire(s, w, e);
            a.Refreshed? && a.end.health.Healthy? && a.end.n == s.n && a.end.log == s.log && a.end.starts == s.starts
  {
    var c := Cursor(0, 0, false, s.tick);
    hide AllFresh, Due, ProfileFresh, Select;
    forall k: nat | k < |e.blocks| ensures !Due(e, e.blocks[k], w.at(s.tick + k - 0)) {
      assert AllFresh(e, w.at(s.tick + k));
      AllFreshExactly(e, w.at(s.tick + k));
    }
    NothingDueNothingRead(s, w, e, c);
    AllFreshExactly(e, w.at(s.tick + |e.blocks|));
  }

  /**
   * Health after a normal return: healthy if and only if, at the last consultation, every block has a required register
   * and every required register is observed no longer ago than the target.
   */
  lemma HealthIsFreshness(s: Client, w: World, e: Setup)
    ensures var a := Acquire(s, w, e);
            a.Refreshed? ==>
              a.end.tick > 0 && (a.end.health.Healthy? <==> AllFresh(e, w.at(a.end.tick - 1)))
              && (a.end.health.Healthy? || a.end.health.Degraded?)
  {
    HealthyExactly(s, w, e);
    NeverRecoveringAfter(s, w, e, Cursor(0, 0, false, s.tick));
    var a := Acquire(s, w, e);
    if a.Refreshed? {
      AllFreshExactly(e, w.at(a.end.tick - 1));
    }
    hide Select, AllFresh, ProfileFresh;
  }

  lemma {:induction false} NeverRecoveringAfter(s: Client, w: World, e: Setup, c: Cursor)
    requires c.own ==> s.active.Some?
    ensures var a := Select(s, w, e, c); a.Refreshed? ==> !a.end.health.Recovering?
    decreases Allowance(e, c), |e.blocks| - c.i
  {
    hide OnFailure, FreshAt, ProfileFresh;
    if c.i < |e.blocks| {
      var block := e.blocks[c.i];
      if FreshAt(RequiredIn(e.required, block), w.at(s.tick), e.target) {
        NeverRecoveringAfter(Ticked(s, 1), w, e, c.(i := c.i + 1));
      } else if w.read(s.tick + 1, block).Answered? {
        NeverRecoveringAfter(Asked(s), w, e, c.(i := c.i + 1));
      } else if w.read(s.tick + 1, block).ReadFailed? && e.policy.Some? {
        var kind := w.read(s.tick + 1, block).kind;
        SelectFails(s, w, e, c, kind);
        var r := OnFailure(Asked(s), w, e.policy.value, c, kind, block, w.at(s.tick + 1).now);
        if r.1.Reconnected? {
          NeverRecoveringAfter(r.0, w, e, Again(c, r.0.tick));
        }
      }
    }
  }

  // ---------- how a refresh fails ----------

  /** The errors after which the client is degraded; the others leave it as it was, or still recovering. */
  predicate Degrades(error: Error) {
    error.CancelledError? || error.ReadRejectedError? || error.RecoveryExhaustedError? || error.ConnectionError?
    || error.OriginalError?
  }

  lemma FailureDegrades(s: Client, w: World, p: Policy, c: Cursor, kind: FailureKind, block: InputReadBlock, at: int)
    requires (c.own ==> s.active.Some?) && p.Valid()
    ensures var r := OnFailure(s, w, p, c, kind, block, at);
            r.1.Raised? && Degrades(r.1.error) ==> r.0.health.Degraded?
    ensures var r := OnFailure(s, w, p, c, kind, block, at);
            r.1.Raised? && r.1.error.SessionClosedError? && !(c.own && w.at(s.tick).shutdown && kind.SessionClosed?) ==>
              r.0.health.Recovering?
  {
    var counted := s.(n := CountFailure(s.n, kind));
    var k := DialOutcomes.ReconnectExactly(counted, w, p, kind, block, at);
    RecoveredHealth(counted, w, p, kind, block, at, k);
    hide Recover;
  }

  lemma RecoveredHealth(s: Client, w: World, p: Policy, kind: FailureKind, block: InputReadBlock, at: int, k: nat)
    requires p.Valid()
    requires var m := w.at(s.tick); var r := Recover(s, w, p, kind, block, at);
             if r.1 == Raised(RecoveryExhaustedError) then
               DialOutcomes.RefusedFor(s, r.0, ActiveRecovery(kind, block, m.monotonic, at, m.now, 0, None, 0, 0))
             else
               var cooldown := if |r.0.times| == 1 then p.initialCooldown else p.repeatedCooldown;
               var a := ActiveRecovery(kind, block, m.monotonic, at, m.now, cooldown, None, 0, 0);
               DialOutcomes.DecidedBy(DialOutcomes.WithRecovery(s, a, r.0.times), r.0, r.1, w, p, s.tick + 1, k)
    ensures var r := Recover(s, w, p, kind, block, at);
            && (r.1.Raised? && Degrades(r.1.error) ==> r.0.health.Degraded?)
            && (r.1.Raised? && r.1.error.SessionClosedError? ==> r.0.health.Recovering?)
            && (r.1.Raised? ==> !r.1.error.ReadRejectedError? && !r.1.error.OriginalError?)
  {
    hide Recover, DialOutcomes.PauseOver, DialOutcomes.PauseStopped, DialOutcomes.GoesOn;
  }

  /** A refresh that raises one of these leaves the client degraded, whatever happened before. */
  lemma {:induction false} FailedRefreshDegrades(s: Client, w: World, e: Setup, c: Cursor)
    requires (c.own ==> s.active.Some?) && (e.policy.Some? ==> e.policy.value.Valid())
    ensures var a := Select(s, w, e, c); a.Failed? && Degrades(a.error) ==> a.end.health.Degraded?
    decreases Allowance(e, c), |e.blocks| - c.i
  {
    hide OnFailure, FreshAt, ProfileFresh;
    if c.i < |e.blocks| {
      var block := e.blocks[c.i];
      if FreshAt(RequiredIn(e.required, block), w.at(s.tick), e.target) {
        FailedRefreshDegrades(Ticked(s, 1), w, e, c.(i := c.i + 1));
      } else if w.read(s.tick + 1, block).Answered? {
        FailedRefreshDegrades(Asked(s), w, e, c.(i := c.i + 1));
      } else if w.read(s.tick + 1, block).ReadFailed? && e.policy.Some? {
        var kind := w.read(s.tick + 1, block).kind;
        SelectFails(s, w, e, c, kind);
        FailureDegrades(Asked(s), w, e.policy.value, c, kind, block, w.at(s.tick + 1).now);
        var r := OnFailure(Asked(s), w, e.policy.value, c, kind, block, w.at(s.tick + 1).now);
        if r.1.Reconnected? {
          FailedRefreshDegrades(r.0, w, e, Again(c, r.0.tick));
        }
      }
    }
  }

  /** One event about the attached recovery, which is detached. */
  ghost predicate Concluded(s: Client, t: Client, now: int, succeeded: bool, outcome: Ending)
    requires s.active.Some?
  {
    t.active.None? && t.log == s.log + [RecoveryEvent(s.active.value, now, succeeded, outcome)]
  }

  /** A read that was cancelled or rejected has ended the refresh, and the recovery it owns is recorded so. */
  ghost predicate EndedByRead(s: Client, a: Acquisition, own: bool, now: int, error: Error, outcome: Ending)
    requires own ==> s.active.Some?
  {
    && a == Failed(a.end, error) && a.end.health == Degraded
    && if own then Concluded(s, a.end, now, s.active.value.connectedAfter.Some?, outcome)
       else a.end.log == s.log && a.end.active == s.active
  }

  lemma EndedOwn(s: Client, w: World, own: bool, outcome: Ending, error: Error)
    requires own ==> s.active.Some?
    ensures var done := Asked(s).(health := Degraded);
            EndedByRead(s, Failed(EndOwn(done, w, own, outcome), error), own, w.at(s.tick + 2).now, error, outcome)
  {
  }

  /**
   * What a read that is not answered does to the refresh: a cancellation or a rejection ends it, and the recovery it
   * owns is recorded so; without a policy every other failure is passed on.
   */
  lemma UnansweredRead(s: Client, w: World, e: Setup, c: Cursor)
    requires (c.own ==> s.active.Some?) && c.i < |e.blocks| && Due(e, e.blocks[c.i], w.at(s.tick))
    ensures var reply, a := w.read(s.tick + 1, e.blocks[c.i]), Select(s, w, e, c); var now := w.at(s.tick + 2).now;
            match reply
            case ReadCancelled => EndedByRead(s, a, c.own, now, CancelledError, ReacquisitionCancelled)
            case ReadRejected => EndedByRead(s, a, c.own, now, ReadRejectedError, ReacquisitionRejected)
            case ReadUnclassified =>
              && a.Failed? && a.end.log == s.log && a.end.active == s.active
              && if e.policy.None? then a.error == OriginalError && a.end.health == Degraded
                 else a.error == UnclassifiedError && a.end.health == s.health
            case ReadFailed(_) =>
              e.policy.None? ==>
                a == Failed(a.end, OriginalError) && a.end.health == Degraded && a.end.log == s.log
            case Answered => true
  {
    var done := Asked(s).(health := Degraded);
    DueExactly(e, e.blocks[c.i], w.at(s.tick));
    EndedOwn(s, w, c.own, ReacquisitionCancelled, CancelledError);
    EndedOwn(s, w, c.own, ReacquisitionRejected, ReadRejectedError);
    hide FreshAt, Due, OnFailure, EndOwn, EndedByRead;
  }

  /**
   * What a recoverable failure does: a shutdown ends the owned recovery; an allowance used up ends it and the
   * acquisition; anything else goes into a reconnect.
   */
  lemma FailedReadDecides(s: Client, w: World, p: Policy, c: Cursor, kind: FailureKind, block: InputReadBlock, at: int)
    requires c.own ==> s.active.Some?
    ensures var r := OnFailure(s, w, p, c, kind, block, at); var now := w.at(s.tick).now;
            if c.own && w.at(s.tick).shutdown && kind == SessionClosed then
              && r.1 == Raised(SessionClosedError) && r.0.health == Degraded
              && Concluded(s, r.0, now, s.active.value.connectedAfter.Some?, ReacquisitionShutdown)
            else if c.reconnects >= p.perAcquisition then
              && r.1 == Raised(RecoveryExhaustedError) && r.0.health == Degraded && r.0.starts == s.starts
              && r.0.n.exhausted == s.n.exhausted + 1 && r.0.n.abandoned == s.n.abandoned + 1
              && if c.own then Concluded(s, r.0, now, s.active.value.connectedAfter.Some?, ReacquisitionFailed)
                 else r.0.log == s.log && r.0.active == s.active
            else r == Recover(s.(n := CountFailure(s.n, kind)), w, p, kind, block, at)
  {
  }

  /** What the end of the last pass records: an owned recovery has recovered the profile exactly when all is fresh. */
  lemma CompletionRecorded(s: Client, w: World, e: Setup, c: Cursor)
    requires c.own ==> s.active.Some?
    ensures var a, recovered := Completed(s, w, e, c), AllFresh(e, w.at(s.tick));
            && a.Refreshed? && a.end.health == (if recovered then Healthy else Degraded)
            && a.end.n == s.n.(completed := s.n.completed + if c.own && recovered then 1 else 0)
            && if c.own then Concluded(s, a.end, w.at(s.tick + 1).now, true,
                                       if recovered then ProfileRecovered else ProfileRemainedStale)
               else a.end.log == s.log && a.end.active == s.active
  {
    AllFreshExactly(e, w.at(s.tick));
    hide AllFresh, ProfileFresh;
  }
}
