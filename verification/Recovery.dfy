/** Freshness-driven profile acquisition with budgeted transport recovery. */
module Recovery {
  import opened Options
  import opened BlockPlanner
  import opened AcquisitionHealth

  const RECOVERY_EVENT_CAPACITY: nat := 512

  datatype FailureKind = RequestTimeout | ConnectionLost | ConnectionEstablishment | AmbiguousRequest | SessionClosed

  /** Its constructor in the source rejects anything else. */
  datatype Policy = Policy(perAcquisition: nat, perWindow: nat, dialsPerReconnect: nat, window: int,
                           initialCooldown: int, repeatedCooldown: int) {
    predicate Valid() {
      perAcquisition >= 1 && perWindow >= 1 && 1 <= dialsPerReconnect <= 5 && window > 0
      && initialCooldown >= 0 && repeatedCooldown >= 0
    }
  }

  // ---------- the environment ----------

  /** How one explicit read ends: its answer, or the exception it raises. */
  datatype ReadReply = Answered | ReadCancelled | ReadRejected | ReadFailed(kind: FailureKind) | ReadUnclassified

  datatype DialReply = Connected | DialFailed | DialCancelled

  datatype PauseReply = Elapsed | Woken | PauseCancelled

  datatype CloseReply = Closed | CloseCancelled

  /** What the client can look at: both clocks, the observation time of each register, and the shutdown flag. */
  datatype Moment = Moment(now: int, monotonic: int, observedAt: map<int, int>, shutdown: bool)

  /** Everything outside the client, by the number of times it has been consulted; anything may happen. */
  datatype World = World(at: nat -> Moment, read: (nat, InputReadBlock) -> ReadReply, dial: nat -> DialReply,
                         pause: (nat, int) -> PauseReply, closing: nat -> CloseReply)

  datatype Setup = Setup(policy: Option<Policy>, blocks: seq<InputReadBlock>, required: set<int>, target: int)

  // ---------- the client's state ----------

  datatype ActiveRecovery = ActiveRecovery(kind: FailureKind, block: InputReadBlock, started: int,
                                           episodeStartedAt: int, recoveryStartedAt: int, cooldown: int,
                                           connectedAfter: Option<int>, dials: nat, failedDials: nat)

  datatype Ending =
    | RollingBudgetExhausted | CancelledEnding | ShutdownEnding | ConnectionAttemptsExhausted
    | ReacquisitionCancelled | ReacquisitionRejected | ReacquisitionShutdown | ReacquisitionFailed
    | ProfileRecovered | ProfileRemainedStale

  /** `endedAt` is the wall clock when the event is recorded. */
  datatype RecoveryEvent = RecoveryEvent(recovery: ActiveRecovery, endedAt: int, reconnectSucceeded: bool,
      outcome: Ending)

  datatype Counters = Counters(requests: nat, timeouts: nat, losses: nat, establishments: nat, ambiguous: nat,
                               attempts: nat, successful: nat, failed: nat, completed: nat, exhausted: nat,
                               abandoned: nat, dials: nat, failedDials: nat)

  /** One reconnect start: when on both clocks, for which failure of which block, and how long it cools down. */
  datatype Start = Start(monotonic: int, at: int, kind: FailureKind, block: InputReadBlock, episodeStartedAt: int,
      cooldown: int)

  function StartOf(a: ActiveRecovery): Start {
    Start(a.started, a.recoveryStartedAt, a.kind, a.block, a.episodeStartedAt, a.cooldown)
  }

  /**
   * `times` is the pruned deque the budget is decided on; `starts` every reconnect start there ever was;
   * `log` every recovery event ever recorded.
   */
  datatype Client = Client(tick: nat, times: seq<int>, starts: seq<Start>, log: seq<RecoveryEvent>,
                           active: Option<ActiveRecovery>, health: Health, n: Counters)

  const NEW_CLIENT := Client(0, [], [], [], None, Degraded, Counters(0, 0, 0, 0, 0, 0, 0, 0, 0, 0, 0, 0, 0))

  datatype Error = CancelledError | ReadRejectedError | RecoveryExhaustedError | ConnectionError | SessionClosedError
    | CloseInterrupted | OriginalError | UnclassifiedError

  datatype Recovered = Reconnected | Raised(error: Error)

  function Ticked(s: Client, steps: nat): Client {
    s.(tick := s.tick + steps)
  }

  function Record(s: Client, w: World, recovery: ActiveRecovery, succeeded: bool, outcome: Ending): Client {
    s.(log := s.log + [RecoveryEvent(recovery, w.at(s.tick).now, succeeded, outcome)])
  }

  /** Records how the active recovery ended and detaches it. */
  function Terminate(s: Client, w: World, outcome: Ending): Client
    requires s.active.Some?
  {
    Record(s, w, s.active.value, s.active.value.connectedAfter.Some?, outcome).(active := None)
  }

  /** As `Terminate`, for endings inside the reconnect, whose event never counts as connected. */
  function GiveUp(s: Client, w: World, outcome: Ending): Client
    requires s.active.Some?
  {
    Record(s, w, s.active.value, false, outcome).(active := None)
  }

  function Abandon(s: Client): Client {
    s.(health := Degraded, n := s.n.(exhausted := s.n.exhausted + 1, abandoned := s.n.abandoned + 1))
  }

  function CountFailure(n: Counters, kind: FailureKind): Counters {
    match kind
    case RequestTimeout => n.(timeouts := n.timeouts + 1)
    case ConnectionLost => n.(losses := n.losses + 1)
    case ConnectionEstablishment => n.(establishments := n.establishments + 1)
    case AmbiguousRequest => n.(ambiguous := n.ambiguous + 1)
    case SessionClosed => n
  }

  function Prune(times: seq<int>, cutoff: int): seq<int> {
    if times != [] && times[0] < cutoff then Prune(times[1..], cutoff) else times
  }

  datatype Pause = Continue | Stop | Interrupt

  /** A pause that ends early when shutdown is signalled. */
  function PauseAt(w: World, tick: nat, delay: int): Pause {
    if w.at(tick).shutdown then Stop
    else if delay == 0 then Continue
    else match w.pause(tick, delay)
      case PauseCancelled => Interrupt
      case Woken => Stop
      case Elapsed => if w.at(tick + 1).shutdown then Stop else Continue
  }

  function Established(s: Client, m: Moment): Client
    requires s.active.Some?
  {
    var a := s.active.value;
    s.(n := s.n.(successful := s.n.successful + 1), active := Some(a.(connectedAfter := Some(m.monotonic - a.started))))
  }

  /** After the dialling: a shutdown that came meanwhile closes the session again. */
  function AfterDial(s: Client, w: World): (Client, Recovered)
    requires s.active.Some?
  {
    var m := w.at(s.tick);
    if m.shutdown then
      if w.closing(s.tick).CloseCancelled? then (Ticked(s, 1), Raised(CloseInterrupted))
      else (GiveUp(Ticked(s, 1), w, ShutdownEnding), Raised(SessionClosedError))
    else (Established(Ticked(s, 1), m), Reconnected)
  }

  function DialStarted(s: Client): Client
    requires s.active.Some?
  {
    var a := s.active.value;
    Ticked(s, 1).(n := s.n.(dials := s.n.dials + 1), active := Some(a.(dials := a.dials + 1)))
  }

  function DialRefused(s: Client): Client
    requires s.active.Some?
  {
    var a := s.active.value;
    s.(n := s.n.(establishments := s.n.establishments + 1, failedDials := s.n.failedDials + 1),
       active := Some(a.(failedDials := a.failedDials + 1)))
  }

  /** The dial loop from its attempt number on. */
  function Dial(s: Client, w: World, p: Policy, attempt: nat): (Client, Recovered)
    requires s.active.Some?
    decreases p.dialsPerReconnect - attempt
  {
    if attempt >= p.dialsPerReconnect then AfterDial(s, w)
    else
      var d := DialStarted(s);
      match w.dial(s.tick)
      case Connected => AfterDial(d, w)
      case DialCancelled => (GiveUp(d.(health := Degraded), w, CancelledEnding), Raised(CancelledError))
      case DialFailed =>
        var f := DialRefused(d);
        if attempt + 1 >= p.dialsPerReconnect then
          var g := f.(health := Degraded, n := f.n.(failed := f.n.failed + 1, abandoned := f.n.abandoned + 1));
          (GiveUp(g, w, ConnectionAttemptsExhausted), Raised(ConnectionError))
        else match PauseAt(w, f.tick, p.repeatedCooldown)
          case Interrupt => (GiveUp(Ticked(f, 2).(health := Degraded), w, CancelledEnding), Raised(CancelledError))
          case Stop => (GiveUp(Ticked(f, 2), w, ShutdownEnding), Raised(SessionClosedError))
          case Continue => Dial(Ticked(f, 2), w, p, attempt + 1)
  }

  function Beginning(m: Moment, kind: FailureKind, block: InputReadBlock, episodeStartedAt: int, cooldown: int)
    : ActiveRecovery
  {
    ActiveRecovery(kind, block, m.monotonic, episodeStartedAt, m.now, cooldown, None, 0, 0)
  }

  /** The state when a reconnect starts; an earlier recovery still attached is overwritten. */
  function Begun(s: Client, m: Moment, kept: seq<int>, a: ActiveRecovery): Client {
    Ticked(s, 1).(health := Recovering, active := Some(a), times := kept + [m.monotonic],
                  starts := s.starts + [StartOf(a)], n := s.n.(attempts := s.n.attempts + 1))
  }

  function Refused(s: Client, w: World, kept: seq<int>, a: ActiveRecovery): Client {
    Abandon(Record(Ticked(s, 1).(times := kept), w, a, false, RollingBudgetExhausted))
  }

  /** The cooldown, and then the dialling. */
  function AfterBegun(b: Client, w: World, p: Policy, cooldown: int): (Client, Recovered)
    requires b.active.Some?
  {
    match PauseAt(w, b.tick, cooldown)
    case Interrupt => (GiveUp(Ticked(b, 2).(health := Degraded), w, CancelledEnding), Raised(CancelledError))
    case Stop => (GiveUp(Ticked(b, 2), w, ShutdownEnding), Raised(SessionClosedError))
    case Continue => Dial(Ticked(b, 2), w, p, 0)
  }

  /** One budgeted clean reconnect. */
  function Recover(s: Client, w: World, p: Policy, kind: FailureKind, block: InputReadBlock, episodeStartedAt: int)
    : (Client, Recovered)
  {
    var m := w.at(s.tick);
    var kept := Prune(s.times, m.monotonic - p.window);
    if |kept| >= p.perWindow then
      (Refused(s, w, kept, Beginning(m, kind, block, episodeStartedAt, 0)), Raised(RecoveryExhaustedError))
    else
      var cooldown := if kept == [] then p.initialCooldown else p.repeatedCooldown;
      var b := Begun(s, m, kept, Beginning(m, kind, block, episodeStartedAt, cooldown));
      AfterBegun(b, w, p, cooldown)
  }

  // ---------- the acquisition ----------

  function RequiredIn(required: set<int>, block: InputReadBlock): set<int> {
    set r | r in required && block.Contains(r)
  }

  predicate FreshAt(required: set<int>, m: Moment, target: int) {
    required != {} && forall r :: r in required ==> r in m.observedAt && m.now - m.observedAt[r] <= target
  }

  predicate ProfileFresh(e: Setup, m: Moment) {
    forall i :: 0 <= i < |e.blocks| ==> FreshAt(RequiredIn(e.required, e.blocks[i]), m, e.target)
  }

  /** `passStart` is where the last selection pass began. */
  datatype Acquisition = Refreshed(end: Client, passStart: nat) | Failed(end: Client, error: Error)

  /** Where a selection pass stands: the next block, the reconnects made, and whether this acquisition owns a
      recovery. */
  datatype Cursor = Cursor(i: nat, reconnects: nat, own: bool, passStart: nat)

  function Completed(s: Client, w: World, e: Setup, c: Cursor): Acquisition
    requires c.own ==> s.active.Some?
  {
    var healthy := ProfileFresh(e, w.at(s.tick));
    var h := Ticked(s, 1).(health := if healthy then Healthy else Degraded);
    var end := if !c.own then h
               else if healthy then
                 Record(h, w, h.active.value, true, ProfileRecovered).(active := None,
                     n := h.n.(completed := h.n.completed + 1))
               else Record(h, w, h.active.value, true, ProfileRemainedStale).(active := None);
    Refreshed(end, c.passStart)
  }

  function EndOwn(s: Client, w: World, own: bool, outcome: Ending): Client
    requires own ==> s.active.Some?
  {
    if own then Terminate(s, w, outcome) else s
  }

  /** How a read that failed recoverably goes on: the exception it ends in, or `Reconnected` with the next state. */
  function OnFailure(s: Client, w: World, p: Policy, c: Cursor, kind: FailureKind, block: InputReadBlock,
      requestedAt: int)
    : (Client, Recovered)
    requires c.own ==> s.active.Some?
  {
    var counted := s.(n := CountFailure(s.n, kind));
    if c.own && w.at(s.tick).shutdown && kind.SessionClosed? then
      (Terminate(counted.(health := Degraded), w, ReacquisitionShutdown), Raised(SessionClosedError))
    else if c.reconnects >= p.perAcquisition then
      (Abandon(EndOwn(counted, w, c.own, ReacquisitionFailed)), Raised(RecoveryExhaustedError))
    else Recover(counted, w, p, kind, block, requestedAt)
  }

  lemma DialLeavesActive(s: Client, w: World, p: Policy, attempt: nat)
    requires s.active.Some?
    ensures Dial(s, w, p, attempt).1.Reconnected? ==> Dial(s, w, p, attempt).0.active.Some?
    decreases p.dialsPerReconnect - attempt
  {
  }

  lemma OnFailureLeavesActive(s: Client, w: World, p: Policy, c: Cursor, kind: FailureKind, block: InputReadBlock,
      at: int)
    requires c.own ==> s.active.Some?
    ensures OnFailure(s, w, p, c, kind, block, at).1.Reconnected? ==>
              c.reconnects < p.perAcquisition && OnFailure(s, w, p, c, kind, block, at).0.active.Some?
  {
    hide Dial;
    var counted := s.(n := CountFailure(s.n, kind));
    var m := w.at(s.tick);
    var kept := Prune(s.times, m.monotonic - p.window);
    var cooldown := if kept == [] then p.initialCooldown else p.repeatedCooldown;
    DialLeavesActive(Ticked(Begun(counted, m, kept, Beginning(m, kind, block, at, cooldown)), 2), w, p, 0);
  }

  function Allowance(e: Setup, c: Cursor): nat {
    if e.policy.Some? && e.policy.value.perAcquisition > c.reconnects
    then e.policy.value.perAcquisition - c.reconnects
    else 0
  }

  /** After one read: the request is counted before it is made. */
  function Asked(s: Client): Client {
    Ticked(s, 2).(n := s.n.(requests := s.n.requests + 1))
  }

  function Again(c: Cursor, tick: nat): Cursor {
    Cursor(0, c.reconnects + 1, true, tick)
  }

  /** The selection loop from a cursor on. */
  function Select(s: Client, w: World, e: Setup, c: Cursor): Acquisition
    requires c.own ==> s.active.Some?
    decreases Allowance(e, c), |e.blocks| - c.i
  {
    if c.i >= |e.blocks| then Completed(s, w, e, c)
    else
      var block := e.blocks[c.i];
      var next := c.(i := c.i + 1);
      if FreshAt(RequiredIn(e.required, block), w.at(s.tick), e.target) then Select(Ticked(s, 1), w, e, next)
      else
        var done := Asked(s);
        match w.read(s.tick + 1, block)
        case Answered => Select(done, w, e, next)
        case ReadCancelled =>
          Failed(EndOwn(done.(health := Degraded), w, c.own, ReacquisitionCancelled), CancelledError)
        case ReadRejected =>
          Failed(EndOwn(done.(health := Degraded), w, c.own, ReacquisitionRejected), ReadRejectedError)
        case ReadUnclassified =>
          if e.policy.None? then Failed(done.(health := Degraded), OriginalError) else Failed(done, UnclassifiedError)
        case ReadFailed(kind) =>
          if e.policy.None? then Failed(done.(health := Degraded), OriginalError)
          else
            var p := e.policy.value;
            var at := w.at(s.tick + 1).now;
            OnFailureLeavesActive(done, w, p, c, kind, block, at);
            var r := OnFailure(done, w, p, c, kind, block, at);
            if r.1.Raised? then Failed(r.0, r.1.error) else Select(r.0, w, e, Again(c, r.0.tick))
  }

  /** A recoverable failure either ends the acquisition or restarts selection after a reconnect. */
  lemma SelectFails(s: Client, w: World, e: Setup, c: Cursor, kind: FailureKind)
    requires (c.own ==> s.active.Some?) && e.policy.Some? && c.i < |e.blocks|
    requires !FreshAt(RequiredIn(e.required, e.blocks[c.i]), w.at(s.tick), e.target)
    requires w.read(s.tick + 1, e.blocks[c.i]) == ReadFailed(kind)
    ensures var r := OnFailure(Asked(s), w, e.policy.value, c, kind, e.blocks[c.i], w.at(s.tick + 1).now);
            if r.1.Raised? then Select(s, w, e, c) == Failed(r.0, r.1.error)
            else r.0.active.Some? && c.reconnects < e.policy.value.perAcquisition
                 && Select(s, w, e, c) == Select(r.0, w, e, Again(c, r.0.tick))
  {
    hide OnFailure, FreshAt;
    OnFailureLeavesActive(Asked(s), w, e.policy.value, c, kind, e.blocks[c.i], w.at(s.tick + 1).now);
  }

  lemma SelectCompletes(s: Client, w: World, e: Setup, c: Cursor)
    requires (c.own ==> s.active.Some?) && c.i >= |e.blocks|
    ensures Select(s, w, e, c) == Completed(s, w, e, c)
  {
  }

  /** A block that is left alone or answered is passed. */
  lemma SelectPasses(s: Client, w: World, e: Setup, c: Cursor)
    requires (c.own ==> s.active.Some?) && c.i < |e.blocks|
    ensures var block, next := e.blocks[c.i], c.(i := c.i + 1);
            if FreshAt(RequiredIn(e.required, block), w.at(s.tick), e.target)
            then Select(s, w, e, c) == Select(Ticked(s, 1), w, e, next)
            else w.read(s.tick + 1, block).Answered? ==> Select(s, w, e, c) == Select(Asked(s), w, e, next)
  {
    hide OnFailure, FreshAt;
  }

  function Acquire(s: Client, w: World, e: Setup): Acquisition {
    Select(s, w, e, Cursor(0, 0, false, s.tick))
  }

  /** The client's whole life: one acquisition after another, whatever each ended in. */
  function Life(w: World, acquisitions: seq<Setup>): Client {
    if acquisitions == [] then NEW_CLIENT
    else Acquire(Life(w, acquisitions[..|acquisitions| - 1]), w, acquisitions[|acquisitions| - 1]).end
  }
}
