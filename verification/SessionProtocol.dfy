/**
 * The read session as a state machine. FC4 carries no transaction id, so what keeps a late reply from answering a
 * later request is the connection generation, the single pending request and the regions between two awaits.
 * One event is one such region; any sequence of events is an interleaving of the session's coroutines.
 */
module SessionProtocol {
  import opened Options
  import opened Registers

  // ---------- state ----------

  datatype Outcome =
    | Success | ResponseTimeout | AmbiguousDrain | AmbiguousIo | Cancelled
    | Rejected | ConnectionLost | SessionClosed

  /** The future a request awaits; `Result` names the accepted observation by its place in the log. */
  datatype Future = Unset | Result(place: nat) | Failed(reason: Outcome) | Dropped

  /** Where the request's coroutine stands; `Tainted` is inside an except branch, awaiting `async_close`. */
  datatype Phase = Draining | Replying | Tainted | Finished

  datatype Request = Request(
    start: nat, count: nat, generation: nat, registeredAt: nat, future: Future, phase: Phase, outcome: Option<Outcome>)

  datatype ReaderState = Reading | Failing | Exited

  /** Who holds the lifecycle lock across an await. */
  datatype Lock = Free | Dialing | Closing(byRequest: bool) | CleaningUp(reader: nat)

  /** One accepted FC4 observation; `request` is the explicit request it completed, if any. */
  datatype Accepted = Accepted(start: nat, values: seq<nat>, at: int, generation: nat, request: Option<nat>)

  datatype Counters = Counters(
    routed: nat, validated: nat, expected: nat, unmatched: nat, fc193: nat, rejections: nat, routerRejected: nat,
    explicitRequests: nat, finalised: nat, successes: nat, timeouts: nat, ambiguous: nat, connections: nat, losses: nat)

  /**
   * `connection` is the generation whose writer and reader task are installed. `requests` and `log` keep everything
   * ever registered and accepted; `inFlight` is the request whose coroutine holds the request lock.
   */
  datatype State = State(
    generation: nat, connection: Option<nat>, connectionLost: bool, readers: map<nat, ReaderState>, lock: Lock,
    pending: Option<nat>, inFlight: Option<nat>, requests: seq<Request>, log: seq<Accepted>, counters: Counters)

  const INITIAL := State(0, None, false, map[], Free, None, None, [], [],
      Counters(0, 0, 0, 0, 0, 0, 0, 0, 0, 0, 0, 0, 0, 0))

  /** What a routed frame turned out to be. */
  datatype FrameClass = Fc193 | Rejection(register: nat) | Fc4(start: nat, values: seq<nat>) | Unusable

  datatype Routed = Routed(frame: FrameClass, at: int)

  datatype Event =
    | ConnectBegin | ConnectDone | ConnectFailed
    | CloseBegin | CloseEnd
    | Register(start: int, count: int)
    | DrainDone | Resume | Expire | IoError | Cancel
    | TaintedClose | TaintedEnd
    | Chunk(reader: nat, frames: seq<Routed>) | ReaderError(reader: nat) | ReaderFailed(reader: nat) | CleanupDone
    | ReaderExit(reader: nat)

  // ---------- steps ----------

  predicate Alive(s: State, g: nat) {
    g in s.readers && s.readers[g] != Exited
  }

  predicate Connected(s: State) {
    s.connection.Some? && Alive(s, s.connection.value)
  }

  function SettlePending(s: State, reason: Outcome): State {
    if s.pending.Some? && s.pending.value < |s.requests| then
      var id := s.pending.value;
      var r := s.requests[id];
      s.(pending := None,
         requests := s.requests[id := r.(future := if r.future.Unset? then Failed(reason) else r.future)])
    else s.(pending := None)
  }

  /** The first region of `async_close`: everything up to its first await. */
  function CloseRegion(s: State, byRequest: bool): State {
    SettlePending(s.(generation := s.generation + 1, connection := None, connectionLost := false,
                     lock := Closing(byRequest)),
                  SessionClosed)
  }

  predicate Waiting(s: State) {
    s.inFlight.Some? && s.inFlight.value < |s.requests|
    && (s.requests[s.inFlight.value].phase.Draining? || s.requests[s.inFlight.value].phase.Replying?)
  }

  predicate InTaintedPhase(s: State) {
    s.inFlight.Some? && s.inFlight.value < |s.requests| && s.requests[s.inFlight.value].phase.Tainted?
  }

  /** The except branches that cannot tell what the inverter received: no byte of this generation counts any more. */
  function Taint(s: State, outcome: Outcome): State
    requires Waiting(s)
  {
    var t := Fenced(s, outcome);
    if t.lock.Free? then CloseRegion(t, true) else t
  }

  /** The request is given up and its generation fenced off; nothing has been closed yet. */
  function Fenced(s: State, outcome: Outcome): State
    requires Waiting(s)
  {
    var id := s.inFlight.value;
    var r := s.requests[id];
    var c := s.counters;
    s.(
      pending := if s.pending == Some(id) then None else s.pending,
      requests := s.requests[id := r.(future := if r.future.Unset? then Dropped else r.future,
                                      phase := Tainted, outcome := Some(outcome))],
      generation := s.generation + 1,
      counters := c.(timeouts := c.timeouts + (if outcome == ResponseTimeout then 1 else 0),
                     ambiguous := c.ambiguous + (if outcome == AmbiguousDrain || outcome == AmbiguousIo then 1 else 0)))
  }

  /** The `finally` branch: the journal entry is finalised and the request lock released. */
  function Finish(s: State, outcome: Outcome): State
    requires s.inFlight.Some? && s.inFlight.value < |s.requests|
  {
    var id := s.inFlight.value;
    var c := s.counters;
    s.(inFlight := None,
       requests := s.requests[id := s.requests[id].(phase := Finished, outcome := Some(outcome))],
       counters := c.(finalised := c.finalised + 1, successes := c.successes + (if outcome == Success then 1 else 0)))
  }

  function FinishTainted(s: State): State
    requires InTaintedPhase(s)
  {
    var recorded := s.requests[s.inFlight.value].outcome;
    Finish(s.(lock := if s.lock == Closing(true) then Free else s.lock),
           if recorded.Some? then recorded.value else SessionClosed)
  }

  /** The pending request, unless it belongs to another generation. */
  function Candidate(s: State): Option<nat> {
    if s.pending.Some? && s.pending.value < |s.requests| && s.requests[s.pending.value].generation == s.generation
    then s.pending else None
  }

  /** The response carries exactly the pending request's range. */
  predicate Explicit(s: State, start: nat, values: seq<nat>) {
    var candidate := Candidate(s);
    candidate.Some? && s.requests[candidate.value].start == start && s.requests[candidate.value].count == |values|
  }

  /** The tail of `_route_frame`: a usable FC4 response is logged, and completes the request it matches exactly. */
  function AcceptFc4(s: State, start: nat, values: seq<nat>, at: int): State {
    var c := s.counters;
    if Explicit(s, start, values) then
      var id := s.pending.value;
      var r := s.requests[id];
      s.(log := s.log + [Accepted(start, values, at, s.generation, s.pending)], pending := None,
         requests := s.requests[id := r.(future := if r.future.Unset? then Result(|s.log|) else r.future)],
         counters := c.(validated := c.validated + 1, expected := c.expected + 1))
    else
      s.(log := s.log + [Accepted(start, values, at, s.generation, None)],
         counters := c.(validated := c.validated + 1, unmatched := c.unmatched + 1))
  }

  function Dispatch(s: State, f: Routed): State {
    var c := s.counters;
    match f.frame
    case Fc193 => s.(counters := c.(fc193 := c.fc193 + 1))
    case Unusable => s.(counters := c.(routerRejected := c.routerRejected + 1))
    case Rejection(register) =>
      if Candidate(s).Some? && s.requests[Candidate(s).value].start == register then
        SettlePending(s.(counters := c.(rejections := c.rejections + 1)), Rejected)
      else s.(counters := c.(routerRejected := c.routerRejected + 1))
    case Fc4(start, values) => AcceptFc4(s, start, values, f.at)
  }

  /** `_route_frame`, from the frame's class on; frames of another generation are dropped unseen. */
  function Route(s: State, f: Routed, g: nat): State {
    if g != s.generation then s
    else Dispatch(s.(counters := s.counters.(routed := s.counters.routed + 1)), f)
  }

  function RouteAll(s: State, frames: seq<Routed>, g: nat): State
    decreases |frames|
  {
    if frames == [] then s else RouteAll(Route(s, frames[0], g), frames[1..], g)
  }

  predicate ValidRange(start: int, count: int) {
    0 <= start < TOTAL_REGISTERS && 1 <= count <= MAX_READ_REGISTERS && start + count <= TOTAL_REGISTERS
  }

  function RegisterRequest(s: State, start: nat, count: nat): State {
    s.(pending := Some(|s.requests|), inFlight := Some(|s.requests|),
       requests := s.requests + [Request(start, count, s.generation, |s.log|, Unset, Draining, None)],
       counters := s.counters.(explicitRequests := s.counters.explicitRequests + 1))
  }

  function SetReader(s: State, g: nat, r: ReaderState): State {
    s.(readers := s.readers[g := r])
  }

  /** One region between two awaits; an event that is not enabled changes nothing. */
  function Step(s: State, e: Event): State {
    match e
    case ConnectBegin => if s.lock.Free? && !Connected(s) then s.(lock := Dialing) else s
    case ConnectFailed => if s.lock.Dialing? then s.(lock := Free) else s
    case ConnectDone =>
      if s.lock.Dialing? then
        var g := s.generation + 1;
        SetReader(s, g, Reading).(generation := g, connection := Some(g), connectionLost := false, lock := Free,
                                  counters := s.counters.(connections := s.counters.connections + 1))
      else s
    case CloseBegin => if s.lock.Free? then CloseRegion(s, false) else s
    case CloseEnd => if s.lock == Closing(false) then s.(lock := Free) else s
    case Register(start, count) =>
      if ValidRange(start, count) && s.inFlight.None? && Connected(s) && s.pending.None?
      then RegisterRequest(s, start, count) else s
    case DrainDone =>
      if Waiting(s) && s.requests[s.inFlight.value].phase.Draining? then
        var id := s.inFlight.value;
        s.(requests := s.requests[id := s.requests[id].(phase := Replying)])
      else s
    case Resume =>
      if Waiting(s) && s.requests[s.inFlight.value].phase.Replying? then
        match s.requests[s.inFlight.value].future
        case Unset => s
        case Result(_) => Finish(s, Success)
        case Failed(reason) => Finish(s, reason)
        case Dropped => s
      else s
    case Expire =>
      if Waiting(s)
      then Taint(s, if s.requests[s.inFlight.value].phase.Draining? then AmbiguousDrain else ResponseTimeout) else s
    case IoError =>
      if Waiting(s) && s.requests[s.inFlight.value].phase.Draining? then Taint(s, AmbiguousIo) else s
    case Cancel =>
      if Waiting(s) then Taint(s, Cancelled) else if InTaintedPhase(s) then FinishTainted(s) else s
    case TaintedClose =>
      if InTaintedPhase(s) && s.lock.Free? then CloseRegion(s, true) else s
    case TaintedEnd => if InTaintedPhase(s) && s.lock == Closing(true) then FinishTainted(s) else s
    case Chunk(g, frames) =>
      if g in s.readers && s.readers[g].Reading? then
        if g != s.generation then SetReader(s, g, Exited) else RouteAll(s, frames, g)
      else s
    case ReaderError(g) =>
      if g in s.readers && s.readers[g].Reading?
      then SetReader(s, g, if g == s.generation then Failing else Exited) else s
    case ReaderFailed(g) =>
      if g in s.readers && s.readers[g].Failing? && s.lock.Free? then
        if g != s.generation then SetReader(s, g, Exited)
        else SettlePending(s.(connection := None, generation := s.generation + 1, connectionLost := true,
                              lock := CleaningUp(g), counters := s.counters.(losses := s.counters.losses + 1)),
                           ConnectionLost)
      else s
    case CleanupDone =>
      if s.lock.CleaningUp? then SetReader(s, s.lock.reader, Exited).(lock := Free) else s
    case ReaderExit(g) => if g in s.readers && g != s.generation then SetReader(s, g, Exited) else s
  }

  function Run(s: State, events: seq<Event>): State {
    if events == [] then s else Step(Run(s, events[..|events| - 1]), events[|events| - 1])
  }
}
