/** The request and event journal, its bounded logs, and reading a phase back between two snapshots. */
module DiagnosticJournal {

  // ---------- bounded logs ----------

  /** What a `deque(maxlen=capacity)` holds after everything in `history` was appended to it. */
  function Retained<T>(history: seq<T>, capacity: nat): seq<T> {
    if |history| <= capacity then history else history[|history| - capacity..]
  }

  /** `deque.append` with a maximal length. */
  function Push<T>(log: seq<T>, capacity: nat, entry: T): seq<T> {
    if capacity == 0 then [] else if |log| < capacity then log + [entry] else log[1..] + [entry]
  }

  lemma PushRetains<T>(history: seq<T>, capacity: nat, entry: T)
    ensures Push(Retained(history, capacity), capacity, entry) == Retained(history + [entry], capacity)
  {
  }

  predicate Extends<T(==)>(before: seq<T>, after: seq<T>) {
    |before| <= |after| && after[..|before|] == before
  }

  /** Entries recorded after the first `cursor` ones that the log still holds. */
  function RetainedSince<T>(history: seq<T>, capacity: nat, cursor: nat): seq<T>
    requires cursor <= |history|
  {
    if |history| - cursor <= capacity then history[cursor..] else history[|history| - capacity..]
  }

  // ---------- the journal ----------

  datatype Event = Event(sequence: nat, kind: string, request: nat)

  datatype Outcome = Success | Failure(kind: string)

  datatype RequestDiagnostic = RequestDiagnostic(requestSequence: nat, outcome: Outcome, firstEvent: nat,
      terminalEvent: nat)

  datatype Snapshot = Snapshot(
    eventCapacity: nat, eventsTotal: nat, eventsDropped: nat, events: seq<Event>,
    requestCapacity: nat, requestsTotal: nat, requestsDropped: nat, requests: seq<RequestDiagnostic>)

  class LuxReadDiagnosticJournal {
    const eventCapacity: nat
    const requestCapacity: nat
    var events: seq<Event>
    var eventTotal: nat
    var requests: seq<RequestDiagnostic>
    var requestTotal: nat
    var nextRequestSequence: nat
    /** Requests begun and not finalised, with the number their first event gets. */
    var open: map<nat, nat>
    ghost var eventHistory: seq<Event>
    ghost var requestHistory: seq<RequestDiagnostic>
    /** Every request begun and every one finalised, in order. */
    ghost var ops: seq<Op>

    ghost predicate Valid()
      reads this
    {
      && events == Retained(eventHistory, eventCapacity) && eventTotal == |eventHistory|
      && (forall i :: 0 <= i < |eventHistory| ==> eventHistory[i].sequence == i + 1)
      && requests == Retained(requestHistory, requestCapacity) && requestTotal == |requestHistory|
      && JournalOk(nextRequestSequence, open.Keys, Sequences(requestHistory))
      && DoAll(START, ops) == Numbers(nextRequestSequence, open.Keys, Sequences(requestHistory))
    }

    constructor (eventCapacity: nat, requestCapacity: nat)
      ensures Valid() && eventHistory == [] && requestHistory == [] && ops == [] && open == map[]
      ensures nextRequestSequence == 1
      ensures this.eventCapacity == eventCapacity && this.requestCapacity == requestCapacity
    {
      this.eventCapacity, this.requestCapacity := eventCapacity, requestCapacity;
      events, eventTotal, requests, requestTotal, nextRequestSequence, open := [], 0, [], 0, 1, map[];
      eventHistory, requestHistory, ops := [], [], [];
      new;
      assert open.Keys == {} && Sequences(requestHistory) == [];
    }

    method RecordEvent(kind: string, request: nat) returns (e: Event)
      requires Valid()
      modifies this`events, this`eventTotal, this`eventHistory
      ensures Valid() && eventTotal == old(eventTotal) + 1 && e == Event(|eventHistory|, kind, request)
              && eventHistory == old(eventHistory) + [e]
    {
      hide JournalOk, DoAll, Sequences, Retained, Push;
      eventTotal := eventTotal + 1;
      e := Event(eventTotal, kind, request);
      PushRetains(eventHistory, eventCapacity, e);
      events := Push(events, eventCapacity, e);
      eventHistory := eventHistory + [e];
    }

    method BeginRequest() returns (sequence: nat)
      requires Valid()
      modifies this
      ensures Valid() && sequence == old(nextRequestSequence) && nextRequestSequence == sequence + 1
      ensures open == old(open)[sequence := |old(eventHistory)| + 1] && requestHistory == old(requestHistory)
      ensures eventHistory == old(eventHistory) + [Event(|eventHistory|, "request_registered", sequence)]
      ensures ops == old(ops) + [Begin]
    {
      hide JournalOk, Retained, DoAll, Sequences;
      sequence := nextRequestSequence;
      nextRequestSequence := nextRequestSequence + 1;
      BeginKeeps(sequence, open.Keys, Sequences(requestHistory));
      assert open.Keys + {sequence} == open[sequence := eventTotal + 1].Keys;
      open := open[sequence := eventTotal + 1];
      DoAllSnoc(START, ops, Begin);
      ops := ops + [Begin];
      var _ := RecordEvent("request_registered", sequence);
    }

    /** Raises, and records nothing, for a request that is not open: one already finalised or never begun. */
    method FinalizeRequest(sequence: nat, outcome: Outcome) returns (finalised: bool)
      requires Valid()
      modifies this
      ensures Valid() && nextRequestSequence == old(nextRequestSequence)
      ensures finalised <==> sequence in old(open)
      ensures !finalised ==>
                && open == old(open) && requestHistory == old(requestHistory) && eventHistory == old(eventHistory)
                && ops == old(ops)
      ensures finalised ==>
                && open == old(open) - {sequence} && ops == old(ops) + [Finalize(sequence)]
                && eventHistory == old(eventHistory) + [Event(|eventHistory|, "request_terminal", sequence)]
                && requestHistory == old(requestHistory)
                                     + [RequestDiagnostic(sequence, outcome, old(open)[sequence], |eventHistory|)]
    {
      hide JournalOk, Retained, Push, DoAll, Sequences;
      if sequence !in open {
        return false;
      }
      var terminal := RecordEvent("request_terminal", sequence);
      var summary := RequestDiagnostic(sequence, outcome, open[sequence], terminal.sequence);
      FinalizeKeeps(nextRequestSequence, open.Keys, Sequences(requestHistory), sequence);
      DoAllSnoc(START, ops, Finalize(sequence));
      assert (open - {sequence}).Keys == open.Keys - {sequence};
      ops := ops + [Finalize(sequence)];
      open := open - {sequence};
      requestTotal := requestTotal + 1;
      SequencesAppend(requestHistory, summary);
      PushRetains(requestHistory, requestCapacity, summary);
      requests := Push(requests, requestCapacity, summary);
      requestHistory := requestHistory + [summary];
      return true;
    }

    function TakeSnapshot(): Snapshot
      reads this
    {
      Snapshot(eventCapacity, eventTotal, if eventTotal < |events| then 0 else eventTotal - |events|, events,
               requestCapacity, requestTotal,
               if requestTotal < |requests| then 0 else requestTotal - |requests|, requests)
    }
  }

  // ---------- request numbers ----------

  function Sequences(history: seq<RequestDiagnostic>): seq<nat> {
    seq(|history|, i requires 0 <= i < |history| => history[i].requestSequence)
  }

  lemma SequencesAppend(history: seq<RequestDiagnostic>, r: RequestDiagnostic)
    ensures Sequences(history + [r]) == Sequences(history) + [r.requestSequence]
  {
  }

  /** Every number given out so far is either open or finalised exactly once. */
  ghost predicate JournalOk(next: nat, open: set<nat>, finalised: seq<nat>) {
    && next >= 1
    && (forall s: nat :: 1 <= s < next <==> s in open || s in finalised)
    && (forall i :: 0 <= i < |finalised| ==> finalised[i] !in open)
    && (forall i, j :: 0 <= i < j < |finalised| ==> finalised[i] != finalised[j])
    && |open| + |finalised| == next - 1
  }

  lemma BeginKeeps(next: nat, open: set<nat>, finalised: seq<nat>)
    requires JournalOk(next, open, finalised)
    ensures JournalOk(next + 1, open + {next}, finalised)
  {
    forall i | 0 <= i < |finalised| ensures finalised[i] !in open + {next} {
      assert finalised[i] in finalised;
    }
  }

  lemma FinalizeKeeps(next: nat, open: set<nat>, finalised: seq<nat>, s: nat)
    requires JournalOk(next, open, finalised) && s in open
    ensures JournalOk(next, open - {s}, finalised + [s])
  {
    forall x: nat | true ensures 1 <= x < next <==> x in open - {s} || x in finalised + [s] {
      assert x in finalised + [s] <==> x in finalised || x == s;
    }
  }

  // ---------- phase deltas ----------

  /** `tuple(event for event in after.events if event.sequence > cursor)`. */
  function EventsSince(events: seq<Event>, cursor: nat): seq<Event> {
    if events == [] then []
    else (if events[0].sequence > cursor then [events[0]] else []) + EventsSince(events[1..], cursor)
  }

  function RequestsSince(requests: seq<RequestDiagnostic>, cursor: nat): seq<RequestDiagnostic> {
    if requests == [] then []
    else (if requests[0].requestSequence > cursor then [requests[0]] else []) + RequestsSince(requests[1..], cursor)
  }

  datatype Delta = Delta(requests: seq<RequestDiagnostic>, requestsComplete: bool, events: seq<Event>,
      eventsComplete: bool)

  function DiagnosticDelta(before: Snapshot, after: Snapshot): Delta {
    var requests := RequestsSince(after.requests, before.requestsTotal);
    var events := EventsSince(after.events, before.eventsTotal);
    Delta(requests, |requests| == after.requestsTotal - before.requestsTotal,
          events, |events| == after.eventsTotal - before.eventsTotal)
  }

  lemma {:induction false} EventsSplit(low: seq<Event>, high: seq<Event>, cursor: nat)
    requires forall i :: 0 <= i < |low| ==> low[i].sequence <= cursor
    requires forall i :: 0 <= i < |high| ==> high[i].sequence > cursor
    ensures EventsSince(low + high, cursor) == high
    decreases |low| + |high|
  {
    if low != [] {
      assert (low + high)[1..] == low[1..] + high;
      EventsSplit(low[1..], high, cursor);
    } else if high != [] {
      assert [] + high == high;
      EventsSplit([], high[1..], cursor);
      assert [] + high[1..] == high[1..];
    }
  }

  lemma {:induction false} RequestsSplit(low: seq<RequestDiagnostic>, high: seq<RequestDiagnostic>, cursor: nat)
    requires forall i :: 0 <= i < |low| ==> low[i].requestSequence <= cursor
    requires forall i :: 0 <= i < |high| ==> high[i].requestSequence > cursor
    ensures RequestsSince(low + high, cursor) == high
    decreases |low| + |high|
  {
    if low != [] {
      assert (low + high)[1..] == low[1..] + high;
      RequestsSplit(low[1..], high, cursor);
    } else if high != [] {
      assert [] + high == high;
      RequestsSplit([], high[1..], cursor);
      assert [] + high[1..] == high[1..];
    }
  }

  lemma RetainedInParts<T>(history: seq<T>, capacity: nat, cursor: nat) returns (low: seq<T>)
    requires cursor <= |history|
    ensures Retained(history, capacity) == low + RetainedSince(history, capacity, cursor)
    ensures forall i :: 0 <= i < |low| ==> low[i] in history[..cursor]
    ensures |RetainedSince(history, capacity, cursor)| == |history| - cursor <==> |history| - cursor <= capacity
  {
    var from := if |history| <= capacity then 0 else |history| - capacity;
    low := if from < cursor then history[from..cursor] else [];
    forall i | 0 <= i < |low| ensures low[i] in history[..cursor] {
      assert low[i] == history[..cursor][from + i];
    }
  }

  /**
   * The event delta between two snapshots is exactly the retained events recorded after the first, and the
   * completeness flag is true exactly when none of them was evicted.
   */
  lemma EventDeltaExact(before: Snapshot, after: Snapshot, early: seq<Event>, late: seq<Event>)
    requires Extends(early, late) && forall i :: 0 <= i < |late| ==> late[i].sequence == i + 1
    requires before.eventsTotal == |early| && after.eventsTotal == |late|
             && after.events == Retained(late, after.eventCapacity)
    ensures DiagnosticDelta(before, after).events == RetainedSince(late, after.eventCapacity, |early|)
    ensures DiagnosticDelta(before, after).eventsComplete <==> |late| - |early| <= after.eventCapacity
  {
    var low := RetainedInParts(late, after.eventCapacity, |early|);
    var high := RetainedSince(late, after.eventCapacity, |early|);
    forall i | 0 <= i < |low| ensures low[i].sequence <= |early| {
      assert low[i] in late[..|early|];
    }
    EventsSplit(low, high, |early|);
  }

  /** At the first snapshot no open request is older than a finalised one: given one request at a time, always so. */
  ghost predicate InOrder(open: set<nat>, finalised: seq<nat>) {
    forall s :: s in open ==> s > |finalised|
  }

  lemma RangeSize(lo: nat, hi: nat) returns (s: set<nat>)
    requires lo <= hi
    ensures |s| == hi - lo && forall x: nat :: x in s <==> lo < x <= hi
    decreases hi - lo
  {
    if lo == hi {
      s := {};
    } else {
      s := RangeSize(lo, hi - 1);
      s := s + {hi};
    }
  }

  lemma SubsetSize<T>(a: set<T>, b: set<T>)
    requires a <= b
    ensures |a| <= |b| && (|a| == |b| ==> a == b)
  {
    assert |b - a| == |b| - |a|;
    assert a != b ==> b - a != {};
  }

  /** In order, the finalised numbers are exactly the first ones given out. */
  lemma FinalisedAreFirst(next: nat, open: set<nat>, finalised: seq<nat>)
    requires JournalOk(next, open, finalised) && InOrder(open, finalised)
    ensures forall i :: 0 <= i < |finalised| ==> finalised[i] <= |finalised|
    ensures next > |finalised|
  {
    var n := |finalised|;
    var above := RangeSize(n, next - 1);
    forall s | s in open ensures s in above {
      assert 1 <= s < next;
    }
    SubsetSize(open, above);
    forall i | 0 <= i < |finalised| ensures finalised[i] <= n {
      assert finalised[i] in finalised;
      assert finalised[i] !in above;
    }
  }

  /** Later entries come from requests that were open then or begun since. */
  ghost predicate LaterThan(next: nat, open: set<nat>, early: seq<nat>, late: seq<nat>) {
    Extends(early, late) && forall i :: |early| <= i < |late| ==> late[i] in open || late[i] >= next
  }

  /**
   * The request delta is exactly the retained requests finalised after the first snapshot, and its flag is true exactly
   * when none was evicted, provided requests were finalised in order up to that snapshot.
   */
  lemma RequestDeltaExact(before: Snapshot, after: Snapshot, next: nat, open: set<nat>,
                          early: seq<RequestDiagnostic>, late: seq<RequestDiagnostic>)
    requires JournalOk(next, open, Sequences(early)) && InOrder(open, Sequences(early))
    requires Extends(early, late) && LaterThan(next, open, Sequences(early), Sequences(late))
    requires before.requestsTotal == |early| && after.requestsTotal == |late|
    requires after.requests == Retained(late, after.requestCapacity)
    ensures DiagnosticDelta(before, after).requests == RetainedSince(late, after.requestCapacity, |early|)
    ensures DiagnosticDelta(before, after).requestsComplete <==> |late| - |early| <= after.requestCapacity
  {
    FinalisedAreFirst(next, open, Sequences(early));
    var low := RetainedInParts(late, after.requestCapacity, |early|);
    OlderEntries(early, late, low);
    NewerEntries(next, open, early, late, after.requestCapacity);
    hide JournalOk, InOrder, LaterThan, RetainedSince, Retained;
    RequestsSplit(low, RetainedSince(late, after.requestCapacity, |early|), |early|);
  }

  lemma OlderEntries(early: seq<RequestDiagnostic>, late: seq<RequestDiagnostic>, low: seq<RequestDiagnostic>)
    requires Extends(early, late) && forall i :: 0 <= i < |early| ==> Sequences(early)[i] <= |early|
    requires forall i :: 0 <= i < |low| ==> low[i] in late[..|early|]
    ensures forall i :: 0 <= i < |low| ==> low[i].requestSequence <= |early|
  {
    forall i | 0 <= i < |low| ensures low[i].requestSequence <= |early| {
      var j :| 0 <= j < |early| && early[j] == low[i];
      assert Sequences(early)[j] == low[i].requestSequence;
    }
  }

  lemma NewerEntries(next: nat, open: set<nat>, early: seq<RequestDiagnostic>, late: seq<RequestDiagnostic>,
      capacity: nat)
    requires Extends(early, late) && LaterThan(next, open, Sequences(early), Sequences(late))
    requires InOrder(open, Sequences(early)) && next > |early|
    ensures var high := RetainedSince(late, capacity, |early|);
            forall i :: 0 <= i < |high| ==> high[i].requestSequence > |early|
  {
    var high := RetainedSince(late, capacity, |early|);
    forall i | 0 <= i < |high| ensures high[i].requestSequence > |early| {
      var j := i + |late| - |high|;
      assert high[i] == late[j] && Sequences(late)[j] == high[i].requestSequence;
    }
  }

  lemma {:induction false} FilterKeepsOnlyNewer(requests: seq<RequestDiagnostic>, cursor: nat)
    ensures forall i ::
            0 <= i < |RequestsSince(requests, cursor)| ==> RequestsSince(requests, cursor)[i].requestSequence > cursor
  {
    if requests != [] {
      FilterKeepsOnlyNewer(requests[1..], cursor);
    }
  }

  // ---------- request numbers over whole runs ----------

  datatype Numbers = Numbers(next: nat, open: set<nat>, finalised: seq<nat>)

  datatype Op = Begin | Finalize(sequence: nat)

  function Do(n: Numbers, op: Op): Numbers {
    match op
    case Begin => Numbers(n.next + 1, n.open + {n.next}, n.finalised)
    case Finalize(s) => if s in n.open then Numbers(n.next, n.open - {s}, n.finalised + [s]) else n
  }

  function DoAll(n: Numbers, ops: seq<Op>): Numbers {
    if ops == [] then n else Do(DoAll(n, ops[..|ops| - 1]), ops[|ops| - 1])
  }

  /** Before any request. */
  const START := Numbers(1, {}, [])

  lemma DoAllSnoc(n: Numbers, ops: seq<Op>, op: Op)
    ensures DoAll(n, ops + [op]) == Do(DoAll(n, ops), op)
  {
    assert (ops + [op])[..|ops|] == ops;
  }

  lemma {:induction false} DoAllAppend(n: Numbers, a: seq<Op>, b: seq<Op>)
    ensures DoAll(n, a + b) == DoAll(DoAll(n, a), b)
    decreases |b|
  {
    if b == [] {
      assert a + b == a;
    } else {
      assert (a + b)[..|a + b| - 1] == a + b[..|b| - 1];
      DoAllAppend(n, a, b[..|b| - 1]);
    }
  }

  /** Whatever is begun and finalised after a snapshot, the journal's numbers stay sound and new entries are later
      ones. */
  lemma {:induction false} LaterOverRuns(n: Numbers, ops: seq<Op>)
    requires JournalOk(n.next, n.open, n.finalised)
    ensures var m := DoAll(n, ops);
            && JournalOk(m.next, m.open, m.finalised) && m.next >= n.next
            && (forall s :: s in m.open ==> s in n.open || s >= n.next)
            && LaterThan(n.next, n.open, n.finalised, m.finalised)
    decreases |ops|
  {
    hide JournalOk;
    if ops != [] {
      var before, op := DoAll(n, ops[..|ops| - 1]), ops[|ops| - 1];
      LaterOverRuns(n, ops[..|ops| - 1]);
      if op.Begin? {
        BeginKeeps(before.next, before.open, before.finalised);
      } else if op.sequence in before.open {
        FinalizeKeeps(before.next, before.open, before.finalised, op.sequence);
      }
    }
  }

  /** A request is begun only once its predecessor is finalised. */
  ghost predicate OneAtATime(n: Numbers, ops: seq<Op>) {
    forall i :: 0 <= i < |ops| && ops[i].Begin? ==> DoAll(n, ops[..i]).open == {}
  }

  /** What the lock keeps: at most the newest request is open, so none is older than a finalised one. */
  ghost predicate Locked(n: Numbers) {
    && JournalOk(n.next, n.open, n.finalised) && InOrder(n.open, n.finalised)
    && (n.open == {} || n.open == {n.next - 1}) && n.next == |n.finalised| + |n.open| + 1
  }

  lemma BeginLocked(n: Numbers)
    requires Locked(n) && n.open == {}
    ensures Locked(Do(n, Begin))
  {
    BeginKeeps(n.next, n.open, n.finalised);
    hide JournalOk;
    assert n.open + {n.next} == {n.next};
  }

  lemma FinalizeLocked(n: Numbers, s: nat)
    requires Locked(n)
    ensures Locked(Do(n, Finalize(s)))
  {
    if s in n.open {
      FinalizeKeeps(n.next, n.open, n.finalised, s);
      hide JournalOk;
      assert n.open == {s};
      assert n.open - {s} == {};
    }
  }

  /** The session's request lock begins requests one at a time, and then the order holds at every point of the run. */
  lemma {:induction false} LockKeepsOrder(ops: seq<Op>)
    requires OneAtATime(START, ops)
    ensures Locked(DoAll(START, ops))
    decreases |ops|
  {
    if ops == [] {
      NothingLocked();
    } else {
      var last := |ops| - 1;
      assert forall i :: 0 <= i < last ==> ops[..last][..i] == ops[..i];
      LockKeepsOrder(ops[..last]);
      hide Locked, Do;
      match ops[last]
      case Begin => BeginLocked(DoAll(START, ops[..last]));
      case Finalize(s) => FinalizeLocked(DoAll(START, ops[..last]), s);
    }
  }

  lemma NothingLocked()
    ensures Locked(DoAll(START, []))
  {
  }

  // ---------- when the request delta is exact ----------

  /** A snapshot of a journal that has only finalised these requests. */
  function Showing(history: seq<RequestDiagnostic>, capacity: nat): Snapshot {
    var retained := Retained(history, capacity);
    Snapshot(0, 0, 0, [], capacity, |history|, |history| - |retained|, retained)
  }

  /** The delta is what was retained of the requests finalised since, and its flag says whether nothing was evicted. */
  ghost predicate DeltaExact(early: seq<RequestDiagnostic>, late: seq<RequestDiagnostic>, capacity: nat)
    requires |early| <= |late|
  {
    var delta := DiagnosticDelta(Showing(early, capacity), Showing(late, capacity));
    && delta.requests == RetainedSince(late, capacity, |early|)
    && (delta.requestsComplete <==> |late| - |early| <= capacity)
  }

  /** `late` is a journal that was `early` and has since gone through `ops`. */
  predicate GrownBy(early: seq<RequestDiagnostic>, late: seq<RequestDiagnostic>, n: Numbers, ops: seq<Op>) {
    Extends(early, late) && Sequences(late) == DoAll(n, ops).finalised
  }

  ghost predicate ExactEverAfter(early: seq<RequestDiagnostic>, n: Numbers, capacity: nat) {
    forall ops: seq<Op>, late: seq<RequestDiagnostic> | GrownBy(early, late, n, ops) ::
      DeltaExact(early, late, capacity)
  }

  lemma GrownExact(early: seq<RequestDiagnostic>, late: seq<RequestDiagnostic>, n: Numbers, ops: seq<Op>, capacity: nat)
    requires JournalOk(n.next, n.open, n.finalised) && InOrder(n.open, n.finalised) && n.finalised == Sequences(early)
    requires GrownBy(early, late, n, ops)
    ensures DeltaExact(early, late, capacity)
  {
    LaterOverRuns(n, ops);
    hide JournalOk, InOrder, DoAll, Retained, RequestsSince, RetainedSince, LaterThan;
    RequestDeltaExact(Showing(early, capacity), Showing(late, capacity), n.next, n.open, early, late);
  }

  /** An older request that is still open at the cursor, finalised next, is retained and yet missing. */
  lemma OutOfOrderLost(early: seq<RequestDiagnostic>, n: Numbers, s: nat, last: RequestDiagnostic, capacity: nat)
    requires n.finalised == Sequences(early) && capacity >= 1
    requires s in n.open && s <= |early| && last.requestSequence == s
    ensures GrownBy(early, early + [last], n, [Finalize(s)])
    ensures RetainedSince(early + [last], capacity, |early|) == [last]
    ensures last !in DiagnosticDelta(Showing(early, capacity), Showing(early + [last], capacity)).requests
    ensures !DeltaExact(early, early + [last], capacity)
  {
    var late := early + [last];
    DoAllSnoc(n, [], Finalize(s));
    assert [] + [Finalize(s)] == [Finalize(s)];
    SequencesAppend(early, last);
    FilterKeepsOnlyNewer(Retained(late, capacity), |early|);
    assert RetainedSince(late, capacity, |early|) == [last];
    assert last in [last];
  }

  /**
   * The delta read back with a cursor is exact after everything that can happen next if and only if no request open at
   * the cursor is older than one finalised by then.
   */
  lemma RequestDeltaExactly(early: seq<RequestDiagnostic>, n: Numbers, capacity: nat)
    requires JournalOk(n.next, n.open, n.finalised) && n.finalised == Sequences(early) && capacity >= 1
    ensures ExactEverAfter(early, n, capacity) <==> InOrder(n.open, n.finalised)
  {
    hide DeltaExact, JournalOk, GrownBy;
    if InOrder(n.open, n.finalised) {
      forall ops: seq<Op>, late: seq<RequestDiagnostic> | GrownBy(early, late, n, ops)
        ensures |early| <= |late| && DeltaExact(early, late, capacity)
      {
        GrownExact(early, late, n, ops, capacity);
        GrownIsLonger(early, late, n, ops);
      }
    } else {
      var s :| s in n.open && s <= |early|;
      var last := RequestDiagnostic(s, Success, 0, 0);
      OutOfOrderLost(early, n, s, last, capacity);
      assert !ExactEverAfter(early, n, capacity);
    }
  }

  lemma GrownIsLonger(early: seq<RequestDiagnostic>, late: seq<RequestDiagnostic>, n: Numbers, ops: seq<Op>)
    requires GrownBy(early, late, n, ops)
    ensures |early| <= |late|
  {
  }

  /** Two requests begin, and the second is finalised first. */
  lemma SecondFinalisedFirst()
    ensures DoAll(START, [Begin, Begin, Finalize(2)]) == Numbers(3, {1}, [2])
  {
    var one, two, three := [Begin], [Begin, Begin], [Begin, Begin, Finalize(2)];
    assert one == [] + [Begin] && two == one + [Begin] && three == two + [Finalize(2)];
    DoAllSnoc(START, [], Begin);
    DoAllSnoc(START, one, Begin);
    DoAllSnoc(START, two, Finalize(2));
    DoNothing(START);
    hide DoAll;
    assert Do(START, Begin) == Numbers(2, {1}, []);
    assert Do(Numbers(2, {1}, []), Begin) == Numbers(3, {1, 2}, []);
    assert {1, 2} - {2} == {1};
  }

  lemma FirstFinalisedLast(n: Numbers)
    requires n == Numbers(3, {1}, [2])
    ensures JournalOk(n.next, n.open, n.finalised) && DoAll(n, [Finalize(1)]).finalised == [2, 1]
  {
    LaterOverRuns(START, [Begin, Begin, Finalize(2)]);
    SecondFinalisedFirst();
    NothingDone();
    hide DoAll, JournalOk;
    var one: seq<Op> := [];
    assert [Finalize(1)] == one + [Finalize(1)];
    DoAllSnoc(n, one, Finalize(1));
    DoNothing(n);
  }

  lemma NothingDone()
    ensures JournalOk(START.next, START.open, START.finalised)
  {
  }

  lemma DoNothing(n: Numbers)
    ensures DoAll(n, []) == n
  {
  }

  /**
   * Worse, with several requests open the flag can report a complete history over the wrong entry: two requests begin,
   * the second is finalised before the cursor and the first after it.
   */
  lemma CompleteWithTheWrongEntry(first: RequestDiagnostic, second: RequestDiagnostic, capacity: nat)
    requires first.requestSequence == 1 && second.requestSequence == 2 && capacity >= 2
    ensures var n := DoAll(START, [Begin, Begin, Finalize(2)]);
            && JournalOk(n.next, n.open, n.finalised) && n.finalised == Sequences([second])
            && GrownBy([second], [second, first], n, [Finalize(1)])
    ensures var delta := DiagnosticDelta(Showing([second], capacity), Showing([second, first], capacity));
            delta.requests == [second] && delta.requestsComplete
    ensures RetainedSince([second, first], capacity, 1) == [first]
  {
    WrongRun(first, second);
    WrongDelta(first, second, capacity);
    hide *;
  }

  lemma WrongRun(first: RequestDiagnostic, second: RequestDiagnostic)
    requires first.requestSequence == 1 && second.requestSequence == 2
    ensures var n := DoAll(START, [Begin, Begin, Finalize(2)]);
            && JournalOk(n.next, n.open, n.finalised) && n.finalised == Sequences([second])
            && GrownBy([second], [second, first], n, [Finalize(1)])
  {
    SecondFinalisedFirst();
    FirstFinalisedLast(DoAll(START, [Begin, Begin, Finalize(2)]));
    TwoNumbers(first, second);
    hide DoAll, JournalOk, Sequences;
    assert [second, first][..1] == [second];
  }

  lemma TwoNumbers(first: RequestDiagnostic, second: RequestDiagnostic)
    requires first.requestSequence == 1 && second.requestSequence == 2
    ensures Sequences([second]) == [2] && Sequences([second, first]) == [2, 1]
  {
  }

  lemma WrongDelta(first: RequestDiagnostic, second: RequestDiagnostic, capacity: nat)
    requires first.requestSequence == 1 && second.requestSequence == 2 && capacity >= 2
    ensures var delta := DiagnosticDelta(Showing([second], capacity), Showing([second, first], capacity));
            delta.requests == [second] && delta.requestsComplete
    ensures RetainedSince([second, first], capacity, 1) == [first]
  {
    var late := [second, first];
    assert late[1..] == [first] && [first][1..] == [];
    assert RequestsSince([], 1) == [] && RequestsSince([first], 1) == [];
    assert RequestsSince(late, 1) == [second] + RequestsSince([first], 1);
    assert Retained(late, capacity) == late && |late| - |[second]| == 1;
  }

  /** Two snapshots of one journal whose requests are begun one at a time: both deltas are exact. */
  twostate lemma PhaseExact(journal: LuxReadDiagnosticJournal)
    requires old(journal.Valid()) && journal.Valid() && OneAtATime(START, journal.ops)
    requires old(journal.ops) <= journal.ops
    requires Extends(old(journal.eventHistory), journal.eventHistory)
    requires Extends(old(journal.requestHistory), journal.requestHistory)
    ensures var d := DiagnosticDelta(old(journal.TakeSnapshot()), journal.TakeSnapshot());
            var requests, events := |old(journal.requestHistory)|, |old(journal.eventHistory)|;
            && d.requests == RetainedSince(journal.requestHistory, journal.requestCapacity, requests)
            && (d.requestsComplete <==> |journal.requestHistory| - requests <= journal.requestCapacity)
            && d.events == RetainedSince(journal.eventHistory, journal.eventCapacity, events)
            && (d.eventsComplete <==> |journal.eventHistory| - events <= journal.eventCapacity)
  {
    hide JournalOk, InOrder, DoAll, Retained, RequestsSince, RetainedSince, EventsSince;
    var before, after := old(journal.TakeSnapshot()), journal.TakeSnapshot();
    var opsBefore, since := old(journal.ops), journal.ops[|old(journal.ops)|..];
    var n := DoAll(START, opsBefore);
    assert journal.ops == opsBefore + since;
    DoAllAppend(START, opsBefore, since);
    assert forall i :: 0 <= i < |opsBefore| ==> opsBefore[..i] == journal.ops[..i];
    LockKeepsOrder(opsBefore);
    EventDeltaExact(before, after, old(journal.eventHistory), journal.eventHistory);
    GrownExact(old(journal.requestHistory), journal.requestHistory, n, since, journal.requestCapacity);
    hide OneAtATime;
  }

  // ---------- deltas that count instead of comparing numbers ----------

  datatype CountedDelta<T> = CountedDelta(entries: seq<T>, recorded: int, unretained: int, complete: bool)

  /** `_recovery_metrics_delta`'s view of the bounded recovery events. */
  function RecoveryDelta<T>(recordedBefore: nat, recordedAfter: nat, events: seq<T>): CountedDelta<T> {
    var recorded := recordedAfter - recordedBefore;
    var positive := if recorded > 0 then recorded else 0;
    var retained := if positive < |events| then positive else |events|;
    var unretained := if recorded - retained > 0 then recorded - retained else 0;
    CountedDelta(events[|events| - retained..], recorded, unretained, unretained == 0)
  }

  /** `_metrics_delta`'s view of the bounded latency samples: `values[-n:]`, clamped as Python slices are. */
  function LatencyDelta<T>(totalBefore: nat, totalAfter: nat, values: seq<T>): CountedDelta<T> {
    var added := totalAfter - totalBefore;
    var kept := if added == 0 then []
                else if added >= |values| then values
                else if added > 0 then values[|values| - added..]
                else if -added >= |values| then []
                else values[-added..];
    CountedDelta(kept, added, added - |kept|, !(added > |kept|))
  }

  /** Both return exactly the retained entries recorded since, and are complete exactly when nothing was evicted. */
  lemma CountedDeltasExact<T>(early: seq<T>, late: seq<T>, capacity: nat)
    requires Extends(early, late)
    ensures var d := RecoveryDelta(|early|, |late|, Retained(late, capacity));
            && d.entries == RetainedSince(late, capacity, |early|) && (d.complete <==> |late| - |early| <= capacity)
            && d.unretained == |late| - |early| - |d.entries|
    ensures var d := LatencyDelta(|early|, |late|, Retained(late, capacity));
            && d.entries == RetainedSince(late, capacity, |early|) && (d.complete <==> |late| - |early| <= capacity)
  {
    var log := Retained(late, capacity);
    var since := RetainedSince(late, capacity, |early|);
    assert log[|log| - |since|..] == since;
  }
}
