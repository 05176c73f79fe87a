/** The session's register maps, and the history of accepted observations they stand for. */
module ObservationStore {
  import opened SessionProtocol

  datatype Source = FromExplicit | FromUnsolicited

  /** The dictionaries `_route_frame` updates for an accepted frame, and its sequence counter. */
  datatype Store = Store(
    values: map<int, nat>,
    observedAt: map<int, int>,
    sources: map<int, Source>,
    sequences: map<int, nat>,
    ranges: map<int, (int, nat)>,
    explicitAt: map<int, int>,
    unsolicitedAt: map<int, int>,
    lastBlock: map<(int, nat), seq<nat>>,
    sequence: nat)

  const EMPTY := Store(map[], map[], map[], map[], map[], map[], map[], map[], 0)

  /** `m.update({register: v for register in range(start, start + count)})`. */
  function Fill<T>(m: map<int, T>, start: int, count: nat, v: T): map<int, T> {
    if count == 0 then m else Fill(m, start, count - 1, v)[start + count - 1 := v]
  }

  lemma {:induction false} FillAt<T>(m: map<int, T>, start: int, count: nat, v: T, r: int)
    ensures r in Fill(m, start, count, v) <==> r in m || start <= r < start + count
    ensures start <= r < start + count ==> Fill(m, start, count, v)[r] == v
    ensures r in m && !(start <= r < start + count) ==> Fill(m, start, count, v)[r] == m[r]
  {
    if count > 0 {
      FillAt(m, start, count - 1, v, r);
    }
  }

  /** `m.update(values)` for consecutive registers. */
  function Write(m: map<int, nat>, start: int, values: seq<nat>): map<int, nat> {
    if values == [] then m
    else
      var last := |values| - 1;
      Write(m, start, values[..last])[start + last := values[last]]
  }

  lemma {:induction false} WriteAt(m: map<int, nat>, start: int, values: seq<nat>, r: int)
    ensures r in Write(m, start, values) <==> r in m || start <= r < start + |values|
    ensures start <= r < start + |values| ==> Write(m, start, values)[r] == values[r - start]
    ensures r in m && !(start <= r < start + |values|) ==> Write(m, start, values)[r] == m[r]
  {
    if values != [] {
      WriteAt(m, start, values[..|values| - 1], r);
    }
  }

  function Key(a: Accepted): (int, nat) {
    (a.start, |a.values|)
  }

  function SourceOf(a: Accepted): Source {
    if a.request.Some? then FromExplicit else FromUnsolicited
  }

  function Record(s: Store, a: Accepted): Store {
    var n := |a.values|;
    Store(Write(s.values, a.start, a.values),
          Fill(s.observedAt, a.start, n, a.at),
          Fill(s.sources, a.start, n, SourceOf(a)),
          Fill<nat>(s.sequences, a.start, n, s.sequence + 1),
          Fill<(int, nat)>(s.ranges, a.start, n, Key(a)),
          if a.request.Some? then Fill(s.explicitAt, a.start, n, a.at) else s.explicitAt,
          if a.request.Some? then s.unsolicitedAt else Fill(s.unsolicitedAt, a.start, n, a.at),
          s.lastBlock[Key(a) := a.values],
          s.sequence + 1)
  }

  predicate Duplicate(s: Store, a: Accepted) {
    Key(a) in s.lastBlock && s.lastBlock[Key(a)] == a.values
  }

  function StoreOf(log: seq<Accepted>): Store {
    if log == [] then EMPTY else Record(StoreOf(log[..|log| - 1]), log[|log| - 1])
  }

  // ---------- the fields of the source ----------

  class RegisterStore {
    var inputRegisters: map<int, nat>
    var inputObservedAt: map<int, int>
    var inputSources: map<int, Source>
    var inputObservationSequences: map<int, nat>
    var inputObservationRanges: map<int, (int, nat)>
    var explicitObservedAt: map<int, int>
    var unsolicitedObservedAt: map<int, int>
    var lastBlockValues: map<(int, nat), seq<nat>>
    var observationSequence: nat

    ghost function Model(): Store
      reads this
    {
      Store(inputRegisters, inputObservedAt, inputSources, inputObservationSequences, inputObservationRanges,
            explicitObservedAt, unsolicitedObservedAt, lastBlockValues, observationSequence)
    }

    constructor ()
      ensures Model() == EMPTY
    {
      inputRegisters, inputObservedAt, inputSources := map[], map[], map[];
      inputObservationSequences, inputObservationRanges := map[], map[];
      explicitObservedAt, unsolicitedObservedAt, lastBlockValues := map[], map[], map[];
      observationSequence := 0;
    }

    /** Update the maps in place for one accepted frame, as the router does. */
    method Accept(a: Accepted) returns (duplicate: bool)
      modifies this
      ensures Model() == Record(old(Model()), a)
      ensures duplicate == Duplicate(old(Model()), a)
    {
      hide Fill, Write;
      var n := |a.values|;
      var key: (int, nat) := (a.start, n);
      duplicate := key in lastBlockValues && lastBlockValues[key] == a.values;
      inputRegisters := Write(inputRegisters, a.start, a.values);
      inputObservedAt := Fill(inputObservedAt, a.start, n, a.at);
      var source := if a.request.Some? then FromExplicit else FromUnsolicited;
      inputSources := Fill(inputSources, a.start, n, source);
      if a.request.Some? {
        explicitObservedAt := Fill(explicitObservedAt, a.start, n, a.at);
      } else {
        unsolicitedObservedAt := Fill(unsolicitedObservedAt, a.start, n, a.at);
      }
      lastBlockValues := lastBlockValues[key := a.values];
      observationSequence := observationSequence + 1;
      inputObservationSequences := Fill<nat>(inputObservationSequences, a.start, n, observationSequence);
      inputObservationRanges := Fill<(int, nat)>(inputObservationRanges, a.start, n, key);
    }
  }

  // ---------- history ----------

  datatype Kind = Any | OnlyExplicit | OnlyUnsolicited

  predicate Covers(a: Accepted, r: int, kind: Kind) {
    && a.start <= r < a.start + |a.values|
    && (kind.OnlyExplicit? ==> a.request.Some?) && (kind.OnlyUnsolicited? ==> a.request.None?)
  }

  /** Place of the newest observation of register `r`, or -1. */
  function Newest(log: seq<Accepted>, r: int, kind: Kind): (k: int)
    ensures -1 <= k < |log|
    ensures k >= 0 ==> Covers(log[k], r, kind)
    ensures forall j :: k < j < |log| ==> !Covers(log[j], r, kind)
  {
    if log == [] then -1
    else if Covers(log[|log| - 1], r, kind) then |log| - 1
    else Newest(log[..|log| - 1], r, kind)
  }

  function NewestBlock(log: seq<Accepted>, key: (int, nat)): (k: int)
    ensures -1 <= k < |log|
    ensures k >= 0 ==> Key(log[k]) == key
    ensures forall j :: k < j < |log| ==> Key(log[j]) != key
  {
    if log == [] then -1
    else if Key(log[|log| - 1]) == key then |log| - 1
    else NewestBlock(log[..|log| - 1], key)
  }

  /** All five maps know register `r` or none does, and they show its newest observation. */
  ghost predicate RegisterShown(s: Store, log: seq<Accepted>, r: int) {
    var k := Newest(log, r, Any);
    if k < 0 then
      r !in s.values && r !in s.observedAt && r !in s.sources && r !in s.sequences && r !in s.ranges
    else
      && r in s.values && r in s.observedAt && r in s.sources && r in s.sequences && r in s.ranges
      && var a := log[k];
         s.values[r] == a.values[r - a.start] && s.observedAt[r] == a.at
         && s.sources[r] == SourceOf(a)
         && s.sequences[r] == k + 1 && s.ranges[r] == Key(a)
  }

  ghost predicate SourceTimeShown(times: map<int, int>, log: seq<Accepted>, r: int, kind: Kind) {
    var k := Newest(log, r, kind);
    if k < 0 then r !in times else r in times && times[r] == log[k].at
  }

  ghost predicate BlockShown(s: Store, log: seq<Accepted>, key: (int, nat)) {
    var k := NewestBlock(log, key);
    if k < 0 then key !in s.lastBlock else key in s.lastBlock && s.lastBlock[key] == log[k].values
  }

  lemma NewestAfter(log: seq<Accepted>, a: Accepted, r: int, kind: Kind, key: (int, nat))
    ensures Newest(log + [a], r, kind) == if Covers(a, r, kind) then |log| else Newest(log, r, kind)
    ensures NewestBlock(log + [a], key) == if Key(a) == key then |log| else NewestBlock(log, key)
  {
    assert (log + [a])[..|log|] == log;
  }

  lemma RegisterAfter(s: Store, log: seq<Accepted>, a: Accepted, r: int)
    requires RegisterShown(s, log, r) && s.sequence == |log|
    ensures RegisterShown(Record(s, a), log + [a], r)
  {
    hide Newest, Fill, Write;
    var n := |a.values|;
    NewestAfter(log, a, r, Any, Key(a));
    WriteAt(s.values, a.start, a.values, r);
    FillAt(s.observedAt, a.start, n, a.at, r);
    FillAt(s.sources, a.start, n, SourceOf(a), r);
    FillAt<nat>(s.sequences, a.start, n, s.sequence + 1, r);
    FillAt<(int, nat)>(s.ranges, a.start, n, Key(a), r);
  }

  lemma SourceTimeAfter(times: map<int, int>, log: seq<Accepted>, a: Accepted, r: int, kind: Kind)
    requires SourceTimeShown(times, log, r, kind) && !kind.Any?
    ensures SourceTimeShown(if a.request.Some? == kind.OnlyExplicit? then Fill(times, a.start, |a.values|, a.at)
                            else times,
                            log + [a], r, kind)
  {
    hide Newest, Fill;
    NewestAfter(log, a, r, kind, Key(a));
    FillAt(times, a.start, |a.values|, a.at, r);
  }

  lemma BlockAfter(s: Store, log: seq<Accepted>, a: Accepted, key: (int, nat))
    requires BlockShown(s, log, key)
    ensures BlockShown(Record(s, a), log + [a], key)
  {
    hide NewestBlock;
    NewestAfter(log, a, 0, Any, key);
  }

  /** The store refines the history: after any run every map shows the newest observation, register by register. */
  lemma {:induction false} StoreRefinesHistory(log: seq<Accepted>, r: int, key: (int, nat))
    ensures var s := StoreOf(log);
            && s.sequence == |log|
            && RegisterShown(s, log, r)
            && SourceTimeShown(s.explicitAt, log, r, OnlyExplicit)
            && SourceTimeShown(s.unsolicitedAt, log, r, OnlyUnsolicited)
            && BlockShown(s, log, key)
    decreases |log|
  {
    if log != [] {
      hide RegisterShown, SourceTimeShown, BlockShown;
      var before, a := log[..|log| - 1], log[|log| - 1];
      assert log == before + [a];
      var s := StoreOf(before);
      StoreRefinesHistory(before, r, key);
      RegisterAfter(s, before, a, r);
      SourceTimeAfter(s.explicitAt, before, a, r, OnlyExplicit);
      SourceTimeAfter(s.unsolicitedAt, before, a, r, OnlyUnsolicited);
      BlockAfter(s, before, a, key);
    }
  }

  /** Observation `k` is the newest that covers register `r`. */
  predicate NewestFor(log: seq<Accepted>, r: int, k: nat) {
    && k < |log| && log[k].start <= r < log[k].start + |log[k].values|
    && forall j :: k < j < |log| ==> !(log[j].start <= r < log[j].start + |log[j].values|)
  }

  /**
   * What the maps show for a register, field by field: the newest observation that covers it, as explicit exactly when
   * that one completed a request; and nothing exactly when none covers it.
   */
  lemma ShownExactly(log: seq<Accepted>, r: int, k: nat)
    requires NewestFor(log, r, k)
    ensures var s, a := StoreOf(log), log[k];
            && r in s.values && r in s.observedAt && r in s.sources && r in s.sequences && r in s.ranges
            && s.values[r] == a.values[r - a.start] && s.observedAt[r] == a.at && s.sequences[r] == k + 1
            && s.ranges[r] == (a.start, |a.values|)
            && (s.sources[r] == FromExplicit <==> a.request.Some?)
            && (a.request.Some? ==> r in s.explicitAt && s.explicitAt[r] == a.at)
            && (a.request.None? ==> r in s.unsolicitedAt && s.unsolicitedAt[r] == a.at)
  {
    hide StoreOf;
    StoreRefinesHistory(log, r, (0, 0));
    var kind := if log[k].request.Some? then OnlyExplicit else OnlyUnsolicited;
    assert Covers(log[k], r, Any) && Covers(log[k], r, kind);
    assert Newest(log, r, Any) == k && Newest(log, r, kind) == k;
    hide Newest;
  }

  lemma UnknownExactly(log: seq<Accepted>, r: int)
    ensures r !in StoreOf(log).values
       <==> forall k :: 0 <= k < |log| ==> !(log[k].start <= r < log[k].start + |log[k].values|)
  {
    hide StoreOf;
    StoreRefinesHistory(log, r, (0, 0));
    if Newest(log, r, Any) < 0 {
      assert forall k :: 0 <= k < |log| ==> !Covers(log[k], r, Any);
    }
  }

  /** One sequence number stands for one observation: same time, same source, same range. */
  lemma SequenceIdentifies(log: seq<Accepted>, r: int, q: int)
    requires var s := StoreOf(log); r in s.sequences && q in s.sequences && s.sequences[r] == s.sequences[q]
    ensures var s := StoreOf(log);
            && q in s.observedAt && r in s.observedAt && s.observedAt[r] == s.observedAt[q]
            && q in s.sources && r in s.sources && s.sources[r] == s.sources[q]
            && q in s.ranges && r in s.ranges && s.ranges[r] == s.ranges[q]
  {
    hide StoreOf;
    StoreRefinesHistory(log, r, (0, 0));
    StoreRefinesHistory(log, q, (0, 0));
  }

  /** An observation is marked duplicate exactly when the previous one of the same range had the same values. */
  lemma DuplicateExactly(log: seq<Accepted>, a: Accepted)
    ensures Duplicate(StoreOf(log), a)
       <==> exists k :: 0 <= k < |log| && Key(log[k]) == Key(a) && log[k].values == a.values
                     && forall j :: k < j < |log| ==> Key(log[j]) != Key(a)
  {
    hide StoreOf;
    StoreRefinesHistory(log, 0, Key(a));
    var k := NewestBlock(log, Key(a));
    if k >= 0 && log[k].values == a.values {
      assert Key(log[k]) == Key(a) && forall j :: k < j < |log| ==> Key(log[j]) != Key(a);
    }
  }

  ghost predicate ClockNeverBack(log: seq<Accepted>) {
    forall j, k :: 0 <= j < k < |log| ==> log[j].at <= log[k].at
  }

  lemma NewestMovesForward(log: seq<Accepted>, longer: seq<Accepted>, r: int)
    requires |log| <= |longer| && longer[..|log|] == log && Newest(log, r, Any) >= 0 && ClockNeverBack(longer)
    ensures var k, m := Newest(log, r, Any), Newest(longer, r, Any);
            k <= m && log[k].at <= longer[m].at
  {
    var k := Newest(log, r, Any);
    assert longer[..|log|][k] == longer[k];
  }

  lemma ShownTime(log: seq<Accepted>, r: int)
    ensures var s := StoreOf(log); var k := Newest(log, r, Any);
            if k >= 0 then r in s.observedAt && s.observedAt[r] == log[k].at else r !in s.observedAt
  {
    StoreRefinesHistory(log, r, (0, 0));
    hide StoreOf, Newest, SourceTimeShown, BlockShown;
  }

  /** With a clock that never runs back, registers are never forgotten and never get older. */
  lemma TimesNeverRegress(log: seq<Accepted>, longer: seq<Accepted>, r: int)
    requires |log| <= |longer| && longer[..|log|] == log && ClockNeverBack(longer)
    requires r in StoreOf(log).observedAt
    ensures r in StoreOf(longer).observedAt && StoreOf(log).observedAt[r] <= StoreOf(longer).observedAt[r]
  {
    hide StoreOf, Newest, ClockNeverBack;
    ShownTime(log, r);
    ShownTime(longer, r);
    NewestMovesForward(log, longer, r);
  }
}
