/** Direct-energy values read back from the session's provenance maps. */
module DirectEnergy {
  import opened Options
  import opened Registers
  import opened SessionProtocol
  import opened ObservationStore

  const SOC_SOH := 5
  const PINV := 16
  const PREC := 17
  const PTOGRID := 26
  const PTOUSER := 27

  datatype Quality = Available | Missing | Invalid | Incoherent

  datatype ObservedValue = ObservedValue(
    value: Option<int>, observedAt: Option<int>, sources: seq<Option<Source>>, sequences: seq<Option<nat>>,
    ranges: seq<Option<(int, nat)>>, quality: Quality)

  function Lookup<V>(m: map<int, V>, r: int): Option<V> {
    if r in m then Some(m[r]) else None
  }

  function Lookups<V>(m: map<int, V>, registers: seq<int>): (o: seq<Option<V>>)
    ensures |o| == |registers|
  {
    seq(|registers|, i requires 0 <= i < |registers| => Lookup(m, registers[i]))
  }

  predicate AllKnown<V>(o: seq<Option<V>>) {
    forall i :: 0 <= i < |o| ==> o[i].Some?
  }

  /** `len(set(o)) == 1`. */
  predicate Uniform<V(==)>(o: seq<Option<V>>) {
    |o| > 0 && forall i :: 0 <= i < |o| ==> o[i] == o[0]
  }

  function Values<V>(o: seq<Option<V>>): seq<V>
    requires AllKnown(o)
  {
    seq(|o|, i requires 0 <= i < |o| => o[i].value)
  }

  function Oldest(o: seq<Option<int>>): Option<int>
    requires AllKnown(o)
  {
    if o == [] then None
    else
      var rest := Oldest(o[1..]);
      if rest.Some? && rest.value < o[0].value then rest else o[0]
  }

  /**
   * `_observed` as the direct-energy fields call it: provenance required, one observation required, and that one
   * spanning exactly the first hardware block.
   */
  function Observe(s: Store, registers: seq<int>, transform: seq<nat> -> int, valid: seq<nat> -> bool): ObservedValue {
    var values := Lookups(s.values, registers);
    var times := Lookups(s.observedAt, registers);
    var sources := Lookups(s.sources, registers);
    var sequences := Lookups(s.sequences, registers);
    var ranges := Lookups(s.ranges, registers);
    var complete := AllKnown(values) && AllKnown(times);
    var quality :=
      if !complete || !AllKnown(sources) then Missing
      else if !valid(Values(values)) then Invalid
      else if !AllKnown(sequences) || !Uniform(sequences) || !Uniform(times) || !Uniform(sources) then Incoherent
      else if exists i :: 0 <= i < |ranges| && ranges[i] != Some((0, HARDWARE_READ_BLOCK_SIZE)) then Incoherent
      else Available;
    ObservedValue(if quality.Available? then Some(transform(Values(values))) else None,
                  if complete then Oldest(times) else None, sources, sequences, ranges, quality)
  }

  function First(values: seq<nat>): int {
    if values == [] then 0 else values[0]
  }

  function Difference(values: seq<nat>): int {
    if |values| < 2 then 0 else (values[0] as int) - (values[1] as int)
  }

  function LowByte(values: seq<nat>): int {
    if values == [] then 0 else values[0] % 256
  }

  predicate ValidPower(values: seq<nat>) {
    forall i :: 0 <= i < |values| ==> values[i] != 0xFFFF
  }

  predicate ValidSoc(values: seq<nat>) {
    |values| > 0 && values[0] != 0xFFFF && values[0] % 256 <= 100
  }

  /** `_coherent_sequence`: one shared accepted-response identity, or nothing. */
  function CoherentSequence(a: ObservedValue, b: ObservedValue, c: ObservedValue, d: ObservedValue): Option<nat> {
    var sequences := a.sequences + b.sequences + c.sequences + d.sequences;
    var times := [a.observedAt, b.observedAt, c.observedAt, d.observedAt];
    var sources := a.sources + b.sources + c.sources + d.sources;
    var ranges := a.ranges + b.ranges + c.ranges + d.ranges;
    if || sequences == []
       || !(a.quality.Available? && b.quality.Available? && c.quality.Available? && d.quality.Available?)
       || !AllKnown(sequences) || !AllKnown(times) || !AllKnown(sources)
       || (exists i :: 0 <= i < |ranges| && ranges[i] != Some((0, HARDWARE_READ_BLOCK_SIZE)))
       || !Uniform(times) || !Uniform(sources)
    then None
    else if Uniform(sequences) then sequences[0] else None
  }

  datatype Snapshot = Snapshot(
    pinv: ObservedValue, prec: ObservedValue, grid: ObservedValue, soc: ObservedValue, coherentSequence: Option<nat>)

  function DirectEnergySnapshot(s: Store): Snapshot {
    var pinv := Observe(s, [PINV], First, ValidPower);
    var prec := Observe(s, [PREC], First, ValidPower);
    var grid := Observe(s, [PTOGRID, PTOUSER], Difference, ValidPower);
    var soc := Observe(s, [SOC_SOH], LowByte, ValidSoc);
    Snapshot(pinv, prec, grid, soc, CoherentSequence(pinv, prec, grid, soc))
  }

  // ---------- what coherence means in terms of the history ----------

  predicate FromPlace(log: seq<Accepted>, r: int, k: int) {
    Newest(log, r, Any) == k
  }

  /** Accepted frame number `n` spans registers 0-39, is the newest to touch all five, and is valid in them. */
  ghost predicate WholeBlock(log: seq<Accepted>, n: nat) {
    && 1 <= n <= |log|
    && var a := log[n - 1];
       && a.start == 0 && |a.values| == HARDWARE_READ_BLOCK_SIZE
       && FromPlace(log, SOC_SOH, n - 1) && FromPlace(log, PINV, n - 1) && FromPlace(log, PREC, n - 1)
       && FromPlace(log, PTOGRID, n - 1) && FromPlace(log, PTOUSER, n - 1)
       && a.values[PINV] != 0xFFFF && a.values[PREC] != 0xFFFF && a.values[PTOGRID] != 0xFFFF
       && a.values[PTOUSER] != 0xFFFF
       && a.values[SOC_SOH] != 0xFFFF && a.values[SOC_SOH] % 256 <= 100
  }

  /** All three provenance maps know every register. */
  predicate Known(s: Store, registers: seq<int>) {
    forall i :: 0 <= i < |registers| ==>
      registers[i] in s.values && registers[i] in s.observedAt && registers[i] in s.sources
  }

  /** They show one observation, and that one spanned exactly the first block. */
  predicate OneObservation(s: Store, registers: seq<int>)
    requires Known(s, registers)
  {
    && registers != []
    && (forall i :: 0 <= i < |registers| ==>
          registers[i] in s.sequences && registers[i] in s.ranges && s.ranges[registers[i]] == (0, 40))
    && (forall i :: 0 <= i < |registers| ==>
          s.sequences[registers[i]] == s.sequences[registers[0]]
          && s.observedAt[registers[i]] == s.observedAt[registers[0]]
          && s.sources[registers[i]] == s.sources[registers[0]])
  }

  function RegisterValues(s: Store, registers: seq<int>): seq<nat>
    requires Known(s, registers)
  {
    seq(|registers|, i requires 0 <= i < |registers| => s.values[registers[i]])
  }

  lemma OldestIsLeast(o: seq<Option<int>>)
    requires AllKnown(o) && o != []
    ensures Oldest(o).Some? && Oldest(o) in o
    ensures forall i :: 0 <= i < |o| ==> Oldest(o).value <= o[i].value
  {
    if |o| > 1 {
      OldestIsLeast(o[1..]);
    }
    assert o == [o[0]] + o[1..];
  }

  lemma LookupsExactly<V>(m: map<int, V>, registers: seq<int>)
    ensures AllKnown(Lookups(m, registers)) <==> forall i :: 0 <= i < |registers| ==> registers[i] in m
    ensures AllKnown(Lookups(m, registers)) ==>
              forall i :: 0 <= i < |registers| ==> Lookups(m, registers)[i] == Some(m[registers[i]])
  {
    forall i | 0 <= i < |registers| ensures Lookups(m, registers)[i].Some? <==> registers[i] in m {
    }
  }

  lemma UniformExactly<V>(m: map<int, V>, registers: seq<int>)
    requires forall i :: 0 <= i < |registers| ==> registers[i] in m
    ensures Uniform(Lookups(m, registers))
       <==> registers != [] && forall i :: 0 <= i < |registers| ==> m[registers[i]] == m[registers[0]]
  {
    LookupsExactly(m, registers);
    var o := Lookups(m, registers);
    hide Lookups;
    forall i | 0 <= i < |registers| ensures o[i] == o[0] <==> m[registers[i]] == m[registers[0]] {
    }
  }

  lemma KnownExactly(s: Store, registers: seq<int>)
    ensures Known(s, registers)
       <==> AllKnown(Lookups(s.values, registers)) && AllKnown(Lookups(s.observedAt, registers))
            && AllKnown(Lookups(s.sources, registers))
  {
    LookupsExactly(s.values, registers);
    LookupsExactly(s.observedAt, registers);
    LookupsExactly(s.sources, registers);
    hide Lookups, AllKnown;
  }

  lemma RangesExactly(s: Store, registers: seq<int>)
    ensures var ranges := Lookups(s.ranges, registers);
            (exists i :: 0 <= i < |ranges| && ranges[i] != Some((0, HARDWARE_READ_BLOCK_SIZE)))
            <==> !(forall i :: 0 <= i < |registers| ==> registers[i] in s.ranges && s.ranges[registers[i]] == (0, 40))
  {
    var ranges := Lookups(s.ranges, registers);
    forall i | 0 <= i < |registers|
      ensures ranges[i] == Some((0, 40)) <==> registers[i] in s.ranges && s.ranges[registers[i]] == (0, 40)
    {
    }
  }

  lemma OneObservationExactly(s: Store, registers: seq<int>)
    requires Known(s, registers)
    ensures var ranges := Lookups(s.ranges, registers);
            OneObservation(s, registers) <==>
              && AllKnown(Lookups(s.sequences, registers)) && Uniform(Lookups(s.sequences, registers))
              && Uniform(Lookups(s.observedAt, registers)) && Uniform(Lookups(s.sources, registers))
              && !exists i :: 0 <= i < |ranges| && ranges[i] != Some((0, HARDWARE_READ_BLOCK_SIZE))
  {
    LookupsExactly(s.sequences, registers);
    if AllKnown(Lookups(s.sequences, registers)) {
      UniformExactly(s.sequences, registers);
    }
    UniformExactly(s.observedAt, registers);
    UniformExactly(s.sources, registers);
    RangesExactly(s, registers);
    hide Lookups, AllKnown, Uniform;
  }

  /**
   * What a derived value reports: its quality by what is missing, invalid or mixed; a value exactly when it is
   * available; and the time of its oldest register whenever values and times are known.
   */
  lemma ObserveExactly(s: Store, registers: seq<int>, transform: seq<nat> -> int, valid: seq<nat> -> bool)
    ensures var o := Observe(s, registers, transform, valid);
            && (o.quality.Missing? <==> !Known(s, registers))
            && (o.value.Some? <==> o.quality.Available?)
            && (Known(s, registers) ==>
                  var values := RegisterValues(s, registers);
                  && (o.quality.Invalid? <==> !valid(values))
                  && (o.quality.Incoherent? <==> valid(values) && !OneObservation(s, registers))
                  && (o.value.Some? ==> o.value == Some(transform(values))))
    ensures var o := Observe(s, registers, transform, valid);
            (forall i :: 0 <= i < |registers| ==> registers[i] in s.values && registers[i] in s.observedAt)
            && registers != [] ==>
              && o.observedAt.Some?
              && (exists i :: 0 <= i < |registers| && s.observedAt[registers[i]] == o.observedAt.value)
              && forall i :: 0 <= i < |registers| ==> o.observedAt.value <= s.observedAt[registers[i]]
  {
    KnownExactly(s, registers);
    if Known(s, registers) {
      OneObservationExactly(s, registers);
      assert Values(Lookups(s.values, registers)) == RegisterValues(s, registers);
    }
    LookupsExactly(s.observedAt, registers);
    var times := Lookups(s.observedAt, registers);
    if registers != [] && AllKnown(times) {
      OldestIsLeast(times);
      assert forall i :: 0 <= i < |times| ==> times[i] == Some(s.observedAt[registers[i]]);
    }
    hide Lookups, Oldest, Known, OneObservation, Uniform;
  }

  lemma OldestOfEqual(times: seq<Option<int>>, at: int)
    requires |times| > 0 && forall i :: 0 <= i < |times| ==> times[i] == Some(at)
    ensures AllKnown(times) && Oldest(times) == Some(at)
    decreases |times|
  {
    if |times| > 1 {
      OldestOfEqual(times[1..], at);
    }
  }

  /** Register `r` is known to all five maps, as part of one accepted frame spanning exactly the first block. */
  predicate Qualified(s: Store, r: int) {
    r in s.values && r in s.observedAt && r in s.sources && r in s.sequences && r in s.ranges
    && s.ranges[r] == (0, HARDWARE_READ_BLOCK_SIZE)
  }

  lemma ObserveOne(s: Store, r: int, transform: seq<nat> -> int, valid: seq<nat> -> bool)
    ensures var o := Observe(s, [r], transform, valid);
            && o.sequences == [Lookup(s.sequences, r)] && o.sources == [Lookup(s.sources, r)]
            && o.ranges == [Lookup(s.ranges, r)]
            && (o.quality.Available? <==> Qualified(s, r) && valid([s.values[r]]))
            && (o.quality.Available?
               ==> o.value == Some(transform([s.values[r]])) && o.observedAt == Some(s.observedAt[r]))
  {
    var values, ranges := Lookups(s.values, [r]), Lookups(s.ranges, [r]);
    var times, sources, sequences := Lookups(s.observedAt, [r]), Lookups(s.sources, [r]), Lookups(s.sequences, [r]);
    assert values == [Lookup(s.values, r)] && ranges == [Lookup(s.ranges, r)] && times == [Lookup(s.observedAt, r)];
    assert sources == [Lookup(s.sources, r)] && sequences == [Lookup(s.sequences, r)];
    assert r in s.values ==> Values(values) == [s.values[r]];
    assert values[0].Some? <==> r in s.values;
    assert times[0].Some? <==> r in s.observedAt;
    assert sources[0].Some? <==> r in s.sources;
    assert sequences[0].Some? <==> r in s.sequences;
    assert ranges[0] == Some((0, HARDWARE_READ_BLOCK_SIZE))
           <==> r in s.ranges && s.ranges[r] == (0, HARDWARE_READ_BLOCK_SIZE);
    if r in s.observedAt {
      OldestOfEqual(times, s.observedAt[r]);
    }
    hide Lookups, Oldest;
  }

  /** The pair must come from the same accepted frame. */
  predicate Together(s: Store, r: int, q: int) {
    && Qualified(s, r) && Qualified(s, q)
    && s.sequences[r] == s.sequences[q] && s.observedAt[r] == s.observedAt[q] && s.sources[r] == s.sources[q]
  }

  lemma ObserveTwo(s: Store, r: int, q: int, transform: seq<nat> -> int, valid: seq<nat> -> bool)
    ensures var o := Observe(s, [r, q], transform, valid);
            && o.sequences == [Lookup(s.sequences, r), Lookup(s.sequences, q)]
            && o.sources == [Lookup(s.sources, r), Lookup(s.sources, q)]
            && o.ranges == [Lookup(s.ranges, r), Lookup(s.ranges, q)]
            && (o.quality.Available? <==> Together(s, r, q) && valid([s.values[r], s.values[q]]))
            && (o.quality.Available? ==>
                  o.value == Some(transform([s.values[r], s.values[q]])) && o.observedAt == Some(s.observedAt[r]))
  {
    var values, ranges := Lookups(s.values, [r, q]), Lookups(s.ranges, [r, q]);
    var times, sources, sequences := Lookups(s.observedAt, [r, q]), Lookups(s.sources, [r, q]),
        Lookups(s.sequences, [r, q]);
    assert values == [Lookup(s.values, r), Lookup(s.values, q)] && ranges == [Lookup(s.ranges, r), Lookup(s.ranges, q)];
    assert times == [Lookup(s.observedAt, r), Lookup(s.observedAt, q)];
    assert sources == [Lookup(s.sources, r), Lookup(s.sources, q)];
    assert sequences == [Lookup(s.sequences, r), Lookup(s.sequences, q)];
    assert r in s.values && q in s.values ==> Values(values) == [s.values[r], s.values[q]];
    Pair(values, Lookup(s.values, r), Lookup(s.values, q));
    Pair(times, Lookup(s.observedAt, r), Lookup(s.observedAt, q));
    Pair(sources, Lookup(s.sources, r), Lookup(s.sources, q));
    Pair(sequences, Lookup(s.sequences, r), Lookup(s.sequences, q));
    assert (exists i :: 0 <= i < |ranges| && ranges[i] != Some((0, HARDWARE_READ_BLOCK_SIZE)))
      <==> ranges[0] != Some((0, HARDWARE_READ_BLOCK_SIZE)) || ranges[1] != Some((0, HARDWARE_READ_BLOCK_SIZE));
    if Together(s, r, q) {
      OldestOfEqual(times, s.observedAt[r]);
    }
    hide Lookups, Oldest, AllKnown, Uniform;
  }

  lemma Pair<V>(o: seq<Option<V>>, a: Option<V>, b: Option<V>)
    requires o == [a, b]
    ensures AllKnown(o) <==> a.Some? && b.Some?
    ensures Uniform(o) <==> a == b
  {
    assert o[0] == a && o[1] == b;
  }

  /** The five registers, in the order the coherence check walks through them. */
  function Five<V>(m: map<int, V>): seq<Option<V>> {
    [Lookup(m, PINV), Lookup(m, PREC), Lookup(m, PTOGRID), Lookup(m, PTOUSER), Lookup(m, SOC_SOH)]
  }

  predicate FourAvailable(n: Snapshot) {
    n.pinv.quality.Available? && n.prec.quality.Available? && n.grid.quality.Available? && n.soc.quality.Available?
  }

  /** All five registers show accepted frame number `k`, which spans exactly the first block. */
  predicate AllShow(s: Store, k: nat) {
    && Qualified(s, PINV) && Qualified(s, PREC) && Qualified(s, PTOGRID) && Qualified(s, PTOUSER)
    && Qualified(s, SOC_SOH)
    && s.sequences[PINV] == s.sequences[PREC] == s.sequences[PTOGRID] == s.sequences[PTOUSER]
       == s.sequences[SOC_SOH] == k
  }

  /** Whatever one sequence number stands for, it also fixes the time and the source. */
  predicate SequencesIdentify(s: Store) {
    forall r, q :: r in s.sequences && q in s.sequences && s.sequences[r] == s.sequences[q] ==>
      && r in s.observedAt && q in s.observedAt && s.observedAt[r] == s.observedAt[q]
      && r in s.sources && q in s.sources && s.sources[r] == s.sources[q]
  }

  predicate FiveKnown(s: Store) {
    PINV in s.values && PREC in s.values && PTOGRID in s.values && PTOUSER in s.values && SOC_SOH in s.values
  }

  predicate FiveValid(s: Store)
    requires FiveKnown(s)
  {
    && ValidPower([s.values[PINV]]) && ValidPower([s.values[PREC]])
    && ValidPower([s.values[PTOGRID], s.values[PTOUSER]])
    && ValidSoc([s.values[SOC_SOH]])
  }

  lemma FieldsAvailable(s: Store)
    ensures var n := DirectEnergySnapshot(s);
            FourAvailable(n) <==>
              && Qualified(s, PINV) && Qualified(s, PREC) && Together(s, PTOGRID, PTOUSER) && Qualified(s, SOC_SOH)
              && FiveValid(s)
  {
    ObserveOne(s, PINV, First, ValidPower);
    ObserveOne(s, PREC, First, ValidPower);
    ObserveTwo(s, PTOGRID, PTOUSER, Difference, ValidPower);
    ObserveOne(s, SOC_SOH, LowByte, ValidSoc);
    hide Observe, ValidPower, ValidSoc;
  }

  lemma ProvenanceOfFields(s: Store)
    ensures var n := DirectEnergySnapshot(s);
            && n.pinv.sequences + n.prec.sequences + n.grid.sequences + n.soc.sequences == Five(s.sequences)
            && n.pinv.sources + n.prec.sources + n.grid.sources + n.soc.sources == Five(s.sources)
            && n.pinv.ranges + n.prec.ranges + n.grid.ranges + n.soc.ranges == Five(s.ranges)
  {
    ObserveOne(s, PINV, First, ValidPower);
    ObserveOne(s, PREC, First, ValidPower);
    ObserveTwo(s, PTOGRID, PTOUSER, Difference, ValidPower);
    ObserveOne(s, SOC_SOH, LowByte, ValidSoc);
    hide Observe, ValidPower, ValidSoc;
  }

  lemma TimesOfFields(s: Store)
    requires FourAvailable(DirectEnergySnapshot(s))
    ensures var n := DirectEnergySnapshot(s);
            && PINV in s.observedAt && PREC in s.observedAt && PTOGRID in s.observedAt && SOC_SOH in s.observedAt
            && n.pinv.observedAt == Some(s.observedAt[PINV]) && n.prec.observedAt == Some(s.observedAt[PREC])
            && n.grid.observedAt == Some(s.observedAt[PTOGRID]) && n.soc.observedAt == Some(s.observedAt[SOC_SOH])
  {
    ObserveOne(s, PINV, First, ValidPower);
    ObserveOne(s, PREC, First, ValidPower);
    ObserveTwo(s, PTOGRID, PTOUSER, Difference, ValidPower);
    ObserveOne(s, SOC_SOH, LowByte, ValidSoc);
    hide Observe, ValidPower, ValidSoc;
  }

  /** Coherence, read off the five maps. */
  lemma CoherentInStore(s: Store, k: nat)
    requires SequencesIdentify(s)
    ensures DirectEnergySnapshot(s).coherentSequence == Some(k) <==> AllShow(s, k) && FiveValid(s)
  {
    var n := DirectEnergySnapshot(s);
    FieldsAvailable(s);
    ProvenanceOfFields(s);
    if FourAvailable(n) {
      TimesOfFields(s);
      CoherentGivenFields(s, n, k);
    }
    hide Observe;
  }

  lemma CoherentGivenFields(s: Store, n: Snapshot, k: nat)
    requires SequencesIdentify(s) && FourAvailable(n)
    requires Qualified(s, PINV) && Qualified(s, PREC) && Together(s, PTOGRID, PTOUSER) && Qualified(s, SOC_SOH)
    requires n.pinv.sequences + n.prec.sequences + n.grid.sequences + n.soc.sequences == Five(s.sequences)
    requires n.pinv.sources + n.prec.sources + n.grid.sources + n.soc.sources == Five(s.sources)
    requires n.pinv.ranges + n.prec.ranges + n.grid.ranges + n.soc.ranges == Five(s.ranges)
    requires n.pinv.observedAt == Some(s.observedAt[PINV]) && n.prec.observedAt == Some(s.observedAt[PREC])
    requires n.grid.observedAt == Some(s.observedAt[PTOGRID]) && n.soc.observedAt == Some(s.observedAt[SOC_SOH])
    ensures CoherentSequence(n.pinv, n.prec, n.grid, n.soc) == Some(k) <==> AllShow(s, k)
  {
    var sequences, sources, ranges := Five(s.sequences), Five(s.sources), Five(s.ranges);
    var times := [n.pinv.observedAt, n.prec.observedAt, n.grid.observedAt, n.soc.observedAt];
    assert AllKnown(sequences) && AllKnown(sources) && AllKnown(times);
    assert forall i :: 0 <= i < |ranges| ==> ranges[i] == Some((0, HARDWARE_READ_BLOCK_SIZE));
    FiveUniform(sequences);
    if Uniform(sequences) {
      FiveUniform(sources);
      assert times[0] == times[1] && times[1] == times[2] && times[2] == times[3];
      assert Uniform(times);
    }
  }

  lemma FiveUniform<V>(o: seq<Option<V>>)
    requires |o| == 5
    ensures Uniform(o) <==> o[0] == o[1] == o[2] == o[3] == o[4]
  {
  }

  lemma HistoryIdentifies(log: seq<Accepted>)
    ensures SequencesIdentify(StoreOf(log))
  {
    hide StoreOf;
    var s := StoreOf(log);
    forall r, q | r in s.sequences && q in s.sequences && s.sequences[r] == s.sequences[q]
      ensures r in s.observedAt && q in s.observedAt && s.observedAt[r] == s.observedAt[q]
      ensures r in s.sources && q in s.sources && s.sources[r] == s.sources[q]
    {
      SequenceIdentifies(log, r, q);
    }
  }

  /** Register `r` shows frame number `k` exactly when that frame is the newest to cover it and spans the first
      block. */
  lemma ShowsFrame(log: seq<Accepted>, r: int, k: nat)
    ensures var s := StoreOf(log);
            (Qualified(s, r) && s.sequences[r] == k) <==>
              (1 <= k <= |log| && Newest(log, r, Any) == k - 1 && log[k - 1].start == 0
               && |log[k - 1].values| == HARDWARE_READ_BLOCK_SIZE)
    ensures var s := StoreOf(log);
            Qualified(s, r) && s.sequences[r] == k ==> s.values[r] == log[k - 1].values[r]
  {
    hide StoreOf, Newest;
    StoreRefinesHistory(log, r, (0, 0));
  }

  /**
   * The direct-energy snapshot names response `k` exactly when accepted frame number `k` spanned registers 0-39, is the
   * newest accepted frame touching registers 5, 16, 17, 26 and 27, and carries valid values there.
   */
  lemma CoherentExactly(log: seq<Accepted>, k: nat)
    ensures DirectEnergySnapshot(StoreOf(log)).coherentSequence == Some(k) <==> WholeBlock(log, k)
  {
    hide StoreOf, DirectEnergySnapshot, Newest, Qualified;
    var s := StoreOf(log);
    HistoryIdentifies(log);
    CoherentInStore(s, k);
    ShowsFrame(log, PINV, k);
    ShowsFrame(log, PREC, k);
    ShowsFrame(log, PTOGRID, k);
    ShowsFrame(log, PTOUSER, k);
    ShowsFrame(log, SOC_SOH, k);
    if AllShow(s, k) {
      KnownValues(s, k);
    }
  }

  lemma KnownValues(s: Store, k: nat)
    requires AllShow(s, k)
    ensures FiveKnown(s)
    ensures FiveValid(s) <==>
              && s.values[PINV] != 0xFFFF && s.values[PREC] != 0xFFFF && s.values[PTOGRID] != 0xFFFF
              && s.values[PTOUSER] != 0xFFFF
              && s.values[SOC_SOH] != 0xFFFF && s.values[SOC_SOH] % 256 <= 100
  {
    var pair := [s.values[PTOGRID], s.values[PTOUSER]];
    assert pair[0] == s.values[PTOGRID] && pair[1] == s.values[PTOUSER];
    assert [s.values[PINV]][0] == s.values[PINV] && [s.values[PREC]][0] == s.values[PREC];
  }

  /** A coherent snapshot is computed from that one frame and nothing else. */
  lemma CoherentValues(log: seq<Accepted>, k: nat)
    requires DirectEnergySnapshot(StoreOf(log)).coherentSequence == Some(k)
    ensures 1 <= k <= |log| && |log[k - 1].values| == HARDWARE_READ_BLOCK_SIZE
    ensures var n, v := DirectEnergySnapshot(StoreOf(log)), log[k - 1].values;
            && n.pinv.value == Some(v[PINV]) && n.prec.value == Some(v[PREC])
            && n.grid.value == Some(v[PTOGRID] as int - v[PTOUSER] as int) && n.soc.value == Some(v[SOC_SOH] % 256)
  {
    hide StoreOf, DirectEnergySnapshot, Newest, Qualified, FiveValid;
    var s := StoreOf(log);
    CoherentExactly(log, k);
    HistoryIdentifies(log);
    CoherentInStore(s, k);
    ShowsFrame(log, PINV, k);
    ShowsFrame(log, PREC, k);
    ShowsFrame(log, PTOGRID, k);
    ShowsFrame(log, PTOUSER, k);
    ShowsFrame(log, SOC_SOH, k);
    ValuesOfFields(s);
  }

  lemma ValuesOfFields(s: Store)
    requires Qualified(s, PINV) && Qualified(s, PREC) && Qualified(s, PTOGRID) && Qualified(s, PTOUSER)
    requires Qualified(s, SOC_SOH) && s.sequences[PTOGRID] == s.sequences[PTOUSER] && SequencesIdentify(s)
    requires FiveValid(s)
    ensures var n := DirectEnergySnapshot(s);
            && n.pinv.value == Some(s.values[PINV]) && n.prec.value == Some(s.values[PREC])
            && n.grid.value == Some(s.values[PTOGRID] as int - s.values[PTOUSER] as int)
            && n.soc.value == Some(s.values[SOC_SOH] % 256)
  {
    ObserveOne(s, PINV, First, ValidPower);
    ObserveOne(s, PREC, First, ValidPower);
    ObserveTwo(s, PTOGRID, PTOUSER, Difference, ValidPower);
    ObserveOne(s, SOC_SOH, LowByte, ValidSoc);
    assert Together(s, PTOGRID, PTOUSER);
    hide Observe, ValidPower, ValidSoc, CoherentSequence;
  }
}
