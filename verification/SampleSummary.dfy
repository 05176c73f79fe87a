/** The batch summary of sampled ages, and the streaming counters and reservoirs it must agree with. */
module SampleSummary {
  import opened Options
  import opened Reservoir
  import opened Freshness

  // ---------- the batch summary ----------

  /** The ages of the complete samples, in order. */
  function AgesOf(samples: seq<Sample>): seq<int> {
    if samples == [] then []
    else AgesOf(samples[..|samples| - 1])
         + (if Complete(samples[|samples| - 1]) then [samples[|samples| - 1].age.value] else [])
  }

  function Largest(vs: seq<int>): Option<int> {
    if vs == [] then None else Larger(Largest(vs[..|vs| - 1]), vs[|vs| - 1])
  }

  /** How many complete samples had `register` as their worst. */
  function Outliers(samples: seq<Sample>, register: Option<int>): nat {
    if samples == [] then 0
    else
      var s := samples[|samples| - 1];
      Outliers(samples[..|samples| - 1], register) + (if Complete(s) && s.worst == register then 1 else 0)
  }

  ghost predicate CountsMatch(outliers: map<Option<int>, nat>, samples: seq<Sample>) {
    && (forall register :: CountIn(outliers, register) == Outliers(samples, register))
    && (forall register :: register in outliers <==> Outliers(samples, register) > 0)
  }

  function Counting(outliers: map<Option<int>, nat>, s: Sample): map<Option<int>, nat> {
    if Complete(s) then outliers[s.worst := CountIn(outliers, s.worst) + 1] else outliers
  }

  lemma CountingMatches(outliers: map<Option<int>, nat>, samples: seq<Sample>, s: Sample)
    requires CountsMatch(outliers, samples)
    ensures CountsMatch(Counting(outliers, s), samples + [s])
  {
    assert (samples + [s])[..|samples|] == samples;
  }

  lemma AgesSnoc(samples: seq<Sample>, s: Sample)
    ensures AgesOf(samples + [s]) == if Complete(s) then AgesOf(samples) + [s.age.value] else AgesOf(samples)
    ensures Complete(s) ==> Largest(AgesOf(samples + [s])) == Larger(Largest(AgesOf(samples)), s.age.value)
  {
    assert (samples + [s])[..|samples|] == samples;
    assert AgesOf(samples) + [] == AgesOf(samples);
    if Complete(s) {
      var ages := AgesOf(samples);
      assert (ages + [s.age.value])[..|ages|] == ages;
    }
  }

  /** What `Largest` means. */
  lemma {:induction false} LargestIsMaximum(vs: seq<int>)
    requires vs != []
    ensures Largest(vs).Some? && Largest(vs).value in vs
    ensures forall v :: v in vs ==> v <= Largest(vs).value
  {
    if |vs| > 1 {
      LargestIsMaximum(vs[..|vs| - 1]);
    }
    assert vs == vs[..|vs| - 1] + [vs[|vs| - 1]];
  }

  datatype Summary = Summary(samples: nat, complete: nat, ages: seq<int>, maximum: Option<int>,
                             outliers: map<Option<int>, nat>)

  method SummarizeProfileSamples(samples: seq<Sample>) returns (summary: Summary)
    ensures summary.samples == |samples| && summary.complete == |summary.ages|
    ensures summary.ages == AgesOf(samples) && summary.maximum == Largest(AgesOf(samples))
    ensures summary.ages != [] ==>
              summary.maximum.Some? && summary.maximum.value in summary.ages
              && forall age :: age in summary.ages ==> age <= summary.maximum.value
    ensures CountsMatch(summary.outliers, samples)
  {
    var ages: seq<int> := [];
    var maximum: Option<int> := None;
    var outliers: map<Option<int>, nat> := map[];
    assert samples[..0] == [];
    for i := 0 to |samples|
      invariant ages == AgesOf(samples[..i]) && maximum == Largest(ages)
      invariant CountsMatch(outliers, samples[..i])
    {
      hide AgesOf, Largest, Larger, CountsMatch, CountIn;
      var s := samples[i];
      assert samples[..i + 1] == samples[..i] + [s];
      AgesSnoc(samples[..i], s);
      CountingMatches(outliers, samples[..i], s);
      if Complete(s) {
        ages := ages + [s.age.value];
        maximum := Larger(maximum, s.age.value);
        outliers := outliers[s.worst := CountIn(outliers, s.worst) + 1];
      }
    }
    assert samples[..|samples|] == samples;
    if ages != [] {
      LargestIsMaximum(ages);
    }
    summary := Summary(|samples|, |ages|, ages, maximum, outliers);
  }

  // ---------- the streaming side ----------

  /** The lengths of the sampled intervals, none negative. */
  function IntervalsOf(samples: seq<Sample>): seq<int> {
    if |samples| < 2 then []
    else IntervalsOf(samples[..|samples| - 1]) + [Max(RawDuration(samples[|samples| - 2], samples[|samples| - 1]), 0)]
  }

  function Streamed(samples: seq<Sample>, sampling: Sampling): Distribution {
    if samples == [] then NO_DISTRIBUTION
    else
      var last := if |samples| == 1 then None else Some(samples[|samples| - 2]);
      AppendToDistribution(Streamed(samples[..|samples| - 1], sampling), last, samples[|samples| - 1], sampling)
  }

  ghost predicate AgesAgree(d: Distribution, samples: seq<Sample>, sampling: Sampling) {
    && d.samples == |samples| && d.complete == |AgesOf(samples)|
    && d.ages == AddAll(AgesOf(samples), sampling.capacity, sampling.ageDraws)
    && d.maximumAge == Largest(AgesOf(samples))
    && CountsMatch(d.worst, samples)
  }

  ghost predicate IntervalsAgree(d: Distribution, samples: seq<Sample>, sampling: Sampling) {
    && d.intervals == AddAll(IntervalsOf(samples), sampling.capacity, sampling.intervalDraws)
    && d.maximumInterval == Largest(IntervalsOf(samples))
  }

  lemma SnocAdded(vs: seq<int>, v: int, capacity: nat, draws: nat -> nat)
    ensures AddAll(vs + [v], capacity, draws) == Add(AddAll(vs, capacity, draws), capacity, draws, v)
    ensures Largest(vs + [v]) == Larger(Largest(vs), v)
  {
    assert (vs + [v])[..|vs|] == vs;
  }

  lemma AgeAdded(d: Distribution, samples: seq<Sample>, s: Sample, sampling: Sampling)
    requires AgesAgree(d, samples, sampling)
    ensures AgesAgree(AddAge(d, s, sampling), samples + [s], sampling)
    ensures AddAge(d, s, sampling).intervals == d.intervals
    ensures AddAge(d, s, sampling).maximumInterval == d.maximumInterval
  {
    AgesSnoc(samples, s);
    CountingMatches(d.worst, samples, s);
    if Complete(s) {
      SnocAdded(AgesOf(samples), s.age.value, sampling.capacity, sampling.ageDraws);
    }
    hide Add, Larger, Largest, AddAll, CountsMatch, CountIn, AgesOf;
  }

  lemma IntervalAdded(d: Distribution, samples: seq<Sample>, s: Sample, sampling: Sampling)
    requires IntervalsAgree(d, samples, sampling) && samples != []
    ensures var duration := Max(RawDuration(samples[|samples| - 1], s), 0);
            IntervalsAgree(AddInterval(d, duration, sampling), samples + [s], sampling)
  {
    var duration := Max(RawDuration(samples[|samples| - 1], s), 0);
    assert (samples + [s])[..|samples|] == samples;
    SnocAdded(IntervalsOf(samples), duration, sampling.capacity, sampling.intervalDraws);
    hide Add, Larger, Largest, AddAll;
  }

  /** Streaming agrees with the batch summary and with the intervals, for any samples and any random numbers. */
  lemma {:induction false} StreamedAgrees(samples: seq<Sample>, sampling: Sampling)
    ensures AgesAgree(Streamed(samples, sampling), samples, sampling)
    ensures IntervalsAgree(Streamed(samples, sampling), samples, sampling)
    decreases |samples|
  {
    if samples != [] {
      hide AgesAgree, IntervalsAgree, AddAge, AddInterval;
      var before, s := samples[..|samples| - 1], samples[|samples| - 1];
      var d := Streamed(before, sampling);
      StreamedAgrees(before, sampling);
      assert samples == before + [s];
      if before == [] {
        AgeAdded(d, before, s, sampling);
        OneSample(d, AddAge(d, s, sampling), s, sampling);
      } else {
        assert before[|before| - 1] == samples[|samples| - 2];
        IntervalStep(d, before, s, sampling);
      }
    }
  }

  lemma OneSample(d: Distribution, e: Distribution, s: Sample, sampling: Sampling)
    requires IntervalsAgree(d, [], sampling) && e.intervals == d.intervals && e.maximumInterval == d.maximumInterval
    ensures IntervalsAgree(e, [] + [s], sampling)
  {
  }

  lemma SameAges(d: Distribution, e: Distribution, samples: seq<Sample>, sampling: Sampling)
    requires AgesAgree(d, samples, sampling)
    requires e == d.(intervals := e.intervals, maximumInterval := e.maximumInterval, fallbacks := e.fallbacks)
    ensures AgesAgree(e, samples, sampling)
  {
  }

  lemma SameIntervals(d: Distribution, e: Distribution, samples: seq<Sample>, sampling: Sampling)
    requires IntervalsAgree(d, samples, sampling)
    requires e.intervals == d.intervals && e.maximumInterval == d.maximumInterval
    ensures IntervalsAgree(e, samples, sampling)
  {
  }

  lemma IntervalStep(d: Distribution, before: seq<Sample>, s: Sample, sampling: Sampling)
    requires before != [] && AgesAgree(d, before, sampling) && IntervalsAgree(d, before, sampling)
    ensures var e := AppendToDistribution(d, Some(before[|before| - 1]), s, sampling);
            AgesAgree(e, before + [s], sampling) && IntervalsAgree(e, before + [s], sampling)
  {
    hide AgesAgree, IntervalsAgree, AddAge, FallsBack, RawDuration, Add, Larger;
    var last := before[|before| - 1];
    var duration := Max(RawDuration(last, s), 0);
    var f := d.(fallbacks := d.fallbacks + (if FallsBack(last, s) then 1 else 0));
    var g := AddInterval(f, duration, sampling);
    SameAges(d, g, before, sampling);
    SameIntervals(d, f, before, sampling);
    hide AddInterval;
    IntervalAdded(f, before, s, sampling);
    AgeAdded(g, before, s, sampling);
    SameIntervals(g, AddAge(g, s, sampling), before + [s], sampling);
  }

  /**
   * So while the reservoirs report themselves exact, the percentiles are taken over exactly the batch's ages and over
   * all intervals; and over the capacity, over that many of them.
   */
  lemma ReservoirsHoldBatch(samples: seq<Sample>, sampling: Sampling)
    ensures var d := Streamed(samples, sampling);
            && Holds(d.ages, AgesOf(samples), sampling.capacity)
            && Holds(d.intervals, IntervalsOf(samples), sampling.capacity)
            && (d.complete <= sampling.capacity ==> d.ages.values == AgesOf(samples))
  {
    StreamedAgrees(samples, sampling);
    ReservoirHolds(AgesOf(samples), sampling.capacity, sampling.ageDraws);
    ReservoirHolds(IntervalsOf(samples), sampling.capacity, sampling.intervalDraws);
    hide Streamed, AddAll, AgesOf, IntervalsOf;
  }

  lemma IntervalsSnoc(samples: seq<Sample>)
    requires Regular(samples) && |samples| >= 2
    ensures IntervalsOf(samples)
         == IntervalsOf(samples[..|samples| - 1]) + [samples[|samples| - 1].at - samples[|samples| - 2].at]
  {
    assert RawDuration(samples[|samples| - 2], samples[|samples| - 1])
        == samples[|samples| - 1].at - samples[|samples| - 2].at >= 0;
  }

  /** With clocks that agree, the intervals are the batch's. */
  lemma {:induction false} RegularIntervals(samples: seq<Sample>)
    requires Regular(samples)
    ensures |IntervalsOf(samples)| == if samples == [] then 0 else |samples| - 1
    ensures forall i :: 0 <= i < |IntervalsOf(samples)| ==> IntervalsOf(samples)[i] == samples[i + 1].at - samples[i].at
    decreases |samples|
  {
    if |samples| >= 2 {
      RegularPrefix(samples);
      RegularIntervals(samples[..|samples| - 1]);
      IntervalsSnoc(samples);
      hide Regular, IntervalsOf;
    }
  }

  /** Then the interval reservoir holds, while it is exact, the batch's intervals one by one. */
  lemma BatchIntervalsHeld(samples: seq<Sample>, sampling: Sampling)
    requires Regular(samples) && 1 <= |samples| <= sampling.capacity + 1
    ensures var held := Streamed(samples, sampling).intervals.values;
            |held| == |samples| - 1 && forall i :: 0 <= i < |held| ==> held[i] == samples[i + 1].at - samples[i].at
  {
    hide Streamed, Regular, IntervalsOf;
    ReservoirsHoldBatch(samples, sampling);
    RegularIntervals(samples);
  }
}
