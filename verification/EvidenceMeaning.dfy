/** What the freshness evidence counts, in terms of the samples' own fields. */
module EvidenceMeaning {
  import opened Options
  import opened Reservoir
  import opened Freshness
  import opened SampleSummary
  import opened EpisodeEvidence

  // ---------- integrals ----------

  /** An interval counts when the sample that begins it does, for the time to the next one. */
  lemma TwoSampleIntegral(a: Sample, b: Sample, p: Sample -> bool)
    ensures Integral([a, b], p) == if p(a) then b.at - a.at else 0
  {
    assert [a, b][..1] == [a];
  }

  lemma IntegralSplits(samples: seq<Sample>, s: Sample, p: Sample -> bool)
    requires samples != []
    ensures Integral(samples + [s], p)
         == Integral(samples, p) + Integral([samples[|samples| - 1], s], p)
    ensures Integral([s], p) == 0
  {
    assert (samples + [s])[..|samples|] == samples;
    TwoSampleIntegral(samples[|samples| - 1], s, p);
  }

  /** The streaming totals, by the names and ages the samples carry. */
  lemma StreamByName(samples: seq<Sample>, target: int, capacity: nat)
    requires Regular(samples)
    ensures var t := Stream(samples, target, capacity);
            && t.healthy == Integral(samples, (s: Sample) => s.health == Some("healthy"))
            && t.recovering == Integral(samples, (s: Sample) => s.health == Some("recovering"))
            && t.degraded
            == Integral(samples, (s: Sample) => s.health != Some("healthy") && s.health != Some("recovering"))
            && t.stale
            == Integral(samples, (s: Sample) => s.age.None? || s.known != s.required || s.age.value > target)
            && t.staleRecovering
            == Integral(samples, (s: Sample) => (s.age.None? || s.known != s.required || s.age.value > target)
                                                && s.health == Some("recovering"))
            && t.staleOutside
            == Integral(samples, (s: Sample) => (s.age.None? || s.known != s.required || s.age.value > target)
                                                && s.health != Some("recovering"))
  {
    StreamTotals(samples, target, capacity);
    HealthNames(samples);
    SameIntegral(samples, StaleIn(target),
                 (s: Sample) => s.age.None? || s.known != s.required || s.age.value > target);
    SameIntegral(samples, StaleWhile(target, true),
                 (s: Sample) => (s.age.None? || s.known != s.required || s.age.value > target)
                                && s.health == Some("recovering"));
    SameIntegral(samples, StaleWhile(target, false),
                 (s: Sample) => (s.age.None? || s.known != s.required || s.age.value > target)
                                && s.health != Some("recovering"));
    hide Stream, Integral, Regular;
  }

  // ---------- counts ----------

  function CountWhere(samples: seq<Sample>, p: Sample -> bool): nat {
    if samples == [] then 0 else CountWhere(samples[..|samples| - 1], p) + if p(samples[|samples| - 1]) then 1 else 0
  }

  /** Pairs of neighbouring samples that satisfy `p`. */
  function CountGaps(samples: seq<Sample>, p: (Sample, Sample) -> bool): nat {
    if |samples| < 2 then 0
    else CountGaps(samples[..|samples| - 1], p)
         + if p(samples[|samples| - 2], samples[|samples| - 1]) then 1 else 0
  }

  lemma StreamLast(samples: seq<Sample>, target: int, capacity: nat)
    ensures Stream(samples, target, capacity).last == if samples == [] then None else Some(samples[|samples| - 1])
  {
  }

  lemma IntegrateCounts(t: Totals, current: Sample, ended: int, raw: int, target: int, capacity: nat)
    ensures var u := Integrate(t, current, ended, raw, target, capacity);
            u.violations == t.violations && u.regressions == t.regressions + if raw < 0 then 1 else 0
  {
    hide Stale, HealthOf;
  }

  /**
   * For any samples: violations are the samples that are missing an age or a register or are over the target, and a
   * regression is an interval over which the clock went back, the monotonic one where both samples have it.
   */
  lemma {:induction false} StreamCounts(samples: seq<Sample>, target: int, capacity: nat)
    ensures var t := Stream(samples, target, capacity);
            && t.violations
            == CountWhere(samples, (s: Sample) => s.age.None? || s.known != s.required || s.age.value > target)
            && t.regressions
            == CountGaps(samples, (a: Sample, b: Sample) =>
                           if a.monotonic.Some? && b.monotonic.Some? then b.monotonic.value < a.monotonic.value
                           else b.at < a.at)
    decreases |samples|
  {
    if samples != [] {
      var before, s := samples[..|samples| - 1], samples[|samples| - 1];
      StreamCounts(before, target, capacity);
      StreamLast(before, target, capacity);
      if before != [] {
        assert before[|before| - 1] == samples[|samples| - 2];
        var current := before[|before| - 1];
        IntegrateCounts(Stream(before, target, capacity), current, s.at, RawDuration(current, s), target, capacity);
      }
      hide Integrate;
    }
  }

  /** Intervals timed by the wall clock because a sample lacks the monotonic one. */
  lemma {:induction false} FallbacksCounted(samples: seq<Sample>, sampling: Sampling)
    ensures Streamed(samples, sampling).fallbacks
         == CountGaps(samples, (a: Sample, b: Sample) => a.monotonic.None? || b.monotonic.None?)
    decreases |samples|
  {
    if samples != [] {
      var before := samples[..|samples| - 1];
      FallbacksCounted(before, sampling);
      if before != [] {
        assert before[|before| - 1] == samples[|samples| - 2];
      }
      hide Add, Larger;
    }
  }

  /** The ages summarised are those of the samples that know every required register and have an age. */
  lemma {:induction false} CompleteCounted(samples: seq<Sample>, register: Option<int>)
    ensures |AgesOf(samples)| == CountWhere(samples, (s: Sample) => s.known == s.required && s.age.Some?)
    ensures Outliers(samples, register)
         == CountWhere(samples, (s: Sample) => s.known == s.required && s.age.Some? && s.worst == register)
    ensures forall v :: v in AgesOf(samples) ==>
              exists i :: 0 <= i < |samples| && samples[i].known == samples[i].required && samples[i].age == Some(v)
    decreases |samples|
  {
    if samples != [] {
      var before, s := samples[..|samples| - 1], samples[|samples| - 1];
      CompleteCounted(before, register);
      forall v | v in AgesOf(samples)
        ensures exists i :: 0 <= i < |samples| && samples[i].known == samples[i].required && samples[i].age == Some(v)
      {
        if v in AgesOf(before) {
          var i :| 0 <= i < |before| && before[i].known == before[i].required && before[i].age == Some(v);
          assert samples[i] == before[i];
        } else {
          assert samples[|samples| - 1].age == Some(v);
        }
      }
    }
  }

  // ---------- which clock ----------

  /** The time over pairs of neighbours whose first satisfies `p`, as `d` measures it. */
  function SumGaps(samples: seq<Sample>, p: Sample -> bool, d: (Sample, Sample) -> int): int {
    if |samples| < 2 then 0
    else SumGaps(samples[..|samples| - 1], p, d)
         + if p(samples[|samples| - 2]) then d(samples[|samples| - 2], samples[|samples| - 1]) else 0
  }

  /** From one sample to the next: by the monotonic clock when both have it, never less than nothing. */
  function Elapsed(a: Sample, b: Sample): int {
    var raw := if a.monotonic.Some? && b.monotonic.Some? then b.monotonic.value - a.monotonic.value else b.at - a.at;
    if raw < 0 then 0 else raw
  }

  lemma IntegrateElapsed(t: Totals, a: Sample, b: Sample, target: int, capacity: nat)
    ensures var u := Integrate(t, a, b.at, RawDuration(a, b), target, capacity);
            var stale := a.age.None? || a.known != a.required || a.age.value > target;
            && u.healthy == t.healthy + (if a.health == Some("healthy") then Elapsed(a, b) else 0)
            && u.recovering == t.recovering + (if a.health == Some("recovering") then Elapsed(a, b) else 0)
            && u.degraded == t.degraded + (if a.health != Some("healthy") && a.health != Some("recovering")
                                           then Elapsed(a, b) else 0)
            && u.stale == t.stale + (if stale then Elapsed(a, b) else 0)
  {
    OneStateOnly();
    hide StreamMaximum;
  }

  /** For any samples, however their clocks run: where the observed and the stale time goes. */
  lemma {:induction false} StreamElapsed(samples: seq<Sample>, target: int, capacity: nat)
    ensures var t := Stream(samples, target, capacity);
            && t.healthy == SumGaps(samples, (s: Sample) => s.health == Some("healthy"), Elapsed)
            && t.recovering == SumGaps(samples, (s: Sample) => s.health == Some("recovering"), Elapsed)
            && t.degraded
            == SumGaps(samples, (s: Sample) => s.health != Some("healthy") && s.health != Some("recovering"), Elapsed)
            && t.stale
            == SumGaps(samples, (s: Sample) => s.age.None? || s.known != s.required || s.age.value > target, Elapsed)
    decreases |samples|
  {
    if samples != [] {
      var before, s := samples[..|samples| - 1], samples[|samples| - 1];
      StreamElapsed(before, target, capacity);
      StreamLast(before, target, capacity);
      if before != [] {
        assert before[|before| - 1] == samples[|samples| - 2];
        IntegrateElapsed(Stream(before, target, capacity), before[|before| - 1], s, target, capacity);
      }
      hide Integrate, Elapsed, RawDuration;
    }
  }

  // ---------- episodes as runs of stale samples ----------

  /** Samples `i` to `j` are stale, and as far as intervals begin there, their neighbours are not. */
  ghost predicate MaximalRun(samples: seq<Sample>, target: int, i: nat, j: nat) {
    && i <= j && j + 1 < |samples|
    && (forall k :: i <= k <= j ==> Stale(samples[k], target))
    && (i > 0 ==> !Stale(samples[i - 1], target))
    && (j + 2 < |samples| ==> !Stale(samples[j + 1], target))
  }

  /** The largest age among samples `i` to `j`, if any of them has one. */
  ghost predicate LargestAge(m: Option<int>, samples: seq<Sample>, i: nat, j: nat)
    requires j < |samples|
  {
    && (m.None? ==> forall k :: i <= k <= j ==> samples[k].age.None?)
    && (m.Some? ==> exists k :: i <= k <= j && samples[k].age == m)
    && (m.Some? ==> forall k :: i <= k <= j && samples[k].age.Some? ==> samples[k].age.value <= m.value)
  }

  /** The episode of that run: from its first sample to the one behind its last, with its largest age. */
  ghost predicate EpisodeOf(e: Episode, samples: seq<Sample>, i: nat, j: nat)
    requires i <= j && j + 1 < |samples|
  {
    && e.startedAt == samples[i].at && e.endedAt == samples[j + 1].at && e.duration == e.endedAt - e.startedAt
    && LargestAge(e.maximumAge, samples, i, j)
  }

  ghost predicate InRuns(runs: seq<(nat, nat)>, m: nat) {
    exists k :: 0 <= k < |runs| && runs[k].0 <= m <= runs[k].1
  }

  /** Episode by episode, the run it stands for. */
  ghost predicate Episodic(episodes: seq<Episode>, runs: seq<(nat, nat)>, samples: seq<Sample>, target: int) {
    && |runs| == |episodes|
    && (forall k :: 0 <= k < |runs| ==>
          MaximalRun(samples, target, runs[k].0, runs[k].1) && EpisodeOf(episodes[k], samples, runs[k].0, runs[k].1))
    && (forall k :: 0 <= k < |runs| - 1 ==> runs[k].1 < runs[k + 1].0)
    && (forall m: nat :: m + 1 < |samples| && Stale(samples[m], target) ==> InRuns(runs, m))
  }

  /** The open episode's run reaches the last interval, and no other does. */
  ghost predicate OpenRun(sc: Scan, runs: seq<(nat, nat)>, samples: seq<Sample>) {
    if sc.active.Some? then runs != [] && runs[|runs| - 1].1 + 2 == |samples|
    else forall k :: 0 <= k < |runs| ==> runs[k].1 + 2 < |samples|
  }

  lemma LongerSamples(e: Episode, samples: seq<Sample>, s: Sample, target: int, i: nat, j: nat)
    requires MaximalRun(samples, target, i, j) && EpisodeOf(e, samples, i, j)
    requires j + 2 == |samples| ==> !Stale(samples[j + 1], target)
    ensures MaximalRun(samples + [s], target, i, j) && EpisodeOf(e, samples + [s], i, j)
  {
    var longer := samples + [s];
    assert forall k :: 0 <= k < |samples| ==> longer[k] == samples[k];
    if e.maximumAge.Some? {
      var k :| i <= k <= j && samples[k].age == e.maximumAge;
      assert longer[k].age == e.maximumAge;
    }
    hide Stale;
  }

  lemma AllLonger(episodes: seq<Episode>, runs: seq<(nat, nat)>, samples: seq<Sample>, s: Sample, target: int)
    requires |runs| == |episodes|
    requires forall k :: 0 <= k < |runs| ==>
               MaximalRun(samples, target, runs[k].0, runs[k].1)
                   && EpisodeOf(episodes[k], samples, runs[k].0, runs[k].1)
               && (runs[k].1 + 2 == |samples| ==> !Stale(samples[runs[k].1 + 1], target))
    ensures forall k :: 0 <= k < |runs| ==>
              MaximalRun(samples + [s], target, runs[k].0, runs[k].1)
              && EpisodeOf(episodes[k], samples + [s], runs[k].0, runs[k].1)
  {
    forall k | 0 <= k < |runs|
      ensures MaximalRun(samples + [s], target, runs[k].0, runs[k].1)
           && EpisodeOf(episodes[k], samples + [s], runs[k].0, runs[k].1)
    {
      LongerSamples(episodes[k], samples, s, target, runs[k].0, runs[k].1);
    }
  }

  /** A new run begins at the interval's first sample. */
  lemma NewRun(samples: seq<Sample>, s: Sample, target: int)
    requires samples != [] && Stale(samples[|samples| - 1], target)
    requires |samples| >= 2 ==> !Stale(samples[|samples| - 2], target)
    ensures var i, current := |samples| - 1, samples[|samples| - 1];
            MaximalRun(samples + [s], target, i, i)
            && EpisodeOf(Episode(current.at, s.at, s.at - current.at, BatchMaximum(current.age, current.age)),
                         samples + [s], i, i)
  {
    var longer, i := samples + [s], |samples| - 1;
    assert longer[i] == samples[i] && longer[i + 1] == s && (i > 0 ==> longer[i - 1] == samples[i - 1]);
    if samples[i].age.Some? {
      assert longer[i].age == BatchMaximum(samples[i].age, samples[i].age);
    }
    hide Stale;
  }

  /** The open run takes in one more sample. */
  lemma LongerRun(e: Episode, samples: seq<Sample>, s: Sample, target: int, i: nat)
    requires |samples| >= 2 && MaximalRun(samples, target, i, |samples| - 2) && EpisodeOf(e, samples, i, |samples| - 2)
    requires Stale(samples[|samples| - 1], target)
    requires forall k :: 0 <= k < |samples| && samples[k].age.Some? ==> samples[k].age.value >= 0
    ensures var current := samples[|samples| - 1];
            MaximalRun(samples + [s], target, i, |samples| - 1)
            && EpisodeOf(e.(endedAt := s.at, duration := e.duration + (s.at - current.at),
                            maximumAge := BatchMaximum(e.maximumAge, current.age)), samples + [s], i, |samples| - 1)
  {
    var longer, last := samples + [s], |samples| - 1;
    assert forall k :: 0 <= k < |samples| ==> longer[k] == samples[k];
    assert longer[last + 1] == s;
    var m := BatchMaximum(e.maximumAge, samples[last].age);
    if m.Some? {
      if m == samples[last].age {
        assert longer[last].age == m;
      } else {
        var k :| i <= k <= last - 1 && samples[k].age == e.maximumAge;
        assert longer[k].age == m;
      }
    }
    hide Stale;
  }

  /** Whatever was in some run, or is the new interval's first sample, is in some run. */
  lemma AllCovered(runs: seq<(nat, nat)>, more: seq<(nat, nat)>, samples: seq<Sample>, s: Sample, target: int)
    requires samples != [] && |more| >= |runs|
    requires forall m: nat :: m + 1 < |samples| && Stale(samples[m], target) ==> InRuns(runs, m)
    requires forall k :: 0 <= k < |runs| ==> more[k].0 == runs[k].0 && more[k].1 >= runs[k].1
    requires Stale(samples[|samples| - 1], target) ==>
               more != [] && more[|more| - 1].0 <= |samples| - 1 <= more[|more| - 1].1
    ensures forall m: nat :: m + 1 < |samples + [s]| && Stale((samples + [s])[m], target) ==> InRuns(more, m)
  {
    forall m: nat | m + 1 < |samples + [s]| && Stale((samples + [s])[m], target) ensures InRuns(more, m) {
      assert (samples + [s])[m] == samples[m];
      if m + 1 < |samples| {
        assert InRuns(runs, m);
        var k :| 0 <= k < |runs| && runs[k].0 <= m <= runs[k].1;
        assert more[k].0 <= m <= more[k].1;
      } else {
        assert more[|more| - 1].0 <= m <= more[|more| - 1].1;
      }
    }
    hide Stale;
  }

  ghost predicate Ready(sc: Scan, runs: seq<(nat, nat)>, samples: seq<Sample>, target: int) {
    && samples != [] && Episodic(Listed(sc), runs, samples, target) && OpenRun(sc, runs, samples)
    && (sc.active.Some? <==> |samples| >= 2 && Stale(samples[|samples| - 2], target))
    && forall k :: 0 <= k < |samples| && samples[k].age.Some? ==> samples[k].age.value >= 0
  }

  ghost predicate Extended(after: Scan, runs: seq<(nat, nat)>, samples: seq<Sample>, target: int) {
    Episodic(Listed(after), runs, samples, target) && OpenRun(after, runs, samples)
  }

  /** What a step does to the list: nothing but close it, add an episode, or lengthen the last. */
  lemma SteppedList(sc: Scan, current: Sample, following: Sample, target: int)
    ensures var after := BatchStep(sc, current, following, target);
            if !Stale(current, target) then Listed(after) == Listed(sc) && after.active.None?
            else
              && after.active.Some?
              && var added := following.at - current.at;
                 if sc.active.None? then
                   && Listed(sc) == sc.closed
                   && Listed(after)
                   == sc.closed + [Episode(current.at, following.at, added, BatchMaximum(current.age, current.age))]
                 else
                   var e := sc.active.value;
                   && Listed(sc) == sc.closed + [e]
                   && Listed(after)
                   == sc.closed + [e.(endedAt := following.at, duration := e.duration + added,
                                      maximumAge := BatchMaximum(e.maximumAge, current.age))]
  {
    hide Stale, BatchMaximum;
    NothingOpen(sc);
  }

  lemma NothingOpen(sc: Scan)
    ensures sc.active.None? ==> Listed(sc) == sc.closed
  {
  }

  lemma FreshInterval(sc: Scan, after: Scan, runs: seq<(nat, nat)>, samples: seq<Sample>, s: Sample, target: int)
    requires Ready(sc, runs, samples, target) && !Stale(samples[|samples| - 1], target)
    requires Listed(after) == Listed(sc) && after.active.None?
    ensures Extended(after, runs, samples + [s], target)
  {
    hide Stale, MaximalRun, EpisodeOf, InRuns, Listed;
    AllLonger(Listed(sc), runs, samples, s, target);
    AllCovered(runs, runs, samples, s, target);
    RunsInside(runs, Listed(sc), samples, target);
  }

  lemma RunsInside(runs: seq<(nat, nat)>, episodes: seq<Episode>, samples: seq<Sample>, target: int)
    requires Episodic(episodes, runs, samples, target)
    ensures forall k :: 0 <= k < |runs| ==> runs[k].0 <= runs[k].1 && runs[k].1 + 1 < |samples|
  {
    hide Stale, EpisodeOf, InRuns;
  }

  lemma FirstStaleInterval(sc: Scan, after: Scan, e: Episode, runs: seq<(nat, nat)>, samples: seq<Sample>, s: Sample,
                           target: int)
    requires Ready(sc, runs, samples, target) && Stale(samples[|samples| - 1], target) && sc.active.None?
    requires after.active.Some? && Listed(after) == Listed(sc) + [e]
    requires var current := samples[|samples| - 1];
             e == Episode(current.at, s.at, s.at - current.at, BatchMaximum(current.age, current.age))
    ensures Extended(after, runs + [(|samples| - 1, |samples| - 1)], samples + [s], target)
  {
    hide Stale, EpisodeOf, InRuns, Listed, BatchMaximum;
    var last := |samples| - 1;
    var more := runs + [(last, last)];
    RunsInside(runs, Listed(sc), samples, target);
    hide MaximalRun;
    AllLonger(Listed(sc), runs, samples, s, target);
    NewRun(samples, s, target);
    AllCovered(runs, more, samples, s, target);
  }

  lemma LaterStaleInterval(sc: Scan, after: Scan, closed: seq<Episode>, e: Episode, runs: seq<(nat, nat)>,
                           samples: seq<Sample>, s: Sample, target: int)
    requires Ready(sc, runs, samples, target) && Stale(samples[|samples| - 1], target) && sc.active.Some?
    requires Listed(sc) == closed + [e] && after.active.Some?
    requires var current := samples[|samples| - 1];
             Listed(after) == closed + [e.(endedAt := s.at, duration := e.duration + (s.at - current.at),
                                           maximumAge := BatchMaximum(e.maximumAge, current.age))]
    ensures |runs| == |closed| + 1
    ensures Extended(after, runs[..|runs| - 1] + [(runs[|runs| - 1].0, |samples| - 1)], samples + [s], target)
  {
    hide Stale, EpisodeOf, InRuns, Listed, BatchMaximum;
    var open := runs[|runs| - 1].0;
    var more := runs[..|runs| - 1] + [(open, |samples| - 1)];
    assert (closed + [e])[|closed|] == e;
    RunsInside(runs, Listed(sc), samples, target);
    hide MaximalRun;
    forall k | 0 <= k < |closed| ensures (closed + [e])[k] == closed[k] && runs[k].1 + 2 < |samples| {
      assert runs[k].1 < runs[k + 1].0;
    }
    AllLonger(closed, runs[..|runs| - 1], samples, s, target);
    LongerRun(e, samples, s, target, open);
    AllCovered(runs, more, samples, s, target);
  }

  lemma OneSampleNoRuns(samples: seq<Sample>, target: int)
    requires |samples| == 1 && forall k :: 0 <= k < |samples| && samples[k].age.Some? ==> samples[k].age.value >= 0
    ensures Ready(BatchScan(samples, target), [], samples, target)
  {
  }

  lemma {:induction false} ScanListsRuns(samples: seq<Sample>, target: int) returns (runs: seq<(nat, nat)>)
    requires samples != []
    requires forall k :: 0 <= k < |samples| && samples[k].age.Some? ==> samples[k].age.value >= 0
    ensures Ready(BatchScan(samples, target), runs, samples, target)
    decreases |samples|
  {
    if |samples| == 1 {
      OneSampleNoRuns(samples, target);
      runs := [];
    } else {
      var before, s := samples[..|samples| - 1], samples[|samples| - 1];
      var earlier := ScanListsRuns(before, target);
      var sc := BatchScan(before, target);
      assert samples == before + [s] && before[|before| - 1] == samples[|samples| - 2];
      runs := NextRuns(sc, BatchScan(samples, target), earlier, before, s, target);
      ActiveExactly(samples, target);
      hide Stale, Episodic, OpenRun, BatchScan, BatchStep;
    }
  }

  lemma NextRuns(sc: Scan, after: Scan, runs: seq<(nat, nat)>, samples: seq<Sample>, s: Sample, target: int)
    returns (more: seq<(nat, nat)>)
    requires Ready(sc, runs, samples, target) && after == BatchStep(sc, samples[|samples| - 1], s, target)
    ensures Extended(after, more, samples + [s], target)
  {
    hide Stale, Episodic, OpenRun, BatchStep, Listed, Extended, BatchMaximum;
    var current := samples[|samples| - 1];
    SteppedList(sc, current, s, target);
    if !Stale(current, target) {
      FreshInterval(sc, after, runs, samples, s, target);
      more := runs;
    } else if sc.active.None? {
      FirstStaleInterval(sc, after, Listed(after)[|sc.closed|], runs, samples, s, target);
      more := runs + [(|samples| - 1, |samples| - 1)];
    } else {
      LaterStaleInterval(sc, after, sc.closed, sc.active.value, runs, samples, s, target);
      more := runs[..|runs| - 1] + [(runs[|runs| - 1].0, |samples| - 1)];
    }
  }

  /**
   * The batch episodes are exactly the maximal runs of stale samples, as far as intervals begin there, in order: each
   * from its first sample to the one behind its last, with the largest age seen in between.
   */
  lemma EpisodesAreRuns(samples: seq<Sample>, target: int) returns (runs: seq<(nat, nat)>)
    requires forall k :: 0 <= k < |samples| && samples[k].age.Some? ==> samples[k].age.value >= 0
    ensures Episodic(BatchEpisodes(samples, target), runs, samples, target)
  {
    if samples == [] {
      runs := [];
    } else {
      runs := ScanListsRuns(samples, target);
      hide Stale, OpenRun, BatchScan, Episodic;
    }
  }

  // ---------- charged seconds ----------

  function Seconds(lo: int, hi: int): (s: set<int>)
    ensures forall t :: t in s <==> lo <= t < hi
    ensures |s| == if lo <= hi then hi - lo else 0
    decreases hi - lo
  {
    if lo >= hi then {} else Seconds(lo, hi - 1) + {hi - 1}
  }

  /** An overlap is the number of seconds the episode and the range have in common. */
  lemma OverlapIsCommonSeconds(a: int, b: int, r: Range)
    ensures Overlap(a, b, r) == |Seconds(a, b) * Seconds(r.start, r.end)|
  {
    var lo, hi := Max(a, r.start), Min(b, r.end);
    assert Seconds(a, b) * Seconds(r.start, r.end) == Seconds(lo, hi);
  }

  function CommonSeconds(e: Episode, ranges: seq<Range>): nat {
    if ranges == [] then 0
    else CommonSeconds(e, ranges[..|ranges| - 1])
         + |Seconds(e.startedAt, e.endedAt) * Seconds(ranges[|ranges| - 1].start, ranges[|ranges| - 1].end)|
  }

  function AllCommonSeconds(episodes: seq<Episode>, ranges: seq<Range>): nat {
    if episodes == [] then 0
    else AllCommonSeconds(episodes[..|episodes| - 1], ranges) + CommonSeconds(episodes[|episodes| - 1], ranges)
  }

  lemma {:induction false} OverlapsAreCommon(e: Episode, ranges: seq<Range>)
    ensures OverlapSum(e.startedAt, e.endedAt, ranges) == CommonSeconds(e, ranges)
  {
    if ranges != [] {
      OverlapsAreCommon(e, ranges[..|ranges| - 1]);
      OverlapIsCommonSeconds(e.startedAt, e.endedAt, ranges[|ranges| - 1]);
    }
  }

  /** What is charged before the cap: episode by episode and range by range, the seconds they have in common. */
  lemma {:induction false} ChargedSeconds(episodes: seq<Episode>, ranges: seq<Range>)
    ensures ChargedTo(episodes, ranges) == AllCommonSeconds(episodes, ranges)
  {
    if episodes != [] {
      ChargedSeconds(episodes[..|episodes| - 1], ranges);
      OverlapsAreCommon(episodes[|episodes| - 1], ranges);
    }
  }
}
