/** Freshness evidence: the streaming aggregator, the batch functions it must agree with, and what both mean. */
module Freshness {
  import opened Options
  import opened AcquisitionHealth
  import opened Reservoir

  /**
   * One monitor sample. `health` is the raw state name, `age` the unrounded age of the worst required register, and
   * `worst` that register.
   */
  datatype Sample = Sample(at: int, monotonic: Option<int>, health: Option<string>, known: nat, required: nat,
                           age: Option<int>, worst: Option<int>)

  datatype Episode = Episode(startedAt: int, endedAt: int, duration: int, maximumAge: Option<int>)

  function HealthOf(s: Sample): Health {
    if s.health == Some("healthy") then Healthy
    else if s.health == Some("recovering") then Recovering
    else Degraded
  }

  predicate Stale(s: Sample, target: int) {
    s.age.None? || s.known != s.required || s.age.value > target
  }

  function Max(a: int, b: int): int {
    if a >= b then a else b
  }

  // ---------- the batch functions ----------

  function Gap(samples: seq<Sample>): int
    requires |samples| >= 2
  {
    samples[|samples| - 1].at - samples[|samples| - 2].at
  }

  /** Time integrated over the intervals whose first sample satisfies `counts`. */
  function Integral(samples: seq<Sample>, counts: Sample -> bool): int {
    if |samples| < 2 then 0
    else Integral(samples[..|samples| - 1], counts) + (if counts(samples[|samples| - 2]) then Gap(samples) else 0)
  }

  function StaleIn(target: int): Sample -> bool {
    s => Stale(s, target)
  }

  function StaleWhile(target: int, recovering: bool): Sample -> bool {
    s => Stale(s, target) && (s.health == Some("recovering")) == recovering
  }

  function InHealth(h: Health): Sample -> bool {
    s => HealthOf(s) == h
  }

  /** Two conditions that agree integrate to the same. */
  lemma {:induction false} SameIntegral(samples: seq<Sample>, p: Sample -> bool, q: Sample -> bool)
    requires forall s :: p(s) == q(s)
    ensures Integral(samples, p) == Integral(samples, q)
  {
    if |samples| >= 2 {
      SameIntegral(samples[..|samples| - 1], p, q);
    }
  }

  method TimeBeyondTarget(samples: seq<Sample>, target: int) returns (total: int)
    ensures total == Integral(samples, StaleIn(target))
    ensures total
         == Integral(samples, (s: Sample) => s.age.None? || s.known != s.required || s.age.value > target)
  {
    SameIntegral(samples, StaleIn(target),
                 (s: Sample) => s.age.None? || s.known != s.required || s.age.value > target);
    total := 0;
    if samples == [] {
      return;
    }
    for i := 1 to |samples|
      invariant total == Integral(samples[..i], StaleIn(target))
    {
      assert samples[..i + 1][..i] == samples[..i];
      if Stale(samples[i - 1], target) {
        total := total + (samples[i].at - samples[i - 1].at);
      }
    }
    assert samples[..|samples|] == samples;
  }

  method TimeBeyondTargetByHealthState(samples: seq<Sample>, target: int) returns (recovering: int, outside: int)
    ensures recovering == Integral(samples, StaleWhile(target, true))
    ensures outside == Integral(samples, StaleWhile(target, false))
    ensures recovering
         == Integral(samples, (s: Sample) => (s.age.None? || s.known != s.required || s.age.value > target)
                                             && s.health == Some("recovering"))
    ensures outside
         == Integral(samples, (s: Sample) => (s.age.None? || s.known != s.required || s.age.value > target)
                                             && s.health != Some("recovering"))
  {
    SameIntegral(samples, StaleWhile(target, true),
                 (s: Sample) => (s.age.None? || s.known != s.required || s.age.value > target)
                                && s.health == Some("recovering"));
    SameIntegral(samples, StaleWhile(target, false),
                 (s: Sample) => (s.age.None? || s.known != s.required || s.age.value > target)
                                && s.health != Some("recovering"));
    recovering, outside := 0, 0;
    if samples == [] {
      return;
    }
    for i := 1 to |samples|
      invariant recovering == Integral(samples[..i], StaleWhile(target, true))
      invariant outside == Integral(samples[..i], StaleWhile(target, false))
    {
      assert samples[..i + 1][..i] == samples[..i];
      if !Stale(samples[i - 1], target) {
        continue;
      }
      if samples[i - 1].health == Some("recovering") {
        recovering := recovering + (samples[i].at - samples[i - 1].at);
      } else {
        outside := outside + (samples[i].at - samples[i - 1].at);
      }
    }
    assert samples[..|samples|] == samples;
  }

  /** The states by the names the samples carry; no name, or any other, counts as degraded. */
  lemma HealthNames(samples: seq<Sample>)
    ensures Integral(samples, InHealth(Healthy)) == Integral(samples, (s: Sample) => s.health == Some("healthy"))
    ensures Integral(samples, InHealth(Recovering))
         == Integral(samples, (s: Sample) => s.health == Some("recovering"))
    ensures Integral(samples, InHealth(Degraded))
         == Integral(samples, (s: Sample) => s.health != Some("healthy") && s.health != Some("recovering"))
  {
    OneStateOnly();
    SameIntegral(samples, InHealth(Healthy), (s: Sample) => s.health == Some("healthy"));
    SameIntegral(samples, InHealth(Recovering), (s: Sample) => s.health == Some("recovering"));
    SameIntegral(samples, InHealth(Degraded),
                 (s: Sample) => s.health != Some("healthy") && s.health != Some("recovering"));
  }

  lemma OneStateOnly()
    ensures Some("healthy") != Some("recovering")
  {
    assert "healthy"[0] != "recovering"[0];
  }

  method TimeByHealthState(samples: seq<Sample>) returns (healthy: int, recovering: int, degraded: int)
    ensures healthy == Integral(samples, (s: Sample) => s.health == Some("healthy"))
    ensures recovering == Integral(samples, (s: Sample) => s.health == Some("recovering"))
    ensures degraded == Integral(samples, (s: Sample) => s.health != Some("healthy") && s.health != Some("recovering"))
    ensures healthy == Integral(samples, InHealth(Healthy))
    ensures recovering == Integral(samples, InHealth(Recovering))
    ensures degraded == Integral(samples, InHealth(Degraded))
  {
    HealthNames(samples);
    healthy, recovering, degraded := 0, 0, 0;
    if samples == [] {
      return;
    }
    for i := 1 to |samples|
      invariant healthy == Integral(samples[..i], InHealth(Healthy))
      invariant recovering == Integral(samples[..i], InHealth(Recovering))
      invariant degraded == Integral(samples[..i], InHealth(Degraded))
    {
      assert samples[..i + 1][..i] == samples[..i];
      var gap := samples[i].at - samples[i - 1].at;
      match HealthOf(samples[i - 1])
      case Healthy => healthy := healthy + gap;
      case Recovering => recovering := recovering + gap;
      case Degraded => degraded := degraded + gap;
    }
    assert samples[..|samples|] == samples;
  }

  datatype Scan = Scan(closed: seq<Episode>, active: Option<Episode>)

  /** `max(active or age, age)`: an absent or zero maximum gives way to the new age. */
  function BatchMaximum(previous: Option<int>, age: Option<int>): Option<int> {
    if age.None? then previous
    else if previous.None? || previous.value == 0 then age
    else Some(Max(previous.value, age.value))
  }

  function BatchStep(sc: Scan, current: Sample, following: Sample, target: int): Scan {
    if Stale(current, target) then
      var e := if sc.active.Some? then sc.active.value else Episode(current.at, following.at, 0, current.age);
      Scan(sc.closed, Some(e.(endedAt := following.at, duration := e.duration + (following.at - current.at),
                              maximumAge := BatchMaximum(e.maximumAge, current.age))))
    else if sc.active.Some? then Scan(sc.closed + [sc.active.value], None)
    else sc
  }

  function BatchScan(samples: seq<Sample>, target: int): Scan {
    if |samples| < 2 then Scan([], None)
    else BatchStep(BatchScan(samples[..|samples| - 1], target), samples[|samples| - 2], samples[|samples| - 1], target)
  }

  function BatchEpisodes(samples: seq<Sample>, target: int): seq<Episode> {
    var sc := BatchScan(samples, target);
    sc.closed + if sc.active.Some? then [sc.active.value] else []
  }

  method ViolationEpisodeSummary(samples: seq<Sample>, target: int)
    returns (episodes: seq<Episode>, rightCensored: bool)
    ensures episodes == BatchEpisodes(samples, target)
    ensures rightCensored <==> BatchScan(samples, target).active.Some? && Stale(samples[|samples| - 1], target)
  {
    episodes := [];
    var active: Option<Episode> := None;
    if samples == [] {
      return [], false;
    }
    for i := 1 to |samples|
      invariant Scan(episodes, active) == BatchScan(samples[..i], target)
    {
      assert samples[..i + 1][..i] == samples[..i];
      var current, following := samples[i - 1], samples[i];
      if Stale(current, target) {
        if active.None? {
          active := Some(Episode(current.at, following.at, 0, current.age));
        }
        var e := active.value;
        e := e.(endedAt := following.at);
        e := e.(duration := e.duration + (following.at - current.at));
        e := e.(maximumAge := BatchMaximum(e.maximumAge, current.age));
        active := Some(e);
        continue;
      }
      if active.Some? {
        episodes := episodes + [active.value];
        active := None;
      }
    }
    assert samples[..|samples|] == samples;
    rightCensored := active.Some? && Stale(samples[|samples| - 1], target);
    if active.Some? {
      episodes := episodes + [active.value];
    }
  }

  // ---------- the streaming aggregator ----------

  /** Its exact counters; quantile reservoirs are not part of them. */
  datatype Totals = Totals(
    healthy: int, recovering: int, degraded: int, stale: int, staleRecovering: int, staleOutside: int,
    episodes: seq<Episode>, episodeCount: nat, dropped: nat, longest: int, active: Option<Episode>,
    last: Option<Sample>, violations: nat, regressions: nat)

  const NOTHING := Totals(0, 0, 0, 0, 0, 0, [], 0, 0, 0, None, None, 0, 0)

  /** The monotonic clock when both samples have it, the wall clock otherwise. */
  function RawDuration(previous: Sample, s: Sample): int {
    if previous.monotonic.Some? && s.monotonic.Some? then s.monotonic.value - previous.monotonic.value
    else s.at - previous.at
  }

  function StreamMaximum(previous: Option<int>, age: Option<int>): Option<int> {
    if age.None? then previous
    else if previous.None? then age
    else Some(Max(previous.value, age.value))
  }

  function CloseEpisode(t: Totals, capacity: nat): Totals {
    if t.active.None? then t
    else
      var e := t.active.value;
      t.(episodeCount := t.episodeCount + 1, longest := Max(t.longest, e.duration), active := None,
         episodes := if |t.episodes| < capacity then t.episodes + [e] else t.episodes,
         dropped := if |t.episodes| < capacity then t.dropped else t.dropped + 1)
  }

  function AddHealth(t: Totals, h: Health, duration: int): Totals {
    match h
    case Healthy => t.(healthy := t.healthy + duration)
    case Recovering => t.(recovering := t.recovering + duration)
    case Degraded => t.(degraded := t.degraded + duration)
  }

  /** A stale interval adds to the stale seconds and opens or lengthens the active episode. */
  function AddStale(t: Totals, current: Sample, ended: int, duration: int): Totals {
    var e := if t.active.Some? then t.active.value else Episode(current.at, ended, 0, current.age);
    t.(stale := t.stale + duration,
       staleRecovering := t.staleRecovering + (if HealthOf(current).Recovering? then duration else 0),
       staleOutside := t.staleOutside + (if HealthOf(current).Recovering? then 0 else duration),
       active := Some(e.(endedAt := ended, duration := e.duration + duration,
                         maximumAge := StreamMaximum(e.maximumAge, current.age))))
  }

  function Integrate(t: Totals, current: Sample, ended: int, raw: int, target: int, capacity: nat): Totals {
    var duration := Max(raw, 0);
    var counted := t.(regressions := if raw < 0 then t.regressions + 1 else t.regressions);
    var u := AddHealth(counted, HealthOf(current), duration);
    if Stale(current, target) then AddStale(u, current, ended, duration) else CloseEpisode(u, capacity)
  }

  function AppendSample(t: Totals, s: Sample, target: int, capacity: nat): Totals {
    var u := if t.last.Some? then Integrate(t, t.last.value, s.at, RawDuration(t.last.value, s), target, capacity)
        else t;
    u.(last := Some(s), violations := if Stale(s, target) then u.violations + 1 else u.violations)
  }

  function Stream(samples: seq<Sample>, target: int, capacity: nat): Totals {
    if samples == [] then NOTHING
    else AppendSample(Stream(samples[..|samples| - 1], target, capacity), samples[|samples| - 1], target, capacity)
  }

  /** What finalizing reports: the retained episodes, how many there were, how many were lost, and which is
      unfinished. */
  datatype Finished = Finished(episodes: seq<Episode>, endedStale: bool, dropped: nat, count: nat,
      censored: Option<nat>)

  /** A stale final sample with no episode open gets one of length zero. */
  function ActiveAtEnd(t: Totals, target: int): Option<Episode> {
    if t.active.None? && t.last.Some? && Stale(t.last.value, target)
    then Some(Episode(t.last.value.at, t.last.value.at, 0, t.last.value.age))
    else t.active
  }

  // ---------- what it keeps about ages and intervals ----------

  datatype Distribution = Distribution(
    samples: nat, complete: nat, maximumAge: Option<int>, worst: map<Option<int>, nat>,
    maximumInterval: Option<int>, fallbacks: nat, ages: Contents, intervals: Contents)

  const NO_DISTRIBUTION := Distribution(0, 0, None, map[], None, 0, NO_CONTENTS, NO_CONTENTS)

  /** The size of both reservoirs and their random numbers. */
  datatype Sampling = Sampling(capacity: nat, ageDraws: nat -> nat, intervalDraws: nat -> nat)

  predicate Complete(s: Sample) {
    s.known == s.required && s.age.Some?
  }

  function Larger(previous: Option<int>, v: int): Option<int> {
    if previous.None? then Some(v) else Some(Max(previous.value, v))
  }

  function CountIn(counts: map<Option<int>, nat>, register: Option<int>): nat {
    if register in counts then counts[register] else 0
  }

  function AddInterval(d: Distribution, duration: int, sampling: Sampling): Distribution {
    d.(intervals := Add(d.intervals, sampling.capacity, sampling.intervalDraws, duration),
       maximumInterval := Larger(d.maximumInterval, duration))
  }

  function AddAge(d: Distribution, s: Sample, sampling: Sampling): Distribution {
    if !Complete(s) then d.(samples := d.samples + 1)
    else d.(samples := d.samples + 1, complete := d.complete + 1,
            ages := Add(d.ages, sampling.capacity, sampling.ageDraws, s.age.value),
            maximumAge := Larger(d.maximumAge, s.age.value),
            worst := d.worst[s.worst := CountIn(d.worst, s.worst) + 1])
  }

  predicate FallsBack(previous: Sample, s: Sample) {
    previous.monotonic.None? || s.monotonic.None?
  }

  function AppendToDistribution(d: Distribution, last: Option<Sample>, s: Sample, sampling: Sampling): Distribution {
    var e := if last.None? then d
             else AddInterval(d.(fallbacks := d.fallbacks + (if FallsBack(last.value, s) then 1 else 0)),
                              Max(RawDuration(last.value, s), 0), sampling);
    AddAge(e, s, sampling)
  }

  function Finish(t: Totals, target: int, capacity: nat): Finished {
    var endedStale := t.last.Some? && Stale(t.last.value, target);
    var active := ActiveAtEnd(t, target);
    if active.None? then Finished(t.episodes, endedStale, t.dropped, t.episodeCount, None)
    else if |t.episodes| < capacity then
      Finished(t.episodes + [active.value], endedStale, t.dropped, t.episodeCount + 1,
               if endedStale then Some(|t.episodes|) else None)
    else Finished(t.episodes, endedStale, t.dropped + 1, t.episodeCount + 1, None)
  }

  /** The longest duration it reports: of the closed episodes, dropped ones included, and the active one so far. */
  function ReportedLongest(t: Totals): int {
    Max(t.longest, if t.active.Some? then t.active.value.duration else 0)
  }

  class StreamingProfileFreshnessAggregator {
    const target: int
    const episodeCapacity: nat
    const ages: BoundedReservoir
    const intervals: BoundedReservoir
    var samples: nat
    var completeSamples: nat
    var maximumAge: Option<int>
    var worstCounts: map<Option<int>, nat>
    var maximumInterval: Option<int>
    var fallbacks: nat
    var healthy: int
    var recovering: int
    var degraded: int
    var staleSeconds: int
    var staleRecovering: int
    var staleOutside: int
    var episodes: seq<Episode>
    var episodeCount: nat
    var episodesDropped: nat
    var longest: int
    var active: Option<Episode>
    var last: Option<Sample>
    var violations: nat
    var regressions: nat

    ghost function Model(): Totals
      reads this
    {
      Totals(healthy, recovering, degraded, staleSeconds, staleRecovering, staleOutside, episodes, episodeCount,
             episodesDropped, longest, active, last, violations, regressions)
    }

    ghost function Seen(): Distribution
      reads this, ages, intervals
    {
      Distribution(samples, completeSamples, maximumAge, worstCounts, maximumInterval, fallbacks, ages.Model(),
                   intervals.Model())
    }

    ghost function HowSampled(): Sampling {
      Sampling(ages.capacity, ages.draws, intervals.draws)
    }

    ghost predicate Valid() {
      ages != intervals && ages.capacity == intervals.capacity
    }

    /** The source raises unless the target and both capacities are positive. */
    constructor (target: int, episodeCapacity: nat, quantileCapacity: nat, ageDraws: nat -> nat,
        intervalDraws: nat -> nat)
      requires target > 0 && episodeCapacity > 0 && quantileCapacity > 0
      ensures Valid() && Model() == NOTHING && Seen() == NO_DISTRIBUTION
      ensures HowSampled() == Sampling(quantileCapacity, ageDraws, intervalDraws)
      ensures this.target == target && this.episodeCapacity == episodeCapacity && fresh(ages) && fresh(intervals)
    {
      this.target, this.episodeCapacity := target, episodeCapacity;
      ages := new BoundedReservoir(quantileCapacity, ageDraws);
      intervals := new BoundedReservoir(quantileCapacity, intervalDraws);
      samples, completeSamples, maximumAge, worstCounts, maximumInterval, fallbacks := 0, 0, None, map[], None, 0;
      healthy, recovering, degraded, staleSeconds, staleRecovering, staleOutside := 0, 0, 0, 0, 0, 0;
      episodes, episodeCount, episodesDropped, longest, active, last := [], 0, 0, 0, None, None;
      violations, regressions := 0, 0;
    }

    method CloseActiveEpisode()
      modifies this`episodeCount, this`longest, this`active, this`episodes, this`episodesDropped
      ensures Model() == CloseEpisode(old(Model()), episodeCapacity)
    {
      if active.Some? {
        episodeCount := episodeCount + 1;
        longest := Max(longest, active.value.duration);
        if |episodes| < episodeCapacity {
          episodes := episodes + [active.value];
        } else {
          episodesDropped := episodesDropped + 1;
        }
        active := None;
      }
    }

    method AddHealthSeconds(h: Health, duration: int)
      modifies this`healthy, this`recovering, this`degraded
      ensures Model() == AddHealth(old(Model()), h, duration)
    {
      match h
      case Healthy => healthy := healthy + duration;
      case Recovering => recovering := recovering + duration;
      case Degraded => degraded := degraded + duration;
    }

    method AddStaleSeconds(current: Sample, ended: int, duration: int)
      modifies this`staleSeconds, this`staleRecovering, this`staleOutside, this`active
      ensures Model() == AddStale(old(Model()), current, ended, duration)
    {
      hide StreamMaximum;
      staleSeconds := staleSeconds + duration;
      if HealthOf(current).Recovering? {
        staleRecovering := staleRecovering + duration;
      } else {
        staleOutside := staleOutside + duration;
      }
      if active.None? {
        active := Some(Episode(current.at, ended, 0, current.age));
      }
      var e := active.value;
      active := Some(e.(endedAt := ended, duration := e.duration + duration,
                        maximumAge := StreamMaximum(e.maximumAge, current.age)));
    }

    method CountInterval(duration: int)
      requires Valid()
      modifies this`maximumInterval, intervals
      ensures Model() == old(Model()) && Seen() == AddInterval(old(Seen()), duration, HowSampled())
    {
      hide Add, Larger;
      intervals.AddValue(duration);
      maximumInterval := Larger(maximumInterval, duration);
    }

    method IntegrateSeconds(current: Sample, ended: int, raw: int)
      modifies this`regressions, this`healthy, this`recovering, this`degraded, this`staleSeconds, this`staleRecovering,
               this`staleOutside, this`active, this`episodeCount, this`longest, this`episodes, this`episodesDropped
      ensures Model() == Integrate(old(Model()), current, ended, raw, target, episodeCapacity)
    {
      hide CloseEpisode, AddStale, AddHealth, Stale, HealthOf;
      var duration := raw;
      if duration < 0 {
        regressions := regressions + 1;
        duration := 0;
      }
      AddHealthSeconds(HealthOf(current), duration);
      if !Stale(current, target) {
        CloseActiveEpisode();
        return;
      }
      AddStaleSeconds(current, ended, duration);
    }

    method IntegrateInterval(current: Sample, ended: int, raw: int)
      requires Valid()
      modifies this`regressions, this`healthy, this`recovering, this`degraded, this`staleSeconds, this`staleRecovering,
               this`staleOutside, this`active, this`episodeCount, this`longest, this`episodes, this`episodesDropped,
               this`maximumInterval, intervals
      ensures Model() == Integrate(old(Model()), current, ended, raw, target, episodeCapacity)
      ensures Seen() == AddInterval(old(Seen()), Max(raw, 0), HowSampled())
    {
      hide Integrate, AddInterval;
      CountInterval(Max(raw, 0));
      IntegrateSeconds(current, ended, raw);
    }

    method CountSample(s: Sample)
      requires Valid()
      modifies this`samples, this`completeSamples, this`maximumAge, this`worstCounts, ages
      ensures Model() == old(Model()) && Seen() == AddAge(old(Seen()), s, HowSampled())
    {
      hide Add, Larger, CountIn;
      samples := samples + 1;
      if Complete(s) {
        completeSamples := completeSamples + 1;
        ages.AddValue(s.age.value);
        maximumAge := Larger(maximumAge, s.age.value);
        worstCounts := worstCounts[s.worst := CountIn(worstCounts, s.worst) + 1];
      }
    }

    method IntegrateUpTo(s: Sample)
      requires Valid() && last.Some?
      modifies this, intervals
      ensures last == old(last)
      ensures Model() == Integrate(old(Model()), old(last).value, s.at, RawDuration(old(last).value, s), target,
              episodeCapacity)
      ensures Seen() == AddInterval(old(Seen()).(fallbacks := old(fallbacks)
                                                              + (if FallsBack(old(last).value, s) then 1 else 0)),
                                    Max(RawDuration(old(last).value, s), 0), HowSampled())
    {
      hide Integrate, AddInterval, FallsBack, RawDuration;
      if FallsBack(last.value, s) {
        fallbacks := fallbacks + 1;
      }
      IntegrateInterval(last.value, s.at, RawDuration(last.value, s));
    }

    method Append(s: Sample)
      requires Valid()
      modifies this, ages, intervals
      ensures Model() == AppendSample(old(Model()), s, target, episodeCapacity)
      ensures Seen() == AppendToDistribution(old(Seen()), old(last), s, HowSampled())
    {
      hide Integrate, AddInterval, AddAge, Stale, FallsBack, RawDuration;
      if last.Some? {
        IntegrateUpTo(s);
      }
      CountSample(s);
      if Stale(s, target) {
        violations := violations + 1;
      }
      last := Some(s);
    }

    method LongestDuration() returns (longestDuration: int)
      ensures longestDuration == ReportedLongest(Model())
    {
      longestDuration := Max(longest, if active.Some? then active.value.duration else 0);
    }

    method SerializedEpisodes() returns (result: Finished)
      ensures result == Finish(Model(), target, episodeCapacity)
    {
      var current := active;
      var kept := episodes;
      var effectiveDropped := episodesDropped;
      var activeRetained := false;
      var finalStale := last.Some? && Stale(last.value, target);
      if current.None? && finalStale {
        current := Some(Episode(last.value.at, last.value.at, 0, last.value.age));
      }
      var count := episodeCount;
      if current.Some? {
        count := count + 1;
        if |kept| < episodeCapacity {
          kept := kept + [current.value];
          activeRetained := true;
        } else {
          effectiveDropped := effectiveDropped + 1;
        }
      }
      result := Finished(kept, finalStale, effectiveDropped, count,
                         if finalStale && activeRetained then Some(|kept| - 1) else None);
    }
  }

  // ---------- streaming equals batch ----------

  /** Non-negative ages, and clocks that never run back and agree with each other. */
  ghost predicate Regular(samples: seq<Sample>) {
    && (forall i :: 0 <= i < |samples| && samples[i].age.Some? ==> samples[i].age.value >= 0)
    && (forall i :: 0 < i < |samples| ==>
          RawDuration(samples[i - 1], samples[i]) == samples[i].at - samples[i - 1].at >= 0)
  }

  lemma RegularPrefix(samples: seq<Sample>)
    requires Regular(samples) && samples != []
    ensures Regular(samples[..|samples| - 1])
  {
  }

  /** Every running maximum is non-negative, so a zero maximum giving way changes nothing. */
  ghost predicate AgesFine(sc: Scan) {
    sc.active.Some? && sc.active.value.maximumAge.Some? ==> sc.active.value.maximumAge.value >= 0
  }

  function Kept(closed: seq<Episode>, capacity: nat): seq<Episode> {
    if |closed| <= capacity then closed else closed[..capacity]
  }

  /** The streaming state is the batch scan's, with all totals the batch integrals. */
  ghost predicate Matches(t: Totals, samples: seq<Sample>, target: int, capacity: nat) {
    var sc := BatchScan(samples, target);
    && t.active == sc.active && t.episodes == Kept(sc.closed, capacity) && t.episodeCount == |sc.closed|
    && t.dropped == |sc.closed| - |t.episodes| && t.regressions == 0
    && t.last == (if samples == [] then None else Some(samples[|samples| - 1]))
  }

  ghost predicate TotalsMatch(t: Totals, samples: seq<Sample>, target: int) {
    && t.stale == Integral(samples, StaleIn(target))
    && t.staleRecovering == Integral(samples, StaleWhile(target, true))
    && t.staleOutside == Integral(samples, StaleWhile(target, false))
    && t.healthy == Integral(samples, InHealth(Healthy))
    && t.recovering == Integral(samples, InHealth(Recovering))
    && t.degraded == Integral(samples, InHealth(Degraded))
  }

  /** How one interval changes the totals. */
  lemma IntegrateTotals(t: Totals, current: Sample, ended: int, raw: int, target: int, capacity: nat)
    requires raw >= 0
    ensures var u := Integrate(t, current, ended, raw, target, capacity);
            var stale := if Stale(current, target) then raw else 0;
            var recovering := current.health == Some("recovering");
            && u.stale == t.stale + stale
            && u.staleRecovering == t.staleRecovering + (if recovering then stale else 0)
            && u.staleOutside == t.staleOutside + (if recovering then 0 else stale)
            && u.healthy == t.healthy + (if HealthOf(current) == Healthy then raw else 0)
            && u.recovering == t.recovering + (if HealthOf(current) == Recovering then raw else 0)
            && u.degraded == t.degraded + (if HealthOf(current) == Degraded then raw else 0)
  {
    hide Stale;
  }

  lemma {:induction false} StreamTotals(samples: seq<Sample>, target: int, capacity: nat)
    requires Regular(samples)
    ensures TotalsMatch(Stream(samples, target, capacity), samples, target)
    ensures Stream(samples, target, capacity).last == (if samples == [] then None else Some(samples[|samples| - 1]))
    decreases |samples|
  {
    if samples != [] {
      RegularPrefix(samples);
      var before := samples[..|samples| - 1];
      StreamTotals(before, target, capacity);
      if before != [] {
        var current, s := samples[|samples| - 2], samples[|samples| - 1];
        assert RawDuration(current, s) == Gap(samples);
        IntegrateTotals(Stream(before, target, capacity), current, s.at, RawDuration(current, s), target, capacity);
      }
      hide Integrate, Stale, HealthOf, Regular;
    }
  }

  /** How one interval changes the episodes: as the batch step does, with the closed ones cut at the capacity. */
  lemma IntegrateEpisodes(t: Totals, closed: seq<Episode>, current: Sample, following: Sample, target: int,
      capacity: nat)
    requires following.at >= current.at && (current.age.Some? ==> current.age.value >= 0)
    requires t.episodes == Kept(closed, capacity) && t.episodeCount == |closed| && t.dropped == |closed| - |t.episodes|
    requires AgesFine(Scan(closed, t.active))
    ensures var u := Integrate(t, current, following.at, following.at - current.at, target, capacity);
            var sc := BatchStep(Scan(closed, t.active), current, following, target);
            && u.active == sc.active && u.episodes == Kept(sc.closed, capacity) && u.episodeCount == |sc.closed|
            && u.dropped == |sc.closed| - |u.episodes| && u.regressions == t.regressions && AgesFine(sc)
  {
    hide Stale, HealthOf;
  }

  lemma AppendMatches(t: Totals, samples: seq<Sample>, target: int, capacity: nat)
    requires Regular(samples) && |samples| >= 2
    requires Matches(t, samples[..|samples| - 1], target, capacity)
             && AgesFine(BatchScan(samples[..|samples| - 1], target))
    ensures Matches(AppendSample(t, samples[|samples| - 1], target, capacity), samples, target, capacity)
    ensures AgesFine(BatchScan(samples, target))
  {
    hide Stale, Kept, AgesFine, BatchStep, Integrate;
    var before := samples[..|samples| - 1];
    var current, s := before[|before| - 1], samples[|samples| - 1];
    assert current == samples[|samples| - 2];
    assert RawDuration(current, s) == s.at - current.at >= 0;
    assert current.age.Some? ==> current.age.value >= 0;
    hide Regular;
    IntegrateEpisodes(t, BatchScan(before, target).closed, current, s, target, capacity);
  }

  lemma {:induction false} StreamEpisodes(samples: seq<Sample>, target: int, capacity: nat)
    requires Regular(samples)
    ensures Matches(Stream(samples, target, capacity), samples, target, capacity)
    ensures AgesFine(BatchScan(samples, target))
    decreases |samples|
  {
    if |samples| >= 1 {
      RegularPrefix(samples);
      StreamEpisodes(samples[..|samples| - 1], target, capacity);
    }
    if |samples| >= 2 {
      hide AppendSample, Matches, AgesFine;
      AppendMatches(Stream(samples[..|samples| - 1], target, capacity), samples, target, capacity);
    }
  }
}
