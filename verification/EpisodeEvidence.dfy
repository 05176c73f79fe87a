/** What the finished episode evidence says about the samples, and how recovery time is charged against it. */
module EpisodeEvidence {
  import opened Options
  import opened AcquisitionHealth
  import opened Freshness

  // ---------- the reported list ----------

  /** The final sample is stale and starts a run of its own, so no interval has opened an episode for it. */
  predicate OpensAtEnd(samples: seq<Sample>, target: int) {
    var n := |samples|;
    n > 0 && Stale(samples[n - 1], target) && (n == 1 || !Stale(samples[n - 2], target))
  }

  /** Maximal runs of consecutive stale samples, counted at the sample that starts each. */
  function StaleRuns(samples: seq<Sample>, target: int): nat {
    if samples == [] then 0
    else StaleRuns(samples[..|samples| - 1], target) + (if OpensAtEnd(samples, target) then 1 else 0)
  }

  function ReportedEpisodes(samples: seq<Sample>, target: int): seq<Episode> {
    var last := if samples == [] then Sample(0, None, None, 0, 0, None, None) else samples[|samples| - 1];
    BatchEpisodes(samples, target)
    + (if OpensAtEnd(samples, target) then [Episode(last.at, last.at, 0, last.age)] else [])
  }

  lemma {:induction false} ActiveExactly(samples: seq<Sample>, target: int)
    ensures BatchScan(samples, target).active.Some? <==> |samples| >= 2 && Stale(samples[|samples| - 2], target)
    ensures |ReportedEpisodes(samples, target)| == StaleRuns(samples, target)
    decreases |samples|
  {
    if |samples| == 1 {
      assert samples[..0] == [];
      assert StaleRuns([], target) == 0;
    }
    if |samples| >= 2 {
      var before := samples[..|samples| - 1];
      ActiveExactly(before, target);
      assert before[|before| - 1] == samples[|samples| - 2];
      assert BatchScan(samples, target)
          == BatchStep(BatchScan(before, target), samples[|samples| - 2], samples[|samples| - 1], target);
    }
  }

  /**
   * The streaming report is the batch list, plus one zero-length episode exactly when the last sample
   * alone is stale, cut at the capacity; every maximal stale run is counted even when its episode is dropped.
   */
  lemma FinishedExactly(samples: seq<Sample>, target: int, capacity: nat)
    requires Regular(samples)
    ensures var f := Finish(Stream(samples, target, capacity), target, capacity);
            var all := ReportedEpisodes(samples, target);
            && f.episodes == Kept(all, capacity)
            && f.count == |all| == StaleRuns(samples, target)
            && f.dropped == |all| - |f.episodes|
            && (f.endedStale <==> samples != [] && Stale(samples[|samples| - 1], target))
            && (f.censored == if f.endedStale && |all| <= capacity then Some(|all| - 1) else None)
  {
    StreamEpisodes(samples, target, capacity);
    ActiveExactly(samples, target);
    var t := Stream(samples, target, capacity);
    var sc := BatchScan(samples, target);
    var all := ReportedEpisodes(samples, target);
    var active := ActiveAtEnd(t, target);
    hide Stream, BatchScan, StaleRuns, Regular, AgesFine, Stale, Kept;
    assert all == sc.closed + (if active.Some? then [active.value] else []);
    FinishReports(t, sc.closed, all, target, capacity);
    hide Finish;
  }

  /** Finishing adds the episode still open, if there is one and room for it. */
  lemma FinishReports(t: Totals, closed: seq<Episode>, all: seq<Episode>, target: int, capacity: nat)
    requires t.episodes == Kept(closed, capacity) && t.episodeCount == |closed| && t.dropped == |closed| - |t.episodes|
    requires all == closed + (if ActiveAtEnd(t, target).Some? then [ActiveAtEnd(t, target).value] else [])
    ensures var f := Finish(t, target, capacity);
            && f.episodes == Kept(all, capacity) && f.count == |all| && f.dropped == |all| - |f.episodes|
            && (f.endedStale <==> t.last.Some? && Stale(t.last.value, target))
            && (f.censored == if f.endedStale && |all| <= capacity && ActiveAtEnd(t, target).Some? then Some(|all| - 1)
                              else None)
  {
    hide Stale;
    var active := ActiveAtEnd(t, target);
    assert active.Some? && |closed| < capacity ==> Kept(all, capacity) == all;
    assert active.Some? && |closed| >= capacity ==> Kept(all, capacity) == Kept(closed, capacity);
  }

  // ---------- durations ----------

  function TotalDuration(episodes: seq<Episode>): int {
    if episodes == [] then 0 else TotalDuration(episodes[..|episodes| - 1]) + episodes[|episodes| - 1].duration
  }

  lemma TotalDurationSnoc(episodes: seq<Episode>, e: Episode)
    ensures TotalDuration(episodes + [e]) == TotalDuration(episodes) + e.duration
  {
    assert (episodes + [e])[..|episodes|] == episodes;
  }

  /** Each duration is the distance between its ends. */
  ghost predicate Spans(episodes: seq<Episode>) {
    forall i :: 0 <= i < |episodes| ==> episodes[i].duration == episodes[i].endedAt - episodes[i].startedAt >= 0
  }

  /** In order and disjoint, none reaching past `end`. */
  ghost predicate InOrder(episodes: seq<Episode>, end: int) {
    && (forall i, j :: 0 <= i < j < |episodes| ==> episodes[i].endedAt <= episodes[j].startedAt)
    && (forall i :: 0 <= i < |episodes| ==> episodes[i].endedAt <= end)
  }

  function Listed(sc: Scan): seq<Episode> {
    sc.closed + if sc.active.Some? then [sc.active.value] else []
  }

  /** The scan after any samples: its episodes tile stale time exactly, and an open one ends at the last sample. */
  ghost predicate Tiled(sc: Scan, samples: seq<Sample>, target: int) {
    && Spans(Listed(sc))
    && TotalDuration(Listed(sc)) == Integral(samples, StaleIn(target))
    && (samples != [] ==> InOrder(Listed(sc), samples[|samples| - 1].at))
    && (sc.active.Some? ==> samples != [] && sc.active.value.endedAt == samples[|samples| - 1].at)
  }

  /** A further episode starting where the others have ended keeps spans and order; so does removing one. */
  lemma SpansSnoc(episodes: seq<Episode>, e: Episode)
    ensures Spans(episodes + [e]) <==> Spans(episodes) && e.duration == e.endedAt - e.startedAt >= 0
  {
    var all := episodes + [e];
    if Spans(all) {
      assert all[|episodes|] == e;
      forall i | 0 <= i < |episodes|
        ensures episodes[i].duration == episodes[i].endedAt - episodes[i].startedAt >= 0
      {
        assert all[i] == episodes[i];
      }
    }
  }

  lemma InOrderSnoc(episodes: seq<Episode>, e: Episode, end: int)
    requires e.startedAt <= end
    ensures InOrder(episodes + [e], end) <==> InOrder(episodes, e.startedAt) && e.endedAt <= end
  {
    var all := episodes + [e];
    if InOrder(all, end) {
      forall i | 0 <= i < |episodes|
        ensures episodes[i].endedAt <= e.startedAt
      {
        assert all[i] == episodes[i] && all[|episodes|] == e;
      }
      assert all[|episodes|] == e;
      forall i, j | 0 <= i < j < |episodes|
        ensures episodes[i].endedAt <= episodes[j].startedAt
      {
        assert all[i] == episodes[i] && all[j] == episodes[j];
      }
    }
  }

  lemma InOrderLater(episodes: seq<Episode>, end: int, later: int)
    requires InOrder(episodes, end) && end <= later
    ensures InOrder(episodes, later)
  {
  }

  /** A stale sample's interval opens an episode or lengthens the open one. */
  lemma TiledExtend(sc: Scan, current: Sample, following: Sample, target: int)
    requires Stale(current, target) && current.at <= following.at
    requires Spans(Listed(sc)) && InOrder(Listed(sc), current.at)
    requires sc.active.Some? ==> sc.active.value.endedAt == current.at
    ensures var after := BatchStep(sc, current, following, target);
            && Spans(Listed(after)) && InOrder(Listed(after), following.at)
            && TotalDuration(Listed(after)) == TotalDuration(Listed(sc)) + following.at - current.at
            && after.active.Some? && after.active.value.endedAt == following.at
  {
    hide Spans, InOrder, TotalDuration, Stale, BatchMaximum;
    var e := if sc.active.Some? then sc.active.value else Episode(current.at, following.at, 0, current.age);
    var f := BatchStep(sc, current, following, target).active.value;
    if sc.active.Some? {
      TotalDurationSnoc(sc.closed, e);
      SpansSnoc(sc.closed, e);
      InOrderSnoc(sc.closed, e, current.at);
    } else {
      assert sc.closed + [] == sc.closed;
    }
    TotalDurationSnoc(sc.closed, f);
    SpansSnoc(sc.closed, f);
    InOrderSnoc(sc.closed, f, following.at);
  }

  lemma TiledStep(sc: Scan, before: seq<Sample>, following: Sample, target: int)
    requires before != [] && Tiled(sc, before, target) && before[|before| - 1].at <= following.at
    ensures Tiled(BatchStep(sc, before[|before| - 1], following, target), before + [following], target)
  {
    hide Spans, InOrder, TotalDuration, Stale, BatchMaximum;
    var current := before[|before| - 1];
    var samples := before + [following];
    assert samples[..|before|] == before && Gap(samples) == following.at - current.at;
    assert Integral(samples, StaleIn(target))
        == Integral(before, StaleIn(target)) + (if Stale(current, target) then following.at - current.at else 0);
    hide Integral;
    if Stale(current, target) {
      TiledExtend(sc, current, following, target);
    } else {
      var after := BatchStep(sc, current, following, target);
      assert sc.closed + [] == sc.closed && after.closed + [] == after.closed;
      assert Listed(after) == Listed(sc);
      InOrderLater(Listed(sc), current.at, following.at);
    }
  }

  lemma {:induction false} ScanTiled(samples: seq<Sample>, target: int)
    requires Regular(samples)
    ensures Tiled(BatchScan(samples, target), samples, target)
    decreases |samples|
  {
    if |samples| >= 2 {
      var before := samples[..|samples| - 1];
      RegularPrefix(samples);
      ScanTiled(before, target);
      assert samples == before + [samples[|samples| - 1]];
      assert RawDuration(samples[|samples| - 2], samples[|samples| - 1]) >= 0;
      TiledStep(BatchScan(before, target), before, samples[|samples| - 1], target);
    }
  }

  // ---------- the longest ----------

  /** The largest duration, or zero. */
  function LongestOf(episodes: seq<Episode>): int {
    if episodes == [] then 0 else Max(LongestOf(episodes[..|episodes| - 1]), episodes[|episodes| - 1].duration)
  }

  lemma LongestSnoc(episodes: seq<Episode>, e: Episode)
    ensures LongestOf(episodes + [e]) == Max(LongestOf(episodes), e.duration)
  {
    assert (episodes + [e])[..|episodes|] == episodes;
  }

  ghost predicate IsLongest(duration: int, episodes: seq<Episode>) {
    && (episodes == [] ==> duration == 0)
    && (episodes != [] ==> exists i :: 0 <= i < |episodes| && episodes[i].duration == duration)
    && forall i :: 0 <= i < |episodes| ==> episodes[i].duration <= duration
  }

  lemma {:induction false} LongestIsMaximum(episodes: seq<Episode>)
    requires forall i :: 0 <= i < |episodes| ==> episodes[i].duration >= 0
    ensures IsLongest(LongestOf(episodes), episodes) && LongestOf(episodes) >= 0
    decreases |episodes|
  {
    if episodes != [] {
      var before, last := episodes[..|episodes| - 1], episodes[|episodes| - 1];
      LongestIsMaximum(before);
      var longest := LongestOf(before);
      if before != [] && longest > last.duration {
        var i :| 0 <= i < |before| && before[i].duration == longest;
        assert episodes[i].duration == longest;
      } else {
        assert episodes[|episodes| - 1].duration == Max(longest, last.duration);
      }
      forall i | 0 <= i < |episodes| ensures episodes[i].duration <= Max(longest, last.duration) {
        assert i < |before| ==> episodes[i] == before[i];
      }
    }
  }

  /** One interval keeps the running maximum that of the closed episodes. */
  lemma LongestStep(t: Totals, sc: Scan, current: Sample, following: Sample, raw: int, target: int, capacity: nat)
    requires t.active == sc.active && t.longest == LongestOf(sc.closed)
    ensures Integrate(t, current, following.at, raw, target, capacity).longest
         == LongestOf(BatchStep(sc, current, following, target).closed)
  {
    hide Stale, HealthOf;
    if sc.active.Some? {
      LongestSnoc(sc.closed, sc.active.value);
    }
    hide LongestOf, BatchMaximum, StreamMaximum;
  }

  lemma {:induction false} LongestStreamed(samples: seq<Sample>, target: int, capacity: nat)
    requires Regular(samples)
    ensures Stream(samples, target, capacity).longest == LongestOf(BatchScan(samples, target).closed)
    decreases |samples|
  {
    if |samples| >= 1 {
      var before := samples[..|samples| - 1];
      RegularPrefix(samples);
      LongestStreamed(before, target, capacity);
      if |samples| >= 2 {
        StreamEpisodes(before, target, capacity);
        var t := Stream(before, target, capacity);
        var current, s := samples[|samples| - 2], samples[|samples| - 1];
        hide Integrate, BatchStep, Regular, Kept, AgesFine, Stale, LongestOf;
        LongestStep(t, BatchScan(before, target), current, s, RawDuration(current, s), target, capacity);
      }
    }
  }

  /**
   * The reported longest duration is the largest in the batch list, zero when that is empty, also when episodes were
   * dropped at the capacity.
   */
  lemma LongestExactly(samples: seq<Sample>, target: int, capacity: nat)
    requires Regular(samples)
    ensures IsLongest(ReportedLongest(Stream(samples, target, capacity)), BatchEpisodes(samples, target))
  {
    var sc := BatchScan(samples, target);
    StreamEpisodes(samples, target, capacity);
    LongestStreamed(samples, target, capacity);
    ScanTiled(samples, target);
    var all := Listed(sc);
    assert all == BatchEpisodes(samples, target);
    LongestIsMaximum(all);
    if sc.active.Some? {
      LongestSnoc(sc.closed, sc.active.value);
    } else {
      assert all == sc.closed;
    }
    hide Stream, BatchScan, LongestOf, IsLongest, Kept, TotalDuration, InOrder, AgesFine, Integral, Regular;
  }

  /** Reported episodes are disjoint and in order, as long as their ends are apart, and sum to the stale seconds. */
  lemma EpisodesTileStaleTime(samples: seq<Sample>, target: int)
    requires Regular(samples)
    ensures var all := ReportedEpisodes(samples, target);
            && Spans(all)
            && (samples != [] ==> InOrder(all, samples[|samples| - 1].at))
            && TotalDuration(all) == Integral(samples, StaleIn(target))
  {
    ScanTiled(samples, target);
    var batch := BatchEpisodes(samples, target);
    assert batch == Listed(BatchScan(samples, target));
    hide BatchScan, Regular, Spans, InOrder, TotalDuration, Integral, Listed, Stale;
    if OpensAtEnd(samples, target) {
      var at := samples[|samples| - 1].at;
      var e := Episode(at, at, 0, samples[|samples| - 1].age);
      TotalDurationSnoc(batch, e);
      SpansSnoc(batch, e);
      InOrderSnoc(batch, e, at);
    } else {
      assert batch + [] == batch;
    }
  }

  /** Stale time splits by health, and all observed time splits into the three health states. */
  lemma {:induction false} TimeIsConserved(samples: seq<Sample>, target: int)
    ensures Integral(samples, StaleWhile(target, true)) + Integral(samples, StaleWhile(target, false))
            == Integral(samples, StaleIn(target))
    ensures samples != [] ==>
              Integral(samples, InHealth(Healthy)) + Integral(samples, InHealth(Recovering))
              + Integral(samples, InHealth(Degraded)) == samples[|samples| - 1].at - samples[0].at
    decreases |samples|
  {
    if |samples| >= 2 {
      TimeIsConserved(samples[..|samples| - 1], target);
    }
  }

  // ---------- charging recovery time ----------

  datatype Range = Range(start: int, end: int)

  function Min(a: int, b: int): int {
    if a <= b then a else b
  }

  function Overlap(a: int, b: int, r: Range): nat {
    Max(0, Min(b, r.end) - Max(a, r.start))
  }

  function OverlapSum(a: int, b: int, ranges: seq<Range>): nat {
    if ranges == [] then 0
    else OverlapSum(a, b, ranges[..|ranges| - 1]) + Overlap(a, b, ranges[|ranges| - 1])
  }

  function ChargedTo(episodes: seq<Episode>, ranges: seq<Range>): nat {
    if episodes == [] then 0
    else
      var e := episodes[|episodes| - 1];
      ChargedTo(episodes[..|episodes| - 1], ranges) + OverlapSum(e.startedAt, e.endedAt, ranges)
  }

  method RecoveryStaleSeconds(episodes: seq<Episode>, ranges: seq<Range>, staleSeconds: int) returns (charged: int)
    ensures charged == Min(ChargedTo(episodes, ranges), staleSeconds)
  {
    charged := 0;
    for i := 0 to |episodes|
      invariant charged == ChargedTo(episodes[..i], ranges)
    {
      var e := episodes[i];
      ghost var before := charged;
      for j := 0 to |ranges|
        invariant charged == before + OverlapSum(e.startedAt, e.endedAt, ranges[..j])
      {
        assert ranges[..j + 1][..j] == ranges[..j];
        charged := charged + Max(0, Min(e.endedAt, ranges[j].end) - Max(e.startedAt, ranges[j].start));
      }
      assert ranges[..|ranges|] == ranges;
      assert episodes[..i + 1][..i] == episodes[..i];
    }
    assert episodes[..|episodes|] == episodes;
    charged := Min(charged, staleSeconds);
  }

  predicate Apart(q: Range, r: Range) {
    q.end <= r.start || r.end <= q.start
  }

  ghost predicate PairwiseDisjoint(ranges: seq<Range>) {
    forall i, j :: 0 <= i < j < |ranges| ==> Apart(ranges[i], ranges[j])
  }

  /** Cutting out a range that the others avoid leaves them only what lies to its left and right. */
  lemma {:induction false} OverlapsSplit(a: int, b: int, r: Range, others: seq<Range>)
    requires a <= Max(a, r.start) <= Min(b, r.end) <= b
    requires forall i :: 0 <= i < |others| ==> Apart(others[i], r)
    ensures OverlapSum(a, b, others)
         <= OverlapSum(a, Max(a, r.start), others) + OverlapSum(Min(b, r.end), b, others)
  {
    if others != [] {
      OverlapsSplit(a, b, r, others[..|others| - 1]);
      assert Apart(others[|others| - 1], r);
    }
  }

  /** Disjoint ranges cannot cover more of an interval than its length. */
  lemma {:induction false} DisjointOverlaps(a: int, b: int, ranges: seq<Range>)
    requires PairwiseDisjoint(ranges)
    ensures OverlapSum(a, b, ranges) <= Max(0, b - a)
    decreases |ranges|
  {
    if ranges != [] {
      var r := ranges[|ranges| - 1];
      var others := ranges[..|ranges| - 1];
      if Overlap(a, b, r) == 0 {
        DisjointOverlaps(a, b, others);
      } else {
        OverlapsSplit(a, b, r, others);
        DisjointOverlaps(a, Max(a, r.start), others);
        DisjointOverlaps(Min(b, r.end), b, others);
      }
    }
  }

  lemma {:induction false} ChargedWithinDurations(episodes: seq<Episode>, ranges: seq<Range>)
    requires Spans(episodes) && PairwiseDisjoint(ranges)
    ensures ChargedTo(episodes, ranges) <= TotalDuration(episodes)
  {
    if episodes != [] {
      var e := episodes[|episodes| - 1];
      ChargedWithinDurations(episodes[..|episodes| - 1], ranges);
      DisjointOverlaps(e.startedAt, e.endedAt, ranges);
    }
  }

  lemma {:induction false} PrefixDuration(episodes: seq<Episode>, k: nat)
    requires k <= |episodes| && Spans(episodes)
    ensures TotalDuration(episodes[..k]) <= TotalDuration(episodes)
  {
    if k == |episodes| {
      assert episodes[..k] == episodes;
    } else {
      PrefixDuration(episodes[..|episodes| - 1], k);
      assert episodes[..|episodes| - 1][..k] == episodes[..k];
    }
  }

  lemma ChargedWithinKept(all: seq<Episode>, capacity: nat, ranges: seq<Range>)
    requires Spans(all) && PairwiseDisjoint(ranges)
    ensures ChargedTo(Kept(all, capacity), ranges) <= TotalDuration(all)
  {
    var kept := Kept(all, capacity);
    assert kept == all[..|kept|];
    PrefixDuration(all, |kept|);
    ChargedWithinDurations(kept, ranges);
  }

  /** For pairwise-disjoint recovery ranges the cap on charged recovery time never takes anything away. */
  lemma CapNeverBites(samples: seq<Sample>, target: int, capacity: nat, ranges: seq<Range>)
    requires Regular(samples) && PairwiseDisjoint(ranges)
    ensures var t := Stream(samples, target, capacity);
            ChargedTo(Finish(t, target, capacity).episodes, ranges) <= t.stale
  {
    hide Stream, Finish, Integral, ReportedEpisodes, StaleRuns, Regular, Spans, InOrder, TotalDuration, ChargedTo,
         PairwiseDisjoint, Stale, StaleIn, Kept, StaleWhile, InHealth;
    StreamTotals(samples, target, capacity);
    FinishedExactly(samples, target, capacity);
    EpisodesTileStaleTime(samples, target);
    ChargedWithinKept(ReportedEpisodes(samples, target), capacity, ranges);
  }

  /** A stretch inside two of the ranges is charged twice. */
  lemma {:induction false} ChargedTwice(lo: int, hi: int, ranges: seq<Range>, i: nat, j: nat)
    requires i < j < |ranges| && lo < hi
    requires ranges[i].start <= lo && hi <= ranges[i].end && ranges[j].start <= lo && hi <= ranges[j].end
    ensures OverlapSum(lo, hi, ranges) >= 2 * (hi - lo)
  {
    if j < |ranges| - 1 {
      ChargedTwice(lo, hi, ranges[..|ranges| - 1], i, j);
    } else {
      ChargedOnce(lo, hi, ranges[..|ranges| - 1], i);
    }
  }

  lemma {:induction false} ChargedOnce(lo: int, hi: int, ranges: seq<Range>, i: nat)
    requires i < |ranges| && lo < hi && ranges[i].start <= lo && hi <= ranges[i].end
    ensures OverlapSum(lo, hi, ranges) >= hi - lo
  {
    if i < |ranges| - 1 {
      ChargedOnce(lo, hi, ranges[..|ranges| - 1], i);
    }
  }

  /** Two samples around one stale interval: one episode, exactly that long. */
  function StaleBetween(lo: int, hi: int): seq<Sample> {
    [Sample(lo, None, None, 0, 1, None, None), Sample(hi, None, None, 0, 1, None, None)]
  }

  lemma StaleBetweenReported(lo: int, hi: int, target: int)
    requires lo < hi
    ensures var samples := StaleBetween(lo, hi);
            && Regular(samples) && ReportedEpisodes(samples, target) == [Episode(lo, hi, hi - lo, None)]
            && Integral(samples, StaleIn(target)) == hi - lo
  {
    var samples := StaleBetween(lo, hi);
    var first := samples[..1];
    assert first == [samples[0]];
    assert BatchScan(first, target) == Scan([], None) && Integral(first, StaleIn(target)) == 0;
    assert BatchScan(samples, target) == Scan([], Some(Episode(lo, hi, hi - lo, None)));
  }

  lemma StaleBetweenFinished(lo: int, hi: int, target: int)
    requires lo < hi
    ensures var t := Stream(StaleBetween(lo, hi), target, 1);
            t.stale == hi - lo && Finish(t, target, 1).episodes == [Episode(lo, hi, hi - lo, None)]
  {
    hide Stream, Finish, Regular, StaleBetween, ReportedEpisodes, Integral, StaleIn, StaleRuns, Stale, StaleWhile,
        InHealth;
    StaleBetweenReported(lo, hi, target);
    StreamTotals(StaleBetween(lo, hi), target, 1);
    FinishedExactly(StaleBetween(lo, hi), target, 1);
  }

  /** Overlapping ranges: two regular samples at the ends of the overlap are charged more than their stale time. */
  lemma OverlapNeedsTheCap(ranges: seq<Range>, i: nat, j: nat, target: int)
    requires i < j < |ranges| && !Apart(ranges[i], ranges[j])
    requires ranges[i].start < ranges[i].end && ranges[j].start < ranges[j].end
    ensures var lo, hi := Max(ranges[i].start, ranges[j].start), Min(ranges[i].end, ranges[j].end);
            var t := Stream(StaleBetween(lo, hi), target, 1);
            && lo < hi && Regular(StaleBetween(lo, hi))
            && ChargedTo(Finish(t, target, 1).episodes, ranges) >= 2 * t.stale > t.stale
  {
    var lo, hi := Max(ranges[i].start, ranges[j].start), Min(ranges[i].end, ranges[j].end);
    StaleBetweenReported(lo, hi, target);
    StaleBetweenFinished(lo, hi, target);
    ChargedTwice(lo, hi, ranges, i, j);
    hide Stream, Finish, Regular, StaleBetween, ReportedEpisodes, Integral;
    var e := Episode(lo, hi, hi - lo, None);
    assert [e][..0] == [] && ChargedTo([], ranges) == 0;
  }

  /** The charge stays within the stale seconds whatever was sampled, so that the cap changes nothing. */
  ghost predicate CapIdle(ranges: seq<Range>) {
    forall samples: seq<Sample>, target: int, capacity: nat | Regular(samples) && capacity >= 1 ::
      ChargedTo(Finish(Stream(samples, target, capacity), target, capacity).episodes, ranges)
      <= Stream(samples, target, capacity).stale
  }

  /** For proper recovery ranges the cap never takes anything away if and only if they are pairwise disjoint. */
  lemma CapIdleExactly(ranges: seq<Range>)
    requires forall i :: 0 <= i < |ranges| ==> ranges[i].start < ranges[i].end
    ensures CapIdle(ranges) <==> PairwiseDisjoint(ranges)
  {
    hide Stream, Finish, ChargedTo, Regular, StaleBetween;
    if PairwiseDisjoint(ranges) {
      forall samples: seq<Sample>, target: int, capacity: nat | Regular(samples) && capacity >= 1
        ensures ChargedTo(Finish(Stream(samples, target, capacity), target, capacity).episodes, ranges)
             <= Stream(samples, target, capacity).stale
      {
        CapNeverBites(samples, target, capacity, ranges);
      }
    } else {
      var i, j :| 0 <= i < j < |ranges| && !Apart(ranges[i], ranges[j]);
      OverlapNeedsTheCap(ranges, i, j, 5);
    }
  }
}
