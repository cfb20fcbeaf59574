/** Running means of response times per service and region, over exact reals. */
module QualityStats {
  import opened Sums

  datatype Region = Region(success: nat, fail: nat, avgTime: real)

  datatype Stats = Stats(total: nat, success: nat, fail: nat, avgTime: real, byRegion: map<string, Region>)

  datatype Sample = Sample(service: string, region: string, success: bool, duration: real)

  const NO_STATS := Stats(0, 0, 0, 0.0, map[])

  // The mean of n values when the last is `duration` and the mean of the others is `avg`.
  function MovingMean(avg: real, n: nat, duration: real): real
    requires n > 0
  {
    (avg * (n - 1) as real + duration) / n as real
  }

  lemma MeanTimesCount(avg: real, n: nat, duration: real)
    requires n > 0
    ensures MovingMean(avg, n, duration) * n as real == avg * (n - 1) as real + duration
  {
  }

  class Monitor {
    var stats: map<string, Stats>
    ghost var log: seq<Sample>

    // The stored statistics of a service are those its samples lead to.
    ghost predicate Valid() reads this {
      forall service :: StatsOf(stats, service) == Collected(log, service)
    }

    constructor ()
      ensures Valid() && log == []
    {
      stats := map["elevation" := NO_STATS, "overpass" := NO_STATS, "address" := NO_STATS];
      log := [];
    }

    method UpdateQualityStats(service: string, success: bool, duration: real, region: string)
      requires Valid()
      modifies this
      ensures Valid() && log == old(log) + [Sample(service, region, success, duration)]
      ensures stats.Keys == old(stats).Keys + {service}
    {
      hide MovingMean;
      var s := StatsOf(stats, service);
      ghost var sample, was := Sample(service, region, success, duration), s;
      var total := s.total + 1;
      s := s.(total := total, avgTime := MovingMean(s.avgTime, total, duration));
      s := if success then s.(success := s.success + 1) else s.(fail := s.fail + 1);
      var r := if region in s.byRegion then s.byRegion[region] else Region(0, 0, 0.0);
      var rTotal := r.success + r.fail + 1;
      r := if success then r.(success := r.success + 1) else r.(fail := r.fail + 1);
      r := r.(avgTime := MovingMean(r.avgTime, rTotal, duration));
      s := s.(byRegion := s.byRegion[region := r]);
      assert s == Add(was, sample);
      stats := stats[service := s];
      log := log + [sample];
      hide Add;
      forall other ensures StatsOf(stats, other) == Collected(log, other) {
        CollectedStep(old(log), sample, other);
      }
    }
  }

  function StatsOf(stats: map<string, Stats>, service: string): Stats {
    if service in stats then stats[service] else NO_STATS
  }

  // ---------- what a history of samples leads to ----------

  function AddToRegion(r: Region, x: Sample): Region {
    Region(if x.success then r.success + 1 else r.success, if x.success then r.fail else r.fail + 1,
           MovingMean(r.avgTime, r.success + r.fail + 1, x.duration))
  }

  function RegionOf(s: Stats, region: string): Region {
    if region in s.byRegion then s.byRegion[region] else Region(0, 0, 0.0)
  }

  function Add(s: Stats, x: Sample): Stats {
    Stats(s.total + 1, if x.success then s.success + 1 else s.success, if x.success then s.fail else s.fail + 1,
          MovingMean(s.avgTime, s.total + 1, x.duration),
          s.byRegion[x.region := AddToRegion(RegionOf(s, x.region), x)])
  }

  function Collected(log: seq<Sample>, service: string): Stats {
    if log == [] then NO_STATS else
      var before, x := Collected(log[..|log| - 1], service), log[|log| - 1];
      if x.service == service then Add(before, x) else before
  }

  lemma CollectedStep(log: seq<Sample>, x: Sample, service: string)
    ensures var before := Collected(log, service);
            Collected(log + [x], service) == if x.service == service then Add(before, x) else before
  {
    hide Add;
    assert (log + [x])[..|log|] == log;
  }

  // The samples of a service, in a region when one is given.
  function Samples(log: seq<Sample>, service: string): seq<Sample> {
    if log == [] then [] else
      var x := log[|log| - 1];
      Samples(log[..|log| - 1], service) + if x.service == service then [x] else []
  }

  function InRegion(samples: seq<Sample>, region: string): seq<Sample> {
    if samples == [] then [] else
      var x := samples[|samples| - 1];
      InRegion(samples[..|samples| - 1], region) + if x.region == region then [x] else []
  }

  function Successes(samples: seq<Sample>): nat {
    if samples == [] then 0 else
      Successes(samples[..|samples| - 1]) + if samples[|samples| - 1].success then 1 else 0
  }

  function TotalTime(samples: seq<Sample>): real {
    if samples == [] then 0.0 else TotalTime(samples[..|samples| - 1]) + samples[|samples| - 1].duration
  }

  // ---------- conservation ----------

  function Count(r: Region): real { (r.success + r.fail) as real }

  function SuccessCount(r: Region): real { r.success as real }

  function FailCount(r: Region): real { r.fail as real }

  function Time(r: Region): real { r.avgTime * Count(r) }

  // Mean times count, for a whole service.
  function ServiceTime(s: Stats): real { s.avgTime * s.total as real }

  // The statistics of a service add up over its regions, in counts and in total time.
  ghost predicate Balanced(s: Stats) {
    && s.total == s.success + s.fail
    && s.total as real == SumBy(s.byRegion, Count)
    && s.success as real == SumBy(s.byRegion, SuccessCount)
    && s.fail as real == SumBy(s.byRegion, FailCount)
    && ServiceTime(s) == SumBy(s.byRegion, Time)
  }

  lemma AddToRegionTime(r: Region, x: Sample)
    ensures var r' := AddToRegion(r, x);
            && Count(r') == Count(r) + 1.0 && Time(r') == Time(r) + x.duration
            && SuccessCount(r') == SuccessCount(r) + (if x.success then 1.0 else 0.0)
            && FailCount(r') == FailCount(r) + (if x.success then 0.0 else 1.0)
  {
    MeanTimesCount(r.avgTime, r.success + r.fail + 1, x.duration);
    hide MovingMean;
  }

  lemma AddToServiceTime(s: Stats, x: Sample)
    ensures ServiceTime(Add(s, x)) == ServiceTime(s) + x.duration
  {
    MeanTimesCount(s.avgTime, s.total + 1, x.duration);
    hide MovingMean;
  }

  lemma NoTime(r: Region)
    requires r == Region(0, 0, 0.0)
    ensures Count(r) == 0.0 && SuccessCount(r) == 0.0 && FailCount(r) == 0.0 && Time(r) == 0.0
  {
    NoTimeSpent(r);
    hide Time;
  }

  lemma NoTimeSpent(r: Region)
    requires r.avgTime == 0.0
    ensures Time(r) == 0.0
  {
    hide Count;
  }

  // How the sum over regions changes when one region does.
  lemma SumChanges(s: Stats, x: Sample, f: Region -> real)
    requires f(Region(0, 0, 0.0)) == 0.0
    ensures var r := RegionOf(s, x.region);
            SumBy(Add(s, x).byRegion, f) == SumBy(s.byRegion, f) - f(r) + f(AddToRegion(r, x))
  {
    hide SumBy, MovingMean, AddToRegion;
    SumUpdate(s.byRegion, f, x.region, AddToRegion(RegionOf(s, x.region), x));
  }

  lemma AddKeepsBalance(s: Stats, x: Sample)
    requires Balanced(s)
    ensures Balanced(Add(s, x))
  {
    NoTime(Region(0, 0, 0.0));
    hide MovingMean, Count, SuccessCount, FailCount, Time, ServiceTime, SumBy, AddToRegion, RegionOf;
    SumChanges(s, x, Count);
    SumChanges(s, x, SuccessCount);
    SumChanges(s, x, FailCount);
    SumChanges(s, x, Time);
    AddToRegionTime(RegionOf(s, x.region), x);
    AddToServiceTime(s, x);
  }

  lemma {:induction false} AlwaysBalanced(log: seq<Sample>, service: string)
    ensures Balanced(Collected(log, service))
  {
    if log != [] {
      hide Balanced, Add;
      AlwaysBalanced(log[..|log| - 1], service);
      if log[|log| - 1].service == service {
        AddKeepsBalance(Collected(log[..|log| - 1], service), log[|log| - 1]);
      }
    } else {
      NothingBalanced();
    }
  }

  lemma NothingBalanced()
    ensures Balanced(NO_STATS)
  {
  }

  // Counts and mean agree with the samples they were computed from.
  predicate Describes(success: nat, fail: nat, avgTime: real, samples: seq<Sample>) {
    && success == Successes(samples) && success + fail == |samples|
    && avgTime * (success + fail) as real == TotalTime(samples)
  }

  lemma DescribesMore(success: nat, fail: nat, avgTime: real, samples: seq<Sample>, x: Sample)
    requires Describes(success, fail, avgTime, samples)
    ensures Describes(if x.success then success + 1 else success, if x.success then fail else fail + 1,
                      MovingMean(avgTime, success + fail + 1, x.duration), samples + [x])
  {
    var n := success + fail + 1;
    MeanTimesCount(avgTime, n, x.duration);
    assert (samples + [x])[..|samples|] == samples;
  }

  predicate RegionDescribed(s: Stats, region: string, samples: seq<Sample>) {
    var r := RegionOf(s, region);
    (region in s.byRegion <==> samples != []) && Describes(r.success, r.fail, r.avgTime, samples)
  }

  predicate Described(s: Stats, samples: seq<Sample>) {
    s.total == s.success + s.fail && Describes(s.success, s.fail, s.avgTime, samples)
  }

  lemma AddDescribes(s: Stats, x: Sample, samples: seq<Sample>)
    requires Described(s, samples)
    ensures Described(Add(s, x), samples + [x])
  {
    hide Describes, MovingMean;
    DescribesMore(s.success, s.fail, s.avgTime, samples, x);
  }

  lemma AddRegionDescribes(s: Stats, x: Sample, region: string, samples: seq<Sample>)
    requires RegionDescribed(s, region, samples)
    ensures RegionDescribed(Add(s, x), region, samples + if x.region == region then [x] else [])
  {
    hide Describes, MovingMean;
    var r := RegionOf(s, region);
    if x.region == region {
      DescribesMore(r.success, r.fail, r.avgTime, samples, x);
    } else {
      assert samples + [] == samples;
    }
  }

  // After any history the statistics of a service count its samples, and mean times count is their total time.
  lemma {:induction false} CollectedDescribes(log: seq<Sample>, service: string)
    ensures Described(Collected(log, service), Samples(log, service))
  {
    if log != [] {
      hide Described, Add;
      var before, x := log[..|log| - 1], log[|log| - 1];
      CollectedDescribes(before, service);
      if x.service == service {
        AddDescribes(Collected(before, service), x, Samples(before, service));
      } else {
        assert Samples(before, service) + [] == Samples(before, service);
      }
    }
  }

  // The same holds in each region, and only regions with samples are recorded.
  lemma {:induction false} RegionDescribes(log: seq<Sample>, service: string, region: string)
    ensures RegionDescribed(Collected(log, service), region, InRegion(Samples(log, service), region))
  {
    if log != [] {
      hide RegionDescribed, Add, InRegion;
      var before, x := log[..|log| - 1], log[|log| - 1];
      RegionDescribes(before, service, region);
      if x.service == service {
        InRegionStep(Samples(before, service), x, region);
        AddRegionDescribes(Collected(before, service), x, region, InRegion(Samples(before, service), region));
      } else {
        assert Samples(before, service) + [] == Samples(before, service);
      }
    }
  }

  lemma InRegionStep(samples: seq<Sample>, x: Sample, region: string)
    ensures InRegion(samples + [x], region) == InRegion(samples, region) + if x.region == region then [x] else []
  {
    assert (samples + [x])[..|samples|] == samples;
  }
}
