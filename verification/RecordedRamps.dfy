/** What a recorder reports for one concurrency level is a measured stage. */
module RecordedRamps {
  import opened Wrappers
  import opened Percentiles
  import opened Recorder
  import opened Capacity
  import opened BreachOrder

  /** One concurrency level: what was recorded, and the recorded scenarios in report order. */
  datatype Level = Level(concurrency: int, log: seq<Observation>, names: seq<string>)

  /** `names` lists the recorded scenarios once each, and every one of them named its service. */
  ghost predicate Recorded(level: Level) {
    && Distinct(level.names)
    && (forall r :: r in level.log ==> r.scenario in level.names)
    && (forall name :: name in level.names
          ==> Of(level.log, name) != [] && AccountOf(Of(level.log, name)).service != "")
  }

  /** The report of one level: Snapshot and Overall of its recorder. */
  function StageOf(level: Level): Stage {
    Stage(level.concurrency, SummaryOf("all", level.log), Summaries(level.log, level.names), 0.0, 0, false)
  }

  /** The summaries count what was recorded under their names. */
  ghost predicate CountsMatch(scenarios: seq<ScenarioStats>, log: seq<Observation>, names: seq<string>) {
    |scenarios| == |names| && forall i :: 0 <= i < |names| ==> Counts(scenarios[i], Of(log, names[i]))
  }

  ghost predicate Counts(s: ScenarioStats, log: seq<Observation>) {
    s.requests == |log| && s.failures == AccountOf(log).failures
  }

  lemma {:induction false} CountSnoc(log: seq<Observation>, names: seq<string>, name: string)
    ensures CountOf(log, names + [name]) == CountOf(log, names) + |Of(log, name)|
    ensures FailuresOf(log, names + [name]) == FailuresOf(log, names) + AccountOf(Of(log, name)).failures
    decreases |names|
  {
    if names == [] {
      assert names + [name] == [name];
    } else {
      assert (names + [name])[1..] == names[1..] + [name];
      CountSnoc(log, names[1..], name);
    }
  }

  lemma {:induction false} MatchedFront(scenarios: seq<ScenarioStats>, log: seq<Observation>, names: seq<string>)
    requires CountsMatch(scenarios, log, names) && names != []
    ensures var k := |names| - 1;
            && CountsMatch(scenarios[..k], log, names[..k])
            && scenarios[k].requests == |Of(log, names[k])|
            && scenarios[k].failures == AccountOf(Of(log, names[k])).failures
            && CountOf(log, names) == CountOf(log, names[..k]) + |Of(log, names[k])|
            && FailuresOf(log, names) == FailuresOf(log, names[..k]) + AccountOf(Of(log, names[k])).failures
  {
    var k := |names| - 1;
    assert Counts(scenarios[k], Of(log, names[k]));
    CountSnoc(log, names[..k], names[k]);
    assert names == names[..k] + [names[k]];
    forall i | 0 <= i < k ensures Counts(scenarios[..k][i], Of(log, names[..k][i])) {
      assert Counts(scenarios[i], Of(log, names[i]));
    }
  }

  lemma {:induction false} MatchedAddUp(scenarios: seq<ScenarioStats>, log: seq<Observation>, names: seq<string>)
    requires CountsMatch(scenarios, log, names)
    ensures Requests(scenarios) == CountOf(log, names) && Failures(scenarios) == FailuresOf(log, names)
    decreases |names|
  {
    if names != [] {
      MatchedFront(scenarios, log, names);
      MatchedAddUp(scenarios[..|names| - 1], log, names[..|names| - 1]);
    }
  }

  lemma {:induction false} SummariesAddUp(log: seq<Observation>, names: seq<string>)
    ensures Requests(Summaries(log, names)) == CountOf(log, names)
    ensures Failures(Summaries(log, names)) == FailuresOf(log, names)
  {
    MatchedAddUp(Summaries(log, names), log, names);
  }

  lemma {:induction false} SummaryIsRated(name: string, log: seq<Observation>)
    requires log != []
    ensures var s := SummaryOf(name, log);
            && Rated(s) && s.requests == |log| && s.failures == AccountOf(log).failures
            && s.service == AccountOf(log).service
  {
  }

  /** The quantiles a summary reports; the largest latency is the one of share 1. */
  predicate Reported(q: real) {
    q == 0.50 || q == 0.90 || q == Q95 || q == 0.99 || q == 1.0
  }

  function Quantile(l: LatencyStats, q: real): int
    requires Reported(q)
  {
    if q == 0.50 then l.p50 else if q == 0.90 then l.p90 else if q == Q95 then l.p95
    else if q == 0.99 then l.p99 else l.max
  }

  lemma SomeGroupAsSlow(samples: seq<int>, groups: seq<seq<int>>, q: real) returns (k: nat)
    requires 0.0 < q <= 1.0 && samples != []
    requires multiset(samples) == multiset(Merged(groups))
    requires forall g :: g in groups ==> g != []
    ensures k < |groups| && PercentileOf(groups[k], q) >= PercentileOf(samples, q)
  {
    var below := PercentileOf(samples, q) - 1;
    assert exists k :: 0 <= k < |groups| && PercentileOf(groups[k], q) > below by {
      if forall k :: 0 <= k < |groups| ==> PercentileOf(groups[k], q) <= below {
        MergedAtMost(samples, groups, q, below);
      }
    }
    k :| 0 <= k < |groups| && PercentileOf(groups[k], q) > below;
  }

  lemma {:induction false} SummaryPercentile(name: string, log: seq<Observation>, q: real)
    requires log != [] && Reported(q)
    ensures Quantile(SummaryOf(name, log).latency, q) == PercentileOf(Latencies(log), q) && Latencies(log) != []
  {
    AccountLatencies(log);
  }

  /** The upper half of MergedPercentileBetween. */
  lemma {:induction false} MergedAtMost(samples: seq<int>, groups: seq<seq<int>>, q: real, high: int)
    requires 0.0 < q <= 1.0 && samples != []
    requires multiset(samples) == multiset(Merged(groups))
    requires forall g :: g in groups ==> g != []
    requires forall k :: 0 <= k < |groups| ==> PercentileOf(groups[k], q) <= high
    ensures PercentileOf(samples, q) <= high
  {
    assert |samples| == |multiset(samples)| == |multiset(Merged(groups))| == |Merged(groups)|;
    forall g | g in groups ensures Percentiles.Reaches(g, q, high) {
      var k :| 0 <= k < |groups| && groups[k] == g;
      PercentileIsLeast(g, q, high);
    }
    SharesReached(groups, q, high);
    AtMostOfSame(samples, Merged(groups), high);
    PercentileIsLeast(samples, q, high);
  }

  lemma RecordedGroups(level: Level)
    requires Recorded(level)
    ensures forall g :: g in Groups(level.log, level.names) ==> g != []
  {
    var groups := Groups(level.log, level.names);
    forall g | g in groups ensures g != [] {
      var k :| 0 <= k < |groups| && groups[k] == g;
      assert level.names[k] in level.names;
      AccountLatencies(Of(level.log, level.names[k]));
    }
  }

  lemma SlowScenario(level: Level) returns (k: nat)
    requires Recorded(level) && level.log != []
    ensures k < |level.names| && Of(level.log, level.names[k]) != []
    ensures PercentileOf(Latencies(Of(level.log, level.names[k])), Q95) >= PercentileOf(Latencies(level.log), Q95)
  {
    RecordedGroups(level);
    WholeIsUnion(level.log, level.names);
    AccountLatencies(level.log);
    k := SomeGroupAsSlow(Latencies(level.log), Groups(level.log, level.names), Q95);
    assert level.names[k] in level.names;
  }

  lemma RecordedIsAsSlow(level: Level)
    requires Recorded(level) && level.log != []
    ensures SomeAsSlow(Summaries(level.log, level.names), SummaryOf("all", level.log).latency.p95)
  {
    var k := SlowScenario(level);
    SummaryPercentile("all", level.log, Q95);
    SummaryPercentile(level.names[k], Of(level.log, level.names[k]), Q95);
    assert Summaries(level.log, level.names)[k].latency.p95 >= SummaryOf("all", level.log).latency.p95;
  }

  /** What a recorder reports is a measured stage. */
  lemma RecordedIsMeasured(level: Level)
    requires Recorded(level)
    ensures Measured(StageOf(level))
  {
    var scenarios := Summaries(level.log, level.names);
    forall s | s in scenarios ensures Rated(s) && s.service != "" {
      var k :| 0 <= k < |scenarios| && scenarios[k] == s;
      assert level.names[k] in level.names;
      SummaryIsRated(level.names[k], Of(level.log, level.names[k]));
    }
    WholeIsUnion(level.log, level.names);
    SummariesAddUp(level.log, level.names);
    if level.log != [] {
      SummaryIsRated("all", level.log);
      RecordedIsAsSlow(level);
    }
  }

  // ----- One service.

  /** The recorded scenarios of a service, in report order. */
  function ServiceNames(log: seq<Observation>, names: seq<string>, service: string): (r: seq<string>)
    ensures forall name :: name in r ==> name in names && AccountOf(Of(log, name)).service == service
  {
    if names == [] then []
    else
      var before, last := ServiceNames(log, names[..|names| - 1], service), names[|names| - 1];
      if AccountOf(Of(log, last)).service == service then before + [last] else before
  }

  /** The summary reports what was recorded under the name, this quantile of it included. */
  ghost predicate Reports(s: ScenarioStats, log: seq<Observation>, q: real)
    requires Reported(q)
  {
    log != [] && Counts(s, log) && s.service == AccountOf(log).service
    && Quantile(s.latency, q) == PercentileOf(Latencies(log), q)
  }

  ghost predicate AllReport(scenarios: seq<ScenarioStats>, log: seq<Observation>, names: seq<string>, q: real)
    requires Reported(q)
  {
    |scenarios| == |names| && forall i :: 0 <= i < |names| ==> Reports(scenarios[i], Of(log, names[i]), q)
  }

  lemma SummaryReports(name: string, log: seq<Observation>, q: real)
    requires log != [] && Reported(q)
    ensures Reports(SummaryOf(name, log), log, q)
  {
    SummaryIsRated(name, log);
    SummaryPercentile(name, log, q);
  }

  lemma {:induction false} SummariesReport(log: seq<Observation>, names: seq<string>, q: real)
    requires Reported(q) && forall name :: name in names ==> Of(log, name) != []
    ensures AllReport(Summaries(log, names), log, names, q)
  {
    forall i | 0 <= i < |names| ensures Reports(Summaries(log, names)[i], Of(log, names[i]), q) {
      assert names[i] in names;
      SummaryReports(names[i], Of(log, names[i]), q);
    }
  }

  lemma {:induction false} AllReportSnoc(
      scenarios: seq<ScenarioStats>, log: seq<Observation>, names: seq<string>, q: real, s: ScenarioStats, name: string)
    requires Reported(q) && AllReport(scenarios, log, names, q) && Reports(s, Of(log, name), q)
    ensures AllReport(scenarios + [s], log, names + [name], q)
  {
    forall i | 0 <= i < |names| + 1 ensures Reports((scenarios + [s])[i], Of(log, (names + [name])[i]), q) {
      if i < |names| {
        assert Reports(scenarios[i], Of(log, names[i]), q);
      }
    }
  }

  /** The scenarios grouped under a service are those of its names. */
  lemma {:induction false} ServiceReports(
      scenarios: seq<ScenarioStats>, log: seq<Observation>, names: seq<string>, q: real, service: string)
    requires Reported(q) && AllReport(scenarios, log, names, q)
    ensures AllReport(OfService(scenarios, service), log, ServiceNames(log, names, service), q)
    decreases |names|
  {
    if names != [] {
      var k := |names| - 1;
      var front := names[..k];
      assert AllReport(scenarios[..k], log, front, q) by {
        forall i | 0 <= i < k ensures Reports(scenarios[..k][i], Of(log, front[i]), q) {
          assert Reports(scenarios[i], Of(log, names[i]), q);
        }
      }
      ServiceReports(scenarios[..k], log, front, q, service);
      assert Reports(scenarios[k], Of(log, names[k]), q);
      if scenarios[k].service == service {
        AllReportSnoc(OfService(scenarios[..k], service), log, ServiceNames(log, front, service), q,
                      scenarios[k], names[k]);
      }
    }
  }

  /** A bound on a quantile of every scenario bounds that of the samples taken together. */
  lemma {:induction false} WorstBoundsMerged(
      scenarios: seq<ScenarioStats>, log: seq<Observation>, names: seq<string>, q: real, bound: int)
    requires names != [] && Reported(q) && AllReport(scenarios, log, names, q)
    requires forall s :: s in scenarios ==> Quantile(s.latency, q) <= bound
    ensures PercentileOf(SamplesOf(log, names), q) <= bound
  {
    var groups := Groups(log, names);
    forall k | 0 <= k < |groups| ensures groups[k] != [] && PercentileOf(groups[k], q) <= bound {
      assert Reports(scenarios[k], Of(log, names[k]), q) && scenarios[k] in scenarios;
      AccountLatencies(Of(log, names[k]));
    }
    SamplesCons(log, names);
    assert groups[0] != [];
    MergedAtMost(SamplesOf(log, names), groups, q, bound);
  }

  /** What a group that sums up scenarios says of what was recorded under their names. */
  lemma {:induction false} SumsUpRecorded(
      g: Option<ServiceStage>, concurrency: int, scenarios: seq<ScenarioStats>,
      log: seq<Observation>, names: seq<string>, q: real)
    requires names != [] && Reported(q) && AllReport(scenarios, log, names, q) && SumsUp(g, concurrency, scenarios)
    ensures g.Some? && g.value.requests == CountOf(log, names) && g.value.failures == FailuresOf(log, names)
    ensures Quantile(g.value.latency, q) >= PercentileOf(SamplesOf(log, names), q)
  {
    assert CountsMatch(scenarios, log, names) by {
      forall i | 0 <= i < |names| ensures Counts(scenarios[i], Of(log, names[i])) {
        assert Reports(scenarios[i], Of(log, names[i]), q);
      }
    }
    MatchedAddUp(scenarios, log, names);
    forall s | s in scenarios ensures Quantile(s.latency, q) <= Quantile(g.value.latency, q) {
      assert NoSlower(s.latency, g.value.latency);
    }
    WorstBoundsMerged(scenarios, log, names, q, Quantile(g.value.latency, q));
  }

  /** A quantile a group reports is that of one of its scenarios, or zero. */
  lemma {:induction false} QuantileIsOfScenario(
      concurrency: int, scenarios: seq<ScenarioStats>, service: string, q: real)
    requires Reported(q)
    ensures var g := GroupOf(concurrency, scenarios, service);
            g.Some? ==>
              Quantile(g.value.latency, q) == 0
              || exists s :: s in scenarios && s.service == service
                          && Quantile(s.latency, q) == Quantile(g.value.latency, q)
    decreases |scenarios|
  {
    if scenarios != [] {
      var front, last := scenarios[..|scenarios| - 1], scenarios[|scenarios| - 1];
      QuantileIsOfScenario(concurrency, front, service, q);
      assert last in scenarios && forall s :: s in front ==> s in scenarios;
    }
  }

  /** The rate is filled in last, and changes nothing else. */
  lemma {:induction false} ServiceInKeepsGroup(stage: Stage, service: string, q: real)
    requires Reported(q) && GroupOf(stage.concurrency, stage.scenarios, service).Some?
    ensures var g, group := ServiceIn(stage, service), GroupOf(stage.concurrency, stage.scenarios, service).value;
            && g.Some? && g.value.requests == group.requests && g.value.failures == group.failures
            && Quantile(g.value.latency, q) == Quantile(group.latency, q)
  {
  }

  /**
   * What ServiceStages reports of a service: all the requests and failures recorded under it, and
   * every quantile, the largest latency included, no lower than that of all its samples together.
   */
  lemma {:induction false} ServiceNeverUnderstated(level: Level, service: string, q: real)
    requires Recorded(level) && ServiceNames(level.log, level.names, service) != [] && Reported(q)
    ensures var g, mine := ServiceIn(StageOf(level), service), ServiceNames(level.log, level.names, service);
            && g.Some?
            && g.value.requests == CountOf(level.log, mine) && g.value.failures == FailuresOf(level.log, mine)
            && Quantile(g.value.latency, q) >= PercentileOf(SamplesOf(level.log, mine), q)
  {
    var scenarios, mine := Summaries(level.log, level.names), ServiceNames(level.log, level.names, service);
    assert Named(scenarios) by {
      RecordedIsMeasured(level);
    }
    SummariesReport(level.log, level.names, q);
    ServiceReports(scenarios, level.log, level.names, q, service);
    GroupSums(level.concurrency, scenarios, service);
    SumsUpRecorded(GroupOf(level.concurrency, scenarios, service), level.concurrency,
                   OfService(scenarios, service), level.log, mine, q);
    ServiceInKeepsGroup(StageOf(level), service, q);
  }
}
