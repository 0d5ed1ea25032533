/**
 * internal/perf Recorder: every observation is stored once under its scenario and once in a
 * combined set, and summaries sort the stored latencies in place.
 */
module Recorder {
  import opened Wrappers
  import opened Percentiles

  datatype Observation = Observation(scenario: string, service: string, latency: int, status: int, err: string)

  predicate Failed(r: Observation) {
    r.err != "" || r.status < 200 || r.status >= 400
  }

  function Latencies(log: seq<Observation>): seq<int> {
    if log == [] then [] else Latencies(log[..|log| - 1]) + [log[|log| - 1].latency]
  }

  /** What one set of samples accounts for; the order of its latencies is of no account. */
  datatype Account = Account(service: string, latencies: multiset<int>, requests: int, failures: int)
  {
    /** One more observation; the first service named is kept. */
    function Plus(r: Observation): Account {
      Account(
        if service == "" then r.service else service,
        latencies + multiset{r.latency},
        requests + 1,
        failures + if Failed(r) then 1 else 0)
    }
  }

  const NOTHING := Account("", multiset{}, 0, 0)

  function AccountOf(log: seq<Observation>): (a: Account)
    ensures a.requests == |log| && 0 <= a.failures <= |log|
  {
    if log == [] then NOTHING
    else AccountOf(log[..|log| - 1]).Plus(log[|log| - 1])
  }

  lemma {:induction false} AccountLatencies(log: seq<Observation>)
    ensures AccountOf(log).latencies == multiset(Latencies(log)) && |Latencies(log)| == |log|
  {
    if log != [] {
      AccountLatencies(log[..|log| - 1]);
    }
  }

  /** The observations of one scenario, in order. */
  function Of(log: seq<Observation>, scenario: string): (r: seq<Observation>)
    ensures |r| <= |log|
  {
    if log == [] then []
    else
      var before := Of(log[..|log| - 1], scenario);
      if log[|log| - 1].scenario == scenario then before + [log[|log| - 1]] else before
  }

  datatype LatencyStats = LatencyStats(min: int, p50: int, p90: int, p95: int, p99: int, max: int)

  datatype ScenarioStats = ScenarioStats(
    name: string, service: string, requests: int, failures: int, errorRate: real, latency: LatencyStats)

  const Q95 := 0.95

  const NO_LATENCY := LatencyStats(0, 0, 0, 0, 0, 0)

  function Summarize(latencies: seq<int>): LatencyStats {
    var sorted := Sort(latencies);
    if sorted == [] then NO_LATENCY
    else LatencyStats(sorted[0], Percentile(sorted, 0.50), Percentile(sorted, 0.90), Percentile(sorted, Q95),
                      Percentile(sorted, 0.99), sorted[|sorted| - 1])
  }

  function ErrorRate(failures: int, requests: int): real {
    if requests > 0 then failures as real / requests as real else 0.0
  }

  /** What a summary of these observations reports, whenever and however often it is asked for. */
  function SummaryOf(name: string, log: seq<Observation>): ScenarioStats {
    StatsOf(name, AccountOf(log), Summarize(Latencies(log)))
  }

  function StatsOf(name: string, a: Account, latency: LatencyStats): ScenarioStats {
    ScenarioStats(name, a.service, a.requests, a.failures, ErrorRate(a.failures, a.requests), latency)
  }

  // ----- What an account and a summary say.

  /** Where a request failed: an error, or a status outside the 2xx and 3xx classes. */
  ghost function FailedPlaces(log: seq<Observation>): set<int> {
    set i | 0 <= i < |log| && (log[i].err != "" || (log[i].status / 100 != 2 && log[i].status / 100 != 3))
  }

  lemma {:induction false} FailuresAreCounted(log: seq<Observation>)
    ensures AccountOf(log).failures == |FailedPlaces(log)|
  {
    if log != [] {
      var n := |log| - 1;
      FailuresAreCounted(log[..n]);
      if n in FailedPlaces(log) {
        assert FailedPlaces(log) == FailedPlaces(log[..n]) + {n};
      } else {
        assert FailedPlaces(log) == FailedPlaces(log[..n]);
      }
    }
  }

  /** The service of an account is the first one named. */
  lemma {:induction false} ServiceIsFirst(log: seq<Observation>)
    ensures if forall i :: 0 <= i < |log| ==> log[i].service == "" then AccountOf(log).service == ""
            else exists i :: 0 <= i < |log| && AccountOf(log).service == log[i].service != ""
                          && forall k :: 0 <= k < i ==> log[k].service == ""
    decreases |log|
  {
    if log != [] {
      var front := log[..|log| - 1];
      ServiceIsFirst(front);
      assert forall i :: 0 <= i < |front| ==> front[i] == log[i];
    }
  }

  /** The sample is the least value that at least this share of the samples stays within. */
  ghost predicate IsQuantile(samples: seq<int>, share: real, value: int) {
    forall x :: value <= x <==> Reaches(samples, share, x)
  }

  lemma QuantileReported(samples: seq<int>, share: real)
    requires samples != [] && 0.0 < share <= 1.0
    ensures IsQuantile(samples, share, PercentileOf(samples, share))
  {
    forall x ensures PercentileOf(samples, share) <= x <==> Reaches(samples, share, x) {
      PercentileIsLeast(samples, share, x);
    }
  }

  ghost predicate IsLeast(samples: seq<int>, value: int) {
    value in samples && forall x :: x in samples ==> value <= x
  }

  ghost predicate IsGreatest(samples: seq<int>, value: int) {
    value in samples && forall x :: x in samples ==> x <= value
  }

  /** What a summary reports of its samples. */
  lemma LatencyMeans(samples: seq<int>)
    requires samples != []
    ensures var l := Summarize(samples);
            && IsLeast(samples, l.min) && IsGreatest(samples, l.max)
            && IsQuantile(samples, 0.5, l.p50) && IsQuantile(samples, 0.9, l.p90)
            && IsQuantile(samples, 0.95, l.p95) && IsQuantile(samples, 0.99, l.p99)
  {
    PercentileEnds(samples, 0.0);
    PercentileEnds(samples, 1.0);
    QuantileReported(samples, 0.5);
    QuantileReported(samples, 0.9);
    QuantileReported(samples, 0.95);
    QuantileReported(samples, 0.99);
  }

  lemma RateTimesRequests(failures: nat, requests: nat)
    requires failures <= requests
    ensures ErrorRate(failures, requests) * requests as real == failures as real
  {
    if requests > 0 {
      assert (failures as real / requests as real) * requests as real == failures as real;
    }
  }

  /** And of how many requests there were, and how many failed. */
  lemma {:induction false} SummaryMeans(name: string, log: seq<Observation>)
    ensures var s := SummaryOf(name, log);
            && s.name == name && s.requests == |log| && s.failures == |FailedPlaces(log)|
            && s.errorRate == ErrorRate(|FailedPlaces(log)|, |log|)
            && s.latency == Summarize(Latencies(log))
  {
    FailuresAreCounted(log);
  }

  lemma NothingRecorded(name: string)
    ensures SummaryOf(name, []) == ScenarioStats(name, "", 0, 0, 0.0, LatencyStats(0, 0, 0, 0, 0, 0))
  {
  }

  lemma {:induction false} SortedIsUnique(a: seq<int>, b: seq<int>)
    requires Sorted(a) && Sorted(b) && multiset(a) == multiset(b)
    ensures a == b
  {
    assert |a| == |multiset(a)| == |b|;
    forall k | 0 <= k < |a| ensures a[k] == b[k] {
      SortedAtMost(a, a[k], k);
      SortedAtMost(b, a[k], k);
      AtMostOfSame(a, b, a[k]);
      SortedAtMost(a, b[k], k);
      SortedAtMost(b, b[k], k);
      AtMostOfSame(a, b, b[k]);
    }
  }

  /** Summaries do not see the order of the samples. */
  lemma SummarizePermuted(a: seq<int>, b: seq<int>)
    requires multiset(a) == multiset(b)
    ensures Summarize(a) == Summarize(b)
  {
    SortedIsUnique(Sort(a), Sort(b));
  }

  /** The samples kept for one scenario, or, with no owner, the combined ones. */
  class ScenarioSamples {
    ghost const owner: Option<string>
    ghost var account: Account
    var service: string
    var latencies: seq<int>
    var requests: int
    var failures: int

    constructor (ghost owner: Option<string>)
      ensures Valid() && account == NOTHING && this.owner == owner
    {
      this.owner := owner;
      service, latencies, requests, failures := "", [], 0, 0;
      account := NOTHING;
    }

    ghost predicate Valid()
      reads this
    {
      account == Account(service, multiset(latencies), requests, failures)
    }

    method Add(result: Observation)
      requires Valid()
      modifies this
      ensures Valid() && account == old(account).Plus(result)
    {
      if service == "" {
        service := result.service;
      }
      requests := requests + 1;
      latencies := latencies + [result.latency];
      if Failed(result) {
        failures := failures + 1;
      }
      account := account.Plus(result);
    }

    /** The in-place sort of summarize. */
    method SortLatencies()
      requires Valid()
      modifies `latencies
      ensures Valid() && latencies == Sort(old(latencies))
    {
      latencies := Sort(latencies);
    }

    /** Sorts the stored latencies in place and reports them. */
    method Summary(name: string, ghost log: seq<Observation>) returns (stats: ScenarioStats)
      requires Valid() && account == AccountOf(log)
      modifies `latencies
      ensures Valid() && stats == SummaryOf(name, log)
    {
      SummaryAgrees(name, latencies, log);
      SortLatencies();
      stats := StatsOf(name, Account(service, multiset(latencies), requests, failures), Summarize(latencies));
    }
  }

  lemma {:induction false} SummaryAgrees(name: string, samples: seq<int>, log: seq<Observation>)
    requires multiset(samples) == AccountOf(log).latencies
    ensures SummaryOf(name, log) == StatsOf(name, AccountOf(log), Summarize(Sort(samples)))
  {
    AccountLatencies(log);
    SummarizePermuted(Sort(samples), Latencies(log));
  }

  function PartPlus(parts: map<string, Account>, r: Observation): map<string, Account> {
    parts[r.scenario := (if r.scenario in parts then parts[r.scenario] else NOTHING).Plus(r)]
  }

  /** The accounts with one set up for the scenario, if there was none. */
  function Ready(parts: map<string, Account>, scenario: string): (ready: map<string, Account>)
    ensures scenario in ready
  {
    if scenario in parts then parts else parts[scenario := NOTHING]
  }

  lemma PartPlusReady(parts: map<string, Account>, r: Observation)
    ensures var ready := Ready(parts, r.scenario);
            ready[r.scenario := ready[r.scenario].Plus(r)] == PartPlus(parts, r)
  {
  }

  /** The accounts by scenario, as recording one observation after another builds them. */
  function PartsOf(log: seq<Observation>): map<string, Account> {
    if log == [] then map[] else PartPlus(PartsOf(log[..|log| - 1]), log[|log| - 1])
  }

  lemma {:induction false} RecordedOneMore(log: seq<Observation>, r: Observation)
    ensures AccountOf(log + [r]) == AccountOf(log).Plus(r)
    ensures PartsOf(log + [r]) == PartPlus(PartsOf(log), r)
  {
    assert (log + [r])[..|log|] == log;
  }

  ghost predicate Accounted(log: seq<Observation>, whole: Account, parts: map<string, Account>) {
    whole == AccountOf(log) && parts == PartsOf(log)
  }

  lemma AccountedOneMore(log: seq<Observation>, whole: Account, parts: map<string, Account>, r: Observation)
    requires Accounted(log, whole, parts)
    ensures Accounted(log + [r], whole.Plus(r), PartPlus(parts, r))
  {
    RecordedOneMore(log, r);
  }

  /** A scenario's part is the account of its own observations. */
  lemma {:induction false} PartIsOwnAccount(log: seq<Observation>, name: string)
    ensures name in PartsOf(log) <==> Of(log, name) != []
    ensures name in PartsOf(log) ==> PartsOf(log)[name] == AccountOf(Of(log, name))
  {
    if log != [] {
      var before, last := log[..|log| - 1], log[|log| - 1];
      PartIsOwnAccount(before, name);
      if last.scenario == name {
        RecordedOneMore(Of(before, name), last);
      }
    }
  }

  class Recorder {
    var scenarios: map<string, ScenarioSamples>
    const overall: ScenarioSamples
    ghost var whole: Account
    ghost var parts: map<string, Account>
    ghost var log: seq<Observation>
    ghost var Repr: set<ScenarioSamples>

    constructor ()
      ensures Valid() && log == [] && fresh(Repr)
    {
      scenarios := map[];
      overall := new ScenarioSamples(None);
      whole, parts, log := NOTHING, map[], [];
      Repr := {overall};
    }

    /** A name has a sample object of its own, and it accounts for its part. */
    ghost predicate Represented(name: string)
      requires name in scenarios
      reads `scenarios, `parts, `Repr, scenarios[name]
    {
      var samples := scenarios[name];
      && samples in Repr && samples.owner == Some(name)
      && name in parts && samples.Valid() && samples.account == parts[name]
    }

    ghost predicate Represents()
      reads `scenarios, `whole, `parts, `Repr, Repr, scenarios.Values
    {
      && overall in Repr && overall.owner == None && overall.Valid() && overall.account == whole
      && scenarios.Keys == parts.Keys
      && forall name :: name in scenarios ==> Represented(name)
    }

    /** Everything recorded so far is held twice: whole, and split by scenario. */
    ghost predicate Valid()
      reads this, Repr, scenarios.Values
    {
      Represents() && Accounted(log, whole, parts)
    }

    method Record(result: Observation)
      requires Valid()
      modifies this, Repr
      ensures Valid() && log == old(log) + [result] && fresh(Repr - old(Repr))
    {
      AccountedOneMore(log, whole, parts, result);
      log := log + [result];
      Store(result);
    }

    method Store(result: Observation)
      requires Represents()
      modifies `scenarios, `whole, `parts, `Repr, Repr
      ensures Represents() && fresh(Repr - old(Repr))
      ensures whole == old(whole).Plus(result) && parts == PartPlus(old(parts), result)
    {
      PartPlusReady(parts, result);
      EnsureScenario(result.scenario);
      StoreTwice(scenarios[result.scenario], result);
    }

    /** The branch of Record that sets up a new scenario. */
    method EnsureScenario(scenario: string)
      requires Represents()
      modifies `scenarios, `parts, `Repr
      ensures Represents() && fresh(Repr - old(Repr)) && scenario in scenarios
      ensures parts == Ready(old(parts), scenario)
    {
      if scenario !in scenarios {
        AddScenario(scenario);
      }
    }

    method AddScenario(scenario: string)
      requires Represents() && scenario !in scenarios
      modifies `scenarios, `parts, `Repr
      ensures Represents() && fresh(Repr - old(Repr))
      ensures parts == old(parts)[scenario := NOTHING]
    {
      var samples := new ScenarioSamples(Some(scenario));
      scenarios := scenarios[scenario := samples];
      parts := parts[scenario := NOTHING];
      Repr := Repr + {samples};
    }

    method StoreTwice(samples: ScenarioSamples, result: Observation)
      requires Represents() && result.scenario in scenarios && scenarios[result.scenario] == samples
      modifies `whole, `parts, Repr
      ensures Represents()
      ensures whole == old(whole).Plus(result)
      ensures parts == old(parts)[result.scenario := old(parts)[result.scenario].Plus(result)]
    {
      samples.Add(result);
      overall.Add(result);
      whole, parts := overall.account, parts[result.scenario := samples.account];
    }

    /** The exact stage-level summary. */
    method Overall(name: string) returns (stats: ScenarioStats)
      requires Valid()
      modifies Repr
      ensures Valid() && stats == SummaryOf(name, log)
    {
      stats := overall.Summary(name, log);
    }

    method SummaryFor(name: string) returns (stats: ScenarioStats)
      requires Valid() && name in scenarios
      modifies Repr
      ensures Valid() && stats == SummaryOf(name, Of(log, name))
    {
      PartIsOwnAccount(log, name);
      assert Represented(name);
      stats := scenarios[name].Summary(name, Of(log, name));
    }

    /** One summary per scenario; `names` are the map's keys in the order the final sort puts them. */
    method Snapshot(names: seq<string>) returns (out: seq<ScenarioStats>)
      requires Valid() && forall name :: name in names <==> name in scenarios
      modifies Repr
      ensures Valid() && out == Summaries(log, names)
    {
      out := [];
      for i := 0 to |names|
        invariant Valid()
        invariant out == Summaries(log, names[..i])
      {
        var stats := SummaryFor(names[i]);
        SummariesStep(log, names, i);
        out := out + [stats];
      }
      assert names[..|names|] == names;
    }
  }

  function Summaries(log: seq<Observation>, names: seq<string>): (out: seq<ScenarioStats>)
    ensures |out| == |names|
    ensures forall i :: 0 <= i < |names| ==> out[i] == SummaryOf(names[i], Of(log, names[i]))
  {
    if names == [] then []
    else
      var last := names[|names| - 1];
      Summaries(log, names[..|names| - 1]) + [SummaryOf(last, Of(log, last))]
  }

  lemma {:induction false} SummariesStep(log: seq<Observation>, names: seq<string>, i: nat)
    requires i < |names|
    ensures Summaries(log, names[..i + 1]) == Summaries(log, names[..i]) + [SummaryOf(names[i], Of(log, names[i]))]
  {
    assert names[..i + 1][..i] == names[..i];
  }

  // ----- The combined samples are the union of the per-scenario samples.

  function Groups(log: seq<Observation>, names: seq<string>): (g: seq<seq<int>>)
    ensures |g| == |names|
    ensures forall i :: 0 <= i < |names| ==> g[i] == Latencies(Of(log, names[i]))
  {
    if names == [] then [] else [Latencies(Of(log, names[0]))] + Groups(log, names[1..])
  }

  function FailuresOf(log: seq<Observation>, names: seq<string>): nat {
    if names == [] then 0 else AccountOf(Of(log, names[0])).failures + FailuresOf(log, names[1..])
  }

  function CountOf(log: seq<Observation>, names: seq<string>): nat {
    if names == [] then 0 else |Of(log, names[0])| + CountOf(log, names[1..])
  }

  /** Every sample of the listed scenarios, one after another. */
  function SamplesOf(log: seq<Observation>, names: seq<string>): seq<int> {
    Merged(Groups(log, names))
  }

  predicate Distinct(names: seq<string>) {
    forall i, j :: 0 <= i < j < |names| ==> names[i] != names[j]
  }

  lemma DistinctTail(names: seq<string>, name: string)
    requires names != [] && Distinct(names)
    ensures Distinct(names[1..]) && names[0] !in names[1..]
    ensures name in names <==> name == names[0] || name in names[1..]
  {
    assert names == [names[0]] + names[1..];
  }

  lemma {:induction false} SamplesCons(log: seq<Observation>, names: seq<string>)
    requires names != []
    ensures SamplesOf(log, names) == Latencies(Of(log, names[0])) + SamplesOf(log, names[1..])
  {
    assert Groups(log, names)[1..] == Groups(log, names[1..]);
  }

  lemma {:induction false} LatenciesStep(log: seq<Observation>, r: Observation)
    ensures Latencies(log + [r]) == Latencies(log) + [r.latency]
  {
    assert (log + [r])[..|log|] == log;
  }

  /** One more observation goes to its own scenario and to no other. */
  lemma {:induction false} OwnStep(log: seq<Observation>, r: Observation, name: string)
    ensures r.scenario != name ==> Of(log + [r], name) == Of(log, name)
    ensures r.scenario == name ==>
              && Latencies(Of(log + [r], name)) == Latencies(Of(log, name)) + [r.latency]
              && |Of(log + [r], name)| == |Of(log, name)| + 1
              && AccountOf(Of(log + [r], name)).failures
                 == AccountOf(Of(log, name)).failures + if Failed(r) then 1 else 0
  {
    assert (log + [r])[..|log|] == log;
    var own := Of(log, name);
    RecordedOneMore(own, r);
    LatenciesStep(own, r);
  }

  lemma {:induction false} SamplesStep(log: seq<Observation>, names: seq<string>, r: Observation)
    requires Distinct(names)
    ensures multiset(SamplesOf(log + [r], names))
         == multiset(SamplesOf(log, names)) + if r.scenario in names then multiset{r.latency} else multiset{}
    decreases |names|
  {
    if names != [] {
      DistinctTail(names, r.scenario);
      SamplesCons(log, names);
      SamplesCons(log + [r], names);
      SamplesStep(log, names[1..], r);
      OwnStep(log, r, names[0]);
    }
  }

  lemma {:induction false} CountsStep(log: seq<Observation>, names: seq<string>, r: Observation)
    requires Distinct(names)
    ensures CountOf(log + [r], names) == CountOf(log, names) + if r.scenario in names then 1 else 0
    ensures FailuresOf(log + [r], names)
         == FailuresOf(log, names) + if r.scenario in names && Failed(r) then 1 else 0
    decreases |names|
  {
    if names != [] {
      DistinctTail(names, r.scenario);
      CountsStep(log, names[1..], r);
      OwnStep(log, r, names[0]);
    }
  }

  lemma {:induction false} SplitStart(names: seq<string>)
    ensures Merged(Groups([], names)) == [] && CountOf([], names) == 0 && FailuresOf([], names) == 0
  {
    if names != [] {
      SplitStart(names[1..]);
    }
  }

  /** Whatever was recorded, in whatever order: the whole is the sum of the scenarios. */
  lemma {:induction false} WholeIsUnion(log: seq<Observation>, names: seq<string>)
    requires Distinct(names) && forall r :: r in log ==> r.scenario in names
    ensures multiset(SamplesOf(log, names)) == multiset(Latencies(log))
    ensures CountOf(log, names) == |log| && FailuresOf(log, names) == AccountOf(log).failures
    decreases |log|
  {
    if log == [] {
      SplitStart(names);
    } else {
      var before, last := log[..|log| - 1], log[|log| - 1];
      assert log == before + [last];
      WholeIsUnion(before, names);
      SamplesStep(before, names, last);
      CountsStep(before, names, last);
      RecordedOneMore(before, last);
      LatenciesStep(before, last);
    }
  }
}
