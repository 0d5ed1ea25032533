/**
 * The breach theorem over what recorders report: the budgets at which a breaching stage always has
 * a breaching service are the same when every stage comes out of a recorder.
 */
module RecordedBreaches {
  import opened Percentiles
  import opened Recorder
  import opened Capacity
  import opened BreachOrder
  import opened RecordedRamps

  ghost predicate AllRecorded(levels: seq<Level>) {
    forall i :: 0 <= i < |levels| ==> Recorded(levels[i])
  }

  function Ramp(levels: seq<Level>): (ramp: seq<Stage>)
    ensures |ramp| == |levels| && forall i :: 0 <= i < |levels| ==> ramp[i] == StageOf(levels[i])
  {
    seq(|levels|, i requires 0 <= i < |levels| => StageOf(levels[i]))
  }

  // ----- Samples that take no time.

  /** Requests of the one service that take no time at all. */
  predicate Instant(log: seq<Observation>) {
    forall i :: 0 <= i < |log| ==> log[i].service == "api" && log[i].latency == 0
  }

  lemma {:induction false} InstantAccount(log: seq<Observation>)
    requires Instant(log)
    ensures log != [] ==> AccountOf(log).service == "api"
    ensures |Latencies(log)| == |log| && forall i :: 0 <= i < |log| ==> Latencies(log)[i] == 0
    decreases |log|
  {
    if log != [] {
      InstantAccount(log[..|log| - 1]);
    }
  }

  lemma {:induction false} ZeroSummary(latencies: seq<int>)
    requires forall i :: 0 <= i < |latencies| ==> latencies[i] == 0
    ensures Summarize(latencies) == NO_LATENCY
  {
    var sorted := Sort(latencies);
    forall i | 0 <= i < |sorted| ensures sorted[i] == 0 {
      assert sorted[i] in multiset(sorted);
      assert sorted[i] in latencies;
    }
  }

  /** As many requests and failures, and no time taken. */
  ghost predicate Tally(log: seq<Observation>, requests: int, failures: int) {
    requests > 0 && Instant(log) && |log| == requests && AccountOf(log).failures == failures
  }

  lemma {:induction false} TallySummary(name: string, log: seq<Observation>, requests: int, failures: int)
    requires Tally(log, requests, failures)
    ensures SummaryOf(name, log) == Stats(name, requests, failures)
    ensures AccountOf(log).service == "api"
  {
    InstantAccount(log);
    ZeroSummary(Latencies(log));
  }

  // ----- The diluted stage, recorded.

  /** Requests of one scenario, the first of which fail. */
  function Served(scenario: string, n: nat, failing: nat): (log: seq<Observation>)
    ensures |log| == n && Instant(log) && forall i :: 0 <= i < n ==> log[i].scenario == scenario
  {
    seq(n, i => Observation(scenario, "api", 0, if i < failing then 500 else 200, ""))
  }

  lemma {:induction false} ServedFails(scenario: string, n: nat, failing: nat)
    ensures AccountOf(Served(scenario, n, failing)).failures == if n < failing then n else failing
  {
    if n > 0 {
      ServedFails(scenario, n - 1, failing);
      assert Served(scenario, n, failing)[..n - 1] == Served(scenario, n - 1, failing);
    }
  }

  lemma {:induction false} OfOneScenario(log: seq<Observation>, scenario: string, name: string)
    requires forall i :: 0 <= i < |log| ==> log[i].scenario == scenario
    ensures Of(log, name) == if name == scenario then log else []
    decreases |log|
  {
    if log != [] {
      OfOneScenario(log[..|log| - 1], scenario, name);
    }
  }

  /** One more request, of another scenario. */
  lemma {:induction false} OneMore(log: seq<Observation>, requests: int, failures: int, one: Observation)
    requires Tally(log, requests, failures) && one.scenario != "always" && Instant([one])
    requires forall i :: 0 <= i < |log| ==> log[i].scenario == "always"
    ensures Tally(log + [one], requests + 1, failures + if Failed(one) then 1 else 0)
    ensures Of(log + [one], "always") == log && Of(log + [one], one.scenario) == [one]
  {
    RecordedOneMore(log, one);
    OfOneScenario(log, "always", "always");
    OfOneScenario(log, "always", one.scenario);
    assert [one][0] == one && (log + [one])[..|log|] == log;
  }

  /** 99 failures for each success of one scenario, and one request of another. */
  function Recording(k: nat, failed: nat): seq<Observation> {
    Served("always", 100 * k, 99 * k) + Served("loaded", 1, failed)
  }

  /** The requests and failures of the level and of its two scenarios. */
  ghost predicate Dilutes(log: seq<Observation>, k: nat, failed: nat) {
    && Tally(log, 100 * k + 1, 99 * k + failed)
    && Tally(Of(log, "always"), 100 * k, 99 * k)
    && Tally(Of(log, "loaded"), 1, failed)
  }

  lemma {:induction false} RecordingDilutes(k: nat, failed: nat)
    requires k > 0 && failed <= 1
    ensures Dilutes(Recording(k, failed), k, failed)
  {
    var always, one := Served("always", 100 * k, 99 * k), Served("loaded", 1, failed);
    ServedFails("always", 100 * k, 99 * k);
    ServedFails("loaded", 1, failed);
    assert one == [one[0]];
    OneMore(always, 100 * k, 99 * k, one[0]);
  }

  lemma Pair<T>(s: seq<T>, first: T, second: T)
    requires |s| == 2 && s[0] == first && s[1] == second
    ensures s == [first, second]
  {
  }

  lemma {:induction false} TalliedSummaries(
      log: seq<Observation>, names: seq<string>, n: nat, f: nat, g: nat)
    requires |names| == 2 && Tally(Of(log, names[0]), n, f) && Tally(Of(log, names[1]), 1, g)
    ensures Summaries(log, names) == [Stats(names[0], n, f), Stats(names[1], 1, g)]
  {
    assert Summaries(log, names)[0] == Stats(names[0], n, f) by {
      TallySummary(names[0], Of(log, names[0]), n, f);
    }
    assert Summaries(log, names)[1] == Stats(names[1], 1, g) by {
      TallySummary(names[1], Of(log, names[1]), 1, g);
    }
    Pair(Summaries(log, names), Stats(names[0], n, f), Stats(names[1], 1, g));
  }

  lemma {:induction false} DilutesAll(log: seq<Observation>, k: nat, failed: nat)
    requires Tally(log, 100 * k + 1, 99 * k + failed)
    ensures SummaryOf("all", log) == Stats("all", 100 * k + 1, 99 * k + failed)
  {
    TallySummary("all", log, 100 * k + 1, 99 * k + failed);
  }

  lemma {:induction false} DilutesSummaries(log: seq<Observation>, names: seq<string>, k: nat, failed: nat)
    requires names == ["always", "loaded"] && Dilutes(log, k, failed)
    ensures k > 0 && Summaries(log, names) == [Stats("always", 100 * k, 99 * k), Stats("loaded", 1, failed)]
  {
    assert names[0] == "always" && names[1] == "loaded";
    TalliedSummaries(log, names, 100 * k, 99 * k, failed);
  }

  lemma {:induction false} DilutedFrom(level: Level, k: nat, failed: nat)
    requires k > 0 && SummaryOf("all", level.log) == Stats("all", 100 * k + 1, 99 * k + failed)
    requires Summaries(level.log, level.names) == [Stats("always", 100 * k, 99 * k), Stats("loaded", 1, failed)]
    ensures StageOf(level) == Diluted(level.concurrency, k, failed)
  {
  }

  lemma {:induction false} DilutesStage(level: Level, k: nat, failed: nat)
    requires level.names == ["always", "loaded"] && Dilutes(level.log, k, failed)
    ensures k > 0 && StageOf(level) == Diluted(level.concurrency, k, failed)
  {
    DilutesAll(level.log, k, failed);
    DilutesSummaries(level.log, level.names, k, failed);
    DilutedFrom(level, k, failed);
  }

  lemma {:induction false} DilutesIsRecorded(level: Level, k: nat, failed: nat)
    requires level.names == ["always", "loaded"] && Dilutes(level.log, k, failed)
    requires forall r :: r in level.log ==> r.scenario in level.names
    ensures Recorded(level)
  {
    TallySummary("always", Of(level.log, "always"), 100 * k, 99 * k);
    TallySummary("loaded", Of(level.log, "loaded"), 1, failed);
  }

  /** A recorder can report the diluted stage. */
  lemma {:induction false} DilutedIsRecorded(concurrency: int, k: nat, failed: nat) returns (level: Level)
    requires k > 0 && failed <= 1
    ensures Recorded(level) && StageOf(level) == Diluted(concurrency, k, failed)
  {
    level := Level(concurrency, Recording(k, failed), ["always", "loaded"]);
    RecordingDilutes(k, failed);
    DilutesIsRecorded(level, k, failed);
    DilutesStage(level, k, failed);
  }

  lemma BothRecorded(first: Level, second: Level)
    requires Recorded(first) && Recorded(second)
    ensures AllRecorded([first, second])
  {
  }

  lemma {:induction false} RampOfTwo(first: Level, second: Level)
    ensures Ramp([first, second]) == [StageOf(first), StageOf(second)]
  {
    Pair(Ramp([first, second]), StageOf(first), StageOf(second));
  }

  /** The failing input: recordings whose ramp has a breaching stage and no breaching service. */
  lemma {:induction false} UnexplainedRecording(limits: Limits) returns (levels: seq<Level>)
    requires limits.latencySLO >= 0 && !SafeBudget(limits.errorBudget)
    ensures AllRecorded(levels) && !Explained(Ramp(levels), limits)
  {
    var ramp, k := UnexplainedRamp(limits);
    var first := DilutedIsRecorded(1, k, 0);
    var second := DilutedIsRecorded(2, k, 1);
    levels := [first, second];
    RampOfTwo(first, second);
    BothRecorded(first, second);
  }

  /** Over everything recorders can report, the services explain every breach exactly at the safe budgets. */
  lemma {:induction false} RecordedExplainedIff(limits: Limits)
    requires limits.latencySLO >= 0
    ensures (forall levels :: AllRecorded(levels) ==> Explained(Ramp(levels), limits))
       <==> SafeBudget(limits.errorBudget)
  {
    if SafeBudget(limits.errorBudget) {
      forall levels | AllRecorded(levels) ensures Explained(Ramp(levels), limits) {
        forall i | 0 <= i < |levels| ensures Measured(Ramp(levels)[i]) {
          RecordedIsMeasured(levels[i]);
        }
        SafeExplains(Ramp(levels), limits);
      }
    } else {
      var levels := UnexplainedRecording(limits);
    }
  }
}
