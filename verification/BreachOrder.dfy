/**
 * Why the per-service report never lags the blended one: on a measured ramp, a stage that
 * breaches its limits has a service that breaches its own at no higher concurrency.
 */
module BreachOrder {
  import opened Wrappers
  import opened Recorder
  import opened Capacity

  predicate Rated(s: ScenarioStats) {
    s.requests > 0 && 0 <= s.failures <= s.requests && s.errorRate == s.failures as real / s.requests as real
  }

  /** Every scenario here ran and named a service. */
  predicate Named(scenarios: seq<ScenarioStats>) {
    forall s :: s in scenarios ==> Rated(s) && s.service != ""
  }

  /**
   * What a stage reported by a recorder looks like: the total adds up over the scenarios, and its
   * p95 is at most the worst of theirs.
   */
  ghost predicate Measured(stage: Stage) {
    && Named(stage.scenarios)
    && stage.total.requests == Requests(stage.scenarios)
    && stage.total.failures == Failures(stage.scenarios)
    && (Counted(stage) ==> Rated(stage.total) && SomeAsSlow(stage.scenarios, stage.total.latency.p95))
  }

  ghost predicate SomeAsSlow(scenarios: seq<ScenarioStats>, p95: int) {
    exists k :: 0 <= k < |scenarios| && scenarios[k].latency.p95 >= p95
  }

  ghost predicate MeasuredRamp(ramp: seq<Stage>) {
    forall i :: 0 <= i < |ramp| ==> Measured(ramp[i])
  }

  /** The annotated stage at one level of a ramp. */
  function VerdictAt(ramp: seq<Stage>, limits: Limits, i: nat): Stage
    requires i < |ramp|
  {
    Annotated(ramp[i], BrokenNames(ramp), limits)
  }

  // ----- Failures in excess of the budget.

  /** How many failures the budget allows, added up request by request. */
  function Allowed(budget: real, requests: int): real
    decreases if requests > 0 then requests else 0
  {
    if requests <= 0 then 0.0 else Allowed(budget, requests - 1) + budget
  }

  lemma {:induction false} AllowedAdds(budget: real, a: nat, b: nat)
    ensures Allowed(budget, a + b) == Allowed(budget, a) + Allowed(budget, b)
  {
    if b > 0 {
      AllowedAdds(budget, a, b - 1);
    }
  }

  lemma {:induction false} AllowedIsProduct(budget: real, n: nat)
    ensures Allowed(budget, n) == budget * n as real
  {
    if n > 0 {
      AllowedIsProduct(budget, n - 1);
      assert budget * n as real == budget * (n - 1) as real + budget;
    }
  }

  /** A failure rate is above the budget exactly when there are more failures than it allows. */
  lemma {:induction false} RateAbove(failures: int, requests: int, budget: real)
    requires requests > 0
    ensures failures as real / requests as real > budget <==> failures as real > Allowed(budget, requests)
    ensures failures as real / requests as real >= budget <==> failures as real >= Allowed(budget, requests)
  {
    AllowedIsProduct(budget, requests);
  }

  /** How far a scenario is over the budget, in requests. */
  function Excess(s: ScenarioStats, budget: real): real {
    s.failures as real - Allowed(budget, s.requests)
  }

  function TotalExcess(scenarios: seq<ScenarioStats>, budget: real): real {
    if scenarios == [] then 0.0
    else TotalExcess(scenarios[..|scenarios| - 1], budget) + Excess(scenarios[|scenarios| - 1], budget)
  }

  /** The scenarios of one service, in order, and the rest. */
  function OfService(scenarios: seq<ScenarioStats>, service: string): (r: seq<ScenarioStats>)
    ensures |r| <= |scenarios|
    ensures forall s :: s in r ==> s in scenarios && s.service == service
  {
    if scenarios == [] then []
    else
      var before, last := OfService(scenarios[..|scenarios| - 1], service), scenarios[|scenarios| - 1];
      if last.service == service then before + [last] else before
  }

  function Others(scenarios: seq<ScenarioStats>, service: string): (r: seq<ScenarioStats>)
    ensures |r| <= |scenarios|
    ensures forall s :: s in r ==> s in scenarios && s.service != service
  {
    if scenarios == [] then []
    else
      var before, last := Others(scenarios[..|scenarios| - 1], service), scenarios[|scenarios| - 1];
      if last.service == service then before else before + [last]
  }

  lemma {:induction false} ExcessSplits(scenarios: seq<ScenarioStats>, service: string, budget: real)
    ensures TotalExcess(scenarios, budget)
         == TotalExcess(OfService(scenarios, service), budget) + TotalExcess(Others(scenarios, service), budget)
    decreases |scenarios|
  {
    if scenarios != [] {
      var front, last := scenarios[..|scenarios| - 1], scenarios[|scenarios| - 1];
      ExcessSplits(front, service, budget);
    }
  }

  lemma {:induction false} OthersKeepService(scenarios: seq<ScenarioStats>, gone: string, service: string)
    requires gone != service
    ensures OfService(Others(scenarios, gone), service) == OfService(scenarios, service)
    decreases |scenarios|
  {
    if scenarios != [] {
      var front, last := scenarios[..|scenarios| - 1], scenarios[|scenarios| - 1];
      OthersKeepService(front, gone, service);
      var rest := Others(front, gone);
      assert (rest + [last])[..|rest|] == rest;
    }
  }

  /** If the scenarios together are over the budget, so are those of some one service. */
  lemma {:induction false} SomeServiceOver(scenarios: seq<ScenarioStats>, budget: real) returns (service: string)
    requires TotalExcess(scenarios, budget) > 0.0
    ensures TotalExcess(OfService(scenarios, service), budget) > 0.0
    decreases |scenarios|
  {
    service := scenarios[|scenarios| - 1].service;
    ExcessSplits(scenarios, service, budget);
    if TotalExcess(OfService(scenarios, service), budget) <= 0.0 {
      var gone := service;
      service := SomeServiceOver(Others(scenarios, gone), budget);
      if service == gone {
        NoneLeft(Others(scenarios, gone), gone);
      } else {
        OthersKeepService(scenarios, gone, service);
      }
    }
  }

  lemma {:induction false} NoneLeft(scenarios: seq<ScenarioStats>, service: string)
    requires forall s :: s in scenarios ==> s.service != service
    ensures OfService(scenarios, service) == []
    decreases |scenarios|
  {
    if scenarios != [] {
      assert scenarios[|scenarios| - 1] in scenarios;
      NoneLeft(scenarios[..|scenarios| - 1], service);
    }
  }

  function Requests(scenarios: seq<ScenarioStats>): int {
    if scenarios == [] then 0 else Requests(scenarios[..|scenarios| - 1]) + scenarios[|scenarios| - 1].requests
  }

  function Failures(scenarios: seq<ScenarioStats>): int {
    if scenarios == [] then 0 else Failures(scenarios[..|scenarios| - 1]) + scenarios[|scenarios| - 1].failures
  }

  lemma {:induction false} ExcessIsOfSums(scenarios: seq<ScenarioStats>, budget: real)
    requires Named(scenarios)
    ensures Requests(scenarios) >= 0
    ensures TotalExcess(scenarios, budget) == Failures(scenarios) as real - Allowed(budget, Requests(scenarios))
    decreases |scenarios|
  {
    if scenarios != [] {
      var front, last := scenarios[..|scenarios| - 1], scenarios[|scenarios| - 1];
      assert last in scenarios;
      ExcessIsOfSums(front, budget);
      AllowedAdds(budget, Requests(front), last.requests);
    }
  }

  /** No quantile of `a` is over that of `b`, and a positive least of `a` is not below that of `b`. */
  predicate NoSlower(a: LatencyStats, b: LatencyStats) {
    && a.p50 <= b.p50 && a.p90 <= b.p90 && a.p95 <= b.p95 && a.p99 <= b.p99 && a.max <= b.max
    && (a.min > 0 ==> b.min != 0 && b.min <= a.min)
  }

  /** The entry holds the sums over these scenarios of one service, and the worst of their latencies. */
  predicate SumsUp(g: Option<ServiceStage>, concurrency: int, mine: seq<ScenarioStats>) {
    if mine == [] then g == None
    else
      && g.Some? && g.value.concurrency == concurrency && g.value.requests > 0
      && g.value.requests == Requests(mine) && g.value.failures == Failures(mine)
      && forall s :: s in mine ==> NoSlower(s.latency, g.value.latency)
  }

  /** What ServiceStages makes of a service. */
  lemma {:induction false} GroupSums(concurrency: int, scenarios: seq<ScenarioStats>, service: string)
    requires Named(scenarios)
    ensures SumsUp(GroupOf(concurrency, scenarios, service), concurrency, OfService(scenarios, service))
    decreases |scenarios|
  {
    if scenarios != [] {
      var front, last := scenarios[..|scenarios| - 1], scenarios[|scenarios| - 1];
      assert last in scenarios;
      GroupSums(concurrency, front, service);
      if last.service == service {
        assert Loads(last, service);
      }
    }
  }

  /** Scenarios that did nothing, or named no service, are in no group. */
  function Working(scenarios: seq<ScenarioStats>): seq<ScenarioStats> {
    if scenarios == [] then []
    else
      var before, last := Working(scenarios[..|scenarios| - 1]), scenarios[|scenarios| - 1];
      if last.requests != 0 && last.service != "" then before + [last] else before
  }

  lemma {:induction false} IdleGroupNowhere(concurrency: int, scenarios: seq<ScenarioStats>, service: string)
    ensures GroupOf(concurrency, scenarios, service) == GroupOf(concurrency, Working(scenarios), service)
    ensures service == "" ==> GroupOf(concurrency, scenarios, service) == None
    decreases |scenarios|
  {
    if scenarios != [] {
      var front, last := scenarios[..|scenarios| - 1], scenarios[|scenarios| - 1];
      IdleGroupNowhere(concurrency, front, service);
      assert (Working(front) + [last])[..|Working(front)|] == Working(front);
    }
  }

  // ----- What a stage's verdict is made of.

  /** The scenarios left out of the verdict, or those kept in. */
  function NamedIn(scenarios: seq<ScenarioStats>, names: set<string>, wanted: bool): seq<ScenarioStats> {
    if scenarios == [] then []
    else
      var before, last := NamedIn(scenarios[..|scenarios| - 1], names, wanted), scenarios[|scenarios| - 1];
      if (last.name in names) == wanted then before + [last] else before
  }

  lemma {:induction false} LoadMeans(scenarios: seq<ScenarioStats>, broken: set<string>)
    ensures var kept, out := NamedIn(scenarios, broken, false), NamedIn(scenarios, broken, true);
            LoadOf(scenarios, broken) == Load(Requests(kept), Failures(kept), Requests(out))
    decreases |scenarios|
  {
    if scenarios != [] {
      var front, last := scenarios[..|scenarios| - 1], scenarios[|scenarios| - 1];
      LoadMeans(front, broken);
      SumsSnoc(NamedIn(front, broken, last.name in broken), last);
    }
  }

  lemma {:induction false} SumsSnoc(scenarios: seq<ScenarioStats>, last: ScenarioStats)
    ensures Requests(scenarios + [last]) == Requests(scenarios) + last.requests
    ensures Failures(scenarios + [last]) == Failures(scenarios) + last.failures
  {
    assert (scenarios + [last])[..|scenarios|] == scenarios;
  }

  /**
   * The verdict's rate is that of the scenarios kept in, or the stage's own when they have no
   * requests; the requests left out are counted, and nothing else changes.
   */
  lemma {:induction false} VerdictMeans(stage: Stage, broken: set<string>, limits: Limits)
    ensures var a, kept := Annotated(stage, broken, limits), NamedIn(stage.scenarios, broken, false);
            && (Requests(kept) == 0 ==> a.effectiveErrorRate == stage.total.errorRate)
            && (Requests(kept) != 0 ==> a.effectiveErrorRate == Failures(kept) as real / Requests(kept) as real)
            && a.brokenRequests == Requests(NamedIn(stage.scenarios, broken, true))
            && (a.saturated <==> a.effectiveErrorRate > limits.errorBudget || a.total.latency.p95 > limits.latencySLO)
            && a.concurrency == stage.concurrency && a.total == stage.total && a.scenarios == stage.scenarios
  {
    LoadMeans(stage.scenarios, broken);
  }

  // ----- From the scenarios to the services.

  /** Leaving out scenarios that are over the budget themselves does not raise the excess. */
  lemma {:induction false} LoadExcess(scenarios: seq<ScenarioStats>, broken: set<string>, budget: real)
    requires Named(scenarios)
    requires forall s :: s in scenarios && s.name in broken ==> Excess(s, budget) >= 0.0
    ensures var load := LoadOf(scenarios, broken);
            && 0 <= load.failures <= load.requests
            && TotalExcess(scenarios, budget) >= load.failures as real - Allowed(budget, load.requests)
    decreases |scenarios|
  {
    if scenarios != [] {
      var front, last := scenarios[..|scenarios| - 1], scenarios[|scenarios| - 1];
      assert last in scenarios;
      LoadExcess(front, broken, budget);
      AllowedAdds(budget, LoadOf(front, broken).requests, last.requests);
    }
  }

  lemma {:induction false} LoadFailsWithin(scenarios: seq<ScenarioStats>, broken: set<string>)
    requires Named(scenarios)
    ensures var load := LoadOf(scenarios, broken); 0 <= load.failures <= load.requests
    decreases |scenarios|
  {
    if scenarios != [] {
      assert scenarios[|scenarios| - 1] in scenarios;
      LoadFailsWithin(scenarios[..|scenarios| - 1], broken);
    }
  }

  /** A scenario excluded as broken is over any budget up to 99%. */
  lemma BrokenIsOver(ramp: seq<Stage>, i: nat, s: ScenarioStats, budget: real)
    requires MeasuredRamp(ramp) && i < |ramp| && budget <= BROKEN_RATE
    requires s in ramp[i].scenarios && s.name in BrokenNames(ramp)
    ensures Excess(s, budget) >= 0.0
  {
    BrokenMeans(ramp, s.name);
    assert AlwaysBadIn(ramp[i].scenarios, s.name) && Measured(ramp[i]);
    RateAbove(s.failures, s.requests, budget);
  }

  /** The service is loaded in the stage and is over its error budget or latency objective there. */
  ghost predicate ServiceOver(stage: Stage, service: string, limits: Limits) {
    ServiceIn(stage, service).Some? && ServiceBreaches(ServiceIn(stage, service).value, limits)
  }

  lemma ExcessMeansServiceOver(stage: Stage, limits: Limits)
    requires Named(stage.scenarios) && TotalExcess(stage.scenarios, limits.errorBudget) > 0.0
    ensures exists service :: ServiceOver(stage, service, limits)
  {
    var service := SomeServiceOver(stage.scenarios, limits.errorBudget);
    var mine := OfService(stage.scenarios, service);
    GroupSums(stage.concurrency, stage.scenarios, service);
    ExcessIsOfSums(mine, limits.errorBudget);
    assert mine != [];
    RateAbove(Failures(mine), Requests(mine), limits.errorBudget);
    assert ServiceOver(stage, service, limits);
  }

  lemma SlowScenarioMeansServiceOver(stage: Stage, k: nat, limits: Limits)
    requires Named(stage.scenarios) && k < |stage.scenarios|
    requires stage.scenarios[k].latency.p95 > limits.latencySLO
    ensures exists service :: ServiceOver(stage, service, limits)
  {
    var s := stage.scenarios[k];
    GroupSums(stage.concurrency, stage.scenarios, s.service);
    OwnScenarios(stage.scenarios, k);
    assert ServiceOver(stage, s.service, limits);
  }

  lemma {:induction false} OwnScenarios(scenarios: seq<ScenarioStats>, k: nat)
    requires k < |scenarios|
    ensures scenarios[k] in OfService(scenarios, scenarios[k].service)
    decreases |scenarios|
  {
    if k < |scenarios| - 1 {
      OwnScenarios(scenarios[..|scenarios| - 1], k);
    }
  }

  /** The budgets at which leaving out broken scenarios cannot hide a breach from the services. */
  predicate SafeBudget(budget: real) {
    budget <= BROKEN_RATE || 1.0 <= budget
  }

  lemma ErrorBreachMeansExcess(ramp: seq<Stage>, limits: Limits, i: nat)
    requires MeasuredRamp(ramp) && i < |ramp| && SafeBudget(limits.errorBudget)
    requires Counted(ramp[i]) && VerdictAt(ramp, limits, i).effectiveErrorRate > limits.errorBudget
    ensures TotalExcess(ramp[i].scenarios, limits.errorBudget) > 0.0
  {
    var stage, broken, budget := ramp[i], BrokenNames(ramp), limits.errorBudget;
    var load := LoadOf(stage.scenarios, broken);
    assert Measured(stage);
    LoadFailsWithin(stage.scenarios, broken);
    if load.requests == 0 {
      RateAbove(stage.total.failures, stage.total.requests, budget);
      ExcessIsOfSums(stage.scenarios, budget);
    } else {
      RateAbove(load.failures, load.requests, budget);
      AtLeastOneEach(budget, load.requests);
      forall s | s in stage.scenarios && s.name in broken ensures Excess(s, budget) >= 0.0 {
        BrokenIsOver(ramp, i, s, budget);
      }
      LoadExcess(stage.scenarios, broken, budget);
    }
  }

  lemma {:induction false} AtLeastOneEach(budget: real, n: nat)
    ensures budget >= 1.0 ==> Allowed(budget, n) >= n as real
  {
    if n > 0 {
      AtLeastOneEach(budget, n - 1);
    }
  }

  /**
   * A stage over its limits has a service over its own in that very stage, although scenarios
   * broken for the whole run are left out of the one and counted in the other.
   */
  lemma StageBreachHasServiceBreach(ramp: seq<Stage>, limits: Limits, i: nat)
    requires MeasuredRamp(ramp) && i < |ramp| && SafeBudget(limits.errorBudget)
    requires Counted(ramp[i]) && Breaches(VerdictAt(ramp, limits, i), limits)
    ensures exists service :: ServiceOver(ramp[i], service, limits)
  {
    assert Measured(ramp[i]);
    if VerdictAt(ramp, limits, i).effectiveErrorRate > limits.errorBudget {
      ErrorBreachMeansExcess(ramp, limits, i);
      ExcessMeansServiceOver(ramp[i], limits);
    } else {
      var k :| 0 <= k < |ramp[i].scenarios| && ramp[i].scenarios[k].latency.p95 >= ramp[i].total.latency.p95;
      SlowScenarioMeansServiceOver(ramp[i], k, limits);
    }
  }

  // ----- The first breach over the whole ramp.

  /** What AnnotateStages makes of the first `n` stages. */
  function Verdicts(ramp: seq<Stage>, limits: Limits, n: nat): (stages: seq<Stage>)
    requires n <= |ramp|
    ensures |stages| == n && forall i :: 0 <= i < n ==> stages[i] == VerdictAt(ramp, limits, i)
  {
    if n == 0 then [] else Verdicts(ramp, limits, n - 1) + [VerdictAt(ramp, limits, n - 1)]
  }

  lemma {:induction false} FirstBreachIsAStage(stages: seq<Stage>, limits: Limits) returns (i: nat)
    requires FirstBreachOf(stages, limits).Some?
    ensures i < |stages| && Counted(stages[i]) && Breaches(stages[i], limits)
    ensures FirstBreachOf(stages, limits) == Some(stages[i].concurrency)
  {
    if Counted(stages[0]) && Breaches(stages[0], limits) {
      i := 0;
    } else {
      var k := FirstBreachIsAStage(stages[1..], limits);
      i := k + 1;
    }
  }

  /** The service is over its limits in stage `k`, which ran at this level. */
  ghost predicate OverAt(stages: seq<Stage>, service: string, limits: Limits, k: int, level: int) {
    0 <= k < |stages| && ServiceOver(stages[k], service, limits) && stages[k].concurrency == level
  }

  /** CompareServices keeps the lowest level at which a service was over, on an ordered ramp. */
  lemma {:induction false} CapacityFindsBreach(ordered: seq<Stage>, service: string, limits: Limits, k: nat)
    requires ByConcurrency(ordered) && k < |ordered| && ServiceOver(ordered[k], service, limits)
    ensures var c := CapacityOf(ordered, service, limits);
            c.Some? && c.value.breach.Some? && c.value.breach.value <= ordered[k].concurrency
    decreases |ordered|
  {
    var front, last := ordered[..|ordered| - 1], ordered[|ordered| - 1];
    CapacityBreachIsALevel(front, service, limits);
    ServiceKeepsConcurrency(last, service);
    if k < |front| {
      CapacityFindsBreach(front, service, limits, k);
    }
  }

  lemma {:induction false} CapacityBreachIsALevel(stages: seq<Stage>, service: string, limits: Limits)
    ensures var c := CapacityOf(stages, service, limits);
            c.Some? && c.value.breach.Some?
            ==> exists k :: OverAt(stages, service, limits, k, c.value.breach.value)
    decreases |stages|
  {
    if stages != [] {
      var front, last := stages[..|stages| - 1], stages[|stages| - 1];
      CapacityBreachIsALevel(front, service, limits);
      ServiceKeepsConcurrency(last, service);
      assert forall k, level :: OverAt(front, service, limits, k, level) ==> OverAt(stages, service, limits, k, level);
      if ServiceOver(last, service, limits) {
        assert OverAt(stages, service, limits, |front|, last.concurrency);
      }
    }
  }

  /** On an ordered ramp a service's breach is the least level it was over its limits at, if any. */
  lemma {:induction false} CapacityBreachIsLowest(ordered: seq<Stage>, service: string, limits: Limits, level: int)
    requires ByConcurrency(ordered)
    ensures NoLater(CapacityOf(ordered, service, limits), level)
       <==> exists k, c :: OverAt(ordered, service, limits, k, c) && c <= level
  {
    CapacityBreachIsALevel(ordered, service, limits);
    if k, c :| OverAt(ordered, service, limits, k, c) && c <= level {
      CapacityFindsBreach(ordered, service, limits, k);
    }
  }

  /** The requests of a service over a ramp. */
  function ServedBy(stages: seq<Stage>, service: string): int {
    if stages == [] then 0
    else
      var last := ServiceIn(stages[|stages| - 1], service);
      ServedBy(stages[..|stages| - 1], service) + if last.Some? then last.value.requests else 0
  }

  /** CompareServices has an entry for every service some stage has, with its name and all its requests. */
  lemma {:induction false} CapacityCountsAll(stages: seq<Stage>, service: string, limits: Limits)
    ensures CapacityOf(stages, service, limits).Some?
       <==> exists k :: 0 <= k < |stages| && ServiceIn(stages[k], service).Some?
    ensures CapacityOf(stages, service, limits).Some? ==>
              var c := CapacityOf(stages, service, limits).value;
              c.service == service && c.totalRequests == ServedBy(stages, service)
    ensures CapacityOf(stages, service, limits).None? ==> ServedBy(stages, service) == 0
    decreases |stages|
  {
    if stages != [] {
      var front, last := stages[..|stages| - 1], stages[|stages| - 1];
      CapacityCountsAll(front, service, limits);
      if k :| 0 <= k < |front| && ServiceIn(front[k], service).Some? {
        assert stages[k] == front[k];
      }
      if k :| 0 <= k < |stages| && ServiceIn(stages[k], service).Some? {
        assert k < |front| ==> front[k] == stages[k];
      }
    }
  }

  lemma ServiceKeepsConcurrency(stage: Stage, service: string)
    ensures ServiceIn(stage, service).Some? ==> ServiceIn(stage, service).value.concurrency == stage.concurrency
  {
    GroupKeepsConcurrency(stage.concurrency, stage.scenarios, service);
  }

  lemma {:induction false} GroupKeepsConcurrency(concurrency: int, scenarios: seq<ScenarioStats>, service: string)
    ensures var g := GroupOf(concurrency, scenarios, service); g.Some? ==> g.value.concurrency == concurrency
    decreases |scenarios|
  {
    if scenarios != [] {
      GroupKeepsConcurrency(concurrency, scenarios[..|scenarios| - 1], service);
    }
  }

  /**
   * A ramp with a first breach at level c has a service whose own first breach is at c or below,
   * whichever ordered copies of the stages the two reports work on.
   */
  lemma {:induction false} ServicesBreachNoLater(
      ramp: seq<Stage>, limits: Limits, forStage: seq<Stage>, forServices: seq<Stage>)
    requires MeasuredRamp(ramp) && SafeBudget(limits.errorBudget)
    requires multiset(forStage) == multiset(Verdicts(ramp, limits, |ramp|)) == multiset(forServices)
    requires ByConcurrency(forStage) && ByConcurrency(forServices)
    requires FirstBreachOf(forStage, limits).Some?
    ensures exists service :: NoLater(CapacityOf(forServices, service, limits), FirstBreachOf(forStage, limits).value)
  {
    var k := FirstBreachIsAStage(forStage, limits);
    var i, j := SameStage(ramp, limits, forStage, forServices, k);
    var service := OverInVerdict(ramp, limits, i);
    CapacityFindsBreach(forServices, service, limits, j);
    assert NoLater(CapacityOf(forServices, service, limits), FirstBreachOf(forStage, limits).value);
  }

  lemma OverInVerdict(ramp: seq<Stage>, limits: Limits, i: nat) returns (service: string)
    requires MeasuredRamp(ramp) && i < |ramp| && SafeBudget(limits.errorBudget)
    requires Counted(ramp[i]) && Breaches(VerdictAt(ramp, limits, i), limits)
    ensures ServiceOver(VerdictAt(ramp, limits, i), service, limits)
  {
    StageBreachHasServiceBreach(ramp, limits, i);
    service :| ServiceOver(ramp[i], service, limits);
    assert ServiceIn(VerdictAt(ramp, limits, i), service) == ServiceIn(ramp[i], service);
  }

  ghost predicate NoLater(capacity: Option<ServiceCapacity>, level: int) {
    capacity.Some? && capacity.value.breach.Some? && capacity.value.breach.value <= level
  }

  lemma SameStage(ramp: seq<Stage>, limits: Limits, a: seq<Stage>, b: seq<Stage>, k: nat) returns (i: nat, j: nat)
    requires multiset(a) == multiset(Verdicts(ramp, limits, |ramp|)) == multiset(b) && k < |a|
    ensures i < |ramp| && VerdictAt(ramp, limits, i) == a[k] && j < |b| && b[j] == a[k]
  {
    var verdicts := Verdicts(ramp, limits, |ramp|);
    assert a[k] in multiset(a) && a[k] in multiset(verdicts) && a[k] in multiset(b);
    i :| 0 <= i < |verdicts| && verdicts[i] == a[k];
    j :| 0 <= j < |b| && b[j] == a[k];
  }

  // ----- The budgets for which this fails.

  /** Every breaching stage of the ramp has a breaching service in the same stage. */
  ghost predicate Explained(ramp: seq<Stage>, limits: Limits) {
    forall i :: 0 <= i < |ramp| && Counted(ramp[i]) && Breaches(VerdictAt(ramp, limits, i), limits)
      ==> exists service :: ServiceOver(ramp[i], service, limits)
  }

  function Stats(name: string, requests: int, failures: int): ScenarioStats
    requires requests > 0
  {
    ScenarioStats(name, "api", requests, failures, failures as real / requests as real, NO_LATENCY)
  }

  /** A scenario failing exactly 99% of many requests, beside one request of another. */
  function Diluted(concurrency: int, k: nat, failed: nat): Stage
    requires k > 0
  {
    Stage(concurrency, Stats("all", 100 * k + 1, 99 * k + failed),
          [Stats("always", 100 * k, 99 * k), Stats("loaded", 1, failed)], 0.0, 0, false)
  }

  lemma DilutedIsMeasured(concurrency: int, k: nat, failed: nat)
    requires k > 0 && failed <= 1
    ensures Measured(Diluted(concurrency, k, failed))
  {
    var stage := Diluted(concurrency, k, failed);
    var one := [stage.scenarios[0]];
    assert stage.scenarios[..1] == one && one[..0] == [];
    assert Requests(one) == 100 * k && Failures(one) == 99 * k;
    assert stage.scenarios[0].latency.p95 >= stage.total.latency.p95;
  }

  /** Its service, the only one, is within any budget that allows the one extra failure. */
  lemma DilutedServiceWithin(concurrency: int, k: nat, failed: nat, limits: Limits, service: string)
    requires k > 0 && failed <= 1 && limits.latencySLO >= 0
    requires (99 * k + failed) as real / (100 * k + 1) as real <= limits.errorBudget
    ensures !ServiceOver(Diluted(concurrency, k, failed), service, limits)
  {
    var scenarios := Diluted(concurrency, k, failed).scenarios;
    var one := [scenarios[0]];
    assert scenarios[..1] == one && one[..0] == [];
    assert GroupOf(concurrency, one, service)
        == if service == "api" then Some(ServiceStage(concurrency, 100 * k, 99 * k, 0.0, NO_LATENCY)) else None;
  }

  lemma RatioOfMultiples(a: nat, b: nat, k: nat)
    requires b > 0 && k > 0
    ensures b * k > 0 && (a * k) as real / (b * k) as real == a as real / b as real
  {
    assert (b * k) as real == b as real * k as real && (a * k) as real == a as real * k as real;
  }

  /** The scenario that fails 99% everywhere is excluded, the one that once succeeded is not. */
  lemma DilutedVerdict(k: nat, limits: Limits)
    requires k > 0
    ensures var ramp := [Diluted(1, k, 0), Diluted(2, k, 1)];
            VerdictAt(ramp, limits, 1).effectiveErrorRate == 1.0
  {
    var ramp := [Diluted(1, k, 0), Diluted(2, k, 1)];
    var always, loaded := ramp[1].scenarios[0], ramp[1].scenarios[1];
    assert (99 * k) as real / (100 * k) as real == 0.99 by {
      RatioOfMultiples(99, 100, k);
    }
    BrokenMeans(ramp, "always");
    BrokenMeans(ramp, "loaded");
    assert RanIn(ramp[0].scenarios, "always") by {
      assert ramp[0].scenarios[0].name == "always";
    }
    assert !AlwaysBadIn(ramp[0].scenarios, "loaded") by {
      assert ramp[0].scenarios[1].name == "loaded" && ramp[0].scenarios[1].errorRate == 0.0;
    }
    assert ramp[1].scenarios[..1] == [always] && [always][..0] == [];
    assert LoadOf([always], BrokenNames(ramp)) == Load(0, 0, always.requests);
  }

  lemma ReciprocalFits(k: real, room: real)
    requires room > 0.0 && k >= 1.0 / room
    ensures k * room >= 1.0
  {
    assert (k - 1.0 / room) * room >= 0.0;
    assert (1.0 / room) * room == 1.0;
  }

  /** Enough requests at 99% dilute one more failure below any budget above 99%. */
  lemma EnoughRequests(budget: real) returns (k: nat)
    requires budget > 0.99
    ensures k > 0
    ensures (99 * k + 1) as real / (100 * k + 1) as real <= budget
    ensures (99 * k) as real / (100 * k + 1) as real <= budget
  {
    var room := 100.0 * budget - 99.0;
    k := (1.0 / room).Floor + 1;
    ReciprocalFits(k as real, room);
    var requests := (100 * k + 1) as real;
    assert budget * requests == k as real * (100.0 * budget) + budget;
  }

  lemma SafeExplains(ramp: seq<Stage>, limits: Limits)
    requires MeasuredRamp(ramp) && SafeBudget(limits.errorBudget)
    ensures Explained(ramp, limits)
  {
    forall i | 0 <= i < |ramp| && Counted(ramp[i]) && Breaches(VerdictAt(ramp, limits, i), limits)
      ensures exists service :: ServiceOver(ramp[i], service, limits)
    {
      StageBreachHasServiceBreach(ramp, limits, i);
    }
  }

  /**
   * The error budgets for which breaching stages always have breaching services are exactly those
   * up to 99% and those from 100%: in between, requests of an excluded scenario can dilute a
   * service's rate below the budget.
   */
  lemma ExplainedIffSafeBudget(limits: Limits)
    requires limits.latencySLO >= 0
    ensures (forall ramp :: MeasuredRamp(ramp) ==> Explained(ramp, limits)) <==> SafeBudget(limits.errorBudget)
  {
    if SafeBudget(limits.errorBudget) {
      forall ramp | MeasuredRamp(ramp) ensures Explained(ramp, limits) {
        SafeExplains(ramp, limits);
      }
    } else {
      var ramp, k := UnexplainedRamp(limits);
      assert MeasuredRamp(ramp) && !Explained(ramp, limits);
    }
  }

  /** The failing input, in which moreover no service breaches at any level. */
  lemma UnexplainedRamp(limits: Limits) returns (ramp: seq<Stage>, k: nat)
    requires limits.latencySLO >= 0 && !SafeBudget(limits.errorBudget)
    ensures k > 0 && ramp == [Diluted(1, k, 0), Diluted(2, k, 1)]
    ensures MeasuredRamp(ramp) && !Explained(ramp, limits)
    ensures forall i, service :: 0 <= i < |ramp| ==> !ServiceOver(ramp[i], service, limits)
  {
    k := EnoughRequests(limits.errorBudget);
    ramp := [Diluted(1, k, 0), Diluted(2, k, 1)];
    DilutedIsMeasured(1, k, 0);
    DilutedIsMeasured(2, k, 1);
    forall service ensures !ServiceOver(ramp[0], service, limits) && !ServiceOver(ramp[1], service, limits) {
      DilutedServiceWithin(1, k, 0, limits, service);
      DilutedServiceWithin(2, k, 1, limits, service);
    }
    DilutedVerdict(k, limits);
    assert Counted(ramp[1]) && Breaches(VerdictAt(ramp, limits, 1), limits);
  }
}
