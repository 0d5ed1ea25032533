/**
 * internal/perf analysis: broken scenarios, per-service capacity and the stage-level verdict of
 * a concurrency ramp.
 */
module Capacity {
  import opened Wrappers
  import opened Recorder

  const BROKEN_RATE := 0.99

  datatype Limits = Limits(errorBudget: real, latencySLO: int)

  datatype Stage = Stage(
    concurrency: int, total: ScenarioStats, scenarios: seq<ScenarioStats>,
    effectiveErrorRate: real, brokenRequests: int, saturated: bool)

  datatype ServiceStage = ServiceStage(
    concurrency: int, requests: int, failures: int, errorRate: real, latency: LatencyStats)

  function Max(a: int, b: int): int {
    if b > a then b else a
  }

  // ----- Scenarios broken for the whole run.

  datatype Tally = Tally(stages: int, badStages: int)

  function TallyOne(totals: map<string, Tally>, s: ScenarioStats): map<string, Tally> {
    if s.requests == 0 then totals
    else
      var t := if s.name in totals then totals[s.name] else Tally(0, 0);
      totals[s.name := Tally(t.stages + 1, t.badStages + if s.errorRate >= BROKEN_RATE then 1 else 0)]
  }

  function TallyScenarios(totals: map<string, Tally>, scenarios: seq<ScenarioStats>): map<string, Tally> {
    if scenarios == [] then totals
    else TallyOne(TallyScenarios(totals, scenarios[..|scenarios| - 1]), scenarios[|scenarios| - 1])
  }

  function TallyStages(stages: seq<Stage>): map<string, Tally> {
    if stages == [] then map[]
    else TallyScenarios(TallyStages(stages[..|stages| - 1]), stages[|stages| - 1].scenarios)
  }

  function BrokenNames(stages: seq<Stage>): set<string> {
    var totals := TallyStages(stages);
    set name | name in totals && totals[name].stages != 0 && totals[name].badStages == totals[name].stages
  }

  method DetectBrokenScenarios(stages: seq<Stage>) returns (broken: set<string>)
    ensures broken == BrokenNames(stages)
  {
    var totals: map<string, Tally> := map[];
    for i := 0 to |stages|
      invariant totals == TallyStages(stages[..i])
    {
      var scenarios := stages[i].scenarios;
      for k := 0 to |scenarios|
        invariant totals == TallyScenarios(TallyStages(stages[..i]), scenarios[..k])
      {
        assert scenarios[..k + 1][..k] == scenarios[..k];
        var s := scenarios[k];
        if s.requests != 0 {
          var t := if s.name in totals then totals[s.name] else Tally(0, 0);
          totals := totals[s.name := Tally(t.stages + 1, t.badStages + if s.errorRate >= BROKEN_RATE then 1 else 0)];
        }
      }
      assert scenarios[..|scenarios|] == scenarios;
      assert stages[..i + 1][..i] == stages[..i];
    }
    assert stages[..|stages|] == stages;
    broken := set name | name in totals && totals[name].stages != 0 && totals[name].badStages == totals[name].stages;
  }

  ghost predicate TallyMeans(totals: map<string, Tally>, name: string, ran: bool, alwaysBad: bool) {
    && (name in totals <==> ran)
    && (name in totals ==> 0 < totals[name].stages && totals[name].badStages <= totals[name].stages
                           && (totals[name].badStages == totals[name].stages <==> alwaysBad))
  }

  ghost predicate RanIn(scenarios: seq<ScenarioStats>, name: string) {
    exists k :: 0 <= k < |scenarios| && scenarios[k].name == name && scenarios[k].requests != 0
  }

  ghost predicate AlwaysBadIn(scenarios: seq<ScenarioStats>, name: string) {
    forall k :: 0 <= k < |scenarios| && scenarios[k].name == name && scenarios[k].requests != 0
      ==> scenarios[k].errorRate >= BROKEN_RATE
  }

  lemma {:induction false} TallyScenariosMeans(
      totals: map<string, Tally>, scenarios: seq<ScenarioStats>, name: string, ran: bool, bad: bool)
    requires TallyMeans(totals, name, ran, bad) && (!ran ==> bad)
    ensures TallyMeans(TallyScenarios(totals, scenarios), name,
                       ran || RanIn(scenarios, name), bad && AlwaysBadIn(scenarios, name))
    decreases |scenarios|
  {
    if scenarios != [] {
      var before, last := scenarios[..|scenarios| - 1], scenarios[|scenarios| - 1];
      TallyScenariosMeans(totals, before, name, ran, bad);
      var here := last.name == name && last.requests != 0;
      assert RanIn(scenarios, name) <==> RanIn(before, name) || here by {
        if k :| 0 <= k < |before| && before[k].name == name && before[k].requests != 0 {
          assert scenarios[k] == before[k];
        }
      }
      assert AlwaysBadIn(scenarios, name)
          <==> AlwaysBadIn(before, name) && (here ==> last.errorRate >= BROKEN_RATE) by {
        assert forall k :: 0 <= k < |before| ==> before[k] == scenarios[k];
      }
    }
  }

  ghost predicate RanSomewhere(stages: seq<Stage>, name: string) {
    exists i :: 0 <= i < |stages| && RanIn(stages[i].scenarios, name)
  }

  ghost predicate AlwaysBad(stages: seq<Stage>, name: string) {
    forall i :: 0 <= i < |stages| ==> AlwaysBadIn(stages[i].scenarios, name)
  }

  lemma StagesSnoc(before: seq<Stage>, last: Stage, name: string)
    ensures RanSomewhere(before + [last], name) <==> RanSomewhere(before, name) || RanIn(last.scenarios, name)
    ensures AlwaysBad(before + [last], name) <==> AlwaysBad(before, name) && AlwaysBadIn(last.scenarios, name)
    ensures RanSomewhere(before, name) || AlwaysBad(before, name)
  {
    var all := before + [last];
    assert all[|before|] == last && forall i :: 0 <= i < |before| ==> all[i] == before[i];
    if !RanSomewhere(before, name) {
      forall i | 0 <= i < |before| ensures AlwaysBadIn(before[i].scenarios, name) {
        assert !RanIn(before[i].scenarios, name);
      }
    }
  }

  lemma {:induction false} TallyStagesMeans(stages: seq<Stage>, name: string)
    ensures TallyMeans(TallyStages(stages), name, RanSomewhere(stages, name), AlwaysBad(stages, name))
    decreases |stages|
  {
    if stages != [] {
      var before, last := stages[..|stages| - 1], stages[|stages| - 1];
      assert stages == before + [last];
      TallyStagesMeans(before, name);
      StagesSnoc(before, last, name);
      TallyScenariosMeans(TallyStages(before), last.scenarios, name,
                          RanSomewhere(before, name), AlwaysBad(before, name));
    }
  }

  /** A scenario is broken exactly when it ran and failed almost everything in every stage it ran in. */
  lemma BrokenMeans(stages: seq<Stage>, name: string)
    ensures name in BrokenNames(stages) <==> RanSomewhere(stages, name) && AlwaysBad(stages, name)
  {
    TallyStagesMeans(stages, name);
  }

  // ----- The stage-level verdict.

  /** Requests and failures of the scenarios outside `broken`, and the requests inside it. */
  datatype Load = Load(requests: int, failures: int, broken: int)

  function LoadOf(scenarios: seq<ScenarioStats>, broken: set<string>): Load {
    if scenarios == [] then Load(0, 0, 0)
    else
      var before, last := LoadOf(scenarios[..|scenarios| - 1], broken), scenarios[|scenarios| - 1];
      if last.name in broken then before.(broken := before.broken + last.requests)
      else Load(before.requests + last.requests, before.failures + last.failures, before.broken)
  }

  function Annotated(stage: Stage, broken: set<string>, limits: Limits): Stage {
    var load := LoadOf(stage.scenarios, broken);
    var rate := if load.requests == 0 then stage.total.errorRate
                else load.failures as real / load.requests as real;
    stage.(effectiveErrorRate := rate, brokenRequests := load.broken,
           saturated := rate > limits.errorBudget || stage.total.latency.p95 > limits.latencySLO)
  }

  /** Writes the verdict of every stage in place. */
  method AnnotateStages(stages: array<Stage>, broken: set<string>, limits: Limits)
    modifies stages
    ensures forall i :: 0 <= i < stages.Length ==> stages[i] == Annotated(old(stages[i]), broken, limits)
  {
    for i := 0 to stages.Length
      invariant forall k :: 0 <= k < i ==> stages[k] == Annotated(old(stages[k]), broken, limits)
      invariant forall k :: i <= k < stages.Length ==> stages[k] == old(stages[k])
    {
      var stage := stages[i];
      var requests, failures, skipped := 0, 0, 0;
      for k := 0 to |stage.scenarios|
        invariant Load(requests, failures, skipped) == LoadOf(stage.scenarios[..k], broken)
      {
        assert stage.scenarios[..k + 1][..k] == stage.scenarios[..k];
        var s := stage.scenarios[k];
        if s.name in broken {
          skipped := skipped + s.requests;
        } else {
          requests, failures := requests + s.requests, failures + s.failures;
        }
      }
      assert stage.scenarios[..|stage.scenarios|] == stage.scenarios;
      var rate := if requests == 0 then stage.total.errorRate else failures as real / requests as real;
      stages[i] := stage.(effectiveErrorRate := rate, brokenRequests := skipped,
                          saturated := rate > limits.errorBudget || stage.total.latency.p95 > limits.latencySLO);
    }
  }

  predicate Breaches(stage: Stage, limits: Limits) {
    stage.effectiveErrorRate > limits.errorBudget || stage.total.latency.p95 > limits.latencySLO
  }

  predicate Counted(stage: Stage) {
    stage.total.requests != 0
  }

  /** Both limits hold of the stage as it is reported. */
  predicate InLimits(stage: Stage, limits: Limits) {
    stage.effectiveErrorRate <= limits.errorBudget && stage.total.latency.p95 <= limits.latencySLO
  }

  /** The first stage with requests that is over a limit. */
  ghost predicate FirstOver(stages: seq<Stage>, limits: Limits, i: int) {
    && 0 <= i < |stages| && stages[i].total.requests != 0 && !InLimits(stages[i], limits)
    && forall k :: 0 <= k < i && stages[k].total.requests != 0 ==> InLimits(stages[k], limits)
  }

  /** From this place on, every stage with requests is at or past one over a limit. */
  ghost predicate OverFrom(stages: seq<Stage>, limits: Limits, from: int) {
    forall k :: from <= k < |stages| && 0 <= k && stages[k].total.requests != 0 ==> OverBy(stages, limits, k)
  }

  ghost predicate OverBy(stages: seq<Stage>, limits: Limits, k: int) {
    exists m :: m <= k && FirstOver(stages, limits, m)
  }

  /** The last stage with requests before the first that is over a limit, if there is one. */
  ghost predicate LastInLimits(stages: seq<Stage>, limits: Limits, i: int) {
    && 0 <= i < |stages| && stages[i].total.requests != 0
    && (forall k :: 0 <= k <= i && stages[k].total.requests != 0 ==> InLimits(stages[k], limits))
    && OverFrom(stages, limits, i + 1)
  }

  function FirstBreachOf(stages: seq<Stage>, limits: Limits): Option<int> {
    if stages == [] then None
    else if Counted(stages[0]) && Breaches(stages[0], limits) then Some(stages[0].concurrency)
    else FirstBreachOf(stages[1..], limits)
  }

  function RecommendedOf(stages: seq<Stage>, limits: Limits): Option<int> {
    if stages == [] then None
    else if !Counted(stages[0]) then RecommendedOf(stages[1..], limits)
    else if Breaches(stages[0], limits) then None
    else match RecommendedOf(stages[1..], limits)
      case None => Some(stages[0].concurrency)
      case Some(higher) => Some(higher)
  }

  lemma {:induction false} FirstBreachIsFirst(stages: seq<Stage>, limits: Limits)
    ensures FirstBreachOf(stages, limits) == None <==>
              forall k :: 0 <= k < |stages| && stages[k].total.requests != 0 ==> InLimits(stages[k], limits)
    ensures FirstBreachOf(stages, limits) != None ==>
              exists i :: FirstOver(stages, limits, i) && FirstBreachOf(stages, limits) == Some(stages[i].concurrency)
  {
    if stages != [] {
      if Counted(stages[0]) && Breaches(stages[0], limits) {
        assert FirstOver(stages, limits, 0);
      } else {
        var rest := stages[1..];
        FirstBreachIsFirst(rest, limits);
        assert forall k :: 0 < k < |stages| ==> stages[k] == rest[k - 1];
        if i :| FirstOver(rest, limits, i) && FirstBreachOf(rest, limits) == Some(rest[i].concurrency) {
          assert FirstOver(stages, limits, i + 1);
        } else {
          assert forall k :: 0 <= k < |rest| ==> rest[k] == stages[k + 1];
        }
      }
    }
  }

  lemma {:induction false} RecommendedIsLast(stages: seq<Stage>, limits: Limits)
    ensures RecommendedOf(stages, limits) == None ==> OverFrom(stages, limits, 0)
    ensures RecommendedOf(stages, limits) != None ==>
              exists i :: LastInLimits(stages, limits, i)
                       && RecommendedOf(stages, limits) == Some(stages[i].concurrency)
  {
    if stages != [] {
      var rest := stages[1..];
      RecommendedIsLast(rest, limits);
      if Counted(stages[0]) && Breaches(stages[0], limits) {
        assert FirstOver(stages, limits, 0);
      } else if RecommendedOf(rest, limits) == None {
        OverFromLater(stages, limits, 0);
        assert Counted(stages[0]) ==> LastInLimits(stages, limits, 0);
      } else {
        var i :| LastInLimits(rest, limits, i) && RecommendedOf(rest, limits) == Some(rest[i].concurrency);
        OverFromLater(stages, limits, i + 1);
        assert forall k :: 0 < k < |stages| ==> stages[k] == rest[k - 1];
        assert LastInLimits(stages, limits, i + 1);
      }
    }
  }

  /** A first stage within the limits, or without requests, puts all the others one place later. */
  lemma {:induction false} OverFromLater(stages: seq<Stage>, limits: Limits, from: nat)
    requires stages != [] && (stages[0].total.requests != 0 ==> InLimits(stages[0], limits))
    requires OverFrom(stages[1..], limits, from)
    ensures OverFrom(stages, limits, from + 1)
  {
    var rest := stages[1..];
    forall k | from + 1 <= k < |stages| && stages[k].total.requests != 0 ensures OverBy(stages, limits, k) {
      assert rest[k - 1] == stages[k] && OverBy(rest, limits, k - 1);
      var m :| m <= k - 1 && FirstOver(rest, limits, m);
      OverLater(stages, limits, m);
    }
  }

  lemma {:induction false} OverLater(stages: seq<Stage>, limits: Limits, m: int)
    requires stages != [] && FirstOver(stages[1..], limits, m)
    requires stages[0].total.requests != 0 ==> InLimits(stages[0], limits)
    ensures FirstOver(stages, limits, m + 1)
  {
    assert forall k :: 0 < k < |stages| ==> stages[k] == stages[1..][k - 1];
  }

  /** Of annotated stages the first breach is the first with requests that is marked saturated. */
  lemma {:induction false} FirstBreachIsSaturated(
      plain: seq<Stage>, stages: seq<Stage>, broken: set<string>, limits: Limits)
    requires |stages| == |plain|
    requires forall i :: 0 <= i < |stages| ==> stages[i] == Annotated(plain[i], broken, limits)
    ensures FirstBreachOf(stages, limits) == None <==>
              forall i :: 0 <= i < |stages| && stages[i].total.requests != 0 ==> !stages[i].saturated
    ensures FirstBreachOf(stages, limits) != None ==>
              exists i :: 0 <= i < |stages| && stages[i].total.requests != 0 && stages[i].saturated
                       && FirstBreachOf(stages, limits) == Some(stages[i].concurrency)
                       && forall k :: 0 <= k < i && stages[k].total.requests != 0 ==> !stages[k].saturated
  {
    FirstBreachIsFirst(stages, limits);
    assert forall i :: 0 <= i < |stages| ==> (stages[i].saturated <==> !InLimits(stages[i], limits));
  }

  /** The two verdict fields of the analysis that the find methods set. */
  class Analysis {
    var recommended: Option<int>
    var firstBreach: Option<int>

    constructor ()
      ensures recommended == None && firstBreach == None
    {
      recommended, firstBreach := None, None;
    }

    method FindRecommended(stages: seq<Stage>, limits: Limits)
      requires recommended == None
      modifies `recommended
      ensures recommended == RecommendedOf(stages, limits)
      ensures recommended == None ==> OverFrom(stages, limits, 0)
      ensures recommended != None ==>
                exists i :: LastInLimits(stages, limits, i) && recommended == Some(stages[i].concurrency)
    {
      RecommendedIsLast(stages, limits);
      for i := 0 to |stages|
        invariant RecommendedOf(stages, limits)
               == match RecommendedOf(stages[i..], limits)
                  case None => recommended
                  case Some(higher) => Some(higher)
      {
        var stage := stages[i];
        assert stages[i..][1..] == stages[i + 1..];
        if Counted(stage) {
          if Breaches(stage, limits) {
            break;
          }
          recommended := Some(stage.concurrency);
        }
      }
    }

    method FindFirstBreach(stages: seq<Stage>, limits: Limits)
      requires firstBreach == None
      modifies `firstBreach
      ensures firstBreach == FirstBreachOf(stages, limits)
      ensures firstBreach == None <==>
                forall k :: 0 <= k < |stages| && stages[k].total.requests != 0 ==> InLimits(stages[k], limits)
      ensures firstBreach != None ==>
                exists i :: FirstOver(stages, limits, i) && firstBreach == Some(stages[i].concurrency)
    {
      FirstBreachIsFirst(stages, limits);
      for i := 0 to |stages|
        invariant firstBreach == None && FirstBreachOf(stages, limits) == FirstBreachOf(stages[i..], limits)
      {
        assert stages[i..][1..] == stages[i + 1..];
        if Counted(stages[i]) && Breaches(stages[i], limits) {
          firstBreach := Some(stages[i].concurrency);
          return;
        }
      }
    }
  }

  predicate ByConcurrency(stages: seq<Stage>) {
    forall i, j :: 0 <= i < j < |stages| ==> stages[i].concurrency <= stages[j].concurrency
  }

  /**
   * On an ordered ramp the recommendation is a level that passed, no higher than the first breach,
   * and no counted level between the two, or above it when nothing breached, was passed over.
   */
  lemma {:induction false} RecommendedBelowBreach(stages: seq<Stage>, limits: Limits)
    requires ByConcurrency(stages)
    ensures var r, b := RecommendedOf(stages, limits), FirstBreachOf(stages, limits);
            && (r.Some? ==> exists s :: s in stages && Counted(s) && InLimits(s, limits) && s.concurrency == r.value)
            && (b.Some? ==> exists s :: s in stages && Counted(s) && !InLimits(s, limits) && s.concurrency == b.value)
            && (r.Some? && b.Some? ==> r.value <= b.value)
            && (forall s :: s in stages && Counted(s) && (b.Some? ==> s.concurrency < b.value)
                  ==> InLimits(s, limits) && r.Some? && s.concurrency <= r.value)
    decreases |stages|
  {
    if stages != [] {
      var head, rest := stages[0], stages[1..];
      RecommendedBelowBreach(rest, limits);
      assert forall s :: s in stages <==> s == head || s in rest;
    }
  }

  // ----- Per-service capacity.

  /** The scenarios ServiceStages groups under a service. */
  predicate Loads(s: ScenarioStats, service: string) {
    s.service == service && service != "" && s.requests != 0
  }

  function GroupOf(concurrency: int, scenarios: seq<ScenarioStats>, service: string): Option<ServiceStage> {
    if scenarios == [] then None
    else
      var last := scenarios[|scenarios| - 1];
      var before := GroupOf(concurrency, scenarios[..|scenarios| - 1], service);
      if !Loads(last, service) then before
      else Some(AddScenario(before.GetOr(NewEntry(concurrency)), last))
  }

  function AddScenario(entry: ServiceStage, s: ScenarioStats): ServiceStage {
    entry.(requests := entry.requests + s.requests, failures := entry.failures + s.failures,
           latency := Worst(entry.latency, s.latency))
  }

  function NewEntry(concurrency: int): ServiceStage {
    ServiceStage(concurrency, 0, 0, 0.0, NO_LATENCY)
  }

  /** The worst of each quantile; the least is the smaller positive one, zero standing for none yet. */
  function Worst(a: LatencyStats, b: LatencyStats): LatencyStats {
    LatencyStats(if a.min == 0 || (b.min > 0 && b.min < a.min) then b.min else a.min,
                 Max(a.p50, b.p50), Max(a.p90, b.p90), Max(a.p95, b.p95), Max(a.p99, b.p99), Max(a.max, b.max))
  }

  /** One service's behaviour in one stage; None when it was not loaded. */
  function ServiceIn(stage: Stage, service: string): Option<ServiceStage> {
    match GroupOf(stage.concurrency, stage.scenarios, service)
    case None => None
    case Some(entry) =>
      Some(if entry.requests > 0 then entry.(errorRate := entry.failures as real / entry.requests as real) else entry)
  }

  method ServiceStages(stage: Stage) returns (grouped: map<string, ServiceStage>)
    ensures forall service :: service in grouped <==> ServiceIn(stage, service).Some?
    ensures forall service :: service in grouped ==> ServiceIn(stage, service) == Some(grouped[service])
  {
    grouped := map[];
    for i := 0 to |stage.scenarios|
      invariant forall service :: GroupOf(stage.concurrency, stage.scenarios[..i], service)
                  == if service in grouped then Some(grouped[service]) else None
    {
      var s := stage.scenarios[i];
      assert stage.scenarios[..i + 1][..i] == stage.scenarios[..i];
      if s.service != "" && s.requests != 0 {
        var entry := if s.service in grouped then grouped[s.service] else NewEntry(stage.concurrency);
        grouped := grouped[s.service := AddScenario(entry, s)];
      }
    }
    assert stage.scenarios[..|stage.scenarios|] == stage.scenarios;
    grouped := map service | service in grouped ::
      if grouped[service].requests > 0
      then grouped[service].(errorRate := grouped[service].failures as real / grouped[service].requests as real)
      else grouped[service];
  }

  predicate ServiceBreaches(s: ServiceStage, limits: Limits) {
    s.errorRate > limits.errorBudget || s.latency.p95 > limits.latencySLO
  }

  /** The verdict kept for one service; `breach` is the first level it breached at. */
  datatype ServiceCapacity = ServiceCapacity(service: string, totalRequests: int, breach: Option<int>)

  function Extend(entry: ServiceCapacity, s: ServiceStage, limits: Limits): ServiceCapacity {
    entry.(totalRequests := entry.totalRequests + s.requests,
           breach := if entry.breach.None? && ServiceBreaches(s, limits) then Some(s.concurrency) else entry.breach)
  }

  function CapacityOf(stages: seq<Stage>, service: string, limits: Limits): Option<ServiceCapacity> {
    if stages == [] then None
    else
      var before := CapacityOf(stages[..|stages| - 1], service, limits);
      match ServiceIn(stages[|stages| - 1], service)
      case None => before
      case Some(s) => Some(Extend(before.GetOr(ServiceCapacity(service, 0, None)), s, limits))
  }

  lemma {:induction false} CapacityStep(stages: seq<Stage>, i: nat, service: string, limits: Limits)
    requires i < |stages|
    ensures var before, now := CapacityOf(stages[..i], service, limits), CapacityOf(stages[..i + 1], service, limits);
            && (ServiceIn(stages[i], service).None? ==> now == before)
            && (ServiceIn(stages[i], service).Some? ==>
                  now == Some(Extend(before.GetOr(ServiceCapacity(service, 0, None)),
                                     ServiceIn(stages[i], service).value, limits)))
  {
    assert stages[..i + 1][..i] == stages[..i];
  }

  function Held<V>(m: map<string, V>, service: string): Option<V> {
    if service in m then Some(m[service]) else None
  }

  /** What one stage makes of the verdict kept for a service. */
  function Extended(
      capacities: map<string, ServiceCapacity>, grouped: map<string, ServiceStage>, service: string, limits: Limits)
    : Option<ServiceCapacity>
  {
    if service !in grouped then Held(capacities, service)
    else Some(Extend(Held(capacities, service).GetOr(ServiceCapacity(service, 0, None)), grouped[service], limits))
  }

  /** `ordered` is the sorted copy of the ramp. */
  method CompareServices(ordered: seq<Stage>, limits: Limits) returns (capacities: map<string, ServiceCapacity>)
    ensures forall service :: service in capacities <==> CapacityOf(ordered, service, limits).Some?
    ensures forall service :: service in capacities ==>
              CapacityOf(ordered, service, limits) == Some(capacities[service])
  {
    capacities := map[];
    for i := 0 to |ordered|
      invariant forall service :: CapacityOf(ordered[..i], service, limits) == Held(capacities, service)
    {
      ghost var before := capacities;
      var grouped := ServiceStages(ordered[i]);
      var pending := grouped.Keys;
      while pending != {}
        invariant pending <= grouped.Keys
        invariant forall service :: Held(capacities, service)
                    == if service in pending then Held(before, service) else Extended(before, grouped, service, limits)
        decreases |pending|
      {
        var service :| service in pending;
        var entry := if service in capacities then capacities[service] else ServiceCapacity(service, 0, None);
        capacities := capacities[service := Extend(entry, grouped[service], limits)];
        pending := pending - {service};
      }
      forall service ensures CapacityOf(ordered[..i + 1], service, limits) == Held(capacities, service) {
        CapacityStep(ordered, i, service, limits);
      }
    }
    assert ordered[..|ordered|] == ordered;
  }

  predicate LowestBreach(capacities: seq<ServiceCapacity>, n: nat, k: nat)
    requires n <= |capacities|
  {
    && k < n && capacities[k].breach.Some?
    && (forall j :: 0 <= j < n && capacities[j].breach.Some?
          ==> capacities[k].breach.value <= capacities[j].breach.value)
    && (forall j :: 0 <= j < k && capacities[j].breach.Some?
          ==> capacities[k].breach.value < capacities[j].breach.value)
  }

  /** The breached service with the lowest level, the first of them on a tie. */
  method WeakestService(capacities: seq<ServiceCapacity>) returns (weakest: Option<ServiceCapacity>)
    ensures weakest.None? <==> forall c :: c in capacities ==> c.breach.None?
    ensures weakest.Some? ==>
              exists k: nat :: LowestBreach(capacities, |capacities|, k) && weakest.value == capacities[k]
  {
    weakest := None;
    ghost var best := 0;
    for i := 0 to |capacities|
      invariant weakest.None? <==> forall k :: 0 <= k < i ==> capacities[k].breach.None?
      invariant weakest.Some? ==> LowestBreach(capacities, i, best) && weakest.value == capacities[best]
    {
      var c := capacities[i];
      if c.breach.Some? && (weakest.None? || c.breach.value < weakest.value.breach.value) {
        weakest := Some(c);
        best := i;
      }
    }
  }
}
