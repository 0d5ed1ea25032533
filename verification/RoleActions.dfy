/**
 * services/nopsai role actions: the depth-first walk over role inclusion, and the filter that
 * keeps the actions a resource type can carry.
 */
module RoleActions {
  import opened Text

  /** productRoleIncludes and productRoleDefinitions. */
  datatype Catalog = Catalog(includes: map<string, seq<string>>, definitions: map<string, seq<string>>)

  function RoleName(raw: string): string {
    ToLower(TrimSpace(raw))
  }

  function Included(cat: Catalog, role: string): seq<string> {
    if role in cat.includes then cat.includes[role] else []
  }

  ghost function Targets(included: seq<string>): set<string> {
    set raw | raw in included && RoleName(raw) != "" :: RoleName(raw)
  }

  /** The roles one inclusion step away; blank entries lead nowhere. */
  ghost function Successors(cat: Catalog, role: string): set<string> {
    Targets(Included(cat, role))
  }

  lemma TargetsStep(included: seq<string>, i: nat)
    requires i < |included|
    ensures Targets(included[..i + 1])
         == Targets(included[..i]) + if RoleName(included[i]) != "" then {RoleName(included[i])} else {}
  {
    assert included[..i + 1] == included[..i] + [included[i]];
    assert forall x :: x in included[..i + 1] <==> x in included[..i] || x == included[i];
  }

  ghost predicate Chain(cat: Catalog, path: seq<string>) {
    path != [] && forall i :: 0 <= i < |path| - 1 ==> path[i + 1] in Successors(cat, path[i])
  }

  ghost predicate ChainBetween(cat: Catalog, path: seq<string>, a: string, b: string) {
    Chain(cat, path) && path[0] == a && path[|path| - 1] == b
  }

  /** `b` is `a` or is included by it through any number of steps. */
  ghost predicate Reaches(cat: Catalog, a: string, b: string) {
    exists path :: ChainBetween(cat, path, a, b)
  }

  /** Every name a walk from `root` can meet: a finite set, whatever cycles there are. */
  ghost function Names(cat: Catalog, root: string): set<string> {
    {root} + set role, raw | role in cat.includes && raw in cat.includes[role] :: RoleName(raw)
  }

  ghost function NonBlank(declared: seq<string>): set<string> {
    set raw | raw in declared && TrimSpace(raw) != "" :: TrimSpace(raw)
  }

  ghost function OwnActions(cat: Catalog, role: string): set<string> {
    if role in cat.definitions then NonBlank(cat.definitions[role]) else {}
  }

  ghost function ActionsOf(cat: Catalog, roles: set<string>): set<string> {
    set role, action | role in roles && action in OwnActions(cat, role) :: action
  }

  ghost function ReachableRoles(cat: Catalog, root: string): set<string> {
    set role | role in Names(cat, root) && Reaches(cat, root, role)
  }

  /** What a role allows: the union over every role it reaches. */
  ghost function EffectiveActions(cat: Catalog, rawRole: string): set<string> {
    var role := RoleName(rawRole);
    if role == "" then {} else ActionsOf(cat, ReachableRoles(cat, role))
  }

  ghost predicate NoDuplicates(s: seq<string>) {
    forall i, j :: 0 <= i < j < |s| ==> s[i] != s[j]
  }

  ghost function Members(s: seq<string>): set<string> {
    set a | a in s
  }

  lemma NonBlankStep(declared: seq<string>, i: nat)
    requires i < |declared|
    ensures NonBlank(declared[..i + 1])
         == NonBlank(declared[..i]) + if TrimSpace(declared[i]) != "" then {TrimSpace(declared[i])} else {}
  {
    assert declared[..i + 1] == declared[..i] + [declared[i]];
    assert forall x :: x in declared[..i + 1] <==> x in declared[..i] || x == declared[i];
  }

  lemma OwnActionsAlone(cat: Catalog, role: string)
    ensures ActionsOf(cat, {role}) == OwnActions(cat, role)
  {
  }

  lemma ReachesSelf(cat: Catalog, a: string)
    ensures Reaches(cat, a, a)
  {
    assert ChainBetween(cat, [a], a, a);
  }

  lemma ReachesStep(cat: Catalog, a: string, b: string, c: string)
    requires Reaches(cat, a, b) && c in Successors(cat, b)
    ensures Reaches(cat, a, c)
  {
    var path :| ChainBetween(cat, path, a, b);
    assert ChainBetween(cat, path + [c], a, c);
  }

  lemma {:induction false} ReachesTransitive(cat: Catalog, a: string, b: string, c: string)
    requires Reaches(cat, a, b) && Reaches(cat, b, c)
    ensures Reaches(cat, a, c)
  {
    var path :| ChainBetween(cat, path, b, c);
    ReachesAlong(cat, a, path);
  }

  lemma {:induction false} ReachesAlong(cat: Catalog, a: string, path: seq<string>)
    requires Chain(cat, path) && Reaches(cat, a, path[0])
    ensures Reaches(cat, a, path[|path| - 1])
    decreases |path|
  {
    if |path| > 1 {
      ReachesStep(cat, a, path[0], path[1]);
      ReachesAlong(cat, a, path[1..]);
    }
  }

  /** A set closed under inclusion contains everything reachable from its members. */
  lemma {:induction false} ClosedContains(cat: Catalog, closed: set<string>, path: seq<string>)
    requires Chain(cat, path) && path[0] in closed
    requires forall role :: role in closed ==> Successors(cat, role) <= closed
    ensures path[|path| - 1] in closed
    decreases |path|
  {
    if |path| > 1 {
      ClosedContains(cat, closed, path[1..]);
    }
  }

  lemma ReachedIsNamed(cat: Catalog, root: string, role: string)
    requires Reaches(cat, root, role)
    ensures role in Names(cat, root)
  {
    var path :| ChainBetween(cat, path, root, role);
    if |path| > 1 {
      assert path[|path| - 2 + 1] in Successors(cat, path[|path| - 2]);
    }
  }

  /** The variables the recursive closure of effectiveProductRoleActions captures. */
  class ActionWalk {
    const cat: Catalog
    const root: string
    var visited: set<string>
    var seen: set<string>
    var actions: seq<string>

    constructor (cat: Catalog, root: string)
      ensures this.cat == cat && this.root == root
      ensures visited == {} && seen == {} && actions == []
    {
      this.cat, this.root := cat, root;
      visited, seen, actions := {}, {}, [];
    }

    ghost predicate Valid()
      reads this
    {
      seen == Members(actions) && NoDuplicates(actions)
    }

    /** The roles of `done` are reachable and all they include lies within `within`. */
    ghost predicate Explored(done: set<string>, within: set<string>) {
      forall role :: role in done ==> Successors(cat, role) <= within && Reaches(cat, root, role)
    }

    /** Visits a role after everything it includes. */
    method Visit(rawRole: string)
      requires Valid()
      requires RoleName(rawRole) != "" ==> Reaches(cat, root, RoleName(rawRole))
      modifies this
      ensures Valid() && old(visited) <= visited
      ensures if RoleName(rawRole) != "" then RoleName(rawRole) in visited else visited == old(visited)
      ensures Explored(visited - old(visited), visited)
      ensures seen == old(seen) + ActionsOf(cat, visited - old(visited))
      decreases Names(cat, root) - visited, 0
    {
      var current := RoleName(rawRole);
      if current == "" || current in visited {
        assert visited - old(visited) == {};
        return;
      }
      ReachedIsNamed(cat, root, current);
      visited := visited + {current};
      ghost var entered := visited;
      VisitIncluded(current);
      AddOwnActions(current);
      OwnActionsAlone(cat, current);
      assert (visited - entered) + {current} == visited - old(visited);
    }

    lemma ExploredMore(start: set<string>, before: set<string>, now: set<string>)
      requires start <= before <= now
      requires Explored(before - start, before) && Explored(now - before, now)
      ensures Explored(now - start, now)
      ensures ActionsOf(cat, now - start) == ActionsOf(cat, before - start) + ActionsOf(cat, now - before)
    {
      assert now - start == (before - start) + (now - before);
    }

    /** The inclusion loop of a visit. */
    method VisitIncluded(current: string)
      requires Valid() && current in visited
      requires Reaches(cat, root, current)
      modifies this
      ensures Valid() && old(visited) <= visited
      ensures Successors(cat, current) <= visited
      ensures Explored(visited - old(visited), visited)
      ensures seen == old(seen) + ActionsOf(cat, visited - old(visited))
      decreases Names(cat, root) - visited, 1
    {
      var included := Included(cat, current);
      ghost var start := visited;
      for i := 0 to |included|
        invariant Valid() && start <= visited
        invariant Targets(included[..i]) <= visited
        invariant Explored(visited - start, visited)
        invariant seen == old(seen) + ActionsOf(cat, visited - start)
      {
        TargetsStep(included, i);
        if RoleName(included[i]) != "" {
          ReachesStep(cat, root, current, RoleName(included[i]));
        }
        ghost var before := visited;
        Visit(included[i]);
        ExploredMore(start, before, visited);
      }
      assert included[..|included|] == included;
    }

    /** The action loop at the end of a visit: trims, skips blanks and repeats. */
    method AddOwnActions(current: string)
      requires Valid()
      modifies `seen, `actions
      ensures Valid() && seen == old(seen) + OwnActions(cat, current)
    {
      if current !in cat.definitions {
        return;
      }
      var declared := cat.definitions[current];
      for i := 0 to |declared|
        invariant Valid()
        invariant seen == old(seen) + NonBlank(declared[..i])
      {
        NonBlankStep(declared, i);
        var action := TrimSpace(declared[i]);
        if action != "" && action !in seen {
          seen := seen + {action};
          actions := actions + [action];
        }
      }
      assert declared[..|declared|] == declared;
    }
  }

  /**
   * The walk ends on any inclusion graph and returns, once each, exactly the actions of the
   * roles reachable from the start.
   */
  method EffectiveProductRoleActions(cat: Catalog, rawRole: string) returns (actions: seq<string>)
    ensures NoDuplicates(actions)
    ensures Members(actions) == EffectiveActions(cat, rawRole)
  {
    var root := RoleName(rawRole);
    var walk := new ActionWalk(cat, root);
    RoleNameStable(rawRole);
    ReachesSelf(cat, root);
    walk.Visit(root);
    assert walk.visited - {} == walk.visited;
    if root != "" {
      WalkedIsReachable(cat, root, walk.visited);
    }
    return walk.actions;
  }

  lemma RoleNameStable(raw: string)
    ensures RoleName(RoleName(raw)) == RoleName(raw)
  {
    ToLowerStable(TrimSpace(raw));
  }

  lemma WalkedIsReachable(cat: Catalog, root: string, visited: set<string>)
    requires root in visited
    requires forall role :: role in visited ==> Successors(cat, role) <= visited && Reaches(cat, root, role)
    ensures visited == ReachableRoles(cat, root)
  {
    forall role | role in visited ensures role in ReachableRoles(cat, root) {
      ReachedIsNamed(cat, root, role);
    }
    forall role | role in ReachableRoles(cat, root) ensures role in visited {
      var path :| ChainBetween(cat, path, root, role);
      ClosedContains(cat, visited, path);
    }
  }

  /** The prefixes of the actions a resource type carries; a team carries all but three families. */
  function CarriedPrefixes(resourceType: string): seq<string> {
    match resourceType
    case "pipeline" => ["pipeline.", "pipeline_run."]
    case "pipeline_run" => ["pipeline_run."]
    case "pipeline_schedule" => ["pipeline_schedule."]
    case "repository" => ["repository.", "trigger.", "secret.", "variable.", "pipeline_run."]
    case "scope" => ["scope.", "secret.", "variable.", "pipeline_run."]
    case "secret" => ["secret."]
    case "variable" => ["variable."]
    case "trigger" => ["trigger."]
    case "external_trigger" => ["external_trigger."]
    case "git_webhook_source" => ["git_webhook_source."]
    case "step" => ["step."]
    case "runner" => ["runner."]
    case "config_repo" => ["config_repo."]
    case "dashboard" => ["dashboard."]
    case "knowledge_context" => ["knowledge_context."]
    case "knowledge_connection" => ["knowledge_connection."]
    case "model" => ["model."]
    case "agent_role" => ["agent_role."]
    case "mcp_server" => ["mcp_server."]
    case "mcp_profile" => ["mcp_profile."]
    case "credential" => ["credential."]
    case _ => []
  }

  predicate ActionApplies(rawAction: string, rawType: string) {
    var action, resourceType := TrimSpace(rawAction), TrimSpace(rawType);
    if action == "*" then resourceType == "platform"
    else if resourceType == "team" then
      !("iam." <= action) && !("audit." <= action) && !("system." <= action)
    else exists prefix :: prefix in CarriedPrefixes(resourceType) && prefix <= action
  }

  /** The resource types that carry the actions of their own family only. */
  const PLAIN_TYPES := {
    "pipeline_run", "pipeline_schedule", "secret", "variable", "trigger", "external_trigger", "git_webhook_source",
    "step", "runner", "config_repo", "dashboard", "knowledge_context", "knowledge_connection", "model", "agent_role",
    "mcp_server", "mcp_profile", "credential"
  }

  lemma PlainTypeCarriesItself(resourceType: string)
    requires resourceType in PLAIN_TYPES
    ensures CarriedPrefixes(resourceType) == [resourceType + "."]
  {
    match resourceType
    case "pipeline_run" => assert "pipeline_run" + "." == "pipeline_run.";
    case "pipeline_schedule" => assert "pipeline_schedule" + "." == "pipeline_schedule.";
    case "secret" => assert "secret" + "." == "secret.";
    case "variable" => assert "variable" + "." == "variable.";
    case "trigger" => assert "trigger" + "." == "trigger.";
    case "external_trigger" => assert "external_trigger" + "." == "external_trigger.";
    case "git_webhook_source" => assert "git_webhook_source" + "." == "git_webhook_source.";
    case "step" => assert "step" + "." == "step.";
    case "runner" => assert "runner" + "." == "runner.";
    case "config_repo" => assert "config_repo" + "." == "config_repo.";
    case "dashboard" => assert "dashboard" + "." == "dashboard.";
    case "knowledge_context" => assert "knowledge_context" + "." == "knowledge_context.";
    case "knowledge_connection" => assert "knowledge_connection" + "." == "knowledge_connection.";
    case "model" => assert "model" + "." == "model.";
    case "agent_role" => assert "agent_role" + "." == "agent_role.";
    case "mcp_server" => assert "mcp_server" + "." == "mcp_server.";
    case "mcp_profile" => assert "mcp_profile" + "." == "mcp_profile.";
    case "credential" => assert "credential" + "." == "credential.";
  }

  lemma PrefixIsFamily(p: string, family: string, verb: string)
    requires '.' !in p && '.' !in family
    ensures p + "." <= family + "." + verb <==> p == family
  {
    var prefix, action := p + ".", family + "." + verb;
    if prefix <= action {
      assert prefix[|p|] == action[|p|] && action[|family|] == '.';
      assert forall i :: 0 <= i < |p| ==> prefix[i] == action[i];
      assert p == action[..|p|] && family == action[..|family|];
    }
  }

  /** The families of actions a resource type carries, a team aside. */
  function FamiliesOf(resourceType: string): seq<string> {
    if resourceType in PLAIN_TYPES then [resourceType]
    else if resourceType == "pipeline" then ["pipeline", "pipeline_run"]
    else if resourceType == "repository" then ["repository", "trigger", "secret", "variable", "pipeline_run"]
    else if resourceType == "scope" then ["scope", "secret", "variable", "pipeline_run"]
    else []
  }

  /** The prefixes are those of the families. */
  ghost predicate PrefixesOf(prefixes: seq<string>, families: seq<string>) {
    |prefixes| == |families|
    && forall i :: 0 <= i < |families| ==> prefixes[i] == families[i] + "." && '.' !in families[i]
  }

  lemma PlainTypeHasNoDot(resourceType: string)
    requires resourceType in PLAIN_TYPES
    ensures '.' !in resourceType
  {
  }

  lemma CarriedAreFamilies(resourceType: string)
    ensures PrefixesOf(CarriedPrefixes(resourceType), FamiliesOf(resourceType))
  {
    if resourceType in PLAIN_TYPES {
      PlainTypeCarriesItself(resourceType);
      PlainTypeHasNoDot(resourceType);
    }
  }

  lemma FamilyHasPrefix(prefixes: seq<string>, families: seq<string>, family: string, verb: string)
    requires PrefixesOf(prefixes, families) && '.' !in family
    ensures (exists prefix :: prefix in prefixes && prefix <= family + "." + verb) <==> family in families
  {
    if prefix :| prefix in prefixes && prefix <= family + "." + verb {
      var i :| 0 <= i < |prefixes| && prefixes[i] == prefix;
      PrefixIsFamily(families[i], family, verb);
    }
    if i :| 0 <= i < |families| && families[i] == family {
      PrefixIsFamily(families[i], family, verb);
      assert prefixes[i] in prefixes;
    }
  }

  /**
   * An action is carried by a team unless it is of one of the three families kept from teams, and
   * by another resource type when it is of one of the type's families.
   */
  lemma FamilyApplies(family: string, verb: string, resourceType: string)
    requires family != "" && '.' !in family && verb != "" && Trimmed(family + "." + verb) && Trimmed(resourceType)
    ensures ActionApplies(family + "." + verb, resourceType)
       <==> if resourceType == "team" then family !in {"iam", "audit", "system"} else family in FamiliesOf(resourceType)
  {
    assert |family + "." + verb| > |"*"|;
    if resourceType == "team" {
      KeptFromTeams(family, verb);
    } else {
      CarriedAreFamilies(resourceType);
      FamilyHasPrefix(CarriedPrefixes(resourceType), FamiliesOf(resourceType), family, verb);
    }
  }

  lemma KeptFromTeams(family: string, verb: string)
    requires '.' !in family
    ensures var action := family + "." + verb;
            "iam." <= action || "audit." <= action || "system." <= action <==> family in {"iam", "audit", "system"}
  {
    PrefixIsFamily("iam", family, verb);
    PrefixIsFamily("audit", family, verb);
    PrefixIsFamily("system", family, verb);
    assert "iam" + "." == "iam." && "audit" + "." == "audit." && "system" + "." == "system.";
  }

  /** The wildcard is for the platform and the platform for the wildcard; white space does not matter. */
  lemma WildcardApplies(rawAction: string, rawType: string)
    ensures TrimSpace(rawAction) == "*" ==> (ActionApplies(rawAction, rawType) <==> TrimSpace(rawType) == "platform")
    ensures TrimSpace(rawAction) != "*" && TrimSpace(rawType) == "platform" ==> !ActionApplies(rawAction, rawType)
    ensures ActionApplies(rawAction, rawType) <==> ActionApplies(TrimSpace(rawAction), TrimSpace(rawType))
  {
  }

  // ----- What a role allows, without the functions that compute it.

  /** A chain of inclusions from the role as written, blank entries left out. */
  ghost predicate Includes(cat: Catalog, path: seq<string>, rawRole: string) {
    && path != [] && path[0] == ToLower(TrimSpace(rawRole)) && path[0] != ""
    && forall i :: 0 <= i < |path| - 1 ==> IncludesNext(cat, path[i], path[i + 1])
  }

  ghost predicate IncludesNext(cat: Catalog, role: string, next: string) {
    role in cat.includes && exists raw :: raw in cat.includes[role] && ToLower(TrimSpace(raw)) == next != ""
  }

  ghost predicate Declares(cat: Catalog, role: string, action: string) {
    role in cat.definitions && exists raw :: raw in cat.definitions[role] && TrimSpace(raw) == action != ""
  }

  lemma IncludesIsChain(cat: Catalog, path: seq<string>, rawRole: string)
    ensures Includes(cat, path, rawRole) <==> Chain(cat, path) && path[0] == RoleName(rawRole) != ""
  {
    forall role, next ensures IncludesNext(cat, role, next) <==> next in Successors(cat, role) {
    }
  }

  /** A role's actions are those some role at the end of a chain of inclusions declares. */
  lemma EffectiveMeans(cat: Catalog, rawRole: string, action: string)
    ensures action in EffectiveActions(cat, rawRole)
       <==> exists path :: Includes(cat, path, rawRole) && Declares(cat, path[|path| - 1], action)
  {
    var root := RoleName(rawRole);
    if action in EffectiveActions(cat, rawRole) {
      var role :| role in ReachableRoles(cat, root) && action in OwnActions(cat, role);
      var path :| ChainBetween(cat, path, root, role);
      IncludesIsChain(cat, path, rawRole);
      assert Declares(cat, path[|path| - 1], action);
    }
    if path :| Includes(cat, path, rawRole) && Declares(cat, path[|path| - 1], action) {
      IncludesIsChain(cat, path, rawRole);
      var role := path[|path| - 1];
      assert ChainBetween(cat, path, root, role);
      ReachedIsNamed(cat, root, role);
      assert role in ReachableRoles(cat, root) && action in OwnActions(cat, role);
    }
  }

  ghost function ApplicableActions(cat: Catalog, rawRole: string, resourceType: string): set<string> {
    if RoleName(rawRole) !in cat.definitions then {}
    else set a | a in EffectiveActions(cat, rawRole) && ActionApplies(a, resourceType)
  }

  /** An applicable action of a defined role is one that it declares, itself or by inclusion, and the type carries. */
  lemma ApplicableMeans(cat: Catalog, rawRole: string, resourceType: string, action: string)
    ensures action in ApplicableActions(cat, rawRole, resourceType)
       <==> && ToLower(TrimSpace(rawRole)) in cat.definitions && ActionApplies(action, resourceType)
            && exists path :: Includes(cat, path, rawRole) && Declares(cat, path[|path| - 1], action)
  {
    EffectiveMeans(cat, rawRole, action);
  }

  ghost function AppliedPart(candidates: seq<string>, resourceType: string): set<string> {
    set a | a in candidates && ActionApplies(a, resourceType)
  }

  lemma AppliedStep(candidates: seq<string>, resourceType: string, i: nat)
    requires i < |candidates|
    ensures AppliedPart(candidates[..i + 1], resourceType)
         == AppliedPart(candidates[..i], resourceType)
            + if ActionApplies(candidates[i], resourceType) then {candidates[i]} else {}
  {
    assert candidates[..i + 1] == candidates[..i] + [candidates[i]];
    assert forall x :: x in candidates[..i + 1] <==> x in candidates[..i] || x == candidates[i];
  }

  lemma AppliedAll(cat: Catalog, rawRole: string, resourceType: string, candidates: seq<string>)
    requires RoleName(rawRole) in cat.definitions && Members(candidates) == EffectiveActions(cat, rawRole)
    ensures AppliedPart(candidates, resourceType) == ApplicableActions(cat, rawRole, resourceType)
  {
    assert forall a :: a in candidates <==> a in Members(candidates);
  }

  method ApplicableProductRoleActions(cat: Catalog, rawRole: string, resourceType: string)
    returns (actions: seq<string>)
    ensures NoDuplicates(actions)
    ensures Members(actions) == ApplicableActions(cat, rawRole, resourceType)
  {
    var role := RoleName(rawRole);
    if role !in cat.definitions {
      return [];
    }
    RoleNameStable(rawRole);
    var candidates := EffectiveProductRoleActions(cat, role);
    actions := [];
    for i := 0 to |candidates|
      invariant NoDuplicates(actions)
      invariant Members(actions) == AppliedPart(candidates[..i], resourceType)
    {
      AppliedStep(candidates, resourceType, i);
      if ActionApplies(candidates[i], resourceType) {
        assert candidates[i] !in candidates[..i];
        actions := actions + [candidates[i]];
      }
    }
    assert candidates[..|candidates|] == candidates;
    AppliedAll(cat, rawRole, resourceType, candidates);
  }

  /** A defined role allows, on every resource type, all that any role it includes allows. */
  lemma IncludedRoleAllowsLess(cat: Catalog, outer: string, inner: string, resourceType: string)
    requires RoleName(outer) in cat.definitions && RoleName(outer) != "" && RoleName(inner) != ""
    requires Reaches(cat, RoleName(outer), RoleName(inner))
    ensures ApplicableActions(cat, inner, resourceType) <= ApplicableActions(cat, outer, resourceType)
  {
    var o, i := RoleName(outer), RoleName(inner);
    forall role | role in ReachableRoles(cat, i) ensures role in ReachableRoles(cat, o) {
      ReachesTransitive(cat, o, i, role);
      ReachedIsNamed(cat, o, role);
    }
  }
}
