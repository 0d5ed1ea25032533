/**
 * services/nopsai team paths: the memoised path builder over the team tree, and the path
 * prefixes the owner guard looks at.
 */
module TeamPaths {
  import opened Wrappers
  import opened Text

  datatype Team = Team(name: string, parent: Option<int>)

  type Teams = map<int, Team>

  /** `depth` strictly falls from a team to its parent, so no chain of parents is a cycle. */
  ghost predicate Acyclic(teams: Teams, depth: int -> nat) {
    forall id :: id in teams && teams[id].parent.Some? ==> depth(teams[id].parent.value) < depth(id)
  }

  /** The path as the recursion defines it, without a cache; None when a parent is missing. */
  ghost function PathOf(teams: Teams, depth: int -> nat, id: int): Option<string>
    requires Acyclic(teams, depth)
    decreases depth(id)
  {
    if id !in teams then None
    else match teams[id].parent
      case None => Some(teams[id].name)
      case Some(parent) =>
        match PathOf(teams, depth, parent)
        case None => None
        case Some(path) => Some(TrimSlashes(TrimSpace(path + "/" + teams[id].name)))
  }

  /** The closure buildPath and the cache it captures. */
  class PathBuilder {
    const teams: Teams
    var cache: map<int, string>

    constructor (teams: Teams)
      ensures this.teams == teams && cache == map[]
    {
      this.teams := teams;
      cache := map[];
    }

    ghost predicate Valid(depth: int -> nat)
      requires Acyclic(teams, depth)
      reads this
    {
      forall id :: id in cache ==> PathOf(teams, depth, id) == Some(cache[id])
    }

    method BuildPath(id: int, ghost depth: int -> nat) returns (path: Option<string>)
      requires Acyclic(teams, depth) && Valid(depth)
      modifies this
      ensures Valid(depth) && path == PathOf(teams, depth, id)
      decreases depth(id)
    {
      if id in cache {
        return Some(cache[id]);
      }
      if id !in teams {
        return None;
      }
      var record := teams[id];
      if record.parent.None? {
        cache := cache[id := record.name];
        return Some(cache[id]);
      }
      var parentPath := BuildPath(record.parent.value, depth);
      if parentPath.None? {
        return None;
      }
      cache := cache[id := TrimSlashes(TrimSpace(parentPath.value + "/" + record.name))];
      return Some(cache[id]);
    }
  }

  /** loadTeamPathRecords trims every stored name first. */
  function CleanNames(rows: Teams): Teams {
    map id | id in rows :: Team(TrimSlashes(TrimSpace(rows[id].name)), rows[id].parent)
  }

  lemma {:induction false} RootedHasPath(teams: Teams, depth: int -> nat, id: int)
    requires Acyclic(teams, depth) && id in teams
    requires forall i :: i in teams && teams[i].parent.Some? ==> teams[i].parent.value in teams
    ensures PathOf(teams, depth, id).Some?
    decreases depth(id)
  {
    if teams[id].parent.Some? {
      RootedHasPath(teams, depth, teams[id].parent.value);
    }
  }

  /** Every team has a path exactly when every parent is a team. */
  lemma {:induction false} AllRootedIff(teams: Teams, depth: int -> nat)
    requires Acyclic(teams, depth)
    ensures (forall id :: id in teams ==> PathOf(teams, depth, id).Some?)
       <==> forall id :: id in teams && teams[id].parent.Some? ==> teams[id].parent.value in teams
  {
    if forall i :: i in teams && teams[i].parent.Some? ==> teams[i].parent.value in teams {
      forall id | id in teams ensures PathOf(teams, depth, id).Some? {
        RootedHasPath(teams, depth, id);
      }
    }
  }

  lemma {:induction false} MissingParent(rows: Teams, depth: int -> nat, id: int)
    requires Acyclic(rows, depth) && id in rows && PathOf(CleanNames(rows), depth, id).None?
    ensures exists i :: i in rows && rows[i].parent.Some? && rows[i].parent.value !in rows
  {
    var teams := CleanNames(rows);
    AllRootedIff(teams, depth);
    var i :| i in teams && teams[i].parent.Some? && teams[i].parent.value !in teams;
    assert i in rows && rows[i].parent == teams[i].parent;
  }

  lemma CleanTableIsTrimmed(rows: Teams)
    requires CleanTable(rows)
    ensures CleanNames(rows) == rows
  {
    forall id | id in rows ensures CleanNames(rows)[id] == rows[id] {
      var name := rows[id].name;
      assert CleanName(name) && name[0] in name && name[|name| - 1] in name;
    }
  }

  /** The path of a row: its trimmed name, put after the path of its parent if it has one. */
  ghost predicate PathRow(rows: Teams, paths: map<int, string>, id: int)
    requires id in rows
  {
    var name := TrimSlashes(TrimSpace(rows[id].name));
    && id in paths
    && (rows[id].parent.None? ==> paths[id] == name)
    && (rows[id].parent.Some? ==>
          && rows[id].parent.value in paths
          && paths[id] == TrimSlashes(TrimSpace(paths[rows[id].parent.value] + "/" + name)))
  }

  lemma {:induction false} BuiltRow(rows: Teams, depth: int -> nat, paths: map<int, string>, id: int)
    requires Acyclic(rows, depth) && id in rows && id in paths
    requires PathOf(CleanNames(rows), depth, id) == Some(paths[id])
    requires var parent := rows[id].parent;
             parent.Some? ==> parent.value in paths
                              && PathOf(CleanNames(rows), depth, parent.value) == Some(paths[parent.value])
    ensures PathRow(rows, paths, id)
  {
  }

  /** All rows of a table that has a path for every team. */
  lemma BuiltRows(rows: Teams, depth: int -> nat, paths: map<int, string>)
    requires Acyclic(rows, depth) && paths.Keys == rows.Keys
    requires forall id :: id in rows ==> PathOf(CleanNames(rows), depth, id) == Some(paths[id])
    ensures forall id :: id in rows ==> PathRow(rows, paths, id)
  {
    forall id | id in rows ensures PathRow(rows, paths, id) {
      AllRootedIff(CleanNames(rows), depth);
      assert rows[id].parent.Some? ==> CleanNames(rows)[id].parent.value in CleanNames(rows);
      BuiltRow(rows, depth, paths, id);
    }
  }

  ghost predicate Joined(rows: Teams, depth: int -> nat, paths: map<int, string>)
    requires Acyclic(rows, depth) && CleanTable(rows)
  {
    forall id :: id in rows ==> id in paths && paths[id] == Join(NamesOf(rows, Lineage(rows, depth, id)), '/')
  }

  lemma BuiltJoins(rows: Teams, depth: int -> nat, paths: map<int, string>)
    requires Acyclic(rows, depth) && CleanTable(rows) && paths.Keys == rows.Keys
    requires forall id :: id in rows ==> PathOf(CleanNames(rows), depth, id) == Some(paths[id])
    ensures Joined(rows, depth, paths)
  {
    CleanTableIsTrimmed(rows);
    forall id | id in rows ensures paths[id] == Join(NamesOf(rows, Lineage(rows, depth, id)), '/') {
      PathIsJoin(rows, depth, id);
    }
  }

  lemma LoadedAll(rows: Teams, depth: int -> nat, paths: map<int, string>)
    requires Acyclic(rows, depth) && forall id :: id in paths <==> id in rows
    requires forall id :: id in paths ==> PathOf(CleanNames(rows), depth, id) == Some(paths[id])
    ensures paths.Keys == rows.Keys && forall id :: id in rows ==> PathRow(rows, paths, id)
    ensures CleanTable(rows) ==> Joined(rows, depth, paths)
    ensures forall id :: id in rows && rows[id].parent.Some? ==> rows[id].parent.value in rows
  {
    forall id ensures id in paths.Keys <==> id in rows.Keys {
      assert id in paths <==> id in rows;
    }
    BuiltRows(rows, depth, paths);
    assert forall id :: id in rows ==> PathRow(rows, paths, id);
    if CleanTable(rows) {
      BuiltJoins(rows, depth, paths);
    }
  }

  /**
   * Whatever order the map is walked in, the result is every team's path: its trimmed name, after
   * its parent's path and a slash if it has a parent. The error comes when and only when some
   * parent is not in the table. Clean names are joined along the parents as they are.
   */
  method LoadTeamPathRecords(rows: Teams, order: seq<int>, ghost depth: int -> nat)
    returns (paths: Option<map<int, string>>)
    requires Acyclic(rows, depth)
    requires forall id :: id in order <==> id in rows
    ensures paths.None? <==> exists id :: id in rows && rows[id].parent.Some? && rows[id].parent.value !in rows
    ensures paths.Some? ==> paths.value.Keys == rows.Keys && forall id :: id in rows ==> PathRow(rows, paths.value, id)
    ensures CleanTable(rows) ==> paths.Some? && Joined(rows, depth, paths.value)
  {
    var teams := CleanNames(rows);
    var builder := new PathBuilder(teams);
    var found: map<int, string> := map[];
    for i := 0 to |order|
      invariant builder.teams == teams && builder.Valid(depth)
      invariant forall id :: id in found <==> id in order[..i]
      invariant forall id :: id in found ==> PathOf(teams, depth, id) == Some(found[id])
    {
      var path := builder.BuildPath(order[i], depth);
      if path.None? {
        MissingParent(rows, depth, order[i]);
        return None;
      }
      assert order[..i + 1] == order[..i] + [order[i]];
      found := found[order[i] := path.value];
    }
    assert order[..|order|] == order;
    LoadedAll(rows, depth, found);
    return Some(found);
  }

  predicate CleanName(name: string) {
    name != "" && Trimmed(name) && '/' !in name
  }

  ghost predicate CleanTable(teams: Teams) {
    && (forall id :: id in teams ==> CleanName(teams[id].name))
    && (forall id :: id in teams && teams[id].parent.Some? ==> teams[id].parent.value in teams)
  }

  /** From the root down to the team itself. */
  ghost function Lineage(teams: Teams, depth: int -> nat, id: int): (ids: seq<int>)
    requires Acyclic(teams, depth) && CleanTable(teams) && id in teams
    ensures ids != [] && ids[|ids| - 1] == id
    ensures forall i :: 0 <= i < |ids| ==> ids[i] in teams
    decreases depth(id)
  {
    match teams[id].parent
    case None => [id]
    case Some(parent) => Lineage(teams, depth, parent) + [id]
  }

  ghost function NamesOf(teams: Teams, ids: seq<int>): (names: seq<string>)
    requires forall i :: 0 <= i < |ids| ==> ids[i] in teams
    ensures |names| == |ids|
    ensures forall i :: 0 <= i < |ids| ==> names[i] == teams[ids[i]].name
  {
    if ids == [] then [] else [teams[ids[0]].name] + NamesOf(teams, ids[1..])
  }

  lemma {:induction false} NamesAreClean(teams: Teams, depth: int -> nat, id: int)
    requires Acyclic(teams, depth) && CleanTable(teams) && id in teams
    ensures var names := NamesOf(teams, Lineage(teams, depth, id));
            CleanSegments(names) && Without(names, '/')
  {
    var ids := Lineage(teams, depth, id);
    forall i | 0 <= i < |ids| ensures CleanName(NamesOf(teams, ids)[i]) {
      var member := ids[i];
      assert member in teams && CleanName(teams[member].name);
    }
  }

  lemma {:induction false} NamesSnoc(teams: Teams, ids: seq<int>, id: int)
    requires id in teams && forall i :: 0 <= i < |ids| ==> ids[i] in teams
    ensures NamesOf(teams, ids + [id]) == NamesOf(teams, ids) + [teams[id].name]
  {
  }

  /** On clean names the built path is the plain root-to-team join of the names. */
  lemma {:induction false} PathIsJoin(teams: Teams, depth: int -> nat, id: int)
    requires Acyclic(teams, depth) && CleanTable(teams) && id in teams
    ensures var names := NamesOf(teams, Lineage(teams, depth, id));
            && PathOf(teams, depth, id) == Some(Join(names, '/'))
            && Split(Join(names, '/'), '/') == names
    decreases depth(id)
  {
    var ids := Lineage(teams, depth, id);
    var names := NamesOf(teams, ids);
    NamesAreClean(teams, depth, id);
    assert Split(Join(names, '/'), '/') == names && TrimSlashes(TrimSpace(Join(names, '/'))) == Join(names, '/') by {
      CleanSegmentsJoin(names);
    }
    if teams[id].parent.Some? {
      var parent := teams[id].parent.value;
      var above := Lineage(teams, depth, parent);
      PathIsJoin(teams, depth, parent);
      assert Join(names, '/') == Join(NamesOf(teams, above), '/') + "/" + teams[id].name by {
        NamesSnoc(teams, above, id);
        JoinSnoc(NamesOf(teams, above), teams[id].name, '/');
      }
    }
  }

  ghost predicate UniqueSiblings(teams: Teams) {
    forall a, b :: a in teams && b in teams && teams[a] == teams[b] ==> a == b
  }

  /** A team's path cut at its last slash gives its parent's path and its own name. */
  lemma {:induction false} PathSplitsAtParent(teams: Teams, depth: int -> nat, id: int)
    requires Acyclic(teams, depth) && CleanTable(teams) && id in teams
    ensures PathOf(teams, depth, id).Some?
    ensures var segments := Split(PathOf(teams, depth, id).value, '/');
            match teams[id].parent
            case None => segments == [teams[id].name]
            case Some(parent) =>
              && PathOf(teams, depth, parent).Some?
              && segments == Split(PathOf(teams, depth, parent).value, '/') + [teams[id].name]
  {
    PathIsJoin(teams, depth, id);
    match teams[id].parent
    case None =>
      NamesSnoc(teams, [], id);
      assert [] + [id] == [id];
    case Some(parent) =>
      PathIsJoin(teams, depth, parent);
      NamesSnoc(teams, Lineage(teams, depth, parent), id);
  }

  /** Teams whose names are unique among siblings have unique paths. */
  lemma {:induction false} PathsAreUnique(teams: Teams, depth: int -> nat, a: int, b: int)
    requires Acyclic(teams, depth) && CleanTable(teams) && UniqueSiblings(teams)
    requires a in teams && b in teams && PathOf(teams, depth, a) == PathOf(teams, depth, b)
    ensures a == b
    decreases depth(a)
  {
    PathSplitsAtParent(teams, depth, a);
    PathSplitsAtParent(teams, depth, b);
    var segments := Split(PathOf(teams, depth, a).value, '/');
    assert teams[a].name == segments[|segments| - 1] == teams[b].name;
    if teams[a].parent.Some? && teams[b].parent.Some? {
      var pa, pb := teams[a].parent.value, teams[b].parent.value;
      assert PathOf(teams, depth, pa) == PathOf(teams, depth, pb) by {
        SplitIsInjective(PathOf(teams, depth, pa).value, PathOf(teams, depth, pb).value, teams[a].name);
      }
      PathsAreUnique(teams, depth, pa, pb);
    } else {
      assert |segments| == 1;
    }
  }

  lemma {:induction false} SplitIsInjective(a: string, b: string, last: string)
    requires Split(a, '/') + [last] == Split(b, '/') + [last]
    ensures a == b
  {
    var segments := Split(a, '/') + [last];
    assert Split(a, '/') == segments[..|segments| - 1] == Split(b, '/');
    JoinOfSplit(a, '/');
    JoinOfSplit(b, '/');
  }

  /** The first `n` segments as a path. */
  function Upper(segments: seq<string>, n: nat): string
    requires n <= |segments|
  {
    Join(segments[..n], '/')
  }

  /** teamOwnerGuardResourceIDs: the first `n` segments, then every shorter run of them. */
  function GuardedPrefixes(segments: seq<string>, n: nat): seq<string>
    requires n <= |segments|
  {
    if n == 0 then []
    else
      var id := TrimSpace(Upper(segments, n));
      (if id != "" then [id] else []) + GuardedPrefixes(segments, n - 1)
  }

  function GuardResourceIDs(rawTeam: string): seq<string> {
    var team := TrimSlashes(TrimSpace(rawTeam));
    if team == "" then [] else GuardedPrefixes(Split(team, '/'), |Split(team, '/')|)
  }

  /** The ids are the non-blank trimmed leading runs of segments of the trimmed path, and no others. */
  lemma {:induction false} GuardMeans(rawTeam: string, id: string)
    ensures var team := TrimSlashes(TrimSpace(rawTeam));
            (id in GuardResourceIDs(rawTeam) <==> team != "" && id != "" && IsLeadingRun(Split(team, '/'), id))
  {
    var segments := Split(TrimSlashes(TrimSpace(rawTeam)), '/');
    GuardedPrefixesMean(segments, |segments|, id);
    if n :| LeadingRun(segments, n, id) {
      assert n <= |segments|;
    }
  }

  ghost predicate IsLeadingRun(segments: seq<string>, id: string) {
    exists n :: LeadingRun(segments, n, id)
  }

  ghost predicate LeadingRun(segments: seq<string>, n: int, id: string) {
    1 <= n <= |segments| && id == TrimSpace(Join(segments[..n], '/'))
  }

  lemma {:induction false} GuardedPrefixesMean(segments: seq<string>, n: nat, id: string)
    requires n <= |segments|
    ensures id in GuardedPrefixes(segments, n)
       <==> id != "" && exists m :: m <= n && LeadingRun(segments, m, id)
  {
    if n > 0 {
      GuardedPrefixesMean(segments, n - 1, id);
      assert LeadingRun(segments, n, id) <==> id == TrimSpace(Upper(segments, n));
    }
  }

  lemma GuardStep(ids: seq<string>, segments: seq<string>, size: nat)
    requires 0 < size <= |segments|
    ensures var id := TrimSpace(Upper(segments, size));
            ids + GuardedPrefixes(segments, size)
            == (if id != "" then ids + [id] else ids) + GuardedPrefixes(segments, size - 1)
  {
    var id, rest := TrimSpace(Upper(segments, size)), GuardedPrefixes(segments, size - 1);
    assert ids + ([id] + rest) == (ids + [id]) + rest && [] + rest == rest;
  }

  method TeamOwnerGuardResourceIDs(rawTeam: string) returns (ids: seq<string>)
    ensures ids == GuardResourceIDs(rawTeam)
  {
    var team := TrimSlashes(TrimSpace(rawTeam));
    if team == "" {
      return [];
    }
    var segments := Split(team, '/');
    ids := [];
    var size := |segments|;
    while size >= 1
      invariant 0 <= size <= |segments|
      invariant ids + GuardedPrefixes(segments, size) == GuardedPrefixes(segments, |segments|)
    {
      GuardStep(ids, segments, size);
      var id := TrimSpace(Join(segments[..size], '/'));
      if id != "" {
        ids := ids + [id];
      }
      size := size - 1;
    }
  }

  predicate CleanSegments(segments: seq<string>) {
    segments != [] && forall i :: 0 <= i < |segments| ==> CleanName(segments[i])
  }

  /** A team path as the builder makes them: clean names joined by slashes. */
  predicate CleanPath(path: string) {
    CleanSegments(Split(path, '/'))
  }

  lemma {:induction false} CleanSegmentsJoin(segments: seq<string>)
    requires CleanSegments(segments)
    ensures var path := Join(segments, '/');
            && path != "" && TrimSpace(path) == path && TrimSlashes(path) == path
            && Split(path, '/') == segments
  {
    var path, last := Join(segments, '/'), segments[|segments| - 1];
    JoinTrimmed(segments, '/');
    SplitOfJoin(segments, '/');
    assert path[0] == segments[0][0] && segments[0][0] in segments[0];
    assert path[|path| - 1] == last[|last| - 1] && last[|last| - 1] in last;
  }

  lemma GuardedPrefixesStep(segments: seq<string>, n: nat)
    requires CleanSegments(segments) && 0 < n <= |segments|
    ensures GuardedPrefixes(segments, n) == [Upper(segments, n)] + GuardedPrefixes(segments, n - 1)
  {
    CleanSegmentsJoin(segments[..n]);
  }

  /** `ids` are the paths of the first `n` segments, `n - 1` segments, and so on down to one. */
  predicate ListsUppers(ids: seq<string>, segments: seq<string>, n: nat) {
    |ids| == n <= |segments| && forall i :: 0 <= i < n ==> ids[i] == Upper(segments, n - i)
  }

  lemma ListsUppersCons(ids: seq<string>, segments: seq<string>, n: nat)
    requires 0 < n <= |segments| && ListsUppers(ids, segments, n - 1)
    ensures ListsUppers([Upper(segments, n)] + ids, segments, n)
  {
    var all := [Upper(segments, n)] + ids;
    forall i | 0 <= i < n ensures all[i] == Upper(segments, n - i) {
      if i > 0 {
        assert all[i] == ids[i - 1] == Upper(segments, n - 1 - (i - 1));
      }
    }
  }

  lemma {:induction false} GuardedPrefixesClean(segments: seq<string>, n: nat)
    requires CleanSegments(segments) && n <= |segments|
    ensures ListsUppers(GuardedPrefixes(segments, n), segments, n)
    decreases n
  {
    if n > 0 {
      GuardedPrefixesClean(segments, n - 1);
      GuardedPrefixesStep(segments, n);
      ListsUppersCons(GuardedPrefixes(segments, n - 1), segments, n);
    }
  }

  /** For a clean path the guard lists its whole-segment prefixes, longest first. */
  lemma {:induction false} GuardOfCleanPath(path: string)
    requires CleanPath(path)
    ensures var segments := Split(path, '/');
            ListsUppers(GuardResourceIDs(path), segments, |segments|)
  {
    GuardListsPrefixes(path);
    GuardedPrefixesClean(Split(path, '/'), |Split(path, '/')|);
  }

  lemma {:induction false} GuardListsPrefixes(path: string)
    requires CleanPath(path)
    ensures GuardResourceIDs(path) == GuardedPrefixes(Split(path, '/'), |Split(path, '/')|)
  {
    JoinOfSplit(path, '/');
    CleanSegmentsJoin(Split(path, '/'));
  }

  lemma UpperOfUpper(segments: seq<string>, n: nat, m: nat)
    requires CleanSegments(segments) && 0 < m <= n <= |segments|
    ensures CleanPath(Upper(segments, n))
    ensures Split(Upper(segments, n), '/') == segments[..n]
    ensures Upper(segments[..n], m) == Upper(segments, m)
  {
    CleanSegmentsJoin(segments[..n]);
    assert segments[..n][..m] == segments[..m];
  }

  /** An ancestor's path is that many segments of the team's. */
  lemma {:induction false} LineagePathIsUpper(teams: Teams, depth: int -> nat, id: int, k: nat)
    requires Acyclic(teams, depth) && CleanTable(teams) && id in teams
    requires k < |Lineage(teams, depth, id)|
    ensures var lineage := Lineage(teams, depth, id);
            PathOf(teams, depth, lineage[k]) == Some(Upper(NamesOf(teams, lineage), k + 1))
  {
    var lineage := Lineage(teams, depth, id);
    LineagePrefix(teams, depth, id, k);
    PathIsJoin(teams, depth, lineage[k]);
    NamesPrefix(teams, lineage, k + 1);
  }

  /** The guard looks at exactly the paths of the team and its ancestors, nearest first. */
  lemma {:induction false} GuardCoversLineage(teams: Teams, depth: int -> nat, id: int)
    requires Acyclic(teams, depth) && CleanTable(teams) && id in teams
    ensures PathOf(teams, depth, id).Some?
    ensures var lineage := Lineage(teams, depth, id);
            var ids := GuardResourceIDs(PathOf(teams, depth, id).value);
            && |ids| == |lineage|
            && forall k :: 0 <= k < |lineage| ==> PathOf(teams, depth, lineage[k]) == Some(ids[|ids| - 1 - k])
  {
    var lineage := Lineage(teams, depth, id);
    var names := NamesOf(teams, lineage);
    PathIsJoin(teams, depth, id);
    NamesAreClean(teams, depth, id);
    GuardOfCleanPath(Join(names, '/'));
    forall k | 0 <= k < |lineage| ensures PathOf(teams, depth, lineage[k]) == Some(Upper(names, k + 1)) {
      LineagePathIsUpper(teams, depth, id, k);
    }
  }

  lemma {:induction false} NamesPrefix(teams: Teams, ids: seq<int>, n: nat)
    requires n <= |ids| && forall i :: 0 <= i < |ids| ==> ids[i] in teams
    ensures NamesOf(teams, ids[..n]) == NamesOf(teams, ids)[..n]
  {
  }

  lemma {:induction false} LineagePrefix(teams: Teams, depth: int -> nat, id: int, k: nat)
    requires Acyclic(teams, depth) && CleanTable(teams) && id in teams
    requires k < |Lineage(teams, depth, id)|
    ensures var lineage := Lineage(teams, depth, id);
            Lineage(teams, depth, lineage[k]) == lineage[..k + 1]
    decreases depth(id)
  {
    var lineage := Lineage(teams, depth, id);
    if k == |lineage| - 1 {
      assert lineage[..k + 1] == lineage;
    } else {
      var parent := teams[id].parent.value;
      LineagePrefix(teams, depth, parent, k);
      assert Lineage(teams, depth, parent) == lineage[..|lineage| - 1];
      assert lineage[..|lineage| - 1][..k + 1] == lineage[..k + 1];
    }
  }

  lemma GuardIndex(path: string, id: string) returns (n: nat)
    requires CleanPath(path) && id in GuardResourceIDs(path)
    ensures 1 <= n <= |Split(path, '/')| && id == Upper(Split(path, '/'), n)
  {
    GuardOfCleanPath(path);
    var ids := GuardResourceIDs(path);
    var i :| 0 <= i < |ids| && ids[i] == id;
    n := |Split(path, '/')| - i;
  }

  lemma UpperListed(ids: seq<string>, segments: seq<string>, n: nat)
    requires ListsUppers(ids, segments, |segments|) && 1 <= n <= |segments|
    ensures Upper(segments, n) in ids
  {
    assert ids[|segments| - n] == Upper(segments, |segments| - (|segments| - n));
  }

  lemma {:induction false} GuardHas(path: string, n: nat)
    requires CleanPath(path) && 1 <= n <= |Split(path, '/')|
    ensures Upper(Split(path, '/'), n) in GuardResourceIDs(path)
  {
    GuardOfCleanPath(path);
    UpperListed(GuardResourceIDs(path), Split(path, '/'), n);
  }

  /** A prefix of a prefix is a prefix: an id the guard lists has all its own ids listed too. */
  lemma GuardIsTransitive(path: string, ancestor: string, id: string)
    requires CleanPath(path) && ancestor in GuardResourceIDs(path)
    ensures CleanPath(ancestor)
    ensures id in GuardResourceIDs(ancestor) ==> id in GuardResourceIDs(path)
  {
    var segments := Split(path, '/');
    var n := GuardIndex(path, ancestor);
    UpperOfUpper(segments, n, 1);
    if id in GuardResourceIDs(ancestor) {
      var m := GuardIndex(ancestor, id);
      UpperOfUpper(segments, n, m);
      GuardHas(path, m);
    }
  }

  /** The guard lists the path itself, and the root segment as its only one-segment id. */
  lemma {:induction false} GuardEnds(path: string, id: string)
    requires CleanPath(path)
    ensures path in GuardResourceIDs(path)
    ensures id in GuardResourceIDs(path) && '/' !in id <==> id == Split(path, '/')[0]
  {
    var segments := Split(path, '/');
    assert path == Upper(segments, |segments|) by {
      JoinOfSplit(path, '/');
      assert segments[..|segments|] == segments;
    }
    GuardHas(path, |segments|);
    GuardHas(path, 1);
    assert Upper(segments, 1) == segments[0];
    if id in GuardResourceIDs(path) {
      var n := GuardIndex(path, id);
      if n > 1 {
        UpperHasSlash(segments, n);
      }
    }
  }

  lemma UpperHasSlash(segments: seq<string>, n: nat)
    requires 2 <= n <= |segments|
    ensures '/' in Upper(segments, n)
  {
    assert segments[..n][0] == segments[0];
    assert Upper(segments, n) == segments[0] + ['/'] + Join(segments[..n][1..], '/');
  }
}
