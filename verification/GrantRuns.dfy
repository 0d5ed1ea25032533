/**
 * What grants, guarded deletes and reconciles guarantee over whole runs: the derived tables stay
 * the index of the surviving grants, and teams keep their owners.
 */
module GrantRuns {
  import opened Wrappers
  import opened Text
  import opened RoleActions
  import opened TeamPaths
  import opened TaggedRows
  import opened AccessGrants

  datatype Command = Give(grant: Grant) | Delete(id: int) | Reconcile

  /** The platform resource has one id, as the resource resolver returns it. */
  predicate Resolved(c: Command) {
    c.Give? && c.grant.resource.kind == PLATFORM ==> c.grant.resource.id == PLATFORM_ID
  }

  ghost function Step(cfg: Config, t: Tables, c: Command): Tables {
    match c
    case Give(grant) => GrantSpec(cfg, t, grant).0
    case Delete(id) => DeleteSpec(cfg, t, id).0
    case Reconcile => Reconciling(cfg.catalog, t)
  }

  /** What a reconcile makes of the tables. */
  ghost function Reconciling(cat: Catalog, t: Tables): Tables {
    t.(acl := Rebuild(t.acl, AclRows(cat, t.grants)),
       owners := Rebuild(t.owners, OwnerRows(cat, t.grants)),
       admins := t.admins + BoundAdmins(cat, t.grants, t.grants.Keys))
  }

  /** It is the one outcome the reconcile loop may have. */
  lemma ReconcilingIsReconciled(cat: Catalog, t: Tables, r: Tables)
    requires OneGrantPerPair(t.grants)
    ensures Reconciled(cat, t, Reconciling(cat, t))
    ensures Reconciled(cat, t, r) ==> r == Reconciling(cat, t)
  {
    RowsAreSeparate(cat, t.grants);
    RebuildIsRebuilt(t.acl, AclRows(cat, t.grants));
    RebuildIsRebuilt(t.owners, OwnerRows(cat, t.grants));
    if Reconciled(cat, t, r) {
      RebuiltIsUnique(t.acl, AclRows(cat, t.grants), AclRows(cat, t.grants).Keys, r.acl, Reconciling(cat, t).acl);
      RebuiltIsUnique(t.owners, OwnerRows(cat, t.grants), OwnerRows(cat, t.grants).Keys, r.owners,
                      Reconciling(cat, t).owners);
    }
  }

  lemma ReconcileKeeps(cat: Catalog, t: Tables)
    requires Consistent(cat, t)
    ensures Consistent(cat, Reconciling(cat, t))
    ensures Indexed(Reconciling(cat, t).owners, OwnerRows(cat, t.grants))
  {
    var aclRows, ownerRows := AclRows(cat, t.grants), OwnerRows(cat, t.grants);
    ReconcilingIsReconciled(cat, t, t);
    TagsAreWithin(t.acl, aclRows);
    TagsAreWithin(t.owners, ownerRows);
    ReconcileRestoresIndex(cat, t, Reconciling(cat, t));
    IndexedIsCoveredAndAdopted(Reconciling(cat, t).owners, ownerRows);
  }

  lemma TagsAreWithin<K(!new)>(t: Table<K>, rows: Rows<K>)
    requires forall k, id :: TaggedWith(t, k, id) ==> Calls(rows, id, k)
    ensures TagsWithin(t, rows)
  {
    forall k, id | TaggedWith(t, k, id) ensures id in rows {
      assert Calls(rows, id, k);
    }
  }

  ghost function Run(cfg: Config, t: Tables, commands: seq<Command>): Tables
    decreases |commands|
  {
    if commands == [] then t else Run(cfg, Step(cfg, t, commands[0]), commands[1..])
  }

  lemma GrantKeeps(cfg: Config, t: Tables, g: Grant)
    requires Consistent(cfg.catalog, t) && Resolved(Give(g))
    ensures Consistent(cfg.catalog, GrantSpec(cfg, t, g).0)
  {
    var r := GrantSpec(cfg, t, g).0;
    var cat, id := cfg.catalog, t.nextId;
    if r != t {
      assert r.grants == t.grants[id := g];
      assert OneGrantPerPair(r.grants);
      GrantKeepsAcl(cfg, t, g);
      GrantKeepsOwners(cfg, t, g);
    }
  }

  lemma GrantKeepsAcl(cfg: Config, t: Tables, g: Grant)
    requires Consistent(cfg.catalog, t) && GrantSpec(cfg, t, g).1.Ok?
    ensures var r := GrantSpec(cfg, t, g).0; Indexed(r.acl, AclRows(cfg.catalog, r.grants))
  {
    var r := GrantSpec(cfg, t, g).0;
    var cat, id := cfg.catalog, t.nextId;
    var before, after := AclRows(cat, t.grants), AclRows(cat, r.grants);
    assert forall i, k :: Calls(after, i, k) <==> if i == id then k in AclOf(cat, g) else Calls(before, i, k);
    forall k, i ensures TaggedWith(r.acl, k, i) <==> Calls(after, i, k) {
      assert TaggedWith(t.acl, k, i) <==> Calls(before, i, k);
      assert !Calls(before, id, k);
    }
  }

  lemma GrantKeepsOwners(cfg: Config, t: Tables, g: Grant)
    requires Consistent(cfg.catalog, t) && GrantSpec(cfg, t, g).1.Ok?
    ensures var r := GrantSpec(cfg, t, g).0; Covered(r.owners, OwnerRows(cfg.catalog, r.grants))
  {
    var r := GrantSpec(cfg, t, g).0;
    var cat, id := cfg.catalog, t.nextId;
    var before, after := OwnerRows(cat, t.grants), OwnerRows(cat, r.grants);
    assert forall i, k :: Calls(after, i, k) <==> if i == id then k in OwnersOf(g) else Calls(before, i, k);
    forall k, i ensures TaggedWith(r.owners, k, i) ==> Calls(after, i, k) {
      assert TaggedWith(t.owners, k, i) ==> Calls(before, i, k);
    }
    forall k, i | Calls(after, i, k) ensures k in r.owners && (r.owners[k] == None || TaggedWith(r.owners, k, i)) {
      assert forall j :: TaggedWith(t.owners, k, j) ==> Calls(before, j, k);
      assert k in t.owners ==> t.owners[k] == None || TaggedWith(t.owners, k, t.owners[k].value);
    }
  }

  /** Without untagged rows for the derived keys, the ownership rows stay exact. */
  lemma GrantKeepsOwnersExact(cfg: Config, t: Tables, g: Grant)
    requires Consistent(cfg.catalog, t) && GrantSpec(cfg, t, g).1.Ok?
    requires NoneUnadopted(t.owners, OwnerRows(cfg.catalog, GrantSpec(cfg, t, g).0.grants))
    ensures var r := GrantSpec(cfg, t, g).0; Indexed(r.owners, OwnerRows(cfg.catalog, r.grants))
  {
    var r := GrantSpec(cfg, t, g).0;
    var after := OwnerRows(cfg.catalog, r.grants);
    GrantKeepsOwners(cfg, t, g);
    forall k, i | Calls(after, i, k) && k in r.owners ensures r.owners[k] != None {
      assert k in t.owners ==> t.owners[k] != None;
    }
    IndexedIsCoveredAndAdopted(r.owners, after);
  }

  lemma DeleteKeeps(cfg: Config, t: Tables, id: int)
    requires Consistent(cfg.catalog, t)
    ensures Consistent(cfg.catalog, DeleteSpec(cfg, t, id).0)
  {
    var r := DeleteSpec(cfg, t, id).0;
    if DeleteSpec(cfg, t, id).1.None? {
      DeleteKeepsRows(cfg, t, id);
      forall i | i in r.grants && r.grants[i].role == ADMIN
        ensures Binding(r.grants[i].subject, Local) in r.admins
      {
        assert t.grants[i].resource == Entity(PLATFORM, PLATFORM_ID);
      }
    }
  }

  lemma DeleteKeepsRows(cfg: Config, t: Tables, id: int)
    requires Consistent(cfg.catalog, t) && DeleteSpec(cfg, t, id).1.None?
    ensures var r := DeleteSpec(cfg, t, id).0;
            && Indexed(r.acl, AclRows(cfg.catalog, r.grants))
            && Covered(r.owners, OwnerRows(cfg.catalog, r.grants))
  {
    var r := DeleteSpec(cfg, t, id).0;
    var cat := cfg.catalog;
    UntagKeepsIndexed(t.acl, AclRows(cat, t.grants), id, AclRows(cat, r.grants));
    UntagKeepsCovered(t.owners, OwnerRows(cat, t.grants), id, OwnerRows(cat, r.grants));
  }

  lemma UntagKeepsIndexed<K(!new)>(t: Table<K>, rows: Rows<K>, id: int, fewer: Rows<K>)
    requires Indexed(t, rows) && fewer == rows - {id}
    ensures Indexed(Untag(t, id), fewer)
  {
    forall k, i ensures TaggedWith(Untag(t, id), k, i) <==> Calls(fewer, i, k) {
      assert TaggedWith(t, k, i) <==> Calls(rows, i, k);
    }
  }

  lemma UntagKeepsCovered<K(!new)>(t: Table<K>, rows: Rows<K>, id: int, fewer: Rows<K>)
    requires Covered(t, rows) && fewer == rows - {id}
    ensures Covered(Untag(t, id), fewer)
  {
    forall k, i ensures TaggedWith(Untag(t, id), k, i) ==> Calls(fewer, i, k) {
      assert TaggedWith(t, k, i) ==> Calls(rows, i, k);
    }
    forall k, i | Calls(fewer, i, k)
      ensures k in Untag(t, id) && (Untag(t, id)[k] == None || TaggedWith(Untag(t, id), k, i))
    {
      assert Calls(rows, i, k);
    }
  }

  /**
   * After any sequence of grants, deletes and reconciles the tagged ACL rows are exactly those derived from
   * the surviving grants, and every tagged ownership row is.
   */
  lemma {:induction false} RunKeeps(cfg: Config, t: Tables, commands: seq<Command>)
    requires Consistent(cfg.catalog, t) && forall c :: c in commands ==> Resolved(c)
    ensures Consistent(cfg.catalog, Run(cfg, t, commands))
    decreases |commands|
  {
    if commands != [] {
      match commands[0] {
        case Give(grant) => GrantKeeps(cfg, t, grant);
        case Delete(id) => DeleteKeeps(cfg, t, id);
        case Reconcile => ReconcileKeeps(cfg.catalog, t);
      }
      RunKeeps(cfg, Step(cfg, t, commands[0]), commands[1..]);
    }
  }

  ghost predicate AllTagged(t: Table<OwnerKey>) {
    forall k :: k in t ==> t[k] != None
  }

  /** With no untagged ownership row to begin with, the ownership rows are exactly the derived ones too. */
  lemma {:induction false} RunKeepsOwnershipExact(cfg: Config, t: Tables, commands: seq<Command>)
    requires Consistent(cfg.catalog, t) && AllTagged(t.owners) && forall c :: c in commands ==> Resolved(c)
    ensures var r := Run(cfg, t, commands);
            AllTagged(r.owners) && Indexed(r.owners, OwnerRows(cfg.catalog, r.grants))
    decreases |commands|
  {
    if commands == [] {
      IndexedIsCoveredAndAdopted(t.owners, OwnerRows(cfg.catalog, t.grants));
    } else {
      RunKeeps(cfg, t, commands[..1]);
      assert Run(cfg, t, commands[..1]) == Step(cfg, t, commands[0]);
      if commands[0].Reconcile? {
        IndexedIsCoveredAndAdopted(t.owners, OwnerRows(cfg.catalog, t.grants));
        ReconcilingIsReconciled(cfg.catalog, t, t);
        ReconcileIsNoOpIff(cfg, t, Reconciling(cfg.catalog, t));
      }
      RunKeepsOwnershipExact(cfg, Step(cfg, t, commands[0]), commands[1..]);
    }
  }

  /**
   * An owner grant keeps the ownership rows exact if and only if no row for the pair is there yet:
   * the insert does nothing on a conflict, so an untagged row stays untagged, and deleting the
   * grant later leaves it behind.
   */
  lemma OwnerGrantExactIff(cfg: Config, t: Tables, g: Grant)
    requires Consistent(cfg.catalog, t) && Indexed(t.owners, OwnerRows(cfg.catalog, t.grants))
    requires g.role == OWNER && GrantSpec(cfg, t, g).1.Ok?
    ensures var r := GrantSpec(cfg, t, g).0;
            Indexed(r.owners, OwnerRows(cfg.catalog, r.grants)) <==> OwnerKey(g.resource, g.subject) !in t.owners
  {
    var r := GrantSpec(cfg, t, g).0;
    var cat, k := cfg.catalog, OwnerKey(g.resource, g.subject);
    var before, after := OwnerRows(cat, t.grants), OwnerRows(cat, r.grants);
    GrantKeepsOwners(cfg, t, g);
    assert Calls(after, t.nextId, k);
    IndexedIsCoveredAndAdopted(t.owners, before);
    if k in t.owners {
      assert r.owners[k] == t.owners[k];
      assert !TaggedWith(t.owners, k, t.nextId);
    } else {
      forall k', i | Calls(after, i, k') && k' in t.owners ensures t.owners[k'] != None {
        assert k' != k;
        assert Calls(before, i, k');
      }
      GrantKeepsOwnersExact(cfg, t, g);
    }
  }

  /** The failing input: an untagged owner row survives its grant's deletion. */
  lemma {:induction false} UntaggedOwnerRowIsOrphaned(cfg: Config, t: Tables, g: Grant)
    requires Consistent(cfg.catalog, t) && g.role == OWNER && g.resource.kind != TEAM && !g.fromProvider
    requires GrantSpec(cfg, t, g).1.Ok?
    requires OwnerKey(g.resource, g.subject) in t.owners && t.owners[OwnerKey(g.resource, g.subject)] == None
    ensures var r := Run(cfg, t, [Give(g), Delete(t.nextId)]);
            && t.nextId !in r.grants
            && OwnerKey(g.resource, g.subject) in r.owners
  {
    var given := GrantSpec(cfg, t, g).0;
    assert Run(cfg, given, [Delete(t.nextId)]) == Run(cfg, DeleteSpec(cfg, given, t.nextId).0, []);
  }

  /** Such tables exist: an ownership row nobody's grant accounts for, and a grant for its pair. */
  lemma UntaggedOwnerTables() returns (cfg: Config, t: Tables, g: Grant)
    ensures Consistent(cfg.catalog, t) && GrantSpec(cfg, t, g).1.Ok?
    ensures OwnerKey(g.resource, g.subject) in Run(cfg, t, [Give(g), Delete(t.nextId)]).owners
    ensures Run(cfg, t, [Give(g), Delete(t.nextId)]).grants == map[]
  {
    g := Grant(Entity("user", "u"), OWNER, Entity("pipeline", "p"), true, false);
    cfg := Config(Catalog(map[], map[OWNER := []]), {});
    t := Tables(map[], map[], map[OwnerKey(g.resource, g.subject) := None], {}, 1);
    assert GrantCheck(cfg, t, g) == None;
    UntaggedOwnerRowIsOrphaned(cfg, t, g);
    var given := GrantSpec(cfg, t, g).0;
    assert Run(cfg, t, [Give(g), Delete(1)]) == Run(cfg, given, [Delete(1)]);
    assert Run(cfg, given, [Delete(1)]) == DeleteSpec(cfg, given, 1).0;
  }

  /** From any starting rows whose tags refer to grants of known roles, a reconcile restores the index. */
  lemma ReconcileRestoresIndex(cat: Catalog, t: Tables, r: Tables)
    requires Reconciled(cat, t, r)
    requires TagsWithin(t.acl, AclRows(cat, t.grants)) && TagsWithin(t.owners, OwnerRows(cat, t.grants))
    ensures Indexed(r.acl, AclRows(cat, t.grants)) && Indexed(r.owners, OwnerRows(cat, t.grants))
  {
    RebuiltIsIndexed(t.acl, AclRows(cat, t.grants), r.acl);
    RebuiltIsIndexed(t.owners, OwnerRows(cat, t.grants), r.owners);
  }

  /** Two reconciles of the same tables agree, and a second one changes nothing. */
  lemma ReconcileIsIdempotent(cat: Catalog, t: Tables, r: Tables, other: Tables, again: Tables)
    requires Reconciled(cat, t, r) && Reconciled(cat, t, other) && Reconciled(cat, r, again)
    ensures other == r && again == r
  {
    RebuiltIsUnique(t.acl, AclRows(cat, t.grants), AclRows(cat, t.grants).Keys, r.acl, other.acl);
    RebuiltIsUnique(t.owners, OwnerRows(cat, t.grants), OwnerRows(cat, t.grants).Keys, r.owners, other.owners);
    RebuildTwice(t.acl, AclRows(cat, t.grants), r.acl, again.acl);
    RebuildTwice(t.owners, OwnerRows(cat, t.grants), r.owners, again.owners);
  }

  /** On tables the commands maintain, a reconcile does nothing exactly when no derived owner row is untagged. */
  lemma ReconcileIsNoOpIff(cfg: Config, t: Tables, r: Tables)
    requires Consistent(cfg.catalog, t) && Reconciled(cfg.catalog, t, r)
    ensures r == t <==> NoneUnadopted(t.owners, OwnerRows(cfg.catalog, t.grants))
  {
    var cat := cfg.catalog;
    var aclRows, ownerRows := AclRows(cat, t.grants), OwnerRows(cat, t.grants);
    forall k, id | TaggedWith(t.acl, k, id) ensures id in aclRows {
      assert Calls(aclRows, id, k);
    }
    forall k, id | TaggedWith(t.owners, k, id) ensures id in ownerRows {
      assert Calls(ownerRows, id, k);
    }
    RebuildIsNoOpIffIndexed(t.acl, aclRows, r.acl);
    RebuildIsNoOpIffIndexed(t.owners, ownerRows, r.owners);
    IndexedIsCoveredAndAdopted(t.owners, ownerRows);
    assert BoundAdmins(cat, t.grants, t.grants.Keys) <= t.admins;
  }

  // ----- Teams keep an owner.

  /** Some owner grant sits on the team with this path or on one of its ancestors. */
  ghost predicate HasOwner(grants: map<int, Grant>, path: string) {
    exists id :: OwnsAbove(grants, id, path)
  }

  ghost predicate OwnsAbove(grants: map<int, Grant>, id: int, path: string) {
    && id in grants && grants[id].role == OWNER && grants[id].resource.kind == TEAM
    && grants[id].resource.id in GuardResourceIDs(path)
  }

  ghost predicate UnderGlobal(path: string) {
    Split(path, '/')[0] == GLOBAL_ID
  }

  /** The other owner the guard finds for a team covers what lies under the team too. */
  lemma OtherOwnerCovers(grants: map<int, Grant>, team: string, id: int, path: string) returns (other: int)
    requires CleanPath(path) && team in GuardResourceIDs(path) && OtherOwner(grants, team, id)
    ensures other != id && OwnsAbove(grants, other, path)
  {
    other :| other in grants && other != id && grants[other].role == OWNER
             && grants[other].resource.kind == TEAM && grants[other].resource.id in GuardResourceIDs(team);
    GuardIsTransitive(path, team, grants[other].resource.id);
  }

  lemma DeleteKeepsOwner(cfg: Config, t: Tables, id: int, path: string)
    requires forall i :: i in t.grants ==> i > 0
    requires CleanPath(path) && !UnderGlobal(path) && HasOwner(t.grants, path)
    ensures HasOwner(DeleteSpec(cfg, t, id).0.grants, path)
  {
    var r := DeleteSpec(cfg, t, id).0;
    var owner :| OwnsAbove(t.grants, owner, path);
    if owner in r.grants {
      assert OwnsAbove(r.grants, owner, path);
    } else {
      var team := t.grants[id].resource.id;
      assert team != GLOBAL_ID by {
        GuardEnds(path, GLOBAL_ID);
      }
      var other := OtherOwnerCovers(t.grants, team, id, path);
      assert OwnsAbove(r.grants, other, path);
    }
  }

  lemma GrantKeepsOwner(cfg: Config, t: Tables, g: Grant, path: string)
    requires t.nextId !in t.grants && HasOwner(t.grants, path)
    ensures HasOwner(GrantSpec(cfg, t, g).0.grants, path)
  {
    var owner :| OwnsAbove(t.grants, owner, path);
    assert OwnsAbove(GrantSpec(cfg, t, g).0.grants, owner, path);
  }

  /** Across every run of grants, guarded deletes and reconciles a covered team stays covered. */
  lemma {:induction false} RunKeepsOwner(cfg: Config, t: Tables, commands: seq<Command>, path: string)
    requires Consistent(cfg.catalog, t) && forall c :: c in commands ==> Resolved(c)
    requires CleanPath(path) && !UnderGlobal(path) && HasOwner(t.grants, path)
    ensures HasOwner(Run(cfg, t, commands).grants, path)
    decreases |commands|
  {
    if commands != [] {
      var r := Step(cfg, t, commands[0]);
      match commands[0] {
        case Give(grant) =>
          GrantKeeps(cfg, t, grant);
          GrantKeepsOwner(cfg, t, grant, path);
        case Delete(id) =>
          DeleteKeeps(cfg, t, id);
          DeleteKeepsOwner(cfg, t, id, path);
        case Reconcile =>
          ReconcileKeeps(cfg.catalog, t);
      }
      RunKeepsOwner(cfg, r, commands[1..], path);
    }
  }

  /** A team or one of its ancestors has an owner grant, read off the team table. */
  ghost predicate LineageOwned(grants: map<int, Grant>, teams: Teams, depth: int -> nat, id: int)
    requires Acyclic(teams, depth) && CleanTable(teams) && id in teams
  {
    exists g, k :: OwnsMember(grants, g, teams, depth, id, k)
  }

  ghost predicate OwnsMember(grants: map<int, Grant>, g: int, teams: Teams, depth: int -> nat, id: int, k: int)
    requires Acyclic(teams, depth) && CleanTable(teams) && id in teams
  {
    var lineage := Lineage(teams, depth, id);
    && 0 <= k < |lineage| && g in grants && grants[g].role == OWNER && grants[g].resource.kind == TEAM
    && PathOf(teams, depth, lineage[k]) == Some(grants[g].resource.id)
  }

  /** The guard's own reading of a path is that of the team table. */
  lemma {:induction false} CoverageIsLineage(grants: map<int, Grant>, teams: Teams, depth: int -> nat, id: int)
    requires Acyclic(teams, depth) && CleanTable(teams) && id in teams
    ensures PathOf(teams, depth, id).Some?
    ensures HasOwner(grants, PathOf(teams, depth, id).value) <==> LineageOwned(grants, teams, depth, id)
  {
    GuardCoversLineage(teams, depth, id);
    var path := PathOf(teams, depth, id).value;
    if g :| OwnsAbove(grants, g, path) {
      var k := GuardedIsMember(teams, depth, id, grants[g].resource.id);
      assert OwnsMember(grants, g, teams, depth, id, k);
    }
    if g, k :| OwnsMember(grants, g, teams, depth, id, k) {
      MemberIsGuarded(teams, depth, id, k);
      assert OwnsAbove(grants, g, path);
    }
  }

  lemma {:induction false} GuardedIsMember(teams: Teams, depth: int -> nat, id: int, guarded: string) returns (k: nat)
    requires Acyclic(teams, depth) && CleanTable(teams) && id in teams
    requires PathOf(teams, depth, id).Some? && guarded in GuardResourceIDs(PathOf(teams, depth, id).value)
    ensures k < |Lineage(teams, depth, id)| && PathOf(teams, depth, Lineage(teams, depth, id)[k]) == Some(guarded)
  {
    GuardCoversLineage(teams, depth, id);
    var ids := GuardResourceIDs(PathOf(teams, depth, id).value);
    var i :| 0 <= i < |ids| && ids[i] == guarded;
    k := |ids| - 1 - i;
    assert |ids| == |Lineage(teams, depth, id)|;
    assert ids[|ids| - 1 - k] == guarded;
  }

  lemma {:induction false} MemberIsGuarded(teams: Teams, depth: int -> nat, id: int, k: nat)
    requires Acyclic(teams, depth) && CleanTable(teams) && id in teams && k < |Lineage(teams, depth, id)|
    ensures var member := PathOf(teams, depth, Lineage(teams, depth, id)[k]);
            PathOf(teams, depth, id).Some? && member.Some?
            && member.value in GuardResourceIDs(PathOf(teams, depth, id).value)
  {
    GuardCoversLineage(teams, depth, id);
    var ids := GuardResourceIDs(PathOf(teams, depth, id).value);
    assert ids[|ids| - 1 - k] in ids;
  }

  lemma {:induction false} RootOfPath(teams: Teams, depth: int -> nat, id: int)
    requires Acyclic(teams, depth) && CleanTable(teams) && id in teams
    ensures PathOf(teams, depth, id).Some? && CleanPath(PathOf(teams, depth, id).value)
    ensures UnderGlobal(PathOf(teams, depth, id).value)
       <==> teams[Lineage(teams, depth, id)[0]].name == GLOBAL_ID
  {
    PathIsJoin(teams, depth, id);
    NamesAreClean(teams, depth, id);
  }

  /**
   * A team outside the global one that has an owner on itself or an ancestor keeps one across every
   * run: the guard's path prefixes do what they stand for.
   */
  lemma {:induction false} RunKeepsLineageOwner(
      cfg: Config, t: Tables, commands: seq<Command>, teams: Teams, depth: int -> nat, id: int)
    requires Consistent(cfg.catalog, t) && forall c :: c in commands ==> Resolved(c)
    requires Acyclic(teams, depth) && CleanTable(teams) && id in teams
    requires teams[Lineage(teams, depth, id)[0]].name != GLOBAL_ID
    requires LineageOwned(t.grants, teams, depth, id)
    ensures LineageOwned(Run(cfg, t, commands).grants, teams, depth, id)
  {
    RootOfPath(teams, depth, id);
    CoverageIsLineage(t.grants, teams, depth, id);
    RunKeepsOwner(cfg, t, commands, PathOf(teams, depth, id).value);
    CoverageIsLineage(Run(cfg, t, commands).grants, teams, depth, id);
  }

  /**
   * The guard skips the global team, so the promise holds for a path if and only if its first
   * segment is not "global".
   */
  lemma OwnerCoverageIff(cfg: Config, path: string)
    requires CleanPath(path) && OWNER in cfg.catalog.definitions
    ensures (forall t, id :: Consistent(cfg.catalog, t) && HasOwner(t.grants, path)
               ==> HasOwner(DeleteSpec(cfg, t, id).0.grants, path))
            <==> !UnderGlobal(path)
  {
    if UnderGlobal(path) {
      var subject := UnlockedSubject(cfg.defaultAdmins);
      var t := GlobalOwnerTables(cfg, subject, path);
      assert DeleteSpec(cfg, t, 1).0.grants == map[];
    } else {
      forall t, id | Consistent(cfg.catalog, t) && HasOwner(t.grants, path)
        ensures HasOwner(DeleteSpec(cfg, t, id).0.grants, path)
      {
        DeleteKeepsOwner(cfg, t, id, path);
      }
    }
  }

  /** The failing input: one owner grant, on the global team, is the path's only cover. */
  lemma GlobalOwnerTables(cfg: Config, subject: Entity, path: string) returns (t: Tables)
    requires CleanPath(path) && UnderGlobal(path) && OWNER in cfg.catalog.definitions
    requires subject !in cfg.defaultAdmins
    ensures Consistent(cfg.catalog, t) && HasOwner(t.grants, path)
    ensures t.grants == map[1 := Grant(subject, OWNER, Entity(TEAM, GLOBAL_ID), true, false)]
  {
    var g := Grant(subject, OWNER, Entity(TEAM, GLOBAL_ID), true, false);
    var start := Tables(map[], map[], map[], {}, 1);
    assert Consistent(cfg.catalog, start);
    assert GrantCheck(cfg, start, g) == None;
    GrantKeeps(cfg, start, g);
    t := GrantSpec(cfg, start, g).0;
    GuardEnds(path, GLOBAL_ID);
    assert '/' !in GLOBAL_ID;
    assert OwnsAbove(t.grants, 1, path);
  }

  /** However many default admins there are, some subject is none of them. */
  lemma UnlockedSubject(locked: set<Entity>) returns (subject: Entity)
    ensures subject !in locked
  {
    var n := LongestId(locked);
    subject := Entity("user", seq(n + 1, _ => 'u'));
  }

  lemma LongestId(entities: set<Entity>) returns (n: nat)
    ensures forall e :: e in entities ==> |e.id| <= n
    decreases |entities|
  {
    n := 0;
    if entities != {} {
      var e :| e in entities;
      var rest := LongestId(entities - {e});
      n := if |e.id| > rest then |e.id| else rest;
    }
  }
}
