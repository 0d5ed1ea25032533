/**
 * services/nopsai product role grants: granting, deleting and reconciling, over the grants table
 * and the ACL, ownership and admin-binding tables derived from it.
 */
module AccessGrants {
  import opened Wrappers
  import opened RoleActions
  import opened TeamPaths
  import opened TaggedRows

  const ADMIN := "admin"
  const OWNER := "owner"
  const TEAM := "team"
  const PLATFORM := "platform"
  const PLATFORM_ID := "default"
  const GLOBAL_ID := "global"

  /** A typed id: a subject or a resource. */
  datatype Entity = Entity(kind: string, id: string)

  datatype Grant = Grant(subject: Entity, role: string, resource: Entity, inherit: bool, fromProvider: bool)

  /** The columns of the unique constraint on resource_acl. */
  datatype AclKey = AclKey(resource: Entity, subject: Entity, action: string, effect: string)

  /** The columns of the unique constraint on resource_ownership. */
  datatype OwnerKey = OwnerKey(resource: Entity, owner: Entity)

  datatype Source = Local | Provider

  datatype Binding = Binding(subject: Entity, source: Source)

  datatype Error =
    | NotFound | UnknownRole | DefaultAdminLocked | ManagedByProvider
    | AdminNeedsPlatform | PlatformNeedsAdmin | TeamMustInherit
    | MustRetainOwner | AlreadyGranted | AdminAlreadyBound | UniqueViolation

  datatype Tables = Tables(
    grants: map<int, Grant>,
    acl: Table<AclKey>,
    owners: Table<OwnerKey>,
    admins: set<Binding>,
    nextId: int)

  datatype Config = Config(catalog: Catalog, defaultAdmins: set<Entity>)

  ghost predicate Known(cat: Catalog, g: Grant) {
    g.role in cat.definitions
  }

  /** The ACL rows a grant calls for: one allow row for each applicable action; none for admin. */
  ghost function AclOf(cat: Catalog, g: Grant): set<AclKey> {
    if g.role == ADMIN then {}
    else set a | a in ApplicableActions(cat, g.role, g.resource.kind) :: AclKey(g.resource, g.subject, a, "allow")
  }

  ghost function OwnersOf(g: Grant): set<OwnerKey> {
    if g.role == OWNER then {OwnerKey(g.resource, g.subject)} else {}
  }

  ghost function AclRows(cat: Catalog, grants: map<int, Grant>): Rows<AclKey> {
    map id | id in grants && Known(cat, grants[id]) :: AclOf(cat, grants[id])
  }

  ghost function OwnerRows(cat: Catalog, grants: map<int, Grant>): Rows<OwnerKey> {
    map id | id in grants && Known(cat, grants[id]) :: OwnersOf(grants[id])
  }

  /** UNIQUE(subject_type, subject_id, resource_type, resource_id). */
  ghost predicate OneGrantPerPair(grants: map<int, Grant>) {
    forall i, j :: i in grants && j in grants
      ==> (grants[i].subject == grants[j].subject && grants[i].resource == grants[j].resource ==> i == j)
  }

  lemma RowsAreSeparate(cat: Catalog, grants: map<int, Grant>)
    requires OneGrantPerPair(grants)
    ensures Separate(AclRows(cat, grants)) && Separate(OwnerRows(cat, grants))
  {
  }

  ghost predicate AdminsBound(t: Tables) {
    forall id :: id in t.grants && t.grants[id].role == ADMIN
      ==> t.grants[id].resource == Entity(PLATFORM, PLATFORM_ID) && Binding(t.grants[id].subject, Local) in t.admins
  }

  /**
   * What every command keeps. The ACL rows with a tag are exactly the derived ones; an ownership
   * row that was already there without a tag is left without one.
   */
  ghost predicate Consistent(cat: Catalog, t: Tables) {
    && t.nextId > 0
    && (forall id :: id in t.grants ==> 0 < id < t.nextId && Known(cat, t.grants[id]))
    && OneGrantPerPair(t.grants)
    && AdminsBound(t)
    && Indexed(t.acl, AclRows(cat, t.grants))
    && Covered(t.owners, OwnerRows(cat, t.grants))
  }

  function ShapeError(role: string, resource: Entity, inherit: bool): Option<Error> {
    if role == ADMIN then
      if resource.kind != PLATFORM then Some(AdminNeedsPlatform) else None
    else if resource.kind == PLATFORM then Some(PlatformNeedsAdmin)
    else if resource.kind == TEAM && !inherit then Some(TeamMustInherit)
    else None
  }

  /** An owner grant other than `exclude` on the team or on a prefix of its path. */
  predicate OtherOwner(grants: map<int, Grant>, team: string, exclude: int) {
    exists id :: id in grants && id != exclude && grants[id].role == OWNER && grants[id].resource.kind == TEAM
              && grants[id].resource.id in GuardResourceIDs(team)
  }

  function OwnerGuardError(grants: map<int, Grant>, role: string, resource: Entity, exclude: int): Option<Error> {
    if resource.kind != TEAM || resource.id == GLOBAL_ID || role != OWNER then None
    else if exclude > 0 && !OtherOwner(grants, resource.id, exclude) then Some(MustRetainOwner)
    else None
  }

  predicate Exists(grants: map<int, Grant>, subject: Entity, resource: Entity) {
    exists id :: id in grants && grants[id].subject == subject && grants[id].resource == resource
  }

  /** GrantProductRole up to its first write: the errors in the order they are raised. */
  function GrantCheck(cfg: Config, t: Tables, g: Grant): Option<Error> {
    if g.role !in cfg.catalog.definitions then Some(UnknownRole)
    else if g.subject in cfg.defaultAdmins then Some(DefaultAdminLocked)
    else if ShapeError(g.role, g.resource, g.inherit).Some? then ShapeError(g.role, g.resource, g.inherit)
    else if OwnerGuardError(t.grants, g.role, g.resource, 0).Some? then OwnerGuardError(t.grants, g.role, g.resource, 0)
    else if Exists(t.grants, g.subject, g.resource) then Some(AlreadyGranted)
    else if g.role == ADMIN && exists b :: b in t.admins && b.subject == g.subject then Some(AdminAlreadyBound)
    else None
  }

  ghost function GrantSpec(cfg: Config, t: Tables, g: Grant): (Tables, Result<int, Error>) {
    var error := GrantCheck(cfg, t, g);
    var keys := AclOf(cfg.catalog, g);
    if error.Some? then (t, Err(error.value))
    else if exists k :: k in keys && k in t.acl then (t, Err(UniqueViolation))
    else (Tables(
            t.grants[t.nextId := g],
            Upsert(t.acl, keys, t.nextId),
            InsertMissing(t.owners, OwnersOf(g), t.nextId),
            if g.role == ADMIN then t.admins + {Binding(g.subject, Local)} else t.admins,
            t.nextId + 1),
          Ok(t.nextId))
  }

  function DeleteCheck(cfg: Config, t: Tables, id: int): Option<Error> {
    if id !in t.grants then Some(NotFound)
    else
      var g := t.grants[id];
      if g.subject in cfg.defaultAdmins then Some(DefaultAdminLocked)
      else if g.fromProvider then Some(ManagedByProvider)
      else OwnerGuardError(t.grants, g.role, g.resource, id)
  }

  function DeleteSpec(cfg: Config, t: Tables, id: int): (Tables, Option<Error>) {
    var error := DeleteCheck(cfg, t, id);
    if error.Some? then (t, error)
    else
      var g := t.grants[id];
      (Tables(
         t.grants - {id},
         Untag(t.acl, id),
         Untag(t.owners, id),
         if g.role == ADMIN then t.admins - {Binding(g.subject, Local)} else t.admins,
         t.nextId),
       None)
  }

  /** reconcileProductAccessGrants, as a relation: it rebuilds for every grant of a known role. */
  ghost predicate Reconciled(cat: Catalog, t: Tables, r: Tables) {
    && r.grants == t.grants && r.nextId == t.nextId
    && Rebuilt(t.acl, AclRows(cat, t.grants), AclRows(cat, t.grants).Keys, r.acl)
    && Rebuilt(t.owners, OwnerRows(cat, t.grants), OwnerRows(cat, t.grants).Keys, r.owners)
    && r.admins == t.admins + BoundAdmins(cat, t.grants, t.grants.Keys)
  }

  ghost function BoundAdmins(cat: Catalog, grants: map<int, Grant>, ids: set<int>): set<Binding> {
    set id | id in ids && id in grants && Known(cat, grants[id]) && grants[id].role == ADMIN
      :: Binding(grants[id].subject, Local)
  }

  /** The database as the commands see it; each method is one transaction, all or nothing. */
  class GrantStore {
    const cfg: Config
    var grants: map<int, Grant>
    var acl: Table<AclKey>
    var owners: Table<OwnerKey>
    var admins: set<Binding>
    var nextId: int

    function View(): Tables
      reads this
    {
      Tables(grants, acl, owners, admins, nextId)
    }

    constructor (cfg: Config)
      ensures this.cfg == cfg && Consistent(cfg.catalog, View()) && View() == Tables(map[], map[], map[], {}, 1)
    {
      this.cfg := cfg;
      grants, acl, owners, admins, nextId := map[], map[], map[], {}, 1;
    }

    method GrantProductRole(g: Grant) returns (result: Result<int, Error>)
      modifies this
      ensures (View(), result) == GrantSpec(cfg, old(View()), g)
    {
      var error := GrantCheck(cfg, View(), g);
      if error.Some? {
        return Err(error.value);
      }
      var id := nextId;
      if g.role == ADMIN {
        NothingInserted(View(), g);
        grants, nextId := grants[id := g], id + 1;
        admins := admins + {Binding(g.subject, Local)};
        return Ok(id);
      }
      var actions := ApplicableProductRoleActions(cfg.catalog, g.role, g.resource.kind);
      var inserted := InsertAcl(acl, g, actions, id);
      KeysForAll(cfg.catalog, g, actions);
      if inserted.None? {
        return Err(UniqueViolation);
      }
      acl := inserted.value;
      OwnerInserted(owners, g, id);
      if g.role == OWNER && OwnerKey(g.resource, g.subject) !in owners {
        owners := owners[OwnerKey(g.resource, g.subject) := Some(id)];
      }
      grants, nextId := grants[id := g], id + 1;
      return Ok(id);
    }

    method DeleteProductRoleGrant(id: int) returns (error: Option<Error>)
      modifies this
      ensures (View(), error) == DeleteSpec(cfg, old(View()), id)
      ensures error.None? ==> id in old(grants) && grants == old(grants) - {id}
      ensures error.None? && old(grants)[id].role == "admin" ==>
                admins == old(admins) - {Binding(old(grants)[id].subject, Local)}
    {
      error := DeleteCheck(cfg, View(), id);
      if error.Some? {
        return;
      }
      var g := grants[id];
      if g.role == ADMIN {
        admins := admins - {Binding(g.subject, Local)};
      }
      grants := grants - {id};
      acl, owners := Untag(acl, id), Untag(owners, id);
    }

    /** `rows` is the result of the query over access_grants, in whatever order. */
    method ReconcileProductAccessGrants(rows: seq<int>)
      requires OneGrantPerPair(grants)
      requires NoRepeats(rows) && Seen(rows) == grants.Keys
      modifies this
      ensures Reconciled(cfg.catalog, old(View()), View())
    {
      for i := 0 to |rows|
        invariant ReconciledFor(cfg.catalog, old(View()), rows[..i], View())
      {
        assert rows[i] in Seen(rows);
        ReconcileStep(cfg.catalog, old(View()), rows, i, View());
        if grants[rows[i]].role in cfg.catalog.definitions {
          ReconcileOne(rows[i]);
        }
      }
      assert rows[..|rows|] == rows;
      KnownInAll(cfg.catalog, grants, rows);
    }

    /** One iteration of the reconcile loop, for a grant of a known role. */
    method ReconcileOne(id: int)
      requires id in grants && Known(cfg.catalog, grants[id])
      modifies `acl, `owners, `admins
      ensures View() == ReconcileOneSpec(cfg.catalog, old(View()), id)
    {
      var g := grants[id];
      acl, owners := Untag(acl, id), Untag(owners, id);
      UpsertFew(acl, AclKey(g.resource, g.subject, "", "allow"), id);
      UpsertFew(owners, OwnerKey(g.resource, g.subject), id);
      if g.role == ADMIN {
        admins := admins + {Binding(g.subject, Local)};
        return;
      }
      var actions := ApplicableProductRoleActions(cfg.catalog, g.role, g.resource.kind);
      KeysForAll(cfg.catalog, g, actions);
      acl := UpsertAcl(acl, g, actions, id);
      if g.role == OWNER {
        owners := owners[OwnerKey(g.resource, g.subject) := Some(id)];
      }
    }
  }

  ghost function ReconcileOneSpec(cat: Catalog, t: Tables, id: int): Tables
    requires id in t.grants
  {
    var g := t.grants[id];
    t.(acl := RebuildOne(t.acl, id, AclOf(cat, g)),
       owners := RebuildOne(t.owners, id, OwnersOf(g)),
       admins := t.admins + if g.role == ADMIN then {Binding(g.subject, Local)} else {})
  }

  /** What the loop has made of the tables once it is past `rows`. */
  ghost predicate ReconciledFor(cat: Catalog, t: Tables, rows: seq<int>, r: Tables) {
    && r.grants == t.grants && r.nextId == t.nextId
    && Rebuilt(t.acl, AclRows(cat, t.grants), KnownIn(cat, t.grants, rows), r.acl)
    && Rebuilt(t.owners, OwnerRows(cat, t.grants), KnownIn(cat, t.grants, rows), r.owners)
    && r.admins == t.admins + BoundAdmins(cat, t.grants, Seen(rows))
  }

  lemma ReconcileStep(cat: Catalog, t: Tables, rows: seq<int>, i: nat, r: Tables)
    requires OneGrantPerPair(t.grants) && NoRepeats(rows) && i < |rows| && rows[i] in t.grants
    requires ReconciledFor(cat, t, rows[..i], r)
    ensures ReconciledFor(cat, t, rows[..i + 1],
              if Known(cat, t.grants[rows[i]]) then ReconcileOneSpec(cat, r, rows[i]) else r)
  {
    var done := KnownIn(cat, t.grants, rows[..i]);
    ReconcileProgress(cat, t.grants, rows, i);
    RowsAreSeparate(cat, t.grants);
    if Known(cat, t.grants[rows[i]]) {
      RebuildStep(t.acl, AclRows(cat, t.grants), done, r.acl, rows[i]);
      RebuildStep(t.owners, OwnerRows(cat, t.grants), done, r.owners, rows[i]);
    } else {
      assert KnownIn(cat, t.grants, rows[..i + 1]) == done;
    }
  }

  lemma OwnerInserted(owners: Table<OwnerKey>, g: Grant, id: int)
    ensures var key := OwnerKey(g.resource, g.subject);
            InsertMissing(owners, OwnersOf(g), id)
            == if g.role == OWNER && key !in owners then owners[key := Some(id)] else owners
  {
  }

  /** The InsertResourceACL loop; None is the unique violation that rolls the transaction back. */
  method InsertAcl(acl: Table<AclKey>, g: Grant, actions: seq<string>, id: int) returns (r: Option<Table<AclKey>>)
    requires NoDuplicates(actions)
    ensures r == if exists k :: k in KeysFor(g, actions) && k in acl then None
                 else Some(Upsert(acl, KeysFor(g, actions), id))
  {
    var table := acl;
    for i := 0 to |actions|
      invariant forall k :: k in KeysFor(g, actions[..i]) ==> k !in acl
      invariant table == Upsert(acl, KeysFor(g, actions[..i]), id)
    {
      var key := AclKey(g.resource, g.subject, actions[i], "allow");
      KeysForStep(g, actions, i);
      if key in table {
        assert key in KeysFor(g, actions);
        return None;
      }
      table := table[key := Some(id)];
    }
    assert actions[..|actions|] == actions;
    return Some(table);
  }

  /** The UpsertResourceACL loop. */
  method UpsertAcl(acl: Table<AclKey>, g: Grant, actions: seq<string>, id: int) returns (r: Table<AclKey>)
    ensures r == Upsert(acl, KeysFor(g, actions), id)
  {
    r := acl;
    for i := 0 to |actions|
      invariant r == Upsert(acl, KeysFor(g, actions[..i]), id)
    {
      KeysForStep(g, actions, i);
      r := r[AclKey(g.resource, g.subject, actions[i], "allow") := Some(id)];
    }
    assert actions[..|actions|] == actions;
  }

  lemma KeysForAll(cat: Catalog, g: Grant, actions: seq<string>)
    requires g.role != ADMIN && Members(actions) == ApplicableActions(cat, g.role, g.resource.kind)
    ensures KeysFor(g, actions) == AclOf(cat, g)
  {
    assert forall a :: a in actions <==> a in Members(actions);
  }

  lemma KnownInAll(cat: Catalog, grants: map<int, Grant>, rows: seq<int>)
    requires Seen(rows) == grants.Keys
    ensures KnownIn(cat, grants, rows) == AclRows(cat, grants).Keys == OwnerRows(cat, grants).Keys
  {
    assert forall id :: id in rows <==> id in Seen(rows);
  }

  predicate NoRepeats(rows: seq<int>) {
    forall i, j :: 0 <= i < j < |rows| ==> rows[i] != rows[j]
  }

  ghost function KeysFor(g: Grant, actions: seq<string>): set<AclKey> {
    set a | a in actions :: AclKey(g.resource, g.subject, a, "allow")
  }

  lemma KeysForStep(g: Grant, actions: seq<string>, i: nat)
    requires i < |actions|
    ensures KeysFor(g, actions[..i + 1])
         == KeysFor(g, actions[..i]) + {AclKey(g.resource, g.subject, actions[i], "allow")}
    ensures NoDuplicates(actions) ==> AclKey(g.resource, g.subject, actions[i], "allow") !in KeysFor(g, actions[..i])
  {
    assert actions[..i + 1] == actions[..i] + [actions[i]];
    assert forall x :: x in actions[..i + 1] <==> x in actions[..i] || x == actions[i];
  }

  lemma NothingInserted(t: Tables, g: Grant)
    requires g.role == ADMIN
    ensures Upsert(t.acl, {}, t.nextId) == t.acl && InsertMissing(t.owners, OwnersOf(g), t.nextId) == t.owners
  {
  }

  ghost function Seen(rows: seq<int>): set<int> {
    set id | id in rows
  }

  ghost function KnownIn(cat: Catalog, grants: map<int, Grant>, rows: seq<int>): set<int> {
    set id | id in rows && id in grants && Known(cat, grants[id])
  }

  lemma ReconcileProgress(cat: Catalog, grants: map<int, Grant>, rows: seq<int>, i: nat)
    requires i < |rows| && NoRepeats(rows) && rows[i] in grants
    ensures rows[i] !in KnownIn(cat, grants, rows[..i])
    ensures KnownIn(cat, grants, rows[..i + 1])
         == KnownIn(cat, grants, rows[..i]) + if Known(cat, grants[rows[i]]) then {rows[i]} else {}
    ensures BoundAdmins(cat, grants, Seen(rows[..i + 1]))
         == BoundAdmins(cat, grants, Seen(rows[..i]))
            + if Known(cat, grants[rows[i]]) && grants[rows[i]].role == ADMIN
              then {Binding(grants[rows[i]].subject, Local)} else {}
  {
    assert rows[..i + 1] == rows[..i] + [rows[i]];
    assert forall x :: x in rows[..i + 1] <==> x in rows[..i] || x == rows[i];
  }
}
