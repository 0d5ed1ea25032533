/**
 * What each grant command does and refuses, and what whole runs leave behind, read off the grants
 * and the catalog alone.
 */
module GrantLaws {
  import opened Wrappers
  import opened RoleActions
  import opened TeamPaths
  import opened TaggedRows
  import opened AccessGrants
  import opened GrantRuns

  // ----- Admin bindings.

  ghost predicate AdminGrant(grants: map<int, Grant>, id: int, subject: Entity) {
    id in grants && grants[id].role == "admin" && grants[id].subject == subject
  }

  /** No local binding without an admin grant of its subject. */
  ghost predicate BindingsGranted(t: Tables) {
    forall subject :: Binding(subject, Local) in t.admins ==> exists id :: AdminGrant(t.grants, id, subject)
  }

  lemma DeleteKeepsGranted(cfg: Config, t: Tables, id: int)
    requires BindingsGranted(t)
    ensures BindingsGranted(DeleteSpec(cfg, t, id).0)
  {
    var r := DeleteSpec(cfg, t, id).0;
    forall subject | Binding(subject, Local) in r.admins ensures exists i :: AdminGrant(r.grants, i, subject) {
      var i :| AdminGrant(t.grants, i, subject);
      assert AdminGrant(r.grants, i, subject);
    }
  }

  lemma GrantKeepsGranted(cfg: Config, t: Tables, g: Grant)
    requires BindingsGranted(t) && t.nextId !in t.grants
    ensures BindingsGranted(GrantSpec(cfg, t, g).0)
  {
    var r := GrantSpec(cfg, t, g).0;
    forall subject | Binding(subject, Local) in r.admins ensures exists i :: AdminGrant(r.grants, i, subject) {
      if Binding(subject, Local) in t.admins {
        var i :| AdminGrant(t.grants, i, subject);
        assert AdminGrant(r.grants, i, subject);
      } else {
        assert AdminGrant(r.grants, t.nextId, subject);
      }
    }
  }

  lemma ReconcileKeepsGranted(cat: Catalog, t: Tables)
    requires BindingsGranted(t)
    ensures BindingsGranted(Reconciling(cat, t))
  {
    var r := Reconciling(cat, t);
    forall subject | Binding(subject, Local) in r.admins ensures exists i :: AdminGrant(r.grants, i, subject) {
      if Binding(subject, Local) in t.admins {
        var i :| AdminGrant(t.grants, i, subject);
        assert AdminGrant(r.grants, i, subject);
      } else {
        var i :| i in t.grants && Known(cat, t.grants[i]) && t.grants[i].role == ADMIN
                 && Binding(subject, Local) == Binding(t.grants[i].subject, Local);
        assert AdminGrant(r.grants, i, subject);
      }
    }
  }

  /**
   * Across every run of grants, deletes and reconciles the local admin bindings are exactly those
   * of the surviving admin grants, and bindings of an identity provider are left alone.
   */
  lemma {:induction false} RunKeepsAdminsExact(cfg: Config, t: Tables, commands: seq<Command>)
    requires Consistent(cfg.catalog, t) && BindingsGranted(t) && forall c :: c in commands ==> Resolved(c)
    ensures var r := Run(cfg, t, commands);
            && (forall subject ::
                  Binding(subject, Local) in r.admins <==> exists id :: AdminGrant(r.grants, id, subject))
            && (forall subject :: Binding(subject, Provider) in r.admins <==> Binding(subject, Provider) in t.admins)
    decreases |commands|
  {
    if commands == [] {
      forall subject, id | AdminGrant(t.grants, id, subject) ensures Binding(subject, Local) in t.admins {
        assert t.grants[id].role == ADMIN;
      }
    } else {
      match commands[0] {
        case Give(grant) =>
          GrantKeeps(cfg, t, grant);
          GrantKeepsGranted(cfg, t, grant);
        case Delete(id) =>
          DeleteKeeps(cfg, t, id);
          DeleteKeepsGranted(cfg, t, id);
        case Reconcile =>
          ReconcileKeeps(cfg.catalog, t);
          ReconcileKeepsGranted(cfg.catalog, t);
      }
      RunKeepsAdminsExact(cfg, Step(cfg, t, commands[0]), commands[1..]);
    }
  }

  // ----- One grant.

  /** The grant allows this action on its resource. */
  ghost predicate Allows(cat: Catalog, g: Grant, k: AclKey) {
    && g.role != "admin" && k.resource == g.resource && k.subject == g.subject && k.effect == "allow"
    && k.action in ApplicableActions(cat, g.role, g.resource.kind)
  }

  lemma AllowsIsDerived(cat: Catalog, g: Grant, k: AclKey)
    ensures Allows(cat, g, k) <==> k in AclOf(cat, g)
  {
    if Allows(cat, g, k) {
      assert k == AclKey(g.resource, g.subject, k.action, "allow");
    }
  }

  /**
   * A granted role is one more grant, an allow row for each applicable action, an ownership row for
   * an owner unless the pair has one, and a binding for an admin; all else stays.
   */
  lemma GrantAdds(cfg: Config, t: Tables, g: Grant)
    requires GrantSpec(cfg, t, g).1.Ok?
    ensures var r, id := GrantSpec(cfg, t, g).0, GrantSpec(cfg, t, g).1.value;
            && id == t.nextId && r.grants == t.grants[id := g] && r.nextId == id + 1
            && (forall k :: k in r.acl <==> k in t.acl || Allows(cfg.catalog, g, k))
            && (forall k :: k in r.acl ==> r.acl[k] == if Allows(cfg.catalog, g, k) then Some(id) else t.acl[k])
            && r.owners == (if g.role == "owner" && OwnerKey(g.resource, g.subject) !in t.owners
                            then t.owners[OwnerKey(g.resource, g.subject) := Some(id)] else t.owners)
            && r.admins == t.admins + if g.role == "admin" then {Binding(g.subject, Local)} else {}
  {
    forall k ensures Allows(cfg.catalog, g, k) <==> k in AclOf(cfg.catalog, g) {
      AllowsIsDerived(cfg.catalog, g, k);
    }
    OwnerInserted(t.owners, g, t.nextId);
  }

  ghost predicate Taken(grants: map<int, Grant>, g: Grant) {
    exists id :: id in grants && grants[id].subject == g.subject && grants[id].resource == g.resource
  }

  /** Admin is the one role for the platform, and the only resource for it; team grants are inherited. */
  predicate WellShaped(g: Grant) {
    (g.role == "admin" <==> g.resource.kind == "platform") && (g.resource.kind == "team" ==> g.inherit)
  }

  /** When a grant is refused, and with which error: the first reason in this order. */
  lemma GrantRefusedIff(cfg: Config, t: Tables, g: Grant)
    ensures var r, result := GrantSpec(cfg, t, g).0, GrantSpec(cfg, t, g).1;
            var free := g.role in cfg.catalog.definitions && g.subject !in cfg.defaultAdmins;
            var bound := g.role == "admin" && exists b :: b in t.admins && b.subject == g.subject;
            && (result.Err? ==> r == t)
            && (result == Err(UnknownRole) <==> g.role !in cfg.catalog.definitions)
            && (result == Err(DefaultAdminLocked)
                <==> g.role in cfg.catalog.definitions && g.subject in cfg.defaultAdmins)
            && (result == Err(AdminNeedsPlatform) <==> free && g.role == "admin" && g.resource.kind != "platform")
            && (result == Err(PlatformNeedsAdmin) <==> free && g.role != "admin" && g.resource.kind == "platform")
            && (result == Err(TeamMustInherit)
                <==> free && g.role != "admin" && g.resource.kind == "team" && !g.inherit)
            && (result == Err(AlreadyGranted) <==> free && WellShaped(g) && Taken(t.grants, g))
            && (result == Err(AdminAlreadyBound) <==> free && WellShaped(g) && !Taken(t.grants, g) && bound)
            && (result == Err(UniqueViolation)
                <==> free && WellShaped(g) && !Taken(t.grants, g) && !bound
                     && exists k :: k in t.acl && Allows(cfg.catalog, g, k))
            && (result.Ok?
                <==> free && WellShaped(g) && !Taken(t.grants, g) && !bound
                     && forall k :: k in t.acl ==> !Allows(cfg.catalog, g, k))
  {
    forall k ensures Allows(cfg.catalog, g, k) <==> k in AclOf(cfg.catalog, g) {
      AllowsIsDerived(cfg.catalog, g, k);
    }
  }

  // ----- One delete.

  /** A deleted grant is gone with every row tagged with it and, for an admin, with its local binding. */
  lemma DeleteRemoves(cfg: Config, t: Tables, id: int)
    requires DeleteSpec(cfg, t, id).1.None?
    ensures id in t.grants
    ensures var r := DeleteSpec(cfg, t, id).0;
            && r.grants == t.grants - {id} && r.nextId == t.nextId
            && (forall k :: k in r.acl <==> k in t.acl && t.acl[k] != Some(id))
            && (forall k :: k in r.acl ==> r.acl[k] == t.acl[k])
            && (forall k :: k in r.owners <==> k in t.owners && t.owners[k] != Some(id))
            && (forall k :: k in r.owners ==> r.owners[k] == t.owners[k])
            && r.admins == t.admins - if t.grants[id].role == "admin"
                                       then {Binding(t.grants[id].subject, Local)} else {}
  {
  }

  /** The team of an owner grant, outside global, would be left without an owner on its path. */
  ghost predicate LastOwner(grants: map<int, Grant>, id: int)
    requires id in grants
  {
    var g := grants[id];
    && g.role == "owner" && g.resource.kind == "team" && g.resource.id != "global" && id > 0
    && forall other ::
         (other in grants && other != id && grants[other].role == "owner" && grants[other].resource.kind == "team")
         ==> grants[other].resource.id !in GuardResourceIDs(g.resource.id)
  }

  /** When a delete is refused, and with which error: the first reason in this order. */
  lemma DeleteRefusedIff(cfg: Config, t: Tables, id: int)
    ensures var r, error := DeleteSpec(cfg, t, id).0, DeleteSpec(cfg, t, id).1;
            && (error.Some? ==> r == t)
            && (error == Some(NotFound) <==> id !in t.grants)
            && (error == Some(DefaultAdminLocked) <==> id in t.grants && t.grants[id].subject in cfg.defaultAdmins)
            && (error == Some(ManagedByProvider)
                <==> id in t.grants && t.grants[id].subject !in cfg.defaultAdmins && t.grants[id].fromProvider)
            && (error == Some(MustRetainOwner)
                <==> id in t.grants && t.grants[id].subject !in cfg.defaultAdmins && !t.grants[id].fromProvider
                     && LastOwner(t.grants, id))
            && (error == None
                <==> id in t.grants && t.grants[id].subject !in cfg.defaultAdmins && !t.grants[id].fromProvider
                     && !LastOwner(t.grants, id))
  {
  }

  // ----- One reconcile.

  /**
   * A reconcile changes no grant, binds the subject of every admin grant of a known role, drops no
   * binding, and leaves a row alone that neither is tagged with a grant of a known role nor is
   * called for by one.
   */
  lemma ReconcileLeaves(cat: Catalog, t: Tables, r: Tables)
    requires Reconciled(cat, t, r)
    ensures r.grants == t.grants && r.nextId == t.nextId && t.admins <= r.admins
    ensures forall b :: b in r.admins && b !in t.admins ==>
              b.source == Local && exists id :: AdminGrant(t.grants, id, b.subject)
    ensures forall id, subject :: AdminGrant(t.grants, id, subject) && Known(cat, t.grants[id]) ==>
              Binding(subject, Local) in r.admins
    ensures forall k :: k in t.acl && (t.acl[k].Some? ==> t.acl[k].value !in t.grants
                                                          || !Known(cat, t.grants[t.acl[k].value]))
                        && (forall id :: id in t.grants && Known(cat, t.grants[id]) ==> !Allows(cat, t.grants[id], k))
              ==> k in r.acl && r.acl[k] == t.acl[k]
  {
    forall b | b in r.admins && b !in t.admins
      ensures b.source == Local && exists id :: AdminGrant(t.grants, id, b.subject)
    {
      var id :| id in t.grants && t.grants[id].role == ADMIN && b == Binding(t.grants[id].subject, Local);
      assert AdminGrant(t.grants, id, b.subject);
    }
    forall id, k | id in t.grants ensures Allows(cat, t.grants[id], k) <==> k in AclOf(cat, t.grants[id]) {
      AllowsIsDerived(cat, t.grants[id], k);
    }
    var rows := AclRows(cat, t.grants);
    forall k | k in t.acl && (t.acl[k].Some? ==> t.acl[k].value !in rows)
               && (forall id :: id in t.grants && Known(cat, t.grants[id]) ==> !Allows(cat, t.grants[id], k))
      ensures k in r.acl && r.acl[k] == t.acl[k]
    {
      assert RebuiltRow(t.acl, rows, rows.Keys, r.acl, k);
    }
  }

  // ----- Whole runs.

  /** The rows tagged with a grant are those of its actions. */
  ghost predicate AllowsExactly(cat: Catalog, t: Tables) {
    forall k, id :: TaggedWith(t.acl, k, id) <==> AllowedBy(cat, t.grants, id, k)
  }

  ghost predicate AllowedBy(cat: Catalog, grants: map<int, Grant>, id: int, k: AclKey) {
    id in grants && Allows(cat, grants[id], k)
  }

  ghost predicate OwnerGrant(grants: map<int, Grant>, id: int, k: OwnerKey) {
    id in grants && grants[id].role == "owner" && k == OwnerKey(grants[id].resource, grants[id].subject)
  }

  /** An ownership row tagged with a grant is that owner grant's, and no owner grant lacks a row. */
  ghost predicate OwnsExactly(t: Tables) {
    && (forall k, id :: TaggedWith(t.owners, k, id) ==> OwnerGrant(t.grants, id, k))
    && (forall k, id :: OwnerGrant(t.grants, id, k) ==> k in t.owners)
  }

  lemma CalledIsAllowed(cat: Catalog, grants: map<int, Grant>, id: int, k: AclKey)
    ensures Calls(AclRows(cat, grants), id, k) <==> id in grants && Known(cat, grants[id]) && Allows(cat, grants[id], k)
  {
    if id in grants {
      AllowsIsDerived(cat, grants[id], k);
    }
  }

  lemma ConsistentAllows(cat: Catalog, t: Tables)
    requires Consistent(cat, t)
    ensures AllowsExactly(cat, t)
  {
    forall k, id ensures TaggedWith(t.acl, k, id) <==> AllowedBy(cat, t.grants, id, k) {
      CalledIsAllowed(cat, t.grants, id, k);
    }
  }

  lemma ConsistentOwns(cat: Catalog, t: Tables)
    requires Consistent(cat, t)
    ensures OwnsExactly(t)
  {
    var rows := OwnerRows(cat, t.grants);
    forall k, id | TaggedWith(t.owners, k, id) ensures OwnerGrant(t.grants, id, k) {
      assert Calls(rows, id, k);
    }
    forall k, id | OwnerGrant(t.grants, id, k) ensures k in t.owners {
      assert Calls(rows, id, k);
    }
  }

  /** After any run, the tagged rows are what the surviving grants allow and own. */
  lemma {:induction false} RunAllowsExactly(cfg: Config, t: Tables, commands: seq<Command>)
    requires Consistent(cfg.catalog, t) && forall c :: c in commands ==> Resolved(c)
    ensures AllowsExactly(cfg.catalog, Run(cfg, t, commands)) && OwnsExactly(Run(cfg, t, commands))
  {
    RunKeeps(cfg, t, commands);
    ConsistentAllows(cfg.catalog, Run(cfg, t, commands));
    ConsistentOwns(cfg.catalog, Run(cfg, t, commands));
  }
}
