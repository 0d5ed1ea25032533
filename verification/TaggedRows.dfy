/**
 * A table with a unique key per row and an optional reference to the grant a row was derived
 * from, as resource_acl and resource_ownership are; deleting a grant deletes its rows.
 */
module TaggedRows {
  import opened Wrappers

  type Table<!K> = map<K, Option<int>>

  /** The rows each grant calls for. */
  type Rows<!K> = map<int, set<K>>

  /** Grant `id` calls for row `k`. */
  ghost predicate Calls<K(!new)>(rows: Rows<K>, id: int, k: K) {
    id in rows && k in rows[id]
  }

  ghost predicate TaggedWith<K(!new)>(t: Table<K>, k: K, id: int) {
    k in t && t[k] == Some(id)
  }

  /** No two grants call for the same row. */
  ghost predicate Separate<K(!new)>(rows: Rows<K>) {
    forall i, j, k :: Calls(rows, i, k) && Calls(rows, j, k) ==> i == j
  }

  /** Every tag refers to one of these grants. */
  ghost predicate TagsWithin<K(!new)>(t: Table<K>, rows: Rows<K>) {
    forall k, id :: TaggedWith(t, k, id) ==> id in rows
  }

  /** DELETE ... WHERE access_grant_id = id, also what ON DELETE CASCADE does. */
  function Untag<K(!new)>(t: Table<K>, id: int): (r: Table<K>)
    ensures forall k :: k in r <==> k in t && t[k] != Some(id)
    ensures forall k :: k in r ==> r[k] == t[k]
  {
    map k | k in t && t[k] != Some(id) :: t[k]
  }

  /** INSERT ... ON CONFLICT DO UPDATE SET access_grant_id. */
  function Upsert<K(!new)>(t: Table<K>, keys: set<K>, id: int): (r: Table<K>)
    ensures forall k :: k in r <==> k in t || k in keys
    ensures forall k :: k in r ==> r[k] == if k in keys then Some(id) else t[k]
  {
    map k | k in t.Keys + keys :: if k in keys then Some(id) else t[k]
  }

  lemma UpsertFew<K(!new)>(t: Table<K>, k: K, id: int)
    ensures Upsert(t, {}, id) == t && Upsert(t, {k}, id) == t[k := Some(id)]
  {
  }

  /** INSERT ... ON CONFLICT DO NOTHING. */
  function InsertMissing<K(!new)>(t: Table<K>, keys: set<K>, id: int): (r: Table<K>)
    ensures forall k :: k in r <==> k in t || k in keys
    ensures forall k :: k in r ==> r[k] == if k in t then t[k] else Some(id)
  {
    map k | k in t.Keys + keys :: if k in t then t[k] else Some(id)
  }

  /** The rows tagged with a grant are exactly the rows that grant calls for. */
  ghost predicate Indexed<K(!new)>(t: Table<K>, rows: Rows<K>) {
    forall k, id :: TaggedWith(t, k, id) <==> Calls(rows, id, k)
  }

  /** As Indexed, but a row a grant calls for may still lie there untagged. */
  ghost predicate Covered<K(!new)>(t: Table<K>, rows: Rows<K>) {
    && (forall k, id :: TaggedWith(t, k, id) ==> Calls(rows, id, k))
    && (forall k, id :: Calls(rows, id, k) ==> k in t && (t[k] == None || TaggedWith(t, k, id)))
  }

  ghost predicate NoneUnadopted<K(!new)>(t: Table<K>, rows: Rows<K>) {
    forall k, id :: Calls(rows, id, k) && k in t ==> t[k] != None
  }

  lemma IndexedIsCoveredAndAdopted<K(!new)>(t: Table<K>, rows: Rows<K>)
    ensures Indexed(t, rows) <==> Covered(t, rows) && NoneUnadopted(t, rows)
  {
  }

  /** Rebuilding for one grant: drop what is tagged with it, then claim what it calls for. */
  function RebuildOne<K(!new)>(t: Table<K>, id: int, keys: set<K>): Table<K> {
    Upsert(Untag(t, id), keys, id)
  }

  /** What a rebuild for the grants in `done` makes of one row, read off the starting table. */
  ghost predicate RebuiltRow<K(!new)>(t: Table<K>, rows: Rows<K>, done: set<int>, r: Table<K>, k: K) {
    && (forall id :: id in done && Calls(rows, id, k) ==> TaggedWith(r, k, id))
    && ((forall id :: id in done ==> !Calls(rows, id, k)) ==>
          if k in t && (t[k].Some? ==> t[k].value !in done) then k in r && r[k] == t[k] else k !in r)
  }

  ghost predicate Rebuilt<K(!new)>(t: Table<K>, rows: Rows<K>, done: set<int>, r: Table<K>) {
    forall k :: RebuiltRow(t, rows, done, r, k)
  }

  ghost predicate CalledFor<K(!new)>(rows: Rows<K>, k: K) {
    exists id :: Calls(rows, id, k)
  }

  /** The rebuilt table, written down: called rows tagged with their caller, unclaimed rows as they were. */
  ghost function Rebuild<K(!new)>(t: Table<K>, rows: Rows<K>): Table<K> {
    map k | k in t.Keys + AllKeys(rows) && (CalledFor(rows, k) || (t[k].Some? ==> t[k].value !in rows)) ::
      if CalledFor(rows, k) then Some(Caller(rows, k)) else t[k]
  }

  ghost function AllKeys<K(!new)>(rows: Rows<K>): (keys: set<K>)
    ensures forall k :: k in keys <==> CalledFor(rows, k)
  {
    set id, k | id in rows && k in rows[id] && Calls(rows, id, k) :: k
  }

  ghost function Caller<K(!new)>(rows: Rows<K>, k: K): (id: int)
    requires CalledFor(rows, k)
    ensures Calls(rows, id, k)
  {
    var id :| Calls(rows, id, k);
    id
  }

  lemma RebuildIsRebuilt<K(!new)>(t: Table<K>, rows: Rows<K>)
    requires Separate(rows)
    ensures Rebuilt(t, rows, rows.Keys, Rebuild(t, rows))
  {
    var r := Rebuild(t, rows);
    forall k ensures RebuiltRow(t, rows, rows.Keys, r, k) {
      forall id | Calls(rows, id, k) ensures TaggedWith(r, k, id) {
        assert Calls(rows, Caller(rows, k), k);
      }
      if forall id :: id in rows.Keys ==> !Calls(rows, id, k) {
        assert !CalledFor(rows, k);
      }
    }
  }

  lemma RebuildStep<K(!new)>(t: Table<K>, rows: Rows<K>, done: set<int>, r: Table<K>, id: int)
    requires Separate(rows) && Rebuilt(t, rows, done, r) && id in rows && id !in done
    ensures Rebuilt(t, rows, done + {id}, RebuildOne(r, id, rows[id]))
  {
    var next := RebuildOne(r, id, rows[id]);
    forall k ensures RebuiltRow(t, rows, done + {id}, next, k) {
      assert RebuiltRow(t, rows, done, r, k);
      if Calls(rows, id, k) {
        assert TaggedWith(next, k, id);
      } else if i :| i in done && Calls(rows, i, k) {
        assert TaggedWith(r, k, i);
      }
    }
  }

  /** The outcome is fixed by the starting table and the grants, whatever the order. */
  lemma RebuiltIsUnique<K(!new)>(t: Table<K>, rows: Rows<K>, done: set<int>, a: Table<K>, b: Table<K>)
    requires Rebuilt(t, rows, done, a) && Rebuilt(t, rows, done, b)
    ensures a == b
  {
    forall k ensures k in a <==> k in b
      ensures k in a ==> a[k] == b[k]
    {
      assert RebuiltRow(t, rows, done, a, k) && RebuiltRow(t, rows, done, b, k);
      if i :| i in done && Calls(rows, i, k) {
        assert TaggedWith(a, k, i) && TaggedWith(b, k, i);
      }
    }
  }

  /** When every tag refers to a rebuilt grant, the rebuilt table is exactly the index. */
  lemma RebuiltIsIndexed<K(!new)>(t: Table<K>, rows: Rows<K>, r: Table<K>)
    requires Rebuilt(t, rows, rows.Keys, r) && TagsWithin(t, rows)
    ensures Indexed(r, rows) && TagsWithin(r, rows)
  {
    forall k, id ensures TaggedWith(r, k, id) <==> Calls(rows, id, k) {
      assert RebuiltRow(t, rows, rows.Keys, r, k);
      if TaggedWith(r, k, id) && !Calls(rows, id, k) {
        assert forall i :: Calls(rows, i, k) ==> i in rows.Keys && TaggedWith(r, k, i);
        assert TaggedWith(t, k, id);
      }
    }
  }

  lemma IndexedIsRebuilt<K(!new)>(t: Table<K>, rows: Rows<K>)
    requires Indexed(t, rows)
    ensures Rebuilt(t, rows, rows.Keys, t)
  {
    forall k ensures RebuiltRow(t, rows, rows.Keys, t, k) {
      if k in t && t[k].Some? {
        assert TaggedWith(t, k, t[k].value);
      }
    }
  }

  /** A rebuild leaves a table alone exactly when it already is the index. */
  lemma RebuildIsNoOpIffIndexed<K(!new)>(t: Table<K>, rows: Rows<K>, r: Table<K>)
    requires Rebuilt(t, rows, rows.Keys, r) && TagsWithin(t, rows)
    ensures r == t <==> Indexed(t, rows)
  {
    RebuiltIsIndexed(t, rows, r);
    if Indexed(t, rows) {
      IndexedIsRebuilt(t, rows);
      RebuiltIsUnique(t, rows, rows.Keys, r, t);
    }
  }

  /** Rebuilding what has just been rebuilt changes nothing, whatever the first table was. */
  lemma RebuildTwice<K(!new)>(t: Table<K>, rows: Rows<K>, r: Table<K>, again: Table<K>)
    requires Rebuilt(t, rows, rows.Keys, r) && Rebuilt(r, rows, rows.Keys, again)
    ensures again == r
  {
    forall k ensures RebuiltRow(r, rows, rows.Keys, r, k) {
      assert RebuiltRow(t, rows, rows.Keys, r, k);
    }
    RebuiltIsUnique(r, rows, rows.Keys, again, r);
  }
}
