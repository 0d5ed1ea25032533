/**
 * services/agent knowledge selection: references from pipeline, step and task are resolved to
 * snapshots, and an inner reference overrides an outer one to the same thing.
 */
module KnowledgeContext {
  import opened Wrappers
  import opened Text

  datatype Ref = Ref(kind: string, ref: string, path: string)

  datatype Snapshot = Snapshot(kind: string, ref: string, path: string, content: string)

  datatype ScopedRef = ScopedRef(ref: Ref, scopeOrder: int, sequence: int)

  datatype Item = Item(snapshot: Snapshot, scopeOrder: int, sequence: int, key: string)

  function NormalValue(value: string): string {
    TrimSlashes(TrimSpace(ReplaceAll(value, '\\', '/')))
  }

  function NormalPath(value: string): string {
    var normal := NormalValue(value);
    if normal == "." then "" else normal
  }

  type Index = map<string, Snapshot>

  /** The two lookup tables: a later snapshot replaces an earlier one of the same name. */
  datatype Indexes = Indexes(byRef: Index, byPath: Index) {
    function Add(s: Snapshot): Indexes {
      var kind, ref, path := NormalValue(s.kind), NormalValue(s.ref), NormalPath(s.path);
      if kind == "" then this
      else Indexes(if ref != "" then byRef[kind + "|" + ref := s] else byRef,
                   if path != "" then byPath[kind + "|" + path := s] else byPath)
    }
  }

  function IndexesOf(snapshots: seq<Snapshot>): Indexes {
    if snapshots == [] then Indexes(map[], map[])
    else IndexesOf(snapshots[..|snapshots| - 1]).Add(snapshots[|snapshots| - 1])
  }

  /** The key a reference is overridden by, and the snapshot it names if it has content. */
  function Resolve(indexes: Indexes, r: Ref): Option<(string, Snapshot)> {
    var kind, ref, path := NormalValue(r.kind), NormalValue(r.ref), NormalPath(r.path);
    if kind == "" then None
    else if ref != "" then WithContent("ref:", kind + "|" + ref, indexes.byRef)
    else if path != "" then WithContent("path:", kind + "|" + path, indexes.byPath)
    else None
  }

  function WithContent(prefix: string, name: string, index: Index): Option<(string, Snapshot)> {
    if name in index && index[name].content != "" then Some((prefix + name, index[name])) else None
  }

  function Numbered(refs: seq<Ref>, scopeOrder: int, first: int): (r: seq<ScopedRef>)
    ensures |r| == |refs|
    ensures forall i :: 0 <= i < |refs| ==> r[i] == ScopedRef(refs[i], scopeOrder, first + i)
  {
    seq(|refs|, i requires 0 <= i < |refs| => ScopedRef(refs[i], scopeOrder, first + i))
  }

  /** Pipeline references, then step references, then task references, numbered throughout. */
  function ScopedRefs(pipeline: seq<Ref>, step: seq<Ref>, task: seq<Ref>): seq<ScopedRef> {
    Numbered(pipeline, 0, 0) + Numbered(step, 1, |pipeline|) + Numbered(task, 2, |pipeline| + |step|)
  }

  function ItemOf(indexes: Indexes, r: ScopedRef): (item: Option<Item>)
    ensures item.Some? ==> CarriedBy(item.value, r)
  {
    match Resolve(indexes, r.ref)
    case None => None
    case Some((key, snapshot)) => Some(Item(snapshot, r.scopeOrder, r.sequence, key))
  }

  predicate CarriedBy(e: Item, r: ScopedRef) {
    e.scopeOrder == r.scopeOrder && e.sequence == r.sequence
  }

  /** The values present, in order. */
  function Somes(options: seq<Option<Item>>): seq<Item> {
    if options == [] then []
    else
      var before, last := Somes(options[..|options| - 1]), options[|options| - 1];
      if last.None? then before else before + [last.value]
  }

  lemma {:induction false} SomesAre(options: seq<Option<Item>>, e: Item)
    ensures e in Somes(options) <==> Some(e) in options
    decreases |options|
  {
    if options != [] {
      SomesAre(options[..|options| - 1], e);
      assert options == options[..|options| - 1] + [options[|options| - 1]];
    }
  }

  function Resolved(indexes: Indexes, refs: seq<ScopedRef>): (r: seq<Option<Item>>)
    ensures |r| == |refs| && forall i :: 0 <= i < |refs| ==> r[i] == ItemOf(indexes, refs[i])
  {
    seq(|refs|, i requires 0 <= i < |refs| => ItemOf(indexes, refs[i]))
  }

  /** The references that resolve, in order. */
  function Items(indexes: Indexes, refs: seq<ScopedRef>): seq<Item> {
    Somes(Resolved(indexes, refs))
  }

  lemma ItemsSnoc(indexes: Indexes, refs: seq<ScopedRef>, i: nat)
    requires i < |refs|
    ensures Items(indexes, refs[..i + 1])
         == Items(indexes, refs[..i]) + if ItemOf(indexes, refs[i]).None? then [] else [ItemOf(indexes, refs[i]).value]
  {
    assert Resolved(indexes, refs[..i + 1])[..i] == Resolved(indexes, refs[..i]);
  }

  // ----- The last reference to each thing wins.

  predicate HasKey(items: seq<Item>, key: string) {
    exists i :: 0 <= i < |items| && items[i].key == key
  }

  /** The items with no later one of the same key, in order. */
  function KeepLast(items: seq<Item>): seq<Item> {
    if items == [] then []
    else if HasKey(items[1..], items[0].key) then KeepLast(items[1..])
    else [items[0]] + KeepLast(items[1..])
  }

  function DropKey(items: seq<Item>, key: string): seq<Item> {
    if items == [] then []
    else if items[0].key == key then DropKey(items[1..], key)
    else [items[0]] + DropKey(items[1..], key)
  }

  lemma {:induction false} KeepLastSnoc(items: seq<Item>, x: Item)
    ensures KeepLast(items + [x]) == DropKey(KeepLast(items), x.key) + [x]
    decreases |items|
  {
    if items == [] {
      assert items + [x] == [x] && !HasKey([x][1..], x.key) && KeepLast([x][1..]) == [];
    } else {
      var rest := items[1..];
      KeepLastSnoc(rest, x);
      assert (items + [x])[1..] == rest + [x];
      HasKeySnoc(rest, x, items[0].key);
      if items[0].key == x.key && !HasKey(rest, x.key) {
        assert KeepLast(items)[1..] == KeepLast(rest);
      } else if !HasKey(rest, items[0].key) {
        assert KeepLast(items)[1..] == KeepLast(rest);
      }
    }
  }

  lemma HasKeySnoc(items: seq<Item>, x: Item, key: string)
    ensures HasKey(items + [x], key) <==> HasKey(items, key) || x.key == key
  {
    assert (items + [x])[|items|] == x;
    assert forall i :: 0 <= i < |items| ==> (items + [x])[i] == items[i];
  }

  lemma {:induction false} KeepLastKeys(items: seq<Item>, key: string)
    ensures HasKey(KeepLast(items), key) <==> HasKey(items, key)
    ensures forall e :: e in KeepLast(items) ==> e in items
    decreases |items|
  {
    if items != [] {
      KeepLastKeys(items[1..], key);
      HasKeyCons(items[0], items[1..], key);
      HasKeyCons(items[0], KeepLast(items[1..]), key);
      assert items == [items[0]] + items[1..];
    }
  }

  lemma HasKeyCons(x: Item, items: seq<Item>, key: string)
    ensures HasKey([x] + items, key) <==> x.key == key || HasKey(items, key)
  {
    assert ([x] + items)[0] == x;
    assert forall i :: 0 <= i < |items| ==> ([x] + items)[i + 1] == items[i];
  }

  // ----- Sorting by scope, sequence and key.

  predicate Before(a: Item, b: Item) {
    a.scopeOrder < b.scopeOrder
    || (a.scopeOrder == b.scopeOrder && a.sequence < b.sequence)
  }

  /** Scopes never fall and sequence numbers rise, as they do along the references. */
  predicate Ascending(items: seq<Item>) {
    forall i, j :: 0 <= i < j < |items|
      ==> items[i].scopeOrder <= items[j].scopeOrder && items[i].sequence < items[j].sequence
  }

  function InsertItem(items: seq<Item>, x: Item): (r: seq<Item>)
    ensures multiset(r) == multiset(items) + multiset{x}
  {
    if items == [] then [x]
    else if Before(x, items[0]) then [x] + items
    else
      assert items == [items[0]] + items[1..];
      [items[0]] + InsertItem(items[1..], x)
  }

  /** sort.SliceStable; the key decides nothing, for no two items share a sequence number. */
  function SortItems(items: seq<Item>): (r: seq<Item>)
    ensures multiset(r) == multiset(items)
  {
    if items == [] then []
    else
      assert items == items[..|items| - 1] + [items[|items| - 1]];
      InsertItem(SortItems(items[..|items| - 1]), items[|items| - 1])
  }

  predicate InOrder(items: seq<Item>) {
    forall i, j :: 0 <= i < j < |items| ==> Before(items[i], items[j])
  }

  lemma {:induction false} InsertKeepsOrder(items: seq<Item>, x: Item)
    requires InOrder(items) && forall i :: 0 <= i < |items| ==> Before(items[i], x) || Before(x, items[i])
    ensures InOrder(InsertItem(items, x))
    decreases |items|
  {
    if items != [] && !Before(x, items[0]) {
      InsertKeepsOrder(items[1..], x);
      var rest := InsertItem(items[1..], x);
      forall j | 0 <= j < |rest| ensures Before(items[0], rest[j]) {
        assert rest[j] in multiset(rest);
        assert rest[j] in multiset(items[1..]) ==> rest[j] in items[1..];
      }
    }
  }

  /** Any two items can be told apart by scope and sequence. */
  predicate Apart(items: seq<Item>) {
    forall i, j :: 0 <= i < j < |items| ==> Before(items[i], items[j]) || Before(items[j], items[i])
  }

  lemma {:induction false} SortOrders(items: seq<Item>)
    requires Apart(items)
    ensures InOrder(SortItems(items))
    decreases |items|
  {
    if items != [] {
      var front, last := items[..|items| - 1], items[|items| - 1];
      SortOrders(front);
      var sorted := SortItems(front);
      forall i | 0 <= i < |sorted| ensures Before(sorted[i], last) || Before(last, sorted[i]) {
        assert sorted[i] in multiset(sorted);
        assert sorted[i] in front;
      }
      InsertKeepsOrder(sorted, last);
    }
  }

  lemma SameHead(a: seq<Item>, b: seq<Item>)
    requires a != [] && b != [] && InOrder(a) && InOrder(b) && a[0] in b && b[0] in a
    ensures a[0] == b[0]
  {
    var i :| 0 <= i < |b| && b[i] == a[0];
    var j :| 0 <= j < |a| && a[j] == b[0];
    assert i > 0 ==> Before(b[0], b[i]);
    assert j > 0 ==> Before(a[0], a[j]);
  }

  lemma TailOf(a: seq<Item>)
    requires a != [] && InOrder(a)
    ensures multiset(a[1..]) == multiset(a) - multiset{a[0]} && InOrder(a[1..])
    ensures a == [a[0]] + a[1..]
  {
    assert a == [a[0]] + a[1..];
  }

  lemma {:induction false} OrderIsUnique(a: seq<Item>, b: seq<Item>)
    requires InOrder(a) && InOrder(b) && multiset(a) == multiset(b)
    ensures a == b
    decreases |a|
  {
    assert |multiset(a)| == |a| && |multiset(b)| == |b|;
    if a != [] {
      assert a[0] in multiset(a) && b[0] in multiset(b);
      SameHead(a, b);
      TailOf(a);
      TailOf(b);
      OrderIsUnique(a[1..], b[1..]);
    }
  }

  // ----- The selection loop.

  predicate RefsAscend(refs: seq<ScopedRef>) {
    forall i, j :: 0 <= i < j < |refs|
      ==> refs[i].scopeOrder <= refs[j].scopeOrder && refs[i].sequence < refs[j].sequence
  }

  predicate OptionsAscend(options: seq<Option<Item>>) {
    forall i, j :: 0 <= i < j < |options| && options[i].Some? && options[j].Some?
      ==> options[i].value.scopeOrder <= options[j].value.scopeOrder
          && options[i].value.sequence < options[j].value.sequence
  }

  lemma {:induction false} SomesAscend(options: seq<Option<Item>>)
    requires OptionsAscend(options)
    ensures Ascending(Somes(options))
    decreases |options|
  {
    if options != [] {
      var front, last := options[..|options| - 1], options[|options| - 1];
      SomesAscend(front);
      forall i | 0 <= i < |Somes(front)| && last.Some?
        ensures Somes(front)[i].scopeOrder <= last.value.scopeOrder && Somes(front)[i].sequence < last.value.sequence
      {
        SomesAre(front, Somes(front)[i]);
      }
    }
  }

  /** Items carry the numbers of their references, so they ascend as those do. */
  lemma ItemsAscend(indexes: Indexes, refs: seq<ScopedRef>)
    requires RefsAscend(refs)
    ensures Ascending(Items(indexes, refs))
  {
    var options := Resolved(indexes, refs);
    forall i, j | 0 <= i < j < |options| && options[i].Some? && options[j].Some?
      ensures options[i].value.scopeOrder <= options[j].value.scopeOrder
      ensures options[i].value.sequence < options[j].value.sequence
    {
      assert CarriedBy(options[i].value, refs[i]) && CarriedBy(options[j].value, refs[j]);
    }
    SomesAscend(options);
  }

  predicate KeysDiffer(items: seq<Item>) {
    forall i, j :: 0 <= i < j < |items| ==> items[i].key != items[j].key
  }

  lemma {:induction false} KeepLastDiffers(items: seq<Item>)
    ensures KeysDiffer(KeepLast(items))
    ensures Ascending(items) ==> Ascending(KeepLast(items))
    decreases |items|
  {
    if items != [] {
      var rest := items[1..];
      KeepLastDiffers(rest);
      KeepLastKeys(rest, items[0].key);
      if !HasKey(rest, items[0].key) {
        forall j | 0 <= j < |KeepLast(rest)|
          ensures KeepLast(rest)[j].key != items[0].key
          ensures Ascending(items) ==> items[0].scopeOrder <= KeepLast(rest)[j].scopeOrder
                                       && items[0].sequence < KeepLast(rest)[j].sequence
        {
          assert KeepLast(rest)[j] in rest;
        }
      }
    }
  }

  lemma {:induction false} DropOne(items: seq<Item>, e: Item)
    requires KeysDiffer(items) && e in items
    ensures multiset(DropKey(items, e.key)) == multiset(items) - multiset{e}
    decreases |items|
  {
    var head, rest := items[0], items[1..];
    assert items == [head] + rest;
    if head == e {
      assert !HasKey(rest, e.key);
      DropNone(rest, e.key);
    } else {
      assert e in rest && head.key != e.key;
      DropOne(rest, e);
      assert multiset(items) == multiset{head} + multiset(rest);
    }
  }

  lemma {:induction false} DropNone(items: seq<Item>, key: string)
    requires !HasKey(items, key)
    ensures DropKey(items, key) == items
    decreases |items|
  {
    if items != [] {
      assert items == [items[0]] + items[1..];
      HasKeyCons(items[0], items[1..], key);
      DropNone(items[1..], key);
    }
  }

  ghost predicate SeenIndexes(seen: map<string, int>, selected: seq<Item>) {
    && (forall key :: key in seen ==> 0 <= seen[key] < |selected| && selected[seen[key]].key == key)
    && (forall i :: 0 <= i < |selected| ==> selected[i].key in seen && seen[selected[i].key] == i)
  }

  lemma SameMembers(a: seq<Item>, b: seq<Item>)
    requires multiset(a) == multiset(b)
    ensures forall e :: e in a <==> e in b
    ensures forall key :: HasKey(a, key) <==> HasKey(b, key)
  {
    forall e ensures e in a <==> e in b {
      assert e in a <==> e in multiset(a);
      assert e in b <==> e in multiset(b);
    }
    forall key ensures HasKey(a, key) <==> HasKey(b, key) {
      if i :| 0 <= i < |a| && a[i].key == key {
        assert a[i] in b;
      }
      if i :| 0 <= i < |b| && b[i].key == key {
        assert b[i] in a;
      }
    }
  }

  /** One turn of the loop: overwrite the slot of the same key, or append. */
  lemma {:induction false} SelectStep(items: seq<Item>, x: Item, selected: seq<Item>, seen: map<string, int>)
    requires multiset(selected) == multiset(KeepLast(items)) && SeenIndexes(seen, selected)
    ensures x.key in seen ==> multiset(selected[seen[x.key] := x]) == multiset(KeepLast(items + [x]))
    ensures x.key !in seen ==> multiset(selected + [x]) == multiset(KeepLast(items + [x]))
  {
    var kept := KeepLast(items);
    KeepLastSnoc(items, x);
    KeepLastDiffers(items);
    SameMembers(selected, kept);
    if x.key in seen {
      var old' := selected[seen[x.key]];
      assert old' in kept;
      DropOne(kept, old');
    } else {
      assert !HasKey(selected, x.key);
      DropNone(kept, x.key);
    }
  }

  lemma SeenFollows(seen: map<string, int>, selected: seq<Item>, x: Item)
    requires SeenIndexes(seen, selected)
    ensures x.key in seen ==> SeenIndexes(seen, selected[seen[x.key] := x])
    ensures x.key !in seen ==> SeenIndexes(seen[x.key := |selected|], selected + [x])
  {
    if x.key !in seen {
      var seen', selected' := seen[x.key := |selected|], selected + [x];
      forall key | key in seen' ensures 0 <= seen'[key] < |selected'| && selected'[seen'[key]].key == key {
        assert key != x.key ==> key in seen;
      }
    }
  }

  method SelectLoop(indexes: Indexes, refs: seq<ScopedRef>) returns (selected: seq<Item>)
    requires RefsAscend(refs)
    ensures multiset(selected) == multiset(KeepLast(Items(indexes, refs))) && KeysDiffer(selected)
  {
    var seen: map<string, int> := map[];
    ghost var items: seq<Item> := [];
    selected := [];
    for i := 0 to |refs|
      invariant items == Items(indexes, refs[..i])
      invariant multiset(selected) == multiset(KeepLast(items))
      invariant SeenIndexes(seen, selected)
    {
      ItemsSnoc(indexes, refs, i);
      var resolved := ItemOf(indexes, refs[i]);
      if resolved.Some? {
        var item := resolved.value;
        SelectStep(items, item, selected, seen);
        SeenFollows(seen, selected, item);
        if item.key in seen {
          EarlierScope(indexes, refs, i, selected, seen[item.key]);
          if item.scopeOrder >= selected[seen[item.key]].scopeOrder {
            selected := selected[seen[item.key] := item];
          }
        } else {
          seen := seen[item.key := |selected|];
          selected := selected + [item];
        }
        items := items + [item];
      }
    }
    assert refs[..|refs|] == refs;
  }

  /** A selected item is of no inner scope than the reference being resolved. */
  lemma EarlierScope(indexes: Indexes, refs: seq<ScopedRef>, i: nat, selected: seq<Item>, k: nat)
    requires RefsAscend(refs) && i < |refs| && k < |selected|
    requires multiset(selected) == multiset(KeepLast(Items(indexes, refs[..i])))
    ensures selected[k].scopeOrder <= refs[i].scopeOrder
  {
    var items := Items(indexes, refs[..i]);
    SameMembers(selected, KeepLast(items));
    KeepLastKeys(items, "");
    assert selected[k] in items;
    ItemsResolve(indexes, refs[..i], selected[k]);
    var j :| 0 <= j < i && ItemOf(indexes, refs[..i][j]) == Some(selected[k]);
    assert refs[j] == refs[..i][j] && CarriedBy(selected[k], refs[j]);
  }

  function Effective(snapshots: seq<Snapshot>, pipeline: seq<Ref>, step: seq<Ref>, task: seq<Ref>): seq<Item> {
    KeepLast(Items(IndexesOf(snapshots), ScopedRefs(pipeline, step, task)))
  }

  method BuildIndexes(snapshots: seq<Snapshot>) returns (indexes: Indexes)
    ensures indexes == IndexesOf(snapshots)
  {
    var byRef: Index, byPath: Index := map[], map[];
    for i := 0 to |snapshots|
      invariant Indexes(byRef, byPath) == IndexesOf(snapshots[..i])
    {
      assert snapshots[..i + 1][..i] == snapshots[..i];
      var s := snapshots[i];
      var kind := NormalValue(s.kind);
      if kind != "" {
        var ref, path := NormalValue(s.ref), NormalPath(s.path);
        if ref != "" {
          byRef := byRef[kind + "|" + ref := s];
        }
        if path != "" {
          byPath := byPath[kind + "|" + path := s];
        }
      }
    }
    assert snapshots[..|snapshots|] == snapshots;
    indexes := Indexes(byRef, byPath);
  }

  /**
   * The selection is every resolved reference in order, keeping only the last of each key; the
   * overwriting and the final sort amount to that.
   */
  method SelectEffective(snapshots: seq<Snapshot>, pipeline: seq<Ref>, step: seq<Ref>, task: seq<Ref>)
    returns (selected: seq<Item>)
    ensures selected == Effective(snapshots, pipeline, step, task)
  {
    var indexes := BuildIndexes(snapshots);
    var refs := ScopedRefs(pipeline, step, task);
    var chosen := SelectLoop(indexes, refs);
    SortedIsKept(chosen, Items(indexes, refs));
    assert Ascending(Items(indexes, refs)) by {
      ItemsAscend(indexes, refs);
    }
    selected := SortItems(chosen);
  }

  lemma {:induction false} SortedIsKept(chosen: seq<Item>, items: seq<Item>)
    requires KeysDiffer(chosen) && multiset(chosen) == multiset(KeepLast(items))
    ensures Ascending(items) ==> SortItems(chosen) == KeepLast(items)
  {
    if Ascending(items) {
      var kept := KeepLast(items);
      KeepLastDiffers(items);
      SameMembers(chosen, kept);
      forall i, j | 0 <= i < j < |chosen| ensures Before(chosen[i], chosen[j]) || Before(chosen[j], chosen[i]) {
        assert chosen[i] in kept && chosen[j] in kept && chosen[i] != chosen[j];
        var k :| 0 <= k < |kept| && kept[k] == chosen[i];
        var m :| 0 <= m < |kept| && kept[m] == chosen[j];
      }
      SortOrders(chosen);
      OrderIsUnique(SortItems(chosen), kept);
    }
  }

  // ----- Adding references.

  /** The keys, and the snapshots they stand for, in force. */
  ghost function InForce(items: seq<Item>): set<(string, Snapshot)> {
    set i | 0 <= i < |items| :: (items[i].key, items[i].snapshot)
  }

  lemma ItemsResolve(indexes: Indexes, refs: seq<ScopedRef>, e: Item)
    ensures e in Items(indexes, refs) <==> exists i :: 0 <= i < |refs| && ItemOf(indexes, refs[i]) == Some(e)
  {
    SomesAre(Resolved(indexes, refs), e);
  }

  /** A key stands for one snapshot, whichever reference and scope it comes from. */
  lemma KeyFixesSnapshot(indexes: Indexes, a: Ref, b: Ref)
    requires Resolve(indexes, a).Some? && Resolve(indexes, b).Some?
    requires Resolve(indexes, a).value.0 == Resolve(indexes, b).value.0
    ensures Resolve(indexes, a) == Resolve(indexes, b)
  {
    var key := Resolve(indexes, a).value.0;
    assert NameOf(a) == NameOf(b) by {
      ResolvedName(indexes, a);
      ResolvedName(indexes, b);
    }
    ResolvedName(indexes, a);
    ResolvedName(indexes, b);
  }

  function NameOf(r: Ref): string {
    var kind, ref := NormalValue(r.kind), NormalValue(r.ref);
    kind + "|" + if ref != "" then ref else NormalPath(r.path)
  }

  /** What follows the prefix of a key. */
  function NameIn(key: string): string {
    if "ref:" <= key then key[4..] else if "path:" <= key then key[5..] else key
  }

  lemma ResolvedName(indexes: Indexes, r: Ref)
    requires Resolve(indexes, r).Some?
    ensures var (key, snapshot) := Resolve(indexes, r).value;
            && NameIn(key) == NameOf(r)
            && if "ref:" <= key then NameOf(r) in indexes.byRef && snapshot == indexes.byRef[NameOf(r)]
               else NameOf(r) in indexes.byPath && snapshot == indexes.byPath[NameOf(r)]
  {
    var name := NameOf(r);
    assert ("ref:" + name)[4..] == name && ("path:" + name)[5..] == name;
    assert ("path:" + name)[0] == 'p';
  }

  /** In force is exactly what some reference resolves to; the override only decides the scope. */
  lemma InForceMeans(indexes: Indexes, refs: seq<ScopedRef>, key: string, snapshot: Snapshot)
    ensures (key, snapshot) in InForce(KeepLast(Items(indexes, refs)))
       <==> exists i :: 0 <= i < |refs| && Resolve(indexes, refs[i].ref) == Some((key, snapshot))
  {
    var items := Items(indexes, refs);
    var kept := KeepLast(items);
    KeepLastKeys(items, key);
    if k :| 0 <= k < |kept| && (kept[k].key, kept[k].snapshot) == (key, snapshot) {
      assert kept[k] in items;
      ItemsResolve(indexes, refs, kept[k]);
    }
    if i :| 0 <= i < |refs| && Resolve(indexes, refs[i].ref) == Some((key, snapshot)) {
      ItemsResolve(indexes, refs, ItemOf(indexes, refs[i]).value);
      var k :| 0 <= k < |kept| && kept[k].key == key;
      assert kept[k] in items;
      ItemsResolve(indexes, refs, kept[k]);
      var j :| 0 <= j < |refs| && ItemOf(indexes, refs[j]) == Some(kept[k]);
      KeyFixesSnapshot(indexes, refs[i].ref, refs[j].ref);
    }
  }

  predicate Blocking(kind: string) {
    ToLower(TrimSpace(kind)) in ["guardrail", "policy"]
  }

  /** effectiveBlockingKnowledgeContextKinds, as a set. */
  ghost function BlockingKinds(items: seq<Item>): set<string> {
    set i | 0 <= i < |items| && Blocking(NormalValue(items[i].snapshot.kind)) :: NormalValue(items[i].snapshot.kind)
  }

  /**
   * Adding references at any scope, and so adding a step or a task, never takes a key, its
   * snapshot or a blocking kind out of force.
   */
  lemma AddingKeepsInForce(snapshots: seq<Snapshot>, pipeline: seq<Ref>, step: seq<Ref>, task: seq<Ref>,
                           pipeline': seq<Ref>, step': seq<Ref>, task': seq<Ref>)
    requires forall r :: r in pipeline + step + task ==> r in pipeline' + step' + task'
    ensures var before := Effective(snapshots, pipeline, step, task);
            var after := Effective(snapshots, pipeline', step', task');
            InForce(before) <= InForce(after) && BlockingKinds(before) <= BlockingKinds(after)
  {
    var indexes := IndexesOf(snapshots);
    var refs, refs' := ScopedRefs(pipeline, step, task), ScopedRefs(pipeline', step', task');
    var before, after := Effective(snapshots, pipeline, step, task), Effective(snapshots, pipeline', step', task');
    forall key, snapshot | (key, snapshot) in InForce(before) ensures (key, snapshot) in InForce(after) {
      InForceMeans(indexes, refs, key, snapshot);
      var i :| 0 <= i < |refs| && Resolve(indexes, refs[i].ref) == Some((key, snapshot));
      RefAt(pipeline, step, task, i);
      var j := RefIndex(pipeline', step', task', refs[i].ref);
      InForceMeans(indexes, refs', key, snapshot);
    }
    forall kind | kind in BlockingKinds(before) ensures kind in BlockingKinds(after) {
      var i :| 0 <= i < |before| && Blocking(NormalValue(before[i].snapshot.kind))
               && kind == NormalValue(before[i].snapshot.kind);
      assert (before[i].key, before[i].snapshot) in InForce(after);
    }
  }

  lemma RefAt(pipeline: seq<Ref>, step: seq<Ref>, task: seq<Ref>, i: nat)
    requires i < |ScopedRefs(pipeline, step, task)|
    ensures ScopedRefs(pipeline, step, task)[i].ref in pipeline + step + task
  {
    assert ScopedRefs(pipeline, step, task)[i].ref == (pipeline + step + task)[i];
  }

  lemma RefIndex(pipeline: seq<Ref>, step: seq<Ref>, task: seq<Ref>, r: Ref) returns (j: nat)
    requires r in pipeline + step + task
    ensures j < |ScopedRefs(pipeline, step, task)| && ScopedRefs(pipeline, step, task)[j].ref == r
  {
    j :| 0 <= j < |pipeline + step + task| && (pipeline + step + task)[j] == r;
  }
}
