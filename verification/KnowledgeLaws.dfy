/**
 * What a knowledge selection contains, read off the snapshots and the references: the last snapshot
 * of a name, the innermost reference to it, in order.
 */
module KnowledgeLaws {
  import opened Wrappers
  import opened Text
  import opened KnowledgeContext

  // ----- What the lookup tables hold.

  /** The snapshot goes by this name: kind and reference, or kind and path. */
  predicate GoesBy(s: Snapshot, name: string, byPath: bool) {
    var kind := NormalValue(s.kind);
    var own := if byPath then NormalPath(s.path) else NormalValue(s.ref);
    kind != "" && own != "" && name == kind + "|" + own
  }

  /** The last place where the test holds. */
  ghost predicate LastWhere<T>(s: seq<T>, test: T -> bool, i: int) {
    0 <= i < |s| && test(s[i]) && forall k :: i < k < |s| ==> !test(s[k])
  }

  lemma LastWhereSnoc<T>(s: seq<T>, test: T -> bool, i: int)
    requires s != []
    ensures LastWhere(s, test, i)
       <==> if test(s[|s| - 1]) then i == |s| - 1 else LastWhere(s[..|s| - 1], test, i)
  {
    var front := s[..|s| - 1];
    assert forall k :: 0 <= k < |front| ==> front[k] == s[k];
    if LastWhere(front, test, i) && !test(s[|s| - 1]) {
      forall k | i < k < |s| ensures !test(s[k]) {
        assert k < |front| ==> !test(front[k]);
      }
    }
  }

  function Named(name: string, byPath: bool): Snapshot -> bool {
    s => GoesBy(s, name, byPath)
  }

  function Table(indexes: Indexes, byPath: bool): Index {
    if byPath then indexes.byPath else indexes.byRef
  }

  lemma AddMeans(indexes: Indexes, s: Snapshot, name: string, byPath: bool)
    ensures name in Table(indexes.Add(s), byPath) <==> name in Table(indexes, byPath) || GoesBy(s, name, byPath)
    ensures name in Table(indexes.Add(s), byPath) ==>
              Table(indexes.Add(s), byPath)[name] == if GoesBy(s, name, byPath) then s else Table(indexes, byPath)[name]
  {
  }

  ghost predicate Holds(table: Index, name: string, snapshots: seq<Snapshot>, test: Snapshot -> bool) {
    && (name in table <==> exists i :: LastWhere(snapshots, test, i))
    && forall i :: LastWhere(snapshots, test, i) ==> name in table && table[name] == snapshots[i]
  }

  lemma HoldsSnoc(before: Index, after: Index, name: string, snapshots: seq<Snapshot>, test: Snapshot -> bool)
    requires snapshots != [] && Holds(before, name, snapshots[..|snapshots| - 1], test)
    requires var last := snapshots[|snapshots| - 1];
             && (name in after <==> name in before || test(last))
             && (name in after ==> after[name] == if test(last) then last else before[name])
    ensures Holds(after, name, snapshots, test)
  {
    var n := |snapshots| - 1;
    forall i ensures LastWhere(snapshots, test, i)
                <==> if test(snapshots[n]) then i == n else LastWhere(snapshots[..n], test, i)
    {
      LastWhereSnoc(snapshots, test, i);
    }
    if test(snapshots[n]) {
      assert LastWhere(snapshots, test, n);
    }
  }

  /** A name is held exactly when some snapshot goes by it, and for the last one that does. */
  lemma {:induction false} IndexMeans(snapshots: seq<Snapshot>, name: string, byPath: bool)
    ensures Holds(Table(IndexesOf(snapshots), byPath), name, snapshots, Named(name, byPath))
    decreases |snapshots|
  {
    if snapshots != [] {
      var front, last := snapshots[..|snapshots| - 1], snapshots[|snapshots| - 1];
      IndexMeans(front, name, byPath);
      AddMeans(IndexesOf(front), last, name, byPath);
      HoldsSnoc(Table(IndexesOf(front), byPath), Table(IndexesOf(snapshots), byPath), name, snapshots,
                Named(name, byPath));
    }
  }

  /** What a reference looks up: by its path only when it has no reference of its own. */
  ghost predicate LooksUp(r: Ref, name: string, byPath: bool) {
    && NormalValue(r.kind) != "" && (byPath <==> NormalValue(r.ref) == "")
    && (byPath ==> NormalPath(r.path) != "")
    && name == NormalValue(r.kind) + "|" + if byPath then NormalPath(r.path) else NormalValue(r.ref)
  }

  lemma ResolveLooksUp(indexes: Indexes, r: Ref, name: string, byPath: bool)
    requires LooksUp(r, name, byPath)
    ensures var table := Table(indexes, byPath);
            Resolve(indexes, r) == if name in table && table[name].content != ""
                                   then Some(((if byPath then "path:" else "ref:") + name, table[name])) else None
  {
  }

  /** A reference stands for the last snapshot of its name, provided that one has content. */
  lemma {:induction false} ResolveMeans(snapshots: seq<Snapshot>, r: Ref, name: string, byPath: bool)
    requires LooksUp(r, name, byPath)
    ensures forall i :: LastWhere(snapshots, Named(name, byPath), i) ==>
              Resolve(IndexesOf(snapshots), r)
              == if snapshots[i].content == "" then None
                 else Some(((if byPath then "path:" else "ref:") + name, snapshots[i]))
    ensures (forall i :: !LastWhere(snapshots, Named(name, byPath), i)) ==> Resolve(IndexesOf(snapshots), r) == None
  {
    IndexMeans(snapshots, name, byPath);
    ResolveLooksUp(IndexesOf(snapshots), r, name, byPath);
  }

  lemma NothingToLookUp(indexes: Indexes, r: Ref)
    requires forall name, byPath :: !LooksUp(r, name, byPath)
    ensures Resolve(indexes, r) == None
  {
    var kind := NormalValue(r.kind);
    assert !LooksUp(r, kind + "|" + NormalValue(r.ref), false);
    assert !LooksUp(r, kind + "|" + NormalPath(r.path), true);
  }

  // ----- What is selected.

  /** What is at this place is the item, and nothing later has its key. */
  ghost predicate LastOption(options: seq<Option<Item>>, i: int, e: Item) {
    && 0 <= i < |options| && options[i] == Some(e)
    && forall k :: i < k < |options| && options[k].Some? ==> options[k].value.key != e.key
  }

  lemma {:induction false} DropKeyMembers(items: seq<Item>, key: string, e: Item)
    ensures e in DropKey(items, key) <==> e in items && e.key != key
    decreases |items|
  {
    if items != [] {
      DropKeyMembers(items[1..], key, e);
      assert e in items <==> e == items[0] || e in items[1..];
    }
  }

  lemma {:induction false} KeptIsLast(options: seq<Option<Item>>, e: Item)
    ensures e in KeepLast(Somes(options)) <==> exists i :: LastOption(options, i, e)
    decreases |options|
  {
    if options != [] {
      var front, x := options[..|options| - 1], options[|options| - 1];
      KeptIsLast(front, e);
      LastOptionSnoc(options, e);
      if x.Some? {
        KeepLastSnoc(Somes(front), x.value);
        DropKeyMembers(KeepLast(Somes(front)), x.value.key, e);
      }
    }
  }

  /** One more: it is the last of its key, and overrides what had the key before. */
  lemma LastOptionSnoc(options: seq<Option<Item>>, e: Item)
    requires options != []
    ensures var front, x := options[..|options| - 1], options[|options| - 1];
            ((exists i :: LastOption(options, i, e))
             <==> x == Some(e) || ((x.None? || x.value.key != e.key) && exists i :: LastOption(front, i, e)))
  {
    var n := |options| - 1;
    var front, x := options[..n], options[n];
    if x == Some(e) {
      assert LastOption(options, n, e);
    }
    if i :| LastOption(options, i, e) {
      assert i < n ==> LastOption(front, i, e);
    }
    if x.None? || x.value.key != e.key {
      if i :| LastOption(front, i, e) {
        assert LastOption(options, i, e);
      }
    }
  }

  /** Some reference resolves to this item, and no later one resolves under the same key. */
  ghost predicate Selected(indexes: Indexes, refs: seq<ScopedRef>, e: Item) {
    exists i :: LastOption(Resolved(indexes, refs), i, e)
  }

  lemma KeptIsSelected(indexes: Indexes, refs: seq<ScopedRef>, e: Item)
    ensures e in KeepLast(Items(indexes, refs)) <==> Selected(indexes, refs, e)
  {
    KeptIsLast(Resolved(indexes, refs), e);
  }

  /** The selection is in order and holds, once each, what the last reference to each thing resolves to. */
  lemma {:induction false} SelectionMeans(snapshots: seq<Snapshot>, pipeline: seq<Ref>, step: seq<Ref>, task: seq<Ref>)
    ensures var selected := Effective(snapshots, pipeline, step, task);
            && Ascending(selected) && KeysDiffer(selected)
            && forall e :: e in selected <==> Selected(IndexesOf(snapshots), ScopedRefs(pipeline, step, task), e)
  {
    var indexes, refs := IndexesOf(snapshots), ScopedRefs(pipeline, step, task);
    ItemsAscend(indexes, refs);
    KeepLastDiffers(Items(indexes, refs));
    forall e ensures e in KeepLast(Items(indexes, refs)) <==> Selected(indexes, refs, e) {
      KeptIsSelected(indexes, refs, e);
    }
  }

  /** The key each reference resolves under, if it resolves. */
  function Keys(indexes: Indexes, refs: seq<Ref>): (keys: seq<Option<string>>)
    ensures |keys| == |refs|
    ensures forall i :: 0 <= i < |refs| ==>
              keys[i] == match Resolve(indexes, refs[i]) case None => None case Some(r) => Some(r.0)
  {
    seq(|refs|, i requires 0 <= i < |refs| =>
      match Resolve(indexes, refs[i]) case None => None case Some(r) => Some(r.0))
  }

  function KeysOf(options: seq<Option<Item>>): (keys: seq<Option<string>>)
    ensures |keys| == |options|
    ensures forall i :: 0 <= i < |options| ==> keys[i] == if options[i].Some? then Some(options[i].value.key) else None
  {
    seq(|options|, i requires 0 <= i < |options| => if options[i].Some? then Some(options[i].value.key) else None)
  }

  function ScopeAt(outer: nat, middle: nat, i: int): int {
    if i < outer then 0 else if i < outer + middle then 1 else 2
  }

  lemma ItemsOfScopes(indexes: Indexes, pipeline: seq<Ref>, step: seq<Ref>, task: seq<Ref>, i: int)
    requires 0 <= i < |pipeline| + |step| + |task|
    ensures var refs := pipeline + step + task;
            var options := Resolved(indexes, ScopedRefs(pipeline, step, task));
            && |options| == |refs|
            && KeysOf(options)[i] == Keys(indexes, refs)[i]
            && (options[i].Some? ==> options[i].value.scopeOrder == ScopeAt(|pipeline|, |step|, i))
  {
    assert ScopedRefs(pipeline, step, task)[i].ref == (pipeline + step + task)[i];
  }

  lemma KeysOfScopes(indexes: Indexes, pipeline: seq<Ref>, step: seq<Ref>, task: seq<Ref>)
    ensures KeysOf(Resolved(indexes, ScopedRefs(pipeline, step, task)))
         == Keys(indexes, pipeline) + Keys(indexes, step) + Keys(indexes, task)
  {
    var keys := KeysOf(Resolved(indexes, ScopedRefs(pipeline, step, task)));
    var parts := Keys(indexes, pipeline) + Keys(indexes, step) + Keys(indexes, task);
    var refs := pipeline + step + task;
    assert |keys| == |parts| == |refs|;
    forall i | 0 <= i < |refs| ensures keys[i] == parts[i] {
      ItemsOfScopes(indexes, pipeline, step, task, i);
      KeysOfConcat(indexes, pipeline, step, task);
    }
  }

  lemma KeysOfPair(indexes: Indexes, a: seq<Ref>, b: seq<Ref>)
    ensures Keys(indexes, a + b) == Keys(indexes, a) + Keys(indexes, b)
  {
    var keys, parts := Keys(indexes, a + b), Keys(indexes, a) + Keys(indexes, b);
    forall i | 0 <= i < |keys| ensures keys[i] == parts[i] {
      assert (a + b)[i] == if i < |a| then a[i] else b[i - |a|];
    }
  }

  lemma KeysOfConcat(indexes: Indexes, a: seq<Ref>, b: seq<Ref>, c: seq<Ref>)
    ensures Keys(indexes, a + b + c) == Keys(indexes, a) + Keys(indexes, b) + Keys(indexes, c)
  {
    KeysOfPair(indexes, a, b);
    KeysOfPair(indexes, a + b, c);
  }

  /** Where the last item with its key stands, among three parts of a list. */
  lemma LastPart(options: seq<Option<Item>>, i: int, e: Item,
                 a: seq<Option<string>>, b: seq<Option<string>>, c: seq<Option<string>>)
    requires LastOption(options, i, e) && KeysOf(options) == a + b + c
    ensures ScopeAt(|a|, |b|, i) == if Some(e.key) in c then 2 else if Some(e.key) in b then 1 else 0
  {
    var keys := KeysOf(options);
    assert keys[i] == Some(e.key) && forall k :: i < k < |keys| ==> keys[k] != Some(e.key);
    if k :| 0 <= k < |c| && c[k] == Some(e.key) {
      assert keys[|a| + |b| + k] == c[k];
    }
    if k :| 0 <= k < |b| && b[k] == Some(e.key) {
      assert keys[|a| + k] == b[k];
    }
  }

  /** The task overrides the step and the step the pipeline. */
  lemma {:induction false} InnermostWins(
      snapshots: seq<Snapshot>, pipeline: seq<Ref>, step: seq<Ref>, task: seq<Ref>, e: Item)
    requires e in Effective(snapshots, pipeline, step, task)
    ensures var indexes := IndexesOf(snapshots);
            e.scopeOrder == if Some(e.key) in Keys(indexes, task) then 2
                            else if Some(e.key) in Keys(indexes, step) then 1 else 0
  {
    var indexes := IndexesOf(snapshots);
    SelectionMeans(snapshots, pipeline, step, task);
    ScopeOfSelected(indexes, pipeline, step, task, e);
  }

  lemma ScopeOfSelected(indexes: Indexes, pipeline: seq<Ref>, step: seq<Ref>, task: seq<Ref>, e: Item)
    requires Selected(indexes, ScopedRefs(pipeline, step, task), e)
    ensures e.scopeOrder == if Some(e.key) in Keys(indexes, task) then 2
                            else if Some(e.key) in Keys(indexes, step) then 1 else 0
  {
    var options := Resolved(indexes, ScopedRefs(pipeline, step, task));
    var i :| LastOption(options, i, e);
    KeysOfScopes(indexes, pipeline, step, task);
    LastPart(options, i, e, Keys(indexes, pipeline), Keys(indexes, step), Keys(indexes, task));
    ItemsOfScopes(indexes, pipeline, step, task, i);
  }

  // ----- Names and kinds.

  /** Text without a backslash, and without white space or a slash at an end. */
  predicate Plain(s: string) {
    s != "" && Trimmed(s) && '\\' !in s && s[0] != '/' && s[|s| - 1] != '/'
  }

  lemma NormalOfPlain(s: string)
    requires Plain(s)
    ensures NormalValue(s) == s && NormalPath(s) == if s == "." then "" else s
  {
    assert ReplaceAll(s, '\\', '/') == s;
  }

  lemma NothingReplaced(s: string)
    requires '\\' !in s
    ensures ReplaceAll(s, '\\', '/') == s
  {
  }

  lemma SpacesIgnored(s: string)
    requires Plain(s)
    ensures NormalValue(" " + s) == s && NormalValue(s + " ") == s
  {
    NothingReplaced(" " + s);
    NothingReplaced(s + " ");
    SpacesTrimmed(s);
  }

  lemma {:induction false} SlashesTrimmed(s: string)
    requires s != "" && s[0] != '/' && s[|s| - 1] != '/'
    ensures TrimSlashes("/" + s) == s && TrimSlashes(s + "/") == s
  {
    assert ("/" + s)[1..] == s && (s + "/")[..|s|] == s;
  }

  lemma SlashesIgnored(s: string)
    requires Plain(s)
    ensures NormalValue("/" + s) == s && NormalValue(s + "/") == s
  {
    NothingReplaced("/" + s);
    NothingReplaced(s + "/");
    assert Trimmed("/" + s) && Trimmed(s + "/");
    SlashesTrimmed(s);
  }

  /** White space around, slashes around and the direction of slashes make no difference to a name. */
  lemma NormalIgnores(s: string, slashed: string)
    requires Plain(s) && |slashed| == |s|
    requires forall i :: 0 <= i < |s| ==> slashed[i] == s[i] || (s[i] == '/' && slashed[i] == '\\')
    ensures NormalValue(slashed) == s
    ensures NormalValue(" " + s) == s && NormalValue(s + " ") == s
    ensures NormalValue("/" + s) == s && NormalValue(s + "/") == s
  {
    assert ReplaceAll(slashed, '\\', '/') == s;
    SpacesIgnored(s);
    SlashesIgnored(s);
  }

  /** The blocking kinds of a selection are its guardrail and policy kinds, in any case. */
  lemma BlockingKindsMean(items: seq<Item>, kind: string)
    ensures kind in BlockingKinds(items)
       <==> && (ToLower(TrimSpace(kind)) == "guardrail" || ToLower(TrimSpace(kind)) == "policy")
            && exists i :: 0 <= i < |items| && NormalValue(items[i].snapshot.kind) == kind
  {
  }
}
