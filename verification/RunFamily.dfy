/**
 * internal/perf runFamily: following the family of runs one trigger spawned, by polling the list
 * of runs and expanding the watched set until it is closed.
 */
module RunFamily {
  import opened Wrappers

  datatype Run = Run(id: string, parent: Option<string>, triggerEvent: string, complete: bool)

  function Ids(runs: seq<Run>): set<string> {
    set i | 0 <= i < |runs| :: runs[i].id
  }

  /** The listed runs the delivery started directly. */
  function Roots(runs: seq<Run>, delivery: string): set<string> {
    set i | 0 <= i < |runs| && runs[i].triggerEvent == delivery :: runs[i].id
  }

  /** No listed run outside the set has its parent in it. */
  ghost predicate Closed(runs: seq<Run>, s: set<string>) {
    forall i :: 0 <= i < |runs| && runs[i].parent.Some? && runs[i].parent.value in s ==> runs[i].id in s
  }

  ghost predicate IsFamily(runs: seq<Run>, delivery: string, watched: set<string>, family: set<string>) {
    && watched + Roots(runs, delivery) <= family
    && Closed(runs, family)
    && forall s :: watched + Roots(runs, delivery) <= s && Closed(runs, s) ==> family <= s
  }

  /** There is one least such set, whatever the order of the list. */
  lemma FamilyIsUnique(runs: seq<Run>, other: seq<Run>, delivery: string, watched: set<string>,
                       a: set<string>, b: set<string>)
    requires multiset(runs) == multiset(other)
    requires IsFamily(runs, delivery, watched, a) && IsFamily(other, delivery, watched, b)
    ensures a == b
  {
    SameRuns(runs, other, delivery, b);
    SameRuns(other, runs, delivery, a);
  }

  lemma SameRuns(runs: seq<Run>, other: seq<Run>, delivery: string, s: set<string>)
    requires multiset(runs) == multiset(other)
    ensures Roots(runs, delivery) == Roots(other, delivery)
    ensures Closed(other, s) ==> Closed(runs, s)
  {
    forall i | 0 <= i < |runs| ensures exists k :: 0 <= k < |other| && other[k] == runs[i] {
      assert runs[i] in multiset(runs);
      assert runs[i] in other;
    }
    forall k | 0 <= k < |other| ensures exists i :: 0 <= i < |runs| && runs[i] == other[k] {
      assert other[k] in multiset(other);
      assert other[k] in runs;
    }
  }

  /** Every id in the set is in any closed set over the same start. */
  ghost predicate Forced(runs: seq<Run>, start: set<string>, s: set<string>) {
    forall t :: start <= t && Closed(runs, t) ==> s <= t
  }

  // ----- Poll after poll.

  /** The later list still has every run of the earlier one, and none of them goes back to work. */
  ghost predicate Grows(runs: seq<Run>, later: seq<Run>) {
    forall i :: 0 <= i < |runs| ==> exists k :: 0 <= k < |later| && SameRun(runs[i], later[k])
  }

  predicate SameRun(a: Run, b: Run) {
    a.id == b.id && a.parent == b.parent && a.triggerEvent == b.triggerEvent && (a.complete ==> b.complete)
  }

  ghost predicate Growing(lists: seq<seq<Run>>) {
    forall i :: 0 <= i < |lists| - 1 ==> Grows(lists[i], lists[i + 1])
  }

  lemma GrownIsClosed(runs: seq<Run>, later: seq<Run>, delivery: string, s: set<string>)
    requires Grows(runs, later)
    ensures Roots(runs, delivery) <= Roots(later, delivery)
    ensures Closed(later, s) ==> Closed(runs, s)
  {
    forall id | id in Roots(runs, delivery) ensures id in Roots(later, delivery) {
      var i :| 0 <= i < |runs| && runs[i].triggerEvent == delivery && runs[i].id == id;
      var k :| 0 <= k < |later| && SameRun(runs[i], later[k]);
    }
    if Closed(later, s) {
      forall i | 0 <= i < |runs| && runs[i].parent.Some? && runs[i].parent.value in s ensures runs[i].id in s {
        var k :| 0 <= k < |later| && SameRun(runs[i], later[k]);
      }
    }
  }

  lemma CompleteStays(runs: seq<Run>, later: seq<Run>, id: string)
    requires Grows(runs, later) && SeenComplete(runs, id)
    ensures SeenComplete(later, id)
  {
    var i :| 0 <= i < |runs| && runs[i].id == id && runs[i].complete;
    var k :| 0 <= k < |later| && SameRun(runs[i], later[k]);
  }

  /** Two discoveries in a row are one discovery in the later list. */
  lemma FamilyOfLater(runs: seq<Run>, later: seq<Run>, delivery: string,
                      first: set<string>, middle: set<string>, last: set<string>)
    requires Grows(runs, later)
    requires IsFamily(runs, delivery, first, middle) && IsFamily(later, delivery, middle, last)
    ensures IsFamily(later, delivery, first, last)
  {
    forall s | first + Roots(later, delivery) <= s && Closed(later, s) ensures last <= s {
      GrownIsClosed(runs, later, delivery, s);
      assert middle <= s;
    }
  }

  datatype Status = Following | Finished

  /** The variables of runFamily that a poll updates. */
  class Follower {
    const delivery: string
    var watched: set<string>
    var completed: map<string, Run>
    var status: Status

    /** An external trigger names the run it created; a webhook names none. */
    constructor (delivery: string, anchor: string)
      ensures this.delivery == delivery && completed == map[] && status == Following
      ensures watched == if anchor != "" then {anchor} else {}
    {
      this.delivery := delivery;
      watched := if anchor != "" then {anchor} else {};
      completed := map[];
      status := Following;
    }

    /** Completed runs are watched runs that a poll has seen complete. */
    ghost predicate Valid()
      reads this
    {
      && completed.Keys <= watched
      && (forall id :: id in completed ==> completed[id].id == id && completed[id].complete)
      && (status == Finished ==> watched != {} && completed.Keys == watched)
    }

    /** Adds the runs the delivery started, then children of watched runs until none is left. */
    method DiscoverFamily(runs: seq<Run>)
      modifies `watched
      ensures IsFamily(runs, delivery, old(watched), watched)
    {
      ghost var start := watched + Roots(runs, delivery);
      for i := 0 to |runs|
        invariant watched == old(watched) + Roots(runs[..i], delivery)
      {
        RootsStep(runs, i, delivery);
        if runs[i].triggerEvent == delivery {
          watched := watched + {runs[i].id};
        }
      }
      assert runs[..|runs|] == runs;
      var added := true;
      while added
        invariant start <= watched && Forced(runs, start, watched)
        invariant !added ==> Closed(runs, watched)
        decreases Ids(runs) - watched, added
      {
        added := Expand(runs, start);
      }
    }

    /** One pass over the list. */
    method Expand(runs: seq<Run>, ghost start: set<string>) returns (added: bool)
      requires start <= watched && Forced(runs, start, watched)
      modifies `watched
      ensures old(watched) <= watched && start <= watched && Forced(runs, start, watched)
      ensures if added then Ids(runs) - watched < Ids(runs) - old(watched)
              else watched == old(watched) && Closed(runs, watched)
    {
      added := false;
      for i := 0 to |runs|
        invariant old(watched) <= watched && Forced(runs, start, watched)
        invariant added ==> exists id :: id in Ids(runs) && id !in old(watched) && id in watched
        invariant !added ==> watched == old(watched) && Closed(runs[..i], watched)
      {
        var run := runs[i];
        if run.parent.Some? && run.id !in watched && run.parent.value in watched {
          assert run.id in Ids(runs);
          watched := watched + {run.id};
          added := true;
        }
      }
      assert runs[..|runs|] == runs;
    }

    /** The loop of a poll that keeps the complete runs of the family, the last record of each. */
    method RecordCompletions(runs: seq<Run>)
      modifies `completed
      ensures Completed(old(completed), watched, runs, completed)
    {
      for i := 0 to |runs|
        invariant Completed(old(completed), watched, runs[..i], completed)
      {
        CompletedStep(old(completed), watched, runs, i, completed);
        var run := runs[i];
        if run.id in watched && run.complete {
          completed := completed[run.id := run];
        }
      }
      assert runs[..|runs|] == runs;
    }

    /**
     * What one successful poll does: discover, record completions, and finish when the counts
     * agree, which is exactly when every run of the family has been seen complete.
     */
    method Poll(runs: seq<Run>)
      requires Valid() && status == Following
      modifies this
      ensures Valid() && IsFamily(runs, delivery, old(watched), watched)
      ensures forall id :: id in completed <==> id in old(completed) || (id in watched && SeenComplete(runs, id))
      ensures status == Finished <==> watched != {} && completed.Keys == watched
    {
      DiscoverFamily(runs);
      RecordCompletions(runs);
      if |watched| > 0 && |completed| == |watched| {
        assert |watched - completed.Keys| == |watched| - |completed.Keys|;
        status := Finished;
      }
      assert status == Finished <==> watched != {} && completed.Keys == watched;
    }

    /**
     * The poll loop over the lists that come back, until the family is complete or they run out.
     *
     * Whatever the lists, the watched runs are the anchor, every run some list showed as started by
     * the delivery, and only what descends from those in the lists taken together; the last list
     * shows no child of theirs that is not watched. When the lists only grow, the watched runs are
     * the family of the last one and the completed runs those it shows complete, so the loop
     * finishes exactly when the whole family is complete.
     */
    method Follow(lists: seq<seq<Run>>) returns (polls: nat)
      requires Valid() && status == Following && completed == map[]
      modifies this
      ensures Valid() && polls <= |lists| && (status == Following ==> polls == |lists|)
      ensures polls == 0 ==> watched == old(watched) && completed == map[]
      ensures Shown(AllRuns(lists[..polls]), delivery, old(watched), watched, completed.Keys)
      ensures polls > 0 ==> Closed(lists[polls - 1], watched)
      ensures status == Finished <==> watched != {} && polls > 0 && completed.Keys == watched
      ensures Growing(lists) && polls > 0 ==>
                var runs := lists[polls - 1];
                && IsFamily(runs, delivery, old(watched), watched)
                && (forall id :: id in completed <==> id in watched && SeenComplete(runs, id))
                && (status == Finished <==> watched != {} && forall id :: id in watched ==> SeenComplete(runs, id))
    {
      polls := 0;
      while polls < |lists| && status == Following
        invariant Valid() && polls <= |lists|
        invariant polls == 0 ==> watched == old(watched) && completed == map[] && status == Following
        invariant Shown(AllRuns(lists[..polls]), delivery, old(watched), watched, completed.Keys)
        invariant polls > 0 ==> Closed(lists[polls - 1], watched)
        invariant status == Finished <==> watched != {} && polls > 0 && completed.Keys == watched
        invariant Growing(lists) && polls > 0 ==>
                    Exact(lists[polls - 1], delivery, old(watched), watched, completed.Keys)
      {
        ghost var before, seen := watched, completed.Keys;
        Poll(lists[polls]);
        PolledOnce(old(watched), lists, polls, delivery, before, watched, seen, completed.Keys);
        if Growing(lists) {
          PolledGrowing(old(watched), lists, polls, delivery, before, watched, seen, completed.Keys);
        }
        polls := polls + 1;
      }
    }
  }

  function AllRuns(lists: seq<seq<Run>>): seq<Run> {
    if lists == [] then [] else AllRuns(lists[..|lists| - 1]) + lists[|lists| - 1]
  }

  /** The runs lie in every set that holds the start and the delivery's runs and is closed under children. */
  ghost predicate Within(start: set<string>, runs: seq<Run>, delivery: string, watched: set<string>) {
    forall s :: start + Roots(runs, delivery) <= s && Closed(runs, s) ==> watched <= s
  }

  /** The bounds on the watched runs, and completed only runs these show complete. */
  ghost predicate Shown(
      runs: seq<Run>, delivery: string, start: set<string>, watched: set<string>, completed: set<string>)
  {
    && start + Roots(runs, delivery) <= watched && Within(start, runs, delivery, watched)
    && forall id :: id in completed ==> SeenComplete(runs, id)
  }

  /** Watched is the family in this list, and completed what the list shows complete of it. */
  ghost predicate Exact(
      runs: seq<Run>, delivery: string, start: set<string>, watched: set<string>, completed: set<string>)
  {
    && IsFamily(runs, delivery, start, watched)
    && forall id :: id in completed <==> id in watched && SeenComplete(runs, id)
  }

  lemma Appended(runs: seq<Run>, more: seq<Run>, delivery: string)
    ensures Roots(runs + more, delivery) == Roots(runs, delivery) + Roots(more, delivery)
    ensures forall s :: Closed(runs + more, s) ==> Closed(runs, s) && Closed(more, s)
    ensures forall id :: SeenComplete(runs, id) || SeenComplete(more, id) ==> SeenComplete(runs + more, id)
  {
    var all := runs + more;
    assert forall i :: 0 <= i < |runs| ==> all[i] == runs[i];
    assert forall i :: 0 <= i < |more| ==> all[|runs| + i] == more[i];
    forall id | id in Roots(all, delivery) ensures id in Roots(runs, delivery) + Roots(more, delivery) {
      var i :| 0 <= i < |all| && all[i].triggerEvent == delivery && all[i].id == id;
      assert i >= |runs| ==> all[i] == more[i - |runs|];
    }
    forall id | id in Roots(more, delivery) ensures id in Roots(all, delivery) {
      var i :| 0 <= i < |more| && more[i].triggerEvent == delivery && more[i].id == id;
      assert all[|runs| + i].id == id;
    }
    forall s | Closed(all, s) ensures Closed(more, s) {
      forall i | 0 <= i < |more| && more[i].parent.Some? && more[i].parent.value in s ensures more[i].id in s {
        assert all[|runs| + i] == more[i];
      }
    }
    forall id | SeenComplete(more, id) ensures SeenComplete(all, id) {
      var i :| 0 <= i < |more| && more[i].id == id && more[i].complete;
      assert all[|runs| + i].id == id;
    }
  }

  /** What one more poll does to the bounds on the watched and completed runs. */
  lemma PolledOnce(start: set<string>, lists: seq<seq<Run>>, n: nat, delivery: string,
                   before: set<string>, after: set<string>, seen: set<string>, completed: set<string>)
    requires n < |lists| && IsFamily(lists[n], delivery, before, after)
    requires Shown(AllRuns(lists[..n]), delivery, start, before, seen)
    requires forall id :: id in completed <==> id in seen || (id in after && SeenComplete(lists[n], id))
    ensures Shown(AllRuns(lists[..n + 1]), delivery, start, after, completed)
  {
    var runs, more := AllRuns(lists[..n]), lists[n];
    assert lists[..n + 1][..n] == lists[..n];
    assert AllRuns(lists[..n + 1]) == runs + more;
    Appended(runs, more, delivery);
  }

  lemma PolledGrowing(start: set<string>, lists: seq<seq<Run>>, n: nat, delivery: string,
                      before: set<string>, after: set<string>, seen: set<string>, completed: set<string>)
    requires Growing(lists) && n < |lists| && IsFamily(lists[n], delivery, before, after)
    requires if n == 0 then before == start && seen == {} else Exact(lists[n - 1], delivery, start, before, seen)
    requires forall id :: id in completed <==> id in seen || (id in after && SeenComplete(lists[n], id))
    ensures Exact(lists[n], delivery, start, after, completed)
  {
    if n > 0 {
      assert Grows(lists[n - 1], lists[n - 1 + 1]);
      FamilyOfLater(lists[n - 1], lists[n], delivery, start, before, after);
      forall id | id in seen ensures SeenComplete(lists[n], id) {
        CompleteStays(lists[n - 1], lists[n], id);
      }
    }
  }

  /** `r` is the last complete record of a run in the list. */
  ghost predicate LastComplete(runs: seq<Run>, id: string, r: Run) {
    exists i :: LastAt(runs, id, i) && runs[i] == r
  }

  predicate LastAt(runs: seq<Run>, id: string, i: int) {
    0 <= i < |runs| && CompleteRecord(runs[i], id) && forall k :: i < k < |runs| ==> !CompleteRecord(runs[k], id)
  }

  predicate CompleteRecord(r: Run, id: string) {
    r.id == id && r.complete
  }

  ghost predicate SeenComplete(runs: seq<Run>, id: string) {
    exists i :: 0 <= i < |runs| && runs[i].id == id && runs[i].complete
  }

  lemma SeenCompleteStep(runs: seq<Run>, i: nat, id: string)
    requires i < |runs|
    ensures SeenComplete(runs[..i + 1], id)
       <==> SeenComplete(runs[..i], id) || (runs[i].id == id && runs[i].complete)
  {
    var longer := runs[..i + 1];
    assert longer[i] == runs[i];
    if k :| 0 <= k < |longer| && longer[k].id == id && longer[k].complete {
      assert k < i ==> longer[k] == runs[..i][k];
    }
    if k :| 0 <= k < i && runs[..i][k].id == id && runs[..i][k].complete {
      assert longer[k] == runs[..i][k];
    }
  }

  lemma LastCompleteStep(runs: seq<Run>, i: nat, id: string, r: Run)
    requires i < |runs|
    ensures CompleteRecord(runs[i], id) ==> LastComplete(runs[..i + 1], id, runs[i])
    ensures LastComplete(runs[..i], id, r) && !CompleteRecord(runs[i], id) ==> LastComplete(runs[..i + 1], id, r)
  {
    var longer := runs[..i + 1];
    assert longer[i] == runs[i];
    assert CompleteRecord(runs[i], id) ==> LastAt(longer, id, i);
    if LastComplete(runs[..i], id, r) && !CompleteRecord(runs[i], id) {
      var k :| LastAt(runs[..i], id, k) && runs[..i][k] == r;
      forall m | k < m < |longer| ensures !CompleteRecord(longer[m], id) {
        assert m < i ==> longer[m] == runs[..i][m];
      }
      assert longer[k] == runs[..i][k] && LastAt(longer, id, k);
    }
  }

  /** `after` is `before` with the last complete record of every watched run the list shows complete. */
  ghost predicate Completed(before: map<string, Run>, watched: set<string>, runs: seq<Run>, after: map<string, Run>) {
    && (forall id :: id in after <==> id in before || (id in watched && SeenComplete(runs, id)))
    && (forall id :: id in after ==>
          if id in watched && SeenComplete(runs, id) then LastComplete(runs, id, after[id])
          else after[id] == before[id])
  }

  lemma CompletedStep(before: map<string, Run>, watched: set<string>, runs: seq<Run>, i: nat, after: map<string, Run>)
    requires i < |runs| && Completed(before, watched, runs[..i], after)
    ensures var run := runs[i];
            Completed(before, watched, runs[..i + 1],
                      if run.id in watched && run.complete then after[run.id := run] else after)
  {
    var run := runs[i];
    var next := if run.id in watched && run.complete then after[run.id := run] else after;
    forall id ensures id in next <==> id in before || (id in watched && SeenComplete(runs[..i + 1], id)) {
      SeenCompleteStep(runs, i, id);
    }
    forall id | id in next
      ensures if id in watched && SeenComplete(runs[..i + 1], id) then LastComplete(runs[..i + 1], id, next[id])
              else next[id] == before[id]
    {
      SeenCompleteStep(runs, i, id);
      LastCompleteStep(runs, i, id, next[id]);
    }
  }

  lemma RootsStep(runs: seq<Run>, i: nat, delivery: string)
    requires i < |runs|
    ensures Roots(runs[..i + 1], delivery)
         == Roots(runs[..i], delivery) + if runs[i].triggerEvent == delivery then {runs[i].id} else {}
  {
    var longer := runs[..i + 1];
    assert forall k :: 0 <= k < i ==> longer[k] == runs[..i][k];
    assert longer[i] == runs[i];
  }
}
