/**
 The next-slice picker and the loop that drives it: the plan is sorted topologically and
 the first unmerged slice whose dependencies are all merged is the next one.
 */
module SliceScheduler {
  import opened Dependencies
  import opened KahnChecks

  datatype Pick = BadPlan(why: TopoResult) | Next(id: string) | AllMerged

  /** A slice is ready when every slice it depends on, in any entry of the plan, is merged. */
  ghost predicate Ready(items: seq<Item>, merged: set<string>, id: string) {
    && id in Merged(items)
    && id !in merged
    && forall d :: d in Merged(items)[id] ==> d in merged
  }

  /** Some topological order of the whole plan has only merged slices before the slice. */
  ghost predicate FirstUnmerged(items: seq<Item>, merged: set<string>, id: string) {
    exists order, k :: FirstIn(items, merged, order, k, id)
  }

  ghost predicate FirstIn(items: seq<Item>, merged: set<string>, order: seq<string>, k: nat, id: string) {
    && TopoOrder(Merged(items), order) && Elems(order) == Elems(Ids(items))
    && k < |order| && order[k] == id && id !in merged
    && forall j :: 0 <= j < k ==> order[j] in merged
  }

  lemma {:induction false} LastDepsAmongMerged(items: seq<Item>, n: nat, id: string)
    requires n <= |items| && id in LastTo(items, n)
    ensures id in MergedTo(items, n) && forall d :: d in LastTo(items, n)[id] ==> d in MergedTo(items, n)[id]
  {
    if n > 0 && id != items[n - 1].id {
      LastDepsAmongMerged(items, n - 1, id);
    }
  }

  /** pick_next, for the slices whose effective status is "merged". */
  method PickNext(items: seq<Item>, merged: set<string>) returns (r: Pick)
    ensures r.BadPlan? <==> !AllResolve(items) || SortReports(items)
    ensures r.Next? ==> Ready(items, merged, r.id) && FirstUnmerged(items, merged, r.id)
    ensures !r.BadPlan? ==> (r.AllMerged? <==> Elems(Ids(items)) <= merged)
  {
    var sorted := TopoSort(items);
    if !sorted.Sorted? {
      return BadPlan(sorted);
    }
    var order := sorted.order;
    var byId := Last(items);
    var i: int := 0;
    while i < |order|
      invariant 0 <= i <= |order|
      invariant forall k :: 0 <= k < i ==> order[k] in merged
    {
      var id := order[i];
      assert id in Elems(order);
      if id !in merged {
        LastDepsAmongMerged(items, |items|, id);
        if forall d :: d in byId[id] ==> d in merged {
          assert FirstIn(items, merged, order, i, id);
          return Next(id);
        }
      }
      i := i + 1;
    }
    r := AllMerged;
    forall x | x in Elems(Ids(items)) ensures x in merged {
      assert x in Elems(order);
    }
  }

  /** Slices merged one after the other, each once, each when it was ready. */
  ghost predicate DriveLog(items: seq<Item>, merged0: set<string>, log: seq<string>) {
    && Distinct(log)
    && Elems(log) <= Elems(Ids(items)) - merged0
    && forall i :: 0 <= i < |log| ==> Ready(items, merged0 + Elems(log[..i]), log[i])
  }

  lemma ExtendLog(items: seq<Item>, merged0: set<string>, log: seq<string>, id: string)
    requires DriveLog(items, merged0, log) && Ready(items, merged0 + Elems(log), id)
    ensures DriveLog(items, merged0, log + [id]) && Elems(log + [id]) == Elems(log) + {id}
  {
    var log' := log + [id];
    MergedKeys(items, |items|);
    assert Elems(log') == Elems(log) + {id};
    assert id !in Elems(log);
    forall i | 0 <= i < |log'| ensures Ready(items, merged0 + Elems(log'[..i]), log'[i]) {
      assert log'[..i] == log[..i];
      assert log[..|log|] == log;
    }
  }

  /** Merging the picker's answer until there is none: as many steps as there were unmerged slices,
      each slice once, and never before its dependencies. */
  method Drive(items: seq<Item>, merged0: set<string>) returns (log: seq<string>)
    requires AllResolve(items) && !SortReports(items)
    ensures DriveLog(items, merged0, log) && Elems(log) == Elems(Ids(items)) - merged0
    ensures |log| == |Elems(Ids(items)) - merged0|
  {
    log := [];
    var merged := merged0;
    var pick := PickNext(items, merged);
    while pick.Next?
      invariant merged == merged0 + Elems(log)
      invariant DriveLog(items, merged0, log)
      invariant pick.Next? ==> Ready(items, merged, pick.id)
      invariant pick.AllMerged? <==> Elems(Ids(items)) <= merged
      invariant !pick.BadPlan?
      decreases Elems(Ids(items)) - merged
    {
      ExtendLog(items, merged0, log, pick.id);
      log, merged := log + [pick.id], merged + {pick.id};
      pick := PickNext(items, merged);
    }
    assert Elems(log) == Elems(Ids(items)) - merged0;
    DistinctSize(log);
  }
}
