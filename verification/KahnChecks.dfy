/**
 The three cycle checks over "depends_on" lists. Each is Kahn's algorithm with its own
 bookkeeping: adjacency lists and a FIFO queue that counts repeated dependencies; a FIFO
 queue with membership tests; a LIFO stack with membership tests that ignores unknown
 references.
 */
module KahnChecks {
  import opened Wrappers
  import opened Dependencies

  datatype Item = Item(id: string, deps: seq<string>)

  // ----- counting dependencies that are not done yet ------------------------------------

  /** With multiplicity: what the adjacency-list version counts down. */
  function Remaining(deps: seq<string>, done: set<string>): nat {
    if deps == [] then 0 else (if deps[0] in done then 0 else 1) + Remaining(deps[1..], done)
  }

  lemma {:induction false} RemainingZero(deps: seq<string>, done: set<string>)
    ensures Remaining(deps, done) == 0 <==> forall d :: d in deps ==> d in done
    ensures Remaining(deps, {}) == |deps|
  {
    if deps != [] {
      RemainingZero(deps[1..], done);
      assert forall d :: d in deps <==> d == deps[0] || d in deps[1..];
    }
  }

  lemma {:induction false} RemainingStep(deps: seq<string>, done: set<string>, c: string)
    requires c !in done
    ensures Remaining(deps, done) == Remaining(deps, done + {c}) + multiset(deps)[c]
  {
    if deps != [] {
      RemainingStep(deps[1..], done, c);
      assert deps == [deps[0]] + deps[1..];
    }
  }

  /** Without multiplicity: how many of the distinct dependencies are done. */
  function Seen(deps: seq<string>, done: set<string>): set<string> {
    Elems(deps) * done
  }

  lemma {:induction false} ElemsSize(s: seq<string>)
    ensures |Elems(s)| <= |s|
    ensures |Elems(s)| == |s| <==> Distinct(s)
  {
    if s != [] {
      var m := |s| - 1;
      var t := s[..m];
      ElemsSize(t);
      assert Elems(s) == Elems(t) + {s[m]};
      if s[m] in Elems(t) {
        assert Elems(s) == Elems(t);
        var i :| 0 <= i < m && s[i] == s[m];
      } else {
        assert Distinct(s) <==> Distinct(t);
      }
    }
  }

  /** The membership-test versions reach zero exactly for a repeat-free list that is all done. */
  lemma SeenAll(deps: seq<string>, done: set<string>)
    ensures |Seen(deps, done)| <= |deps|
    ensures |Seen(deps, done)| == |deps| <==> Distinct(deps) && forall d :: d in deps ==> d in done
  {
    ElemsSize(deps);
    SubsetSize(Seen(deps, done), Elems(deps));
    if |Seen(deps, done)| == |deps| {
      assert forall d :: d in deps ==> d in Elems(deps) && d in Seen(deps, done);
    }
    if Distinct(deps) && forall d :: d in deps ==> d in done {
      assert Seen(deps, done) == Elems(deps);
    }
  }

  lemma SeenStep(deps: seq<string>, done: set<string>, c: string)
    requires c !in done
    ensures |Seen(deps, done + {c})| == |Seen(deps, done)| + (if c in deps then 1 else 0)
  {
    if c in deps {
      assert Seen(deps, done + {c}) == Seen(deps, done) + {c};
    } else {
      assert Seen(deps, done + {c}) == Seen(deps, done);
    }
  }

  // ----- check 1: topo_sort over adjacency lists ----------------------------------------

  /** Dictionary keys of the first n items, in first-occurrence order. */
  function IdsTo(items: seq<Item>, n: nat): seq<string>
    requires n <= |items|
  {
    if n == 0 then []
    else
      var ids := IdsTo(items, n - 1);
      if items[n - 1].id in ids then ids else ids + [items[n - 1].id]
  }

  function Ids(items: seq<Item>): seq<string> { IdsTo(items, |items|) }

  lemma {:induction false} IdsDistinct(items: seq<Item>, n: nat)
    requires n <= |items|
    ensures Distinct(IdsTo(items, n))
  {
    if n > 0 {
      IdsDistinct(items, n - 1);
    }
  }

  function DepsOf(g: Graph, n: string): seq<string> {
    if n in g then g[n] else []
  }

  /** Items with the same id contribute all their lists to one node. */
  function MergedTo(items: seq<Item>, n: nat): Graph
    requires n <= |items|
  {
    if n == 0 then map[]
    else
      var g := MergedTo(items, n - 1);
      g[items[n - 1].id := DepsOf(g, items[n - 1].id) + items[n - 1].deps]
  }

  lemma {:induction false} MergedKeys(items: seq<Item>, n: nat)
    requires n <= |items|
    ensures MergedTo(items, n).Keys == Elems(IdsTo(items, n))
  {
    if n > 0 {
      MergedKeys(items, n - 1);
    }
  }

  function Merged(items: seq<Item>): Graph { MergedTo(items, |items|) }

  /** The three checks report a cycle exactly when: */
  ghost predicate SortReports(items: seq<Item>) { HasCycle(Merged(items)) }

  ghost predicate FifoReports(items: seq<Item>) { HasCycle(Last(items)) || HasRepeat(Last(items)) }

  ghost predicate StackReports(items: seq<Item>) {
    HasCycle(KnownGraph(Last(items))) || HasRepeat(KnownGraph(Last(items)))
  }

  datatype TopoResult = Sorted(order: seq<string>) | UnknownDep(id: string, dep: string) | CycleFound

  /** n occurs in the adjacency list of d as often as d occurs among the dependencies of n. */
  ghost predicate SameEdges(g: Graph, adj: Graph, n: string, d: string) {
    multiset(DepsOf(adj, d))[n] == multiset(DepsOf(g, n))[d]
  }

  /** In-degrees and adjacency lists describe the graph, edge by edge with multiplicity. */
  ghost predicate Describes(g: Graph, indeg: Counters, adj: Graph) {
    && indeg.Keys == g.Keys
    && (forall n :: n in g ==> indeg[n] == |g[n]|)
    && (forall n, d :: SameEdges(g, adj, n, d))
  }

  lemma DescribesEdge(g: Graph, indeg: Counters, adj: Graph, n: string, d: string)
    requires Describes(g, indeg, adj) && n in g
    ensures Describes(g[n := g[n] + [d]], indeg[n := indeg[n] + 1], adj[d := DepsOf(adj, d) + [n]])
  {
    var g', adj' := g[n := g[n] + [d]], adj[d := DepsOf(adj, d) + [n]];
    forall m, c ensures SameEdges(g', adj', m, c) {
      assert SameEdges(g, adj, m, c);
    }
  }

  lemma DescribesNode(g: Graph, indeg: Counters, adj: Graph, n: string)
    requires Describes(g, indeg, adj) && n !in g
    ensures Describes(g[n := []], indeg[n := 0], adj)
  {
    var g' := g[n := []];
    forall m, c ensures SameEdges(g', adj, m, c) {
      assert SameEdges(g, adj, m, c);
    }
  }

  /** Adding one item's dependencies, in list order; stops at a reference to an unknown id. */
  method AddEdges(ids: set<string>, id: string, deps: seq<string>, ghost g: Graph, indeg0: Counters, adj0: Graph)
    returns (unknown: seq<string>, indeg: Counters, adj: Graph)
    requires Describes(g, indeg0, adj0) && id in g
    ensures if unknown == [] then Resolves(ids, deps) && Describes(g[id := g[id] + deps], indeg, adj)
            else |unknown| == 1 && unknown[0] in deps && unknown[0] !in ids
  {
    unknown, indeg, adj := [], indeg0, adj0;
    var i := 0;
    ghost var list := g[id];
    assert g[id := list] == g;
    while i < |deps|
      invariant i <= |deps|
      invariant list == g[id] + deps[..i] && Describes(g[id := list], indeg, adj)
      invariant forall k :: 0 <= k < i ==> deps[k] in ids
    {
      var dep := deps[i];
      if dep !in ids {
        return [dep], indeg, adj;
      }
      DescribesEdge(g[id := list], indeg, adj, id, dep);
      assert g[id := list][id := list + [dep]] == g[id := list + [dep]];
      list := list + [dep];
      adj := adj[dep := DepsOf(adj, dep) + [id]];
      indeg := indeg[id := indeg[id] + 1];
      i := i + 1;
    }
    assert deps[..i] == deps;
  }

  predicate Resolves(ids: set<string>, deps: seq<string>) {
    forall d :: d in deps ==> d in ids
  }

  ghost predicate AllResolve(items: seq<Item>) {
    forall i :: 0 <= i < |items| ==> Resolves(Elems(Ids(items)), items[i].deps)
  }

  /** An item of the plan names a dependency that is not an id of the plan. */
  ghost predicate Dangling(items: seq<Item>, id: string, dep: string) {
    dep !in Elems(Ids(items)) && exists i :: 0 <= i < |items| && items[i].id == id && dep in items[i].deps
  }

  /** One turn of the loop over the plan: a default in-degree, then the edges. */
  method AddItem(ids: set<string>, item: Item, ghost g: Graph, indeg0: Counters, adj0: Graph)
    returns (unknown: seq<string>, indeg: Counters, adj: Graph)
    requires Describes(g, indeg0, adj0)
    ensures unknown == [] ==> Describes(g[item.id := DepsOf(g, item.id) + item.deps], indeg, adj)
    ensures unknown == [] ==> Resolves(ids, item.deps)
    ensures unknown != [] ==> unknown[0] in item.deps && unknown[0] !in ids
  {
    indeg := indeg0;
    ghost var g' := g[item.id := DepsOf(g, item.id)];
    if item.id !in indeg {
      DescribesNode(g, indeg, adj0, item.id);
      indeg := indeg[item.id := 0];
    } else {
      assert g' == g;
    }
    unknown, indeg, adj := AddEdges(ids, item.id, item.deps, g', indeg, adj0);
    assert g'[item.id := g'[item.id] + item.deps] == g[item.id := DepsOf(g, item.id) + item.deps];
  }

  /** The loop over the plan that fills in-degrees and adjacency lists. */
  method BuildGraph(items: seq<Item>, ids: set<string>)
    returns (unknown: seq<(nat, string)>, indeg: Counters, adj: Graph)
    ensures unknown == [] ==> Describes(Merged(items), indeg, adj)
    ensures unknown == [] ==> forall k :: 0 <= k < |items| ==> Resolves(ids, items[k].deps)
    ensures unknown != [] ==> unknown[0].0 < |items| && unknown[0].1 in items[unknown[0].0].deps && unknown[0].1 !in ids
  {
    unknown, indeg, adj := [], map[], map[];
    ghost var g: Graph := map[];
    var i := 0;
    while i < |items|
      invariant i <= |items|
      invariant g == MergedTo(items, i)
      invariant Describes(g, indeg, adj)
      invariant forall k :: 0 <= k < i ==> Resolves(ids, items[k].deps)
    {
      var bad;
      bad, indeg, adj := AddItem(ids, items[i], g, indeg, adj);
      if bad != [] {
        return [(i, bad[0])], indeg, adj;
      }
      g := g[items[i].id := DepsOf(g, items[i].id) + items[i].deps];
      assert Resolves(ids, items[i].deps);
      i := i + 1;
    }
  }

  // ----- the queue loop, whatever its discipline ----------------------------------------

  type Counters = map<string, nat>

  /** Finished nodes are in a topological order; a node is finished or waiting in the queue,
      once, exactly when its counter is zero. */
  ghost predicate KahnState(g: Graph, indeg: Counters, order: seq<string>, queue: seq<string>) {
    && indeg.Keys == g.Keys
    && TopoOrder(g, order)
    && Distinct(queue)
    && (forall n :: n in queue ==> n in g && n !in order && indeg[n] == 0)
    && (forall n :: n in order ==> indeg[n] == 0)
    && (forall n :: n in g && indeg[n] == 0 ==> n in order || n in queue)
  }

  ghost predicate RemovedOne(queue: seq<string>, cur: string, queue': seq<string>) {
    cur in queue && Distinct(queue') && forall n :: n in queue' <==> n in queue && n != cur
  }

  /** Finishing a queued node whose dependencies are all finished. */
  lemma Finish(g: Graph, indeg: Counters, order: seq<string>, queue: seq<string>, cur: string, queue': seq<string>)
    requires KahnState(g, indeg, order, queue) && RemovedOne(queue, cur, queue')
    requires forall d :: d in g[cur] ==> d in order
    ensures KahnState(g, indeg, order + [cur], queue')
    ensures cur !in Elems(order) && Elems(order + [cur]) == Elems(order) + {cur}
  {
    var order' := order + [cur];
    forall i | 0 <= i < |order'| ensures order'[i] in g && forall d :: d in g[order'[i]] ==> d in order'[..i] {
      assert order'[..i] == order[..i];
      assert order[..|order|] == order;
    }
    assert forall n :: n in order' <==> n in order || n == cur;
  }

  /** Counting a node down queues it exactly when the counter reaches zero. */
  lemma CountDown(g: Graph, indeg: Counters, order: seq<string>, queue: seq<string>, n: string)
    requires KahnState(g, indeg, order, queue) && n in g && indeg[n] > 0
    ensures KahnState(g, indeg[n := indeg[n] - 1], order, if indeg[n] == 1 then queue + [n] else queue)
  {
    var queue' := if indeg[n] == 1 then queue + [n] else queue;
    assert forall m :: m in queue' <==> m in queue || (indeg[n] == 1 && m == n);
  }

  /** The initial queue: keys whose counter is zero, in order. */
  function ZeroKeys(ids: seq<string>, indeg: Counters): (z: seq<string>)
    requires forall n :: n in ids ==> n in indeg
    requires Distinct(ids)
    ensures Distinct(z)
    ensures forall n :: n in z <==> n in ids && indeg[n] == 0
  {
    if ids == [] then []
    else
      var m := |ids| - 1;
      var z := ZeroKeys(ids[..m], indeg);
      assert ids[m] !in ids[..m];
      if indeg[ids[m]] == 0 then z + [ids[m]] else z
  }

  lemma PopFront(queue: seq<string>)
    requires Distinct(queue) && queue != []
    ensures RemovedOne(queue, queue[0], queue[1..])
  {
    assert queue == [queue[0]] + queue[1..];
  }

  lemma PopBack(queue: seq<string>)
    requires Distinct(queue) && queue != []
    ensures RemovedOne(queue, queue[|queue| - 1], queue[..|queue| - 1])
  {
    assert queue == queue[..|queue| - 1] + [queue[|queue| - 1]];
  }

  // ----- check 1, continued -------------------------------------------------------------

  ghost predicate CountsRemaining(g: Graph, indeg: Counters, done: set<string>) {
    forall n :: n in g && n in indeg ==> indeg[n] == Remaining(g[n], done)
  }

  /** How often n occurs among the first j. */
  function CountTo(succs: seq<string>, j: nat, n: string): nat
    requires j <= |succs|
  {
    if j == 0 then 0 else CountTo(succs, j - 1, n) + if succs[j - 1] == n then 1 else 0
  }

  lemma {:induction false} CountIsMultiset(succs: seq<string>, j: nat, n: string)
    requires j <= |succs|
    ensures CountTo(succs, j, n) == multiset(succs[..j])[n] <= multiset(succs)[n]
  {
    if j > 0 {
      CountIsMultiset(succs, j - 1, n);
      assert succs[..j] == succs[..j - 1] + [succs[j - 1]];
    }
    assert succs == succs[..j] + succs[j..];
  }

  /** What the loop over one adjacency list still has to subtract. */
  ghost predicate PartlyCounted(g: Graph, indeg: Counters, done: set<string>, succs: seq<string>, j: nat)
    requires j <= |succs|
  {
    forall n :: n in g && n in indeg ==> indeg[n] + CountTo(succs, j, n) == Remaining(g[n], done)
  }

  /** The adjacency list of a node, edge by edge. */
  ghost predicate Successors(g: Graph, cur: string, succs: seq<string>) {
    forall n :: multiset(succs)[n] == multiset(DepsOf(g, n))[cur]
  }

  lemma SuccessorsOf(g: Graph, adj: Graph, cur: string)
    requires forall n, d :: SameEdges(g, adj, n, d)
    ensures Successors(g, cur, DepsOf(adj, cur))
  {
    forall n ensures multiset(DepsOf(adj, cur))[n] == multiset(DepsOf(g, n))[cur] {
      assert SameEdges(g, adj, n, cur);
    }
  }

  lemma StillPositive(g: Graph, indeg: Counters, done: set<string>, cur: string, succs: seq<string>, j: nat)
    requires indeg.Keys == g.Keys && cur !in done && j < |succs| && PartlyCounted(g, indeg, done, succs, j)
    requires Successors(g, cur, succs)
    ensures succs[j] in g && indeg[succs[j]] > 0
    ensures PartlyCounted(g, indeg[succs[j] := indeg[succs[j]] - 1], done, succs, j + 1)
  {
    var n := succs[j];
    CountIsMultiset(succs, j + 1, n);
    RemainingStep(DepsOf(g, n), done, cur);
  }

  lemma AllCounted(g: Graph, indeg: Counters, done: set<string>, cur: string, succs: seq<string>)
    requires cur !in done && Successors(g, cur, succs) && PartlyCounted(g, indeg, done, succs, |succs|)
    ensures CountsRemaining(g, indeg, done + {cur})
  {
    assert succs[..|succs|] == succs;
    forall n | n in g && n in indeg ensures indeg[n] == Remaining(g[n], done + {cur}) {
      CountIsMultiset(succs, |succs|, n);
      RemainingStep(g[n], done, cur);
    }
  }

  lemma ReleaseStep(g: Graph, indeg: Counters, order: seq<string>, queue: seq<string>, done: set<string>, cur: string,
                    succs: seq<string>, j: nat)
    requires cur !in done && Successors(g, cur, succs) && j < |succs|
    requires KahnState(g, indeg, order, queue) && PartlyCounted(g, indeg, done, succs, j)
    ensures succs[j] in indeg && indeg[succs[j]] > 0
    ensures var n := succs[j];
      var indeg' := indeg[n := indeg[n] - 1];
      && KahnState(g, indeg', order, if indeg'[n] == 0 then queue + [n] else queue)
      && PartlyCounted(g, indeg', done, succs, j + 1)
  {
    StillPositive(g, indeg, done, cur, succs, j);
    CountDown(g, indeg, order, queue, succs[j]);
  }

  /** The loop over one adjacency list. */
  method Release(ghost g: Graph, ghost order: seq<string>, ghost done: set<string>, ghost cur: string,
                 succs: seq<string>, indeg0: Counters, queue0: seq<string>)
    returns (indeg: Counters, queue: seq<string>)
    requires cur !in done && Successors(g, cur, succs)
    requires KahnState(g, indeg0, order, queue0) && PartlyCounted(g, indeg0, done, succs, 0)
    ensures KahnState(g, indeg, order, queue) && PartlyCounted(g, indeg, done, succs, |succs|)
  {
    indeg, queue := indeg0, queue0;
    var j := 0;
    while j < |succs|
      invariant j <= |succs|
      invariant PartlyCounted(g, indeg, done, succs, j)
      invariant KahnState(g, indeg, order, queue)
    {
      var nxt := succs[j];
      ReleaseStep(g, indeg, order, queue, done, cur, succs, j);
      indeg := indeg[nxt := indeg[nxt] - 1];
      queue := if indeg[nxt] == 0 then queue + [nxt] else queue;
      j := j + 1;
    }
  }

  /** When the queue is empty and nodes are left, they wait for each other. */
  lemma LeftoversCycle(g: Graph, indeg: Counters, order: seq<string>)
    requires Closed(g) && KahnState(g, indeg, order, []) && CountsRemaining(g, indeg, Elems(order)) && |order| != |g|
    ensures HasCycle(g)
  {
    ShortOrderLeaves(g, order);
    var rest := g.Keys - Elems(order);
    forall n | n in rest ensures WaitsFor(g, rest, n) {
      RemainingZero(g[n], Elems(order));
      var d :| d in g[n] && d !in Elems(order);
      assert d in rest;
    }
    StuckHasCycle(g, rest);
  }

  lemma StartState(g: Graph, indeg: Counters, adj: Graph, ids: seq<string>)
    requires Describes(g, indeg, adj) && Distinct(ids) && Elems(ids) == g.Keys
    requires forall n :: n in ids ==> n in indeg
    ensures KahnState(g, indeg, [], ZeroKeys(ids, indeg)) && CountsRemaining(g, indeg, {})
  {
    forall n | n in g && n in indeg ensures indeg[n] == Remaining(g[n], {}) {
      RemainingZero(g[n], {});
    }
    assert forall n :: n in g ==> n in Elems(ids) && n in ids;
  }

  lemma {:induction false} MergedClosed(items: seq<Item>, n: nat)
    requires AllResolve(items) && n <= |items|
    ensures forall m, d :: m in MergedTo(items, n) && d in MergedTo(items, n)[m] ==> d in Elems(Ids(items))
  {
    if n > 0 {
      MergedClosed(items, n - 1);
      assert Resolves(Elems(Ids(items)), items[n - 1].deps);
    }
  }

  /** The queue loop of topo_sort. */
  method RunQueue(ghost g: Graph, adj: Graph, indeg0: Counters, queue0: seq<string>)
    returns (order: seq<string>, ghost indeg': Counters)
    requires forall n, d :: SameEdges(g, adj, n, d)
    requires KahnState(g, indeg0, [], queue0) && CountsRemaining(g, indeg0, {})
    ensures KahnState(g, indeg', order, []) && CountsRemaining(g, indeg', Elems(order))
  {
    var indeg, queue := indeg0, queue0;
    order := [];
    ghost var done: set<string> := {};
    while queue != []
      invariant KahnState(g, indeg, order, queue)
      invariant done == Elems(order) && CountsRemaining(g, indeg, done)
      decreases g.Keys - done
    {
      var cur := queue[0];
      ghost var succs := DepsOf(adj, cur);
      SuccessorsOf(g, adj, cur);
      PopFront(queue);
      RemainingZero(g[cur], done);
      Finish(g, indeg, order, queue, cur, queue[1..]);
      order := order + [cur];
      indeg, queue := Release(g, order, done, cur, DepsOf(adj, cur), indeg, queue[1..]);
      AllCounted(g, indeg, done, cur, succs);
      done := done + {cur};
    }
    indeg' := indeg;
  }

  /** topo_sort: a full topological order exactly when the graph has no cycle. */
  method TopoSort(items: seq<Item>) returns (r: TopoResult)
    ensures r.UnknownDep? ==> Dangling(items, r.id, r.dep)
    ensures r.UnknownDep? <==> !AllResolve(items)
    ensures r.CycleFound? ==> SortReports(items)
    ensures r.Sorted? ==> !SortReports(items) && TopoOrder(Merged(items), r.order)
    ensures r.Sorted? ==> Elems(r.order) == Elems(Ids(items))
  {
    var ids := Ids(items);
    IdsDistinct(items, |items|);
    var unknown, indeg, adj := BuildGraph(items, Elems(ids));
    if unknown != [] {
      assert !Resolves(Elems(ids), items[unknown[0].0].deps);
      return UnknownDep(items[unknown[0].0].id, unknown[0].1);
    }
    ghost var g := Merged(items);
    MergedKeys(items, |items|);
    MergedClosed(items, |items|);
    StartState(g, indeg, adj, ids);
    DistinctSize(ids);
    var order, indeg' := RunQueue(g, adj, indeg, ZeroKeys(ids, indeg));
    if |order| != |ids| {
      LeftoversCycle(g, indeg', order);
      return CycleFound;
    }
    FullOrderNoCycle(g, order);
    r := Sorted(order);
  }

  // ----- checks 2 and 3: membership tests over the whole dictionary ---------------------

  /** A dictionary built item by item: a later item with the same id replaces the earlier one. */
  function LastTo(items: seq<Item>, n: nat): (g: Graph)
    requires n <= |items|
    ensures g.Keys == Elems(IdsTo(items, n))
  {
    if n == 0 then map[] else LastTo(items, n - 1)[items[n - 1].id := items[n - 1].deps]
  }

  function Last(items: seq<Item>): Graph { LastTo(items, |items|) }

  /** The references of a list that are keys. */
  function Known(deps: seq<string>, keys: set<string>): (r: seq<string>)
    ensures forall d :: d in r <==> d in deps && d in keys
  {
    if deps == [] then []
    else
      assert deps == [deps[0]] + deps[1..];
      (if deps[0] in keys then [deps[0]] else []) + Known(deps[1..], keys)
  }

  function KnownGraph(h: Graph): Graph {
    map n | n in h :: Known(h[n], h.Keys)
  }

  ghost predicate CountsUnseen(g: Graph, indeg: Counters, done: set<string>) {
    forall n :: n in g && n in indeg ==> indeg[n] + |Seen(g[n], done)| == |g[n]|
  }

  /** Part of the dictionary has been swept for the finished node cur. */
  ghost predicate PartlySwept(g: Graph, indeg: Counters, done: set<string>, cur: string, ids: seq<string>, j: nat) {
    && (forall k :: 0 <= k < |ids| ==> ids[k] in g && ids[k] in indeg)
    && (forall k :: 0 <= k < j && k < |ids| ==> indeg[ids[k]] + |Seen(g[ids[k]], done + {cur})| == |g[ids[k]]|)
    && (forall k :: j <= k < |ids| ==> indeg[ids[k]] + |Seen(g[ids[k]], done)| == |g[ids[k]]|)
  }

  lemma SweepStep(g: Graph, indeg: Counters, done: set<string>, cur: string, ids: seq<string>, j: nat)
    requires cur !in done && Distinct(ids) && j < |ids| && PartlySwept(g, indeg, done, cur, ids, j)
    ensures cur in g[ids[j]] ==> indeg[ids[j]] > 0
    ensures cur in g[ids[j]] ==> PartlySwept(g, indeg[ids[j] := indeg[ids[j]] - 1], done, cur, ids, j + 1)
    ensures cur !in g[ids[j]] ==> PartlySwept(g, indeg, done, cur, ids, j + 1)
  {
    var m := ids[j];
    SeenStep(g[m], done, cur);
    SeenAll(g[m], done + {cur});
  }

  /** The sweep both checks make for every node they finish. */
  method Sweep(ghost g: Graph, h: Graph, ghost order: seq<string>, ghost done: set<string>, cur: string,
               ids: seq<string>, indeg0: Counters, queue0: seq<string>)
    returns (indeg: Counters, queue: seq<string>)
    requires cur !in done && Distinct(ids) && KahnState(g, indeg0, order, queue0)
    requires PartlySwept(g, indeg0, done, cur, ids, 0)
    requires forall m :: m in g ==> m in h && (cur in h[m] <==> cur in g[m])
    ensures KahnState(g, indeg, order, queue) && PartlySwept(g, indeg, done, cur, ids, |ids|)
  {
    indeg, queue := indeg0, queue0;
    var j := 0;
    while j < |ids|
      invariant j <= |ids|
      invariant KahnState(g, indeg, order, queue)
      invariant PartlySwept(g, indeg, done, cur, ids, j)
    {
      var m := ids[j];
      SweepStep(g, indeg, done, cur, ids, j);
      if cur in h[m] {
        CountDown(g, indeg, order, queue, m);
        indeg := indeg[m := indeg[m] - 1];
        if indeg[m] == 0 {
          queue := queue + [m];
        }
      }
      j := j + 1;
    }
  }

  /** Counter zero means: no repeated dependency, and all of them finished. */
  lemma UnseenZero(g: Graph, indeg: Counters, done: set<string>, n: string)
    requires n in g && n in indeg && CountsUnseen(g, indeg, done)
    ensures indeg[n] == 0 <==> Distinct(g[n]) && forall d :: d in g[n] ==> d in done
  {
    SeenAll(g[n], done);
  }

  lemma SweptAll(g: Graph, indeg: Counters, done: set<string>, cur: string, ids: seq<string>)
    requires Elems(ids) == g.Keys && PartlySwept(g, indeg, done, cur, ids, |ids|)
    ensures CountsUnseen(g, indeg, done + {cur})
  {
    forall n | n in g && n in indeg ensures indeg[n] + |Seen(g[n], done + {cur})| == |g[n]| {
      assert n in Elems(ids);
      var k :| 0 <= k < |ids| && ids[k] == n;
    }
  }

  lemma SweepStart(g: Graph, indeg: Counters, done: set<string>, cur: string, ids: seq<string>)
    requires Elems(ids) == g.Keys && indeg.Keys == g.Keys && CountsUnseen(g, indeg, done)
    ensures PartlySwept(g, indeg, done, cur, ids, 0)
  {
    forall k | 0 <= k < |ids| ensures ids[k] in g && ids[k] in indeg {
      assert ids[k] in Elems(ids);
    }
  }

  /** Finishing everything is exactly having neither a cycle nor a repeated dependency. */
  lemma LeftoversMembership(g: Graph, indeg: Counters, order: seq<string>)
    requires Closed(g) && KahnState(g, indeg, order, []) && CountsUnseen(g, indeg, Elems(order))
    ensures |order| != |g| <==> HasCycle(g) || HasRepeat(g)
  {
    if |order| == |g| {
      FullOrderNoCycle(g, order);
      forall n | n in g ensures Distinct(g[n]) {
        assert n in Elems(order);
        UnseenZero(g, indeg, Elems(order), n);
      }
    } else if !HasRepeat(g) {
      ShortOrderLeaves(g, order);
      var rest := g.Keys - Elems(order);
      forall n | n in rest ensures WaitsFor(g, rest, n) {
        UnseenZero(g, indeg, Elems(order), n);
        assert Distinct(g[n]);
        var d :| d in g[n] && d !in Elems(order);
        assert d in rest;
      }
      StuckHasCycle(g, rest);
    }
  }

  lemma UnseenStart(g: Graph, indeg: Counters, ids: seq<string>)
    requires Distinct(ids) && Elems(ids) == g.Keys == indeg.Keys
    requires forall n :: n in ids ==> n in indeg
    requires forall n :: n in g && n in indeg ==> indeg[n] == |g[n]|
    ensures KahnState(g, indeg, [], ZeroKeys(ids, indeg)) && CountsUnseen(g, indeg, {})
  {
    assert forall n :: n in g ==> n in Elems(ids) && n in ids;
    assert forall n :: n in g ==> Seen(g[n], {}) == {};
  }

  /** One turn of either loop: finish cur, then sweep. */
  method FinishAndSweep(ghost g: Graph, h: Graph, ghost order: seq<string>, cur: string, ids: seq<string>,
                        indeg0: Counters, ghost queue0: seq<string>, rest: seq<string>)
    returns (indeg: Counters, queue: seq<string>)
    requires Distinct(ids) && Elems(ids) == g.Keys
    requires KahnState(g, indeg0, order, queue0) && CountsUnseen(g, indeg0, Elems(order))
    requires RemovedOne(queue0, cur, rest)
    requires forall m :: m in g ==> m in h && (cur in h[m] <==> cur in g[m])
    ensures KahnState(g, indeg, order + [cur], queue) && CountsUnseen(g, indeg, Elems(order + [cur]))
    ensures cur in g && cur !in Elems(order) && Elems(order + [cur]) == Elems(order) + {cur}
  {
    UnseenZero(g, indeg0, Elems(order), cur);
    Finish(g, indeg0, order, queue0, cur, rest);
    SweepStart(g, indeg0, Elems(order), cur, ids);
    indeg, queue := Sweep(g, h, order + [cur], Elems(order), cur, ids, indeg0, rest);
    SweptAll(g, indeg, Elems(order), cur, ids);
  }

  datatype WorkItemResult = Unresolved | Cyclic | Pass

  /** check_wi_depends_on_valid: FIFO queue; unresolved references are reported first. */
  method CheckWorkItems(items: seq<Item>) returns (r: WorkItemResult)
    ensures r.Unresolved? <==> exists n :: n in Last(items) && !Resolves(Last(items).Keys, Last(items)[n])
    ensures !r.Unresolved? ==> (r.Cyclic? <==> FifoReports(items))
  {
    var g := Last(items);
    if exists n :: n in g && !Resolves(g.Keys, g[n]) {
      return Unresolved;
    }
    assert Closed(g) by {
      forall n, d | n in g && d in g[n] ensures d in g {
        assert Resolves(g.Keys, g[n]);
      }
    }
    var ids := Ids(items);
    IdsDistinct(items, |items|);
    var indeg: Counters := map n | n in g :: |g[n]|;
    UnseenStart(g, indeg, ids);
    var queue := ZeroKeys(ids, indeg);
    var order := [];
    while queue != []
      invariant KahnState(g, indeg, order, queue) && CountsUnseen(g, indeg, Elems(order))
      decreases g.Keys - Elems(order)
    {
      var n := queue[0];
      PopFront(queue);
      indeg, queue := FinishAndSweep(g, g, order, n, ids, indeg, queue, queue[1..]);
      order := order + [n];
    }
    LeftoversMembership(g, indeg, order);
    r := if |order| != |g| then Cyclic else Pass;
  }

  /** The stack loop of check_pr_slice_consistency. */
  method RunStack(ghost g: Graph, h: Graph, ids: seq<string>, indeg0: Counters, stack0: seq<string>)
    returns (visited: nat, ghost order: seq<string>, ghost indeg': Counters)
    requires Distinct(ids) && Elems(ids) == g.Keys
    requires forall m :: m in g ==> m in h && forall d :: d in g ==> (d in h[m] <==> d in g[m])
    requires KahnState(g, indeg0, [], stack0) && CountsUnseen(g, indeg0, {})
    ensures visited == |order| && KahnState(g, indeg', order, []) && CountsUnseen(g, indeg', Elems(order))
  {
    var indeg, stack := indeg0, stack0;
    visited, order := 0, [];
    assert Elems(order) == {};
    while stack != []
      invariant visited == |order|
      invariant KahnState(g, indeg, order, stack) && CountsUnseen(g, indeg, Elems(order))
      decreases g.Keys - Elems(order)
    {
      var top := |stack| - 1;
      var n := stack[top];
      PopBack(stack);
      indeg, stack := FinishAndSweep(g, h, order, n, ids, indeg, stack, stack[..top]);
      order := order + [n];
      visited := visited + 1;
    }
    indeg' := indeg;
  }

  /** The cycle part of check_pr_slice_consistency: LIFO stack; unknown references do not count. */
  method CheckSlices(items: seq<Item>) returns (cyclic: bool)
    ensures cyclic <==> StackReports(items)
  {
    var h := Last(items);
    ghost var g := KnownGraph(h);
    var ids := Ids(items);
    IdsDistinct(items, |items|);
    var indeg: Counters := map n | n in h :: |Known(h[n], h.Keys)|;
    UnseenStart(g, indeg, ids);
    var visited, order, indeg' := RunStack(g, h, ids, indeg, ZeroKeys(ids, indeg));
    LeftoversMembership(g, indeg', order);
    assert g.Keys == h.Keys && |g| == |g.Keys| && |h| == |h.Keys|;
    DistinctSize(order);
    SubsetSize(Elems(order), g.Keys);
    cyclic := visited < |h|;
  }

  // ----- when the three agree -----------------------------------------------------------

  predicate DistinctIds(items: seq<Item>) {
    forall i, j :: 0 <= i < j < |items| ==> items[i].id != items[j].id
  }

  lemma {:induction false} IdsFrom(items: seq<Item>, n: nat, x: string)
    requires n <= |items| && forall i :: 0 <= i < n ==> items[i].id != x
    ensures x !in IdsTo(items, n)
  {
    if n > 0 {
      IdsFrom(items, n - 1, x);
    }
  }

  lemma {:induction false} MergedIsLast(items: seq<Item>, n: nat)
    requires DistinctIds(items) && n <= |items|
    ensures MergedTo(items, n) == LastTo(items, n)
  {
    if n > 0 {
      MergedIsLast(items, n - 1);
      IdsFrom(items, n - 1, items[n - 1].id);
      MergedKeys(items, n - 1);
      FirstList(MergedTo(items, n - 1), items[n - 1].id, items[n - 1].deps);
    }
  }

  lemma FirstList(g: Graph, x: string, deps: seq<string>)
    requires x !in g
    ensures g[x := DepsOf(g, x) + deps] == g[x := deps]
  {
    assert [] + deps == deps;
  }

  lemma {:induction false} KnownAll(deps: seq<string>, keys: set<string>)
    requires Resolves(keys, deps)
    ensures Known(deps, keys) == deps
  {
    if deps != [] {
      assert deps[0] in deps;
      assert forall d :: d in deps[1..] ==> d in deps;
      KnownAll(deps[1..], keys);
    }
  }

  /** On plans whose ids are distinct and whose references all resolve, checks 2 and 3 give the same
      answer, and check 1 agrees with them exactly when the plan is cyclic or repeats no dependency. */
  lemma ChecksAgree(items: seq<Item>)
    requires DistinctIds(items) && AllResolve(items)
    ensures StackReports(items) <==> FifoReports(items)
    ensures (SortReports(items) <==> FifoReports(items)) <==> HasCycle(Last(items)) || !HasRepeat(Last(items))
    ensures !exists n :: n in Last(items) && !Resolves(Last(items).Keys, Last(items)[n])
  {
    MergedIsLast(items, |items|);
    MergedClosed(items, |items|);
    var h := Last(items);
    forall n | n in h ensures Resolves(h.Keys, h[n]) && Known(h[n], h.Keys) == h[n] {
      KnownAll(h[n], h.Keys);
    }
    assert KnownGraph(h) == h;
  }

  /** A repeated dependency alone makes the membership-test checks report a cycle. */
  lemma RepeatIsReported(a: string, b: string)
    requires a != b
    ensures var items := [Item(a, []), Item(b, [a, a])];
      DistinctIds(items) && AllResolve(items) && !HasCycle(Merged(items)) && HasRepeat(Last(items))
  {
    var items := [Item(a, []), Item(b, [a, a])];
    assert IdsTo(items, 1) == [a] && IdsTo(items, 2) == [a, b];
    MergedIsLast(items, 2);
    var g := Last(items);
    assert LastTo(items, 1) == map[a := []];
    assert g[a] == [] && g[b] == [a, a];
    assert g[b][0] == g[b][1];
    assert Resolves(Elems(Ids(items)), items[0].deps) && Resolves(Elems(Ids(items)), items[1].deps);
    assert g.Keys == {a, b};
    assert [a, b][..1] == [a];
    FullOrderNoCycle(g, [a, b]);
  }

  // ----- the graphs of a plan -----------------------------------------------------------

  ghost predicate EntryLists(items: seq<Item>, i: nat, id: string, dep: string)
    requires i < |items|
  {
    items[i].id == id && dep in items[i].deps
  }

  /** The first check sees a dependency exactly when some entry of the plan with that id lists it. */
  lemma {:induction false} MergedHas(items: seq<Item>, n: nat, id: string, dep: string)
    requires n <= |items|
    ensures dep in DepsOf(MergedTo(items, n), id) <==> exists i :: 0 <= i < n && EntryLists(items, i, id, dep)
  {
    if n > 0 {
      MergedHas(items, n - 1, id, dep);
      var before, last := DepsOf(MergedTo(items, n - 1), id), items[n - 1];
      assert dep in before + last.deps <==> dep in before || dep in last.deps;
      if last.id == id {
        assert DepsOf(MergedTo(items, n), id) == before + last.deps;
        assert EntryLists(items, n - 1, id, dep) <==> dep in last.deps;
      } else {
        assert DepsOf(MergedTo(items, n), id) == before;
      }
    }
  }

  /** The other two see the list of the last entry with that id. */
  lemma {:induction false} LastHas(items: seq<Item>, n: nat, i: nat)
    requires i < n <= |items| && forall j :: i < j < n ==> items[j].id != items[i].id
    ensures items[i].id in LastTo(items, n) && LastTo(items, n)[items[i].id] == items[i].deps
  {
    if n > i + 1 {
      LastHas(items, n - 1, i);
    }
  }

  /** The third counts the references to known ids only, each as often as it is listed. */
  lemma {:induction false} KnownKeeps(deps: seq<string>, keys: set<string>, d: string)
    ensures multiset(Known(deps, keys))[d] == if d in keys then multiset(deps)[d] else 0
  {
    if deps != [] {
      KnownKeeps(deps[1..], keys, d);
      assert deps == [deps[0]] + deps[1..];
    }
  }
}
