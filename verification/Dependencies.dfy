/**
 Dependency graphs: cycles, topological orders, and what a stuck Kahn run means.
 */
module Dependencies {
  import opened Wrappers

  /** Each node with the list of nodes it depends on. */
  type Graph = map<string, seq<string>>

  predicate Distinct(s: seq<string>) {
    forall i, j :: 0 <= i < j < |s| ==> s[i] != s[j]
  }

  function Elems(s: seq<string>): set<string> {
    set x | x in s
  }

  /** Every dependency is itself a node. */
  ghost predicate Closed(g: Graph) {
    forall n, d :: n in g && d in g[n] ==> d in g
  }

  ghost predicate FollowsAt(g: Graph, p: seq<string>, i: nat)
    requires i + 1 < |p|
  {
    p[i] in g && p[i + 1] in g[p[i]]
  }

  /** A walk follows dependencies. */
  ghost predicate IsWalk(g: Graph, p: seq<string>) {
    && |p| >= 1
    && (forall i :: 0 <= i < |p| ==> p[i] in g)
    && (forall i :: 0 <= i < |p| - 1 ==> FollowsAt(g, p, i))
  }

  lemma SubWalk(g: Graph, p: seq<string>, i: nat, j: nat)
    requires IsWalk(g, p) && i < j <= |p|
    ensures IsWalk(g, p[i..j])
  {
    var q := p[i..j];
    forall k | 0 <= k < |q| - 1 ensures FollowsAt(g, q, k) {
      assert FollowsAt(g, p, i + k);
    }
  }

  ghost predicate IsCycle(g: Graph, p: seq<string>) {
    IsWalk(g, p) && |p| >= 2 && p[0] == p[|p| - 1]
  }

  ghost predicate HasCycle(g: Graph) {
    exists p :: IsCycle(g, p)
  }

  ghost predicate HasRepeat(g: Graph) {
    exists n :: n in g && !Distinct(g[n])
  }

  /** A partial order of work: no node twice, and every dependency of a node before it. */
  ghost predicate TopoOrder(g: Graph, order: seq<string>) {
    && Distinct(order)
    && (forall i :: 0 <= i < |order| ==> order[i] in g && forall d :: d in g[order[i]] ==> d in order[..i])
  }

  // ----- counting -----------------------------------------------------------------------

  lemma {:induction false} DistinctSize(s: seq<string>)
    requires Distinct(s)
    ensures |Elems(s)| == |s|
  {
    if s != [] {
      var m := |s| - 1;
      DistinctSize(s[..m]);
      assert Elems(s) == Elems(s[..m]) + {s[m]};
      assert s[m] !in Elems(s[..m]);
    }
  }

  /** More steps than places means a place was visited twice. */
  lemma Pigeonhole(p: seq<string>, places: set<string>) returns (i: nat, j: nat)
    requires |p| > |places| && forall k :: 0 <= k < |p| ==> p[k] in places
    ensures i < j < |p| && p[i] == p[j]
  {
    if Distinct(p) {
      DistinctSize(p);
      SubsetSize(Elems(p), places);
      assert false;
    }
    i, j :| 0 <= i < j < |p| && p[i] == p[j];
  }

  // ----- stuck means cyclic -------------------------------------------------------------

  ghost predicate WaitsFor(g: Graph, rest: set<string>, n: string) {
    n in g && exists d :: d in g[n] && d in rest
  }

  ghost predicate Stuck(g: Graph, rest: set<string>) {
    forall n :: n in rest ==> WaitsFor(g, rest, n)
  }

  lemma {:induction false} LongWalk(g: Graph, rest: set<string>, n: nat) returns (p: seq<string>)
    requires Stuck(g, rest) && rest != {}
    ensures IsWalk(g, p) && |p| == n + 1 && forall i :: 0 <= i < |p| ==> p[i] in rest
  {
    if n == 0 {
      var x :| x in rest;
      assert WaitsFor(g, rest, x);
      p := [x];
    } else {
      var q := LongWalk(g, rest, n - 1);
      assert WaitsFor(g, rest, q[n - 1]);
      var d :| d in g[q[n - 1]] && d in rest;
      assert WaitsFor(g, rest, d);
      p := q + [d];
      forall i | 0 <= i < |p| - 1 ensures FollowsAt(g, p, i) {
        if i < n - 1 {
          assert FollowsAt(g, q, i);
        }
      }
    }
  }

  /** A non-empty set of nodes each of which waits for another one of them contains a cycle. */
  lemma StuckHasCycle(g: Graph, rest: set<string>)
    requires Stuck(g, rest) && rest != {}
    ensures HasCycle(g)
  {
    var p := LongWalk(g, rest, |rest|);
    var i, j := Pigeonhole(p, rest);
    SubWalk(g, p, i, j + 1);
    assert IsCycle(g, p[i..j + 1]);
  }

  // ----- ordered means acyclic ----------------------------------------------------------

  lemma {:induction false} WalkDescends(g: Graph, order: seq<string>, p: seq<string>, k: nat) returns (k': nat)
    requires TopoOrder(g, order) && IsWalk(g, p) && |p| >= 2 && k < |order| && order[k] == p[0]
    ensures k' < k && order[k'] == p[|p| - 1]
    decreases |p|
  {
    assert FollowsAt(g, p, 0);
    var m :| 0 <= m < k && order[m] == p[1];
    if |p| == 2 {
      k' := m;
    } else {
      SubWalk(g, p, 1, |p|);
      assert p[1..|p|] == p[1..];
      k' := WalkDescends(g, order, p[1..], m);
    }
  }

  /** A topological order that reaches every node rules a cycle out. */
  lemma FullOrderNoCycle(g: Graph, order: seq<string>)
    requires TopoOrder(g, order) && |order| == |g|
    ensures Elems(order) == g.Keys && !HasCycle(g)
  {
    DistinctSize(order);
    SubsetSize(Elems(order), g.Keys);
    if HasCycle(g) {
      var p :| IsCycle(g, p);
      assert p[0] in Elems(order);
      var k :| 0 <= k < |order| && order[k] == p[0];
      var k' := WalkDescends(g, order, p, k);
      assert false;
    }
  }

  /** A topological order that is too short leaves nodes behind. */
  lemma ShortOrderLeaves(g: Graph, order: seq<string>)
    requires TopoOrder(g, order) && |order| != |g|
    ensures g.Keys - Elems(order) != {}
  {
    DistinctSize(order);
    assert Elems(order) <= g.Keys;
    SubsetSize(Elems(order), g.Keys);
    assert |g.Keys| == |g.Keys - Elems(order)| + |Elems(order)|;
  }
}
