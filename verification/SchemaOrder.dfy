/**
 The depth-first ordering of collected schemas before C types are emitted. It tolerates
 cyclic references: a schema that is being visited is not entered again.
 */
module SchemaOrder {
  import opened Dependencies

  /** b can be reached from a by following references. */
  ghost predicate Reaches(g: Graph, a: string, b: string) {
    exists p :: IsWalk(g, p) && p[0] == a && p[|p| - 1] == b
  }

  lemma ReachesSelf(g: Graph, a: string)
    requires a in g
    ensures Reaches(g, a, a)
  {
    assert IsWalk(g, [a]);
  }

  lemma ExtendWalk(g: Graph, p: seq<string>, c: string)
    requires IsWalk(g, p) && c in g && c in g[p[|p| - 1]]
    ensures IsWalk(g, p + [c])
  {
    var q := p + [c];
    forall i | 0 <= i < |q| - 1 ensures FollowsAt(g, q, i) {
      if i < |p| - 1 {
        assert FollowsAt(g, p, i);
      }
    }
  }

  lemma ReachesStep(g: Graph, a: string, b: string, c: string)
    requires Reaches(g, a, b) && c in g && c in g[b]
    ensures Reaches(g, a, c)
  {
    var p :| IsWalk(g, p) && p[0] == a && p[|p| - 1] == b;
    ExtendWalk(g, p, c);
    assert (p + [c])[|p|] == c;
  }

  /** Another collected schema that n refers to directly. */
  predicate RefersTo(g: Graph, n: string, d: string) {
    n in g && d in g && d != n && d in g[n]
  }

  /** Every schema once, and a reference may come after its user only inside a cycle. */
  ghost predicate WellOrdered(g: Graph, out: seq<string>) {
    && Distinct(out)
    && (forall i :: 0 <= i < |out| ==> out[i] in g)
    && (forall i, d :: 0 <= i < |out| && RefersTo(g, out[i], d) ==> d in out[..i] || Reaches(g, d, out[i]))
  }

  lemma AppendOrdered(g: Graph, out: seq<string>, n: string)
    requires WellOrdered(g, out) && n in g && n !in out
    requires forall d :: RefersTo(g, n, d) ==> d in out || Reaches(g, d, n)
    ensures WellOrdered(g, out + [n]) && Elems(out + [n]) == Elems(out) + {n}
  {
    var out' := out + [n];
    forall i, d | 0 <= i < |out'| && RefersTo(g, out'[i], d) ensures d in out'[..i] || Reaches(g, d, out'[i]) {
      assert out'[..i] == out[..i];
      assert out[..|out|] == out;
    }
  }

  class Sorter {
    const g: Graph
    var visited: set<string>
    var onStack: set<string>
    var out: seq<string>

    ghost predicate Valid()
      reads this
    {
      visited == Elems(out) && visited !! onStack && onStack <= g.Keys && WellOrdered(g, out)
    }

    constructor (g: Graph)
      ensures Valid() && this.g == g && out == [] && onStack == {}
    {
      this.g := g;
      visited, onStack, out := {}, {}, [];
    }

    /** visit(name). */
    method Visit(name: string)
      requires Valid() && name in g && forall s :: s in onStack ==> Reaches(g, s, name)
      modifies this
      ensures Valid() && onStack == old(onStack) && old(visited) <= visited
      ensures name in visited || name in onStack
      decreases g.Keys - visited - onStack
    {
      if name in visited || name in onStack {
        return;
      }
      onStack := onStack + {name};
      ReachesSelf(g, name);
      var deps := g[name];
      var i := 0;
      while i < |deps|
        invariant i <= |deps|
        invariant Valid() && onStack == old(onStack) + {name} && old(visited) <= visited
        invariant forall k :: 0 <= k < i && deps[k] in g && deps[k] != name ==> deps[k] in visited || deps[k] in onStack
      {
        if deps[i] in g && deps[i] != name {
          forall s | s in onStack ensures Reaches(g, s, deps[i]) {
            ReachesStep(g, s, name, deps[i]);
          }
          Visit(deps[i]);
        }
        i := i + 1;
      }
      onStack := onStack - {name};
      AppendOrdered(g, out, name);
      visited := visited + {name};
      out := out + [name];
    }
  }

  /** topo_sort(collected): terminates on every reference graph, lists each collected schema once, and
      puts a direct reference after its user only when the user is reachable from it. */
  method TopoSort(g: Graph, names: seq<string>) returns (out: seq<string>)
    requires Elems(names) == g.Keys
    ensures WellOrdered(g, out) && Elems(out) == g.Keys
  {
    var sorter := new Sorter(g);
    var i := 0;
    while i < |names|
      invariant i <= |names|
      invariant sorter.Valid() && sorter.onStack == {} && sorter.g == g
      invariant forall k :: 0 <= k < i ==> names[k] in sorter.visited
    {
      assert names[i] in Elems(names);
      sorter.Visit(names[i]);
      i := i + 1;
    }
    out := sorter.out;
    forall x | x in g ensures x in Elems(out) {
      assert x in Elems(names);
    }
  }

  /** On acyclic references every reference comes before its user. */
  lemma AcyclicComesFirst(g: Graph, out: seq<string>, i: nat, d: string)
    requires WellOrdered(g, out) && !HasCycle(g) && i < |out| && d in g && d in g[out[i]]
    ensures d in out[..i]
  {
    var n := out[i];
    if d == n {
      assert FollowsAt(g, [n, n], 0);
      assert IsCycle(g, [n, n]);
    } else if d !in out[..i] {
      assert RefersTo(g, n, d);
      var p :| IsWalk(g, p) && p[0] == d && p[|p| - 1] == n;
      ExtendWalk(g, p, d);
      assert IsCycle(g, p + [d]);
    }
  }
}
