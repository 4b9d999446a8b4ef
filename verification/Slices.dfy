/**
 JSON values as the engines read them, and the S-NSSAI value equality both engines share.
 */
module Slices {
  import opened Wrappers

  datatype Json =
    | Null
    | Bool(b: bool)
    | Num(v: real)
    | Str(s: string)
    | Arr(items: seq<Json>)
    | Obj(fields: seq<Field>)

  datatype Field = Field(key: string, value: Json)

  /** Case-sensitive lookup of the first field with a key; nothing on a non-object. */
  function Get(j: Json, key: string): Option<Json> {
    if j.Obj? then Lookup(j.fields, key) else None
  }

  function Lookup(fields: seq<Field>, key: string): Option<Json> {
    if fields == [] then None
    else if fields[0].key == key then Some(fields[0].value)
    else Lookup(fields[1..], key)
  }

  predicate IsObject(j: Option<Json>) { j.Some? && j.value.Obj? }

  /** The integer view of a JSON number: truncated toward zero and saturated to 32 bits. */
  function ValueInt(v: real): int {
    if v >= 2147483647.0 then 2147483647
    else if v <= -2147483648.0 then -2147483648
    else if v >= 0.0 then v.Floor
    else -((-v).Floor)
  }

  // ----- S-NSSAI equality ---------------------------------------------------------------

  function Sd(a: Json): Option<string> {
    match Get(a, "sd")
    case Some(Str(s)) => Some(s)
    case _ => None
  }

  /** snssai_equal: by (sst, sd); an object without a numeric sst matches nothing. */
  predicate SnssaiEqual(a: Json, b: Json) {
    var sstA, sstB := Get(a, "sst"), Get(b, "sst");
    && sstA.Some? && sstA.value.Num? && sstB.Some? && sstB.value.Num?
    && ValueInt(sstA.value.v) == ValueInt(sstB.value.v)
    && Sd(a).Some? == Sd(b).Some?
    && (Sd(a).Some? ==> Sd(a).value == Sd(b).value)
  }

  predicate Matchable(a: Json) {
    var sst := Get(a, "sst");
    sst.Some? && sst.value.Num?
  }

  /** A partial equivalence: symmetric and transitive, and reflexive exactly on the matchable values. */
  lemma SnssaiEqualPartialEquivalence(a: Json, b: Json, c: Json)
    ensures SnssaiEqual(a, b) <==> SnssaiEqual(b, a)
    ensures SnssaiEqual(a, b) && SnssaiEqual(b, c) ==> SnssaiEqual(a, c)
    ensures SnssaiEqual(a, a) <==> Matchable(a)
  {
  }

  predicate MatchAt(set_: seq<Json>, i: nat, target: Json)
    requires i < |set_|
  {
    SnssaiEqual(set_[i], target)
  }

  /** snssai_in_array. */
  predicate InList(list: seq<Json>, target: Json) {
    exists i :: 0 <= i < |list| && MatchAt(list, i, target)
  }

  lemma InListAppend(a: seq<Json>, b: seq<Json>, target: Json)
    ensures InList(a + b, target) <==> InList(a, target) || InList(b, target)
  {
    var c := a + b;
    if InList(a, target) {
      var i :| 0 <= i < |a| && MatchAt(a, i, target);
      assert MatchAt(c, i, target);
    }
    if InList(b, target) {
      var i :| 0 <= i < |b| && MatchAt(b, i, target);
      assert MatchAt(c, |a| + i, target);
    }
    if InList(c, target) {
      var i :| 0 <= i < |c| && MatchAt(c, i, target);
      if i < |a| {
        assert MatchAt(a, i, target);
      } else {
        assert MatchAt(b, i - |a|, target);
      }
    }
  }

  lemma InListOne(x: Json, target: Json)
    ensures InList([x], target) <==> SnssaiEqual(x, target)
  {
    assert MatchAt([x], 0, target) <==> SnssaiEqual(x, target);
  }

  // ----- deduplicating union ------------------------------------------------------------

  /** The union step both engines make for every listed value. */
  function AddOnce(acc: seq<Json>, it: Json): seq<Json> {
    if !it.Obj? || InList(acc, it) then acc else acc + [it]
  }

  /** acc with the first n values of a list added. */
  function Union(acc: seq<Json>, list: seq<Json>, n: nat): seq<Json>
    requires n <= |list|
  {
    if n == 0 then acc else AddOnce(Union(acc, list, n - 1), list[n - 1])
  }

  /** Some value of the list (an object) matches the target. */
  predicate ListedMatch(list: seq<Json>, n: nat, target: Json)
    requires n <= |list|
  {
    exists i :: 0 <= i < n && MatchAt(list, i, target)
  }

  lemma ObjectsOnly(a: Json, b: Json)
    requires SnssaiEqual(a, b)
    ensures a.Obj? && b.Obj?
  {
  }

  /** Testing against the deduplicated union is testing against everything that was listed. */
  lemma {:induction false} UnionCovers(acc: seq<Json>, list: seq<Json>, n: nat, target: Json)
    requires n <= |list|
    ensures InList(Union(acc, list, n), target) <==> InList(acc, target) || ListedMatch(list, n, target)
  {
    if n > 0 {
      UnionCovers(acc, list, n - 1, target);
      var u, it := Union(acc, list, n - 1), list[n - 1];
      InListAppend(u, [it], target);
      InListOne(it, target);
      assert ListedMatch(list, n, target) <==> ListedMatch(list, n - 1, target) || SnssaiEqual(it, target) by {
        assert MatchAt(list, n - 1, target) <==> SnssaiEqual(it, target);
      }
      if SnssaiEqual(it, target) && it.Obj? && InList(u, it) {
        var i :| 0 <= i < |u| && MatchAt(u, i, it);
        SnssaiEqualPartialEquivalence(u[i], it, target);
        assert MatchAt(u, i, target);
      }
      if SnssaiEqual(it, target) {
        ObjectsOnly(it, target);
      }
    }
  }

  /** No two values of the list are the same slice. */
  predicate NoTwoEqual(list: seq<Json>) {
    forall i, j :: 0 <= i < j < |list| ==> !MatchAt(list, i, list[j])
  }

  lemma {:induction false} UnionNoTwoEqual(acc: seq<Json>, list: seq<Json>, n: nat)
    requires n <= |list| && NoTwoEqual(acc)
    ensures NoTwoEqual(Union(acc, list, n))
  {
    if n > 0 {
      UnionNoTwoEqual(acc, list, n - 1);
      var u, it := Union(acc, list, n - 1), list[n - 1];
      if it.Obj? && !InList(u, it) {
        forall i, j | 0 <= i < j < |u + [it]| ensures !MatchAt(u + [it], i, (u + [it])[j]) {
          assert MatchAt(u + [it], i, (u + [it])[j]) <==> MatchAt(u, i, (u + [it])[j]);
        }
      }
    }
  }

  // ----- what the union keeps -----------------------------------------------------------

  /** The listed objects that match nothing before them, neither in `acc` nor in the list itself, in order. */
  function Firsts(acc: seq<Json>, list: seq<Json>, n: nat): seq<Json>
    requires n <= |list|
  {
    if n == 0 then []
    else
      var it := list[n - 1];
      Firsts(acc, list, n - 1) + if it.Obj? && !InList(acc, it) && !ListedMatch(list, n - 1, it) then [it] else []
  }

  /** The union is what was there, then every first occurrence, each as it was listed. */
  lemma {:induction false} UnionIsFirsts(acc: seq<Json>, list: seq<Json>, n: nat)
    requires n <= |list|
    ensures Union(acc, list, n) == acc + Firsts(acc, list, n)
  {
    if n > 0 {
      UnionIsFirsts(acc, list, n - 1);
      UnionCovers(acc, list, n - 1, list[n - 1]);
    } else {
      assert acc + [] == acc;
    }
  }

  lemma {:induction false} UnionConcat(acc: seq<Json>, a: seq<Json>, b: seq<Json>, n: nat)
    requires n <= |b|
    ensures Union(acc, a + b, |a| + n) == Union(Union(acc, a, |a|), b, n)
  {
    if n > 0 {
      UnionConcat(acc, a, b, n - 1);
      assert (a + b)[|a| + n - 1] == b[n - 1];
    } else {
      UnionPrefix(acc, a, b, |a|);
    }
  }

  lemma {:induction false} UnionPrefix(acc: seq<Json>, a: seq<Json>, b: seq<Json>, n: nat)
    requires n <= |a|
    ensures Union(acc, a + b, n) == Union(acc, a, n)
  {
    if n > 0 {
      UnionPrefix(acc, a, b, n - 1);
      assert (a + b)[n - 1] == a[n - 1];
    }
  }

  // ----- written slices -----------------------------------------------------------------

  /** A slice: its type, and its differentiator if it has one. */
  datatype Slice = Slice(sst: nat, sd: Option<string>)

  /** The JSON a slice is written as. */
  function Write(s: Slice): Json {
    Obj([Field("sst", Num(s.sst as real))] + if s.sd.Some? then [Field("sd", Str(s.sd.value))] else [])
  }

  predicate Fits(s: Slice) { s.sst < 0x7fff_ffff }

  lemma WrittenFields(s: Slice)
    ensures Get(Write(s), "sst") == Some(Num(s.sst as real)) && Sd(Write(s)) == s.sd
  {
    var fields := Write(s).fields;
    assert "sst" != "sd" by {
      assert |"sst"| != |"sd"|;
    }
    assert fields[0].key == "sst";
    var rest := fields[1..];
    if s.sd.Some? {
      assert rest == [Field("sd", Str(s.sd.value))];
      assert Lookup(rest, "sd") == Some(Str(s.sd.value));
    } else {
      assert rest == [];
    }
    assert Lookup(fields, "sd") == Lookup(rest, "sd");
  }

  /** Two written slices match exactly when type and differentiator are the same; a missing differentiator only
      matches a missing one. */
  lemma WrittenMatch(a: Slice, b: Slice)
    requires Fits(a) && Fits(b)
    ensures SnssaiEqual(Write(a), Write(b)) <==> a == b
  {
    WrittenFields(a);
    WrittenFields(b);
    assert ValueInt(a.sst as real) == a.sst && ValueInt(b.sst as real) == b.sst;
  }

  /** The integer view of a number: its whole part, cut at the ends of the C int. */
  lemma WholePart(v: real)
    ensures v >= 2147483647.0 ==> ValueInt(v) == 2147483647
    ensures v <= -2147483648.0 ==> ValueInt(v) == -2147483648
    ensures 0.0 <= v < 2147483647.0 ==> ValueInt(v) as real <= v < ValueInt(v) as real + 1.0
    ensures -2147483648.0 < v < 0.0 ==> ValueInt(v) as real - 1.0 < v <= ValueInt(v) as real
  {
  }

  function WriteAll(ss: seq<Slice>): (list: seq<Json>)
    ensures |list| == |ss| && forall i :: 0 <= i < |ss| ==> list[i] == Write(ss[i])
  {
    seq(|ss|, i requires 0 <= i < |ss| => Write(ss[i]))
  }

  predicate AllFit(ss: seq<Slice>) { forall i :: 0 <= i < |ss| ==> Fits(ss[i]) }

  /** A written list matches a written slice exactly when that very slice is in it. */
  lemma WrittenInList(ss: seq<Slice>, s: Slice)
    requires AllFit(ss) && Fits(s)
    ensures InList(WriteAll(ss), Write(s)) <==> s in ss
  {
    var list := WriteAll(ss);
    if InList(list, Write(s)) {
      var i :| 0 <= i < |list| && MatchAt(list, i, Write(s));
      WrittenMatch(ss[i], s);
    }
    if s in ss {
      var i :| 0 <= i < |ss| && ss[i] == s;
      WrittenMatch(ss[i], s);
      assert MatchAt(list, i, Write(s));
    }
  }

  /** The slices that are not in the list before, in order. */
  function Dedup(ss: seq<Slice>, n: nat): seq<Slice>
    requires n <= |ss|
  {
    if n == 0 then [] else Dedup(ss, n - 1) + if ss[n - 1] in ss[..n - 1] then [] else [ss[n - 1]]
  }

  lemma ListedWritten(ss: seq<Slice>, n: nat, s: Slice)
    requires n <= |ss| && AllFit(ss) && Fits(s)
    ensures ListedMatch(WriteAll(ss), n, Write(s)) <==> s in ss[..n]
  {
    var list := WriteAll(ss);
    if ListedMatch(list, n, Write(s)) {
      var i :| 0 <= i < n && MatchAt(list, i, Write(s));
      WrittenMatch(ss[i], s);
      assert ss[..n][i] == s;
    }
    if s in ss[..n] {
      var i :| 0 <= i < n && ss[..n][i] == s;
      WrittenMatch(ss[i], s);
      assert MatchAt(list, i, Write(s));
    }
  }

  /** Of written slices the union keeps each pair of type and differentiator once, and every one. */
  lemma {:induction false} FirstsOfWritten(ss: seq<Slice>, n: nat)
    requires n <= |ss| && AllFit(ss)
    ensures Firsts([], WriteAll(ss), n) == WriteAll(Dedup(ss, n))
  {
    if n > 0 {
      FirstsOfWritten(ss, n - 1);
      ListedWritten(ss, n - 1, ss[n - 1]);
      assert Write(ss[n - 1]).Obj? && !InList([], Write(ss[n - 1]));
    }
  }
}
