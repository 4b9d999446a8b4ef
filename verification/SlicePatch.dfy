/**
 The RFC 6902 subset that patches an S-NSSAI list: index parsing, the four supported
 operations, and the sequential application of a patch document.
 */
module SlicePatch {
  import opened Wrappers
  import opened Slices
  import B = Backoff

  // ----- array indices ------------------------------------------------------------------

  predicate IsDigit(c: char) { '0' <= c <= '9' }

  function DigitValue(c: char): nat { if IsDigit(c) then (c - '0') as nat else 0 }

  predicate AllDigits(s: string) {
    forall i :: 0 <= i < |s| ==> IsDigit(s[i])
  }

  /** The number written by the first n characters. */
  function Decimal(s: string, n: nat): nat
    requires n <= |s|
  {
    if n == 0 then 0 else 10 * Decimal(s, n - 1) + DigitValue(s[n - 1])
  }

  lemma {:induction false} DecimalGrows(s: string, i: nat, n: nat)
    requires i <= n <= |s|
    ensures Decimal(s, i) <= Decimal(s, n)
  {
    if i < n {
      DecimalGrows(s, i, n - 1);
    }
  }

  /** The array size as a C int. */
  function Int32(n: int): int { (n + 0x8000_0000) % 0x1_0000_0000 - 0x8000_0000 }

  lemma Int32Range(n: nat)
    ensures -0x8000_0000 <= Int32(n) <= 0x7fff_ffff && Int32(n) <= n
    ensures n <= 0x7fff_ffff ==> Int32(n) == n
  {
  }

  /** The index a path addresses in an array of a given size: "/-" for append, else "/" and decimal digits
      (leading zeros included) whose value is in range. */
  function ArrayIndex(path: string, len: int, append: bool): (r: Option<int>)
    ensures r.Some? ==> r.value <= len && (r.value < len ==> r.value >= 0) && (!append ==> 0 <= r.value < len)
  {
    if path == "" || path[0] != '/' then None
    else
      var tail := path[1..];
      if append && tail == "-" then Some(len)
      else if tail == "" || !AllDigits(tail) then None
      else
        var v := Decimal(tail, |tail|);
        if v < len || (append && v == len) then Some(v) else None
  }

  /** parse_array_index: stops reading as soon as the value is past the array. */
  method ParseArrayIndex(path: string, len: B.int32, append: bool) returns (idx: Option<int>)
    ensures idx == ArrayIndex(path, len as int, append)
  {
    if path == "" || path[0] != '/' {
      return None;
    }
    var tail := path[1..];
    if append && tail == "-" {
      return Some(len as int);
    }
    if tail == "" {
      return None;
    }
    var v: B.long := 0;
    var i := 0;
    while i < |tail|
      invariant i <= |tail| && 0 <= v && (i == 0 || v <= len as B.long) && v as int == Decimal(tail, i)
      invariant forall k :: 0 <= k < i ==> IsDigit(tail[k])
    {
      if !IsDigit(tail[i]) {
        return None;
      }
      v := v * 10 + (tail[i] - '0') as B.long;
      if v > len as B.long {
        DecimalGrows(tail, i + 1, |tail|);
        break;
      }
      i := i + 1;
    }
    if v < 0 || v > len as B.long || (!append && v >= len as B.long) {
      return None;
    }
    idx := Some(v as int);
  }

  // ----- operations ---------------------------------------------------------------------

  function StringOf(j: Option<Json>): Option<string> {
    if j.Some? && j.value.Str? then Some(j.value.s) else None
  }

  function OpName(op: Json): Option<string> { StringOf(Get(op, "op")) }

  function OpPath(op: Json): Option<string> { StringOf(Get(op, "path")) }

  /** patch_op_valid. */
  predicate PatchOpValid(op: Json) {
    && op.Obj?
    && OpName(op).Some?
    && OpPath(op).Some?
    && var name := OpName(op).value;
       if name == "add" || name == "replace" || name == "test" then Get(op, "value").Some?
       else if name == "move" || name == "copy" then StringOf(Get(op, "from")).Some?
       else name == "remove"
  }

  predicate OpsValidTo(ops: seq<Json>, n: nat)
    requires n <= |ops|
  {
    n > 0 ==> OpsValidTo(ops, n - 1) && PatchOpValid(ops[n - 1])
  }

  predicate AllOpsValid(ops: seq<Json>) { OpsValidTo(ops, |ops|) }

  lemma {:induction false} OpValidAt(ops: seq<Json>, n: nat, i: nat)
    requires i < n <= |ops| && OpsValidTo(ops, n)
    ensures PatchOpValid(ops[i])
  {
    if i < n - 1 {
      OpValidAt(ops, n - 1, i);
    }
  }

  /** Deep comparison: numbers and strings by value, arrays in order, objects by key in both directions. */
  predicate Compare(a: Json, b: Json)
    decreases a
  {
    match (a, b)
    case (Null, Null) => true
    case (Bool(x), Bool(y)) => x == y
    case (Num(x), Num(y)) => x == y
    case (Str(x), Str(y)) => x == y
    case (Arr(x), Arr(y)) => |x| == |y| && forall i :: 0 <= i < |x| ==> Compare(x[i], y[i])
    case (Obj(x), Obj(y)) =>
      && (forall i :: 0 <= i < |x| ==> FoundIn(x[i], y))
      && (forall k :: 0 <= k < |y| ==> FoundFor(x, y[k]))
    case _ => false
  }

  /** The first field of that name in the other object compares equal. */
  predicate FoundIn(f: Field, y: seq<Field>)
    decreases f
  {
    exists k :: 0 <= k < |y| && FirstAt(y, k, f.key) && Compare(f.value, y[k].value)
  }

  predicate FoundFor(x: seq<Field>, g: Field)
    decreases x
  {
    exists i :: 0 <= i < |x| && FirstAt(x, i, g.key) && Compare(x[i].value, g.value)
  }

  /** Index i holds the first field with the key. */
  predicate FirstAt(fields: seq<Field>, i: nat, key: string)
    requires i < |fields|
  {
    fields[i].key == key && forall k :: 0 <= k < i ==> fields[k].key != key
  }

  function InsertAt(list: seq<Json>, i: nat, v: Json): seq<Json>
    requires i <= |list|
  {
    list[..i] + [v] + list[i..]
  }

  function RemoveAt(list: seq<Json>, i: nat): seq<Json>
    requires i < |list|
  {
    list[..i] + list[i + 1..]
  }

  datatype Op =
    | Add(path: string, value: Json)
    | Remove(path: string)
    | Replace(path: string, value: Json)
    | Test(path: string, value: Json)
    | Move(from: string, path: string)
    | Copy(from: string, path: string)

  /** The operation a valid patch item stands for. */
  function ParseOp(op: Json): Op
    requires PatchOpValid(op)
  {
    var name, path := OpName(op).value, OpPath(op).value;
    if name == "add" then Add(path, Get(op, "value").value)
    else if name == "remove" then Remove(path)
    else if name == "replace" then Replace(path, Get(op, "value").value)
    else if name == "test" then Test(path, Get(op, "value").value)
    else if name == "move" then Move(StringOf(Get(op, "from")).value, path)
    else Copy(StringOf(Get(op, "from")).value, path)
  }

  /** What the engine makes of a list; None when it rejects the operation. The size is read as a C int, the copy
      of the value may fail, and move and copy are not supported. */
  function ApplyOp(list: seq<Json>, op: Op, copyFails: bool): (r: Option<seq<Json>>)
    ensures r.Some? ==> |r.value| <= |list| + 1
  {
    Int32Range(|list|);
    var len := Int32(|list|);
    match op
    case Add(path, value) =>
      var i := ArrayIndex(path, len, true);
      if i.None? || copyFails then None
      else if i.value >= len then Some(list + [value])
      else Some(InsertAt(list, i.value, value))
    case Remove(path) =>
      var i := ArrayIndex(path, len, false);
      if i.Some? then Some(RemoveAt(list, i.value)) else None
    case Replace(path, value) =>
      var i := ArrayIndex(path, len, false);
      if i.None? || copyFails then None else Some(list[i.value := value])
    case Test(path, value) =>
      var i := ArrayIndex(path, len, false);
      if i.Some? && Compare(list[i.value], value) then Some(list) else None
    case _ => None
  }

  /** The first n steps, one after the other; nothing once one of them fails. */
  function Fold<S, O>(f: (S, O) -> Option<S>, s: S, ops: seq<O>, n: nat): Option<S>
    requires n <= |ops|
  {
    if n == 0 then Some(s)
    else
      var before := Fold(f, s, ops, n - 1);
      if before.None? then None else f(before.value, ops[n - 1])
  }

  /** An item of a patch document, and whether the copy of its value fails. */
  datatype Item = Item(op: Json, copyFails: bool)

  function Marked(ops: seq<Json>, failing: set<nat>): (items: seq<Item>)
    ensures |items| == |ops| && forall i :: 0 <= i < |ops| ==> items[i] == Item(ops[i], i in failing)
  {
    seq(|ops|, i requires 0 <= i < |ops| => Item(ops[i], i in failing))
  }

  function ApplyItem(list: seq<Json>, it: Item): Option<seq<Json>> {
    if PatchOpValid(it.op) then ApplyOp(list, ParseOp(it.op), it.copyFails) else None
  }

  /** What the first n items of a patch document make of a list. */
  function ApplyOps(list: seq<Json>, items: seq<Item>, n: nat): Option<seq<Json>>
    requires n <= |items|
  {
    Fold(ApplyItem, list, items, n)
  }

  /** apply_one_op. */
  method ApplyOneOp(target: seq<Json>, op: Json, copyFails: bool) returns (result: Option<seq<Json>>)
    requires PatchOpValid(op)
    ensures result == ApplyItem(target, Item(op, copyFails))
  {
    var name, path := OpName(op).value, OpPath(op).value;
    Int32Range(|target|);
    var len := Int32(|target|) as B.int32;
    if name == "add" {
      var idx := ParseArrayIndex(path, len, true);
      if idx.None? || copyFails {
        return None;
      }
      var value := Get(op, "value").value;
      if idx.value >= len as int {
        return Some(target + [value]);
      }
      return Some(target[..idx.value] + [value] + target[idx.value..]);
    }
    if name == "remove" {
      var idx := ParseArrayIndex(path, len, false);
      if idx.None? {
        return None;
      }
      return Some(target[..idx.value] + target[idx.value + 1..]);
    }
    if name == "replace" {
      var idx := ParseArrayIndex(path, len, false);
      if idx.None? || copyFails {
        return None;
      }
      return Some(target[idx.value := Get(op, "value").value]);
    }
    if name == "test" {
      var idx := ParseArrayIndex(path, len, false);
      if idx.None? || !Compare(target[idx.value], Get(op, "value").value) {
        return None;
      }
      return Some(target);
    }
    result := None;
  }

  /** The apply loop of a patch: a working copy is replaced operation by operation, up to the first that
      cannot be applied. */
  method ApplyPatch(before: seq<Json>, ops: seq<Json>, failing: set<nat>) returns (result: Option<seq<Json>>)
    requires AllOpsValid(ops)
    ensures result == ApplyOps(before, Marked(ops, failing), |ops|)
  {
    result := ApplyLoop(ApplyItem, before, ops, failing, Marked(ops, failing));
  }

  type Applier = (seq<Json>, Item) -> Option<seq<Json>>

  ghost predicate AppliesItems(f: Applier) {
    forall list, it {:trigger ApplyItem(list, it)} :: f(list, it) == ApplyItem(list, it)
  }

  method ApplyLoop(ghost f: Applier, before: seq<Json>, ops: seq<Json>, failing: set<nat>, ghost items: seq<Item>)
    returns (result: Option<seq<Json>>)
    requires AppliesItems(f) && AllOpsValid(ops) && items == Marked(ops, failing)
    ensures result == Fold(f, before, items, |ops|)
  {
    result := Some(before);
    var i := 0;
    while i < |ops| && result.Some?
      invariant i <= |ops| && result == Fold(f, before, items, i)
    {
      result := ApplyNext(f, before, items, ops, i, i in failing, result.value);
      i := i + 1;
    }
    if result.None? {
      AbortStays(f, before, items, i, |ops|);
    }
  }

  /** One turn of the loop. */
  method ApplyNext(ghost f: Applier, ghost before: seq<Json>, ghost items: seq<Item>, ops: seq<Json>, i: nat,
                   copyFails: bool, working: seq<Json>)
    returns (next: Option<seq<Json>>)
    requires AppliesItems(f) && AllOpsValid(ops)
    requires i < |ops| == |items| && items[i] == Item(ops[i], copyFails)
    requires Fold(f, before, items, i) == Some(working)
    ensures next == Fold(f, before, items, i + 1)
  {
    OpValidAt(ops, |ops|, i);
    next := ApplyOneOp(working, ops[i], copyFails);
  }

  /** Once an operation has failed the whole document fails. */
  lemma {:induction false} AbortStays<S, O>(f: (S, O) -> Option<S>, s: S, ops: seq<O>, i: nat, n: nat)
    requires i <= n <= |ops| && Fold(f, s, ops, i).None?
    ensures Fold(f, s, ops, n).None?
  {
    if i < n {
      AbortStays(f, s, ops, i, n - 1);
    }
  }

  lemma InsertThenRemove(list: seq<Json>, i: nat, v: Json)
    requires i <= |list|
    ensures RemoveAt(InsertAt(list, i, v), i) == list
  {
    assert InsertAt(list, i, v)[i + 1..] == list[i..];
  }

  lemma RemoveThenInsert(list: seq<Json>, i: nat, v: Json)
    requires i < |list|
    ensures InsertAt(RemoveAt(list, i), i, v) == list[i := v]
    ensures i == |list| - 1 ==> RemoveAt(list, i) + [v] == list[i := v]
  {
  }

  lemma Int32Step(n: nat)
    ensures Int32(n + 1) == if Int32(n) == 0x7fff_ffff then -0x8000_0000 else Int32(n) + 1
  {
  }

  /** A path to an element leads to the same place in a list that is one longer, and is a place to add in one that
      is one shorter. */
  lemma SameIndex(path: string, len: int)
    requires ArrayIndex(path, len, false).Some?
    ensures ArrayIndex(path, len, true) == ArrayIndex(path, len, false)
    ensures ArrayIndex(path, len + 1, false) == ArrayIndex(path, len, false)
    ensures ArrayIndex(path, len - 1, true) == ArrayIndex(path, len, false)
  {
  }

  lemma NothingBelowZero(path: string, len: int)
    requires len <= 0
    ensures ArrayIndex(path, len, false).None?
  {
  }

  /** A removal at a path undoes an addition at that path, exactly as long as the longer list still has a size that
      is a C int. */
  lemma AddThenRemove(list: seq<Json>, path: string, value: Json)
    requires ArrayIndex(path, Int32(|list|), false).Some?
    ensures var longer := ApplyOp(list, Add(path, value), false);
      && longer.Some?
      && (ApplyOp(longer.value, Remove(path), false) == Some(list) <==> Int32(|list|) < 0x7fff_ffff)
  {
    Int32Range(|list|);
    Int32Step(|list|);
    SameIndex(path, Int32(|list|));
    NothingBelowZero(path, -0x8000_0000);
    InsertThenRemove(list, ArrayIndex(path, Int32(|list|), false).value, value);
  }

  /** A replacement is a removal and then an addition at the same path, unless the addition would append to a list
      whose size is read wrong. */
  lemma ReplaceIsRemoveThenAdd(list: seq<Json>, path: string, value: Json)
    requires ArrayIndex(path, Int32(|list|), false).Some?
    requires ArrayIndex(path, Int32(|list|), false).value + 1 < Int32(|list|) || |list| == Int32(|list|)
    ensures var shorter := ApplyOp(list, Remove(path), false);
      && shorter.Some?
      && ApplyOp(shorter.value, Add(path, value), false) == ApplyOp(list, Replace(path, value), false)
  {
    Int32Range(|list|);
    Int32Step(|list| - 1);
    SameIndex(path, Int32(|list|));
    RemoveThenInsert(list, ArrayIndex(path, Int32(|list|), false).value, value);
  }

  /** A document is applied in order: patching with a + b is patching with a, then with b. */
  lemma PatchSequential(list: seq<Json>, a: seq<Item>, b: seq<Item>)
    ensures var first := ApplyOps(list, a, |a|);
      ApplyOps(list, a + b, |a + b|) == if first.None? then None else ApplyOps(first.value, b, |b|)
  {
    FoldConcat(ApplyItem, list, a, b, |b|);
  }

  lemma {:induction false} FoldConcat<S, O>(f: (S, O) -> Option<S>, s: S, a: seq<O>, b: seq<O>, n: nat)
    requires n <= |b|
    ensures var first := Fold(f, s, a, |a|);
      Fold(f, s, a + b, |a| + n) == if first.None? then None else Fold(f, first.value, b, n)
  {
    if n == 0 {
      FoldPrefix(f, s, a, a + b, |a|);
    } else {
      FoldConcat(f, s, a, b, n - 1);
      assert (a + b)[|a| + (n - 1)] == b[n - 1];
    }
  }

  lemma {:induction false} FoldPrefix<S, O>(f: (S, O) -> Option<S>, s: S, a: seq<O>, c: seq<O>, n: nat)
    requires n <= |a| <= |c| && forall i :: 0 <= i < |a| ==> c[i] == a[i]
    ensures Fold(f, s, c, n) == Fold(f, s, a, n)
  {
    if n > 0 {
      FoldPrefix(f, s, a, c, n - 1);
    }
  }
}
