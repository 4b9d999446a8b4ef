/**
 What PUT, PATCH and DELETE answer and store, in the terms of the request.
 */
module AvailabilityRequests {
  import opened Wrappers
  import opened Slices
  import opened SlicePatch
  import opened AvailabilityRepo
  import opened AvailabilityEngine

  // ----- what a PUT reads ---------------------------------------------------------------

  predicate HasTai(entries: seq<Json>, i: nat, tai: Json)
    requires i < |entries|
  {
    Get(entries[i], "tai") == Some(tai) && tai.Obj?
  }

  /** The TAI of a PUT is that of the first entry that has one. */
  lemma {:induction false} FirstTaiIs(entries: seq<Json>, n: nat, tai: Json)
    requires n <= |entries|
    ensures FirstTai(entries, n) == Some(tai) <==>
      exists i :: 0 <= i < n && HasTai(entries, i, tai) && forall j, other :: 0 <= j < i ==> !HasTai(entries, j, other)
    ensures FirstTai(entries, n) == None <==> forall j, other :: 0 <= j < n ==> !HasTai(entries, j, other)
  {
    if n > 0 {
      FirstTaiIs(entries, n - 1, tai);
      var first := FirstTai(entries, n - 1);
      if first.Some? {
        FirstTaiIs(entries, n - 1, first.value);
        var i :| 0 <= i < n - 1 && HasTai(entries, i, first.value)
          && forall j, other :: 0 <= j < i ==> !HasTai(entries, j, other);
        assert HasTai(entries, i, first.value);
      } else {
        var own := Get(entries[n - 1], "tai");
        if IsObject(own) {
          assert HasTai(entries, n - 1, own.value);
        }
      }
    }
  }

  /** The slices of the first n entries, one entry after the other. */
  function AllListed(entries: seq<Json>, n: nat): seq<Json>
    requires n <= |entries|
  {
    if n == 0 then [] else AllListed(entries, n - 1) + Listed(entries[n - 1])
  }

  /** A PUT stores every slice of every entry once, where it is first listed, in the order of the request. */
  lemma {:induction false} CollectedIsFirsts(entries: seq<Json>, n: nat)
    requires n <= |entries|
    ensures var all := AllListed(entries, n);
      Collected(entries, n) == Union([], all, |all|) == Firsts([], all, |all|)
  {
    var all := AllListed(entries, n);
    UnionIsFirsts([], all, |all|);
    if n > 0 {
      CollectedIsFirsts(entries, n - 1);
      UnionConcat([], AllListed(entries, n - 1), Listed(entries[n - 1]), |Listed(entries[n - 1])|);
    }
  }

  // ----- a written PUT ------------------------------------------------------------------

  /** An entry of a PUT: slices for a TAI. */
  datatype Entry = Entry(tai: Option<Json>, slices: seq<Json>)

  function WriteEntry(e: Entry): Json {
    Obj((if e.tai.Some? then [Field("tai", e.tai.value)] else []) + [Field("supportedSnssaiList", Arr(e.slices))])
  }

  function WriteEntries(es: seq<Entry>): (js: seq<Json>)
    ensures |js| == |es| && forall i :: 0 <= i < |es| ==> js[i] == WriteEntry(es[i])
  {
    seq(|es|, i requires 0 <= i < |es| => WriteEntry(es[i]))
  }

  function WriteInfo(es: seq<Entry>, reallocation: bool): Json {
    Obj([Field("supportedNssaiAvailabilityData", Arr(WriteEntries(es))),
         Field("amfSetReallocationInd", Bool(reallocation))])
  }

  lemma EntryReads(e: Entry)
    ensures Get(WriteEntry(e), "tai") == e.tai && Listed(WriteEntry(e)) == e.slices
  {
    var fields := WriteEntry(e).fields;
    var last := [Field("supportedSnssaiList", Arr(e.slices))];
    assert |"tai"| != |"supportedSnssaiList"|;
    assert last[1..] == [];
    assert Lookup(last, "supportedSnssaiList") == Some(Arr(e.slices)) && Lookup(last, "tai") == None;
    if e.tai.Some? {
      assert fields[1..] == last;
    } else {
      assert fields == last;
    }
  }

  lemma InfoReads(es: seq<Entry>, reallocation: bool)
    ensures Entries(WriteInfo(es, reallocation)) == WriteEntries(es)
    ensures Get(WriteInfo(es, reallocation), "amfSetReallocationInd") == Some(Bool(reallocation))
  {
    var fields := WriteInfo(es, reallocation).fields;
    assert |"supportedNssaiAvailabilityData"| != |"amfSetReallocationInd"|;
    assert fields[1..] == [Field("amfSetReallocationInd", Bool(reallocation))];
    assert Lookup(fields[1..], "amfSetReallocationInd") == Some(Bool(reallocation));
  }

  function SlicesOfEntries(es: seq<Entry>, n: nat): seq<Json>
    requires n <= |es|
  {
    if n == 0 then [] else SlicesOfEntries(es, n - 1) + es[n - 1].slices
  }

  lemma {:induction false} AllListedOfWritten(es: seq<Entry>, n: nat)
    requires n <= |es|
    ensures AllListed(WriteEntries(es), n) == SlicesOfEntries(es, n)
  {
    if n > 0 {
      AllListedOfWritten(es, n - 1);
      EntryReads(es[n - 1]);
    }
  }

  /** A PUT without failures files all slices of all its entries, each once, under the first TAI and its PLMN, with the
      reallocation flag and no AMF set; announces them; and answers with them. */
  lemma {:induction false} PutStores(t: Table, nfId: string, es: seq<Entry>, reallocation: bool, env: Env, k: nat,
                                     plmn: Json)
    requires 0 < |nfId| < 37 && !env.collectOom && !env.commitFails
    requires k < |es| && es[k].tai.Some? && es[k].tai.value.Obj?
    requires Get(es[k].tai.value, "plmnId") == Some(plmn) && plmn.Obj?
    requires forall j :: 0 <= j < k ==> es[j].tai.None? || !es[j].tai.value.Obj?
    ensures var o := ExecPut(t, nfId, WriteInfo(es, reallocation), env);
      var all, tai := SlicesOfEntries(es, |es|), es[k].tai.value;
      var list := Firsts([], all, |all|);
      && o.table == t[nfId := Record(nfId, plmn, tai, Arr(list), None, reallocation)]
      && |o.events| == 1 && o.events[0].nfId == nfId && o.events[0].tai == Some(tai) && o.events[0].kind == Replaced
      && o.events[0].after == Some(list)
      && Answered(list, tai, env, o.result, o.echo)
  {
    var info, entries, tai := WriteInfo(es, reallocation), WriteEntries(es), es[k].tai.value;
    InfoReads(es, reallocation);
    AllListedOfWritten(es, |es|);
    CollectedIsFirsts(entries, |entries|);
    WrittenFirstTai(es, k);
  }

  lemma {:induction false} WrittenFirstTai(es: seq<Entry>, k: nat)
    requires k < |es| && es[k].tai.Some? && es[k].tai.value.Obj?
    requires forall j :: 0 <= j < k ==> es[j].tai.None? || !es[j].tai.value.Obj?
    ensures FirstTai(WriteEntries(es), |es|) == es[k].tai
  {
    var entries, tai := WriteEntries(es), es[k].tai.value;
    EntryReads(es[k]);
    assert HasTai(entries, k, tai);
    forall j, other | 0 <= j < k ensures !HasTai(entries, j, other) {
      EntryReads(es[j]);
    }
    FirstTaiIs(entries, |es|, tai);
  }

  // ----- answers ------------------------------------------------------------------------

  predicate GoodId(nfId: string) { 1 <= |nfId| <= 36 }

  /** When a PUT is refused, and how. */
  lemma PutAnswers(t: Table, nfId: string, info: Json, env: Env)
    ensures var o, tai := ExecPut(t, nfId, info, env), FirstTai(Entries(info), |Entries(info)|);
      var good := GoodId(nfId) && info.Obj?;
      var filed := tai.Some? && IsObject(Get(tai.value, "plmnId"));
      && (o.events == [] ==> o.table == t && o.echo == None)
      && (o.events != [] <==> good && filed && !env.collectOom && !env.commitFails)
      && (o.events == [] ==> o.result == if !good || (!env.collectOom && !filed) then BadRequest else Internal)
  {
  }

  /** When a PATCH is refused, and how. */
  lemma PatchAnswers(t: Table, nfId: string, contentType: Option<string>, tai: Json, patch: Json, env: Env)
    ensures var o := ExecPatch(t, nfId, contentType, tai, patch, env);
      var good := GoodId(nfId) && tai.Obj? && IsObject(Get(tai, "plmnId")) && patch.Arr? && AllOpsValid(patch.items);
      && (contentType != Some("application/json-patch+json") ==> o.events == [] && o.result == UnsupportedMediaType)
      && (contentType == Some("application/json-patch+json") && !good ==> o.events == [] && o.result == BadRequest)
      && (contentType == Some("application/json-patch+json") && good ==>
            GoodPatchAnswers(t, nfId, tai, patch.items, env, o))
  {
  }

  ghost predicate GoodPatchAnswers(t: Table, nfId: string, tai: Json, ops: seq<Json>, env: Env, o: Outcome)
    requires IsObject(Get(tai, "plmnId"))
  {
    var plmn := Get(tai, "plmnId").value;
    if env.readFails && AnyMatch(t, plmn, tai) then o.events == [] && o.result == Internal
    else if nfId !in t || t[nfId].plmn != plmn || t[nfId].tai != tai then o.events == [] && o.result == NotFound
    else if env.workingOom then o.events == [] && o.result == Internal
    else if ApplyOps(StoredList(t[nfId]), Marked(ops, env.failingCopies), |ops|).None? then
      o.events == [] && o.result == BadRequest
    else if env.commitFails then o.events == [] && o.result == Internal
    else o.events != []
  }

  /** What a DELETE does: 204, one event and the row gone, exactly when the row exists and the commit succeeds. */
  lemma DeleteAnswers(t: Table, nfId: string, env: Env)
    ensures var o := ExecDelete(t, nfId, env);
      if !GoodId(nfId) then o == Outcome(t, [], BadRequest, None)
      else if env.commitFails then o == Outcome(t, [], Internal, None)
      else if nfId !in t then o == Outcome(t, [], NotFound, None)
      else o == Outcome(t - {nfId}, [Change(nfId, None, Deleted, None, None)], NoContent, None)
  {
  }

  // ----- written patch operations -------------------------------------------------------

  /** The JSON an operation is written as. */
  function WriteOp(op: Op): Json {
    match op
    case Add(path, value) => Obj([Field("op", Str("add")), Field("path", Str(path)), Field("value", value)])
    case Remove(path) => Obj([Field("op", Str("remove")), Field("path", Str(path))])
    case Replace(path, value) => Obj([Field("op", Str("replace")), Field("path", Str(path)), Field("value", value)])
    case Test(path, value) => Obj([Field("op", Str("test")), Field("path", Str(path)), Field("value", value)])
    case Move(from, path) => Obj([Field("op", Str("move")), Field("path", Str(path)), Field("from", Str(from))])
    case Copy(from, path) => Obj([Field("op", Str("copy")), Field("path", Str(path)), Field("from", Str(from))])
  }

  lemma ThreeFields(j: Json, a: Json, b: Json, key: string, c: Json)
    requires j == Obj([Field("op", a), Field("path", b), Field(key, c)]) && key != "op" && key != "path"
    ensures Get(j, "op") == Some(a) && Get(j, "path") == Some(b) && Get(j, key) == Some(c)
  {
    var fields := j.fields;
    assert |"op"| != |"path"|;
    assert fields[1..] == [Field("path", b), Field(key, c)];
    assert fields[1..][1..] == [Field(key, c)];
    assert Lookup([Field(key, c)], key) == Some(c);
    assert Lookup(fields[1..], key) == Some(c) && Lookup(fields[1..], "path") == Some(b);
  }

  lemma TwoFields(j: Json, a: Json, b: Json)
    requires j == Obj([Field("op", a), Field("path", b)])
    ensures Get(j, "op") == Some(a) && Get(j, "path") == Some(b)
  {
    var fields := j.fields;
    assert |"op"| != |"path"|;
    assert fields[1..] == [Field("path", b)];
    assert Lookup(fields[1..], "path") == Some(b);
  }

  lemma NamesDiffer()
    ensures "add" != "remove" && "add" != "replace" && "add" != "test" && "add" != "move" && "add" != "copy"
    ensures "remove" != "replace" && "remove" != "test" && "remove" != "move" && "remove" != "copy"
    ensures "replace" != "test" && "replace" != "move" && "replace" != "copy"
    ensures "test" != "move" && "test" != "copy" && "move" != "copy"
  {
    assert "test"[0] == 't' && "move"[0] == 'm' && "copy"[0] == 'c';
    assert |"add"| == 3 && |"test"| == 4 && |"move"| == 4 && |"copy"| == 4 && |"remove"| == 6 && |"replace"| == 7;
  }

  /** A written operation is valid and is read as itself. */
  lemma WrittenOpReads(op: Op)
    ensures PatchOpValid(WriteOp(op)) && ParseOp(WriteOp(op)) == op
  {
    NamesDiffer();
    assert |"value"| == 5 && |"from"| == 4 && |"op"| == 2 && |"path"| == 4 && "from"[0] == 'f' && "path"[0] == 'p';
    match op {
      case Add(path, value) => ThreeFields(WriteOp(op), Str("add"), Str(path), "value", value);
      case Remove(path) => TwoFields(WriteOp(op), Str("remove"), Str(path));
      case Replace(path, value) => ThreeFields(WriteOp(op), Str("replace"), Str(path), "value", value);
      case Test(path, value) => ThreeFields(WriteOp(op), Str("test"), Str(path), "value", value);
      case Move(from, path) => ThreeFields(WriteOp(op), Str("move"), Str(path), "from", Str(from));
      case Copy(from, path) => ThreeFields(WriteOp(op), Str("copy"), Str(path), "from", Str(from));
    }
  }

  /** Nothing else is valid: an operation needs one of the six names, a path, and the value or source its name asks
      for. */
  lemma ValidOpsHave(j: Json)
    requires PatchOpValid(j)
    ensures Get(j, "path").Some? && Get(j, "path").value.Str?
    ensures var name := Get(j, "op");
      || (name == Some(Str("add")) && Get(j, "value").Some?)
      || name == Some(Str("remove"))
      || (name == Some(Str("replace")) && Get(j, "value").Some?)
      || (name == Some(Str("test")) && Get(j, "value").Some?)
      || (name == Some(Str("move")) && Get(j, "from").Some? && Get(j, "from").value.Str?)
      || (name == Some(Str("copy")) && Get(j, "from").Some? && Get(j, "from").value.Str?)
  {
  }

  // ----- operations at an index ---------------------------------------------------------

  /** A number in decimal. */
  function Digits(n: nat): string {
    (if n < 10 then "" else Digits(n / 10)) + ['0' + (n % 10) as char]
  }

  function PathTo(n: nat): string { "/" + Digits(n) }

  lemma {:induction false} DecimalPrefix(s: string, t: string, n: nat)
    requires n <= |s|
    ensures Decimal(s + t, n) == Decimal(s, n)
  {
    if n > 0 {
      DecimalPrefix(s, t, n - 1);
    }
  }

  lemma {:induction false} DigitsRead(n: nat)
    ensures Digits(n) != "" && AllDigits(Digits(n)) && Decimal(Digits(n), |Digits(n)|) == n
    decreases n
  {
    var front, c := if n < 10 then "" else Digits(n / 10), '0' + (n % 10) as char;
    assert Digits(n) == front + [c];
    DecimalPrefix(front, [c], |front|);
    if n >= 10 {
      DigitsRead(n / 10);
    }
  }

  lemma IndexReads(n: nat, len: int, append: bool)
    ensures ArrayIndex(PathTo(n), len, append) == if n < len || (append && n == len) then Some(n) else None
  {
    DigitsRead(n);
    assert PathTo(n)[1..] == Digits(n);
    assert IsDigit(Digits(n)[0]);
  }

  /** What the operations do at an index of a list whose size is a C int: an addition goes before the element, or to
      the end; a removal closes the gap; a replacement and a test need the element to be there. */
  lemma OpsAtIndex(list: seq<Json>, n: nat, value: Json)
    requires |list| <= 0x7fff_ffff
    ensures ApplyOp(list, Add(PathTo(n), value), false)
            == if n <= |list| then Some(list[..n] + [value] + list[n..]) else None
    ensures ApplyOp(list, Remove(PathTo(n)), false) == if n < |list| then Some(list[..n] + list[n + 1..]) else None
    ensures ApplyOp(list, Replace(PathTo(n), value), false)
            == if n < |list| then Some(list[..n] + [value] + list[n + 1..]) else None
    ensures ApplyOp(list, Test(PathTo(n), value), false)
            == if n < |list| && Compare(list[n], value) then Some(list) else None
    ensures ApplyOp(list, Add("/-", value), false) == Some(list + [value])
  {
    Int32Range(|list|);
    IndexReads(n, |list|, true);
    IndexReads(n, |list|, false);
    assert "/-"[1..] == "-";
    if n < |list| {
      assert list[n := value] == list[..n] + [value] + list[n + 1..];
    } else if n == |list| {
      assert list + [value] == list[..n] + [value] + list[n..];
    }
  }

  /** A patch that removes one stored slice: what is stored, announced and answered afterwards. */
  lemma RemovesOne(t: Table, nfId: string, tai: Json, n: nat, env: Env)
    requires GoodId(nfId) && tai.Obj? && IsObject(Get(tai, "plmnId")) && nfId in t && t[nfId].tai == tai
    requires t[nfId].plmn == Get(tai, "plmnId").value && n < |StoredList(t[nfId])| <= 0x7fff_ffff
    requires !env.readFails && !env.workingOom && !env.commitFails
    ensures var list := StoredList(t[nfId]);
      var left := list[..n] + list[n + 1..];
      var o := ExecPatch(t, nfId, Some("application/json-patch+json"), tai, Arr([WriteOp(Remove(PathTo(n)))]), env);
      && o.table == t[nfId := t[nfId].(snssais := Arr(left))]
      && o.events == [Change(nfId, Some(tai), Patched, Some(list), Some(left))]
      && Answered(left, tai, env, o.result, o.echo)
  {
    var op, list := Remove(PathTo(n)), StoredList(t[nfId]);
    var ops := [WriteOp(op)];
    var items := Marked(ops, env.failingCopies);
    WrittenOpReads(op);
    OpsAtIndex(list, n, Null);
    assert OpsValidTo(ops, 0) && OpsValidTo(ops, 1);
    assert ApplyOps(list, items, 0) == Some(list);
    assert ApplyOps(list, items, 1) == ApplyItem(list, items[0]);
  }
}
