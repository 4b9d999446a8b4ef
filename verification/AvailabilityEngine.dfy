/**
 The availability engine over its repository: PUT, PATCH and DELETE of one network
 function's slices, each committing at most once and publishing one change event after
 the commit.

 `Exec` says what a request does to the table; the methods of `Engine` do it on the
 in-memory repository.
 */
module AvailabilityEngine {
  import opened Wrappers
  import opened Slices
  import opened SlicePatch
  import opened AvailabilityRepo
  import RfcPatch

  datatype Kind = Replaced | Patched | Deleted

  datatype Change = Change(nfId: string, tai: Option<Json>, kind: Kind, before: Option<seq<Json>>,
                           after: Option<seq<Json>>)

  datatype Result = Ok | NoContent | BadRequest | NotFound | UnsupportedMediaType | Internal

  /** Failures below the engine: collecting a PUT's slices, the snapshot read, the working copy of a patch,
      the copies of patch values by position, the commit, the response body. */
  datatype Env = Env(collectOom: bool, readFails: bool, workingOom: bool, failingCopies: set<nat>, commitFails: bool,
                     responseOom: bool)

  datatype Request =
    | Put(nfId: string, info: Json, env: Env)
    | Patch(nfId: string, contentType: Option<string>, tai: Json, patch: Json, env: Env)
    | Delete(nfId: string, env: Env)

  /** The body that echoes the authorized slices. */
  datatype Echo = Echo(snssais: seq<Json>, tai: Json)

  datatype Outcome = Outcome(table: Table, events: seq<Change>, result: Result, echo: Option<Echo>)

  predicate NfIdValid(nfId: string) { 0 < |nfId| < 37 }

  // ----- collecting the slices of a PUT -------------------------------------------------

  function ArrayOf(j: Option<Json>): seq<Json> {
    if j.Some? && j.value.Arr? then j.value.items else []
  }

  function Entries(info: Json): seq<Json> { ArrayOf(Get(info, "supportedNssaiAvailabilityData")) }

  function Listed(entry: Json): seq<Json> {
    if entry.Obj? then ArrayOf(Get(entry, "supportedSnssaiList")) else []
  }

  /** The first TAI among the first n entries. */
  function FirstTai(entries: seq<Json>, n: nat): Option<Json>
    requires n <= |entries|
  {
    if n == 0 then None
    else
      var first := FirstTai(entries, n - 1);
      if first.Some? then first
      else if IsObject(Get(entries[n - 1], "tai")) then Get(entries[n - 1], "tai")
      else None
  }

  /** The deduplicated union of the slices listed by the first n entries. */
  function Collected(entries: seq<Json>, n: nat): seq<Json>
    requires n <= |entries|
  {
    if n == 0 then [] else Union(Collected(entries, n - 1), Listed(entries[n - 1]), |Listed(entries[n - 1])|)
  }

  predicate EntryLists(entries: seq<Json>, i: nat, target: Json)
    requires i < |entries|
  {
    ListedMatch(Listed(entries[i]), |Listed(entries[i])|, target)
  }

  /** What a PUT stores matches a slice exactly when some entry of the PUT lists it; the stored list
      has no two equal slices. */
  lemma {:induction false} CollectedExact(entries: seq<Json>, n: nat, target: Json)
    requires n <= |entries|
    ensures InList(Collected(entries, n), target) <==> exists i :: 0 <= i < n && EntryLists(entries, i, target)
    ensures NoTwoEqual(Collected(entries, n))
  {
    if n > 0 {
      CollectedExact(entries, n - 1, target);
      var acc, list := Collected(entries, n - 1), Listed(entries[n - 1]);
      UnionCovers(acc, list, |list|, target);
      UnionNoTwoEqual(acc, list, |list|);
      if ListedMatch(list, |list|, target) {
        assert EntryLists(entries, n - 1, target);
      }
    }
  }

  // ----- what each request does ---------------------------------------------------------

  function Refused(t: Table, result: Result): Outcome { Outcome(t, [], result, None) }

  /** read_snapshot: the row is looked up by PLMN and TAI, then by id. */
  function Snapshot(t: Table, nfId: string, plmn: Json, tai: Json): Option<seq<Json>> {
    if RowMatches(t, nfId, plmn, tai) then Some(ArrayOf(Some(t[nfId].snssais))) else None
  }

  /** The response to a committed update. */
  function Answer(t: Table, event: Change, list: seq<Json>, tai: Json, env: Env): Outcome {
    if list == [] then Outcome(t, [event], NoContent, None)
    else if env.responseOom then Outcome(t, [event], Internal, None)
    else Outcome(t, [event], Ok, Some(Echo(list, tai)))
  }

  function ExecPut(t: Table, nfId: string, info: Json, env: Env): Outcome {
    if !NfIdValid(nfId) || !info.Obj? then Refused(t, BadRequest)
    else if env.collectOom then Refused(t, Internal)
    else
      var entries := Entries(info);
      var list := Collected(entries, |entries|);
      var tai := FirstTai(entries, |entries|);
      if tai.None? || !IsObject(Get(tai.value, "plmnId")) then Refused(t, BadRequest)
      else
        var plmn := Get(tai.value, "plmnId").value;
        var before := if env.readFails then None else Snapshot(t, nfId, plmn, tai.value);
        if env.commitFails then Refused(t, Internal)
        else
          var rec := Record(nfId, plmn, tai.value, Arr(list), None,
                            Get(info, "amfSetReallocationInd") == Some(Bool(true)));
          Answer(t[nfId := rec], Change(nfId, tai, Replaced, before, Some(list)), list, tai.value, env)
  }

  const JSON_PATCH := "application/json-patch+json"

  /** The checks a PATCH makes before it reads anything. */
  function PatchPrecheck(nfId: string, contentType: Option<string>, tai: Json, patch: Json): Result {
    if contentType != Some(JSON_PATCH) then UnsupportedMediaType
    else if !NfIdValid(nfId) || !tai.Obj? || !IsObject(Get(tai, "plmnId")) || !patch.Arr? then BadRequest
    else if !AllOpsValid(patch.items) then BadRequest
    else Ok
  }

  ghost function ExecPatch(t: Table, nfId: string, contentType: Option<string>, tai: Json, patch: Json,
                           env: Env): Outcome {
    var pre := PatchPrecheck(nfId, contentType, tai, patch);
    if !pre.Ok? then Refused(t, pre)
    else
      var plmn := Get(tai, "plmnId").value;
      if env.readFails && AnyMatch(t, plmn, tai) then Refused(t, Internal)
      else
        var before := Snapshot(t, nfId, plmn, tai);
        if before.None? then Refused(t, NotFound)
        else if env.workingOom then Refused(t, Internal)
        else
          var after := ApplyOps(before.value, Marked(patch.items, env.failingCopies), |patch.items|);
          if after.None? then Refused(t, BadRequest)
          else if env.commitFails then Refused(t, Internal)
          else
            Answer(t[nfId := t[nfId].(snssais := Arr(after.value))], Change(nfId, Some(tai), Patched, before, after),
                   after.value, tai, env)
  }

  function ExecDelete(t: Table, nfId: string, env: Env): Outcome {
    if !NfIdValid(nfId) then Refused(t, BadRequest)
    else if env.commitFails then Refused(t, Internal)
    else if nfId !in t then Refused(t, NotFound)
    else Outcome(t - {nfId}, [Change(nfId, None, Deleted, None, None)], NoContent, None)
  }

  ghost function Exec(t: Table, req: Request): Outcome {
    match req
    case Put(nfId, info, env) => ExecPut(t, nfId, info, env)
    case Patch(nfId, contentType, tai, patch, env) => ExecPatch(t, nfId, contentType, tai, patch, env)
    case Delete(nfId, env) => ExecDelete(t, nfId, env)
  }

  // ----- what a subscriber of the change events can rebuild ------------------------------

  type View = map<string, Json>

  function SlicesOf(t: Table): View { map id | id in t :: t[id].snssais }

  function ReplayOne(v: View, e: Change): View {
    if e.after.None? then v - {e.nfId} else v[e.nfId := Arr(e.after.value)]
  }

  function Replay(events: seq<Change>): View {
    if events == [] then map[] else ReplayOne(Replay(events[..|events| - 1]), events[|events| - 1])
  }

  /** An outcome reports what it did: one event per commit and none otherwise, and the event carries
      exactly what changed. Only a failed response body follows a commit with an error. */
  predicate Faithful(t: Table, o: Outcome, env: Env) {
    if o.events == [] then o.table == t && o.result !in {Ok, NoContent}
    else
      && |o.events| == 1
      && SlicesOf(o.table) == ReplayOne(SlicesOf(t), o.events[0])
      && (o.result in {Ok, NoContent} || (o.result == Internal && env.responseOom))
  }

  lemma AnswerFaithful(t: Table, nfId: string, rec: Record, event: Change, list: seq<Json>, tai: Json, env: Env)
    requires rec.snssais == Arr(list) && event.nfId == nfId && event.after == Some(list)
    ensures Faithful(t, Answer(t[nfId := rec], event, list, tai, env), env)
  {
    assert SlicesOf(t[nfId := rec]) == SlicesOf(t)[nfId := Arr(list)];
  }

  lemma PutFaithful(t: Table, nfId: string, info: Json, env: Env)
    ensures Faithful(t, ExecPut(t, nfId, info, env), env)
  {
    var o := ExecPut(t, nfId, info, env);
    if o.events != [] {
      AnswerFaithful(t, nfId, o.table[nfId], o.events[0], o.events[0].after.value, o.events[0].tai.value, env);
    }
  }

  lemma PatchFaithful(t: Table, nfId: string, contentType: Option<string>, tai: Json, patch: Json, env: Env)
    ensures Faithful(t, ExecPatch(t, nfId, contentType, tai, patch, env), env)
  {
    var o := ExecPatch(t, nfId, contentType, tai, patch, env);
    if o.events != [] {
      AnswerFaithful(t, nfId, o.table[nfId], o.events[0], o.events[0].after.value, tai, env);
    }
  }

  lemma StepFaithful(t: Table, req: Request)
    ensures Faithful(t, Exec(t, req), req.env)
  {
    match req {
      case Put(nfId, info, env) => PutFaithful(t, nfId, info, env);
      case Patch(nfId, contentType, tai, patch, env) => PatchFaithful(t, nfId, contentType, tai, patch, env);
      case Delete(nfId, _) => assert SlicesOf(t - {nfId}) == SlicesOf(t) - {nfId};
    }
  }

  datatype State = State(table: Table, published: seq<Change>)

  ghost function RunRequests(reqs: seq<Request>): State {
    if reqs == [] then State(map[], [])
    else
      var s := RunRequests(reqs[..|reqs| - 1]);
      var o := Exec(s.table, reqs[|reqs| - 1]);
      State(o.table, s.published + o.events)
  }

  /** Over every run, replaying the published events rebuilds the id -> slices map of the repository. */
  lemma {:induction false} ReplayRebuilds(reqs: seq<Request>)
    ensures Replay(RunRequests(reqs).published) == SlicesOf(RunRequests(reqs).table)
  {
    if reqs != [] {
      var m := |reqs| - 1;
      ReplayRebuilds(reqs[..m]);
      var s := RunRequests(reqs[..m]);
      StepReplays(s.table, reqs[m], s.published);
    }
  }

  lemma ReplayAppend(events: seq<Change>, e: Change)
    ensures Replay(events + [e]) == ReplayOne(Replay(events), e)
  {
    assert (events + [e])[..|events|] == events;
  }

  /** A step keeps what its events say in line with the table. */
  lemma StepReplays(t: Table, req: Request, published: seq<Change>)
    requires Replay(published) == SlicesOf(t)
    ensures Replay(published + Exec(t, req).events) == SlicesOf(Exec(t, req).table)
  {
    StepFaithful(t, req);
    var o := Exec(t, req);
    if o.events == [] {
      assert published + [] == published;
    } else {
      assert o.events == [o.events[0]];
      ReplayAppend(published, o.events[0]);
    }
  }

  // ----- what a patch does --------------------------------------------------------------

  /** The slices a row holds; none when they are not an array. */
  function StoredList(r: Record): seq<Json> { if r.snssais.Arr? then r.snssais.items else [] }

  /** The answer to a committed update: 204 without a body when no slice is left, else 200 with the slices and their
      TAI, unless the body cannot be built. */
  predicate Answered(list: seq<Json>, tai: Json, env: Env, result: Result, echo: Option<Echo>) {
    if list == [] then result == NoContent && echo == None
    else if env.responseOom then result == Internal && echo == None
    else result == Ok && echo == Some(Echo(list, tai))
  }

  /** A patch that publishes nothing changes nothing. One that publishes has applied all its operations to the list
      the row held, and has stored, announced and answered the outcome; which is the RFC's when none of them
      deviates. */
  ghost predicate PatchEffect(t: Table, t': Table, nfId: string, tai: Json, items: seq<Item>, env: Env,
                              events: seq<Change>, result: Result, echo: Option<Echo>) {
    if events == [] then t' == t && result != Ok && result != NoContent && echo == None
    else
      && nfId in t
      && var list := StoredList(t[nfId]);
         var after := ApplyOps(list, items, |items|);
         && after.Some?
         && events == [Change(nfId, Some(tai), Patched, Some(list), after)]
         && t' == t[nfId := t[nfId].(snssais := Arr(after.value))]
         && Answered(after.value, tai, env, result, echo)
         && (RfcPatch.Follows(list, items, |items|) ==>
               RfcPatch.RfcAfter(list, items, |items|) == Some(Arr(after.value)))
  }

  lemma PatchApplies(t: Table, nfId: string, contentType: Option<string>, tai: Json, patch: Json, env: Env)
    ensures var o := ExecPatch(t, nfId, contentType, tai, patch, env);
      && (!patch.Arr? ==> o.events == [])
      && (patch.Arr? ==> PatchEffect(t, o.table, nfId, tai, Marked(patch.items, env.failingCopies), env,
                                     o.events, o.result, o.echo))
  {
    var o := ExecPatch(t, nfId, contentType, tai, patch, env);
    if o.events != [] {
      var list, items := StoredList(t[nfId]), Marked(patch.items, env.failingCopies);
      RfcOutcome(list, items);
    }
  }

  lemma RfcOutcome(list: seq<Json>, items: seq<Item>)
    ensures RfcPatch.Follows(list, items, |items|) ==>
      RfcPatch.Doc(ApplyOps(list, items, |items|)) == RfcPatch.RfcAfter(list, items, |items|)
  {
    RfcPatch.DocumentFollowsRfc(list, items, |items|);
    assert RfcPatch.Follows(list, items, |items|) ==> RfcPatch.SameAfter(list, items, |items|);
  }

  // ----- the engine ---------------------------------------------------------------------

  /** The columns a patch writes. */
  function ListOnly(list: seq<Json>): Columns { Columns(None, None, Some(Arr(list)), None, None) }

  lemma ListColumn(r: Record, list: seq<Json>)
    ensures Overwrite(r, ListOnly(list)) == r.(snssais := Arr(list))
  {
  }

  /** Nothing published and no record changed, or one event published and only the list of that row is new. */
  ghost predicate AllOrNothing(before: seq<Record>, after: seq<Record>, nfId: string, published: seq<Change>,
                               published': seq<Change>) {
    if published' == published then after == before
    else
      && |published'| == |published| + 1 && published'[..|published|] == published
      && published'[|published|].after.Some?
      && Rewritten(before, after, nfId, ListOnly(published'[|published|].after.value))
  }

  class Engine {
    const repo: MemRepo
    var published: seq<Change>

    /** The published events replay to what the repository stores. */
    ghost predicate Valid()
      reads this, repo, repo.items
    {
      repo.Valid() && Replay(published) == SlicesOf(repo.table)
    }

    constructor (repo: MemRepo)
      requires repo.Valid() && repo.table == map[]
      ensures this.repo == repo && Valid() && published == []
    {
      this.repo := repo;
      published := [];
    }

    /** collect_snssais. */
    method Collect(info: Json) returns (list: seq<Json>, tai: Option<Json>)
      ensures list == Collected(Entries(info), |Entries(info)|) && tai == FirstTai(Entries(info), |Entries(info)|)
    {
      var entries := Entries(info);
      list, tai := [], None;
      var n := 0;
      while n < |entries|
        invariant n <= |entries| && list == Collected(entries, n) && tai == FirstTai(entries, n)
      {
        var entry := entries[n];
        if tai.None? && IsObject(Get(entry, "tai")) {
          tai := Get(entry, "tai");
        }
        var listed := Listed(entry);
        ghost var acc := list;
        var i := 0;
        while i < |listed|
          invariant i <= |listed| && list == Union(acc, listed, i)
        {
          if listed[i].Obj? && !InList(list, listed[i]) {
            list := list + [listed[i]];
          }
          i := i + 1;
        }
        n := n + 1;
      }
    }

    /** read_snapshot. */
    method ReadSnapshot(nfId: string, plmn: Json, tai: Json, oom: bool) returns (err: bool, before: Option<seq<Json>>)
      requires repo.Valid()
      ensures err <==> oom && AnyMatch(repo.table, plmn, tai)
      ensures !err ==> before == Snapshot(repo.table, nfId, plmn, tai)
    {
      var ok, rows := repo.Find(plmn, tai, oom);
      if !ok {
        return true, None;
      }
      var i := 0;
      while i < |rows|
        invariant i <= |rows| && forall k :: 0 <= k < i ==> rows[k].id != nfId
      {
        if rows[i].id == nfId {
          return false, Some(ArrayOf(Some(rows[i].snssais)));
        }
        i := i + 1;
      }
      err, before := false, None;
    }

    /** The response to a committed update: 204 when no slice is left, else the echo body. */
    method Respond(event: Change, list: seq<Json>, tai: Json, env: Env) returns (result: Result, echo: Option<Echo>)
      modifies this`published
      ensures Outcome(repo.table, published, result, echo)
              == Answer(repo.table, event, list, tai, env).(events := old(published) + [event])
    {
      published := published + [event];
      if list == [] {
        return NoContent, None;
      }
      if env.responseOom {
        return Internal, None;
      }
      return Ok, Some(Echo(list, tai));
    }

    /** nssf_availability_engine_replace. */
    method Replace(nfId: string, info: Json, env: Env) returns (result: Result, echo: Option<Echo>)
      requires Valid()
      modifies this, repo, repo.items
      ensures Valid() && (repo.items == old(repo.items) || fresh(repo.items))
      ensures var o := ExecPut(old(repo.table), nfId, info, env);
        Outcome(repo.table, published, result, echo) == o.(events := old(published) + o.events)
    {
      StepReplays(repo.table, Request.Put(nfId, info, env), published);
      result, echo := Store(nfId, info, env);
    }

    method Store(nfId: string, info: Json, env: Env) returns (result: Result, echo: Option<Echo>)
      requires repo.Valid()
      modifies this, repo, repo.items
      ensures repo.Valid() && (repo.items == old(repo.items) || fresh(repo.items))
      ensures var o := ExecPut(old(repo.table), nfId, info, env);
        Outcome(repo.table, published, result, echo) == o.(events := old(published) + o.events)
    {
      echo := None;
      if !NfIdValid(nfId) || !info.Obj? {
        return BadRequest, None;
      }
      if env.collectOom {
        return Internal, None;
      }
      var list, tai := Collect(info);
      if tai.None? || !IsObject(Get(tai.value, "plmnId")) {
        return BadRequest, None;
      }
      var plmn := Get(tai.value, "plmnId").value;
      var err, before := ReadSnapshot(nfId, plmn, tai.value, env.readFails);
      if err {
        before := None;
      }
      assert before == if env.readFails then None else Snapshot(repo.table, nfId, plmn, tai.value) by {
        assert RowMatches(repo.table, nfId, plmn, tai.value) ==> AnyMatch(repo.table, plmn, tai.value);
      }
      var rec := Record(nfId, plmn, tai.value, Arr(list), None, Get(info, "amfSetReallocationInd") == Some(Bool(true)));
      var rc := repo.Upsert(rec, env.commitFails);
      if !rc.Committed? {
        return Internal, None;
      }
      result, echo := Respond(Change(nfId, tai, Replaced, before, Some(list)), list, tai.value, env);
    }

    /** The part of a patch after the pre-image was read. */
    method ApplyAndCommit(nfId: string, tai: Json, ops: seq<Json>, before: seq<Json>, env: Env)
      returns (result: Result, echo: Option<Echo>)
      requires repo.Valid() && AllOpsValid(ops) && nfId in repo.table
      modifies this`published, repo`table, repo.items
      ensures repo.Valid()
      ensures var t, after := old(repo.table), ApplyOps(before, Marked(ops, env.failingCopies), |ops|);
        var o := if env.workingOom then Refused(t, Internal)
                 else if after.None? then Refused(t, BadRequest)
                 else if env.commitFails then Refused(t, Internal)
                 else Answer(t[nfId := t[nfId].(snssais := Arr(after.value))],
                             Change(nfId, Some(tai), Patched, Some(before), after), after.value, tai, env);
        Outcome(repo.table, published, result, echo) == o.(events := old(published) + o.events)
      ensures AllOrNothing(old(repo.items[..repo.count]), repo.items[..repo.count], nfId, old(published), published)
    {
      if env.workingOom {
        return Internal, None;
      }
      var working := ApplyPatch(before, ops, env.failingCopies);
      if working.None? {
        return BadRequest, None;
      }
      result, echo := Commit(nfId, tai, before, working.value, env);
    }

    /** The commit of a patch, its event and its answer. */
    method Commit(nfId: string, tai: Json, before: seq<Json>, list: seq<Json>, env: Env)
      returns (result: Result, echo: Option<Echo>)
      requires repo.Valid() && nfId in repo.table
      modifies this`published, repo`table, repo.items
      ensures repo.Valid()
      ensures var t := old(repo.table);
        var o := if env.commitFails then Refused(t, Internal)
                 else Answer(t[nfId := t[nfId].(snssais := Arr(list))],
                             Change(nfId, Some(tai), Patched, Some(before), Some(list)), list, tai, env);
        Outcome(repo.table, published, result, echo) == o.(events := old(published) + o.events)
      ensures AllOrNothing(old(repo.items[..repo.count]), repo.items[..repo.count], nfId, old(published), published)
    {
      ListColumn(repo.table[nfId], list);
      var rc := repo.Patch(nfId, ListOnly(list), CopyFailures(false, false, env.commitFails, false));
      if !rc.Committed? {
        assert repo.items[..repo.count] == repo.items[..][..repo.count];
        return Internal, None;
      }
      result, echo := Respond(Change(nfId, Some(tai), Patched, Some(before), Some(list)), list, tai, env);
    }

    /** nssf_availability_engine_patch: all or nothing, in the array itself. Either nothing was published and
        no record differs, or one event was, and the records are the old ones in their old places except
        that the patched one holds the list the event announces. */
    method Patch(nfId: string, contentType: Option<string>, tai: Json, patch: Json, env: Env)
      returns (result: Result, echo: Option<Echo>)
      requires Valid()
      modifies this`published, repo`table, repo.items
      ensures Valid()
      ensures var o := ExecPatch(old(repo.table), nfId, contentType, tai, patch, env);
        Outcome(repo.table, published, result, echo) == o.(events := old(published) + o.events)
      ensures AllOrNothing(old(repo.items[..repo.count]), repo.items[..repo.count], nfId, old(published), published)
      ensures |published| >= |old(published)| && (!patch.Arr? ==> published == old(published))
      ensures patch.Arr? ==> PatchEffect(old(repo.table), repo.table, nfId, tai, Marked(patch.items, env.failingCopies),
                                         env, published[|old(published)|..], result, echo)
    {
      StepReplays(repo.table, Request.Patch(nfId, contentType, tai, patch, env), published);
      PatchApplies(repo.table, nfId, contentType, tai, patch, env);
      result, echo := Amend(nfId, contentType, tai, patch, env);
      ghost var events := ExecPatch(old(repo.table), nfId, contentType, tai, patch, env).events;
      assert published[|old(published)|..] == events;
    }

    method Amend(nfId: string, contentType: Option<string>, tai: Json, patch: Json, env: Env)
      returns (result: Result, echo: Option<Echo>)
      requires repo.Valid()
      modifies this`published, repo`table, repo.items
      ensures repo.Valid()
      ensures var o := ExecPatch(old(repo.table), nfId, contentType, tai, patch, env);
        Outcome(repo.table, published, result, echo) == o.(events := old(published) + o.events)
      ensures AllOrNothing(old(repo.items[..repo.count]), repo.items[..repo.count], nfId, old(published), published)
    {
      if contentType != Some(JSON_PATCH) {
        return UnsupportedMediaType, None;
      }
      if !NfIdValid(nfId) || !tai.Obj? || !IsObject(Get(tai, "plmnId")) || !patch.Arr? {
        return BadRequest, None;
      }
      if !AllOpsValid(patch.items) {
        return BadRequest, None;
      }
      var err, before := ReadSnapshot(nfId, Get(tai, "plmnId").value, tai, env.readFails);
      if err {
        return Internal, None;
      }
      if before.None? {
        return NotFound, None;
      }
      result, echo := ApplyAndCommit(nfId, tai, patch.items, before.value, env);
    }

    /** nssf_availability_engine_delete. */
    method Delete(nfId: string, env: Env) returns (result: Result)
      requires Valid()
      modifies this`published, repo`table, repo`count, repo.items
      ensures Valid()
      ensures var o := ExecDelete(old(repo.table), nfId, env);
        Outcome(repo.table, published, result, None) == o.(events := old(published) + o.events)
    {
      StepReplays(repo.table, Request.Delete(nfId, env), published);
      result := Discard(nfId, env);
    }

    method Discard(nfId: string, env: Env) returns (result: Result)
      requires repo.Valid()
      modifies this`published, repo`table, repo`count, repo.items
      ensures repo.Valid()
      ensures var o := ExecDelete(old(repo.table), nfId, env);
        Outcome(repo.table, published, result, None) == o.(events := old(published) + o.events)
    {
      if !NfIdValid(nfId) {
        return BadRequest;
      }
      if env.commitFails {
        return Internal;
      }
      var rc := repo.Delete(nfId);
      if rc.NoRow? {
        return NotFound;
      }
      published := published + [Change(nfId, None, Deleted, None, None)];
      result := NoContent;
    }
  }
}
