/**
 Slice selection: the requested S-NSSAIs are split into allowed and rejected by matching
 them against the subscribed set, the PLMN policy and what the availability repository
 stores for the serving PLMN and TAI.
 */
module Selection {
  import opened Wrappers
  import opened Slices
  import opened AvailabilityRepo
  import AvailabilityEngine

  /** snssai_in_array on a JSON value: nothing matches a non-array. */
  predicate InArray(set_: Json, target: Json) {
    set_.Arr? && InList(set_.items, target)
  }

  // ----- availability at a TAI ----------------------------------------------------------

  function SlicesListed(r: Record): seq<Json> { if r.snssais.Arr? then r.snssais.items else [] }

  predicate RowLists(r: Record, target: Json) { InList(SlicesListed(r), target) }

  /** Some stored row for the PLMN and TAI lists the slice. */
  ghost predicate Available(t: Table, plmn: Json, tai: Json, target: Json) {
    exists id :: Provides(t, id, plmn, tai, target)
  }

  /** The deduplicated union over the first n rows of a find result. */
  function RowUnion(rows: seq<Record>, n: nat): seq<Json>
    requires n <= |rows|
  {
    if n == 0 then [] else Union(RowUnion(rows, n - 1), SlicesListed(rows[n - 1]), |SlicesListed(rows[n - 1])|)
  }

  lemma {:induction false} RowUnionCovers(rows: seq<Record>, n: nat, target: Json)
    requires n <= |rows|
    ensures InList(RowUnion(rows, n), target) <==> exists i :: 0 <= i < n && RowLists(rows[i], target)
  {
    if n > 0 {
      RowUnionCovers(rows, n - 1, target);
      var list := SlicesListed(rows[n - 1]);
      UnionCovers(RowUnion(rows, n - 1), list, |list|, target);
      assert ListedMatch(list, |list|, target) <==> RowLists(rows[n - 1], target);
    }
  }

  ghost predicate Provides(t: Table, id: string, plmn: Json, tai: Json, target: Json) {
    RowMatches(t, id, plmn, tai) && RowLists(t[id], target)
  }

  lemma FindProvides(t: Table, plmn: Json, tai: Json, rows: seq<Record>, i: nat, target: Json)
    requires IsFind(t, plmn, tai, rows) && i < |rows| && RowLists(rows[i], target)
    ensures Provides(t, rows[i].id, plmn, tai, target)
  {
  }

  lemma FindMisses(t: Table, plmn: Json, tai: Json, rows: seq<Record>, id: string) returns (i: nat)
    requires IsFind(t, plmn, tai, rows) && RowMatches(t, id, plmn, tai)
    ensures i < |rows| && rows[i] == t[id]
  {
    assert t[id] in rows;
    i :| 0 <= i < |rows| && rows[i] == t[id];
  }

  lemma SomeRowLists(t: Table, plmn: Json, tai: Json, rows: seq<Record>, target: Json)
    requires IsFind(t, plmn, tai, rows) && Available(t, plmn, tai, target)
    ensures exists i :: 0 <= i < |rows| && RowLists(rows[i], target)
  {
    var id :| Provides(t, id, plmn, tai, target);
    var i := FindMisses(t, plmn, tai, rows, id);
    assert RowLists(rows[i], target);
  }

  /** The union of what a find returns stands for the rows of the table. */
  lemma UnionIsAvailable(t: Table, plmn: Json, tai: Json, rows: seq<Record>, target: Json)
    requires IsFind(t, plmn, tai, rows)
    ensures InList(RowUnion(rows, |rows|), target) <==> Available(t, plmn, tai, target)
  {
    RowUnionCovers(rows, |rows|, target);
    if Available(t, plmn, tai, target) {
      SomeRowLists(t, plmn, tai, rows, target);
    } else if i :| 0 <= i < |rows| && RowLists(rows[i], target) {
      FindProvides(t, plmn, tai, rows, i, target);
    }
  }

  // ----- the split ----------------------------------------------------------------------

  datatype Query = Query(plmn: Json, tai: Json, requested: seq<Json>, subscribed: Json, policy: Option<Json>)

  /** A requested slice is allowed when it matches all three sets. */
  ghost predicate Passes(t: Table, q: Query, req: Json) {
    && InArray(q.subscribed, req)
    && Available(t, q.plmn, q.tai, req)
    && (q.policy.None? || InArray(q.policy.value, req))
  }

  /** The positions among the first n requested whose test result is `verdict`, in order. */
  ghost function Positions(t: Table, q: Query, n: nat, verdict: bool): seq<nat>
    requires n <= |q.requested|
  {
    if n == 0 then []
    else Positions(t, q, n - 1, verdict) + (if Passes(t, q, q.requested[n - 1]) == verdict then [n - 1] else [])
  }

  /** `out` lists the requested values at the given positions. */
  ghost predicate Picks(requested: seq<Json>, positions: seq<nat>, out: seq<Json>) {
    && |out| == |positions|
    && forall i :: 0 <= i < |out| ==> positions[i] < |requested| && out[i] == requested[positions[i]]
  }

  datatype Verdict = FullAllow | Partial | FullReject

  /** Allocations that fail: in the repository read, for the nth slice of the union, for the nth entry of the
      answer. */
  datatype SelectEnv = SelectEnv(readOom: bool, copyFailsAt: Option<nat>, entryFailsAt: Option<nat>)

  /** collect_availability. */
  method CollectAvailability(repo: MemRepo, plmn: Json, tai: Json, env: SelectEnv) returns (ok: bool, out: seq<Json>)
    requires repo.Valid()
    ensures !ok ==> (env.readOom && AnyMatch(repo.table, plmn, tai)) || env.copyFailsAt.Some?
    ensures ok ==> !(env.readOom && AnyMatch(repo.table, plmn, tai))
    ensures ok ==> StandsForAvailable(repo.table, plmn, tai, out)
    ensures ok ==> NoTwoEqual(out)
  {
    var read, rows := repo.Find(plmn, tai, env.readOom);
    if !read {
      return false, [];
    }
    out := [];
    var n := 0;
    while n < |rows|
      invariant n <= |rows| && out == RowUnion(rows, n) && NoTwoEqual(out)
    {
      ghost var acc := out;
      var listed := SlicesListed(rows[n]);
      ok, out := AddListed(out, listed, env.copyFailsAt);
      if !ok {
        return;
      }
      UnionNoTwoEqual(acc, listed, |listed|);
      n := n + 1;
    }
    forall target ensures InList(out, target) <==> Available(repo.table, plmn, tai, target) {
      UnionIsAvailable(repo.table, plmn, tai, rows, target);
    }
    ok := true;
  }

  /** The inner loop: the slices of one row that are not in the union yet. */
  method AddListed(acc: seq<Json>, listed: seq<Json>, copyFailsAt: Option<nat>) returns (ok: bool, out: seq<Json>)
    ensures !ok ==> copyFailsAt.Some?
    ensures ok ==> out == Union(acc, listed, |listed|)
  {
    out := acc;
    var i := 0;
    while i < |listed|
      invariant i <= |listed| && out == Union(acc, listed, i)
    {
      if listed[i].Obj? && !InList(out, listed[i]) {
        if copyFailsAt == Some(|out|) {
          return false, out;
        }
        out := out + [listed[i]];
      }
      i := i + 1;
    }
    ok := true;
  }

  datatype Split = Split(allowed: seq<Json>, rejected: seq<Json>, verdict: Verdict)

  predicate EntryFails(q: Query, env: SelectEnv) { env.entryFailsAt.Some? && env.entryFailsAt.value < |q.requested| }

  /** The collected list stands for what is available. */
  ghost predicate StandsForAvailable(t: Table, plmn: Json, tai: Json, out: seq<Json>) {
    forall target :: InList(out, target) <==> Available(t, plmn, tai, target)
  }

  /** The three tests of one requested slice. */
  method PassesAll(ghost t: Table, q: Query, availability: seq<Json>, req: Json) returns (pass: bool)
    requires StandsForAvailable(t, q.plmn, q.tai, availability)
    ensures pass <==> Passes(t, q, req)
  {
    pass := InArray(q.subscribed, req) && InList(availability, req) && (q.policy.None? || InArray(q.policy.value, req));
  }

  /** The next requested slice goes to the end of one of the lists. */
  lemma NextPosition(t: Table, q: Query, n: nat, allowed: seq<Json>, rejected: seq<Json>)
    requires n < |q.requested|
    requires Picks(q.requested, Positions(t, q, n, true), allowed)
    requires Picks(q.requested, Positions(t, q, n, false), rejected)
    ensures var req := q.requested[n];
      if Passes(t, q, req) then
        && Picks(q.requested, Positions(t, q, n + 1, true), allowed + [req])
        && Picks(q.requested, Positions(t, q, n + 1, false), rejected)
      else
        && Picks(q.requested, Positions(t, q, n + 1, true), allowed)
        && Picks(q.requested, Positions(t, q, n + 1, false), rejected + [req])
  {
    assert Positions(t, q, n, true) + [] == Positions(t, q, n, true);
    assert Positions(t, q, n, false) + [] == Positions(t, q, n, false);
  }

  /** The classification loop of select; there is no answer only when an allocation on the way failed. */
  method Classify(repo: MemRepo, q: Query, env: SelectEnv) returns (r: Option<Split>)
    requires repo.Valid()
    ensures r.None? ==>
      (env.readOom && AnyMatch(repo.table, q.plmn, q.tai)) || env.copyFailsAt.Some? || EntryFails(q, env)
    ensures r.Some? ==> !(env.readOom && AnyMatch(repo.table, q.plmn, q.tai)) && !EntryFails(q, env)
    ensures r.Some? ==> Picks(q.requested, Positions(repo.table, q, |q.requested|, true), r.value.allowed)
    ensures r.Some? ==> Picks(q.requested, Positions(repo.table, q, |q.requested|, false), r.value.rejected)
    ensures r.Some? ==> (r.value.verdict.FullAllow? <==> r.value.rejected == [])
    ensures r.Some? ==> (r.value.verdict.FullReject? <==> r.value.rejected != [] && r.value.allowed == [])
  {
    var ok, availability := CollectAvailability(repo, q.plmn, q.tai, env);
    if !ok {
      return None;
    }
    var allowed, rejected := [], [];
    var requestedCount, allowedCount := 0, 0;
    while requestedCount < |q.requested|
      invariant requestedCount <= |q.requested| && allowedCount == |allowed|
      invariant |allowed| + |rejected| == requestedCount
      invariant Picks(q.requested, Positions(repo.table, q, requestedCount, true), allowed)
      invariant Picks(q.requested, Positions(repo.table, q, requestedCount, false), rejected)
      invariant env.entryFailsAt.Some? ==> env.entryFailsAt.value >= requestedCount
    {
      if env.entryFailsAt == Some(requestedCount) {
        return None;
      }
      var req := q.requested[requestedCount];
      var pass := PassesAll(repo.table, q, availability, req);
      NextPosition(repo.table, q, requestedCount, allowed, rejected);
      if pass {
        allowed := allowed + [req];
        allowedCount := allowedCount + 1;
      } else {
        rejected := rejected + [req];
      }
      requestedCount := requestedCount + 1;
    }
    r := Some(Split(allowed, rejected,
                    if requestedCount == 0 || allowedCount == requestedCount then FullAllow
                    else if allowedCount == 0 then FullReject
                    else Partial));
  }

  ghost predicate IsPosition(t: Table, q: Query, n: nat, verdict: bool, k: nat)
    requires n <= |q.requested|
  {
    k < n && Passes(t, q, q.requested[k]) == verdict
  }

  /** The two lists keep the order of the request and share its positions out between them. */
  lemma {:induction false} SplitPartition(t: Table, q: Query, n: nat, verdict: bool)
    requires n <= |q.requested|
    ensures var p := Positions(t, q, n, verdict);
      && (forall i :: 0 <= i < |p| ==> IsPosition(t, q, n, verdict, p[i]))
      && (forall i, j :: 0 <= i < j < |p| ==> p[i] < p[j])
      && (forall k: nat :: IsPosition(t, q, n, verdict, k) ==> k in p)
      && |p| + |Positions(t, q, n, !verdict)| == n
  {
    if n > 0 {
      SplitPartition(t, q, n - 1, verdict);
      var p', p := Positions(t, q, n - 1, verdict), Positions(t, q, n, verdict);
      forall k: nat | IsPosition(t, q, n, verdict, k) ensures k in p {
        if k < n - 1 {
          assert IsPosition(t, q, n - 1, verdict, k);
          assert k in p';
        }
      }
      forall i | 0 <= i < |p| ensures IsPosition(t, q, n, verdict, p[i]) {
        if i < |p'| {
          assert p[i] == p'[i] && IsPosition(t, q, n - 1, verdict, p'[i]);
        }
      }
    }
  }

  // ----- selection after a PUT ----------------------------------------------------------

  ghost predicate RowProvides(r: Record, plmn: Json, tai: Json, target: Json) {
    r.plmn == plmn && r.tai == tai && RowLists(r, target)
  }

  lemma OverwriteProvides(t: Table, r: Record, id: string, plmn: Json, tai: Json, target: Json)
    ensures Provides(t[r.id := r], id, plmn, tai, target) <==>
      Provides(t - {r.id}, id, plmn, tai, target) || (id == r.id && RowProvides(r, plmn, tai, target))
  {
  }

  lemma OverwriteAvailable(t: Table, r: Record, plmn: Json, tai: Json, target: Json)
    ensures Available(t[r.id := r], plmn, tai, target) <==>
      Available(t - {r.id}, plmn, tai, target) || RowProvides(r, plmn, tai, target)
  {
    var t' := t[r.id := r];
    if id :| Provides(t', id, plmn, tai, target) {
      OverwriteProvides(t, r, id, plmn, tai, target);
    } else {
      OverwriteProvides(t, r, r.id, plmn, tai, target);
      if id :| Provides(t - {r.id}, id, plmn, tai, target) {
        OverwriteProvides(t, r, id, plmn, tai, target);
      }
    }
  }

  /** The record a committed PUT writes. */
  lemma PutWrites(t: Table, nfId: string, info: Json, env: AvailabilityEngine.Env) returns (r: Record)
    requires AvailabilityEngine.ExecPut(t, nfId, info, env).events != []
    ensures AvailabilityEngine.ExecPut(t, nfId, info, env).table == t[nfId := r] && r.id == nfId
    ensures var entries := AvailabilityEngine.Entries(info);
      && AvailabilityEngine.FirstTai(entries, |entries|) == Some(r.tai)
      && Get(r.tai, "plmnId") == Some(r.plmn)
      && r.snssais == Arr(AvailabilityEngine.Collected(entries, |entries|))
  {
    r := AvailabilityEngine.ExecPut(t, nfId, info, env).table[nfId];
  }

  /** Some entry of a PUT, for whatever TAI, lists the slice. */
  ghost predicate PutLists(info: Json, target: Json) {
    var entries := AvailabilityEngine.Entries(info);
    exists i :: 0 <= i < |entries| && AvailabilityEngine.EntryLists(entries, i, target)
  }

  /** The PUT files its slices under this PLMN and TAI. */
  ghost predicate PutFiles(info: Json, plmn: Json, tai: Json) {
    var entries := AvailabilityEngine.Entries(info);
    AvailabilityEngine.FirstTai(entries, |entries|) == Some(tai) && Get(tai, "plmnId") == Some(plmn)
  }

  /** After a committed PUT, a slice is available at a TAI exactly when another function provides it
      there, or the TAI is the first one of the PUT and any entry of the PUT, for whatever TAI, lists
      the slice. */
  lemma PutThenAvailable(t: Table, nfId: string, info: Json, env: AvailabilityEngine.Env, plmn: Json, tai: Json,
                         target: Json)
    requires AvailabilityEngine.ExecPut(t, nfId, info, env).events != []
    ensures Available(AvailabilityEngine.ExecPut(t, nfId, info, env).table, plmn, tai, target) <==>
      Available(t - {nfId}, plmn, tai, target) || (PutFiles(info, plmn, tai) && PutLists(info, target))
  {
    var r := PutWrites(t, nfId, info, env);
    OverwriteAvailable(t, r, plmn, tai, target);
    PutRow(r, info, plmn, tai, target);
  }

  /** The record of a PUT provides what the PUT lists, where it files it. */
  lemma PutRow(r: Record, info: Json, plmn: Json, tai: Json, target: Json)
    requires var entries := AvailabilityEngine.Entries(info);
      && AvailabilityEngine.FirstTai(entries, |entries|) == Some(r.tai)
      && Get(r.tai, "plmnId") == Some(r.plmn)
      && r.snssais == Arr(AvailabilityEngine.Collected(entries, |entries|))
    ensures RowProvides(r, plmn, tai, target) <==> PutFiles(info, plmn, tai) && PutLists(info, target)
  {
    var entries := AvailabilityEngine.Entries(info);
    AvailabilityEngine.CollectedExact(entries, |entries|, target);
  }

  // ----- selection over written slices --------------------------------------------------

  /** A query by slices: what is requested, what is subscribed, and the policy of the PLMN if there is one. */
  datatype SliceQuery = SliceQuery(plmn: Json, tai: Json, requested: seq<Slice>, subscribed: seq<Slice>,
                                   policy: Option<seq<Slice>>)

  predicate QueryFits(sq: SliceQuery) {
    AllFit(sq.requested) && AllFit(sq.subscribed) && (sq.policy.Some? ==> AllFit(sq.policy.value))
  }

  function WriteQuery(sq: SliceQuery): Query {
    Query(sq.plmn, sq.tai, WriteAll(sq.requested), Arr(WriteAll(sq.subscribed)),
          if sq.policy.Some? then Some(Arr(WriteAll(sq.policy.value))) else None)
  }

  /** The rows of the table hold these slices. */
  ghost predicate HoldsSlices(t: Table, rows: map<string, seq<Slice>>) {
    forall id :: id in t ==> id in rows && AllFit(rows[id]) && t[id].snssais == Arr(WriteAll(rows[id]))
  }

  /** A row of the PLMN and TAI holds the slice. */
  ghost predicate RowHolds(t: Table, rows: map<string, seq<Slice>>, id: string, plmn: Json, tai: Json, s: Slice) {
    id in t && id in rows && t[id].plmn == plmn && t[id].tai == tai && s in rows[id]
  }

  /** The very slice, type and differentiator, is subscribed, is held by some row of the PLMN and TAI, and is in the
      policy if there is one. */
  ghost predicate MayUse(t: Table, rows: map<string, seq<Slice>>, sq: SliceQuery, s: Slice)
    requires HoldsSlices(t, rows)
  {
    && s in sq.subscribed
    && (exists id :: RowHolds(t, rows, id, sq.plmn, sq.tai, s))
    && (sq.policy.None? || s in sq.policy.value)
  }

  lemma ProvidesWritten(t: Table, rows: map<string, seq<Slice>>, id: string, plmn: Json, tai: Json, s: Slice)
    requires HoldsSlices(t, rows) && Fits(s)
    ensures Provides(t, id, plmn, tai, Write(s)) <==> RowHolds(t, rows, id, plmn, tai, s)
  {
    if id in t {
      WrittenInList(rows[id], s);
    }
  }

  lemma AvailableWritten(t: Table, rows: map<string, seq<Slice>>, plmn: Json, tai: Json, s: Slice)
    requires HoldsSlices(t, rows) && Fits(s)
    ensures Available(t, plmn, tai, Write(s)) <==> exists id :: RowHolds(t, rows, id, plmn, tai, s)
  {
    if id :| Provides(t, id, plmn, tai, Write(s)) {
      ProvidesWritten(t, rows, id, plmn, tai, s);
    } else if id :| RowHolds(t, rows, id, plmn, tai, s) {
      ProvidesWritten(t, rows, id, plmn, tai, s);
    }
  }

  lemma PassesWritten(t: Table, rows: map<string, seq<Slice>>, sq: SliceQuery, s: Slice)
    requires HoldsSlices(t, rows) && QueryFits(sq) && Fits(s)
    ensures Passes(t, WriteQuery(sq), Write(s)) <==> MayUse(t, rows, sq, s)
  {
    WrittenInList(sq.subscribed, s);
    AvailableWritten(t, rows, sq.plmn, sq.tai, s);
    if sq.policy.Some? {
      WrittenInList(sq.policy.value, s);
    }
  }

  /** Selection allows exactly the requested slices that may be used, and rejects exactly the others: by the very pair
      of type and differentiator. */
  lemma SelectsByPair(t: Table, rows: map<string, seq<Slice>>, sq: SliceQuery, k: nat)
    requires HoldsSlices(t, rows) && QueryFits(sq) && k < |sq.requested|
    ensures k in Positions(t, WriteQuery(sq), |sq.requested|, true) <==> MayUse(t, rows, sq, sq.requested[k])
    ensures k in Positions(t, WriteQuery(sq), |sq.requested|, false) <==> !MayUse(t, rows, sq, sq.requested[k])
  {
    var q, n := WriteQuery(sq), |sq.requested|;
    PassesWritten(t, rows, sq, sq.requested[k]);
    SplitPartition(t, q, n, true);
    SplitPartition(t, q, n, false);
    assert q.requested[k] == Write(sq.requested[k]);
    assert IsPosition(t, q, n, true, k) <==> MayUse(t, rows, sq, sq.requested[k]);
    assert IsPosition(t, q, n, false, k) <==> !MayUse(t, rows, sq, sq.requested[k]);
  }
}
