/**
 The in-memory retry store and the dispatcher that drives it.

 `MemStore` keeps its rows in a growable array that is shifted on removal; its ghost
 `contents` is the abstract queue of RetryQueue, and every operation is proved to be
 the abstract one. `Dispatcher.DispatchPending` is proved to be a valid run of the
 transition system, so every theorem about runs applies to it.
 */
module RetryStore {
  import opened RetryQueue
  import opened RetryTheorems
  import opened RetryOutcomes

  datatype Slot = Slot(id: nat, row: Row)

  datatype Dequeued =
    | NothingDue
    | ReadError
    | Poisoned(id: nat)
    | Item(id: nat, attempts: nat)

  // ----- slots represent an abstract queue ----------------------------------------------

  /** The slots are in id order, one per row of the queue. */
  ghost predicate Represents(q: seq<Slot>, nextId: nat, rows: Rows) {
    && (forall i, j :: 0 <= i < j < |q| ==> q[i].id < q[j].id)
    && (forall i :: 0 <= i < |q| ==> q[i].id < nextId && q[i].id in rows && rows[q[i].id] == q[i].row)
    && (forall id :: id in rows ==> exists i :: 0 <= i < |q| && q[i].id == id)
  }

  lemma AppendSlot(q: seq<Slot>, nextId: nat, rows: Rows, row: Row)
    requires Represents(q, nextId, rows)
    ensures Represents(q + [Slot(nextId, row)], nextId + 1, rows[nextId := row])
  {
    var q', rows' := q + [Slot(nextId, row)], rows[nextId := row];
    forall id | id in rows' ensures exists i :: 0 <= i < |q'| && q'[i].id == id {
      if id == nextId {
        assert q'[|q|].id == id;
      } else {
        var i :| 0 <= i < |q| && q[i].id == id;
        assert q'[i].id == id;
      }
    }
  }

  lemma UpdateSlot(q: seq<Slot>, nextId: nat, rows: Rows, k: nat, row: Row)
    requires Represents(q, nextId, rows) && k < |q|
    ensures Represents(q[k := Slot(q[k].id, row)], nextId, rows[q[k].id := row])
  {
    var q', rows' := q[k := Slot(q[k].id, row)], rows[q[k].id := row];
    assert forall i :: 0 <= i < |q| ==> q'[i].id == q[i].id;
    forall id | id in rows' ensures exists i :: 0 <= i < |q'| && q'[i].id == id {
      var i :| 0 <= i < |q| && q[i].id == id;
      assert q'[i].id == id;
    }
  }

  /** Where index i of the shifted slots was before index k went. */
  function Origin(k: nat, i: nat): nat { if i < k then i else i + 1 }

  lemma RemoveSlot(q: seq<Slot>, q': seq<Slot>, nextId: nat, rows: Rows, k: nat)
    requires Represents(q, nextId, rows) && k < |q| && |q'| == |q| - 1
    requires forall i :: 0 <= i < |q'| ==> q'[i] == q[Origin(k, i)]
    ensures Represents(q', nextId, Completed(rows, q[k].id))
  {
    forall i, j | 0 <= i < j < |q'| ensures q'[i].id < q'[j].id {
      assert Origin(k, i) < Origin(k, j);
    }
    RemainingRows(q, q', nextId, rows, k);
    RemainingIds(q, q', rows, k);
  }

  lemma RemainingRows(q: seq<Slot>, q': seq<Slot>, nextId: nat, rows: Rows, k: nat)
    requires Represents(q, nextId, rows) && k < |q| && |q'| == |q| - 1
    requires forall i :: 0 <= i < |q'| ==> q'[i] == q[Origin(k, i)]
    ensures var rows' := Completed(rows, q[k].id);
      forall i :: 0 <= i < |q'| ==> q'[i].id < nextId && q'[i].id in rows' && rows'[q'[i].id] == q'[i].row
  {
    forall i | 0 <= i < |q'|
      ensures q'[i].id < nextId && q'[i].id in rows && rows[q'[i].id] == q'[i].row && q'[i].id != q[k].id
    {
      var o := Origin(k, i);
      assert o < k || k < o;
    }
  }

  lemma RemainingIds(q: seq<Slot>, q': seq<Slot>, rows: Rows, k: nat)
    requires k < |q| && |q'| == |q| - 1
    requires forall id :: id in rows ==> exists i :: 0 <= i < |q| && q[i].id == id
    requires forall i :: 0 <= i < |q'| ==> q'[i] == q[Origin(k, i)]
    ensures forall id :: id in Completed(rows, q[k].id) ==> exists i :: 0 <= i < |q'| && q'[i].id == id
  {
    forall id | id in Completed(rows, q[k].id) ensures exists i :: 0 <= i < |q'| && q'[i].id == id {
      var o :| 0 <= o < |q| && q[o].id == id;
      var i := if o < k then o else o - 1;
      assert Origin(k, i) == o;
      assert q'[i].id == id;
    }
  }

  /** The shift loop of mem_remove_at: the tail moves left over index idx. */
  method ShiftLeft(a: array<Slot>, idx: nat, n: nat)
    requires idx < n <= a.Length
    modifies a
    ensures forall k :: 0 <= k < n - 1 ==> a[k] == old(a[Origin(idx, k)])
  {
    var i := idx;
    while i + 1 < n
      invariant idx <= i < n
      invariant forall k :: 0 <= k < idx ==> a[k] == old(a[k])
      invariant forall k :: idx <= k < i ==> a[k] == old(a[k + 1])
      invariant forall k :: i < k < n ==> a[k] == old(a[k])
    {
      a[i] := a[i + 1];
      i := i + 1;
    }
  }

  class MemStore {
    var slots: array<Slot>
    var count: nat
    var nextId: nat
    ghost var contents: Rows

    ghost predicate Valid()
      reads this, slots
    {
      count <= slots.Length && Represents(slots[..count], nextId, contents)
    }

    constructor ()
      ensures Valid() && contents == map[] && nextId == 1
      ensures fresh(slots)
    {
      slots := new Slot[0];
      count := 0;
      nextId := 1;
      contents := map[];
    }

    /** Doubles the capacity (4 for an empty store) and copies the rows over. */
    method Grow()
      requires Valid()
      modifies this`slots
      ensures Valid() && slots.Length > count && fresh(slots)
      ensures slots[..count] == old(slots[..count])
    {
      var was := slots;
      var cap := if was.Length == 0 then 4 else was.Length * 2;
      var grown := new Slot[cap](i => Slot(0, Fresh(0, false)));
      var i := 0;
      while i < count
        invariant i <= count && slots == was && was[..count] == old(slots[..count])
        invariant grown[..i] == was[..i]
      {
        grown[i] := was[i];
        i := i + 1;
      }
      slots := grown;
    }

    /** mem_enqueue: `copyOom` is a failed envelope build or id copy, before the lock is taken; `growOom`
        is a failed realloc, which only matters when the array is full. */
    method Enqueue(now: int, poison: bool, copyOom: bool, growOom: bool) returns (ok: bool)
      requires Valid()
      modifies this, slots
      ensures Valid() && (slots == old(slots) || fresh(slots))
      ensures ok ==> contents == old(contents)[old(nextId) := Fresh(now, poison)] && nextId == old(nextId) + 1
      ensures !ok ==> contents == old(contents) && nextId == old(nextId)
      ensures !ok <==> copyOom || (growOom && old(count == slots.Length))
    {
      if copyOom {
        return false;
      }
      if count == slots.Length {
        if growOom {
          return false;
        }
        Grow();
      }
      Append(Fresh(now, poison));
      ok := true;
    }

    method Append(row: Row)
      requires Valid() && count < slots.Length
      modifies this`count, this`nextId, this`contents, slots
      ensures Valid() && contents == old(contents)[old(nextId) := row] && nextId == old(nextId) + 1
    {
      AppendSlot(slots[..count], nextId, contents, row);
      slots[count] := Slot(nextId, row);
      contents := contents[nextId := row];
      count := count + 1;
      nextId := nextId + 1;
      assert slots[..count] == old(slots[..count]) + [Slot(nextId - 1, row)];
    }

    method IndexOf(id: nat) returns (idx: int)
      requires Valid()
      ensures idx < 0 <==> id !in contents
      ensures idx >= 0 ==> idx < count && slots[idx].id == id
    {
      var q := slots[..count];
      idx := 0;
      while idx < count
        invariant 0 <= idx <= count
        invariant forall i :: 0 <= i < idx ==> q[i].id != id
      {
        if slots[idx].id == id {
          assert q[idx].id == id;
          return;
        }
        idx := idx + 1;
      }
      idx := -1;
    }

    /** mem_remove_at. */
    method RemoveAt(idx: nat)
      requires Valid() && idx < count
      modifies this`count, this`contents, slots
      ensures Valid()
      ensures contents == Completed(old(contents), old(slots[idx].id))
    {
      ghost var q := slots[..count];
      contents := Completed(contents, slots[idx].id);
      ShiftLeft(slots, idx, count);
      count := count - 1;
      RemoveSlot(q, slots[..count], nextId, old(contents), idx);
    }

    /** The argmin loop of mem_dequeue over the claimable rows. */
    method PickIndex(now: int) returns (pick: int)
      requires Valid()
      ensures pick < 0 ==> forall id :: id in contents ==> !Claimable(contents[id], now)
      ensures pick >= 0 ==> pick < count && IsPick(contents, now, slots[pick].id)
    {
      var q := slots[..count];
      pick := -1;
      var i := 0;
      while i < count
        invariant 0 <= i <= count && -1 <= pick < i
        invariant pick < 0 ==> forall j :: 0 <= j < i ==> !Claimable(q[j].row, now)
        invariant pick >= 0 ==> Claimable(q[pick].row, now)
        invariant pick >= 0 ==>
          forall j :: 0 <= j < i && Claimable(q[j].row, now) && j != pick ==> Before(contents, q[pick].id, q[j].id)
      {
        var r := slots[i];
        assert q[i] == r;
        if Claimable(r.row, now) {
          if pick < 0 || r.row.dueAt < slots[pick].row.dueAt
             || (r.row.dueAt == slots[pick].row.dueAt && r.id < slots[pick].id) {
            pick := i;
          }
        }
        i := i + 1;
      }
    }

    /** mem_dequeue: `oom` is a failed copy of the row's strings. */
    method Dequeue(now: int, oom: bool) returns (out: Dequeued)
      requires Valid()
      modifies this`count, this`contents, slots
      ensures Valid()
      ensures match out
        case NothingDue => contents == old(contents) && forall id :: id in contents ==> !Claimable(contents[id], now)
        case ReadError => contents == old(contents) && oom && exists id :: IsPick(contents, now, id)
        case Poisoned(id) =>
          && !oom && IsPick(old(contents), now, id) && old(contents)[id].poison
          && contents == Completed(old(contents), id)
        case Item(id, attempts) =>
          && !oom && IsPick(old(contents), now, id) && !old(contents)[id].poison
          && attempts == old(contents)[id].attempts && contents == Claimed(old(contents), id)
    {
      var pick := PickIndex(now);
      if pick < 0 {
        return NothingDue;
      }
      var slot := slots[pick];
      assert slot == slots[..count][pick];
      if oom {
        assert IsPick(contents, now, slot.id);
        return ReadError;
      }
      if slot.row.poison {
        RemoveAt(pick);
        return Poisoned(slot.id);
      }
      SetRow(pick, slot.row.(claimed := true));
      out := Item(slot.id, slot.row.attempts);
    }

    method SetRow(idx: nat, row: Row)
      requires Valid() && idx < count
      modifies this`contents, slots
      ensures Valid()
      ensures contents == old(contents)[old(slots[idx].id) := row]
    {
      UpdateSlot(slots[..count], nextId, contents, idx, row);
      contents := contents[slots[idx].id := row];
      slots[idx] := Slot(slots[idx].id, row);
      assert slots[..count] == old(slots[..count])[idx := slots[idx]];
    }

    method Complete(id: nat)
      requires Valid()
      modifies this`count, this`contents, slots
      ensures Valid() && contents == Completed(old(contents), id)
    {
      var idx := IndexOf(id);
      if idx >= 0 {
        RemoveAt(idx);
      }
    }

    method Requeue(id: nat, now: int, draw: real)
      requires Valid()
      modifies this`contents, slots
      ensures Valid() && contents == Rearmed(old(contents), id, now, draw)
      ensures id in old(contents) ==> id in contents && contents[id].attempts == old(contents)[id].attempts + 1
      ensures id in old(contents) ==> BackedOff(old(contents)[id].attempts, contents[id].dueAt - now, draw)
    {
      var idx := IndexOf(id);
      if idx >= 0 {
        RearmBacksOff(slots[idx].row, now, draw);
        assert slots[idx] == slots[..count][idx];
        SetRow(idx, RearmedRow(slots[idx].row, now, draw));
      }
    }

    method DeadLetter(id: nat)
      requires Valid()
      modifies this`contents, slots
      ensures Valid() && contents == Buried(old(contents), id)
    {
      var idx := IndexOf(id);
      if idx >= 0 {
        assert slots[idx] == slots[..count][idx];
        SetRow(idx, slots[idx].row.(status := RetryQueue.DeadLetter, claimed := false));
      }
    }

    /** The one follow-up operation a verdict stands for. */
    method Settle(id: nat, verdict: Verdict, now: int, draw: real)
      requires Valid()
      modifies this`count, this`contents, slots
      ensures Valid() && contents == SettledRows(old(contents), id, verdict, now, draw)
    {
      match verdict
      case Deliver => Complete(id);
      case DropByPolicy => Complete(id);
      case Rearm => Requeue(id, now, draw);
      case Bury => DeadLetter(id);
    }
  }

  // ----- the dispatcher -----------------------------------------------------------------

  datatype HeaderBuild = Built | Aborted | BuildFailed

  /** What the environment answers during one call of dispatch_pending. */
  datatype Env = Env(claimTime: int, readOom: bool, urlAllowed: bool, headers: HeaderBuild,
                     answer: Transport, endTime: int, draw: real)

  datatype Result = Sent | NoneDue | Dropped | Forbidden | Error

  function Decision(w: nat, env: Env): Event {
    if !env.urlAllowed then RejectUrl(w)
    else match env.headers
      case Aborted => Abort(w)
      case BuildFailed => HeaderOom(w)
      case Built => Post(w, env.answer)
  }

  function ClaimResult(env: Env): Result {
    if !env.urlAllowed then Dropped
    else match env.headers
      case Aborted => Forbidden
      case BuildFailed => Error
      case Built => if IsSuccess(env.answer) then Sent else Dropped
  }

  /** The four ways a call can go. A claim is always followed by one decision and one
      follow-up; NoneDue is also the answer after a poison row was quarantined. */
  ghost predicate CallOutcome(rows: Rows, w: nat, env: Env, result: Result, trace: seq<Event>) {
    var t := env.claimTime;
    if forall id :: id in rows ==> !Claimable(rows[id], t) then
      result == NoneDue && trace == [NoClaim(t)]
    else if env.readOom then
      result == Error && trace == [NoClaim(t)]
    else
      exists id :: IsPick(rows, t, id) &&
        if rows[id].poison then result == NoneDue && trace == [Quarantine(t, id)]
        else
          && result == ClaimResult(env)
          && trace == [Claim(w, t, id), Decision(w, env), FollowUp(w, env.endTime, env.draw)]
  }

  lemma IdleCall(s: System, w: nat, env: Env, result: Result)
    requires if forall id :: id in s.rows ==> !Claimable(s.rows[id], env.claimTime) then result == NoneDue
             else env.readOom && result == Error
    ensures ValidRun(s, [NoClaim(env.claimTime)]) && Run(s, [NoClaim(env.claimTime)]) == s
    ensures CallOutcome(s.rows, w, env, result, [NoClaim(env.claimTime)])
  {
    RunOne(s, NoClaim(env.claimTime));
  }

  lemma QuarantineCall(s: System, w: nat, env: Env, id: nat)
    requires Inv(s) && Enabled(s, Quarantine(env.claimTime, id)) && !env.readOom
    ensures var e := Quarantine(env.claimTime, id);
      && ValidRun(s, [e]) && Run(s, [e]) == Apply(s, e) && Inv(Apply(s, e)) && Apply(s, e).busy == s.busy
      && CallOutcome(s.rows, w, env, NoneDue, [e])
  {
    RunOne(s, Quarantine(env.claimTime, id));
    InvStep(s, Quarantine(env.claimTime, id));
  }

  lemma ServedCall(s: System, w: nat, env: Env, id: nat)
    requires Enabled(s, Claim(w, env.claimTime, id)) && !env.readOom
    ensures var e, d, f := Claim(w, env.claimTime, id), Decision(w, env), FollowUp(w, env.endTime, env.draw);
      && Enabled(Apply(s, e), d) && Enabled(Apply(Apply(s, e), d), f)
      && ValidRun(s, [e, d, f]) && Run(s, [e, d, f]) == Apply(Apply(Apply(s, e), d), f)
      && Run(s, [e, d, f]).busy == s.busy
      && CallOutcome(s.rows, w, env, ClaimResult(env), [e, d, f])
  {
    var e, d, f := Claim(w, env.claimTime, id), Decision(w, env), FollowUp(w, env.endTime, env.draw);
    RunThree(s, e, d, f);
  }

  /** The decision about a claimed item, by URL policy, headers, answer and attempts. */
  predicate Decides(attempts: nat, env: Env, verdict: Verdict, result: Result) {
    if !env.urlAllowed then verdict == DropByPolicy && result == Dropped
    else match env.headers
      case Aborted => verdict == Bury && result == Forbidden
      case BuildFailed => verdict == Rearm && result == Error
      case Built =>
        if env.answer.Http? && 200 <= env.answer.status < 300 then verdict == Deliver && result == Sent
        else
          var again := env.answer.NoAnswer? || env.answer.status == 429 || 500 <= env.answer.status < 600;
          result == Dropped && verdict == if again && attempts < 4 then Rearm else Bury
  }

  lemma VerdictDecides(attempts: nat, env: Env)
    ensures Decides(attempts, env, VerdictOf(attempts, env), ClaimResult(env))
  {
  }

  /** What a claimed row comes to, and the answer of the call. */
  ghost predicate ClaimEffect(before: Rows, after: Rows, id: nat, env: Env, result: Result)
    requires id in before
  {
    if !env.urlAllowed then id !in after && result == Dropped
    else match env.headers
      case Aborted => KeptDead(before, after, id) && result == Forbidden
      case BuildFailed => Waits(before, after, id, env.endTime, env.draw) && result == Error
      case Built => AnswerEffect(before, after, id, env, result)
  }

  ghost predicate AnswerEffect(before: Rows, after: Rows, id: nat, env: Env, result: Result)
    requires id in before
  {
    var again := before[id].attempts < 4 && match env.answer
      case NoAnswer => true
      case Http(code) => code == 429 || 500 <= code < 600;
    if env.answer.Http? && 200 <= env.answer.status < 300 then id !in after && result == Sent
    else if again then Waits(before, after, id, env.endTime, env.draw) && result == Dropped
    else KeptDead(before, after, id) && result == Dropped
  }

  /** What a call does: nothing when nothing is due or the row cannot be read; else the first due row, and no other,
      is dropped if it is poison, and comes to what its callback, headers and attempts say. */
  ghost predicate CallEffect(before: Rows, after: Rows, env: Env, result: Result) {
    if forall id :: !Due(before, id, env.claimTime) then result == NoneDue && after == before
    else if env.readOom then result == Error && after == before
    else exists id :: TakenEffect(before, after, id, env, result)
  }

  ghost predicate TakenEffect(before: Rows, after: Rows, id: nat, env: Env, result: Result) {
    && FirstDue(before, id, env.claimTime) && OthersSame(before, after, id)
    && if before[id].poison then id !in after && result == NoneDue
       else ClaimEffect(before, after, id, env, result)
  }

  lemma ClaimHasEffect(s: System, w: nat, env: Env, id: nat)
    requires Enabled(s, Claim(w, env.claimTime, id))
    ensures var es := [Claim(w, env.claimTime, id), Decision(w, env), FollowUp(w, env.endTime, env.draw)];
      && ValidRun(s, es) && OthersSame(s.rows, Run(s, es).rows, id)
      && ClaimEffect(s.rows, Run(s, es).rows, id, env, ClaimResult(env))
  {
    var d := Decision(w, env);
    if !d.Post? {
      SilentCall(s, w, env.claimTime, id, d, env.endTime, env.draw);
    } else if env.answer.NoAnswer? {
      UnansweredCall(s, w, env.claimTime, id, env.endTime, env.draw);
    } else {
      AnsweredCall(s, w, env.claimTime, id, env.answer.status, env.endTime, env.draw);
    }
  }

  /** A call that goes as CallOutcome says has the effect. */
  lemma CallHasEffect(s: System, w: nat, env: Env, result: Result, trace: seq<Event>)
    requires w !in s.busy && CallOutcome(s.rows, w, env, result, trace) && ValidRun(s, trace)
    ensures CallEffect(s.rows, Run(s, trace).rows, env, result)
  {
    var t := env.claimTime;
    if forall id :: id in s.rows ==> !Claimable(s.rows[id], t) {
      RunOne(s, NoClaim(t));
    } else {
      var j :| j in s.rows && Claimable(s.rows[j], t);
      assert Due(s.rows, j, t);
      if env.readOom {
        RunOne(s, NoClaim(t));
      } else {
        TakenHasEffect(s, w, env, result, trace);
      }
    }
  }

  lemma TakenHasEffect(s: System, w: nat, env: Env, result: Result, trace: seq<Event>)
    requires w !in s.busy && CallOutcome(s.rows, w, env, result, trace) && ValidRun(s, trace) && !env.readOom
    requires exists id :: id in s.rows && Claimable(s.rows[id], env.claimTime)
    ensures exists id :: TakenEffect(s.rows, Run(s, trace).rows, id, env, result)
  {
    var t := env.claimTime;
    var id :| IsPick(s.rows, t, id) &&
      if s.rows[id].poison then result == NoneDue && trace == [Quarantine(t, id)]
      else
        && result == ClaimResult(env)
        && trace == [Claim(w, t, id), Decision(w, env), FollowUp(w, env.endTime, env.draw)];
    PickIsFirstDue(s.rows, t, id);
    if s.rows[id].poison {
      RunOne(s, Quarantine(t, id));
    } else {
      ClaimHasEffect(s, w, env, id);
    }
    assert TakenEffect(s.rows, Run(s, trace).rows, id, env, result);
  }

  function VerdictOf(attempts: nat, env: Env): Verdict {
    if !env.urlAllowed then DropByPolicy
    else match env.headers
      case Aborted => Bury
      case BuildFailed => Rearm
      case Built => Decide(env.answer, attempts)
  }

  /** The system after the decision: the worker still holds its row and will end the claim accordingly. */
  ghost function AfterDecision(s: System, w: nat, env: Env): (r: System)
    requires Holds(s, w, true)
    ensures r.rows == s.rows && r.nextId == s.nextId && Holds(r, w, false)
    ensures r.busy[w].id == s.busy[w].id && r.busy[w].phase.verdict == VerdictOf(s.busy[w].attempts, env)
  {
    Apply(s, Decision(w, env))
  }

  /** The history leads from the empty queue to the state, and no follow-up was lost on the way. */
  ghost predicate Reached(s: System, history: seq<Event>) {
    ValidRun(Init, history) && s == Run(Init, history) && Tally(history, Rollbacks) == 0 && Inv(s)
  }

  /** One more event at the end of a history. */
  lemma ExtendRun(s: System, history: seq<Event>, e: Event)
    requires Reached(s, history) && Enabled(s, e) && !e.Rollback?
    ensures Reached(Apply(s, e), history + [e])
  {
    RunOne(s, e);
    RunConcat(Init, history, [e]);
    InvStep(s, e);
    TallyConcat(history, [e], Rollbacks);
  }

  lemma DecisionRun(s: System, history: seq<Event>, w: nat, env: Env)
    requires Reached(s, history) && Holds(s, w, true)
    ensures Reached(AfterDecision(s, w, env), history + [Decision(w, env)])
  {
    ExtendRun(s, history, Decision(w, env));
  }

  lemma AppendThree(h: seq<Event>, a: Event, b: Event, c: Event)
    ensures h + [a] + [b] + [c] == h + [a, b, c]
  {
  }

  /** The event that a dequeue by worker w stands for. */
  function ClaimEvent(w: nat, now: int, out: Dequeued): Event {
    match out
    case NothingDue => NoClaim(now)
    case ReadError => NoClaim(now)
    case Poisoned(id) => Quarantine(now, id)
    case Item(id, _) => Claim(w, now, id)
  }

  /** When a dequeue has which outcome. */
  ghost predicate ClaimOutcome(rows: Rows, now: int, readOom: bool, out: Dequeued) {
    match out
    case NothingDue => forall id :: id in rows ==> !Claimable(rows[id], now)
    case ReadError => readOom && exists id :: IsPick(rows, now, id)
    case Poisoned(_) => !readOom
    case Item(id, attempts) => !readOom && id in rows && attempts == rows[id].attempts
  }

  /** The answer of a call that claimed nothing. */
  function ShortResult(out: Dequeued): Result { if out.ReadError? then Error else NoneDue }

  lemma ShortCall(s: System, w: nat, env: Env, out: Dequeued)
    requires Inv(s) && !out.Item? && ClaimOutcome(s.rows, env.claimTime, env.readOom, out)
    requires Enabled(s, ClaimEvent(w, env.claimTime, out))
    ensures var e := ClaimEvent(w, env.claimTime, out);
      && ValidRun(s, [e]) && Run(s, [e]) == Apply(s, e) && Apply(s, e).busy == s.busy
      && CallOutcome(s.rows, w, env, ShortResult(out), [e])
  {
    if out.Poisoned? {
      QuarantineCall(s, w, env, out.id);
    } else {
      IdleCall(s, w, env, ShortResult(out));
    }
  }

  class Dispatcher {
    const store: MemStore
    ghost var sys: System
    ghost var history: seq<Event>

    /** The store holds the rows of a reachable state of the transition system: the one that the
        recorded history leads to, in which no follow-up was lost. */
    ghost predicate Valid()
      reads this, store, store.slots
    {
      && store.Valid() && sys.rows == store.contents && sys.nextId == store.nextId
      && Reached(sys, history)
    }

    constructor (store: MemStore)
      requires store.Valid() && store.contents == map[] && store.nextId == 1
      ensures Valid() && this.store == store && sys == Init && history == []
    {
      this.store := store;
      sys, history := Init, [];
    }

    /** What holds of the dispatcher's queue between any two calls: no row was POSTed more than five
        times or acknowledged twice, and every issued id is in exactly one place. */
    lemma Guarantees(id: nat)
      requires Valid()
      ensures LogOf(sys, id).posts <= MAX_ATTEMPTS && LogOf(sys, id).acks <= 1
      ensures One(Waiting(sys, id)) + One(Dead(sys, id)) + One(Gone(sys, id, Delivered))
              + One(Gone(sys, id, DroppedByPolicy)) + One(Gone(sys, id, Quarantined))
              == One(1 <= id < store.nextId)
    {
      PostBound(history, id);
      Conservation(history, id);
      IdsIssued(Init, history);
    }

    /** Records an event that the store has just made. */
    ghost method Note(e: Event)
      requires Reached(sys, history) && Enabled(sys, e) && !e.Rollback?
      modifies this
      ensures sys == Apply(old(sys), e) && history == old(history) + [e] && Reached(sys, history)
    {
      ExtendRun(sys, history, e);
      sys, history := Apply(sys, e), history + [e];
    }

    method Enqueue(now: int, poison: bool, copyOom: bool, growOom: bool) returns (ok: bool)
      requires Valid()
      modifies this, store, store.slots
      ensures Valid() && (store.slots == old(store.slots) || fresh(store.slots))
      ensures sys == if ok then Apply(old(sys), Event.Enqueue(now, poison)) else old(sys)
      ensures history == if ok then old(history) + [Event.Enqueue(now, poison)] else old(history)
    {
      ok := store.Enqueue(now, poison, copyOom, growOom);
      if ok {
        ExtendRun(sys, history, Event.Enqueue(now, poison));
        sys, history := Apply(sys, Event.Enqueue(now, poison)), history + [Event.Enqueue(now, poison)];
      }
    }

    /** The first part of dispatch_pending, for worker w. */
    method ClaimNext(ghost w: nat, now: int, readOom: bool) returns (out: Dequeued)
      requires Valid() && w !in sys.busy
      modifies this, store`count, store`contents, store.slots
      ensures Valid()
      ensures Enabled(old(sys), ClaimEvent(w, now, out)) && sys == Apply(old(sys), ClaimEvent(w, now, out))
      ensures history == old(history) + [ClaimEvent(w, now, out)]
      ensures ClaimOutcome(old(sys.rows), now, readOom, out)
    {
      out := store.Dequeue(now, readOom);
      Note(ClaimEvent(w, now, out));
    }

    /** The second part: between the claim and the follow-up, no store operation is made. */
    method DecideNext(ghost w: nat, attempts: nat, env: Env) returns (verdict: Verdict, result: Result)
      requires Valid() && Holds(sys, w, true) && sys.busy[w].attempts == attempts
      modifies this
      ensures Valid() && sys == AfterDecision(old(sys), w, env) && history == old(history) + [Decision(w, env)]
      ensures verdict == VerdictOf(attempts, env) && result == ClaimResult(env)
    {
      verdict, result := Attempt(attempts, env);
      DecisionRun(sys, history, w, env);
      sys, history := AfterDecision(sys, w, env), history + [Decision(w, env)];
    }

    /** The third part: ends a claim with exactly one store operation. */
    method Finish(ghost w: nat, id: nat, verdict: Verdict, now: int, draw: real)
      requires Valid() && Holds(sys, w, false) && sys.busy[w].id == id && sys.busy[w].phase.verdict == verdict
      modifies this, store`count, store`contents, store.slots
      ensures Valid() && sys == Apply(old(sys), FollowUp(w, now, draw))
      ensures history == old(history) + [FollowUp(w, now, draw)]
    {
      store.Settle(id, verdict, now, draw);
      Note(FollowUp(w, now, draw));
    }

    /** What dispatch_pending decides about a claimed item, before the follow-up. */
    method Attempt(attempts: nat, env: Env) returns (verdict: Verdict, result: Result)
      ensures verdict == VerdictOf(attempts, env) && result == ClaimResult(env)
    {
      if !env.urlAllowed {
        return DropByPolicy, Dropped;
      }
      match env.headers
      case Aborted => return Bury, Forbidden;
      case BuildFailed => return Rearm, Error;
      case Built =>
        if IsSuccess(env.answer) {
          return Deliver, Sent;
        }
        if IsRetriable(env.answer) {
          if attempts + 1 >= MAX_ATTEMPTS {
            return Bury, Dropped;
          }
          return Rearm, Dropped;
        }
        return Bury, Dropped;
    }

    /** The parts after a successful claim, when nobody interferes. */
    method Serve(ghost w: nat, id: nat, attempts: nat, env: Env, ghost s: System, ghost h: seq<Event>)
      returns (result: Result, ghost trace: seq<Event>)
      requires Valid() && Enabled(s, Claim(w, env.claimTime, id)) && sys == Apply(s, Claim(w, env.claimTime, id))
      requires history == h + [Claim(w, env.claimTime, id)] && attempts == s.rows[id].attempts && !env.readOom
      modifies this, store`count, store`contents, store.slots
      ensures Valid() && history == h + trace
      ensures ValidRun(s, trace) && sys == Run(s, trace) && sys.busy == s.busy
      ensures CallOutcome(s.rows, w, env, result, trace)
    {
      ServedCall(s, w, env, id);
      trace := [Claim(w, env.claimTime, id), Decision(w, env), FollowUp(w, env.endTime, env.draw)];
      AppendThree(h, Claim(w, env.claimTime, id), Decision(w, env), FollowUp(w, env.endTime, env.draw));
      var verdict;
      verdict, result := DecideNext(w, attempts, env);
      Finish(w, id, verdict, env.endTime, env.draw);
    }

    /** dispatch_pending: one call is a run of the transition system that leaves no claim behind. */
    method DispatchPending(ghost w: nat, env: Env) returns (result: Result, ghost trace: seq<Event>)
      requires Valid() && w !in sys.busy
      modifies this, store`count, store`contents, store.slots
      ensures Valid()
      ensures ValidRun(old(sys), trace) && sys == Run(old(sys), trace) && sys.busy == old(sys.busy)
      ensures history == old(history) + trace
      ensures CallOutcome(old(sys.rows), w, env, result, trace)
      ensures CallEffect(old(store.contents), store.contents, env, result)
    {
      ghost var s, h := sys, history;
      var out := ClaimNext(w, env.claimTime, env.readOom);
      if out.Item? {
        result, trace := Serve(w, out.id, out.attempts, env, s, h);
      } else {
        ShortCall(s, w, env, out);
        trace := [ClaimEvent(w, env.claimTime, out)];
        result := ShortResult(out);
      }
      CallHasEffect(s, w, env, result, trace);
    }
  }
}
