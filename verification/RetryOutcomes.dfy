/**
 What a call of dispatch_pending does to the queue, in the terms of the callback's HTTP
 status, the row's attempts and the clock, and what a worker waits for.
 */
module RetryOutcomes {
  import opened RetryQueue
  import opened RetryTheorems
  import Backoff

  // ----- enqueue and claim --------------------------------------------------------------

  /** An enqueued row has no attempts and is due at once. */
  lemma EnqueuedIsDue(s: System, now: int, poison: bool)
    ensures var s' := Apply(s, Enqueue(now, poison));
      && s'.rows == s.rows[s.nextId := Row(0, false, Pending, now, poison)]
      && s'.nextId == s.nextId + 1 && s'.busy == s.busy
  {
  }

  /** A row that a worker could claim now. */
  predicate Due(rows: Rows, id: nat, now: int) {
    id in rows && !rows[id].claimed && rows[id].status == Pending && rows[id].dueAt <= now
  }

  /** The due row with the earliest due time, and among those the one with the least id. */
  ghost predicate FirstDue(rows: Rows, id: nat, now: int) {
    && Due(rows, id, now)
    && forall j :: j != id && Due(rows, j, now) ==>
         rows[id].dueAt < rows[j].dueAt || (rows[id].dueAt == rows[j].dueAt && id < j)
  }

  lemma PickIsFirstDue(rows: Rows, now: int, id: nat)
    ensures IsPick(rows, now, id) <==> FirstDue(rows, id, now)
  {
    if IsPick(rows, now, id) {
      forall j | j != id && Due(rows, j, now)
        ensures rows[id].dueAt < rows[j].dueAt || (rows[id].dueAt == rows[j].dueAt && id < j)
      {
        assert Before(rows, id, j);
      }
    }
  }

  /** A worker that holds nothing can claim the first due row unless it is poison, and nothing else. */
  lemma ClaimsTheFirstDue(s: System, w: nat, now: int, id: nat)
    ensures Enabled(s, Claim(w, now, id)) <==> w !in s.busy && FirstDue(s.rows, id, now) && !s.rows[id].poison
  {
    PickIsFirstDue(s.rows, now, id);
  }

  // ----- the wait of a re-armed row -----------------------------------------------------

  /** A wait after so many attempts: min(200 * 2^attempts, 30000) ms, plus the draw's share of half of that. */
  predicate BackedOff(attempts: nat, wait: int, draw: real) {
    var floor := Backoff.Min(200 * Backoff.Pow2(attempts), 30000);
    && floor <= wait <= floor + floor / 2
    && (0.0 <= draw < 1.0 ==> (wait - floor) as real <= draw * (floor / 2) as real < (wait - floor) as real + 1.0)
  }

  lemma RearmBacksOff(row: Row, now: int, draw: real)
    ensures BackedOff(row.attempts, RearmedRow(row, now, draw).dueAt - now, draw)
  {
    Backoff.DelayMonotone(row.attempts, row.attempts, BACKOFF_BASE_MS, BACKOFF_MAX_MS, draw);
    Backoff.DelayFollowsDraw(row.attempts, BACKOFF_BASE_MS, BACKOFF_MAX_MS, draw);
  }

  // ----- the three ways a claim ends ----------------------------------------------------

  /** Nothing but the row of the id differs. */
  ghost predicate OthersSame(before: Rows, after: Rows, id: nat) {
    forall j :: j != id ==> (j in before <==> j in after) && (j in before ==> after[j] == before[j])
  }

  /** The row waits for its next attempt, one attempt older. */
  predicate Waits(before: Rows, after: Rows, id: nat, end: int, draw: real)
    requires id in before
  {
    && id in after && after[id].status == Pending && !after[id].claimed && after[id].poison == before[id].poison
    && after[id].attempts == before[id].attempts + 1
    && BackedOff(before[id].attempts, after[id].dueAt - end, draw)
  }

  /** The row is kept as a dead letter, with everything else as it was. */
  predicate KeptDead(before: Rows, after: Rows, id: nat)
    requires id in before
  {
    id in after && after[id] == before[id].(status := DeadLetter, claimed := false)
  }

  /** Under any interleaving, what a worker will do is decided by the answer to its POST and by the attempts of its
      row as they are now. */
  lemma PostDecides(s: System, w: nat, answer: Transport)
    requires Inv(s) && Enabled(s, Post(w, answer))
    ensures var s', row := Apply(s, Post(w, answer)), s.rows[s.busy[w].id];
      && s'.rows == s.rows && s'.busy[w].id == s.busy[w].id
      && s'.busy[w].phase == Decided(
           if answer.Http? && 200 <= answer.status < 300 then Deliver
           else if (answer.NoAnswer? || answer.status == 429 || 500 <= answer.status < 600) && row.attempts < 4
           then Rearm
           else Bury, true)
  {
    assert JobOk(s, w);
  }

  /** Under any interleaving, a follow-up that commits ends the claim of its row as decided, and touches no other. */
  lemma FollowUpEnds(s: System, w: nat, end: int, draw: real)
    requires Inv(s) && Enabled(s, FollowUp(w, end, draw))
    ensures var id, after := s.busy[w].id, Apply(s, FollowUp(w, end, draw)).rows;
      && id in s.rows && OthersSame(s.rows, after, id)
      && match s.busy[w].phase.verdict
         case Deliver => id !in after
         case DropByPolicy => id !in after
         case Rearm => Waits(s.rows, after, id, end, draw)
         case Bury => KeptDead(s.rows, after, id)
  {
    assert JobOk(s, w) && IdOk(s, s.busy[w].id);
    RearmBacksOff(s.rows[s.busy[w].id], end, draw);
  }

  ghost function CallRun(w: nat, now: int, id: nat, decision: Event, end: int, draw: real): seq<Event> {
    [Claim(w, now, id), decision, FollowUp(w, end, draw)]
  }

  predicate IsDecision(e: Event, w: nat) { (e.RejectUrl? || e.HeaderOom? || e.Abort? || e.Post?) && e.w == w }

  lemma CallIsValid(s: System, w: nat, now: int, id: nat, decision: Event, end: int, draw: real)
    requires Enabled(s, Claim(w, now, id)) && IsDecision(decision, w)
    ensures ValidRun(s, CallRun(w, now, id, decision, end, draw))
    ensures Run(s, CallRun(w, now, id, decision, end, draw))
            == Apply(Apply(Apply(s, Claim(w, now, id)), decision), FollowUp(w, end, draw))
  {
    RunThree(s, Claim(w, now, id), decision, FollowUp(w, end, draw));
  }

  /** After a call whose callback answered with an HTTP status: the row is gone exactly on 2xx; it waits exactly on
      429 and 5xx while fewer than four attempts were made before; it is a dead letter otherwise. */
  lemma AnsweredCall(s: System, w: nat, now: int, id: nat, code: int, end: int, draw: real)
    requires Enabled(s, Claim(w, now, id))
    ensures var es := CallRun(w, now, id, Post(w, Http(code)), end, draw);
      && ValidRun(s, es)
      && var before, after := s.rows, Run(s, es).rows;
         && OthersSame(before, after, id)
         && (if 200 <= code < 300 then id !in after && LogOf(Run(s, es), id).fate == Delivered
             else if (code == 429 || 500 <= code < 600) && before[id].attempts < 4
             then Waits(before, after, id, end, draw)
             else KeptDead(before, after, id))
         && LogOf(Run(s, es), id).posts == LogOf(s, id).posts + 1
  {
    CallIsValid(s, w, now, id, Post(w, Http(code)), end, draw);
    RearmBacksOff(s.rows[id].(claimed := true), end, draw);
  }

  /** After a call whose callback did not answer: the row waits while fewer than four attempts were made before, and is
      a dead letter then. */
  lemma UnansweredCall(s: System, w: nat, now: int, id: nat, end: int, draw: real)
    requires Enabled(s, Claim(w, now, id))
    ensures var es := CallRun(w, now, id, Post(w, NoAnswer), end, draw);
      && ValidRun(s, es)
      && var before, after := s.rows, Run(s, es).rows;
         && OthersSame(before, after, id)
         && (if before[id].attempts < 4 then Waits(before, after, id, end, draw) else KeptDead(before, after, id))
         && LogOf(Run(s, es), id).posts == LogOf(s, id).posts + 1
  {
    CallIsValid(s, w, now, id, Post(w, NoAnswer), end, draw);
    RearmBacksOff(s.rows[id].(claimed := true), end, draw);
  }

  /** After a call that did not POST: a callback URL against the policy loses the row, a failed header build lets it
      wait whatever its attempts, and a refused bearer buries it. */
  lemma SilentCall(s: System, w: nat, now: int, id: nat, decision: Event, end: int, draw: real)
    requires Enabled(s, Claim(w, now, id)) && decision in {RejectUrl(w), HeaderOom(w), Abort(w)}
    ensures var es := CallRun(w, now, id, decision, end, draw);
      && ValidRun(s, es)
      && var before, after := s.rows, Run(s, es).rows;
         && OthersSame(before, after, id)
         && (decision.RejectUrl? ==> id !in after && LogOf(Run(s, es), id).fate == DroppedByPolicy)
         && (decision.HeaderOom? ==> Waits(before, after, id, end, draw))
         && (decision.Abort? ==> KeptDead(before, after, id))
         && LogOf(Run(s, es), id).posts == LogOf(s, id).posts
  {
    CallIsValid(s, w, now, id, decision, end, draw);
    RearmBacksOff(s.rows[id].(claimed := true), end, draw);
  }

  // ----- backoff over runs --------------------------------------------------------------

  /** A waiting row is left alone until it is taken. */
  lemma WaitingStays(s: System, e: Event, id: nat)
    requires Inv(s) && Enabled(s, e) && id in s.rows && !s.rows[id].claimed && s.rows[id].status == Pending
    requires !Takes1(e, id)
    ensures id in Apply(s, e).rows && Apply(s, e).rows[id] == s.rows[id]
  {
    assert IdOk(s, id);
    if e.FollowUp? || e.Rollback? {
      assert JobOk(s, e.w);
    }
  }

  /** Over every run: a waiting row is not taken before it is due, whoever takes it and whatever happens meanwhile. */
  lemma {:induction false} NotBeforeDue(s: System, es: seq<Event>, k: nat, id: nat)
    requires Inv(s) && ValidRun(s, es) && id in s.rows && !s.rows[id].claimed && s.rows[id].status == Pending
    requires k < |es| && Takes1(es[k], id) && forall i :: 0 <= i < k ==> !Takes1(es[i], id)
    ensures s.rows[id].dueAt <= es[k].now
    decreases |es|
  {
    if k > 0 {
      WaitingStays(s, es[0], id);
      InvStep(s, es[0]);
      NotBeforeDue(Apply(s, es[0]), es[1..], k - 1, id);
    }
  }

  /** A row whose callback answered 429 or 5xx, or not at all, is not tried again before its backoff has passed:
      min(200 * 2^attempts, 30000) ms after the end of that call. */
  lemma RetriesBackOff(s: System, w: nat, now: int, id: nat, answer: Transport, end: int, draw: real,
                       rest: seq<Event>, k: nat)
    requires Inv(s) && Enabled(s, Claim(w, now, id)) && s.rows[id].attempts < 4
    requires answer.NoAnswer? || answer.status == 429 || 500 <= answer.status < 600
    requires ValidRun(s, CallRun(w, now, id, Post(w, answer), end, draw))
    requires ValidRun(Run(s, CallRun(w, now, id, Post(w, answer), end, draw)), rest)
    requires k < |rest| && Takes1(rest[k], id) && forall i :: 0 <= i < k ==> !Takes1(rest[i], id)
    ensures rest[k].now - end >= Backoff.Min(200 * Backoff.Pow2(s.rows[id].attempts), 30000)
  {
    var es := CallRun(w, now, id, Post(w, answer), end, draw);
    if answer.NoAnswer? {
      UnansweredCall(s, w, now, id, end, draw);
    } else {
      AnsweredCall(s, w, now, id, answer.status, end, draw);
    }
    InvRun(s, es);
    NotBeforeDue(Run(s, es), rest, k, id);
  }
}
