/**
 What holds over every run of the retry queue: the POST budget, claim exclusion,
 conservation of rows, bounded bypass and draining.
 */
module RetryTheorems {
  import opened Wrappers
  import opened RetryQueue
  import Backoff

  datatype Kind = Enqueues | Rollbacks | HeaderFailures | Claims | Ends | Takes

  predicate Is(k: Kind, e: Event) {
    match k
    case Enqueues => e.Enqueue?
    case Rollbacks => e.Rollback?
    case HeaderFailures => e.HeaderOom?
    case Claims => e.Claim?
    case Ends => e.FollowUp? || e.Rollback?
    case Takes => e.Claim? || e.Quarantine?
  }

  /** How many events of a kind a run has. */
  function Tally(es: seq<Event>, k: Kind): nat {
    if es == [] then 0 else (if Is(k, es[0]) then 1 else 0) + Tally(es[1..], k)
  }

  lemma InitInv()
    ensures Inv(Init)
  {
  }

  lemma {:induction false} RunConcat(s: System, a: seq<Event>, b: seq<Event>)
    requires ValidRun(s, a) && ValidRun(Run(s, a), b)
    ensures ValidRun(s, a + b) && Run(s, a + b) == Run(Run(s, a), b)
    decreases |a|
  {
    if a == [] {
      assert a + b == b;
    } else {
      assert (a + b)[0] == a[0] && (a + b)[1..] == a[1..] + b;
      RunConcat(Apply(s, a[0]), a[1..], b);
    }
  }

  // ----- the POST budget ----------------------------------------------------------------

  /** No id loses more follow-ups than the run has rollbacks. */
  lemma {:induction false} RollbacksCounted(s: System, es: seq<Event>, id: nat)
    requires ValidRun(s, es)
    ensures LogOf(Run(s, es), id).rollbacks <= LogOf(s, id).rollbacks + Tally(es, Rollbacks)
    decreases |es|
  {
    if es != [] {
      RollbacksCounted(Apply(s, es[0]), es[1..], id);
    }
  }

  /** A row is POSTed at most 5 times, plus once per follow-up that rolled back; and it is
      acknowledged at most once, plus once per follow-up that rolled back. */
  lemma PostBound(es: seq<Event>, id: nat)
    requires ValidRun(Init, es)
    ensures var l := LogOf(Run(Init, es), id);
      && l.posts <= MAX_ATTEMPTS + l.rollbacks
      && l.acks <= 1 + l.rollbacks
      && l.rollbacks <= Tally(es, Rollbacks)
  {
    InitInv();
    InvRun(Init, es);
    RollbacksCounted(Init, es, id);
    var s := Run(Init, es);
    if id in s.log {
      assert IdOk(s, id);
      if s.log[id].holder.HeldBy? {
        assert JobOk(s, s.log[id].holder.w);
      }
    }
  }

  /** One row, re-armed after `posts` unanswered POSTs and `failures` failed header builds. */
  function Solo(posts: nat, failures: nat, due: int): System {
    System(map[1 := Row(posts + failures, false, Pending, due, false)], 2, map[],
           map[1 := Log(posts, 0, 0, failures, Live, Nobody)])
  }

  lemma SoloStart() returns (es: seq<Event>)
    ensures ValidRun(Init, es) && Run(Init, es) == Solo(0, 0, 0)
    ensures Tally(es, Rollbacks) == 0
  {
    es := [Enqueue(0, false)];
    assert Run(Init, es) == Run(Apply(Init, es[0]), []);
  }

  lemma TallyCons(e: Event, es: seq<Event>, k: Kind)
    ensures Tally([e] + es, k) == One(Is(k, e)) + Tally(es, k)
  {
    assert ([e] + es)[1..] == es;
  }

  lemma TallyThree(a: Event, b: Event, c: Event, k: Kind)
    ensures Tally([a, b, c], k) == One(Is(k, a)) + One(Is(k, b)) + One(Is(k, c))
  {
    TallyCons(c, [], k);
    TallyCons(b, [c], k);
    TallyCons(a, [b, c], k);
    assert [c] == [c] + [] && [b, c] == [b] + [c] && [a, b, c] == [a] + [b, c];
  }

  /** One more attempt, either an unanswered POST or a header-build failure. */
  lemma SoloAgain(posts: nat, failures: nat, due: int, post: bool) returns (es: seq<Event>, due': int)
    requires post ==> posts + failures + 1 < MAX_ATTEMPTS
    ensures ValidRun(Solo(posts, failures, due), es)
    ensures Run(Solo(posts, failures, due), es) ==
      if post then Solo(posts + 1, failures, due') else Solo(posts, failures + 1, due')
    ensures Tally(es, Rollbacks) == 0
  {
    var s := Solo(posts, failures, due);
    var middle := if post then Post(0, NoAnswer) else HeaderOom(0);
    due' := due + RearmDelay(posts + failures, 0.0);
    assert IsPick(s.rows, due, 1);
    RunThree(s, Claim(0, due, 1), middle, FollowUp(0, due, 0.0));
    TallyThree(Claim(0, due, 1), middle, FollowUp(0, due, 0.0), Rollbacks);
    es := [Claim(0, due, 1), middle, FollowUp(0, due, 0.0)];
    var end := Run(s, es);
    assert end.rows == map[1 := Row(posts + failures + 1, false, Pending, due', false)];
    assert end.busy == map[];
  }

  /** First the POSTs, then the header-build failures. */
  lemma {:induction false} SoloReaches(posts: nat, failures: nat) returns (es: seq<Event>, due: int)
    requires posts < MAX_ATTEMPTS
    ensures ValidRun(Init, es) && Run(Init, es) == Solo(posts, failures, due)
    ensures Tally(es, Rollbacks) == 0
    decreases posts + failures
  {
    if posts + failures == 0 {
      es := SoloStart();
      due := 0;
    } else {
      var post := failures == 0;
      var posts', failures' := if post then posts - 1 else posts, if post then 0 else failures - 1;
      var first, due0 := SoloReaches(posts', failures');
      var rest, due1 := SoloAgain(posts', failures', due0, post);
      RunConcat(Init, first, rest);
      TallyConcat(first, rest, Rollbacks);
      es, due := first + rest, due1;
    }
  }

  lemma {:induction false} TallyConcat(a: seq<Event>, b: seq<Event>, k: Kind)
    ensures Tally(a + b, k) == Tally(a, k) + Tally(b, k)
  {
    if a == [] {
      assert a + b == b;
    } else {
      assert (a + b)[0] == a[0] && (a + b)[1..] == a[1..] + b;
      TallyConcat(a[1..], b, k);
    }
  }

  /** The bound is reached without any rollback, and the fifth failure buries the row. */
  lemma PostBoundTight()
    ensures exists es :: ValidRun(Init, es) && Tally(es, Rollbacks) == 0
                         && LogOf(Run(Init, es), 1).posts == MAX_ATTEMPTS
                         && 1 in Run(Init, es).rows && Run(Init, es).rows[1].status.DeadLetter?
  {
    var first, due := SoloReaches(MAX_ATTEMPTS - 1, 0);
    var rest := SoloBuried(due);
    RunConcat(Init, first, rest);
    TallyConcat(first, rest, Rollbacks);
  }

  lemma SoloBuried(due: int) returns (es: seq<Event>)
    ensures ValidRun(Solo(4, 0, due), es) && Tally(es, Rollbacks) == 0
    ensures var s := Run(Solo(4, 0, due), es);
      LogOf(s, 1).posts == MAX_ATTEMPTS && 1 in s.rows && s.rows[1].status.DeadLetter?
  {
    var s := Solo(4, 0, due);
    assert IsPick(s.rows, due, 1);
    es := [Claim(0, due, 1), Post(0, NoAnswer), FollowUp(0, due, 0.0)];
    RunThree(s, Claim(0, due, 1), Post(0, NoAnswer), FollowUp(0, due, 0.0));
    TallyThree(Claim(0, due, 1), Post(0, NoAnswer), FollowUp(0, due, 0.0), Rollbacks);
  }

  // ----- the attempt count --------------------------------------------------------------

  /** A worker is about to re-arm the id without having POSTed it. */
  ghost predicate Failing(s: System, id: nat) {
    id in s.log && s.log[id].holder.HeldBy? && s.log[id].holder.w in s.busy
    && s.busy[s.log[id].holder.w].phase == Decided(Rearm, false)
  }

  lemma FailuresStep(s: System, e: Event, id: nat)
    requires Inv(s) && Enabled(s, e)
    ensures LogOf(Apply(s, e), id).unposted + One(Failing(Apply(s, e), id))
            <= LogOf(s, id).unposted + One(Failing(s, id)) + One(Is(HeaderFailures, e))
  {
    if id in s.log {
      assert IdOk(s, id);
    }
    if e.RejectUrl? || e.HeaderOom? || e.Abort? || e.Post? || e.FollowUp? || e.Rollback? {
      assert JobOk(s, e.w);
    }
  }

  /** No id is re-armed without a POST more often than header builds failed in the run. */
  lemma {:induction false} FailuresCounted(s: System, es: seq<Event>, id: nat)
    requires Inv(s) && ValidRun(s, es)
    ensures LogOf(Run(s, es), id).unposted <= LogOf(s, id).unposted + One(Failing(s, id)) + Tally(es, HeaderFailures)
    decreases |es|
  {
    if es != [] {
      FailuresStep(s, es[0], id);
      InvStep(s, es[0]);
      FailuresCounted(Apply(s, es[0]), es[1..], id);
    }
  }

  /** The attempt count of a row, over every run: at most 4, plus once for each time the row was re-armed
      without a POST, which takes a failed header build. */
  lemma AttemptBound(es: seq<Event>, id: nat)
    requires ValidRun(Init, es) && id in Run(Init, es).rows
    ensures var row, l := Run(Init, es).rows[id], LogOf(Run(Init, es), id);
      && l.unposted <= row.attempts <= MAX_ATTEMPTS - 1 + l.unposted
      && l.unposted <= Tally(es, HeaderFailures)
  {
    InitInv();
    InvRun(Init, es);
    FailuresCounted(Init, es, id);
    assert IdOk(Run(Init, es), id);
  }

  /** A run ends with a row of that attempt count, re-armed that often without a POST. */
  ghost predicate ReachesAttempts(es: seq<Event>, id: nat, attempts: nat, unposted: nat) {
    && ValidRun(Init, es)
    && id in Run(Init, es).rows
    && Run(Init, es).rows[id].attempts == attempts
    && LogOf(Run(Init, es), id).unposted == unposted
  }

  /** The bound is exact: n attempts with k re-arms without a POST are reached if and only if
      k <= n <= 4 + k. So the ceiling is kept exactly as long as no such re-arm happens, and every
      further one lets the count go one higher. */
  lemma AttemptsExactly(n: nat, k: nat)
    ensures (exists es, id :: ReachesAttempts(es, id, n, k)) <==> k <= n <= MAX_ATTEMPTS - 1 + k
  {
    if es, id :| ReachesAttempts(es, id, n, k) {
      AttemptBound(es, id);
    } else if k <= n <= MAX_ATTEMPTS - 1 + k {
      var es, due := SoloReaches(n - k, k);
      assert ReachesAttempts(es, 1, n, k);
    }
  }

  /** In particular the attempt count passes every bound, without a single POST. */
  lemma AttemptCountUnbounded(n: nat)
    ensures exists es :: ReachesAttempts(es, 1, n, n) && LogOf(Run(Init, es), 1).posts == 0
  {
    var es, due := SoloReaches(0, n);
    assert ReachesAttempts(es, 1, n, n);
  }

  // ----- claims -------------------------------------------------------------------------

  /** Under every interleaving: a worker's row is in the store, claimed and pending; no two
      workers hold one row; and every claimed row is held by a worker. */
  lemma ClaimExclusion(es: seq<Event>)
    requires ValidRun(Init, es)
    ensures var s := Run(Init, es);
      && (forall w :: w in s.busy ==> s.busy[w].id in s.rows && s.rows[s.busy[w].id].claimed
                                      && s.rows[s.busy[w].id].status.Pending?
                                      && s.rows[s.busy[w].id].attempts == s.busy[w].attempts)
      && (forall w, v :: w in s.busy && v in s.busy && s.busy[w].id == s.busy[v].id ==> w == v)
      && (forall id :: id in s.rows && s.rows[id].claimed ==> exists w :: w in s.busy && s.busy[w].id == id)
  {
    InitInv();
    InvRun(Init, es);
    var s := Run(Init, es);
    forall w | w in s.busy
      ensures s.busy[w].id in s.rows && s.rows[s.busy[w].id].claimed && s.rows[s.busy[w].id].status.Pending?
      ensures s.rows[s.busy[w].id].attempts == s.busy[w].attempts
      ensures s.busy[w].id in s.log && s.log[s.busy[w].id].holder == HeldBy(w)
    {
      assert JobOk(s, w) && IdOk(s, s.busy[w].id);
    }
    forall id | id in s.rows && s.rows[id].claimed
      ensures exists w :: w in s.busy && s.busy[w].id == id
    {
      assert IdOk(s, id);
      assert s.log[id].holder.w in s.busy;
    }
  }

  lemma MapGrows<V>(m: map<nat, V>, w: nat, v: V)
    ensures |m[w := v]| == |m| + One(w !in m)
  {
    assert m[w := v].Keys == m.Keys + {w} && |m| == |m.Keys| && |m[w := v]| == |m[w := v].Keys|;
  }

  lemma MapShrinks<V>(m: map<nat, V>, w: nat)
    ensures |m - {w}| + One(w in m) == |m|
  {
    assert (m - {w}).Keys == m.Keys - {w} && |m| == |m.Keys| && |m - {w}| == |(m - {w}).Keys|;
  }

  /** What a step does to the workers at work. */
  lemma BusyAfter(s: System, e: Event) returns (job: Job)
    requires Enabled(s, e)
    ensures e.Claim? ==> e.w !in s.busy && Apply(s, e).busy == s.busy[e.w := job]
    ensures e.FollowUp? || e.Rollback? ==> e.w in s.busy && Apply(s, e).busy == s.busy - {e.w}
    ensures e.RejectUrl? || e.HeaderOom? || e.Abort? || e.Post? ==> e.w in s.busy
    ensures e.RejectUrl? || e.HeaderOom? || e.Abort? || e.Post? ==> Apply(s, e).busy == s.busy[e.w := job]
    ensures e.Enqueue? || e.NoClaim? || e.Quarantine? ==> Apply(s, e).busy == s.busy
  {
    if e.Claim? || e.RejectUrl? || e.HeaderOom? || e.Abort? || e.Post? {
      job := Apply(s, e).busy[e.w];
    } else {
      job := Job(0, 0, Held);
    }
  }

  lemma BusyStep(s: System, e: Event)
    requires Enabled(s, e)
    ensures |Apply(s, e).busy| + One(Is(Ends, e)) == |s.busy| + One(Is(Claims, e))
  {
    var job := BusyAfter(s, e);
    if e.FollowUp? || e.Rollback? {
      MapShrinks(s.busy, e.w);
    } else if !e.Enqueue? && !e.NoClaim? && !e.Quarantine? {
      MapGrows(s.busy, e.w, job);
    }
  }

  /** Every claim is ended by exactly one follow-up, or is still held. */
  lemma {:induction false} ClaimsBalance(s: System, es: seq<Event>)
    requires ValidRun(s, es)
    ensures |s.busy| + Tally(es, Claims) == |Run(s, es).busy| + Tally(es, Ends)
    decreases |es|
  {
    if es != [] {
      BusyStep(s, es[0]);
      ClaimsBalance(Apply(s, es[0]), es[1..]);
    }
  }

  // ----- conservation -------------------------------------------------------------------

  function One(b: bool): nat { if b then 1 else 0 }

  predicate Waiting(s: System, id: nat) { id in s.rows && s.rows[id].status.Pending? }

  predicate Dead(s: System, id: nat) { id in s.rows && s.rows[id].status.DeadLetter? }

  predicate Gone(s: System, id: nat, fate: Fate) { id !in s.rows && id in s.log && s.log[id].fate == fate }

  lemma {:induction false} IdsIssued(s: System, es: seq<Event>)
    requires ValidRun(s, es)
    ensures Run(s, es).nextId == s.nextId + Tally(es, Enqueues)
    decreases |es|
  {
    if es != [] {
      IdsIssued(Apply(s, es[0]), es[1..]);
    }
  }

  /** Each of the ids enqueued so far is in exactly one place, and no other id is anywhere. */
  lemma Conservation(es: seq<Event>, id: nat)
    requires ValidRun(Init, es)
    ensures var s := Run(Init, es);
      One(Waiting(s, id)) + One(Dead(s, id)) + One(Gone(s, id, Delivered))
      + One(Gone(s, id, DroppedByPolicy)) + One(Gone(s, id, Quarantined))
      == One(1 <= id <= Tally(es, Enqueues))
  {
    InitInv();
    InvRun(Init, es);
    IdsIssued(Init, es);
    var s := Run(Init, es);
    if id in s.log {
      assert IdOk(s, id);
    }
  }

  /** When no follow-up was lost and no worker is at work on the id, "delivered" is exactly
      "the callback answered 2xx", and it answered so exactly once. */
  lemma DeliveredMeansAcknowledged(es: seq<Event>, id: nat)
    requires ValidRun(Init, es)
    requires LogOf(Run(Init, es), id).holder.Nobody? && LogOf(Run(Init, es), id).rollbacks == 0
    ensures LogOf(Run(Init, es), id).acks == One(Gone(Run(Init, es), id, Delivered))
  {
    InitInv();
    InvRun(Init, es);
    var s := Run(Init, es);
    if id in s.log {
      assert IdOk(s, id);
    }
  }

  /** A dead-letter row is never claimed, removed or altered again. */
  lemma {:induction false} DeadLetterFrozen(s: System, es: seq<Event>, id: nat)
    requires Inv(s) && ValidRun(s, es) && Dead(s, id)
    ensures id in Run(s, es).rows && Run(s, es).rows[id] == s.rows[id]
    decreases |es|
  {
    if es != [] {
      var e := es[0];
      assert IdOk(s, id);
      if e.FollowUp? || e.Rollback? {
        assert JobOk(s, e.w) && IdOk(s, s.busy[e.w].id);
      }
      assert id < s.nextId;
      InvStep(s, e);
      DeadLetterFrozen(Apply(s, e), es[1..], id);
    }
  }

  // ----- bounded bypass -----------------------------------------------------------------

  function ClockOf(e: Event, t: int): int {
    if e.Enqueue? || e.NoClaim? || e.Quarantine? || e.Claim? || e.FollowUp? then e.now else t
  }

  /** The clock readings of a run never go back, starting from t. */
  predicate ClockFrom(t: int, es: seq<Event>)
    decreases |es|
  {
    es == [] || (t <= ClockOf(es[0], t) && ClockFrom(ClockOf(es[0], t), es[1..]))
  }

  predicate Takes1(e: Event, id: nat) {
    (e.Claim? || e.Quarantine?) && e.id == id
  }

  /** An unclaimed pending row, due at time t. */
  predicate DueAt(s: System, id: nat, t: int) {
    id in s.rows && Claimable(s.rows[id], t)
  }

  /** The rows that come before id in claim order and could be claimed. */
  function AheadOf(rows: Rows, id: nat): set<nat>
    requires id in rows
  {
    set j | j in rows && !rows[j].claimed && rows[j].status.Pending? && Before(rows, j, id)
  }

  /** The row a step puts back in front of others: only a lost follow-up does that. */
  function PutBack(s: System, e: Event): set<nat> {
    if e.Rollback? && e.w in s.busy then {s.busy[e.w].id} else {}
  }

  function Taken(e: Event): set<nat> {
    if e.Claim? || e.Quarantine? then {e.id} else {}
  }

  lemma BypassStep(s: System, e: Event, id: nat, t: int)
    requires Inv(s) && Enabled(s, e) && DueAt(s, id, t) && t <= ClockOf(e, t) && !Takes1(e, id)
    ensures id in Apply(s, e).rows && Apply(s, e).rows[id] == s.rows[id]
    ensures AheadOf(Apply(s, e).rows, id) <= AheadOf(s.rows, id) - Taken(e) + PutBack(s, e)
    ensures Taken(e) <= AheadOf(s.rows, id)
  {
    var s' := Apply(s, e);
    assert IdOk(s, id);
    if e.RejectUrl? || e.HeaderOom? || e.Abort? || e.Post? || e.FollowUp? || e.Rollback? {
      assert JobOk(s, e.w) && IdOk(s, s.busy[e.w].id);
      if e.FollowUp? {
        RearmDelayPositive(s.busy[e.w].attempts, e.draw);
      }
    }
  }

  /** Each take removes one row from those ahead; each lost follow-up can add one. */
  lemma AheadShrinks(s: System, e: Event, id: nat, t: int)
    requires Inv(s) && Enabled(s, e) && DueAt(s, id, t) && t <= ClockOf(e, t) && !Takes1(e, id)
    ensures Inv(Apply(s, e)) && DueAt(Apply(s, e), id, t)
    ensures |AheadOf(Apply(s, e).rows, id)| + One(Is(Takes, e)) <= |AheadOf(s.rows, id)| + One(Is(Rollbacks, e))
  {
    InvStep(s, e);
    BypassStep(s, e, id, t);
    AheadCount(AheadOf(s.rows, id), AheadOf(Apply(s, e).rows, id), Taken(e), PutBack(s, e));
  }

  lemma AheadCount(before: set<nat>, after: set<nat>, taken: set<nat>, back: set<nat>)
    requires after <= before - taken + back && taken <= before
    ensures |after| + |taken| <= |before| + |back|
  {
    SubsetSize(after, before - taken + back);
    assert |before - taken| == |before| - |taken|;
  }

  lemma {:induction false} NotTaken(s: System, es: seq<Event>, id: nat, t: int)
    requires Inv(s) && ValidRun(s, es) && ClockFrom(t, es) && DueAt(s, id, t)
    requires forall i :: 0 <= i < |es| ==> !Takes1(es[i], id)
    ensures Tally(es, Takes) <= |AheadOf(s.rows, id)| + Tally(es, Rollbacks)
    decreases |es|
  {
    if es != [] {
      AheadShrinks(s, es[0], id, t);
      NotTaken(Apply(s, es[0]), es[1..], id, ClockOf(es[0], t));
    }
  }

  /** With a clock that never goes back, a due row with k rows ahead of it is taken by the
      (k + 1)th take, whatever is enqueued or re-armed meanwhile. Each lost follow-up can put
      one row back in front. */
  lemma BoundedBypass(s: System, es: seq<Event>, id: nat, t: int)
    requires Inv(s) && ValidRun(s, es) && ClockFrom(t, es) && DueAt(s, id, t)
    requires Tally(es, Takes) > |AheadOf(s.rows, id)| + Tally(es, Rollbacks)
    ensures exists i :: 0 <= i < |es| && Takes1(es[i], id)
  {
    if forall i :: 0 <= i < |es| ==> !Takes1(es[i], id) {
      NotTaken(s, es, id, t);
    }
  }

  // ----- draining -----------------------------------------------------------------------

  /** How many more productive calls a row can cause. */
  function Weight(rows: Rows, id: nat): nat {
    if id in rows && rows[id].status.Pending? then Backoff.Max(MAX_ATTEMPTS - rows[id].attempts, 1) else 0
  }

  function Potential(rows: Rows, n: nat): nat {
    if n == 0 then 0 else Potential(rows, n - 1) + Weight(rows, n - 1)
  }

  lemma {:induction false} PotentialSame(rows: Rows, rows': Rows, n: nat)
    requires forall j :: 0 <= j < n ==> Weight(rows', j) == Weight(rows, j)
    ensures Potential(rows', n) == Potential(rows, n)
  {
    if n > 0 {
      PotentialSame(rows, rows', n - 1);
    }
  }

  lemma {:induction false} PotentialAt(rows: Rows, rows': Rows, id: nat, n: nat)
    requires id < n
    requires forall j :: 0 <= j < n && j != id ==> Weight(rows', j) == Weight(rows, j)
    ensures Potential(rows', n) + Weight(rows, id) == Potential(rows, n) + Weight(rows', id)
  {
    if id == n - 1 {
      PotentialSame(rows, rows', n - 1);
    } else {
      PotentialAt(rows, rows', id, n - 1);
    }
  }

  /** A call that ended a claim (or quarantined a row), other than by a header-build failure. */
  ghost predicate Productive(s: System, e: Event)
    requires Enabled(s, e)
  {
    e.Quarantine? || (e.FollowUp? && s.busy[e.w].phase != Decided(Rearm, false))
  }

  ghost function Work(s: System, es: seq<Event>): nat
    requires ValidRun(s, es)
    decreases |es|
  {
    if es == [] then 0 else One(Productive(s, es[0])) + Work(Apply(s, es[0]), es[1..])
  }

  lemma DrainEnqueue(s: System, e: Event)
    requires Inv(s) && e.Enqueue?
    ensures var s' := Apply(s, e); Potential(s'.rows, s'.nextId) == Potential(s.rows, s.nextId) + MAX_ATTEMPTS
  {
    PotentialSame(s.rows, Apply(s, e).rows, s.nextId);
  }

  lemma DrainStep(s: System, e: Event)
    requires Inv(s) && Enabled(s, e) && !e.Enqueue?
    ensures var s' := Apply(s, e);
      Potential(s'.rows, s'.nextId) + One(Productive(s, e)) <= Potential(s.rows, s.nextId)
  {
    var s' := Apply(s, e);
    if e.Quarantine? || e.Claim? {
      assert IdOk(s, e.id);
      PotentialAt(s.rows, s'.rows, e.id, s.nextId);
    } else if e.FollowUp? || e.Rollback? {
      var job := s.busy[e.w];
      assert JobOk(s, e.w) && IdOk(s, job.id);
      PotentialAt(s.rows, s'.rows, job.id, s.nextId);
    } else {
      PotentialSame(s.rows, s'.rows, s.nextId);
    }
  }

  /** Every productive call strictly lowers the potential, and only an enqueue raises it (by 5).
      So from the empty queue there are at most 5 productive calls per enqueued row. */
  lemma {:induction false} Draining(s: System, es: seq<Event>)
    requires Inv(s) && ValidRun(s, es)
    ensures Potential(Run(s, es).rows, Run(s, es).nextId) + Work(s, es)
            <= Potential(s.rows, s.nextId) + MAX_ATTEMPTS * Tally(es, Enqueues)
    decreases |es|
  {
    if es != [] {
      var e := es[0];
      if e.Enqueue? {
        DrainEnqueue(s, e);
      } else {
        DrainStep(s, e);
      }
      InvStep(s, e);
      Draining(Apply(s, e), es[1..]);
    }
  }
}
