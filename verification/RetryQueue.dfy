/**
 The notification retry queue as a transition system.

 Any number of workers run dispatch_pending over one store. Each store operation is
 one atomic event; between a worker's claim and its follow-up every other event may
 interleave. The environment (clock readings, transport results, header-build and
 OAuth2 outcomes, jitter draws, failed commits) is carried by the events, so a theorem
 about every valid run is a theorem about every environment.

 `Rollback` is the libpq backend's failed follow-up: the row lock is released and the
 row is as it was before the claim. The in-memory store never produces it.
 */
module RetryQueue {
  import Backoff

  const MAX_ATTEMPTS := 5
  const BACKOFF_BASE_MS := 200
  const BACKOFF_MAX_MS := 30000

  datatype Status = Pending | DeadLetter

  datatype Row = Row(attempts: nat, claimed: bool, status: Status, dueAt: int, poison: bool)

  type Rows = map<nat, Row>

  // ----- store operations on the abstract queue ---------------------------------------

  predicate Claimable(row: Row, now: int) {
    !row.claimed && row.status.Pending? && row.dueAt <= now
  }

  /** The claim order of the queue: due time first, then id. */
  predicate Before(rows: Rows, a: nat, b: nat)
    requires a in rows && b in rows
  {
    rows[a].dueAt < rows[b].dueAt || (rows[a].dueAt == rows[b].dueAt && a < b)
  }

  /** id is the row a dequeue at time now selects. */
  ghost predicate IsPick(rows: Rows, now: int, id: nat) {
    && id in rows
    && Claimable(rows[id], now)
    && forall j :: j in rows && Claimable(rows[j], now) && j != id ==> Before(rows, id, j)
  }

  function Fresh(now: int, poison: bool): Row {
    Row(0, false, Pending, now, poison)
  }

  function Claimed(rows: Rows, id: nat): Rows {
    if id in rows then rows[id := rows[id].(claimed := true)] else rows
  }

  function Released(rows: Rows, id: nat): Rows {
    if id in rows then rows[id := rows[id].(claimed := false)] else rows
  }

  function Completed(rows: Rows, id: nat): Rows {
    rows - {id}
  }

  function RearmDelay(attempts: nat, draw: real): int {
    Backoff.RetryDelay(attempts, BACKOFF_BASE_MS, BACKOFF_MAX_MS, draw)
  }

  function RearmedRow(row: Row, now: int, draw: real): Row {
    row.(attempts := row.attempts + 1, claimed := false, dueAt := now + RearmDelay(row.attempts, draw))
  }

  function Rearmed(rows: Rows, id: nat, now: int, draw: real): Rows {
    if id in rows then rows[id := RearmedRow(rows[id], now, draw)] else rows
  }

  function Buried(rows: Rows, id: nat): Rows {
    if id in rows then rows[id := rows[id].(status := DeadLetter, claimed := false)] else rows
  }

  /** A re-armed row always waits: the backoff floor is at least the base delay. */
  lemma RearmDelayPositive(attempts: nat, draw: real)
    ensures BACKOFF_BASE_MS <= RearmDelay(attempts, draw) <= BACKOFF_MAX_MS + BACKOFF_MAX_MS / 2
  {
    Backoff.DelayMonotone(attempts, attempts, BACKOFF_BASE_MS, BACKOFF_MAX_MS, draw);
    Backoff.FloorMonotone(attempts, attempts, BACKOFF_BASE_MS, BACKOFF_MAX_MS);
  }

  // ----- the dispatcher's decision ------------------------------------------------------

  datatype Transport = NoAnswer | Http(status: int)

  /** What a worker does with its claim: two ways to complete, one to re-arm, one to bury. */
  datatype Verdict = Deliver | DropByPolicy | Rearm | Bury

  predicate IsSuccess(t: Transport) { t.Http? && 200 <= t.status < 300 }

  predicate IsRetriable(t: Transport) { t.NoAnswer? || 500 <= t.status < 600 || t.status == 429 }

  function Decide(t: Transport, attempts: nat): Verdict {
    if IsSuccess(t) then Deliver
    else if IsRetriable(t) && attempts + 1 < MAX_ATTEMPTS then Rearm
    else Bury
  }

  // ----- system state and events --------------------------------------------------------

  datatype Phase = Held | Decided(verdict: Verdict, posted: bool)

  /** A worker between its claim and its follow-up; `attempts` is the count read at the claim. */
  datatype Job = Job(id: nat, attempts: nat, phase: Phase)

  datatype Fate = Live | Delivered | DroppedByPolicy | Quarantined

  datatype Holder = Nobody | HeldBy(w: nat)

  /** History of one issued id: what the environment saw of it, how often it was re-armed without a
      POST, and who holds its claim. */
  datatype Log = Log(posts: nat, acks: nat, rollbacks: nat, unposted: nat, fate: Fate, holder: Holder)

  /** Workers that are not in `busy` are idle; `log` only records history. */
  datatype System = System(rows: Rows, nextId: nat, busy: map<nat, Job>, log: map<nat, Log>)

  const Init := System(map[], 1, map[], map[])

  datatype Event =
    | Enqueue(now: int, poison: bool)
    | NoClaim(now: int)                        // nothing due, or a read error: the store is unchanged
    | Quarantine(now: int, id: nat)            // the picked row has no deliverable body and is deleted
    | Claim(w: nat, now: int, id: nat)
    | RejectUrl(w: nat)
    | HeaderOom(w: nat)
    | Abort(w: nat)                            // OAuth2 fail-closed
    | Post(w: nat, answer: Transport)
    | FollowUp(w: nat, now: int, draw: real)
    | Rollback(w: nat)

  ghost predicate Enabled(s: System, e: Event) {
    match e
    case Enqueue(_, _) => true
    case NoClaim(_) => true
    case Quarantine(now, id) => IsPick(s.rows, now, id) && s.rows[id].poison
    case Claim(w, now, id) => w !in s.busy && IsPick(s.rows, now, id) && !s.rows[id].poison
    case RejectUrl(w) => Holds(s, w, true)
    case HeaderOom(w) => Holds(s, w, true)
    case Abort(w) => Holds(s, w, true)
    case Post(w, _) => Holds(s, w, true)
    case FollowUp(w, _, _) => Holds(s, w, false)
    case Rollback(w) => Holds(s, w, false)
  }

  ghost predicate Holds(s: System, w: nat, undecided: bool) {
    w in s.busy && s.busy[w].phase.Held? == undecided
  }

  /** The log of an id; ids never issued have the empty history. */
  function LogOf(s: System, id: nat): Log {
    if id in s.log then s.log[id] else Log(0, 0, 0, 0, Live, Nobody)
  }

  function SetPhase(s: System, w: nat, phase: Phase): System
    requires w in s.busy
  {
    s.(busy := s.busy[w := s.busy[w].(phase := phase)])
  }

  function SettledRows(rows: Rows, id: nat, verdict: Verdict, now: int, draw: real): Rows {
    match verdict
    case Deliver => Completed(rows, id)
    case DropByPolicy => Completed(rows, id)
    case Rearm => Rearmed(rows, id, now, draw)
    case Bury => Buried(rows, id)
  }

  function SettledFate(verdict: Verdict): Fate {
    match verdict
    case Deliver => Delivered
    case DropByPolicy => DroppedByPolicy
    case Rearm => Live
    case Bury => Live
  }

  function Settled(l: Log, phase: Phase): Log
    requires phase.Decided?
  {
    l.(fate := SettledFate(phase.verdict), holder := Nobody,
       unposted := if phase == Decided(Rearm, false) then l.unposted + 1 else l.unposted)
  }

  function Acked(l: Log, answer: Transport): Log {
    l.(posts := l.posts + 1, acks := if IsSuccess(answer) then l.acks + 1 else l.acks)
  }

  ghost function Apply(s: System, e: Event): System
    requires Enabled(s, e)
  {
    match e
    case Enqueue(now, poison) =>
      System(s.rows[s.nextId := Fresh(now, poison)], s.nextId + 1, s.busy,
             s.log[s.nextId := Log(0, 0, 0, 0, Live, Nobody)])
    case NoClaim(_) => s
    case Quarantine(_, id) =>
      s.(rows := Completed(s.rows, id), log := s.log[id := LogOf(s, id).(fate := Quarantined)])
    case Claim(w, _, id) =>
      s.(rows := Claimed(s.rows, id), busy := s.busy[w := Job(id, s.rows[id].attempts, Held)],
         log := s.log[id := LogOf(s, id).(holder := HeldBy(w))])
    case RejectUrl(w) => SetPhase(s, w, Decided(DropByPolicy, false))
    case HeaderOom(w) => SetPhase(s, w, Decided(Rearm, false))
    case Abort(w) => SetPhase(s, w, Decided(Bury, false))
    case Post(w, answer) =>
      var job := s.busy[w];
      var decided := SetPhase(s, w, Decided(Decide(answer, job.attempts), true));
      decided.(log := s.log[job.id := Acked(LogOf(s, job.id), answer)])
    case FollowUp(w, now, draw) =>
      var job := s.busy[w];
      s.(rows := SettledRows(s.rows, job.id, job.phase.verdict, now, draw), busy := s.busy - {w},
         log := s.log[job.id := Settled(LogOf(s, job.id), job.phase)])
    case Rollback(w) =>
      var job := s.busy[w];
      var l := LogOf(s, job.id);
      s.(rows := Released(s.rows, job.id), busy := s.busy - {w},
         log := s.log[job.id := l.(rollbacks := l.rollbacks + 1, holder := Nobody)])
  }

  ghost predicate ValidRun(s: System, es: seq<Event>)
    decreases |es|
  {
    es == [] || (Enabled(s, es[0]) && ValidRun(Apply(s, es[0]), es[1..]))
  }

  ghost function Run(s: System, es: seq<Event>): System
    requires ValidRun(s, es)
    decreases |es|
  {
    if es == [] then s else Run(Apply(s, es[0]), es[1..])
  }

  lemma RunOne(s: System, e: Event)
    requires Enabled(s, e)
    ensures ValidRun(s, [e]) && Run(s, [e]) == Apply(s, e)
  {
    assert [e][1..] == [];
    assert Run(s, [e]) == Run(Apply(s, e), []);
  }

  lemma RunThree(s: System, a: Event, b: Event, c: Event)
    requires Enabled(s, a) && Enabled(Apply(s, a), b) && Enabled(Apply(Apply(s, a), b), c)
    ensures ValidRun(s, [a, b, c]) && Run(s, [a, b, c]) == Apply(Apply(Apply(s, a), b), c)
  {
    assert [a, b, c][1..] == [b, c] && [b, c][1..] == [c];
    var t := Apply(Apply(s, a), b);
    RunOne(t, c);
    assert ValidRun(Apply(s, a), [b, c]);
    assert Run(Apply(s, a), [b, c]) == Run(t, [c]);
  }

  // ----- invariant ----------------------------------------------------------------------

  /** POSTs so far, against the budget that an attempt count stands for. */
  predicate WithinBudget(l: Log, attempts: nat, extra: nat) {
    l.posts <= Backoff.Min(attempts, MAX_ATTEMPTS - 1) + l.rollbacks + extra
  }

  predicate PhaseOk(job: Job, l: Log) {
    match job.phase
    case Held => WithinBudget(l, job.attempts, 0) && l.acks <= l.rollbacks
    case Decided(verdict, posted) =>
      && WithinBudget(l, job.attempts, if posted then 1 else 0)
      && (verdict.Rearm? && posted ==> job.attempts + 1 < MAX_ATTEMPTS)
      && l.acks <= l.rollbacks + (if verdict.Deliver? then 1 else 0)
      && (verdict.Deliver? ==> l.acks >= 1)
  }

  predicate RowOk(row: Row, l: Log) {
    && l.fate.Live?
    && l.unposted <= row.attempts <= MAX_ATTEMPTS - 1 + l.unposted
    && (row.claimed <==> l.holder.HeldBy?)
    && (row.claimed ==> row.status.Pending?)
    && (!row.claimed ==> l.acks <= l.rollbacks && l.posts <= MAX_ATTEMPTS + l.rollbacks)
    && (!row.claimed && row.status.Pending? ==> WithinBudget(l, row.attempts, 0))
  }

  predicate GoneOk(l: Log) {
    && !l.fate.Live?
    && l.holder.Nobody?
    && l.posts <= MAX_ATTEMPTS + l.rollbacks
    && l.acks <= l.rollbacks + 1
    && (l.fate.Delivered? ==> l.acks >= 1)
    && (!l.fate.Delivered? ==> l.acks <= l.rollbacks)
  }

  ghost predicate IdOk(s: System, id: nat) {
    && id in s.log
    && (id in s.rows ==> RowOk(s.rows[id], s.log[id]))
    && (id !in s.rows ==> GoneOk(s.log[id]))
    && (s.log[id].holder.HeldBy? ==> s.log[id].holder.w in s.busy && s.busy[s.log[id].holder.w].id == id)
  }

  ghost predicate JobOk(s: System, w: nat)
    requires w in s.busy
  {
    var job := s.busy[w];
    && job.id in s.log
    && job.id in s.rows
    && s.log[job.id].holder == HeldBy(w)
    && s.rows[job.id].attempts == job.attempts
    && PhaseOk(job, s.log[job.id])
  }

  ghost predicate Inv(s: System) {
    && s.nextId >= 1
    && (forall id :: id in s.log ==> 1 <= id < s.nextId && IdOk(s, id))
    && (forall id :: 1 <= id < s.nextId ==> id in s.log)
    && (forall id :: id in s.rows ==> id in s.log)
    && (forall w :: w in s.busy ==> JobOk(s, w))
  }

  lemma InvEnqueue(s: System, now: int, poison: bool)
    requires Inv(s)
    ensures Inv(Apply(s, Enqueue(now, poison)))
  {
    var s' := Apply(s, Enqueue(now, poison));
    forall id | id in s'.log ensures IdOk(s', id) {
      assert id != s.nextId ==> IdOk(s, id);
    }
    forall w | w in s'.busy ensures JobOk(s', w) {
      assert JobOk(s, w);
    }
  }

  /** A step that touches one issued id and at most one worker only has to be checked there. */
  lemma InvLocal(s: System, s': System, id: nat, w: nat)
    requires Inv(s) && id in s.log
    requires s'.nextId == s.nextId
    requires s'.log.Keys == s.log.Keys && forall j :: j in s.log && j != id ==> s'.log[j] == s.log[j]
    requires forall j :: j != id ==> (j in s.rows <==> j in s'.rows) && (j in s.rows ==> s'.rows[j] == s.rows[j])
    requires forall v :: v != w ==> (v in s.busy <==> v in s'.busy) && (v in s.busy ==> s'.busy[v] == s.busy[v])
    requires s.log[id].holder in {Nobody, HeldBy(w)}
    requires w in s.busy ==> s.busy[w].id == id
    requires IdOk(s', id)
    requires w in s'.busy ==> JobOk(s', w)
    ensures Inv(s')
  {
    forall j | j in s'.log ensures IdOk(s', j) {
      assert IdOk(s, j);
    }
    forall v | v in s'.busy ensures JobOk(s', v) {
      assert v != w ==> JobOk(s, v);
    }
  }

  lemma InvClaim(s: System, w: nat, now: int, id: nat)
    requires Inv(s) && Enabled(s, Claim(w, now, id))
    ensures Inv(Apply(s, Claim(w, now, id)))
  {
    assert IdOk(s, id);
    InvLocal(s, Apply(s, Claim(w, now, id)), id, w);
  }

  lemma InvQuarantine(s: System, now: int, id: nat)
    requires Inv(s) && Enabled(s, Quarantine(now, id))
    ensures Inv(Apply(s, Quarantine(now, id)))
  {
    var s' := Apply(s, Quarantine(now, id));
    assert IdOk(s, id);
    forall j | j in s'.log ensures IdOk(s', j) {
      assert IdOk(s, j);
    }
    forall w | w in s'.busy ensures JobOk(s', w) {
      assert JobOk(s, w);
    }
  }

  lemma InvDecide(s: System, e: Event)
    requires Inv(s) && Enabled(s, e) && (e.RejectUrl? || e.HeaderOom? || e.Abort? || e.Post?)
    ensures Inv(Apply(s, e))
  {
    assert JobOk(s, e.w) && IdOk(s, s.busy[e.w].id);
    InvLocal(s, Apply(s, e), s.busy[e.w].id, e.w);
  }

  lemma InvEnd(s: System, e: Event)
    requires Inv(s) && Enabled(s, e) && (e.FollowUp? || e.Rollback?)
    ensures Inv(Apply(s, e))
  {
    assert JobOk(s, e.w) && IdOk(s, s.busy[e.w].id);
    InvLocal(s, Apply(s, e), s.busy[e.w].id, e.w);
  }

  /** What every step keeps. */
  lemma InvStep(s: System, e: Event)
    requires Inv(s) && Enabled(s, e)
    ensures Inv(Apply(s, e))
  {
    match e
    case Enqueue(now, poison) => InvEnqueue(s, now, poison);
    case NoClaim(_) =>
    case Quarantine(now, id) => InvQuarantine(s, now, id);
    case Claim(w, now, id) => InvClaim(s, w, now, id);
    case RejectUrl(_) => InvDecide(s, e);
    case HeaderOom(_) => InvDecide(s, e);
    case Abort(_) => InvDecide(s, e);
    case Post(_, _) => InvDecide(s, e);
    case FollowUp(_, _, _) => InvEnd(s, e);
    case Rollback(_) => InvEnd(s, e);
  }

  lemma {:induction false} InvRun(s: System, es: seq<Event>)
    requires Inv(s) && ValidRun(s, es)
    ensures Inv(Run(s, es))
    decreases |es|
  {
    if es != [] {
      InvStep(s, es[0]);
      InvRun(Apply(s, es[0]), es[1..]);
    }
  }
}
