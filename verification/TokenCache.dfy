/**
 The outbound OAuth2 token cache: one cached bearer, a bounded retry loop over token
 POSTs with a three-way outcome, and the expiry arithmetic.

 The environment of one acquire (clock, replies of the token endpoint, a failed copy) is
 a `Call`; `AcquireSpec` says what an acquire does, `TokenCache.Acquire` is the loop.
 */
module TokenCache {
  import opened Wrappers
  import opened Backoff

  const CLOCK_SKEW_LEEWAY_S := 60
  const COUNTER_MODULUS := 0x1_0000_0000

  /** The owned config, after zero fields took their defaults. */
  datatype Config = Config(refreshBuffer: uint32, maxTtl: uint32, maxAttempts: uint32,
                           backoffBase: uint32, backoffMax: uint32) {
    predicate Valid() {
      refreshBuffer >= 1 && maxTtl >= 1 && maxAttempts >= 1 && backoffBase >= 1 && backoffMax >= 1
    }
  }

  /** The fields the client reads from a token response; `exp` is the JWS claim of the token. */
  datatype TokenBody = TokenBody(error: Option<string>, accessToken: Option<string>, tokenType: Option<string>,
                                 expiresIn: Option<int>, exp: Option<int>)

  datatype Reply =
    | FormOom                                   // the request body could not be built: no POST
    | TransportFailed
    | Answer(status: int, body: Option<TokenBody>, now: int)

  datatype Outcome = Granted(token: string, expiry: int) | Retriable | Refused

  // ----- expiry -------------------------------------------------------------------------

  function CappedTtl(cfg: Config, body: TokenBody, now: int): Option<int> {
    if body.expiresIn.Some? && body.expiresIn.value > 0 then Some(now + Min(body.expiresIn.value, cfg.maxTtl as int))
    else None
  }

  /** The expiries a response offers, each cut at max_ttl from now. */
  function Candidates(cfg: Config, body: TokenBody, now: int): set<int> {
    var limit := now + cfg.maxTtl as int;
    (if body.expiresIn.Some? && body.expiresIn.value > 0 then {Min(now + body.expiresIn.value, limit)} else {})
    + (if body.exp.Some? then {Min(body.exp.value, limit)} else {})
  }

  /** resolve_expiry: the expiry is the least candidate; a token is refused exactly when there
      is no candidate or its exp lies 60 seconds or more in the past. */
  function ResolveExpiry(cfg: Config, body: TokenBody, now: int): (r: Option<int>)
    requires cfg.Valid()
    ensures r.None? <==>
      Candidates(cfg, body, now) == {} || (body.exp.Some? && body.exp.value <= now - CLOCK_SKEW_LEEWAY_S)
    ensures r.Some? ==> r.value in Candidates(cfg, body, now)
    ensures r.Some? ==> forall x :: x in Candidates(cfg, body, now) ==> r.value <= x
    ensures r.Some? ==> now - CLOCK_SKEW_LEEWAY_S < r.value <= now + cfg.maxTtl as int
  {
    var fromTtl := CappedTtl(cfg, body, now);
    if body.exp.None? then fromTtl
    else if body.exp.value <= now - CLOCK_SKEW_LEEWAY_S then None
    else
      var maxFromNow := now + cfg.maxTtl as int;
      var expCapped := if body.exp.value > maxFromNow then maxFromNow else body.exp.value;
      if fromTtl.None? || expCapped < fromTtl.value then Some(expCapped) else fromTtl
  }

  // ----- one POST -----------------------------------------------------------------------

  function LowerAscii(s: string): string {
    if s == "" then "" else [if 'A' <= s[0] <= 'Z' then s[0] - 'A' + 'a' else s[0]] + LowerAscii(s[1..])
  }

  predicate NonEmpty(s: Option<string>) { s.Some? && s.value != "" }

  /** refresh_locked: what one try comes to. */
  function Classify(cfg: Config, reply: Reply): (o: Outcome)
    requires cfg.Valid()
    ensures o.Granted? ==> reply.Answer? && reply.now - CLOCK_SKEW_LEEWAY_S < o.expiry <= reply.now + cfg.maxTtl as int
  {
    match reply
    case FormOom => Retriable
    case TransportFailed => Retriable
    case Answer(status, body, now) =>
      if status != 200 || body.None? then
        if status == 429 || 500 <= status <= 599 then Retriable else Refused
      else if NonEmpty(body.value.error) then Refused
      else if NonEmpty(body.value.accessToken) && body.value.tokenType.Some?
              && LowerAscii(body.value.tokenType.value) == "bearer" then
        var expiry := ResolveExpiry(cfg, body.value, now);
        if expiry.Some? then Granted(body.value.accessToken.value, expiry.value) else Refused
      else Refused
  }

  // ----- one acquire --------------------------------------------------------------------

  /** `obtainedAt` is the clock reading of the refresh that filled the cache (history only). */
  datatype State = State(token: Option<string>, expiry: int, obtainedAt: int, retries: nat, deadLetters: nat)

  const Empty := State(None, 0, 0, 0, 0)

  datatype Call = Call(now: int, replies: seq<Reply>, copyOom: bool)

  datatype Effect = Effect(state: State, bearer: Option<string>, posts: nat, sleeps: seq<nat>)

  /** The environment has an answer for every try the config allows. */
  predicate Answers(cfg: Config, call: Call) {
    |call.replies| >= cfg.maxAttempts as int
  }

  predicate FreshAt(cfg: Config, st: State, now: int) {
    st.token.Some? && now + cfg.refreshBuffer as int < st.expiry
  }

  /** The first try at or after i that ends the loop, or n when all are retriable. */
  function FirstFinal(cfg: Config, replies: seq<Reply>, i: nat, n: nat): (k: nat)
    requires cfg.Valid() && i <= n <= |replies|
    ensures i <= k <= n
    ensures k < n ==> !Classify(cfg, replies[k]).Retriable?
    ensures forall j :: i <= j < k ==> Classify(cfg, replies[j]).Retriable?
    decreases n - i
  {
    if i == n || !Classify(cfg, replies[i]).Retriable? then i else FirstFinal(cfg, replies, i + 1, n)
  }

  function PostCount(replies: seq<Reply>): nat {
    if replies == [] then 0
    else PostCount(replies[..|replies| - 1]) + (if replies[|replies| - 1].FormOom? then 0 else 1)
  }

  /** The delays before the first n retries. */
  function Schedule(cfg: Config, n: nat): seq<nat> {
    seq(n, i requires 0 <= i => Capped(cfg.backoffBase as nat, i, cfg.backoffMax as nat))
  }

  function Stored(st: State, token: string, expiry: int, now: int): State {
    st.(token := Some(token), expiry := expiry, obtainedAt := now)
  }

  /** The retry loop of an acquire that found no fresh token. */
  function RefreshSpec(cfg: Config, st: State, replies: seq<Reply>): Effect
    requires cfg.Valid() && |replies| >= cfg.maxAttempts as int
  {
    var n := cfg.maxAttempts as nat;
    var k := FirstFinal(cfg, replies, 0, n);
    var sleeps := Schedule(cfg, Min(k, n - 1));
    var posts := PostCount(replies[..Min(k + 1, n)]);
    var st1 := st.(retries := (st.retries + |sleeps|) % COUNTER_MODULUS);
    if k == n then Effect(st1, None, posts, sleeps)
    else match Classify(cfg, replies[k])
      case Granted(token, expiry) => Effect(Stored(st1, token, expiry, replies[k].now), Some(token), posts, sleeps)
      case _ => Effect(st1.(deadLetters := (st.deadLetters + 1) % COUNTER_MODULUS), None, posts, sleeps)
  }

  function AcquireSpec(cfg: Config, st: State, call: Call): Effect
    requires cfg.Valid() && Answers(cfg, call)
  {
    var eff := if FreshAt(cfg, st, call.now) then Effect(st, st.token, 0, []) else RefreshSpec(cfg, st, call.replies);
    if call.copyOom then eff.(bearer := None) else eff
  }

  lemma ScheduleGrows(cfg: Config, n: nat)
    ensures Schedule(cfg, n + 1) == Schedule(cfg, n) + [Capped(cfg.backoffBase as nat, n, cfg.backoffMax as nat)]
  {
  }

  lemma PostCountGrows(replies: seq<Reply>, i: nat)
    requires i < |replies|
    ensures PostCount(replies[..i + 1]) == PostCount(replies[..i]) + (if replies[i].FormOom? then 0 else 1)
  {
    assert replies[..i + 1][..i] == replies[..i];
  }

  lemma CounterStep(c: nat, n: nat)
    ensures ((c + n) % COUNTER_MODULUS + 1) % COUNTER_MODULUS == (c + (n + 1)) % COUNTER_MODULUS
  {
  }

  class TokenCache {
    const cfg: Config
    var token: Option<string>
    var expiry: int
    var retryCount: uint32
    var deadLetterCount: uint32
    ghost var obtainedAt: int

    ghost function Value(): State
      reads this
    {
      State(token, expiry, obtainedAt, retryCount as nat, deadLetterCount as nat)
    }

    constructor (cfg: Config)
      requires cfg.Valid()
      ensures this.cfg == cfg && Value() == Empty
    {
      this.cfg := cfg;
      token, expiry, retryCount, deadLetterCount, obtainedAt := None, 0, 0, 0, 0;
    }

    /** The cache part of refresh_locked: only a granted token touches the cache. */
    method Refresh(reply: Reply) returns (outcome: Outcome)
      requires cfg.Valid()
      modifies this`token, this`expiry, this`obtainedAt
      ensures outcome == Classify(cfg, reply)
      ensures outcome.Granted? ==> Value() == Stored(old(Value()), outcome.token, outcome.expiry, reply.now)
      ensures !outcome.Granted? ==> Value() == old(Value())
    {
      outcome := Classify(cfg, reply);
      if outcome.Granted? {
        token := Some(outcome.token);
        expiry := outcome.expiry;
        obtainedAt := reply.now;
      }
    }

    /** The bounded retry loop of acquire_owned_copy_locked. */
    method RefreshWithRetry(replies: seq<Reply>) returns (bearer: Option<string>, posts: nat, sleeps: seq<nat>)
      requires cfg.Valid() && |replies| >= cfg.maxAttempts as int
      modifies this
      ensures Effect(Value(), bearer, posts, sleeps) == RefreshSpec(cfg, old(Value()), replies)
    {
      ghost var n := cfg.maxAttempts as nat;
      ghost var st := Value();
      bearer, posts, sleeps := None, 0, [];
      var attempt: uint32 := 0;
      while attempt < cfg.maxAttempts
        invariant attempt <= cfg.maxAttempts
        invariant |sleeps| == Min(attempt as int, n - 1) && sleeps == Schedule(cfg, |sleeps|)
        invariant posts == PostCount(replies[..attempt])
        invariant Value() == st.(retries := (st.retries + |sleeps|) % COUNTER_MODULUS)
        invariant FirstFinal(cfg, replies, 0, n) == FirstFinal(cfg, replies, attempt as nat, n)
      {
        var outcome := Refresh(replies[attempt]);
        PostCountGrows(replies, attempt as nat);
        posts := posts + (if replies[attempt].FormOom? then 0 else 1);
        if outcome.Granted? {
          return token, posts, sleeps;
        }
        if outcome.Refused? {
          deadLetterCount := ((deadLetterCount as int + 1) % COUNTER_MODULUS) as uint32;
          return None, posts, sleeps;
        }
        if attempt as int + 1 < cfg.maxAttempts as int {
          var delay := ComputeTokenDelay(cfg.backoffBase, cfg.backoffMax, attempt);
          CounterStep(st.retries, |sleeps|);
          ScheduleGrows(cfg, |sleeps|);
          retryCount := ((retryCount as int + 1) % COUNTER_MODULUS) as uint32;
          sleeps := sleeps + [delay as nat];
        }
        attempt := attempt + 1;
      }
    }

    /** acquire_owned_copy_locked. */
    method Acquire(call: Call) returns (bearer: Option<string>, posts: nat, sleeps: seq<nat>)
      requires cfg.Valid() && Answers(cfg, call)
      modifies this
      ensures Effect(Value(), bearer, posts, sleeps) == AcquireSpec(cfg, old(Value()), call)
    {
      if token.None? || call.now + cfg.refreshBuffer as int >= expiry {
        bearer, posts, sleeps := RefreshWithRetry(call.replies);
      } else {
        bearer, posts, sleeps := token, 0, [];
      }
      if call.copyOom {
        bearer := None;
      }
    }
  }

  // ----- properties of every acquire ----------------------------------------------------

  lemma {:induction false} PostCountBound(replies: seq<Reply>)
    ensures PostCount(replies) <= |replies|
    ensures forall i :: 0 <= i < |replies| && !replies[i].FormOom? ==> PostCount(replies) >= 1
  {
    if replies != [] {
      PostCountBound(replies[..|replies| - 1]);
      assert forall i :: 0 <= i < |replies| - 1 ==> replies[i] == replies[..|replies| - 1][i];
    }
  }

  /** The try that ended the loop with a token, if any. */
  predicate Grants(cfg: Config, st: State, call: Call)
    requires cfg.Valid() && Answers(cfg, call)
  {
    var k := FirstFinal(cfg, call.replies, 0, cfg.maxAttempts as nat);
    !FreshAt(cfg, st, call.now) && k < cfg.maxAttempts as nat && Classify(cfg, call.replies[k]).Granted?
  }

  predicate Refuses(cfg: Config, st: State, call: Call)
    requires cfg.Valid() && Answers(cfg, call)
  {
    var k := FirstFinal(cfg, call.replies, 0, cfg.maxAttempts as nat);
    !FreshAt(cfg, st, call.now) && k < cfg.maxAttempts as nat && Classify(cfg, call.replies[k]).Refused?
  }

  /** How many times the loop tries. */
  function Tries(cfg: Config, st: State, call: Call): nat
    requires cfg.Valid() && Answers(cfg, call)
  {
    if FreshAt(cfg, st, call.now) then 0
    else Min(FirstFinal(cfg, call.replies, 0, cfg.maxAttempts as nat) + 1, cfg.maxAttempts as nat)
  }

  /** At most max_attempts tries, each a POST unless its request could not be built; between two tries
      one sleep, and sleep i is exactly min(base * 2^i, max); both
      counters move by what happened; and the cache changes only when a token was granted. */
  lemma AcquireBounds(cfg: Config, st: State, call: Call)
    requires cfg.Valid() && Answers(cfg, call)
    ensures var eff := AcquireSpec(cfg, st, call);
      && eff.posts == PostCount(call.replies[..Tries(cfg, st, call)]) <= Tries(cfg, st, call) <= cfg.maxAttempts as int
      && |eff.sleeps| == Max(Tries(cfg, st, call) - 1, 0)
      && (forall i :: 0 <= i < |eff.sleeps| ==>
            eff.sleeps[i] == Min(cfg.backoffBase as int * Pow2(i), cfg.backoffMax as int))
      && (st.retries < COUNTER_MODULUS ==> eff.state.retries == (st.retries + |eff.sleeps|) % COUNTER_MODULUS)
      && (Refuses(cfg, st, call) ==> eff.state.deadLetters == (st.deadLetters + 1) % COUNTER_MODULUS)
      && (!Refuses(cfg, st, call) ==> eff.state.deadLetters == st.deadLetters)
      && (!Grants(cfg, st, call) ==> eff.state.token == st.token && eff.state.expiry == st.expiry)
      && (eff.bearer.Some? <==> !call.copyOom && (FreshAt(cfg, st, call.now) || Grants(cfg, st, call)))
  {
    if !FreshAt(cfg, st, call.now) {
      var n := cfg.maxAttempts as nat;
      var k := FirstFinal(cfg, call.replies, 0, n);
      PostCountBound(call.replies[..Min(k + 1, n)]);
    }
  }

  /** A failed acquire leaves the cache as it was if and only if it was granted no token, or the very token and
      expiry that the cache held; a grant shows in the cache although the copy handed out failed. */
  lemma FailureLeavesCache(cfg: Config, st: State, call: Call)
    requires cfg.Valid() && Answers(cfg, call) && AcquireSpec(cfg, st, call).bearer.None?
    ensures var after := AcquireSpec(cfg, st, call).state;
      && (after.token == st.token && after.expiry == st.expiry <==>
            !(call.copyOom && Grants(cfg, st, call))
            || (st.token.Some? && GrantOf(cfg, call) == Granted(st.token.value, st.expiry)))
      && (call.copyOom && Grants(cfg, st, call) ==>
            after.token.Some? && GrantOf(cfg, call) == Granted(after.token.value, after.expiry))
  {
    AcquireBounds(cfg, st, call);
  }

  /** The outcome of the try that ends the loop. */
  function GrantOf(cfg: Config, call: Call): Outcome
    requires cfg.Valid() && Answers(cfg, call)
    requires FirstFinal(cfg, call.replies, 0, cfg.maxAttempts as nat) < cfg.maxAttempts as nat
  {
    Classify(cfg, call.replies[FirstFinal(cfg, call.replies, 0, cfg.maxAttempts as nat)])
  }

  function GrantingReply(token: string): Reply {
    Answer(200, Some(TokenBody(None, Some(token), Some("bearer"), Some(1), None)), 0)
  }

  /** The exception happens, whatever the config: an acquire on the empty cache fails and leaves a token behind. */
  lemma FailureFillsCache(cfg: Config, token: string)
    requires cfg.Valid() && token != ""
    ensures var eff := AcquireSpec(cfg, Empty, Call(0, seq(cfg.maxAttempts as nat, i => GrantingReply(token)), true));
      eff.bearer.None? && Empty.token.None? && eff.state.token == Some(token)
  {
    assert LowerAscii("bearer") == "bearer";
    assert Classify(cfg, GrantingReply(token)).Granted?;
  }

  // ----- properties of every run --------------------------------------------------------

  predicate AllAnswer(cfg: Config, calls: seq<Call>) {
    forall i :: 0 <= i < |calls| ==> Answers(cfg, calls[i])
  }

  function RunCalls(cfg: Config, calls: seq<Call>): State
    requires cfg.Valid() && AllAnswer(cfg, calls)
  {
    if calls == [] then Empty
    else AcquireSpec(cfg, RunCalls(cfg, calls[..|calls| - 1]), calls[|calls| - 1]).state
  }

  /** The reply that granted what is in the cache. */
  predicate GrantedBy(cfg: Config, st: State, reply: Reply)
    requires cfg.Valid()
  {
    && reply.Answer?
    && reply.now == st.obtainedAt
    && st.token.Some?
    && Classify(cfg, reply) == Granted(st.token.value, st.expiry)
  }

  /** Whatever the cache holds was granted, with that expiry, by a reply of some earlier call. */
  lemma {:induction false} CacheProvenance(cfg: Config, calls: seq<Call>)
    requires cfg.Valid() && AllAnswer(cfg, calls)
    ensures var st := RunCalls(cfg, calls);
      st.token.Some? ==>
        exists i, j :: 0 <= i < |calls| && 0 <= j < |calls[i].replies| && GrantedBy(cfg, st, calls[i].replies[j])
  {
    var st := RunCalls(cfg, calls);
    if calls != [] && st.token.Some? {
      var m := |calls| - 1;
      var rest := calls[..m];
      CacheProvenance(cfg, rest);
      var before := RunCalls(cfg, rest);
      if Grants(cfg, before, calls[m]) {
        var k := FirstFinal(cfg, calls[m].replies, 0, cfg.maxAttempts as nat);
        assert GrantedBy(cfg, st, calls[m].replies[k]);
      } else {
        assert st.token == before.token && st.expiry == before.expiry && st.obtainedAt == before.obtainedAt;
        var i, j :| 0 <= i < |rest| && 0 <= j < |rest[i].replies| && GrantedBy(cfg, before, rest[i].replies[j]);
        assert GrantedBy(cfg, st, calls[i].replies[j]);
      }
    }
  }

  /** Over every run: a bearer served without a token POST was obtained less than
      max_ttl - refresh_buffer seconds earlier, and one served after a POST was not expired by
      more than the leeway when it was obtained. */
  lemma ServedBearerIsFresh(cfg: Config, calls: seq<Call>, call: Call)
    requires cfg.Valid() && AllAnswer(cfg, calls) && Answers(cfg, call)
    ensures var st := RunCalls(cfg, calls);
      var eff := AcquireSpec(cfg, st, call);
      eff.bearer.Some? ==>
        if eff.posts == 0 then
          && eff.bearer == st.token
          && call.now - st.obtainedAt < cfg.maxTtl as int - cfg.refreshBuffer as int
        else
          && eff.bearer == eff.state.token
          && eff.state.obtainedAt - CLOCK_SKEW_LEEWAY_S < eff.state.expiry <= eff.state.obtainedAt + cfg.maxTtl as int
  {
    var st := RunCalls(cfg, calls);
    CacheProvenance(cfg, calls);
    AcquireBounds(cfg, st, call);
    if Grants(cfg, st, call) {
      var n := cfg.maxAttempts as nat;
      var k := FirstFinal(cfg, call.replies, 0, n);
      var made := call.replies[..Min(k + 1, n)];
      PostCountBound(made);
      assert !made[k].FormOom?;
    }
  }
}
