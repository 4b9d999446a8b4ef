/**
 What an acquire does, in the terms of the replies of the token endpoint, the clock and the
 config.
 */
module TokenOutcomes {
  import opened Wrappers
  import opened Backoff
  import opened TokenCache

  // ----- one reply ----------------------------------------------------------------------

  /** "bearer" in upper or lower case, letter by letter. */
  predicate IsBearer(s: string) {
    && |s| == 6
    && (s[0] == 'b' || s[0] == 'B') && (s[1] == 'e' || s[1] == 'E') && (s[2] == 'a' || s[2] == 'A')
    && (s[3] == 'r' || s[3] == 'R') && (s[4] == 'e' || s[4] == 'E') && (s[5] == 'r' || s[5] == 'R')
  }

  function Lower(c: char): char { if 'A' <= c <= 'Z' then c - 'A' + 'a' else c }

  lemma {:induction false} LowerByLetter(s: string)
    ensures |LowerAscii(s)| == |s| && forall i :: 0 <= i < |s| ==> LowerAscii(s)[i] == Lower(s[i])
  {
    if s != "" {
      LowerByLetter(s[1..]);
    }
  }

  lemma LowerIs(c: char, d: char)
    requires 'a' <= d <= 'z'
    ensures Lower(c) == d <==> c == d || c == d - 'a' + 'A'
  {
  }

  lemma BearerInAnyCase(s: string)
    ensures LowerAscii(s) == "bearer" <==> IsBearer(s)
  {
    LowerByLetter(s);
    if |s| == 6 {
      LowerIs(s[0], 'b');
      LowerIs(s[1], 'e');
      LowerIs(s[2], 'a');
      LowerIs(s[3], 'r');
      LowerIs(s[4], 'e');
      LowerIs(s[5], 'r');
      var low := LowerAscii(s);
      assert low == [low[0], low[1], low[2], low[3], low[4], low[5]];
    } else {
      assert |"bearer"| == 6;
    }
  }

  /** A try that is worth another: the request could not be built, the endpoint could not be reached, or it
      answered 429 or 5xx. */
  predicate Transient(reply: Reply) {
    match reply
    case FormOom => true
    case TransportFailed => true
    case Answer(status, _, _) => status == 429 || 500 <= status <= 599
  }

  /** The expiry of a token response: the earlier of its lifetime and its exp claim, neither later than max_ttl from
      now; none without either, or for a claim sixty seconds or more in the past. */
  predicate IsExpiry(cfg: Config, body: TokenBody, now: int, expiry: int) {
    var limit := now + cfg.maxTtl as int;
    var lifetime := body.expiresIn.Some? && body.expiresIn.value > 0;
    && (body.exp.Some? ==> body.exp.value > now - 60)
    && (|| (lifetime && expiry == Min(now + body.expiresIn.value, limit))
        || (body.exp.Some? && expiry == Min(body.exp.value, limit)))
    && (lifetime ==> expiry <= Min(now + body.expiresIn.value, limit))
    && (body.exp.Some? ==> expiry <= Min(body.exp.value, limit))
  }

  /** The reply grants a token: 200 with a body, no error in it, a token of type bearer and an expiry. */
  predicate Gives(cfg: Config, reply: Reply, token: string, expiry: int) {
    && reply.Answer? && reply.status == 200 && reply.body.Some?
    && var b := reply.body.value;
       && (b.error.None? || b.error.value == "")
       && b.accessToken == Some(token) && token != ""
       && b.tokenType.Some? && IsBearer(b.tokenType.value)
       && IsExpiry(cfg, b, reply.now, expiry)
  }

  lemma ExpiryIs(cfg: Config, body: TokenBody, now: int, expiry: int)
    requires cfg.Valid()
    ensures ResolveExpiry(cfg, body, now) == Some(expiry) <==> IsExpiry(cfg, body, now, expiry)
  {
    var r := ResolveExpiry(cfg, body, now);
    var c := Candidates(cfg, body, now);
    if IsExpiry(cfg, body, now, expiry) {
      assert expiry in c;
      assert r.Some?;
      assert r.value <= expiry <= r.value;
    }
  }

  /** The three outcomes of a try, by its reply. */
  lemma ReplyMeans(cfg: Config, reply: Reply, token: string, expiry: int)
    requires cfg.Valid()
    ensures Classify(cfg, reply).Retriable? <==> Transient(reply)
    ensures Classify(cfg, reply) == Granted(token, expiry) <==> Gives(cfg, reply, token, expiry)
  {
    if reply.Answer? && reply.body.Some? {
      ExpiryIs(cfg, reply.body.value, reply.now, expiry);
      if reply.body.value.tokenType.Some? {
        BearerInAnyCase(reply.body.value.tokenType.value);
      }
    }
  }

  // ----- one acquire --------------------------------------------------------------------

  /** The cached token is served: there is one, and it outlives the refresh buffer. */
  predicate Cached(cfg: Config, st: State, now: int) {
    st.token.Some? && now + cfg.refreshBuffer as int < st.expiry
  }

  /** There is another try after try i: the first i + 1 replies were all transient, and tries are left. */
  predicate TriesAgain(cfg: Config, replies: seq<Reply>, i: nat)
    requires |replies| >= cfg.maxAttempts as int
  {
    i + 1 < cfg.maxAttempts as int && forall j :: 0 <= j <= i ==> Transient(replies[j])
  }

  /** The tries whose request was sent. */
  function Posted(replies: seq<Reply>, n: nat): set<nat>
    requires n <= |replies|
  {
    set i: nat | i < n && !replies[i].FormOom?
  }

  lemma {:induction false} PostCountIs(replies: seq<Reply>, n: nat)
    requires n <= |replies|
    ensures PostCount(replies[..n]) == |Posted(replies, n)|
  {
    if n > 0 {
      PostCountIs(replies, n - 1);
      PostCountGrows(replies, n - 1);
      if replies[n - 1].FormOom? {
        assert Posted(replies, n) == Posted(replies, n - 1);
      } else {
        assert Posted(replies, n) == Posted(replies, n - 1) + {n - 1};
      }
    } else {
      assert Posted(replies, 0) == {};
    }
  }

  /** An acquire that finds a token to serve does nothing else. */
  lemma ServesFromCache(cfg: Config, st: State, call: Call)
    requires cfg.Valid() && Answers(cfg, call) && Cached(cfg, st, call.now)
    ensures var eff := AcquireSpec(cfg, st, call);
      && eff.state == st && eff.posts == 0 && eff.sleeps == []
      && eff.bearer == if call.copyOom then None else st.token
  {
  }

  /** An acquire that finds none sleeps after a try exactly when there is another one, min(base * 2^i, max) before
      retry i, and ends as its last reply says: no token after a transient one; the granted token, cached and
      handed out; or a dead letter. */
  lemma RefreshesOnce(cfg: Config, st: State, call: Call)
    requires cfg.Valid() && Answers(cfg, call) && !Cached(cfg, st, call.now)
    ensures var eff := AcquireSpec(cfg, st, call);
      && |eff.sleeps| < cfg.maxAttempts as int
      && (forall i: nat :: i < |eff.sleeps| <==> TriesAgain(cfg, call.replies, i))
      && (forall i :: 0 <= i < |eff.sleeps| ==>
            eff.sleeps[i] == Min(cfg.backoffBase as int * Pow2(i), cfg.backoffMax as int))
      && eff.posts == |Posted(call.replies, |eff.sleeps| + 1)|
      && eff.state.retries == (st.retries + |eff.sleeps|) % 0x1_0000_0000
      && EndsAs(cfg, st, call, eff, call.replies[|eff.sleeps|])
  {
    var n := cfg.maxAttempts as nat;
    var k := FirstFinal(cfg, call.replies, 0, n);
    var eff := AcquireSpec(cfg, st, call);
    var m := |eff.sleeps|;
    forall j | 0 <= j < n ensures Classify(cfg, call.replies[j]).Retriable? <==> Transient(call.replies[j]) {
      ReplyMeans(cfg, call.replies[j], "", 0);
    }
    PostCountIs(call.replies, m + 1);
    forall i: nat ensures i < m <==> TriesAgain(cfg, call.replies, i) {
      if i >= m && i + 1 < n {
        assert k <= i && !Transient(call.replies[k]);
      }
    }
    LastReplyEnds(cfg, st, call);
  }

  ghost predicate EndsAs(cfg: Config, st: State, call: Call, eff: Effect, last: Reply) {
    if Transient(last) then
      eff.bearer.None? && SameCache(st, eff.state) && eff.state.deadLetters == st.deadLetters
    else if exists token, expiry :: Gives(cfg, last, token, expiry) then
      && eff.state.token.Some? && Gives(cfg, last, eff.state.token.value, eff.state.expiry)
      && eff.state.obtainedAt == last.now && eff.state.deadLetters == st.deadLetters
      && eff.bearer == if call.copyOom then None else eff.state.token
    else
      eff.bearer.None? && SameCache(st, eff.state) && eff.state.deadLetters == (st.deadLetters + 1) % 0x1_0000_0000
  }

  predicate SameCache(a: State, b: State) { a.token == b.token && a.expiry == b.expiry && a.obtainedAt == b.obtainedAt }

  lemma LastReplyEnds(cfg: Config, st: State, call: Call)
    requires cfg.Valid() && Answers(cfg, call) && !Cached(cfg, st, call.now)
    ensures var eff := AcquireSpec(cfg, st, call);
      |eff.sleeps| < |call.replies| && EndsAs(cfg, st, call, eff, call.replies[|eff.sleeps|])
  {
    var n := cfg.maxAttempts as nat;
    var k := FirstFinal(cfg, call.replies, 0, n);
    var last := call.replies[Min(k, n - 1)];
    ReplyMeans(cfg, last, "", 0);
    var o := Classify(cfg, last);
    if o.Granted? {
      ReplyMeans(cfg, last, o.token, o.expiry);
    } else if token, expiry :| Gives(cfg, last, token, expiry) {
      ReplyMeans(cfg, last, token, expiry);
    }
  }
}
