/**
 How the dispatcher and the token cache meet: build_headers acquires a bearer and attaches
 it, and a failed acquire forbids the POST.

 The joint system runs the retry queue and the token cache together: a worker that builds
 headers makes an acquire on the shared cache, and later acts on what came of it: POST,
 abort or re-arm. Any worker can do anything between the two.
 */
module OutboundHeaders {
  import opened Wrappers
  import opened RetryQueue
  import opened RetryTheorems
  import opened RetryStore
  import T = TokenCache

  /** A dispatcher has no OAuth2 handle, a disabled one, or an enabled one. */
  datatype Oauth = NoHandle | Disabled | Active(cfg: T.Config)

  /** What the environment answers while headers are built. */
  datatype HeaderEnv = HeaderEnv(correlation: seq<string>, listOom: bool, call: T.Call, lineOom: bool)

  datatype Headers = Headers(build: HeaderBuild, lines: seq<string>, cache: T.State)

  predicate OauthOk(oauth: Oauth, h: HeaderEnv) {
    oauth.Active? ==> oauth.cfg.Valid() && T.Answers(oauth.cfg, h.call)
  }

  function AuthorizationLine(bearer: string): string { "Authorization: Bearer " + bearer }

  /** build_headers, with the cache it leaves behind. */
  function BuildHeaders(oauth: Oauth, cache: T.State, h: HeaderEnv): Headers
    requires OauthOk(oauth, h)
  {
    if h.listOom then Headers(BuildFailed, [], cache)
    else
      var lines := ["Content-Type: application/json"] + h.correlation;
      match oauth
      case NoHandle => Headers(Built, lines, cache)
      case Disabled => Headers(Built, lines, cache)
      case Active(cfg) =>
        var eff := T.AcquireSpec(cfg, cache, h.call);
        if eff.bearer.None? || h.lineOom then Headers(Aborted, [], eff.state)
        else Headers(Built, lines + [AuthorizationLine(eff.bearer.value)], eff.state)
  }

  /** What headers are made of: the content type, the correlation headers and, with an enabled handle, the bearer
      that was acquired. Without a list there is no acquire; without a bearer or its line there are no headers. */
  lemma HeadersAre(oauth: Oauth, cache: T.State, h: HeaderEnv)
    requires OauthOk(oauth, h)
    ensures var b, plain := BuildHeaders(oauth, cache, h), ["Content-Type: application/json"] + h.correlation;
      if h.listOom then b.build == BuildFailed && b.cache == cache
      else if !oauth.Active? then b == Headers(Built, plain, cache)
      else
        var eff := T.AcquireSpec(oauth.cfg, cache, h.call);
        && b.cache == eff.state
        && (if eff.bearer.Some? && !h.lineOom then
              b.build == Built && b.lines == plain + ["Authorization: Bearer " + eff.bearer.value]
            else b.build == Aborted)
  {
  }

  /** build_headers of an enabled dispatcher, over the token cache itself. */
  method Build(cache: T.TokenCache, h: HeaderEnv) returns (build: HeaderBuild, lines: seq<string>)
    requires OauthOk(Active(cache.cfg), h)
    modifies cache
    ensures Headers(build, lines, cache.Value()) == BuildHeaders(Active(cache.cfg), old(cache.Value()), h)
  {
    if h.listOom {
      return BuildFailed, [];
    }
    lines := ["Content-Type: application/json"];
    lines := lines + h.correlation;
    var bearer, _, _ := cache.Acquire(h.call);
    if bearer.None? || h.lineOom {
      return Aborted, [];
    }
    build, lines := Built, lines + [AuthorizationLine(bearer.value)];
  }

  // ----- the bearer of a POST -----------------------------------------------------------

  /** The lines carry the bearer that the last of these acquires gave, and that bearer is fresh: served
      from the cache less than max_ttl - refresh_buffer seconds after it was obtained, or just granted. */
  ghost predicate Authorized(cfg: T.Config, calls: seq<T.Call>, call: T.Call, lines: seq<string>)
    requires cfg.Valid() && T.AllAnswer(cfg, calls) && T.Answers(cfg, call)
  {
    var before := T.RunCalls(cfg, calls);
    var eff := T.AcquireSpec(cfg, before, call);
    && eff.bearer.Some?
    && AuthorizationLine(eff.bearer.value) in lines
    && if eff.posts == 0 then
         eff.bearer == before.token && call.now - before.obtainedAt < cfg.maxTtl as int - cfg.refreshBuffer as int
       else
         eff.bearer == eff.state.token && eff.state.obtainedAt - T.CLOCK_SKEW_LEEWAY_S < eff.state.expiry
  }

  /** Headers that are built over a reachable cache are authorized. */
  lemma BuiltIsAuthorized(cfg: T.Config, calls: seq<T.Call>, h: HeaderEnv)
    requires cfg.Valid() && T.AllAnswer(cfg, calls) && T.Answers(cfg, h.call)
    requires BuildHeaders(Active(cfg), T.RunCalls(cfg, calls), h).build.Built?
    ensures Authorized(cfg, calls, h.call, BuildHeaders(Active(cfg), T.RunCalls(cfg, calls), h).lines)
  {
    T.ServedBearerIsFresh(cfg, calls, h.call);
    var b := BuildHeaders(Active(cfg), T.RunCalls(cfg, calls), h);
    assert b.lines[|b.lines| - 1] == AuthorizationLine(T.AcquireSpec(cfg, T.RunCalls(cfg, calls), h.call).bearer.value);
  }

  /** The acquire, or the header line that would carry its bearer, fails. */
  predicate AcquireFails(cfg: T.Config, cache: T.State, h: HeaderEnv)
    requires cfg.Valid() && T.Answers(cfg, h.call)
  {
    !h.listOom && (T.AcquireSpec(cfg, cache, h.call).bearer.None? || h.lineOom)
  }

  /** One call of dispatch_pending over a reachable cache: a POST is authorized; and when the acquire for a
      claimed row fails, the row ends as dead letter and was not POSTed. */
  lemma NoUnauthenticatedPost(s: System, w: nat, env: Env, result: Result, trace: seq<Event>,
                              cfg: T.Config, calls: seq<T.Call>, h: HeaderEnv)
    requires Inv(s) && w !in s.busy && CallOutcome(s.rows, w, env, result, trace)
    requires cfg.Valid() && T.AllAnswer(cfg, calls) && T.Answers(cfg, h.call)
    requires env.headers == BuildHeaders(Active(cfg), T.RunCalls(cfg, calls), h).build
    ensures (exists i :: 0 <= i < |trace| && trace[i].Post?) ==>
      Authorized(cfg, calls, h.call, BuildHeaders(Active(cfg), T.RunCalls(cfg, calls), h).lines)
    ensures |trace| == 3 && env.urlAllowed && AcquireFails(cfg, T.RunCalls(cfg, calls), h) ==>
      && trace[0].Claim? && trace[0].id in s.rows && result == Forbidden
      && ValidRun(s, trace) && Dead(Run(s, trace), trace[0].id)
      && LogOf(Run(s, trace), trace[0].id).posts == LogOf(s, trace[0].id).posts
  {
    if env.headers.Built? {
      BuiltIsAuthorized(cfg, calls, h);
    }
    if |trace| == 3 && env.urlAllowed && AcquireFails(cfg, T.RunCalls(cfg, calls), h) {
      AbortedCall(s, w, env, trace[0].id);
    }
  }

  /** A call that claims a row and is refused a bearer. */
  lemma AbortedCall(s: System, w: nat, env: Env, id: nat)
    requires Enabled(s, Claim(w, env.claimTime, id)) && !env.readOom && env.urlAllowed && env.headers.Aborted?
    ensures var trace := [Claim(w, env.claimTime, id), Abort(w), FollowUp(w, env.endTime, env.draw)];
      ValidRun(s, trace) && Dead(Run(s, trace), id) && LogOf(Run(s, trace), id).posts == LogOf(s, id).posts
  {
    ServedCall(s, w, env, id);
  }

  // ----- the joint system ---------------------------------------------------------------

  /** Built headers that a worker has not acted on yet; `at` is the number of acquires before its own. */
  datatype Ready = Ready(build: HeaderBuild, lines: seq<string>, at: nat)

  /** A POST that went out: its row, its header lines and the number of acquires before its own. */
  datatype Message = Message(id: nat, lines: seq<string>, at: nat)

  /** `calls` and `sent` are history. */
  datatype Joint = Joint(sys: System, cache: T.State, ready: map<nat, Ready>, calls: seq<T.Call>, sent: seq<Message>)

  const Start := Joint(Init, T.Empty, map[], [], [])

  /** An event of the queue that has nothing to do with headers; a worker that builds headers; and a worker that acts
      on the headers it has built. */
  datatype Step = Plain(e: Event) | BuildStep(w: nat, h: HeaderEnv) | Act(w: nat, answer: Transport)

  ghost predicate StepEnabled(cfg: T.Config, j: Joint, step: Step) {
    match step
    case Plain(e) => Enabled(j.sys, e) && !e.HeaderOom? && !e.Abort? && !e.Post? && (e.RejectUrl? ==> e.w !in j.ready)
    case BuildStep(w, h) => Holds(j.sys, w, true) && w !in j.ready && T.Answers(cfg, h.call)
    case Act(w, _) => Holds(j.sys, w, true) && w in j.ready
  }

  function ActEvent(w: nat, build: HeaderBuild, answer: Transport): Event {
    match build
    case Built => Post(w, answer)
    case Aborted => Abort(w)
    case BuildFailed => HeaderOom(w)
  }

  ghost function StepApply(cfg: T.Config, j: Joint, step: Step): Joint
    requires cfg.Valid() && StepEnabled(cfg, j, step)
  {
    match step
    case Plain(e) => j.(sys := Apply(j.sys, e))
    case BuildStep(w, h) =>
      var b := BuildHeaders(Active(cfg), j.cache, h);
      j.(cache := b.cache, calls := if h.listOom then j.calls else j.calls + [h.call],
         ready := j.ready[w := Ready(b.build, b.lines, |j.calls|)])
    case Act(w, answer) =>
      var r := j.ready[w];
      j.(sys := Apply(j.sys, ActEvent(w, r.build, answer)), ready := j.ready - {w},
         sent := if r.build.Built? then j.sent + [Message(j.sys.busy[w].id, r.lines, r.at)] else j.sent)
  }

  ghost predicate JointValid(cfg: T.Config, j: Joint, steps: seq<Step>)
    requires cfg.Valid()
    decreases |steps|
  {
    steps == [] || (StepEnabled(cfg, j, steps[0]) && JointValid(cfg, StepApply(cfg, j, steps[0]), steps[1..]))
  }

  ghost function JointRun(cfg: T.Config, j: Joint, steps: seq<Step>): Joint
    requires cfg.Valid() && JointValid(cfg, j, steps)
    decreases |steps|
  {
    if steps == [] then j else JointRun(cfg, StepApply(cfg, j, steps[0]), steps[1..])
  }

  /** The queue's side of a step: building headers does not touch the queue. */
  ghost function EventsOf(j: Joint, step: Step): seq<Event>
    requires step.Act? ==> step.w in j.ready
  {
    match step
    case Plain(e) => [e]
    case BuildStep(_, _) => []
    case Act(w, answer) => [ActEvent(w, j.ready[w].build, answer)]
  }

  ghost function Events(cfg: T.Config, j: Joint, steps: seq<Step>): seq<Event>
    requires cfg.Valid() && JointValid(cfg, j, steps)
    decreases |steps|
  {
    if steps == [] then [] else EventsOf(j, steps[0]) + Events(cfg, StepApply(cfg, j, steps[0]), steps[1..])
  }

  lemma StepProjects(cfg: T.Config, j: Joint, step: Step)
    requires cfg.Valid() && StepEnabled(cfg, j, step)
    ensures ValidRun(j.sys, EventsOf(j, step)) && Run(j.sys, EventsOf(j, step)) == StepApply(cfg, j, step).sys
  {
    if step.Plain? {
      RunOne(j.sys, step.e);
    } else if step.Act? {
      RunOne(j.sys, ActEvent(step.w, j.ready[step.w].build, step.answer));
    }
  }

  /** A joint run is a run of the queue, so every theorem about those holds of it. */
  lemma {:induction false} Projects(cfg: T.Config, j: Joint, steps: seq<Step>)
    requires cfg.Valid() && JointValid(cfg, j, steps)
    ensures ValidRun(j.sys, Events(cfg, j, steps)) && Run(j.sys, Events(cfg, j, steps)) == JointRun(cfg, j, steps).sys
    decreases |steps|
  {
    if steps != [] {
      var next := StepApply(cfg, j, steps[0]);
      StepProjects(cfg, j, steps[0]);
      Projects(cfg, next, steps[1..]);
      RunConcat(j.sys, EventsOf(j, steps[0]), Events(cfg, next, steps[1..]));
    }
  }

  // ----- every POST is authorized -------------------------------------------------------

  function CountSent(sent: seq<Message>, id: nat): nat {
    if sent == [] then 0 else CountSent(sent[..|sent| - 1], id) + One(sent[|sent| - 1].id == id)
  }

  /** The lines are those of the acquire at that position, and authorized by it. */
  ghost predicate LinesOk(cfg: T.Config, calls: seq<T.Call>, at: nat, lines: seq<string>)
    requires cfg.Valid() && T.AllAnswer(cfg, calls)
  {
    at < |calls| && Authorized(cfg, calls[..at], calls[at], lines)
  }

  ghost predicate ReadyOk(cfg: T.Config, calls: seq<T.Call>, r: Ready)
    requires cfg.Valid() && T.AllAnswer(cfg, calls)
  {
    r.build.Built? ==> LinesOk(cfg, calls, r.at, r.lines)
  }

  /** The cache is the one its acquires lead to, and what is ready or was sent is authorized. */
  ghost predicate CacheInv(cfg: T.Config, j: Joint)
    requires cfg.Valid()
  {
    && T.AllAnswer(cfg, j.calls)
    && j.cache == T.RunCalls(cfg, j.calls)
    && (forall w :: w in j.ready ==> ReadyOk(cfg, j.calls, j.ready[w]))
    && forall i :: 0 <= i < |j.sent| ==> LinesOk(cfg, j.calls, j.sent[i].at, j.sent[i].lines)
  }

  /** Later acquires do not change what an earlier one authorized. */
  lemma LinesStay(cfg: T.Config, calls: seq<T.Call>, call: T.Call, at: nat, lines: seq<string>)
    requires cfg.Valid() && T.AllAnswer(cfg, calls) && T.Answers(cfg, call) && LinesOk(cfg, calls, at, lines)
    ensures T.AllAnswer(cfg, calls + [call]) && LinesOk(cfg, calls + [call], at, lines)
  {
    assert (calls + [call])[..at] == calls[..at];
  }

  /** What was built just now is authorized by the acquire it was built with. */
  lemma BuiltNowOk(cfg: T.Config, calls: seq<T.Call>, h: HeaderEnv)
    requires cfg.Valid() && T.AllAnswer(cfg, calls) && T.Answers(cfg, h.call) && !h.listOom
    ensures var b := BuildHeaders(Active(cfg), T.RunCalls(cfg, calls), h);
      && T.AllAnswer(cfg, calls + [h.call])
      && ReadyOk(cfg, calls + [h.call], Ready(b.build, b.lines, |calls|))
  {
    var after := calls + [h.call];
    assert after[..|calls|] == calls && after[|calls|] == h.call;
    var b := BuildHeaders(Active(cfg), T.RunCalls(cfg, calls), h);
    if b.build.Built? {
      BuiltIsAuthorized(cfg, calls, h);
      assert LinesOk(cfg, after, |calls|, b.lines);
    }
  }

  lemma CacheAfterBuild(cfg: T.Config, calls: seq<T.Call>, h: HeaderEnv)
    requires cfg.Valid() && T.AllAnswer(cfg, calls) && T.Answers(cfg, h.call) && !h.listOom
    ensures T.AllAnswer(cfg, calls + [h.call])
    ensures BuildHeaders(Active(cfg), T.RunCalls(cfg, calls), h).cache == T.RunCalls(cfg, calls + [h.call])
  {
    assert (calls + [h.call])[..|calls|] == calls;
  }

  lemma BuildKeeps(cfg: T.Config, j: Joint, w: nat, h: HeaderEnv)
    requires cfg.Valid() && CacheInv(cfg, j) && StepEnabled(cfg, j, BuildStep(w, h)) && !h.listOom
    ensures CacheInv(cfg, StepApply(cfg, j, BuildStep(w, h)))
  {
    var calls := j.calls + [h.call];
    var j' := StepApply(cfg, j, BuildStep(w, h));
    BuiltNowOk(cfg, j.calls, h);
    CacheAfterBuild(cfg, j.calls, h);
    forall i | 0 <= i < |j'.sent| ensures LinesOk(cfg, calls, j'.sent[i].at, j'.sent[i].lines) {
      LinesStay(cfg, j.calls, h.call, j.sent[i].at, j.sent[i].lines);
    }
    forall v | v in j'.ready ensures ReadyOk(cfg, calls, j'.ready[v]) {
      if v != w && j.ready[v].build.Built? {
        LinesStay(cfg, j.calls, h.call, j.ready[v].at, j.ready[v].lines);
      }
    }
  }

  lemma CacheStep(cfg: T.Config, j: Joint, step: Step)
    requires cfg.Valid() && CacheInv(cfg, j) && StepEnabled(cfg, j, step)
    ensures CacheInv(cfg, StepApply(cfg, j, step))
  {
    if step.BuildStep? && !step.h.listOom {
      BuildKeeps(cfg, j, step.w, step.h);
    }
  }

  /** Only a POST of the row itself adds to its POSTs. */
  lemma PostsAfter(s: System, e: Event, id: nat)
    requires Inv(s) && Enabled(s, e)
    ensures LogOf(Apply(s, e), id).posts == LogOf(s, id).posts + One(e.Post? && s.busy[e.w].id == id)
  {
    if e.RejectUrl? || e.HeaderOom? || e.Abort? || e.Post? || e.FollowUp? || e.Rollback? {
      assert JobOk(s, e.w);
    }
    if e.Enqueue? {
      assert s.nextId !in s.log;
    }
  }

  lemma PostsStep(cfg: T.Config, j: Joint, step: Step, id: nat)
    requires cfg.Valid() && Inv(j.sys) && StepEnabled(cfg, j, step)
    ensures var j' := StepApply(cfg, j, step);
      && Inv(j'.sys)
      && LogOf(j'.sys, id).posts + CountSent(j.sent, id) == LogOf(j.sys, id).posts + CountSent(j'.sent, id)
  {
    if step.Plain? {
      InvStep(j.sys, step.e);
      PostsAfter(j.sys, step.e, id);
    } else if step.Act? {
      var e := ActEvent(step.w, j.ready[step.w].build, step.answer);
      InvStep(j.sys, e);
      PostsAfter(j.sys, e, id);
      var j' := StepApply(cfg, j, step);
      if e.Post? {
        assert j'.sent[..|j'.sent| - 1] == j.sent;
      }
    }
  }

  lemma {:induction false} JointKeeps(cfg: T.Config, j: Joint, steps: seq<Step>, id: nat)
    requires cfg.Valid() && Inv(j.sys) && CacheInv(cfg, j) && JointValid(cfg, j, steps)
    ensures var end := JointRun(cfg, j, steps);
      && Inv(end.sys) && CacheInv(cfg, end)
      && LogOf(end.sys, id).posts + CountSent(j.sent, id) == LogOf(j.sys, id).posts + CountSent(end.sent, id)
    decreases |steps|
  {
    if steps != [] {
      CacheStep(cfg, j, steps[0]);
      PostsStep(cfg, j, steps[0], id);
      JointKeeps(cfg, StepApply(cfg, j, steps[0]), steps[1..], id);
    }
  }

  /** Over every joint run, with any number of workers: a row is POSTed exactly as often as something was
      sent for it, and everything sent carried the bearer of its own acquire, fresh at that time. */
  lemma EveryPostIsAuthorized(cfg: T.Config, steps: seq<Step>, id: nat)
    requires cfg.Valid() && JointValid(cfg, Start, steps)
    ensures var end := JointRun(cfg, Start, steps);
      && LogOf(end.sys, id).posts == CountSent(end.sent, id)
      && T.AllAnswer(cfg, end.calls) && end.cache == T.RunCalls(cfg, end.calls)
      && forall i :: 0 <= i < |end.sent| ==> LinesOk(cfg, end.calls, end.sent[i].at, end.sent[i].lines)
  {
    InitInv();
    JointKeeps(cfg, Start, steps, id);
  }

  // ----- a failed acquire buries the row ------------------------------------------------

  /** The step ends the claim of worker w. */
  predicate EndsClaim(step: Step, w: nat) { step.Plain? && (step.e.FollowUp? || step.e.Rollback?) && step.e.w == w }

  /** Worker w holds a row and was refused a bearer for it, whether it has acted on that or not. */
  ghost predicate Refused(j: Joint, w: nat) {
    && w in j.sys.busy
    && (j.sys.busy[w].phase == Decided(Bury, false)
        || (j.sys.busy[w].phase.Held? && w in j.ready && j.ready[w].build.Aborted?))
  }

  /** Nothing that others do touches the row of a worker, nor its POSTs. */
  lemma OthersLeave(s: System, e: Event, w: nat)
    requires Inv(s) && Enabled(s, e) && w in s.busy
    requires e.RejectUrl? || e.HeaderOom? || e.Abort? || e.Post? || e.FollowUp? || e.Rollback? ==> e.w != w
    ensures w in Apply(s, e).busy && Apply(s, e).busy[w] == s.busy[w]
    ensures LogOf(Apply(s, e), s.busy[w].id).posts == LogOf(s, s.busy[w].id).posts
  {
    assert JobOk(s, w);
    PostsAfter(s, e, s.busy[w].id);
    if e.Post? {
      assert JobOk(s, e.w);
    }
  }

  lemma RefusedPlain(j: Joint, e: Event, w: nat)
    requires Inv(j.sys) && Enabled(j.sys, e) && Refused(j, w) && !EndsClaim(Plain(e), w)
    requires !e.HeaderOom? && !e.Abort? && !e.Post? && (e.RejectUrl? ==> e.w !in j.ready)
    ensures var j' := j.(sys := Apply(j.sys, e));
      && Refused(j', w) && j'.sys.busy[w].id == j.sys.busy[w].id
      && LogOf(j'.sys, j.sys.busy[w].id).posts == LogOf(j.sys, j.sys.busy[w].id).posts
  {
    OthersLeave(j.sys, e, w);
  }

  lemma RefusedActs(cfg: T.Config, j: Joint, v: nat, answer: Transport, w: nat)
    requires cfg.Valid() && Inv(j.sys) && StepEnabled(cfg, j, Act(v, answer)) && Refused(j, w)
    ensures var j' := StepApply(cfg, j, Act(v, answer));
      && Refused(j', w) && j'.sys.busy[w].id == j.sys.busy[w].id
      && LogOf(j'.sys, j.sys.busy[w].id).posts == LogOf(j.sys, j.sys.busy[w].id).posts
  {
    var e := ActEvent(v, j.ready[v].build, answer);
    if v == w {
      PostsAfter(j.sys, e, j.sys.busy[w].id);
    } else {
      OthersLeave(j.sys, e, w);
    }
  }

  lemma RefusedStays(cfg: T.Config, j: Joint, step: Step, w: nat)
    requires cfg.Valid() && Inv(j.sys) && StepEnabled(cfg, j, step) && Refused(j, w) && !EndsClaim(step, w)
    ensures var j' := StepApply(cfg, j, step);
      && Inv(j'.sys) && Refused(j', w) && j'.sys.busy[w].id == j.sys.busy[w].id
      && LogOf(j'.sys, j.sys.busy[w].id).posts == LogOf(j.sys, j.sys.busy[w].id).posts
  {
    PostsStep(cfg, j, step, 0);
    if step.Plain? {
      RefusedPlain(j, step.e, w);
    } else if step.Act? {
      RefusedActs(cfg, j, step.w, step.answer, w);
    }
  }

  lemma BuriedNow(s: System, e: Event, w: nat)
    requires Inv(s) && Enabled(s, e) && e.FollowUp? && e.w == w && s.busy[w].phase == Decided(Bury, false)
    ensures Dead(Apply(s, e), s.busy[w].id) && LogOf(Apply(s, e), s.busy[w].id).posts == LogOf(s, s.busy[w].id).posts
  {
    assert JobOk(s, w);
  }

  lemma {:induction false} BuriedInTheEnd(cfg: T.Config, j: Joint, steps: seq<Step>, w: nat)
    requires cfg.Valid() && Inv(j.sys) && JointValid(cfg, j, steps) && Refused(j, w) && FinishesLast(steps, w)
    ensures var end, id := JointRun(cfg, j, steps), j.sys.busy[w].id;
      Dead(end.sys, id) && LogOf(end.sys, id).posts == LogOf(j.sys, id).posts
    decreases |steps|
  {
    if |steps| == 1 {
      BuriedNow(j.sys, steps[0].e, w);
      assert steps[1..] == [];
    } else {
      RefusedStays(cfg, j, steps[0], w);
      BuriedInTheEnd(cfg, StepApply(cfg, j, steps[0]), steps[1..], w);
    }
  }

  /** Over every joint run: when the acquire for a claimed row fails, the row is a dead letter by the time
      the worker's follow-up commits, whatever the others do meanwhile, and it was not POSTed again. */
  lemma FailedAcquireBuries(cfg: T.Config, steps: seq<Step>, w: nat, h: HeaderEnv, rest: seq<Step>)
    requires cfg.Valid() && JointValid(cfg, Start, steps)
    requires var j := JointRun(cfg, Start, steps);
      && StepEnabled(cfg, j, BuildStep(w, h)) && AcquireFails(cfg, j.cache, h)
      && JointValid(cfg, StepApply(cfg, j, BuildStep(w, h)), rest) && FinishesLast(rest, w)
    ensures var j := JointRun(cfg, Start, steps);
      var end, id := JointRun(cfg, StepApply(cfg, j, BuildStep(w, h)), rest), j.sys.busy[w].id;
      Dead(end.sys, id) && LogOf(end.sys, id).posts == LogOf(j.sys, id).posts
  {
    InitInv();
    JointKeeps(cfg, Start, steps, 0);
    var j := JointRun(cfg, Start, steps);
    BuriedInTheEnd(cfg, StepApply(cfg, j, BuildStep(w, h)), rest, w);
  }

  /** The steps end with the follow-up of worker w, which ends its claim for the first time there. */
  predicate FinishesLast(steps: seq<Step>, w: nat) {
    && steps != [] && EndsClaim(steps[|steps| - 1], w) && steps[|steps| - 1].e.FollowUp?
    && forall i :: 0 <= i < |steps| - 1 ==> !EndsClaim(steps[i], w)
  }
}
