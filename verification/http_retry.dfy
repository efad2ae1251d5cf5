/**
 * The resilient JSON client of the ingestion workers: a retry loop under one deadline, in
 * front of a cache. Time moves only while a request is being sent or the loop sleeps.
 */
module HttpRetry {
  import opened Prelude

  datatype ErrorCode = Upstream | TimedOut | TransportFailed | RateLimited | BudgetExhausted | InvalidResponse

  datatype Lag = NoLag | LagSeconds(seconds: real) | UnreadableLag

  /** The "error" object of a decoded document, its code in lower case. */
  datatype ApiError = ApiError(code: string, lag: Lag)

  /** A decoded document; `error` is present if it is an object holding an "error" object. */
  datatype Payload = Payload(content: string, error: Option<ApiError>)

  datatype RetryAfter = NoHeader | Seconds(seconds: real) | HttpDate(wall: real) | UnreadableHeader

  datatype Response = Response(status: int, retryAfter: RetryAfter, body: string)

  datatype Reply = Answered(response: Response) | Late | Broken

  /** What the transport would do with a send, and after how long. */
  datatype Exchange = Exchange(latency: real, reply: Reply)

  datatype Request = Request(key: string, timeout: real, ttl: real)

  /** `decode` is JSON parsing, `wall` the wall clock at a reading of the monotonic one. */
  datatype Policy = Policy(maxRetries: nat, maxRetryAfter: real, decode: string -> Option<Payload>, wall: real -> real)

  /** One call: what is asked, when it began, by when it must end, and how the n-th send fares. */
  datatype Call = Call(policy: Policy, request: Request, begin: real, deadline: real, serve: nat -> Exchange)

  datatype Document = Document(payload: Payload, fetchedAt: real, attempts: nat, cacheHit: bool)

  datatype Failure = Failure(code: ErrorCode, attempts: nat, status: Option<int>, retriable: bool)

  type Outcome = Result<Document, Failure>

  const RETRYABLE_STATUS := {408, 425, 429, 500, 502, 503, 504}

  const RETRYABLE_CODES := {"maxlag", "ratelimited", "readonly", "internal_api_error_dbconnectionerror"}

  function Min(x: real, y: real): real {
    if x <= y then x else y
  }

  function Max(x: real, y: real): real {
    if x >= y then x else y
  }

  function Doubled(times: nat): (r: real)
    ensures r >= 1.0
  {
    if times == 0 then 1.0 else 2.0 * Doubled(times - 1)
  }

  /** What `HttpRequest.__post_init__` and the client's constructor insist on. */
  ghost predicate WellFormed(c: Call) {
    && 0.0 < c.request.timeout <= 60.0 && 0.0 <= c.request.ttl <= 604800.0
    && c.policy.maxRetries <= 4
    && forall n :: c.serve(n).latency >= 0.0
  }

  // ------------------------------------------------------------- one reply

  /** A code and a delay, if the document asks to be fetched again. */
  function StructuredRetryError(p: Payload): Option<(ErrorCode, real)> {
    if p.error.None? || p.error.value.code !in RETRYABLE_CODES then None
    else
      var delay := match p.error.value.lag
        case NoLag => 0.5
        case LagSeconds(s) => Max(0.25, s)
        case UnreadableLag => 0.5;
      Some((if p.error.value.code == "ratelimited" then RateLimited else Upstream, delay))
  }

  function RetryDelay(p: Policy, reply: Reply, attempt: nat, now: real): real
    requires attempt > 0
  {
    match reply
    case Answered(Response(_, Seconds(s), _)) => Min(p.maxRetryAfter, Max(0.0, s))
    case Answered(Response(_, HttpDate(at), _)) => Min(p.maxRetryAfter, Max(0.0, at - p.wall(now)))
    case _ => Min(p.maxRetryAfter, 0.25 * Doubled(attempt - 1))
  }

  predicate IsOk(reply: Reply) {
    reply.Answered? && 200 <= reply.response.status < 300
  }

  /** A body that decodes and does not ask to be fetched again. */
  predicate Usable(p: Policy, body: string) {
    p.decode(body).Some? && StructuredRetryError(p.decode(body).value).None?
  }

  predicate Delivers(p: Policy, reply: Reply) {
    IsOk(reply) && Usable(p, reply.response.body)
  }

  predicate Garbled(p: Policy, reply: Reply) {
    IsOk(reply) && p.decode(reply.response.body).None?
  }

  predicate AsksAgain(p: Policy, reply: Reply) {
    IsOk(reply) && p.decode(reply.response.body).Some? && !Usable(p, reply.response.body)
  }

  predicate Retryable(p: Policy, reply: Reply) {
    AsksAgain(p, reply) || !reply.Answered? || reply.response.status in RETRYABLE_STATUS
  }

  function Status(reply: Reply): Option<int> {
    if reply.Answered? then Some(reply.response.status) else None
  }

  /** The code a failed reply is reported under. */
  function CodeOf(p: Policy, reply: Reply): ErrorCode {
    if AsksAgain(p, reply) then StructuredRetryError(p.decode(reply.response.body).value).value.0
    else
      match reply
      case Late => TimedOut
      case Broken => TransportFailed
      case Answered(r) => if r.status == 429 then RateLimited else Upstream
  }

  function Pause(p: Policy, reply: Reply, attempt: nat, now: real): real
    requires attempt > 0
  {
    if AsksAgain(p, reply) then Min(p.maxRetryAfter, StructuredRetryError(p.decode(reply.response.body).value).value.1)
    else RetryDelay(p, reply, attempt, now)
  }

  /** No advice from upstream stretches a pause beyond the client's own cap. */
  lemma PauseIsCapped(p: Policy, reply: Reply, attempt: nat, now: real)
    requires attempt > 0
    ensures Pause(p, reply, attempt, now) <= p.maxRetryAfter
    ensures Pause(p, reply, attempt, now) >= Min(p.maxRetryAfter, 0.0)
  {}

  // ------------------------------------------------------------- a run, as a trace

  /** One send: when it started and ended, and what came of it. */
  datatype Attempt = Attempt(start: real, end: real, reply: Reply)

  function Remaining(c: Call, now: real): real {
    Max(0.0, c.deadline - now)
  }

  /** The n-th send gets what is left of the deadline, at most the request's own timeout. */
  predicate Sent(c: Call, a: Attempt, n: nat) {
    var timeout := Min(c.request.timeout, c.deadline - a.start);
    var x := c.serve(n);
    && a.start < c.deadline
    && a.end == a.start + Min(x.latency, timeout)
    && a.reply == (if x.latency < timeout then x.reply else Late)
  }

  /** The loop goes on after the n-th send, and wakes at `at`. */
  predicate GoesOn(c: Call, a: Attempt, n: nat, at: real)
    requires n > 0
  {
    && Retryable(c.policy, a.reply) && n <= c.policy.maxRetries
    && var pause := Pause(c.policy, a.reply, n, a.end);
       pause < Remaining(c, a.end) && at == a.end + Max(0.0, pause)
  }

  ghost predicate Lawful(c: Call, trace: seq<Attempt>) {
    && (trace != [] ==> trace[0].start == c.begin)
    && (forall i, n | 0 <= i < |trace| && n == i + 1 :: Sent(c, trace[i], n))
    && (forall i, n | 0 <= i && n == i + 1 && n < |trace| :: GoesOn(c, trace[i], n, trace[n].start))
  }

  function EndOf(c: Call, trace: seq<Attempt>): real {
    if trace == [] then c.begin else trace[|trace| - 1].end
  }

  /** What is reported after the last send of a trace. */
  ghost predicate Concludes(c: Call, trace: seq<Attempt>, outcome: Outcome) {
    var p := c.policy;
    if trace == [] then c.deadline <= c.begin && outcome == Err(Failure(BudgetExhausted, 0, None, false))
    else
      var n, last := |trace|, trace[|trace| - 1];
      if Delivers(p, last.reply) then
        outcome == Ok(Document(p.decode(last.reply.response.body).value, p.wall(last.end), n, false))
      else if Garbled(p, last.reply) then
        outcome == Err(Failure(InvalidResponse, n, None, false))
      else if !Retryable(p, last.reply) || n > p.maxRetries then
        outcome == Err(Failure(CodeOf(p, last.reply), n, Status(last.reply), Retryable(p, last.reply)))
      else if Pause(p, last.reply, n, last.end) >= Remaining(c, last.end) then
        outcome == Err(Failure(BudgetExhausted, n, Status(last.reply), true))
      else
        && c.deadline <= last.end + Max(0.0, Pause(p, last.reply, n, last.end))
        && outcome == Err(Failure(BudgetExhausted, n, None, false))
  }

  ghost predicate IsRun(c: Call, trace: seq<Attempt>, outcome: Outcome) {
    Lawful(c, trace) && Concludes(c, trace, outcome)
  }

  // ------------------------------------------------------------- what every run keeps

  function AttemptsOf(outcome: Outcome): nat {
    match outcome case Ok(d) => d.attempts case Err(f) => f.attempts
  }

  lemma SentFitsTheDeadline(c: Call, a: Attempt, n: nat)
    requires WellFormed(c) && Sent(c, a, n)
    ensures a.start <= a.end <= c.deadline && a.end <= a.start + c.request.timeout
  {
    assert c.serve(n).latency >= 0.0;
  }

  /**
   * At most `maxRetries + 1` sends; each send and each sleep is over by the deadline, and no
   * sleep exceeds the client's cap, whatever upstream asks for; and the number of attempts
   * reported is the number of sends made.
   */
  lemma RunsKeepTheirBudget(c: Call, trace: seq<Attempt>, outcome: Outcome)
    requires WellFormed(c) && IsRun(c, trace, outcome)
    ensures |trace| <= c.policy.maxRetries + 1
    ensures AttemptsOf(outcome) == |trace|
    ensures forall i | 0 <= i < |trace| :: trace[i].start < c.deadline && trace[i].start <= trace[i].end <= c.deadline
    ensures forall i, n | 0 <= i && n == i + 1 && n < |trace| ::
      trace[i].end <= trace[n].start <= trace[i].end + Max(0.0, c.policy.maxRetryAfter)
  {
    hide Sent, Pause, Retryable;
    forall i, n | 0 <= i && n == i + 1 && n < |trace|
      ensures trace[i].end <= trace[n].start <= trace[i].end + Max(0.0, c.policy.maxRetryAfter)
    {
      assert GoesOn(c, trace[i], n, trace[n].start);
      PauseIsCapped(c.policy, trace[i].reply, n, trace[i].end);
    }
    var last := |trace| - 1;
    var before := last - 1;
    if before >= 0 {
      assert GoesOn(c, trace[before], last, trace[last].start);
    }
    forall i | 0 <= i < |trace|
      ensures trace[i].start < c.deadline && trace[i].start <= trace[i].end <= c.deadline
    {
      var n := i + 1;
      assert Sent(c, trace[i], n);
      StartsEarly(c, trace[i], n);
      SentFitsTheDeadline(c, trace[i], n);
    }
  }

  lemma StartsEarly(c: Call, a: Attempt, n: nat)
    requires Sent(c, a, n)
    ensures a.start < c.deadline
  {}

  /** A run's length in time is bounded by its sends and its sleeps. */
  lemma {:induction false} RunsTakeBoundedTime(c: Call, trace: seq<Attempt>)
    requires WellFormed(c) && Lawful(c, trace) && trace != []
    ensures trace[|trace| - 1].start <= c.begin
        + (|trace| - 1) as real * (c.request.timeout + Max(0.0, c.policy.maxRetryAfter))
    decreases |trace|
  {
    hide Sent, Pause, Retryable;
    var last := |trace| - 1;
    if last == 0 {
    } else {
      var before := last - 1;
      var shorter := trace[..last];
      RunsTakeBoundedTime(c, shorter);
      assert shorter[before] == trace[before] && |shorter| - 1 == before;
      assert Sent(c, trace[before], last);
      assert GoesOn(c, trace[before], last, trace[last].start);
      SentFitsTheDeadline(c, trace[before], last);
      PauseIsCapped(c.policy, trace[before].reply, last, trace[before].end);
    }
  }

  /**
   * With a cap of at least zero, the check at the top of the loop can only fire before the
   * first send: afterwards the check before the sleep has already refused.
   */
  lemma LateDeadlineChecksAreRedundant(c: Call, trace: seq<Attempt>, outcome: Outcome)
    requires WellFormed(c) && IsRun(c, trace, outcome) && c.policy.maxRetryAfter >= 0.0
    ensures outcome == Err(Failure(BudgetExhausted, |trace|, None, false)) <==> trace == []
    ensures trace == [] <==> c.deadline <= c.begin
  {
    hide Retryable;
    if trace != [] {
      var last := trace[|trace| - 1];
      PauseIsCapped(c.policy, last.reply, |trace|, last.end);
      var one := 1;
      assert Sent(c, trace[0], one);
    }
  }

  /** The trace and the outcome are determined by the call: nothing else is a run of it. */
  lemma RunsAreUnique(c: Call, t: seq<Attempt>, x: Outcome, u: seq<Attempt>, y: Outcome)
    requires WellFormed(c) && IsRun(c, t, x) && IsRun(c, u, y)
    ensures t == u && x == y
  {
    hide Lawful, Concludes;
    TracesAgree(c, t, u, if |t| <= |u| then |t| else |u|);
    NotLonger(c, t, x, u);
    NotLonger(c, u, y, t);
    assert t == t[..|t|] && u == u[..|t|];
    ConclusionIsUnique(c, t, x, y);
  }

  lemma ConclusionIsUnique(c: Call, t: seq<Attempt>, x: Outcome, y: Outcome)
    requires Concludes(c, t, x) && Concludes(c, t, y)
    ensures x == y
  {
    hide Pause, Delivers, Garbled, Retryable, CodeOf;
  }

  lemma {:induction false} TracesAgree(c: Call, t: seq<Attempt>, u: seq<Attempt>, k: nat)
    requires Lawful(c, t) && Lawful(c, u) && k <= |t| && k <= |u|
    ensures t[..k] == u[..k]
  {
    hide Pause, Retryable;
    if k == 0 {
    } else {
      var i := k - 1;
      TracesAgree(c, t, u, i);
      assert Sent(c, t[i], k) && Sent(c, u[i], k);
      if i > 0 {
        var h := i - 1;
        assert t[..i][h] == u[..i][h];
        assert GoesOn(c, t[h], i, t[i].start) && GoesOn(c, u[h], i, u[i].start);
      }
      assert t[..k] == t[..i] + [t[i]] && u[..k] == u[..i] + [u[i]];
    }
  }

  lemma StepOf(c: Call, u: seq<Attempt>, n: nat)
    requires Lawful(c, u) && n < |u|
    ensures u[n].start < c.deadline
    ensures if n == 0 then u[n].start == c.begin else GoesOn(c, u[n - 1], n, u[n].start)
  {
    hide GoesOn;
    var k := n + 1;
    assert Sent(c, u[n], k);
    if n > 0 {
      var before := n - 1;
      assert GoesOn(c, u[before], n, u[n].start);
    }
  }

  /** Once a run has concluded, no further send could start before the deadline. */
  lemma ConclusionsAreFinal(c: Call, t: seq<Attempt>, x: Outcome, at: real)
    requires Concludes(c, t, x)
    requires if t == [] then at == c.begin else GoesOn(c, t[|t| - 1], |t|, at)
    ensures c.deadline <= at
  {
    hide Pause;
  }

  lemma NotLonger(c: Call, t: seq<Attempt>, x: Outcome, u: seq<Attempt>)
    requires Concludes(c, t, x) && Lawful(c, u)
    requires |t| < |u| ==> u[..|t|] == t
    ensures |u| <= |t|
  {
    hide Lawful, GoesOn, Concludes;
    if |t| < |u| {
      var n := |t|;
      StepOf(c, u, n);
      assert n > 0 ==> u[..n][n - 1] == u[n - 1];
      ConclusionsAreFinal(c, t, x, u[n].start);
    }
  }

  /**
   * If the first k - 1 sends fail in a way worth retrying, the k-th answers, k is within
   * the allowance, and the deadline leaves room for k full timeouts and the capped sleeps
   * between them, then the answer is delivered, after exactly k sends.
   */
  lemma PatienceIsRewarded(c: Call, trace: seq<Attempt>, outcome: Outcome, k: nat)
    requires WellFormed(c) && IsRun(c, trace, outcome) && c.policy.maxRetryAfter >= 0.0
    requires 1 <= k <= c.policy.maxRetries + 1
    requires forall n | 1 <= n < k :: Retryable(c.policy, Heard(c, n))
    requires Delivers(c.policy, Heard(c, k))
    requires c.deadline > c.begin + k as real * (c.request.timeout + c.policy.maxRetryAfter)
    ensures |trace| == k && outcome.Ok?
    ensures outcome.value.payload == c.policy.decode(Heard(c, k).response.body).value
  {
    hide Lawful, Delivers, Retryable;
    if trace != [] {
      var n := |trace|;
      if n < k {
        HeardInFull(c, trace, n, k);
        StopsNot(c, trace, outcome, k);
      } else {
        HeardInFull(c, trace, k, k);
        NotBoth(c.policy, Heard(c, k));
        if n > k {
          OnlyFailuresAreRetried(c, trace, k);
        }
      }
    }
  }

  /** What a send hears when it is given the request's whole timeout. */
  function Heard(c: Call, n: nat): Reply {
    if c.serve(n).latency < c.request.timeout then c.serve(n).reply else Late
  }

  lemma NotBoth(p: Policy, reply: Reply)
    ensures !(Delivers(p, reply) && Retryable(p, reply))
  {}

  lemma ProductIsNonNegative(x: real, y: real)
    requires x >= 0.0 && y >= 0.0
    ensures x * y >= 0.0
  {}

  lemma HeardInFull(c: Call, trace: seq<Attempt>, n: nat, k: nat)
    requires WellFormed(c) && Lawful(c, trace) && c.policy.maxRetryAfter >= 0.0
    requires 1 <= n <= |trace| && n <= k
    requires c.deadline > c.begin + k as real * (c.request.timeout + c.policy.maxRetryAfter)
    ensures trace[n - 1].reply == Heard(c, n)
    ensures trace[n - 1].end + c.policy.maxRetryAfter < c.deadline
  {
    hide Pause, Retryable;
    var prefix, last := trace[..n], n - 1;
    assert prefix[last] == trace[last];
    assert Sent(c, trace[last], n);
    SentFitsTheDeadline(c, trace[last], n);
    RunsTakeBoundedTime(c, prefix);
    RoomIsLeft(c.begin, c.deadline, c.request.timeout, c.policy.maxRetryAfter, last, k, trace[last].start);
  }

  lemma RoomIsLeft(begin: real, deadline: real, timeout: real, cap: real, last: nat, k: nat, start: real)
    requires timeout >= 0.0 && cap >= 0.0 && last < k
    requires deadline > begin + k as real * (timeout + cap) && start <= begin + last as real * (timeout + cap)
    ensures start + timeout + cap < deadline
  {
    var step := timeout + cap;
    ProductIsNonNegative((k - last - 1) as real, step);
    assert k as real * step == (last + 1) as real * step + (k - last - 1) as real * step;
  }

  lemma StopsNot(c: Call, trace: seq<Attempt>, outcome: Outcome, k: nat)
    requires trace != [] && Concludes(c, trace, outcome) && k <= c.policy.maxRetries + 1
    requires Retryable(c.policy, trace[|trace| - 1].reply) && c.policy.maxRetryAfter >= 0.0
    requires trace[|trace| - 1].end + c.policy.maxRetryAfter < c.deadline
    ensures |trace| >= k
  {
    var last := trace[|trace| - 1];
    PauseIsCapped(c.policy, last.reply, |trace|, last.end);
  }

  lemma OnlyFailuresAreRetried(c: Call, trace: seq<Attempt>, k: nat)
    requires Lawful(c, trace) && 1 <= k < |trace|
    ensures Retryable(c.policy, trace[k - 1].reply)
  {
    var i := k - 1;
    assert GoesOn(c, trace[i], k, trace[k].start);
  }

  // ------------------------------------------------------------- how replies are read

  /** How long the loop really sleeps when it means to sleep for `seconds`. */
  function Slept(cap: real, seconds: real): real {
    Max(0.0, Min(cap, seconds))
  }

  /** The wait that a failed answer asks for, if it does. */
  function Advice(reply: Reply, wall: real): Option<real> {
    match reply
    case Answered(Response(_, Seconds(s), _)) => Some(Max(0.0, s))
    case Answered(Response(_, HttpDate(at), _)) => Some(Max(0.0, at - wall))
    case _ => None
  }

  /**
   * Between two sends the loop sleeps as long as the answer asks, up to the cap; without such
   * advice a quarter of a second, doubled with every further send.
   */
  lemma SleepsAreAsAdvised(c: Call, trace: seq<Attempt>, i: nat, n: nat)
    requires WellFormed(c) && Lawful(c, trace) && n == i + 1 < |trace| && !IsOk(trace[i].reply)
    ensures i < 4
    ensures var advice := Advice(trace[i].reply, c.policy.wall(trace[i].end));
      trace[n].start == trace[i].end
        + Slept(c.policy.maxRetryAfter, if advice.Some? then advice.value else [0.25, 0.5, 1.0, 2.0][i])
  {
    hide Sent, Retryable;
    assert GoesOn(c, trace[i], n, trace[n].start);
    FirstDoublings();
  }

  lemma FirstDoublings()
    ensures Doubled(0) == 1.0 && Doubled(1) == 2.0 && Doubled(2) == 4.0 && Doubled(3) == 8.0
  {
    assert Doubled(1) == 2.0 * Doubled(0) && Doubled(2) == 2.0 * Doubled(1) && Doubled(3) == 2.0 * Doubled(2);
  }

  /** After a document that asks to be fetched again: its lag, at least a quarter of a second, or half a second. */
  lemma SleepsForStructuredErrors(c: Call, trace: seq<Attempt>, i: nat, n: nat)
    requires WellFormed(c) && Lawful(c, trace) && n == i + 1 < |trace| && IsOk(trace[i].reply)
    ensures c.policy.decode(trace[i].reply.response.body).Some?
    ensures var e := c.policy.decode(trace[i].reply.response.body).value.error;
      && e.Some? && e.value.code in {"maxlag", "ratelimited", "readonly", "internal_api_error_dbconnectionerror"}
      && trace[n].start == trace[i].end
           + Slept(c.policy.maxRetryAfter,
                   if !e.value.lag.LagSeconds? then 0.5
                   else if e.value.lag.seconds < 0.25 then 0.25
                   else e.value.lag.seconds)
  {
    hide Sent;
    assert GoesOn(c, trace[i], n, trace[n].start);
    assert !(trace[i].reply.response.status in RETRYABLE_STATUS);
  }

  /** The statuses after which a send is repeated. */
  lemma RepeatedStatuses(c: Call, trace: seq<Attempt>, i: nat, n: nat)
    requires Lawful(c, trace) && n == i + 1 < |trace| && trace[i].reply.Answered? && !IsOk(trace[i].reply)
    ensures trace[i].reply.response.status in {408, 425, 429, 500, 502, 503, 504}
  {
    hide Sent;
    assert GoesOn(c, trace[i], n, trace[n].start);
  }

  /**
   * A run that ends in an error other than an exhausted budget before its last allowed send
   * ends at an answer that is not worth repeating: undecodable, or with a final status.
   */
  lemma GivesUpExactly(c: Call, trace: seq<Attempt>, outcome: Outcome)
    requires IsRun(c, trace, outcome) && trace != [] && outcome.Err? && |trace| <= c.policy.maxRetries
    ensures var reply := trace[|trace| - 1].reply;
      !outcome.error.code.BudgetExhausted? <==>
        && reply.Answered?
        && if 200 <= reply.response.status < 300 then c.policy.decode(reply.response.body).None?
           else reply.response.status !in {408, 425, 429, 500, 502, 503, 504}
  {
    hide Lawful, Pause;
  }

  /** An error names what went wrong with the last send, and carries its status. */
  lemma FailuresNameTheirCause(c: Call, trace: seq<Attempt>, outcome: Outcome)
    requires IsRun(c, trace, outcome) && trace != [] && outcome.Err? && !outcome.error.code.BudgetExhausted?
    ensures var reply, e := trace[|trace| - 1].reply, outcome.error;
      && (e.code.TimedOut? <==> reply.Late?)
      && (e.code.TransportFailed? <==> reply.Broken?)
      && (e.code.InvalidResponse? <==> IsOk(reply) && c.policy.decode(reply.response.body).None?)
      && (e.code.RateLimited? <==>
            reply.Answered? &&
            if IsOk(reply)
            then c.policy.decode(reply.response.body).Some?
                 && c.policy.decode(reply.response.body).value.error.Some?
                 && c.policy.decode(reply.response.body).value.error.value.code == "ratelimited"
            else reply.response.status == 429)
      && (reply.Answered? && !e.code.InvalidResponse? ==> e.status == Some(reply.response.status))
  {
    hide Lawful, Pause;
  }

  // ------------------------------------------------------------- the cache

  datatype Cached = Cached(body: string, fetchedAt: real, expiresAt: real)

  ghost predicate OnlyUsable(p: Policy, values: map<string, Cached>) {
    forall key | key in values :: Usable(p, values[key].body)
  }

  predicate Unexpired(values: map<string, Cached>, key: string, now: real) {
    key in values && values[key].expiresAt > now
  }

  /** The cache after a lookup: an entry that is not served is dropped. */
  function AfterLookup(values: map<string, Cached>, key: string, now: real): map<string, Cached> {
    if Unexpired(values, key, now) then values else values - {key}
  }

  /** A lookup drops the entry under the key exactly if it has expired, and touches no other. */
  lemma LookupDropsExpired(values: map<string, Cached>, key: string, now: real)
    ensures key in AfterLookup(values, key, now) <==> key in values && now < values[key].expiresAt
    ensures forall k :: k != key || k in AfterLookup(values, key, now) ==>
      (k in AfterLookup(values, key, now) <==> k in values)
      && (k in values ==> AfterLookup(values, key, now)[k] == values[k])
  {}

  /** `MemoryResponseCache`. */
  class MemoryResponseCache {
    var values: map<string, Cached>

    constructor ()
      ensures values == map[]
    {
      values := map[];
    }

    method Get(key: string, now: real) returns (hit: Option<Cached>)
      modifies this
      ensures values == AfterLookup(old(values), key, now)
      ensures hit == if Unexpired(old(values), key, now) then Some(old(values)[key]) else None
    {
      if key in values {
        var item := values[key];
        if item.expiresAt > now {
          return Some(item);
        }
      }
      values := values - {key};
      hit := None;
    }

    method Put(key: string, response: Cached)
      modifies this
      ensures values == old(values)[key := response]
    {
      values := values[key := response];
    }
  }

  // ------------------------------------------------------------- the client

  lemma LawfulExtends(c: Call, trace: seq<Attempt>, a: Attempt)
    requires Lawful(c, trace) && Sent(c, a, |trace| + 1)
    requires if trace == [] then a.start == c.begin else GoesOn(c, trace[|trace| - 1], |trace|, a.start)
    ensures Lawful(c, trace + [a])
  {
    hide Sent, GoesOn;
  }

  /** `ResilientJsonClient`; `now` is the monotonic clock. */
  class ResilientJsonClient {
    const policy: Policy
    const cache: MemoryResponseCache?
    var now: real

    constructor (policy: Policy, cache: MemoryResponseCache?, now: real)
      requires policy.maxRetries <= 4
      ensures this.policy == policy && this.cache == cache && this.now == now
    {
      this.policy, this.cache, this.now := policy, cache, now;
    }

    /** `wait_for(send, timeout)`: an answer in time, or silence until the timeout. */
    method Send(c: Call, attempt: nat, timeout: real) returns (reply: Reply)
      requires WellFormed(c) && timeout > 0.0
      modifies `now
      ensures now == old(now) + Min(c.serve(attempt).latency, timeout)
      ensures reply == if c.serve(attempt).latency < timeout then c.serve(attempt).reply else Late
    {
      var x := c.serve(attempt);
      if x.latency < timeout {
        now := now + x.latency;
        reply := x.reply;
      } else {
        now := now + timeout;
        reply := Late;
      }
    }

    method Sleep(seconds: real)
      modifies `now
      ensures now == old(now) + Max(0.0, seconds)
    {
      if seconds > 0.0 {
        now := now + seconds;
      }
    }

    /** The retry loop, from the first send to the document or the error. */
    method Fetch(c: Call) returns (outcome: Outcome, body: string, ghost trace: seq<Attempt>)
      requires WellFormed(c) && c.policy == policy && c.begin == now
      modifies `now
      ensures IsRun(c, trace, outcome) && now == EndOf(c, trace)
      ensures outcome.Ok? ==>
        Delivers(policy, trace[|trace| - 1].reply) && body == trace[|trace| - 1].reply.response.body
    {
      hide Lawful, RetryDelay, StructuredRetryError, WellFormed, Doubled;
      trace, body := [], "";
      EmptyIsLawful(c);
      var attempt := 1;
      while attempt <= policy.maxRetries + 1
        invariant 1 <= attempt <= policy.maxRetries + 1
        invariant |trace| == attempt - 1 && Lawful(c, trace)
        invariant if trace == [] then now == c.begin else GoesOn(c, trace[|trace| - 1], |trace|, now)
        decreases policy.maxRetries + 1 - attempt
      {
        var remaining := Remaining(c, now);
        if remaining <= 0.0 {
          assert now == EndOf(c, trace);
          return Err(Failure(BudgetExhausted, attempt - 1, None, false)), body, trace;
        }
        var timeout := Min(c.request.timeout, remaining);
        ghost var start := now;
        TimeoutIsPositive(c);
        var reply := Send(c, attempt, timeout);
        ghost var sent := Attempt(start, now, reply);
        LawfulExtends(c, trace, sent);
        trace := trace + [sent];

        if reply.Answered? && 200 <= reply.response.status < 300 {
          var decoded := policy.decode(reply.response.body);
          if decoded.None? {
            return Err(Failure(InvalidResponse, attempt, None, false)), body, trace;
          }
          var structured := StructuredRetryError(decoded.value);
          if structured.None? {
            return Ok(Document(decoded.value, policy.wall(now), attempt, false)), reply.response.body, trace;
          }
          var (code, delay) := structured.value;
          if attempt > policy.maxRetries {
            return Err(Failure(code, attempt, Some(reply.response.status), true)), body, trace;
          }
          var pause := Min(policy.maxRetryAfter, delay);
          if pause >= Remaining(c, now) {
            return Err(Failure(BudgetExhausted, attempt, Some(reply.response.status), true)), body, trace;
          }
          Sleep(pause);
        } else {
          var code, status, retryable := TransportFailed, None, true;
          match reply {
            case Late =>
              code := TimedOut;
            case Broken =>
            case Answered(r) =>
              code := if r.status == 429 then RateLimited else Upstream;
              status, retryable := Some(r.status), r.status in RETRYABLE_STATUS;
          }
          if !retryable || attempt > policy.maxRetries {
            return Err(Failure(code, attempt, status, retryable)), body, trace;
          }
          var pause := RetryDelay(policy, reply, attempt, now);
          if pause >= Remaining(c, now) {
            return Err(Failure(BudgetExhausted, attempt, status, true)), body, trace;
          }
          Sleep(pause);
        }
        attempt := attempt + 1;
      }
      assert false;
    }

    /** `request_json`. A cached document costs no send; a new one is kept for its lifetime. */
    method RequestJson(request: Request, deadline: real, serve: nat -> Exchange)
      returns (outcome: Outcome, ghost trace: seq<Attempt>)
      requires WellFormed(Call(policy, request, now, deadline, serve))
      modifies `now, cache
      ensures var caching := cache != null && request.ttl > 0.0;
        var c := Call(policy, request, old(now), deadline, serve);
        if caching && Unexpired(old(cache.values), request.key, policy.wall(old(now))) then
          && trace == [] && now == old(now) && cache.values == old(cache.values)
          && var entry := old(cache.values)[request.key];
             outcome == if policy.decode(entry.body).Some?
                        then Ok(Document(policy.decode(entry.body).value, entry.fetchedAt, 0, true))
                        else Err(Failure(InvalidResponse, 0, None, false))
        else
          && IsRun(c, trace, outcome) && now == EndOf(c, trace)
          && (caching && outcome.Ok? ==>
                var body, fetched := trace[|trace| - 1].reply.response.body, policy.wall(now);
                cache.values == old(cache.values)[request.key := Cached(body, fetched, fetched + request.ttl)])
          && (caching && outcome.Err? ==>
              cache.values == AfterLookup(old(cache.values), request.key, policy.wall(old(now))))
          && (cache != null && !caching ==> cache.values == old(cache.values))
      ensures cache != null && old(OnlyUsable(policy, cache.values)) ==> OnlyUsable(policy, cache.values)
      ensures cache != null && old(OnlyUsable(policy, cache.values)) && trace == [] && old(now) < deadline ==>
        outcome.Ok?
    {
      hide IsRun, WellFormed;
      trace := [];
      if cache != null && request.ttl > 0.0 {
        var hit := cache.Get(request.key, policy.wall(now));
        if hit.Some? {
          var decoded := policy.decode(hit.value.body);
          return if decoded.Some? then Ok(Document(decoded.value, hit.value.fetchedAt, 0, true))
                 else Err(Failure(InvalidResponse, 0, None, false)), trace;
        }
      }
      var c := Call(policy, request, now, deadline, serve);
      var body;
      outcome, body, trace := Fetch(c);
      SilenceMeansExpiry(c, trace, outcome);
      if outcome.Ok? && cache != null && request.ttl > 0.0 {
        var fetchedAt := policy.wall(now);
        cache.Put(request.key, Cached(body, fetchedAt, fetchedAt + request.ttl));
      }
    }
  }

  lemma SilenceMeansExpiry(c: Call, trace: seq<Attempt>, outcome: Outcome)
    requires IsRun(c, trace, outcome)
    ensures trace == [] ==> c.deadline <= c.begin
  {}

  lemma EmptyIsLawful(c: Call)
    ensures Lawful(c, [])
  {}

  lemma TimeoutIsPositive(c: Call)
    requires WellFormed(c)
    ensures c.request.timeout > 0.0
  {}

  // ------------------------------------------------------------- what the cache is for

  lemma DeliveredDocument(c: Call, trace: seq<Attempt>, outcome: Outcome)
    requires IsRun(c, trace, outcome) && outcome.Ok?
    ensures trace != [] && trace[|trace| - 1].reply.Answered?
    ensures c.policy.decode(trace[|trace| - 1].reply.response.body) == Some(outcome.value.payload)
    ensures outcome.value.fetchedAt == c.policy.wall(EndOf(c, trace)) && !outcome.value.cacheHit
  {
    hide Lawful, Retryable, CodeOf, Pause;
  }

  /**
   * Two calls for the same request, any time apart, the second beginning at `begun`.  Once
   * the first has delivered, the second delivers the same document without a single send or
   * any delay, as long as the entry has not expired by then; afterwards it is a run of its
   * own again.  A document just fetched expires its lifetime after it was fetched, and one
   * served from the cache when it already would have.
   */
  method RequestTwice(client: ResilientJsonClient, request: Request, deadline: real, serve: nat -> Exchange,
                      idle: real, deadlineAgain: real, serveAgain: nat -> Exchange)
    returns (first: Outcome, second: Outcome, ghost begun: real, ghost expires: real, ghost trace: seq<Attempt>)
    requires client.cache != null && request.ttl > 0.0
    requires WellFormed(Call(client.policy, request, client.now, deadline, serve))
    requires forall n :: serveAgain(n).latency >= 0.0
    modifies client`now, client.cache
    ensures first.Ok? && !first.value.cacheHit ==> expires == first.value.fetchedAt + request.ttl
    ensures first.Ok? && first.value.cacheHit ==>
      request.key in old(client.cache.values) && expires == old(client.cache.values)[request.key].expiresAt
    ensures first.Ok? && client.policy.wall(begun) < expires ==>
      second == Ok(Document(first.value.payload, first.value.fetchedAt, 0, true)) && trace == [] && client.now == begun
    ensures first.Ok? && client.policy.wall(begun) >= expires ==>
      IsRun(Call(client.policy, request, begun, deadlineAgain, serveAgain), trace, second)
  {
    hide IsRun;
    expires := 0.0;
    ghost var start := client.now;
    ghost var sends;
    first, sends := client.RequestJson(request, deadline, serve);
    if first.Ok? {
      if IsRun(Call(client.policy, request, start, deadline, serve), sends, first) {
        DeliveredDocument(Call(client.policy, request, start, deadline, serve), sends, first);
      }
      assert request.key in client.cache.values;
      expires := client.cache.values[request.key].expiresAt;
    }
    client.Sleep(idle);
    begun := client.now;
    second, trace := client.RequestJson(request, deadlineAgain, serveAgain);
  }
}
