/**
 The retry middleware of openwa/sdk/go/retry.go, run against an arbitrary server.

 `Backoff` and `RoundTrip` are the program's loops. What a run of `RoundTrip` may look like is
 written down once, without a loop, in `IsRun`; the claims about sends, responses and waiting are
 proved of every log that satisfies it.
 */
module Retry {
  import opened Options

  // ---------------------------------------------------------------- durations (int64 nanoseconds)

  const TWO62: int := 0x4000_0000_0000_0000
  const TWO63: int := 0x8000_0000_0000_0000
  const TWO64: int := 0x1_0000_0000_0000_0000
  const DEFAULT_BASE_DELAY: int := 200_000_000
  const SECOND: int := 1_000_000_000

  function Wrap64(x: int): int { (x + TWO63) % TWO64 - TWO63 }

  function Pow2(n: nat): (p: nat)
    ensures p >= 1
  {
    if n == 0 then 1 else 2 * Pow2(n - 1)
  }

  /** `retryAfter` is the header as parsed: seconds, or the time that is left until a date. */
  datatype RetryAfter = Missing | Seconds(n: int) | Until(left: int) | Garbled

  datatype Response = Response(status: int, retryAfter: RetryAfter)

  /** `Expired` is a context cancellation or deadline; every other transport error is `Network`. */
  datatype Failure = Expired | Network

  datatype Outcome = Outcome(resp: Option<Response>, err: Option<Failure>)

  /**
   One attempt as the world would answer it. `acted` says whether the server processed the request;
   `rewindFails` is an error of `GetBody` before it, `cancelled` a context end during the wait after it.
   */
  datatype Attempt = Attempt(rewindFails: bool, outcome: Outcome, acted: bool, cancelled: bool)

  type Server = nat -> Attempt

  datatype Policy = Policy(maxRetries: int, baseDelay: int, maxDelay: int, statuses: Option<seq<int>>,
                           respectRetryAfter: bool)

  // ---------------------------------------------------------------- backoff

  function Base(p: Policy): int { if p.baseDelay <= 0 then DEFAULT_BASE_DELAY else p.baseDelay }

  /** `steps` more doublings of d, in wrapping arithmetic, cut off at a positive cap. */
  function Doubled(d: int, cap: int, steps: nat): int
    decreases steps
  {
    if steps == 0 then (if cap > 0 && d > cap then cap else d)
    else
      var e := Wrap64(2 * d);
      if cap > 0 && e >= cap then cap else Doubled(e, cap, steps - 1)
  }

  function BackoffDelay(p: Policy, attempt: nat): int { Doubled(Base(p), p.maxDelay, attempt) }

  method Backoff(p: Policy, attempt: nat) returns (delay: int)
    ensures delay == BackoffDelay(p, attempt)
  {
    var base := p.baseDelay;
    if base <= 0 { base := DEFAULT_BASE_DELAY; }
    var d := base;
    for i := 0 to attempt
      invariant Doubled(d, p.maxDelay, attempt - i) == BackoffDelay(p, attempt)
    {
      d := Wrap64(d * 2);
      if p.maxDelay > 0 && d >= p.maxDelay { return p.maxDelay; }
    }
    if p.maxDelay > 0 && d > p.maxDelay { return p.maxDelay; }
    return d;
  }

  lemma {:induction false} DoubledCapped(d: int, cap: int, steps: nat)
    requires 0 < d < TWO62 && 0 < cap <= TWO62
    ensures Doubled(d, cap, steps) == Min(d * Pow2(steps), cap)
    decreases steps
  {
    if steps > 0 {
      assert Wrap64(2 * d) == 2 * d;
      PowSplit(d, steps);
      if 2 * d < cap { DoubledCapped(2 * d, cap, steps - 1); } else { MulAtLeast(2 * d, Pow2(steps - 1)); }
    }
  }

  lemma PowSplit(d: int, n: nat)
    requires n > 0
    ensures d * Pow2(n) == 2 * d * Pow2(n - 1)
  {
  }

  lemma MulAtLeast(a: nat, b: nat)
    requires b >= 1
    ensures a * b >= a
  {
  }

  /** With a cap the doubling loop is the minimum it stands for, and nothing overflows on the way. */
  lemma BackoffIsCappedDoubling(p: Policy, attempt: nat)
    requires p.baseDelay < TWO62 && 0 < p.maxDelay <= TWO62
    ensures var base := if p.baseDelay > 0 then p.baseDelay else 200_000_000;
      BackoffDelay(p, attempt) == Min(base * Pow2(attempt), p.maxDelay)
  {
    DoubledCapped(Base(p), p.maxDelay, attempt);
  }

  lemma BackoffMonotone(p: Policy, a: nat, b: nat)
    requires a <= b && p.baseDelay < TWO62 && 0 < p.maxDelay <= TWO62
    ensures 0 < BackoffDelay(p, a) <= BackoffDelay(p, b) <= p.maxDelay
  {
    BackoffIsCappedDoubling(p, a);
    BackoffIsCappedDoubling(p, b);
    PowMonotone(a, b);
    MulOrder(Base(p), Pow2(a), Pow2(b));
    MulAtLeast(Base(p), Pow2(a));
  }

  lemma {:induction false} PowMonotone(a: nat, b: nat)
    requires a <= b
    ensures Pow2(a) <= Pow2(b)
    decreases b
  {
    if a < b { PowMonotone(a, b - 1); }
  }

  lemma MulOrder(c: nat, a: nat, b: nat)
    requires a <= b
    ensures c * a <= c * b
  {
  }

  /** Without a cap the loop is right exactly as long as the product fits in 63 bits. */
  lemma UncappedBackoffIff(p: Policy, attempt: nat)
    requires p.maxDelay <= 0 && p.baseDelay < TWO63
    ensures BackoffDelay(p, attempt) == Base(p) * Pow2(attempt) <==> Base(p) * Pow2(attempt) < TWO63
  {
    DoubledUncapped(Base(p), p.maxDelay, attempt);
    WrapFixpoint(Base(p) * Pow2(attempt));
  }

  lemma {:induction false} DoubledUncapped(d: int, cap: int, steps: nat)
    requires -TWO63 <= d < TWO63 && cap <= 0
    ensures Doubled(d, cap, steps) == Wrap64(d * Pow2(steps))
    decreases steps
  {
    if steps > 0 {
      var e := Wrap64(2 * d);
      DoubledUncapped(e, cap, steps - 1);
      PowSplit(d, steps);
      WrapTimes(2 * d, Pow2(steps - 1));
    } else {
      assert d * Pow2(0) == d;
    }
  }

  lemma WrapFixpoint(x: int)
    requires x >= 0
    ensures Wrap64(x) == x <==> x < TWO63
  {
  }

  /** Wrapping before a multiplication is not visible after it. */
  lemma WrapTimes(x: int, m: nat)
    ensures Wrap64(Wrap64(x) * m) == Wrap64(x * m)
  {
    var q := (x + TWO63) / TWO64;
    assert Wrap64(x) == x - q * TWO64;
    assert (x - q * TWO64) * m == x * m - (q * m) * TWO64;
    WrapShift(x * m, q * m);
  }

  lemma WrapShift(y: int, k: int)
    ensures Wrap64(y - k * TWO64) == Wrap64(y)
  {
  }

  // ---------------------------------------------------------------- what may be retried

  predicate Idempotent(verb: string) { verb in {"GET", "HEAD", "OPTIONS", "PUT", "DELETE"} }

  predicate Backpressure(status: int) { status == 429 || status == 503 }

  predicate RetryableStatus(p: Policy, status: int) {
    status in (if p.statuses.Some? then p.statuses.value else [429, 500, 502, 503, 504])
  }

  predicate RetryableForMethod(verb: string, status: int) { Idempotent(verb) || Backpressure(status) }

  predicate Retryable(p: Policy, verb: string, o: Outcome) {
    match o.err
    case Some(Expired) => false
    case Some(Network) => Idempotent(verb)
    case None =>
      o.resp.Some? && RetryableStatus(p, o.resp.value.status) && RetryableForMethod(verb, o.resp.value.status)
  }

  function ParseRetryAfter(r: Response): Option<int> {
    match r.retryAfter
    case Seconds(n) => Some(Wrap64(n * SECOND))
    case Until(left) => if left > 0 then Some(left) else None
    case _ => None
  }

  /** The wait after attempt k: the backoff, or a longer Retry-After. */
  function Delay(p: Policy, o: Outcome, k: nat): int {
    var b := BackoffDelay(p, k);
    if o.resp.Some? && p.respectRetryAfter && ParseRetryAfter(o.resp.value).Some?
    then Max(b, ParseRetryAfter(o.resp.value).value) else b
  }

  // ---------------------------------------------------------------- runs

  datatype End = RewindFailed | Returned(outcome: Outcome) | Aborted

  /** What one call did: the outcomes it received, the responses it closed (by attempt) and the waits it began. */
  datatype Log = Log(outcomes: seq<Outcome>, closed: seq<nat>, waits: seq<int>, end: End)

  /** The attempts below n that came back with a response, in order. */
  function Answered(server: Server, n: nat): seq<nat> {
    if n == 0 then []
    else Answered(server, n - 1) + if server(n - 1).outcome.resp.Some? then [n - 1] else []
  }

  /** Attempts below w were all retried after the wait recorded for them, and their responses closed. */
  ghost predicate Retried(p: Policy, verb: string, server: Server, closed: seq<nat>, waits: seq<int>) {
    && (forall k :: 0 <= k < |waits| ==>
         k < p.maxRetries && Retryable(p, verb, server(k).outcome) && waits[k] == Delay(p, server(k).outcome, k))
    && closed == Answered(server, |waits|)
  }

  ghost predicate IsRun(p: Policy, verb: string, server: Server, log: Log) {
    var n, w := |log.outcomes|, |log.waits|;
    && (forall k :: 0 <= k < n ==> !server(k).rewindFails && log.outcomes[k] == server(k).outcome)
    && w <= n
    && Retried(p, verb, server, log.closed, log.waits)
    && (forall k :: 0 <= k < w - 1 ==> !server(k).cancelled)
    && match log.end
       case RewindFailed => w == n && server(n).rewindFails && (w > 0 ==> !server(w - 1).cancelled)
       case Returned(o) => n == w + 1 && o == server(w).outcome && (w > 0 ==> !server(w - 1).cancelled)
         && !(Retryable(p, verb, o) && w < p.maxRetries)
       case Aborted => w == n > 0 && server(w - 1).cancelled
  }

  /** The loop's state before an attempt: everything so far was retried. */
  ghost predicate SoFar(p: Policy, verb: string, server: Server, outcomes: seq<Outcome>, closed: seq<nat>,
                        waits: seq<int>) {
    && |outcomes| == |waits| <= Max(0, p.maxRetries)
    && (forall k :: 0 <= k < |outcomes| ==>
         !server(k).rewindFails && !server(k).cancelled && outcomes[k] == server(k).outcome)
    && Retried(p, verb, server, closed, waits)
  }

  /** One more attempt, and how each exit after it is a run. */
  lemma Attempted(p: Policy, verb: string, server: Server, outcomes: seq<Outcome>, closed: seq<nat>, waits: seq<int>)
    requires SoFar(p, verb, server, outcomes, closed, waits)
    ensures var n := |waits|;
      var a := server(n);
      var o := a.outcome;
      var retry := !a.rewindFails && Retryable(p, verb, o) && n < p.maxRetries;
      var closed', waits' := (if o.resp.Some? then closed + [n] else closed), waits + [Delay(p, o, n)];
      && (a.rewindFails ==> IsRun(p, verb, server, Log(outcomes, closed, waits, RewindFailed)))
      && (!a.rewindFails && !retry ==> IsRun(p, verb, server, Log(outcomes + [o], closed, waits, Returned(o))))
      && (retry && a.cancelled ==> IsRun(p, verb, server, Log(outcomes + [o], closed', waits', Aborted)))
      && (retry && !a.cancelled ==> SoFar(p, verb, server, outcomes + [o], closed', waits'))
  {
    var a := server(|waits|);
    if !a.rewindFails && Retryable(p, verb, a.outcome) && |waits| < p.maxRetries {
      RetriedSnoc(p, verb, server, closed, waits);
    }
  }

  lemma RetriedSnoc(p: Policy, verb: string, server: Server, closed: seq<nat>, waits: seq<int>)
    requires Retried(p, verb, server, closed, waits)
    requires Retryable(p, verb, server(|waits|).outcome) && |waits| < p.maxRetries
    ensures var n, o := |waits|, server(|waits|).outcome;
      Retried(p, verb, server, if o.resp.Some? then closed + [n] else closed, waits + [Delay(p, o, n)])
  {
    var n, o := |waits|, server(|waits|).outcome;
    var closed' := if o.resp.Some? then closed + [n] else closed;
    assert Answered(server, n + 1) == closed' by { if o.resp.None? { assert closed + [] == closed; } }
  }

  method RoundTrip(p: Policy, verb: string, server: Server) returns (log: Log)
    ensures IsRun(p, verb, server, log)
  {
    var outcomes: seq<Outcome>, closed: seq<nat>, waits: seq<int> := [], [], [];
    var attempt: nat := 0;
    while true
      invariant attempt == |waits|
      invariant SoFar(p, verb, server, outcomes, closed, waits)
      decreases Max(0, p.maxRetries) - attempt
    {
      Attempted(p, verb, server, outcomes, closed, waits);
      if server(attempt).rewindFails {
        return Log(outcomes, closed, waits, RewindFailed);
      }
      var o := server(attempt).outcome;
      outcomes := outcomes + [o];
      var retryable := false;
      if o.err.Some? {
        if o.err.value.Expired? {
          return Log(outcomes, closed, waits, Returned(o));
        }
        retryable := Idempotent(verb);
      } else if o.resp.Some? && RetryableStatus(p, o.resp.value.status) {
        retryable := RetryableForMethod(verb, o.resp.value.status);
      }
      if !retryable || attempt >= p.maxRetries {
        return Log(outcomes, closed, waits, Returned(o));
      }
      var delay := Backoff(p, attempt);
      if o.resp.Some? {
        if p.respectRetryAfter {
          var ra := ParseRetryAfter(o.resp.value);
          if ra.Some? && ra.value > delay { delay := ra.value; }
        }
        closed := closed + [attempt];
      }
      waits := waits + [delay];
      if server(attempt).cancelled {
        return Log(outcomes, closed, waits, Aborted);
      }
      attempt := attempt + 1;
    }
  }

  /** `IsRun` leaves nothing open: policy, verb and server determine the whole log. */
  lemma RunIsDetermined(p: Policy, verb: string, server: Server, a: Log, b: Log)
    requires IsRun(p, verb, server, a) && IsRun(p, verb, server, b)
    ensures a == b
  {
  }

  /** What one outcome says of another attempt, by verb and status. */
  predicate MayRepeat(p: Policy, verb: string, o: Outcome) {
    var safe := verb in {"GET", "HEAD", "OPTIONS", "PUT", "DELETE"};
    if o.err.Some? then o.err.value == Network && safe
    else
      && o.resp.Some?
      && (if p.statuses.Some? then o.resp.value.status in p.statuses.value
          else o.resp.value.status in {429, 500, 502, 503, 504})
      && (safe || o.resp.value.status in {429, 503})
  }

  /** In any run an attempt is followed by a wait exactly if a retry is left and its outcome may be repeated. */
  lemma WaitsIff(p: Policy, verb: string, server: Server, log: Log, k: nat)
    requires IsRun(p, verb, server, log) && k < |log.outcomes|
    ensures k < |log.waits| <==> k < p.maxRetries && MayRepeat(p, verb, server(k).outcome)
  {
    assert k < |log.waits| ==> Retryable(p, verb, server(k).outcome);
  }

  /** And it waits for the backoff, or for as long as an honoured Retry-After asks if that is longer. */
  lemma WaitIs(p: Policy, verb: string, server: Server, log: Log, k: nat)
    requires IsRun(p, verb, server, log) && k < |log.waits|
    ensures var o, backoff := server(k).outcome, BackoffDelay(p, k);
      var header := if p.respectRetryAfter && o.resp.Some? then o.resp.value.retryAfter else Missing;
      match header
      case Seconds(n) =>
        0 <= n < 0x8000_0000_0000_0000 / 1_000_000_000 ==> log.waits[k] == Max(backoff, n * 1_000_000_000)
      case Until(left) => log.waits[k] == if left > 0 then Max(backoff, left) else backoff
      case _ => log.waits[k] == backoff
  {
    assert log.waits[k] == Delay(p, server(k).outcome, k);
  }

  // ---------------------------------------------------------------- termination and disposal

  lemma AttemptsBounded(p: Policy, verb: string, server: Server, log: Log)
    requires IsRun(p, verb, server, log)
    ensures |log.outcomes| <= Max(0, p.maxRetries) + 1
  {
  }

  /** How often attempt k is in a list of attempts. */
  function Times(attempts: seq<nat>, k: nat): nat {
    if |attempts| == 0 then 0
    else Times(attempts[..|attempts| - 1], k) + if attempts[|attempts| - 1] == k then 1 else 0
  }

  function One(b: bool): nat { if b then 1 else 0 }

  /** Every response received is closed exactly once or returned, never both and never neither. */
  lemma EveryResponseDisposedOnce(p: Policy, verb: string, server: Server, log: Log, k: nat)
    requires IsRun(p, verb, server, log)
    ensures var received := k < |log.outcomes| && server(k).outcome.resp.Some?;
      var returned := received && log.end.Returned? && k == |log.outcomes| - 1;
      Times(log.closed, k) + One(returned) == One(received)
  {
    AnsweredOnce(server, |log.waits|, k);
  }

  lemma {:induction false} AnsweredOnce(server: Server, n: nat, k: nat)
    ensures Times(Answered(server, n), k) == One(k < n && server(k).outcome.resp.Some?)
  {
    if n > 0 {
      var before := Answered(server, n - 1);
      AnsweredOnce(server, n - 1, k);
      assert (before + [n - 1])[..|before|] == before;
      assert before + [] == before;
    }
  }

  // ---------------------------------------------------------------- at most one send

  predicate Declined(o: Outcome) { o.err.None? && o.resp.Some? && o.resp.value.status in {429, 503} }

  /** 429 and 503 prove that the server declined before acting. Nothing else is assumed of it. */
  ghost predicate Honest(server: Server) {
    forall k :: Declined(server(k).outcome) ==> !server(k).acted
  }

  function ActedCount(server: Server, n: nat): nat {
    if n == 0 then 0 else ActedCount(server, n - 1) + if server(n - 1).acted then 1 else 0
  }

  lemma {:induction false} NothingActed(server: Server, n: nat)
    requires forall k :: 0 <= k < n ==> !server(k).acted
    ensures ActedCount(server, n) == 0
  {
    if n > 0 { NothingActed(server, n - 1); }
  }

  /** A non-idempotent request (every send) is acted on at most once, and only by the last attempt. */
  lemma AtMostOneSend(p: Policy, verb: string, server: Server, log: Log)
    requires IsRun(p, verb, server, log) && Honest(server) && !Idempotent(verb)
    ensures ActedCount(server, |log.outcomes|) <= 1
    ensures forall k :: 0 <= k < |log.waits| ==> !server(k).acted
  {
    forall k | 0 <= k < |log.waits| ensures !server(k).acted {
      assert Retryable(p, verb, server(k).outcome);
    }
    NothingActed(server, |log.waits|);
  }

  ghost predicate SendsAtMostOnce(p: Policy, verb: string) {
    forall server: Server, log :: IsRun(p, verb, server, log) && Honest(server) ==>
      ActedCount(server, |log.outcomes|) <= 1
  }

  /** Every send is a POST, and no policy can make the middleware repeat one that was acted on. */
  lemma PostIsSentAtMostOnce(p: Policy)
    ensures SendsAtMostOnce(p, "POST")
  {
    forall server: Server, log | IsRun(p, "POST", server, log) && Honest(server)
      ensures ActedCount(server, |log.outcomes|) <= 1
    {
      AtMostOneSend(p, "POST", server, log);
    }
  }

  /** With at least one retry allowed, all verbs but five have that guarantee. */
  lemma SendsAtMostOnceIff(p: Policy, verb: string)
    requires p.maxRetries >= 1
    ensures SendsAtMostOnce(p, verb) <==> verb !in {"GET", "HEAD", "OPTIONS", "PUT", "DELETE"}
  {
    if Idempotent(verb) {
      ActedTwice(p, verb);
    } else {
      forall server: Server, log | IsRun(p, verb, server, log) && Honest(server)
        ensures ActedCount(server, |log.outcomes|) <= 1
      {
        AtMostOneSend(p, verb, server, log);
      }
    }
  }

  /** The connection is lost after the server has acted; the next attempt is acted on as well. */
  lemma ActedTwice(p: Policy, verb: string)
    requires p.maxRetries >= 1 && Idempotent(verb)
    ensures !SendsAtMostOnce(p, verb)
  {
    var lost, done := Outcome(None, Some(Network)), Outcome(None, Some(Expired));
    var twice: Server := (k: nat) => Attempt(false, if k == 0 then lost else done, true, false);
    var log := Log([lost, done], [], [Delay(p, lost, 0)], Returned(done));
    assert twice(0).outcome == lost && twice(1).outcome == done;
    assert Answered(twice, 1) == [];
    assert IsRun(p, verb, twice, log);
    assert ActedCount(twice, 0) == 0 && ActedCount(twice, 1) == 1 && ActedCount(twice, 2) == 2;
    assert Honest(twice);
  }

  // ---------------------------------------------------------------- total wait

  function Total(waits: seq<int>): int {
    if |waits| == 0 then 0 else Total(waits[..|waits| - 1]) + waits[|waits| - 1]
  }

  lemma AddWait(base: nat, cap: nat, power: nat, n: nat, total: int, wait: int)
    requires total <= n * cap && total <= base * (power - 1)
    requires wait <= cap && wait <= base * power
    ensures total + wait <= (n + 1) * cap && total + wait <= base * (2 * power - 1)
  {
    assert base * (power - 1) + base * power == base * (2 * power - 1);
  }

  lemma {:induction false} TotalOfBackoffs(p: Policy, waits: seq<int>)
    requires p.baseDelay < TWO62 && 0 < p.maxDelay <= TWO62
    requires forall k :: 0 <= k < |waits| ==> waits[k] == BackoffDelay(p, k)
    ensures Total(waits) <= |waits| * p.maxDelay
    ensures Total(waits) <= Base(p) * (Pow2(|waits|) - 1)
  {
    if |waits| > 0 {
      var n := |waits| - 1;
      TotalOfBackoffs(p, waits[..n]);
      BackoffIsCappedDoubling(p, n);
      AddWait(Base(p), p.maxDelay, Pow2(n), n, Total(waits[..n]), waits[n]);
    }
  }

  /** What an honoured Retry-After makes the wait after attempt k longer by. */
  function Extra(p: Policy, o: Outcome, k: nat): nat {
    if o.resp.Some? && p.respectRetryAfter && ParseRetryAfter(o.resp.value).Some?
    then Max(0, ParseRetryAfter(o.resp.value).value - BackoffDelay(p, k)) else 0
  }

  function TotalExtra(p: Policy, server: Server, n: nat): nat {
    if n == 0 then 0 else TotalExtra(p, server, n - 1) + Extra(p, server(n - 1).outcome, n - 1)
  }

  function Backoffs(p: Policy, n: nat): seq<int> {
    if n == 0 then [] else Backoffs(p, n - 1) + [BackoffDelay(p, n - 1)]
  }

  lemma {:induction false} BackoffsAt(p: Policy, n: nat)
    ensures |Backoffs(p, n)| == n && forall k :: 0 <= k < n ==> Backoffs(p, n)[k] == BackoffDelay(p, k)
  {
    if n > 0 { BackoffsAt(p, n - 1); }
  }

  lemma {:induction false} WaitsSplit(p: Policy, server: Server, waits: seq<int>)
    requires forall k :: 0 <= k < |waits| ==> waits[k] == Delay(p, server(k).outcome, k)
    ensures Total(waits) == Total(Backoffs(p, |waits|)) + TotalExtra(p, server, |waits|)
  {
    if |waits| > 0 {
      var n := |waits| - 1;
      WaitsSplit(p, server, waits[..n]);
      var b := Backoffs(p, n);
      assert (b + [BackoffDelay(p, n)])[..|b|] == b;
    }
  }

  /**
   A run waits no longer than the policy says it can, and what honoured Retry-After headers of its own
   attempts ask for beyond the backoff.
   */
  lemma TotalWaitBounded(p: Policy, verb: string, server: Server, log: Log)
    requires IsRun(p, verb, server, log)
    requires p.baseDelay < TWO62 && 0 < p.maxDelay <= TWO62
    ensures Total(log.waits)
      <= Min(Max(0, p.maxRetries) * p.maxDelay, Base(p) * (Pow2(Max(0, p.maxRetries)) - 1))
         + TotalExtra(p, server, |log.waits|)
  {
    var w := |log.waits|;
    assert w <= Max(0, p.maxRetries) by { if w > 0 { assert w - 1 < p.maxRetries; } }
    WaitsSplit(p, server, log.waits);
    BackoffsBounded(p, w, Max(0, p.maxRetries));
  }

  lemma BackoffsBounded(p: Policy, w: nat, m: nat)
    requires p.baseDelay < TWO62 && 0 < p.maxDelay <= TWO62 && w <= m
    ensures Total(Backoffs(p, w)) <= Min(m * p.maxDelay, Base(p) * (Pow2(m) - 1))
  {
    var backoffs := Backoffs(p, w);
    BackoffsAt(p, w);
    TotalOfBackoffs(p, backoffs);
    PowMonotone(w, m);
    WiderBound(Total(backoffs), p.maxDelay, w, m);
    WiderBound(Total(backoffs), Base(p), Pow2(w) - 1, Pow2(m) - 1);
  }

  lemma WiderBound(total: int, c: nat, a: nat, b: nat)
    requires a <= b && (total <= c * a || total <= a * c)
    ensures total <= c * b == b * c
  {
    MulOrder(c, a, b);
  }
}
