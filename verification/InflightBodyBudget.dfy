/**
 The admission controller of openwa/src/config/inflight-body-budget.ts.

 The program keeps one running counter, `inFlightBytes`, and one bundle of closure variables per
 admitted request. The specification functions below have no counter: they decide everything from
 the sum of the reservations that are still held. The class at the end is the program's own shape,
 and its methods are proved to keep the counter equal to that sum and to follow the specification.
 */
module BodyBudget {
  import opened Options

  const STALL_TIMEOUT_MS: nat := 15_000
  const STALL_POLL_MS: nat := 5_000
  const UNDECLARED_OPENING_RESERVATION_BYTES: nat := 1024 * 1024
  const DEFAULT_BUDGET_MULTIPLIER: nat := 4
  const MAX_SAFE_INTEGER: nat := 0x1F_FFFF_FFFF_FFFF

  /** What JavaScript's `Number` makes of a header or environment value. */
  datatype JsNumber = NaN | Infinite | Finite(value: real)

  /** The parts of a request the middleware looks at; `encoding` is trimmed and in lower case. */
  datatype Request = Request(contentLength: Option<JsNumber>, transferEncoding: bool, encoding: string,
                             responseStarted: bool)

  datatype Reply = Passed | Refused(status: nat) | SocketDropped

  /** The closure variables of one admitted request; `armed` says that `stallTimer` is set. */
  datatype Closure = Closure(declared: Option<nat>, reserved: nat, released: bool, armed: bool,
                             startBytes: nat, lastBytes: nat, lastProgress: nat)

  function ParseDeclaredLength(raw: Option<JsNumber>): Option<nat> {
    if raw.Some? && raw.value.Finite? && raw.value.value == raw.value.value.Floor as real
       && 0 <= raw.value.value.Floor <= MAX_SAFE_INTEGER
    then Some(raw.value.value.Floor) else None
  }

  /** An explicit positive integer wins; otherwise four times the per-request cap. */
  function ResolveBudget(explicit: Option<JsNumber>, cap: nat): nat {
    if explicit.Some? && explicit.value.Finite? && explicit.value.value == explicit.value.value.Floor as real
       && explicit.value.value.Floor > 0
    then explicit.value.value.Floor else DEFAULT_BUDGET_MULTIPLIER * cap
  }

  function OpeningReservation(budget: nat): (r: nat)
    ensures 1 <= r && (budget >= 1 ==> r <= budget)
  {
    Max(1, Min(UNDECLARED_OPENING_RESERVATION_BYTES, budget))
  }

  function Reservation(budget: nat, req: Request): nat {
    match ParseDeclaredLength(req.contentLength)
    case Some(n) => n
    case None => if req.transferEncoding then OpeningReservation(budget) else 0
  }

  predicate BodyIndicated(req: Request) {
    req.transferEncoding || (req.contentLength.Some? && !req.contentLength.value.NaN?)
  }

  predicate Compressed(req: Request) {
    BodyIndicated(req) && req.encoding != "" && req.encoding != "identity"
  }

  function Reject(req: Request, status: nat): Reply {
    if req.responseStarted then SocketDropped else Refused(status)
  }

  // ---------------------------------------------------------------- specification without a counter

  function Held(c: Closure): nat { if c.released then 0 else c.reserved }

  /** The bytes reserved by admitted requests that have not been released. */
  function Sum(cs: seq<Closure>): nat {
    if |cs| == 0 then 0 else Sum(cs[..|cs| - 1]) + Held(cs[|cs| - 1])
  }

  function Opened(budget: nat, req: Request, bytesRead: nat, now: nat): Closure {
    var r := Reservation(budget, req);
    Closure(ParseDeclaredLength(req.contentLength), r, false, r > 0, bytesRead, bytesRead, now)
  }

  function Arrive(budget: nat, cs: seq<Closure>, req: Request, bytesRead: nat, now: nat): (Reply, seq<Closure>) {
    if Compressed(req) then (Reject(req, 415), cs)
    else if Sum(cs) + Reservation(budget, req) > budget then (Reject(req, 503), cs)
    else (Passed, cs + [Opened(budget, req, bytesRead, now)])
  }

  function Released(c: Closure): Closure { c.(released := true, armed := false) }

  function Disarmed(c: Closure): Closure { c.(armed := false) }

  function Reconciled(budget: nat, c: Closure, readNow: nat): Closure {
    if c.declared.Some? then c else c.(reserved := Max(OpeningReservation(budget), readNow - c.startBytes))
  }

  predicate Stalled(c: Closure, readNow: nat, now: nat) {
    readNow == c.lastBytes && now - c.lastProgress >= STALL_TIMEOUT_MS
  }

  /** One firing of request i's interval timer. */
  function Poll(budget: nat, cs: seq<Closure>, i: nat, complete: bool, readNow: nat, now: nat): seq<Closure>
    requires i < |cs|
  {
    var c := cs[i];
    if complete then cs[i := Disarmed(c)]
    else if readNow != c.lastBytes then
      var seen := Reconciled(budget, c, readNow).(lastBytes := readNow, lastProgress := now);
      if Sum(cs[i := seen]) > budget then cs[i := Released(seen)]
      else if c.declared.Some? && readNow - c.startBytes >= c.declared.value then cs[i := Disarmed(seen)]
      else cs[i := seen]
    else if Stalled(c, readNow, now) then cs[i := Released(c)]
    else cs
  }

  lemma {:induction false} SumUpdate(cs: seq<Closure>, i: nat, c: Closure)
    requires i < |cs|
    ensures Sum(cs[i := c]) == Sum(cs) - Held(cs[i]) + Held(c)
  {
    var n := |cs| - 1;
    if i == n {
      assert cs[i := c][..n] == cs[..n];
    } else {
      assert cs[i := c][..n] == cs[..n][i := c];
      SumUpdate(cs[..n], i, c);
    }
  }

  lemma SumAppend(cs: seq<Closure>, c: Closure)
    ensures Sum(cs + [c]) == Sum(cs) + Held(c)
  {
  }

  lemma {:induction false} SumZeroWhenAllReleased(cs: seq<Closure>)
    requires forall c :: c in cs ==> c.released
    ensures Sum(cs) == 0
  {
    if |cs| > 0 { SumZeroWhenAllReleased(cs[..|cs| - 1]); }
  }

  // ---------------------------------------------------------------- the program

  class InflightBodyBudget {
    const budgetBytes: nat
    const undeclaredReservation: nat
    var inFlightBytes: int
    var closures: seq<Closure>

    /** The counter is exactly what is held. This is true even inside a call. */
    ghost predicate Counted()
      reads this
    {
      && undeclaredReservation == OpeningReservation(budgetBytes)
      && inFlightBytes == Sum(closures)
    }

    /** Between two events the counter is also within the budget. */
    ghost predicate Valid()
      reads this
    {
      && Counted()
      && inFlightBytes <= budgetBytes
      && forall c :: c in closures && c.armed ==> !c.released
    }

    constructor (budgetBytes: nat)
      ensures Valid() && this.budgetBytes == budgetBytes && closures == [] && inFlightBytes == 0
    {
      this.budgetBytes := budgetBytes;
      undeclaredReservation := Max(1, Min(UNDECLARED_OPENING_RESERVATION_BYTES, budgetBytes));
      inFlightBytes := 0;
      closures := [];
    }

    method Middleware(req: Request, bytesRead: nat, now: nat) returns (reply: Reply)
      requires Valid()
      modifies this
      ensures Valid()
      ensures (reply, closures) == Arrive(budgetBytes, old(closures), req, bytesRead, now)
      ensures reply != Passed ==> inFlightBytes == old(inFlightBytes)
    {
      var declared := ParseDeclaredLength(req.contentLength);
      var reserved: nat := match declared
                           case Some(n) => n
                           case None => if req.transferEncoding then undeclaredReservation else 0;
      if BodyIndicated(req) && req.encoding != "" && req.encoding != "identity" {
        return Reject(req, 415);
      }
      if inFlightBytes + reserved > budgetBytes {
        return Reject(req, 503);
      }
      inFlightBytes := inFlightBytes + reserved;
      var c := Closure(declared, reserved, false, false, bytesRead, bytesRead, now);
      if reserved > 0 {
        c := c.(armed := true);
      }
      SumAppend(closures, c);
      closures := closures + [c];
      return Passed;
    }

    /** Any of the five terminal events: only the first one gives the reservation back. */
    method Release(i: nat)
      requires Counted() && i < |closures|
      requires closures[i].armed ==> !closures[i].released
      modifies this
      ensures Counted()
      ensures closures == old(closures)[i := Released(old(closures)[i])]
      ensures inFlightBytes == old(inFlightBytes) - Held(old(closures)[i])
    {
      ghost var before := closures;
      SumUpdate(before, i, Released(before[i]));
      if closures[i].released {
        assert closures == before[i := Released(before[i])];
        return;
      }
      closures := closures[i := closures[i].(released := true)];
      Disarm(i);
      inFlightBytes := inFlightBytes - closures[i].reserved;
      assert closures == before[i := Released(before[i])];
    }

    method Disarm(i: nat)
      requires i < |closures|
      modifies this`closures
      ensures closures == old(closures)[i := Disarmed(old(closures)[i])]
    {
      if !closures[i].armed { return; }
      closures := closures[i := closures[i].(armed := false)];
    }

    /** The request's 'end' event. */
    method OnEnd(i: nat)
      requires Valid() && i < |closures|
      modifies this
      ensures Valid() && inFlightBytes == old(inFlightBytes)
      ensures closures == old(closures)[i := Disarmed(old(closures)[i])]
    {
      SumUpdate(closures, i, Disarmed(closures[i]));
      Disarm(i);
    }

    /**
     Growing the reservation can carry the counter over the budget, but only until the same call
     has released the request again.
     */
    method ReconcileUndeclared(i: nat, readNow: nat) returns (destroyed: bool)
      requires Valid() && i < |closures| && closures[i].declared.None? && !closures[i].released
      modifies this
      ensures Valid()
      ensures var seen := Reconciled(budgetBytes, old(closures)[i], readNow);
        && destroyed == (Sum(old(closures)[i := seen]) > budgetBytes)
        && closures == old(closures)[i := if destroyed then Released(seen) else seen]
    {
      destroyed := false;
      var actual := Max(undeclaredReservation, readNow - closures[i].startBytes);
      SumUpdate(closures, i, Reconciled(budgetBytes, closures[i], readNow));
      if actual == closures[i].reserved { return; }
      inFlightBytes := inFlightBytes + (actual - closures[i].reserved);
      closures := closures[i := closures[i].(reserved := actual)];
      if inFlightBytes > budgetBytes {
        Release(i);
        destroyed := true;
      }
    }

    /** The interval callback; the timer only fires while it is armed. */
    method OnPoll(i: nat, complete: bool, readNow: nat, now: nat) returns (destroyed: bool)
      requires Valid() && i < |closures| && closures[i].armed
      modifies this
      ensures Valid()
      ensures closures == Poll(budgetBytes, old(closures), i, complete, readNow, now)
      ensures destroyed == (closures[i].released && !old(closures)[i].released)
    {
      destroyed := false;
      if complete {
        OnEnd(i);
        return;
      }
      ghost var before := closures;
      var c := closures[i];
      if readNow != c.lastBytes {
        ghost var seen := Reconciled(budgetBytes, c, readNow);
        if c.declared.None? {
          destroyed := ReconcileUndeclared(i, readNow);
        }
        var d := closures[i].(lastBytes := readNow, lastProgress := now);
        SumUpdate(closures, i, d);
        closures := closures[i := d];
        SumUpdate(before, i, seen);
        SumUpdate(before, i, seen.(lastBytes := readNow, lastProgress := now));
        if c.declared.Some? && readNow - c.startBytes >= c.declared.value {
          OnEnd(i);
        }
        return;
      }
      if now - c.lastProgress >= STALL_TIMEOUT_MS {
        Release(i);
        destroyed := true;
      }
    }
  }
}
