/**
 Whole runs of the body budget: any interleaving of arrivals, body bytes, timer firings, stream and
 terminal events, and the passage of time, over any number of connections.
 */
module BodyBudgetRuns {
  import opened Options
  import opened BodyBudget

  /**
   What the program cannot see directly about one admitted request. `read` is `socket.bytesRead`;
   `early` counts body bytes that had been read before the middleware ran; `due` is when the interval
   timer fires next; `reapedAt` is when the stall branch destroyed the request.
   */
  datatype Wire = Wire(read: nat, early: nat, complete: bool, lastByteAt: nat, due: nat, reapedAt: Option<nat>)

  datatype System = System(now: nat, closures: seq<Closure>, wires: seq<Wire>)

  datatype TerminalEvent = ResFinish | ResClose | ResError | ReqClose | ReqError

  datatype Event =
    | Arrival(req: Request, bytesRead: nat, early: nat)
    | Bytes(i: nat, n: nat)
    | ParsedToEnd(i: nat)
    | PollTimer(i: nat)
    | End(i: nat)
    | Terminal(i: nat, kind: TerminalEvent)
    | Tick(ms: nat)

  const START := System(0, [], [])

  function Step(budget: nat, s: System, e: Event): (r: System)
    requires |s.closures| == |s.wires|
    ensures |r.closures| == |r.wires|
  {
    match e
    case Arrival(req, bytesRead, early) =>
      var (reply, cs) := Arrive(budget, s.closures, req, bytesRead, s.now);
      if reply != Passed then s
      else s.(closures := cs, wires := s.wires + [Wire(bytesRead, early, false, s.now, s.now + STALL_POLL_MS, None)])
    case Tick(ms) => s.(now := s.now + ms)
    case Bytes(i, n) =>
      if i >= |s.wires| then s
      else s.(wires := s.wires[i := s.wires[i].(read := s.wires[i].read + n, lastByteAt := s.now)])
    case ParsedToEnd(i) =>
      if i >= |s.wires| then s else s.(wires := s.wires[i := s.wires[i].(complete := true)])
    case End(i) =>
      if i >= |s.wires| then s else s.(closures := s.closures[i := Disarmed(s.closures[i])])
    case Terminal(i, _) =>
      if i >= |s.wires| then s else s.(closures := s.closures[i := Released(s.closures[i])])
    case PollTimer(i) =>
      if i >= |s.wires| || !s.closures[i].armed then s
      else
        var c, w := s.closures[i], s.wires[i];
        var polled := Poll(budget, s.closures, i, w.complete, w.read, s.now);
        var reaps := w.read == c.lastBytes && !c.released && polled[i].released;
        s.(closures := polled,
           wires := s.wires[i := w.(due := s.now + STALL_POLL_MS,
                                    reapedAt := if reaps then Some(s.now) else w.reapedAt)])
  }

  function Run(budget: nat, events: seq<Event>): (s: System)
    ensures |s.closures| == |s.wires|
  {
    if |events| == 0 then START
    else Step(budget, Run(budget, events[..|events| - 1]), events[|events| - 1])
  }

  /**
   The environment's side: message framing (a declared body never carries more than it declares, no
   body bytes after its end or after the socket was destroyed, 'end' only after the last byte) and a
   timer that fires no earlier than it is due and at most `late` milliseconds after.
   */
  predicate Enabled(late: nat, s: System, e: Event)
    requires |s.closures| == |s.wires|
  {
    match e
    case Arrival(req, _, early) =>
      ParseDeclaredLength(req.contentLength).Some? ==> early <= ParseDeclaredLength(req.contentLength).value
    case Bytes(i, n) =>
      && i < |s.wires| && n > 0 && !s.wires[i].complete && s.wires[i].reapedAt.None?
      && (s.closures[i].declared.Some? ==> Arrived(s, i) + n <= s.closures[i].declared.value)
    case PollTimer(i) => i < |s.wires| && s.closures[i].armed && s.wires[i].due <= s.now <= s.wires[i].due + late
    case ParsedToEnd(i) => i < |s.wires|
    case End(i) => i < |s.wires| && s.wires[i].complete
    case Tick(ms) => forall i :: 0 <= i < |s.wires| && s.closures[i].armed ==> s.now + ms <= s.wires[i].due + late
    case _ => true
  }

  predicate Feasible(budget: nat, late: nat, events: seq<Event>) {
    |events| == 0
    || (Feasible(budget, late, events[..|events| - 1])
        && Enabled(late, Run(budget, events[..|events| - 1]), events[|events| - 1]))
  }

  lemma RunSnoc(budget: nat, late: nat, events: seq<Event>, e: Event)
    ensures Run(budget, events + [e]) == Step(budget, Run(budget, events), e)
    ensures Feasible(budget, late, events + [e])
      <==> Feasible(budget, late, events) && Enabled(late, Run(budget, events), e)
  {
  }

  /** Body bytes of request i that have arrived. */
  function Arrived(s: System, i: nat): int
    requires i < |s.closures| == |s.wires|
  {
    s.wires[i].early + s.wires[i].read - s.closures[i].startBytes
  }

  /** Of those, the ones no poll has compared with its reservation yet, and the ones none ever will. */
  function Unseen(s: System, i: nat): int
    requires i < |s.closures| == |s.wires|
  {
    if s.closures[i].declared.Some? then 0 else s.wires[i].early + s.wires[i].read - s.closures[i].lastBytes
  }

  /** Bytes of request i have come in since the last poll that looked at its byte counter. */
  predicate NewBytes(events: seq<Event>, i: nat) {
    |events| > 0 &&
    var es, e := events[..|events| - 1], events[|events| - 1];
    match e
    case Bytes(j, n) => (j == i && n > 0) || NewBytes(es, i)
    case PollTimer(j) => (j != i || ParsedToEnd(i) in es) && NewBytes(es, i)
    case _ => NewBytes(es, i)
  }

  predicate Live(s: System, i: nat)
    requires i < |s.closures|
  {
    !s.closures[i].released
  }

  // ---------------------------------------------------------------- conservation

  lemma {:induction false} RunConserves(budget: nat, events: seq<Event>)
    ensures Sum(Run(budget, events).closures) <= budget
    ensures ArmedAreLive(Run(budget, events).closures)
    ensures (forall c :: c in Run(budget, events).closures ==> c.released) ==> Sum(Run(budget, events).closures) == 0
  {
    var t := Run(budget, events);
    if |events| > 0 {
      var s := Run(budget, events[..|events| - 1]);
      RunConserves(budget, events[..|events| - 1]);
      StepConserves(budget, s, events[|events| - 1]);
    }
    if forall c :: c in t.closures ==> c.released { SumZeroWhenAllReleased(t.closures); }
  }

  lemma StepConserves(budget: nat, s: System, e: Event)
    requires |s.closures| == |s.wires| && Sum(s.closures) <= budget
    requires ArmedAreLive(s.closures)
    ensures Sum(Step(budget, s, e).closures) <= budget
    ensures ArmedAreLive(Step(budget, s, e).closures)
  {
    match e
    case Arrival(req, bytesRead, _) => SumAppend(s.closures, Opened(budget, req, bytesRead, s.now));
    case Tick(_) =>
    case Bytes(_, _) =>
    case ParsedToEnd(_) =>
    case End(i) => if i < |s.wires| { SumUpdate(s.closures, i, Disarmed(s.closures[i])); }
    case Terminal(i, _) => if i < |s.wires| { SumUpdate(s.closures, i, Released(s.closures[i])); }
    case PollTimer(i) =>
      if i < |s.wires| && s.closures[i].armed {
        PollConserves(budget, s.closures, i, s.wires[i].complete, s.wires[i].read, s.now);
      }
  }

  ghost predicate ArmedAreLive(cs: seq<Closure>) { forall c :: c in cs && c.armed ==> !c.released }

  lemma PollConserves(budget: nat, cs: seq<Closure>, i: nat, complete: bool, readNow: nat, now: nat)
    requires i < |cs| && Sum(cs) <= budget && ArmedAreLive(cs)
    ensures Sum(Poll(budget, cs, i, complete, readNow, now)) <= budget
    ensures ArmedAreLive(Poll(budget, cs, i, complete, readNow, now))
  {
    PollWithinBudget(budget, cs, i, complete, readNow, now);
    var c := Poll(budget, cs, i, complete, readNow, now)[i];
    assert cs[i] in cs;
    assert Poll(budget, cs, i, complete, readNow, now) == cs[i := c];
    UpdateKeepsArmedLive(cs, i, c);
  }

  lemma UpdateKeepsArmedLive(cs: seq<Closure>, i: nat, c: Closure)
    requires i < |cs| && ArmedAreLive(cs) && (c.armed ==> !c.released)
    ensures ArmedAreLive(cs[i := c])
  {
  }

  lemma PollWithinBudget(budget: nat, cs: seq<Closure>, i: nat, complete: bool, readNow: nat, now: nat)
    requires i < |cs| && Sum(cs) <= budget
    ensures Sum(Poll(budget, cs, i, complete, readNow, now)) <= budget
  {
    var c, d := cs[i], Poll(budget, cs, i, complete, readNow, now)[i];
    SumUpdate(cs, i, d);
    if !complete && readNow != c.lastBytes {
      SumUpdate(cs, i, Reconciled(budget, c, readNow).(lastBytes := readNow, lastProgress := now));
    }
    assert Poll(budget, cs, i, complete, readNow, now) == cs[i := d];
  }

  // ---------------------------------------------------------------- what a reservation is worth

  /** What every run keeps about one request's accounting. */
  ghost predicate Priced(budget: nat, c: Closure, w: Wire) {
    && c.startBytes <= c.lastBytes <= w.read
    && (c.armed ==> c.reserved > 0)
    && (c.declared.Some? ==> c.reserved == c.declared.value && w.early + w.read - c.startBytes <= c.declared.value)
    && (c.declared.None? && c.reserved == 0 ==> c.lastBytes == c.startBytes)
    && (c.declared.None? && c.reserved > 0 ==>
         c.reserved == Max(OpeningReservation(budget), c.lastBytes - c.startBytes))
  }

  ghost predicate AllPriced(budget: nat, s: System) {
    |s.closures| == |s.wires| && forall i :: 0 <= i < |s.wires| ==> Priced(budget, s.closures[i], s.wires[i])
  }

  lemma {:induction false} RunPriced(budget: nat, late: nat, events: seq<Event>)
    requires Feasible(budget, late, events)
    ensures AllPriced(budget, Run(budget, events))
  {
    if |events| > 0 {
      RunPriced(budget, late, events[..|events| - 1]);
      StepPriced(budget, late, Run(budget, events[..|events| - 1]), events[|events| - 1]);
    }
  }

  lemma StepPriced(budget: nat, late: nat, s: System, e: Event)
    requires AllPriced(budget, s) && Enabled(late, s, e)
    ensures AllPriced(budget, Step(budget, s, e))
    ensures forall i :: 0 <= i < |s.closures| ==>
      s.closures[i].reserved <= Step(budget, s, e).closures[i].reserved
  {
    var t := Step(budget, s, e);
    forall i | 0 <= i < |t.wires|
      ensures Priced(budget, t.closures[i], t.wires[i])
      ensures i < |s.closures| ==> s.closures[i].reserved <= t.closures[i].reserved
    {
      if i < |s.wires| { StepPricedAt(budget, late, s, e, i); } else { ArrivalPriced(budget, late, s, e); }
    }
  }

  lemma StepPricedAt(budget: nat, late: nat, s: System, e: Event, i: nat)
    requires |s.closures| == |s.wires| && i < |s.wires| && Enabled(late, s, e)
    requires Priced(budget, s.closures[i], s.wires[i])
    ensures var t := Step(budget, s, e);
      && i < |t.wires| && Priced(budget, t.closures[i], t.wires[i])
      && s.closures[i].reserved <= t.closures[i].reserved
  {
  }

  lemma ArrivalPriced(budget: nat, late: nat, s: System, e: Event)
    requires |s.closures| == |s.wires| && Enabled(late, s, e)
    ensures var t, n := Step(budget, s, e), |s.wires|;
      |t.wires| > n ==> |t.wires| == n + 1 && Priced(budget, t.closures[n], t.wires[n])
  {
  }

  /** Bytes arrived over the live requests numbered below n, and those not yet seen by a poll. */
  function TotalArrived(s: System, n: nat): int
    requires n <= |s.closures| == |s.wires|
  {
    if n == 0 then 0 else TotalArrived(s, n - 1) + if Live(s, n - 1) then Arrived(s, n - 1) else 0
  }

  function TotalUnseen(s: System, n: nat): int
    requires n <= |s.closures| == |s.wires|
  {
    if n == 0 then 0 else TotalUnseen(s, n - 1) + if Live(s, n - 1) then Unseen(s, n - 1) else 0
  }

  lemma {:induction false} ArrivedWithinReserved(budget: nat, s: System, n: nat)
    requires AllPriced(budget, s) && n <= |s.wires|
    ensures TotalArrived(s, n) <= Sum(s.closures[..n]) + TotalUnseen(s, n)
  {
    if n > 0 {
      ArrivedWithinReserved(budget, s, n - 1);
      assert s.closures[..n][..n - 1] == s.closures[..n - 1];
      assert Priced(budget, s.closures[n - 1], s.wires[n - 1]);
    }
  }

  /** A reservation never shrinks, whatever happens next. */
  lemma ReservationsOnlyGrow(budget: nat, late: nat, events: seq<Event>, e: Event, i: nat)
    requires Feasible(budget, late, events + [e]) && i < |Run(budget, events).closures|
    ensures i < |Run(budget, events + [e]).closures|
    ensures Run(budget, events).closures[i].reserved <= Run(budget, events + [e]).closures[i].reserved
  {
    assert (events + [e])[..|events|] == events;
    RunPriced(budget, late, events);
    StepPriced(budget, late, Run(budget, events), e);
  }

  // ---------------------------------------------------------------- the stall reaper

  /** The body of request i has not fully arrived and its parser has not seen the end. */
  predicate Incomplete(s: System, i: nat)
    requires i < |s.closures| == |s.wires|
  {
    !s.wires[i].complete && (s.closures[i].declared.Some? ==> Arrived(s, i) < s.closures[i].declared.value)
  }

  /** The time from the last progress to the next poll, with none, one or two polls in between. */
  predicate QuietPolls(late: nat, gap: int) {
    || gap == STALL_POLL_MS
    || 2 * STALL_POLL_MS <= gap <= 2 * STALL_POLL_MS + late
    || 3 * STALL_POLL_MS <= gap <= 3 * STALL_POLL_MS + 2 * late
  }

  ghost predicate OnTime(late: nat, now: nat, c: Closure, w: Wire) {
    && w.lastByteAt <= now
    && (w.reapedAt.Some? ==> w.lastByteAt + STALL_TIMEOUT_MS <= w.reapedAt.value && c.released)
    && (c.armed ==>
      && now <= w.due + late && w.due <= now + STALL_POLL_MS
      && QuietPolls(late, w.due - c.lastProgress)
      && (w.read == c.lastBytes ==> w.lastByteAt <= c.lastProgress <= w.lastByteAt + STALL_POLL_MS + late)
      && (w.read != c.lastBytes ==> w.due <= w.lastByteAt + STALL_POLL_MS))
    && (!c.armed && !c.released && c.reserved > 0 ==>
      w.complete || (c.declared.Some? && w.early + w.read - c.startBytes >= c.declared.value))
  }

  ghost predicate AllOnTime(late: nat, s: System) {
    |s.closures| == |s.wires| && forall i :: 0 <= i < |s.wires| ==> OnTime(late, s.now, s.closures[i], s.wires[i])
  }

  lemma {:induction false} RunOnTime(budget: nat, late: nat, events: seq<Event>)
    requires Feasible(budget, late, events)
    ensures AllOnTime(late, Run(budget, events))
  {
    if |events| > 0 {
      var es := events[..|events| - 1];
      RunOnTime(budget, late, es);
      RunPriced(budget, late, es);
      RunConserves(budget, es);
      StepOnTime(budget, late, Run(budget, es), events[|events| - 1]);
    }
  }

  lemma StepOnTime(budget: nat, late: nat, s: System, e: Event)
    requires AllOnTime(late, s) && AllPriced(budget, s) && Enabled(late, s, e)
    requires ArmedAreLive(s.closures)
    ensures AllOnTime(late, Step(budget, s, e))
  {
    var t := Step(budget, s, e);
    forall i | 0 <= i < |t.wires| ensures OnTime(late, t.now, t.closures[i], t.wires[i]) {
      if i < |s.wires| {
        assert s.closures[i] in s.closures;
        StepOnTimeAt(budget, late, s, e, i);
      }
    }
  }

  lemma StepOnTimeAt(budget: nat, late: nat, s: System, e: Event, i: nat)
    requires |s.closures| == |s.wires| && i < |s.wires| && Enabled(late, s, e)
    requires OnTime(late, s.now, s.closures[i], s.wires[i]) && Priced(budget, s.closures[i], s.wires[i])
    requires s.closures[i].armed ==> !s.closures[i].released
    ensures var t := Step(budget, s, e);
      i < |t.wires| && OnTime(late, t.now, t.closures[i], t.wires[i])
  {
  }

  /**
   Liveness: a silent incomplete body gives its reservation back within the timeout plus one poll of its
   last byte, and four times the timer's lateness.
   */
  lemma StalledBodyIsReleased(budget: nat, late: nat, events: seq<Event>, i: nat)
    requires Feasible(budget, late, events) && i < |Run(budget, events).closures|
    requires Incomplete(Run(budget, events), i) && Run(budget, events).closures[i].reserved > 0
    ensures var s := Run(budget, events);
      s.now > s.wires[i].lastByteAt + 15_000 + 5_000 + 4 * late ==> s.closures[i].released
  {
    var s := Run(budget, events);
    RunOnTime(budget, late, events);
    assert OnTime(late, s.now, s.closures[i], s.wires[i]);
  }

  /** Safety: the stall branch only ever destroys a request whose last byte is a whole timeout old. */
  lemma ReapedOnlyAfterSilence(budget: nat, late: nat, events: seq<Event>, i: nat)
    requires Feasible(budget, late, events) && i < |Run(budget, events).wires|
    ensures var w := Run(budget, events).wires[i];
      w.reapedAt.Some? ==> w.lastByteAt + 15_000 <= w.reapedAt.value
  {
    RunOnTime(budget, late, events);
    var s := Run(budget, events);
    assert OnTime(late, s.now, s.closures[i], s.wires[i]);
  }

  /** What the events alone say about one request is what its counters say. */
  ghost predicate Told(events: seq<Event>, s: System, i: nat)
    requires |s.closures| == |s.wires|
  {
    && (NewBytes(events, i) <==> i < |s.wires| && s.closures[i].lastBytes < s.wires[i].read)
    && (ParsedToEnd(i) in events <==> i < |s.wires| && s.wires[i].complete)
    && (i < |s.wires| ==> s.closures[i].lastBytes <= s.wires[i].read)
  }

  lemma {:induction false} RunTold(budget: nat, late: nat, events: seq<Event>, i: nat)
    requires Feasible(budget, late, events)
    ensures Told(events, Run(budget, events), i)
  {
    if |events| > 0 {
      var es, e := events[..|events| - 1], events[|events| - 1];
      RunTold(budget, late, es, i);
      assert events == es + [e];
      StepTold(budget, late, es, Run(budget, es), e, i);
    }
  }

  lemma StepTold(budget: nat, late: nat, es: seq<Event>, s: System, e: Event, i: nat)
    requires |s.closures| == |s.wires| && Told(es, s, i) && Enabled(late, s, e)
    ensures Told(es + [e], Step(budget, s, e), i)
  {
    assert (es + [e])[..|es|] == es;
    assert ParsedToEnd(i) in es + [e] <==> ParsedToEnd(i) in es || e == ParsedToEnd(i);
  }

  /** Until its message is complete, request i gets a byte before its first poll and between any two. */
  ghost predicate KeepsMoving(events: seq<Event>, i: nat) {
    forall k :: 0 <= k < |events| && events[k] == PollTimer(i) ==>
      NewBytes(events[..k], i) || ParsedToEnd(i) in events[..k]
  }

  /** However little comes in each time, a body that keeps moving is never destroyed by the stall branch. */
  lemma {:induction false} MovingBodyIsNeverReaped(budget: nat, late: nat, events: seq<Event>, i: nat)
    requires Feasible(budget, late, events) && KeepsMoving(events, i) && i < |Run(budget, events).wires|
    ensures Run(budget, events).wires[i].reapedAt == None
  {
    if |events| > 0 {
      var es := events[..|events| - 1];
      forall k | 0 <= k < |es| ensures es[k] == events[k] && es[..k] == events[..k] {}
      assert KeepsMoving(es, i);
      RunTold(budget, late, es, i);
      if i < |Run(budget, es).wires| { MovingBodyIsNeverReaped(budget, late, es, i); }
    }
  }

  // ---------------------------------------------------------------- how long a body stays under-reported

  /**
   One poll interval after its last byte, an undeclared body outweighs its reservation if and only if it is
   larger than the opening placeholder and some of it will never be counted: bytes read before the
   middleware ran, or bytes that came after the last poll that looked and before the end of the message.
   */
  lemma UnderReportedIff(budget: nat, late: nat, events: seq<Event>, i: nat)
    requires Feasible(budget, late, events) && i < |Run(budget, events).closures|
    requires var s := Run(budget, events); Live(s, i) && s.closures[i].declared.None? && s.closures[i].reserved > 0
    requires Run(budget, events).now > Run(budget, events).wires[i].lastByteAt + STALL_POLL_MS + late
    ensures var s := Run(budget, events);
      Arrived(s, i) > s.closures[i].reserved
      <==> Arrived(s, i) > OpeningReservation(budget)
           && (s.wires[i].early > 0 || (NewBytes(events, i) && ParsedToEnd(i) in events))
  {
    RunPriced(budget, late, events);
    RunOnTime(budget, late, events);
    RunTold(budget, late, events, i);
    var s := Run(budget, events);
    assert Priced(budget, s.closures[i], s.wires[i]);
    assert OnTime(late, s.now, s.closures[i], s.wires[i]);
  }

  /** Bytes of request i that arrived at time t or later. */
  function BytesSince(budget: nat, events: seq<Event>, i: nat, t: int): nat {
    if |events| == 0 then 0
    else
      var es, e := events[..|events| - 1], events[|events| - 1];
      BytesSince(budget, es, i, t) + if e.Bytes? && e.i == i && Run(budget, es).now >= t then e.n else 0
  }

  lemma {:induction false} SinceEarlier(budget: nat, events: seq<Event>, i: nat, t: int, t': int)
    requires t' <= t
    ensures BytesSince(budget, events, i, t) <= BytesSince(budget, events, i, t')
  {
    if |events| > 0 { SinceEarlier(budget, events[..|events| - 1], i, t, t'); }
  }

  ghost predicate UnreadRecent(s: System, i: nat, since: int)
    requires |s.closures| == |s.wires|
  {
    i < |s.wires| && s.closures[i].armed ==> s.wires[i].read - s.closures[i].lastBytes <= since
  }

  function SinceLastPoll(budget: nat, events: seq<Event>, s: System, i: nat): nat {
    if i < |s.wires| then BytesSince(budget, events, i, s.wires[i].due - STALL_POLL_MS) else 0
  }

  /** While its timer is armed, whatever the last poll has not seen came after that poll. */
  lemma {:induction false} UnreadIsRecent(budget: nat, late: nat, events: seq<Event>, i: nat)
    requires Feasible(budget, late, events)
    ensures UnreadRecent(Run(budget, events), i, SinceLastPoll(budget, events, Run(budget, events), i))
  {
    if |events| > 0 {
      var es, e := events[..|events| - 1], events[|events| - 1];
      var s := Run(budget, es);
      UnreadIsRecent(budget, late, es, i);
      RunOnTime(budget, late, es);
      if i < |s.wires| {
        assert OnTime(late, s.now, s.closures[i], s.wires[i]);
        UnreadSnoc(budget, late, es, s, e, i);
        assert events == es + [e];
      } else {
        NothingUnreadAtFirst(budget, s, e, i);
      }
    }
  }

  lemma NothingUnreadAtFirst(budget: nat, s: System, e: Event, i: nat)
    requires |s.closures| == |s.wires| <= i
    ensures UnreadRecent(Step(budget, s, e), i, 0)
  {
  }

  lemma UnreadSnoc(budget: nat, late: nat, es: seq<Event>, s: System, e: Event, i: nat)
    requires s == Run(budget, es) && i < |s.wires| && Enabled(late, s, e)
    requires OnTime(late, s.now, s.closures[i], s.wires[i])
    requires UnreadRecent(s, i, SinceLastPoll(budget, es, s, i))
    ensures var t := Step(budget, s, e); UnreadRecent(t, i, SinceLastPoll(budget, es + [e], t, i))
  {
    UnreadStep(budget, late, s, e, i, SinceLastPoll(budget, es, s, i));
    BytesSinceSnoc(budget, es, e, i, s.wires[i].due - STALL_POLL_MS);
  }

  lemma BytesSinceSnoc(budget: nat, es: seq<Event>, e: Event, i: nat, t: int)
    ensures BytesSince(budget, es + [e], i, t)
      == BytesSince(budget, es, i, t) + if e.Bytes? && e.i == i && Run(budget, es).now >= t then e.n else 0
  {
    assert (es + [e])[..|es|] == es;
  }

  lemma UnreadStep(budget: nat, late: nat, s: System, e: Event, i: nat, since: nat)
    requires |s.closures| == |s.wires| && i < |s.wires| && Enabled(late, s, e) && UnreadRecent(s, i, since)
    ensures var t := Step(budget, s, e);
      t.closures[i].armed ==>
        && s.closures[i].armed
        && (if e == PollTimer(i) then t.wires[i].read == t.closures[i].lastBytes
            else t.wires[i].due == s.wires[i].due
                 && UnreadRecent(t, i, since + if e.Bytes? && e.i == i then e.n else 0))
  {
  }

  /** Bytes no poll will ever count: those read before the middleware ran, and those left when the timer went. */
  function Uncounted(s: System, i: nat): int
    requires i < |s.closures| == |s.wires|
  {
    var c, w := s.closures[i], s.wires[i];
    if c.declared.Some? then 0 else w.early + if c.armed then 0 else w.read - c.lastBytes
  }

  function TotalUncounted(s: System, n: nat): int
    requires n <= |s.closures| == |s.wires|
  {
    if n == 0 then 0 else TotalUncounted(s, n - 1) + if Live(s, n - 1) then Uncounted(s, n - 1) else 0
  }

  /** Bytes that live, polled requests brought in since time t. */
  function TotalSince(budget: nat, events: seq<Event>, n: nat, t: int): nat
    requires n <= |Run(budget, events).closures|
  {
    if n == 0 then 0
    else
      var c := Run(budget, events).closures[n - 1];
      var counts := !c.released && c.armed && c.declared.None?;
      TotalSince(budget, events, n - 1, t) + if counts then BytesSince(budget, events, n - 1, t) else 0
  }

  lemma UnseenSplit(budget: nat, late: nat, events: seq<Event>, i: nat)
    requires Feasible(budget, late, events) && i < |Run(budget, events).wires|
    requires Run(budget, events).closures[i].armed && Run(budget, events).closures[i].declared.None?
    ensures var s := Run(budget, events);
      Unseen(s, i) <= Uncounted(s, i) + BytesSince(budget, events, i, s.now - STALL_POLL_MS - late)
  {
    var s := Run(budget, events);
    RunOnTime(budget, late, events);
    assert OnTime(late, s.now, s.closures[i], s.wires[i]);
    UnreadIsRecent(budget, late, events, i);
    SinceEarlier(budget, events, i, s.wires[i].due - STALL_POLL_MS, s.now - STALL_POLL_MS - late);
  }

  lemma {:induction false} UnseenSplits(budget: nat, late: nat, events: seq<Event>, n: nat)
    requires Feasible(budget, late, events) && n <= |Run(budget, events).wires|
    ensures var s := Run(budget, events);
      TotalUnseen(s, n) <= TotalUncounted(s, n) + TotalSince(budget, events, n, s.now - STALL_POLL_MS - late)
  {
    if n > 0 {
      UnseenSplits(budget, late, events, n - 1);
      var c := Run(budget, events).closures[n - 1];
      if c.armed && c.declared.None? { UnseenSplit(budget, late, events, n - 1); }
    }
  }

  /**
   The memory bound: body bytes of live requests never exceed the budget by more than what polled requests
   brought in during the last poll interval, and the bytes that are never counted.
   */
  lemma MemoryBound(budget: nat, late: nat, events: seq<Event>)
    requires Feasible(budget, late, events)
    ensures var s, n := Run(budget, events), |Run(budget, events).wires|;
      && TotalArrived(s, n) <= budget + TotalUnseen(s, n)
      && TotalUnseen(s, n) <= TotalUncounted(s, n) + TotalSince(budget, events, n, s.now - STALL_POLL_MS - late)
  {
    var s := Run(budget, events);
    RunPriced(budget, late, events);
    RunConserves(budget, events);
    ArrivedWithinReserved(budget, s, |s.wires|);
    assert s.closures[..|s.wires|] == s.closures;
    UnseenSplits(budget, late, events, |s.wires|);
  }

  const CHUNKED_UPLOAD := Request(None, true, "", false)

  /**
   The under-reporting is not confined to one poll interval, as the comment at lines 18-22 has it: a
   chunked body that is complete before its first poll keeps the opening reservation for as long as
   its handler runs.
   */
  lemma FinishedBodyStaysUnderReported(ms: nat)
    ensures var budget := 104_857_600;
      var events := [Arrival(CHUNKED_UPLOAD, 0, 0), Bytes(0, 26_214_400), ParsedToEnd(0), Tick(STALL_POLL_MS),
                     PollTimer(0), Tick(ms)];
      var s := Run(budget, events);
      && Feasible(budget, 0, events)
      && |s.wires| == 1 && Live(s, 0) && s.now == STALL_POLL_MS + ms
      && Arrived(s, 0) == 26_214_400 && s.closures[0].reserved == 1_048_576
  {
    var budget := 104_857_600;
    var c, w := Closure(None, 1_048_576, false, true, 0, 0, 0), Wire(0, 0, false, 0, STALL_POLL_MS, None);
    var start: seq<Event> := [];
    assert Sum([]) == 0;
    RunSnoc(budget, 0, start, Arrival(CHUNKED_UPLOAD, 0, 0));
    var e0 := start + [Arrival(CHUNKED_UPLOAD, 0, 0)];
    assert Run(budget, e0) == System(0, [c], [w]);
    RunSnoc(budget, 0, e0, Bytes(0, 26_214_400));
    var e1 := e0 + [Bytes(0, 26_214_400)];
    RunSnoc(budget, 0, e1, ParsedToEnd(0));
    var e2 := e1 + [ParsedToEnd(0)];
    RunSnoc(budget, 0, e2, Tick(STALL_POLL_MS));
    var e3 := e2 + [Tick(STALL_POLL_MS)];
    assert Run(budget, e3) == System(STALL_POLL_MS, [c], [w.(read := 26_214_400, complete := true)]);
    RunSnoc(budget, 0, e3, PollTimer(0));
    var e4 := e3 + [PollTimer(0)];
    assert Run(budget, e4).closures == [Disarmed(c)];
    RunSnoc(budget, 0, e4, Tick(ms));
    assert e4 + [Tick(ms)] == [Arrival(CHUNKED_UPLOAD, 0, 0), Bytes(0, 26_214_400), ParsedToEnd(0), Tick(STALL_POLL_MS),
                               PollTimer(0), Tick(ms)];
  }

  // ---------------------------------------------------------------- four uploads always fit

  function LiveCount(cs: seq<Closure>): nat {
    if |cs| == 0 then 0 else LiveCount(cs[..|cs| - 1]) + if Held(cs[|cs| - 1]) > 0 then 1 else 0
  }

  predicate DeclaresAtMost(cap: nat, req: Request) {
    match ParseDeclaredLength(req.contentLength)
    case Some(n) => n <= cap
    case None => !req.transferEncoding
  }

  predicate OnlyUploads(cap: nat, events: seq<Event>) {
    forall k :: 0 <= k < |events| && events[k].Arrival? ==> DeclaresAtMost(cap, events[k].req)
  }

  lemma {:induction false} UploadsStayCapped(cap: nat, budget: nat, events: seq<Event>)
    requires OnlyUploads(cap, events)
    ensures forall c :: c in Run(budget, events).closures ==> c.reserved <= cap && (c.armed ==> c.declared.Some?)
  {
    if |events| > 0 {
      UploadsStayCapped(cap, budget, events[..|events| - 1]);
      StepStaysCapped(cap, budget, Run(budget, events[..|events| - 1]), events[|events| - 1]);
    }
  }

  lemma StepStaysCapped(cap: nat, budget: nat, s: System, e: Event)
    requires |s.closures| == |s.wires| && (e.Arrival? ==> DeclaresAtMost(cap, e.req))
    requires forall c :: c in s.closures ==> c.reserved <= cap && (c.armed ==> c.declared.Some?)
    ensures forall c :: c in Step(budget, s, e).closures ==> c.reserved <= cap && (c.armed ==> c.declared.Some?)
  {
  }

  lemma {:induction false} SumAtMostCount(cap: nat, cs: seq<Closure>)
    requires forall c :: c in cs ==> c.reserved <= cap
    ensures Sum(cs) <= LiveCount(cs) * cap
  {
    if |cs| > 0 {
      var init, last := cs[..|cs| - 1], cs[|cs| - 1];
      SumAtMostCount(cap, init);
      assert last in cs && Held(last) <= cap;
      var n := LiveCount(init);
      assert (n + 1) * cap == n * cap + cap;
      if Held(last) > 0 {
        assert LiveCount(cs) == n + 1;
      } else {
        assert LiveCount(cs) == n;
      }
    }
  }

  /** With the default budget, a declared upload is never refused while fewer than four others hold bytes. */
  lemma FourUploadsFit(cap: nat, events: seq<Event>, req: Request, bytesRead: nat)
    requires OnlyUploads(cap, events) && DeclaresAtMost(cap, req) && !Compressed(req)
    requires LiveCount(Run(ResolveBudget(None, cap), events).closures) < 4
    ensures var s := Run(ResolveBudget(None, cap), events);
      Arrive(ResolveBudget(None, cap), s.closures, req, bytesRead, s.now).0 == Passed
  {
    var budget := ResolveBudget(None, cap);
    var s := Run(budget, events);
    UploadsStayCapped(cap, budget, events);
    SumAtMostCount(cap, s.closures);
    assert LiveCount(s.closures) * cap <= 3 * cap by {
      MulMono(LiveCount(s.closures), 3, cap);
    }
  }

  function Upload(n: nat): Request { Request(Some(Finite(n as real)), false, "", false) }

  function Uploads(n: nat, count: nat): seq<Event> {
    if count == 0 then [] else Uploads(n, count - 1) + [Arrival(Upload(n), 0, 0)]
  }

  lemma {:induction false} UploadsFill(cap: nat, budget: nat, count: nat)
    requires 0 < cap <= MAX_SAFE_INTEGER && count * cap <= budget
    ensures Sum(Run(budget, Uploads(cap, count)).closures) == count * cap
    ensures LiveCount(Run(budget, Uploads(cap, count)).closures) == count
  {
    if count > 0 {
      var before := Uploads(cap, count - 1);
      assert (count - 1) * cap + cap == count * cap;
      UploadsFill(cap, budget, count - 1);
      assert (before + [Arrival(Upload(cap), 0, 0)])[..|before|] == before;
      var s := Run(budget, before);
      var c := Opened(budget, Upload(cap), 0, s.now);
      assert Reservation(budget, Upload(cap)) == cap;
      SumAppend(s.closures, c);
      assert (s.closures + [c])[..|s.closures|] == s.closures;
    }
  }

  /** Four is also the most: once four full-size uploads are in flight, any further body is refused. */
  lemma FifthUploadIsRefused(cap: nat, n: nat)
    requires 0 < cap <= MAX_SAFE_INTEGER && 0 < n <= MAX_SAFE_INTEGER
    ensures var s := Run(ResolveBudget(None, cap), Uploads(cap, 4));
      && LiveCount(s.closures) == 4
      && Arrive(ResolveBudget(None, cap), s.closures, Upload(n), 0, s.now) == (Refused(503), s.closures)
  {
    UploadsFill(cap, ResolveBudget(None, cap), 4);
    assert Reservation(ResolveBudget(None, cap), Upload(n)) == n;
  }

  lemma MulMono(a: nat, b: nat, c: nat)
    requires a <= b
    ensures a * c <= b * c
  {
  }
}
