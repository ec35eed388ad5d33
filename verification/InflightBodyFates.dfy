/**
 What becomes of one request in the body budget: when it is admitted, and what can take its reservation
 away again. The conditions are on the headers, on the events and on the sum of what is held.
 */
module BodyBudgetFates {
  import opened Options
  import opened BodyBudget
  import opened BodyBudgetRuns

  // ---------------------------------------------------------------- admission

  /** The header is a whole number that a double holds exactly. */
  predicate WholeNumber(header: Option<JsNumber>, n: nat) {
    header == Some(Finite(n as real)) && n <= 9_007_199_254_740_991
  }

  ghost predicate NoWholeNumber(header: Option<JsNumber>) { forall n: nat :: !WholeNumber(header, n) }

  /** After any run, a request that is let in holds these bytes and is live; one that is refused leaves no trace. */
  ghost predicate AdmittedWith(budget: nat, events: seq<Event>, req: Request, bytesRead: nat, early: nat, bytes: nat) {
    var s, t := Run(budget, events), Run(budget, events + [Arrival(req, bytesRead, early)]);
    var n := |s.closures|;
    && Arrive(budget, s.closures, req, bytesRead, s.now).0 == Passed
    && |t.closures| == n + 1 && t.closures[..n] == s.closures && Live(t, n) && t.closures[n].reserved == bytes
  }

  ghost predicate RefusedWith(budget: nat, events: seq<Event>, req: Request, bytesRead: nat, early: nat, status: nat) {
    var s := Run(budget, events);
    && Run(budget, events + [Arrival(req, bytesRead, early)]) == s
    && Arrive(budget, s.closures, req, bytesRead, s.now).0
       == if req.responseStarted then SocketDropped else Refused(status)
  }

  /** A body that is said to be compressed is never let in, whatever there is room for. */
  lemma CompressedIsRefused(budget: nat, events: seq<Event>, req: Request, bytesRead: nat, early: nat)
    requires req.transferEncoding || (req.contentLength.Some? && req.contentLength != Some(NaN))
    requires req.encoding !in {"", "identity"}
    ensures RefusedWith(budget, events, req, bytesRead, early, 415)
  {
    RunSnoc(budget, 0, events, Arrival(req, bytesRead, early));
  }

  /** A request that says nothing of a body holds nothing and always passes. */
  lemma BodilessPasses(budget: nat, events: seq<Event>, req: Request, bytesRead: nat, early: nat)
    requires !req.transferEncoding && req.contentLength in {None, Some(NaN)}
    ensures AdmittedWith(budget, events, req, bytesRead, early, 0)
  {
    RunSnoc(budget, 0, events, Arrival(req, bytesRead, early));
    RunConserves(budget, events);
  }

  /** A declared body is let in, at its declared length, exactly if that fits beside what is held. */
  lemma DeclaredAdmittedIff(budget: nat, events: seq<Event>, req: Request, bytesRead: nat, early: nat, n: nat)
    requires WholeNumber(req.contentLength, n) && req.encoding in {"", "identity"}
    ensures Sum(Run(budget, events).closures) + n <= budget ==> AdmittedWith(budget, events, req, bytesRead, early, n)
    ensures Sum(Run(budget, events).closures) + n > budget ==> RefusedWith(budget, events, req, bytesRead, early, 503)
  {
    RunSnoc(budget, 0, events, Arrival(req, bytesRead, early));
    assert (n as real).Floor == n;
  }

  /** A chunked body is let in at a mebibyte, or at the whole of a smaller budget, exactly if that fits. */
  lemma ChunkedAdmittedIff(budget: nat, events: seq<Event>, req: Request, bytesRead: nat, early: nat)
    requires NoWholeNumber(req.contentLength) && req.transferEncoding && req.encoding in {"", "identity"}
    ensures var opening: nat := if budget < 1 then 1 else if budget < 1_048_576 then budget else 1_048_576;
      && (Sum(Run(budget, events).closures) + opening <= budget ==>
           AdmittedWith(budget, events, req, bytesRead, early, opening))
      && (Sum(Run(budget, events).closures) + opening > budget ==>
           RefusedWith(budget, events, req, bytesRead, early, 503))
  {
    RunSnoc(budget, 0, events, Arrival(req, bytesRead, early));
    Undeclared(req.contentLength);
  }

  lemma Undeclared(header: Option<JsNumber>)
    requires NoWholeNumber(header)
    ensures ParseDeclaredLength(header).None?
  {
    var parsed := ParseDeclaredLength(header);
    assert parsed.Some? ==> WholeNumber(header, parsed.value);
  }

  predicate PositiveWhole(setting: Option<JsNumber>, n: nat) { n > 0 && setting == Some(Finite(n as real)) }

  /** An operator's positive whole number is the budget; anything else gives four times the cap of one request. */
  lemma BudgetResolved(explicit: Option<JsNumber>, cap: nat)
    ensures forall n: nat :: PositiveWhole(explicit, n) ==> ResolveBudget(explicit, cap) == n
    ensures (forall n: nat :: !PositiveWhole(explicit, n)) ==> ResolveBudget(explicit, cap) == 4 * cap
  {
    forall n: nat | PositiveWhole(explicit, n) ensures ResolveBudget(explicit, cap) == n {
      assert (n as real).Floor == n;
    }
    if explicit.Some? && explicit.value.Finite? && explicit.value.value.Floor > 0 {
      var n: nat := explicit.value.value.Floor;
      assert explicit.value.value == n as real ==> PositiveWhole(explicit, n);
    }
  }

  // ---------------------------------------------------------------- release

  /** When request i was last seen to move: a poll that found new bytes, or its arrival. */
  function ProgressAt(budget: nat, events: seq<Event>, i: nat): nat {
    if |events| == 0 then 0
    else
      var es, e := events[..|events| - 1], events[|events| - 1];
      var s := Run(budget, es);
      if i >= |s.wires| && i < |Run(budget, events).wires| then s.now
      else if e == PollTimer(i) && ParsedToEnd(i) !in es && NewBytes(es, i) then s.now
      else ProgressAt(budget, es, i)
  }

  lemma {:induction false} RunProgress(budget: nat, late: nat, events: seq<Event>, i: nat)
    requires Feasible(budget, late, events) && i < |Run(budget, events).wires|
    ensures Run(budget, events).closures[i].lastProgress == ProgressAt(budget, events, i)
  {
    if |events| > 0 {
      var es := events[..|events| - 1];
      RunTold(budget, late, es, i);
      if i < |Run(budget, es).wires| { RunProgress(budget, late, es, i); }
    }
  }

  /** An undeclared body would carry what is held over the budget if it were held at its real size. */
  predicate Outgrows(budget: nat, s: System, i: nat)
    requires i < |s.closures| == |s.wires|
  {
    var c := s.closures[i];
    c.declared.None?
    && Sum(s.closures) - c.reserved + Max(OpeningReservation(budget), s.wires[i].read - c.startBytes) > budget
  }

  /**
   Exactly what takes a reservation away: a terminal event of the request, or a poll of an incomplete
   message that finds it outgrowing the budget, or finds it silent and 15 seconds past its last progress.
   */
  lemma ReleasedIff(budget: nat, late: nat, es: seq<Event>, e: Event, i: nat)
    requires Feasible(budget, late, es + [e]) && i < |Run(budget, es).closures| && Live(Run(budget, es), i)
    ensures i < |Run(budget, es + [e]).closures|
    ensures var s := Run(budget, es);
      !Live(Run(budget, es + [e]), i) <==>
        || (e.Terminal? && e.i == i)
        || (e == PollTimer(i) && ParsedToEnd(i) !in es
            && if NewBytes(es, i) then Outgrows(budget, s, i) else s.now - ProgressAt(budget, es, i) >= 15_000)
  {
    var s := Run(budget, es);
    RunSnoc(budget, late, es, e);
    RunTold(budget, late, es, i);
    RunProgress(budget, late, es, i);
    if e == PollTimer(i) {
      RunConserves(budget, es);
      PollReleasesIff(budget, s, i);
    }
  }

  lemma PollReleasesIff(budget: nat, s: System, i: nat)
    requires i < |s.closures| == |s.wires| && Live(s, i) && Sum(s.closures) <= budget
    ensures var c, w := s.closures[i], s.wires[i];
      Poll(budget, s.closures, i, w.complete, w.read, s.now)[i].released <==>
        !w.complete
        && if w.read != c.lastBytes then Outgrows(budget, s, i) else s.now - c.lastProgress >= 15_000
  {
    var c, w := s.closures[i], s.wires[i];
    SumUpdate(s.closures, i, Reconciled(budget, c, w.read).(lastBytes := w.read, lastProgress := s.now));
  }

  /** And a request that was silent at such a poll had been without a byte for those 15 seconds. */
  lemma SilentWhenReaped(budget: nat, late: nat, es: seq<Event>, i: nat)
    requires Feasible(budget, late, es + [PollTimer(i)]) && i < |Run(budget, es).closures|
    requires Live(Run(budget, es), i) && !Live(Run(budget, es + [PollTimer(i)]), i) && !NewBytes(es, i)
    ensures Run(budget, es).now >= Run(budget, es).wires[i].lastByteAt + 15_000
  {
    var s := Run(budget, es);
    RunSnoc(budget, late, es, PollTimer(i));
    RunOnTime(budget, late, es);
    RunTold(budget, late, es, i);
    RunProgress(budget, late, es, i);
    ReleasedIff(budget, late, es, PollTimer(i), i);
    assert OnTime(late, s.now, s.closures[i], s.wires[i]);
  }

  /** A request whose message is complete stays live, however long its handler works, until a terminal event. */
  lemma {:induction false} CompleteStaysLive(budget: nat, late: nat, es: seq<Event>, more: seq<Event>, i: nat)
    requires Feasible(budget, late, es + more) && i < |Run(budget, es).closures|
    requires Live(Run(budget, es), i) && ParsedToEnd(i) in es
    requires forall kind :: Terminal(i, kind) !in more
    ensures i < |Run(budget, es + more).closures| && Live(Run(budget, es + more), i)
  {
    if |more| == 0 {
      assert es + more == es;
    } else {
      var init, e := more[..|more| - 1], more[|more| - 1];
      assert es + more == (es + init) + [e] && e in more;
      RunSnoc(budget, late, es + init, e);
      CompleteStaysLive(budget, late, es, init, i);
      ReleasedIff(budget, late, es + init, e, i);
      assert e.Terminal? ==> e == Terminal(e.i, e.kind);
    }
  }
}
