/**
 WhatsApp Web build resolution: openwa/src/engine/wa-web-version.ts.

 `PickSettledWebVersion` chooses a build from the registry. `WebVersionResolver` is the single-flight
 cache around the fetch, one method for each stretch of code the event loop runs without interruption.
 */
module WebVersion {
  import opened Options

  const FAILURE_BACKOFF_MS: nat := 60_000
  const WEB_VERSION_SETTLE_MS: nat := 12 * 60 * 60 * 1000

  // ---------------------------------------------------------------- choosing a build

  /**
   A registry entry as far as it can be read: a field is absent if it has the wrong type or, for a date,
   does not parse. `Junk` is an entry that is no object at all.
   */
  datatype Entry = Junk | Entry(version: Option<string>, beta: bool, released: Option<int>, expire: Option<int>)

  predicate IsVersion(v: string) { v != "" && IsDigit(v[0]) }

  predicate Qualifies(e: Entry, now: int) {
    && e.Entry? && e.version.Some? && IsVersion(e.version.value) && !e.beta
    && e.released.Some? && e.released.value <= now - WEB_VERSION_SETTLE_MS
    && !(e.expire.Some? && e.expire.value <= now)
  }

  /** Entry i qualifies, nothing that qualifies is newer, and nothing before it is as new. */
  ghost predicate FirstNewest(versions: seq<Entry>, now: int, i: nat) {
    && i < |versions| && Qualifies(versions[i], now)
    && forall j :: 0 <= j < |versions| && Qualifies(versions[j], now) ==>
         versions[j].released.value <= versions[i].released.value
         && (j < i ==> versions[j].released.value < versions[i].released.value)
  }

  function Newest(versions: seq<Entry>, now: int): (best: Option<nat>)
    ensures best.Some? ==> FirstNewest(versions, now, best.value)
    ensures best.None? ==> forall j :: 0 <= j < |versions| ==> !Qualifies(versions[j], now)
  {
    if |versions| == 0 then None
    else
      var n := |versions| - 1;
      var best := Newest(versions[..n], now);
      assert forall j :: 0 <= j < n ==> versions[..n][j] == versions[j];
      if Qualifies(versions[n], now) && (best.None? || versions[best.value].released.value < versions[n].released.value)
      then Some(n) else best
  }

  /** The build to pin; `versions` is absent if the registry's list is not an array. */
  function Picked(versions: Option<seq<Entry>>, now: int, current: Option<string>): Option<string> {
    if versions.None? || Newest(versions.value, now).None? then current
    else versions.value[Newest(versions.value, now).value].version
  }

  method PickSettledWebVersion(versions: Option<seq<Entry>>, now: int, current: Option<string>)
    returns (picked: Option<string>)
    ensures picked == Picked(versions, now, current)
  {
    if versions.None? { return current; }
    var vs := versions.value;
    var settledCutoff := now - WEB_VERSION_SETTLE_MS;
    var best: Option<(string, int)> := None;
    for i := 0 to |vs|
      invariant best == var b := Newest(vs[..i], now);
        if b.None? then None else Some((vs[b.value].version.value, vs[b.value].released.value))
    {
      assert vs[..i + 1][..i] == vs[..i];
      var e := vs[i];
      if e.Junk? { continue; }
      if e.version.None? || !IsVersion(e.version.value) { continue; }
      if e.beta { continue; }
      if e.released.None? || e.released.value > settledCutoff { continue; }
      if e.expire.Some? && e.expire.value <= now { continue; }
      if best.None? || best.value.1 < e.released.value {
        best := Some((e.version.value, e.released.value));
      }
    }
    assert vs[..|vs|] == vs;
    if best.None? { return current; }
    return Some(best.value.0);
  }

  /** Two lists with the same qualifying entries, in any order and with anything else mixed in. */
  ghost predicate SameQualifying(a: seq<Entry>, b: seq<Entry>, now: int) {
    forall e :: Qualifies(e, now) ==> (e in a <==> e in b)
  }

  /** The chosen date depends on nothing but which entries qualify. */
  lemma ChosenDateInvariant(a: seq<Entry>, b: seq<Entry>, now: int)
    requires SameQualifying(a, b, now)
    ensures Newest(a, now).Some? <==> Newest(b, now).Some?
    ensures Newest(a, now).Some? ==>
      a[Newest(a, now).value].released == b[Newest(b, now).value].released
  {
  }

  /** In particular a permutation, and an inserted beta, expired or too fresh entry, leave the date alone. */
  lemma PermutedOrPadded(a: seq<Entry>, b: seq<Entry>, e: Entry, now: int)
    requires multiset(b) == multiset(a) || (!Qualifies(e, now) && multiset(b) == multiset(a) + multiset{e})
    ensures SameQualifying(a, b, now)
  {
    forall x | Qualifies(x, now) ensures x in a <==> x in b {
      assert x in a <==> x in multiset(a);
      assert x in b <==> x in multiset(b);
    }
  }

  /**
   A build that may be pinned: its version begins with a digit, it is no beta, it was released at least twelve
   hours ago and has not expired.
   */
  predicate Settled12h(e: Entry, now: int) {
    && e.Entry? && e.version.Some? && e.version.value != "" && '0' <= e.version.value[0] <= '9'
    && e.beta == false
    && e.released.Some? && now - e.released.value >= 43_200_000
    && (e.expire.Some? ==> e.expire.value > now)
  }

  /** What is picked is the fallback exactly if no build may be pinned, and otherwise a newest one that may. */
  lemma PickedIsSettled(versions: seq<Entry>, now: int, current: Option<string>)
    ensures (forall e :: e in versions ==> !Settled12h(e, now)) ==> Picked(Some(versions), now, current) == current
    ensures (exists e :: e in versions && Settled12h(e, now)) ==>
      exists i :: 0 <= i < |versions| && Settled12h(versions[i], now)
        && Picked(Some(versions), now, current) == versions[i].version
        && forall j :: 0 <= j < |versions| && Settled12h(versions[j], now) ==>
             versions[j].released.value < versions[i].released.value
             || (versions[j].released == versions[i].released && i <= j)
  {
    forall e ensures Settled12h(e, now) <==> Qualifies(e, now) {}
    var best := Newest(versions, now);
    if best.Some? { assert Settled12h(versions[best.value], now); }
  }

  /** A beta, a build less than twelve hours old and an expired one can be put anywhere without being noticed. */
  lemma UnsettledIsIgnored(a: seq<Entry>, e: Entry, b: seq<Entry>, now: int, current: Option<string>)
    requires e.Junk? || e.beta || (e.released.Some? ==> now - e.released.value < 43_200_000)
             || (e.expire.Some? && e.expire.value <= now)
    ensures Picked(Some(a + [e] + b), now, current) == Picked(Some(a + b), now, current)
  {
    InsertedIgnored(a, e, b, now);
  }

  /** Where entry i of a list is found once one more entry has been put in at position `at`. */
  function Shifted(i: nat, at: nat): nat { if i < at then i else i + 1 }

  lemma FirstNewestShifted(a: seq<Entry>, e: Entry, b: seq<Entry>, now: int, j: nat)
    requires !Qualifies(e, now) && FirstNewest(a + b, now, j)
    ensures FirstNewest(a + [e] + b, now, Shifted(j, |a|)) && (a + [e] + b)[Shifted(j, |a|)] == (a + b)[j]
  {
    var x, y := a + [e] + b, a + b;
    forall i | 0 <= i < |x| && Qualifies(x[i], now)
      ensures x[i].released.value <= y[j].released.value
      ensures i < Shifted(j, |a|) ==> x[i].released.value < y[j].released.value
    {
      assert x[i] == y[if i < |a| then i else i - 1];
    }
  }

  lemma InsertedIgnored(a: seq<Entry>, e: Entry, b: seq<Entry>, now: int)
    requires !Qualifies(e, now)
    ensures var with, without := Newest(a + [e] + b, now), Newest(a + b, now);
      && with.Some? == without.Some?
      && (with.Some? ==> (a + [e] + b)[with.value] == (a + b)[without.value])
  {
    var x, y := a + [e] + b, a + b;
    var with, without := Newest(x, now), Newest(y, now);
    if without.Some? {
      FirstNewestShifted(a, e, b, now, without.value);
      assert with.Some? && with.value == Shifted(without.value, |a|);
    } else {
      forall i | 0 <= i < |x| ensures !Qualifies(x[i], now) {
        if i != |a| { assert x[i] == y[if i < |a| then i else i - 1]; }
      }
    }
  }

  /** No reply and an error reply are of no use; a reply is, if a build may be pinned or its fallback is a version. */
  lemma UsableReply(reply: Reply, now: int)
    ensures reply.NoReply? || reply.HttpError? ==> Usable(reply, now) == None
    ensures reply.Body? && reply.versions.None? ==>
      Usable(reply, now) == match reply.current
        case Some(v) => if v != "" && '0' <= v[0] <= '9' then Some(v) else None
        case None => None
    ensures reply.Body? && reply.versions.Some? && (exists e :: e in reply.versions.value && Settled12h(e, now)) ==>
      exists e :: e in reply.versions.value && Settled12h(e, now) && Usable(reply, now) == e.version
    ensures reply.Body? && reply.versions.Some? && (forall e :: e in reply.versions.value ==> !Settled12h(e, now)) ==>
      Usable(reply, now) == Usable(Body(reply.current, None), now)
  {
    if reply.Body? && reply.versions.Some? {
      var fallback := Usable(Body(reply.current, None), now);
      PickedIsSettled(reply.versions.value, now, fallback);
    }
  }

  // ---------------------------------------------------------------- the resolver

  /** One fetch: when it began, and what it came to once it has (nothing usable is None). */
  datatype Flight = Flight(startedAt: int, result: Option<Option<string>>)

  /** What a caller is given: a value at once, or the promise of a flight. */
  datatype Answer = Now(value: Option<string>) | Joins(flight: nat)

  datatype State = State(cached: Option<string>, inFlight: Option<nat>, lastFailureAt: int, flights: seq<Flight>)

  const FRESH := State(None, None, 0, [])

  predicate BackingOff(s: State, now: int) { s.lastFailureAt != 0 && now - s.lastFailureAt < FAILURE_BACKOFF_MS }

  predicate Starts(s: State, now: int) { s.cached.None? && s.inFlight.None? && !BackingOff(s, now) }

  /** `throwsAtOnce`: the fetcher throws before the asynchronous body has been suspended once. */
  function Called(s: State, now: int, throwsAtOnce: bool): (State, Answer) {
    if s.cached.Some? then (s, Now(s.cached))
    else if s.inFlight.Some? then (s, Joins(s.inFlight.value))
    else if BackingOff(s, now) then (s, Now(None))
    else
      var f := |s.flights|;
      var flight := Flight(now, if throwsAtOnce then Some(None) else None);
      var s' := s.(flights := s.flights + [flight], inFlight := Some(f));
      (if throwsAtOnce then s'.(lastFailureAt := now) else s', Joins(f))
  }

  function Settled(s: State, f: nat, result: Option<string>, now: int): State {
    if f >= |s.flights| || s.flights[f].result.Some? then s
    else
      var s' := s.(flights := s.flights[f := s.flights[f].(result := Some(result))], inFlight := None);
      if result.Some? then s'.(cached := result) else s'.(lastFailureAt := now)
  }

  /** The registry's reply: a network error or abort, a status other than 2xx, or its two fields. */
  datatype Reply = NoReply | HttpError | Body(current: Option<string>, versions: Option<seq<Entry>>)

  function Usable(reply: Reply, now: int): Option<string> {
    match reply
    case Body(current, versions) =>
      Picked(versions, now, if current.Some? && IsVersion(current.value) then current else None)
    case _ => None
  }

  class WebVersionResolver {
    var cachedCurrentVersion: Option<string>
    var inFlight: Option<nat>
    var lastFailureAt: int
    var flights: seq<Flight>

    ghost function Contents(): State
      reads this
    {
      State(cachedCurrentVersion, inFlight, lastFailureAt, flights)
    }

    constructor ()
      ensures Contents() == FRESH
    {
      cachedCurrentVersion, inFlight, lastFailureAt, flights := None, None, 0, [];
    }

    method ResolveCurrentWebVersion(now: int, throwsAtOnce: bool) returns (answer: Answer)
      modifies this
      ensures (Contents(), answer) == Called(old(Contents()), now, throwsAtOnce)
    {
      if cachedCurrentVersion.Some? { return Now(cachedCurrentVersion); }
      if inFlight.Some? { return Joins(inFlight.value); }
      if lastFailureAt != 0 && now - lastFailureAt < FAILURE_BACKOFF_MS { return Now(None); }
      var f := |flights|;
      flights := flights + [Flight(now, None)];
      if throwsAtOnce {
        Finish(f, None, now);
        assert flights == old(flights) + [Flight(now, Some(None))];
      }
      // the assignment of the promise comes after the body has run to its first suspension
      inFlight := Some(f);
      return Joins(f);
    }

    /** The end of the asynchronous body: try, catch and finally. */
    method Finish(f: nat, result: Option<string>, now: int)
      requires f < |flights| && flights[f].result.None?
      modifies this
      ensures Contents() == Settled(old(Contents()), f, result, now)
    {
      if result.Some? {
        cachedCurrentVersion := result;
      } else {
        lastFailureAt := now;
      }
      inFlight := None;
      flights := flights[f := flights[f].(result := Some(result))];
    }

    /** The body of flight f resumes with the registry's reply. */
    method Resume(f: nat, reply: Reply, now: int)
      requires f < |flights| && flights[f].result.None?
      modifies this
      ensures Contents() == Settled(old(Contents()), f, Usable(reply, now), now)
    {
      var result := None;
      if reply.Body? {
        var rawCurrent := if reply.current.Some? && IsVersion(reply.current.value) then reply.current else None;
        result := PickSettledWebVersion(reply.versions, now, rawCurrent);
      }
      Finish(f, result, now);
    }
  }

  // ---------------------------------------------------------------- every interleaving

  datatype Event = Call(throwsAtOnce: bool) | Settle(f: nat, result: Option<string>) | Tick(ms: nat)

  /** The resolver, the clock and what every caller so far was given. `Date.now()` is positive from the start. */
  datatype World = World(now: int, s: State, answers: seq<Answer>)

  const ORIGIN := World(1, FRESH, [])

  function Step(w: World, e: Event): World {
    match e
    case Call(throws) =>
      var (s, a) := Called(w.s, w.now, throws);
      w.(s := s, answers := w.answers + [a])
    case Settle(f, result) => w.(s := Settled(w.s, f, result, w.now))
    case Tick(ms) => w.(now := w.now + ms)
  }

  function RunFrom(w: World, events: seq<Event>): World {
    if |events| == 0 then w else Step(RunFrom(w, events[..|events| - 1]), events[|events| - 1])
  }

  function Run(events: seq<Event>): World { RunFrom(ORIGIN, events) }

  /** A caller's value, once it has one. */
  function ValueOf(w: World, a: Answer): Option<Option<string>> {
    match a
    case Now(v) => Some(v)
    case Joins(f) => if f < |w.s.flights| then w.s.flights[f].result else None
  }

  /** The newest flight has failed, and yet it is still the one callers join. */
  predicate Stuck(s: State) {
    var n := |s.flights|;
    n > 0 && s.flights[n - 1].result == Some(None) && s.inFlight == Some(n - 1)
  }

  /** Some fetcher that was called upon threw before it suspended, which the built-in fetch never does. */
  ghost predicate ThrewAtStart(events: seq<Event>) {
    exists k :: 0 <= k < |events| && events[k] == Call(true) && Starts(Run(events[..k]).s, Run(events[..k]).now)
  }

  ghost predicate FlightsConsistent(s: State, now: int) {
    var n := |s.flights|;
    && 0 <= s.lastFailureAt <= now
    && (forall i :: 0 <= i < n ==> 1 <= s.flights[i].startedAt <= now)
    && (forall i :: 0 <= i < n - 1 ==> s.flights[i].result == Some(None))
    && Spaced(s.flights)
    && (s.inFlight == if n > 0 && (s.flights[n - 1].result.None? || Stuck(s)) then Some(n - 1) else None)
    && (s.cached == if n > 0 && s.flights[n - 1].result.Some? then s.flights[n - 1].result.value else None)
    && (n > 0 && s.flights[n - 1].result == Some(None) ==> s.lastFailureAt >= s.flights[n - 1].startedAt)
  }

  predicate AnswerConsistent(s: State, a: Answer) {
    match a
    case Now(v) => v.Some? ==> v == s.cached
    case Joins(f) => f < |s.flights|
  }

  ghost predicate Consistent(w: World) {
    && w.now >= 1
    && FlightsConsistent(w.s, w.now)
    && forall k :: 0 <= k < |w.answers| ==> AnswerConsistent(w.s, w.answers[k])
  }

  lemma CallConsistent(s: State, now: int)
    requires now >= 1 && FlightsConsistent(s, now)
    ensures var (s', a) := Called(s, now, false);
      && FlightsConsistent(s', now) && AnswerConsistent(s', a)
      && s'.cached == s.cached && |s'.flights| >= |s.flights|
      && (Stuck(s') <==> Stuck(s))
  {
  }

  lemma ThrowConsistent(s: State, now: int)
    requires now >= 1 && FlightsConsistent(s, now) && Starts(s, now)
    ensures var (s', a) := Called(s, now, true);
      && FlightsConsistent(s', now) && AnswerConsistent(s', a)
      && s'.cached == s.cached && |s'.flights| >= |s.flights|
      && Stuck(s')
  {
  }

  lemma SettleConsistent(s: State, now: int, f: nat, result: Option<string>)
    requires now >= 1 && FlightsConsistent(s, now)
    ensures var s' := Settled(s, f, result, now);
      && FlightsConsistent(s', now) && |s'.flights| == |s.flights|
      && (s.cached.Some? ==> s'.cached == s.cached)
      && (Stuck(s') <==> Stuck(s))
  {
  }

  lemma StepConsistent(w: World, e: Event)
    requires Consistent(w)
    ensures Consistent(Step(w, e))
    ensures Stuck(Step(w, e).s) <==> Stuck(w.s) || (e == Call(true) && Starts(w.s, w.now))
  {
    match e
    case Call(throws) =>
      if throws && Starts(w.s, w.now) { ThrowConsistent(w.s, w.now); } else { CallConsistent(w.s, w.now); }
    case Settle(f, result) => SettleConsistent(w.s, w.now, f, result);
    case Tick(_) =>
  }

  lemma {:induction false} RunConsistent(events: seq<Event>)
    ensures Consistent(Run(events))
    ensures Stuck(Run(events).s) <==> ThrewAtStart(events)
  {
    if |events| > 0 {
      var n := |events| - 1;
      RunConsistent(events[..n]);
      StepConsistent(Run(events[..n]), events[n]);
      forall k | 0 <= k < n ensures events[..n][k] == events[k] && events[..n][..k] == events[..k] {}
      if ThrewAtStart(events) {
        var k :| 0 <= k < |events| && events[k] == Call(true) && Starts(Run(events[..k]).s, Run(events[..k]).now);
        if k < n { assert events[..n][k] == Call(true); }
      }
    }
  }

  /** At most one fetch is outstanding, and it is the one new callers join. */
  lemma SingleFlight(events: seq<Event>, i: nat, j: nat)
    requires i < |Run(events).s.flights| && j < |Run(events).s.flights|
    requires Run(events).s.flights[i].result.None? && Run(events).s.flights[j].result.None?
    ensures i == j && Run(events).s.inFlight == Some(i)
  {
    RunConsistent(events);
  }

  /** No two callers are ever given different versions, however they came by them. */
  lemma OneVersionForAll(events: seq<Event>, k: nat, m: nat)
    requires k < |Run(events).answers| && m < |Run(events).answers|
    ensures var w := Run(events);
      var a, b := ValueOf(w, w.answers[k]), ValueOf(w, w.answers[m]);
      a.Some? && a.value.Some? && b.Some? && b.value.Some? ==> a == b && a.value == w.s.cached
  {
    RunConsistent(events);
    var w := Run(events);
    assert AnswerConsistent(w.s, w.answers[k]) && AnswerConsistent(w.s, w.answers[m]);
  }

  /** After a success nothing is fetched again and the cached answer never changes, whatever follows. */
  lemma {:induction false} SuccessIsFinal(events: seq<Event>, more: seq<Event>)
    requires Run(events).s.cached.Some?
    ensures RunFrom(Run(events), more).s == Run(events).s
  {
    RunConsistent(events);
    if |more| > 0 { SuccessIsFinal(events, more[..|more| - 1]); }
  }

  // ---------------------------------------------------------------- how often it fetches

  /** Fetches that began between a and b, both included. */
  function StartedWithin(flights: seq<Flight>, a: int, b: int): nat {
    if |flights| == 0 then 0
    else
      StartedWithin(flights[..|flights| - 1], a, b) + (if a <= flights[|flights| - 1].startedAt <= b then 1 else 0)
  }

  ghost predicate Spaced(flights: seq<Flight>) {
    forall i :: 0 <= i < |flights| - 1 ==> flights[i].startedAt + FAILURE_BACKOFF_MS <= flights[i + 1].startedAt
  }

  lemma {:induction false} NoneBefore(flights: seq<Flight>, a: int, b: int)
    requires Spaced(flights) && |flights| > 0 && flights[|flights| - 1].startedAt < a
    ensures StartedWithin(flights, a, b) == 0
  {
    if |flights| > 1 { NoneBefore(flights[..|flights| - 1], a, b); }
  }

  lemma {:induction false} SpacedStarts(flights: seq<Flight>, a: int, b: int)
    requires Spaced(flights) && a <= b
    ensures StartedWithin(flights, a, b) <= (b - a) / FAILURE_BACKOFF_MS + 1
  {
    if |flights| > 0 {
      var init, last := flights[..|flights| - 1], flights[|flights| - 1].startedAt;
      if !(a <= last <= b) {
        SpacedStarts(init, a, b);
      } else if |init| > 0 {
        var cut := last - FAILURE_BACKOFF_MS;
        StartsUpTo(init, a, b, cut);
        if cut >= a { SpacedStarts(init, a, cut); } else { NoneBefore(init, a, b); }
      }
    }
  }

  /** If the last start is no later than c, nothing after c counts. */
  lemma {:induction false} StartsUpTo(flights: seq<Flight>, a: int, b: int, c: int)
    requires Spaced(flights) && |flights| > 0 && flights[|flights| - 1].startedAt <= c <= b
    ensures StartedWithin(flights, a, b) == StartedWithin(flights, a, c)
  {
    if |flights| > 1 { StartsUpTo(flights[..|flights| - 1], a, b, c); }
  }

  /** Any window of length T holds at most T / 60000 + 1 fetch starts. */
  lemma FetchRateBounded(events: seq<Event>, a: int, length: nat)
    ensures StartedWithin(Run(events).s.flights, a, a + length) <= length / 60_000 + 1
  {
    RunConsistent(events);
    SpacedStarts(Run(events).s.flights, a, a + length);
  }

  // ---------------------------------------------------------------- when it recovers

  /** Nothing that can happen from here on changes the resolver. */
  ghost predicate Frozen(w: World) { forall more :: RunFrom(w, more).s == w.s }

  /** What gets a resolver going again: the outstanding fetch ends, the back-off passes, someone asks. */
  function Wake(w: World): seq<Event> {
    [Settle(if w.s.inFlight.Some? then w.s.inFlight.value else 0, None), Tick(FAILURE_BACKOFF_MS), Call(false)]
  }

  lemma RunSnoc(w: World, es: seq<Event>, e: Event)
    ensures RunFrom(w, es + [e]) == Step(RunFrom(w, es), e)
  {
  }

  lemma WakeStartsFetch(w: World)
    requires Consistent(w) && w.s.cached.None? && !Stuck(w.s)
    ensures |RunFrom(w, Wake(w)).s.flights| == |w.s.flights| + 1
  {
    var es := Wake(w);
    RunSnoc(w, [], es[0]);
    RunSnoc(w, [] + [es[0]], es[1]);
    RunSnoc(w, [] + [es[0]] + [es[1]], es[2]);
    assert es == [] + [es[0]] + [es[1]] + [es[2]];
  }

  /** A flight that failed before it was stored: every later caller joins it, and nothing ever takes it away. */
  lemma {:induction false} StuckIsFrozen(w: World, more: seq<Event>)
    requires Consistent(w) && Stuck(w.s)
    ensures RunFrom(w, more).s == w.s
  {
    if |more| > 0 { StuckIsFrozen(w, more[..|more| - 1]); }
  }

  /**
   A resolver without a build is frozen for good if and only if some fetcher threw before it suspended. In
   every other run the next call after the back-off begins a new fetch.
   */
  lemma FrozenIff(events: seq<Event>)
    requires Run(events).s.cached.None?
    ensures Frozen(Run(events)) <==> ThrewAtStart(events)
    ensures !ThrewAtStart(events) ==>
      |RunFrom(Run(events), Wake(Run(events))).s.flights| == |Run(events).s.flights| + 1
  {
    var w := Run(events);
    RunConsistent(events);
    if Stuck(w.s) {
      forall more ensures RunFrom(w, more).s == w.s { StuckIsFrozen(w, more); }
    } else {
      WakeStartsFetch(w);
      assert RunFrom(w, Wake(w)).s != w.s;
    }
  }

  /** After such a throw the resolver has no build, and every caller is handed the flight that has already failed. */
  lemma SynchronousThrowWedges(events: seq<Event>, more: seq<Event>, throws: bool)
    requires ThrewAtStart(events)
    ensures var w, v := Run(events), RunFrom(Run(events), more);
      && v.s == w.s && v.s.cached == None && |v.s.flights| > 0
      && Called(v.s, v.now, throws) == (v.s, Joins(|v.s.flights| - 1))
      && v.s.flights[|v.s.flights| - 1].result == Some(None)
  {
    RunConsistent(events);
    StuckIsFrozen(Run(events), more);
  }
}
