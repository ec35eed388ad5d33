/**
 Overlapping deliveries of message events. The handler in backend/src/routes/webhook.js asks the
 database three things in turn: is the key stored, is the message stored, insert. Other deliveries may
 run between any two of them. The schema (backend/src/db/schema.sql) has a unique index on
 idempotency_key and only a plain one on wa_message_id.
 */
module WebhookRaces {
  import opened Options
  import Webhook

  /** A message event that names a message and a chat; an empty key is stored as NULL. */
  datatype Event = Event(waId: string, key: string)

  /** A stored row, with the delivery it came from. */
  datatype Row = Row(waId: string, key: string, from: nat)

  datatype Phase = AskKey | AskId | Insert | Finished

  datatype State = State(rows: seq<Row>, phases: seq<Phase>)

  predicate HasKey(rows: seq<Row>, key: string) { key != "" && exists r :: r in rows && r.key == key }

  predicate HasId(rows: seq<Row>, id: string) { exists r :: r in rows && r.waId == id }

  function Start(events: seq<Event>): State { State([], seq(|events|, _ => AskKey)) }

  /** The next query of delivery i. */
  function Step(events: seq<Event>, s: State, i: nat): (t: State)
    requires |s.phases| == |events|
    ensures |t.phases| == |events|
  {
    if i >= |events| then s
    else
      var e := events[i];
      match s.phases[i]
      case AskKey => s.(phases := s.phases[i := if HasKey(s.rows, e.key) then Finished else AskId])
      case AskId => s.(phases := s.phases[i := if HasId(s.rows, e.waId) then Finished else Insert])
      case Insert =>
        var rows := if HasKey(s.rows, e.key) then s.rows else s.rows + [Row(e.waId, e.key, i)];
        State(rows, s.phases[i := Finished])
      case Finished => s
  }

  function Run(events: seq<Event>, schedule: seq<nat>): (s: State)
    ensures |s.phases| == |events|
  {
    if |schedule| == 0 then Start(events)
    else Step(events, Run(events, schedule[..|schedule| - 1]), schedule[|schedule| - 1])
  }

  ghost predicate OneRowEach(s: State) {
    forall i, j :: 0 <= i < j < |s.rows| ==> s.rows[i].waId != s.rows[j].waId
  }

  /** All deliveries of one message carry one and the same key. */
  ghost predicate SharedKeys(events: seq<Event>) {
    forall i, j :: 0 <= i < j < |events| && events[i].waId == events[j].waId ==>
      events[i].key == events[j].key && events[i].key != ""
  }

  /** Rows come from distinct finished deliveries, and the unique index holds. */
  ghost predicate Traced(events: seq<Event>, s: State) {
    && |s.phases| == |events|
    && (forall i :: 0 <= i < |s.rows| ==>
         var r := s.rows[i];
         && r.from < |events| && s.phases[r.from] == Finished
         && r.waId == events[r.from].waId && r.key == events[r.from].key)
    && (forall i, j :: 0 <= i < j < |s.rows| ==> s.rows[i].from != s.rows[j].from)
    && (forall i, j :: 0 <= i < j < |s.rows| && s.rows[i].key != "" ==> s.rows[i].key != s.rows[j].key)
  }

  lemma StepTraced(events: seq<Event>, s: State, i: nat)
    requires Traced(events, s)
    ensures Traced(events, Step(events, s, i))
  {
  }

  lemma {:induction false} RunTraced(events: seq<Event>, schedule: seq<nat>)
    ensures Traced(events, Run(events, schedule))
  {
    if |schedule| > 0 {
      RunTraced(events, schedule[..|schedule| - 1]);
      StepTraced(events, Run(events, schedule[..|schedule| - 1]), schedule[|schedule| - 1]);
    }
  }

  ghost predicate SafeUnderEverySchedule(events: seq<Event>) {
    forall schedule :: OneRowEach(Run(events, schedule))
  }

  /**
   A batch of deliveries can be interleaved in any way without storing a message twice, if and only if all
   copies of a message carry the same idempotency key. That every message is stored at all takes more, see
   `ExactlyOnceIff`.
   */
  lemma SafeIff(events: seq<Event>)
    ensures SafeUnderEverySchedule(events) <==> SharedKeys(events)
  {
    if SharedKeys(events) {
      forall schedule ensures OneRowEach(Run(events, schedule)) { SharedKeysSafe(events, schedule); }
    } else {
      var i, j :| 0 <= i < j < |events| && events[i].waId == events[j].waId
                  && !(events[i].key == events[j].key && events[i].key != "");
      RaceStoresTwice(events, i, j);
    }
  }

  lemma SharedKey(events: seq<Event>, a: nat, b: nat)
    requires SharedKeys(events) && a < |events| && b < |events| && a != b
    ensures events[a].waId == events[b].waId ==> events[a].key == events[b].key != ""
  {
  }

  lemma {:induction false} SharedKeysSafe(events: seq<Event>, schedule: seq<nat>)
    requires SharedKeys(events)
    ensures OneRowEach(Run(events, schedule))
  {
    RunTraced(events, schedule);
    var s := Run(events, schedule);
    forall i, j | 0 <= i < j < |s.rows| ensures s.rows[i].waId != s.rows[j].waId {
      var a, b := s.rows[i].from, s.rows[j].from;
      SharedKey(events, a, b);
    }
  }

  lemma RunStep(events: seq<Event>, schedule: seq<nat>, i: nat)
    ensures Run(events, schedule + [i]) == Step(events, Run(events, schedule), i)
  {
  }

  /** Both ask before either inserts. */
  lemma {:induction false} RaceStoresTwice(events: seq<Event>, i: nat, j: nat)
    requires i < j < |events| && events[i].waId == events[j].waId
    requires !(events[i].key == events[j].key && events[i].key != "")
    ensures !OneRowEach(Run(events, [i, j, i, j, i, j]))
  {
    var start: seq<nat> := [];
    RunStep(events, start, i);
    RunStep(events, start + [i], j);
    RunStep(events, start + [i] + [j], i);
    RunStep(events, start + [i] + [j] + [i], j);
    RunStep(events, start + [i] + [j] + [i] + [j], i);
    RunStep(events, start + [i] + [j] + [i] + [j] + [i], j);
    assert start + [i] + [j] + [i] + [j] + [i] + [j] == [i, j, i, j, i, j];
    var s0 := Start(events);
    var s1 := s0.(phases := s0.phases[i := AskId]);
    var s2 := s1.(phases := s1.phases[j := AskId]);
    var s3 := s2.(phases := s2.phases[i := Insert]);
    var s4 := s3.(phases := s3.phases[j := Insert]);
    assert Step(events, s0, i) == s1 && Step(events, s1, j) == s2;
    assert Step(events, s2, i) == s3 && Step(events, s3, j) == s4;
    var ri, rj := Row(events[i].waId, events[i].key, i), Row(events[j].waId, events[j].key, j);
    var s5 := Step(events, s4, i);
    assert s5.rows == [ri];
    var s6 := Step(events, s5, j);
    assert s6.rows == [ri, rj] && s6.rows[0].waId == s6.rows[1].waId;
  }

  // ---------------------------------------------------------------- exactly once

  /** Every delivery has run to its end. */
  predicate Complete(events: seq<Event>, schedule: seq<nat>) {
    forall i :: 0 <= i < |events| ==> Run(events, schedule).phases[i] == Finished
  }

  /** Every message that was delivered has a row, and no message has two. */
  ghost predicate OneRowForEach(events: seq<Event>, s: State) {
    OneRowEach(s) && forall i :: 0 <= i < |events| ==> HasId(s.rows, events[i].waId)
  }

  /** No two messages share a key. */
  ghost predicate KeysApart(events: seq<Event>) {
    forall i, j :: 0 <= i < |events| && 0 <= j < |events| && events[i].key == events[j].key != "" ==>
      events[i].waId == events[j].waId
  }

  ghost predicate ExactlyOnceUnderEverySchedule(events: seq<Event>) {
    forall schedule :: Complete(events, schedule) ==> OneRowForEach(events, Run(events, schedule))
  }

  /** A finished delivery found or left a row with its message, or found one with its key. */
  ghost predicate Accounted(events: seq<Event>, s: State) {
    && |s.phases| == |events|
    && forall i :: 0 <= i < |events| && s.phases[i] == Finished ==>
         HasId(s.rows, events[i].waId) || HasKey(s.rows, events[i].key)
  }

  /** Rows are only ever added at the end. */
  lemma StepKeepsRows(events: seq<Event>, s: State, i: nat)
    requires |s.phases| == |events|
    ensures s.rows <= Step(events, s, i).rows
    ensures forall id :: HasId(s.rows, id) ==> HasId(Step(events, s, i).rows, id)
    ensures forall key :: HasKey(s.rows, key) ==> HasKey(Step(events, s, i).rows, key)
  {
  }

  lemma StepAccounted(events: seq<Event>, s: State, i: nat)
    requires Accounted(events, s)
    ensures Accounted(events, Step(events, s, i))
  {
    var t := Step(events, s, i);
    StepKeepsRows(events, s, i);
    forall k | 0 <= k < |events| && t.phases[k] == Finished
      ensures HasId(t.rows, events[k].waId) || HasKey(t.rows, events[k].key)
    {
      if s.phases[k] == Insert && !HasKey(s.rows, events[k].key) {
        assert Row(events[k].waId, events[k].key, k) in t.rows;
      }
    }
  }

  lemma {:induction false} RunAccounted(events: seq<Event>, schedule: seq<nat>)
    ensures Accounted(events, Run(events, schedule))
  {
    if |schedule| > 0 {
      RunAccounted(events, schedule[..|schedule| - 1]);
      StepAccounted(events, Run(events, schedule[..|schedule| - 1]), schedule[|schedule| - 1]);
    }
  }

  lemma KeysApartStores(events: seq<Event>, schedule: seq<nat>, i: nat)
    requires KeysApart(events) && Complete(events, schedule) && i < |events|
    ensures HasId(Run(events, schedule).rows, events[i].waId)
  {
    RunAccounted(events, schedule);
    RunTraced(events, schedule);
    var rows, key := Run(events, schedule).rows, events[i].key;
    if HasKey(rows, key) {
      var r :| r in rows && r.key == key;
      assert events[r.from].key == key && events[r.from].waId == r.waId;
    }
  }

  /** Three turns finish a delivery and leave the others, and the rows so far, as they are. */
  lemma ThreeTurns(events: seq<Event>, s: State, i: nat)
    requires |s.phases| == |events| && i < |events|
    ensures var t := Step(events, Step(events, Step(events, s, i), i), i);
      && t.phases == s.phases[i := Finished] && s.rows <= t.rows
  {
  }

  lemma RunTurns(events: seq<Event>, schedule: seq<nat>, i: nat)
    requires i < |events|
    ensures var s, t := Run(events, schedule), Run(events, schedule + [i] + [i] + [i]);
      && t.phases == s.phases[i := Finished] && s.rows <= t.rows
  {
    RunStep(events, schedule, i);
    RunStep(events, schedule + [i], i);
    RunStep(events, schedule + [i] + [i], i);
    ThreeTurns(events, Run(events, schedule), i);
  }

  predicate FinishedBelow(phases: seq<Phase>, n: nat) {
    forall i :: 0 <= i < n && i < |phases| ==> phases[i] == Finished
  }

  lemma {:induction false} Finishing(events: seq<Event>, schedule: seq<nat>, n: nat) returns (all: seq<nat>)
    requires n <= |events|
    ensures Run(events, schedule).rows <= Run(events, all).rows
    ensures FinishedBelow(Run(events, all).phases, n)
  {
    all := schedule;
    if n > 0 {
      var before := Finishing(events, schedule, n - 1);
      RunTurns(events, before, n - 1);
      all := before + [n - 1] + [n - 1] + [n - 1];
    }
  }

  /** Whatever has happened, the deliveries can still all end, and two rows of one message stay two. */
  lemma CanComplete(events: seq<Event>, schedule: seq<nat>) returns (all: seq<nat>)
    ensures Complete(events, all)
    ensures !OneRowEach(Run(events, schedule)) ==> !OneRowEach(Run(events, all))
  {
    all := Finishing(events, schedule, |events|);
  }

  /** Of two messages that share a key, one has no row in the end, whatever the schedule. */
  lemma SharedBetweenLosesOne(events: seq<Event>, schedule: seq<nat>, i: nat, j: nat)
    requires SharedKeys(events) && i < |events| && j < |events|
    requires events[i].key == events[j].key != "" && events[i].waId != events[j].waId
    ensures !(HasId(Run(events, schedule).rows, events[i].waId) && HasId(Run(events, schedule).rows, events[j].waId))
  {
    var rows := Run(events, schedule).rows;
    RunTraced(events, schedule);
    if HasId(rows, events[i].waId) && HasId(rows, events[j].waId) {
      var a :| 0 <= a < |rows| && rows[a].waId == events[i].waId;
      var b :| 0 <= b < |rows| && rows[b].waId == events[j].waId;
      if rows[a].from != i { SharedKey(events, rows[a].from, i); }
      if rows[b].from != j { SharedKey(events, rows[b].from, j); }
      assert false;
    }
  }

  /**
   Once all overlapping deliveries have ended, every message has exactly one row under every schedule, if
   and only if all copies of a message carry one key and no two messages carry the same one.
   */
  lemma ExactlyOnceIff(events: seq<Event>)
    ensures ExactlyOnceUnderEverySchedule(events) <==> SharedKeys(events) && KeysApart(events)
  {
    if SharedKeys(events) && KeysApart(events) {
      forall schedule | Complete(events, schedule) ensures OneRowForEach(events, Run(events, schedule)) {
        SharedKeysSafe(events, schedule);
        forall i | 0 <= i < |events| ensures HasId(Run(events, schedule).rows, events[i].waId) {
          KeysApartStores(events, schedule, i);
        }
      }
    } else if SharedKeys(events) {
      var all := CanComplete(events, []);
      var i, j :| 0 <= i < |events| && 0 <= j < |events| && events[i].key == events[j].key != ""
                  && events[i].waId != events[j].waId;
      SharedBetweenLosesOne(events, all, i, j);
      assert !OneRowForEach(events, Run(events, all));
    } else {
      SafeIff(events);
      var schedule :| !OneRowEach(Run(events, schedule));
      var all := CanComplete(events, schedule);
      assert !OneRowForEach(events, Run(events, all));
    }
  }

  /** A delivery left undisturbed stores its row exactly when neither its key nor its message is stored. */
  lemma UndisturbedDelivery(events: seq<Event>, s: State, i: nat)
    requires |s.phases| == |events| && i < |events| && s.phases[i] == AskKey
    ensures var e := events[i];
      Step(events, Step(events, Step(events, s, i), i), i).rows
        == if HasKey(s.rows, e.key) || HasId(s.rows, e.waId) then s.rows else s.rows + [Row(e.waId, e.key, i)]
  {
  }

  /** The two columns of a stored message that this module is about. */
  function Columns(waId: string, key: Option<string>): (string, string) { (waId, if key.Some? then key.value else "") }

  /** The rows here, and those of the messages table, seen through these columns. */
  ghost predicate SameColumns(rows: seq<Row>, messages: seq<Webhook.Message>) {
    && |rows| == |messages|
    && forall k :: 0 <= k < |rows| ==> Columns(messages[k].waId, messages[k].key) == (rows[k].waId, rows[k].key)
  }

  lemma SameAnswers(rows: seq<Row>, messages: seq<Webhook.Message>, id: string, key: string)
    requires SameColumns(rows, messages)
    ensures HasId(rows, id) <==> Webhook.HasId(messages, id)
    ensures key != "" ==> (HasKey(rows, key) <==> Webhook.HasKey(messages, key))
  {
    if HasId(rows, id) {
      var k :| 0 <= k < |rows| && rows[k].waId == id;
      assert messages[k] in messages;
    }
    if Webhook.HasId(messages, id) {
      var k :| 0 <= k < |messages| && messages[k].waId == id;
      assert rows[k] in rows;
    }
    if key != "" && HasKey(rows, key) {
      var k :| 0 <= k < |rows| && rows[k].key == key;
      assert messages[k] in messages;
    }
    if key != "" && Webhook.HasKey(messages, key) {
      var k :| 0 <= k < |messages| && messages[k].key == Some(key);
      assert rows[k] in rows;
    }
  }

  /**
   The three turns of a delivery that nothing interrupts do to these columns what the whole handler, taken as
   one step, does to the table.
   */
  lemma UndisturbedIsDelivered(events: seq<Event>, s: State, i: nat, db: Webhook.Database, p: Webhook.Payload,
                               seconds: int)
    requires |s.phases| == |events| && i < |events| && s.phases[i] == AskKey
    requires Webhook.Delivers(p, events[i].waId) && p.key == events[i].key && SameColumns(s.rows, db.messages)
    ensures SameColumns(Step(events, Step(events, Step(events, s, i), i), i).rows,
                        Webhook.Delivered(db, p, seconds).messages)
  {
    UndisturbedDelivery(events, s, i);
    SameAnswers(s.rows, db.messages, events[i].waId, events[i].key);
  }
}
