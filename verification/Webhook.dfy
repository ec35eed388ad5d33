/**
 Webhook ingestion: backend/src/routes/webhook.js over the tables of backend/src/db/schema.sql, one
 delivery at a time. Deliveries that overlap are the subject of WebhookRaces.dfy.
 */
module Webhook {
  import opened Options

  // ---------------------------------------------------------------- phone numbers

  function BeforeAt(s: string): string { if s == "" || s[0] == '@' then "" else [s[0]] + BeforeAt(s[1..]) }

  function DigitsOf(s: string): string {
    if s == "" then "" else (if IsDigit(s[0]) then [s[0]] else "") + DigitsOf(s[1..])
  }

  function WithoutLeadingZeros(s: string): string { if s != "" && s[0] == '0' then WithoutLeadingZeros(s[1..]) else s }

  function NormalizePhone(input: string): string { WithoutLeadingZeros(DigitsOf(input)) }

  function PhoneToChatId(phone: string): string { NormalizePhone(phone) + "@c.us" }

  function ChatToPhone(chat: string): string { NormalizePhone(BeforeAt(chat)) }

  predicate IsNumber(s: string) { (forall i :: 0 <= i < |s| ==> IsDigit(s[i])) && (s != "" ==> s[0] != '0') }

  lemma {:induction false} NormalizedIsNumber(s: string)
    ensures forall i :: 0 <= i < |DigitsOf(s)| ==> IsDigit(DigitsOf(s)[i])
    ensures IsNumber(NormalizePhone(s))
  {
    if s != "" { NormalizedIsNumber(s[1..]); }
    ZerosStripped(DigitsOf(s));
  }

  lemma {:induction false} ZerosStripped(s: string)
    requires forall i :: 0 <= i < |s| ==> IsDigit(s[i])
    ensures IsNumber(WithoutLeadingZeros(s))
  {
    if s != "" && s[0] == '0' { ZerosStripped(s[1..]); }
  }

  lemma {:induction false} NumberUnchanged(s: string, tail: string)
    requires forall i :: 0 <= i < |s| ==> IsDigit(s[i])
    ensures DigitsOf(s) == s && BeforeAt(s + "@" + tail) == s
  {
    var t := s + "@" + tail;
    if s != "" {
      NumberUnchanged(s[1..], tail);
      assert t[1..] == s[1..] + "@" + tail;
    }
  }

  /** A phone number survives being made into a chat id and back. */
  lemma PhoneRoundTrip(phone: string)
    ensures ChatToPhone(PhoneToChatId(phone)) == NormalizePhone(phone)
    ensures IsNumber(NormalizePhone(phone))
  {
    NormalizedIsNumber(phone);
    NumberUnchanged(NormalizePhone(phone), "c.us");
    assert "@" + "c.us" == "@c.us";
    assert NormalizePhone(phone) + "@" + "c.us" == PhoneToChatId(phone);
  }

  // What normalisation looks at: the digits, from the first that is not a zero. Nothing else makes a difference.

  lemma DigitsFirst(x: char, s: string)
    ensures DigitsOf([x] + s) == (if IsDigit(x) then [x] else "") + DigitsOf(s)
  {
    assert ([x] + s)[1..] == s;
  }

  lemma {:induction false} DigitsConcat(a: string, b: string)
    ensures DigitsOf(a + b) == DigitsOf(a) + DigitsOf(b)
  {
    if a == "" {
      assert a + b == b;
    } else {
      assert a + b == [a[0]] + (a[1..] + b) && a == [a[0]] + a[1..];
      DigitsFirst(a[0], a[1..] + b);
      DigitsFirst(a[0], a[1..]);
      DigitsConcat(a[1..], b);
    }
  }

  lemma {:induction false} DigitsKept(s: string)
    requires forall i :: 0 <= i < |s| ==> IsDigit(s[i])
    ensures DigitsOf(s) == s
  {
    if s != "" {
      DigitsKept(s[1..]);
      assert s == [s[0]] + s[1..];
    }
  }

  /** A number in digits stays as it is; leading zeros go; spaces, signs and the like may be left out anywhere. */
  lemma NormalizedPhone(a: string, x: char, b: string)
    ensures IsNumber(a) ==> NormalizePhone(a) == a
    ensures NormalizePhone("0" + a) == NormalizePhone(a)
    ensures !('0' <= x <= '9') ==> NormalizePhone(a + [x] + b) == NormalizePhone(a + b)
  {
    if IsNumber(a) { DigitsKept(a); }
    DigitsConcat("0", a);
    assert DigitsOf("0") == "0" + DigitsOf("") && "0" + "" == "0";
    assert ("0" + DigitsOf(a))[1..] == DigitsOf(a);
    DigitsConcat(a + [x], b);
    DigitsConcat(a, [x]);
    DigitsConcat(a, b);
    assert !IsDigit(x) ==> DigitsOf([x]) == "" by { assert [x][1..] == ""; }
    assert DigitsOf(a) + "" == DigitsOf(a);
  }

  // ---------------------------------------------------------------- tables and payloads

  const READ := "read"

  datatype Message = Message(session: string, waId: string, chat: string, fromMe: bool, body: Option<string>,
                             kind: string, ts: int, status: string, key: Option<string>)

  datatype Contact = Contact(waId: string, name: string, phone: string)

  datatype Database = Database(messages: seq<Message>, contacts: seq<Contact>)

  datatype EventKind = MessageEvent | AckEvent | OtherEvent

  /** The `data` of a payload; an absent field is the empty string, or 0 for the timestamp. */
  datatype Data = Data(id: string, fromMe: bool, to: string, from: string, chatId: string, body: Option<string>,
                       kind: string, timestamp: int, isGroup: bool, senderPhone: string, contactName: string,
                       messageId: string, status: string)

  datatype Payload = Invalid | Payload(event: EventKind, session: string, key: string, data: Data)

  datatype Reply = BadRequest | Received(duplicate: bool)

  // ---------------------------------------------------------------- specification

  predicate HasKey(messages: seq<Message>, key: string) { exists m :: m in messages && m.key == Some(key) }

  predicate HasId(messages: seq<Message>, id: string) { exists m :: m in messages && m.waId == id }

  function Chat(d: Data): string {
    var side := if d.fromMe then d.to else d.from;
    if side != "" then side else d.chatId
  }

  function RowFor(p: Payload, seconds: int): Message
    requires p.Payload?
  {
    var d := p.data;
    Message(p.session, d.id, Chat(d), d.fromMe, d.body, if d.kind == "" then "text" else d.kind,
            if d.timestamp == 0 then seconds else d.timestamp, if d.fromMe then "sent" else "received",
            if p.key == "" then None else Some(p.key))
  }

  function ContactFor(d: Data): Contact {
    var phone := ChatToPhone(d.from);
    Contact(phone, d.contactName, if d.senderPhone == "" then phone else ChatToPhone(d.senderPhone))
  }

  predicate HasContact(contacts: seq<Contact>, c: Contact) {
    exists x :: x in contacts && (x.phone == c.phone || x.waId == c.waId)
  }

  function WithContact(contacts: seq<Contact>, d: Data): seq<Contact> {
    var c := ContactFor(d);
    if c.waId == "" || (d.isGroup && d.senderPhone == "") || HasContact(contacts, c) then contacts else contacts + [c]
  }

  /** A message event stores one row, unless it names no message, or its key or its message is already stored. */
  function MessageHandled(db: Database, p: Payload, seconds: int): Database
    requires p.Payload?
  {
    var d := p.data;
    if d.id == "" || Chat(d) == "" || HasId(db.messages, d.id) || (p.key != "" && HasKey(db.messages, p.key)) then db
    else Database(db.messages + [RowFor(p, seconds)], if d.fromMe then db.contacts else WithContact(db.contacts, d))
  }

  function Acked(m: Message, d: Data): Message {
    if m.waId == d.messageId && m.status != READ then m.(status := d.status) else m
  }

  function AckHandled(db: Database, d: Data): Database {
    if d.messageId == "" || d.status == "" then db
    else db.(messages := seq(|db.messages|, i requires 0 <= i < |db.messages| => Acked(db.messages[i], d)))
  }

  function Delivered(db: Database, p: Payload, seconds: int): Database {
    if p.Invalid? || (p.key != "" && HasKey(db.messages, p.key)) then db
    else match p.event
      case MessageEvent => MessageHandled(db, p, seconds)
      case AckEvent => AckHandled(db, p.data)
      case OtherEvent => db
  }

  // ---------------------------------------------------------------- the program

  class WebhookRoutes {
    var messages: seq<Message>
    var contacts: seq<Contact>

    ghost function Contents(): Database
      reads this
    {
      Database(messages, contacts)
    }

    constructor ()
      ensures Contents() == Database([], [])
    {
      messages, contacts := [], [];
    }

    method IsDuplicate(key: string) returns (duplicate: bool)
      ensures duplicate <==> key != "" && HasKey(messages, key)
    {
      if key == "" { return false; }
      return HasKey(messages, key);
    }

    method UpsertContact(d: Data)
      modifies this`contacts
      ensures contacts == WithContact(old(contacts), d)
    {
      var phone := ChatToPhone(d.from);
      if phone == "" || (d.isGroup && d.senderPhone == "") { return; }
      var senderPhone := if d.senderPhone != "" then ChatToPhone(d.senderPhone) else phone;
      if exists x :: x in contacts && (x.phone == senderPhone || x.waId == phone) { return; }
      contacts := contacts + [Contact(phone, d.contactName, senderPhone)];
    }

    method HandleMessage(p: Payload, seconds: int)
      requires p.Payload?
      modifies this
      ensures Contents() == MessageHandled(old(Contents()), p, seconds)
    {
      var d := p.data;
      if d.id == "" { return; }
      var chat := d.chatId;
      if d.fromMe && d.to != "" { chat := d.to; }
      if !d.fromMe && d.from != "" { chat := d.from; }
      if chat == "" { return; }
      var row := RowFor(p, seconds);
      if HasId(messages, row.waId) { return; }
      // the unique index on idempotency_key; its violation is swallowed
      if row.key.Some? && HasKey(messages, row.key.value) { return; }
      messages := messages + [row];
      if !d.fromMe { UpsertContact(d); }
    }

    method HandleAck(d: Data)
      modifies this`messages
      ensures Contents() == AckHandled(old(Contents()), d)
    {
      if d.messageId == "" || d.status == "" { return; }
      messages := seq(|messages|, i requires 0 <= i < |messages| reads this => Acked(messages[i], d));
    }

    method Post(p: Payload, seconds: int) returns (reply: Reply)
      modifies this
      ensures Contents() == Delivered(old(Contents()), p, seconds)
      ensures reply == if p.Invalid? then BadRequest else Received(p.key != "" && HasKey(old(messages), p.key))
    {
      if p.Invalid? { return BadRequest; }
      var duplicate := IsDuplicate(p.key);
      if duplicate { return Received(true); }
      match p.event {
        case MessageEvent => HandleMessage(p, seconds);
        case AckEvent => HandleAck(p.data);
        case OtherEvent =>
      }
      return Received(false);
    }
  }

  // ---------------------------------------------------------------- every sequence of deliveries

  datatype Delivery = Delivery(payload: Payload, seconds: int)

  function RunFrom(db: Database, ds: seq<Delivery>): Database {
    if |ds| == 0 then db
    else
      var last := ds[|ds| - 1];
      Delivered(RunFrom(db, ds[..|ds| - 1]), last.payload, last.seconds)
  }

  function Run(ds: seq<Delivery>): Database { RunFrom(Database([], []), ds) }

  ghost predicate Unique(db: Database) {
    && (forall i, j :: 0 <= i < j < |db.messages| ==> db.messages[i].waId != db.messages[j].waId)
    && (forall i, j :: 0 <= i < j < |db.messages| && db.messages[i].key.Some? ==>
         db.messages[i].key != db.messages[j].key)
    && (forall i, j :: 0 <= i < j < |db.contacts| ==> db.contacts[i].waId != db.contacts[j].waId)
  }

  lemma DeliveredUnique(db: Database, p: Payload, seconds: int)
    requires Unique(db)
    ensures Unique(Delivered(db, p, seconds))
  {
    if p.Payload? && p.event == MessageEvent { HandledUnique(db, p, seconds); }
  }

  lemma HandledUnique(db: Database, p: Payload, seconds: int)
    requires Unique(db) && p.Payload?
    ensures Unique(MessageHandled(db, p, seconds))
  {
  }

  /** One row per message, one per idempotency key, and one contact per account, over every sequence of deliveries. */
  lemma {:induction false} OneRowPerMessage(ds: seq<Delivery>)
    ensures Unique(Run(ds))
  {
    if |ds| > 0 {
      var last := ds[|ds| - 1];
      OneRowPerMessage(ds[..|ds| - 1]);
      DeliveredUnique(Run(ds[..|ds| - 1]), last.payload, last.seconds);
    }
  }

  /** A message event that the handler can use for the message with this id. */
  predicate Delivers(p: Payload, id: string) {
    p.Payload? && p.event == MessageEvent && p.data.id == id && id != "" && Chat(p.data) != ""
  }

  predicate Usable(p: Payload) { p.Payload? && Delivers(p, p.data.id) }

  function KeyOf(p: Payload): Option<string>
    requires p.Payload?
  {
    if p.key == "" then None else Some(p.key)
  }

  ghost predicate CameFrom(m: Message, ds: seq<Delivery>) {
    exists d :: d in ds && Delivers(d.payload, m.waId) && m.key == KeyOf(d.payload)
  }

  /** Rows come from deliveries, and a delivered message has a row unless its key has one. */
  ghost predicate Accounted(db: Database, ds: seq<Delivery>) {
    && (forall m :: m in db.messages ==> CameFrom(m, ds))
    && (forall d, id :: d in ds && Delivers(d.payload, id) ==>
         HasId(db.messages, id) || (d.payload.key != "" && HasKey(db.messages, d.payload.key)))
  }

  lemma StepCameFrom(db: Database, ds: seq<Delivery>, d: Delivery)
    requires forall m :: m in db.messages ==> CameFrom(m, ds)
    ensures forall m :: m in Delivered(db, d.payload, d.seconds).messages ==> CameFrom(m, ds + [d])
  {
    var after := Delivered(db, d.payload, d.seconds).messages;
    forall m | m in after ensures CameFrom(m, ds + [d]) {
      var i :| 0 <= i < |after| && after[i] == m;
      if i < |db.messages| {
        assert CameFrom(db.messages[i], ds);
        var e :| e in ds && Delivers(e.payload, m.waId) && m.key == KeyOf(e.payload);
        assert e in ds + [d];
      } else {
        assert d in ds + [d] && Delivers(d.payload, m.waId);
      }
    }
  }

  lemma {:induction false} RunAccounted(ds: seq<Delivery>)
    ensures Accounted(Run(ds), ds)
  {
    if |ds| > 0 {
      var es, d := ds[..|ds| - 1], ds[|ds| - 1];
      RunAccounted(es);
      assert ds == es + [d];
      StepCameFrom(Run(es), es, d);
      DeliveredExtends(Run(es), d.payload, d.seconds);
      forall e, id | e in ds && Delivers(e.payload, id)
        ensures HasId(Run(ds).messages, id) || (e.payload.key != "" && HasKey(Run(ds).messages, e.payload.key))
      {
        ExtendsKeeps(Run(es).messages, Run(ds).messages, id, e.payload.key);
        if e !in es { DeliveredIsStored(Run(es), e, id); }
      }
    }
  }

  lemma DeliveredIsStored(db: Database, d: Delivery, id: string)
    requires Delivers(d.payload, id)
    ensures var after := Delivered(db, d.payload, d.seconds).messages;
      HasId(after, id) || (d.payload.key != "" && HasKey(after, d.payload.key))
  {
    if Delivered(db, d.payload, d.seconds) != db {
      assert RowFor(d.payload, d.seconds) in Delivered(db, d.payload, d.seconds).messages;
    }
  }

  /** No two messages among these payloads share a key. */
  ghost predicate KeysApart(ps: set<Payload>) {
    forall p, q :: p in ps && q in ps && Usable(p) && Usable(q) && p.key == q.key != "" ==>
      p.data.id == q.data.id
  }

  ghost predicate MadeOf(ds: seq<Delivery>, ps: set<Payload>) { forall d :: d in ds ==> d.payload in ps }

  /** Every delivered message has a row, and exactly one. */
  ghost predicate StoredOnce(ds: seq<Delivery>) {
    Unique(Run(ds)) && forall d, id :: d in ds && Delivers(d.payload, id) ==> HasId(Run(ds).messages, id)
  }

  ghost predicate AlwaysStoredOnce(ps: set<Payload>) { forall ds :: MadeOf(ds, ps) ==> StoredOnce(ds) }

  /**
   However often and in whatever order these payloads are delivered, one after the other, every message
   delivered has exactly one row, if and only if no two messages share an idempotency key.
   */
  lemma StoredOnceIff(ps: set<Payload>)
    ensures AlwaysStoredOnce(ps) <==> KeysApart(ps)
  {
    if KeysApart(ps) {
      forall ds | MadeOf(ds, ps) ensures StoredOnce(ds) { KeysApartStores(ps, ds); }
    } else {
      var p, q :| p in ps && q in ps && Usable(p) && Usable(q) && p.key == q.key != ""
                  && p.data.id != q.data.id;
      SharedKeyLosesOne(p, q);
      assert MadeOf([Delivery(p, 0), Delivery(q, 0)], ps);
    }
  }

  lemma KeysApartStores(ps: set<Payload>, ds: seq<Delivery>)
    requires KeysApart(ps) && MadeOf(ds, ps)
    ensures StoredOnce(ds)
  {
    OneRowPerMessage(ds);
    RunAccounted(ds);
    var rows := Run(ds).messages;
    forall d, id | d in ds && Delivers(d.payload, id) ensures HasId(rows, id) {
      if d.payload.key != "" && HasKey(rows, d.payload.key) {
        var m :| m in rows && m.key == Some(d.payload.key);
        assert CameFrom(m, ds);
      }
    }
  }

  /** The second of two messages with one key is taken for a copy of the first. */
  lemma SharedKeyLosesOne(p: Payload, q: Payload)
    requires Usable(p) && Usable(q) && p.key == q.key != "" && p.data.id != q.data.id
    ensures !StoredOnce([Delivery(p, 0), Delivery(q, 0)])
  {
    var one, two := Delivery(p, 0), Delivery(q, 0);
    var db := Database([], []);
    RunSnoc(db, [], one);
    RunSnoc(db, [] + [one], two);
    assert [] + [one] + [two] == [one, two];
    assert [] + [one] == [one];
    assert Run([one]).messages == [RowFor(p, 0)];
    assert RowFor(p, 0) in Run([one]).messages;
    assert Run([one, two]) == Run([one]);
    assert !HasId(Run([one]).messages, q.data.id);
    assert two in [one, two] && Delivers(two.payload, q.data.id);
  }

  lemma RunSnoc(db: Database, ds: seq<Delivery>, d: Delivery)
    ensures RunFrom(db, ds + [d]) == Delivered(RunFrom(db, ds), d.payload, d.seconds)
  {
  }

  /** Row by row: nothing is lost or renumbered, only a status may change, and a read row not at all. */
  ghost predicate Extends(a: seq<Message>, b: seq<Message>) {
    && |a| <= |b|
    && forall i :: 0 <= i < |a| ==> b[i].(status := a[i].status) == a[i] && (a[i].status == "read" ==> b[i] == a[i])
  }

  lemma DeliveredExtends(db: Database, p: Payload, seconds: int)
    ensures Extends(db.messages, Delivered(db, p, seconds).messages)
  {
  }

  /** Whatever is delivered later, stored rows keep everything but their status, and read rows that too. */
  lemma {:induction false} RunExtends(db: Database, ds: seq<Delivery>)
    ensures Extends(db.messages, RunFrom(db, ds).messages)
  {
    if |ds| > 0 {
      var last := ds[|ds| - 1];
      var mid := RunFrom(db, ds[..|ds| - 1]);
      RunExtends(db, ds[..|ds| - 1]);
      DeliveredExtends(mid, last.payload, last.seconds);
      ExtendsTransitive(db.messages, mid.messages, RunFrom(db, ds).messages);
    }
  }

  lemma ExtendsTransitive(a: seq<Message>, b: seq<Message>, c: seq<Message>)
    requires Extends(a, b) && Extends(b, c)
    ensures Extends(a, c)
  {
  }

  lemma ExtendsKeeps(a: seq<Message>, b: seq<Message>, id: string, key: string)
    requires Extends(a, b)
    ensures HasId(a, id) ==> HasId(b, id)
    ensures HasKey(a, key) ==> HasKey(b, key)
  {
  }

  /** After a message event has been handled once, delivering it again changes nothing, however much later. */
  lemma RedeliveryChangesNothing(db: Database, p: Payload, seconds: int, later: seq<Delivery>, again: int)
    requires p.Payload? && p.event == MessageEvent
    ensures var now := RunFrom(Delivered(db, p, seconds), later);
      Delivered(now, p, again) == now
  {
    var once := Delivered(db, p, seconds);
    RunExtends(once, later);
    var now := RunFrom(once, later);
    ExtendsKeeps(once.messages, now.messages, p.data.id, p.key);
    DeliveredExtends(db, p, seconds);
    ExtendsKeeps(db.messages, once.messages, p.data.id, p.key);
    if once != db {
      assert RowFor(p, seconds) in once.messages;
    }
  }

  // ---------------------------------------------------------------- what a row says

  /** The row that a delivery files, field by field: the chat is the other end of the conversation. */
  predicate FiledAs(m: Message, d: Delivery) {
    && d.payload.Payload? && d.payload.event == MessageEvent
    && var p, x := d.payload, d.payload.data;
    && m.waId == x.id != "" && m.session == p.session && m.fromMe == x.fromMe && m.body == x.body
    && m.chat == (if x.fromMe && x.to != "" then x.to else if !x.fromMe && x.from != "" then x.from else x.chatId)
    && m.chat != ""
    && m.kind == (if x.kind == "" then "text" else x.kind)
    && m.ts == (if x.timestamp == 0 then d.seconds else x.timestamp)
    && m.status == (if x.fromMe then "sent" else "received")
    && m.key == (if p.key == "" then None else Some(p.key))
  }

  /** Row i was added by delivery k, as that delivery says. */
  ghost predicate AddedBy(ds: seq<Delivery>, k: nat, i: nat) {
    && k < |ds|
    && var before, after := Run(ds[..k]).messages, Run(ds[..k + 1]).messages;
    && |before| == i && |after| == i + 1 && after[..i] == before && FiledAs(after[i], ds[k])
  }

  lemma {:induction false} RunConcat(ds: seq<Delivery>, more: seq<Delivery>)
    ensures Run(ds + more) == RunFrom(Run(ds), more)
  {
    if |more| == 0 {
      assert ds + more == ds;
    } else {
      var init, last := more[..|more| - 1], more[|more| - 1];
      assert ds + more == (ds + init) + [last];
      RunConcat(ds, init);
      RunSnoc(Database([], []), ds + init, last);
    }
  }

  lemma DeliveredFiles(db: Database, d: Delivery)
    ensures var after := Delivered(db, d.payload, d.seconds).messages;
      |after| == |db.messages|
      || (|after| == |db.messages| + 1 && after[..|db.messages|] == db.messages && FiledAs(after[|db.messages|], d))
  {
  }

  lemma {:induction false} RowIsAdded(ds: seq<Delivery>, i: nat) returns (k: nat)
    requires i < |Run(ds).messages|
    ensures AddedBy(ds, k, i)
  {
    var n := |ds| - 1;
    var es, d := ds[..n], ds[n];
    assert ds == es + [d];
    RunSnoc(Database([], []), es, d);
    DeliveredFiles(Run(es), d);
    if i < |Run(es).messages| {
      k := RowIsAdded(es, i);
      assert es[..k] == ds[..k] && es[..k + 1] == ds[..k + 1] && es[k] == ds[k];
    } else {
      k := n;
      assert ds[..n + 1] == ds;
    }
  }

  /**
   Every row of every run was filed by one of its deliveries, with that delivery's fields, and has changed in
   nothing but its status since.
   */
  lemma RowsAreAsDelivered(ds: seq<Delivery>, i: nat) returns (k: nat)
    requires i < |Run(ds).messages|
    ensures AddedBy(ds, k, i)
    ensures var first := Run(ds[..k + 1]).messages[i];
      Run(ds).messages[i].(status := first.status) == first && FiledAs(first, ds[k])
  {
    k := RowIsAdded(ds, i);
    assert ds == ds[..k + 1] + ds[k + 1..];
    RunConcat(ds[..k + 1], ds[k + 1..]);
    RunExtends(Run(ds[..k + 1]), ds[k + 1..]);
  }

  /** A contact, field by field, as the sender of an incoming message. */
  predicate SenderOf(c: Contact, d: Delivery) {
    && d.payload.Payload? && d.payload.event == MessageEvent && !d.payload.data.fromMe
    && var x := d.payload.data;
    && c.waId == ChatToPhone(x.from) != "" && c.name == x.contactName
    && c.phone == (if x.senderPhone == "" then ChatToPhone(x.from) else ChatToPhone(x.senderPhone))
    && !(x.isGroup && x.senderPhone == "")
  }

  lemma DeliveredContacts(db: Database, d: Delivery)
    ensures var after := Delivered(db, d.payload, d.seconds).contacts;
      after == db.contacts || (|after| > 0 && after == db.contacts + [after[|after| - 1]]
                               && SenderOf(after[|after| - 1], d))
  {
  }

  /** Every contact of every run is the sender of a message in it. */
  lemma {:induction false} ContactsAreSenders(ds: seq<Delivery>)
    ensures forall c :: c in Run(ds).contacts ==> exists d :: d in ds && SenderOf(c, d)
  {
    if |ds| > 0 {
      var es, d := ds[..|ds| - 1], ds[|ds| - 1];
      assert ds == es + [d];
      ContactsAreSenders(es);
      DeliveredContacts(Run(es), d);
      forall c | c in Run(ds).contacts ensures exists e :: e in ds && SenderOf(c, e) {
        if c in Run(es).contacts {
          var e :| e in es && SenderOf(c, e);
          assert e in ds;
        } else {
          assert d in ds && SenderOf(c, d);
        }
      }
    }
  }

  /** And when an incoming message is stored, its sender is known by account or by number from then on. */
  lemma SenderIsKnown(ds: seq<Delivery>, d: Delivery, c: Contact)
    requires SenderOf(c, d) && |Run(ds + [d]).messages| > |Run(ds).messages|
    ensures exists x :: x in Run(ds + [d]).contacts && (x.waId == c.waId || x.phone == c.phone)
  {
    RunSnoc(Database([], []), ds, d);
    var db := Run(ds);
    var after := Delivered(db, d.payload, d.seconds).contacts;
    if !HasContact(db.contacts, c) {
      assert c == ContactFor(d.payload.data);
      assert c in after;
    } else {
      var x :| x in db.contacts && (x.phone == c.phone || x.waId == c.waId);
      assert x in after;
    }
  }

  // ---------------------------------------------------------------- acknowledgements

  /** p acknowledges the message with this id, and is not dropped for its key. */
  predicate Acks(db: Database, p: Payload, id: string) {
    && p.Payload? && p.event == AckEvent && p.data.messageId == id && id != "" && p.data.status != ""
    && !(p.key != "" && HasKey(db.messages, p.key))
  }

  /** The k-th of these deliveries does. */
  ghost predicate AckAt(db: Database, ds: seq<Delivery>, k: int, id: string) {
    0 <= k < |ds| && Acks(RunFrom(db, ds[..k]), ds[k].payload, id)
  }

  /** The message of row i has been read: it was before, or one of the acknowledgements says so. */
  ghost predicate ReadBy(db: Database, ds: seq<Delivery>, i: nat)
    requires i < |db.messages|
  {
    || db.messages[i].status == READ
    || exists k :: AckAt(db, ds, k, db.messages[i].waId) && ds[k].payload.data.status == READ
  }

  ghost predicate LastAck(db: Database, ds: seq<Delivery>, k: int, id: string) {
    AckAt(db, ds, k, id) && forall j :: k < j < |ds| ==> !AckAt(db, ds, j, id)
  }

  /** The last acknowledgement of row i's message says `status`, or there is none and it had that status before. */
  ghost predicate LastSays(db: Database, ds: seq<Delivery>, i: nat, status: string)
    requires i < |db.messages|
  {
    var id := db.messages[i].waId;
    || (exists k :: LastAck(db, ds, k, id) && ds[k].payload.data.status == status)
    || (db.messages[i].status == status && forall k :: !AckAt(db, ds, k, id))
  }

  lemma AckStep(db: Database, d: Delivery, i: nat)
    requires i < |db.messages|
    ensures var m, after := db.messages[i], Delivered(db, d.payload, d.seconds).messages;
      && i < |after| && after[i].waId == m.waId
      && after[i].status == if Acks(db, d.payload, m.waId) && m.status != READ then d.payload.data.status else m.status
  {
  }

  lemma AckSnoc(db: Database, es: seq<Delivery>, d: Delivery, id: string)
    ensures forall k :: k != |es| ==> (AckAt(db, es + [d], k, id) <==> AckAt(db, es, k, id))
    ensures AckAt(db, es + [d], |es|, id) <==> Acks(RunFrom(db, es), d.payload, id)
  {
    forall k | 0 <= k < |es| ensures (es + [d])[..k] == es[..k] {}
    assert (es + [d])[..|es|] == es;
  }

  lemma LastSaysSnoc(db: Database, es: seq<Delivery>, d: Delivery, i: nat, status: string)
    requires i < |db.messages|
    requires var id := db.messages[i].waId;
      if Acks(RunFrom(db, es), d.payload, id) then status == d.payload.data.status else LastSays(db, es, i, status)
    ensures LastSays(db, es + [d], i, status)
  {
    var id, ds := db.messages[i].waId, es + [d];
    AckSnoc(db, es, d, id);
    if Acks(RunFrom(db, es), d.payload, id) {
      assert LastAck(db, ds, |es|, id);
    } else if k :| LastAck(db, es, k, id) && es[k].payload.data.status == status {
      assert LastAck(db, ds, k, id);
    }
  }

  lemma ReadBySnoc(db: Database, es: seq<Delivery>, d: Delivery, i: nat)
    requires i < |db.messages|
    ensures ReadBy(db, es + [d], i) <==>
      ReadBy(db, es, i)
      || (Acks(RunFrom(db, es), d.payload, db.messages[i].waId) && d.payload.data.status == READ)
  {
    var id, ds := db.messages[i].waId, es + [d];
    AckSnoc(db, es, d, id);
    if ReadBy(db, es, i) && db.messages[i].status != READ {
      var k :| AckAt(db, es, k, id) && es[k].payload.data.status == READ;
      assert AckAt(db, ds, k, id) && ds[k].payload.data.status == READ;
    }
    if Acks(RunFrom(db, es), d.payload, id) { assert AckAt(db, ds, |es|, id); }
  }

  /**
   After any deliveries a stored message is read if it ever was or was said to be, and otherwise has the
   status of its last acknowledgement.
   */
  lemma {:induction false} StatusAfter(db: Database, ds: seq<Delivery>, i: nat)
    requires i < |db.messages|
    ensures var after := RunFrom(db, ds).messages;
      && i < |after| && after[i].waId == db.messages[i].waId
      && if ReadBy(db, ds, i) then after[i].status == READ else LastSays(db, ds, i, after[i].status)
  {
    if |ds| > 0 {
      var es, d := ds[..|ds| - 1], ds[|ds| - 1];
      assert ds == es + [d];
      StatusAfter(db, es, i);
      AckStep(RunFrom(db, es), d, i);
      ReadBySnoc(db, es, d, i);
      if !ReadBy(db, ds, i) { LastSaysSnoc(db, es, d, i, RunFrom(db, ds).messages[i].status); }
    }
  }

  /** The last word is one word. */
  lemma LastSaysOnce(db: Database, ds: seq<Delivery>, i: nat, s: string, t: string)
    requires i < |db.messages| && LastSays(db, ds, i, s) && LastSays(db, ds, i, t)
    ensures s == t
  {
    var id := db.messages[i].waId;
    if k, l :| LastAck(db, ds, k, id) && ds[k].payload.data.status == s
               && LastAck(db, ds, l, id) && ds[l].payload.data.status == t {
      assert k == l;
    }
  }

  lemma {:induction false} RunUnique(db: Database, ds: seq<Delivery>)
    requires Unique(db)
    ensures Unique(RunFrom(db, ds))
  {
    if |ds| > 0 {
      var last := ds[|ds| - 1];
      RunUnique(db, ds[..|ds| - 1]);
      DeliveredUnique(RunFrom(db, ds[..|ds| - 1]), last.payload, last.seconds);
    }
  }

  /** With one row per message, an acknowledgement changes nothing exactly if its row has that status or is read. */
  lemma AckIdle(db: Database, p: Payload, seconds: int, i: nat)
    requires Unique(db) && i < |db.messages| && Acks(db, p, db.messages[i].waId)
    ensures Delivered(db, p, seconds) == db <==> db.messages[i].status in {READ, p.data.status}
  {
    if db.messages[i].status in {READ, p.data.status} {
      assert Delivered(db, p, seconds).messages == db.messages;
    } else {
      assert Delivered(db, p, seconds).messages[i] != db.messages[i];
    }
  }

  /**
   An acknowledgement delivered once more, after any other deliveries, changes nothing if and only if it is
   dropped for its key, the message has been read, or the last acknowledgement said the same.
   */
  lemma RepeatedAckIff(db: Database, ds: seq<Delivery>, p: Payload, seconds: int, i: nat)
    requires Unique(db) && i < |db.messages| && Acks(db, p, db.messages[i].waId)
    ensures var now := RunFrom(db, ds);
      Delivered(now, p, seconds) == now <==>
        || (p.key != "" && HasKey(now.messages, p.key))
        || ReadBy(db, ds, i)
        || LastSays(db, ds, i, p.data.status)
  {
    var now := RunFrom(db, ds);
    StatusAfter(db, ds, i);
    RunUnique(db, ds);
    if !(p.key != "" && HasKey(now.messages, p.key)) {
      AckIdle(now, p, seconds, i);
      if !ReadBy(db, ds, i) && LastSays(db, ds, i, p.data.status) {
        LastSaysOnce(db, ds, i, p.data.status, now.messages[i].status);
      }
      if !ReadBy(db, ds, i) && now.messages[i].status == READ { StatusNotRead(db, ds, i); }
    }
  }

  /** Nothing becomes read without being said to be. */
  lemma StatusNotRead(db: Database, ds: seq<Delivery>, i: nat)
    requires i < |db.messages| && !ReadBy(db, ds, i)
    ensures !LastSays(db, ds, i, READ)
  {
  }

  /** So acknowledgements are not idempotent: a late copy of an earlier one moves an unread message back. */
  lemma StaleAckGoesBack(db: Database, i: nat, earlier: Data, later: Data)
    requires i < |db.messages| && db.messages[i].waId != "" && db.messages[i].status != READ
    requires earlier.messageId == later.messageId == db.messages[i].waId
    requires earlier.status != later.status && earlier.status !in {"", READ} && later.status !in {"", READ}
    ensures var there := AckHandled(AckHandled(db, earlier), later);
      && i < |there.messages| && there.messages[i].status == later.status
      && AckHandled(there, earlier).messages[i].status == earlier.status
  {
  }
}
