/**
 Campaigns and their recipients: mobile/src/store/campaignsStore.js over the schema of
 mobile/src/db/database.js.

 A campaign caches a status that can be recomputed from its recipients. `create` also has a fault this
 model keeps: its INSERT has three placeholders and two values, so the third one, the recipient's
 status, is NULL, and the column is declared NOT NULL.
 */
module Campaigns {
  import opened Options
  import opened Tables

  datatype RecipientStatus = Pending | Sent | Skipped | Other(text: string)

  datatype CampaignStatus = Prepared | InProgress | Done

  datatype Recipient = Recipient(campaign: nat, client: nat, status: RecipientStatus, sentAt: Option<int>)

  datatype Store = Store(campaigns: seq<Row<CampaignStatus>>, nextCampaign: nat,
                         recipients: seq<Row<Recipient>>, nextRecipient: nat)

  // ---------------------------------------------------------------- the status a campaign should have

  predicate Of(r: Row<Recipient>, campaign: nat) { r.data.campaign == campaign }

  predicate Finished(r: Row<Recipient>) { r.data.status == Sent || r.data.status == Skipped }

  ghost predicate AllFinished(recipients: seq<Row<Recipient>>, campaign: nat) {
    forall r :: r in recipients && Of(r, campaign) ==> Finished(r)
  }

  ghost predicate SomeSent(recipients: seq<Row<Recipient>>, campaign: nat) {
    exists r :: r in recipients && Of(r, campaign) && r.data.status == Sent
  }

  ghost predicate Empty(recipients: seq<Row<Recipient>>, campaign: nat) {
    forall r :: r in recipients ==> !Of(r, campaign)
  }

  ghost function Derived(recipients: seq<Row<Recipient>>, campaign: nat): CampaignStatus {
    if !Empty(recipients, campaign) && AllFinished(recipients, campaign) then Done
    else if SomeSent(recipients, campaign) then InProgress
    else Prepared
  }

  /** The cached statuses are right, and a sending time is there exactly for what was sent. */
  ghost predicate Agrees(t: Store) {
    && Keyed(t.campaigns, t.nextCampaign) && t.nextCampaign > 0
    && Keyed(t.recipients, t.nextRecipient) && t.nextRecipient > 0
    && (forall r :: r in t.recipients ==> r.data.campaign < t.nextCampaign)
    && (forall c :: c in t.campaigns ==> c.data == Derived(t.recipients, c.id))
    && (forall r :: r in t.recipients ==> (r.data.sentAt.Some? <==> r.data.status == Sent))
  }

  // ---------------------------------------------------------------- what the store computes

  function Count(recipients: seq<Row<Recipient>>, campaign: nat, p: Row<Recipient> -> bool): nat {
    if |recipients| == 0 then 0
    else
      var last := recipients[|recipients| - 1];
      Count(recipients[..|recipients| - 1], campaign, p) + (if Of(last, campaign) && p(last) then 1 else 0)
  }

  predicate Any(r: Row<Recipient>) { true }

  predicate IsSent(r: Row<Recipient>) { r.data.status == Sent }

  lemma {:induction false} CountPositive(recipients: seq<Row<Recipient>>, campaign: nat, p: Row<Recipient> -> bool)
    ensures Count(recipients, campaign, p) > 0 <==> exists r :: r in recipients && Of(r, campaign) && p(r)
  {
    if |recipients| > 0 {
      var init, last := recipients[..|recipients| - 1], recipients[|recipients| - 1];
      CountPositive(init, campaign, p);
      assert recipients == init + [last];
    }
  }

  lemma {:induction false} CountAll(recipients: seq<Row<Recipient>>, campaign: nat, p: Row<Recipient> -> bool)
    ensures Count(recipients, campaign, p) <= Count(recipients, campaign, Any)
    ensures Count(recipients, campaign, p) == Count(recipients, campaign, Any)
      <==> forall r :: r in recipients && Of(r, campaign) ==> p(r)
  {
    if |recipients| > 0 {
      var init, last := recipients[..|recipients| - 1], recipients[|recipients| - 1];
      CountAll(init, campaign, p);
      assert recipients == init + [last];
    }
  }

  /** The counting of the aggregate query and the branches after it give the derived status. */
  lemma CountedIsDerived(recipients: seq<Row<Recipient>>, campaign: nat)
    ensures var total, sent, skipped :=
        Count(recipients, campaign, Any), Count(recipients, campaign, IsSent), Count(recipients, campaign, Finished);
      Derived(recipients, campaign)
        == if total > 0 && skipped == total then Done else if sent > 0 then InProgress else Prepared
  {
    CountPositive(recipients, campaign, Any);
    CountPositive(recipients, campaign, IsSent);
    CountAll(recipients, campaign, Finished);
  }

  // ---------------------------------------------------------------- specification of the operations

  /** Insert a recipient per client with the bound status; NULL violates the schema and stops the insertion. */
  function Inserted(t: Store, campaign: nat, clients: seq<nat>, bound: Option<RecipientStatus>): Store {
    if |clients| == 0 || bound.None? then t
    else
      var before := Inserted(t, campaign, clients[..|clients| - 1], bound);
      var r := Recipient(campaign, clients[|clients| - 1], bound.value, None);
      before.(recipients := before.recipients + [Row(before.nextRecipient, r)],
              nextRecipient := before.nextRecipient + 1)
  }

  /** `create`, for any value the third placeholder might be given. The program gives it none. */
  function Created(t: Store, clients: seq<nat>, bound: Option<RecipientStatus>): Store {
    var started := t.(campaigns := t.campaigns + [Row(t.nextCampaign, Prepared)], nextCampaign := t.nextCampaign + 1);
    Inserted(started, t.nextCampaign, clients, bound)
  }

  ghost function Marked(t: Store, id: nat, status: RecipientStatus, now: int): Store {
    match Get(t.recipients, id)
    case None => t
    case Some(r) =>
      var sentAt := if status == Sent then Some(now) else None;
      var recipients := Put(t.recipients, id, r.(status := status, sentAt := sentAt));
      t.(recipients := recipients, campaigns := Put(t.campaigns, r.campaign, Derived(recipients, r.campaign)))
  }

  function OthersOnly(recipients: seq<Row<Recipient>>, campaign: nat): (kept: seq<Row<Recipient>>)
    ensures forall r :: r in kept <==> r in recipients && !Of(r, campaign)
  {
    if |recipients| == 0 then []
    else
      var last := recipients[|recipients| - 1];
      OthersOnly(recipients[..|recipients| - 1], campaign) + (if Of(last, campaign) then [] else [last])
  }

  function Removed(t: Store, id: nat): Store {
    t.(recipients := OthersOnly(t.recipients, id), campaigns := Delete(t.campaigns, id))
  }

  // ---------------------------------------------------------------- the program

  class CampaignsStore {
    var campaigns: seq<Row<CampaignStatus>>
    var nextCampaign: nat
    var recipients: seq<Row<Recipient>>
    var nextRecipient: nat

    ghost function Contents(): Store
      reads this
    {
      Store(campaigns, nextCampaign, recipients, nextRecipient)
    }

    constructor ()
      ensures Contents() == Store([], 1, [], 1)
    {
      campaigns, nextCampaign, recipients, nextRecipient := [], 1, [], 1;
    }

    /** One INSERT INTO campaign_recipients; `bound` is what the third placeholder received. */
    method InsertRecipient(campaign: nat, client: nat, bound: Option<RecipientStatus>) returns (ok: bool)
      modifies this
      ensures ok == bound.Some?
      ensures !ok ==> Contents() == old(Contents())
      ensures ok ==> Contents() == old(Contents()).(
        recipients := old(recipients) + [Row(old(nextRecipient), Recipient(campaign, client, bound.value, None))],
        nextRecipient := old(nextRecipient) + 1)
    {
      if bound.None? { return false; }
      recipients := recipients + [Row(nextRecipient, Recipient(campaign, client, bound.value, None))];
      nextRecipient := nextRecipient + 1;
      return true;
    }

    /** Nothing is returned where the program throws; the campaign row is there all the same. */
    method Create(clients: seq<nat>) returns (id: Option<nat>)
      modifies this
      ensures Contents() == Created(old(Contents()), clients, None)
      ensures id == if clients == [] then Some(old(nextCampaign)) else None
    {
      var campaign := nextCampaign;
      campaigns := campaigns + [Row(campaign, Prepared)];
      nextCampaign := nextCampaign + 1;
      for i := 0 to |clients|
        invariant i == 0
        invariant Contents() == Created(old(Contents()), [], None)
      {
        var ok := InsertRecipient(campaign, clients[i], None);
        if !ok { return None; }
      }
      return Some(campaign);
    }

    method SetRecipientStatus(id: nat, status: RecipientStatus, now: int)
      modifies this
      ensures Contents() == Marked(old(Contents()), id, status, now)
    {
      var r := Get(recipients, id);
      if r.None? { return; }
      var sentAt := if status == Sent then Some(now) else None;
      recipients := Put(recipients, id, r.value.(status := status, sentAt := sentAt));
      var campaign := r.value.campaign;
      var total := Count(recipients, campaign, Any);
      var sent := Count(recipients, campaign, IsSent);
      var skipped := Count(recipients, campaign, Finished);
      CountedIsDerived(recipients, campaign);
      var campaignStatus := Prepared;
      if total > 0 && skipped == total {
        campaignStatus := Done;
      } else if sent > 0 {
        campaignStatus := InProgress;
      }
      campaigns := Put(campaigns, campaign, campaignStatus);
    }

    method Remove(id: nat)
      modifies this
      ensures Contents() == Removed(old(Contents()), id)
    {
      recipients := OthersOnly(recipients, id);
      campaigns := Delete(campaigns, id);
    }
  }

  // ---------------------------------------------------------------- agreement over every run

  lemma SameForOthers(a: seq<Row<Recipient>>, b: seq<Row<Recipient>>, campaign: nat)
    requires forall r :: Of(r, campaign) ==> (r in a <==> r in b)
    ensures Derived(a, campaign) == Derived(b, campaign)
  {
  }

  lemma MarkedAgrees(t: Store, id: nat, status: RecipientStatus, now: int)
    requires Agrees(t)
    ensures Agrees(Marked(t, id, status, now))
  {
    var g := Get(t.recipients, id);
    if g.Some? {
      var r' := g.value.(status := status, sentAt := if status == Sent then Some(now) else None);
      var recipients := Put(t.recipients, id, r');
      PutRecipient(t, id, r');
      GetPut(t.campaigns, t.nextCampaign, r'.campaign, Derived(recipients, r'.campaign), 0);
      forall c | c in Put(t.campaigns, r'.campaign, Derived(recipients, r'.campaign))
        ensures c.data == Derived(recipients, c.id)
      {
        if c.id != r'.campaign {
          assert c in t.campaigns;
          OthersUnmarked(t, id, g.value, r', c.id);
        }
      }
    }
  }

  lemma PutRecipient(t: Store, id: nat, r: Recipient)
    requires Agrees(t) && Get(t.recipients, id).Some? && Get(t.recipients, id).value.campaign == r.campaign
    ensures Keyed(Put(t.recipients, id, r), t.nextRecipient)
    ensures forall x :: x in Put(t.recipients, id, r) ==> x.data == r || x in t.recipients
    ensures r.campaign < t.nextCampaign
  {
    var was := Row(id, Get(t.recipients, id).value);
    assert was in t.recipients;
    GetPut(t.recipients, t.nextRecipient, id, r, id);
  }

  lemma OthersUnmarked(t: Store, id: nat, r: Recipient, r': Recipient, campaign: nat)
    requires Keyed(t.recipients, t.nextRecipient) && Get(t.recipients, id) == Some(r)
    requires r'.campaign == r.campaign != campaign
    ensures Derived(Put(t.recipients, id, r'), campaign) == Derived(t.recipients, campaign)
  {
    var recipients := Put(t.recipients, id, r');
    forall x | Of(x, campaign) ensures x in t.recipients <==> x in recipients {
      if x in t.recipients {
        GetOwn(t.recipients, t.nextRecipient, x);
        var i :| 0 <= i < |t.recipients| && t.recipients[i] == x;
        assert recipients[i] == x;
      }
    }
    SameForOthers(recipients, t.recipients, campaign);
  }

  lemma {:induction false} OthersOnlyKeyed(recipients: seq<Row<Recipient>>, campaign: nat, next: nat)
    requires Keyed(recipients, next)
    ensures Keyed(OthersOnly(recipients, campaign), next)
  {
    if |recipients| > 0 {
      var init, last := recipients[..|recipients| - 1], recipients[|recipients| - 1];
      OthersOnlyKeyed(init, campaign, next);
      var kept := OthersOnly(init, campaign);
      forall i | 0 <= i < |kept| ensures kept[i].id < last.id { assert kept[i] in init; }
    }
  }

  lemma RemovedAgrees(t: Store, id: nat)
    requires Agrees(t)
    ensures Agrees(Removed(t, id))
  {
    var t' := Removed(t, id);
    DeleteKeyed(t.campaigns, id, t.nextCampaign);
    OthersOnlyKeyed(t.recipients, id, t.nextRecipient);
    forall c | c in t'.campaigns ensures c.data == Derived(t'.recipients, c.id) {
      SameForOthers(t'.recipients, t.recipients, c.id);
    }
  }

  /** A recipient of this campaign as `create` would store it. */
  ghost predicate Starts(r: Recipient, campaign: nat, status: RecipientStatus) {
    r.campaign == campaign && r.status == status && r.sentAt == None
  }

  /** Everything `Inserted` adds is a recipient of the new campaign with the bound status. */
  lemma {:induction false} InsertedShape(t: Store, campaign: nat, clients: seq<nat>, bound: Option<RecipientStatus>)
    requires Keyed(t.recipients, t.nextRecipient) && t.nextRecipient > 0
    ensures var t' := Inserted(t, campaign, clients, bound);
      && t'.campaigns == t.campaigns && t'.nextCampaign == t.nextCampaign
      && Keyed(t'.recipients, t'.nextRecipient) && t'.nextRecipient > 0
      && (forall r :: r in t.recipients ==> r in t'.recipients)
      && (forall r :: r in t'.recipients && r !in t.recipients ==>
           bound.Some? && Starts(r.data, campaign, bound.value))
      && (bound.Some? && |clients| > 0 ==> exists r :: r in t'.recipients && Starts(r.data, campaign, bound.value))
  {
    if |clients| > 0 && bound.Some? {
      var before := Inserted(t, campaign, clients[..|clients| - 1], bound);
      InsertedShape(t, campaign, clients[..|clients| - 1], bound);
      var r := Recipient(campaign, clients[|clients| - 1], bound.value, None);
      GetAppend(before.recipients, before.nextRecipient, r, 0);
      var t' := Inserted(t, campaign, clients, bound);
      assert t'.recipients == before.recipients + [Row(before.nextRecipient, r)];
      assert Row(before.nextRecipient, r) in t'.recipients && Starts(r, campaign, bound.value);
    }
  }

  /**
   Creating a campaign keeps every cached status right, unless it is given recipients that start out
   finished. With no bound status, as in the program, it always does.
   */
  lemma CreatedAgreesIff(t: Store, clients: seq<nat>, bound: Option<RecipientStatus>)
    requires Agrees(t)
    ensures Agrees(Created(t, clients, bound)) <==> clients == [] || bound.None? || bound.value !in {Sent, Skipped}
  {
    var id := t.nextCampaign;
    var t' := Created(t, clients, bound);
    CreatedShape(t, clients, bound);
    NewCampaignDerived(t, t', clients, bound);
    assert Row(id, Prepared) in t'.campaigns;
    if clients == [] || bound.None? || bound.value !in {Sent, Skipped} { CreatedAgrees(t, clients, bound); }
  }

  lemma CreatedShape(t: Store, clients: seq<nat>, bound: Option<RecipientStatus>)
    requires Agrees(t)
    ensures var id, t' := t.nextCampaign, Created(t, clients, bound);
      && Empty(t.recipients, id)
      && t'.campaigns == t.campaigns + [Row(id, Prepared)] && t'.nextCampaign == id + 1
      && Keyed(t'.recipients, t'.nextRecipient) && t'.nextRecipient > 0
      && (forall r :: r in t.recipients ==> r in t'.recipients)
      && (forall r :: r in t'.recipients && r !in t.recipients ==>
           bound.Some? && Starts(r.data, id, bound.value))
      && (bound.Some? && |clients| > 0 ==> exists r :: r in t'.recipients && Starts(r.data, id, bound.value))
      && (clients == [] || bound.None? ==> t'.recipients == t.recipients)
  {
    var id := t.nextCampaign;
    InsertedShape(t.(campaigns := t.campaigns + [Row(id, Prepared)], nextCampaign := id + 1), id, clients, bound);
  }

  lemma CreatedAgrees(t: Store, clients: seq<nat>, bound: Option<RecipientStatus>)
    requires Agrees(t) && (clients == [] || bound.None? || bound.value !in {Sent, Skipped})
    ensures Agrees(Created(t, clients, bound))
  {
    var id, t' := t.nextCampaign, Created(t, clients, bound);
    CreatedShape(t, clients, bound);
    GetAppend(t.campaigns, id, Prepared, 0);
    NewCampaignDerived(t, t', clients, bound);
    forall c | c in t.campaigns ensures Derived(t'.recipients, c.id) == c.data {
      SameForOthers(t'.recipients, t.recipients, c.id);
    }
  }

  lemma NewCampaignDerived(t: Store, t': Store, clients: seq<nat>, bound: Option<RecipientStatus>)
    requires Empty(t.recipients, t.nextCampaign) && (clients == [] || bound.None? ==> t'.recipients == t.recipients)
    requires forall r :: r in t'.recipients && r !in t.recipients ==> bound.Some? && r.data.status == bound.value
    requires bound.Some? && |clients| > 0 ==>
      exists r :: r in t'.recipients && r.data.campaign == t.nextCampaign && r.data.status == bound.value
    ensures Derived(t'.recipients, t.nextCampaign)
      == if clients != [] && bound.Some? && bound.value in {Sent, Skipped} then Done else Prepared
  {
  }

  /**
   What `create` does with a segment that has someone in it: the first insert fails, and an empty campaign
   in preparation is left behind.
   */
  lemma CreateWithRecipientsFails(t: Store, clients: seq<nat>)
    requires clients != []
    ensures var t' := Created(t, clients, None);
      && t'.recipients == t.recipients
      && t'.campaigns == t.campaigns + [Row(t.nextCampaign, Prepared)]
  {
  }

  datatype Op = Create(clients: seq<nat>) | SetStatus(id: nat, status: RecipientStatus, now: int) | Remove(id: nat)

  /** A history of the store, from any tables; `bound` is what `create` binds to the third placeholder. */
  ghost function Run(start: Store, ops: seq<Op>, bound: Option<RecipientStatus>): Store {
    if |ops| == 0 then start
    else
      Applied(Run(start, ops[..|ops| - 1], bound), ops[|ops| - 1], bound)
  }

  ghost function Applied(t: Store, op: Op, bound: Option<RecipientStatus>): Store {
    match op
    case Create(clients) => Created(t, clients, bound)
    case SetStatus(id, status, now) => Marked(t, id, status, now)
    case Remove(id) => Removed(t, id)
  }

  /**
   Over every history, from every agreeing database, each cached status is the derived one: for the
   program as it is, and for any repair of `create` that binds an unfinished status.
   */
  lemma {:induction false} RunAgrees(start: Store, ops: seq<Op>, bound: Option<RecipientStatus>)
    requires Agrees(start) && (bound.None? || bound.value !in {Sent, Skipped})
    ensures Agrees(Run(start, ops, bound))
  {
    if |ops| > 0 {
      var t := Run(start, ops[..|ops| - 1], bound);
      RunAgrees(start, ops[..|ops| - 1], bound);
      match ops[|ops| - 1]
      case Create(clients) => CreatedAgreesIff(t, clients, bound);
      case SetStatus(id, status, now) => MarkedAgrees(t, id, status, now);
      case Remove(id) => RemovedAgrees(t, id);
    }
  }

  /** No operation but creation brings recipients to a campaign, and the program's creation brings none. */
  lemma {:induction false} NoNewRecipients(start: Store, ops: seq<Op>)
    requires Agrees(start)
    ensures start.nextCampaign <= Run(start, ops, None).nextCampaign
    ensures forall r :: r in Run(start, ops, None).recipients ==> r.data.campaign < start.nextCampaign
  {
    if |ops| > 0 {
      var t := Run(start, ops[..|ops| - 1], None);
      NoNewRecipients(start, ops[..|ops| - 1]);
      RunAgrees(start, ops[..|ops| - 1], None);
      match ops[|ops| - 1]
      case Create(clients) => CreatedShape(t, clients, None);
      case SetStatus(id, status, now) => MarkedCampaigns(t, id, status, now);
      case Remove(id) =>
    }
  }

  lemma MarkedCampaigns(t: Store, id: nat, status: RecipientStatus, now: int)
    requires Agrees(t)
    ensures forall r :: r in Marked(t, id, status, now).recipients ==>
      exists r' :: r' in t.recipients && r'.data.campaign == r.data.campaign
  {
    var g := Get(t.recipients, id);
    if g.Some? {
      var r' := g.value.(status := status, sentAt := if status == Sent then Some(now) else None);
      PutRecipient(t, id, r');
      assert Row(id, g.value) in t.recipients;
      forall r | r in Marked(t, id, status, now).recipients
        ensures exists x :: x in t.recipients && x.data.campaign == r.data.campaign
      {
        if r !in t.recipients { assert r.data == r'; }
      }
    }
  }

  /**
   So as the program stands no campaign that it creates ever has a recipient or gets past preparation,
   whatever is done afterwards.
   */
  lemma CreatedCampaignsStayEmpty(start: Store, ops: seq<Op>, c: Row<CampaignStatus>)
    requires Agrees(start) && c in Run(start, ops, None).campaigns && c.id >= start.nextCampaign
    ensures Empty(Run(start, ops, None).recipients, c.id) && c.data == Prepared
  {
    NoNewRecipients(start, ops);
    RunAgrees(start, ops, None);
  }

  // ---------------------------------------------------------------- recipients over every run

  /** How recipient `id` was last marked, and when. */
  function LastMark(ops: seq<Op>, id: nat): Option<(RecipientStatus, int)> {
    if |ops| == 0 then None
    else
      var last := ops[|ops| - 1];
      if last.SetStatus? && last.id == id then Some((last.status, last.now)) else LastMark(ops[..|ops| - 1], id)
  }

  function MarkedAs(r: Recipient, status: RecipientStatus, now: int): Recipient {
    Recipient(r.campaign, r.client, status, if status == Sent then Some(now) else None)
  }

  /** A recipient after these operations: only marks change it, and only `sent` leaves a time behind. */
  function AsMarked(r: Recipient, ops: seq<Op>, id: nat): Recipient {
    match LastMark(ops, id)
    case None => r
    case Some((status, now)) => MarkedAs(r, status, now)
  }

  lemma GetMarked(t: Store, id: nat, status: RecipientStatus, now: int, other: nat)
    requires Agrees(t)
    ensures Get(Marked(t, id, status, now).recipients, other) ==
      match Get(t.recipients, other)
      case None => None
      case Some(r) => Some(if other == id then MarkedAs(r, status, now) else r)
  {
    var g := Get(t.recipients, id);
    if g.Some? { GetPut(t.recipients, t.nextRecipient, id, MarkedAs(g.value, status, now), other); }
  }

  lemma GetOthersOnly(t: Store, campaign: nat, id: nat)
    requires Agrees(t)
    ensures Get(OthersOnly(t.recipients, campaign), id) ==
      match Get(t.recipients, id)
      case None => None
      case Some(r) => if r.campaign == campaign then None else Some(r)
  {
    var kept := OthersOnly(t.recipients, campaign);
    var g, h := Get(t.recipients, id), Get(kept, id);
    OthersOnlyKeyed(t.recipients, campaign, t.nextRecipient);
    if h.Some? {
      assert Row(id, h.value) in t.recipients;
      GetOwn(t.recipients, t.nextRecipient, Row(id, h.value));
    }
    if g.Some? && g.value.campaign != campaign {
      assert Row(id, g.value) in kept;
      GetOwn(kept, t.nextRecipient, Row(id, g.value));
    }
  }

  /** What one operation makes of one recipient. */
  function RecipientStep(r: Option<Recipient>, op: Op, id: nat): Option<Recipient> {
    match r
    case None => None
    case Some(r) =>
      if op == Remove(r.campaign) then None
      else Some(if op.SetStatus? && op.id == id then MarkedAs(r, op.status, op.now) else r)
  }

  lemma AppliedToRecipient(t: Store, op: Op, id: nat)
    requires Agrees(t)
    ensures Get(Applied(t, op, None).recipients, id) == RecipientStep(Get(t.recipients, id), op, id)
  {
    match op
    case Create(clients) => CreatedShape(t, clients, None);
    case SetStatus(marked, status, now) => GetMarked(t, marked, status, now, id);
    case Remove(campaign) => GetOthersOnly(t, campaign, id);
  }

  /** What is left of a recipient: nothing if its campaign was removed, else the recipient as last marked. */
  function AfterAll(r: Option<Recipient>, ops: seq<Op>, id: nat): Option<Recipient> {
    if r.None? || Remove(r.value.campaign) in ops then None else Some(AsMarked(r.value, ops, id))
  }

  lemma AfterAllSnoc(r: Option<Recipient>, es: seq<Op>, op: Op, id: nat)
    ensures AfterAll(r, es + [op], id) == RecipientStep(AfterAll(r, es, id), op, id)
  {
    assert (es + [op])[..|es|] == es;
    assert r.Some? ==> (Remove(r.value.campaign) in es + [op]
                        <==> Remove(r.value.campaign) in es || op == Remove(r.value.campaign));
  }

  lemma RunSnoc(start: Store, es: seq<Op>, op: Op)
    ensures Run(start, es + [op], None) == Applied(Run(start, es, None), op, None)
  {
    assert (es + [op])[..|es|] == es;
  }

  lemma RecipientSnoc(start: Store, es: seq<Op>, op: Op, id: nat)
    requires Agrees(start)
    ensures Get(Run(start, es + [op], None).recipients, id)
      == RecipientStep(Get(Run(start, es, None).recipients, id), op, id)
  {
    RunAgrees(start, es, None);
    RunSnoc(start, es, op);
    AppliedToRecipient(Run(start, es, None), op, id);
  }

  /** After every history each recipient that was there at the start is what its marks and removals leave of it. */
  lemma {:induction false} RecipientAfter(start: Store, ops: seq<Op>, id: nat)
    requires Agrees(start)
    ensures Get(Run(start, ops, None).recipients, id) == AfterAll(Get(start.recipients, id), ops, id)
  {
    if |ops| > 0 {
      var es, op := ops[..|ops| - 1], ops[|ops| - 1];
      assert ops == es + [op];
      RecipientAfter(start, es, id);
      RecipientSnoc(start, es, op, id);
      AfterAllSnoc(Get(start.recipients, id), es, op, id);
    }
  }

  /**
   What the cached status of every campaign says, in every state of every history: done if there are
   recipients and each is sent or skipped, else in progress if one is sent, else prepared.
   */
  lemma CachedStatusMeans(start: Store, ops: seq<Op>, bound: Option<RecipientStatus>, c: Row<CampaignStatus>)
    requires Agrees(start) && (bound.None? || bound.value !in {Sent, Skipped})
    requires c in Run(start, ops, bound).campaigns
    ensures var rs := Run(start, ops, bound).recipients;
      var some := exists r :: r in rs && r.data.campaign == c.id;
      var all := forall r :: r in rs && r.data.campaign == c.id ==> r.data.status in {Sent, Skipped};
      var sent := exists r :: r in rs && r.data.campaign == c.id && r.data.status == Sent;
      && (c.data == Done <==> some && all)
      && (c.data == InProgress <==> !(some && all) && sent)
      && (c.data == Prepared <==> !(some && all) && !sent)
  {
    RunAgrees(start, ops, bound);
    DerivedMeans(Run(start, ops, bound).recipients, c.id);
  }

  lemma DerivedMeans(rs: seq<Row<Recipient>>, campaign: nat)
    ensures Empty(rs, campaign) <==> !exists r :: r in rs && r.data.campaign == campaign
    ensures AllFinished(rs, campaign) <==>
      forall r :: r in rs && r.data.campaign == campaign ==> r.data.status in {Sent, Skipped}
    ensures SomeSent(rs, campaign) <==> exists r :: r in rs && r.data.campaign == campaign && r.data.status == Sent
  {
    forall r: Row<Recipient> ensures Of(r, campaign) <==> r.data.campaign == campaign {}
    forall r: Row<Recipient> ensures Finished(r) <==> r.data.status in {Sent, Skipped} {}
  }

  /** `create` adds one campaign in preparation, for what it binds one recipient per client, and nothing else. */
  lemma CreatedRows(t: Store, clients: seq<nat>, status: RecipientStatus)
    ensures var t' := Created(t, clients, Some(status));
      && t'.campaigns == t.campaigns + [Row(t.nextCampaign, Prepared)]
      && |t'.recipients| == |t.recipients| + |clients| && t'.recipients[..|t.recipients|] == t.recipients
      && forall k :: 0 <= k < |clients| ==>
           t'.recipients[|t.recipients| + k]
             == Row(t.nextRecipient + k, Recipient(t.nextCampaign, clients[k], status, None))
  {
    var started := t.(campaigns := t.campaigns + [Row(t.nextCampaign, Prepared)], nextCampaign := t.nextCampaign + 1);
    InsertedRows(started, t.nextCampaign, clients, status);
  }

  lemma {:induction false} InsertedRows(t: Store, campaign: nat, clients: seq<nat>, status: RecipientStatus)
    ensures var t' := Inserted(t, campaign, clients, Some(status));
      && t'.campaigns == t.campaigns && t'.nextRecipient == t.nextRecipient + |clients|
      && |t'.recipients| == |t.recipients| + |clients| && t'.recipients[..|t.recipients|] == t.recipients
      && forall k :: 0 <= k < |clients| ==>
           t'.recipients[|t.recipients| + k] == Row(t.nextRecipient + k, Recipient(campaign, clients[k], status, None))
  {
    if |clients| > 0 { InsertedRows(t, campaign, clients[..|clients| - 1], status); }
  }
}
