/** Whole histories of the ledger: document numbers stay distinct, and paid means paid. */
module LedgerRuns {
  import opened Options
  import opened Tables
  import opened DocumentNumbers
  import opened Totals
  import opened Ledger

  datatype Op =
    | Create(kind: string, year: nat, total: Total)
    | Update(id: nat, newKind: string, newTotal: Option<Total>)
    | SetStatus(id: nat, status: Status)
    | RemoveInvoice(id: nat)
    | Record(invoice: nat, amount: int)
    | RemovePayment(id: nat)

  function Apply(b: Books, op: Op): Books {
    match op
    case Create(kind, year, total) => Created(b, kind, year, total)
    case Update(id, kind, total) => Edited(b, id, kind, total)
    case SetStatus(id, status) => WithStatus(b, id, status)
    case RemoveInvoice(id) => InvoiceRemoved(b, id)
    case Record(invoice, amount) => Recorded(b, invoice, amount)
    case RemovePayment(id) => PaymentRemoved(b, id)
  }

  function Run(ops: seq<Op>): Books {
    if |ops| == 0 then EMPTY_BOOKS else Apply(Run(ops[..|ops| - 1]), ops[|ops| - 1])
  }

  // ---------------------------------------------------------------- keys

  lemma WithStatusSound(b: Books, id: nat, status: Status)
    requires Sound(b)
    ensures Sound(WithStatus(b, id, status))
  {
  }

  lemma ReconciledSound(b: Books, id: nat)
    requires Sound(b)
    ensures Sound(Reconciled(b, id))
  {
    WithStatusSound(b, id, Paid);
    WithStatusSound(b, id, Sent);
  }

  lemma PaymentAddedSound(b: Books, invoice: nat, amount: int)
    requires Sound(b)
    ensures Sound(PaymentAdded(b, invoice, amount))
  {
    GetAppend(b.payments, b.nextPayment, Payment(invoice, amount), 0);
  }

  lemma PaymentDroppedSound(b: Books, id: nat)
    requires Sound(b)
    ensures Sound(PaymentDropped(b, id))
  {
    DeleteKeyed(b.payments, id, b.nextPayment);
  }

  lemma EditedSound(b: Books, id: nat, kind: string, total: Option<Total>)
    requires Sound(b)
    ensures Sound(Apply(b, Update(id, kind, total)))
  {
  }

  lemma CreatedSound(b: Books, kind: string, year: nat, total: Total)
    requires Sound(b)
    ensures Sound(Apply(b, Create(kind, year, total)))
  {
  }

  lemma StatusSetSound(b: Books, id: nat, status: Status)
    requires Sound(b)
    ensures Sound(Apply(b, SetStatus(id, status)))
  {
    WithStatusSound(b, id, status);
  }

  lemma InvoiceRemovedSound(b: Books, id: nat)
    requires Sound(b)
    ensures Sound(Apply(b, RemoveInvoice(id)))
  {
    DeleteKeyed(b.invoices, id, b.nextInvoice);
  }

  lemma ApplySound(b: Books, op: Op)
    requires Sound(b)
    ensures Sound(Apply(b, op))
  {
    match op
    case Create(kind, year, total) => CreatedSound(b, kind, year, total);
    case Update(id, kind, total) => EditedSound(b, id, kind, total);
    case SetStatus(id, status) => StatusSetSound(b, id, status);
    case RemoveInvoice(id) => InvoiceRemovedSound(b, id);
    case Record(invoice, amount) => RecordedSound(b, invoice, amount);
    case RemovePayment(id) => PaymentRemovedSound(b, id);
  }

  lemma RecordedSound(b: Books, invoice: nat, amount: int)
    requires Sound(b)
    ensures Sound(Apply(b, Record(invoice, amount)))
  {
    var added := PaymentAdded(b, invoice, amount);
    PaymentAddedSound(b, invoice, amount);
    ReconciledSound(added, invoice);
    assert Apply(b, Record(invoice, amount)) in {b, added, Reconciled(added, invoice)};
  }

  lemma PaymentRemovedSound(b: Books, id: nat)
    requires Sound(b)
    ensures Sound(Apply(b, RemovePayment(id)))
  {
    var dropped, g := PaymentDropped(b, id), Get(b.payments, id);
    PaymentDroppedSound(b, id);
    if g.Some? {
      ReconciledSound(dropped, g.value.invoice);
      assert Apply(b, RemovePayment(id)) in {dropped, Reconciled(dropped, g.value.invoice)};
    }
  }

  lemma {:induction false} RunSound(ops: seq<Op>)
    ensures Sound(Run(ops))
  {
    if |ops| > 0 {
      RunSound(ops[..|ops| - 1]);
      ApplySound(Run(ops[..|ops| - 1]), ops[|ops| - 1]);
    }
  }

  // ---------------------------------------------------------------- document numbers

  ghost predicate Distinct(rows: seq<Row<Invoice>>) {
    forall i, j :: 0 <= i < j < |rows| ==> rows[i].data.number != rows[j].data.number
  }

  /** Every document is of a kind in use and carries its kind's prefix. */
  ghost predicate Labelled(rows: seq<Row<Invoice>>, kinds: set<string>) {
    forall i :: 0 <= i < |rows| ==>
      rows[i].data.kind in kinds && |rows[i].data.number| >= 3 && rows[i].data.number[..3] == Prefix(rows[i].data.kind)
  }

  /** No two kinds in use print the same prefix. */
  ghost predicate PrefixesDiffer(kinds: set<string>) {
    forall k, l :: k in kinds && l in kinds && Prefix(k) == Prefix(l) ==> k == l
  }

  /** No kind in use may be changed into another. */
  ghost predicate KindsStay(kinds: set<string>, changes: set<(string, string)>) {
    forall k, l :: k in kinds && (k, l) in changes && l != "" ==> k == l
  }

  /** Documents are created with one of these kinds, and a document's kind changes only as permitted. */
  ghost predicate KeepsTo(b: Books, op: Op, kinds: set<string>, changes: set<(string, string)>) {
    match op
    case Create(kind, _, _) => kind in kinds
    case Update(id, kind, _) =>
      kind != "" && Get(b.invoices, id).Some? ==>
        var current := Get(b.invoices, id).value.kind;
        kind == current || (current, kind) in changes
    case _ => true
  }

  ghost predicate AllKeepTo(ops: seq<Op>, kinds: set<string>, changes: set<(string, string)>) {
    forall n :: 0 <= n < |ops| ==> KeepsTo(Run(ops[..n]), ops[n], kinds, changes)
  }

  lemma {:induction false} HighestBoundsSeries(rows: seq<Row<Invoice>>, kind: string, year: nat, i: nat)
    requires i < |rows| && InSeries(rows[i].data, kind, year) && Suffix(rows[i].data.number, 0).Some?
    ensures Suffix(rows[i].data.number, 0).value <= HighestSuffix(rows, kind, year)
  {
    if i < |rows| - 1 { HighestBoundsSeries(rows[..|rows| - 1], kind, year, i); }
  }

  /** max + 1 is a number no document of any kind carries. */
  lemma NextNumberIsFresh(rows: seq<Row<Invoice>>, kinds: set<string>, kind: string, year: nat)
    requires Labelled(rows, kinds) && PrefixesDiffer(kinds) && kind in kinds
    ensures forall i :: 0 <= i < |rows| ==> rows[i].data.number != NextNumber(rows, kind, year)
  {
    var n := HighestSuffix(rows, kind, year) + 1;
    NumberStartsWithStem(kind, year, n);
    SuffixOfNumber(kind, year, n);
    forall i | 0 <= i < |rows| ensures rows[i].data.number != Number(kind, year, n) {
      if rows[i].data.number == Number(kind, year, n) {
        HighestBoundsSeries(rows, kind, year, i);
        assert false;
      }
    }
  }

  /** Both facts survive anything that keeps each document's number and kind. */
  lemma SameLabels(rows: seq<Row<Invoice>>, rows': seq<Row<Invoice>>, kinds: set<string>)
    requires Labelled(rows, kinds) && Distinct(rows) && |rows'| == |rows|
    requires forall i :: 0 <= i < |rows| ==>
      rows'[i].data.kind == rows[i].data.kind && rows'[i].data.number == rows[i].data.number
    ensures Labelled(rows', kinds) && Distinct(rows')
  {
  }

  lemma PutKeepsLabels(b: Books, kinds: set<string>, id: nat, inv: Invoice)
    requires Sound(b) && Labelled(b.invoices, kinds) && Distinct(b.invoices)
    requires Get(b.invoices, id).Some?
    requires inv.kind == Get(b.invoices, id).value.kind && inv.number == Get(b.invoices, id).value.number
    ensures Labelled(Put(b.invoices, id, inv), kinds) && Distinct(Put(b.invoices, id, inv))
  {
    var rows := Put(b.invoices, id, inv);
    forall i | 0 <= i < |rows|
      ensures rows[i].data.kind == b.invoices[i].data.kind && rows[i].data.number == b.invoices[i].data.number
    {
      if b.invoices[i].id == id { GetOwn(b.invoices, b.nextInvoice, b.invoices[i]); }
    }
    SameLabels(b.invoices, rows, kinds);
  }

  lemma WithStatusKeepsLabels(b: Books, kinds: set<string>, id: nat, status: Status)
    requires Sound(b) && Labelled(b.invoices, kinds) && Distinct(b.invoices)
    ensures Labelled(WithStatus(b, id, status).invoices, kinds) && Distinct(WithStatus(b, id, status).invoices)
  {
    var g := Get(b.invoices, id);
    if g.Some? { PutKeepsLabels(b, kinds, id, g.value.(status := status)); }
  }

  lemma {:induction false} DeleteKeepsLabels(rows: seq<Row<Invoice>>, kinds: set<string>, id: nat)
    requires Labelled(rows, kinds) && Distinct(rows)
    ensures Labelled(Delete(rows, id), kinds) && Distinct(Delete(rows, id))
  {
    if |rows| > 0 {
      var init, last := rows[..|rows| - 1], rows[|rows| - 1];
      DeleteKeepsLabels(init, kinds, id);
      var d := Delete(init, id);
      forall i | 0 <= i < |d| ensures d[i].data.number != last.data.number { assert d[i] in init; }
    }
  }

  lemma CreatedKeepsLabels(b: Books, kinds: set<string>, kind: string, year: nat, total: Total)
    requires Labelled(b.invoices, kinds) && Distinct(b.invoices) && PrefixesDiffer(kinds) && kind in kinds
    ensures Labelled(Created(b, kind, year, total).invoices, kinds) && Distinct(Created(b, kind, year, total).invoices)
  {
    NextNumberIsFresh(b.invoices, kinds, kind, year);
    NumberStartsWithStem(kind, year, HighestSuffix(b.invoices, kind, year) + 1);
    var number := NextNumber(b.invoices, kind, year);
    AppendKeepsLabels(b.invoices, kinds, Row(b.nextInvoice, Invoice(kind, number, Draft, total)));
  }

  lemma AppendKeepsLabels(rows: seq<Row<Invoice>>, kinds: set<string>, row: Row<Invoice>)
    requires Labelled(rows, kinds) && Distinct(rows)
    requires row.data.kind in kinds && |row.data.number| >= 3 && row.data.number[..3] == Prefix(row.data.kind)
    requires forall i :: 0 <= i < |rows| ==> rows[i].data.number != row.data.number
    ensures Labelled(rows + [row], kinds) && Distinct(rows + [row])
  {
  }

  lemma ApplyKeepsLabels(b: Books, kinds: set<string>, changes: set<(string, string)>, op: Op)
    requires Sound(b) && Labelled(b.invoices, kinds) && Distinct(b.invoices)
    requires PrefixesDiffer(kinds) && KindsStay(kinds, changes) && KeepsTo(b, op, kinds, changes)
    ensures Labelled(Apply(b, op).invoices, kinds) && Distinct(Apply(b, op).invoices)
  {
    match op
    case Create(kind, year, total) => CreatedKeepsLabels(b, kinds, kind, year, total);
    case Update(id, kind, total) =>
      var g := Get(b.invoices, id);
      if g.Some? {
        assert Row(id, g.value) in b.invoices;
        assert g.value.kind in kinds;
        PutKeepsLabels(b, kinds, id, EditedInvoice(g.value, kind, total));
      }
    case SetStatus(id, status) => WithStatusKeepsLabels(b, kinds, id, status);
    case RemoveInvoice(id) => DeleteKeepsLabels(b.invoices, kinds, id);
    case Record(invoice, amount) => RecordedKeepsLabels(b, kinds, invoice, amount);
    case RemovePayment(id) => PaymentRemovedKeepsLabels(b, kinds, id);
  }

  lemma RecordedKeepsLabels(b: Books, kinds: set<string>, invoice: nat, amount: int)
    requires Sound(b) && Labelled(b.invoices, kinds) && Distinct(b.invoices)
    ensures Labelled(Recorded(b, invoice, amount).invoices, kinds) && Distinct(Recorded(b, invoice, amount).invoices)
  {
    PaymentAddedSound(b, invoice, amount);
    ReconciledKeepsLabels(PaymentAdded(b, invoice, amount), kinds, invoice);
  }

  lemma PaymentRemovedKeepsLabels(b: Books, kinds: set<string>, id: nat)
    requires Sound(b) && Labelled(b.invoices, kinds) && Distinct(b.invoices)
    ensures Labelled(PaymentRemoved(b, id).invoices, kinds) && Distinct(PaymentRemoved(b, id).invoices)
  {
    var dropped, g := PaymentDropped(b, id), Get(b.payments, id);
    PaymentDroppedSound(b, id);
    if g.Some? {
      ReconciledKeepsLabels(dropped, kinds, g.value.invoice);
      assert PaymentRemoved(b, id) in {dropped, Reconciled(dropped, g.value.invoice)};
    }
  }

  lemma ReconciledKeepsLabels(b: Books, kinds: set<string>, id: nat)
    requires Sound(b) && Labelled(b.invoices, kinds) && Distinct(b.invoices)
    ensures Labelled(Reconciled(b, id).invoices, kinds) && Distinct(Reconciled(b, id).invoices)
  {
    WithStatusKeepsLabels(b, kinds, id, Paid);
    WithStatusKeepsLabels(b, kinds, id, Sent);
  }

  lemma {:induction false} RunKeepsLabels(ops: seq<Op>, kinds: set<string>, changes: set<(string, string)>)
    requires AllKeepTo(ops, kinds, changes) && PrefixesDiffer(kinds) && KindsStay(kinds, changes)
    ensures Labelled(Run(ops).invoices, kinds) && Distinct(Run(ops).invoices)
  {
    if |ops| > 0 {
      var n := |ops| - 1;
      var before := ops[..n];
      forall m | 0 <= m < n ensures before[m] == ops[m] && before[..m] == ops[..m] {}
      assert AllKeepTo(before, kinds, changes);
      RunKeepsLabels(before, kinds, changes);
      RunSound(before);
      ApplyKeepsLabels(Run(before), kinds, changes, ops[n]);
    }
  }

  ghost predicate AlwaysDistinct(kinds: set<string>, changes: set<(string, string)>) {
    forall ops :: AllKeepTo(ops, kinds, changes) ==> Distinct(Run(ops).invoices)
  }

  /**
   Numbers stay pairwise distinct over every history that creates documents of the given kinds and changes
   kinds only as permitted, if and only if no two of those kinds print the same prefix and no permitted
   change alters one of them. (An unknown kind falls back to the prefix of quotes.)
   */
  lemma AlwaysDistinctIff(kinds: set<string>, changes: set<(string, string)>)
    ensures AlwaysDistinct(kinds, changes) <==> PrefixesDiffer(kinds) && KindsStay(kinds, changes)
  {
    if !PrefixesDiffer(kinds) {
      var k, l :| k in kinds && l in kinds && Prefix(k) == Prefix(l) && k != l;
      SharedPrefixRepeats(kinds, changes, k, l);
    } else if !KindsStay(kinds, changes) {
      var k, l :| k in kinds && (k, l) in changes && l != "" && k != l;
      ChangedKindRepeatsNumber(kinds, changes, k, l, 0, Total(0, 0));
      assert !Distinct(Run(CreateChangeCreate(k, l, 0, Total(0, 0))).invoices);
    } else {
      forall ops | AllKeepTo(ops, kinds, changes) ensures Distinct(Run(ops).invoices) {
        RunKeepsLabels(ops, kinds, changes);
      }
    }
  }

  lemma RunSnoc(ops: seq<Op>, op: Op)
    ensures Run(ops + [op]) == Apply(Run(ops), op)
  {
  }

  /** The first documents of two kinds, as they are created. */
  function CreateBoth(k: string, l: string): seq<Op> { [Create(k, 0, Total(0, 0)), Create(l, 0, Total(0, 0))] }

  lemma CreateBothRun(k: string, l: string)
    requires k != l
    ensures var ops, draft := CreateBoth(k, l), (kind: string) => Invoice(kind, Number(kind, 0, 1), Draft, Total(0, 0));
      Run(ops).invoices == [Row(1, draft(k)), Row(2, draft(l))]
  {
    var start: seq<Op> := [];
    var ops := CreateBoth(k, l);
    RunSnoc(start, ops[0]);
    RunSnoc(ops[..1], ops[1]);
    assert start + [ops[0]] == ops[..1] && ops[..1] + [ops[1]] == ops;
    var row := Row(1, Invoice(k, Number(k, 0, 1), Draft, Total(0, 0)));
    FirstNumber([], k, 0);
    FirstNumber([row], l, 0);
    assert Created(EMPTY_BOOKS, k, 0, Total(0, 0)) == Books([row], 2, [], 1);
  }

  lemma SharedPrefixRepeats(kinds: set<string>, changes: set<(string, string)>, k: string, l: string)
    requires k in kinds && l in kinds && Prefix(k) == Prefix(l) && k != l
    ensures AllKeepTo(CreateBoth(k, l), kinds, changes) && !Distinct(Run(CreateBoth(k, l)).invoices)
  {
    CreateBothRun(k, l);
    var rows := Run(CreateBoth(k, l)).invoices;
    assert rows[0].data.number == rows[1].data.number;
  }

  /** Documents of other kinds do not count: the series still starts at one. */
  lemma FirstNumber(rows: seq<Row<Invoice>>, kind: string, year: nat)
    requires forall i :: 0 <= i < |rows| ==> rows[i].data.kind != kind
    ensures NextNumber(rows, kind, year) == Number(kind, year, 1)
  {
    NoSeries(rows, kind, year);
  }

  lemma {:induction false} NoSeries(rows: seq<Row<Invoice>>, kind: string, year: nat)
    requires forall i :: 0 <= i < |rows| ==> rows[i].data.kind != kind
    ensures HighestSuffix(rows, kind, year) == 0
  {
    if |rows| > 0 { NoSeries(rows[..|rows| - 1], kind, year); }
  }

  /** The two kinds the screens offer, with no change from one to the other, are such a set. */
  lemma QuotesAndInvoicesStayDistinct(ops: seq<Op>)
    requires AllKeepTo(ops, {"quote", "invoice"}, {})
    ensures Distinct(Run(ops).invoices)
  {
    AlwaysDistinctIff({"quote", "invoice"}, {});
  }

  function CreateChangeCreate(k: string, l: string, year: nat, total: Total): seq<Op> {
    [Create(k, year, total), Update(1, l, None), Create(k, year, total)]
  }

  lemma FirstCreated(k: string, year: nat, total: Total)
    ensures Created(EMPTY_BOOKS, k, year, total)
      == Books([Row(1, Invoice(k, Number(k, year, 1), Draft, total))], 2, [], 1)
  {
    FirstNumber([], k, year);
  }

  lemma ChangedOnly(doc: Invoice, l: string)
    requires l != ""
    ensures Edited(Books([Row(1, doc)], 2, [], 1), 1, l, None) == Books([Row(1, doc.(kind := l))], 2, [], 1)
  {
  }

  lemma CreateChangeCreateRun(k: string, l: string, year: nat, total: Total)
    requires l != "" && k != l
    ensures var ops, doc := CreateChangeCreate(k, l, year, total), Invoice(k, Number(k, year, 1), Draft, total);
      && Run(ops[..1]).invoices == [Row(1, doc)]
      && Run(ops).invoices == [Row(1, doc.(kind := l)), Row(2, doc)]
  {
    var start: seq<Op> := [];
    var ops := CreateChangeCreate(k, l, year, total);
    var doc := Invoice(k, Number(k, year, 1), Draft, total);
    RunSnoc(start, ops[0]);
    RunSnoc(ops[..1], ops[1]);
    RunSnoc(ops[..2], ops[2]);
    assert start + [ops[0]] == ops[..1] && ops[..1] + [ops[1]] == ops[..2] && ops[..2] + [ops[2]] == ops;
    var moved := Row(1, doc.(kind := l));
    FirstNumber([], k, year);
    FirstNumber([moved], k, year);
    FirstCreated(k, year, total);
    ChangedOnly(doc, l);
    assert Run(ops[..1]) == Books([Row(1, doc)], 2, [], 1);
    assert Run(ops[..2]) == Books([moved], 2, [], 1);
  }

  /** Any change of kind leaves the old number behind where the next one of its series will be counted from. */
  lemma ChangedKindRepeatsNumber(kinds: set<string>, changes: set<(string, string)>, k: string, l: string, year: nat,
                                 total: Total)
    requires k in kinds && (k, l) in changes && l != "" && k != l
    ensures var ops := CreateChangeCreate(k, l, year, total);
      AllKeepTo(ops, kinds, changes) && |Run(ops).invoices| == 2 && !Distinct(Run(ops).invoices)
  {
    var ops := CreateChangeCreate(k, l, year, total);
    CreateChangeCreateRun(k, l, year, total);
    assert Run(ops).invoices[0].data.number == Run(ops).invoices[1].data.number;
    forall n | 0 <= n < |ops| ensures KeepsTo(Run(ops[..n]), ops[n], kinds, changes) {
      if n == 1 { assert Get(Run(ops[..1]).invoices, 1).value.kind == k; }
    }
  }

  // ---------------------------------------------------------------- payments

  predicate Settled(b: Books, id: nat, inv: Invoice) {
    inv.status == Paid <==> PaidSum(b.payments, id) >= inv.total.ttc
  }

  /** The invoice a payment operation is about, 0 if it is about none. */
  function Touched(b: Books, op: Op): nat {
    match op
    case Record(invoice, amount) => if amount > 0 then invoice else 0
    case RemovePayment(id) => (match Get(b.payments, id) case Some(p) => p.invoice case None => 0)
    case _ => 0
  }

  lemma GetWithStatus(b: Books, id: nat, status: Status, other: nat)
    requires Sound(b)
    ensures Get(WithStatus(b, id, status).invoices, other) ==
      match Get(b.invoices, other)
      case None => None
      case Some(inv) => Some(if other == id then inv.(status := status) else inv)
  {
    var g := Get(b.invoices, id);
    if g.Some? { GetPut(b.invoices, b.nextInvoice, id, g.value.(status := status), other); }
  }

  lemma ReconciledOther(b: Books, id: nat, other: nat)
    requires Sound(b) && other != id
    ensures Get(Reconciled(b, id).invoices, other) == Get(b.invoices, other)
  {
    GetWithStatus(b, id, Paid, other);
    GetWithStatus(b, id, Sent, other);
    assert Reconciled(b, id) in {b, WithStatus(b, id, Paid), WithStatus(b, id, Sent)};
  }

  lemma ReconciledSettles(b: Books, id: nat)
    requires Sound(b)
    ensures var b' := Reconciled(b, id);
      && b'.payments == b.payments
      && match Get(b.invoices, id)
         case None => Get(b'.invoices, id) == None
         case Some(inv) =>
           var inv' := Get(b'.invoices, id);
           inv'.Some? && Settled(b', id, inv'.value) && inv'.value.(status := inv.status) == inv
  {
  }

  /** The books after the payment row has been written and before the invoice is looked at. */
  function PaymentStep(b: Books, op: Op): Books {
    match op
    case Record(invoice, amount) => PaymentAdded(b, invoice, amount)
    case RemovePayment(id) => PaymentDropped(b, id)
    case _ => b
  }

  lemma PaymentStepSound(b: Books, op: Op)
    requires Sound(b)
    ensures Sound(PaymentStep(b, op)) && PaymentStep(b, op).invoices == b.invoices
  {
    match op
    case Record(invoice, amount) => PaymentAddedSound(b, invoice, amount);
    case RemovePayment(id) => PaymentDroppedSound(b, id);
    case _ =>
  }

  /** Right after a payment is recorded or removed, its invoice is paid exactly when the payments reach the total. */
  lemma PaymentSettlesInvoice(b: Books, op: Op)
    requires Sound(b) && (op.Record? || op.RemovePayment?) && Touched(b, op) != 0
    requires Get(b.invoices, Touched(b, op)).Some?
    ensures var b', id := Apply(b, op), Touched(b, op);
      && Get(b'.invoices, id).Some?
      && Settled(b', id, Get(b'.invoices, id).value)
      && Get(b'.invoices, id).value.total == Get(b.invoices, id).value.total
    ensures forall other :: other != Touched(b, op) ==> Get(Apply(b, op).invoices, other) == Get(b.invoices, other)
  {
    var id, b' := Touched(b, op), PaymentStep(b, op);
    PaymentStepSound(b, op);
    assert Apply(b, op) == Reconciled(b', id);
    forall other | other != id ensures Get(Apply(b, op).invoices, other) == Get(b.invoices, other) {
      ReconciledOther(b', id, other);
    }
    ReconciledSettles(b', id);
  }

  lemma ApplyPayment(b: Books, op: Op)
    requires op.Record? || op.RemovePayment?
    ensures Apply(b, op) == b || Apply(b, op) == PaymentStep(b, op)
      || Apply(b, op) == Reconciled(PaymentStep(b, op), Touched(b, op))
  {
  }

  lemma AbsentStaysAbsent(b: Books, op: Op, id: nat)
    requires Sound(b) && (op.Record? || op.RemovePayment?) && Get(b.invoices, id).None?
    ensures Get(Apply(b, op).invoices, id).None?
  {
    ApplyPayment(b, op);
    PaymentStepSound(b, op);
    AbsentAfterReconcile(PaymentStep(b, op), Touched(b, op), id);
  }

  lemma AbsentAfterReconcile(b: Books, id: nat, other: nat)
    requires Sound(b) && Get(b.invoices, other).None?
    ensures Get(Reconciled(b, id).invoices, other).None?
  {
  }

  /** So an invoice that is still listed as open after its payment owes at least one cent. */
  lemma OpenAfterPaymentOwes(b: Books, op: Op, row: Row<Invoice>)
    requires Sound(b) && (op.Record? || op.RemovePayment?) && Touched(b, op) != 0
    requires row in Apply(b, op).invoices && row.id == Touched(b, op) && IsOpen(row.data)
    ensures Outstanding(Apply(b, op).payments, row).remaining >= 1
  {
    var b' := Apply(b, op);
    ApplySound(b, op);
    GetOwn(b'.invoices, b'.nextInvoice, row);
    if Get(b.invoices, row.id).None? { AbsentStaysAbsent(b, op, row.id); }
    PaymentSettlesInvoice(b, op);
  }

  /** Every document is marked paid exactly when its payments reach its total. */
  ghost predicate AllSettled(b: Books) {
    forall row :: row in b.invoices ==> Settled(b, row.id, row.data)
  }

  lemma PaidAppend(payments: seq<Row<Payment>>, p: Row<Payment>, invoice: nat)
    ensures PaidSum(payments + [p], invoice)
      == PaidSum(payments, invoice) + if p.data.invoice == invoice then p.data.amount else 0
  {
  }

  lemma {:induction false} PaidDelete(payments: seq<Row<Payment>>, id: nat, invoice: nat)
    requires forall p :: p in payments && p.id == id ==> p.data.invoice != invoice
    ensures PaidSum(Delete(payments, id), invoice) == PaidSum(payments, invoice)
  {
    if |payments| > 0 {
      var init, last := payments[..|payments| - 1], payments[|payments| - 1];
      PaidDelete(init, id, invoice);
      assert last in payments && payments == init + [last];
      PaidAppend(init, last, invoice);
      if last.id != id {
        PaidAppend(Delete(init, id), last, invoice);
      } else {
        assert Delete(init, id) + [] == Delete(init, id);
      }
    }
  }

  /** A new document is a draft, so payments that came in before it must not reach its total. */
  lemma CreatedKeepsSettled(b: Books, kind: string, year: nat, total: Total)
    requires Sound(b) && AllSettled(b)
    ensures AllSettled(Created(b, kind, year, total)) <==> PaidSum(b.payments, b.nextInvoice) < total.ttc
  {
    var created := Created(b, kind, year, total);
    assert created.invoices[|b.invoices|] in created.invoices;
  }

  lemma OtherInvoiceUntouched(b: Books, op: Op, row: Row<Invoice>)
    requires Sound(b) && (op.Record? || op.RemovePayment?) && row.id != Touched(b, op)
    requires row in Apply(b, op).invoices
    ensures row in b.invoices && PaidSum(Apply(b, op).payments, row.id) == PaidSum(b.payments, row.id)
  {
    var b', mid := Apply(b, op), PaymentStep(b, op);
    ApplySound(b, op);
    PaymentStepSound(b, op);
    GetOwn(b'.invoices, b'.nextInvoice, row);
    ReconciledOther(mid, Touched(b, op), row.id);
    PaidByOthers(b, op, row.id);
    assert Get(b.invoices, row.id) == Some(row.data);
  }

  lemma PaidByOthers(b: Books, op: Op, id: nat)
    requires Sound(b) && (op.Record? || op.RemovePayment?) && id != Touched(b, op)
    ensures PaidSum(Apply(b, op).payments, id) == PaidSum(b.payments, id)
  {
    ApplyPayment(b, op);
    PaidAfterStep(b, op, id);
  }

  lemma PaidAfterStep(b: Books, op: Op, id: nat)
    requires Sound(b) && (op.Record? || op.RemovePayment?) && id != Touched(b, op)
    ensures Apply(b, op) != b ==> PaidSum(PaymentStep(b, op).payments, id) == PaidSum(b.payments, id)
  {
    match op
    case Record(invoice, amount) => PaidAppend(b.payments, Row(b.nextPayment, Payment(invoice, amount)), id);
    case RemovePayment(pid) => PaidAfterDrop(b, pid, id);
  }

  lemma PaidAfterDrop(b: Books, pid: nat, id: nat)
    requires Sound(b) && (Get(b.payments, pid).Some? ==> Get(b.payments, pid).value.invoice != id)
    ensures PaidSum(PaymentDropped(b, pid).payments, id) == PaidSum(b.payments, id)
  {
    forall p | p in b.payments && p.id == pid ensures p.data.invoice != id {
      GetOwn(b.payments, b.nextPayment, p);
    }
    PaidDelete(b.payments, pid, id);
  }

  lemma PaymentKeepsSettled(b: Books, op: Op)
    requires Sound(b) && AllSettled(b) && (op.Record? || op.RemovePayment?)
    ensures AllSettled(Apply(b, op))
  {
    var b', id := Apply(b, op), Touched(b, op);
    ApplySound(b, op);
    forall row | row in b'.invoices ensures Settled(b', row.id, row.data) {
      if row.id == id {
        GetOwn(b'.invoices, b'.nextInvoice, row);
        if Get(b.invoices, id).None? { AbsentStaysAbsent(b, op, id); }
        PaymentSettlesInvoice(b, op);
      } else {
        OtherInvoiceUntouched(b, op, row);
      }
    }
  }

  /** What each operation has to meet for the statuses to stay right, read off before it runs. */
  predicate KeepsSettled(b: Books, op: Op) {
    match op
    case Create(_, _, total) => PaidSum(b.payments, b.nextInvoice) < total.ttc
    case Update(id, _, total) =>
      Get(b.invoices, id).Some? && total.Some? ==>
        var paid := PaidSum(b.payments, id);
        paid >= Get(b.invoices, id).value.total.ttc <==> paid >= total.value.ttc
    case SetStatus(id, status) =>
      Get(b.invoices, id).Some? ==> (status == Paid <==> PaidSum(b.payments, id) >= Get(b.invoices, id).value.total.ttc)
    case Record(_, _) => true
    case RemoveInvoice(_) => true
    case RemovePayment(_) => true
  }

  lemma PutSettled(b: Books, id: nat, inv: Invoice)
    requires Sound(b) && AllSettled(b) && Get(b.invoices, id).Some?
    ensures AllSettled(b.(invoices := Put(b.invoices, id, inv))) <==> Settled(b, id, inv)
  {
    var rows := Put(b.invoices, id, inv);
    var i :| 0 <= i < |b.invoices| && b.invoices[i] == Row(id, Get(b.invoices, id).value);
    assert rows[i] in rows && rows[i] == Row(id, inv);
  }

  lemma EditSettledIff(b: Books, id: nat, kind: string, total: Option<Total>)
    requires Sound(b) && AllSettled(b)
    ensures AllSettled(Edited(b, id, kind, total)) <==> KeepsSettled(b, Update(id, kind, total))
  {
    var g := Get(b.invoices, id);
    if g.Some? {
      assert Row(id, g.value) in b.invoices;
      PutSettled(b, id, EditedInvoice(g.value, kind, total));
    }
  }

  lemma StatusSettledIff(b: Books, id: nat, status: Status)
    requires Sound(b) && AllSettled(b)
    ensures AllSettled(WithStatus(b, id, status)) <==> KeepsSettled(b, SetStatus(id, status))
  {
    var g := Get(b.invoices, id);
    if g.Some? { PutSettled(b, id, g.value.(status := status)); }
  }

  lemma RemovalKeepsSettled(b: Books, id: nat)
    requires AllSettled(b)
    ensures AllSettled(InvoiceRemoved(b, id))
  {
  }

  /** No operation meets its condition in vain, and none breaks it without damage. */
  lemma ApplySettledIff(b: Books, op: Op)
    requires Sound(b) && AllSettled(b)
    ensures AllSettled(Apply(b, op)) <==> KeepsSettled(b, op)
  {
    match op
    case Create(kind, year, total) => CreatedKeepsSettled(b, kind, year, total);
    case Update(id, kind, total) => EditSettledIff(b, id, kind, total);
    case SetStatus(id, status) => StatusSettledIff(b, id, status);
    case Record(_, _) => PaymentKeepsSettled(b, op);
    case RemovePayment(_) => PaymentKeepsSettled(b, op);
    case RemoveInvoice(id) => RemovalKeepsSettled(b, id);
  }

  /** After each operation, and before the first. */
  ghost predicate SettledThroughout(ops: seq<Op>) {
    AllSettled(Run(ops)) && (|ops| > 0 ==> SettledThroughout(ops[..|ops| - 1]))
  }

  ghost predicate EachKeepsSettled(ops: seq<Op>) {
    |ops| > 0 ==>
      var before := ops[..|ops| - 1];
      EachKeepsSettled(before) && KeepsSettled(Run(before), ops[|ops| - 1])
  }

  /**
   After each operation of a history every document is marked paid exactly when its payments reach its
   total, if and only if each operation meets its condition: a creation needs a total that what was paid on
   its id beforehand (as a rule nothing) does not reach, an edit has to leave the total on the same side
   of what has been paid, and a status set by hand has to be the right one. Recording and removing payments
   and removing documents always meet it.
   */
  lemma {:induction false} RunSettledIff(ops: seq<Op>)
    ensures SettledThroughout(ops) <==> EachKeepsSettled(ops)
  {
    if |ops| > 0 {
      var before, op := ops[..|ops| - 1], ops[|ops| - 1];
      RunSettledIff(before);
      RunSound(before);
      if AllSettled(Run(before)) { ApplySettledIff(Run(before), op); }
    }
  }
}
