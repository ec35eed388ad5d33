/**
 What is in the tables after a history, told from the operations alone: which payments are there and what
 they add up to, and which documents are there.
 */
module LedgerHistory {
  import opened Options
  import opened Tables
  import opened DocumentNumbers
  import opened Totals
  import opened Ledger
  import opened LedgerRuns

  // ---------------------------------------------------------------- payments

  /** Operation k records a payment; an amount that rounds to no money is refused. */
  predicate Accepted(ops: seq<Op>, k: nat) { k < |ops| && ops[k].Record? && ops[k].amount > 0 }

  /** Payments are numbered from 1 in the order in which they are accepted. */
  function PaymentId(ops: seq<Op>, k: nat): nat {
    if k == 0 then 1 else PaymentId(ops, k - 1) + if Accepted(ops, k - 1) then 1 else 0
  }

  /** The payment recorded by operation k has not been removed since. */
  predicate Stands(ops: seq<Op>, k: nat) {
    Accepted(ops, k) && forall m :: k < m < |ops| ==> ops[m] != RemovePayment(PaymentId(ops, k))
  }

  /** What is left of operation k for one document. */
  function AmountLeft(ops: seq<Op>, k: nat, invoice: nat): int {
    if Stands(ops, k) && ops[k].invoice == invoice then ops[k].amount else 0
  }

  function AmountsLeft(ops: seq<Op>, invoice: nat): nat -> int { (k: nat) => AmountLeft(ops, k, invoice) }

  function Added(amounts: nat -> int, n: nat): int { if n == 0 then 0 else Added(amounts, n - 1) + amounts(n - 1) }

  /** What all operations paid in for one document, as far as it still stands. */
  function PaidIn(ops: seq<Op>, invoice: nat): int { Added(AmountsLeft(ops, invoice), |ops|) }

  /** The row that is left of operation k, if there is one. */
  function Entry(ops: seq<Op>, k: nat): seq<Row<Payment>> {
    if Stands(ops, k) then [Row(PaymentId(ops, k), Payment(ops[k].invoice, ops[k].amount))] else []
  }

  function Entries(ops: seq<Op>): nat -> seq<Row<Payment>> { (k: nat) => Entry(ops, k) }

  function Joined(parts: nat -> seq<Row<Payment>>, n: nat): seq<Row<Payment>> {
    if n == 0 then [] else Joined(parts, n - 1) + parts(n - 1)
  }

  /** The payments table, row by row. */
  function Payments(ops: seq<Op>, n: nat): seq<Row<Payment>> { Joined(Entries(ops), n) }

  lemma {:induction false} PaymentIdSnoc(ops: seq<Op>, op: Op, k: nat)
    requires k <= |ops|
    ensures PaymentId(ops + [op], k) == PaymentId(ops, k)
  {
    if k > 0 { PaymentIdSnoc(ops, op, k - 1); }
  }

  lemma StandsSnoc(ops: seq<Op>, op: Op, k: nat)
    requires k < |ops|
    ensures Stands(ops + [op], k) <==> Stands(ops, k) && op != RemovePayment(PaymentId(ops, k))
  {
    var all := ops + [op];
    PaymentIdSnoc(ops, op, k);
    if Stands(all, k) {
      assert all[|ops|] == op;
      forall m | k < m < |ops| ensures ops[m] != RemovePayment(PaymentId(ops, k)) { assert all[m] == ops[m]; }
    }
  }

  /** What one more operation leaves of these payments. */
  function Left(rows: seq<Row<Payment>>, op: Op): seq<Row<Payment>> {
    if op.RemovePayment? then Delete(rows, op.id) else rows
  }

  lemma EntrySnoc(ops: seq<Op>, op: Op, k: nat)
    requires k < |ops|
    ensures Entry(ops + [op], k) == Left(Entry(ops, k), op)
  {
    PaymentIdSnoc(ops, op, k);
    StandsSnoc(ops, op, k);
    if op.RemovePayment? && Stands(ops, k) {
      DeleteLast([], Entry(ops, k)[0], op.id);
      assert [] + [Entry(ops, k)[0]] == Entry(ops, k);
    }
  }

  lemma DeleteLast(rows: seq<Row<Payment>>, row: Row<Payment>, id: nat)
    ensures Delete(rows + [row], id) == Delete(rows, id) + if row.id == id then [] else [row]
  {
    assert (rows + [row])[..|rows|] == rows;
  }

  lemma {:induction false} DeleteConcat(a: seq<Row<Payment>>, b: seq<Row<Payment>>, id: nat)
    ensures Delete(a + b, id) == Delete(a, id) + Delete(b, id)
  {
    if |b| == 0 {
      assert a + b == a;
    } else {
      var init, last := b[..|b| - 1], b[|b| - 1];
      assert a + b == (a + init) + [last] && b == init + [last];
      DeleteConcat(a, init, id);
      DeleteLast(a + init, last, id);
      DeleteLast(init, last, id);
    }
  }

  lemma LeftConcat(a: seq<Row<Payment>>, b: seq<Row<Payment>>, op: Op)
    ensures Left(a + b, op) == Left(a, op) + Left(b, op)
  {
    if op.RemovePayment? { DeleteConcat(a, b, op.id); }
  }

  lemma {:induction false} LeftJoined(f: nat -> seq<Row<Payment>>, g: nat -> seq<Row<Payment>>, n: nat, op: Op)
    requires forall k :: 0 <= k < n ==> g(k) == Left(f(k), op)
    ensures Joined(g, n) == Left(Joined(f, n), op)
  {
    if n > 0 {
      LeftJoined(f, g, n - 1, op);
      var a, b, a', b' := Joined(f, n - 1), f(n - 1), Joined(g, n - 1), g(n - 1);
      assert Joined(f, n) == a + b && Joined(g, n) == a' + b';
      LeftParts(a, b, a', b', op);
    }
  }

  lemma LeftParts(a: seq<Row<Payment>>, b: seq<Row<Payment>>, a': seq<Row<Payment>>, b': seq<Row<Payment>>, op: Op)
    requires a' == Left(a, op) && b' == Left(b, op)
    ensures a' + b' == Left(a + b, op)
  {
    LeftConcat(a, b, op);
  }

  /** One more operation leaves the older payments alone, unless it removes one. */
  lemma PaymentsSnoc(ops: seq<Op>, op: Op, n: nat)
    requires n <= |ops|
    ensures Payments(ops + [op], n) == Left(Payments(ops, n), op)
  {
    forall k | 0 <= k < n ensures Entries(ops + [op])(k) == Left(Entries(ops)(k), op) { EntrySnoc(ops, op, k); }
    LeftJoined(Entries(ops), Entries(ops + [op]), n, op);
  }

  /** What an operation does to the payments table; reconciliation does nothing to it. */
  lemma ApplyPayments(b: Books, op: Op)
    ensures var b' := Apply(b, op);
      match op
      case Record(invoice, amount) =>
        && b'.payments == b.payments + (if amount > 0 then [Row(b.nextPayment, Payment(invoice, amount))] else [])
        && b'.nextPayment == b.nextPayment + if amount > 0 then 1 else 0
      case RemovePayment(id) => b'.payments == Delete(b.payments, id) && b'.nextPayment == b.nextPayment
      case _ => b'.payments == b.payments && b'.nextPayment == b.nextPayment
  {
    if op.RemovePayment? && Get(b.payments, op.id).None? { DeleteAbsent(b.payments, op.id); }
  }

  lemma {:induction false} RunPayments(ops: seq<Op>)
    ensures Run(ops).payments == Payments(ops, |ops|) && Run(ops).nextPayment == PaymentId(ops, |ops|)
  {
    if |ops| > 0 {
      var es, op := ops[..|ops| - 1], ops[|ops| - 1];
      assert ops == es + [op];
      RunPayments(es);
      ApplyPayments(Run(es), op);
      PaymentsSnoc(es, op, |es|);
      PaymentIdSnoc(es, op, |es|);
    }
  }

  lemma {:induction false} PaidConcat(a: seq<Row<Payment>>, b: seq<Row<Payment>>, invoice: nat)
    ensures PaidSum(a + b, invoice) == PaidSum(a, invoice) + PaidSum(b, invoice)
  {
    if |b| == 0 {
      assert a + b == a;
    } else {
      var init, last := b[..|b| - 1], b[|b| - 1];
      assert a + b == (a + init) + [last] && b == init + [last];
      PaidConcat(a, init, invoice);
      PaidAppend(a + init, last, invoice);
      PaidAppend(init, last, invoice);
    }
  }

  lemma {:induction false} SumJoined(parts: nat -> seq<Row<Payment>>, amounts: nat -> int, n: nat, invoice: nat)
    requires forall k :: 0 <= k < n ==> PaidSum(parts(k), invoice) == amounts(k)
    ensures PaidSum(Joined(parts, n), invoice) == Added(amounts, n)
  {
    if n > 0 {
      SumJoined(parts, amounts, n - 1, invoice);
      PaidConcat(Joined(parts, n - 1), parts(n - 1), invoice);
    }
  }

  lemma SumOfEntry(ops: seq<Op>, k: nat, invoice: nat)
    ensures PaidSum(Entry(ops, k), invoice) == AmountLeft(ops, k, invoice)
  {
    if Stands(ops, k) {
      PaidAppend([], Entry(ops, k)[0], invoice);
      assert [] + [Entry(ops, k)[0]] == Entry(ops, k);
    }
  }

  /**
   After any history, what counts as paid on a document is the sum of the amounts recorded for it by the
   operations that were accepted and whose payment has not been removed since.
   */
  lemma PaidIsWhatWasRecorded(ops: seq<Op>, invoice: nat)
    ensures PaidSum(Run(ops).payments, invoice) == PaidIn(ops, invoice)
  {
    RunPayments(ops);
    forall k | 0 <= k < |ops| ensures PaidSum(Entries(ops)(k), invoice) == AmountsLeft(ops, invoice)(k) {
      SumOfEntry(ops, k, invoice);
    }
    SumJoined(Entries(ops), AmountsLeft(ops, invoice), |ops|, invoice);
  }

  // ---------------------------------------------------------------- documents

  /** Documents are numbered from 1 in the order in which they are created. */
  function DocumentId(ops: seq<Op>, k: nat): nat {
    if k == 0 then 1 else DocumentId(ops, k - 1) + if k <= |ops| && ops[k - 1].Create? then 1 else 0
  }

  predicate Kept(ops: seq<Op>, k: nat) {
    k < |ops| && ops[k].Create? && forall m :: k < m < |ops| ==> ops[m] != RemoveInvoice(DocumentId(ops, k))
  }

  function KeptId(ops: seq<Op>, k: nat): seq<nat> { if Kept(ops, k) then [DocumentId(ops, k)] else [] }

  function KeptIds(ops: seq<Op>, n: nat): seq<nat> {
    if n == 0 then [] else KeptIds(ops, n - 1) + KeptId(ops, n - 1)
  }

  function Ids(rows: seq<Row<Invoice>>): seq<nat> {
    if |rows| == 0 then [] else Ids(rows[..|rows| - 1]) + [rows[|rows| - 1].id]
  }

  function WithoutId(ids: seq<nat>, id: nat): seq<nat> {
    if |ids| == 0 then []
    else WithoutId(ids[..|ids| - 1], id) + if ids[|ids| - 1] == id then [] else [ids[|ids| - 1]]
  }

  lemma WithoutLast(ids: seq<nat>, last: nat, id: nat)
    ensures WithoutId(ids + [last], id) == WithoutId(ids, id) + if last == id then [] else [last]
  {
    assert (ids + [last])[..|ids|] == ids;
  }

  /** What one more operation leaves of these documents. */
  function LeftIds(ids: seq<nat>, op: Op): seq<nat> { if op.RemoveInvoice? then WithoutId(ids, op.id) else ids }

  lemma IdsLast(rows: seq<Row<Invoice>>, row: Row<Invoice>)
    ensures Ids(rows + [row]) == Ids(rows) + [row.id]
  {
    assert (rows + [row])[..|rows|] == rows;
  }

  lemma {:induction false} IdsDelete(rows: seq<Row<Invoice>>, id: nat)
    ensures Ids(Delete(rows, id)) == WithoutId(Ids(rows), id)
  {
    if |rows| > 0 {
      var init, last := rows[..|rows| - 1], rows[|rows| - 1];
      IdsDelete(init, id);
      WithoutLast(Ids(init), last.id, id);
      if last.id == id {
        assert Delete(init, id) + [] == Delete(init, id) && WithoutId(Ids(init), id) + [] == WithoutId(Ids(init), id);
      } else {
        IdsLast(Delete(init, id), last);
      }
    }
  }

  lemma {:induction false} IdsSame(a: seq<Row<Invoice>>, b: seq<Row<Invoice>>)
    requires |a| == |b| && forall i :: 0 <= i < |a| ==> a[i].id == b[i].id
    ensures Ids(a) == Ids(b)
  {
    if |a| > 0 { IdsSame(a[..|a| - 1], b[..|b| - 1]); }
  }

  lemma ApplyIds(b: Books, op: Op)
    ensures var b', created := Apply(b, op), if op.Create? then [b.nextInvoice] else [];
      Ids(b'.invoices) == LeftIds(Ids(b.invoices), op) + created && b'.nextInvoice == b.nextInvoice + |created|
  {
    match op
    case Create(kind, year, total) =>
      IdsLast(b.invoices, Row(b.nextInvoice, Invoice(kind, NextNumber(b.invoices, kind, year), Draft, total)));
    case RemoveInvoice(id) => IdsDelete(b.invoices, id);
    case _ => OthersKeepIds(b, op);
  }

  lemma OthersKeepIds(b: Books, op: Op)
    requires !op.Create? && !op.RemoveInvoice?
    ensures Ids(Apply(b, op).invoices) == Ids(b.invoices) && Apply(b, op).nextInvoice == b.nextInvoice
  {
    if op.Record? || op.RemovePayment? {
      var mid, t := PaymentStep(b, op), Touched(b, op);
      ApplyPayment(b, op);
      WithStatusIds(mid, t, Paid);
      WithStatusIds(mid, t, Sent);
      assert Reconciled(mid, t) in {mid, WithStatus(mid, t, Paid), WithStatus(mid, t, Sent)};
    } else {
      IdsSame(Apply(b, op).invoices, b.invoices);
    }
  }

  lemma WithStatusIds(b: Books, id: nat, status: Status)
    ensures Ids(WithStatus(b, id, status).invoices) == Ids(b.invoices)
  {
    IdsSame(WithStatus(b, id, status).invoices, b.invoices);
  }

  lemma {:induction false} DocumentIdSnoc(ops: seq<Op>, op: Op, k: nat)
    requires k <= |ops|
    ensures DocumentId(ops + [op], k) == DocumentId(ops, k)
  {
    if k > 0 { DocumentIdSnoc(ops, op, k - 1); }
  }

  lemma KeptSnoc(ops: seq<Op>, op: Op, k: nat)
    requires k < |ops|
    ensures Kept(ops + [op], k) <==> Kept(ops, k) && op != RemoveInvoice(DocumentId(ops, k))
  {
    var all := ops + [op];
    DocumentIdSnoc(ops, op, k);
    if Kept(all, k) {
      assert all[|ops|] == op;
      forall m | k < m < |ops| ensures ops[m] != RemoveInvoice(DocumentId(ops, k)) { assert all[m] == ops[m]; }
    }
  }

  lemma KeptIdSnoc(ops: seq<Op>, op: Op, k: nat, ids: seq<nat>)
    requires k < |ops|
    ensures LeftIds(ids, op) + KeptId(ops + [op], k) == LeftIds(ids + KeptId(ops, k), op)
  {
    DocumentIdSnoc(ops, op, k);
    KeptSnoc(ops, op, k);
    if op.RemoveInvoice? && Kept(ops, k) { WithoutLast(ids, DocumentId(ops, k), op.id); }
    if !Kept(ops, k) { assert ids + KeptId(ops, k) == ids; }
  }

  lemma KeptIdsStep(ops: seq<Op>, k: nat, before: seq<nat>)
    requires KeptIds(ops, k) == before
    ensures KeptIds(ops, k + 1) == before + KeptId(ops, k)
  {
  }

  lemma {:induction false} KeptIdsSnoc(ops: seq<Op>, op: Op, n: nat)
    requires n <= |ops|
    ensures KeptIds(ops + [op], n) == LeftIds(KeptIds(ops, n), op)
  {
    if n > 0 {
      KeptIdsSnoc(ops, op, n - 1);
      KeptIdsGrow(ops, op, n - 1);
    }
  }

  lemma KeptIdsGrow(ops: seq<Op>, op: Op, k: nat)
    requires k < |ops| && KeptIds(ops + [op], k) == LeftIds(KeptIds(ops, k), op)
    ensures KeptIds(ops + [op], k + 1) == LeftIds(KeptIds(ops, k + 1), op)
  {
    var before := KeptIds(ops, k);
    KeptIdsStep(ops, k, before);
    KeptIdsStep(ops + [op], k, LeftIds(before, op));
    KeptIdSnoc(ops, op, k, before);
  }

  /** After any history the table holds exactly the documents created and not removed since, in that order. */
  lemma {:induction false} DocumentsAreThoseKept(ops: seq<Op>)
    ensures Ids(Run(ops).invoices) == KeptIds(ops, |ops|) && Run(ops).nextInvoice == DocumentId(ops, |ops|)
  {
    if |ops| > 0 {
      var es, op := ops[..|ops| - 1], ops[|ops| - 1];
      var n := |es|;
      assert ops == es + [op];
      DocumentsAreThoseKept(es);
      ApplyIds(Run(es), op);
      KeptIdsSnoc(es, op, n);
      KeptIdsStep(ops, n, LeftIds(KeptIds(es, n), op));
      DocumentIdSnoc(es, op, n);
    }
  }

  /** A document's status once so much has been paid on it. */
  function StatusOncePaid(inv: Invoice, paid: int): Status {
    if paid >= inv.total.ttc then Paid else if inv.status == Paid then Sent else inv.status
  }

  /** What one operation makes of one document: nothing but what it is there for. */
  lemma DocumentAfter(b: Books, op: Op, id: nat)
    requires Sound(b)
    ensures var before, b' := Get(b.invoices, id), Apply(b, op);
      Get(b'.invoices, id) ==
        match op
        case Create(kind, year, total) =>
          if id == b.nextInvoice then Some(Invoice(kind, NextNumber(b.invoices, kind, year), Draft, total)) else before
        case RemoveInvoice(gone) => if id == gone then None else before
        case Update(changed, kind, total) =>
          if before.None? || id != changed then before
          else
            Some(Invoice(if kind == "" then before.value.kind else kind, before.value.number, before.value.status,
                         if total.None? then before.value.total else total.value))
        case SetStatus(changed, status) =>
          if before.None? || id != changed then before else Some(before.value.(status := status))
        case _ =>
          if before.None? || id != Touched(b, op) || id == 0 then before
          else Some(before.value.(status := StatusOncePaid(before.value, PaidSum(b'.payments, id))))
  {
    match op
    case Create(kind, year, total) =>
      GetAppend(b.invoices, b.nextInvoice, Invoice(kind, NextNumber(b.invoices, kind, year), Draft, total), id);
    case RemoveInvoice(gone) => GetDelete(b.invoices, b.nextInvoice, gone, id);
    case Update(changed, kind, total) =>
      var g := Get(b.invoices, changed);
      if g.Some? { GetPut(b.invoices, b.nextInvoice, changed, EditedInvoice(g.value, kind, total), id); }
    case SetStatus(changed, status) => GetWithStatus(b, changed, status, id);
    case _ => PaymentAfter(b, op, id);
  }

  lemma ReconciledAt(b: Books, id: nat)
    requires Sound(b) && Get(b.invoices, id).Some?
    ensures var inv := Get(b.invoices, id).value;
      Get(Reconciled(b, id).invoices, id) == Some(inv.(status := StatusOncePaid(inv, PaidSum(b.payments, id))))
  {
    GetWithStatus(b, id, Paid, id);
    GetWithStatus(b, id, Sent, id);
  }

  lemma PaymentAfter(b: Books, op: Op, id: nat)
    requires Sound(b) && (op.Record? || op.RemovePayment?)
    ensures var before, b' := Get(b.invoices, id), Apply(b, op);
      Get(b'.invoices, id) ==
        if before.None? || id != Touched(b, op) || id == 0 then before
        else Some(before.value.(status := StatusOncePaid(before.value, PaidSum(b'.payments, id))))
  {
    var mid, t := PaymentStep(b, op), Touched(b, op);
    PaymentStepSound(b, op);
    ApplyPayment(b, op);
    if t != 0 {
      assert Apply(b, op) == Reconciled(mid, t);
      if id != t {
        ReconciledOther(mid, t, id);
      } else if Get(b.invoices, id).Some? {
        ReconciledAt(mid, id);
        ReconciledSettles(mid, id);
      } else {
        AbsentAfterReconcile(mid, t, id);
      }
    }
  }

  // ---------------------------------------------------------------- consecutive numbers

  /** Nothing is removed, and no update names a kind. */
  predicate OnlyGrows(ops: seq<Op>) {
    forall op :: op in ops ==> !op.RemoveInvoice? && (op.Update? ==> op.newKind == "")
  }

  function CreatedIn(ops: seq<Op>, kind: string, year: nat): nat {
    if |ops| == 0 then 0
    else
      var last := ops[|ops| - 1];
      CreatedIn(ops[..|ops| - 1], kind, year) + if last.Create? && last.kind == kind && last.year == year then 1 else 0
  }

  lemma {:induction false} HighestSame(a: seq<Row<Invoice>>, b: seq<Row<Invoice>>, kind: string, year: nat)
    requires SameSeries(a, b)
    ensures HighestSuffix(a, kind, year) == HighestSuffix(b, kind, year)
  {
    if |a| > 0 { HighestSame(a[..|a| - 1], b[..|b| - 1], kind, year); }
  }

  lemma HighestLast(rows: seq<Row<Invoice>>, row: Row<Invoice>, kind: string, year: nat)
    ensures var rest, m := HighestSuffix(rows, kind, year), Suffix(row.data.number, 0);
      HighestSuffix(rows + [row], kind, year)
        == if InSeries(row.data, kind, year) && m.Some? then Max(rest, m.value) else rest
  {
    assert (rows + [row])[..|rows|] == rows;
  }

  lemma CreatedHighest(b: Books, made: string, madeIn: nat, total: Total, kind: string, year: nat)
    ensures HighestSuffix(Created(b, made, madeIn, total).invoices, kind, year)
      == HighestSuffix(b.invoices, kind, year) + if made == kind && madeIn == year then 1 else 0
  {
    var n := HighestSuffix(b.invoices, made, madeIn) + 1;
    HighestLast(b.invoices, Row(b.nextInvoice, Invoice(made, Number(made, madeIn, n), Draft, total)), kind, year);
    SuffixOfNumber(made, madeIn, n);
    NumberStartsWithStem(made, madeIn, n);
    if made == kind && Stem(kind, year) <= Number(made, madeIn, n) { OneYear(kind, year, madeIn, n); }
  }

  ghost predicate SameSeries(a: seq<Row<Invoice>>, b: seq<Row<Invoice>>) {
    |a| == |b| && forall i :: 0 <= i < |a| ==>
      a[i].data.kind == b[i].data.kind && a[i].data.number == b[i].data.number
  }

  lemma PutSameSeries(b: Books, id: nat, inv: Invoice)
    requires Sound(b) && Get(b.invoices, id).Some?
    requires inv.kind == Get(b.invoices, id).value.kind && inv.number == Get(b.invoices, id).value.number
    ensures SameSeries(Put(b.invoices, id, inv), b.invoices)
  {
    forall i | 0 <= i < |b.invoices| && b.invoices[i].id == id
      ensures Get(b.invoices, id) == Some(b.invoices[i].data)
    {
      GetOwn(b.invoices, b.nextInvoice, b.invoices[i]);
    }
  }

  lemma WithStatusSameSeries(b: Books, id: nat, status: Status)
    requires Sound(b)
    ensures SameSeries(WithStatus(b, id, status).invoices, b.invoices)
  {
    var g := Get(b.invoices, id);
    if g.Some? { PutSameSeries(b, id, g.value.(status := status)); }
  }

  /** Everything but creation, removal and a change of kind leaves kinds and numbers alone, row by row. */
  lemma ApplySameSeries(b: Books, op: Op)
    requires Sound(b) && !op.Create? && !op.RemoveInvoice? && (op.Update? ==> op.newKind == "")
    ensures SameSeries(Apply(b, op).invoices, b.invoices)
  {
    match op
    case Update(id, kind, total) =>
      var g := Get(b.invoices, id);
      if g.Some? { PutSameSeries(b, id, EditedInvoice(g.value, kind, total)); }
    case SetStatus(id, status) => WithStatusSameSeries(b, id, status);
    case Record(_, _) => PaymentSameSeries(b, op);
    case RemovePayment(_) => PaymentSameSeries(b, op);
    case _ =>
  }

  lemma PaymentSameSeries(b: Books, op: Op)
    requires Sound(b) && (op.Record? || op.RemovePayment?)
    ensures SameSeries(Apply(b, op).invoices, b.invoices)
  {
    var mid, t := PaymentStep(b, op), Touched(b, op);
    ApplyPayment(b, op);
    PaymentStepSound(b, op);
    WithStatusSameSeries(mid, t, Paid);
    WithStatusSameSeries(mid, t, Sent);
    assert Reconciled(mid, t) in {mid, WithStatus(mid, t, Paid), WithStatus(mid, t, Sent)};
  }

  lemma ApplyHighest(b: Books, op: Op, kind: string, year: nat)
    requires Sound(b) && !op.RemoveInvoice? && (op.Update? ==> op.newKind == "")
    ensures HighestSuffix(Apply(b, op).invoices, kind, year)
      == HighestSuffix(b.invoices, kind, year) + if op.Create? && op.kind == kind && op.year == year then 1 else 0
  {
    if op.Create? {
      CreatedHighest(b, op.kind, op.year, op.total, kind, year);
    } else {
      ApplySameSeries(b, op);
      HighestSame(Apply(b, op).invoices, b.invoices, kind, year);
    }
  }

  lemma {:induction false} HighestIsCount(ops: seq<Op>, kind: string, year: nat)
    requires OnlyGrows(ops)
    ensures HighestSuffix(Run(ops).invoices, kind, year) == CreatedIn(ops, kind, year)
  {
    if |ops| > 0 {
      var es, op := ops[..|ops| - 1], ops[|ops| - 1];
      assert op in ops;
      HighestIsCount(es, kind, year);
      RunSound(es);
      ApplyHighest(Run(es), op, kind, year);
    }
  }

  /**
   As long as nothing is removed and no kind changed, the documents of a kind and year are numbered 1, 2, 3
   and so on, whatever is created, paid and edited in between.
   */
  lemma NumbersAreConsecutive(ops: seq<Op>, kind: string, year: nat, total: Total)
    requires OnlyGrows(ops)
    ensures var t := Run(ops + [Create(kind, year, total)]);
      |t.invoices| > 0 && t.invoices[|t.invoices| - 1].data.number == Number(kind, year, CreatedIn(ops, kind, year) + 1)
  {
    HighestIsCount(ops, kind, year);
    RunSnoc(ops, Create(kind, year, total));
    LastCreated(Run(ops), kind, year, total);
  }

  lemma LastCreated(b: Books, kind: string, year: nat, total: Total)
    ensures var rows := Created(b, kind, year, total).invoices;
      |rows| > 0 && rows[|rows| - 1].data.number == Number(kind, year, HighestSuffix(b.invoices, kind, year) + 1)
  {
  }
}
