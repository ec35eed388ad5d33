/**
 Invoices and payments: mobile/src/store/invoicesStore.js and paymentsStore.js over one database,
 one operation at a time.
 */
module Ledger {
  import opened Options
  import opened Tables
  import opened DocumentNumbers
  import opened Totals

  /** The status strings of quotes and invoices; the program stores any other string just as well. */
  datatype Status = Draft | Sent | Accepted | Rejected | Paid | Overdue | Cancelled | Other(text: string)

  /** Amounts are in cents. */
  datatype Invoice = Invoice(kind: string, number: string, status: Status, total: Total)

  /** `invoice` is 0 for a payment that is tied to no invoice. */
  datatype Payment = Payment(invoice: nat, amount: int)

  datatype Books = Books(invoices: seq<Row<Invoice>>, nextInvoice: nat, payments: seq<Row<Payment>>, nextPayment: nat)

  const EMPTY_BOOKS := Books([], 1, [], 1)

  // ---------------------------------------------------------------- specification of the operations

  predicate InSeries(inv: Invoice, kind: string, year: nat) {
    inv.kind == kind && Stem(kind, year) <= inv.number
  }

  /** The highest suffix in use for a kind and year, 0 if there is none. */
  function HighestSuffix(rows: seq<Row<Invoice>>, kind: string, year: nat): nat {
    if |rows| == 0 then 0
    else
      var rest := HighestSuffix(rows[..|rows| - 1], kind, year);
      var inv := rows[|rows| - 1].data;
      var m := Suffix(inv.number, 0);
      if InSeries(inv, kind, year) && m.Some? then Max(rest, m.value) else rest
  }

  function NextNumber(rows: seq<Row<Invoice>>, kind: string, year: nat): string {
    Number(kind, year, HighestSuffix(rows, kind, year) + 1)
  }

  function PaidSum(payments: seq<Row<Payment>>, invoice: nat): int {
    if |payments| == 0 then 0
    else
      var last := payments[|payments| - 1].data;
      PaidSum(payments[..|payments| - 1], invoice) + (if last.invoice == invoice then last.amount else 0)
  }

  function Created(b: Books, kind: string, year: nat, total: Total): Books {
    var inv := Invoice(kind, NextNumber(b.invoices, kind, year), Draft, total);
    b.(invoices := b.invoices + [Row(b.nextInvoice, inv)], nextInvoice := b.nextInvoice + 1)
  }

  function WithStatus(b: Books, id: nat, status: Status): Books {
    match Get(b.invoices, id)
    case None => b
    case Some(inv) => b.(invoices := Put(b.invoices, id, inv.(status := status)))
  }

  function EditedInvoice(inv: Invoice, kind: string, total: Option<Total>): Invoice {
    inv.(kind := if kind == "" then inv.kind else kind, total := if total.Some? then total.value else inv.total)
  }

  function Edited(b: Books, id: nat, kind: string, total: Option<Total>): Books {
    match Get(b.invoices, id)
    case None => b
    case Some(inv) => b.(invoices := Put(b.invoices, id, EditedInvoice(inv, kind, total)))
  }

  function InvoiceRemoved(b: Books, id: nat): Books { b.(invoices := Delete(b.invoices, id)) }

  /** An existing invoice is paid exactly when its payments reach its total; otherwise a paid one goes back to sent. */
  function Reconciled(b: Books, id: nat): Books {
    match Get(b.invoices, id)
    case None => b
    case Some(inv) =>
      if PaidSum(b.payments, id) >= inv.total.ttc then WithStatus(b, id, Paid)
      else if inv.status == Paid then WithStatus(b, id, Sent)
      else b
  }

  function PaymentAdded(b: Books, invoice: nat, amount: int): Books {
    b.(payments := b.payments + [Row(b.nextPayment, Payment(invoice, amount))], nextPayment := b.nextPayment + 1)
  }

  function PaymentDropped(b: Books, id: nat): Books { b.(payments := Delete(b.payments, id)) }

  /** A payment that rounds to no money is refused; one tied to no invoice settles nothing. */
  function Recorded(b: Books, invoice: nat, amount: int): Books {
    if amount <= 0 then b
    else if invoice == 0 then PaymentAdded(b, invoice, amount)
    else Reconciled(PaymentAdded(b, invoice, amount), invoice)
  }

  function PaymentRemoved(b: Books, id: nat): Books {
    match Get(b.payments, id)
    case None => b
    case Some(p) =>
      if p.invoice == 0 then PaymentDropped(b, id) else Reconciled(PaymentDropped(b, id), p.invoice)
  }

  ghost predicate Sound(b: Books) { Keyed(b.invoices, b.nextInvoice) && Keyed(b.payments, b.nextPayment)
                                    && b.nextInvoice > 0 && b.nextPayment > 0 }

  // ---------------------------------------------------------------- the program

  datatype OpenInvoice = OpenInvoice(id: nat, remaining: int)

  predicate IsOpen(inv: Invoice) { inv.kind == "invoice" && inv.status in {Draft, Sent, Overdue} }

  function Outstanding(payments: seq<Row<Payment>>, row: Row<Invoice>): OpenInvoice {
    OpenInvoice(row.id, row.data.total.ttc - PaidSum(payments, row.id))
  }

  class Database {
    var invoices: seq<Row<Invoice>>
    var nextInvoice: nat
    var items: seq<StoredItem>
    var payments: seq<Row<Payment>>
    var nextPayment: nat

    ghost function Contents(): Books
      reads this
    {
      Books(invoices, nextInvoice, payments, nextPayment)
    }

    constructor ()
      ensures Contents() == EMPTY_BOOKS && items == []
    {
      invoices, nextInvoice, items, payments, nextPayment := [], 1, [], [], 1;
    }

    method Next(kind: string, year: nat) returns (number: string)
      ensures number == NextNumber(invoices, kind, year)
    {
      var max: nat := 0;
      for i := 0 to |invoices|
        invariant max == HighestSuffix(invoices[..i], kind, year)
      {
        assert invoices[..i + 1][..i] == invoices[..i];
        var inv := invoices[i].data;
        if InSeries(inv, kind, year) {
          var m := Suffix(inv.number, 0);
          if m.Some? { max := Max(max, m.value); }
        }
      }
      assert invoices[..|invoices|] == invoices;
      return Number(kind, year, max + 1);
    }

    method ReplaceItems(id: nat, lines: seq<Item>)
      modifies this`items
      ensures items == Without(old(items), id) + Stored(id, lines)
    {
      items := Without(items, id);
      ghost var kept := items;
      for i := 0 to |lines|
        invariant items == kept + Stored(id, lines[..i])
      {
        assert lines[..i + 1] == lines[..i] + [lines[i]];
        StoredStep(id, lines[..i], lines[i]);
        if lines[i].title != "" {
          items := items + [StoredItem(id, lines[i], Cents(Line(lines[i])))];
        }
      }
      assert lines[..|lines|] == lines;
    }

    method Create(kind: string, year: nat, lines: seq<Item>) returns (id: nat)
      modifies this
      ensures Contents() == Created(old(Contents()), kind, year, TotalOf(lines))
      ensures id == old(nextInvoice) && items == Without(old(items), id) + Stored(id, lines)
    {
      var total := ComputeTotals(lines);
      var number := Next(kind, year);
      id := nextInvoice;
      invoices := invoices + [Row(id, Invoice(kind, number, Draft, total))];
      nextInvoice := nextInvoice + 1;
      ReplaceItems(id, lines);
    }

    method Update(id: nat, kind: string, lines: Option<seq<Item>>) returns (found: bool)
      modifies this
      ensures Contents() == Edited(old(Contents()), id, kind, if lines.Some? then Some(TotalOf(lines.value)) else None)
      ensures found == Get(old(invoices), id).Some?
      ensures items == if found && lines.Some? then Without(old(items), id) + Stored(id, lines.value) else old(items)
    {
      var current := Get(invoices, id);
      if current.None? { return false; }
      var newKind := if kind == "" then current.value.kind else kind;
      var total := current.value.total;
      if lines.Some? { total := ComputeTotals(lines.value); }
      invoices := Put(invoices, id, current.value.(kind := newKind, total := total));
      if lines.Some? { ReplaceItems(id, lines.value); }
      return true;
    }

    method SetStatus(id: nat, status: Status)
      requires Keyed(invoices, nextInvoice)
      modifies this`invoices
      ensures Contents() == WithStatus(old(Contents()), id, status)
    {
      var inv := Get(invoices, id);
      if inv.None? { return; }
      if inv.value.status == status {
        PutSame(invoices, nextInvoice, id);
        return;
      }
      invoices := Put(invoices, id, inv.value.(status := status));
    }

    method RemoveInvoice(id: nat)
      modifies this
      ensures Contents() == InvoiceRemoved(old(Contents()), id)
      ensures items == if Get(old(invoices), id).Some? then Without(old(items), id) else old(items)
    {
      if Get(invoices, id).None? {
        DeleteAbsent(invoices, id);
        return;
      }
      items := Without(items, id);
      invoices := Delete(invoices, id);
    }

    method ReconcileInvoice(id: nat)
      requires Keyed(invoices, nextInvoice)
      modifies this`invoices
      ensures Contents() == if id == 0 then old(Contents()) else Reconciled(old(Contents()), id)
    {
      if id == 0 { return; }
      var inv := Get(invoices, id);
      if inv.None? { return; }
      var paid := PaidSum(payments, id);
      if paid >= inv.value.total.ttc && inv.value.status != Paid {
        SetStatus(id, Paid);
      } else if paid < inv.value.total.ttc && inv.value.status == Paid {
        SetStatus(id, Sent);
      } else if paid >= inv.value.total.ttc {
        PutSame(invoices, nextInvoice, id);
      }
    }

    /** Returns the new payment's id, or nothing for an amount that rounds to no money (the program throws). */
    method Record(invoice: nat, amount: real) returns (id: Option<nat>)
      requires Keyed(invoices, nextInvoice)
      modifies this
      ensures Contents() == Recorded(old(Contents()), invoice, Cents(amount))
      ensures id == (if Cents(amount) <= 0 then None else Some(old(nextPayment))) && items == old(items)
    {
      var amt := Cents(amount);
      if amt <= 0 { return None; }
      id := Some(nextPayment);
      payments := payments + [Row(nextPayment, Payment(invoice, amt))];
      nextPayment := nextPayment + 1;
      ReconcileInvoice(invoice);
    }

    method RemovePayment(id: nat)
      requires Keyed(invoices, nextInvoice)
      modifies this
      ensures Contents() == PaymentRemoved(old(Contents()), id) && items == old(items)
    {
      var p := Get(payments, id);
      if p.None? { return; }
      payments := Delete(payments, id);
      ReconcileInvoice(p.value.invoice);
    }

    /** Each open invoice once, with what is left to pay on it. */
    method ListOpenInvoices() returns (open: seq<OpenInvoice>)
      requires Keyed(invoices, nextInvoice)
      ensures forall o :: o in open <==>
        exists row :: row in invoices && row.data.kind == "invoice" && row.data.status in {Draft, Sent, Overdue}
          && o == OpenInvoice(row.id, row.data.total.ttc - PaidSum(payments, row.id))
      ensures forall i, j :: 0 <= i < j < |open| ==> open[i].id != open[j].id
    {
      open := [];
      for i := 0 to |invoices|
        invariant forall o :: o in open <==>
          exists row :: row in invoices[..i] && IsOpen(row.data) && o == Outstanding(payments, row)
        invariant forall j :: 0 <= j < |open| ==> forall k :: i <= k < |invoices| ==> open[j].id < invoices[k].id
        invariant forall j, k :: 0 <= j < k < |open| ==> open[j].id != open[k].id
      {
        var row := invoices[i];
        assert invoices[..i + 1] == invoices[..i] + [row];
        if IsOpen(row.data) {
          open := open + [Outstanding(payments, row)];
        }
      }
      assert invoices[..|invoices|] == invoices;
    }
  }

  lemma PutSame(rows: seq<Row<Invoice>>, next: nat, id: nat)
    requires Keyed(rows, next) && Get(rows, id).Some?
    ensures Put(rows, id, Get(rows, id).value) == rows
  {
  }
}
