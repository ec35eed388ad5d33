/**
 A document and the rows below it, over whole histories: what the totals were computed from is what the
 rows were written from, so the two never drift apart.
 */
module LedgerRows {
  import opened Options
  import opened Tables
  import opened Totals
  import opened Ledger
  import LedgerRuns

  /** The operations of the two stores, with the lines a form submits. */
  datatype Op =
    | Create(kind: string, year: nat, lines: seq<Item>)
    | Update(id: nat, newKind: string, newLines: Option<seq<Item>>)
    | RemoveInvoice(id: nat)
    | SetStatus(id: nat, status: Status)
    | Record(invoice: nat, amount: int)
    | RemovePayment(id: nat)

  datatype Store = Store(books: Books, items: seq<StoredItem>)

  /** The same operation as the ledger's own history records it. */
  function Plain(op: Op): LedgerRuns.Op {
    match op
    case Create(kind, year, lines) => LedgerRuns.Create(kind, year, TotalOf(lines))
    case Update(id, kind, lines) =>
      LedgerRuns.Update(id, kind, if lines.Some? then Some(TotalOf(lines.value)) else None)
    case RemoveInvoice(id) => LedgerRuns.RemoveInvoice(id)
    case SetStatus(id, status) => LedgerRuns.SetStatus(id, status)
    case Record(invoice, amount) => LedgerRuns.Record(invoice, amount)
    case RemovePayment(id) => LedgerRuns.RemovePayment(id)
  }

  function Apply(s: Store, op: Op): Store {
    var books := LedgerRuns.Apply(s.books, Plain(op));
    var found := op.Update? && Get(s.books.invoices, op.id).Some?;
    match op
    case Create(_, _, lines) => Store(books, Without(s.items, s.books.nextInvoice) + Stored(s.books.nextInvoice, lines))
    case Update(id, _, lines) =>
      Store(books, if found && lines.Some? then Without(s.items, id) + Stored(id, lines.value) else s.items)
    case RemoveInvoice(id) => Store(books, if Get(s.books.invoices, id).Some? then Without(s.items, id) else s.items)
    case _ => Store(books, s.items)
  }

  function Run(ops: seq<Op>): Store {
    if |ops| == 0 then Store(EMPTY_BOOKS, []) else Apply(Run(ops[..|ops| - 1]), ops[|ops| - 1])
  }

  function RowsOf(items: seq<StoredItem>, id: nat): seq<StoredItem> {
    if |items| == 0 then []
    else
      var row := if items[|items| - 1].invoice == id then [items[|items| - 1]] else [];
      RowsOf(items[..|items| - 1], id) + row
  }

  /** The lines last submitted for each document, as the history of operations tells it. */
  function Submitted(ops: seq<Op>): map<nat, seq<Item>> {
    if |ops| == 0 then map[]
    else
      var before, b := Submitted(ops[..|ops| - 1]), Run(ops[..|ops| - 1]).books;
      match ops[|ops| - 1]
      case Create(_, _, lines) => before[b.nextInvoice := lines]
      case Update(id, _, lines) =>
        if Get(b.invoices, id).Some? && lines.Some? then before[id := lines.value] else before
      case _ => before
  }

  /** The document's totals, and its rows, are those of these lines. */
  ghost predicate Matches(inv: Invoice, rows: seq<StoredItem>, id: nat, lines: seq<Item>) {
    inv.total == TotalOf(lines) && rows == Stored(id, lines)
  }

  ghost predicate RowMatchesLast(s: Store, last: map<nat, seq<Item>>, row: Row<Invoice>) {
    row.id in last && Matches(row.data, RowsOf(s.items, row.id), row.id, last[row.id])
  }

  ghost predicate AllMatch(s: Store, last: map<nat, seq<Item>>) {
    && Sound(s.books)
    && (forall row :: row in s.books.invoices ==> RowMatchesLast(s, last, row))
    && (forall it :: it in s.items ==> Get(s.books.invoices, it.invoice).Some?)
  }

  lemma {:induction false} RowsOfAppend(a: seq<StoredItem>, b: seq<StoredItem>, id: nat)
    ensures RowsOf(a + b, id) == RowsOf(a, id) + RowsOf(b, id)
  {
    if |b| == 0 {
      assert a + b == a;
    } else {
      assert (a + b)[..|a + b| - 1] == a + b[..|b| - 1];
      RowsOfAppend(a, b[..|b| - 1], id);
    }
  }

  lemma {:induction false} RowsOfWithout(items: seq<StoredItem>, gone: nat, id: nat)
    ensures RowsOf(Without(items, gone), id) == if id == gone then [] else RowsOf(items, id)
  {
    if |items| > 0 {
      var init, last := items[..|items| - 1], items[|items| - 1];
      RowsOfWithout(init, gone, id);
      if last.invoice == gone {
        assert Without(init, gone) + [] == Without(init, gone);
        assert RowsOf(init, id) + [] == RowsOf(init, id);
      } else {
        RowsOfLast(Without(init, gone), last, id);
      }
    }
  }

  lemma RowsOfLast(items: seq<StoredItem>, last: StoredItem, id: nat)
    ensures RowsOf(items + [last], id) == RowsOf(items, id) + if last.invoice == id then [last] else []
  {
    assert (items + [last])[..|items|] == items;
  }

  lemma {:induction false} WithoutMembers(items: seq<StoredItem>, gone: nat)
    ensures forall it :: it in Without(items, gone) ==> it in items && it.invoice != gone
  {
    if |items| > 0 { WithoutMembers(items[..|items| - 1], gone); }
  }

  lemma {:induction false} RowsOfStored(owner: nat, lines: seq<Item>, id: nat)
    ensures RowsOf(Stored(owner, lines), id) == if id == owner then Stored(owner, lines) else []
    ensures forall it :: it in Stored(owner, lines) ==> it.invoice == owner
  {
    if |lines| > 0 {
      var init, it := lines[..|lines| - 1], lines[|lines| - 1];
      var row := if it.title == "" then [] else [StoredItem(owner, it, Cents(Line(it)))];
      RowsOfStored(owner, init, id);
      RowsOfAppend(Stored(owner, init), row, id);
      if it.title != "" { assert row[..0] == []; }
    }
  }

  lemma RowsAfterReplace(items: seq<StoredItem>, owner: nat, lines: seq<Item>, id: nat)
    ensures RowsOf(Without(items, owner) + Stored(owner, lines), id)
      == if id == owner then Stored(owner, lines) else RowsOf(items, id)
    ensures forall it :: it in Without(items, owner) + Stored(owner, lines) ==> it.invoice == owner || it in items
  {
    RowsOfAppend(Without(items, owner), Stored(owner, lines), id);
    RowsOfWithout(items, owner, id);
    WithoutMembers(items, owner);
    RowsOfStored(owner, lines, id);
  }

  lemma CreateKeeps(s: Store, last: map<nat, seq<Item>>, kind: string, year: nat, lines: seq<Item>)
    requires AllMatch(s, last)
    ensures AllMatch(Apply(s, Create(kind, year, lines)), last[s.books.nextInvoice := lines])
  {
    var b, t, id := s.books, Apply(s, Create(kind, year, lines)), s.books.nextInvoice;
    LedgerRuns.ApplySound(b, LedgerRuns.Create(kind, year, TotalOf(lines)));
    var inv := Invoice(kind, NextNumber(b.invoices, kind, year), Draft, TotalOf(lines));
    assert t.books.invoices == b.invoices + [Row(id, inv)];
    forall row | row in t.books.invoices ensures RowMatchesLast(t, last[id := lines], row) {
      if row in b.invoices {
        RowAfterReplace(s, last, t, id, lines, row);
      } else {
        RowsAfterReplace(s.items, id, lines, id);
      }
    }
    forall it | it in t.items ensures Get(t.books.invoices, it.invoice).Some? {
      RowsAfterReplace(s.items, id, lines, 0);
      GetAppend(b.invoices, id, inv, it.invoice);
    }
  }

  /** Replacing the rows of one document is nothing to the others. */
  lemma RowAfterReplace(s: Store, last: map<nat, seq<Item>>, t: Store, id: nat, lines: seq<Item>, row: Row<Invoice>)
    requires RowMatchesLast(s, last, row) && row.id != id
    requires t.items == Without(s.items, id) + Stored(id, lines)
    ensures RowMatchesLast(t, last[id := lines], row)
  {
    RowsAfterReplace(s.items, id, lines, row.id);
  }

  lemma UpdateKeeps(s: Store, last: map<nat, seq<Item>>, id: nat, kind: string, lines: Option<seq<Item>>)
    requires AllMatch(s, last) && Get(s.books.invoices, id).Some?
    ensures AllMatch(Apply(s, Update(id, kind, lines)), if lines.Some? then last[id := lines.value] else last)
  {
    var b, t := s.books, Apply(s, Update(id, kind, lines));
    LedgerRuns.ApplySound(b, Plain(Update(id, kind, lines)));
    var was := Get(b.invoices, id).value;
    var inv := EditedInvoice(was, kind, if lines.Some? then Some(TotalOf(lines.value)) else None);
    assert t.books == b.(invoices := Put(b.invoices, id, inv));
    forall row | row in t.books.invoices
      ensures RowMatchesLast(t, if lines.Some? then last[id := lines.value] else last, row)
    {
      PutMember(b.invoices, id, inv, row);
      if row.id != id && lines.Some? {
        RowAfterReplace(s, last, t, id, lines.value, row);
      } else if lines.Some? {
        RowsAfterReplace(s.items, id, lines.value, id);
      } else if row.id == id {
        assert RowMatchesLast(s, last, Row(id, was));
      }
    }
    forall it | it in t.items ensures Get(t.books.invoices, it.invoice).Some? {
      if lines.Some? { RowsAfterReplace(s.items, id, lines.value, id); }
      GetPut(b.invoices, b.nextInvoice, id, inv, it.invoice);
    }
  }

  lemma PutMember(rows: seq<Row<Invoice>>, id: nat, inv: Invoice, row: Row<Invoice>)
    requires row in Put(rows, id, inv) && Get(rows, id).Some?
    ensures if row.id == id then row.data == inv && Row(id, Get(rows, id).value) in rows else row in rows
  {
  }

  lemma RemoveKeeps(s: Store, last: map<nat, seq<Item>>, id: nat)
    requires AllMatch(s, last)
    ensures AllMatch(Apply(s, RemoveInvoice(id)), last)
  {
    var b, t := s.books, Apply(s, RemoveInvoice(id));
    LedgerRuns.ApplySound(b, LedgerRuns.RemoveInvoice(id));
    forall row | row in t.books.invoices ensures RowMatchesLast(t, last, row) {
      RowsOfWithout(s.items, id, row.id);
      assert row in b.invoices;
    }
    forall it | it in t.items ensures Get(t.books.invoices, it.invoice).Some? {
      WithoutMembers(s.items, id);
      GetDelete(b.invoices, b.nextInvoice, id, it.invoice);
      if Get(b.invoices, id).None? { assert it in s.items; }
    }
  }

  /** Statuses and payments leave every document's totals, and its presence, alone. */
  lemma OtherKeepsTotals(b: Books, op: LedgerRuns.Op, id: nat)
    requires Sound(b) && (op.SetStatus? || op.Record? || op.RemovePayment?)
    ensures var g, h := Get(b.invoices, id), Get(LedgerRuns.Apply(b, op).invoices, id);
      g.Some? == h.Some? && (g.Some? ==> g.value.total == h.value.total)
  {
    if op.SetStatus? {
      LedgerRuns.GetWithStatus(b, op.id, op.status, id);
    } else {
      var mid, t := LedgerRuns.PaymentStep(b, op), LedgerRuns.Touched(b, op);
      LedgerRuns.ApplyPayment(b, op);
      LedgerRuns.PaymentStepSound(b, op);
      if t == id { LedgerRuns.ReconciledSettles(mid, id); } else { LedgerRuns.ReconciledOther(mid, t, id); }
    }
  }

  lemma OtherKeeps(s: Store, last: map<nat, seq<Item>>, op: Op)
    requires AllMatch(s, last) && (op.SetStatus? || op.Record? || op.RemovePayment?)
    ensures AllMatch(Apply(s, op), last)
  {
    var b, t := s.books, Apply(s, op);
    LedgerRuns.ApplySound(b, Plain(op));
    forall row | row in t.books.invoices ensures RowMatchesLast(t, last, row) {
      GetOwn(t.books.invoices, t.books.nextInvoice, row);
      OtherKeepsTotals(b, Plain(op), row.id);
      var g := Get(b.invoices, row.id);
      assert RowMatchesLast(s, last, Row(row.id, g.value));
    }
    forall it | it in t.items ensures Get(t.books.invoices, it.invoice).Some? {
      OtherKeepsTotals(b, Plain(op), it.invoice);
    }
  }

  /**
   In every reachable state each document's totals and rows are those of the lines last submitted for it,
   and no row outlives its document.
   */
  lemma {:induction false} RunMatches(ops: seq<Op>)
    ensures AllMatch(Run(ops), Submitted(ops))
  {
    if |ops| > 0 {
      var s, last, op := Run(ops[..|ops| - 1]), Submitted(ops[..|ops| - 1]), ops[|ops| - 1];
      RunMatches(ops[..|ops| - 1]);
      match op
      case Create(kind, year, lines) => CreateKeeps(s, last, kind, year, lines);
      case Update(id, kind, lines) => if Get(s.books.invoices, id).Some? { UpdateKeeps(s, last, id, kind, lines); }
      case RemoveInvoice(id) => RemoveKeeps(s, last, id);
      case _ => OtherKeeps(s, last, op);
    }
  }

  lemma RowMatches(ops: seq<Op>, row: Row<Invoice>) returns (lines: seq<Item>, rows: seq<StoredItem>)
    requires row in Run(ops).books.invoices
    ensures row.id in Submitted(ops) && lines == Submitted(ops)[row.id] && rows == RowsOf(Run(ops).items, row.id)
    ensures row.data.total == TotalOf(lines) && rows == Stored(row.id, lines)
  {
    RunMatches(ops);
    lines, rows := Submitted(ops)[row.id], RowsOf(Run(ops).items, row.id);
    assert RowMatchesLast(Run(ops), Submitted(ops), row);
  }

  /** So over every history a document's total tracks the sum of its stored rows. */
  lemma TotalsTrackRows(ops: seq<Op>, row: Row<Invoice>)
    requires row in Run(ops).books.invoices
    ensures row.id in Submitted(ops)
    ensures var rows := RowsOf(Run(ops).items, row.id);
      Apart(row.data.total.ht, RowTotal(rows), UnlabelledHt(Submitted(ops)[row.id]), |rows|)
  {
    var lines, rows := RowMatches(ops, row);
    TotalNearRows(row.id, lines);
  }

  /** The lines a document shows, as they can be read back from its rows. */
  function ItemsOf(rows: seq<StoredItem>): seq<Item> {
    if |rows| == 0 then [] else ItemsOf(rows[..|rows| - 1]) + [rows[|rows| - 1].item]
  }

  lemma {:induction false} ItemsOfStored(id: nat, lines: seq<Item>)
    ensures SumHt(ItemsOf(Stored(id, lines))) == SumHt(lines) - UnlabelledHt(lines)
    ensures SumTtc(ItemsOf(Stored(id, lines))) == SumTtc(lines) - UnlabelledTtc(lines)
  {
    if |lines| > 0 {
      var init, it := lines[..|lines| - 1], lines[|lines| - 1];
      ItemsOfStored(id, init);
      if it.title == "" {
        assert Stored(id, init) + [] == Stored(id, init);
      } else {
        ItemsOfLast(Stored(id, init), StoredItem(id, it, Cents(Line(it))));
      }
    }
  }

  lemma ItemsOfLast(rows: seq<StoredItem>, row: StoredItem)
    ensures SumHt(ItemsOf(rows + [row])) == SumHt(ItemsOf(rows)) + Line(row.item)
    ensures SumTtc(ItemsOf(rows + [row])) == SumTtc(ItemsOf(rows)) + LineTtc(row.item)
  {
    assert ItemsOf(rows + [row]) == ItemsOf(rows) + [row.item];
  }

  /** The unlabelled lines, taken away, change neither amount by a cent. */
  predicate UnlabelledAreIdle(lines: seq<Item>) {
    && Cents(SumHt(lines) - UnlabelledHt(lines)) == Cents(SumHt(lines))
    && Cents(SumTtc(lines) - UnlabelledTtc(lines)) == Cents(SumTtc(lines))
  }

  /**
   Over every history, totalling a document's rows again gives its stored totals if and only if the unlabelled
   ones of the lines last submitted come to nothing.
   */
  lemma RecomputedFromRowsIff(ops: seq<Op>, row: Row<Invoice>)
    requires row in Run(ops).books.invoices
    ensures row.id in Submitted(ops)
    ensures row.data.total == TotalOf(ItemsOf(RowsOf(Run(ops).items, row.id)))
      <==> UnlabelledAreIdle(Submitted(ops)[row.id])
  {
    var lines, rows := RowMatches(ops, row);
    RecomputedIff(row.id, lines);
  }

  lemma RecomputedIff(id: nat, lines: seq<Item>)
    ensures TotalOf(lines) == TotalOf(ItemsOf(Stored(id, lines))) <==> UnlabelledAreIdle(lines)
  {
    ItemsOfStored(id, lines);
  }

  predicate Labelled(lines: seq<Item>) { forall it :: it in lines ==> it.title != "" }

  /** In particular, with every line labelled nothing but the rows is needed to find the totals again. */
  lemma LabelledTotalsAreOfRows(ops: seq<Op>, row: Row<Invoice>)
    requires row in Run(ops).books.invoices
    ensures row.id in Submitted(ops)
    ensures Labelled(Submitted(ops)[row.id]) ==> row.data.total == TotalOf(ItemsOf(RowsOf(Run(ops).items, row.id)))
  {
    RecomputedFromRowsIff(ops, row);
    var lines := Submitted(ops)[row.id];
    if Labelled(lines) { NothingUnlabelled(lines); }
  }

  lemma {:induction false} NothingUnlabelled(lines: seq<Item>)
    requires Labelled(lines)
    ensures UnlabelledHt(lines) == 0.0 && UnlabelledTtc(lines) == 0.0
  {
    if |lines| > 0 {
      assert lines[|lines| - 1] in lines;
      NothingUnlabelled(lines[..|lines| - 1]);
    }
  }
}
