/**
 Document totals of mobile/src/store/invoicesStore.js over exact rationals. Stored amounts are whole
 cents, so a value the program keeps as `Math.round(x * 100) / 100` is the integer `Cents(x)`.
 */
module Totals {

  /** A line of a document; `title` is the source's label, and an empty one is what `replaceItems` skips. */
  datatype Item = Item(title: string, qty: real, unitPrice: real, tva: real)

  /** A row of `invoice_items`, with its rounded total. */
  datatype StoredItem = StoredItem(invoice: nat, item: Item, total: int)

  datatype Total = Total(ht: int, ttc: int)

  function Line(it: Item): real { it.qty * it.unitPrice }

  function LineTtc(it: Item): real { Line(it) * (1.0 + it.tva / 100.0) }

  /** `Math.round`: to the nearest integer, halves towards positive infinity. */
  function Round(x: real): int { (x + 0.5).Floor }

  function Cents(x: real): int { Round(x * 100.0) }

  function SumHt(items: seq<Item>): real {
    if |items| == 0 then 0.0 else SumHt(items[..|items| - 1]) + Line(items[|items| - 1])
  }

  function SumTtc(items: seq<Item>): real {
    if |items| == 0 then 0.0 else SumTtc(items[..|items| - 1]) + LineTtc(items[|items| - 1])
  }

  /** What all lines come to before tax, unrounded: quantities times prices. */
  function ExactHt(items: seq<Item>): real {
    if |items| == 0 then 0.0
    else ExactHt(items[..|items| - 1]) + items[|items| - 1].qty * items[|items| - 1].unitPrice
  }

  /** The VAT owed on all lines, unrounded: each at its own rate in percent. */
  function ExactVat(items: seq<Item>): real {
    if |items| == 0 then 0.0
    else
      var it := items[|items| - 1];
      ExactVat(items[..|items| - 1]) + it.qty * it.unitPrice * it.tva / 100.0
  }

  function TotalOf(items: seq<Item>): Total { Total(Cents(SumHt(items)), Cents(SumTtc(items))) }

  method ComputeTotals(items: seq<Item>) returns (total: Total)
    ensures total == TotalOf(items)
  {
    var ht, ttc := 0.0, 0.0;
    for i := 0 to |items|
      invariant ht == SumHt(items[..i]) && ttc == SumTtc(items[..i])
    {
      var line := items[i].qty * items[i].unitPrice;
      assert items[..i + 1][..i] == items[..i];
      ht := ht + line;
      ttc := ttc + line * (1.0 + items[i].tva / 100.0);
    }
    assert items[..|items|] == items;
    return Total(Round(ht * 100.0), Round(ttc * 100.0));
  }

  // ---------------------------------------------------------------- rows of a document

  /** The rows `replaceItems` writes: labelled lines only, each rounded on its own. */
  function Stored(invoice: nat, items: seq<Item>): seq<StoredItem> {
    if |items| == 0 then []
    else
      var it := items[|items| - 1];
      var row := if it.title == "" then [] else [StoredItem(invoice, it, Cents(Line(it)))];
      Stored(invoice, items[..|items| - 1]) + row
  }

  function Without(rows: seq<StoredItem>, invoice: nat): seq<StoredItem> {
    if |rows| == 0 then []
    else
      var kept := if rows[|rows| - 1].invoice == invoice then [] else [rows[|rows| - 1]];
      Without(rows[..|rows| - 1], invoice) + kept
  }

  function RowTotal(rows: seq<StoredItem>): int {
    if |rows| == 0 then 0 else RowTotal(rows[..|rows| - 1]) + rows[|rows| - 1].total
  }

  /** What the unlabelled lines would have added before tax. */
  function UnlabelledHt(items: seq<Item>): real {
    if |items| == 0 then 0.0
    else UnlabelledHt(items[..|items| - 1]) + if items[|items| - 1].title == "" then Line(items[|items| - 1]) else 0.0
  }

  function UnlabelledTtc(items: seq<Item>): real {
    if |items| == 0 then 0.0
    else
      var last := items[|items| - 1];
      UnlabelledTtc(items[..|items| - 1]) + if last.title == "" then LineTtc(last) else 0.0
  }

  function Abs(x: real): real { if x < 0.0 then -x else x }

  /** The nearest whole number, and the larger of two that are as near. */
  predicate Nearest(n: int, x: real) { -0.5 < n as real - x <= 0.5 }

  lemma RoundNear(x: real)
    ensures Nearest(Round(x), x)
    ensures forall n: int :: Nearest(n, x) ==> n == Round(x)
  {
  }

  lemma SumsStep(items: seq<Item>, it: Item)
    ensures SumHt(items + [it]) == SumHt(items) + Line(it)
    ensures UnlabelledHt(items + [it]) == UnlabelledHt(items) + if it.title == "" then Line(it) else 0.0
  {
  }

  lemma StoredStep(invoice: nat, items: seq<Item>, it: Item)
    ensures Stored(invoice, items + [it])
      == Stored(invoice, items) + if it.title == "" then [] else [StoredItem(invoice, it, Cents(Line(it)))]
  {
  }

  lemma RowTotalStep(rows: seq<StoredItem>, row: StoredItem)
    ensures RowTotal(rows + [row]) == RowTotal(rows) + row.total
  {
  }

  /** How far a number of rounded rows may be from the exact amount they stand for. */
  ghost predicate Near(total: int, exact: real, rows: nat) {
    Abs(total as real - 100.0 * exact) <= rows as real / 2.0
  }

  lemma CentsNear(x: real)
    ensures Near(Cents(x), x, 1)
  {
  }

  lemma NearAdd(a: int, x: real, m: nat, b: int, y: real, n: nat)
    requires Near(a, x, m) && Near(b, y, n)
    ensures Near(a + b, x + y, m + n)
  {
  }

  lemma {:induction false} RowsNearLines(invoice: nat, items: seq<Item>)
    ensures Near(RowTotal(Stored(invoice, items)), SumHt(items) - UnlabelledHt(items), |Stored(invoice, items)|)
  {
    if |items| > 0 {
      var init, it := items[..|items| - 1], items[|items| - 1];
      RowsNearLines(invoice, init);
      RowsStep(invoice, init, it, Line(it));
      assert items == init + [it];
    }
  }

  lemma RowsStep(invoice: nat, items: seq<Item>, it: Item, line: real)
    requires line == Line(it)
    requires Near(RowTotal(Stored(invoice, items)), SumHt(items) - UnlabelledHt(items), |Stored(invoice, items)|)
    ensures var all := items + [it];
      Near(RowTotal(Stored(invoice, all)), SumHt(all) - UnlabelledHt(all), |Stored(invoice, all)|)
  {
    var rows, exact := Stored(invoice, items), SumHt(items) - UnlabelledHt(items);
    SumsStep(items, it);
    StoredStep(invoice, items, it);
    if it.title != "" {
      RowTotalStep(rows, StoredItem(invoice, it, Cents(line)));
      CentsNear(line);
      NearAdd(RowTotal(rows), exact, |rows|, Cents(line), line, 1);
      assert SumHt(items + [it]) - UnlabelledHt(items + [it]) == exact + line;
    } else {
      assert rows + [] == rows;
    }
  }

  /** Half a cent per rounded row, half a cent for the rounded total, and the whole of what was skipped. */
  ghost predicate Apart(total: int, rowTotal: int, skipped: real, rows: nat) {
    Abs(total as real - rowTotal as real - 100.0 * skipped) <= (rows + 1) as real / 2.0
  }

  /**
   The document total and the rows below it: they differ by what the unlabelled lines are worth, give
   or take half a cent per row and half a cent for the total.
   */
  lemma TotalNearRows(invoice: nat, items: seq<Item>)
    ensures var rows := Stored(invoice, items);
      Apart(TotalOf(items).ht, RowTotal(rows), UnlabelledHt(items), |rows|)
  {
    var rows := Stored(invoice, items);
    RowsNearLines(invoice, items);
    CentsNear(SumHt(items));
    NearDiff(TotalOf(items).ht, SumHt(items), RowTotal(rows), UnlabelledHt(items), |rows|);
  }

  lemma NearDiff(total: int, exact: real, rows: int, skipped: real, n: nat)
    requires Near(total, exact, 1) && Near(rows, exact - skipped, n)
    ensures Apart(total, rows, skipped, n)
  {
  }

  lemma {:induction false} TtcSplits(items: seq<Item>)
    ensures SumHt(items) == ExactHt(items) && SumTtc(items) == ExactHt(items) + ExactVat(items)
  {
    if |items| > 0 {
      var it := items[|items| - 1];
      TtcSplits(items[..|items| - 1]);
      assert LineTtc(it) == Line(it) + Line(it) * (it.tva / 100.0);
    }
  }

  /** Both totals are the exact amounts, rounded to the nearest cent. */
  lemma TotalsAreExactRounded(items: seq<Item>)
    ensures Nearest(TotalOf(items).ht, 100.0 * ExactHt(items))
    ensures Nearest(TotalOf(items).ttc, 100.0 * (ExactHt(items) + ExactVat(items)))
  {
    TtcSplits(items);
    RoundNear(SumHt(items) * 100.0);
    RoundNear(SumTtc(items) * 100.0);
  }

  /** The VAT a document shows is within one cent of the exact VAT. */
  lemma ShownVatNearExact(items: seq<Item>)
    ensures Abs((TotalOf(items).ttc - TotalOf(items).ht) as real - 100.0 * ExactVat(items)) <= 1.0
  {
    TotalsAreExactRounded(items);
  }

  function LabelledOf(items: seq<Item>): seq<Item> {
    if |items| == 0 then []
    else LabelledOf(items[..|items| - 1]) + if items[|items| - 1].title == "" then [] else [items[|items| - 1]]
  }

  /**
   The rows written for a document are its labelled lines, in order and as they are, each with its own amount
   rounded to the nearest cent.
   */
  lemma {:induction false} RowsAreLabelledLines(invoice: nat, items: seq<Item>)
    ensures |Stored(invoice, items)| == |LabelledOf(items)|
    ensures forall k :: 0 <= k < |LabelledOf(items)| ==>
      IsRowOf(Stored(invoice, items)[k], invoice, LabelledOf(items)[k])
  {
    if |items| > 0 {
      RowsAreLabelledLines(invoice, items[..|items| - 1]);
      RowOfLine(invoice, items[|items| - 1]);
    }
  }

  predicate IsRowOf(row: StoredItem, invoice: nat, it: Item) {
    row.invoice == invoice && row.item == it && Nearest(row.total, 100.0 * (it.qty * it.unitPrice))
  }

  lemma RowOfLine(invoice: nat, it: Item)
    ensures IsRowOf(StoredItem(invoice, it, Cents(Line(it))), invoice, it)
  {
    RoundNear(Line(it) * 100.0);
  }

  /** A line without a label, wherever it stands, is charged in both totals and changes no row. */
  lemma UnlabelledLineIsCharged(invoice: nat, before: seq<Item>, it: Item, after: seq<Item>)
    requires it.title == ""
    ensures var all, others := before + [it] + after, before + after;
      && Stored(invoice, all) == Stored(invoice, others)
      && TotalOf(all) == Total(Cents(SumHt(others) + Line(it)), Cents(SumTtc(others) + LineTtc(it)))
  {
    Spliced(invoice, before, it, after);
  }

  lemma {:induction false} Spliced(invoice: nat, before: seq<Item>, it: Item, after: seq<Item>)
    requires it.title == ""
    ensures var all, others := before + [it] + after, before + after;
      && Stored(invoice, all) == Stored(invoice, others)
      && SumHt(all) == SumHt(others) + Line(it) && SumTtc(all) == SumTtc(others) + LineTtc(it)
  {
    var all, others := before + [it] + after, before + after;
    if |after| == 0 {
      assert all[..|all| - 1] == before && others == before;
      assert Stored(invoice, before) + [] == Stored(invoice, before);
    } else {
      var init := after[..|after| - 1];
      assert all[..|all| - 1] == before + [it] + init && others[..|others| - 1] == before + init;
      Spliced(invoice, before, it, init);
    }
  }
}
