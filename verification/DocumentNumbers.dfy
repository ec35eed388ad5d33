/**
 Document numbers of mobile/src/store/invoicesStore.js: printed as PREFIX-YEAR-NNNN, read back with
 the regular expression `-(\d+)$`.
 */
module DocumentNumbers {
  import opened Options

  function Prefix(kind: string): string { if kind == "invoice" then "FAC" else "DEV" }

  predicate AllDigits(s: string) { forall i :: 0 <= i < |s| ==> IsDigit(s[i]) }

  function Decimal(n: nat): (s: string)
    ensures |s| > 0 && AllDigits(s)
  {
    var digit := [('0' as int + n % 10) as char];
    if n < 10 then digit else Decimal(n / 10) + digit
  }

  function Value(s: string): nat
    requires AllDigits(s)
  {
    if s == "" then 0 else 10 * Value(s[..|s| - 1]) + (s[|s| - 1] as int - '0' as int)
  }

  function PadStart(s: string, width: nat): (r: string)
    ensures AllDigits(s) ==> AllDigits(r)
    ensures |r| == Max(|s|, width)
    decreases width - |s|
  {
    if |s| >= width then s else PadStart("0" + s, width)
  }

  /** PREFIX-YEAR- , also the pattern the query matches with LIKE. */
  function Stem(kind: string, year: nat): string { Prefix(kind) + "-" + Decimal(year) + "-" }

  function Number(kind: string, year: nat, n: nat): string { Stem(kind, year) + PadStart(Decimal(n), 4) }

  predicate MatchesAt(s: string, i: nat) {
    i < |s| && s[i] == '-' && i + 1 < |s| && AllDigits(s[i + 1..])
  }

  /** The leftmost match of `-(\d+)$` at or after position i, as a number. */
  function Suffix(s: string, i: nat): Option<nat>
    requires i <= |s|
    decreases |s| - i
  {
    if i == |s| then None
    else if MatchesAt(s, i) then Some(Value(s[i + 1..]))
    else Suffix(s, i + 1)
  }

  lemma {:induction false} ValueOfDecimal(n: nat)
    ensures Value(Decimal(n)) == n
  {
    var s := Decimal(n);
    if n >= 10 {
      ValueOfDecimal(n / 10);
      assert s[..|s| - 1] == Decimal(n / 10);
    } else {
      assert s[..0] == "";
    }
  }

  lemma {:induction false} LeadingZero(s: string)
    requires AllDigits(s)
    ensures Value("0" + s) == Value(s)
  {
    var z := "0" + s;
    if s == "" {
      assert z[..0] == "";
    } else {
      assert z[..|z| - 1] == "0" + s[..|s| - 1];
      LeadingZero(s[..|s| - 1]);
    }
  }

  lemma {:induction false} ValueOfPadded(s: string, width: nat)
    requires AllDigits(s)
    ensures Value(PadStart(s, width)) == Value(s)
    decreases width - |s|
  {
    if |s| < width {
      ValueOfPadded("0" + s, width);
      LeadingZero(s);
    }
  }

  /** Only the last '-' can start a match: anything further left still has a '-' to its right. */
  lemma {:induction false} SuffixIsLast(stem: string, digits: string, i: nat)
    requires |stem| > 0 && stem[|stem| - 1] == '-' && |digits| > 0 && AllDigits(digits) && i < |stem|
    ensures Suffix(stem + digits, i) == Some(Value(digits))
    decreases |stem| - i
  {
    var s := stem + digits;
    if i == |stem| - 1 {
      assert s[i + 1..] == digits;
    } else {
      assert s[i + 1..][|stem| - 2 - i] == '-';
      assert !MatchesAt(s, i);
      SuffixIsLast(stem, digits, i + 1);
    }
  }

  /** Reading back a printed number gives the number, whatever its size. */
  lemma SuffixOfNumber(kind: string, year: nat, n: nat)
    ensures Suffix(Number(kind, year, n), 0) == Some(n)
  {
    SuffixIsLast(Stem(kind, year), PadStart(Decimal(n), 4), 0);
    ValueOfPadded(Decimal(n), 4);
    ValueOfDecimal(n);
  }

  lemma NumberStartsWithStem(kind: string, year: nat, n: nat)
    ensures Stem(kind, year) <= Number(kind, year, n)
    ensures |Number(kind, year, n)| >= 3 && Number(kind, year, n)[..3] == Prefix(kind)
  {
  }

  // ---------------------------------------------------------------- what a number looks like

  lemma {:induction false} DecimalHasNoLeadingZero(n: nat)
    ensures |Decimal(n)| > 1 ==> Decimal(n)[0] != '0'
  {
    if n >= 10 {
      DecimalHasNoLeadingZero(n / 10);
      if n / 10 < 10 { assert Decimal(n / 10)[0] != '0'; }
    }
  }

  lemma {:induction false} PaddedDigits(s: string, width: nat)
    requires AllDigits(s)
    ensures AllDigits(PadStart(s, width)) && |PadStart(s, width)| == Max(|s|, width)
    ensures |s| >= width ==> PadStart(s, width) == s
    decreases width - |s|
  {
  }

  /**
   FAC for an invoice and DEV for anything else, the year, and the number with at least four digits: padded
   with zeros up to there, and never cut off.
   */
  lemma NumberFormat(kind: string, year: nat, n: nat) returns (y: string, d: string)
    ensures Number(kind, year, n) == (if kind == "invoice" then "FAC-" else "DEV-") + y + "-" + d
    ensures AllDigits(y) && Value(y) == year && (|y| > 1 ==> y[0] != '0')
    ensures AllDigits(d) && Value(d) == n && |d| >= 4 && (|d| > 4 ==> d[0] != '0')
  {
    y, d := Decimal(year), PadStart(Decimal(n), 4);
    ValueOfDecimal(year);
    DecimalHasNoLeadingZero(year);
    ValueOfDecimal(n);
    ValueOfPadded(Decimal(n), 4);
    PaddedDigits(Decimal(n), 4);
    DecimalHasNoLeadingZero(n);
    var p := Prefix(kind);
    assert p + "-" + y + "-" + d == (if kind == "invoice" then "FAC-" else "DEV-") + y + "-" + d;
  }

  /** For example, the seventh invoice of 2024. */
  lemma SeventhInvoice()
    ensures Number("invoice", 2024, 7) == "FAC-2024-0007"
  {
    assert Decimal(2) == "2" && Decimal(20) == "20" && Decimal(202) == "202" && Decimal(2024) == "2024";
    assert PadStart("0007", 4) == "0007" && PadStart("007", 4) == "0007" && PadStart("07", 4) == "0007";
    assert "0" + "7" == "07" && "0" + "07" == "007" && "0" + "007" == "0007";
    assert Decimal(7) == "7";
  }

  /** A number belongs to one year only. */
  lemma OneYear(kind: string, year: nat, other: nat, n: nat)
    requires Stem(kind, year) <= Number(kind, other, n)
    ensures year == other
  {
    var a, b := Decimal(year), Decimal(other);
    var head, tail := Prefix(kind) + "-", "-" + PadStart(Decimal(n), 4);
    var all := Number(kind, other, n);
    assert Stem(kind, year) == head + (a + "-");
    assert all == head + (b + tail);
    assert all[|head|..] == b + tail;
    assert (head + (a + "-"))[|head|..] == a + "-";
    assert a + "-" <= b + tail;
    SameDigits(a, b, tail);
    ValueOfDecimal(year);
    ValueOfDecimal(other);
  }

  lemma {:induction false} SameDigits(a: string, b: string, tail: string)
    requires AllDigits(a) && AllDigits(b) && tail != "" && tail[0] == '-' && a + "-" <= b + tail
    ensures a == b
  {
    var s, t := a + "-", b + tail;
    assert s[0] == t[0];
    assert s[0] == (if a == "" then '-' else a[0]) && t[0] == if b == "" then '-' else b[0];
    if a != "" && b != "" {
      assert s[1..] == a[1..] + "-" && t[1..] == b[1..] + tail;
      SameDigits(a[1..], b[1..], tail);
      assert a == [a[0]] + a[1..] && b == [b[0]] + b[1..];
    }
  }
}
