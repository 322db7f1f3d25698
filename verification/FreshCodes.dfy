/** Numbered codes: zero-padded printing, searches for an unused code, and generated SKUs. */
module FreshCodes {
  import opened Options

  // ---- Printing and reading numbers ----

  predicate IsDigit(c: char) { '0' <= c <= '9' }

  predicate AllDigits(s: string) {
    forall i :: 0 <= i < |s| ==> IsDigit(s[i])
  }

  function DigitOf(n: nat): char
    requires n < 10
  {
    '0' + n as char
  }

  /** Decimal notation without leading zeros. */
  function Print(n: nat): (s: string)
    ensures |s| >= 1 && AllDigits(s)
  {
    if n < 10 then [DigitOf(n)] else Print(n / 10) + [DigitOf(n % 10)]
  }

  function Read(s: string): nat
    requires AllDigits(s)
  {
    if s == "" then 0 else 10 * Read(s[..|s| - 1]) + (s[|s| - 1] - '0') as nat
  }

  function Pad(s: string, width: nat): string
    decreases width - |s|
  {
    if |s| >= width then s else Pad("0" + s, width)
  }

  lemma {:induction false} ReadPrinted(n: nat)
    ensures Read(Print(n)) == n
  {
    if n < 10 {
      assert [DigitOf(n)][..0] == "";
    } else {
      ReadPrinted(n / 10);
      assert Print(n)[..|Print(n)| - 1] == Print(n / 10);
    }
  }

  lemma {:induction false} ReadLeadingZero(s: string)
    requires AllDigits(s)
    ensures AllDigits("0" + s) && Read("0" + s) == Read(s)
  {
    var z := "0" + s;
    if s == "" {
      assert z[..0] == "" && z[0] == '0';
    } else {
      ReadLeadingZero(s[..|s| - 1]);
      assert z[..|z| - 1] == "0" + s[..|s| - 1];
    }
  }

  /** Padding changes neither what is read nor that there are only digits. */
  lemma {:induction false} ReadPadded(s: string, width: nat)
    requires AllDigits(s)
    ensures AllDigits(Pad(s, width)) && Read(Pad(s, width)) == Read(s) && |Pad(s, width)| >= |s|
    decreases width - |s|
  {
    if |s| < width {
      ReadLeadingZero(s);
      ReadPadded("0" + s, width);
    }
  }

  // ---- Codes ----

  const DASH := "-"

  /** `PREFIX-000001`. */
  function Code(prefix: string, n: nat): string {
    prefix + DASH + Pad(Print(n), 6)
  }

  /** Different numbers print to different codes. */
  lemma CodesDiffer(prefix: string, m: nat, n: nat)
    requires Code(prefix, m) == Code(prefix, n)
    ensures m == n
  {
    var head := prefix + DASH;
    assert Code(prefix, m)[|head|..] == Pad(Print(m), 6);
    assert Code(prefix, n)[|head|..] == Pad(Print(n), 6);
    ReadPadded(Print(m), 6);
    ReadPadded(Print(n), 6);
    ReadPrinted(m);
    ReadPrinted(n);
  }

  ghost predicate NumberedFrom(prefix: string, s: string, n: nat) {
    exists k: nat :: k >= n && s == Code(prefix, k)
  }

  /** The used codes a search that has reached `n` can still meet. */
  ghost function Ahead(used: set<string>, prefix: string, n: nat): set<string> {
    set s | s in used && NumberedFrom(prefix, s, n)
  }

  lemma OneLessAhead(used: set<string>, prefix: string, n: nat)
    requires Code(prefix, n) in used
    ensures |Ahead(used, prefix, n + 1)| < |Ahead(used, prefix, n)|
  {
    var met := Code(prefix, n);
    assert NumberedFrom(prefix, met, n);
    if NumberedFrom(prefix, met, n + 1) {
      var k: nat :| k >= n + 1 && met == Code(prefix, k);
      CodesDiffer(prefix, n, k);
    }
    assert Ahead(used, prefix, n + 1) <= Ahead(used, prefix, n) - {met} by {
      forall s | s in Ahead(used, prefix, n + 1)
        ensures NumberedFrom(prefix, s, n)
      {
        var k: nat :| k >= n + 1 && s == Code(prefix, k);
      }
    }
    SubsetIsSmaller(Ahead(used, prefix, n + 1), Ahead(used, prefix, n) - {met});
  }

  lemma SubsetIsSmaller(a: set<string>, b: set<string>)
    requires a <= b
    ensures |a| <= |b|
    decreases a
  {
    if a != {} {
      var x :| x in a;
      SubsetIsSmaller(a - {x}, b - {x});
    }
  }

  /**
   The search of transfer, adjustment, count and expense numbers: from one past the row count to the
   first unused code. At most one more candidate is looked at than there are used codes.
   */
  method NextNumber(used: set<string>, count: nat, prefix: string) returns (code: string, n: nat)
    ensures code == Code(prefix, n) && code !in used
    ensures count < n <= count + 1 + |used|
    ensures forall k :: count < k < n ==> Code(prefix, k) in used
  {
    n := count + 1;
    SubsetIsSmaller(Ahead(used, prefix, n), used);
    while Code(prefix, n) in used
      invariant count < n
      invariant n + |Ahead(used, prefix, n)| <= count + 1 + |used|
      invariant forall k :: count < k < n ==> Code(prefix, k) in used
      decreases |Ahead(used, prefix, n)|
    {
      OneLessAhead(used, prefix, n);
      n := n + 1;
    }
    code := Code(prefix, n);
  }

  // ---- Numbers of generated expenses ----

  function RecurringNumber(year: nat, month: nat, template: nat): string {
    "REC-" + Print(year) + Pad(Print(month), 2) + DASH + Print(template)
  }

  lemma SplitsAtDash(a: string, b: string, c: string, d: string)
    requires a + DASH + b == c + DASH + d
    requires '-' !in a && '-' !in c
    ensures a == c && b == d
  {
    var s := a + DASH + b;
    assert s[|a|] == '-' && s[|c|] == '-';
    assert forall i :: 0 <= i < |a| ==> s[i] in a;
    assert forall i :: 0 <= i < |c| ==> s[i] in c;
    assert s[..|a|] == a && s[..|c|] == c;
    assert s[|a| + 1..] == b && s[|c| + 1..] == d;
  }

  lemma TwoDigits(m: nat)
    requires 1 <= m <= 12
    ensures |Pad(Print(m), 2)| == 2 && AllDigits(Pad(Print(m), 2)) && Read(Pad(Print(m), 2)) == m
  {
    ReadPadded(Print(m), 2);
    ReadPrinted(m);
    if m < 10 {
      assert |Print(m)| == 1;
      assert Pad(Print(m), 2) == "0" + Print(m);
    } else {
      assert |Print(m / 10)| == 1;
    }
  }

  function YearAndMonth(year: nat, month: nat): string {
    Print(year) + Pad(Print(month), 2)
  }

  lemma YearAndMonthDiffer(y: nat, m: nat, y': nat, m': nat)
    requires 1 <= m <= 12 && 1 <= m' <= 12 && YearAndMonth(y, m) == YearAndMonth(y', m')
    ensures y == y' && m == m'
  {
    TwoDigits(m);
    TwoDigits(m');
    var a := YearAndMonth(y, m);
    assert a[..|a| - 2] == Print(y) && a[..|a| - 2] == Print(y');
    assert a[|a| - 2..] == Pad(Print(m), 2) && a[|a| - 2..] == Pad(Print(m'), 2);
    ReadPrinted(y);
    ReadPrinted(y');
  }

  lemma NoDashInDigits(year: nat, month: nat)
    requires 1 <= month <= 12
    ensures '-' !in YearAndMonth(year, month)
  {
    TwoDigits(month);
  }

  lemma AfterHead(year: nat, month: nat, template: nat)
    ensures RecurringNumber(year, month, template)[4..] == YearAndMonth(year, month) + DASH + Print(template)
  {
    assert RecurringNumber(year, month, template) == "REC-" + (YearAndMonth(year, month) + DASH + Print(template));
  }

  /** No two pairs of template and month share a number, so the unique constraint on numbers never stops generation. */
  lemma RecurringNumbersDiffer(y: nat, m: nat, t: nat, y': nat, m': nat, t': nat)
    requires 1 <= m <= 12 && 1 <= m' <= 12
    requires RecurringNumber(y, m, t) == RecurringNumber(y', m', t')
    ensures y == y' && m == m' && t == t'
  {
    hide YearAndMonth, RecurringNumber, Print, Read, Pad;
    AfterHead(y, m, t);
    AfterHead(y', m', t');
    NoDashInDigits(y, m);
    NoDashInDigits(y', m');
    SplitsAtDash(YearAndMonth(y, m), Print(t), YearAndMonth(y', m'), Print(t'));
    YearAndMonthDiffer(y, m, y', m');
    ReadPrinted(t);
    ReadPrinted(t');
  }

  lemma RecurringAndManualDiffer(year: nat, month: nat, template: nat, n: nat)
    ensures RecurringNumber(year, month, template) != Code("EXP", n)
  {
    assert RecurringNumber(year, month, template)[0] == 'R';
    assert Code("EXP", n)[0] == 'E';
  }

  // ---- SKUs ----

  /** The number a SKU carries if it is the prefix, a dash and digits; one trailing newline is let through. */
  function SkuNumber(prefix: string, sku: string): Option<nat> {
    var head := prefix + DASH;
    if !(head <= sku) then None
    else
      var rest := sku[|head|..];
      var digits := if rest != "" && rest[|rest| - 1] == '\n' then rest[..|rest| - 1] else rest;
      if digits != "" && AllDigits(digits) then Some(Read(digits)) else None
  }

  lemma CodeCarriesNumber(prefix: string, n: nat)
    ensures SkuNumber(prefix, Code(prefix, n)) == Some(n)
  {
    var head := prefix + DASH;
    assert Code(prefix, n)[|head|..] == Pad(Print(n), 6);
    ReadPadded(Print(n), 6);
    ReadPrinted(n);
  }

  method HighestNumber(prefix: string, skus: seq<string>) returns (highest: nat)
    ensures forall s :: s in skus && SkuNumber(prefix, s).Some? ==> SkuNumber(prefix, s).value <= highest
    ensures highest == 0 || exists s :: s in skus && SkuNumber(prefix, s) == Some(highest)
  {
    hide SkuNumber;
    var i := 0;
    highest := 0;
    while i < |skus|
      invariant 0 <= i <= |skus|
      invariant forall j :: 0 <= j < i && SkuNumber(prefix, skus[j]).Some? ==> SkuNumber(prefix, skus[j]).value <= highest
      invariant highest == 0 || exists s :: s in skus && SkuNumber(prefix, s) == Some(highest)
    {
      var number := SkuNumber(prefix, skus[i]);
      if number.Some? && number.value > highest {
        highest := number.value;
        assert skus[i] in skus;
      }
      i := i + 1;
    }
  }

  /**
   The next SKU: one past the highest number in use. It is free on the first try, because a SKU that
   printed the same would itself have raised the highest.
   */
  method GenerateSku(prefix: string, skus: seq<string>) returns (sku: string, n: nat)
    ensures sku == Code(prefix, n) && sku !in skus
    ensures forall s :: s in skus && SkuNumber(prefix, s).Some? ==> SkuNumber(prefix, s).value < n
    ensures n == 1 || exists s :: s in skus && SkuNumber(prefix, s) == Some(n - 1)
  {
    hide SkuNumber, Ahead, Code;
    var highest := HighestNumber(prefix, skus);
    n := highest + 1;
    var existing := set s | s in skus;
    sku := Code(prefix, n);
    while sku in existing
      invariant highest < n && sku == Code(prefix, n)
      invariant forall k :: highest < k < n ==> Code(prefix, k) in existing
      decreases |Ahead(existing, prefix, n)|
    {
      OneLessAhead(existing, prefix, n);
      n := n + 1;
      sku := Code(prefix, n);
    }
    CodeCarriesNumber(prefix, highest + 1);
    assert n == highest + 1;
  }
}
