/** What numbered codes look like, and which SKUs count as numbered. */
module CodeRules {
  import opened Options
  import opened FreshCodes

  function Zeros(n: nat): string {
    seq(n, _ => '0')
  }

  lemma {:induction false} PaddedWithZeros(s: string, width: nat)
    ensures Pad(s, width) == Zeros(if |s| < width then width - |s| else 0) + s
    decreases width - |s|
  {
    if |s| < width {
      PaddedWithZeros("0" + s, width);
      assert Zeros(width - |s| - 1) + "0" == Zeros(width - |s|);
      assert Zeros(width - |s| - 1) + ("0" + s) == Zeros(width - |s| - 1) + "0" + s;
    } else {
      assert Zeros(0) + s == s;
    }
  }

  lemma {:induction false} NoLeadingZero(n: nat)
    ensures n > 0 ==> Print(n)[0] != '0'
    ensures n == 0 ==> Print(n) == "0"
  {
    if n >= 10 {
      NoLeadingZero(n / 10);
    }
  }

  /** A code is the prefix, a dash, and the number in decimal, filled up with zeros to six digits. */
  lemma CodesExactly(prefix: string, n: nat)
    ensures var digits := Print(n);
            && Code(prefix, n) == prefix + "-" + Zeros(if |digits| < 6 then 6 - |digits| else 0) + digits
            && (digits[0] != '0' || digits == "0") && Read(digits) == n
  {
    PaddedWithZeros(Print(n), 6);
    NoLeadingZero(n);
    ReadPrinted(n);
    var z := Zeros(if |Print(n)| < 6 then 6 - |Print(n)| else 0);
    assert prefix + DASH + (z + Print(n)) == prefix + DASH + z + Print(n);
  }

  /** Reading takes the digits in decimal: appending a digit multiplies by ten and adds it. */
  lemma ReadsDecimal(s: string, c: char)
    requires AllDigits(s) && IsDigit(c)
    ensures AllDigits(s + [c]) && Read(s + [c]) == 10 * Read(s) + (c as int - '0' as int)
    ensures Read("") == 0
  {
    assert (s + [c])[..|s|] == s;
  }

  ghost predicate Ends(sku: string, prefix: string, digits: string) {
    digits != "" && AllDigits(digits) && (sku == prefix + "-" + digits || sku == prefix + "-" + digits + "\n")
  }

  /** A SKU counts as numbered exactly if it is the prefix, a dash and digits, perhaps with a line end; its number is what the digits read, typed by hand or not. */
  lemma NumberedExactly(prefix: string, sku: string, n: nat)
    ensures SkuNumber(prefix, sku) == Some(n) <==> exists digits :: Ends(sku, prefix, digits) && Read(digits) == n
  {
    var head := prefix + DASH;
    if head <= sku {
      var rest := sku[|head|..];
      assert sku == head + rest;
      var digits := if rest != "" && rest[|rest| - 1] == '\n' then rest[..|rest| - 1] else rest;
      assert rest != "" && rest[|rest| - 1] == '\n' ==> rest == digits + "\n" && head + (digits + "\n") == head + digits + "\n";
      if digits != "" && AllDigits(digits) {
        assert Ends(sku, prefix, digits);
      }
    }
    forall other | Ends(sku, prefix, other)
      ensures SkuNumber(prefix, sku) == Some(Read(other))
    {
      EndsAreRead(prefix, sku, other);
    }
  }

  lemma EndsAreRead(prefix: string, sku: string, digits: string)
    requires Ends(sku, prefix, digits)
    ensures SkuNumber(prefix, sku) == Some(Read(digits))
  {
    var head := prefix + DASH;
    if sku == head + digits {
      assert sku[|head|..] == digits;
      assert digits[|digits| - 1] != '\n';
    } else {
      assert sku == head + (digits + "\n");
      assert sku[|head|..] == digits + "\n";
      assert (digits + "\n")[..|digits|] == digits;
    }
  }

  /** The next SKU lies above every numbered one in use, also those typed by hand without zeros. */
  lemma NumbersTypedByHandCount(prefix: string, digits: string)
    requires digits != "" && AllDigits(digits)
    ensures SkuNumber(prefix, prefix + "-" + digits) == Some(Read(digits))
  {
    assert Ends(prefix + "-" + digits, prefix, digits);
    EndsAreRead(prefix, prefix + "-" + digits, digits);
  }
}
