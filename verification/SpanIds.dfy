/** Span identifiers: the record id, a colon, and the piece index in decimal. */
module SpanIds {
  function DigitChar(d: nat): char
    requires d < 10
  {
    '0' + d as char
  }

  function Decimal(n: nat): string {
    if n < 10 then [DigitChar(n)] else Decimal(n / 10) + [DigitChar(n % 10)]
  }

  function SpanId(recordId: string, index: nat): string {
    recordId + ":" + Decimal(index)
  }

  lemma {:induction false} DecimalDigits(n: nat)
    ensures Decimal(n) != [] && forall i :: 0 <= i < |Decimal(n)| ==> '0' <= Decimal(n)[i] <= '9'
  {
    if n >= 10 {
      DecimalDigits(n / 10);
    }
  }

  /** The number that a text of decimal digits denotes. */
  function Value(digits: string): int {
    if digits == "" then 0
    else 10 * Value(digits[..|digits| - 1]) + (digits[|digits| - 1] as int - '0' as int)
  }

  /** An index is written in decimal, without leading zeros. */
  lemma {:induction false} DecimalDenotes(n: nat)
    ensures Value(Decimal(n)) == n && (n > 0 ==> Decimal(n)[0] != '0')
  {
    DecimalDigits(n);
    if n >= 10 {
      DecimalDenotes(n / 10);
      DecimalDigits(n / 10);
      assert Decimal(n)[..|Decimal(n)| - 1] == Decimal(n / 10);
      assert Decimal(n)[0] == Decimal(n / 10)[0];
    } else {
      assert Decimal(n)[..0] == "";
    }
  }

  lemma {:induction false} DecimalInjective(m: nat, n: nat)
    requires Decimal(m) == Decimal(n)
    ensures m == n
  {
    if m < 10 || n < 10 {
      if m >= 10 { DecimalDigits(m / 10); }
      if n >= 10 { DecimalDigits(n / 10); }
      assert DigitChar(m % 10) == Decimal(m)[|Decimal(m)| - 1];
      assert DigitChar(n % 10) == Decimal(n)[|Decimal(n)| - 1];
    } else {
      assert Decimal(m / 10) == Decimal(m)[..|Decimal(m)| - 1];
      assert Decimal(n / 10) == Decimal(n)[..|Decimal(n)| - 1];
      assert DigitChar(m % 10) == Decimal(m)[|Decimal(m)| - 1] == DigitChar(n % 10);
      DecimalInjective(m / 10, n / 10);
    }
  }

  lemma LastColon(r: string, i: nat)
    ensures var s := SpanId(r, i); |r| < |s| && s[|r|] == ':' && forall j :: |r| < j < |s| ==> s[j] != ':'
  {
    DecimalDigits(i);
    var s := SpanId(r, i);
    assert forall j :: |r| < j < |s| ==> s[j] == Decimal(i)[j - |r| - 1];
  }

  /** Distinct pieces have distinct span ids, even when record ids contain colons. */
  lemma SpanIdInjective(r: string, i: nat, r': string, i': nat)
    requires SpanId(r, i) == SpanId(r', i')
    ensures r == r' && i == i'
  {
    LastColon(r, i);
    LastColon(r', i');
    var s := SpanId(r, i);
    assert r == s[..|r|] && r' == s[..|r'|];
    assert Decimal(i) == s[|r| + 1..] && Decimal(i') == s[|r'| + 1..];
    DecimalInjective(i, i');
  }
}
