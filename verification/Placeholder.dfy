/** The redaction placeholders `ocr-redacted-000001`, `ocr-redacted-000002`, ... */
module Placeholder {

  const PREFIX := "ocr-redacted-"

  function DigitChar(d: nat): (c: char)
    requires d < 10
    ensures '0' <= c <= '9' && c as int == '0' as int + d
  {
    '0' + d as char
  }

  predicate AllDigits(s: string) {
    forall i | 0 <= i < |s| :: '0' <= s[i] <= '9'
  }

  function Decimal(n: nat): (s: string)
    ensures |s| >= 1 && AllDigits(s)
  {
    if n < 10 then [DigitChar(n)] else Decimal(n / 10) + [DigitChar(n % 10)]
  }

  /** Left-pads with zeros, as the format specification `06d` does. */
  function ZeroPad(s: string, width: nat): (r: string)
    requires AllDigits(s)
    ensures AllDigits(r) && |r| == if |s| < width then width else |s|
    decreases width - |s|
  {
    if |s| >= width then s else ZeroPad("0" + s, width)
  }

  function Label(n: nat): (s: string) {
    PREFIX + ZeroPad(Decimal(n), 6)
  }

  /** Reads a digit string back as a number. */
  function ReadDecimal(s: string): nat
    requires AllDigits(s)
  {
    if s == [] then 0
    else 10 * ReadDecimal(s[..|s| - 1]) + (s[|s| - 1] as int - '0' as int)
  }

  lemma {:induction false} ReadsBack(n: nat)
    ensures ReadDecimal(Decimal(n)) == n
  {
    var s := Decimal(n);
    if n >= 10 {
      assert s[..|s| - 1] == Decimal(n / 10);
      ReadsBack(n / 10);
    } else {
      assert s[..0] == [];
    }
  }

  lemma {:induction false} LeadingZero(s: string)
    requires AllDigits(s)
    ensures ReadDecimal("0" + s) == ReadDecimal(s)
  {
    var t := "0" + s;
    if s == [] {
      assert t[..0] == [];
    } else {
      assert t[..|t| - 1] == "0" + s[..|s| - 1];
      LeadingZero(s[..|s| - 1]);
    }
  }

  lemma {:induction false} PaddingKeepsValue(s: string, width: nat)
    requires AllDigits(s)
    ensures ReadDecimal(ZeroPad(s, width)) == ReadDecimal(s)
    decreases width - |s|
  {
    if |s| < width {
      LeadingZero(s);
      PaddingKeepsValue("0" + s, width);
    }
  }

  /** Distinct counters give distinct placeholders. */
  lemma LabelInjective(m: nat, n: nat)
    requires Label(m) == Label(n)
    ensures m == n
  {
    assert Label(m)[|PREFIX|..] == ZeroPad(Decimal(m), 6);
    assert Label(n)[|PREFIX|..] == ZeroPad(Decimal(n), 6);
    PaddingKeepsValue(Decimal(m), 6);
    PaddingKeepsValue(Decimal(n), 6);
    ReadsBack(m);
    ReadsBack(n);
  }

  function PowerOfTen(k: nat): (p: nat)
    ensures p >= 1
  {
    if k == 0 then 1 else 10 * PowerOfTen(k - 1)
  }

  lemma {:induction false} DecimalLength(n: nat, k: nat)
    requires k >= 1 && n < PowerOfTen(k)
    ensures |Decimal(n)| <= k
  {
    assert PowerOfTen(1) == 10;
    if n >= 10 {
      DecimalLength(n / 10, k - 1);
    }
  }

  /** Within the hard result size limit a placeholder has 19 to 21 characters. */
  lemma LabelLength(n: nat)
    requires n <= 20_000_000
    ensures 19 <= |Label(n)| <= 21
  {
    assert PowerOfTen(2) == 100;
    assert PowerOfTen(4) == 10_000;
    assert PowerOfTen(6) == 1_000_000;
    assert PowerOfTen(8) == 100_000_000;
    DecimalLength(n, 8);
  }

  /** As many zeros as are missing to a width. */
  predicate Zeros(zeros: string, length: nat, width: nat) {
    |zeros| == (if length < width then width - length else 0) && forall i | 0 <= i < |zeros| :: zeros[i] == '0'
  }

  lemma {:induction false} PadIs(s: string, width: nat) returns (zeros: string)
    requires AllDigits(s)
    ensures Zeros(zeros, |s|, width) && ZeroPad(s, width) == zeros + s
    decreases width - |s|
  {
    zeros := "";
    if |s| < width {
      var more := PadIs("0" + s, width);
      zeros := more + "0";
      assert more + ("0" + s) == zeros + s;
    } else {
      assert "" + s == s;
    }
  }

  /** A placeholder is the word, zeros up to six digits, and the number; numbers that need more digits
      are written in full. */
  lemma LabelIs(n: nat) returns (zeros: string)
    ensures Label(n) == "ocr-redacted-" + zeros + Decimal(n) && Zeros(zeros, |Decimal(n)|, 6)
  {
    zeros := PadIs(Decimal(n), 6);
  }
}
