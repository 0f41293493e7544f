/** Decimal and hexadecimal printing of 64-bit integers, and the strict parsers that read them back. */
module Numerals {
  import opened Text

  const TWO_63: int := 0x8000_0000_0000_0000
  const TWO_64: int := 0x1_0000_0000_0000_0000

  /** Decimal or hexadecimal. */
  type Base = b: nat | b == 10 || b == 16 witness 10

  function Quotient(n: nat, base: Base): nat { if base == 10 then n / 10 else n / 16 }

  function Remainder(n: nat, base: Base): nat { if base == 10 then n % 10 else n % 16 }

  function Scaled(n: nat, base: Base): nat { if base == 10 then n * 10 else n * 16 }

  predicate IsInt64(n: int) { -TWO_63 <= n < TWO_63 }

  function Digit(d: nat): char
    requires d < 16
  {
    if d < 10 then ('0' as int + d) as char else ('a' as int + d - 10) as char
  }

  /** Value of a digit in bases up to 16; letters count in either case. */
  function DigitValue(c: char): Option<nat> {
    if '0' <= c <= '9' then Some(c as int - '0' as int)
    else if 'a' <= c <= 'f' then Some(c as int - 'a' as int + 10)
    else if 'A' <= c <= 'F' then Some(c as int - 'A' as int + 10)
    else None
  }

  function PrintNat(n: nat, base: Base): string {
    if n < base then [Digit(n)] else PrintNat(Quotient(n, base), base) + [Digit(Remainder(n, base))]
  }

  function PrintInt(n: int): string {
    if n < 0 then "-" + PrintNat(-n, 10) else PrintNat(n, 10)
  }

  /** Value of a digit string, most significant digit first; None on any other character. */
  function ParseDigits(s: string, base: Base): Option<nat> {
    if s == "" then Some(0)
    else
      var last := DigitValue(s[|s| - 1]);
      var init := ParseDigits(s[..|s| - 1], base);
      if init.Some? && last.Some? && last.value < base then Some(Scaled(init.value, base) + last.value) else None
  }

  /** Unsigned 64-bit parse: digits only, at least one, and in range. */
  function ParseUint64(s: string, base: Base): Option<nat> {
    if s == "" then None
    else match ParseDigits(s, base)
      case None => None
      case Some(n) => if n < TWO_64 then Some(n) else None
  }

  /** Signed 64-bit decimal parse: an optional sign, then digits. */
  function ParseInt64(s: string): Option<int> {
    if s == "" then None
    else
      var signed := s[0] == '+' || s[0] == '-';
      match ParseUint64(if signed then s[1..] else s, 10)
      case None => None
      case Some(n) =>
        var m := if s[0] == '-' then 0 - n as int else n as int;
        if IsInt64(m) then Some(m) else None
  }

  predicate IsDigits(s: string) { forall i :: 0 <= i < |s| ==> '0' <= s[i] <= '9' || 'a' <= s[i] <= 'f' }

  lemma DigitRoundTrip(d: nat)
    requires d < 16
    ensures DigitValue(Digit(d)) == Some(d)
    ensures IsDigits([Digit(d)])
  {
  }

  lemma DivMod(n: nat, base: Base)
    ensures Scaled(Quotient(n, base), base) + Remainder(n, base) == n && Remainder(n, base) < base
    ensures n >= base ==> Quotient(n, base) < n
  {
  }

  lemma {:induction false} ParseDigitsStep(s: string, c: char, base: Base, hi: nat, lo: nat)
    requires ParseDigits(s, base) == Some(hi) && DigitValue(c) == Some(lo) && lo < base
    ensures ParseDigits(s + [c], base) == Some(Scaled(hi, base) + lo)
  {
    assert (s + [c])[..|s|] == s;
  }

  lemma {:induction false} ParsePrintNat(n: nat, base: Base)
    ensures ParseDigits(PrintNat(n, base), base) == Some(n)
    ensures PrintNat(n, base) != "" && IsDigits(PrintNat(n, base))
  {
    if n < base {
      DigitRoundTrip(n);
      ParseDigitsStep("", Digit(n), base, 0, n);
      assert [Digit(n)] == "" + [Digit(n)];
    } else {
      var hi, lo := Quotient(n, base), Remainder(n, base);
      DivMod(n, base);
      ParsePrintNat(hi, base);
      OneMoreDigit(PrintNat(hi, base), base, hi, lo);
    }
  }

  /** A digit appended to a printed number. */
  lemma {:induction false} OneMoreDigit(s: string, base: Base, hi: nat, lo: nat)
    requires lo < base && ParseDigits(s, base) == Some(hi) && IsDigits(s)
    ensures ParseDigits(s + [Digit(lo)], base) == Some(Scaled(hi, base) + lo) && IsDigits(s + [Digit(lo)])
  {
    DigitRoundTrip(lo);
    ParseDigitsStep(s, Digit(lo), base, hi, lo);
  }

  lemma {:induction false} ParsePrintUint64(n: nat, base: Base)
    requires n < TWO_64
    ensures ParseUint64(PrintNat(n, base), base) == Some(n)
    ensures ':' !in PrintNat(n, base)
  {
    ParsePrintNat(n, base);
  }

  lemma {:induction false} ParseUnsigned(digits: string, n: nat)
    requires ParseUint64(digits, 10) == Some(n) && IsInt64(n)
    requires digits[0] != '+' && digits[0] != '-'
    ensures ParseInt64(digits) == Some(n)
  {
  }

  lemma {:induction false} ParseNegative(digits: string, n: nat)
    requires ParseUint64(digits, 10) == Some(n) && IsInt64(0 - n)
    ensures ParseInt64("-" + digits) == Some(0 - n)
  {
    assert ("-" + digits)[1..] == digits;
  }

  lemma {:induction false} ParsePrintInt64(n: int)
    requires IsInt64(n)
    ensures ParseInt64(PrintInt(n)) == Some(n)
  {
    if n < 0 {
      ParsePrintUint64(-n, 10);
      ParseNegative(PrintNat(-n, 10), -n);
    } else {
      ParsePrintUint64(n, 10);
      ParsePrintNat(n, 10);
      ParseUnsigned(PrintNat(n, 10), n);
    }
  }

  /** A printed integer is an optional minus sign and digits. */
  lemma {:induction false} PrintIntShape(n: int)
    ensures PrintInt(n) != "" && ':' !in PrintInt(n)
    ensures n < 0 ==> PrintInt(n)[0] == '-' && IsDigits(PrintInt(n)[1..])
    ensures n >= 0 ==> IsDigits(PrintInt(n))
  {
    ParsePrintNat(if n < 0 then -n else n, 10);
    if n < 0 { assert PrintInt(n)[1..] == PrintNat(-n, 10); }
  }

  /** Printing loses nothing: equal decimals come from equal numbers. */
  lemma {:induction false} PrintIntInjective(m: int, n: int)
    requires PrintInt(m) == PrintInt(n)
    ensures m == n
  {
    PrintIntShape(m);
    PrintIntShape(n);
    ParsePrintNat(if m < 0 then -m else m, 10);
    ParsePrintNat(if n < 0 then -n else n, 10);
    if m < 0 {
      assert PrintInt(m)[1..] == PrintNat(-m, 10) && PrintInt(n)[1..] == PrintNat(-n, 10);
    }
  }

  lemma {:induction false} DigitsHoldNoColon(s: string, base: Base)
    requires ParseDigits(s, base).Some?
    ensures ':' !in s
  {
    if s != "" {
      DigitsHoldNoColon(s[..|s| - 1], base);
      assert s == s[..|s| - 1] + [s[|s| - 1]];
    }
  }

  /** No accepted decimal contains a colon. */
  lemma {:induction false} ParsedIntHoldsNoColon(s: string)
    requires ParseInt64(s).Some?
    ensures ':' !in s
  {
    if s[0] == '+' || s[0] == '-' {
      DigitsHoldNoColon(s[1..], 10);
      assert s == [s[0]] + s[1..];
    } else {
      DigitsHoldNoColon(s, 10);
    }
  }
}
