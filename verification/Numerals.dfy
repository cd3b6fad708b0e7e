/** Decimal and hexadecimal numerals. */
module Numerals {
  import opened CStrings

  predicate IsDigit(c: char) {
    '0' <= c <= '9'
  }

  predicate AllDigits(s: string) {
    forall i :: 0 <= i < |s| ==> IsDigit(s[i])
  }

  function DigitValue(c: char): (d: nat)
    requires IsDigit(c)
    ensures d < 10
  {
    c as int - '0' as int
  }

  function DigitChar(d: nat): (c: char)
    requires d < 10
    ensures IsDigit(c) && DigitValue(c) == d
  {
    (d + '0' as int) as char
  }

  /** The number a string of digits denotes. */
  function DecimalValue(s: string): nat
    requires AllDigits(s)
  {
    if s == "" then 0 else 10 * DecimalValue(s[..|s| - 1]) + DigitValue(s[|s| - 1])
  }

  /** The shortest numeral for `n`. */
  function Decimal(n: nat): (s: string)
    ensures AllDigits(s) && s != ""
  {
    if n < 10 then [DigitChar(n)] else Decimal(n / 10) + [DigitChar(n % 10)]
  }

  lemma {:induction false} ValueOfDecimal(n: nat)
    ensures DecimalValue(Decimal(n)) == n
  {
    if n < 10 {
      assert Decimal(n)[..0] == "";
    } else {
      ValueOfDecimal(n / 10);
      assert Decimal(n)[..|Decimal(n)| - 1] == Decimal(n / 10);
    }
  }

  /** No numeral but that of zero starts with a zero. */
  lemma {:induction false} NoLeadingZero(n: nat)
    ensures Decimal(n)[0] == '0' <==> n == 0
  {
    if n >= 10 {
      NoLeadingZero(n / 10);
    }
  }

  lemma ValueSnoc(s: string, c: char)
    requires AllDigits(s) && IsDigit(c)
    ensures AllDigits(s + [c]) && DecimalValue(s + [c]) == 10 * DecimalValue(s) + DigitValue(c)
  {
  }

  /** A prefix of a numeral denotes no more than the numeral. */
  lemma {:induction false} PrefixValue(s: string, k: nat)
    requires AllDigits(s) && k <= |s|
    ensures DecimalValue(s[..k]) <= DecimalValue(s)
    decreases |s|
  {
    if k == |s| {
      assert s[..k] == s;
    } else {
      var front := s[..|s| - 1];
      PrefixValue(front, k);
      assert front[..k] == s[..k];
    }
  }

  lemma {:induction false} DecimalSteps(n: nat)
    ensures n >= 10 ==> Decimal(n) == Decimal(n / 10) + [DigitChar(n % 10)]
  {
  }

  /** The digits are the usual ones. */
  lemma UsualDigits()
    ensures Decimal(0) == "0" && Decimal(9) == "9" && Decimal(10) == "10" && Decimal(987) == "987"
    ensures forall i :: 0 <= i < 10 ==> DigitChar(i) == "0123456789"[i]
    ensures HexNumeral(0) == "0" && HexNumeral(15) == "f" && HexNumeral(0x10) == "10" && HexNumeral(0xfed) == "fed"
    ensures forall i :: 0 <= i < 16 ==> HEX_DIGITS[i] == "0123456789abcdef"[i]
  {
    DecimalSteps(10);
    DecimalSteps(98);
    DecimalSteps(987);
  }

  // ----- numerals in C strings -----

  function DigitsEnd(s: Text, p: nat): (q: nat)
    requires p < |s|
    ensures p <= q < |s| && !IsDigit(s[q]) && AllDigits(s[p..q])
    decreases |s| - p
  {
    if IsDigit(s[p]) then
      var q := DigitsEnd(s, p + 1);
      assert s[p..q] == [s[p]] + s[p + 1..q];
      q
    else p
  }

  lemma DigitsExactly(s: Text, p: nat, t: string)
    requires Occurs(s, p, t) && AllDigits(t) && !IsDigit(s[p + |t|])
    ensures DigitsEnd(s, p) == p + |t|
  {
  }

  // ----- sizes and digits -----

  function Pow(b: nat, k: nat): nat {
    if k == 0 then 1 else b * Pow(b, k - 1)
  }

  const HEX_DIGITS: string := "0123456789abcdef"

  /** The shortest lower-case hexadecimal numeral for `n`. */
  function HexNumeral(n: nat): (s: string)
    ensures s != ""
  {
    if n < 16 then [HEX_DIGITS[n]] else HexNumeral(n / 16) + [HEX_DIGITS[n % 16]]
  }

  function HexValueOf(c: char): nat {
    if IsDigit(c) then DigitValue(c) else if 'a' <= c <= 'f' then c as int - 'a' as int + 10 else 0
  }

  function HexValue(s: string): nat {
    if s == "" then 0 else 16 * HexValue(s[..|s| - 1]) + HexValueOf(s[|s| - 1])
  }

  lemma HexDigitValue(d: nat)
    requires d < 16
    ensures HexValueOf(HEX_DIGITS[d]) == d
  {
  }

  /** Reading a hexadecimal numeral gives the number back. */
  lemma {:induction false} ValueOfHex(n: nat)
    ensures HexValue(HexNumeral(n)) == n
  {
    HexDigitValue(n % 16);
    if n < 16 {
      assert HexNumeral(n)[..0] == "";
    } else {
      ValueOfHex(n / 16);
      assert HexNumeral(n)[..|HexNumeral(n)| - 1] == HexNumeral(n / 16);
    }
  }
}
