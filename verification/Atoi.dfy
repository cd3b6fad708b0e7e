/** The integer parser, and its round trip with the formatter. */
module Atoi {
  import opened CMachine
  import opened CStrings
  import opened Numerals
  import opened Format

  /** What the C library's strtol answers: a value, where it stopped, and whether errno says it was out of range. */
  datatype Long = Long(value: int, end: nat, outOfRange: bool)

  type Strtol = (Text, nat, nat) -> Long

  /** The string itself (no number), a null pointer (out of range), or a stored value and the position after it. */
  datatype Parsed = NoNumber | OutOfRange | Number(value: int, pos: nat)

  function Signed(negative: bool, value: int): int {
    if negative then -value else value
  }

  function Magnitude(c: int): nat {
    if c < 0 then -c else c
  }

  /** The largest absolute value the sign allows. */
  function Limit(negative: bool): nat {
    INT_MAX + if negative then 1 else 0
  }

  predicate IsInt32(v: int) {
    INT32_MIN <= v <= INT_MAX
  }

  /** What an assignment to an int32_t keeps of a wider value. */
  function ToInt32(v: int): (r: int)
    ensures IsInt32(r)
    ensures IsInt32(v) ==> r == v
  {
    (v - INT32_MIN) % UINT32_RANGE + INT32_MIN
  }

  /** The range check and the assignment: the value is compared with the upper limit only. */
  function Bounded(negative: bool, value: int, pos: nat): Parsed {
    if value > Limit(negative) then OutOfRange else Number(ToInt32(Signed(negative, value)), pos)
  }

  /** What passes the check is stored unchanged exactly when it is not too small either; what strtol returns may be. */
  lemma StoredUnchangedWhen(negative: bool, value: int, pos: nat)
    requires Bounded(negative, value, pos).Number?
    ensures Bounded(negative, value, pos).value == Signed(negative, value) <==> value + Limit(!negative) >= 0
  {
  }

  /** A leading zero leaves the base to what follows it. */
  function Prefixed(s: Text, p: nat, negative: bool, strtol: Strtol): Parsed
    requires p < |s| && s[p] == '0'
  {
    var c := s[p + 1];
    var r := if c == 'x' || c == 'X' then strtol(s, p, 16)
             else if c == 'b' || c == 'B' then strtol(s, p + 2, 2)
             else strtol(s, p, 8);
    if r.outOfRange then OutOfRange else Bounded(negative, r.value, r.end)
  }

  function Parse(s: Text, strtol: Strtol): Parsed {
    var negative := s[0] == '-';
    var p := if negative then 1 else 0;
    if !IsDigit(s[p]) then NoNumber
    else if s[p] == '0' then Prefixed(s, p, negative, strtol)
    else Bounded(negative, DecimalValue(s[p..DigitsEnd(s, p)]), DigitsEnd(s, p))
  }

  /** "0b-" and 33 ones: read in base 2 the number is below the least 32-bit integer, and 1 is stored. */
  lemma StoredCutOff(ones: string, strtol: Strtol)
    requires |ones| == 33 && (forall i :: 0 <= i < 33 ==> ones[i] == '1')
    requires strtol("0b-" + ones + ['\0'], 2, 2) == Long(-0x1_FFFF_FFFF, 36, false)
    ensures Parse("0b-" + ones + ['\0'], strtol) == Number(1, 36)
  {
    var s: Text := "0b-" + ones + ['\0'];
    assert s[0] == '0' && s[1] == 'b';
  }

  /** `c & 0xcf` */
  function LowDigit(c: char): nat
  {
    And(c as int, 0xcf)
  }

  lemma MaskIsDigitValue(c: char)
    requires IsDigit(c)
    ensures LowDigit(c) == DigitValue(c)
  {
    var d := DigitValue(c);
    var n := c as int;
    assert n == 48 + d && d < 10;
    assert n / 2 / 2 / 2 / 2 == 3;
    assert And(3, 12) == 0;
    assert And(n, 0xcf) == n % 2 + 2 * And(n / 2, 103);
    assert And(n / 2, 103) == n / 2 % 2 + 2 * And(n / 2 / 2, 51);
    assert And(n / 2 / 2, 51) == n / 2 / 2 % 2 + 2 * And(n / 2 / 2 / 2, 25);
    assert And(n / 2 / 2 / 2, 25) == n / 2 / 2 / 2 % 2 + 2 * And(3, 12);
  }

  /** The decimal loop: it stops at the first digit that takes the value past the limit. */
  method DecimalLoop(s: Text, p: nat, negative: bool) returns (fits: bool, value: nat, q: nat)
    requires p < |s|
    ensures fits <==> DecimalValue(s[p..DigitsEnd(s, p)]) <= Limit(negative)
    ensures p <= q <= DigitsEnd(s, p) && AllDigits(s[p..q]) && value == DecimalValue(s[p..q])
    ensures if fits then q == DigitsEnd(s, p)
            else p < q && AllDigits(s[p..q - 1]) && DecimalValue(s[p..q - 1]) <= Limit(negative) < value
  {
    value, q := 0, p;
    assert s[p..q] == "";
    while IsDigit(s[q])
      invariant p <= q < |s| && DigitsEnd(s, q) == DigitsEnd(s, p) && q <= DigitsEnd(s, p)
      invariant AllDigits(s[p..q])
      invariant value == DecimalValue(s[p..q]) <= Limit(negative)
      decreases |s| - q
    {
      SliceSnoc(s, p, q);
      ValueSnoc(s[p..q], s[q]);
      MaskIsDigitValue(s[q]);
      value := value * 10;
      value := value + LowDigit(s[q]);
      q := q + 1;
      if value > Limit(negative) {
        TooLarge(s, p, q, negative);
        return false, value, q;
      }
    }
    return true, value, q;
  }

  lemma TooLarge(s: Text, p: nat, q: nat, negative: bool)
    requires p < |s| && p <= q <= DigitsEnd(s, p) && AllDigits(s[p..q]) && DecimalValue(s[p..q]) > Limit(negative)
    ensures DecimalValue(s[p..DigitsEnd(s, p)]) > Limit(negative)
  {
    var all := s[p..DigitsEnd(s, p)];
    assert all[..q - p] == s[p..q];
    PrefixValue(all, q - p);
  }

  /** atoi32 */
  method Atoi32(s: Text, strtol: Strtol) returns (r: Parsed)
    ensures r == Parse(s, strtol)
    ensures r.Number? ==> IsInt32(r.value)
  {
    var negative, p := false, 0;
    if s[p] == '-' {
      negative := true;
      p := p + 1;
    }
    if s[p] < '0' || s[p] > '9' {
      return NoNumber;
    }
    var value: int;
    if s[p] == '0' {
      var base := 8;
      var from := p;
      if s[p + 1] == 'x' || s[p + 1] == 'X' {
        base := 16;
      } else if s[p + 1] == 'b' || s[p + 1] == 'B' {
        base := 2;
        from := from + 2;
      }
      var long := strtol(s, from, base);
      if long.outOfRange || long.value > Limit(negative) {
        return OutOfRange;
      }
      value, p := long.value, long.end;
    } else {
      var ok;
      ok, value, p := DecimalLoop(s, p, negative);
      if !ok {
        return OutOfRange;
      }
    }
    return Number(ToInt32(Signed(negative, value)), p);
  }

  /** Without a digit nothing is read, and a leading zero leaves the number to strtol: in base 16, 2 or 8. */
  lemma OtherCases(s: Text, strtol: Strtol)
    ensures var p := if s[0] == '-' then 1 else 0;
            && ((s[p] < '0' || s[p] > '9') ==> Parse(s, strtol) == NoNumber)
            && (s[p] == '0' ==>
                  var long := if s[p + 1] in "xX" then strtol(s, p, 16)
                              else if s[p + 1] in "bB" then strtol(s, p + 2, 2) else strtol(s, p, 8);
                  var most := if s[0] == '-' then 0x8000_0000 else 0x7FFF_FFFF;
                  if long.outOfRange || long.value > most then Parse(s, strtol) == OutOfRange
                  else Parse(s, strtol).Number? && Parse(s, strtol).pos == long.end)
  {
  }

  /** Without a leading zero, a number is stored exactly when it is an int32, and it is the number that was written. */
  lemma DecimalsAreExact(s: Text, strtol: Strtol)
    requires var p := if s[0] == '-' then 1 else 0; IsDigit(s[p]) && s[p] != '0'
    ensures var p := if s[0] == '-' then 1 else 0;
            var q := DigitsEnd(s, p);
            var v := Signed(s[0] == '-', DecimalValue(s[p..q]));
            Parse(s, strtol) == if IsInt32(v) then Number(v, q) else OutOfRange
  {
  }

  // ----- the round trip -----

  /** The one thing asked of strtol: a zero that ends the string is zero. */
  ghost predicate ReadsZero(strtol: Strtol) {
    forall s: Text, p: nat :: p + 1 < |s| && s[p] == '0' && s[p + 1] == '\0' ==>
                                strtol(s, p, 8) == Long(0, p + 1, false)
  }

  function Terminated(c: int32): Text {
    IntTextHasNoNul(c);
    IntText(c) + ['\0']
  }

  lemma IntTextHasNoNul(c: int)
    ensures forall i :: 0 <= i < |IntText(c)| ==> IntText(c)[i] != '\0'
  {
  }

  lemma DigitsOfText(c: int32)
    ensures var p, d := if c < 0 then 1 else 0, Decimal(Magnitude(c));
            var s := Terminated(c);
            && p + |d| + 1 == |s| && Occurs(s, p, d) && s[p + |d|] == '\0' && s[p] == d[0] && (s[0] == '-' <==> c < 0)
  {
  }

  /** Parsing what the formatter writes for any 32-bit integer gives it back and stops at the terminator. */
  lemma IntegerRoundTrip(c: int32, strtol: Strtol)
    requires ReadsZero(strtol)
    ensures Parse(Terminated(c), strtol) == Number(c, |Terminated(c)| - 1)
  {
    hide Decimal, Terminated, Occurs;
    var m, p := Magnitude(c), if c < 0 then 1 else 0;
    var s, d := Terminated(c), Decimal(m);
    DigitsOfText(c);
    assert IsDigit(d[0]);
    NoLeadingZero(m);
    ValueOfDecimal(m);
    DigitsExactly(s, p, d);
    if m == 0 {
      DecimalOfZero();
    } else {
      SliceOfOccurrence(s, p, d);
    }
  }

  lemma SliceOfOccurrence(s: Text, p: nat, t: string)
    requires Occurs(s, p, t)
    ensures p + |t| < |s| && s[p..p + |t|] == t
  {
  }
}
