/** The bounded formatter: digits generated backwards, output cut off at the capacity, and everything counted. */
module Format {
  import opened CMachine
  import opened CStrings
  import opened Numerals

  const INT32_MIN: int := -0x8000_0000
  const UINT32_RANGE: nat := 0x1_0000_0000

  type int32 = c: int | -0x8000_0000 <= c < 0x8000_0000
  type uint32 = n: int | 0 <= n < 0x1_0000_0000
  type uint64 = n: int | 0 <= n < 0x1_0000_0000_0000_0000

  /** What a `char *` argument points to, up to its terminator. */
  type CString = s: string | '\0' !in s

  /** One variable argument. */
  datatype Arg =
    | IntArg(c: int32) | StrArg(s: CString) | NullArg
    | ChrArg(code: int32) | HexArg(n: uint32) | PtrArg(p: uint64)

  // ----- rendering without bounds -----

  function IntText(c: int): string {
    if c < 0 then "-" + Decimal(-c) else Decimal(c)
  }

  function ChrText(c: int): string {
    if 32 <= c <= 126 then [c as char] else ['\\', HEX_DIGITS[c / 16 % 16], HEX_DIGITS[c % 16]]
  }

  function PtrText(p: nat): string {
    "0x" + HexNumeral(p)
  }

  function ArgText(a: Arg): string {
    match a
    case IntArg(c) => IntText(c)
    case StrArg(s) => s
    case NullArg => "(null)"
    case ChrArg(c) => ChrText(c)
    case HexArg(n) => HexNumeral(n)
    case PtrArg(p) => PtrText(p)
  }

  predicate IsDirective(c: char) {
    c == 'd' || c == 's' || c == 'c' || c == 'x' || c == 'p'
  }

  predicate Fits(a: Arg, c: char) {
    match a
    case IntArg(_) => c == 'd'
    case StrArg(_) => c == 's'
    case NullArg => c == 's'
    case ChrArg(_) => c == 'c'
    case HexArg(_) => c == 'x'
    case PtrArg(_) => c == 'p'
  }

  /** The arguments from number `k` on are the ones the rest of the format asks for. */
  predicate Typed(f: Text, p: nat, args: seq<Arg>, k: nat)
    requires p < |f|
    decreases |f| - p
  {
    if f[p] == '\0' then true
    else if f[p] != '%' || !IsDirective(f[p + 1]) then Typed(f, p + 1, args, k)
    else k < |args| && Fits(args[k], f[p + 1]) && Typed(f, p + 2, args, k + 1)
  }

  /** What the format from position `p` on stands for. An unknown directive is a plain percent sign. */
  function Render(f: Text, p: nat, args: seq<Arg>, k: nat): string
    requires p < |f| && Typed(f, p, args, k)
    decreases |f| - p
  {
    if f[p] == '\0' then ""
    else if f[p] != '%' || !IsDirective(f[p + 1]) then [f[p]] + Render(f, p + 1, args, k)
    else ArgText(args[k]) + Render(f, p + 2, args, k + 1)
  }

  function Rendered(f: Text, args: seq<Arg>): string
    requires Typed(f, 0, args, 0)
  {
    Render(f, 0, args, 0)
  }

  // ----- what is printed, read back -----

  predicate IsHexDigit(c: char) {
    c in "0123456789abcdef"
  }

  /** A numeral without needless zeroes whose digits read back to `n`. */
  predicate ReadsAsHex(t: string, n: nat) {
    && t != "" && (forall i :: 0 <= i < |t| ==> IsHexDigit(t[i]))
    && HexValue(t) == n && (t[0] == '0' ==> t == "0")
  }

  predicate ReadsAsDecimal(t: string, n: nat) {
    t != "" && AllDigits(t) && DecimalValue(t) == n && (t[0] == '0' ==> t == "0")
  }

  /** What a reader of the output finds there for an argument. */
  predicate Prints(a: Arg, t: string) {
    match a
    case StrArg(s) => t == s
    case NullArg => t == "(null)"
    case IntArg(c) =>
      if c >= 0 then ReadsAsDecimal(t, c) else t != "" && t[0] == '-' && ReadsAsDecimal(t[1..], -(c as int))
    case ChrArg(c) =>
      if 32 <= c <= 126 then t == [c as char]
      else |t| == 3 && t[0] == '\\' && IsHexDigit(t[1]) && IsHexDigit(t[2]) && HexValue(t[1..]) == c % 256
    case HexArg(n) => ReadsAsHex(t, n)
    case PtrArg(p) => |t| > 2 && t[..2] == "0x" && ReadsAsHex(t[2..], p)
  }

  lemma {:induction false} HexNumeralReads(n: nat)
    ensures ReadsAsHex(HexNumeral(n), n)
  {
    ValueOfHex(n);
    HexDigitIs(n % 16);
    if n >= 16 {
      HexNumeralReads(n / 16);
      LeadingHexDigit(n / 16);
    }
  }

  lemma {:induction false} LeadingHexDigit(n: nat)
    ensures HexNumeral(n)[0] == '0' <==> n == 0
  {
    if n >= 16 {
      LeadingHexDigit(n / 16);
    }
  }

  lemma HexDigitIs(d: nat)
    requires d < 16
    ensures IsHexDigit(HEX_DIGITS[d])
  {
  }

  lemma DecimalReads(n: nat)
    ensures ReadsAsDecimal(Decimal(n), n)
  {
    ValueOfDecimal(n);
    NoLeadingZero(n);
    DecimalOfZero();
    hide Decimal;
  }

  lemma EscapeReads(c: int)
    ensures HexValue([HEX_DIGITS[c / 16 % 16], HEX_DIGITS[c % 16]]) == c % 256
  {
    var hi, lo := HEX_DIGITS[c / 16 % 16], HEX_DIGITS[c % 16];
    HexDigitValue(c / 16 % 16);
    HexDigitValue(c % 16);
    assert [hi, lo][..1] == [hi] && [hi][..0] == "";
    assert c % 256 == 16 * (c / 16 % 16) + c % 16;
    hide HexValueOf;
    assert HexValue([hi]) == HexValueOf(hi);
    assert HexValue([hi, lo]) == 16 * HexValueOf(hi) + HexValueOf(lo);
  }

  /** Every argument is printed so that it can be read back. */
  lemma ArgPrints(a: Arg)
    ensures Prints(a, ArgText(a))
  {
    match a {
      case IntArg(c) =>
        var d: int := c;
        DecimalReads(if d < 0 then -d else d);
        hide ReadsAsDecimal, Decimal;
      case StrArg(_) =>
      case NullArg =>
      case ChrArg(c) =>
        var t := ChrText(c);
        EscapeReads(c);
        HexDigitIs(c / 16 % 16);
        HexDigitIs(c % 16);
        hide HexValue;
        if !(32 <= c <= 126) {
          assert t[1..] == [HEX_DIGITS[c / 16 % 16], HEX_DIGITS[c % 16]];
        }
      case HexArg(n) => HexNumeralReads(n);
      case PtrArg(p) =>
        HexNumeralReads(p);
        hide ReadsAsHex, HexNumeral;
        assert PtrText(p)[2..] == HexNumeral(p);
    }
  }

  /** Each directive prints its argument. */
  lemma DirectivesPrint(d: char, a: Arg)
    requires || (d == 'd' && a.IntArg?) || (d == 's' && (a.StrArg? || a.NullArg?)) || (d == 'c' && a.ChrArg?)
             || (d == 'x' && a.HexArg?) || (d == 'p' && a.PtrArg?)
    ensures var f: Text := ['%', d, '\0']; Typed(f, 0, [a], 0) && Prints(a, Rendered(f, [a]))
  {
    hide Prints, ArgText;
    ArgPrints(a);
    var f: Text := ['%', d, '\0'];
    assert f[0] == '%' && f[1] == d && f[2] == '\0';
    assert Typed(f, 2, [a], 1) && Render(f, 2, [a], 1) == "";
    assert ArgText(a) + "" == ArgText(a);
  }

  /** Everything else is printed as it stands, a percent sign before another character too. */
  lemma {:induction false} OthersPrintThemselves(f: Text, p: nat, args: seq<Arg>, k: nat)
    requires p < |f|
    requires forall i :: p <= i < |f| - 1 && f[i] == '%' ==> f[i + 1] !in "dscxp"
    ensures Typed(f, p, args, k) && Render(f, p, args, k) == f[p..|f| - 1]
    decreases |f| - p
  {
    if f[p] == '\0' {
      assert p == |f| - 1;
    } else {
      OthersPrintThemselves(f, p + 1, args, k);
      assert f[p..|f| - 1] == [f[p]] + f[p + 1..|f| - 1];
    }
  }

  // ----- the output buffer -----

  function Min(a: nat, b: nat): nat {
    if a < b then a else b
  }

  /** t_iobuf */
  class IoBuf {
    const data: array<char>
    const cap: nat
    var len: nat
    var disc: nat
    ghost var out: string           // everything written so far, had there been room
    ghost const original: seq<char> // the destination at the start

    /** The buffer holds the first `cap` characters of the output; `len + disc` is its full length. */
    ghost predicate Valid()
      reads this, data
    {
      && cap <= data.Length && |original| == data.Length
      && len == Min(cap, |out|) && disc == |out| - len
      && data[..] == out[..len] + original[len..]
    }

    constructor (dst: array<char>, size: nat)
      requires size <= dst.Length
      ensures Valid() && data == dst && cap == size && out == "" && original == dst[..]
    {
      data, cap, len, disc := dst, size, 0, 0;
      out, original := "", dst[..];
    }

    /** iob_write */
    method Write(src: string)
      requires Valid()
      modifies this, data
      ensures Valid() && out == old(out) + src
    {
      ghost var was := out;
      var i, n := 0, |src|;
      while n > 0 && len + i < cap
        invariant i + n == |src| && 0 <= n && len + i <= data.Length && (i > 0 ==> len + i <= cap)
        invariant len == Min(cap, |was|) && disc == |was| - len
        invariant (i > 0 ==> len == |was|) && out == was
        invariant data[..] == was[..len] + src[..i] + original[len + i..]
      {
        data[len + i] := src[i];
        i := i + 1;
        n := n - 1;
      }
      len := len + i;
      disc := disc + n;
      out := out + src;
      assert out[..len] == was[..len - i] + src[..i];
    }
  }

  // ----- digits -----

  /** `(n % 10) | 0x30` */
  function OrDigit(d: nat): nat
    requires d < 10
  {
    AndAtMost(d, 0x30);
    d + 0x30 - And(d, 0x30)
  }

  lemma OrIsPlus(d: nat)
    requires d < 10
    ensures OrDigit(d) == DigitChar(d) as int
  {
    AndEven(d, 24);
    AndEven(d / 2, 12);
    AndEven(d / 2 / 2, 6);
    AndEven(d / 2 / 2 / 2, 3);
    assert d / 2 / 2 / 2 / 2 == 0;
  }

  /** `c * -1` on 32 bits, then taken as unsigned: two's complement wraps for the least number. */
  function Negated(c: int): (n: uint32)
    ensures INT32_MIN <= c <= 0 ==> n == -c
  {
    -c % UINT32_RANGE
  }

  lemma PowStep(b: nat, n: nat, k: nat)
    requires b > 0 && k > 0 && n < Pow(b, k)
    ensures n / b < Pow(b, k - 1)
  {
  }

  lemma PowZero(b: nat)
    ensures Pow(b, 0) == 1
  {
  }

  lemma TenDigits()
    ensures Pow(10, 10) == 10_000_000_000
  {
  }

  lemma DecimalOfZero()
    ensures Decimal(0) == "0"
  {
  }

  /** The digits still to come. */
  function DecimalRest(n: nat): string {
    if n == 0 then "" else Decimal(n)
  }

  function HexRest(n: nat): string {
    if n == 0 then "" else HexNumeral(n)
  }

  lemma RestIsAll(n: nat)
    requires n > 0
    ensures DecimalRest(0) == "" && DecimalRest(n) == Decimal(n)
    ensures HexRest(0) == "" && HexRest(n) == HexNumeral(n)
  {
  }

  lemma DecimalLastDigit(n: nat, done: string)
    requires n > 0
    ensures DecimalRest(n) + done == DecimalRest(n / 10) + ([DigitChar(n % 10)] + done)
  {
    assert Decimal(n) == DecimalRest(n / 10) + [DigitChar(n % 10)];
  }

  lemma HexLastDigit(n: nat, done: string)
    requires n > 0
    ensures HexRest(n) + done == HexRest(n / 16) + ([HEX_DIGITS[n % 16]] + done)
  {
    assert HexNumeral(n) == HexRest(n / 16) + [HEX_DIGITS[n % 16]];
  }

  /** The loop of __int: ten digits are enough, so the 20-byte buffer is never left. */
  method DecimalDigits(nbr: array<char>, value: uint32) returns (i: nat)
    requires nbr.Length == 20 && value > 0
    modifies nbr
    ensures 10 <= i < 20 && nbr[i..] == Decimal(value)
  {
    hide Pow, OrDigit, DecimalRest, Decimal;
    PowZero(10);
    RestIsAll(value);
    TenDigits();
    var n: nat := value;
    i := 20;
    while n != 0
      invariant 10 <= i <= 20 && 0 <= n <= value && n < Pow(10, i - 10) && (i == 20 ==> n == value)
      invariant DecimalRest(value) == DecimalRest(n) + nbr[i..]
      decreases n
    {
      PowStep(10, n, i - 10);
      OrIsPlus(n % 10);
      ghost var was, done := n, nbr[i..];
      i := i - 1;
      nbr[i] := OrDigit(n % 10) as char;
      n := n / 10;
      assert nbr[i..] == [DigitChar(was % 10)] + done;
      DecimalLastDigit(was, done);
    }
  }

  /** The loop of __hex and __ptr, from `top` downwards: `room` digits are enough, so it never leaves its buffer. */
  method HexDigits(bytes: array<char>, top: nat, value: uint64, room: nat) returns (i: nat)
    requires room <= top <= bytes.Length && 0 < value < Pow(16, room)
    modifies bytes
    ensures top - room <= i < top && bytes[i..top] == HexNumeral(value)
    ensures forall k :: top <= k < bytes.Length ==> bytes[k] == old(bytes[k])
  {
    hide Pow, HexNumeral, HexRest;
    PowZero(16);
    RestIsAll(value);
    var tmp: nat := value;
    i := top;
    while i > 0 && tmp > 0
      invariant top - room <= i <= top && 0 <= tmp <= value && tmp < Pow(16, i - (top - room))
      invariant i == top ==> tmp == value
      invariant HexRest(value) == HexRest(tmp) + bytes[i..top]
      invariant forall k :: top <= k < bytes.Length ==> bytes[k] == old(bytes[k])
      decreases tmp
    {
      PowStep(16, tmp, i - (top - room));
      ghost var was, done := tmp, bytes[i..top];
      i := i - 1;
      bytes[i] := HEX_DIGITS[tmp % 16];
      tmp := tmp / 16;
      assert bytes[i..top] == [HEX_DIGITS[was % 16]] + done;
      HexLastDigit(was, done);
    }
  }

  /** __int */
  method PutInt(iob: IoBuf, c: int32)
    requires iob.Valid()
    modifies iob, iob.data
    ensures iob.Valid() && iob.out == old(iob.out) + IntText(c)
  {
    hide Decimal;
    DecimalOfZero();
    var nbr := new char[20];
    var n := if c < 0 then Negated(c) else c;
    var i := 20;
    if n == 0 {
      i := i - 1;
      nbr[i] := '0';
    } else {
      i := DecimalDigits(nbr, n);
    }
    ghost var digits := nbr[i..];
    if c < 0 {
      i := i - 1;
      nbr[i] := '-';
      assert nbr[i..] == "-" + digits;
    }
    iob.Write(nbr[i..]);
  }

  /** __hex */
  method PutHex(iob: IoBuf, n: uint32)
    requires iob.Valid()
    modifies iob, iob.data
    ensures iob.Valid() && iob.out == old(iob.out) + HexNumeral(n)
  {
    var bytes := new char[16];
    var i := 16;
    if n == 0 {
      i := i - 1;
      bytes[i] := '0';
    } else {
      assert Pow(16, 8) == UINT32_RANGE;
      i := HexDigits(bytes, i, n, 8);
    }
    assert bytes[i..] == bytes[i..16] == HexNumeral(n);
    iob.Write(bytes[i..]);
  }

  /** __ptr: eighteen bytes are just enough for sixteen digits and the prefix. */
  method PutPtr(iob: IoBuf, p: uint64)
    requires iob.Valid()
    modifies iob, iob.data
    ensures iob.Valid() && iob.out == old(iob.out) + PtrText(p)
  {
    var hex := new char[18];
    var i := 18;
    if p == 0 {
      i := i - 1;
      hex[i] := '0';
    } else {
      SixteenDigits();
      i := HexDigits(hex, i, p, 16);
    }
    ghost var digits := hex[i..];
    assert digits == hex[i..18] == HexNumeral(p);
    i := i - 1;
    hex[i] := 'x';
    i := i - 1;
    hex[i] := '0';
    assert hex[i..] == "0x" + digits;
    iob.Write(hex[i..]);
  }

  lemma SixteenDigits()
    ensures Pow(16, 16) == SIZE_RANGE
  {
    assert Pow(16, 8) == UINT32_RANGE;
    assert Pow(16, 12) == 0x1_0000 * Pow(16, 8);
    assert Pow(16, 16) == 0x1_0000 * Pow(16, 12);
  }

  /** The number of digits of a pointer is at most sixteen, and some pointers need all of them. */
  lemma PtrFillsItsBuffer()
    ensures |PtrText(SIZE_MAX)| == 18
  {
    assert |HexNumeral(0xFFFF)| == 4;
    assert |HexNumeral(0xFFFF_FFFF)| == 8;
    assert |HexNumeral(0xFFFF_FFFF_FFFF)| == 12;
  }

  /** __chr */
  method PutChr(iob: IoBuf, c: int32)
    requires iob.Valid()
    modifies iob, iob.data
    ensures iob.Valid() && iob.out == old(iob.out) + ChrText(c)
  {
    var code: int := c;
    if 32 <= code <= 126 {
      iob.Write([code as char]);
    } else {
      var buf := new char[3];
      buf[2] := HEX_DIGITS[code % 16];
      buf[1] := HEX_DIGITS[code / 16 % 16];
      buf[0] := '\\';
      assert buf[..] == ChrText(code);
      iob.Write(buf[..]);
    }
  }

  /** format_field: the position after a directive and its argument, or a percent sign and the same position. */
  method FormatField(iob: IoBuf, f: Text, p: nat, args: seq<Arg>, k: nat) returns (q: nat, next: nat)
    requires iob.Valid() && p < |f|
    requires IsDirective(f[p]) ==> k < |args| && Fits(args[k], f[p])
    modifies iob, iob.data
    ensures iob.Valid()
    ensures if IsDirective(f[p]) then q == p + 1 && next == k + 1 && iob.out == old(iob.out) + ArgText(args[k])
            else q == p && next == k && iob.out == old(iob.out) + "%"
  {
    if f[p] == 'd' {
      PutInt(iob, args[k].c);
    } else if f[p] == 's' {
      iob.Write(if args[k].NullArg? then "(null)" else args[k].s);
    } else if f[p] == 'c' {
      PutChr(iob, args[k].code);
    } else if f[p] == 'x' {
      PutHex(iob, args[k].n);
    } else if f[p] == 'p' {
      PutPtr(iob, args[k].p);
    } else {
      iob.Write("%");
      return p, k;
    }
    return p + 1, k + 1;
  }

  /** iob_format_str */
  method FormatStr(iob: IoBuf, f: Text, args: seq<Arg>)
    requires iob.Valid() && Typed(f, 0, args, 0)
    modifies iob, iob.data
    ensures iob.Valid() && iob.out == old(iob.out) + Rendered(f, args)
  {
    hide Typed, Render, Fits, ArgText;
    var p, k := 0, 0;
    while f[p] != '\0'
      invariant p < |f| && iob.Valid() && Typed(f, p, args, k)
      invariant iob.out + Render(f, p, args, k) == old(iob.out) + Rendered(f, args)
      decreases |f| - p
    {
      p := FormatPlain(iob, f, p, args, k);
      if f[p] == '\0' {
        break;
      }
      Unfold(f, p, args, k);
      ghost var out, from, arg := iob.out, p, k;
      p := p + 1;
      p, k := FormatField(iob, f, p, args, k);
      assert iob.out + Render(f, p, args, k) == out + Render(f, from, args, arg);
    }
    RenderEnds(f, p, args, k);
  }

  lemma RenderEnds(f: Text, p: nat, args: seq<Arg>, k: nat)
    requires p < |f| && f[p] == '\0' && Typed(f, p, args, k)
    ensures Render(f, p, args, k) == ""
  {
  }

  /** The inner loop: everything up to the next percent sign. */
  method FormatPlain(iob: IoBuf, f: Text, p: nat, args: seq<Arg>, k: nat) returns (q: nat)
    requires iob.Valid() && p < |f| && Typed(f, p, args, k)
    modifies iob, iob.data
    ensures iob.Valid() && p <= q < |f| && (f[q] == '\0' || f[q] == '%') && Typed(f, q, args, k)
    ensures iob.out + Render(f, q, args, k) == old(iob.out) + Render(f, p, args, k)
  {
    hide Typed, Render, Fits, ArgText;
    q := p;
    while f[q] != '\0' && f[q] != '%'
      invariant p <= q < |f| && iob.Valid() && Typed(f, q, args, k)
      invariant iob.out + Render(f, q, args, k) == old(iob.out) + Render(f, p, args, k)
      decreases |f| - q
    {
      PlainStep(f, q, args, k);
      ghost var out, rest := iob.out, Render(f, q + 1, args, k);
      iob.Write([f[q]]);
      assert out + ([f[q]] + rest) == out + [f[q]] + rest;
      q := q + 1;
    }
  }

  lemma PlainStep(f: Text, p: nat, args: seq<Arg>, k: nat)
    requires p < |f| && f[p] != '\0' && f[p] != '%' && Typed(f, p, args, k)
    ensures p + 1 < |f| && Typed(f, p + 1, args, k)
    ensures Render(f, p, args, k) == [f[p]] + Render(f, p + 1, args, k)
  {
  }

  lemma Unfold(f: Text, p: nat, args: seq<Arg>, k: nat)
    requires p < |f| && f[p] == '%' && Typed(f, p, args, k)
    ensures if IsDirective(f[p + 1]) then
              && k < |args| && Fits(args[k], f[p + 1]) && p + 2 < |f| && Typed(f, p + 2, args, k + 1)
              && Render(f, p, args, k) == ArgText(args[k]) + Render(f, p + 2, args, k + 1)
            else Typed(f, p + 1, args, k) && Render(f, p, args, k) == "%" + Render(f, p + 1, args, k)
  {
  }

  // ----- the public functions -----

  /** What cpyf leaves in a destination that held `was`. */
  function AfterCpyf(was: seq<char>, size: nat, f: Text, args: seq<Arg>): (now: seq<char>)
    requires size <= |was| && Typed(f, 0, args, 0)
    ensures |now| == |was|
  {
    var text := Rendered(f, args);
    var n := Min(size, |text|);
    text[..n] + was[n..]
  }

  /** What slcpyf leaves: one character less, and a terminator. */
  function AfterSlcpyf(was: seq<char>, size: nat, f: Text, args: seq<Arg>): (now: seq<char>)
    requires size <= |was| && Typed(f, 0, args, 0)
    ensures |now| == |was|
  {
    if size == 0 then was
    else
      var text := Rendered(f, args);
      var n := Min(size - 1, |text|);
      text[..n] + ['\0'] + was[n + 1..]
  }

  /** cpyf: the first `size` characters of the rendering, and the rest untouched; the full length is returned. */
  method Cpyf(dst: array<char>, size: nat, f: Text, args: seq<Arg>) returns (total: nat)
    requires size <= dst.Length && Typed(f, 0, args, 0)
    modifies dst
    ensures total == |Rendered(f, args)|
    ensures dst[..] == AfterCpyf(old(dst[..]), size, f, args)
    ensures var n := Min(size, total);
            dst[..] == Rendered(f, args)[..n] + old(dst[n..]) && (total == n <==> total <= size)
  {
    hide Typed, Render;
    var iob := new IoBuf(dst, size);
    FormatStr(iob, f, args);
    assert iob.out == Rendered(f, args);
    total := iob.len + iob.disc;
  }

  /** A terminator behind the text, or on its last character if there is no room behind it. */
  lemma TerminatorAt(text: string, was: seq<char>, at: nat)
    requires |text| <= |was| && at < |was| && (at == |text| || at + 1 == |text|)
    ensures (text + was[|text|..])[at := '\0'] == text[..at] + ['\0'] + was[at + 1..]
  {
  }

  /** slcpyf: like strlcpy, cut off one earlier and terminated, unless there is no room at all. */
  method Slcpyf(dst: array<char>, size: nat, f: Text, args: seq<Arg>) returns (total: nat)
    requires size <= dst.Length && Typed(f, 0, args, 0)
    modifies dst
    ensures total == |Rendered(f, args)|
    ensures dst[..] == AfterSlcpyf(old(dst[..]), size, f, args)
    ensures size > 0 ==> var n := Min(size - 1, total); dst[..n] == Rendered(f, args)[..n] && dst[n] == '\0'
  {
    hide Typed, Render, Rendered, AfterSlcpyf;
    ghost var was, text := dst[..], Rendered(f, args);
    SlcpyfSplits(was, size, f, args);
    var iob := new IoBuf(dst, size);
    FormatStr(iob, f, args);
    assert iob.out == text;
    assert dst[..] == text[..iob.len] + was[iob.len..];
    if size > 0 {
      var at := iob.len - if iob.len == size then 1 else 0;
      TerminatorAt(text[..iob.len], was, at);
      assert text[..iob.len][..at] == text[..at];
      ghost var now := dst[..];
      dst[at] := '\0';
      assert dst[..] == now[at := '\0'];
      assert dst[..at] == dst[..][..at];
    }
    total := iob.len + iob.disc;
  }

  lemma SlcpyfSplits(was: seq<char>, size: nat, f: Text, args: seq<Arg>)
    requires size <= |was| && Typed(f, 0, args, 0)
    ensures var text, now := Rendered(f, args), AfterSlcpyf(was, size, f, args);
            if size == 0 then now == was
            else
              var n := Min(size - 1, |text|);
              now == text[..n] + ['\0'] + was[n + 1..] && now[..n] == text[..n] && now[n] == '\0'
  {
  }

  /** The same format at a larger capacity: what was written only gets longer, whatever the destinations held. */
  lemma SmallerIsPrefix(was: seq<char>, other: seq<char>, a: nat, b: nat, f: Text, args: seq<Arg>)
    requires a <= |was| && a <= b <= |other| && Typed(f, 0, args, 0)
    ensures var total := |Rendered(f, args)|;
            AfterCpyf(was, a, f, args)[..Min(a, total)] <= AfterCpyf(other, b, f, args)[..Min(b, total)]
    ensures a > 0 ==>
              var total := |Rendered(f, args)|;
              AfterSlcpyf(was, a, f, args)[..Min(a - 1, total)] <= AfterSlcpyf(other, b, f, args)[..Min(b - 1, total)]
  {
    hide Typed, Render;
  }

  lemma {:induction false} HexHasNoNul(n: nat)
    ensures '\0' !in HexNumeral(n)
  {
    HexDigitsHaveNoNul();
    if n >= 16 {
      HexHasNoNul(n / 16);
    }
  }

  lemma HexDigitsHaveNoNul()
    ensures forall d :: 0 <= d < 16 ==> HEX_DIGITS[d] != '\0'
  {
  }

  lemma ArgHasNoNul(a: Arg)
    ensures '\0' !in ArgText(a)
  {
    hide Decimal, HexNumeral;
    HexDigitsHaveNoNul();
    match a {
      case IntArg(c) =>
        var d: int := c;
        assert AllDigits(Decimal(if d < 0 then -d else d));
      case StrArg(_) =>
      case NullArg =>
      case ChrArg(_) =>
      case HexArg(n) => HexHasNoNul(n);
      case PtrArg(p) => HexHasNoNul(p);
    }
  }

  /** Nothing that is rendered has a NUL in it. */
  lemma {:induction false} RenderHasNoNul(f: Text, p: nat, args: seq<Arg>, k: nat)
    requires p < |f| && Typed(f, p, args, k)
    ensures '\0' !in Render(f, p, args, k)
    decreases |f| - p
  {
    hide ArgText, Fits;
    if f[p] == '\0' {
    } else if f[p] != '%' || !IsDirective(f[p + 1]) {
      RenderHasNoNul(f, p + 1, args, k);
    } else {
      RenderHasNoNul(f, p + 2, args, k + 1);
      ArgHasNoNul(args[k]);
    }
  }

  /** slcpyf leaves a C string, whatever it renders. */
  lemma SlcpyfTerminates(was: seq<char>, size: nat, f: Text, args: seq<Arg>)
    requires 0 < size <= |was| && Typed(f, 0, args, 0)
    ensures Holds(AfterSlcpyf(was, size, f, args), Rendered(f, args)[..Min(size - 1, |Rendered(f, args)|)])
  {
    RenderedHasNoNul(f, args);
    SlcpyfSplits(was, size, f, args);
    hide Typed, Rendered, AfterSlcpyf, Holds;
    var n := Min(size - 1, |Rendered(f, args)|);
    var text, rest := Rendered(f, args)[..n], was[n + 1..];
    assert text + ['\0'] + rest == text + (['\0'] + rest);
    HoldsBuilt(AfterSlcpyf(was, size, f, args), text, ['\0'] + rest);
  }

  lemma RenderedHasNoNul(f: Text, args: seq<Arg>)
    requires Typed(f, 0, args, 0)
    ensures '\0' !in Rendered(f, args)
  {
    RenderHasNoNul(f, 0, args, 0);
  }

  /** Two characters into room for one: one is written, and two are returned. */
  lemma ReturnsMoreThanWritten(c: char)
    ensures var f: Text := "ab" + ['\0'];
            Typed(f, 0, [], 0) && Rendered(f, []) == "ab" && AfterCpyf([c, c], 1, f, []) == ['a', c]
  {
    var f: Text := "ab" + ['\0'];
    assert f[0] == 'a' && f[1] == 'b' && f[2] == '\0';
    assert Typed(f, 2, [], 0) && Render(f, 2, [], 0) == "";
    assert Typed(f, 1, [], 0) && Render(f, 1, [], 0) == "b";
    assert Rendered(f, []) == "ab";
  }
}
