/** The cron parser: a moving position in the string, eight-bit counters, and five flag arrays filled in place. */
module CronParser {
  import opened CStrings
  import opened Numerals
  import opened CronSpec

  const NULL: int := -1

  /** `c` is `b` with the marks added. */
  ghost predicate Added(b: seq<bool>, c: seq<bool>, marks: set<nat>) {
    |c| == |b| && forall i :: 0 <= i < |b| ==> (c[i] <==> b[i] || i in marks)
  }

  lemma AddedTwice(b: seq<bool>, c: seq<bool>, d: seq<bool>, first: set<nat>, second: set<nat>)
    requires Added(b, c, first) && Added(c, d, second)
    ensures Added(b, d, first + second)
  {
  }

  lemma AddedNothing(b: seq<bool>)
    ensures Added(b, b, {})
  {
  }

  lemma AddedOne(b: seq<bool>, c: seq<bool>, marks: set<nat>, i: nat)
    requires Added(b, c, marks) && i < |c|
    ensures Added(b, c[i := true], marks + {i})
  {
  }

  // ----- the fill loop -----

  /** What the loop has set when its counter is at `i`. */
  ghost function Done(from: nat, to: nat, step: nat, i: nat): set<nat>
    requires 0 < step < 256
  {
    set v | v in Filled(from, to, step) && if step <= LAST_SAFE_STEP then v < i else i < v
  }

  lemma CountUp(from: nat, to: nat, step: nat, i: nat)
    requires 0 < step <= LAST_SAFE_STEP && to < 60 && i in Filled(from, to, step)
    ensures i + step <= 255
    ensures i + step <= to ==> i + step in Filled(from, to, step)
                               && Done(from, to, step, i + step) == Done(from, to, step, i) + {i}
    ensures i + step > to ==> Filled(from, to, step) == Done(from, to, step, i) + {i}
  {
    GridShift(i + step, from + step, step);
    assert OnGrid(i + step, from + step, step);
    forall v: nat | i < v < i + step
      ensures !OnGrid(v, from, step)
    {
      GapFree(i, v, from, step);
    }
  }

  lemma CountDown(from: nat, to: nat, step: nat, i: nat)
    requires LAST_SAFE_STEP < step < 256 && to < 60 && i in Filled(from, to, step)
    ensures var gap := 256 - step;
            && (i < gap ==> i + step > to && Filled(from, to, step) == Done(from, to, step, i) + {i})
            && (i >= gap ==> i - gap in Filled(from, to, step)
                             && Done(from, to, step, i - gap) == Done(from, to, step, i) + {i})
  {
    var gap := 256 - step;
    GridShift(i - gap, from - gap, gap);
    assert OnGrid(i - gap, from - gap, gap);
    forall v: nat | i - gap < v < i
      ensures !OnGrid(v, from, gap)
    {
      GapFree(i - gap, v, from, gap);
    }
  }

  /** `for (i = from; i <= to; i += step) buf[i] = true;` on eight bits. */
  method FillLoop(buf: array<bool>, from: nat, to: nat, step: nat)
    requires from < 256 && to < 60 && to < buf.Length && step < 256
    requires from <= to ==> step > 0
    modifies buf
    ensures Added(old(buf[..]), buf[..], if from > to then {} else Filled(from, to, step))
  {
    hide Filled, Done, Added, Next8, TurnsLeft;
    ghost var was := buf[..];
    AddedNothing(was);
    var i := from;
    if from <= to {
      FirstIsFilled(from, to, step);
    }
    while i <= to
      invariant i < 256
      invariant from <= to && i <= to ==> i in Filled(from, to, step) && Added(was, buf[..], Done(from, to, step, i))
      invariant from <= to && i > to ==> Added(was, buf[..], Filled(from, to, step))
      invariant from > to ==> i > to && buf[..] == was
      decreases TurnsLeft(to, step, i)
    {
      ghost var now, marks := buf[..], Done(from, to, step, i);
      Advance(from, to, step, i);
      AddedOne(was, now, marks, i);
      buf[i] := true;
      assert buf[..] == now[i := true];
      i := Next8(i, step);
    }
  }

  /** `i += step` on a uint8_t */
  function Next8(i: nat, step: nat): nat {
    (i + step) % 256
  }

  function TurnsLeft(to: nat, step: nat, i: nat): nat
    requires i < 256
  {
    if i > to then 0 else if step <= LAST_SAFE_STEP then 256 - i else i + 1
  }

  lemma Advance(from: nat, to: nat, step: nat, i: nat)
    requires 0 < step < 256 && to < 60 && i <= to && i in Filled(from, to, step)
    ensures var n := Next8(i, step);
            && n < 256 && TurnsLeft(to, step, n) < TurnsLeft(to, step, i)
            && (n <= to ==> n in Filled(from, to, step) && Done(from, to, step, n) == Done(from, to, step, i) + {i})
            && (n > to ==> Filled(from, to, step) == Done(from, to, step, i) + {i})
  {
    hide Filled, Done;
    if step <= LAST_SAFE_STEP {
      CountUp(from, to, step, i);
    } else {
      CountDown(from, to, step, i);
    }
  }

  lemma FirstIsFilled(from: nat, to: nat, step: nat)
    requires 0 < step < 256 && from <= to
    ensures from in Filled(from, to, step) && Done(from, to, step, from) == {}
  {
  }

  /** With step 0 the counter never moves, so the loop runs forever. */
  lemma {:induction false} StepZeroNeverEnds(from: nat, to: nat, k: nat)
    requires from <= to < 60
    ensures Counter(from, 0, k) == from <= to
  {
    if k > 0 {
      StepZeroNeverEnds(from, to, k - 1);
    }
  }

  /** The loop counter after `k` turns. */
  function Counter(from: nat, step: nat, k: nat): nat {
    if k == 0 then from else (Counter(from, step, k - 1) + step) % 256
  }

  // ----- the parser -----

  method ParseNumber(s: Text, p: nat) returns (q: nat, n: nat)
    requires p < |s|
    ensures q == DigitsEnd(s, p) && n == Number(s, p)
  {
    hide AllDigits, IsDigit, DigitValue;
    q, n := p, 0;
    assert s[p..q] == [];
    NoDigits();
    while IsDigit(s[q])
      invariant p <= q < |s| && DigitsEnd(s, q) == DigitsEnd(s, p)
      invariant AllDigits(s[p..q]) && n == DecimalValue(s[p..q]) % 256
      decreases |s| - q
    {
      NextDigit(s, p, q, n);
      n := n * 10 % 256;
      n := (n + DigitValue(s[q])) % 256;
      q := q + 1;
    }
  }

  lemma NoDigits()
    ensures AllDigits("") && DecimalValue("") == 0
  {
  }

  lemma NextDigit(s: Text, p: nat, q: nat, n: nat)
    requires p <= q < |s| && IsDigit(s[q])
    requires AllDigits(s[p..q]) && n == DecimalValue(s[p..q]) % 256
    ensures AllDigits(s[p..q + 1]) && DecimalValue(s[p..q + 1]) % 256 == (n * 10 % 256 + DigitValue(s[q])) % 256
  {
    hide AllDigits, DecimalValue, IsDigit, DigitValue;
    SliceSnoc(s, p, q);
    ValueSnoc(s[p..q], s[q]);
    EightBitStep(DecimalValue(s[p..q]), DigitValue(s[q]));
  }

  lemma EightBitStep(value: nat, digit: nat)
    ensures (value % 256 * 10 % 256 + digit) % 256 == (10 * value + digit) % 256
  {
    var q, r := value / 256, value % 256;
    var t, u := r * 10 / 256, r * 10 % 256;
    var k, sum := (u + digit) / 256, (u + digit) % 256;
    assert 10 * value + digit == 256 * (10 * q + t + k) + sum;
    ModUnique(10 * value + digit, 256, 10 * q + t + k, sum);
  }

  method SkipBlanks(s: Text, p: nat) returns (q: nat)
    requires p < |s|
    ensures q == SkipSpaces(s, p)
  {
    q := p;
    while IsSpace(s[q])
      invariant p <= q < |s| && SkipSpaces(s, q) == SkipSpaces(s, p)
      decreases |s| - q
    {
      q := q + 1;
    }
  }

  /** The result of a parsing function: a position or NULL. */
  predicate Returns(q: int, r: Parse) {
    (r.At? && q == r.pos) || (r.Null? && q == NULL)
  }

  function MarksOf(r: Parse): set<nat>
    requires !r.Endless?
  {
    r.marks
  }

  method ParseStar(s: Text, p: nat, buf: array<bool>, min: nat, max: nat) returns (q: nat)
    requires p < |s| && s[p] == '*' && Bounds(min, max) && max < buf.Length && !StarElement(s, p, min, max).Endless?
    modifies buf
    ensures q == StarElement(s, p, min, max).pos
    ensures Added(old(buf[..]), buf[..], StarElement(s, p, min, max).marks)
  {
    hide DigitsEnd, Number, Filled, Added;
    var step;
    q := p + 1;
    if s[q] == '/' {
      q := q + 1;
      q, step := ParseNumber(s, q);
    } else {
      step := 1;
    }
    FillLoop(buf, min, max, step);
  }

  method ParseRange(s: Text, p: nat, first: nat, buf: array<bool>, min: nat, max: nat) returns (q: nat)
    requires p < |s| && first < 256 && Bounds(min, max) && max < buf.Length
    requires !RangeElement(s, p, first, min, max).Endless?
    modifies buf
    ensures q == RangeElement(s, p, first, min, max).pos
    ensures Added(old(buf[..]), buf[..], RangeElement(s, p, first, min, max).marks)
  {
    hide DigitsEnd, Number, Filled, Added;
    var from, to, step := first, 0, 1;
    q, to := ParseNumber(s, p);
    if s[q] == '/' {
      q := q + 1;
      q, step := ParseNumber(s, q);
    }
    if from < min {
      from := min;
    }
    if to > max {
      to := max;
    }
    if from > max {
      from := max;
    }
    FillLoop(buf, from, to, step);
  }

  method ParseNumeric(s: Text, p: nat, buf: array<bool>, min: nat, max: nat) returns (q: nat)
    requires p < |s| && IsDigit(s[p]) && Bounds(min, max) && max < buf.Length
    requires !NumericElement(s, p, min, max).Endless?
    modifies buf
    ensures q == NumericElement(s, p, min, max).pos
    ensures Added(old(buf[..]), buf[..], NumericElement(s, p, min, max).marks)
  {
    hide DigitsEnd, Number, RangeElement, Added;
    ghost var was := buf[..];
    var from;
    q, from := ParseNumber(s, p);
    if s[q] != '-' {
      if from > max {
        from := max;
      }
      buf[from] := true;
      AddedNothing(was);
      AddedOne(was, was, {}, from);
      assert buf[..] == was[from := true] && {} + {from} == {from};
    } else {
      q := q + 1;
      q := ParseRange(s, q, from, buf, min, max);
    }
  }

  method ParseElement(s: Text, p: nat, buf: array<bool>, min: nat, max: nat) returns (q: int)
    requires p < |s| && Bounds(min, max) && max < buf.Length && !Element(s, p, min, max).Endless?
    modifies buf
    ensures Returns(q, Element(s, p, min, max))
    ensures Added(old(buf[..]), buf[..], MarksOf(Element(s, p, min, max)))
  {
    hide SkipSpaces, StarElement, NumericElement, Added;
    AddedNothing(buf[..]);
    var at := SkipBlanks(s, p);
    if s[at] == '*' {
      q := ParseStar(s, at, buf, min, max);
    } else if IsDigit(s[at]) {
      q := ParseNumeric(s, at, buf, min, max);
    } else {
      q := NULL;
    }
  }

  method ParseList(s: Text, p: int, buf: array<bool>, min: nat, max: nat) returns (q: int)
    requires p == NULL || 0 <= p < |s|
    requires Bounds(min, max) && max < buf.Length && (p != NULL ==> !List(s, p, min, max).Endless?)
    modifies buf
    ensures p == NULL ==> q == NULL && buf[..] == old(buf[..])
    ensures p != NULL ==> Returns(q, List(s, p, min, max))
                          && Added(old(buf[..]), buf[..], MarksOf(List(s, p, min, max)))
  {
    if p == NULL {
      return NULL;
    }
    var at := SkipBlanks(s, p);
    if !IsEol(s[at]) {
      q := ParseElements(s, at, buf, min, max);
    } else {
      FillLoop(buf, min, max, 1);
      q := at;
    }
  }

  lemma NoMarks(r: Parse)
    ensures AddMarks({}, r) == r
  {
  }

  lemma AddMarksTwice(marks: set<nat>, r: Parse, rest: Parse)
    requires !r.Endless?
    ensures AddMarks(marks, AddMarks(r.marks, rest)) == AddMarks(marks + r.marks, rest)
  {
  }

  /** The loop over comma-separated elements, and the character it jumps over after them. */
  method ParseElements(s: Text, p: nat, buf: array<bool>, min: nat, max: nat) returns (q: int)
    requires p < |s| && Bounds(min, max) && max < buf.Length && !Elements(s, p, min, max).Endless?
    modifies buf
    ensures Returns(q, Elements(s, p, min, max))
    ensures Added(old(buf[..]), buf[..], MarksOf(Elements(s, p, min, max)))
  {
    hide Element, Added, IsSpace, IsEol;
    ghost var was, all := buf[..], Elements(s, p, min, max);
    ghost var marks: set<nat> := {};
    AddedNothing(was);
    NoMarks(all);
    q := p;
    while true
      invariant 0 <= q < |s| && !Elements(s, q, min, max).Endless?
      invariant Added(was, buf[..], marks) && AddMarks(marks, Elements(s, q, min, max)) == all
      decreases |s| - q
    {
      ghost var r, now := Element(s, q, min, max), buf[..];
      q := ParseElement(s, q, buf, min, max);
      AddedTwice(was, now, buf[..], marks, MarksOf(r));
      AddMarksTwice(marks, r, if r.At? && s[r.pos] == ',' then Elements(s, r.pos + 1, min, max) else r);
      marks := marks + MarksOf(r);
      if q == NULL {
        return;
      }
      if s[q] != ',' {
        break;
      }
      q := q + 1;
    }
    if !IsSpace(s[q]) && !IsEol(s[q]) {
      q := q + 1;
    }
  }

  class Cron {
    const minutes: array<bool>
    const hours: array<bool>
    const mdays: array<bool>
    const months: array<bool>
    const wdays: array<bool>

    ghost predicate Valid() {
      && minutes.Length == 60 && hours.Length == 24 && mdays.Length == 32 && months.Length == 13 && wdays.Length == 8
      && minutes != hours && minutes != mdays && minutes != months && minutes != wdays
      && hours != mdays && hours != months && hours != wdays
      && mdays != months && mdays != wdays && months != wdays
    }

    constructor ()
      ensures Valid() && fresh(minutes) && fresh(hours) && fresh(mdays) && fresh(months) && fresh(wdays)
    {
      minutes, hours, mdays, months, wdays := new bool[60], new bool[24], new bool[32], new bool[13], new bool[8];
    }

    /** The flags that are set. */
    ghost function View(): Flags
      reads minutes, hours, mdays, months, wdays
    {
      Flags(Marked(minutes[..]), Marked(hours[..]), Marked(mdays[..]), Marked(months[..]), Marked(wdays[..]))
    }

    /** One entry: each list adds to its own array; a NULL goes through the rest untouched. */
    method ParseEntry(s: Text, p: nat) returns (q: int)
      requires Valid() && p < |s| && !Entry(s, p).Forever?
      modifies minutes, hours, mdays, months, wdays
      ensures var r := Entry(s, p);
              && q == (if r.Next? then r.pos else NULL)
              && View() == Union(old(View()), r.flags)
    {
      hide List, Marked, AfterEntry;
      q := RunList(s, p, minutes, 0, 59);
      q := RunList(s, q, hours, 0, 23);
      q := RunList(s, q, mdays, 1, 31);
      q := RunList(s, q, months, 1, 12);
      q := RunList(s, q, wdays, 0, 6);
      if q == NULL {
        return;
      }
      q := NextEntry(s, q);
    }

    method Clear()
      requires Valid()
      modifies minutes, hours, mdays, months, wdays
      ensures View() == NO_FLAGS
    {
      ClearFlags(minutes);
      ClearFlags(hours);
      ClearFlags(mdays);
      ClearFlags(months);
      ClearFlags(wdays);
    }

    /** cron_check: a null or empty string leaves the arrays alone; otherwise they become what the string says. */
    method Check(s: Text, isNull: bool) returns (result: bool)
      requires Valid() && (isNull || NonZeroSteps(s) || !CronSpec.Check(s).Hangs?)
      modifies minutes, hours, mdays, months, wdays
      ensures !result && (isNull || !CronSpec.Check(s).Hangs?)
      ensures View() == if isNull || s[0] == '\0' then old(View()) else CronSpec.Check(s).flags
    {
      hide Entries, NonZeroSteps, IsSpace, Union;
      if NonZeroSteps(s) {
        CheckEnds(s);
      }
      result := false;
      if isNull || s[0] == '\0' {
        return;
      }
      var p := SkipBlanks(s, 0);
      if s[p] == 'Z' {
        p := p + 1;
      } else if s[p] == 'L' {
        p := p + 1;
      }
      Clear();
      ParseEntries(s, p);
      assert wdays[7] ==> 7 in View().wdays;
      SevenIsSunday();
    }

    /** Day 7 would count as day 0, but no entry ever sets it. */
    method SevenIsSunday()
      requires Valid()
      modifies wdays
      ensures wdays[..] == if old(wdays[7]) then old(wdays[..])[0 := true] else old(wdays[..])
    {
      if wdays[7] {
        wdays[0] := true;
      }
    }

    method ParseEntries(s: Text, start: nat)
      requires Valid() && start < |s| && !Entries(s, start).Hangs? && View() == NO_FLAGS
      modifies minutes, hours, mdays, months, wdays
      ensures View() == Entries(s, start).flags
    {
      hide Entry, Entries, Union, Marked, InRange;
      ghost var all := Entries(s, start).flags;
      UnionWithNothing(all);
      var p: int := start;
      var more := true;
      while more
        invariant more ==> 0 <= p < |s| && !Entries(s, p).Hangs? && Union(View(), Entries(s, p).flags) == all
        invariant !more ==> View() == all
        decreases more, |s| - p
      {
        OneEntry(s, p, View());
        p := ParseEntry(s, p);
        more := p != NULL && s[p] != '\0';
      }
    }
  }

  lemma UnionWithNothing(f: Flags)
    ensures Union(NO_FLAGS, f) == f
  {
  }

  /** What one turn of the entry loop leaves to be done. */
  lemma OneEntry(s: Text, p: nat, view: Flags)
    requires p < |s| && !Entries(s, p).Hangs?
    ensures var r, whole := Entry(s, p), Union(view, Entries(s, p).flags);
            && !r.Forever?
            && if r.Next? && s[r.pos] != '\0' then
                 p < r.pos && !Entries(s, r.pos).Hangs? && Union(Union(view, r.flags), Entries(s, r.pos).flags) == whole
               else Union(view, r.flags) == whole
  {
    hide Entry, InRange;
    assert s[p] == '\0' ==> p == |s| - 1;
  }

  method RunList(s: Text, p: int, buf: array<bool>, min: nat, max: nat) returns (q: int)
    requires p == NULL || 0 <= p < |s|
    requires Bounds(min, max) && max < buf.Length && (p != NULL ==> !List(s, p, min, max).Endless?)
    modifies buf
    ensures q == if p == NULL || List(s, p, min, max).Null? then NULL else List(s, p, min, max).pos
    ensures Marked(buf[..]) == old(Marked(buf[..])) + if p == NULL then {} else List(s, p, min, max).marks
  {
    hide List, Marked;
    ghost var was := buf[..];
    q := ParseList(s, p, buf, min, max);
    if p != NULL {
      MarkedAdded(was, buf[..], MarksOf(List(s, p, min, max)), max);
    }
  }

  ghost function Marked(b: seq<bool>): set<nat> {
    set i | 0 <= i < |b| && b[i]
  }

  lemma MarkedAdded(b: seq<bool>, c: seq<bool>, marks: set<nat>, max: nat)
    requires Added(b, c, marks) && Within(marks, max) && max < |b|
    ensures Marked(c) == Marked(b) + marks
  {
  }

  method ClearFlags(b: array<bool>)
    modifies b
    ensures Marked(b[..]) == {}
  {
    var i := 0;
    while i < b.Length
      invariant i <= b.Length
      invariant forall k :: 0 <= k < i ==> !b[k]
    {
      b[i] := false;
      i := i + 1;
    }
  }

  method NextEntry(s: Text, p: nat) returns (q: nat)
    requires p < |s|
    ensures q == AfterEntry(s, p)
  {
    q := p;
    while !IsEol(s[q])
      invariant p <= q < |s| && EolAt(s, q) == EolAt(s, p)
      decreases |s| - q
    {
      q := q + 1;
    }
    if s[q] == ';' {
      q := q + 1;
    }
    q := SkipBlanks(s, q);
  }
}
