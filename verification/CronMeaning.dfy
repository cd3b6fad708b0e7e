/** What well-formed cron strings mean, by the numbers written in them, and exactly when the parser agrees. */
module CronMeaning {
  import opened CStrings
  import opened Numerals
  import opened CronSpec
  import opened CronSyntax

  // ----- items -----

  /** `v` is a whole number of steps away from `first`. */
  predicate StepsFrom(v: int, first: int, step: nat)
    requires step > 0
  {
    (v - first) % step == 0
  }

  /** Every `step`-th value from `first` on, up to both bounds; none for step 0. */
  function EveryStep(first: nat, last: nat, max: nat, step: nat): set<nat> {
    if step == 0 then {} else set v: nat | first <= v <= last && v <= max && StepsFrom(v, first, step)
  }

  function AllBetween(min: nat, max: nat): (all: set<nat>)
    ensures forall v: nat :: v in all <==> min <= v <= max
  {
    EveryStep(min, max, max, 1)
  }

  /** From `a` to `b` in steps, so far as it is between the bounds; a start past the upper bound counts as that one. */
  function Interval(a: nat, b: nat, step: nat, min: nat, max: nat): set<nat> {
    if a > max then if b >= max && step > 0 then {max} else {}
    else EveryStep(if a < min then min else a, b, max, step)
  }

  /** The values an item stands for. */
  function Denotes(x: Item, min: nat, max: nat): set<nat>
    requires GoodItem(x)
  {
    match x
    case Star => AllBetween(min, max)
    case StarStep(step) => EveryStep(min, max, max, DecimalValue(step))
    case Single(n) => if DecimalValue(n) > max then {max} else {DecimalValue(n)}
    case Range(a, b) => Interval(DecimalValue(a), DecimalValue(b), 1, min, max)
    case RangeStep(a, b, step) => Interval(DecimalValue(a), DecimalValue(b), DecimalValue(step), min, max)
  }

  // ----- the same with clamped bounds -----

  /** The written numbers of an item, clamped. */
  function Written(x: Item, min: nat, max: nat): Span
    requires GoodItem(x) && !x.Single?
  {
    match x
    case Star => Span(min, max, 1)
    case StarStep(step) => Span(min, max, DecimalValue(step))
    case Range(a, b) => Span(ClampFrom(DecimalValue(a), min, max), ClampTo(DecimalValue(b), max), 1)
    case RangeStep(a, b, step) =>
      Span(ClampFrom(DecimalValue(a), min, max), ClampTo(DecimalValue(b), max), DecimalValue(step))
  }

  predicate Empty(s: Span) {
    s.from > s.to || s.step == 0
  }

  function Values(s: Span): set<nat> {
    if Empty(s) then {} else Progression(s.from, s.to, s.step)
  }

  lemma EveryStepIs(first: nat, last: nat, max: nat, step: nat)
    ensures EveryStep(first, last, max, step) == Values(Span(first, ClampTo(last, max), step))
  {
    if step > 0 {
      assert forall v: nat :: StepsFrom(v, first, step) <==> OnGrid(v, first, step);
      hide OnGrid, StepsFrom;
    }
  }

  lemma IntervalIs(a: nat, b: nat, step: nat, min: nat, max: nat)
    requires Bounds(min, max)
    ensures Interval(a, b, step, min, max) == Values(Span(ClampFrom(a, min, max), ClampTo(b, max), step))
  {
    hide EveryStep, Values;
    if a <= max {
      EveryStepIs(if a < min then min else a, b, max, step);
    } else {
      OnlyTheBound(b, step, max);
    }
  }

  lemma OnlyTheBound(b: nat, step: nat, max: nat)
    ensures Values(Span(max, ClampTo(b, max), step)) == if b >= max && step > 0 then {max} else {}
  {
    if step > 0 {
      GridPoint(max, max, step);
    }
  }

  /** An item other than a single number stands for the progression over its clamped bounds. */
  lemma DenotesIs(x: Item, min: nat, max: nat)
    requires GoodItem(x) && !x.Single? && Bounds(min, max)
    ensures Denotes(x, min, max) == Values(Written(x, min, max))
  {
    hide DecimalValue, Interval, EveryStep, Values;
    match x {
      case Star => EveryStepIs(min, max, max, 1);
      case StarStep(step) => EveryStepIs(min, max, max, DecimalValue(step));
      case Range(a, b) => IntervalIs(DecimalValue(a), DecimalValue(b), 1, min, max);
      case RangeStep(a, b, step) => IntervalIs(DecimalValue(a), DecimalValue(b), DecimalValue(step), min, max);
    }
  }

  /** The largest value of a progression. */
  function Last(s: Span): int
    requires !Empty(s)
  {
    s.to - (s.to - s.from) % s.step
  }

  /** Both are empty, or they start and end alike and step alike if they step at all. */
  predicate SameValues(s: Span, w: Span) {
    if Empty(s) then Empty(w)
    else !Empty(w) && s.from == w.from && Last(s) == Last(w) && (s.from == Last(s) || s.step == w.step)
  }

  lemma LastIsLast(s: Span)
    requires !Empty(s)
    ensures s.from in Values(s) && Last(s) in Values(s)
    ensures forall v :: v in Values(s) ==> s.from <= v <= Last(s)
    ensures forall v: nat :: v in Values(s) <==> s.from <= v <= Last(s) && OnGrid(v, s.from, s.step)
    ensures s.from < Last(s) ==> s.from + s.step in Values(s)
    ensures forall v :: v in Values(s) && v != s.from ==> s.from + s.step <= v
  {
    var q, r := (s.to - s.from) / s.step, (s.to - s.from) % s.step;
    assert Last(s) - s.from == s.step * q;
    ModUnique(Last(s) - s.from, s.step, q, 0);
    assert OnGrid(Last(s), s.from, s.step);
    GridPoint(s.from, s.from, s.step);
    GridShift(s.from, s.from, s.step);
    GridShift(s.from + s.step, s.from, s.step);
    forall v: nat | v in Values(s)
      ensures v <= Last(s) && (v != s.from ==> s.from + s.step <= v)
    {
      if v > Last(s) {
        GapFree(Last(s), v, s.from, s.step);
      }
      GridPoint(v, s.from, s.step);
    }
    if s.from < Last(s) {
      GridPoint(Last(s), s.from, s.step);
    }
  }

  /** Exactly when two progressions have the same values. */
  lemma SameValuesWhen(s: Span, w: Span)
    ensures Values(s) == Values(w) <==> SameValues(s, w)
  {
    if !Empty(s) {
      LastIsLast(s);
    }
    if !Empty(w) {
      LastIsLast(w);
    }
    hide OnGrid, Values, Last;
    if !Empty(s) && !Empty(w) && s.from == w.from == Last(s) == Last(w) {
      assert Values(s) == {s.from} == Values(w);
    }
  }

  /** The counter does not wrap, and the numbers it counts by are as good as the written ones. */
  predicate AsCounted(s: Span, w: Span) {
    if Empty(s) then Empty(w) else s.from + s.step < 256 && SameValues(s, w)
  }

  lemma CountedIsWrittenWhen(s: Span, w: Span)
    requires s.step < 256 && s.to < 60 && (s.from <= s.to ==> s.step > 0) && s.from <= w.from
    ensures Counted(s) == Values(w) <==> AsCounted(s, w)
  {
    hide SameValues;
    SameValuesWhen(s, w);
    if s.from <= s.to {
      FilledIsProgressionWhen(s.from, s.to, s.step);
      if s.from + s.step >= 256 {
        CountsBelow(s);
        BelowIsNotWritten(s, w);
      }
    } else {
      EmptyAlike(s, w);
    }
  }

  lemma EmptyAlike(s: Span, w: Span)
    requires Empty(s)
    ensures SameValues(s, w) <==> Empty(w)
  {
  }

  /** A counter that wraps goes below its start. */
  lemma CountsBelow(s: Span)
    requires s.from <= s.to < 60 && s.step < 256 <= s.from + s.step
    ensures s.from - (256 - s.step) in Counted(s)
  {
    var gap := 256 - s.step;
    GridPoint(s.from - gap, s.from - gap, gap);
    GridShift(s.from - gap, s.from - gap, gap);
  }

  lemma BelowIsNotWritten(s: Span, w: Span)
    requires s.step < 256 && s.from <= w.from && s.from - (256 - s.step) in Counted(s)
    ensures Counted(s) != Values(w)
  {
    hide OnGrid;
    assert s.from - (256 - s.step) !in Values(w);
  }

  /** The parser sets the values that are written. */
  predicate AsWritten(x: Item, min: nat, max: nat)
    requires GoodItem(x)
  {
    && Live(x, min, max)
    && if x.Single? then DecimalValue(x.n) < 256 || Value(x.n) >= max
       else AsCounted(SpanOf(x, min, max), Written(x, min, max))
  }

  lemma WrittenIsNotBelow(x: Item, min: nat, max: nat)
    requires GoodItem(x) && !x.Single? && Bounds(min, max)
    ensures SpanOf(x, min, max).from <= Written(x, min, max).from && SpanOf(x, min, max).to < 60
  {
    hide Value, DecimalValue;
    match x {
      case Star =>
      case StarStep(step) =>
      case Range(a, _) => RemainderIsNotMore(a);
      case RangeStep(a, _, _) => RemainderIsNotMore(a);
    }
  }

  lemma RemainderIsNotMore(t: string)
    requires Numeral(t)
    ensures Value(t) <= DecimalValue(t)
  {
  }

  /** Exactly when an item sets what it denotes. */
  lemma SetsWhatItDenotesWhen(x: Item, min: nat, max: nat)
    requires GoodItem(x) && Live(x, min, max) && Bounds(min, max)
    ensures Sets8(x, min, max) == Denotes(x, min, max) <==> AsWritten(x, min, max)
  {
    hide AsCounted, Values, Counted;
    if x.Single? {
      assert ClampTo(Value(x.n), max) in Sets8(x, min, max);
    } else {
      WrittenIsNotBelow(x, min, max);
      DenotesIs(x, min, max);
      hide DecimalValue, Value, SpanOf, Written, Denotes;
      CountedIsWrittenWhen(SpanOf(x, min, max), Written(x, min, max));
    }
  }

  // ----- items with small numbers -----

  predicate SmallNumbers(x: Item)
    requires GoodItem(x)
  {
    match x
    case Star => true
    case StarStep(step) => DecimalValue(step) < 256
    case Single(n) => DecimalValue(n) < 256
    case Range(a, b) => DecimalValue(a) < 256 && DecimalValue(b) < 256
    case RangeStep(a, b, step) => DecimalValue(a) < 256 && DecimalValue(b) < 256 && DecimalValue(step) < 256
  }

  /** The eight-bit loop counter does not wrap before it leaves the range. */
  predicate Tame(x: Item, min: nat, max: nat)
    requires GoodItem(x)
  {
    x.Single? || var s := SpanOf(x, min, max); s.from > s.to || (0 < s.step && s.from + s.step < 256)
  }

  lemma SmallValue(t: string)
    requires Numeral(t) && DecimalValue(t) < 256
    ensures Value(t) == DecimalValue(t)
  {
  }

  lemma SmallValues(x: Item)
    requires GoodItem(x) && SmallNumbers(x)
    ensures match x
            case Star => true
            case StarStep(step) => Value(step) == DecimalValue(step)
            case Single(n) => Value(n) == DecimalValue(n)
            case Range(a, b) => Value(a) == DecimalValue(a) && Value(b) == DecimalValue(b)
            case RangeStep(a, b, step) =>
              Value(a) == DecimalValue(a) && Value(b) == DecimalValue(b) && Value(step) == DecimalValue(step)
  {
    hide Value, DecimalValue;
    match x {
      case Star =>
      case StarStep(step) => SmallValue(step);
      case Single(n) => SmallValue(n);
      case Range(a, b) => SmallValue(a); SmallValue(b);
      case RangeStep(a, b, step) => SmallValue(a); SmallValue(b); SmallValue(step);
    }
  }

  /** When no number has to be cut to eight bits, all that matters is that the counter does not wrap. */
  lemma SmallNumbersAsWrittenWhen(x: Item, min: nat, max: nat)
    requires GoodItem(x) && SmallNumbers(x)
    ensures AsWritten(x, min, max) <==> Tame(x, min, max)
  {
    hide DecimalValue, Value, Last;
    SmallValues(x);
    if !x.Single? {
      assert SpanOf(x, min, max) == Written(x, min, max);
    }
  }

  predicate SmallItem(x: Item) {
    && GoodItem(x) && SmallNumbers(x)
    && (x.StarStep? || x.RangeStep? ==> 1 <= DecimalValue(x.step) <= LAST_SAFE_STEP)
  }

  /** Steps from 1 to 196 do not wrap the counter. */
  lemma SmallItemsAsWritten(x: Item, min: nat, max: nat)
    requires SmallItem(x) && Bounds(min, max)
    ensures AsWritten(x, min, max)
  {
    SmallNumbersAsWrittenWhen(x, min, max);
    hide AsWritten, DecimalValue;
  }

  // ----- fields, lines and strings -----

  predicate FieldAsWritten(f: Field, min: nat, max: nat)
    requires GoodField(f)
  {
    forall i :: 0 <= i < |f| ==> AsWritten(f[i].item, min, max)
  }

  predicate LineAsWritten(l: Line)
    requires GoodLine(l)
  {
    forall k :: 0 <= k < |l.fields| ==> FieldAsWritten(l.fields[k], Lower(k), Upper(k))
  }

  /** The union of what the elements denote. */
  function FieldMeaning(f: Field, min: nat, max: nat): set<nat> {
    set i, v | 0 <= i < |f| && GoodItem(f[i].item) && v in Denotes(f[i].item, min, max) :: v
  }

  /** A missing field means the full range. */
  function MeaningOr(fields: seq<Field>, k: nat, min: nat, max: nat): set<nat> {
    if k < |fields| then FieldMeaning(fields[k], min, max) else AllBetween(min, max)
  }

  function LineMeaning(l: Line): Flags {
    Flags(MeaningOr(l.fields, 0, 0, 59), MeaningOr(l.fields, 1, 0, 23), MeaningOr(l.fields, 2, 1, 31),
          MeaningOr(l.fields, 3, 1, 12), MeaningOr(l.fields, 4, 0, 6))
  }

  /** The union over all lines. */
  function LinesMeaning(lines: seq<Line>): Flags {
    if lines == [] then NO_FLAGS else Union(LineMeaning(lines[0]), LinesMeaning(lines[1..]))
  }

  lemma {:induction false} FieldMeaningIs(f: Field, min: nat, max: nat)
    requires GoodField(f) && FieldAsWritten(f, min, max) && Bounds(min, max)
    ensures LiveField(f, min, max) && FieldMarks(f, min, max) == FieldMeaning(f, min, max)
    decreases |f|
  {
    hide Denotes, Sets8;
    assert AsWritten(f[0].item, min, max);
    SetsWhatItDenotesWhen(f[0].item, min, max);
    if |f| > 1 {
      var rest := f[1..];
      forall i | 0 <= i < |rest|
        ensures AsWritten(rest[i].item, min, max)
      {
        assert rest[i] == f[i + 1];
      }
      FieldMeaningIs(rest, min, max);
      forall i | 0 <= i < |f|
        ensures Live(f[i].item, min, max)
      {
        assert i > 0 ==> f[i] == rest[i - 1];
      }
      MeaningSplits(f, min, max);
    } else {
      MeaningOfOne(f, min, max);
    }
  }

  lemma MeaningOfOne(f: Field, min: nat, max: nat)
    requires |f| == 1 && GoodItem(f[0].item)
    ensures FieldMeaning(f, min, max) == Denotes(f[0].item, min, max)
  {
  }

  lemma MeaningSplits(f: Field, min: nat, max: nat)
    requires |f| > 1 && GoodField(f)
    ensures FieldMeaning(f, min, max) == Denotes(f[0].item, min, max) + FieldMeaning(f[1..], min, max)
  {
  }

  lemma FullRange(min: nat, max: nat)
    ensures Progression(min, max, 1) == AllBetween(min, max)
  {
  }

  lemma FieldOrIs(l: Line, k: nat)
    requires GoodLine(l) && LineAsWritten(l) && k < 5
    ensures FieldOr(l.fields, k, Lower(k), Upper(k)) == MeaningOr(l.fields, k, Lower(k), Upper(k))
  {
    hide GoodField, FieldAsWritten, FieldMarks, FieldMeaning, Progression;
    if k < |l.fields| {
      FieldMeaningIs(l.fields[k], Lower(k), Upper(k));
    } else {
      FullRange(Lower(k), Upper(k));
    }
  }

  lemma LineMeaningIs(l: Line)
    requires GoodLine(l) && LineAsWritten(l)
    ensures LiveLine(l) && LineFlags(l) == LineMeaning(l)
  {
    hide GoodField, FieldAsWritten, FieldMarks, FieldMeaning, FieldOr, MeaningOr;
    FieldOrIs(l, 0);
    FieldOrIs(l, 1);
    FieldOrIs(l, 2);
    FieldOrIs(l, 3);
    FieldOrIs(l, 4);
    forall k | 0 <= k < |l.fields|
      ensures LiveField(l.fields[k], Lower(k), Upper(k))
    {
      FieldMeaningIs(l.fields[k], Lower(k), Upper(k));
    }
  }

  lemma {:induction false} LinesMeaningIs(lines: seq<Line>)
    requires forall i :: 0 <= i < |lines| ==> GoodLine(lines[i]) && LineAsWritten(lines[i])
    ensures LiveLines(lines) && LinesFlags(lines) == LinesMeaning(lines)
    decreases |lines|
  {
    hide GoodLine, LineAsWritten, LineFlags, LineMeaning, LiveLine;
    forall i | 0 <= i < |lines|
      ensures LiveLine(lines[i]) && LineFlags(lines[i]) == LineMeaning(lines[i])
    {
      LineMeaningIs(lines[i]);
    }
    if lines != [] {
      LinesMeaningIs(lines[1..]);
      if |lines| == 1 {
        assert Union(LineMeaning(lines[0]), NO_FLAGS) == LineMeaning(lines[0]);
      }
    }
  }

  /** When every item is read as written, the flags are the union of the clamped progressions of the written numbers. */
  lemma StringsMeanWhatIsWritten(c: Crontab)
    requires Good(c) && forall i :: 0 <= i < |c.lines| ==> LineAsWritten(c.lines[i])
    ensures Check(AsText(c)) == Sets(LinesMeaning(c.lines))
  {
    hide GoodLine, LineAsWritten, Check, AsText;
    LinesMeaningIs(c.lines);
    WellFormedStringsDenote(c);
  }

  predicate SmallLine(l: Line) {
    forall k, i :: 0 <= k < |l.fields| && 0 <= i < |l.fields[k]| ==> SmallItem(l.fields[k][i].item)
  }

  lemma SmallLinesAsWritten(l: Line)
    requires GoodLine(l) && SmallLine(l)
    ensures LineAsWritten(l)
  {
    hide SmallItem, AsWritten, GoodItem, Spaces;
    forall k | 0 <= k < |l.fields|
      ensures FieldAsWritten(l.fields[k], Lower(k), Upper(k))
    {
      assert GoodField(l.fields[k]);
      forall i | 0 <= i < |l.fields[k]|
        ensures AsWritten(l.fields[k][i].item, Lower(k), Upper(k))
      {
        SmallItemsAsWritten(l.fields[k][i].item, Lower(k), Upper(k));
      }
    }
  }

  /** Numbers below 256 and steps from 1 to 196 are enough. */
  lemma SmallStringsMeanWhatIsWritten(c: Crontab)
    requires Good(c) && forall i :: 0 <= i < |c.lines| ==> SmallLine(c.lines[i])
    ensures Check(AsText(c)) == Sets(LinesMeaning(c.lines))
  {
    hide SmallLine, LineAsWritten, GoodLine, AsText, LinesMeaning, Check;
    forall i | 0 <= i < |c.lines|
      ensures LineAsWritten(c.lines[i])
    {
      SmallLinesAsWritten(c.lines[i]);
    }
    StringsMeanWhatIsWritten(c);
  }
}
