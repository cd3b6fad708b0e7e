/** Where the flags differ from the documented ranges: values below a minimum of 1, and Sunday written as 7. */
module CronLimits {
  import opened CStrings
  import opened Numerals
  import opened CronSpec
  import opened CronSyntax
  import opened CronMeaning

  // ----- values below the minimum -----

  /** The item sets nothing below a minimum of 1. */
  predicate KeepsMinimum(x: Item, max: nat)
    requires GoodItem(x)
  {
    if x.Single? then Value(x.n) > 0 else CounterKeepsMinimum(SpanOf(x, 1, max))
  }

  /** The range is empty, or the counter does not wrap, or it runs down past zero without meeting it. */
  predicate CounterKeepsMinimum(s: Span)
    requires s.step < 256
  {
    s.from > s.to || s.step <= LAST_SAFE_STEP || s.from % (256 - s.step) != 0
  }

  lemma ZeroOnGrid(from: nat, gap: nat)
    requires gap > 0
    ensures OnGrid(0, from, gap) <==> from % gap == 0
  {
    var q, r := from / gap, from % gap;
    assert from == gap * q + r;
    if r == 0 {
      ModUnique(0 - from, gap, 0 - q, 0);
    } else {
      assert 0 - from == gap * (0 - q - 1) + (gap - r);
      ModUnique(0 - from, gap, 0 - q - 1, gap - r);
    }
  }

  lemma FilledAboveZero(s: Span)
    requires 1 <= s.from <= s.to && 0 < s.step < 256
    ensures 0 !in Filled(s.from, s.to, s.step) <==> CounterKeepsMinimum(s)
    ensures forall v :: v in Filled(s.from, s.to, s.step) ==> v <= s.to
  {
    hide OnGrid;
    if s.step > LAST_SAFE_STEP {
      ZeroOnGrid(s.from, 256 - s.step);
    }
  }

  /** Zero is not clamped when it stands alone, and a counter that wraps may run down into it. */
  lemma KeepsMinimumWhen(x: Item, max: nat)
    requires GoodItem(x) && Live(x, 1, max) && Bounds(1, max)
    ensures 0 !in Sets8(x, 1, max) <==> KeepsMinimum(x, max)
    ensures Between(Sets8(x, 1, max), 1, max) <==> KeepsMinimum(x, max)
  {
    hide Value, Filled, CounterKeepsMinimum;
    if !x.Single? {
      var s := SpanOf(x, 1, max);
      assert 1 <= s.from && s.to <= max;
      if s.from <= s.to {
        FilledAboveZero(s);
      } else {
        EmptyKeepsMinimum(s);
      }
    }
    OnlyZeroIsBelow(Sets8(x, 1, max), max);
  }

  predicate Between(marks: set<nat>, min: nat, max: nat) {
    forall v :: v in marks ==> min <= v <= max
  }

  lemma OnlyZeroIsBelow(marks: set<nat>, max: nat)
    requires Within(marks, max)
    ensures Between(marks, 1, max) <==> 0 !in marks
  {
  }

  lemma EmptyKeepsMinimum(s: Span)
    requires s.from > s.to && s.step < 256
    ensures CounterKeepsMinimum(s)
  {
  }

  predicate FieldKeepsMinimum(f: Field, max: nat)
    requires GoodField(f)
  {
    forall i :: 0 <= i < |f| ==> KeepsMinimum(f[i].item, max)
  }

  lemma {:induction false} FieldKeepsMinimumWhen(f: Field, max: nat)
    requires GoodField(f) && LiveField(f, 1, max) && Bounds(1, max)
    ensures 0 !in FieldMarks(f, 1, max) <==> FieldKeepsMinimum(f, max)
    decreases |f|
  {
    hide Sets8, KeepsMinimum, Live, GoodItem, Spaces;
    KeepsMinimumWhen(f[0].item, max);
    if |f| > 1 {
      LaterElements(f, 1, max);
      FieldKeepsMinimumWhen(f[1..], max);
      assert FieldKeepsMinimum(f, max) <==> KeepsMinimum(f[0].item, max) && FieldKeepsMinimum(f[1..], max) by {
        assert forall i :: 0 < i < |f| ==> f[i] == f[1..][i - 1];
        assert forall i :: 0 <= i < |f[1..]| ==> f[1..][i] == f[i + 1];
      }
    }
  }

  /** The day and month fields, if there are any. */
  predicate LineKeepsMinimum(l: Line)
    requires GoodLine(l)
  {
    && (2 < |l.fields| ==> FieldKeepsMinimum(l.fields[2], 31))
    && (3 < |l.fields| ==> FieldKeepsMinimum(l.fields[3], 12))
  }

  predicate NoZero(f: Flags) {
    0 !in f.mdays && 0 !in f.months
  }

  lemma LineKeepsMinimumWhen(l: Line)
    requires GoodLine(l) && LiveLine(l)
    ensures NoZero(LineFlags(l)) <==> LineKeepsMinimum(l)
  {
    hide FieldMarks, FieldKeepsMinimum, GoodField, LiveField;
    if 2 < |l.fields| {
      assert LiveField(l.fields[2], Lower(2), Upper(2));
      FieldKeepsMinimumWhen(l.fields[2], 31);
    }
    if 3 < |l.fields| {
      assert LiveField(l.fields[3], Lower(3), Upper(3));
      FieldKeepsMinimumWhen(l.fields[3], 12);
    }
  }

  lemma {:induction false} LinesKeepMinimumWhen(lines: seq<Line>)
    requires (forall i :: 0 <= i < |lines| ==> GoodLine(lines[i])) && LiveLines(lines)
    ensures NoZero(LinesFlags(lines)) <==> forall i :: 0 <= i < |lines| ==> LineKeepsMinimum(lines[i])
    decreases |lines|
  {
    hide LineFlags, LineKeepsMinimum, GoodLine, LiveLine;
    if lines != [] {
      LineKeepsMinimumWhen(lines[0]);
      LinesKeepMinimumWhen(lines[1..]);
      assert forall i :: 0 < i < |lines| ==> lines[i] == lines[1..][i - 1];
    }
  }

  /** A well-formed string sets documented values only exactly when its days and months keep their minimum. */
  lemma FlagsInDocumentedRangeWhen(c: Crontab)
    requires Good(c) && LiveLines(c.lines)
    ensures var r := Check(AsText(c));
            && r.Sets? && InRange(r.flags)
            && (NoZero(r.flags) <==> forall i :: 0 <= i < |c.lines| ==> LineKeepsMinimum(c.lines[i]))
  {
    hide GoodLine, LiveLines, LinesFlags, LineKeepsMinimum, AsText, Spaces;
    WellFormedStringsDenote(c);
    LinesKeepMinimumWhen(c.lines);
  }

  // ----- Sunday as 7 -----

  /** Weekdays run from 0 to 7, and 7 is Sunday as 0 is. */
  function DocumentedDays(x: Item): set<nat>
    requires GoodItem(x)
  {
    set v | v in Denotes(x, 0, 7) :: v % 7
  }

  function ModSeven(days: set<nat>): set<nat> {
    set v | v in days :: v % 7
  }

  lemma SameBelowSeven(days: set<nat>)
    requires Within(days, 6)
    ensures ModSeven(days) == days
  {
    forall v | v in days
      ensures v in ModSeven(days)
    {
      assert v % 7 == v;
    }
  }

  /** Reaching for 7 adds Sunday exactly when 7 is on the grid. */
  lemma UpToSeven(a: nat, step: nat)
    requires a < 7 && step > 0
    ensures ModSeven(Progression(a, 7, step)) == Progression(a, 6, step) + if OnGrid(7, a, step) then {0} else {}
  {
    hide OnGrid;
    var six, last := Progression(a, 6, step), if OnGrid(7, a, step) then {7} else {};
    assert Progression(a, 7, step) == six + last;
    SameBelowSeven(six);
    ModSevenOfSum(six, last);
    assert 7 % 7 == 0;
    assert ModSeven(last) == if OnGrid(7, a, step) then {0} else {};
  }

  lemma ModSevenOfSum(a: set<nat>, b: set<nat>)
    ensures ModSeven(a + b) == ModSeven(a) + ModSeven(b)
  {
    forall v | v in ModSeven(a) + ModSeven(b)
      ensures v in ModSeven(a + b)
    {
      var u :| (u in a || u in b) && u % 7 == v;
      assert u in a + b;
    }
  }

  /** The span without its last day, should that be 7. */
  function ToSaturday(w: Span): Span {
    Span(w.from, ClampTo(w.to, 6), w.step)
  }

  /**
   * What the counter sets over 0 to 6 is what is written over 0 to 7: nothing, Sunday alone, or the same days up to
   * Saturday, if 7 is not among the written ones or 0 is there anyway.
   */
  predicate WeekAsWritten(s: Span, w: Span) {
    if Empty(w) then s.from > s.to
    else if w.from == 7 then s.from == 0 && s.to < s.step
    else !(0 < w.from && w.to == 7 && OnGrid(7, w.from, w.step)) && AsCounted(s, ToSaturday(w))
  }

  predicate DaysAsDocumented(x: Item)
    requires GoodItem(x)
  {
    if x.Single? then DecimalValue(x.n) < 7 || Value(x.n) == 0
    else WeekAsWritten(SpanOf(x, 0, 6), Written(x, 0, 7))
  }

  /** How the two spans of one item go together. */
  predicate OneItem(s: Span, w: Span) {
    && s.from <= 6 && s.to <= 6 && w.from <= 7 && w.to <= 7
    && s.from <= w.from && (w.from < 7 ==> s.from == w.from)
    && s.step == w.step % 256 && (s.from <= s.to ==> s.step > 0)
  }

  lemma SpansOfItem(x: Item)
    requires GoodItem(x) && !x.Single? && Live(x, 0, 6)
    ensures OneItem(SpanOf(x, 0, 6), Written(x, 0, 7))
  {
  }

  lemma WeekAsWrittenWhen(s: Span, w: Span)
    requires OneItem(s, w)
    ensures Counted(s) == ModSeven(Values(w)) <==> WeekAsWritten(s, w)
  {
    hide OnGrid, AsCounted, SameValues;
    if s.from <= s.to {
      StartIsCounted(s);
    }
    if Empty(w) {
      assert ModSeven({}) == {};
    } else if w.from == 7 {
      SevenIsSundayAlone(w.step);
      SundayAloneWhen(s);
    } else {
      WeekFromSunday(s, w);
    }
  }

  lemma StartIsCounted(s: Span)
    requires s.from <= s.to && 0 < s.step < 256
    ensures s.from in Counted(s)
  {
    GridPoint(s.from, s.from, if s.step <= LAST_SAFE_STEP then s.step else 256 - s.step);
  }

  lemma SevenIsSundayAlone(step: nat)
    requires step > 0
    ensures Progression(7, 7, step) == {7} && ModSeven({7}) == {0}
  {
    GridPoint(7, 7, step);
    assert 7 % 7 == 0;
  }

  lemma SundayAloneWhen(s: Span)
    requires s.from <= 6 && s.to <= 6 && s.step < 256 && (s.from <= s.to ==> s.step > 0)
    ensures Counted(s) == {0} <==> s.from == 0 && s.to < s.step
  {
    hide Counted;
    if s.from <= s.to {
      StartIsCounted(s);
      if s.from == 0 {
        FilledIsProgressionWhen(0, s.to, s.step);
        ZeroAloneWhen(s.to, s.step);
        CountedIs(s);
      }
    } else {
      CountedIs(s);
    }
  }

  lemma CountedIs(s: Span)
    requires s.step < 256
    ensures Counted(s) == if s.from > s.to || s.step == 0 then {} else Filled(s.from, s.to, s.step)
  {
  }

  lemma ZeroAloneWhen(to: nat, step: nat)
    requires step > 0
    ensures Progression(0, to, step) == {0} <==> to < step
  {
    hide OnGrid;
    GridPoint(0, 0, step);
    GridShift(step, 0, step);
    GridPoint(step, step, step);
    if to < step {
      forall v: nat | v <= to && OnGrid(v, 0, step)
        ensures v == 0
      {
        GridPoint(v, 0, step);
      }
    } else {
      assert step in Progression(0, to, step);
    }
  }

  lemma WeekFromSunday(s: Span, w: Span)
    requires OneItem(s, w) && !Empty(w) && w.from < 7
    ensures Counted(s) == ModSeven(Values(w)) <==> WeekAsWritten(s, w)
  {
    hide OnGrid, AsCounted, SameValues, Counted;
    var six := ToSaturday(w);
    CountedIsWrittenWhen(s, six);
    if w.to < 7 {
      SameBelowSeven(Values(w));
    } else {
      UpToSeven(w.from, w.step);
      if w.from == 0 {
        GridPoint(0, 0, w.step);
        assert 0 in Values(six);
      } else if OnGrid(7, w.from, w.step) {
        NoSundayCounted(s, w);
      }
    }
  }

  /** A counter that could reach 7 does not wrap, and so does not set 0. */
  lemma NoSundayCounted(s: Span, w: Span)
    requires OneItem(s, w) && 0 < w.from < 7 && w.step > 0 && OnGrid(7, w.from, w.step)
    ensures 0 !in Counted(s)
  {
    GridPoint(7, w.from, w.step);
    assert w.step <= 7 - w.from;
    hide OnGrid;
  }

  /** Exactly when a weekday item sets the days the documentation gives it. */
  lemma WeekdaysAsDocumentedWhen(x: Item)
    requires GoodItem(x) && Live(x, 0, 6)
    ensures Sets8(x, 0, 6) == DocumentedDays(x) <==> DaysAsDocumented(x)
  {
    hide Counted, Values, WeekAsWritten, OneItem;
    assert DocumentedDays(x) == ModSeven(Denotes(x, 0, 7));
    if x.Single? {
      assert ModSeven({ClampTo(DecimalValue(x.n), 7)}) == {ClampTo(DecimalValue(x.n), 7) % 7};
    } else {
      SpansOfItem(x);
      DenotesIs(x, 0, 7);
      hide Value, DecimalValue, SpanOf, Written, Denotes;
      WeekAsWrittenWhen(SpanOf(x, 0, 6), Written(x, 0, 7));
    }
  }

  /** An empty range, or one whose counter does not wrap and that does not reach 7, unless it has 0 already. */
  predicate RangeAsDocumented(a: nat, b: nat, step: nat) {
    if a < 7 then a > b || (0 < step < 256 - a && (b < 7 || a == 0 || !OnGrid(7, a, step)))
    else b < 6
  }

  /** With numbers below 256: stars always do, single days do below 7, and ranges under the condition above. */
  lemma SmallWeekdaysAsDocumentedWhen(x: Item)
    requires GoodItem(x) && Live(x, 0, 6) && SmallNumbers(x)
    ensures DaysAsDocumented(x) <==>
            match x
            case Star => true
            case StarStep(_) => true
            case Single(n) => DecimalValue(n) < 7
            case Range(a, b) => RangeAsDocumented(DecimalValue(a), DecimalValue(b), 1)
            case RangeStep(a, b, step) => RangeAsDocumented(DecimalValue(a), DecimalValue(b), DecimalValue(step))
  {
    hide OnGrid, RangeAsDocumented, WeekAsWritten, Value, DecimalValue;
    SmallValues(x);
    match x {
      case Star => SmallRange(0, 7, 1);
      case StarStep(step) => SmallRange(0, 7, DecimalValue(step)); FromSunday(DecimalValue(step));
      case Single(n) =>
      case Range(a, b) => SmallRange(DecimalValue(a), DecimalValue(b), 1);
      case RangeStep(a, b, step) => SmallRange(DecimalValue(a), DecimalValue(b), DecimalValue(step));
    }
    FromSunday(1);
  }

  lemma FromSunday(step: nat)
    ensures RangeAsDocumented(0, 7, step) <==> 0 < step < 256
  {
  }

  lemma SmallRange(a: nat, b: nat, step: nat)
    requires ClampFrom(a, 0, 6) > ClampTo(b, 6) || 0 < step < 256
    ensures var s, w := Span(ClampFrom(a, 0, 6), ClampTo(b, 6), step), Span(ClampFrom(a, 0, 7), ClampTo(b, 7), step);
            WeekAsWritten(s, w) <==> RangeAsDocumented(a, b, step)
  {
    hide OnGrid, AsCounted;
    AsCountedItself(Span(ClampFrom(a, 0, 6), ClampTo(b, 6), step));
  }

  lemma AsCountedItself(s: Span)
    ensures AsCounted(s, s) <==> Empty(s) || s.from + s.step < 256
  {
  }

  function DocumentedField(f: Field): set<nat> {
    set i, v | 0 <= i < |f| && GoodItem(f[i].item) && v in DocumentedDays(f[i].item) :: v
  }

  lemma {:induction false} FieldAsDocumented(f: Field)
    requires GoodField(f) && forall i :: 0 <= i < |f| ==> Live(f[i].item, 0, 6) && DaysAsDocumented(f[i].item)
    ensures FieldMarks(f, 0, 6) == DocumentedField(f)
    decreases |f|
  {
    hide Sets8, DocumentedDays, DaysAsDocumented, Live, GoodItem, Spaces;
    assert GoodItem(f[0].item);
    WeekdaysAsDocumentedWhen(f[0].item);
    if |f| > 1 {
      var rest := f[1..];
      assert forall i :: 0 <= i < |rest| ==> rest[i] == f[i + 1];
      FieldAsDocumented(rest);
      DocumentedSplits(f);
    } else {
      DocumentedOne(f);
    }
  }

  lemma DocumentedOne(f: Field)
    requires |f| == 1 && GoodItem(f[0].item)
    ensures DocumentedField(f) == DocumentedDays(f[0].item)
  {
  }

  lemma DocumentedSplits(f: Field)
    requires |f| > 1 && GoodField(f)
    ensures DocumentedField(f) == DocumentedDays(f[0].item) + DocumentedField(f[1..])
  {
    hide DocumentedDays;
    forall v | v in DocumentedField(f)
      ensures v in DocumentedDays(f[0].item) + DocumentedField(f[1..])
    {
      var i :| 0 <= i < |f| && GoodItem(f[i].item) && v in DocumentedDays(f[i].item);
      if i > 0 {
        assert f[1..][i - 1] == f[i];
      }
    }
    forall v | v in DocumentedDays(f[0].item) + DocumentedField(f[1..])
      ensures v in DocumentedField(f)
    {
      if v !in DocumentedDays(f[0].item) {
        var i :| 0 <= i < |f[1..]| && GoodItem(f[1..][i].item) && v in DocumentedDays(f[1..][i].item);
        assert f[i + 1] == f[1..][i];
      }
    }
  }

  /** The weekdays a line is documented to mean; a missing field means all of them. */
  function DocumentedLine(l: Line): set<nat> {
    if 4 < |l.fields| then DocumentedField(l.fields[4]) else AllBetween(0, 6)
  }

  function DocumentedLines(lines: seq<Line>): set<nat> {
    if lines == [] then {} else DocumentedLine(lines[0]) + DocumentedLines(lines[1..])
  }

  predicate LineAsDocumented(l: Line)
    requires GoodLine(l)
  {
    4 < |l.fields| ==> forall i :: 0 <= i < |l.fields[4]| ==> DaysAsDocumented(l.fields[4][i].item)
  }

  lemma LineDays(l: Line)
    requires GoodLine(l) && LiveLine(l) && LineAsDocumented(l)
    ensures LineFlags(l).wdays == DocumentedLine(l)
  {
    hide Live, DaysAsDocumented, GoodItem, FieldMarks, DocumentedField, Spaces;
    if 4 < |l.fields| {
      assert LiveField(l.fields[4], Lower(4), Upper(4));
      assert GoodField(l.fields[4]);
      FieldAsDocumented(l.fields[4]);
    } else {
      FullRange(0, 6);
    }
  }

  lemma {:induction false} LinesDays(lines: seq<Line>)
    requires (forall i :: 0 <= i < |lines| ==> GoodLine(lines[i]) && LineAsDocumented(lines[i])) && LiveLines(lines)
    ensures LinesFlags(lines).wdays == DocumentedLines(lines)
    decreases |lines|
  {
    hide LineFlags, DocumentedLine, LineAsDocumented, GoodLine, LiveLine;
    if lines != [] {
      LineDays(lines[0]);
      LinesDays(lines[1..]);
    }
  }

  /** The weekdays of a well-formed string are the documented ones when every weekday item is as documented. */
  lemma StringDaysAsDocumented(c: Crontab)
    requires Good(c) && LiveLines(c.lines) && forall i :: 0 <= i < |c.lines| ==> LineAsDocumented(c.lines[i])
    ensures Check(AsText(c)).Sets? && Check(AsText(c)).flags.wdays == DocumentedLines(c.lines)
  {
    hide GoodLine, LiveLines, LinesFlags, LineAsDocumented, DocumentedLines, AsText, Spaces;
    WellFormedStringsDenote(c);
    LinesDays(c.lines);
  }

  // ----- strings that show the differences -----

  /** `n` stars and an item, as the fields of a line. */
  function StarsThen(n: nat, lead: string, x: Item): (fields: seq<Field>)
    ensures |fields| == n + 1 && forall i :: 0 <= i <= n ==> |fields[i]| == 1
    ensures forall i :: 0 <= i <= n ==> fields[i][0] == Elem(if i == 0 then lead else " ", if i == n then x else Star)
  {
    if n == 0 then [[Elem(lead, x)]] else [[Elem(lead, Star)]] + StarsThen(n - 1, " ", x)
  }

  function StarsText(n: nat, lead: string, x: Item): string {
    lead + if n == 0 then ItemText(x) else "*" + StarsText(n - 1, " ", x)
  }

  lemma {:induction false} StarsAreSpelled(n: nat, lead: string, x: Item)
    ensures FieldsText(StarsThen(n, lead, x)) == StarsText(n, lead, x)
  {
    hide ItemText;
    StarIsStar();
    var all := StarsThen(n, lead, x);
    if n == 0 {
      assert all[1..] == [];
    } else {
      StarsAreSpelled(n - 1, " ", x);
      assert all[1..] == StarsThen(n - 1, " ", x);
    }
  }

  lemma StarsAreFields(n: nat, lead: string, x: Item)
    requires GoodItem(x) && Spaces(lead)
    ensures GoodFields(StarsThen(n, lead, x))
  {
    hide StarsThen;
    StarIsStar();
  }

  lemma StarIsStar()
    ensures GoodItem(Star) && ItemText(Star) == "*"
  {
  }

  function OneLine(n: nat, x: Item): Crontab {
    Crontab("", "", [Line(StarsThen(n, "", x), "")], "")
  }

  function Marks(f: Flags, k: nat): set<nat> {
    if k == 0 then f.minutes
    else if k == 1 then f.hours
    else if k == 2 then f.mdays
    else if k == 3 then f.months
    else f.wdays
  }

  /** The item behind the stars sets its own field alone. */
  lemma OneLineSets(n: nat, x: Item)
    requires n < 5 && GoodItem(x) && Live(x, Lower(n), Upper(n))
    ensures Good(OneLine(n, x)) && Spelled(OneLine(n, x)) == StarsText(n, "", x)
    ensures var r := Check(AsText(OneLine(n, x))); r.Sets? && Marks(r.flags, n) == Sets8(x, Lower(n), Upper(n))
  {
    hide GoodItem, Sets8, StarsThen, Check, FieldsText, Live;
    StarsAreFields(n, "", x);
    StarsAreSpelled(n, "", x);
    var c := OneLine(n, x);
    var l := c.lines[0];
    assert GoodLine(l);
    forall i | 0 <= i < n
      ensures LiveField(l.fields[i], Lower(i), Upper(i))
    {
      StarIsLive(Lower(i), Upper(i));
    }
    assert LiveField(l.fields[n], Lower(n), Upper(n));
    assert LiveLine(l) && LinesFlags(c.lines) == LineFlags(l);
    WellFormedStringsDenote(c);
  }

  lemma StarIsLive(min: nat, max: nat)
    ensures GoodItem(Star) && Live(Star, min, max)
  {
  }

  lemma ValueOfDigit(d: nat)
    requires d < 10
    ensures Numeral([DigitChar(d)]) && Value([DigitChar(d)]) == d
  {
    ValueSnoc("", DigitChar(d));
    assert "" + [DigitChar(d)] == [DigitChar(d)];
  }

  /** `* * 0` sets day 0, which no month has. */
  lemma DayZero()
    ensures Good(OneLine(2, Single("0"))) && Spelled(OneLine(2, Single("0"))) == "* * 0"
    ensures Check(AsText(OneLine(2, Single("0")))).Sets? && Check(AsText(OneLine(2, Single("0")))).flags.mdays == {0}
  {
    hide Check, AsText, Value;
    ValueOfDigit(0);
    assert "0" == [DigitChar(0)];
    OneLineSets(2, Single("0"));
    assert StarsText(2, "", Single("0")) == "* * 0";
  }

  lemma ValueOf251()
    ensures Numeral("251") && Value("251") == 251
  {
    ValueSnoc("", '2');
    assert "" + ['2'] == "2";
    ValueSnoc("2", '5');
    assert "2" + ['5'] == "25";
    ValueSnoc("25", '1');
    assert "25" + ['1'] == "251";
  }

  /** `* * * 5-9/251` sets month 0 on its way down from month 5. */
  lemma MonthZero()
    ensures Good(OneLine(3, RangeStep("5", "9", "251")))
    ensures Spelled(OneLine(3, RangeStep("5", "9", "251"))) == "* * * 5-9/251"
    ensures var r := Check(AsText(OneLine(3, RangeStep("5", "9", "251")))); r.Sets? && r.flags.months == {5, 0}
  {
    hide Check, AsText, Value, StarsText, OneLine, Filled;
    var x := RangeStep("5", "9", "251");
    ValueOfDigit(5);
    ValueOfDigit(9);
    ValueOf251();
    assert "5" == [DigitChar(5)] && "9" == [DigitChar(9)];
    OneLineSets(3, x);
    DownFromFive();
    SpelledMonth(x);
  }

  lemma DownFromFive()
    ensures Filled(5, 9, 251) == {5, 0}
  {
    forall v: nat | v <= 5
      ensures OnGrid(v, 5, 5) <==> v == 0 || v == 5
    {
    }
  }

  lemma SpelledMonth(x: Item)
    requires x == RangeStep("5", "9", "251")
    ensures StarsText(3, "", x) == "* * * 5-9/251"
  {
    assert StarsText(0, " ", x) == " 5-9/251";
    assert StarsText(1, " ", x) == " * 5-9/251";
    assert StarsText(2, " ", x) == " * * 5-9/251";
  }

  lemma ValueOf257()
    ensures Numeral("257") && DecimalValue("257") == 257
  {
    ValueSnoc("", '2');
    assert "" + ['2'] == "2";
    ValueSnoc("2", '5');
    assert "2" + ['5'] == "25";
    ValueSnoc("25", '7');
    assert "25" + ['7'] == "257";
  }

  /** The weekday 257 is Monday to the parser; clamped to 7, it is documented to mean Sunday. */
  lemma DayOfBigNumber()
    ensures var x := Single("257");
            && GoodItem(x) && Live(x, 0, 6) && !DaysAsDocumented(x)
            && Sets8(x, 0, 6) == {1} && DocumentedDays(x) == {0}
  {
    hide DecimalValue;
    ValueOf257();
    assert DocumentedDays(Single("257")) == ModSeven({7}) == {7 % 7};
  }

  lemma ValueOf300()
    ensures Numeral("300") && DecimalValue("300") == 300
  {
    ValueSnoc("", '3');
    assert "" + ['3'] == "3";
    ValueSnoc("3", '0');
    assert "3" + ['0'] == "30";
    ValueSnoc("30", '0');
    assert "30" + ['0'] == "300";
  }

  /** `300` sets minute 44; clamped, it denotes minute 59. */
  lemma MinuteThreeHundred()
    ensures var c := OneLine(0, Single("300"));
            && Good(c) && Spelled(c) == "300"
            && Check(AsText(c)).Sets? && Check(AsText(c)).flags.minutes == {44}
    ensures GoodItem(Single("300")) && Denotes(Single("300"), 0, 59) == {59}
  {
    hide Check, AsText, DecimalValue, OneLine;
    ValueOf300();
    OneLineSets(0, Single("300"));
    assert StarsText(0, "", Single("300")) == "" + "300" == "300";
  }

  /** `* * * * 7` sets Saturday; it is documented to mean Sunday. */
  lemma SeventhDay()
    ensures var c := OneLine(4, Single("7"));
            && Good(c) && Spelled(c) == "* * * * 7"
            && Check(AsText(c)).Sets? && Check(AsText(c)).flags.wdays == {6}
    ensures GoodItem(Single("7")) && DocumentedDays(Single("7")) == {0}
  {
    hide *;
    SevenIsAnItem();
    OneLineSets(4, Single("7"));
    SpelledDay(Single("7"));
    MarksOfDays(Check(AsText(OneLine(4, Single("7")))));
  }

  lemma MarksOfDays(r: Outcome)
    requires r.Sets?
    ensures Marks(r.flags, 4) == r.flags.wdays && Marks(r.flags, 0) == r.flags.minutes
    ensures Marks(r.flags, 2) == r.flags.mdays && Marks(r.flags, 3) == r.flags.months
  {
  }

  lemma SevenIsAnItem()
    ensures GoodItem(Single("7")) && Live(Single("7"), Lower(4), Upper(4)) && Lower(4) == 0 && Upper(4) == 6
    ensures Sets8(Single("7"), 0, 6) == {6} && DocumentedDays(Single("7")) == {0}
  {
    ValueOfDigit(7);
    assert "7" == [DigitChar(7)];
    assert DocumentedDays(Single("7")) == ModSeven({7}) == {7 % 7};
  }

  lemma SpelledDay(x: Item)
    requires x == Single("7")
    ensures StarsText(4, "", x) == "* * * * 7"
  {
    assert StarsText(0, " ", x) == " 7";
    assert StarsText(1, " ", x) == " * 7";
    assert StarsText(2, " ", x) == " * * 7";
    assert StarsText(3, " ", x) == " * * * 7";
  }
}
