/** What the cron parser does with a string, without its pointers and loops. */
module CronSpec {
  import opened CStrings
  import opened Numerals

  const LAST_SAFE_STEP: nat := 196 // 59 + 196 still fits in eight bits

  predicate IsSpace(c: char) {
    c == ' ' || 9 <= c as int <= 13
  }

  /** The white space of the C locale: space, tab, newline, vertical tab, form feed and carriage return. */
  lemma SpacesAre(c: char)
    ensures IsSpace(c) <==> c == ' ' || c == '\t' || c == '\n' || c as int == 11 || c as int == 12 || c == '\r'
  {
  }

  predicate IsEol(c: char) {
    c == ';' || c == '\0'
  }

  function SkipSpaces(s: Text, p: nat): (q: nat)
    requires p < |s|
    ensures p <= q < |s| && !IsSpace(s[q])
    ensures forall i :: p <= i < q ==> IsSpace(s[i])
    decreases |s| - p
  {
    if IsSpace(s[p]) then SkipSpaces(s, p + 1) else p
  }

  function EolAt(s: Text, p: nat): (q: nat)
    requires p < |s|
    ensures p <= q < |s| && IsEol(s[q])
    ensures forall i :: p <= i < q ==> !IsEol(s[i])
    decreases |s| - p
  {
    if IsEol(s[p]) then p else EolAt(s, p + 1)
  }

  /** Numbers are computed in eight bits. */
  function Number(s: Text, p: nat): (n: nat)
    requires p < |s|
    ensures n < 256
  {
    DecimalValue(s[p..DigitsEnd(s, p)]) % 256
  }

  // ----- the flags a fill loop sets -----

  predicate OnGrid(v: int, origin: int, step: nat)
    requires step > 0
  {
    (v - origin) % step == 0
  }

  lemma GridPoint(v: int, origin: int, step: nat)
    requires step > 0
    ensures OnGrid(origin, origin, step)
    ensures origin - step < v < origin + step && OnGrid(v, origin, step) ==> v == origin
  {
  }

  lemma GridShift(v: int, origin: int, step: nat)
    requires step > 0
    ensures OnGrid(v, origin, step) <==> OnGrid(v, origin + step, step)
    ensures OnGrid(v, origin, step) <==> OnGrid(v, origin - step, step)
  {
    var d := v - origin;
    assert d == step * (d / step) + d % step;
    ModUnique(d - step, step, d / step - 1, d % step);
    ModUnique(d + step, step, d / step + 1, d % step);
  }

  lemma ModUnique(d: int, step: nat, q: int, r: int)
    requires step > 0 && d == step * q + r && 0 <= r < step
    ensures d % step == r
  {
    var k := d / step - q;
    MultipleIsFar(step, k);
    assert step * k == r - d % step;
  }

  lemma MultipleIsFar(step: int, k: int)
    requires step > 0
    ensures k > 0 ==> step * k >= step
    ensures k < 0 ==> step * k <= 0 - step
  {
  }

  /** No grid point lies between two neighbours. */
  lemma GapFree(i: int, j: int, origin: int, step: nat)
    requires step > 0 && OnGrid(i, origin, step) && i < j < i + step
    ensures !OnGrid(j, origin, step)
  {
    var q := (i - origin) / step;
    assert i - origin == step * q;
    ModUnique(j - origin, step, q, j - i);
  }

  /** What `from-to/step` is meant to denote. */
  function Progression(from: nat, to: nat, step: nat): set<nat>
    requires step > 0
  {
    set v: nat | from <= v <= to && OnGrid(v, from, step)
  }

  /** Below `from` in steps of `gap`. */
  function Downwards(from: nat, gap: nat): set<nat>
    requires gap > 0
  {
    set v: nat | v <= from && OnGrid(v, from, gap)
  }

  /** What the loop with its eight-bit counter sets: past the last safe step it wraps and counts down. */
  function Filled(from: nat, to: nat, step: nat): set<nat>
    requires 0 < step < 256
  {
    if from > to then {}
    else if step <= LAST_SAFE_STEP then Progression(from, to, step)
    else Downwards(from, 256 - step)
  }

  /** Exactly when the eight-bit counter denotes the progression. */
  lemma FilledIsProgressionWhen(from: nat, to: nat, step: nat)
    requires 0 < step < 256 && to < 60
    ensures Filled(from, to, step) == Progression(from, to, step) <==> from > to || from + step < 256
  {
    if from <= to && step > LAST_SAFE_STEP {
      var gap := 256 - step;
      assert Progression(from, to, step) == {from} by {
        forall v: nat | from <= v <= to && OnGrid(v, from, step)
          ensures v == from
        {
          GridPoint(v, from, step);
        }
        GridPoint(from, from, step);
      }
      if from >= gap {
        GridPoint(from, from, gap);
        GridShift(from, from, gap);
        GridShift(from - gap, from, gap);
        GridPoint(from - gap, from - gap, gap);
        assert from - gap in Downwards(from, gap);
      } else {
        forall v: nat | v <= from && OnGrid(v, from, gap)
          ensures v == from
        {
          GridPoint(v, from, gap);
        }
        GridPoint(from, from, gap);
        assert Downwards(from, gap) == {from};
      }
    }
  }

  // ----- elements, lists, entries -----

  /** Where parsing goes on and what was set; a null pointer; or a loop that never ends. */
  datatype Parse = At(pos: nat, marks: set<nat>) | Null(marks: set<nat>) | Endless

  predicate Within(marks: set<nat>, max: nat) {
    forall v :: v in marks ==> v <= max
  }

  function Fill(pos: nat, from: nat, to: nat, step: nat): (r: Parse)
    requires step < 256
  {
    if from > to then At(pos, {}) else if step == 0 then Endless else At(pos, Filled(from, to, step))
  }

  function ClampFrom(from: nat, min: nat, max: nat): nat {
    var f := if from < min then min else from;
    if f > max then max else f
  }

  function ClampTo(to: nat, max: nat): nat {
    if to > max then max else to
  }

  predicate Bounds(min: nat, max: nat) {
    min <= 1 <= max < 60
  }

  // a star, or a star with a step
  function StarElement(s: Text, q: nat, min: nat, max: nat): (r: Parse)
    requires q < |s| && s[q] == '*' && Bounds(min, max)
    ensures !r.Null? && (r.At? ==> q < r.pos < |s| && Within(r.marks, max))
  {
    if s[q + 1] == '/' then Fill(DigitsEnd(s, q + 2), min, max, Number(s, q + 2))
    else Fill(q + 1, min, max, 1)
  }

  // one number, or a range with or without a step; a single number is clamped from above only
  function NumericElement(s: Text, q: nat, min: nat, max: nat): (r: Parse)
    requires q < |s| && IsDigit(s[q]) && Bounds(min, max)
    ensures !r.Null? && (r.At? ==> q < r.pos < |s| && Within(r.marks, max))
  {
    var from, e := Number(s, q), DigitsEnd(s, q);
    assert q < e;
    if s[e] != '-' then At(e, {ClampTo(from, max)})
    else RangeElement(s, e + 1, from, min, max)
  }

  function RangeElement(s: Text, p: nat, from: nat, min: nat, max: nat): (r: Parse)
    requires p < |s| && Bounds(min, max)
    ensures !r.Null? && (r.At? ==> p <= r.pos < |s| && Within(r.marks, max))
  {
    var to, e := Number(s, p), DigitsEnd(s, p);
    if s[e] == '/' then
      Fill(DigitsEnd(s, e + 1), ClampFrom(from, min, max), ClampTo(to, max), Number(s, e + 1))
    else
      Fill(e, ClampFrom(from, min, max), ClampTo(to, max), 1)
  }

  function Element(s: Text, p: nat, min: nat, max: nat): (r: Parse)
    requires p < |s| && Bounds(min, max)
    ensures r.At? ==> p < r.pos < |s| && Within(r.marks, max)
    ensures r.Null? ==> r.marks == {}
  {
    var q := SkipSpaces(s, p);
    if s[q] == '*' then StarElement(s, q, min, max)
    else if IsDigit(s[q]) then NumericElement(s, q, min, max)
    else Null({})
  }

  function AddMarks(marks: set<nat>, r: Parse): Parse {
    match r
    case At(pos, more) => At(pos, marks + more)
    case Null(more) => Null(marks + more)
    case Endless => Endless
  }

  /** Comma-separated elements. */
  function Elements(s: Text, p: nat, min: nat, max: nat): (r: Parse)
    requires p < |s| && Bounds(min, max)
    ensures r.At? ==> p < r.pos < |s| && Within(r.marks, max)
    ensures r.Null? ==> Within(r.marks, max)
    decreases |s| - p
  {
    var r := Element(s, p, min, max);
    if !r.At? then r
    else if s[r.pos] == ',' then AddMarks(r.marks, Elements(s, r.pos + 1, min, max))
    else if !IsSpace(s[r.pos]) && !IsEol(s[r.pos]) then At(r.pos + 1, r.marks)
    else r
  }

  /** A missing list means the full range. */
  function List(s: Text, p: nat, min: nat, max: nat): (r: Parse)
    requires p < |s| && Bounds(min, max)
    ensures r.At? ==> p <= r.pos < |s| && Within(r.marks, max)
    ensures r.Null? ==> Within(r.marks, max)
    ensures r.At? && !IsEol(s[p]) ==> p < r.pos
  {
    var q := SkipSpaces(s, p);
    if IsEol(s[q]) then At(q, Progression(min, max, 1)) else Elements(s, q, min, max)
  }

  datatype Flags = Flags(minutes: set<nat>, hours: set<nat>, mdays: set<nat>, months: set<nat>, wdays: set<nat>)

  const NO_FLAGS := Flags({}, {}, {}, {}, {})

  function Union(a: Flags, b: Flags): Flags {
    Flags(a.minutes + b.minutes, a.hours + b.hours, a.mdays + b.mdays, a.months + b.months, a.wdays + b.wdays)
  }

  predicate InRange(f: Flags) {
    Within(f.minutes, 59) && Within(f.hours, 23) && Within(f.mdays, 31) && Within(f.months, 12) && Within(f.wdays, 6)
  }

  datatype Result = Next(pos: nat, flags: Flags) | Stopped(flags: Flags) | Forever

  /** The rest of the line is skipped, the delimiter, and the spaces after it. */
  function AfterEntry(s: Text, p: nat): (q: nat)
    requires p < |s|
    ensures p <= q < |s|
    ensures s[p] == ';' ==> p < q
  {
    var e := EolAt(s, p);
    SkipSpaces(s, if s[e] == ';' then e + 1 else e)
  }

  /** One `;`-separated entry: five lists, until one of them fails. */
  function Entry(s: Text, p: nat): (r: Result)
    requires p < |s|
    ensures r.Next? ==> p <= r.pos < |s| && InRange(r.flags)
    ensures r.Next? && s[p] != '\0' ==> p < r.pos
    ensures r.Stopped? ==> InRange(r.flags)
  {
    var a := List(s, p, 0, 59);
    if a.Endless? then Forever else if a.Null? then Stopped(NO_FLAGS.(minutes := a.marks)) else
    var b := List(s, a.pos, 0, 23);
    if b.Endless? then Forever else if b.Null? then Stopped(NO_FLAGS.(minutes := a.marks, hours := b.marks)) else
    var c := List(s, b.pos, 1, 31);
    if c.Endless? then Forever else if c.Null? then Stopped(Flags(a.marks, b.marks, c.marks, {}, {})) else
    var d := List(s, c.pos, 1, 12);
    if d.Endless? then Forever else if d.Null? then Stopped(Flags(a.marks, b.marks, c.marks, d.marks, {})) else
    var e := List(s, d.pos, 0, 6);
    if e.Endless? then Forever else if e.Null? then Stopped(Flags(a.marks, b.marks, c.marks, d.marks, e.marks)) else
    Next(AfterEntry(s, e.pos), Flags(a.marks, b.marks, c.marks, d.marks, e.marks))
  }

  /** All entries: nothing for an endless loop, otherwise every flag that gets set. */
  datatype Outcome = Hangs | Sets(flags: Flags)

  function Entries(s: Text, p: nat): (r: Outcome)
    requires p < |s|
    ensures r.Sets? ==> InRange(r.flags)
    decreases |s| - p
  {
    match Entry(s, p)
    case Forever => Hangs
    case Stopped(flags) => Sets(flags)
    case Next(pos, flags) =>
      if s[pos] == '\0' then Sets(flags)
      else
        var rest := Entries(s, pos);
        if rest.Hangs? then Hangs else Sets(Union(flags, rest.flags))
  }

  /** The leading spaces and the time zone letter. */
  function Start(s: Text): (p: nat)
    ensures p < |s|
  {
    var q := SkipSpaces(s, 0);
    if s[q] == 'Z' || s[q] == 'L' then q + 1 else q
  }

  function Check(s: Text): Outcome {
    Entries(s, Start(s))
  }

  // ----- termination for every string -----

  /** No number behind a slash is a multiple of 256. */
  ghost predicate NonZeroSteps(s: Text) {
    forall p :: 0 <= p && p + 1 < |s| && s[p] == '/' ==> Number(s, p + 1) != 0
  }

  lemma ElementEnds(s: Text, p: nat, min: nat, max: nat)
    requires NonZeroSteps(s) && p < |s| && Bounds(min, max)
    ensures !Element(s, p, min, max).Endless?
  {
    hide Number, DigitsEnd, SkipSpaces;
  }

  lemma {:induction false} ElementsEnd(s: Text, p: nat, min: nat, max: nat)
    requires NonZeroSteps(s) && p < |s| && Bounds(min, max)
    ensures !Elements(s, p, min, max).Endless?
    decreases |s| - p
  {
    hide NonZeroSteps, Element;
    ElementEnds(s, p, min, max);
    var r := Element(s, p, min, max);
    if r.At? && s[r.pos] == ',' {
      ElementsEnd(s, r.pos + 1, min, max);
    }
  }

  lemma ListEnds(s: Text, p: nat, min: nat, max: nat)
    requires NonZeroSteps(s) && p < |s| && Bounds(min, max)
    ensures !List(s, p, min, max).Endless?
  {
    hide NonZeroSteps, Elements, SkipSpaces;
    ElementsEnd(s, SkipSpaces(s, p), min, max);
  }

  lemma EntryEnds(s: Text, p: nat)
    requires NonZeroSteps(s) && p < |s|
    ensures !Entry(s, p).Forever?
  {
    hide NonZeroSteps, List, AfterEntry, InRange;
    ListEnds(s, p, 0, 59);
    var a := List(s, p, 0, 59);
    if a.At? {
      ListEnds(s, a.pos, 0, 23);
      var b := List(s, a.pos, 0, 23);
      if b.At? {
        ListEnds(s, b.pos, 1, 31);
        var c := List(s, b.pos, 1, 31);
        if c.At? {
          ListEnds(s, c.pos, 1, 12);
          var d := List(s, c.pos, 1, 12);
          if d.At? {
            ListEnds(s, d.pos, 0, 6);
          }
        }
      }
    }
  }

  /** Whatever else a string holds, the parser gets through it if no step is zero in eight bits. */
  lemma {:induction false} NonZeroStepsEnd(s: Text, p: nat)
    requires NonZeroSteps(s) && p < |s|
    ensures !Entries(s, p).Hangs?
    decreases |s| - p
  {
    hide NonZeroSteps, Entry, InRange;
    EntryEnds(s, p);
    var r := Entry(s, p);
    if r.Next? && s[r.pos] != '\0' {
      assert s[p] == '\0' ==> p == |s| - 1;
      NonZeroStepsEnd(s, r.pos);
    }
  }

  /** For every NUL-terminated string. */
  lemma CheckEnds(s: Text)
    requires NonZeroSteps(s)
    ensures !Check(s).Hangs?
  {
    NonZeroStepsEnd(s, Start(s));
  }
}
