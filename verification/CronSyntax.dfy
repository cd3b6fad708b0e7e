/** Well-formed cron strings, and the proof of what the parser makes of them. */
module CronSyntax {
  import opened CStrings
  import opened Numerals
  import opened CronSpec

  // Number tokens are any non-empty strings of digits.
  datatype Item =
    | Star
    | StarStep(step: string)
    | Single(n: string)
    | Range(a: string, b: string)
    | RangeStep(a: string, b: string, step: string)

  /** An item and the spaces in front of it. */
  datatype Elem = Elem(lead: string, item: Item)

  type Field = seq<Elem>

  /** Up to five fields, and what follows them on the line. */
  datatype Line = Line(fields: seq<Field>, tail: string)

  // The last line may be closed by a delimiter, which may be followed by spaces.
  datatype Crontab = Crontab(lead: string, zone: string, lines: seq<Line>, closing: string)

  // ----- spelling -----

  predicate Spaces(t: string) {
    forall i :: 0 <= i < |t| ==> IsSpace(t[i])
  }

  predicate Numeral(t: string) {
    t != "" && AllDigits(t)
  }

  predicate GoodItem(x: Item) {
    match x
    case Star => true
    case StarStep(step) => Numeral(step)
    case Single(n) => Numeral(n)
    case Range(a, b) => Numeral(a) && Numeral(b)
    case RangeStep(a, b, step) => Numeral(a) && Numeral(b) && Numeral(step)
  }

  predicate GoodField(f: Field) {
    f != [] && forall i :: 0 <= i < |f| ==> Spaces(f[i].lead) && GoodItem(f[i].item)
  }

  predicate GoodFields(fields: seq<Field>) {
    forall i :: 0 <= i < |fields| ==> GoodField(fields[i]) && (i > 0 ==> fields[i][0].lead != "")
  }

  predicate GoodTail(tail: string) {
    (tail != "" ==> IsSpace(tail[0])) && forall i :: 0 <= i < |tail| ==> !IsEol(tail[i])
  }

  predicate GoodLine(l: Line) {
    |l.fields| <= 5 && GoodFields(l.fields) && GoodTail(l.tail) && (|l.fields| < 5 ==> Spaces(l.tail))
  }

  /** Blanks after the last delimiter are its closing, not another line. */
  predicate GoodLines(lines: seq<Line>, closing: string) {
    && lines != [] && (forall i :: 0 <= i < |lines| ==> GoodLine(lines[i]))
    && (closing != "" ==> closing[0] == ';' && Spaces(closing[1..]))
    && (|lines| > 1 ==> lines[|lines| - 1].fields != [] || closing != "")
  }

  predicate Good(c: Crontab) {
    && Spaces(c.lead) && (c.zone == "Z" || c.zone == "L" || (c.zone == "" && c.lead == ""))
    && GoodLines(c.lines, c.closing)
  }

  function ItemText(x: Item): string {
    match x
    case Star => "*"
    case StarStep(step) => "*/" + step
    case Single(n) => n
    case Range(a, b) => a + ("-" + b)
    case RangeStep(a, b, step) => a + ("-" + (b + ("/" + step)))
  }

  function FieldText(f: Field): string {
    if f == [] then ""
    else f[0].lead + (ItemText(f[0].item) + if |f| == 1 then "" else "," + FieldText(f[1..]))
  }

  function FieldsText(fields: seq<Field>): string {
    if fields == [] then "" else FieldText(fields[0]) + FieldsText(fields[1..])
  }

  function LineText(l: Line): string {
    FieldsText(l.fields) + l.tail
  }

  function LinesText(lines: seq<Line>, closing: string): string {
    if lines == [] then ""
    else LineText(lines[0]) + if |lines| > 1 then ";" + LinesText(lines[1..], closing) else closing
  }

  function Spelled(c: Crontab): string {
    c.lead + (c.zone + LinesText(c.lines, c.closing))
  }

  // ----- what the parser makes of it -----

  /** Numbers are read modulo 256. */
  function Value(t: string): (n: nat)
    requires Numeral(t)
    ensures n < 256
  {
    DecimalValue(t) % 256
  }

  datatype Span = Span(from: nat, to: nat, step: nat)

  function SpanOf(x: Item, min: nat, max: nat): (s: Span)
    requires GoodItem(x) && !x.Single?
    ensures s.step < 256
  {
    match x
    case Star => Span(min, max, 1)
    case StarStep(step) => Span(min, max, Value(step))
    case Range(a, b) => Span(ClampFrom(Value(a), min, max), ClampTo(Value(b), max), 1)
    case RangeStep(a, b, step) => Span(ClampFrom(Value(a), min, max), ClampTo(Value(b), max), Value(step))
  }

  /** The fill loop of the item ends. */
  predicate Live(x: Item, min: nat, max: nat)
    requires GoodItem(x)
  {
    x.Single? || var s := SpanOf(x, min, max); s.from > s.to || s.step > 0
  }

  /** The values the eight-bit loop sets. */
  function Counted(s: Span): set<nat>
    requires s.step < 256
  {
    if s.from > s.to || s.step == 0 then {} else Filled(s.from, s.to, s.step)
  }

  /** The values the parser sets for an item. */
  function Sets8(x: Item, min: nat, max: nat): set<nat>
    requires GoodItem(x)
  {
    if x.Single? then {ClampTo(Value(x.n), max)} else Counted(SpanOf(x, min, max))
  }

  function FieldMarks(f: Field, min: nat, max: nat): set<nat>
    requires GoodField(f)
  {
    if |f| == 1 then Sets8(f[0].item, min, max) else Sets8(f[0].item, min, max) + FieldMarks(f[1..], min, max)
  }

  predicate LiveField(f: Field, min: nat, max: nat)
    requires GoodField(f)
  {
    forall i :: 0 <= i < |f| ==> Live(f[i].item, min, max)
  }

  /** A missing field means the full range. */
  function FieldOr(fields: seq<Field>, k: nat, min: nat, max: nat): set<nat>
    requires GoodFields(fields)
  {
    if k < |fields| then FieldMarks(fields[k], min, max) else Progression(min, max, 1)
  }

  function LineFlags(l: Line): Flags
    requires GoodLine(l)
  {
    Flags(FieldOr(l.fields, 0, 0, 59), FieldOr(l.fields, 1, 0, 23), FieldOr(l.fields, 2, 1, 31),
          FieldOr(l.fields, 3, 1, 12), FieldOr(l.fields, 4, 0, 6))
  }

  function Lower(k: nat): nat {
    if k == 2 || k == 3 then 1 else 0
  }

  function Upper(k: nat): nat {
    if k == 0 then 59 else if k == 1 then 23 else if k == 2 then 31 else if k == 3 then 12 else 6
  }

  predicate LiveLine(l: Line)
    requires GoodLine(l)
  {
    forall k :: 0 <= k < |l.fields| ==> LiveField(l.fields[k], Lower(k), Upper(k))
  }

  function LinesFlags(lines: seq<Line>): Flags
    requires forall i :: 0 <= i < |lines| ==> GoodLine(lines[i])
  {
    if lines == [] then NO_FLAGS
    else if |lines| == 1 then LineFlags(lines[0])
    else Union(LineFlags(lines[0]), LinesFlags(lines[1..]))
  }

  // ----- tokens -----

  lemma SkipsExactly(s: Text, p: nat, t: string)
    requires Occurs(s, p, t) && Spaces(t) && !IsSpace(s[p + |t|])
    ensures SkipSpaces(s, p) == p + |t|
  {
  }

  lemma NumberExactly(s: Text, p: nat, t: string)
    requires Occurs(s, p, t) && Numeral(t) && !IsDigit(s[p + |t|])
    ensures DigitsEnd(s, p) == p + |t| && Number(s, p) == Value(t)
  {
    DigitsExactly(s, p, t);
  }

  // ----- items -----

  /** What may come after an item. */
  predicate Stops(c: char) {
    c == ',' || IsSpace(c) || IsEol(c)
  }

  /** What parsing an item comes to: its flags, or a loop with step zero. */
  function ItemParse(x: Item, pos: nat, min: nat, max: nat): Parse
    requires GoodItem(x)
  {
    if Live(x, min, max) then At(pos, Sets8(x, min, max)) else Endless
  }

  lemma StarParses(s: Text, p: nat, x: Item, min: nat, max: nat)
    requires GoodItem(x) && Bounds(min, max) && (x.Star? || x.StarStep?)
    requires Occurs(s, p, ItemText(x)) && Stops(s[p + |ItemText(x)|])
    ensures s[p] == '*' && StarElement(s, p, min, max) == ItemParse(x, p + |ItemText(x)|, min, max)
  {
    OccursAt(s, p, ItemText(x), 0);
    if x.StarStep? {
      OccursAt(s, p, ItemText(x), 1);
      OccursSplit(s, p, "*/", x.step);
      NumberExactly(s, p + 2, x.step);
    }
  }

  lemma RangeParses(s: Text, p: nat, from: nat, x: Item, min: nat, max: nat)
    requires GoodItem(x) && Bounds(min, max) && (x.Range? || x.RangeStep?) && from == Value(x.a)
    requires var t := x.b + if x.Range? then "" else "/" + x.step;
             Occurs(s, p, t) && Stops(s[p + |t|])
    ensures var t := x.b + if x.Range? then "" else "/" + x.step;
            RangeElement(s, p, from, min, max) == ItemParse(x, p + |t|, min, max)
  {
    hide Occurs, Number, DigitsEnd, Filled, Value;
    if x.Range? {
      assert x.b + "" == x.b;
      NumberExactly(s, p, x.b);
    } else {
      OccursSplit(s, p, x.b, "/" + x.step);
      OccursSplit(s, p + |x.b|, "/", x.step);
      OccursAt(s, p + |x.b|, "/", 0);
      NumberExactly(s, p, x.b);
      NumberExactly(s, p + |x.b| + 1, x.step);
    }
  }

  lemma SingleParses(s: Text, p: nat, x: Item, min: nat, max: nat)
    requires GoodItem(x) && Bounds(min, max) && x.Single?
    requires Occurs(s, p, x.n) && Stops(s[p + |x.n|])
    ensures IsDigit(s[p]) && NumericElement(s, p, min, max) == ItemParse(x, p + |x.n|, min, max)
  {
    hide RangeElement, Number;
    OccursAt(s, p, x.n, 0);
    NumberExactly(s, p, x.n);
  }

  lemma IntervalParses(s: Text, p: nat, x: Item, rest: string, min: nat, max: nat)
    requires GoodItem(x) && Bounds(min, max) && (x.Range? || x.RangeStep?)
    requires rest == x.b + if x.Range? then "" else "/" + x.step
    requires Occurs(s, p, x.a + ("-" + rest)) && Stops(s[p + |x.a| + 1 + |rest|])
    ensures IsDigit(s[p]) && NumericElement(s, p, min, max) == ItemParse(x, p + |x.a| + 1 + |rest|, min, max)
  {
    hide RangeElement, Number, ItemParse, Stops, Occurs, DigitsEnd, Value, Bounds, ItemText;
    OccursSplit(s, p, x.a, "-" + rest);
    OccursSplit(s, p + |x.a|, "-", rest);
    OccursAt(s, p, x.a, 0);
    OccursAt(s, p + |x.a|, "-", 0);
    NumberExactly(s, p, x.a);
    RangeParses(s, p + |x.a| + 1, Value(x.a), x, min, max);
  }

  lemma NumericParses(s: Text, p: nat, x: Item, min: nat, max: nat)
    requires GoodItem(x) && Bounds(min, max) && !x.Star? && !x.StarStep?
    requires Occurs(s, p, ItemText(x)) && Stops(s[p + |ItemText(x)|])
    ensures IsDigit(s[p]) && NumericElement(s, p, min, max) == ItemParse(x, p + |ItemText(x)|, min, max)
  {
    hide NumericElement, ItemParse, Occurs, Live, Stops;
    if x.Single? {
      SingleParses(s, p, x, min, max);
    } else {
      var rest := x.b + if x.Range? then "" else "/" + x.step;
      assert x.b + "" == x.b;
      assert ItemText(x) == x.a + ("-" + rest);
      IntervalParses(s, p, x, rest, min, max);
    }
  }

  function ElemText(e: Elem): string {
    e.lead + ItemText(e.item)
  }

  lemma ItemStarts(s: Text, p: nat, x: Item)
    requires GoodItem(x) && Occurs(s, p, ItemText(x))
    ensures s[p] == '*' || IsDigit(s[p])
  {
  }

  lemma ElementParses(s: Text, p: nat, e: Elem, min: nat, max: nat)
    requires Spaces(e.lead) && GoodItem(e.item) && Bounds(min, max)
    requires Occurs(s, p, ElemText(e)) && Stops(s[p + |ElemText(e)|])
    ensures Element(s, p, min, max) == ItemParse(e.item, p + |ElemText(e)|, min, max)
  {
    hide StarElement, NumericElement, ItemParse, Occurs, SkipSpaces, Live, ItemText;
    OccursSplit(s, p, e.lead, ItemText(e.item));
    ItemStarts(s, p + |e.lead|, e.item);
    SkipsExactly(s, p, e.lead);
    if e.item.Star? || e.item.StarStep? {
      StarParses(s, p + |e.lead|, e.item, min, max);
    } else {
      NumericParses(s, p + |e.lead|, e.item, min, max);
    }
  }

  // ----- fields -----

  lemma FieldTextSplit(f: Field)
    requires f != []
    ensures FieldText(f) == ElemText(f[0]) + if |f| == 1 then "" else "," + FieldText(f[1..])
  {
  }

  function FieldParse(f: Field, pos: nat, min: nat, max: nat): Parse
    requires GoodField(f)
  {
    if LiveField(f, min, max) then At(pos, FieldMarks(f, min, max)) else Endless
  }

  lemma LaterElements(f: Field, min: nat, max: nat)
    requires GoodField(f) && |f| > 1
    ensures GoodField(f[1..])
    ensures LiveField(f, min, max) <==> Live(f[0].item, min, max) && LiveField(f[1..], min, max)
  {
  }

  lemma {:induction false} FieldParses(s: Text, p: nat, f: Field, min: nat, max: nat)
    requires GoodField(f) && Bounds(min, max)
    requires Occurs(s, p, FieldText(f))
    requires var c := s[p + |FieldText(f)|]; IsSpace(c) || IsEol(c)
    ensures Elements(s, p, min, max) == FieldParse(f, p + |FieldText(f)|, min, max)
    decreases |f|
  {
    hide Element, Sets8, ItemText, Occurs, FieldText, Live;
    FieldTextSplit(f);
    var first := ElemText(f[0]);
    if |f| == 1 {
      assert first + "" == first;
      ElementParses(s, p, f[0], min, max);
    } else {
      var rest := FieldText(f[1..]);
      OccursSplit(s, p, first, "," + rest);
      OccursSplit(s, p + |first|, ",", rest);
      OccursAt(s, p + |first|, ",", 0);
      LaterElements(f, min, max);
      ElementParses(s, p, f[0], min, max);
      FieldParses(s, p + |first| + 1, f[1..], min, max);
    }
  }

  lemma SkipTwice(s: Text, p: nat)
    requires p < |s|
    ensures SkipSpaces(s, SkipSpaces(s, p)) == SkipSpaces(s, p)
  {
  }

  lemma SkipThenElements(s: Text, p: nat, min: nat, max: nat)
    requires p < |s| && Bounds(min, max)
    ensures Elements(s, SkipSpaces(s, p), min, max) == Elements(s, p, min, max)
  {
    hide StarElement, NumericElement;
    SkipTwice(s, p);
    assert Element(s, SkipSpaces(s, p), min, max) == Element(s, p, min, max);
  }

  lemma ListOfField(s: Text, p: nat, f: Field, min: nat, max: nat)
    requires GoodField(f) && Bounds(min, max)
    requires Occurs(s, p, FieldText(f))
    requires var c := s[p + |FieldText(f)|]; IsSpace(c) || IsEol(c)
    ensures List(s, p, min, max) == FieldParse(f, p + |FieldText(f)|, min, max)
  {
    hide Elements, FieldParse, ItemText, Occurs, FieldText, SkipSpaces, LiveField;
    FieldTextSplit(f);
    var rest := if |f| == 1 then "" else "," + FieldText(f[1..]);
    OccursSplit(s, p, ElemText(f[0]), rest);
    OccursSplit(s, p, f[0].lead, ItemText(f[0].item));
    ItemStarts(s, p + |f[0].lead|, f[0].item);
    SkipsExactly(s, p, f[0].lead);
    FieldParses(s, p, f, min, max);
    SkipThenElements(s, p, min, max);
  }

  lemma ListOfNothing(s: Text, p: nat, tail: string, min: nat, max: nat)
    requires Occurs(s, p, tail) && Spaces(tail) && IsEol(s[p + |tail|]) && Bounds(min, max)
    ensures List(s, p, min, max) == At(p + |tail|, Progression(min, max, 1))
  {
    SkipsExactly(s, p, tail);
  }

  // ----- lines -----

  /** What is left of a line after one of the five lists was parsed. */
  function Rest(l: Line): Line {
    if l.fields == [] then Line([], "") else Line(l.fields[1..], l.tail)
  }

  /** The line seen from position `p`, with `k` lists behind it. */
  predicate LeftOver(s: Text, p: nat, l: Line, k: nat) {
    && k <= 5 && k + |l.fields| <= 5 && GoodFields(l.fields) && GoodTail(l.tail)
    && (k + |l.fields| < 5 ==> Spaces(l.tail))
    && Occurs(s, p, LineText(l)) && IsEol(s[p + |LineText(l)|])
  }

  /** The loops of the `k`-th field end. */
  predicate LiveAt(fields: seq<Field>, k: nat, min: nat, max: nat)
    requires GoodFields(fields)
  {
    k < |fields| ==> LiveField(fields[k], min, max)
  }

  lemma NextList(s: Text, p: nat, l: Line, k: nat)
    requires k < 5 && LeftOver(s, p, l, k)
    ensures var r := List(s, p, Lower(k), Upper(k));
            if LiveAt(l.fields, 0, Lower(k), Upper(k)) then
              && r.At? && r.marks == FieldOr(l.fields, 0, Lower(k), Upper(k))
              && r.pos + |LineText(Rest(l))| == p + |LineText(l)|
              && LeftOver(s, r.pos, Rest(l), k + 1)
            else r.Endless?
  {
    hide List, FieldText, FieldMarks, LiveField, Lower, Upper, GoodField, Occurs, IsSpace, IsEol;
    BoundsOf(k);
    if l.fields == [] {
      assert "" + l.tail == l.tail;
      assert LineText(Rest(l)) == "";
      ListOfNothing(s, p, l.tail, Lower(k), Upper(k));
      OccursInside(s, p, l.tail);
      OccursNothing(s, p + |l.tail|);
    } else {
      var f, rest := l.fields[0], Rest(l);
      assert LineText(l) == FieldText(f) + LineText(rest);
      OccursSplit(s, p, FieldText(f), LineText(rest));
      AfterField(s, p + |FieldText(f)|, l);
      ListOfField(s, p, f, Lower(k), Upper(k));
      forall i | 0 <= i < |rest.fields|
        ensures GoodField(rest.fields[i]) && rest.fields[i] != [] && rest.fields[i][0].lead != ""
      {
        FieldsAreNonEmpty(l.fields[i + 1]);
        assert rest.fields[i] == l.fields[i + 1];
      }
    }
  }

  lemma FieldsAreNonEmpty(f: Field)
    ensures GoodField(f) ==> f != []
  {
  }

  lemma BoundsOf(k: nat)
    ensures Bounds(Lower(k), Upper(k))
  {
  }

  /** After a field comes a space or the end of the line. */
  lemma AfterField(s: Text, p: nat, l: Line)
    requires l.fields != [] && GoodFields(l.fields) && GoodTail(l.tail)
    requires Occurs(s, p, LineText(Rest(l))) && IsEol(s[p + |LineText(Rest(l))|])
    ensures IsSpace(s[p]) || IsEol(s[p])
  {
  }

  /** The line after `k` lists. */
  function RestN(l: Line, k: nat): Line {
    if k == 0 then l else Rest(RestN(l, k - 1))
  }

  lemma {:induction false} RestNFields(l: Line, k: nat)
    ensures RestN(l, k).fields == if k <= |l.fields| then l.fields[k..] else []
  {
    if k > 0 {
      RestNFields(l, k - 1);
    }
  }

  lemma NextListOf(s: Text, p: nat, l: Line, k: nat)
    requires k < 5 && GoodLine(l) && LeftOver(s, p, RestN(l, k), k)
    ensures var r := List(s, p, Lower(k), Upper(k));
            if LiveAt(l.fields, k, Lower(k), Upper(k)) then
              && r.At? && r.marks == FieldOr(l.fields, k, Lower(k), Upper(k))
              && r.pos + |LineText(RestN(l, k + 1))| == p + |LineText(RestN(l, k))|
              && LeftOver(s, r.pos, RestN(l, k + 1), k + 1)
            else r.Endless?
  {
    hide List, LeftOver, FieldMarks, LineText, GoodField, Lower, Upper, LiveField;
    RestNFields(l, k);
    LeftOverIsGood(s, p, RestN(l, k), k);
    NextList(s, p, RestN(l, k), k);
  }

  lemma LeftOverIsGood(s: Text, p: nat, l: Line, k: nat)
    requires LeftOver(s, p, l, k)
    ensures GoodFields(l.fields)
  {
  }

  /** Where the line ends and the next one begins. */
  function AfterLine(s: Text, e: nat): nat
    requires e < |s| && IsEol(s[e])
  {
    SkipSpaces(s, if s[e] == ';' then e + 1 else e)
  }

  /** A line sets what its five fields denote, a missing field the full range; or one of its loops never ends. */
  lemma LineParses(s: Text, p: nat, l: Line)
    requires GoodLine(l)
    requires Occurs(s, p, LineText(l)) && IsEol(s[p + |LineText(l)|])
    ensures Entry(s, p) == if LiveLine(l) then Next(AfterLine(s, p + |LineText(l)|), LineFlags(l)) else Forever
  {
    hide List, LeftOver, FieldOr, LineText, GoodLine, AfterEntry, Occurs, LiveAt, LiveLine;
    LineLeftOver(s, p, l);
    LiveLineIs(l);
    NextListOf(s, p, l, 0);
    if LiveAt(l.fields, 0, 0, 59) {
      var p1 := List(s, p, 0, 59).pos;
      NextListOf(s, p1, l, 1);
      if LiveAt(l.fields, 1, 0, 23) {
        var p2 := List(s, p1, 0, 23).pos;
        NextListOf(s, p2, l, 2);
        if LiveAt(l.fields, 2, 1, 31) {
          var p3 := List(s, p2, 1, 31).pos;
          NextListOf(s, p3, l, 3);
          if LiveAt(l.fields, 3, 1, 12) {
            var p4 := List(s, p3, 1, 12).pos;
            NextListOf(s, p4, l, 4);
            if LiveAt(l.fields, 4, 0, 6) {
              LineEnds(s, List(s, p4, 0, 6).pos, RestN(l, 5));
            }
          }
        }
      }
    }
  }

  lemma LiveLineIs(l: Line)
    requires GoodLine(l)
    ensures LiveLine(l) <==>
            && LiveAt(l.fields, 0, 0, 59) && LiveAt(l.fields, 1, 0, 23) && LiveAt(l.fields, 2, 1, 31)
            && LiveAt(l.fields, 3, 1, 12) && LiveAt(l.fields, 4, 0, 6)
  {
  }

  lemma LineLeftOver(s: Text, p: nat, l: Line)
    requires GoodLine(l) && Occurs(s, p, LineText(l)) && IsEol(s[p + |LineText(l)|])
    ensures LeftOver(s, p, l, 0)
  {
  }

  lemma LineEnds(s: Text, p: nat, l: Line)
    requires LeftOver(s, p, l, 5)
    ensures p + |LineText(l)| < |s| && IsEol(s[p + |LineText(l)|])
    ensures AfterEntry(s, p) == AfterLine(s, p + |LineText(l)|)
  {
  }

  // ----- whole strings -----

  predicate LiveLines(lines: seq<Line>)
    requires forall i :: 0 <= i < |lines| ==> GoodLine(lines[i])
  {
    forall i :: 0 <= i < |lines| ==> LiveLine(lines[i])
  }

  /** Leading spaces make no difference to an entry. */
  lemma SkipThenEntries(s: Text, p: nat)
    requires p < |s|
    ensures Entries(s, SkipSpaces(s, p)) == Entries(s, p)
  {
    hide Elements, AfterEntry;
    var q := SkipSpaces(s, p);
    SkipTwice(s, p);
    assert List(s, q, 0, 59) == List(s, p, 0, 59);
    assert Entry(s, q) == Entry(s, p);
  }

  /** A text that does not consist of spaces alone is not skipped. */
  lemma SkipStopsInside(s: Text, p: nat, t: string, i: nat)
    requires Occurs(s, p, t) && i < |t| && !IsSpace(t[i])
    ensures s[SkipSpaces(s, p)] != '\0'
  {
  }

  /** The lines one after the other set the union of what each of them denotes, unless a loop never ends. */
  lemma {:induction false} LinesParse(s: Text, p: nat, lines: seq<Line>, closing: string)
    requires GoodLines(lines, closing)
    requires Occurs(s, p, LinesText(lines, closing)) && p + |LinesText(lines, closing)| == |s| - 1
    ensures Entries(s, p) == if LiveLines(lines) then Sets(LinesFlags(lines)) else Hangs
    decreases |lines|
  {
    hide Entry, GoodLine, LineText, LineFlags, LiveLine, SkipSpaces, IsSpace, Occurs;
    var first, text := lines[0], LineText(lines[0]);
    var more := if |lines| > 1 then ";" + LinesText(lines[1..], closing) else closing;
    OccursSplit(s, p, text, more);
    OccursInside(s, p, text);
    var e := p + |text|;
    if more == "" {
      assert e == |s| - 1;
    } else {
      OccursAt(s, e, more, 0);
    }
    LineParses(s, p, first);
    LiveLinesSplit(lines);
    if |lines| > 1 {
      var rest := LinesText(lines[1..], closing);
      OccursSplit(s, e, ";", rest);
      LinesParse(s, e + 1, lines[1..], closing);
      SkipThenEntries(s, e + 1);
      NotBlank(s, e + 1, lines[1..], closing);
    } else if closing == "" {
      EndOfText(s, |s| - 1);
    } else {
      ClosingIsSkipped(s, e, closing);
    }
  }

  lemma ClosingIsSkipped(s: Text, e: nat, closing: string)
    requires closing != "" && closing[0] == ';' && Spaces(closing[1..])
    requires Occurs(s, e, closing) && e + |closing| == |s| - 1
    ensures SkipSpaces(s, e + 1) == |s| - 1
  {
    assert closing == closing[..1] + closing[1..];
    OccursSplit(s, e, closing[..1], closing[1..]);
    SkipsExactly(s, e + 1, closing[1..]);
  }

  lemma LiveLinesSplit(lines: seq<Line>)
    requires lines != [] && forall i :: 0 <= i < |lines| ==> GoodLine(lines[i])
    ensures LiveLines(lines) <==> LiveLine(lines[0]) && LiveLines(lines[1..])
  {
  }

  lemma EndOfText(s: Text, p: nat)
    requires p == |s| - 1
    ensures SkipSpaces(s, p) == p
  {
  }

  /** What is left is not blank, so the entry loop goes on. */
  lemma NotBlank(s: Text, p: nat, lines: seq<Line>, closing: string)
    requires GoodLines(lines, closing) && (|lines| == 1 ==> lines[0].fields != [] || closing != "")
    requires Occurs(s, p, LinesText(lines, closing)) && p + |LinesText(lines, closing)| == |s| - 1
    ensures s[SkipSpaces(s, p)] != '\0'
  {
    hide GoodField, FieldText;
    var i := SolidCharacter(lines, closing);
    SkipStopsInside(s, p, LinesText(lines, closing), i);
  }

  lemma SolidCharacter(lines: seq<Line>, closing: string) returns (i: nat)
    requires GoodLines(lines, closing) && (|lines| == 1 ==> lines[0].fields != [] || closing != "")
    ensures i < |LinesText(lines, closing)| && !IsSpace(LinesText(lines, closing)[i])
  {
    hide GoodField, FieldText;
    var first := lines[0];
    if |lines| > 1 || closing != "" {
      i := |LineText(first)|;
    } else {
      assert GoodLine(first);
      i := SolidInField(first.fields[0]);
    }
  }

  lemma SolidInField(f: Field) returns (i: nat)
    requires GoodField(f)
    ensures i < |FieldText(f)| && !IsSpace(FieldText(f)[i])
  {
    i := |f[0].lead|;
    var t := ItemText(f[0].item);
    assert t != "" && !IsSpace(t[0]);
    assert FieldText(f)[i] == t[0];
  }

  // ----- no NUL in what is spelled -----

  predicate NoNul(t: string) {
    forall i :: 0 <= i < |t| ==> t[i] != '\0'
  }

  lemma {:induction false} FieldHasNoNul(f: Field)
    requires GoodField(f)
    ensures NoNul(FieldText(f))
    decreases |f|
  {
    assert NoNul(ItemText(f[0].item));
    if |f| > 1 {
      FieldHasNoNul(f[1..]);
    }
  }

  lemma {:induction false} FieldsHaveNoNul(fields: seq<Field>)
    requires forall i :: 0 <= i < |fields| ==> GoodField(fields[i])
    ensures NoNul(FieldsText(fields))
    decreases |fields|
  {
    hide GoodField, FieldText;
    if fields != [] {
      FieldHasNoNul(fields[0]);
      FieldsHaveNoNul(fields[1..]);
    }
  }

  lemma {:induction false} LinesHaveNoNul(lines: seq<Line>, closing: string)
    requires (forall i :: 0 <= i < |lines| ==> GoodLine(lines[i])) && NoNul(closing)
    ensures NoNul(LinesText(lines, closing))
    decreases |lines|
  {
    hide GoodField, FieldsText;
    if lines != [] {
      FieldsHaveNoNul(lines[0].fields);
      assert NoNul(LineText(lines[0]));
      LinesHaveNoNul(lines[1..], closing);
    }
  }

  /** The C string. */
  function AsText(c: Crontab): Text
    requires Good(c)
  {
    assert forall i :: 0 < i < |c.closing| ==> c.closing[i] == c.closing[1..][i - 1];
    LinesHaveNoNul(c.lines, c.closing);
    assert NoNul(Spelled(c));
    Spelled(c) + ['\0']
  }

  /**
   * Main result: for every well-formed string, cron_check ends exactly when every fill loop does, and then the flags
   * are the union, over all lines, of what the fields set; a missing field sets its full range.
   */
  lemma WellFormedStringsDenote(c: Crontab)
    requires Good(c)
    ensures Check(AsText(c)) == if LiveLines(c.lines) then Sets(LinesFlags(c.lines)) else Hangs
  {
    hide GoodLines, LinesFlags, Entries, LinesText, LiveLines, Occurs, SkipSpaces, AsText;
    var s, rest := AsText(c), LinesText(c.lines, c.closing);
    TextIsSpelled(c);
    OccursSplit(s, 0, c.lead, c.zone + rest);
    OccursSplit(s, |c.lead|, c.zone, rest);
    LinesParse(s, |c.lead| + |c.zone|, c.lines, c.closing);
    if c.zone == "" {
      SkipThenEntries(s, 0);
      NoZoneLetter(s, c.lines, c.closing);
    } else {
      OccursAt(s, |c.lead|, c.zone, 0);
      LetterIsNoSpace(c.zone[0]);
      SkipsExactly(s, 0, c.lead);
    }
  }

  lemma LetterIsNoSpace(c: char)
    ensures c == 'Z' || c == 'L' ==> !IsSpace(c)
  {
  }

  lemma TextIsSpelled(c: Crontab)
    requires Good(c)
    ensures Occurs(AsText(c), 0, Spelled(c)) && |AsText(c)| == |Spelled(c)| + 1
  {
  }

  lemma NoZoneLetter(s: Text, lines: seq<Line>, closing: string)
    requires GoodLines(lines, closing)
    requires Occurs(s, 0, LinesText(lines, closing)) && |LinesText(lines, closing)| == |s| - 1
    ensures s[SkipSpaces(s, 0)] != 'Z' && s[SkipSpaces(s, 0)] != 'L'
  {
    hide GoodLine, LineText, Occurs, SkipSpaces;
    var l := lines[0];
    var more := if |lines| > 1 then ";" + LinesText(lines[1..], closing) else closing;
    OccursSplit(s, 0, LineText(l), more);
    if more == "" {
      assert LineText(l) + "" == LineText(l);
    } else {
      OccursAt(s, |LineText(l)|, more, 0);
    }
    LineStart(s, l);
  }

  lemma LineStart(s: Text, l: Line)
    requires GoodLine(l) && Occurs(s, 0, LineText(l)) && IsEol(s[|LineText(l)|])
    ensures s[SkipSpaces(s, 0)] != 'Z' && s[SkipSpaces(s, 0)] != 'L'
  {
    hide GoodField, FieldText, SkipSpaces;
    if l.fields == [] {
      assert LineText(l) == l.tail;
      SkipsExactly(s, 0, l.tail);
    } else {
      var f, rest := l.fields[0], FieldsText(l.fields[1..]) + l.tail;
      assert LineText(l) == FieldText(f) + rest;
      OccursSplit(s, 0, FieldText(f), rest);
      FirstOfField(s, f);
    }
  }

  lemma FirstOfField(s: Text, f: Field)
    requires GoodField(f) && Occurs(s, 0, FieldText(f))
    ensures var c := s[SkipSpaces(s, 0)]; c == '*' || IsDigit(c)
  {
    FieldTextSplit(f);
    var more := if |f| == 1 then "" else "," + FieldText(f[1..]);
    OccursSplit(s, 0, ElemText(f[0]), more);
    OccursSplit(s, 0, f[0].lead, ItemText(f[0].item));
    ItemStarts(s, |f[0].lead|, f[0].item);
    SkipsExactly(s, 0, f[0].lead);
  }
}
