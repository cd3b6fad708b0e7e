/** Printing five sets of values as a cron string and reading it back. */
module CronRoundTrip {
  import opened CStrings
  import opened Numerals
  import opened CronSpec
  import opened CronSyntax

  /** The members of `values` from `v` on, each as a decimal number. */
  function Listed(values: set<nat>, v: nat, max: nat): Field
    decreases max + 1 - v
  {
    if v > max then []
    else (if v in values then [Elem("", Single(Decimal(v)))] else []) + Listed(values, v + 1, max)
  }

  function Printed(values: set<nat>, max: nat, lead: string): Field {
    var f := Listed(values, 0, max);
    if f == [] then [] else [Elem(lead, f[0].item)] + f[1..]
  }

  predicate Plain(f: Field) {
    forall i :: 0 <= i < |f| ==> Spaces(f[i].lead) && GoodItem(f[i].item) && f[i].item.Single?
  }

  lemma PlainConcat(f: Field, g: Field)
    requires Plain(f) && Plain(g)
    ensures Plain(f + g)
  {
  }

  lemma {:induction false} ListedIsGood(values: set<nat>, v: nat, max: nat)
    ensures Plain(Listed(values, v, max))
    decreases max + 1 - v
  {
    if v <= max {
      ListedIsGood(values, v + 1, max);
      PlainConcat(if v in values then [Elem("", Single(Decimal(v)))] else [], Listed(values, v + 1, max));
    }
  }

  lemma {:induction false} ListedHasAll(values: set<nat>, v: nat, max: nat, u: nat)
    requires v <= u <= max && u in values
    ensures Listed(values, v, max) != []
    decreases max + 1 - v
  {
    if v < u {
      ListedHasAll(values, v + 1, max, u);
    }
  }

  lemma NothingListed(values: set<nat>, v: nat, max: nat)
    requires Listed(values, v, max) == []
    ensures forall u :: v <= u <= max ==> u !in values
  {
    forall u: nat | v <= u <= max
      ensures u !in values
    {
      if u in values {
        ListedHasAll(values, v, max, u);
      }
    }
  }

  lemma NumberMarksItself(v: nat, min: nat, max: nat)
    requires v <= max < 256
    ensures GoodItem(Single(Decimal(v))) && Sets8(Single(Decimal(v)), min, max) == {v}
  {
    hide DecimalValue, Decimal;
    ValueOfDecimal(v);
  }

  lemma {:induction false} ListedMarks(values: set<nat>, v: nat, min: nat, max: nat)
    requires max < 256 && Listed(values, v, max) != []
    ensures GoodField(Listed(values, v, max))
    ensures FieldMarks(Listed(values, v, max), min, max) == set u | u in values && v <= u <= max
    decreases max + 1 - v
  {
    hide Sets8, Decimal, GoodItem, Spaces;
    ListedIsGood(values, v, max);
    var rest := Listed(values, v + 1, max);
    if v in values {
      NumberMarksItself(v, min, max);
      if rest == [] {
        NothingListed(values, v + 1, max);
      } else {
        ListedMarks(values, v + 1, min, max);
        assert Listed(values, v, max)[1..] == rest;
      }
    } else {
      ListedMarks(values, v + 1, min, max);
      assert Listed(values, v, max) == rest;
    }
  }

  /** A printed field is well formed, its loops end, and it denotes the set it was made from. */
  lemma PrintedDenotes(values: set<nat>, min: nat, max: nat, lead: string)
    requires values != {} && Within(values, max) && max < 256 && Spaces(lead)
    ensures var f := Printed(values, max, lead);
            f != [] && GoodField(f) && f[0].lead == lead && LiveField(f, min, max) && FieldMarks(f, min, max) == values
  {
    hide Sets8;
    var u :| u in values;
    ListedHasAll(values, 0, max, u);
    ListedIsGood(values, 0, max);
    ListedMarks(values, 0, min, max);
    var f := Listed(values, 0, max);
    assert Printed(values, max, lead)[1..] == f[1..];
    assert values == set w | w in values && 0 <= w <= max;
  }

  function Print(f: Flags): Crontab {
    Crontab("", "", [Line([Printed(f.minutes, 59, ""), Printed(f.hours, 23, " "), Printed(f.mdays, 31, " "),
                           Printed(f.months, 12, " "), Printed(f.wdays, 6, " ")], "")], "")
  }

  predicate NonEmpty(f: Flags) {
    f.minutes != {} && f.hours != {} && f.mdays != {} && f.months != {} && f.wdays != {}
  }

  lemma PrintIsGood(f: Flags)
    requires NonEmpty(f) && InRange(f)
    ensures var c := Print(f);
            Good(c) && LiveLines(c.lines) && LinesFlags(c.lines) == f
  {
    hide Printed, FieldMarks, GoodField, LiveField;
    PrintedDenotes(f.minutes, 0, 59, "");
    PrintedDenotes(f.hours, 0, 23, " ");
    PrintedDenotes(f.mdays, 1, 31, " ");
    PrintedDenotes(f.months, 1, 12, " ");
    PrintedDenotes(f.wdays, 0, 6, " ");
    var fields: seq<Field> := Print(f).lines[0].fields;
    assert fields[1][0].lead == fields[2][0].lead == fields[3][0].lead == fields[4][0].lead == " ";
    assert GoodFields(fields);
    assert GoodLine(Print(f).lines[0]);
    assert LiveLine(Print(f).lines[0]);
  }

  /** Printing any five non-empty sets of values in range and checking the string gives back exactly those sets. */
  lemma RoundTrip(f: Flags)
    requires NonEmpty(f) && InRange(f)
    ensures Good(Print(f)) && Check(AsText(Print(f))) == Sets(f)
  {
    hide Print, Check, AsText, Good;
    PrintIsGood(f);
    WellFormedStringsDenote(Print(f));
  }
}
