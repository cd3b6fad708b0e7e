/** Concrete strings: the documented example, the full ranges, and what the parser does with malformed ones. */
module CronExamples {
  import opened CStrings
  import opened Numerals
  import opened CronSpec
  import opened CronSyntax
  import opened CronMeaning

  lemma Digits(t: string, d: char)
    requires AllDigits(t) && IsDigit(d)
    ensures AllDigits(t + [d]) && DecimalValue(t + [d]) == 10 * DecimalValue(t) + DigitValue(d)
  {
    ValueSnoc(t, d);
  }

  lemma OneDigit(t: string)
    requires |t| == 1 && AllDigits(t)
    ensures Numeral(t) && DecimalValue(t) == DigitValue(t[0])
  {
    NoDigits();
    hide DecimalValue;
    Digits("", t[0]);
    assert "" + [t[0]] == t;
  }

  lemma NoDigits()
    ensures AllDigits("") && DecimalValue("") == 0
  {
  }

  lemma TwoDigits(t: string)
    requires |t| == 2 && AllDigits(t)
    ensures Numeral(t) && DecimalValue(t) == 10 * DigitValue(t[0]) + DigitValue(t[1])
  {
    assert t[..1] + [t[1]] == t;
    OneDigit(t[..1]);
    Digits(t[..1], t[1]);
    hide DecimalValue;
  }

  // ----- the example in the documentation, and a second entry -----

  const HALVES := RangeStep("30", "59", "15")
  const FORTNIGHTS := RangeStep("0", "29", "14")

  function Example(): Crontab {
    Crontab("", "L",
            [Line([[Elem("", HALVES), Elem("", FORTNIGHTS)], [Elem(" ", Single("1"))]], ""),
             Line([[Elem("", Single("5"))], [Elem(" ", Single("2"))]], "")],
            "")
  }

  lemma ExampleItems()
    ensures SmallItem(HALVES) && SmallItem(FORTNIGHTS)
    ensures SmallItem(Single("1")) && SmallItem(Single("5")) && SmallItem(Single("2"))
    ensures Denotes(HALVES, 0, 59) == {30, 45} && Denotes(FORTNIGHTS, 0, 59) == {0, 14, 28}
    ensures Denotes(Single("5"), 0, 59) == {5}
    ensures Denotes(Single("1"), 0, 23) == {1} && Denotes(Single("2"), 0, 23) == {2}
  {
    hide DecimalValue;
    TwoDigits("30");
    TwoDigits("59");
    TwoDigits("15");
    OneDigit("0");
    TwoDigits("29");
    TwoDigits("14");
    OneDigit("1");
    OneDigit("5");
    OneDigit("2");
  }

  lemma ExampleIsGood()
    ensures Good(Example()) && forall i :: 0 <= i < |Example().lines| ==> SmallLine(Example().lines[i])
  {
    ExampleItems();
    hide SmallItem, Denotes, HALVES, FORTNIGHTS;
    SmallIsGood(HALVES);
    SmallIsGood(FORTNIGHTS);
    SmallIsGood(Single("1"));
    SmallIsGood(Single("5"));
    SmallIsGood(Single("2"));
    hide GoodItem;
    assert GoodLine(Example().lines[0]) && GoodLine(Example().lines[1]);
    assert SmallLine(Example().lines[0]) && SmallLine(Example().lines[1]);
  }

  lemma SmallIsGood(x: Item)
    requires SmallItem(x)
    ensures GoodItem(x)
  {
  }

  lemma ElemsText(a: Elem, b: Elem)
    ensures FieldText([a]) == a.lead + ItemText(a.item)
    ensures FieldText([a, b]) == a.lead + (ItemText(a.item) + ("," + (b.lead + ItemText(b.item))))
  {
    hide ItemText;
    assert [a, b][1..] == [b];
    assert ItemText(a.item) + "" == ItemText(a.item) && ItemText(b.item) + "" == ItemText(b.item);
  }

  lemma PairText(f: Field, g: Field)
    ensures LineText(Line([f, g], "")) == FieldText(f) + FieldText(g)
  {
    hide FieldText;
    assert [f, g][1..] == [g] && [g][1..] == [];
    assert FieldsText([g]) == FieldText(g) + "" == FieldText(g);
    var both := FieldText(f) + FieldText(g);
    assert FieldsText([f, g]) == both && both + "" == both;
  }

  lemma ItemTexts()
    ensures ItemText(HALVES) == "30-59/15" && ItemText(FORTNIGHTS) == "0-29/14"
  {
  }

  lemma TwoLinesText(l: Line, m: Line)
    ensures LinesText([l, m], "") == LineText(l) + (";" + LineText(m))
  {
    hide LineText;
    assert [l, m][1..] == [m];
    assert LinesText([m], "") == LineText(m) + "" == LineText(m);
  }

  lemma ExampleLines()
    ensures LineText(Example().lines[0]) == "30-59/15,0-29/14 1" && LineText(Example().lines[1]) == "5 2"
  {
    ItemTexts();
    ElemsText(Elem("", HALVES), Elem("", FORTNIGHTS));
    ElemsText(Elem(" ", Single("1")), Elem("", Star));
    ElemsText(Elem("", Single("5")), Elem("", Star));
    ElemsText(Elem(" ", Single("2")), Elem("", Star));
    var l, m := Example().lines[0], Example().lines[1];
    PairText(l.fields[0], l.fields[1]);
    PairText(m.fields[0], m.fields[1]);
    hide FieldText, LineText, HALVES, FORTNIGHTS;
  }

  lemma ExampleText()
    ensures Spelled(Example()) == "L30-59/15,0-29/14 1;5 2"
  {
    ExampleLines();
    hide LineText, LinesText;
    TwoLinesText(Example().lines[0], Example().lines[1]);
    assert Example().lines == [Example().lines[0], Example().lines[1]];
    assert "30-59/15,0-29/14 1" + (";" + "5 2") == "30-59/15,0-29/14 1;5 2";
    assert "" + ("L" + "30-59/15,0-29/14 1;5 2") == "L30-59/15,0-29/14 1;5 2";
  }

  /** The documented example with a second entry sets what the documentation says. */
  lemma DocumentedExample()
    ensures Good(Example()) && Spelled(Example()) == "L30-59/15,0-29/14 1;5 2"
    ensures Check(AsText(Example()))
            == Sets(Flags({30, 45, 0, 14, 28, 5}, {1, 2}, AllBetween(1, 31), AllBetween(1, 12), AllBetween(0, 6)))
  {
    ExampleIsGood();
    ExampleText();
    SmallStringsMeanWhatIsWritten(Example());
    ExampleMeaning();
  }

  lemma ExampleMeaning()
    ensures LinesMeaning(Example().lines)
            == Flags({30, 45, 0, 14, 28, 5}, {1, 2}, AllBetween(1, 31), AllBetween(1, 12), AllBetween(0, 6))
  {
    ExampleIsGood();
    ExampleItems();
    hide Denotes, SmallItem, HALVES, FORTNIGHTS, AllBetween;
    var lines := Example().lines;
    var l, m := lines[0], lines[1];
    var f := l.fields[0];
    assert GoodLine(l) && GoodLine(m);
    assert f[1..] == [Elem("", FORTNIGHTS)];
    MeaningSplits(f, 0, 59);
    MeaningOfOne(f[1..], 0, 59);
    MeaningOfOne(l.fields[1], 0, 23);
    MeaningOfOne(m.fields[0], 0, 59);
    MeaningOfOne(m.fields[1], 0, 23);
    assert lines[1..] == [m] && [m][1..] == [];
    hide FieldMeaning;
    assert LineMeaning(l) == Flags({30, 45, 0, 14, 28}, {1}, AllBetween(1, 31), AllBetween(1, 12), AllBetween(0, 6));
    assert LineMeaning(m) == Flags({5}, {2}, AllBetween(1, 31), AllBetween(1, 12), AllBetween(0, 6));
  }

  // ----- full ranges -----

  function OneStar(): Crontab {
    Crontab("", "", [Line([[Elem("", Star)]], "")], "")
  }

  lemma OneStarIsGood()
    ensures Good(OneStar()) && Spelled(OneStar()) == "*" && SmallLine(OneStar().lines[0])
  {
    var l := OneStar().lines[0];
    ElemsText(Elem("", Star), Elem("", Star));
    assert l.fields[1..] == [] && FieldsText([]) == "";
    assert GoodLine(l) && LineText(l) == "*";
    hide GoodLine, LineText;
  }

  lemma OneStarMeaning()
    ensures LinesMeaning(OneStar().lines)
            == Flags(AllBetween(0, 59), AllBetween(0, 23), AllBetween(1, 31), AllBetween(1, 12), AllBetween(0, 6))
  {
    var lines := OneStar().lines;
    MeaningOfOne(lines[0].fields[0], 0, 59);
    hide FieldMeaning, AllBetween;
    assert lines[1..] == [];
  }

  /** A single star sets everything: minutes 0 to 59, hours 0 to 23, days 1 to 31, months 1 to 12, weekdays 0 to 6. */
  lemma StarSetsEverything()
    ensures Good(OneStar()) && Spelled(OneStar()) == "*"
    ensures Check(AsText(OneStar()))
            == Sets(Flags(AllBetween(0, 59), AllBetween(0, 23), AllBetween(1, 31), AllBetween(1, 12), AllBetween(0, 6)))
  {
    OneStarIsGood();
    OneStarMeaning();
    hide SmallLine, Good, Spelled, AsText, Check, LinesMeaning, AllBetween;
    SmallStringsMeanWhatIsWritten(OneStar());
  }

  // ----- malformed strings -----

  /** A list that starts with something else than a digit or a star stops the parser; what was set stays set. */
  lemma StopsAtNonsense(s: Text)
    requires s == "5 x 7" + ['\0']
    ensures Check(s) == Sets(Flags({5}, {}, {}, {}, {}))
  {
    assert s[0] == '5' && s[1] == ' ' && s[2] == 'x';
    Number5(s);
    assert SkipSpaces(s, 0) == 0 && SkipSpaces(s, 1) == 2;
    hide DigitsEnd, Number, SkipSpaces;
  }

  lemma Number5(s: Text)
    requires |s| > 1 && s[0] == '5' && !IsDigit(s[1])
    ensures DigitsEnd(s, 0) == 1 && Number(s, 0) == 5
  {
    OneDigit("5");
    assert s[0..1] == "5";
  }

  /** One character that belongs to nothing is jumped over behind a list. */
  lemma JumpsOverOneCharacter(s: Text, min: nat, max: nat)
    requires |s| > 2 && s[0] == '5' && s[1] == 'x' && Bounds(min, max) && max >= 5
    ensures List(s, 0, min, max) == At(2, {5})
  {
    Number5(s);
    assert SkipSpaces(s, 0) == 0;
    hide DigitsEnd, Number, SkipSpaces;
  }
}
