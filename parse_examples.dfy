/** The parse results the calendar expressions of the test suite must
    have, proved from the grammar. Each lemma takes the expression as a
    parameter fixed by its precondition. */
module ParseExamples {
  import opened Outcomes
  import opened Text
  import opened Fields
  import opened Expressions

  /** The specification of an expression that gives no field: every
      weekday, year, month and day, at midnight. */
  function Defaults(): Spec {
    Spec(Full(DayOfWeek), Full(Year), Full(Month), Full(DayOfMonth), {0}, {0}, {0})
  }

  lemma StarYears()
    ensures ParseYears("*") == Ok(Full(Year))
  {
    StarField(Year, false);
  }

  lemma StarDate()
    ensures ParseDate("*" + "-" + "*" + "-" + "*") == Ok(DateSets(Full(Year), Full(Month), Full(DayOfMonth)))
  {
    StarYears();
    StarField(Month, false);
    StarField(DayOfMonth, false);
    FullDate("*", "*", "*");
  }

  lemma StarTime()
    ensures ParseTime("*" + ":" + "*" + ":" + "*") == Ok(TimeSets(Full(Hour), Full(Minute), Full(Second)))
  {
    StarField(Hour, false);
    StarField(Minute, false);
    StarField(Second, false);
    HourMinuteSecondTime("*", "*", "*");
  }

  /** Stars in every date and time field stand for their whole domains. */
  lemma Stars(e: string)
    requires e == "*-*-* *:*:*"
    ensures Parse(e) ==
      Ok(Spec(Full(DayOfWeek), Full(Year), Full(Month), Full(DayOfMonth), Full(Hour), Full(Minute), Full(Second)))
  {
    var d, t := "*-*-*", "*:*:*";
    assert e == d + " " + t;
    assert Classify(d) == DatePart && Classify(t) == TimePart;
    assert NoBlank(d) && NoBlank(t);
    assert d == "*" + "-" + "*" + "-" + "*" && t == "*" + ":" + "*" + ":" + "*";
    TwoComponents(d, t);
    StarDate();
    StarTime();
    DateAndTime(d, t);
  }

  // ---------------------------------------------------------------------
  // Weekdays

  lemma MondayNumber(e: string)
    requires e == "Mon" || e == "MON" || e == "Monday" || e == "MONDAY"
    ensures WeekdayNumber(e) == Some(0)
  {
  }

  lemma MondayLetters(e: string)
    requires e == "Mon" || e == "MON" || e == "Monday" || e == "MONDAY"
    ensures e != [] && forall i :: 0 <= i < |e| ==> IsAsciiLetter(e[i])
  {
  }

  /** A component that starts with a letter and has no colon is a weekday
      list; without a trailing comma it is kept whole, and a length other
      than eight or a second letter other than `i` rules out the `minutely`
      shorthand. */
  lemma WordComponent(e: string)
    requires e != [] && IsAsciiLetter(e[0]) && e[|e| - 1] != ',' && ':' !in e && NoBlank(e)
    requires |e| != 8 || UpperChar(e[1]) != 'I'
    ensures StripTrailingComma(e) == e && Upper(e) != "MINUTELY" && Classify(e) == WeekdayPart && NoBlank(e)
  {
  }

  lemma MondayComponent(e: string)
    requires e == "Mon" || e == "MON" || e == "Monday" || e == "MONDAY"
    ensures StripTrailingComma(e) == e && Upper(e) != "MINUTELY" && Classify(e) == WeekdayPart && NoBlank(e)
  {
    assert e[0] == 'M' && |e| != 8 && e[|e| - 1] in "nNyY";
    assert ':' !in e && NoBlank(e);
    WordComponent(e);
  }

  /** Monday, abbreviated or in full, in any case. */
  lemma Monday(e: string)
    requires e == "Mon" || e == "MON" || e == "Monday" || e == "MONDAY"
    ensures Parse(e) == Ok(Defaults().(weekdays := {0}))
  {
    MondayNumber(e);
    MondayLetters(e);
    MondayComponent(e);
    WeekdayField(e, 0);
    OneComponent(e);
    WeekdayOnly(e);
  }

  lemma HourMinuteNumbers(h: nat, m: nat)
    requires h <= 23 && m <= 59
    ensures ParseTime(Decimal(h) + ":" + Decimal(m)) == Ok(TimeSets({h}, {m}, {0}))
  {
    assert Top(Hour, false) == 23 && Top(Minute, false) == 59;
    NumberField(Hour, h, false);
    NumberField(Minute, m, false);
    DigitsOnly(Decimal(h), ':');
    DigitsOnly(Decimal(m), ':');
    HourMinuteTime(Decimal(h), Decimal(m));
  }

  lemma MondayWithCommaShape(e: string)
    requires e == "Mon, 12:34"
    ensures e == "Mon," + " " + (Decimal(12) + ":" + Decimal(34))
    ensures NoBlank("Mon,") && NoBlank(Decimal(12) + ":" + Decimal(34)) && Decimal(12) + ":" + Decimal(34) != []
    ensures Classify("Mon,") == WeekdayPart && Classify(Decimal(12) + ":" + Decimal(34)) == TimePart
    ensures StripTrailingComma("Mon,") == "Mon"
  {
  }

  /** A weekday may be followed by a comma. */
  lemma MondayWithComma(e: string)
    requires e == "Mon, 12:34"
    ensures Parse(e) == Ok(Defaults().(weekdays := {0}, hours := {12}, minutes := {34}))
  {
    var w, t := "Mon,", Decimal(12) + ":" + Decimal(34);
    MondayWithCommaShape(e);
    TwoComponents(w, t);
    MondayNumber("Mon");
    MondayLetters("Mon");
    WeekdayField("Mon", 0);
    HourMinuteNumbers(12, 34);
    WeekdayAndTime(w, t);
  }

  lemma PairInterval(a: int)
    ensures Interval(a, a + 1) == {a, a + 1}
  {
  }

  lemma TripleInterval(a: int)
    ensures Interval(a, a + 2) == {a, a + 1, a + 2}
  {
  }

  lemma TuesdayNumber(e: string)
    requires e == "Tue"
    ensures WeekdayNumber(e) == Some(1)
  {
    assert Upper(e) == "TUE";
    assert DayAbbreviations[1..][0] == "TUE";
    assert IndexIn(DayAbbreviations, "TUE") == Some(1);
  }

  lemma DayBounds(a: string, b: string, x: int, y: int)
    requires WeekdayNumber(a) == Some(x) && WeekdayNumber(b) == Some(y) && x <= y
    ensures ParseBounds(DayOfWeek, a, b, false) == Ok((x, y))
  {
  }

  lemma TuesdayField(e: string)
    requires e == "Tue"
    ensures ParseField(DayOfWeek, e, false) == Ok({1})
  {
    TuesdayNumber(e);
    assert e != [] && forall i :: 0 <= i < |e| ==> IsAsciiLetter(e[i]);
    WeekdayField(e, 1);
  }

  lemma WeekdayPairComponent(e: string)
    requires e == "Mon..Tue" || e == "Mon,Tue" || e == "Mon-Tue"
    ensures StripTrailingComma(e) == e && Upper(e) != "MINUTELY" && Classify(e) == WeekdayPart && NoBlank(e)
  {
    assert e[0] == 'M' && e[1] == 'o' && e[|e| - 1] == 'e';
    if e == "Mon..Tue" {
      assert ':' !in e && NoBlank(e);
    } else if e == "Mon,Tue" {
      assert ':' !in e && NoBlank(e);
    } else {
      assert ':' !in e && NoBlank(e);
    }
    WordComponent(e);
  }

  lemma MondayDotsTuesday(a: string, b: string)
    requires a == "Mon" && b == "Tue"
    ensures ParseField(DayOfWeek, a + ".." + b, false) == Ok({0, 1})
  {
    MondayNumber(a);
    TuesdayNumber(b);
    DayBounds(a, b, 0, 1);
    assert '/' !in a && '/' !in b && '.' !in a && ',' !in a && ',' !in b;
    RangeToken(DayOfWeek, a, b, false);
    PairInterval(0);
  }

  lemma MondayCommaTuesday(a: string, b: string)
    requires a == "Mon" && b == "Tue"
    ensures ParseField(DayOfWeek, a + "," + b, false) == Ok({0, 1})
  {
    MondayNumber(a);
    MondayLetters(a);
    WeekdayField(a, 0);
    TuesdayField(b);
    ListUnion(DayOfWeek, a, b, false);
    assert {0} + {1} == {0, 1};
  }

  lemma MondayDashTuesday(a: string, b: string)
    requires a == "Mon" && b == "Tue"
    ensures ParseField(DayOfWeek, a + "-" + b, false) == Ok({0, 1})
  {
    MondayNumber(a);
    TuesdayNumber(b);
    DayBounds(a, b, 0, 1);
    assert '/' !in a && '/' !in b && '.' !in a && '.' !in b && '-' !in a && ',' !in a && ',' !in b;
    WeekdayDashToken(a, b);
    PairInterval(0);
  }

  lemma WeekdayPairExpression(e: string)
    requires e == "Mon..Tue" || e == "Mon,Tue" || e == "Mon-Tue"
    requires ParseField(DayOfWeek, e, false) == Ok({0, 1})
    ensures Parse(e) == Ok(Defaults().(weekdays := {0, 1}))
  {
    WeekdayPairComponent(e);
    OneComponent(e);
    WeekdayOnly(e);
  }

  lemma WeekdayDotsExpression(e: string)
    requires e == "Mon..Tue"
    ensures Parse(e) == Ok(Defaults().(weekdays := {0, 1}))
  {
    MondayDotsTuesday("Mon", "Tue");
    assert e == "Mon" + ".." + "Tue";
    WeekdayPairExpression(e);
  }

  lemma WeekdayCommaExpression(e: string)
    requires e == "Mon,Tue"
    ensures Parse(e) == Ok(Defaults().(weekdays := {0, 1}))
  {
    MondayCommaTuesday("Mon", "Tue");
    assert e == "Mon" + "," + "Tue";
    WeekdayPairExpression(e);
  }

  lemma WeekdayDashExpression(e: string)
    requires e == "Mon-Tue"
    ensures Parse(e) == Ok(Defaults().(weekdays := {0, 1}))
  {
    MondayDashTuesday("Mon", "Tue");
    assert e == "Mon" + "-" + "Tue";
    WeekdayPairExpression(e);
  }

  /** A range, a list and a dash range of weekdays. */
  lemma MondayToTuesday(e: string)
    requires e == "Mon..Tue" || e == "Mon,Tue" || e == "Mon-Tue"
    ensures Parse(e) == Ok(Defaults().(weekdays := {0, 1}))
  {
    if e == "Mon..Tue" {
      WeekdayDotsExpression(e);
    } else if e == "Mon,Tue" {
      WeekdayCommaExpression(e);
    } else {
      WeekdayDashExpression(e);
    }
  }

  // ---------------------------------------------------------------------
  // Dates

  lemma LongDecimal(n: nat)
    requires n >= 100
    ensures |Decimal(n)| >= 3
  {
    assert Decimal(n) == Decimal(n / 10) + [DigitChar(n % 10)];
    assert Decimal(n / 10) == Decimal(n / 100) + [DigitChar(n / 10 % 10)];
  }

  /** A year written with three or more digits is itself. */
  lemma YearNumber(y: nat)
    requires 1970 <= y <= 2199
    ensures ParseYears(Decimal(y)) == Ok({y as int})
  {
    LongDecimal(y);
    NumberField(Year, y, false);
  }

  lemma DateNumbers(y: nat, m: nat, d: nat)
    requires 1970 <= y <= 2199 && 1 <= m <= 12 && 1 <= d <= 31
    ensures ParseDate(Decimal(y) + "-" + Decimal(m) + "-" + Decimal(d)) == Ok(DateSets({y}, {m}, {d}))
  {
    YearNumber(y);
    NumberField(Month, m, false);
    NumberField(DayOfMonth, d, false);
    DigitsOnly(Decimal(y), '-');
    DigitsOnly(Decimal(m), '-');
    DigitsOnly(Decimal(y), '~');
    DigitsOnly(Decimal(m), '~');
    DigitsOnly(Decimal(d), '~');
    FullDate(Decimal(y), Decimal(m), Decimal(d));
  }

  lemma MonthDayNumbers(m: nat, d: nat)
    requires 1 <= m <= 12 && 1 <= d <= 31
    ensures ParseDate(Decimal(m) + "-" + Decimal(d)) == Ok(DateSets(Full(Year), {m}, {d}))
  {
    NumberField(Month, m, false);
    NumberField(DayOfMonth, d, false);
    DigitsOnly(Decimal(m), '-');
    DigitsOnly(Decimal(d), '-');
    DigitsOnly(Decimal(m), '~');
    DigitsOnly(Decimal(d), '~');
    MonthDayDate(Decimal(m), Decimal(d));
  }

  lemma FullDateShape(e: string)
    requires e == "2023-11-30"
    ensures e == Decimal(2023) + "-" + Decimal(11) + "-" + Decimal(30)
    ensures Classify(e) == DatePart && NoBlank(e) && Upper(e) != "MINUTELY"
  {
  }

  /** A year, a month and a day. */
  lemma FullDateExample(e: string)
    requires e == "2023-11-30"
    ensures Parse(e) == Ok(Defaults().(years := {2023}, months := {11}, days := {30}))
  {
    FullDateShape(e);
    DateNumbers(2023, 11, 30);
    OneComponent(e);
    DateOnly(e);
  }

  lemma MonthDayShape(e: string)
    requires e == "11-30"
    ensures e == Decimal(11) + "-" + Decimal(30)
    ensures Classify(e) == DatePart && NoBlank(e) && Upper(e) != "MINUTELY"
  {
  }

  /** A month and a day: every year. */
  lemma MonthDayExample(e: string)
    requires e == "11-30"
    ensures Parse(e) == Ok(Defaults().(months := {11}, days := {30}))
  {
    MonthDayShape(e);
    MonthDayNumbers(11, 30);
    OneComponent(e);
    DateOnly(e);
  }

  lemma ShortYear(y: string, v: nat)
    requires y == Decimal(v) && 10 <= v < 100
    ensures ParseYears(y) == Ok({PivotYear(v)})
  {
    assert Decimal(v) == Decimal(v / 10) + [DigitChar(v % 10)];
    ParseDecimal(v);
    DecimalValueOfDecimal(v);
  }

  lemma StarMonthsAndDays(y: string)
    requires '-' !in y && '~' !in y && ParseYears(y).Ok?
    ensures ParseDate(y + "-" + "*" + "-" + "*") == Ok(DateSets(ParseYears(y).value, Full(Month), Full(DayOfMonth)))
  {
    StarField(Month, false);
    StarField(DayOfMonth, false);
    FullDate(y, "*", "*");
  }

  lemma PivotShape(e: string)
    requires e == "69-*-*" || e == "70-*-*"
    ensures e == Decimal(if e == "69-*-*" then 69 else 70) + "-" + "*" + "-" + "*"
    ensures Classify(e) == DatePart && NoBlank(e) && Upper(e) != "MINUTELY"
  {
  }

  /** Two-digit years: 69 is 2069 and 70 is 1970. */
  lemma TwoDigitYears(e: string)
    requires e == "69-*-*" || e == "70-*-*"
    ensures Parse(e) == Ok(Defaults().(years := if e == "69-*-*" then {2069} else {1970}))
  {
    var v: nat := if e == "69-*-*" then 69 else 70;
    PivotShape(e);
    ShortYear(Decimal(v), v);
    DigitsOnly(Decimal(v), '-');
    DigitsOnly(Decimal(v), '~');
    StarMonthsAndDays(Decimal(v));
    OneComponent(e);
    DateOnly(e);
  }

  // ---------------------------------------------------------------------
  // Times

  lemma TimeNumbers(h: nat, m: nat, sec: nat)
    requires h <= 23 && m <= 59 && sec <= 59
    ensures ParseTime(Decimal(h) + ":" + Decimal(m) + ":" + Decimal(sec)) == Ok(TimeSets({h}, {m}, {sec}))
  {
    assert Top(Hour, false) == 23 && Top(Minute, false) == 59 && Top(Second, false) == 59;
    NumberField(Hour, h, false);
    NumberField(Minute, m, false);
    NumberField(Second, sec, false);
    DigitsOnly(Decimal(h), ':');
    DigitsOnly(Decimal(m), ':');
    DigitsOnly(Decimal(sec), ':');
    HourMinuteSecondTime(Decimal(h), Decimal(m), Decimal(sec));
  }

  lemma TimeShape(e: string)
    requires e == "11:22:33" || e == "11:22"
    ensures e == "11:22:33" ==> e == Decimal(11) + ":" + Decimal(22) + ":" + Decimal(33)
    ensures e == "11:22" ==> e == Decimal(11) + ":" + Decimal(22)
    ensures Classify(e) == TimePart && NoBlank(e) && Upper(e) != "MINUTELY"
  {
  }

  /** An hour, a minute and a second; the second defaults to 0. */
  lemma TimeExample(e: string)
    requires e == "11:22:33" || e == "11:22"
    ensures Parse(e) == Ok(Defaults().(hours := {11}, minutes := {22}, seconds := if e == "11:22" then {0} else {33}))
  {
    TimeShape(e);
    if e == "11:22" {
      HourMinuteNumbers(11, 22);
    } else {
      TimeNumbers(11, 22, 33);
    }
    OneComponent(e);
    TimeOnly(e);
  }

  /** `*:m`: every hour, on the minutes that `m` gives. */
  lemma MinuteExpression(e: string, m: string)
    requires e == "*" + ":" + m && m != [] && NoBlank(m) && ':' !in m
    requires ParseField(Minute, m, false).Ok?
    ensures Parse(e) == Ok(Defaults().(hours := Full(Hour), minutes := ParseField(Minute, m, false).value))
  {
    assert e == ['*', ':'] + m;
    assert NoBlank(e) by {
      forall i | 0 <= i < |e|
        ensures !IsBlank(e[i])
      {
        if i > 1 {
          assert e[i] == m[i - 2];
          assert !IsBlank(m[i - 2]);
        }
      }
    }
    assert Upper(e)[0] == '*';
    assert Classify(e) == TimePart by {
      assert e[1] == ':';
    }
    StarField(Hour, false);
    HourMinuteTime("*", m);
    OneComponent(e);
    TimeOnly(e);
  }

  /** A value `a` followed by a list `b` stands for both. */
  lemma ValueAndList(k: FieldKind, a: string, b: string, fromEnd: bool, x: int, y: set<int>)
    requires fromEnd ==> k == DayOfMonth
    requires a != "*" && b != "*"
    requires ParseField(k, a, fromEnd) == Ok({x}) && ParseField(k, b, fromEnd) == Ok(y)
    ensures ParseField(k, a + "," + b, fromEnd) == Ok({x} + y)
  {
    ListUnion(k, a, b, fromEnd);
  }

  lemma MinuteList(m: string)
    requires m == Decimal(1) + "," + (Decimal(2) + "," + Decimal(3))
    ensures ParseField(Minute, m, false) == Ok({1, 2, 3})
  {
    assert Top(Minute, false) == 59;
    NumberField(Minute, 1, false);
    NumberField(Minute, 2, false);
    NumberField(Minute, 3, false);
    assert Decimal(1) == "1" && Decimal(2) == "2" && Decimal(3) == "3";
    ValueAndList(Minute, Decimal(2), Decimal(3), false, 2, {3});
    assert |Decimal(2) + "," + Decimal(3)| == 3 && {2} + {3} == {2, 3};
    ValueAndList(Minute, Decimal(1), Decimal(2) + "," + Decimal(3), false, 1, {2, 3});
    assert {1} + {2, 3} == {1, 2, 3};
  }

  lemma MinuteRange(m: string)
    requires m == Decimal(1) + ".." + Decimal(3)
    ensures ParseField(Minute, m, false) == Ok({1, 2, 3})
  {
    RangeField(Minute, 1, 3, false);
    TripleInterval(1);
  }

  lemma FourQuarters()
    ensures StepUp(0, 15, 59) == {0, 15, 30, 45} && StepUp(5, 15, 59) == {5, 20, 35, 50}
  {
    assert StepUp(60, 15, 59) == {} && StepUp(65, 15, 59) == {};
    assert StepUp(45, 15, 59) == {45} && StepUp(50, 15, 59) == {50};
    assert StepUp(30, 15, 59) == {30, 45} && StepUp(35, 15, 59) == {35, 50};
    assert StepUp(15, 15, 59) == {15, 30, 45} && StepUp(20, 15, 59) == {20, 35, 50};
  }

  lemma EvenUpToTen()
    ensures StepUp(0, 2, 10) == {0, 2, 4, 6, 8, 10}
  {
    assert StepUp(12, 2, 10) == {};
    assert StepUp(10, 2, 10) == {10};
    assert StepUp(8, 2, 10) == {8, 10};
    assert StepUp(6, 2, 10) == {6, 8, 10};
    assert StepUp(4, 2, 10) == {4, 6, 8, 10};
    assert StepUp(2, 2, 10) == {2, 4, 6, 8, 10};
  }

  lemma MinuteSteps(m: string)
    requires m == Decimal(0) + "/" + Decimal(15) || m == Decimal(5) + "/" + Decimal(15) ||
      m == Decimal(0) + ".." + Decimal(10) + "/" + Decimal(2)
    ensures m == Decimal(0) + "/" + Decimal(15) ==> ParseField(Minute, m, false) == Ok({0, 15, 30, 45})
    ensures m == Decimal(5) + "/" + Decimal(15) ==> ParseField(Minute, m, false) == Ok({5, 20, 35, 50})
    ensures m == Decimal(0) + ".." + Decimal(10) + "/" + Decimal(2) ==>
      ParseField(Minute, m, false) == Ok({0, 2, 4, 6, 8, 10})
  {
    FourQuarters();
    EvenUpToTen();
    StepField(Minute, 0, 15, false);
    StepField(Minute, 5, 15, false);
    RangeStepField(Minute, 0, 10, 2, false);
  }

  lemma MinuteListExample(e: string)
    requires e == "*:1,2,3"
    ensures Parse(e) == Ok(Defaults().(hours := Full(Hour), minutes := {1, 2, 3}))
  {
    var m := "1,2,3";
    assert e == "*" + ":" + m && m != [] && NoBlank(m) && ':' !in m;
    assert m == Decimal(1) + "," + (Decimal(2) + "," + Decimal(3));
    MinuteList(m);
    MinuteExpression(e, m);
  }

  lemma MinuteRangeExample(e: string)
    requires e == "*:1..3"
    ensures Parse(e) == Ok(Defaults().(hours := Full(Hour), minutes := {1, 2, 3}))
  {
    var m := "1..3";
    assert e == "*" + ":" + m && m != [] && NoBlank(m) && ':' !in m;
    assert m == Decimal(1) + ".." + Decimal(3);
    MinuteRange(m);
    MinuteExpression(e, m);
  }

  lemma QuarterStepExample(e: string)
    requires e == "*:0/15"
    ensures Parse(e) == Ok(Defaults().(hours := Full(Hour), minutes := {0, 15, 30, 45}))
  {
    var m := "0/15";
    assert e == "*" + ":" + m && m != [] && NoBlank(m) && ':' !in m;
    assert m == Decimal(0) + "/" + Decimal(15);
    MinuteSteps(m);
    MinuteExpression(e, m);
  }

  lemma OffsetQuarterStepExample(e: string)
    requires e == "*:5/15"
    ensures Parse(e) == Ok(Defaults().(hours := Full(Hour), minutes := {5, 20, 35, 50}))
  {
    var m := "5/15";
    assert e == "*" + ":" + m && m != [] && NoBlank(m) && ':' !in m;
    assert m == Decimal(5) + "/" + Decimal(15);
    MinuteSteps(m);
    MinuteExpression(e, m);
  }

  lemma RangeStepExample(e: string)
    requires e == "*:0..10/2"
    ensures Parse(e) == Ok(Defaults().(hours := Full(Hour), minutes := {0, 2, 4, 6, 8, 10}))
  {
    var m := "0..10/2";
    assert e == "*" + ":" + m && m != [] && NoBlank(m) && ':' !in m;
    assert m == Decimal(0) + ".." + Decimal(10) + "/" + Decimal(2);
    MinuteSteps(m);
    MinuteExpression(e, m);
  }

  /** Minute lists, ranges and steps: `a,b,c`, `a..b`, `a/n` (from `a` to
      the top of the domain) and `a..b/n`. */
  lemma MinuteExamples(e: string)
    requires e == "*:1,2,3" || e == "*:1..3" || e == "*:0/15" || e == "*:0..10/2" || e == "*:5/15"
    ensures Parse(e).Ok? && Parse(e).value.hours == Full(Hour)
    ensures e == "*:1,2,3" || e == "*:1..3" ==> Parse(e).value.minutes == {1, 2, 3}
    ensures e == "*:0/15" ==> Parse(e).value.minutes == {0, 15, 30, 45}
    ensures e == "*:0..10/2" ==> Parse(e).value.minutes == {0, 2, 4, 6, 8, 10}
    ensures e == "*:5/15" ==> Parse(e).value.minutes == {5, 20, 35, 50}
  {
    if e == "*:1,2,3" {
      MinuteListExample(e);
    } else if e == "*:1..3" {
      MinuteRangeExample(e);
    } else if e == "*:0/15" {
      QuarterStepExample(e);
    } else if e == "*:5/15" {
      OffsetQuarterStepExample(e);
    } else {
      RangeStepExample(e);
    }
  }

  lemma TwoRangesField(m: string)
    requires m == Decimal(1) + ".." + Decimal(3) + "," + (Decimal(7) + ".." + Decimal(9))
    ensures ParseField(Minute, m, false) == Ok({1, 2, 3, 7, 8, 9})
  {
    RangeField(Minute, 1, 3, false);
    RangeField(Minute, 7, 9, false);
    ListUnion(Minute, Decimal(1) + ".." + Decimal(3), Decimal(7) + ".." + Decimal(9), false);
    TripleInterval(1);
    TripleInterval(7);
    assert {1, 2, 3} + {7, 8, 9} == {1, 2, 3, 7, 8, 9};
  }

  lemma TwoRangesShape(e: string, m: string)
    requires e == "*:1..3,7..9:*" && m == Decimal(1) + ".." + Decimal(3) + "," + (Decimal(7) + ".." + Decimal(9))
    ensures e == "*" + ":" + m + ":" + "*" && ':' !in m
    ensures Classify(e) == TimePart && NoBlank(e) && Upper(e) != "MINUTELY"
  {
  }

  /** Two minute ranges in a list, with every second. */
  lemma TwoMinuteRanges(e: string)
    requires e == "*:1..3,7..9:*"
    ensures Parse(e) == Ok(Defaults().(hours := Full(Hour), minutes := {1, 2, 3, 7, 8, 9}, seconds := Full(Second)))
  {
    var m := Decimal(1) + ".." + Decimal(3) + "," + (Decimal(7) + ".." + Decimal(9));
    TwoRangesShape(e, m);
    TwoRangesField(m);
    StarField(Hour, false);
    StarField(Second, false);
    HourMinuteSecondTime("*", m, "*");
    OneComponent(e);
    TimeOnly(e);
  }

  // ---------------------------------------------------------------------
  // Days counted from the end of the month

  lemma EndDayComponent(e: string, d: string)
    requires e == "*" + "-" + "*" + "~" + d && NoBlank(d) && ':' !in d
    ensures e != [] && NoBlank(e) && Classify(e) == DatePart && Upper(e) != "MINUTELY"
  {
    assert e == ['*', '-', '*', '~'] + d;
    assert NoBlank(e) by {
      forall i | 0 <= i < |e|
        ensures !IsBlank(e[i])
      {
        if i > 3 {
          assert e[i] == d[i - 4];
          assert !IsBlank(d[i - 4]);
        }
      }
    }
    assert ':' !in e by {
      forall i | 4 <= i < |e|
        ensures e[i] != ':'
      {
        assert e[i] == d[i - 4];
      }
    }
    assert Upper(e)[0] == '*';
    assert e[1] == '-';
  }

  lemma EndDayDate(d: string)
    requires ParseField(DayOfMonth, d, true).Ok?
    ensures ParseDate("*" + "-" + "*" + "~" + d) ==
      Ok(DateSets(Full(Year), Full(Month), ParseField(DayOfMonth, d, true).value))
  {
    StarYears();
    StarField(Month, false);
    FullEndDate("*", "*", d);
  }

  /** `*-*~d`: every year and month, on the days `d` counts back from the
      end of the month. */
  lemma EndDayExpression(e: string, d: string)
    requires e == "*" + "-" + "*" + "~" + d && NoBlank(d) && ':' !in d
    requires ParseField(DayOfMonth, d, true).Ok?
    ensures Parse(e) == Ok(Defaults().(days := ParseField(DayOfMonth, d, true).value))
  {
    EndDayComponent(e, d);
    EndDayDate(d);
    OneComponent(e);
    DateOnly(e);
  }

  lemma EndDayRest(e: string, d: string)
    requires e == "*-*~" + d
    ensures e == "*" + "-" + "*" + "~" + d
  {
  }

  /** `*-*~1`: the last day of the month. */
  lemma EndDayValue(e: string)
    requires e == "*-*~1"
    ensures Parse(e) == Ok(Defaults().(days := {-1}))
  {
    var d := "1";
    assert NoBlank(d) && ':' !in d && e == "*-*~" + d;
    assert d == Decimal(1);
    assert Top(DayOfMonth, true) == 28;
    NumberField(DayOfMonth, 1, true);
    EndDayRest(e, d);
    EndDayExpression(e, d);
  }

  lemma NegatedPair(a: int, b: int)
    ensures Negated({a, b}) == {-a, -b}
  {
  }

  lemma NegatedTriple(a: int, b: int, c: int)
    ensures Negated({a, b, c}) == {-a, -b, -c}
  {
  }

  lemma EndDayListField(d: string)
    requires d == Decimal(1) + "," + Decimal(8)
    ensures ParseField(DayOfMonth, d, true) == Ok({-1, -8})
  {
    assert Top(DayOfMonth, true) == 28;
    NumberField(DayOfMonth, 1, true);
    NumberField(DayOfMonth, 8, true);
    ListUnion(DayOfMonth, Decimal(1), Decimal(8), true);
    assert {-1} + {-8} == {-1, -8};
  }

  /** `*-*~1,8`: a list of days back from the end. */
  lemma EndDayList(e: string)
    requires e == "*-*~1,8"
    ensures Parse(e) == Ok(Defaults().(days := {-1, -8}))
  {
    var d := "1,8";
    assert NoBlank(d) && ':' !in d && e == "*-*~" + d;
    assert d == Decimal(1) + "," + Decimal(8);
    EndDayListField(d);
    EndDayRest(e, d);
    EndDayExpression(e, d);
  }

  lemma EndDayRangeField(d: string)
    requires d == "1..3"
    ensures ParseField(DayOfMonth, d, true) == Ok({-1, -2, -3})
  {
    assert d == Decimal(1) + ".." + Decimal(3);
    assert Top(DayOfMonth, true) == 28;
    RangeField(DayOfMonth, 1, 3, true);
    TripleInterval(1);
    NegatedTriple(1, 2, 3);
  }

  /** `*-*~1..3`: a range of days back from the end. */
  lemma EndDayRange(e: string)
    requires e == "*-*~1..3"
    ensures Parse(e) == Ok(Defaults().(days := {-1, -2, -3}))
  {
    var d := "1..3";
    assert NoBlank(d) && ':' !in d && e == "*-*~" + d;
    EndDayRangeField(d);
    EndDayRest(e, d);
    EndDayExpression(e, d);
  }

  lemma EndDayPairs()
    ensures Negated(Interval(1, 2)) + Negated(Interval(4, 5)) == {-1, -2, -4, -5}
  {
    PairInterval(1);
    PairInterval(4);
    NegatedPair(1, 2);
    NegatedPair(4, 5);
  }

  lemma EndDayRangesField(d: string)
    requires d == "1..2,4..5"
    ensures ParseField(DayOfMonth, d, true) == Ok({-1, -2, -4, -5})
  {
    var a, b := "1..2", "4..5";
    assert d == a + "," + b && a != "*" && b != "*";
    assert a == Decimal(1) + ".." + Decimal(2) && b == Decimal(4) + ".." + Decimal(5);
    assert Top(DayOfMonth, true) == 28;
    RangeField(DayOfMonth, 1, 2, true);
    RangeField(DayOfMonth, 4, 5, true);
    ListUnion(DayOfMonth, a, b, true);
    EndDayPairs();
  }

  /** `*-*~1..2,4..5`: two ranges of days back from the end. */
  lemma EndDayRanges(e: string)
    requires e == "*-*~1..2,4..5"
    ensures Parse(e) == Ok(Defaults().(days := {-1, -2, -4, -5}))
  {
    var d := "1..2,4..5";
    assert NoBlank(d) && ':' !in d && e == "*-*~" + d;
    EndDayRangesField(d);
    EndDayRest(e, d);
    EndDayExpression(e, d);
  }

  lemma StepsUpToFive()
    ensures StepUp(1, 2, 5) == {1, 3, 5}
  {
    assert StepUp(7, 2, 5) == {};
    assert StepUp(5, 2, 5) == {5};
    assert StepUp(3, 2, 5) == {3, 5};
  }

  lemma EndDayRangeStepField(d: string)
    requires d == "1..5/2"
    ensures ParseField(DayOfMonth, d, true) == Ok({-1, -3, -5})
  {
    assert d == Decimal(1) + ".." + Decimal(5) + "/" + Decimal(2);
    assert Top(DayOfMonth, true) == 28;
    RangeStepField(DayOfMonth, 1, 5, 2, true);
    StepsUpToFive();
    NegatedTriple(1, 3, 5);
  }

  /** `*-*~1..5/2`: a range with a step, back from the end. */
  lemma EndDayRangeStep(e: string)
    requires e == "*-*~1..5/2"
    ensures Parse(e) == Ok(Defaults().(days := {-1, -3, -5}))
  {
    var d := "1..5/2";
    assert NoBlank(d) && ':' !in d && e == "*-*~" + d;
    EndDayRangeStepField(d);
    EndDayRest(e, d);
    EndDayExpression(e, d);
  }

  lemma StepsDownFromThree()
    ensures StepDown(3, 2, 1) == {1, 3}
  {
    assert StepDown(-1, 2, 1) == {};
    assert StepDown(1, 2, 1) == {1};
  }

  lemma EndDayStepField(d: string)
    requires d == "3/2"
    ensures ParseField(DayOfMonth, d, true) == Ok({-1, -3})
  {
    assert d == Decimal(3) + "/" + Decimal(2);
    assert Top(DayOfMonth, true) == 28;
    StepField(DayOfMonth, 3, 2, true);
    StepsDownFromThree();
    NegatedPair(1, 3);
  }

  /** `*-*~3/2`: a start with a step counts down towards the last day. */
  lemma EndDayStep(e: string)
    requires e == "*-*~3/2"
    ensures Parse(e) == Ok(Defaults().(days := {-1, -3}))
  {
    var d := "3/2";
    assert NoBlank(d) && ':' !in d && e == "*-*~" + d;
    EndDayStepField(d);
    EndDayRest(e, d);
    EndDayExpression(e, d);
  }

  lemma LastDayShape(e: string)
    requires e == "*~1"
    ensures e == "*" + "~" + Decimal(1)
    ensures Classify(e) == DatePart && NoBlank(e) && Upper(e) != "MINUTELY"
  {
  }

  /** `*~1` without a year: the last day of every month. */
  lemma LastDayOfMonth(e: string)
    requires e == "*~1"
    ensures Parse(e) == Ok(Defaults().(days := {-1}))
  {
    LastDayShape(e);
    StarField(Month, false);
    NumberField(DayOfMonth, 1, true);
    MonthEndDate("*", Decimal(1));
    OneComponent(e);
    DateOnly(e);
  }

  // ---------------------------------------------------------------------
  // The minutely shorthand

  lemma MinutelyUpper(e: string)
    requires e == "minutely" || e == "Minutely" || e == "MINUTELY" || e == "MiNuTeLY"
    ensures Upper(e) == "MINUTELY"
  {
    assert UpperChar('m') == 'M' && UpperChar('i') == 'I' && UpperChar('n') == 'N' && UpperChar('u') == 'U';
    assert UpperChar('t') == 'T' && UpperChar('e') == 'E' && UpperChar('l') == 'L' && UpperChar('y') == 'Y';
    assert UpperChar('M') == 'M' && UpperChar('I') == 'I' && UpperChar('N') == 'N' && UpperChar('U') == 'U';
    assert UpperChar('T') == 'T' && UpperChar('E') == 'E' && UpperChar('L') == 'L' && UpperChar('Y') == 'Y';
    assert |Upper(e)| == 8;
    forall i | 0 <= i < 8
      ensures Upper(e)[i] == "MINUTELY"[i]
    {
      assert Upper(e)[i] == UpperChar(e[i]);
    }
  }

  lemma MinutelyShape(e: string)
    requires e == "minutely" || e == "Minutely" || e == "MINUTELY" || e == "MiNuTeLY"
    ensures e != [] && !IsBlank(e[0]) && !IsBlank(e[|e| - 1])
  {
  }

  /** `minutely`, in any case, is every minute on the minute. */
  lemma MinutelyExample(e: string)
    requires e == "minutely" || e == "Minutely" || e == "MINUTELY" || e == "MiNuTeLY"
    ensures Parse(e) == Ok(Defaults().(hours := Full(Hour), minutes := Full(Minute)))
  {
    MinutelyShape(e);
    MinutelyUpper(e);
    TrimUnblanked(e);
  }

  // ---------------------------------------------------------------------
  // Rejected expressions

  /** The empty expression has no component. */
  lemma EmptyRejected()
    ensures Parse("") == Err(WrongNumberOfFields)
  {
    NoComponent("");
  }

  /** A fourth component is one too many. */
  lemma FourComponentsRejected(e: string)
    requires e == "Mon" + " " + "*-*-*" + " " + "*:*:*" + " " + "surprise"
    ensures Parse(e) == Err(WrongNumberOfFields)
  {
    FourComponents(e, "Mon", "*-*-*", "*:*:*", "surprise");
  }

  lemma LopsidedRangeField(d: string)
    requires d == Decimal(5) + ".." + Decimal(1)
    ensures '-' !in d && '~' !in d && ParseField(DayOfMonth, d, false) == Err(BadField(DayOfMonth))
  {
    ParseDecimal(5);
    ParseDecimal(1);
    RangeItem(DayOfMonth, Decimal(5), Decimal(1), false);
    SingleItem(DayOfMonth, d, false);
  }

  /** A range whose start exceeds its end is a bad day of the month. */
  lemma LopsidedRangeRejected(e: string)
    requires e == "*-*-5..1"
    ensures Parse(e) == Err(BadField(DayOfMonth))
  {
    var d := "5..1";
    assert e == "*" + "-" + "*" + "-" + d;
    assert Classify(e) == DatePart && NoBlank(e) && Upper(e) != "MINUTELY";
    LopsidedRangeDate(d);
    LoneDateRejected(e, "*" + "-" + "*" + "-" + d);
  }

  lemma LopsidedRangeDate(d: string)
    requires d == "5..1"
    ensures ParseDate("*" + "-" + "*" + "-" + d) == Err(BadField(DayOfMonth))
  {
    assert d == Decimal(5) + ".." + Decimal(1);
    LopsidedRangeField(d);
    StarYears();
    StarField(Month, false);
    FullDate("*", "*", d);
  }

  lemma UnderscoreField(m: string)
    requires m == "1" + ".." + "1_0"
    ensures ParseField(Minute, m, false) == Err(BadField(Minute))
  {
    assert !IsDigit('_');
    assert ParseNumber("1_0") == None;
    RangeItem(Minute, "1", "1_0", false);
    SingleItem(Minute, m, false);
  }

  lemma UnderscoreShape(e: string, m: string)
    requires e == "*:1..1_0" && m == "1" + ".." + "1_0"
    ensures e == "*" + ":" + m && ':' !in m
    ensures Classify(e) == TimePart && NoBlank(e) && Upper(e) != "MINUTELY"
  {
  }

  /** Number literals take no underscores. */
  lemma UnderscoreRejected(e: string)
    requires e == "*:1..1_0"
    ensures Parse(e) == Err(BadField(Minute))
  {
    var m := "1" + ".." + "1_0";
    UnderscoreShape(e, m);
    UnderscoreField(m);
    StarField(Hour, false);
    HourMinuteTime("*", m);
    OneComponent(e);
    TimeRejected(e);
  }

  /** A step of zero is a bad minute. */
  lemma ZeroStepRejected(e: string)
    requires e == "*:*/0"
    ensures Parse(e) == Err(BadField(Minute))
  {
    var m := "*" + "/0";
    assert e == "*" + ":" + m;
    assert Classify(e) == TimePart && NoBlank(e) && Upper(e) != "MINUTELY";
    ZeroStep(Minute, "*", false);
    StarField(Hour, false);
    HourMinuteTime("*", m);
    OneComponent(e);
    TimeRejected(e);
  }

  lemma DayOutOfRange(k: FieldKind, n: nat, fromEnd: bool)
    requires k != DayOfWeek && (fromEnd ==> k == DayOfMonth) && n > Top(k, fromEnd)
    ensures ParseField(k, Decimal(n), fromEnd) == Err(BadField(k))
  {
    var s := Decimal(n);
    ParseDecimal(n);
    DigitsOnly(s, '/');
    DigitsOnly(s, '.');
    DigitsOnly(s, ',');
    assert s != "*" by {
      assert IsDigit(s[0]);
    }
    ValueItem(k, s, fromEnd);
    SingleItem(k, s, fromEnd);
  }

  /** The 32nd is not a day of any month. */
  lemma DayOfMonthRangeChecked(e: string)
    requires e == "1-32"
    ensures Parse(e) == Err(BadField(DayOfMonth))
  {
    assert e == Decimal(1) + "-" + Decimal(32);
    assert Classify(e) == DatePart && NoBlank(e) && Upper(e) != "MINUTELY";
    assert Top(Month, false) == 12;
    NumberField(Month, 1, false);
    DayOutOfRange(DayOfMonth, 32, false);
    MonthDayDate(Decimal(1), Decimal(32));
    LoneDateRejected(e, Decimal(1) + "-" + Decimal(32));
  }

  /** The weekday field takes no wildcard. */
  lemma WeekdayStarRejected(e: string)
    requires e == "* 1-1"
    ensures Parse(e) == Err(BadField(DayOfWeek))
  {
    assert e == "*" + " " + "1-1";
    assert Classify("*") == WeekdayPart && Classify("1-1") == DatePart;
    assert NoBlank("*") && NoBlank("1-1");
    assert StripTrailingComma("*") == "*";
    assert ParseField(DayOfWeek, "*", false).Err?;
    WeekdayThenRejected(e, "*", "1-1");
  }

  /** Days counted from the end of the month stop at the 28th. */
  lemma ReverseDayAbove28Rejected(e: string)
    requires e == "1~29"
    ensures Parse(e) == Err(BadField(DayOfMonth))
  {
    assert e == Decimal(1) + "~" + Decimal(29);
    assert Classify(e) == DatePart && NoBlank(e) && Upper(e) != "MINUTELY";
    assert Top(Month, false) == 12;
    NumberField(Month, 1, false);
    DayOutOfRange(DayOfMonth, 29, true);
    MonthEndDate(Decimal(1), Decimal(29));
    LoneDateRejected(e, Decimal(1) + "~" + Decimal(29));
  }

  // ---------------------------------------------------------------------
  // Values no field accepts

  /** The bad values: a sign, a number beyond every field's range, a word
      that is no weekday, a dash, a colon, a weekday with a step, a tilde, a
      wildcard with a step, a wildcard in a list and a range to a
      wildcard. */
  const BadValues: set<string> := {"-1", "1000", "ABC", "1-1", "1:1", "Mon/1", "~1", "*/1", "*,1", "1..*"}

  /** A string with a character other than a digit is no number literal. */
  lemma NotANumber(v: string, i: nat)
    requires i < |v| && !IsDigit(v[i])
    ensures ParseNumber(v) == None
  {
  }

  /** Every weekday name starts with one of M, T, W, F and S. */
  lemma NotAWeekday(v: string)
    requires v == [] || UpperChar(v[0]) !in "MTWFS"
    ensures WeekdayNumber(v) == None
  {
    var u := Upper(v);
    forall i | 0 <= i < 7
      ensures u != DayAbbreviations[i] && u != DayNames[i]
    {
      assert DayAbbreviations[i][0] in "MTWFS" && DayNames[i][0] in "MTWFS";
      if v != [] {
        assert u[0] == UpperChar(v[0]);
      }
    }
  }

  lemma SingleValueRejected(k: FieldKind, v: string, i: nat, fromEnd: bool)
    requires fromEnd ==> k == DayOfMonth
    requires i < |v| && !IsDigit(v[i]) && UpperChar(v[0]) !in "MTWFS"
    requires '/' !in v && '.' !in v && '-' !in v && ',' !in v && v != "*"
    ensures ParseField(k, v, fromEnd) == Err(BadField(k))
  {
    NotANumber(v, i);
    NotAWeekday(v);
    ValueItem(k, v, fromEnd);
    SingleItem(k, v, fromEnd);
  }

  lemma LettersRejected(k: FieldKind, v: string, fromEnd: bool)
    requires fromEnd ==> k == DayOfMonth
    requires v == "ABC"
    ensures ParseField(k, v, fromEnd) == Err(BadField(k))
  {
    SingleValueRejected(k, v, 0, fromEnd);
  }

  lemma TildeRejected(k: FieldKind, v: string, fromEnd: bool)
    requires fromEnd ==> k == DayOfMonth
    requires v == "~1"
    ensures ParseField(k, v, fromEnd) == Err(BadField(k))
  {
    SingleValueRejected(k, v, 0, fromEnd);
  }

  lemma ColonRejected(k: FieldKind, v: string, fromEnd: bool)
    requires fromEnd ==> k == DayOfMonth
    requires v == "1:1"
    ensures ParseField(k, v, fromEnd) == Err(BadField(k))
  {
    SingleValueRejected(k, v, 1, fromEnd);
  }

  lemma DashRejected(k: FieldKind, v: string, a: string, b: string, fromEnd: bool)
    requires fromEnd ==> k == DayOfMonth
    requires (a == "" || a == "1") && b == "1" && v == a + "-" + b
    ensures ParseField(k, v, fromEnd) == Err(BadField(k))
  {
    assert v == a + ['-'] + b;
    assert v[|a|] == '-';
    NotANumber(v, |a|);
    NotAWeekday(a);
    assert '/' !in v && '.' !in v && ',' !in v && v != "*";
    NoDots(v);
    IndexOfAfter(a, '-', b);
    SingleItem(k, v, fromEnd);
  }

  lemma MinusOneRejected(k: FieldKind, v: string, fromEnd: bool)
    requires fromEnd ==> k == DayOfMonth
    requires v == "-1"
    ensures ParseField(k, v, fromEnd) == Err(BadField(k))
  {
    assert v == "" + "-" + "1";
    DashRejected(k, v, "", "1", fromEnd);
  }

  lemma OneDashOneRejected(k: FieldKind, v: string, fromEnd: bool)
    requires fromEnd ==> k == DayOfMonth
    requires v == "1-1"
    ensures ParseField(k, v, fromEnd) == Err(BadField(k))
  {
    assert v == "1" + "-" + "1";
    DashRejected(k, v, "1", "1", fromEnd);
  }

  lemma ThousandRejected(k: FieldKind, v: string, fromEnd: bool)
    requires fromEnd ==> k == DayOfMonth
    requires v == "1000"
    ensures ParseField(k, v, fromEnd) == Err(BadField(k))
  {
    assert '/' !in v && '.' !in v && '-' !in v && ',' !in v && v != "*";
    assert v == Decimal(1000);
    ParseDecimal(1000);
    NotAWeekday(v);
    ValueItem(k, v, fromEnd);
    SingleItem(k, v, fromEnd);
  }

  lemma WeekdayStepRejected(k: FieldKind, v: string, fromEnd: bool)
    requires fromEnd ==> k == DayOfMonth
    requires v == "Mon" + "/" + "1"
    ensures ParseField(k, v, fromEnd) == Err(BadField(k))
  {
    assert ',' !in v && v != "*";
    NotANumber("Mon", 0);
    BadStartStep(k, "Mon", "1", fromEnd);
    SingleItem(k, v, fromEnd);
  }

  lemma StarStepRejected(k: FieldKind, v: string, fromEnd: bool)
    requires fromEnd ==> k == DayOfMonth
    requires v == "*/1"
    ensures ParseField(k, v, fromEnd) == Err(BadField(k))
  {
    assert v == "*/" + "1";
    StarTakesNoStep(k, "1", fromEnd);
  }

  lemma StarInListRejected(k: FieldKind, v: string, fromEnd: bool)
    requires fromEnd ==> k == DayOfMonth
    requires v == "*,1"
    ensures ParseField(k, v, fromEnd) == Err(BadField(k))
  {
    assert v == "*" + "," + "1";
    SplitAppend("*", "1", ',');
    assert Split("*", ',') == ["*"];
    assert "*" in Split(v, ',');
    StarStandsAlone(k, v, fromEnd);
  }

  lemma RangeToStarItem(k: FieldKind, a: string, b: string, fromEnd: bool)
    requires fromEnd ==> k == DayOfMonth
    requires a == "1" && b == "*"
    ensures ParseItem(k, a + ".." + b, fromEnd).Err?
  {
    StarIsNoValue(k, fromEnd);
    assert ParseBounds(k, a, b, fromEnd).Err?;
    RangeItem(k, a, b, fromEnd);
  }

  lemma RangeToStarRejected(k: FieldKind, v: string, fromEnd: bool)
    requires fromEnd ==> k == DayOfMonth
    requires v == "1..*"
    ensures ParseField(k, v, fromEnd) == Err(BadField(k))
  {
    assert ',' !in v && v != "*";
    assert v == "1" + ".." + "*";
    RangeToStarItem(k, "1", "*", fromEnd);
    SingleItem(k, v, fromEnd);
  }

  /** Every bad value is rejected in every field, the day of the month
      counted either way. */
  lemma BadValuesRejected(k: FieldKind, v: string, fromEnd: bool)
    requires fromEnd ==> k == DayOfMonth
    requires v in BadValues
    ensures ParseField(k, v, fromEnd) == Err(BadField(k))
  {
    if v == "ABC" {
      LettersRejected(k, v, fromEnd);
    } else if v == "~1" {
      TildeRejected(k, v, fromEnd);
    } else if v == "1:1" {
      ColonRejected(k, v, fromEnd);
    } else if v == "-1" {
      MinusOneRejected(k, v, fromEnd);
    } else if v == "1-1" {
      OneDashOneRejected(k, v, fromEnd);
    } else if v == "1000" {
      ThousandRejected(k, v, fromEnd);
    } else if v == "Mon/1" {
      assert v == "Mon" + "/" + "1";
      WeekdayStepRejected(k, v, fromEnd);
    } else if v == "*/1" {
      StarStepRejected(k, v, fromEnd);
    } else if v == "*,1" {
      StarInListRejected(k, v, fromEnd);
    } else {
      RangeToStarRejected(k, v, fromEnd);
    }
  }


  /** A bad value in the year position is a bad year: none of them is a
      one- or two-digit number. */
  lemma BadYearsRejected(v: string)
    requires v in BadValues
    ensures ParseYears(v) == Err(BadField(Year))
  {
    BadValuesRejected(Year, v, false);
    assert |v| <= 2 ==> !IsDigit(v[0]);
  }

  // ---------------------------------------------------------------------
  // The expressions the iteration examples use

  lemma PaddedDate(y: nat, m: nat, d: nat)
    requires 1970 <= y <= 2199 && 1 <= m <= 9 && 1 <= d <= 9
    ensures ParseDate(Decimal(y) + "-" + ("0" + Decimal(m)) + "-" + ("0" + Decimal(d))) == Ok(DateSets({y}, {m}, {d}))
  {
    YearNumber(y);
    PaddedField(Month, m);
    PaddedField(DayOfMonth, d);
    DigitsOnly(Decimal(y), '-');
    DigitsOnly(Decimal(y), '~');
    assert Decimal(m) == [DigitChar(m)] && Decimal(d) == [DigitChar(d)];
    FullDate(Decimal(y), "0" + Decimal(m), "0" + Decimal(d));
  }

  lemma NewYearShape(e: string)
    requires e == "2021-01-01"
    ensures e == Decimal(2021) + "-" + ("0" + Decimal(1)) + "-" + ("0" + Decimal(1))
    ensures Classify(e) == DatePart && NoBlank(e) && Upper(e) != "MINUTELY"
  {
  }

  /** New Year's Day of 2021, at midnight. */
  lemma NewYear2021(e: string)
    requires e == "2021-01-01"
    ensures Parse(e) == Ok(Defaults().(years := {2021}, months := {1}, days := {1}))
  {
    NewYearShape(e);
    PaddedDate(2021, 1, 1);
    OneComponent(e);
    DateOnly(e);
  }

  lemma EightToNineTime(t: string)
    requires t == Decimal(8) + ".." + Decimal(9) + ":" + Decimal(0) + ":" + Decimal(0)
    ensures ParseTime(t) == Ok(TimeSets({8, 9}, {0}, {0}))
  {
    RangeField(Hour, 8, 9, false);
    NumberField(Minute, 0, false);
    NumberField(Second, 0, false);
    var h := Decimal(8) + ".." + Decimal(9);
    assert h == ['8', '.', '.', '9'];
    HourMinuteSecondTime(h, Decimal(0), Decimal(0));
    PairInterval(8);
  }

  lemma NewYearsDay2019Shape(d: string)
    requires d == "2019-01-01"
    ensures d == Decimal(2019) + "-" + ("0" + Decimal(1)) + "-" + ("0" + Decimal(1))
    ensures Classify(d) == DatePart && NoBlank(d)
  {
    assert Decimal(1) == "1" && Decimal(20) == "20";
    assert Decimal(2019) == "2019";
  }

  lemma EightToNineTimeShape(t: string)
    requires t == "8..9:0:0"
    ensures t == Decimal(8) + ".." + Decimal(9) + ":" + Decimal(0) + ":" + Decimal(0)
    ensures Classify(t) == TimePart && NoBlank(t)
  {
  }

  /** 8:00 and 9:00 on New Year's Day of 2019. */
  lemma EightToNine(e: string)
    requires e == "2019-01-01 8..9:0:0"
    ensures Parse(e) == Ok(Defaults().(years := {2019}, months := {1}, days := {1}, hours := {8, 9}))
  {
    var d, t := "2019-01-01", "8..9:0:0";
    assert e == d + " " + t;
    NewYearsDay2019Shape(d);
    EightToNineTimeShape(t);
    PaddedDate(2019, 1, 1);
    EightToNineTime(t);
    TwoComponents(d, t);
    DateAndTime(d, t);
  }

  lemma FiveSecondsField(sec: string)
    requires sec == "0/5"
    ensures ':' !in sec && ParseField(Second, sec, false) == Ok(StepUp(0, 5, 59))
  {
    assert ':' !in sec;
    assert sec == Decimal(0) + "/" + Decimal(5);
    assert Top(Second, false) == 59;
    StepField(Second, 0, 5, false);
  }

  lemma FiveSecondsTime(t: string, sec: string)
    requires t == "*" + ":" + "*" + ":" + sec && sec == "0/5"
    ensures ParseTime(t) == Ok(TimeSets(Full(Hour), Full(Minute), StepUp(0, 5, 59)))
  {
    StarField(Hour, false);
    StarField(Minute, false);
    FiveSecondsField(sec);
    HourMinuteSecondTime("*", "*", sec);
  }

  /** Every fifth second: 0, 5, ..., 55. */
  lemma EveryFifthSecond(e: string)
    requires e == "*:*:0/5"
    ensures Parse(e) == Ok(Defaults().(hours := Full(Hour), minutes := Full(Minute), seconds := StepUp(0, 5, 59)))
  {
    assert Classify(e) == TimePart && NoBlank(e) && Upper(e) != "MINUTELY";
    var sec := "0/5";
    assert e == "*" + ":" + "*" + ":" + sec;
    FiveSecondsTime(e, sec);
    OneComponent(e);
    TimeOnly(e);
  }

  /** Every minute, on the minute. */
  lemma EveryMinute(e: string)
    requires e == "*:*"
    ensures Parse(e) == Ok(Defaults().(hours := Full(Hour), minutes := Full(Minute)))
  {
    StarField(Minute, false);
    MinuteExpression(e, "*");
  }

  lemma MidnightShape(e: string)
    requires e == "00:00"
    ensures e == "0" + Decimal(0) + ":" + ("0" + Decimal(0))
    ensures Classify(e) == TimePart && NoBlank(e) && Upper(e) != "MINUTELY"
  {
  }

  /** Midnight written with leading zeros. */
  lemma Midnight(e: string)
    requires e == "00:00"
    ensures Parse(e) == Ok(Defaults())
  {
    MidnightShape(e);
    PaddedField(Hour, 0);
    PaddedField(Minute, 0);
    HourMinuteTime("0" + Decimal(0), "0" + Decimal(0));
    OneComponent(e);
    TimeOnly(e);
  }

  lemma LeapMondayShape(e: string, d: string)
    requires e == "Mon 2-29" && d == "2-29"
    ensures e == "Mon" + " " + d && d == Decimal(2) + "-" + Decimal(29)
    ensures Classify(d) == DatePart && NoBlank(d) && NoBlank("Mon")
  {
  }

  /** 29 February, when it is a Monday. */
  lemma LeapMonday(e: string)
    requires e == "Mon 2-29"
    ensures Parse(e) == Ok(Defaults().(weekdays := {0}, months := {2}, days := {29}))
  {
    var d := "2-29";
    LeapMondayShape(e, d);
    MondayComponent("Mon");
    MondayNumber("Mon");
    MondayLetters("Mon");
    WeekdayField("Mon", 0);
    MonthDayNumbers(2, 29);
    TwoComponents("Mon", d);
    WeekdayAndDate("Mon", d);
  }

  lemma LastWeekField(d: string)
    requires d == Decimal(7) + "/" + Decimal(1)
    ensures ParseField(DayOfMonth, d, true) == Ok(Interval(-7, -1))
  {
    StepField(DayOfMonth, 7, 1, true);
    StepDownMembers(7, 1, 1, 0);
    forall v
      ensures v in Negated(StepDown(7, 1, 1)) <==> v in Interval(-7, -1)
    {
      StepDownMembers(7, 1, 1, -v);
    }
    assert Negated(StepDown(7, 1, 1)) == Interval(-7, -1);
  }

  lemma LastSundayShape(e: string, w: string, d: string)
    requires e == "Sun *~7/1" && w == "Sun" && d == "*~7/1"
    ensures e == w + " " + d && d == "*" + "~" + (Decimal(7) + "/" + Decimal(1))
    ensures Classify(w) == WeekdayPart && Classify(d) == DatePart && NoBlank(w) && NoBlank(d)
    ensures StripTrailingComma(w) == w
    ensures w != [] && forall i :: 0 <= i < |w| ==> IsAsciiLetter(w[i])
  {
  }

  lemma SundayNumber(w: string)
    requires w == "Sun"
    ensures WeekdayNumber(w) == Some(6)
  {
    assert Upper(w) == "SUN";
  }

  /** The Sunday among the last seven days of every month. */
  lemma LastSunday(e: string)
    requires e == "Sun *~7/1"
    ensures Parse(e) == Ok(Defaults().(weekdays := {6}, days := Interval(-7, -1)))
  {
    var w, d := "Sun", "*~7/1";
    LastSundayShape(e, w, d);
    SundayNumber(w);
    WeekdayField(w, 6);
    StarField(Month, false);
    LastWeekField(Decimal(7) + "/" + Decimal(1));
    MonthEndDate("*", Decimal(7) + "/" + Decimal(1));
    TwoComponents(w, d);
    WeekdayAndDate(w, d);
  }
}
