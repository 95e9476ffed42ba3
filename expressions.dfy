/** The expression parser: a whole calendar expression becomes a
    specification with one integer set per field, or an error.

    After trimming, the expression is either a named shorthand (`minutely`,
    in any case) or up to three blank-separated components: a weekday list,
    a date `[year-]month-day` or `[year-]month~day`, and a time
    `hour:minute[:second]`. A component's role is decided by its shape; a
    field whose component is absent takes its default. */
module Expressions {
  import opened Outcomes
  import opened Text
  import opened Fields

  /** The parsed schedule. Days counted from the end of the month are
      negative (-1 is the last day). */
  datatype Spec = Spec(
    weekdays: set<int>,
    years: set<int>,
    months: set<int>,
    days: set<int>,
    hours: set<int>,
    minutes: set<int>,
    seconds: set<int>)

  predicate Within(s: set<int>, k: FieldKind) {
    s != {} && forall v :: v in s ==> Lo(k) <= v <= Hi(k)
  }

  /** Every field holds at least one value, and only values of its domain. */
  predicate WellFormed(spec: Spec) {
    && Within(spec.weekdays, DayOfWeek)
    && Within(spec.years, Year)
    && Within(spec.months, Month)
    && spec.days != {}
    && (forall v :: v in spec.days ==> InDomain(DayOfMonth, false, v) || InDomain(DayOfMonth, true, v))
    && Within(spec.hours, Hour)
    && Within(spec.minutes, Minute)
    && Within(spec.seconds, Second)
  }

  /** The whole domain of a field. */
  function Full(k: FieldKind): (r: set<int>)
    ensures Within(r, k)
  {
    Interval(Lo(k), Hi(k))
  }

  /** An omitted date means every day of every month of every year. */
  datatype DateSets = DateSets(years: set<int>, months: set<int>, days: set<int>)

  /** An omitted time means midnight: hours, minutes and seconds are {0}. */
  datatype TimeSets = TimeSets(hours: set<int>, minutes: set<int>, seconds: set<int>)

  function DefaultDate(): DateSets {
    DateSets(Full(Year), Full(Month), Full(DayOfMonth))
  }

  function DefaultTime(): TimeSets {
    TimeSets({0}, {0}, {0})
  }

  /** The `minutely` shorthand: every minute, on the minute. */
  function Minutely(): (spec: Spec)
    ensures WellFormed(spec)
  {
    assert Within({0}, Second);
    Spec(Full(DayOfWeek), Full(Year), Full(Month), Full(DayOfMonth), Full(Hour), Full(Minute), {0})
  }

  // ---------------------------------------------------------------------
  // Components and their roles

  datatype Role = WeekdayPart | DatePart | TimePart

  /** The role of a component, by its shape: a colon makes it a time; a
      leading letter makes it a weekday list (`Mon-Tue` has a dash but is
      not a date); otherwise a dash or a tilde makes it a date. Anything else
      can only be a weekday list, and the weekday parser rejects it. */
  function Classify(component: string): Role
    requires component != []
  {
    if ':' in component then TimePart
    else if IsAsciiLetter(component[0]) then WeekdayPart
    else if '-' in component || '~' in component then DatePart
    else WeekdayPart
  }

  /** The number of components playing `role`. */
  function RoleCount(parts: seq<string>, role: Role): (n: nat)
    requires forall i :: 0 <= i < |parts| ==> parts[i] != []
    ensures n <= |parts|
  {
    if parts == [] then 0
    else (if Classify(parts[0]) == role then 1 else 0) + RoleCount(parts[1..], role)
  }

  /** The first component playing `role`, if any. */
  function FindPart(parts: seq<string>, role: Role): (r: Option<string>)
    requires forall i :: 0 <= i < |parts| ==> parts[i] != []
    ensures r.Some? <==> RoleCount(parts, role) > 0
    ensures r.Some? ==> r.value in parts && Classify(r.value) == role
  {
    if parts == [] then None
    else if Classify(parts[0]) == role then Some(parts[0])
    else FindPart(parts[1..], role)
  }

  /** A weekday list may be followed by a comma before the next component. */
  function StripTrailingComma(s: string): (r: string)
    ensures s != [] && s[|s| - 1] == ',' ==> s == r + ","
    ensures !(s != [] && s[|s| - 1] == ',') ==> r == s
  {
    if s != [] && s[|s| - 1] == ',' then
      assert s == s[..|s| - 1] + ",";
      s[..|s| - 1]
    else s
  }

  // ---------------------------------------------------------------------
  // The date component

  /** Years before 70 in two-digit form belong to the 21st century, the
      others to the 20th. */
  function PivotYear(v: nat): (y: int)
    requires v < 100
    ensures 1970 <= y <= 2069
    ensures y % 100 == v
  {
    if v < 70 then 2000 + v else 1900 + v
  }

  /** The year field: a bare one- or two-digit number is a year of the
      century pivot; anything else is an ordinary field token. */
  function ParseYears(token: string): (r: Parsed<set<int>>)
    ensures r.Ok? ==> Within(r.value, Year)
    ensures r.Err? ==> r.error == BadField(Year)
  {
    if 1 <= |token| <= 2 && AllDigits(token) then
      assert DecimalValue(token) < 100 by {
        if |token| == 2 {
          assert token[..1][..0] == [];
        }
      }
      Ok({PivotYear(DecimalValue(token))})
    else ParseField(Year, token, false)
  }

  /** The date fields from their parse results; the first bad field, in
      the order year, month, day, is the error. */
  function CombineDate(years: Parsed<set<int>>, months: Parsed<set<int>>, days: Parsed<set<int>>): (r: Parsed<DateSets>)
    ensures r.Ok? <==> years.Ok? && months.Ok? && days.Ok?
    ensures r.Ok? ==> r.value == DateSets(years.value, months.value, days.value)
    ensures r.Err? ==> r.error == (if years.Err? then years.error else if months.Err? then months.error else days.error)
  {
    var ys :- years;
    var ms :- months;
    var ds :- days;
    Ok(DateSets(ys, ms, ds))
  }

  /** `month~day`, where `month` may be `year-month`: the days count from
      the end of the month. */
  function ParseEndRelativeDate(component: string): (r: Parsed<DateSets>)
    requires '~' in component
    ensures r.Ok? ==> Within(r.value.years, Year) && Within(r.value.months, Month)
    ensures r.Ok? ==> r.value.days != {} && forall v :: v in r.value.days ==> InDomain(DayOfMonth, true, v)
  {
    var i := IndexOf(component, '~');
    CombineEndDate(component[..i], component[i + 1..])
  }

  /** The text before the tilde is `month` or `year-month`; the text after
      it is the day field counted from the end. */
  function CombineEndDate(left: string, dayText: string): (r: Parsed<DateSets>)
    ensures r.Ok? ==> Within(r.value.years, Year) && Within(r.value.months, Month)
    ensures r.Ok? ==> r.value.days != {} && forall v :: v in r.value.days ==> InDomain(DayOfMonth, true, v)
  {
    if '-' in left then
      var j := IndexOf(left, '-');
      CombineDate(ParseYears(left[..j]), ParseField(Month, left[j + 1..], false), ParseField(DayOfMonth, dayText, true))
    else
      CombineDate(Ok(Full(Year)), ParseField(Month, left, false), ParseField(DayOfMonth, dayText, true))
  }

  /** `[year-]month-day`: the year is the text before the first dash when
      there are two, the day is everything after the last of the first two
      dashes (so a further dash makes the day bad). */
  function ParseDashedDate(component: string): (r: Parsed<DateSets>)
    requires '-' in component
    ensures r.Ok? ==> Within(r.value.years, Year) && Within(r.value.months, Month)
    ensures r.Ok? ==> Within(r.value.days, DayOfMonth)
  {
    var i := IndexOf(component, '-');
    var first, rest := component[..i], component[i + 1..];
    if '-' in rest then
      var j := IndexOf(rest, '-');
      CombineDate(ParseYears(first), ParseField(Month, rest[..j], false), ParseField(DayOfMonth, rest[j + 1..], false))
    else
      CombineDate(Ok(Full(Year)), ParseField(Month, first, false), ParseField(DayOfMonth, rest, false))
  }

  function ParseDate(component: string): (r: Parsed<DateSets>)
    requires '-' in component || '~' in component
    ensures r.Ok? ==> Within(r.value.years, Year) && Within(r.value.months, Month) && r.value.days != {}
    ensures r.Ok? ==> forall v :: v in r.value.days ==>
      InDomain(DayOfMonth, false, v) || InDomain(DayOfMonth, true, v)
  {
    if '~' in component then ParseEndRelativeDate(component) else ParseDashedDate(component)
  }

  // ---------------------------------------------------------------------
  // The time component

  /** The time fields from their parse results; the first bad field, in
      the order hour, minute, second, is the error. */
  function CombineTime(hours: Parsed<set<int>>, minutes: Parsed<set<int>>, seconds: Parsed<set<int>>): (r: Parsed<TimeSets>)
    ensures r.Ok? <==> hours.Ok? && minutes.Ok? && seconds.Ok?
    ensures r.Ok? ==> r.value == TimeSets(hours.value, minutes.value, seconds.value)
    ensures r.Err? ==> r.error == (if hours.Err? then hours.error else if minutes.Err? then minutes.error else seconds.error)
  {
    var hs :- hours;
    var ms :- minutes;
    var ss :- seconds;
    Ok(TimeSets(hs, ms, ss))
  }

  /** `hour:minute[:second]`; an omitted second is 0. */
  function ParseTime(component: string): (r: Parsed<TimeSets>)
    requires ':' in component
    ensures r.Ok? ==> Within(r.value.hours, Hour) && Within(r.value.minutes, Minute)
    ensures r.Ok? ==> Within(r.value.seconds, Second)
  {
    var i := IndexOf(component, ':');
    var hourText, rest := component[..i], component[i + 1..];
    if ':' in rest then
      var j := IndexOf(rest, ':');
      CombineTime(ParseField(Hour, hourText, false), ParseField(Minute, rest[..j], false),
        ParseField(Second, rest[j + 1..], false))
    else
      CombineTime(ParseField(Hour, hourText, false), ParseField(Minute, rest, false), Ok({0}))
  }

  // ---------------------------------------------------------------------
  // The whole expression

  predicate NonEmptyParts(parts: seq<string>) {
    forall i :: 0 <= i < |parts| ==> parts[i] != []
  }

  /** At most one component per role. */
  predicate RolesDistinct(parts: seq<string>)
    requires NonEmptyParts(parts)
  {
    RoleCount(parts, WeekdayPart) <= 1 && RoleCount(parts, DatePart) <= 1 && RoleCount(parts, TimePart) <= 1
  }

  function WeekdaysOf(parts: seq<string>): (r: Parsed<set<int>>)
    requires NonEmptyParts(parts)
    ensures r.Ok? ==> Within(r.value, DayOfWeek)
  {
    match FindPart(parts, WeekdayPart)
    case None => Ok(Full(DayOfWeek))
    case Some(p) => ParseField(DayOfWeek, StripTrailingComma(p), false)
  }

  function DateOf(parts: seq<string>): (r: Parsed<DateSets>)
    requires NonEmptyParts(parts)
    ensures r.Ok? ==> Within(r.value.years, Year) && Within(r.value.months, Month) && r.value.days != {}
    ensures r.Ok? ==> forall v :: v in r.value.days ==>
      InDomain(DayOfMonth, false, v) || InDomain(DayOfMonth, true, v)
  {
    match FindPart(parts, DatePart)
    case None => Ok(DefaultDate())
    case Some(p) => ParseDate(p)
  }

  function TimeOf(parts: seq<string>): (r: Parsed<TimeSets>)
    requires NonEmptyParts(parts)
    ensures r.Ok? ==> Within(r.value.hours, Hour) && Within(r.value.minutes, Minute)
    ensures r.Ok? ==> Within(r.value.seconds, Second)
  {
    match FindPart(parts, TimePart)
    case None => Ok(DefaultTime())
    case Some(p) => ParseTime(p)
  }

  /** The specification from the parse results of its three components;
      the first bad one, in the order weekday, date, time, is the error. */
  function CombineSpec(weekdays: Parsed<set<int>>, date: Parsed<DateSets>, time: Parsed<TimeSets>): (r: Parsed<Spec>)
    ensures r.Ok? <==> weekdays.Ok? && date.Ok? && time.Ok?
    ensures r.Ok? ==> r.value == Spec(weekdays.value, date.value.years, date.value.months, date.value.days,
      time.value.hours, time.value.minutes, time.value.seconds)
    ensures r.Err? ==> r.error == (if weekdays.Err? then weekdays.error else if date.Err? then date.error else time.error)
  {
    var w :- weekdays;
    var d :- date;
    var t :- time;
    Ok(Spec(w, d.years, d.months, d.days, t.hours, t.minutes, t.seconds))
  }

  /** The specification the components describe; two components of the same
      role count as a wrong number of fields. */
  function Assemble(parts: seq<string>): (r: Parsed<Spec>)
    requires NonEmptyParts(parts)
    ensures r.Ok? ==> WellFormed(r.value)
  {
    if !RolesDistinct(parts) then Err(WrongNumberOfFields)
    else CombineSpec(WeekdaysOf(parts), DateOf(parts), TimeOf(parts))
  }

  /** The specification an expression describes. Every field of a parsed
      specification is a non-empty subset of its domain. */
  function Parse(expression: string): (r: Parsed<Spec>)
    ensures r.Ok? ==> WellFormed(r.value)
  {
    var text := Trim(expression);
    if Upper(text) == "MINUTELY" then Ok(Minutely())
    else
      var parts := Words(text);
      assert NonEmptyParts(parts);
      if |parts| == 0 || |parts| > 3 then Err(WrongNumberOfFields) else Assemble(parts)
  }

  // ---------------------------------------------------------------------
  // What each component shape stands for

  /** Where the two dashes of `year-month-day` cut it. */
  lemma TwoDashes(y: string, m: string, d: string)
    requires '-' !in y && '-' !in m && '~' !in y && '~' !in m && '~' !in d
    ensures '~' !in y + "-" + m + "-" + d && '-' in y + "-" + m + "-" + d
    ensures IndexOf(y + "-" + m + "-" + d, '-') == |y|
    ensures (y + "-" + m + "-" + d)[..|y|] == y && (y + "-" + m + "-" + d)[|y| + 1..] == m + "-" + d
    ensures '-' in m + "-" + d && IndexOf(m + "-" + d, '-') == |m|
    ensures (m + "-" + d)[..|m|] == m && (m + "-" + d)[|m| + 1..] == d
  {
    JoinThree(y, m, d, '-');
    IndexOfAfter(y, '-', m + "-" + d);
    IndexOfAfter(m, '-', d);
  }

  /** `year-month-day` stands for its three fields. */
  lemma FullDateFields(y: string, m: string, d: string)
    requires '-' !in y && '-' !in m && '~' !in y && '~' !in m && '~' !in d
    ensures ParseDate(y + "-" + m + "-" + d) ==
      CombineDate(ParseYears(y), ParseField(Month, m, false), ParseField(DayOfMonth, d, false))
  {
    var c := y + "-" + m + "-" + d;
    TwoDashes(y, m, d);
    DashedDate(c);
    DashedDateSplit(c, y, m, d);
  }

  /** A component without a tilde is a dashed date. */
  lemma DashedDate(c: string)
    requires '-' in c && '~' !in c
    ensures ParseDate(c) == ParseDashedDate(c)
  {
  }

  lemma DashedDateSplit(c: string, y: string, m: string, d: string)
    requires '-' in c && IndexOf(c, '-') == |y| && c[..|y|] == y
    requires '-' in c[|y| + 1..] && IndexOf(c[|y| + 1..], '-') == |m|
    requires c[|y| + 1..][..|m|] == m && c[|y| + 1..][|m| + 1..] == d
    ensures ParseDashedDate(c) ==
      CombineDate(ParseYears(y), ParseField(Month, m, false), ParseField(DayOfMonth, d, false))
  {
  }

  /** `year-month-day`. */
  lemma FullDate(y: string, m: string, d: string)
    requires '-' !in y && '-' !in m && '~' !in y && '~' !in m && '~' !in d
    requires ParseYears(y).Ok? && ParseField(Month, m, false).Ok?
    ensures ParseField(DayOfMonth, d, false).Ok? ==> (ParseDate(y + "-" + m + "-" + d) ==
      Ok(DateSets(ParseYears(y).value, ParseField(Month, m, false).value, ParseField(DayOfMonth, d, false).value)))
    ensures ParseField(DayOfMonth, d, false).Err? ==>
      ParseDate(y + "-" + m + "-" + d) == Err(BadField(DayOfMonth))
  {
    FullDateFields(y, m, d);
  }

  /** Where the one dash of `month-day` cuts it. */
  lemma OneCut(a: string, b: string, sep: char)
    requires sep !in a
    ensures sep in a + [sep] + b && IndexOf(a + [sep] + b, sep) == |a|
    ensures (a + [sep] + b)[..|a|] == a && (a + [sep] + b)[|a| + 1..] == b
  {
    IndexOfAfter(a, sep, b);
  }

  lemma DashedDateTwoSplit(c: string, m: string, d: string)
    requires '-' in c && IndexOf(c, '-') == |m| && c[..|m|] == m && c[|m| + 1..] == d && '-' !in d
    ensures ParseDashedDate(c) == CombineDate(Ok(Full(Year)), ParseField(Month, m, false), ParseField(DayOfMonth, d, false))
  {
  }

  /** `month-day`: every year. */
  lemma MonthDayDate(m: string, d: string)
    requires '-' !in m && '-' !in d && '~' !in m && '~' !in d
    requires ParseField(Month, m, false).Ok?
    ensures ParseField(DayOfMonth, d, false).Ok? ==> (ParseDate(m + "-" + d) ==
      Ok(DateSets(Full(Year), ParseField(Month, m, false).value, ParseField(DayOfMonth, d, false).value)))
    ensures ParseField(DayOfMonth, d, false).Err? ==> ParseDate(m + "-" + d) == Err(BadField(DayOfMonth))
  {
    var c := m + "-" + d;
    OneCut(m, d, '-');
    assert '~' !in c;
    DashedDate(c);
    DashedDateTwoSplit(c, m, d);
  }

  /** A component with a tilde counts its days from the end of the month. */
  lemma EndDate(c: string)
    requires '~' in c
    ensures ParseDate(c) == ParseEndRelativeDate(c)
  {
  }

  lemma EndDateSplit(c: string, left: string, d: string)
    requires '~' in c && IndexOf(c, '~') == |left| && c[..|left|] == left && c[|left| + 1..] == d
    ensures ParseEndRelativeDate(c) == CombineEndDate(left, d)
  {
  }

  lemma EndDateMonthSplit(m: string, d: string)
    requires '-' !in m
    ensures CombineEndDate(m, d) == CombineDate(Ok(Full(Year)), ParseField(Month, m, false), ParseField(DayOfMonth, d, true))
  {
  }

  /** `month~day`: every year, the days counted from the end of the month. */
  lemma MonthEndDate(m: string, d: string)
    requires '-' !in m && '~' !in m
    requires ParseField(Month, m, false).Ok?
    ensures ParseField(DayOfMonth, d, true).Ok? ==> (ParseDate(m + "~" + d) ==
      Ok(DateSets(Full(Year), ParseField(Month, m, false).value, ParseField(DayOfMonth, d, true).value)))
    ensures ParseField(DayOfMonth, d, true).Err? ==> ParseDate(m + "~" + d) == Err(BadField(DayOfMonth))
  {
    var c := m + "~" + d;
    OneCut(m, d, '~');
    EndDate(c);
    EndDateSplit(c, m, d);
    EndDateMonthSplit(m, d);
  }

  lemma EndDateYearSplit(left: string, y: string, m: string, d: string)
    requires '-' in left && IndexOf(left, '-') == |y| && left[..|y|] == y && left[|y| + 1..] == m
    ensures CombineEndDate(left, d) == CombineDate(ParseYears(y), ParseField(Month, m, false), ParseField(DayOfMonth, d, true))
  {
  }

  /** `year-month~day`. */
  lemma FullEndDate(y: string, m: string, d: string)
    requires '-' !in y && '~' !in y && '-' !in m && '~' !in m
    requires ParseYears(y).Ok? && ParseField(Month, m, false).Ok? && ParseField(DayOfMonth, d, true).Ok?
    ensures ParseDate(y + "-" + m + "~" + d) ==
      Ok(DateSets(ParseYears(y).value, ParseField(Month, m, false).value, ParseField(DayOfMonth, d, true).value))
  {
    var left := y + "-" + m;
    var c := left + "~" + d;
    OneCut(y, m, '-');
    assert '~' !in left;
    OneCut(left, d, '~');
    EndDate(c);
    EndDateSplit(c, left, d);
    EndDateYearSplit(left, y, m, d);
  }

  lemma TimeTwoSplit(c: string, h: string, m: string)
    requires ':' in c && IndexOf(c, ':') == |h| && c[..|h|] == h && c[|h| + 1..] == m && ':' !in m
    ensures ParseTime(c) == CombineTime(ParseField(Hour, h, false), ParseField(Minute, m, false), Ok({0}))
  {
  }

  /** `hour:minute`: on the minute. */
  lemma HourMinuteTime(h: string, m: string)
    requires ':' !in h && ':' !in m
    requires ParseField(Hour, h, false).Ok?
    ensures ParseField(Minute, m, false).Ok? ==> (ParseTime(h + ":" + m) ==
      Ok(TimeSets(ParseField(Hour, h, false).value, ParseField(Minute, m, false).value, {0})))
    ensures ParseField(Minute, m, false).Err? ==> ParseTime(h + ":" + m) == Err(BadField(Minute))
  {
    OneCut(h, m, ':');
    TimeTwoSplit(h + ":" + m, h, m);
  }

  lemma TimeThreeSplit(c: string, h: string, rest: string, m: string, sec: string)
    requires ':' in c && IndexOf(c, ':') == |h| && c[..|h|] == h && c[|h| + 1..] == rest
    requires ':' in rest && IndexOf(rest, ':') == |m| && rest[..|m|] == m && rest[|m| + 1..] == sec
    ensures ParseTime(c) == CombineTime(ParseField(Hour, h, false), ParseField(Minute, m, false), ParseField(Second, sec, false))
  {
  }

  /** `hour:minute:second`. */
  lemma HourMinuteSecondTime(h: string, m: string, sec: string)
    requires ':' !in h && ':' !in m && ':' !in sec
    requires ParseField(Hour, h, false).Ok? && ParseField(Minute, m, false).Ok?
    requires ParseField(Second, sec, false).Ok?
    ensures ParseTime(h + ":" + m + ":" + sec) ==
      Ok(TimeSets(ParseField(Hour, h, false).value, ParseField(Minute, m, false).value,
        ParseField(Second, sec, false).value))
  {
    var rest := m + ":" + sec;
    JoinThree(h, m, sec, ':');
    OneCut(h, rest, ':');
    OneCut(m, sec, ':');
    TimeThreeSplit(h + ":" + m + ":" + sec, h, rest, m, sec);
  }

  /** An expression that is a single component, other than a shorthand. */
  lemma OneComponent(w: string)
    requires w != [] && NoBlank(w) && Upper(w) != "MINUTELY"
    ensures Parse(w) == Assemble([w])
  {
    WordsOfWord(w);
  }

  /** Two components separated by one blank; no shorthand has a blank. */
  lemma TwoComponents(a: string, b: string)
    requires a != [] && NoBlank(a) && b != [] && NoBlank(b)
    ensures Parse(a + " " + b) == Assemble([a, b])
  {
    var e := a + " " + b;
    WordsOfTwo(a, b);
    TrimUnblanked(e);
    UpperKeepsBlank(e, |a|, "MINUTELY");
    assert Words(Trim(e)) == [a, b];
  }

  /** Three components separated by single blanks. */
  lemma ThreeComponents(a: string, b: string, c: string)
    requires a != [] && NoBlank(a) && b != [] && NoBlank(b) && c != [] && NoBlank(c)
    ensures Parse(a + " " + b + " " + c) == Assemble([a, b, c])
  {
    var e := a + " " + b + " " + c;
    WordsOfThree(a, b, c);
    TrimUnblanked(e);
    UpperKeepsBlank(e, |a|, "MINUTELY");
    assert Words(Trim(e)) == [a, b, c];
  }

  // ---------------------------------------------------------------------
  // Which fields each combination of components gives; every field of an
  // absent component takes its default

  /** A weekday component alone: every date, at midnight. */
  lemma WeekdayOnly(w: string)
    requires w != [] && Classify(w) == WeekdayPart
    requires ParseField(DayOfWeek, StripTrailingComma(w), false).Ok?
    ensures Assemble([w]) == Ok(Spec(ParseField(DayOfWeek, StripTrailingComma(w), false).value,
      Full(Year), Full(Month), Full(DayOfMonth), {0}, {0}, {0}))
  {
    assert RoleCount([w], DatePart) == 0 && RoleCount([w], TimePart) == 0;
  }

  /** A date component alone: every weekday, at midnight. */
  lemma DateOnly(d: string)
    requires d != [] && Classify(d) == DatePart && ParseDate(d).Ok?
    ensures Assemble([d]) == Ok(Spec(Full(DayOfWeek), ParseDate(d).value.years, ParseDate(d).value.months,
      ParseDate(d).value.days, {0}, {0}, {0}))
  {
    assert RoleCount([d], WeekdayPart) == 0 && RoleCount([d], TimePart) == 0;
  }

  /** A time component alone: every date. */
  lemma TimeOnly(t: string)
    requires t != [] && Classify(t) == TimePart && ParseTime(t).Ok?
    ensures Assemble([t]) == Ok(Spec(Full(DayOfWeek), Full(Year), Full(Month), Full(DayOfMonth),
      ParseTime(t).value.hours, ParseTime(t).value.minutes, ParseTime(t).value.seconds))
  {
    assert RoleCount([t], WeekdayPart) == 0 && RoleCount([t], DatePart) == 0;
  }

  /** A weekday and a date: at midnight. */
  lemma WeekdayAndDate(w: string, d: string)
    requires w != [] && Classify(w) == WeekdayPart && d != [] && Classify(d) == DatePart
    requires ParseField(DayOfWeek, StripTrailingComma(w), false).Ok? && ParseDate(d).Ok?
    ensures Assemble([w, d]) == Ok(Spec(ParseField(DayOfWeek, StripTrailingComma(w), false).value,
      ParseDate(d).value.years, ParseDate(d).value.months, ParseDate(d).value.days, {0}, {0}, {0}))
  {
    PairRoles(w, d, WeekdayPart);
    PairRoles(w, d, DatePart);
    PairRoles(w, d, TimePart);
  }

  /** How two components fill the roles. */
  lemma PairRoles(a: string, b: string, role: Role)
    requires a != [] && b != []
    ensures RoleCount([a, b], role) == (if Classify(a) == role then 1 else 0) + (if Classify(b) == role then 1 else 0)
    ensures FindPart([a, b], role) ==
      (if Classify(a) == role then Some(a) else if Classify(b) == role then Some(b) else None)
  {
    assert [a, b][1..] == [b];
  }

  /** A weekday and a time: every date. */
  lemma WeekdayAndTime(w: string, t: string)
    requires w != [] && Classify(w) == WeekdayPart && t != [] && Classify(t) == TimePart
    requires ParseField(DayOfWeek, StripTrailingComma(w), false).Ok? && ParseTime(t).Ok?
    ensures Assemble([w, t]) == Ok(Spec(ParseField(DayOfWeek, StripTrailingComma(w), false).value,
      Full(Year), Full(Month), Full(DayOfMonth),
      ParseTime(t).value.hours, ParseTime(t).value.minutes, ParseTime(t).value.seconds))
  {
    PairRoles(w, t, WeekdayPart);
    PairRoles(w, t, DatePart);
    PairRoles(w, t, TimePart);
  }

  /** A date and a time: every weekday. */
  lemma DateAndTime(d: string, t: string)
    requires d != [] && Classify(d) == DatePart && t != [] && Classify(t) == TimePart
    requires ParseDate(d).Ok? && ParseTime(t).Ok?
    ensures Assemble([d, t]) == Ok(Spec(Full(DayOfWeek),
      ParseDate(d).value.years, ParseDate(d).value.months, ParseDate(d).value.days,
      ParseTime(t).value.hours, ParseTime(t).value.minutes, ParseTime(t).value.seconds))
  {
    PairRoles(d, t, WeekdayPart);
    PairRoles(d, t, DatePart);
    PairRoles(d, t, TimePart);
  }

  /** A rejected date rejects the expression. */
  lemma DateRejected(d: string)
    requires d != [] && Classify(d) == DatePart && ParseDate(d).Err?
    ensures Assemble([d]) == Err(ParseDate(d).error)
  {
    assert RoleCount([d], WeekdayPart) == 0 && RoleCount([d], TimePart) == 0;
  }

  /** A rejected time rejects the expression. */
  lemma TimeRejected(t: string)
    requires t != [] && Classify(t) == TimePart && ParseTime(t).Err?
    ensures Assemble([t]) == Err(ParseTime(t).error)
  {
    assert RoleCount([t], WeekdayPart) == 0 && RoleCount([t], DatePart) == 0;
  }

  /** An expression that is one date component whose parse fails. The
      expression `e` and the component `c` are the same text: a caller
      passes `e` as a literal and `c` as the pieces it is made of, so that
      the parse of `c` is worked out piece by piece. */
  lemma LoneDateRejected(e: string, c: string)
    requires e == c && c != [] && NoBlank(c) && Upper(c) != "MINUTELY" && Classify(c) == DatePart
    requires ParseDate(c).Err?
    ensures Parse(e) == Err(ParseDate(c).error)
  {
    OneComponent(c);
    DateRejected(c);
  }

  /** An expression that is one time component whose parse fails; `e` and
      `c` are the same text, as in LoneDateRejected. */
  lemma LoneTimeRejected(e: string, c: string)
    requires e == c && c != [] && NoBlank(c) && Upper(c) != "MINUTELY" && Classify(c) == TimePart
    requires ParseTime(c).Err?
    ensures Parse(e) == Err(ParseTime(c).error)
  {
    OneComponent(c);
    TimeRejected(c);
  }

  /** A rejected weekday list rejects the expression, whatever follows it. */
  lemma WeekdayRejected(w: string, rest: string)
    requires w != [] && Classify(w) == WeekdayPart && rest != [] && Classify(rest) != WeekdayPart
    requires ParseField(DayOfWeek, StripTrailingComma(w), false).Err?
    ensures Assemble([w, rest]) == Err(BadField(DayOfWeek))
  {
    var parts := [w, rest];
    assert parts[1..] == [rest];
    assert RoleCount(parts, WeekdayPart) == 1;
    assert RoleCount(parts, DatePart) <= 1 && RoleCount(parts, TimePart) <= 1;
  }

  /** An expression of two components whose first is a rejected weekday list. */
  lemma WeekdayThenRejected(e: string, w: string, rest: string)
    requires e == w + " " + rest && NoBlank(w) && NoBlank(rest)
    requires w != [] && Classify(w) == WeekdayPart && rest != [] && Classify(rest) != WeekdayPart
    requires ParseField(DayOfWeek, StripTrailingComma(w), false).Err?
    ensures Parse(e) == Err(BadField(DayOfWeek))
  {
    TwoComponents(w, rest);
    WeekdayRejected(w, rest);
  }

  /** The empty expression, and one of blanks only, has no component. */
  lemma NoComponent(e: string)
    requires forall i :: 0 <= i < |e| ==> IsBlank(e[i])
    ensures Parse(e) == Err(WrongNumberOfFields)
  {
    AllBlankTrims(e);
  }

  /** Four components are too many. */
  lemma FourComponents(e: string, a: string, b: string, c: string, d: string)
    requires a != [] && NoBlank(a) && b != [] && NoBlank(b) && c != [] && NoBlank(c) && d != [] && NoBlank(d)
    requires e == a + " " + b + " " + c + " " + d
    ensures Parse(e) == Err(WrongNumberOfFields)
  {
    WordsOfFour(a, b, c, d);
    TrimUnblanked(e);
    UpperKeepsBlank(e, |a|, "MINUTELY");
    assert |Words(Trim(e))| == 4;
  }
}
