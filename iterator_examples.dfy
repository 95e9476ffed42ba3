/** Iteration from midnight of 1 January 2020: the matches the iterator
    must return for the expressions of the test suite, proved from the
    expressions' parse results, and runs of the iterator whose results the
    contract of `Next` then fixes. */
module IteratorExamples {
  import opened Outcomes
  import opened Text
  import opened Calendar
  import opened Fields
  import opened Expressions
  import opened Timestamps
  import opened Backward
  import opened ParseExamples

  /** The instant the iteration examples start from. */
  function Now(): Timestamp {
    Timestamp(2020, 1, 1, 0, 0, 0)
  }

  function Midnight(y: int, m: int, d: int): Timestamp {
    Timestamp(y, m, d, 0, 0, 0)
  }

  /** A result that satisfies the contract of `Next` is the latest match
      before the bound whenever one exists. */
  lemma StepDetermined(spec: Spec, bound: Timestamp, t: Timestamp, r: Option<Timestamp>)
    requires IsPrevMatch(spec, bound, t)
    requires r.Some? ==> Before(r.value, bound) && Matches(spec, r.value) && NoMatchBetween(spec, r.value, bound)
    requires r.None? ==> NoMatchBefore(spec, bound)
    ensures r == Some(t)
  {
    if r.Some? {
      PrevMatchUnique(spec, bound, t, r.value);
    }
  }

  // ---------------------------------------------------------------------
  // 00:00

  lemma FullHas(k: FieldKind, v: int)
    requires Lo(k) <= v <= Hi(k)
    ensures v in Full(k)
  {
  }

  /** A date of the supported years at midnight matches the defaults. */
  lemma DefaultsMatch(y: int, m: int, d: int)
    requires 1970 <= y <= 2199 && ValidDate(y, m, d)
    ensures Matches(Defaults(), Midnight(y, m, d))
  {
    assert d in MatchingDays(Full(DayOfMonth), y, m);
  }

  lemma MidnightHit()
    ensures IsPrevMatch(Defaults(), Now(), Midnight(2019, 12, 31))
  {
    var t := Midnight(2019, 12, 31);
    DefaultsMatch(2019, 12, 31);
    forall u | ValidTimestamp(u) && Before(t, u) && Before(u, Now())
      ensures !Matches(Defaults(), u)
    {
      assert u.year == 2019 && u.month == 12 && u.day == 31;
    }
  }

  /** The first match of `00:00` is the midnight before. */
  method MidnightExample() returns (first: Option<Timestamp>)
    ensures first == Some(Midnight(2019, 12, 31))
  {
    ParseExamples.Midnight("00:00");
    MidnightHit();
    var r := Open("00:00", Now());
    var it := r.value;
    first := it.Next();
    StepDetermined(Defaults(), Now(), Midnight(2019, 12, 31), first);
  }

  // ---------------------------------------------------------------------
  // *:*

  function EveryMinuteSpec(): Spec {
    Defaults().(hours := Full(Hour), minutes := Full(Minute))
  }

  /** 31 December 2019 passes the date part of an expression that leaves
      the date open. */
  lemma NewYearsEveMatches(spec: Spec)
    requires spec.years == Full(Year) && spec.months == Full(Month) && spec.days == Full(DayOfMonth)
    requires spec.weekdays == Full(DayOfWeek)
    ensures 2019 in spec.years && 12 in spec.months
    ensures 31 in MatchingDays(spec.days, 2019, 12)
    ensures Weekday(2019, 12, 31) in spec.weekdays
  {
    FullHas(Year, 2019);
    FullHas(Month, 12);
    FullHas(DayOfMonth, 31);
    FullHas(DayOfWeek, Weekday(2019, 12, 31));
  }

  /** An instant of the last hour of 2019 matches an expression that
      leaves the date and the hour open, when its minute and second do. */
  lemma LastHourMatches(spec: Spec, minute: int, sec: int)
    requires spec.years == Full(Year) && spec.months == Full(Month) && spec.days == Full(DayOfMonth)
    requires spec.weekdays == Full(DayOfWeek) && spec.hours == Full(Hour)
    requires 0 <= minute <= 59 && minute in spec.minutes && 0 <= sec <= 59 && sec in spec.seconds
    ensures Matches(spec, Timestamp(2019, 12, 31, 23, minute, sec))
  {
    NewYearsEveMatches(spec);
    FullHas(Hour, 23);
  }

  lemma OnTheMinuteGaps(spec: Spec)
    requires spec.seconds == {0}
    ensures NoMatchBetween(spec, Timestamp(2019, 12, 31, 23, 59, 0), Now())
    ensures NoMatchBetween(spec, Timestamp(2019, 12, 31, 23, 58, 0), Timestamp(2019, 12, 31, 23, 59, 0))
  {
    var t1, t2 := Timestamp(2019, 12, 31, 23, 59, 0), Timestamp(2019, 12, 31, 23, 58, 0);
    forall u | ValidTimestamp(u) && Before(t1, u) && Before(u, Now())
      ensures !Matches(spec, u)
    {
      assert u.year == 2019 && u.month == 12 && u.day == 31 && u.hour == 23 && u.minute == 59;
    }
    forall u | ValidTimestamp(u) && Before(t2, u) && Before(u, t1)
      ensures !Matches(spec, u)
    {
      assert u.year == 2019 && u.month == 12 && u.day == 31 && u.hour == 23 && u.minute == 58;
    }
  }

  lemma EveryMinuteHits(spec: Spec)
    requires spec == EveryMinuteSpec()
    ensures IsPrevMatch(spec, Now(), Timestamp(2019, 12, 31, 23, 59, 0))
    ensures IsPrevMatch(spec, Timestamp(2019, 12, 31, 23, 59, 0), Timestamp(2019, 12, 31, 23, 58, 0))
  {
    FullHas(Minute, 59);
    FullHas(Minute, 58);
    LastHourMatches(spec, 59, 0);
    LastHourMatches(spec, 58, 0);
    OnTheMinuteGaps(spec);
  }

  /** `*:*` steps back a minute at a time. */
  method EveryMinuteExample() returns (first: Option<Timestamp>, second: Option<Timestamp>)
    ensures first == Some(Timestamp(2019, 12, 31, 23, 59, 0))
    ensures second == Some(Timestamp(2019, 12, 31, 23, 58, 0))
  {
    EveryMinute("*:*");
    EveryMinuteHits(EveryMinuteSpec());
    var r := Open("*:*", Now());
    var it := r.value;
    first := it.Next();
    StepDetermined(EveryMinuteSpec(), Now(), Timestamp(2019, 12, 31, 23, 59, 0), first);
    second := it.Next();
    StepDetermined(EveryMinuteSpec(), Timestamp(2019, 12, 31, 23, 59, 0), Timestamp(2019, 12, 31, 23, 58, 0), second);
  }

  // ---------------------------------------------------------------------
  // *:*:0/5

  function FiveSecondsSpec(): Spec {
    Defaults().(hours := Full(Hour), minutes := Full(Minute), seconds := StepUp(0, 5, 59))
  }

  /** Every fifth second: those divisible by five. */
  ghost predicate FifthSeconds(s: set<int>) {
    forall v :: v in s <==> 0 <= v <= 59 && v % 5 == 0
  }

  lemma FifthSecondsStep()
    ensures FifthSeconds(StepUp(0, 5, 59))
  {
    forall v
      ensures v in StepUp(0, 5, 59) <==> 0 <= v <= 59 && v % 5 == 0
    {
      StepUpMembers(0, 5, 59, v);
    }
  }

  lemma FiveSecondsGaps(spec: Spec)
    requires FifthSeconds(spec.seconds)
    ensures NoMatchBetween(spec, Timestamp(2019, 12, 31, 23, 59, 55), Now())
    ensures NoMatchBetween(spec, Timestamp(2019, 12, 31, 23, 59, 50), Timestamp(2019, 12, 31, 23, 59, 55))
  {
    var t1, t2 := Timestamp(2019, 12, 31, 23, 59, 55), Timestamp(2019, 12, 31, 23, 59, 50);
    forall u | ValidTimestamp(u) && Before(t1, u) && Before(u, Now())
      ensures !Matches(spec, u)
    {
      assert u.year == 2019 && u.month == 12 && u.day == 31 && u.hour == 23 && u.minute == 59 && u.second > 55;
    }
    forall u | ValidTimestamp(u) && Before(t2, u) && Before(u, t1)
      ensures !Matches(spec, u)
    {
      assert u.year == 2019 && u.month == 12 && u.day == 31 && u.hour == 23 && u.minute == 59;
      assert 50 < u.second < 55;
    }
  }

  lemma FiveSecondsHits(spec: Spec)
    requires spec == FiveSecondsSpec()
    ensures IsPrevMatch(spec, Now(), Timestamp(2019, 12, 31, 23, 59, 55))
    ensures IsPrevMatch(spec, Timestamp(2019, 12, 31, 23, 59, 55), Timestamp(2019, 12, 31, 23, 59, 50))
  {
    FifthSecondsStep();
    FullHas(Minute, 59);
    assert 55 in spec.seconds && 50 in spec.seconds;
    LastHourMatches(spec, 59, 55);
    LastHourMatches(spec, 59, 50);
    FiveSecondsGaps(spec);
  }

  /** `*:*:0/5` steps back five seconds at a time. */
  method FiveSecondsExample() returns (first: Option<Timestamp>, second: Option<Timestamp>)
    ensures first == Some(Timestamp(2019, 12, 31, 23, 59, 55))
    ensures second == Some(Timestamp(2019, 12, 31, 23, 59, 50))
  {
    EveryFifthSecond("*:*:0/5");
    FiveSecondsHits(FiveSecondsSpec());
    var r := Open("*:*:0/5", Now());
    var it := r.value;
    first := it.Next();
    StepDetermined(FiveSecondsSpec(), Now(), Timestamp(2019, 12, 31, 23, 59, 55), first);
    second := it.Next();
    StepDetermined(FiveSecondsSpec(), Timestamp(2019, 12, 31, 23, 59, 55), Timestamp(2019, 12, 31, 23, 59, 50), second);
  }

  // ---------------------------------------------------------------------
  // *~1

  function LastDaySpec(): Spec {
    Defaults().(days := {-1})
  }

  /** The last day of a month, and only it, matches `*~1`. */
  lemma LastDayMatches(y: int, m: int, d: int)
    requires 1 <= m <= 12
    ensures d in MatchingDays({-1}, y, m) <==> d == DaysInMonth(y, m)
  {
  }

  lemma LastDayMatch(spec: Spec, m: int, d: int)
    requires spec.years == Full(Year) && spec.months == Full(Month) && spec.days == {-1}
    requires spec.weekdays == Full(DayOfWeek) && spec.hours == {0} && spec.minutes == {0} && spec.seconds == {0}
    requires (m == 12 && d == 31) || (m == 11 && d == 30) || (m == 10 && d == 31)
    ensures Matches(spec, Midnight(2019, m, d))
  {
    FullHas(Year, 2019);
    FullHas(Month, m);
    FullHas(DayOfWeek, Weekday(2019, m, d));
    LastDayMatches(2019, m, d);
  }

  lemma LastDayGaps(spec: Spec)
    requires spec.days == {-1} && spec.hours == {0} && spec.minutes == {0} && spec.seconds == {0}
    ensures NoMatchBetween(spec, Midnight(2019, 12, 31), Now())
    ensures NoMatchBetween(spec, Midnight(2019, 11, 30), Midnight(2019, 12, 31))
    ensures NoMatchBetween(spec, Midnight(2019, 10, 31), Midnight(2019, 11, 30))
  {
    var t1, t2, t3 := Midnight(2019, 12, 31), Midnight(2019, 11, 30), Midnight(2019, 10, 31);
    forall u | ValidTimestamp(u) && Before(t1, u) && Before(u, Now())
      ensures !Matches(spec, u)
    {
      assert u.year == 2019 && u.month == 12 && u.day == 31;
    }
    forall u | ValidTimestamp(u) && Before(t2, u) && Before(u, t1)
      ensures !Matches(spec, u)
    {
      LastDayMatches(u.year, u.month, u.day);
    }
    forall u | ValidTimestamp(u) && Before(t3, u) && Before(u, t2)
      ensures !Matches(spec, u)
    {
      LastDayMatches(u.year, u.month, u.day);
    }
  }

  lemma LastDayHits(spec: Spec)
    requires spec == LastDaySpec()
    ensures IsPrevMatch(spec, Now(), Midnight(2019, 12, 31))
    ensures IsPrevMatch(spec, Midnight(2019, 12, 31), Midnight(2019, 11, 30))
    ensures IsPrevMatch(spec, Midnight(2019, 11, 30), Midnight(2019, 10, 31))
  {
    LastDayMatch(spec, 12, 31);
    LastDayMatch(spec, 11, 30);
    LastDayMatch(spec, 10, 31);
    LastDayGaps(spec);
  }

  /** `*~1` visits the last days of December, November and October. */
  method LastDayExample() returns (first: Option<Timestamp>, second: Option<Timestamp>, third: Option<Timestamp>)
    ensures first == Some(Midnight(2019, 12, 31))
    ensures second == Some(Midnight(2019, 11, 30))
    ensures third == Some(Midnight(2019, 10, 31))
  {
    LastDayOfMonth("*~1");
    LastDayHits(LastDaySpec());
    var r := Open("*~1", Now());
    var it := r.value;
    first := it.Next();
    StepDetermined(LastDaySpec(), Now(), Midnight(2019, 12, 31), first);
    second := it.Next();
    StepDetermined(LastDaySpec(), Midnight(2019, 12, 31), Midnight(2019, 11, 30), second);
    third := it.Next();
    StepDetermined(LastDaySpec(), Midnight(2019, 11, 30), Midnight(2019, 10, 31), third);
  }

  // ---------------------------------------------------------------------
  // 2021-01-01

  function NewYearSpec(): Spec {
    Defaults().(years := {2021}, months := {1}, days := {1})
  }

  lemma NewYearNotYet()
    ensures NoMatchBefore(NewYearSpec(), Now())
  {
  }

  /** A date after the start has no match before it: the iterator is
      exhausted at once. */
  method NewYearExample() returns (first: Option<Timestamp>)
    ensures first == None
  {
    NewYear2021("2021-01-01");
    NewYearNotYet();
    var r := Open("2021-01-01", Now());
    var it := r.value;
    first := it.Next();
  }

  // ---------------------------------------------------------------------
  // 2019-01-01 8..9:0:0

  function EightToNineSpec(): Spec {
    Defaults().(years := {2019}, months := {1}, days := {1}, hours := {8, 9})
  }

  function OnNewYearsDay2019(h: int): Timestamp {
    Timestamp(2019, 1, 1, h, 0, 0)
  }

  /** Only the first day of January 2019 passes `2019-01-01`. */
  lemma NewYearsDayOnly(years: set<int>, y: int, m: int, d: int)
    requires years == {2019} && 1 <= m <= 12
    ensures y in years && m in {1} && d in MatchingDays({1}, y, m) <==> y == 2019 && m == 1 && d == 1
  {
  }

  lemma EightToNineMatch(spec: Spec, h: int)
    requires spec.years == {2019} && spec.months == {1} && spec.days == {1} && spec.weekdays == Full(DayOfWeek)
    requires spec.hours == {8, 9} && spec.minutes == {0} && spec.seconds == {0}
    requires h == 8 || h == 9
    ensures Matches(spec, OnNewYearsDay2019(h))
  {
    FullHas(DayOfWeek, Weekday(2019, 1, 1));
    NewYearsDayOnly(spec.years, 2019, 1, 1);
  }

  lemma EightToNineGaps(spec: Spec)
    requires spec.years == {2019} && spec.months == {1} && spec.days == {1}
    requires spec.hours == {8, 9} && spec.minutes == {0} && spec.seconds == {0}
    ensures NoMatchBetween(spec, OnNewYearsDay2019(9), Now())
    ensures NoMatchBetween(spec, OnNewYearsDay2019(8), OnNewYearsDay2019(9))
    ensures NoMatchBefore(spec, OnNewYearsDay2019(8))
  {
    forall u | ValidTimestamp(u) && Matches(spec, u)
      ensures u == OnNewYearsDay2019(8) || u == OnNewYearsDay2019(9)
    {
      NewYearsDayOnly(spec.years, u.year, u.month, u.day);
    }
  }

  lemma EightToNineHits(spec: Spec)
    requires spec == EightToNineSpec()
    ensures IsPrevMatch(spec, Now(), OnNewYearsDay2019(9))
    ensures IsPrevMatch(spec, OnNewYearsDay2019(9), OnNewYearsDay2019(8))
    ensures NoMatchBefore(spec, OnNewYearsDay2019(8))
  {
    EightToNineMatch(spec, 9);
    EightToNineMatch(spec, 8);
    EightToNineGaps(spec);
  }

  /** Two hits, the later first, and then exhaustion. */
  method EightToNineExample() returns (first: Option<Timestamp>, second: Option<Timestamp>, third: Option<Timestamp>)
    ensures first == Some(OnNewYearsDay2019(9))
    ensures second == Some(OnNewYearsDay2019(8))
    ensures third == None
  {
    EightToNine("2019-01-01 8..9:0:0");
    EightToNineHits(EightToNineSpec());
    var r := Open("2019-01-01 8..9:0:0", Now());
    var it := r.value;
    first := it.Next();
    StepDetermined(EightToNineSpec(), Now(), OnNewYearsDay2019(9), first);
    second := it.Next();
    StepDetermined(EightToNineSpec(), OnNewYearsDay2019(9), OnNewYearsDay2019(8), second);
    third := it.Next();
  }

  /** Draining the iterator yields exactly the two hits, the later first. */
  method EightToNineDrain() returns (hits: seq<Timestamp>)
    ensures hits == [OnNewYearsDay2019(9), OnNewYearsDay2019(8)]
  {
    var spec := EightToNineSpec();
    var expected := [OnNewYearsDay2019(9), OnNewYearsDay2019(8)];
    EightToNine("2019-01-01 8..9:0:0");
    EightToNineHits(spec);
    assert expected[1..][1..] == [];
    assert IsMatchChain(spec, OnNewYearsDay2019(9), expected[1..]);
    assert IsMatchChain(spec, Now(), expected);
    var r := Open("2019-01-01 8..9:0:0", Now());
    var it := r.value;
    hits := Drain(it);
    ChainUnique(spec, Now(), hits, expected);
  }

  // ---------------------------------------------------------------------
  // Mon 2-29

  function LeapMondaySpec(): Spec {
    Defaults().(weekdays := {0}, months := {2}, days := {29})
  }

  /** 29 February exists exactly in leap years. */
  lemma LeapDayMatches(y: int, d: int)
    ensures d in MatchingDays({29}, y, 2) <==> d == 29 && IsLeapYear(y)
  {
  }

  /** The leap years strictly between 1988 and 2016. */
  lemma LeapYearsBetween(y: int)
    requires 1988 < y < 2016 && IsLeapYear(y)
    ensures y == 1992 || y == 1996 || y == 2000 || y == 2004 || y == 2008 || y == 2012
  {
  }

  lemma MondayLeapDays()
    ensures Weekday(2016, 2, 29) == 0 && Weekday(1988, 2, 29) == 0
  {
    assert DaysBeforeYear(2016) == 735963 && DaysBeforeYear(1988) == 725736;
    assert DayNumber(2016, 2, 29) + 6 == 0 + 7 * 105147;
    WholeWeeks(0, 105147);
    assert DayNumber(1988, 2, 29) + 6 == 0 + 7 * 103686;
    WholeWeeks(0, 103686);
  }

  /** None of the leap days between 1988 and 2016 is a Monday. */
  lemma LeapDaysBetween()
    ensures Weekday(1992, 2, 29) == 5 && Weekday(1996, 2, 29) == 3 && Weekday(2000, 2, 29) == 1
    ensures Weekday(2004, 2, 29) == 6 && Weekday(2008, 2, 29) == 4 && Weekday(2012, 2, 29) == 2
  {
  }

  lemma LeapMondayMatch(spec: Spec, y: int)
    requires spec.years == Full(Year) && spec.months == {2} && spec.days == {29} && spec.weekdays == {0}
    requires spec.hours == {0} && spec.minutes == {0} && spec.seconds == {0}
    requires y == 2016 || y == 1988
    ensures Matches(spec, Midnight(y, 2, 29))
  {
    FullHas(Year, y);
    LeapDayMatches(y, 29);
    MondayLeapDays();
  }

  /** A match of `Mon 2-29` is midnight of a leap day that falls on a
      Monday. */
  lemma LeapMondayCandidate(spec: Spec, u: Timestamp)
    requires spec.months == {2} && spec.days == {29} && spec.weekdays == {0}
    requires spec.hours == {0} && spec.minutes == {0} && spec.seconds == {0}
    ensures Matches(spec, u) ==> u == Midnight(u.year, 2, 29) && IsLeapYear(u.year) && Weekday(u.year, 2, 29) == 0
  {
    if u.month == 2 {
      LeapDayMatches(u.year, u.day);
    }
  }

  lemma LeapMondayFirstGap(spec: Spec)
    requires spec.months == {2} && spec.days == {29} && spec.weekdays == {0}
    requires spec.hours == {0} && spec.minutes == {0} && spec.seconds == {0}
    ensures NoMatchBetween(spec, Midnight(2016, 2, 29), Now())
  {
    forall u | ValidTimestamp(u) && Before(Midnight(2016, 2, 29), u) && Before(u, Now())
      ensures !Matches(spec, u)
    {
      LeapMondayCandidate(spec, u);
    }
  }

  lemma LeapMondaySecondGap(spec: Spec)
    requires spec.months == {2} && spec.days == {29} && spec.weekdays == {0}
    requires spec.hours == {0} && spec.minutes == {0} && spec.seconds == {0}
    ensures NoMatchBetween(spec, Midnight(1988, 2, 29), Midnight(2016, 2, 29))
  {
    forall u | ValidTimestamp(u) && Before(Midnight(1988, 2, 29), u) && Before(u, Midnight(2016, 2, 29))
      ensures !Matches(spec, u)
    {
      LeapMondayCandidate(spec, u);
      if IsLeapYear(u.year) && 1988 < u.year < 2016 {
        LeapYearsBetween(u.year);
        LeapDaysBetween();
      }
    }
  }

  lemma LeapMondayHits(spec: Spec)
    requires spec == LeapMondaySpec()
    ensures IsPrevMatch(spec, Now(), Midnight(2016, 2, 29))
    ensures IsPrevMatch(spec, Midnight(2016, 2, 29), Midnight(1988, 2, 29))
  {
    LeapMondayMatch(spec, 2016);
    LeapMondayMatch(spec, 1988);
    LeapMondayFirstGap(spec);
    LeapMondaySecondGap(spec);
  }

  /** Leap days that fall on a Monday lie decades apart. */
  method LeapMondayExample() returns (first: Option<Timestamp>, second: Option<Timestamp>)
    ensures first == Some(Midnight(2016, 2, 29))
    ensures second == Some(Midnight(1988, 2, 29))
  {
    LeapMonday("Mon 2-29");
    LeapMondayHits(LeapMondaySpec());
    var r := Open("Mon 2-29", Now());
    var it := r.value;
    first := it.Next();
    StepDetermined(LeapMondaySpec(), Now(), Midnight(2016, 2, 29), first);
    second := it.Next();
    StepDetermined(LeapMondaySpec(), Midnight(2016, 2, 29), Midnight(1988, 2, 29), second);
  }

  // ---------------------------------------------------------------------
  // Sun *~7/1

  function LastSundaySpec(): Spec {
    Defaults().(weekdays := {6}, days := Interval(-7, -1))
  }

  /** The day values of the last week of a month, counted from the end. */
  ghost predicate LastWeek(days: set<int>) {
    forall v :: v in days <==> -7 <= v <= -1
  }

  /** The last seven days of a month, and only they, match `*~7/1`. */
  lemma LastWeekMatches(days: set<int>, y: int, m: int, d: int)
    requires LastWeek(days) && 1 <= m <= 12
    ensures d in MatchingDays(days, y, m) <==> DaysInMonth(y, m) - 6 <= d <= DaysInMonth(y, m)
  {
    assert d - DaysInMonth(y, m) - 1 in days <==> DaysInMonth(y, m) - 6 <= d <= DaysInMonth(y, m);
  }

  /** Adding whole weeks does not change a weekday. */
  lemma WholeWeeks(x: int, k: int)
    ensures (x + 7 * k) % 7 == x % 7
  {
    var q, r := x / 7, x % 7;
    assert x == q * 7 + r;
    assert x + 7 * k == (q + k) * 7 + r;
    DivUnique(x + 7 * k, 7, q + k, r);
  }

  /** The weekdays of the ends of October, November and December 2019. */
  lemma LateDays2019(m: int, d: int)
    requires 10 <= m <= 12 && 24 <= d <= DaysInMonth(2019, m)
    ensures m == 10 ==> Weekday(2019, m, d) == d % 7
    ensures m == 11 ==> Weekday(2019, m, d) == (d + 3) % 7
    ensures m == 12 ==> Weekday(2019, m, d) == (d + 5) % 7
  {
    assert DaysBeforeYear(2019) == 737059;
    if m == 10 {
      assert DayNumber(2019, m, d) + 6 == d + 7 * 105334;
      WholeWeeks(d, 105334);
    } else if m == 11 {
      assert DayNumber(2019, m, d) + 6 == (d + 3) + 7 * 105338;
      WholeWeeks(d + 3, 105338);
    } else {
      assert DayNumber(2019, m, d) + 6 == (d + 5) + 7 * 105342;
      WholeWeeks(d + 5, 105342);
    }
  }

  lemma LastWeekStep()
    ensures LastWeek(Interval(-7, -1))
  {
  }

  /** The Sundays the iterator stops at. */
  lemma LastSundays2019()
    ensures Weekday(2019, 12, 29) == 6 && Weekday(2019, 11, 24) == 6 && Weekday(2019, 10, 27) == 6
  {
    LateDays2019(12, 29);
    LateDays2019(11, 24);
    LateDays2019(10, 27);
  }

  lemma LastSundayMatch(spec: Spec, m: int, d: int)
    requires spec.years == Full(Year) && spec.months == Full(Month) && LastWeek(spec.days) && spec.weekdays == {6}
    requires spec.hours == {0} && spec.minutes == {0} && spec.seconds == {0}
    requires 10 <= m <= 12 && DaysInMonth(2019, m) - 6 <= d <= DaysInMonth(2019, m) && Weekday(2019, m, d) == 6
    ensures Matches(spec, Midnight(2019, m, d))
  {
    FullHas(Year, 2019);
    FullHas(Month, m);
    LastWeekMatches(spec.days, 2019, m, d);
  }

  /** A match of `Sun *~7/1` is midnight of a Sunday in the last week of
      its month. */
  lemma LastSundayCandidate(spec: Spec, u: Timestamp)
    requires LastWeek(spec.days) && spec.weekdays == {6}
    requires spec.hours == {0} && spec.minutes == {0} && spec.seconds == {0}
    ensures Matches(spec, u) ==> u == Midnight(u.year, u.month, u.day) && Weekday(u.year, u.month, u.day) == 6
    ensures Matches(spec, u) ==> DaysInMonth(u.year, u.month) - 6 <= u.day
  {
    if 1 <= u.month <= 12 {
      LastWeekMatches(spec.days, u.year, u.month, u.day);
    }
  }

  lemma LastSundayFirstGap(spec: Spec)
    requires LastWeek(spec.days) && spec.weekdays == {6}
    requires spec.hours == {0} && spec.minutes == {0} && spec.seconds == {0}
    ensures NoMatchBetween(spec, Midnight(2019, 12, 29), Now())
  {
    forall u | ValidTimestamp(u) && Before(Midnight(2019, 12, 29), u) && Before(u, Now())
      ensures !Matches(spec, u)
    {
      assert u.year == 2019 && u.month == 12 && u.day >= 29;
      LastSundayCandidate(spec, u);
      LateDays2019(u.month, u.day);
    }
  }

  lemma LastSundaySecondGap(spec: Spec)
    requires LastWeek(spec.days) && spec.weekdays == {6}
    requires spec.hours == {0} && spec.minutes == {0} && spec.seconds == {0}
    ensures NoMatchBetween(spec, Midnight(2019, 11, 24), Midnight(2019, 12, 29))
  {
    forall u | ValidTimestamp(u) && Before(Midnight(2019, 11, 24), u) && Before(u, Midnight(2019, 12, 29))
      ensures !Matches(spec, u)
    {
      assert u.year == 2019 && 11 <= u.month <= 12;
      LastSundayCandidate(spec, u);
      if u.day >= 24 {
        LateDays2019(u.month, u.day);
      }
    }
  }

  lemma LastSundayThirdGap(spec: Spec)
    requires LastWeek(spec.days) && spec.weekdays == {6}
    requires spec.hours == {0} && spec.minutes == {0} && spec.seconds == {0}
    ensures NoMatchBetween(spec, Midnight(2019, 10, 27), Midnight(2019, 11, 24))
  {
    forall u | ValidTimestamp(u) && Before(Midnight(2019, 10, 27), u) && Before(u, Midnight(2019, 11, 24))
      ensures !Matches(spec, u)
    {
      assert u.year == 2019 && 10 <= u.month <= 11;
      LastSundayCandidate(spec, u);
      if u.day >= 24 {
        LateDays2019(u.month, u.day);
      }
    }
  }

  lemma LastSundayHits(spec: Spec)
    requires spec == LastSundaySpec()
    ensures IsPrevMatch(spec, Now(), Midnight(2019, 12, 29))
    ensures IsPrevMatch(spec, Midnight(2019, 12, 29), Midnight(2019, 11, 24))
    ensures IsPrevMatch(spec, Midnight(2019, 11, 24), Midnight(2019, 10, 27))
  {
    LastWeekStep();
    LastSundays2019();
    LastSundayMatch(spec, 12, 29);
    LastSundayMatch(spec, 11, 24);
    LastSundayMatch(spec, 10, 27);
    LastSundayFirstGap(spec);
    LastSundaySecondGap(spec);
    LastSundayThirdGap(spec);
  }

  /** `Sun *~7/1` visits the last Sunday of December, November and
      October. */
  method LastSundayExample() returns (first: Option<Timestamp>, second: Option<Timestamp>, third: Option<Timestamp>)
    ensures first == Some(Midnight(2019, 12, 29))
    ensures second == Some(Midnight(2019, 11, 24))
    ensures third == Some(Midnight(2019, 10, 27))
  {
    LastSunday("Sun *~7/1");
    LastSundayHits(LastSundaySpec());
    var r := Open("Sun *~7/1", Now());
    var it := r.value;
    first := it.Next();
    StepDetermined(LastSundaySpec(), Now(), Midnight(2019, 12, 29), first);
    second := it.Next();
    StepDetermined(LastSundaySpec(), Midnight(2019, 12, 29), Midnight(2019, 11, 24), second);
    third := it.Next();
    StepDetermined(LastSundaySpec(), Midnight(2019, 11, 24), Midnight(2019, 10, 27), third);
  }
}
