# oncalendar's BackwardIterator, modelled in Dafny

`oncalendar` reads systemd-style `OnCalendar` expressions such as
`Mon *-*-* 12:34`, `*-*~1` or `*:0/15`. Its `BackwardIterator` is built
from an expression and a start instant and goes back in time. Each `next`
gives the latest instant strictly before the previous result (at first,
before the start) that the expression matches. When there is none, it
reports exhaustion.

The model has three parts, in seven modules:

- **The parser.**
  - `Text` holds the string primitives: digits, ASCII upper-casing, blank
    splitting, trimming, and decimal rendering and reading.
  - `Fields` parses one field token into a bounded integer set. A token is
    `*`, a list, an `a..b` range, an `a/n` or `a..b/n` step, a weekday
    name or a weekday `a-b` range. Days counted from the end of the month
    are stored negated.
  - `Expressions` classifies the blank-separated components (weekday, date,
    time) and handles the `minutely` shorthand and the two-digit year
    pivot. It fills the fields of absent components with their defaults
    and reports the first error.
- **Calendar arithmetic.** `Calendar` covers leap years, month lengths, the
  day number and weekday of a date (Monday = 0), the next day, and the
  resolution of a negative day against the month's length. `Timestamps`
  covers naive second-resolution timestamps, their lexicographic order
  and the decrement-with-carry `PrevSecond`.
- **The iterator.** `Backward` defines what a match is and the search
  method `FindBefore`. The search counts a candidate down field by field
  with carries and skips whole blocks that cannot match. `Backward` also
  holds the class `BackwardIterator`: a spec and a mutable cursor, with
  `Next`. `Open` builds an iterator from an expression, and `Drain` runs
  one to exhaustion.

`ParseExamples` and `IteratorExamples` prove the outcomes the test suite
expects, expression by expression. The iterator runs call `Open` and `Next`
from midnight of 1 January 2020. The contract of `Next`, with the
uniqueness lemma `StepDetermined`, fixes each result.

Choices the sources leave open:

- Years span 1970..2199, as the test of the defaults expects
  (`set(range(1970, 2200))`).
- A component's role follows from its shape:
  - it is a time when it holds a colon;
  - a weekday list when it starts with an ASCII letter;
  - a date when it holds a dash or a tilde;
  - a weekday list otherwise, which the weekday parser then rejects. This
    is how `* 1-1` fails as a bad day-of-week.

  Two components of the same role count as a wrong number of fields.
- Field sets are Dafny `set<int>`, not bit sets. Letters are ASCII only.
- `Next` returns a match strictly before the cursor, so a start instant
  that itself matches is not returned. After exhaustion the cursor stays
  where it was.
- In count-from-end mode a start with a step counts down towards 1
  (`~3/2` is {-1, -3}). Magnitudes above 28 are rejected.

## Model

| member | source | states |
|---|---|---|
| Expressions.Full | tests/test_backwarditerator.py:14-28 | the full domain of a field is a non-empty set within that field's bounds (weekdays 0..6, years 1970..2199, months 1..12, days 1..31, hours 0..23, minutes and seconds 0..59) |
| Expressions.Parse | tests/test_backwarditerator.py:14-28 | a successful parse is well formed: every field is a non-empty subset of its domain, and every day is in 1..31 or in -28..-1 |
| Expressions.Minutely | tests/test_backwarditerator.py:144-150 | the `minutely` spec is well formed |
| Expressions.StripTrailingComma | tests/test_backwarditerator.py:43-48 | a text ending in a comma loses exactly that one comma; any other text is kept as it is |
| Expressions.PivotYear | tests/test_backwarditerator.py:69-77 | a two-digit year maps to a year in 1970..2069 with the same last two digits |
| Expressions.ParseYears | tests/test_backwarditerator.py:69-77 | a parsed year set lies within 1970..2199; its only error is a bad year |
| Expressions.CombineDate | tests/test_backwarditerator.py:56-67 | the date succeeds exactly when year, month and day all succeed; the first bad one, in that order, is the error |
| Expressions.ParseEndRelativeDate | tests/test_backwarditerator.py:116-122 | a `month~day` date has years and months within their domains and non-empty days, all in -28..-1 |
| Expressions.CombineEndDate | tests/test_backwarditerator.py:116-122 | the same bounds for the text split at the tilde, with or without a year |
| Expressions.ParseDashedDate | tests/test_backwarditerator.py:56-67 | a `[year-]month-day` date has every field within its domain |
| Expressions.ParseDate | tests/test_backwarditerator.py:56-67 | a parsed date has years and months within their domains, and days from 1..31 or -28..-1 |
| Expressions.CombineTime | tests/test_backwarditerator.py:79-90 | the time succeeds exactly when hour, minute and second all succeed; the first bad one is the error |
| Expressions.ParseTime | tests/test_backwarditerator.py:79-90 | a parsed time has hours, minutes and seconds within their domains |
| Expressions.WeekdaysOf | tests/test_backwarditerator.py:14-16 | the weekday set is within 0..6 |
| Expressions.DateOf | tests/test_backwarditerator.py:17-22 | the date sets are within their domains |
| Expressions.TimeOf | tests/test_backwarditerator.py:23-28 | the time sets are within their domains |
| Expressions.CombineSpec | tests/test_backwarditerator.py:14-28 | the spec succeeds exactly when all three parts succeed, holds their sets, and otherwise reports the first error in the order weekday, date, time |
| Expressions.Classify | tests/test_backwarditerator.py:207-209 | defines a component's role: a component with a colon is a time; else a leading letter makes a weekday list; else a dash or tilde makes a date; else a weekday list |
| Expressions.RoleCount | tests/test_backwarditerator.py:154-160 | the number of components playing a role, never more than the number of components |
| Expressions.FindPart | tests/test_backwarditerator.py:154-160 | a component playing the role is found exactly when the role count is positive, and the one found is a component of that role |
| Expressions.Assemble | tests/test_backwarditerator.py:158-160 | a successful assembly is well formed |
| Expressions.TwoDashes | tests/test_backwarditerator.py:56-62 | the first two dashes of `y-m-d` cut it into `y`, `m` and `d` |
| Expressions.FullDate | tests/test_backwarditerator.py:56-62 | `y-m-d` parses to the year set of `y` and the month and day fields of `m` and `d` |
| Expressions.MonthDayDate | tests/test_backwarditerator.py:63-67 | `m-d` parses to every year and the month and day fields of `m` and `d` |
| Expressions.MonthEndDate | tests/test_backwarditerator.py:120-122 | `m~d` parses to every year, the month field of `m` and the end-counted day field of `d` |
| Expressions.FullEndDate | tests/test_backwarditerator.py:116-118 | `y-m~d` parses to the year set of `y`, the month field of `m` and the end-counted day field of `d` |
| Expressions.HourMinuteTime | tests/test_backwarditerator.py:86-90 | `h:m` parses to the hour and minute fields and second {0} |
| Expressions.HourMinuteSecondTime | tests/test_backwarditerator.py:79-84 | `h:m:s` parses to the three fields |
| Expressions.OneComponent | tests/test_backwarditerator.py:37-41 | a single blank-free component that is not a shorthand is assembled on its own |
| Expressions.TwoComponents | tests/test_backwarditerator.py:43-48 | two components separated by a blank are assembled as that pair |
| Expressions.ThreeComponents | tests/test_backwarditerator.py:164 | three components separated by blanks are assembled as that triple |
| Expressions.WeekdayOnly | tests/test_backwarditerator.py:37-41 | a lone weekday list gives every date at midnight |
| Expressions.DateOnly | tests/test_backwarditerator.py:56-62 | a lone date gives every weekday at midnight |
| Expressions.TimeOnly | tests/test_backwarditerator.py:79-84 | a lone time gives every weekday and date |
| Expressions.WeekdayAndDate | tests/test_backwarditerator.py:233-235 | a weekday and a date give midnight |
| Expressions.PairRoles | tests/test_backwarditerator.py:43-48 | how two components fill the roles: the count of each role, and which component plays it |
| Expressions.WeekdayAndTime | tests/test_backwarditerator.py:43-48 | a weekday and a time give every date |
| Expressions.DateAndTime | tests/test_backwarditerator.py:30-35 | a date and a time give every weekday |
| Expressions.DateRejected | tests/test_backwarditerator.py:162-189 | a lone bad date rejects the expression with the date's error |
| Expressions.TimeRejected | tests/test_backwarditerator.py:162-189 | a lone bad time rejects the expression with the time's error |
| Expressions.LoneDateRejected | tests/test_backwarditerator.py:191-193 | an expression that is one bad date fails with the date's error |
| Expressions.LoneTimeRejected | tests/test_backwarditerator.py:195-201 | an expression that is one bad time fails with the time's error |
| Expressions.WeekdayRejected | tests/test_backwarditerator.py:207-209 | a bad weekday list fails the assembly as a bad day-of-week, whatever follows |
| Expressions.WeekdayThenRejected | tests/test_backwarditerator.py:207-209 | an expression starting with a bad weekday list fails as a bad day-of-week |
| Expressions.NoComponent | tests/test_backwarditerator.py:154-156 | an empty or all-blank expression is the wrong number of fields |
| Expressions.FourComponents | tests/test_backwarditerator.py:158-160 | four components are the wrong number of fields |
| Fields.Interval | tests/test_backwarditerator.py:96-98 | `a..b` stands for exactly the integers from a to b |
| Fields.StepUp | tests/test_backwarditerator.py:104-114 | a step set contains its start and lies between the start and the top |
| Fields.StepUpMembers | tests/test_backwarditerator.py:104-114 | v is in the step set exactly when it lies between the start and the top and is the start plus a multiple of the step |
| Fields.StepDown | tests/test_backwarditerator.py:140-142 | a downward step set contains its start and lies between the floor and the start |
| Fields.StepDownMembers | tests/test_backwarditerator.py:136-142 | v is in the downward step set exactly when it lies between the floor and the start and is the start minus a multiple of the step |
| Fields.Negated | tests/test_backwarditerator.py:116-142 | v is in the negated set exactly when -v is in the original |
| Fields.IndexIn | tests/test_backwarditerator.py:37-41 | a found index names the string; no index means the string is not in the list |
| Fields.WeekdayNumber | tests/test_backwarditerator.py:37-41 | a name is a weekday exactly when its upper-cased form is a three-letter abbreviation or a full day name, and the number is that day's position, Monday = 0 |
| Fields.ParseValue | tests/test_backwarditerator.py:174-185 | a value is accepted exactly when it is a weekday name (weekday field) or a digits-only number within the field's bounds (other fields); the result is that number |
| Fields.ParseBounds | tests/test_backwarditerator.py:191-193 | a range is accepted exactly when both ends are values and the start does not exceed the end |
| Fields.FindDots | tests/test_backwarditerator.py:96-98 | the result is the position of the first `..`, and none means the text has no `..` |
| Fields.ParseStepItem | tests/test_backwarditerator.py:104-114 | a step item gives a non-empty set within the field's bounds; its only error is a bad field |
| Fields.ParsePlainItem | tests/test_backwarditerator.py:92-102 | a plain item gives a non-empty set within the field's bounds; its only error is a bad field |
| Fields.ParseItem | tests/test_backwarditerator.py:92-114 | an item gives a non-empty set within the field's bounds; its only error is a bad field |
| Fields.ParseItems | tests/test_backwarditerator.py:92-102 | a list gives a set within the field's bounds; its only error is a bad field |
| Fields.ParseMagnitudes | tests/test_backwarditerator.py:30-35 | a token gives a non-empty set within the field's bounds; its only error is a bad field |
| Fields.ParseField | tests/test_backwarditerator.py:92-142 | a parsed field is a non-empty subset of its domain (-28..-1 when counting from the end); its only error is a bad value in that field |
| Fields.ItemsAppend | tests/test_backwarditerator.py:100-102 | the items of two lists together stand for the union of what each list stands for; a bad item on either side fails the whole list |
| Fields.ListUnion | tests/test_backwarditerator.py:92-102 | `a,b` stands for the union of `a` and `b` |
| Fields.BadItemFailsList | tests/test_backwarditerator.py:183 | one bad item fails the list |
| Fields.StarStandsAlone | tests/test_backwarditerator.py:183-184 | `*` inside a list is rejected |
| Fields.StarTakesNoStep | tests/test_backwarditerator.py:182 | `*/n` is rejected |
| Fields.ZeroStep | tests/test_backwarditerator.py:199-201 | a zero step is rejected |
| Fields.BadStartStep | tests/test_backwarditerator.py:180 | a step on a weekday, or on a start that is not a value, is rejected |
| Fields.StarField | tests/test_backwarditerator.py:30-35 | `*` stands for the whole domain of every field but the weekday |
| Fields.NumberField | tests/test_backwarditerator.py:56-62 | a number within the field's bounds stands for itself |
| Fields.PaddedField | tests/test_backwarditerator.py:218 | a zero-padded number stands for itself |
| Fields.WeekdayField | tests/test_backwarditerator.py:37-41 | a weekday name stands for its day |
| Fields.RangeField | tests/test_backwarditerator.py:96-98 | `a..b` with a <= b in bounds stands for a..b (negated when counting from the end) |
| Fields.StepField | tests/test_backwarditerator.py:104-114 | `a/n` stands for a, a+n, ... up to the top, or a, a-n, ... down to 1 negated when counting from the end |
| Fields.RangeStepField | tests/test_backwarditerator.py:108-110 | `a..b/n` stands for a, a+n, ... up to b |
| Fields.WeekdayDashToken | tests/test_backwarditerator.py:50-54 | the weekday range `a-b` stands for the days from a to b |
| Text.UpperChar | tests/test_backwarditerator.py:38 | a lower-case letter becomes the capital 32 code points below it (`a` to `A`), and every other character stays as it is |
| Text.Upper | tests/test_backwarditerator.py:144-150 | upper-casing keeps the length and upper-cases each character |
| Text.IndexOf | tests/test_backwarditerator.py:56-90 | the position of the first occurrence of the separator |
| Text.Split | tests/test_backwarditerator.py:92-102 | a list splits into pieces free of the separator |
| Text.JoinSplit | tests/test_backwarditerator.py:92-102 | joining the pieces with the separator gives back the text |
| Text.Words | tests/test_backwarditerator.py:158-160 | the components of an expression are non-empty and blank-free |
| Text.WordsOfFour | tests/test_backwarditerator.py:158-160 | four blank-separated words split into exactly those four words, in order |
| Text.TrimUnblanked | tests/test_backwarditerator.py:154-160 | trimming leaves a text without edge blanks as it is |
| Text.AllBlankTrims | tests/test_backwarditerator.py:154-156 | an all-blank text trims to the empty text |
| Text.ParseNumber | tests/test_backwarditerator.py:195-197 | a number literal is one or more digits and nothing else |
| Text.ParseDecimal | tests/test_backwarditerator.py:92-114 | reading back a rendered number gives the number |
| Calendar.DaysInMonth | tests/test_backwarditerator.py:238-242 | every month has 28 to 31 days |
| Calendar.DaysBeforeMonthIsSum | tests/test_backwarditerator.py:233-236 | the days before a month are the sum of the earlier months' lengths, and the twelve months sum to the year's length |
| Calendar.Weekday | tests/test_backwarditerator.py:233-248 | the weekday is in 0..6 |
| Calendar.NextDay | tests/test_backwarditerator.py:233-248 | the day after a valid date is a valid date |
| Calendar.DaysBeforeNextYear | tests/test_backwarditerator.py:233-236 | the next year starts one year's length later |
| Calendar.DayNumberOfNextDay | tests/test_backwarditerator.py:233-248 | the day after a date has the next day number |
| Calendar.WeekdayOfNextDay | tests/test_backwarditerator.py:233-248 | the day after a date falls on the next weekday, Sunday wrapping to Monday |
| Calendar.ResolveFromEnd | tests/test_backwarditerator.py:238-248 | a day -n with n from 1 to 28 resolves to a valid date; -1 is the month's last day, and each further step back is one day earlier |
| Timestamps.BeforeIsStrictTotalOrder | tests/test_backwarditerator.py:217-221 | the order of timestamps is irreflexive, transitive, total and asymmetric |
| Timestamps.PrevSecond | tests/test_backwarditerator.py:223-231 | one second back from a valid timestamp is a valid timestamp |
| Timestamps.PrevSecondIsPredecessor | tests/test_backwarditerator.py:254-257 | one second back is earlier, and no valid timestamp lies strictly between the two |
| Backward.Matches | tests/test_backwarditerator.py:216-257 | defines a match: a valid instant whose year, month, hour, minute and second lie in their sets, whose day matches directly or counted from the month's end, and whose date falls on an allowed weekday |
| Backward.MatchingDays | tests/test_backwarditerator.py:238-242 | a day of the month matches when it exists in that month and is stored as itself or as its distance from the month's end |
| Backward.MatchingDayResolves | tests/test_backwarditerator.py:238-248 | a day matches exactly when it exists in the month and some stored day resolves to it |
| Backward.PrevMatchUnique | tests/test_backwarditerator.py:217-221 | the latest match before a bound is unique |
| Backward.MatchesFrom1970 | tests/test_backwarditerator.py:250-253 | no match lies before 1970 |
| Backward.GreatestAtMost | tests/test_backwarditerator.py:223-231 | the result is the greatest member of the set at most x, or lo - 1 when no member lies between lo and x |
| Backward.StartBelow | tests/test_backwarditerator.py:254-257 | the search starts one second before the bound, and nothing matches in between |
| Backward.Advance | tests/test_backwarditerator.py:223-231 | skipping a block without matches keeps the search below the bound with no match skipped |
| Backward.SkipYears | tests/test_backwarditerator.py:250-253 | years without a member of the year set hold no match |
| Backward.SkipMonths | tests/test_backwarditerator.py:233-236 | months outside the month set hold no match |
| Backward.SkipDays | tests/test_backwarditerator.py:238-248 | days that do not match hold no match |
| Backward.SkipHours | tests/test_backwarditerator.py:217-221 | hours outside the hour set hold no match |
| Backward.SkipMinutes | tests/test_backwarditerator.py:228-231 | minutes outside the minute set hold no match |
| Backward.SkipSeconds | tests/test_backwarditerator.py:223-226 | seconds outside the second set hold no match |
| Backward.SkipDate | tests/test_backwarditerator.py:233-248 | a day on a weekday outside the weekday set holds no match |
| Backward.Exhausted | tests/test_backwarditerator.py:250-253 | once the candidate is below 1970 there is no match before the bound |
| Backward.Step | tests/test_backwarditerator.py:217-257 | the candidate matches exactly when found; otherwise a block ending at it holds no match |
| Backward.FindBefore | tests/test_backwarditerator.py:217-257 | the result is the latest match strictly before the bound, or none when no match lies before it |
| Backward.BackwardIterator.constructor | tests/test_backwarditerator.py:31 | a new iterator holds the spec and its cursor is the start instant |
| Backward.BackwardIterator.Next | tests/test_backwarditerator.py:217-257 | the result is a match strictly before the old cursor with no match between them, and becomes the cursor; none means no match before the cursor, and the cursor stays |
| Backward.Open | tests/test_backwarditerator.py:153-213 | an iterator is built exactly when the expression parses, holding its spec and the start; otherwise the parse error is returned |
| Backward.Drain | tests/test_backwarditerator.py:217-221 | draining yields the chain of latest matches, each before the previous one, and ends when no match remains |
| Backward.ChainExtend | tests/test_backwarditerator.py:217-221 | a chain grows by the latest match before its last element |
| Backward.ChainHoldsEveryMatch | tests/test_backwarditerator.py:217-221 | a drained chain holds exactly the matches before its start |
| Backward.ChainDescends | tests/test_backwarditerator.py:217-221 | a chain lies below its start and strictly descends |
| Backward.ChainUnique | tests/test_backwarditerator.py:217-221 | two drained chains from the same start are equal |
| ParseExamples.Stars | tests/test_backwarditerator.py:30-35 | `*-*-* *:*:*` gives every field's full domain |
| ParseExamples.MondayLetters | tests/test_backwarditerator.py:38 | the Monday samples are all letters |
| ParseExamples.Monday | tests/test_backwarditerator.py:37-41 | `Mon`, `MON`, `Monday`, `MONDAY` give weekdays {0} and the defaults |
| ParseExamples.MondayWithComma | tests/test_backwarditerator.py:43-48 | `Mon, 12:34` gives weekdays {0}, hours {12}, minutes {34} |
| ParseExamples.WeekdayDotsExpression | tests/test_backwarditerator.py:50-54 | `Mon..Tue` gives weekdays {0, 1} |
| ParseExamples.WeekdayCommaExpression | tests/test_backwarditerator.py:50-54 | `Mon,Tue` gives weekdays {0, 1} |
| ParseExamples.WeekdayDashExpression | tests/test_backwarditerator.py:50-54 | `Mon-Tue` gives weekdays {0, 1} |
| ParseExamples.MondayToTuesday | tests/test_backwarditerator.py:50-54 | all three forms give weekdays {0, 1} and the defaults |
| ParseExamples.FullDateExample | tests/test_backwarditerator.py:56-61 | `2023-11-30` gives years {2023}, months {11}, days {30} |
| ParseExamples.MonthDayExample | tests/test_backwarditerator.py:63-67 | `11-30` gives every year, months {11}, days {30} |
| ParseExamples.ShortYear | tests/test_backwarditerator.py:69-77 | a two-digit year gives its pivoted year |
| ParseExamples.TwoDigitYears | tests/test_backwarditerator.py:69-77 | `69-*-*` gives years {2069} and `70-*-*` years {1970} |
| ParseExamples.TimeExample | tests/test_backwarditerator.py:79-90 | `11:22:33` gives {11}, {22}, {33}; `11:22` gives seconds {0} |
| ParseExamples.FourQuarters | tests/test_backwarditerator.py:104-106 | steps of 15 from 0 and 5 are {0, 15, 30, 45} and {5, 20, 35, 50} |
| ParseExamples.EvenUpToTen | tests/test_backwarditerator.py:108-110 | steps of 2 from 0 to 10 are {0, 2, 4, 6, 8, 10} |
| ParseExamples.MinuteSteps | tests/test_backwarditerator.py:104-114 | the three minute step tokens give those sets |
| ParseExamples.MinuteListExample | tests/test_backwarditerator.py:92-94 | `*:1,2,3` gives minutes {1, 2, 3} |
| ParseExamples.MinuteRangeExample | tests/test_backwarditerator.py:96-98 | `*:1..3` gives minutes {1, 2, 3} |
| ParseExamples.QuarterStepExample | tests/test_backwarditerator.py:104-106 | `*:0/15` gives minutes {0, 15, 30, 45} |
| ParseExamples.RangeStepExample | tests/test_backwarditerator.py:108-110 | `*:0..10/2` gives minutes {0, 2, 4, 6, 8, 10} |
| ParseExamples.OffsetQuarterStepExample | tests/test_backwarditerator.py:112-114 | `*:5/15` gives minutes {5, 20, 35, 50} |
| ParseExamples.MinuteExamples | tests/test_backwarditerator.py:92-114 | the five minute expressions give their sets, every hour |
| ParseExamples.TwoRangesField | tests/test_backwarditerator.py:100-102 | `1..3,7..9` gives {1, 2, 3, 7, 8, 9} |
| ParseExamples.TwoMinuteRanges | tests/test_backwarditerator.py:100-102 | `*:1..3,7..9:*` gives minutes {1, 2, 3, 7, 8, 9} and every hour and second |
| ParseExamples.EndDayDate | tests/test_backwarditerator.py:116-118 | `*-*~d` gives every year and month and the end-counted days of `d` |
| ParseExamples.EndDayExpression | tests/test_backwarditerator.py:116-142 | the expression `*-*~d` gives the end-counted days of `d` and the defaults |
| ParseExamples.EndDayValue | tests/test_backwarditerator.py:116-118 | `*-*~1` gives days {-1} |
| ParseExamples.LastDayOfMonth | tests/test_backwarditerator.py:120-122 | `*~1` gives days {-1} |
| ParseExamples.EndDayList | tests/test_backwarditerator.py:124-126 | `*-*~1,8` gives days {-1, -8} |
| ParseExamples.EndDayRange | tests/test_backwarditerator.py:128-130 | `*-*~1..3` gives days {-1, -2, -3} |
| ParseExamples.EndDayRanges | tests/test_backwarditerator.py:132-134 | `*-*~1..2,4..5` gives days {-1, -2, -4, -5} |
| ParseExamples.EndDayRangeStep | tests/test_backwarditerator.py:136-138 | `*-*~1..5/2` gives days {-1, -3, -5} |
| ParseExamples.EndDayStep | tests/test_backwarditerator.py:140-142 | `*-*~3/2` gives days {-1, -3} |
| ParseExamples.MinutelyUpper | tests/test_backwarditerator.py:145 | the four spellings upper-case to `MINUTELY` |
| ParseExamples.MinutelyExample | tests/test_backwarditerator.py:144-150 | each spelling of `minutely` gives every hour and minute, on the minute |
| ParseExamples.EmptyRejected | tests/test_backwarditerator.py:154-156 | the empty expression is the wrong number of fields |
| ParseExamples.FourComponentsRejected | tests/test_backwarditerator.py:158-160 | `Mon *-*-* *:*:* surprise` is the wrong number of fields |
| ParseExamples.NotANumber | tests/test_backwarditerator.py:177 | a text with a non-digit is no number |
| ParseExamples.NotAWeekday | tests/test_backwarditerator.py:177 | a text not starting with a weekday initial is no weekday |
| ParseExamples.SingleValueRejected | tests/test_backwarditerator.py:177 | a plain value with a non-digit and no weekday initial is rejected in every field |
| ParseExamples.LettersRejected | tests/test_backwarditerator.py:177 | `ABC` is rejected in every field |
| ParseExamples.TildeRejected | tests/test_backwarditerator.py:181 | `~1` is rejected in every field |
| ParseExamples.ColonRejected | tests/test_backwarditerator.py:179 | `1:1` is rejected in every field |
| ParseExamples.DashRejected | tests/test_backwarditerator.py:175-178 | `-1` and `1-1` are rejected in every field |
| ParseExamples.MinusOneRejected | tests/test_backwarditerator.py:175 | `-1` is rejected in every field |
| ParseExamples.OneDashOneRejected | tests/test_backwarditerator.py:178 | `1-1` is rejected in every field |
| ParseExamples.ThousandRejected | tests/test_backwarditerator.py:176 | `1000` is rejected in every field |
| ParseExamples.WeekdayStepRejected | tests/test_backwarditerator.py:180 | `Mon/1` is rejected in every field |
| ParseExamples.StarStepRejected | tests/test_backwarditerator.py:182 | `*/1` is rejected in every field |
| ParseExamples.StarInListRejected | tests/test_backwarditerator.py:183 | `*,1` is rejected in every field |
| ParseExamples.RangeToStarItem | tests/test_backwarditerator.py:184 | the item `1..*` is rejected |
| ParseExamples.RangeToStarRejected | tests/test_backwarditerator.py:184 | `1..*` is rejected in every field |
| ParseExamples.BadValuesRejected | tests/test_backwarditerator.py:162-189 | each of the ten bad values is rejected as a bad value of whichever field it stands in |
| ParseExamples.BadYearsRejected | tests/test_backwarditerator.py:165 | each of the ten bad values is rejected as a bad year |
| ParseExamples.LopsidedRangeField | tests/test_backwarditerator.py:193 | the day field `5..1` is rejected |
| ParseExamples.LopsidedRangeDate | tests/test_backwarditerator.py:193 | the date `*-*-5..1` is a bad day-of-month |
| ParseExamples.LopsidedRangeRejected | tests/test_backwarditerator.py:191-193 | `*-*-5..1` is a bad day-of-month |
| ParseExamples.UnderscoreField | tests/test_backwarditerator.py:197 | the minute field `1..1_0` is rejected |
| ParseExamples.UnderscoreRejected | tests/test_backwarditerator.py:195-197 | `*:1..1_0` is a bad minute |
| ParseExamples.ZeroStepRejected | tests/test_backwarditerator.py:199-201 | `*:*/0` is a bad minute |
| ParseExamples.DayOutOfRange | tests/test_backwarditerator.py:203-213 | a number above the field's top is rejected |
| ParseExamples.DayOfMonthRangeChecked | tests/test_backwarditerator.py:203-205 | `1-32` is a bad day-of-month |
| ParseExamples.WeekdayStarRejected | tests/test_backwarditerator.py:207-209 | `* 1-1` is a bad day-of-week |
| ParseExamples.ReverseDayAbove28Rejected | tests/test_backwarditerator.py:211-213 | `1~29` is a bad day-of-month |
| ParseExamples.PaddedDate | tests/test_backwarditerator.py:218 | a zero-padded `yyyy-0m-0d` date gives that single date |
| ParseExamples.EightToNine | tests/test_backwarditerator.py:218 | `2019-01-01 8..9:0:0` gives 1 January 2019 at 8:00 and 9:00 |
| ParseExamples.FiveSecondsField | tests/test_backwarditerator.py:224 | the second field `0/5` is every fifth second |
| ParseExamples.EveryFifthSecond | tests/test_backwarditerator.py:224 | `*:*:0/5` gives every hour and minute and every fifth second |
| ParseExamples.EveryMinute | tests/test_backwarditerator.py:229 | `*:*` gives every hour and minute, on the minute |
| ParseExamples.LeapMonday | tests/test_backwarditerator.py:234 | `Mon 2-29` gives Monday, February, day 29 |
| ParseExamples.LastWeekField | tests/test_backwarditerator.py:245 | the end-counted day field `7/1` is -7..-1 |
| ParseExamples.LastSunday | tests/test_backwarditerator.py:245 | `Sun *~7/1` gives Sunday and the last seven days of every month |
| ParseExamples.NewYear2021 | tests/test_backwarditerator.py:251 | `2021-01-01` gives that single date |
| ParseExamples.Midnight | tests/test_backwarditerator.py:256 | `00:00` gives the defaults |
| IteratorExamples.StepDetermined | tests/test_backwarditerator.py:217-257 | a result meeting the contract of `Next` is the latest match before the bound |
| IteratorExamples.DefaultsMatch | tests/test_backwarditerator.py:255-257 | midnight of any date of the supported years matches the defaults |
| IteratorExamples.MidnightHit | tests/test_backwarditerator.py:255-257 | the latest default match before 2020-01-01 is 2019-12-31 00:00 |
| IteratorExamples.MidnightExample | tests/test_backwarditerator.py:255-257 | the first result of `00:00` is 2019-12-31 00:00 |
| IteratorExamples.OnTheMinuteGaps | tests/test_backwarditerator.py:228-231 | nothing on the minute lies between 23:59:00 and the start, or between 23:58 and 23:59 |
| IteratorExamples.EveryMinuteHits | tests/test_backwarditerator.py:228-231 | 23:59:00 and then 23:58:00 on 2019-12-31 are the latest matches of `*:*` |
| IteratorExamples.EveryMinuteExample | tests/test_backwarditerator.py:228-231 | the first two results of `*:*` are 23:59:00 and 23:58:00 on 2019-12-31 |
| IteratorExamples.FifthSecondsStep | tests/test_backwarditerator.py:224 | `0/5` holds exactly the multiples of five up to 59 |
| IteratorExamples.FiveSecondsGaps | tests/test_backwarditerator.py:223-226 | no fifth second lies between 23:59:55 and the start, or between :50 and :55 |
| IteratorExamples.FiveSecondsHits | tests/test_backwarditerator.py:223-226 | 23:59:55 and then 23:59:50 are the latest matches of `*:*:0/5` |
| IteratorExamples.FiveSecondsExample | tests/test_backwarditerator.py:223-226 | the first two results of `*:*:0/5` are 23:59:55 and 23:59:50 on 2019-12-31 |
| IteratorExamples.LastDayMatches | tests/test_backwarditerator.py:238-242 | day {-1} matches exactly the month's last day |
| IteratorExamples.LastDayGaps | tests/test_backwarditerator.py:238-242 | no month's last day lies between the expected results |
| IteratorExamples.LastDayHits | tests/test_backwarditerator.py:238-242 | 2019-12-31, 2019-11-30 and 2019-10-31 are the successive latest matches of `*~1` |
| IteratorExamples.LastDayExample | tests/test_backwarditerator.py:238-242 | the first three results of `*~1` are 2019-12-31, 2019-11-30 and 2019-10-31 |
| IteratorExamples.NewYearNotYet | tests/test_backwarditerator.py:250-253 | `2021-01-01` has no match before 2020-01-01 |
| IteratorExamples.NewYearExample | tests/test_backwarditerator.py:250-253 | the first call on `2021-01-01` reports exhaustion |
| IteratorExamples.EightToNineGaps | tests/test_backwarditerator.py:217-221 | nothing matches between 9:00 and the start, or between 8:00 and 9:00 |
| IteratorExamples.EightToNineHits | tests/test_backwarditerator.py:217-221 | 9:00 and then 8:00 on 2019-01-01 are the latest matches, and nothing matches before 8:00 |
| IteratorExamples.EightToNineExample | tests/test_backwarditerator.py:217-221 | the results are 9:00, then 8:00, then exhaustion |
| IteratorExamples.EightToNineDrain | tests/test_backwarditerator.py:217-221 | draining yields exactly [9:00, 8:00] on 2019-01-01 |
| IteratorExamples.LeapDayMatches | tests/test_backwarditerator.py:233-236 | day 29 of February exists exactly in leap years |
| IteratorExamples.MondayLeapDays | tests/test_backwarditerator.py:233-236 | 29 February of 2016 and of 1988 are Mondays |
| IteratorExamples.LeapDaysBetween | tests/test_backwarditerator.py:233-236 | the leap days of 1992 to 2012 are not Mondays |
| IteratorExamples.LeapMondayCandidate | tests/test_backwarditerator.py:233-236 | a match of `Mon 2-29` is midnight of a Monday 29 February of a leap year |
| IteratorExamples.LeapMondayHits | tests/test_backwarditerator.py:233-236 | 2016-02-29 and then 1988-02-29 are the latest matches of `Mon 2-29` |
| IteratorExamples.LeapMondayExample | tests/test_backwarditerator.py:233-236 | the first two results of `Mon 2-29` are 2016-02-29 and 1988-02-29 |
| IteratorExamples.LastWeekMatches | tests/test_backwarditerator.py:244-248 | days -7..-1 match exactly the last seven days of the month |
| IteratorExamples.LateDays2019 | tests/test_backwarditerator.py:244-248 | the weekdays of late October to December 2019 |
| IteratorExamples.LastSundays2019 | tests/test_backwarditerator.py:244-248 | 2019-12-29, 2019-11-24 and 2019-10-27 are Sundays |
| IteratorExamples.LastSundayCandidate | tests/test_backwarditerator.py:244-248 | a match of `Sun *~7/1` is midnight of a Sunday in the last week of its month |
| IteratorExamples.LastSundayHits | tests/test_backwarditerator.py:244-248 | 2019-12-29, 2019-11-24 and 2019-10-27 are the successive latest matches of `Sun *~7/1` |
| IteratorExamples.LastSundayExample | tests/test_backwarditerator.py:244-248 | the first three results of `Sun *~7/1` are 2019-12-29, 2019-11-24 and 2019-10-27 |

## Left out

- Time zones and daylight-saving transitions (tests/test_backwarditerator.py:6, 260-284): these need a time-zone database. The model uses naive wall-clock timestamps.
- Error message text: the model reports error kinds (`WrongNumberOfFields`, `BadField(kind)`), not the messages matched at tests/test_backwarditerator.py:155, 192 and elsewhere.
- The Python iterator protocol: `StopIteration` is `None` from `Next`, and `isoformat` strings are `Timestamp` values.
- Sub-second precision: the start instant and the results are whole seconds.
- Shorthands other than `minutely` (`hourly`, `daily`, ...): none is shown in the test suite.
- The implementation module `oncalendar` and any command line, logging or forward-iterating counterpart are not part of this model. Only their observable behaviour in the test suite is modelled.
- ParseExamples.BadValuesRejected: proves each bad value is rejected per field token (with `BadYearsRejected` for the year position), not each of the 80 expressions built from the patterns at tests/test_backwarditerator.py:163-172.
- Expressions.Parse: its contract states only well-formedness. What each expression shape gives is stated by the component lemmas and the examples.
