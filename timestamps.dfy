/** Naive wall-clock timestamps at one-second resolution, their order (the
    lexicographic order of year, month, day, hour, minute, second) and the
    decrement-with-carry step that moves one second back. */
module Timestamps {
  import opened Calendar

  datatype Timestamp = Timestamp(year: int, month: int, day: int, hour: int, minute: int, second: int)

  /** A real instant of the calendar. */
  predicate ValidTimestamp(t: Timestamp) {
    && ValidDate(t.year, t.month, t.day)
    && 0 <= t.hour <= 23
    && 0 <= t.minute <= 59
    && 0 <= t.second <= 59
  }

  /** `a` is strictly earlier than `b`. */
  predicate Before(a: Timestamp, b: Timestamp) {
    || a.year < b.year
    || (a.year == b.year && a.month < b.month)
    || (a.year == b.year && a.month == b.month && a.day < b.day)
    || (a.year == b.year && a.month == b.month && a.day == b.day && a.hour < b.hour)
    || (a.year == b.year && a.month == b.month && a.day == b.day && a.hour == b.hour && a.minute < b.minute)
    || (a.year == b.year && a.month == b.month && a.day == b.day && a.hour == b.hour && a.minute == b.minute &&
        a.second < b.second)
  }

  /** The order is a strict total order. */
  lemma BeforeIsStrictTotalOrder(a: Timestamp, b: Timestamp, c: Timestamp)
    ensures !Before(a, a)
    ensures Before(a, b) && Before(b, c) ==> Before(a, c)
    ensures a == b || Before(a, b) || Before(b, a)
    ensures !(Before(a, b) && Before(b, a))
  {
  }

  /** The timestamp one second earlier: the second is decremented, and a
      field that would drop below its least value borrows from the next
      larger field and restarts at its greatest value (the last day of the
      previous month, 23:59:59 of the previous day, ...). */
  function PrevSecond(t: Timestamp): (p: Timestamp)
    requires ValidTimestamp(t)
    ensures ValidTimestamp(p)
  {
    if t.second > 0 then t.(second := t.second - 1)
    else if t.minute > 0 then t.(minute := t.minute - 1, second := 59)
    else if t.hour > 0 then t.(hour := t.hour - 1, minute := 59, second := 59)
    else if t.day > 1 then t.(day := t.day - 1, hour := 23, minute := 59, second := 59)
    else if t.month > 1 then Timestamp(t.year, t.month - 1, DaysInMonth(t.year, t.month - 1), 23, 59, 59)
    else Timestamp(t.year - 1, 12, 31, 23, 59, 59)
  }

  /** PrevSecond(t) is the immediate predecessor of t: it is earlier than t,
      and a valid timestamp is later than it exactly when it is not earlier
      than t. So no valid timestamp lies strictly between the two. */
  lemma PrevSecondIsPredecessor(t: Timestamp, u: Timestamp)
    requires ValidTimestamp(t) && ValidTimestamp(u)
    ensures Before(PrevSecond(t), t)
    ensures Before(PrevSecond(t), u) <==> !Before(u, t)
  {
    if t.second == 0 && t.minute == 0 && t.hour == 0 && t.day == 1 && t.month > 1 {
      var p := PrevSecond(t);
      if u.year == t.year && u.month == t.month - 1 {
        assert u.day <= p.day;
      }
    }
  }
}
