/** The backward iterator. A cursor starts at the given instant; each step
    returns the latest timestamp strictly before the cursor that matches the
    specification, and makes it the new cursor, or reports exhaustion when
    no match exists. The search counts the candidate down with carries, one
    field at a time from the year to the second, then checks the weekday of
    the date it arrived at. */
module Backward {
  import opened Outcomes
  import opened Calendar
  import opened Fields
  import opened Expressions
  import opened Timestamps

  // ---------------------------------------------------------------------
  // What a match is

  /** The concrete days of month `m` of year `y` that the stored day values
      select: a positive value names itself when the month is long enough,
      and a negative value -n is the month's length minus n, plus one. */
  function MatchingDays(days: set<int>, y: int, m: int): (r: set<int>)
    requires 1 <= m <= 12
    ensures forall d :: d in r <==>
      (1 <= d <= DaysInMonth(y, m) && (d in days || d - DaysInMonth(y, m) - 1 in days))
  {
    var n := DaysInMonth(y, m);
    set d | d in Interval(1, n) && (d in days || d - n - 1 in days)
  }

  /** A day of the month matches exactly when some stored day value resolves
      to it. */
  lemma MatchingDayResolves(days: set<int>, y: int, m: int, d: int)
    requires 1 <= m <= 12
    ensures d in MatchingDays(days, y, m) <==>
      (1 <= d <= DaysInMonth(y, m) && exists nd :: nd in days && ResolveDay(nd, y, m) == d)
  {
    var n := DaysInMonth(y, m);
    if 1 <= d <= n && d in days {
      assert ResolveDay(d, y, m) == d;
    } else if 1 <= d <= n && d - n - 1 in days {
      assert ResolveDay(d - n - 1, y, m) == d;
    }
  }

  /** `t` is a real instant whose every field lies in the specification's
      set for it, with the day resolved against the month's length, and
      whose date falls on one of the specification's weekdays. */
  predicate Matches(spec: Spec, t: Timestamp) {
    && ValidTimestamp(t)
    && t.year in spec.years
    && t.month in spec.months
    && t.day in MatchingDays(spec.days, t.year, t.month)
    && t.hour in spec.hours
    && t.minute in spec.minutes
    && t.second in spec.seconds
    && Weekday(t.year, t.month, t.day) in spec.weekdays
  }

  /** No match lies in the closed interval from `lo` to `hi`. */
  ghost predicate NoMatchIn(spec: Spec, lo: Timestamp, hi: Timestamp) {
    forall t :: ValidTimestamp(t) && !Before(t, lo) && !Before(hi, t) ==> !Matches(spec, t)
  }

  /** No match lies strictly between `lo` and `hi`. */
  ghost predicate NoMatchBetween(spec: Spec, lo: Timestamp, hi: Timestamp) {
    forall t :: ValidTimestamp(t) && Before(lo, t) && Before(t, hi) ==> !Matches(spec, t)
  }

  /** No match lies strictly before `bound`. */
  ghost predicate NoMatchBefore(spec: Spec, bound: Timestamp) {
    forall t :: ValidTimestamp(t) && Before(t, bound) ==> !Matches(spec, t)
  }

  /** `t` is the latest match strictly before `bound`. */
  ghost predicate IsPrevMatch(spec: Spec, bound: Timestamp, t: Timestamp) {
    Matches(spec, t) && Before(t, bound) && NoMatchBetween(spec, t, bound)
  }

  /** There is at most one latest match before a bound. */
  lemma PrevMatchUnique(spec: Spec, bound: Timestamp, t: Timestamp, u: Timestamp)
    requires IsPrevMatch(spec, bound, t) && IsPrevMatch(spec, bound, u)
    ensures t == u
  {
    BeforeIsStrictTotalOrder(t, u, bound);
  }

  /** Every match has a year of the domain, so none lies before 1970. */
  lemma MatchesFrom1970(spec: Spec, t: Timestamp)
    requires WellFormed(spec) && Matches(spec, t)
    ensures t.year >= 1970
  {
    assert t.year in spec.years;
  }

  // ---------------------------------------------------------------------
  // The search

  /** The greatest member of `s` that is at most `x`, or `lo - 1` when no
      member of `s` lies between `lo` and `x`. */
  method GreatestAtMost(s: set<int>, x: int, lo: int) returns (r: int)
    requires lo - 1 <= x
    ensures lo - 1 <= r <= x
    ensures r >= lo ==> r in s
    ensures forall v :: r < v <= x ==> v !in s
  {
    r := x;
    while r >= lo && r !in s
      invariant lo - 1 <= r <= x
      invariant forall v :: r < v <= x ==> v !in s
      decreases r - lo
    {
      r := r - 1;
    }
  }

  /** The search may start one second before the bound: nothing lies in
      between. */
  lemma StartBelow(spec: Spec, bound: Timestamp)
    requires ValidTimestamp(bound)
    ensures Before(PrevSecond(bound), bound)
    ensures NoMatchBetween(spec, PrevSecond(bound), bound)
  {
    forall t | ValidTimestamp(t) && Before(PrevSecond(bound), t)
      ensures !Before(t, bound)
    {
      PrevSecondIsPredecessor(bound, t);
    }
    PrevSecondIsPredecessor(bound, bound);
  }

  /** Having found no match from `x` up to the candidate `c`, the search
      continues one second before `x` and still has seen every match below
      the bound. */
  lemma Advance(spec: Spec, x: Timestamp, c: Timestamp, bound: Timestamp)
    requires ValidTimestamp(x) && ValidTimestamp(c) && !Before(c, x) && Before(c, bound)
    requires NoMatchIn(spec, x, c) && NoMatchBetween(spec, c, bound)
    ensures Before(PrevSecond(x), c) && Before(PrevSecond(x), bound)
    ensures NoMatchBetween(spec, PrevSecond(x), bound)
  {
    var p := PrevSecond(x);
    PrevSecondIsPredecessor(x, c);
    BeforeIsStrictTotalOrder(p, c, bound);
    forall t | ValidTimestamp(t) && Before(p, t) && Before(t, bound)
      ensures !Matches(spec, t)
    {
      PrevSecondIsPredecessor(x, t);
      BeforeIsStrictTotalOrder(c, t, bound);
    }
  }

  /** A year outside the set, and every year down to the next one inside it,
      holds no match. */
  lemma SkipYears(spec: Spec, c: Timestamp, v: int)
    requires ValidTimestamp(c) && v < c.year
    requires forall u :: v < u <= c.year ==> u !in spec.years
    ensures NoMatchIn(spec, Timestamp(v + 1, 1, 1, 0, 0, 0), c)
  {
    var x := Timestamp(v + 1, 1, 1, 0, 0, 0);
    forall t | ValidTimestamp(t) && !Before(t, x) && !Before(c, t)
      ensures t.year !in spec.years
    {
      assert v < t.year <= c.year;
    }
  }

  lemma SkipMonths(spec: Spec, c: Timestamp, v: int)
    requires ValidTimestamp(c) && 0 <= v < c.month
    requires forall u :: v < u <= c.month ==> u !in spec.months
    ensures NoMatchIn(spec, Timestamp(c.year, v + 1, 1, 0, 0, 0), c)
  {
    var x := Timestamp(c.year, v + 1, 1, 0, 0, 0);
    forall t | ValidTimestamp(t) && !Before(t, x) && !Before(c, t)
      ensures t.month !in spec.months
    {
      assert v < t.month <= c.month;
    }
  }

  lemma SkipDays(spec: Spec, c: Timestamp, v: int)
    requires ValidTimestamp(c) && 0 <= v < c.day
    requires forall u :: v < u <= c.day ==> u !in MatchingDays(spec.days, c.year, c.month)
    ensures NoMatchIn(spec, Timestamp(c.year, c.month, v + 1, 0, 0, 0), c)
  {
    var x := Timestamp(c.year, c.month, v + 1, 0, 0, 0);
    forall t | ValidTimestamp(t) && !Before(t, x) && !Before(c, t)
      ensures t.day !in MatchingDays(spec.days, t.year, t.month)
    {
      assert t.year == c.year && t.month == c.month && v < t.day <= c.day;
    }
  }

  lemma SkipHours(spec: Spec, c: Timestamp, v: int)
    requires ValidTimestamp(c) && -1 <= v < c.hour
    requires forall u :: v < u <= c.hour ==> u !in spec.hours
    ensures NoMatchIn(spec, Timestamp(c.year, c.month, c.day, v + 1, 0, 0), c)
  {
    var x := Timestamp(c.year, c.month, c.day, v + 1, 0, 0);
    forall t | ValidTimestamp(t) && !Before(t, x) && !Before(c, t)
      ensures t.hour !in spec.hours
    {
      assert v < t.hour <= c.hour;
    }
  }

  lemma SkipMinutes(spec: Spec, c: Timestamp, v: int)
    requires ValidTimestamp(c) && -1 <= v < c.minute
    requires forall u :: v < u <= c.minute ==> u !in spec.minutes
    ensures NoMatchIn(spec, Timestamp(c.year, c.month, c.day, c.hour, v + 1, 0), c)
  {
    var x := Timestamp(c.year, c.month, c.day, c.hour, v + 1, 0);
    forall t | ValidTimestamp(t) && !Before(t, x) && !Before(c, t)
      ensures t.minute !in spec.minutes
    {
      assert v < t.minute <= c.minute;
    }
  }

  lemma SkipSeconds(spec: Spec, c: Timestamp, v: int)
    requires ValidTimestamp(c) && -1 <= v < c.second
    requires forall u :: v < u <= c.second ==> u !in spec.seconds
    ensures NoMatchIn(spec, Timestamp(c.year, c.month, c.day, c.hour, c.minute, v + 1), c)
  {
    var x := Timestamp(c.year, c.month, c.day, c.hour, c.minute, v + 1);
    forall t | ValidTimestamp(t) && !Before(t, x) && !Before(c, t)
      ensures t.second !in spec.seconds
    {
      assert v < t.second <= c.second;
    }
  }

  /** A date on the wrong weekday holds no match at any time of that day. */
  lemma SkipDate(spec: Spec, c: Timestamp)
    requires ValidTimestamp(c) && Weekday(c.year, c.month, c.day) !in spec.weekdays
    ensures NoMatchIn(spec, Timestamp(c.year, c.month, c.day, 0, 0, 0), c)
  {
    var x := Timestamp(c.year, c.month, c.day, 0, 0, 0);
    forall t | ValidTimestamp(t) && !Before(t, x) && !Before(c, t)
      ensures Weekday(t.year, t.month, t.day) !in spec.weekdays
    {
      assert t.year == c.year && t.month == c.month && t.day == c.day;
    }
  }

  /** When the candidate has fallen below 1970, there is no match below the
      bound at all. */
  lemma Exhausted(spec: Spec, c: Timestamp, bound: Timestamp)
    requires WellFormed(spec) && c.year < 1970 && NoMatchBetween(spec, c, bound)
    ensures NoMatchBefore(spec, bound)
  {
    forall t | ValidTimestamp(t) && Before(t, bound) && Matches(spec, t)
      ensures false
    {
      MatchesFrom1970(spec, t);
      assert Before(c, t);
    }
  }

  /** One step of the search at candidate `c`: either `c` matches, or `x`
      is the start of a block ending at `c` that holds no match. The first
      field of `c` (from the year down to the second) that is not in its set
      is lowered to the greatest member at or below it, the smaller fields
      going to the start of their range, so that the second before `x` has
      that member and the smaller fields at the end of their range; when
      there is no such member the field goes to the start of its range and
      the second before `x` borrows from the next larger field. A candidate
      on the wrong weekday gives the start of its day. */
  method Step(spec: Spec, c: Timestamp) returns (found: bool, x: Timestamp)
    requires ValidTimestamp(c) && c.year >= 1970
    ensures found <==> Matches(spec, c)
    ensures !found ==> ValidTimestamp(x) && !Before(c, x) && NoMatchIn(spec, x, c)
  {
    found, x := false, c;
    if c.year !in spec.years {
      var v := GreatestAtMost(spec.years, c.year, 1970);
      x := Timestamp(v + 1, 1, 1, 0, 0, 0);
      SkipYears(spec, c, v);
    } else if c.month !in spec.months {
      var v := GreatestAtMost(spec.months, c.month, 1);
      x := Timestamp(c.year, v + 1, 1, 0, 0, 0);
      SkipMonths(spec, c, v);
    } else if c.day !in MatchingDays(spec.days, c.year, c.month) {
      var v := GreatestAtMost(MatchingDays(spec.days, c.year, c.month), c.day, 1);
      x := Timestamp(c.year, c.month, v + 1, 0, 0, 0);
      SkipDays(spec, c, v);
    } else if c.hour !in spec.hours {
      var v := GreatestAtMost(spec.hours, c.hour, 0);
      x := Timestamp(c.year, c.month, c.day, v + 1, 0, 0);
      SkipHours(spec, c, v);
    } else if c.minute !in spec.minutes {
      var v := GreatestAtMost(spec.minutes, c.minute, 0);
      x := Timestamp(c.year, c.month, c.day, c.hour, v + 1, 0);
      SkipMinutes(spec, c, v);
    } else if c.second !in spec.seconds {
      var v := GreatestAtMost(spec.seconds, c.second, 0);
      x := Timestamp(c.year, c.month, c.day, c.hour, c.minute, v + 1);
      SkipSeconds(spec, c, v);
    } else if Weekday(c.year, c.month, c.day) !in spec.weekdays {
      x := Timestamp(c.year, c.month, c.day, 0, 0, 0);
      SkipDate(spec, c);
    } else {
      found := true;
    }
  }

  /** The latest match strictly before `bound`, or None when there is none:
      the decrement-with-carry search, which starts one second before the
      bound and moves the candidate down block by block until it matches or
      falls below 1970. */
  method FindBefore(spec: Spec, bound: Timestamp) returns (r: Option<Timestamp>)
    requires WellFormed(spec) && ValidTimestamp(bound)
    ensures r.Some? ==> IsPrevMatch(spec, bound, r.value)
    ensures r.None? ==> NoMatchBefore(spec, bound)
  {
    StartBelow(spec, bound);
    var c := PrevSecond(bound);
    while c.year >= 1970
      invariant ValidTimestamp(c) && Before(c, bound) && NoMatchBetween(spec, c, bound)
      decreases c.year - 1969, c.month, c.day, c.hour, c.minute, c.second
    {
      var found, x := Step(spec, c);
      if found {
        return Some(c);
      }
      Advance(spec, x, c, bound);
      c := PrevSecond(x);
    }
    Exhausted(spec, c, bound);
    return None;
  }

  // ---------------------------------------------------------------------
  // The iterator

  /** A specification and a cursor that moves back through its matches. */
  class BackwardIterator {
    const spec: Spec
    var cursor: Timestamp

    ghost predicate Valid()
      reads this
    {
      WellFormed(spec) && ValidTimestamp(cursor)
    }

    /** An iterator over the matches before `start`. */
    constructor (spec: Spec, start: Timestamp)
      requires WellFormed(spec) && ValidTimestamp(start)
      ensures Valid() && this.spec == spec && cursor == start
    {
      this.spec := spec;
      cursor := start;
    }

    /** The latest match strictly before the cursor, which becomes the new
        cursor; None when there is none, and then the cursor stays, so every
        later call gives None as well. */
    method Next() returns (r: Option<Timestamp>)
      requires Valid()
      modifies this
      ensures Valid()
      ensures r.Some? ==> Before(r.value, old(cursor)) && Matches(spec, r.value)
      ensures r.Some? ==> NoMatchBetween(spec, r.value, old(cursor)) && cursor == r.value
      ensures r.None? ==> NoMatchBefore(spec, old(cursor)) && cursor == old(cursor)
    {
      r := FindBefore(spec, cursor);
      if r.Some? {
        cursor := r.value;
      }
    }
  }

  /** An iterator for an expression, or the error that rejects it. */
  method Open(expression: string, start: Timestamp) returns (r: Result<BackwardIterator, Error>)
    requires ValidTimestamp(start)
    ensures r.Ok? <==> Parse(expression).Ok?
    ensures r.Err? ==> r.error == Parse(expression).error
    ensures r.Ok? ==> fresh(r.value) && r.value.Valid()
    ensures r.Ok? ==> r.value.spec == Parse(expression).value && r.value.cursor == start
  {
    match Parse(expression)
    case Err(e) =>
      r := Err(e);
    case Ok(spec) =>
      var it := new BackwardIterator(spec, start);
      r := Ok(it);
  }

  /** Each element of `hits` is the latest match before the one preceding
      it, the first the latest match before `start`. */
  ghost predicate IsMatchChain(spec: Spec, start: Timestamp, hits: seq<Timestamp>)
    decreases |hits|
  {
    hits == [] || (IsPrevMatch(spec, start, hits[0]) && IsMatchChain(spec, hits[0], hits[1..]))
  }

  /** The last element of a chain, or its start when it is empty. */
  function LastOf(start: Timestamp, hits: seq<Timestamp>): Timestamp {
    if hits == [] then start else hits[|hits| - 1]
  }

  /** All the matches before the iterator's cursor, latest first: the
      iterator drained to exhaustion. */
  method Drain(it: BackwardIterator) returns (hits: seq<Timestamp>)
    requires it.Valid()
    modifies it
    ensures it.Valid()
    ensures IsMatchChain(it.spec, old(it.cursor), hits)
    ensures NoMatchBefore(it.spec, LastOf(old(it.cursor), hits))
  {
    hits := [];
    var r := it.Next();
    while r.Some?
      invariant it.Valid()
      invariant IsMatchChain(it.spec, old(it.cursor), hits)
      invariant r.Some? ==> IsPrevMatch(it.spec, LastOf(old(it.cursor), hits), r.value) && it.cursor == r.value
      invariant r.None? ==> NoMatchBefore(it.spec, LastOf(old(it.cursor), hits))
      decreases if r.Some? then it.cursor.year - 1969 else 0,
        it.cursor.month, it.cursor.day, it.cursor.hour, it.cursor.minute, it.cursor.second
    {
      MatchesFrom1970(it.spec, r.value);
      ChainExtend(it.spec, old(it.cursor), hits, r.value);
      hits := hits + [r.value];
      r := it.Next();
    }
  }

  /** A chain grows by the latest match before its last element. */
  lemma {:induction false} ChainExtend(spec: Spec, start: Timestamp, hits: seq<Timestamp>, t: Timestamp)
    requires IsMatchChain(spec, start, hits) && IsPrevMatch(spec, LastOf(start, hits), t)
    ensures IsMatchChain(spec, start, hits + [t])
    decreases |hits|
  {
    if hits != [] {
      assert (hits + [t])[1..] == hits[1..] + [t];
      assert LastOf(hits[0], hits[1..]) == LastOf(start, hits);
      ChainExtend(spec, hits[0], hits[1..], t);
    }
  }

  /** A drained chain holds every match before its start and nothing else:
      no match is skipped. */
  lemma {:induction false} ChainHoldsEveryMatch(spec: Spec, start: Timestamp, hits: seq<Timestamp>, t: Timestamp)
    requires IsMatchChain(spec, start, hits) && NoMatchBefore(spec, LastOf(start, hits))
    ensures (Matches(spec, t) && Before(t, start)) <==> t in hits
    decreases |hits|
  {
    if hits != [] {
      var h, rest := hits[0], hits[1..];
      assert LastOf(h, rest) == LastOf(start, hits);
      ChainHoldsEveryMatch(spec, h, rest, t);
      BeforeIsStrictTotalOrder(t, h, start);
      assert hits == [h] + rest;
    }
  }

  /** A chain is strictly decreasing and starts below its start, so no
      timestamp is produced twice. */
  lemma {:induction false} ChainDescends(spec: Spec, start: Timestamp, hits: seq<Timestamp>)
    requires IsMatchChain(spec, start, hits)
    ensures forall i :: 0 <= i < |hits| ==> Before(hits[i], start)
    ensures forall i, j :: 0 <= i < j < |hits| ==> Before(hits[j], hits[i])
    decreases |hits|
  {
    if hits != [] {
      var h, rest := hits[0], hits[1..];
      ChainDescends(spec, h, rest);
      forall i | 0 <= i < |hits|
        ensures Before(hits[i], start)
      {
        if i > 0 {
          assert hits[i] == rest[i - 1];
          BeforeIsStrictTotalOrder(hits[i], h, start);
        }
      }
      forall i, j | 0 <= i < j < |hits|
        ensures Before(hits[j], hits[i])
      {
        assert hits[j] == rest[j - 1];
        if i > 0 {
          assert hits[i] == rest[i - 1];
        }
      }
    }
  }

  /** A drained chain is determined by the specification and the start:
      two chains that both end with no match below their last element are
      the same sequence. */
  lemma {:induction false} ChainUnique(spec: Spec, start: Timestamp, a: seq<Timestamp>, b: seq<Timestamp>)
    requires IsMatchChain(spec, start, a) && NoMatchBefore(spec, LastOf(start, a))
    requires IsMatchChain(spec, start, b) && NoMatchBefore(spec, LastOf(start, b))
    ensures a == b
    decreases |a|
  {
    if a != [] && b != [] {
      PrevMatchUnique(spec, start, a[0], b[0]);
      assert LastOf(a[0], a[1..]) == LastOf(start, a);
      assert LastOf(b[0], b[1..]) == LastOf(start, b);
      ChainUnique(spec, a[0], a[1..], b[1..]);
      assert a == [a[0]] + a[1..] && b == [b[0]] + b[1..];
    }
  }
}
