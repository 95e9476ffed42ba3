/** The field parser: one field token of a calendar expression (the weekday,
    year, month, day-of-month, hour, minute or second part) becomes a bounded
    set of integers, or the error "bad <field>".

    A token is `*` (the whole domain of the field) or a comma-separated list of
    items, each of which is a value `a`, a range `a..b`, a start with a step
    `a/n` (a, a+n, a+2n, ... up to the top of the domain) or a range with a
    step `a..b/n`. Weekday values are day names, never numbers, and take no
    step; they may also form a range with a dash (`Mon-Tue`). A day-of-month
    token may count from the end of the month, in which case its magnitudes
    lie in 1..28, a start with a step counts down towards 1, and the values
    are stored negated (-1 is the last day of the month). */
module Fields {
  import opened Outcomes
  import opened Text

  datatype FieldKind = DayOfWeek | Year | Month | DayOfMonth | Hour | Minute | Second

  /** The errors construction can report: an expression with the wrong number
      of components, or a bad value in one field. */
  datatype Error = WrongNumberOfFields | BadField(kind: FieldKind)

  type Parsed<T> = Result<T, Error>

  /** The least value of each field (Monday is weekday 0). */
  function Lo(k: FieldKind): int {
    match k
    case DayOfWeek => 0
    case Year => 1970
    case Month => 1
    case DayOfMonth => 1
    case Hour => 0
    case Minute => 0
    case Second => 0
  }

  /** The greatest value of each field. */
  function Hi(k: FieldKind): int {
    match k
    case DayOfWeek => 6
    case Year => 2199
    case Month => 12
    case DayOfMonth => 31
    case Hour => 23
    case Minute => 59
    case Second => 59
  }

  /** The largest number of days that can be counted back from the end of a
      month: every month has at least 28 days. */
  const MaxFromEnd := 28

  /** The top of the magnitudes a field accepts; `fromEnd` is the
      count-from-end mode of the day-of-month field. */
  function Top(k: FieldKind, fromEnd: bool): int {
    if fromEnd then MaxFromEnd else Hi(k)
  }

  /** What a parsed field may hold: the field's domain, or -28..-1 for days
      counted from the end of the month. */
  predicate InDomain(k: FieldKind, fromEnd: bool, v: int) {
    if fromEnd then -MaxFromEnd <= v <= -1 else Lo(k) <= v <= Hi(k)
  }

  // ---------------------------------------------------------------------
  // The integer sets the item forms stand for

  /** a, a+1, ..., b. */
  function Interval(a: int, b: int): (r: set<int>)
    ensures forall v :: v in r <==> a <= v <= b
    ensures a <= b ==> a in r
  {
    var s := seq(if a > b then 0 else b - a + 1, j => a + j);
    IntervalSeq(a, b, s);
    set v | v in s
  }

  /** The sequence a, a+1, ..., b holds exactly the values from a to b. */
  lemma IntervalSeq(a: int, b: int, s: seq<int>)
    requires |s| == (if a > b then 0 else b - a + 1)
    requires forall j :: 0 <= j < |s| ==> s[j] == a + j
    ensures forall v :: v in s <==> a <= v <= b
  {
    forall v | a <= v <= b
      ensures v in s
    {
      assert s[v - a] == v;
    }
  }

  /** a, a+n, a+2n, ... while the value does not exceed `hi`. */
  function StepUp(a: int, n: nat, hi: int): (r: set<int>)
    requires n > 0
    ensures a <= hi ==> a in r
    ensures forall v :: v in r ==> a <= v <= hi
    decreases hi - a
  {
    if a > hi then {} else {a} + StepUp(a + n, n, hi)
  }

  /** a, a-n, a-2n, ... while the value is not below `lo`. */
  function StepDown(a: int, n: nat, lo: int): (r: set<int>)
    requires n > 0
    ensures lo <= a ==> a in r
    ensures forall v :: v in r ==> lo <= v <= a
    decreases a - lo
  {
    if a < lo then {} else {a} + StepDown(a - n, n, lo)
  }

  lemma ModShift(x: int, n: int)
    requires n > 0
    ensures (x + n) % n == x % n
  {
    var q, r := x / n, x % n;
    assert x == q * n + r;
    assert x + n == (q + 1) * n + r;
    DivUnique(x + n, n, q + 1, r);
  }

  lemma PositiveMultiple(x: int, n: int)
    requires n > 0 && x > 0 && x % n == 0
    ensures x >= n
  {
    var q := x / n;
    assert x == q * n;
  }

  /** The step form is an arithmetic progression: exactly the values from
      `a` to `hi` that are a whole number of steps above `a`. */
  lemma {:induction false} StepUpMembers(a: int, n: nat, hi: int, v: int)
    requires n > 0
    ensures v in StepUp(a, n, hi) <==> a <= v <= hi && (v - a) % n == 0
    decreases hi - a
  {
    if a <= hi {
      StepUpMembers(a + n, n, hi, v);
      ModShift(v - a - n, n);
      if v > a && (v - a) % n == 0 {
        PositiveMultiple(v - a, n);
      }
    }
  }

  /** The count-down form: exactly the values from `lo` to `a` that are a
      whole number of steps below `a`. */
  lemma {:induction false} StepDownMembers(a: int, n: nat, lo: int, v: int)
    requires n > 0
    ensures v in StepDown(a, n, lo) <==> lo <= v <= a && (a - v) % n == 0
    decreases a - lo
  {
    if lo <= a {
      StepDownMembers(a - n, n, lo, v);
      ModShift(a - n - v, n);
      if v < a && (a - v) % n == 0 {
        PositiveMultiple(a - v, n);
      }
    }
  }

  function Negated(s: set<int>): (r: set<int>)
    ensures forall v :: v in r <==> -v in s
  {
    var r := set v | v in s :: -v;
    forall v | -v in s
      ensures v in r
    {
      assert v == -(-v);
    }
    r
  }

  // ---------------------------------------------------------------------
  // Values

  const DayAbbreviations: seq<string> := ["MON", "TUE", "WED", "THU", "FRI", "SAT", "SUN"]
  const DayNames: seq<string> := ["MONDAY", "TUESDAY", "WEDNESDAY", "THURSDAY", "FRIDAY", "SATURDAY", "SUNDAY"]

  function IndexIn(names: seq<string>, s: string): (r: Option<nat>)
    ensures r.Some? ==> r.value < |names| && names[r.value] == s
    ensures r.None? ==> s !in names
  {
    if names == [] then None
    else if names[0] == s then Some(0)
    else match IndexIn(names[1..], s)
      case None => None
      case Some(i) => Some(i + 1)
  }

  /** The weekday a name stands for, Monday = 0: a three-letter abbreviation
      or the full name, in any mix of upper and lower case. */
  function WeekdayNumber(name: string): (r: Option<int>)
    ensures r.Some? ==> (0 <= r.value <= 6 &&
      (Upper(name) == DayAbbreviations[r.value] || Upper(name) == DayNames[r.value]))
    ensures r.None? ==> Upper(name) !in DayAbbreviations && Upper(name) !in DayNames
  {
    var u := Upper(name);
    match IndexIn(DayAbbreviations, u)
    case Some(i) => Some(i)
    case None =>
      match IndexIn(DayNames, u)
      case Some(i) => Some(i)
      case None => None
  }

  /** One value of field `k`: a day name for the weekday field, a number
      literal within the field's bounds for every other field. */
  function ParseValue(k: FieldKind, s: string, fromEnd: bool): (r: Parsed<int>)
    ensures r.Ok? ==> Lo(k) <= r.value <= Top(k, fromEnd)
    ensures r.Err? ==> r.error == BadField(k)
    ensures k == DayOfWeek ==> (r.Ok? <==> WeekdayNumber(s).Some?)
    ensures k != DayOfWeek ==>
      (r.Ok? <==> ParseNumber(s).Some? && Lo(k) <= ParseNumber(s).value <= Top(k, fromEnd))
    ensures k != DayOfWeek && r.Ok? ==> r.value == ParseNumber(s).value
  {
    if k == DayOfWeek then
      match WeekdayNumber(s)
      case Some(d) => if d <= Top(k, fromEnd) then Ok(d) else Err(BadField(k))
      case None => Err(BadField(k))
    else
      match ParseNumber(s)
      case Some(v) => if Lo(k) <= v <= Top(k, fromEnd) then Ok(v) else Err(BadField(k))
      case None => Err(BadField(k))
  }

  /** The bounds of a range `a..b`; a range whose start exceeds its end is
      rejected. */
  function ParseBounds(k: FieldKind, a: string, b: string, fromEnd: bool): (r: Parsed<(int, int)>)
    ensures r.Ok? ==> Lo(k) <= r.value.0 <= r.value.1 <= Top(k, fromEnd)
    ensures r.Err? ==> r.error == BadField(k)
    ensures r.Ok? <==> (ParseValue(k, a, fromEnd).Ok? && ParseValue(k, b, fromEnd).Ok? &&
      ParseValue(k, a, fromEnd).value <= ParseValue(k, b, fromEnd).value)
    ensures r.Ok? ==> r.value == (ParseValue(k, a, fromEnd).value, ParseValue(k, b, fromEnd).value)
  {
    var lo :- ParseValue(k, a, fromEnd);
    var hi :- ParseValue(k, b, fromEnd);
    if lo <= hi then Ok((lo, hi)) else Err(BadField(k))
  }

  /** The position of the first ".." in `s`. */
  function FindDots(s: string): (r: Option<nat>)
    ensures r.Some? ==> r.value + 1 < |s| && s[r.value] == '.' && s[r.value + 1] == '.'
    ensures r.Some? ==> forall j :: 0 <= j < r.value ==> !(s[j] == '.' && s[j + 1] == '.')
    ensures r.None? ==> forall j :: 0 <= j < |s| - 1 ==> !(s[j] == '.' && s[j + 1] == '.')
  {
    if |s| < 2 then None
    else if s[0] == '.' && s[1] == '.' then Some(0)
    else match FindDots(s[1..])
      case None => None
      case Some(j) => Some(j + 1)
  }

  /** An item with a step, `term/stepText`: the step is a positive number
      literal; the term is a range `a..b` (a, a+n, ... up to b) or a start
      `a` (a, a+n, ... up to the top of the domain, or a, a-n, ... down to 1
      when counting from the end of the month). The weekday field takes no
      step. */
  function ParseStepItem(k: FieldKind, term: string, stepText: string, fromEnd: bool): (r: Parsed<set<int>>)
    requires fromEnd ==> k == DayOfMonth
    ensures r.Ok? ==> r.value != {} && forall v :: v in r.value ==> Lo(k) <= v <= Top(k, fromEnd)
    ensures r.Err? ==> r.error == BadField(k)
  {
    if k == DayOfWeek then Err(BadField(k))
    else
      match ParseNumber(stepText)
      case None => Err(BadField(k))
      case Some(step) =>
        if step == 0 then Err(BadField(k))
        else
          match FindDots(term)
          case Some(j) =>
            var b :- ParseBounds(k, term[..j], term[j + 2..], fromEnd);
            Ok(StepUp(b.0, step, b.1))
          case None =>
            var start :- ParseValue(k, term, fromEnd);
            Ok(if fromEnd then StepDown(start, step, 1) else StepUp(start, step, Hi(k)))
  }

  /** An item without a step: a range `a..b`, a weekday range `a-b`, or a
      single value. */
  function ParsePlainItem(k: FieldKind, item: string, fromEnd: bool): (r: Parsed<set<int>>)
    ensures r.Ok? ==> r.value != {} && forall v :: v in r.value ==> Lo(k) <= v <= Top(k, fromEnd)
    ensures r.Err? ==> r.error == BadField(k)
  {
    match FindDots(item)
    case Some(j) =>
      var b :- ParseBounds(k, item[..j], item[j + 2..], fromEnd);
      Ok(Interval(b.0, b.1))
    case None =>
      if k == DayOfWeek && '-' in item then
        var j := IndexOf(item, '-');
        var b :- ParseBounds(k, item[..j], item[j + 1..], fromEnd);
        Ok(Interval(b.0, b.1))
      else
        var v :- ParseValue(k, item, fromEnd);
        Ok({v})
  }

  /** One list item, as magnitudes (not yet negated in count-from-end mode). */
  function ParseItem(k: FieldKind, item: string, fromEnd: bool): (r: Parsed<set<int>>)
    requires fromEnd ==> k == DayOfMonth
    ensures r.Ok? ==> r.value != {} && forall v :: v in r.value ==> Lo(k) <= v <= Top(k, fromEnd)
    ensures r.Err? ==> r.error == BadField(k)
  {
    if '/' in item then
      var i := IndexOf(item, '/');
      ParseStepItem(k, item[..i], item[i + 1..], fromEnd)
    else
      ParsePlainItem(k, item, fromEnd)
  }

  /** The union of the sets the items stand for; the first bad item fails
      the whole list. */
  function ParseItems(k: FieldKind, items: seq<string>, fromEnd: bool): (r: Parsed<set<int>>)
    requires fromEnd ==> k == DayOfMonth
    ensures r.Ok? ==> ((items != [] ==> r.value != {}) &&
      forall v :: v in r.value ==> Lo(k) <= v <= Top(k, fromEnd))
    ensures r.Err? ==> r.error == BadField(k)
  {
    if items == [] then Ok({})
    else
      var first :- ParseItem(k, items[0], fromEnd);
      var rest :- ParseItems(k, items[1..], fromEnd);
      Ok(first + rest)
  }

  /** The magnitudes a whole field token stands for. */
  function ParseMagnitudes(k: FieldKind, token: string, fromEnd: bool): (r: Parsed<set<int>>)
    requires fromEnd ==> k == DayOfMonth
    ensures r.Ok? ==> r.value != {} && forall v :: v in r.value ==> Lo(k) <= v <= Top(k, fromEnd)
    ensures r.Err? ==> r.error == BadField(k)
  {
    if token == "*" then
      if k == DayOfWeek then Err(BadField(k))
      else
        assert Lo(k) in Interval(Lo(k), Top(k, fromEnd));
        Ok(Interval(Lo(k), Top(k, fromEnd)))
    else ParseItems(k, Split(token, ','), fromEnd)
  }

  /** A whole field token: `*` for the whole domain (never for the weekday
      field) or a comma-separated list of items; days counted from the end
      of the month come out negated. */
  function ParseField(k: FieldKind, token: string, fromEnd: bool): (r: Parsed<set<int>>)
    requires fromEnd ==> k == DayOfMonth
    ensures r.Ok? ==> r.value != {} && forall v :: v in r.value ==> InDomain(k, fromEnd, v)
    ensures r.Err? ==> r.error == BadField(k)
  {
    var m :- ParseMagnitudes(k, token, fromEnd);
    var w :| w in m;
    var r := if fromEnd then Negated(m) else m;
    assert (if fromEnd then -w else w) in r;
    Ok(r)
  }

  // ---------------------------------------------------------------------
  // Properties of the field grammar

  /** Lists union: the items of `xs` followed by those of `ys` stand for the
      union of what each part stands for, and a bad item on either side fails
      the whole list. */
  lemma {:induction false} ItemsAppend(k: FieldKind, xs: seq<string>, ys: seq<string>, fromEnd: bool)
    requires fromEnd ==> k == DayOfMonth
    ensures ParseItems(k, xs, fromEnd).Ok? && ParseItems(k, ys, fromEnd).Ok? ==>
      ParseItems(k, xs + ys, fromEnd) ==
        Ok(ParseItems(k, xs, fromEnd).value + ParseItems(k, ys, fromEnd).value)
    ensures ParseItems(k, xs, fromEnd).Err? || ParseItems(k, ys, fromEnd).Err? ==>
      ParseItems(k, xs + ys, fromEnd).Err?
  {
    if xs == [] {
      assert xs + ys == ys;
      if ParseItems(k, ys, fromEnd).Ok? {
        assert {} + ParseItems(k, ys, fromEnd).value == ParseItems(k, ys, fromEnd).value;
      }
    } else {
      var zs := xs + ys;
      assert zs[0] == xs[0];
      assert zs[1..] == xs[1..] + ys;
      ItemsAppend(k, xs[1..], ys, fromEnd);
      var first := ParseItem(k, xs[0], fromEnd);
      if first.Ok? && ParseItems(k, xs[1..], fromEnd).Ok? && ParseItems(k, ys, fromEnd).Ok? {
        var a, b := ParseItems(k, xs[1..], fromEnd).value, ParseItems(k, ys, fromEnd).value;
        assert ParseItems(k, zs, fromEnd) == Ok(first.value + (a + b));
        assert first.value + (a + b) == (first.value + a) + b;
      }
    }
  }

  /** The list `a,b` is the union of the lists `a` and `b`. */
  lemma ListUnion(k: FieldKind, a: string, b: string, fromEnd: bool)
    requires fromEnd ==> k == DayOfMonth
    requires a != "*" && b != "*"
    requires ParseField(k, a, fromEnd).Ok? && ParseField(k, b, fromEnd).Ok?
    ensures ParseField(k, a + "," + b, fromEnd) ==
      Ok(ParseField(k, a, fromEnd).value + ParseField(k, b, fromEnd).value)
  {
    SplitAppend(a, b, ',');
    assert a + "," + b == a + [','] + b;
    assert a + "," + b != "*" by {
      assert |a + "," + b| > 1 || (a + "," + b)[0] == ',';
    }
    ItemsAppend(k, Split(a, ','), Split(b, ','), fromEnd);
    var A := ParseItems(k, Split(a, ','), fromEnd).value;
    var B := ParseItems(k, Split(b, ','), fromEnd).value;
    if fromEnd {
      assert Negated(A + B) == Negated(A) + Negated(B);
    }
  }

  lemma BadItemFailsList(k: FieldKind, items: seq<string>, i: nat, fromEnd: bool)
    requires fromEnd ==> k == DayOfMonth
    requires i < |items| && ParseItem(k, items[i], fromEnd).Err?
    ensures ParseItems(k, items, fromEnd) == Err(BadField(k))
  {
    var tail := items[i..];
    assert tail[0] == items[i];
    assert ParseItems(k, tail, fromEnd).Err?;
    assert items == items[..i] + tail;
    ItemsAppend(k, items[..i], tail, fromEnd);
  }

  /** A lone star is not a value of any field. */
  lemma StarIsNoValue(k: FieldKind, fromEnd: bool)
    ensures ParseValue(k, "*", fromEnd).Err?
  {
    assert Upper("*") == "*";
    assert "*" !in DayAbbreviations && "*" !in DayNames;
    assert !IsDigit('*');
  }

  lemma StarIsNoItem(k: FieldKind, fromEnd: bool)
    requires fromEnd ==> k == DayOfMonth
    ensures ParseItem(k, "*", fromEnd).Err?
  {
    assert '/' !in "*" && '-' !in "*";
    assert FindDots("*").None?;
    StarIsNoValue(k, fromEnd);
  }

  /** A wildcard stands alone: as one item of a longer list it is rejected. */
  lemma StarStandsAlone(k: FieldKind, token: string, fromEnd: bool)
    requires fromEnd ==> k == DayOfMonth
    requires token != "*" && "*" in Split(token, ',')
    ensures ParseField(k, token, fromEnd) == Err(BadField(k))
  {
    var items := Split(token, ',');
    var i :| 0 <= i < |items| && items[i] == "*";
    StarIsNoItem(k, fromEnd);
    BadItemFailsList(k, items, i, fromEnd);
  }

  // A wildcard takes no step: a star followed by a slash and a step is rejected.
  lemma StarTakesNoStep(k: FieldKind, stepText: string, fromEnd: bool)
    requires fromEnd ==> k == DayOfMonth
    requires ',' !in stepText
    ensures ParseField(k, "*/" + stepText, fromEnd) == Err(BadField(k))
  {
    var token := "*/" + stepText;
    assert ',' !in token;
    assert Split(token, ',') == [token];
    assert IndexOf(token, '/') == 1;
    assert token[..1] == "*";
    assert ParseNumber("*").None?;
    assert FindDots("*").None?;
  }

  /** A step of zero is rejected, whatever it is applied to. */
  lemma ZeroStep(k: FieldKind, term: string, fromEnd: bool)
    requires fromEnd ==> k == DayOfMonth
    requires ',' !in term && '/' !in term
    ensures ParseField(k, term + "/0", fromEnd) == Err(BadField(k))
  {
    var token := term + "/0";
    assert ',' !in token;
    assert Split(token, ',') == [token];
    assert token != "*";
    IndexOfPrefix(term + "/", "0", '/') by {
      assert term + "/" == term + ['/'];
      assert (term + "/")[|term|] == '/';
    }
    assert token == (term + "/") + "0";
    assert IndexOf(term + "/", '/') == |term| by {
      assert (term + "/")[..|term|] == term;
    }
    assert token[|term| + 1..] == "0";
    assert ParseNumber("0") == Some(0);
  }

  // ---------------------------------------------------------------------
  // What each item form stands for

  lemma {:induction false} NoDots(s: string)
    requires '.' !in s
    ensures FindDots(s) == None
    decreases |s|
  {
    if |s| >= 2 {
      assert '.' !in s[1..] by {
        forall j | 0 <= j < |s| - 1
          ensures s[1..][j] != '.'
        {
          assert s[1..][j] == s[j + 1];
        }
      }
      NoDots(s[1..]);
    }
  }

  /** The first `..` of `a..b` is the one after `a` when `a` has no dot. */
  lemma {:induction false} DotsAfter(a: string, b: string)
    requires '.' !in a
    ensures FindDots(a + ".." + b) == Some(|a|)
    decreases |a|
  {
    var s := a + ".." + b;
    if a != [] {
      assert s[1..] == a[1..] + ".." + b;
      assert a[0] in a;
      DotsAfter(a[1..], b);
    }
  }

  /** A token without a comma, other than the wildcard, is one item. */
  lemma SingleItem(k: FieldKind, item: string, fromEnd: bool)
    requires fromEnd ==> k == DayOfMonth
    requires item != "*" && ',' !in item
    ensures ParseItem(k, item, fromEnd).Ok? ==> (ParseField(k, item, fromEnd) ==
      Ok(if fromEnd then Negated(ParseItem(k, item, fromEnd).value) else ParseItem(k, item, fromEnd).value))
    ensures ParseItem(k, item, fromEnd).Err? ==> ParseField(k, item, fromEnd) == Err(BadField(k))
  {
    assert Split(item, ',') == [item];
    assert [item][1..] == [];
    if ParseItem(k, item, fromEnd).Ok? {
      var m := ParseItem(k, item, fromEnd).value;
      assert ParseItems(k, [item], fromEnd) == Ok(m + {});
      assert m + {} == m;
    }
  }

  /** A single value stands for itself. */
  lemma ValueItem(k: FieldKind, s: string, fromEnd: bool)
    requires fromEnd ==> k == DayOfMonth
    requires '/' !in s && '.' !in s && (k == DayOfWeek ==> '-' !in s)
    ensures ParseValue(k, s, fromEnd).Ok? ==> ParseItem(k, s, fromEnd) == Ok({ParseValue(k, s, fromEnd).value})
    ensures ParseValue(k, s, fromEnd).Err? ==> ParseItem(k, s, fromEnd) == Err(BadField(k))
  {
    NoDots(s);
  }

  /** `a..b` stands for every value from `a` to `b`. */
  lemma RangeItem(k: FieldKind, a: string, b: string, fromEnd: bool)
    requires fromEnd ==> k == DayOfMonth
    requires '/' !in a && '/' !in b && '.' !in a
    ensures ParseBounds(k, a, b, fromEnd).Ok? ==> (ParseItem(k, a + ".." + b, fromEnd) ==
      Ok(Interval(ParseBounds(k, a, b, fromEnd).value.0, ParseBounds(k, a, b, fromEnd).value.1)))
    ensures ParseBounds(k, a, b, fromEnd).Err? ==> ParseItem(k, a + ".." + b, fromEnd) == Err(BadField(k))
  {
    var item := a + ".." + b;
    NotInConcat(a, "..", b, '/');
    DotsAfter(a, b);
    assert item[..|a|] == a && item[|a| + 2..] == b;
  }

  /** `a/n` stands for a, a+n, ... up to the top of the domain; counting
      from the end of the month it stands for a, a-n, ... down to 1. */
  lemma StepItem(k: FieldKind, a: string, n: string, fromEnd: bool)
    requires fromEnd ==> k == DayOfMonth
    requires k != DayOfWeek && '/' !in a && '.' !in a
    requires ParseValue(k, a, fromEnd).Ok? && ParseNumber(n).Some? && ParseNumber(n).value > 0
    ensures ParseItem(k, a + "/" + n, fromEnd) ==
      Ok(if fromEnd then StepDown(ParseValue(k, a, fromEnd).value, ParseNumber(n).value, 1)
         else StepUp(ParseValue(k, a, fromEnd).value, ParseNumber(n).value, Hi(k)))
  {
    var item := a + "/" + n;
    assert item == a + ['/'] + n;
    IndexOfAfter(a, '/', n);
    assert item[..|a|] == a && item[|a| + 1..] == n;
    NoDots(a);
  }

  /** A step after a start that is not a value of the field, or any step in
      the weekday field, is rejected. */
  lemma BadStartStep(k: FieldKind, a: string, n: string, fromEnd: bool)
    requires fromEnd ==> k == DayOfMonth
    requires '/' !in a && '.' !in a
    requires k == DayOfWeek || ParseValue(k, a, fromEnd).Err?
    ensures ParseItem(k, a + "/" + n, fromEnd).Err?
  {
    var item := a + "/" + n;
    assert item == a + ['/'] + n;
    IndexOfAfter(a, '/', n);
    assert item[..|a|] == a && item[|a| + 1..] == n;
    NoDots(a);
  }

  /** `a..b/n` stands for a, a+n, ... up to b. */
  lemma RangeStepItem(k: FieldKind, a: string, b: string, n: string, fromEnd: bool)
    requires fromEnd ==> k == DayOfMonth
    requires k != DayOfWeek && '/' !in a && '/' !in b && '.' !in a
    requires ParseBounds(k, a, b, fromEnd).Ok? && ParseNumber(n).Some? && ParseNumber(n).value > 0
    ensures ParseItem(k, a + ".." + b + "/" + n, fromEnd) ==
      Ok(StepUp(ParseBounds(k, a, b, fromEnd).value.0, ParseNumber(n).value,
        ParseBounds(k, a, b, fromEnd).value.1))
  {
    var term := a + ".." + b;
    var item := term + "/" + n;
    NotInConcat(a, "..", b, '/');
    assert item == a + ".." + b + "/" + n && item == term + ['/'] + n;
    IndexOfAfter(term, '/', n);
    assert item[..|term|] == term && item[|term| + 1..] == n;
    DotsAfter(a, b);
    assert term[..|a|] == a && term[|a| + 2..] == b;
  }

  /** `a-b` in the weekday field stands for every day from `a` to `b`. */
  lemma WeekdayDashItem(a: string, b: string)
    requires '/' !in a && '/' !in b && '.' !in a && '.' !in b && '-' !in a
    requires ParseBounds(DayOfWeek, a, b, false).Ok?
    ensures ParseItem(DayOfWeek, a + "-" + b, false) ==
      Ok(Interval(ParseBounds(DayOfWeek, a, b, false).value.0, ParseBounds(DayOfWeek, a, b, false).value.1))
  {
    var item := a + "-" + b;
    assert item == a + ['-'] + b;
    NotInConcat(a, "-", b, '/');
    NotInConcat(a, "-", b, '.');
    NoDots(item);
    IndexOfAfter(a, '-', b);
    assert item[..|a|] == a && item[|a| + 1..] == b;
  }

  /** A weekday token `a-b` with no comma. */
  lemma WeekdayDashToken(a: string, b: string)
    requires '/' !in a && '/' !in b && '.' !in a && '.' !in b && '-' !in a && ',' !in a && ',' !in b
    requires ParseBounds(DayOfWeek, a, b, false).Ok?
    ensures ParseField(DayOfWeek, a + "-" + b, false) ==
      Ok(Interval(ParseBounds(DayOfWeek, a, b, false).value.0, ParseBounds(DayOfWeek, a, b, false).value.1))
  {
    var item := a + "-" + b;
    WeekdayDashItem(a, b);
    NotInConcat(a, "-", b, ',');
    assert item != "*" by {
      assert item[|a|] == '-';
    }
    SingleItem(DayOfWeek, item, false);
  }

  /** The wildcard stands for the whole domain of the field; counting from
      the end of the month, for the 1st to 28th days from the end. */
  lemma StarField(k: FieldKind, fromEnd: bool)
    requires k != DayOfWeek && (fromEnd ==> k == DayOfMonth)
    ensures ParseField(k, "*", fromEnd) ==
      Ok(if fromEnd then Negated(Interval(1, MaxFromEnd)) else Interval(Lo(k), Hi(k)))
  {
    var m := Interval(Lo(k), Top(k, fromEnd));
    assert ParseMagnitudes(k, "*", fromEnd) == Ok(m);
    assert fromEnd ==> m == Interval(1, MaxFromEnd);
  }

  /** A number literal in the field's range, leading zeros allowed, stands
      for its value (negated when counting from the end of the month). */
  lemma LiteralField(k: FieldKind, s: string, fromEnd: bool)
    requires k != DayOfWeek && (fromEnd ==> k == DayOfMonth)
    requires s != [] && AllDigits(s) && Lo(k) <= DecimalValue(s) <= Top(k, fromEnd)
    ensures ParseField(k, s, fromEnd) == Ok(if fromEnd then {-(DecimalValue(s) as int)} else {DecimalValue(s) as int})
  {
    DigitsOnly(s, '/');
    DigitsOnly(s, '.');
    DigitsOnly(s, ',');
    assert s != "*" by {
      assert IsDigit(s[0]);
    }
    ValueItem(k, s, fromEnd);
    SingleItem(k, s, fromEnd);
    if fromEnd {
      assert Negated({DecimalValue(s) as int}) == {-(DecimalValue(s) as int)};
    }
  }

  /** The shortest rendering of a number in the field's range stands for
      the number. */
  lemma NumberField(k: FieldKind, n: nat, fromEnd: bool)
    requires k != DayOfWeek && (fromEnd ==> k == DayOfMonth) && Lo(k) <= n <= Top(k, fromEnd)
    ensures ParseField(k, Decimal(n), fromEnd) == Ok(if fromEnd then {-(n as int)} else {n as int})
  {
    DecimalValueOfDecimal(n);
    LiteralField(k, Decimal(n), fromEnd);
  }

  /** A number written with one leading zero. */
  lemma PaddedField(k: FieldKind, n: nat)
    requires k != DayOfWeek && Lo(k) <= n <= Hi(k)
    ensures ParseField(k, "0" + Decimal(n), false) == Ok({n as int})
  {
    LeadingZero(Decimal(n));
    DecimalValueOfDecimal(n);
    LiteralField(k, "0" + Decimal(n), false);
  }

  /** A weekday name stands for its day. */
  lemma WeekdayField(name: string, d: int)
    requires name != [] && forall i :: 0 <= i < |name| ==> IsAsciiLetter(name[i])
    requires WeekdayNumber(name) == Some(d)
    ensures ParseField(DayOfWeek, name, false) == Ok({d})
  {
    assert '/' !in name && '.' !in name && '-' !in name && ',' !in name && name != "*" by {
      assert IsAsciiLetter(name[0]);
      forall i | 0 <= i < |name|
        ensures name[i] != '/' && name[i] != '.' && name[i] != '-' && name[i] != ','
      {
        assert IsAsciiLetter(name[i]);
      }
    }
    ValueItem(DayOfWeek, name, false);
    SingleItem(DayOfWeek, name, false);
  }

  /** A token `a..b` with no comma stands for every value from `a` to `b`. */
  lemma RangeToken(k: FieldKind, a: string, b: string, fromEnd: bool)
    requires fromEnd ==> k == DayOfMonth
    requires '/' !in a && '/' !in b && '.' !in a && ',' !in a && ',' !in b
    requires ParseBounds(k, a, b, fromEnd).Ok?
    ensures ParseField(k, a + ".." + b, fromEnd) ==
      Ok(var r := Interval(ParseBounds(k, a, b, fromEnd).value.0, ParseBounds(k, a, b, fromEnd).value.1);
         if fromEnd then Negated(r) else r)
  {
    var item := a + ".." + b;
    RangeItem(k, a, b, fromEnd);
    NotInConcat(a, "..", b, ',');
    assert item != "*" by {
      assert item[|a|] == '.';
    }
    SingleItem(k, item, fromEnd);
  }

  /** `a..b` written with number literals. */
  lemma RangeField(k: FieldKind, a: nat, b: nat, fromEnd: bool)
    requires k != DayOfWeek && (fromEnd ==> k == DayOfMonth) && Lo(k) <= a <= b <= Top(k, fromEnd)
    ensures ParseField(k, Decimal(a) + ".." + Decimal(b), fromEnd) ==
      Ok(if fromEnd then Negated(Interval(a, b)) else Interval(a, b))
  {
    ParseDecimal(a);
    ParseDecimal(b);
    DigitsOnly(Decimal(a), '/');
    DigitsOnly(Decimal(b), '/');
    DigitsOnly(Decimal(a), '.');
    DigitsOnly(Decimal(a), ',');
    DigitsOnly(Decimal(b), ',');
    RangeToken(k, Decimal(a), Decimal(b), fromEnd);
  }

  /** `a/n` written with number literals. */
  lemma StepField(k: FieldKind, a: nat, n: nat, fromEnd: bool)
    requires k != DayOfWeek && (fromEnd ==> k == DayOfMonth) && Lo(k) <= a <= Top(k, fromEnd) && n > 0
    ensures ParseField(k, Decimal(a) + "/" + Decimal(n), fromEnd) ==
      Ok(if fromEnd then Negated(StepDown(a, n, 1)) else StepUp(a, n, Hi(k)))
  {
    var item := Decimal(a) + "/" + Decimal(n);
    ParseDecimal(a);
    ParseDecimal(n);
    DigitsOnly(Decimal(a), '/');
    DigitsOnly(Decimal(a), '.');
    DigitsOnly(Decimal(a), ',');
    DigitsOnly(Decimal(n), ',');
    StepItem(k, Decimal(a), Decimal(n), fromEnd);
    NotInConcat(Decimal(a), "/", Decimal(n), ',');
    assert item != "*" by {
      assert item[0] == Decimal(a)[0];
    }
    SingleItem(k, item, fromEnd);
  }

  /** `a..b/n` written with number literals. */
  lemma RangeStepField(k: FieldKind, a: nat, b: nat, n: nat, fromEnd: bool)
    requires k != DayOfWeek && (fromEnd ==> k == DayOfMonth) && Lo(k) <= a <= b <= Top(k, fromEnd) && n > 0
    ensures ParseField(k, Decimal(a) + ".." + Decimal(b) + "/" + Decimal(n), fromEnd) ==
      Ok(if fromEnd then Negated(StepUp(a, n, b)) else StepUp(a, n, b))
  {
    var item := Decimal(a) + ".." + Decimal(b) + "/" + Decimal(n);
    ParseDecimal(a);
    ParseDecimal(b);
    ParseDecimal(n);
    DigitsOnly(Decimal(a), '/');
    DigitsOnly(Decimal(b), '/');
    DigitsOnly(Decimal(a), '.');
    DigitsOnly(Decimal(a), ',');
    DigitsOnly(Decimal(b), ',');
    DigitsOnly(Decimal(n), ',');
    RangeStepItem(k, Decimal(a), Decimal(b), Decimal(n), fromEnd);
    NotInConcat(Decimal(a), "..", Decimal(b), ',');
    NotInConcat(Decimal(a) + ".." + Decimal(b), "/", Decimal(n), ',');
    assert item != "*" by {
      assert item[0] == Decimal(a)[0];
    }
    SingleItem(k, item, fromEnd);
  }
}
