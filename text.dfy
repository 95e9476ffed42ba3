/** The string primitives the calendar-expression grammar is built from:
    splitting on a separator, splitting on blanks, trimming, ASCII upper-casing
    and reading decimal numbers. */
module Text {
  import opened Outcomes

  predicate IsDigit(c: char) {
    '0' <= c <= '9'
  }

  predicate IsAsciiLetter(c: char) {
    'a' <= c <= 'z' || 'A' <= c <= 'Z'
  }

  /** The ASCII characters that count as whitespace when the expression is
      trimmed and split into components. */
  predicate IsBlank(c: char) {
    c == ' ' || c == '\t' || c == '\n' || c == '\r' || c as int == 11 || c as int == 12
  }

  function UpperChar(c: char): (u: char)
    ensures IsAsciiLetter(c) ==> 'A' <= u <= 'Z'
    ensures 'a' <= c <= 'z' ==> u as int == c as int - 32
    ensures !('a' <= c <= 'z') ==> u == c
  {
    if 'a' <= c <= 'z' then (c as int - 32) as char else c
  }

  /** ASCII upper-casing, used for the case-insensitive weekday names and
      shorthand expressions. */
  function Upper(s: string): (u: string)
    ensures |u| == |s|
    ensures forall i :: 0 <= i < |s| ==> u[i] == UpperChar(s[i])
  {
    if s == [] then [] else [UpperChar(s[0])] + Upper(s[1..])
  }

  // ---------------------------------------------------------------------
  // Splitting on a separator character

  /** The position of the first occurrence of `c` in `s`. */
  function IndexOf(s: string, c: char): (i: nat)
    requires c in s
    ensures i < |s| && s[i] == c && c !in s[..i]
  {
    if s[0] == c then 0 else 1 + IndexOf(s[1..], c)
  }

  /** `s` cut at every occurrence of `sep`, as str.split(sep) does: two
      adjacent separators give an empty piece, and there is always one more
      piece than there are separators. */
  function Split(s: string, sep: char): (parts: seq<string>)
    ensures |parts| >= 1
    ensures forall i :: 0 <= i < |parts| ==> sep !in parts[i]
    decreases |s|
  {
    if sep !in s then [s]
    else
      var i := IndexOf(s, sep);
      [s[..i]] + Split(s[i + 1..], sep)
  }

  /** The pieces glued back together with `sep` between them. */
  function Join(parts: seq<string>, sep: char): string
    requires |parts| >= 1
  {
    if |parts| == 1 then parts[0] else parts[0] + [sep] + Join(parts[1..], sep)
  }

  /** Splitting loses nothing: joining the pieces gives back the string. */
  lemma {:induction false} JoinSplit(s: string, sep: char)
    ensures Join(Split(s, sep), sep) == s
    decreases |s|
  {
    if sep in s {
      var i := IndexOf(s, sep);
      var rest := s[i + 1..];
      var parts := Split(rest, sep);
      assert Split(s, sep) == [s[..i]] + parts;
      assert ([s[..i]] + parts)[1..] == parts;
      JoinSplit(rest, sep);
      assert Join([s[..i]] + parts, sep) == s[..i] + [sep] + rest;
      assert s == s[..i] + [sep] + rest;
    }
  }

  lemma {:induction false} IndexOfPrefix(a: string, b: string, c: char)
    requires c in a
    ensures IndexOf(a + b, c) == IndexOf(a, c)
    decreases |a|
  {
    if a[0] != c {
      assert (a + b)[1..] == a[1..] + b;
      IndexOfPrefix(a[1..], b, c);
    }
  }

  /** The first `c` of `a + [c] + b` is the one after `a` when `a` has
      none. */
  lemma {:induction false} IndexOfAfter(a: string, c: char, b: string)
    requires c !in a
    ensures IndexOf(a + [c] + b, c) == |a|
    ensures (a + [c] + b)[..|a|] == a && (a + [c] + b)[|a| + 1..] == b
    decreases |a|
  {
    if a != [] {
      assert (a + [c] + b)[1..] == a[1..] + [c] + b;
      IndexOfAfter(a[1..], c, b);
    }
  }

  /** A character in none of three strings is not in their concatenation. */
  lemma NotInConcat(a: string, b: string, c: string, x: char)
    requires x !in a && x !in b && x !in c
    ensures x !in a + b + c
  {
    var s := a + b + c;
    forall j | 0 <= j < |s|
      ensures s[j] != x
    {
      if j < |a| { assert s[j] == a[j]; }
      else if j < |a| + |b| { assert s[j] == b[j - |a|]; }
      else { assert s[j] == c[j - |a| - |b|]; }
    }
  }

  /** Three pieces joined by one separator character, regrouped. */
  lemma JoinThree(a: string, b: string, c: string, sep: char)
    ensures a + [sep] + b + [sep] + c == a + [sep] + (b + [sep] + c)
  {
  }

  /** Cutting at the first separator: the piece before it, then the pieces
      of the rest. */
  lemma SplitAtFirst(a: string, b: string, sep: char)
    requires sep !in a
    ensures Split(a + [sep] + b, sep) == [a] + Split(b, sep)
  {
    IndexOfAfter(a, sep, b);
  }

  /** Past a separator inside `a`, the pieces of `a + [sep] + b` are those
      of `a` up to its first separator, then those of the rest. */
  lemma SplitPastFirst(a: string, b: string, sep: char)
    requires sep in a
    ensures Split(a + [sep] + b, sep) == [a[..IndexOf(a, sep)]] + Split(a[IndexOf(a, sep) + 1..] + [sep] + b, sep)
  {
    var i := IndexOf(a, sep);
    var s := a + [sep] + b;
    IndexOfPrefix(a, [sep] + b, sep);
    assert s == a + ([sep] + b);
    assert s[..i] == a[..i];
    assert s[i + 1..] == a[i + 1..] + [sep] + b;
  }

  /** A list separator splits a list into the items on its left followed by
      the items on its right. */
  lemma {:induction false} SplitAppend(a: string, b: string, sep: char)
    ensures Split(a + [sep] + b, sep) == Split(a, sep) + Split(b, sep)
    decreases |a|
  {
    if sep !in a {
      SplitAtFirst(a, b, sep);
    } else {
      var i := IndexOf(a, sep);
      SplitPastFirst(a, b, sep);
      SplitAppend(a[i + 1..], b, sep);
      var p, q := Split(a[i + 1..], sep), Split(b, sep);
      assert [a[..i]] + (p + q) == ([a[..i]] + p) + q;
    }
  }

  // ---------------------------------------------------------------------
  // Splitting on blanks and trimming

  /** The length of the run of non-blank characters that starts `s`. */
  function WordLength(s: string): (n: nat)
    ensures n <= |s|
    ensures forall i :: 0 <= i < n ==> !IsBlank(s[i])
    ensures n < |s| ==> IsBlank(s[n])
  {
    if s == [] || IsBlank(s[0]) then 0 else 1 + WordLength(s[1..])
  }

  predicate NoBlank(w: string) {
    forall i :: 0 <= i < |w| ==> !IsBlank(w[i])
  }

  /** The maximal runs of non-blank characters of `s`, in order, as
      str.split() with no argument returns them. */
  function Words(s: string): (ws: seq<string>)
    ensures forall i :: 0 <= i < |ws| ==> ws[i] != [] && NoBlank(ws[i])
    decreases |s|
  {
    if s == [] then []
    else if IsBlank(s[0]) then Words(s[1..])
    else
      var n := WordLength(s);
      [s[..n]] + Words(s[n..])
  }

  /** A single word splits into itself. */
  lemma {:induction false} WordsOfWord(w: string)
    requires w != [] && NoBlank(w)
    ensures Words(w) == [w]
  {
    WordLengthOfWord(w);
    assert w[..|w|] == w;
    assert w[|w|..] == [];
  }

  lemma {:induction false} WordLengthOfWord(w: string)
    requires NoBlank(w)
    ensures WordLength(w) == |w|
    decreases |w|
  {
    if w != [] {
      WordLengthOfWord(w[1..]);
    }
  }

  /** A blank separates the words on its left from the words on its right. */
  lemma {:induction false} WordsAppend(a: string, sp: char, b: string)
    requires IsBlank(sp)
    ensures Words(a + [sp] + b) == Words(a) + Words(b)
    decreases |a|
  {
    var s := a + [sp] + b;
    if a == [] {
      assert s[1..] == b;
    } else if IsBlank(a[0]) {
      assert s[1..] == a[1..] + [sp] + b;
      WordsAppend(a[1..], sp, b);
    } else {
      var n := WordLength(a);
      WordLengthAppend(a, sp, b);
      assert s[..n] == a[..n];
      assert s[n..] == a[n..] + [sp] + b;
      WordsAppend(a[n..], sp, b);
    }
  }

  /** Two words with a blank between them. */
  lemma WordsOfTwo(a: string, b: string)
    requires a != [] && NoBlank(a) && b != [] && NoBlank(b)
    ensures Words(a + " " + b) == [a, b]
  {
    assert a + " " + b == a + [' '] + b;
    WordsAppend(a, ' ', b);
    WordsOfWord(a);
    WordsOfWord(b);
  }

  /** Three words with a blank between each two. */
  lemma WordsOfThree(a: string, b: string, c: string)
    requires a != [] && NoBlank(a) && b != [] && NoBlank(b) && c != [] && NoBlank(c)
    ensures Words(a + " " + b + " " + c) == [a, b, c]
  {
    assert a + " " + b + " " + c == a + [' '] + (b + " " + c);
    WordsAppend(a, ' ', b + " " + c);
    WordsOfWord(a);
    WordsOfTwo(b, c);
  }

  /** Four words with a blank between each two. */
  lemma WordsOfFour(a: string, b: string, c: string, d: string)
    requires a != [] && NoBlank(a) && b != [] && NoBlank(b) && c != [] && NoBlank(c) && d != [] && NoBlank(d)
    ensures Words(a + " " + b + " " + c + " " + d) == [a, b, c, d]
  {
    assert a + " " + b + " " + c + " " + d == (a + " " + b) + [' '] + (c + " " + d);
    WordsAppend(a + " " + b, ' ', c + " " + d);
    WordsOfTwo(a, b);
    WordsOfTwo(c, d);
  }

  lemma {:induction false} WordLengthAppend(a: string, sp: char, b: string)
    requires IsBlank(sp)
    ensures WordLength(a + [sp] + b) == WordLength(a)
    decreases |a|
  {
    if a != [] && !IsBlank(a[0]) {
      assert (a + [sp] + b)[1..] == a[1..] + [sp] + b;
      WordLengthAppend(a[1..], sp, b);
    }
  }

  /** `s` without its leading blanks. */
  function TrimStart(s: string): (r: string)
    ensures |r| <= |s| && r == s[|s| - |r|..]
    ensures forall i :: 0 <= i < |s| - |r| ==> IsBlank(s[i])
    ensures r != [] ==> !IsBlank(r[0])
  {
    if s != [] && IsBlank(s[0]) then TrimStart(s[1..]) else s
  }

  /** `s` without its trailing blanks. */
  function TrimEnd(s: string): (r: string)
    ensures |r| <= |s| && r == s[..|r|]
    ensures forall i :: |r| <= i < |s| ==> IsBlank(s[i])
    ensures r != [] ==> !IsBlank(r[|r| - 1])
  {
    if s != [] && IsBlank(s[|s| - 1]) then TrimEnd(s[..|s| - 1]) else s
  }

  /** `s` without blanks at either end, as str.strip() does. */
  function Trim(s: string): string {
    TrimEnd(TrimStart(s))
  }

  /** A string that neither starts nor ends with a blank is its own trim. */
  lemma TrimUnblanked(s: string)
    requires s != [] && !IsBlank(s[0]) && !IsBlank(s[|s| - 1])
    ensures Trim(s) == s
  {
    assert TrimStart(s) == s;
  }

  /** A string of blanks only trims to nothing. */
  lemma {:induction false} AllBlankTrims(s: string)
    requires forall i :: 0 <= i < |s| ==> IsBlank(s[i])
    ensures Trim(s) == []
    decreases |s|
  {
    if s != [] {
      assert IsBlank(s[0]);
      AllBlankTrims(s[1..]);
      assert TrimStart(s) == TrimStart(s[1..]);
    }
  }

  /** A string with a blank is no string without one, whatever the case. */
  lemma UpperKeepsBlank(s: string, i: nat, t: string)
    requires i < |s| && s[i] == ' ' && ' ' !in t
    ensures Upper(s) != t
  {
    assert Upper(s)[i] == ' ';
  }

  // ---------------------------------------------------------------------
  // Decimal numbers

  predicate AllDigits(s: string) {
    forall i :: 0 <= i < |s| ==> IsDigit(s[i])
  }

  function DigitValue(c: char): (d: nat)
    requires IsDigit(c)
    ensures d <= 9
  {
    c as int - '0' as int
  }

  function DigitChar(d: nat): (c: char)
    requires d <= 9
    ensures IsDigit(c) && DigitValue(c) == d
  {
    ('0' as int + d) as char
  }

  /** A string of digits holds no other character. */
  lemma DigitsOnly(s: string, c: char)
    requires AllDigits(s) && !IsDigit(c)
    ensures c !in s
  {
    forall i | 0 <= i < |s|
      ensures s[i] != c
    {
    }
  }

  /** The value of a string of decimal digits, most significant first. */
  function DecimalValue(s: string): nat
    requires AllDigits(s)
  {
    if s == [] then 0 else 10 * DecimalValue(s[..|s| - 1]) + DigitValue(s[|s| - 1])
  }

  /** A number literal: one or more ASCII digits and nothing else (no sign,
      no underscore, no blank). Leading zeros are allowed. */
  function ParseNumber(s: string): (r: Option<nat>)
    ensures r.Some? <==> s != [] && AllDigits(s)
  {
    if s != [] && AllDigits(s) then Some(DecimalValue(s)) else None
  }

  /** The shortest decimal rendering of `n`. */
  function Decimal(n: nat): (s: string)
    ensures s != [] && AllDigits(s)
  {
    if n < 10 then [DigitChar(n)] else Decimal(n / 10) + [DigitChar(n % 10)]
  }

  /** Reading back a rendered number gives the number. */
  lemma {:induction false} ParseDecimal(n: nat)
    ensures ParseNumber(Decimal(n)) == Some(n)
  {
    DecimalValueOfDecimal(n);
  }

  lemma {:induction false} DecimalValueOfDecimal(n: nat)
    ensures DecimalValue(Decimal(n)) == n
  {
    var s := Decimal(n);
    if n >= 10 {
      DecimalValueOfDecimal(n / 10);
      assert s[..|s| - 1] == Decimal(n / 10);
    }
  }

  /** Leading zeros do not change the value of a literal ("00" reads as 0). */
  lemma {:induction false} LeadingZero(s: string)
    requires AllDigits(s)
    ensures AllDigits("0" + s) && DecimalValue("0" + s) == DecimalValue(s)
    decreases |s|
  {
    var z := "0" + s;
    if s != [] {
      assert z[..|z| - 1] == "0" + s[..|s| - 1];
      LeadingZero(s[..|s| - 1]);
    }
  }

  /** A positive multiple of a positive number is at least that number. */
  lemma MulAtLeast(d: int, n: int)
    requires d >= 1 && n > 0
    ensures d * n >= n
  {
  }

  /** Quotient and remainder are determined by any decomposition
      x == q * n + r with 0 <= r < n. */
  lemma DivUnique(x: int, n: int, q: int, r: int)
    requires n > 0 && 0 <= r < n && x == q * n + r
    ensures x / n == q && x % n == r
  {
    var q', r' := x / n, x % n;
    assert x == q' * n + r';
    if q > q' { MulAtLeast(q - q', n); }
    if q' > q { MulAtLeast(q' - q, n); }
  }
}
