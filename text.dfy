/** The Python string built-ins the chat parser and the exporter rely on:
    whitespace, `strip()`, `lower()`, `in`, `split('\n')`, string ordering
    (for `sorted`) and `str()` of an integer. */
module Text {

  datatype Option<T> = None | Some(value: T)

  /** Python's `str.isspace()`; the `\s` class of a `re` pattern over `str`
      matches exactly these characters too. */
  predicate IsSpace(c: char) {
    ('\t' <= c <= '\r') || ('\U{1C}' <= c <= '\U{1F}') || c == ' '
    || c == '\U{85}' || c == '\U{A0}' || c == '\U{1680}'
    || ('\U{2000}' <= c <= '\U{200A}') || c == '\U{2028}' || c == '\U{2029}'
    || c == '\U{202F}' || c == '\U{205F}' || c == '\U{3000}'
  }

  predicate IsBlank(s: string) {
    forall i :: 0 <= i < |s| ==> IsSpace(s[i])
  }

  /** Neither end of `s` is whitespace: what `strip()` leaves behind. */
  predicate IsTrimmed(s: string) {
    s == [] || (!IsSpace(s[0]) && !IsSpace(s[|s| - 1]))
  }

  /** Number of whitespace characters `lstrip()` removes. */
  function LeadingSpaces(s: string): (n: nat)
    ensures n <= |s| && IsBlank(s[..n])
    ensures n < |s| ==> !IsSpace(s[n])
  {
    if |s| > 0 && IsSpace(s[0]) then 1 + LeadingSpaces(s[1..]) else 0
  }

  /** Number of whitespace characters `rstrip()` removes. */
  function TrailingSpaces(s: string): (n: nat)
    ensures n <= |s| && IsBlank(s[|s| - n..])
    ensures n < |s| ==> !IsSpace(s[|s| - n - 1])
  {
    if |s| > 0 && IsSpace(s[|s| - 1]) then 1 + TrailingSpaces(s[..|s| - 1]) else 0
  }

  /** Python's `s.strip()`: the slice of `s` left after removing whitespace
      from both ends. */
  function Strip(s: string): (r: string)
    ensures IsTrimmed(r)
    ensures r == [] <==> IsBlank(s)
    ensures LeadingSpaces(s) + |r| <= |s| && r == s[LeadingSpaces(s)..LeadingSpaces(s) + |r|]
  {
    var a := LeadingSpaces(s);
    var t := s[a..];
    var b := TrailingSpaces(t);
    StripEmpty(s, a, b);
    t[..|t| - b]
  }

  /** What `strip()` keeps is empty exactly when the string is blank. */
  lemma StripEmpty(s: string, a: nat, b: nat)
    requires a == LeadingSpaces(s) && b == TrailingSpaces(s[a..])
    ensures a + b == |s| <==> IsBlank(s)
  {
    if a + b == |s| {
      BlankWhenStripEmpty(s, a, b);
    }
    if IsBlank(s) {
      LeadingSpacesOfBlank(s);
    }
  }

  lemma BlankWhenStripEmpty(s: string, a: nat, b: nat)
    requires a == LeadingSpaces(s) && b == TrailingSpaces(s[a..]) && a + b == |s|
    ensures IsBlank(s)
  {
    var t := s[a..];
    assert IsBlank(s[..a]) && IsBlank(t[|t| - b..]) && |t| - b == 0;
    assert a == |s|;
    forall k | 0 <= k < |s|
      ensures IsSpace(s[k])
    {
      assert IsSpace(s[..a][k]);
      TakeIndex(s, a, k);
    }
  }

  lemma TakeIndex<T>(s: seq<T>, n: nat, k: nat)
    requires k < n <= |s|
    ensures s[..n][k] == s[k]
  {
  }

  lemma {:induction false} LeadingSpacesOfBlank(s: string)
    requires IsBlank(s)
    ensures LeadingSpaces(s) == |s|
    decreases |s|
  {
    if s != [] {
      LeadingSpacesOfBlank(s[1..]);
    }
  }

  lemma BlankConcat(x: string, y: string)
    requires IsBlank(x) && IsBlank(y)
    ensures IsBlank(x + y)
  {
  }

  lemma {:induction false} LeadingSpacesAfterBlank(w: string, s: string)
    requires IsBlank(w) && (s == [] || !IsSpace(s[0]))
    ensures LeadingSpaces(w + s) == |w|
    decreases |w|
  {
    if w != [] {
      assert (w + s)[1..] == w[1..] + s;
      LeadingSpacesAfterBlank(w[1..], s);
    } else {
      assert w + s == s;
    }
  }

  lemma {:induction false} TrailingSpacesBeforeBlank(s: string, w: string)
    requires IsBlank(w) && (s == [] || !IsSpace(s[|s| - 1]))
    ensures TrailingSpaces(s + w) == |w|
    decreases |w|
  {
    if w != [] {
      assert (s + w)[..|s + w| - 1] == s + w[..|w| - 1];
      TrailingSpacesBeforeBlank(s, w[..|w| - 1]);
    } else {
      assert s + w == s;
    }
  }

  /** `strip()` leaves a trimmed text as it is. */
  lemma StripTrimmed(s: string)
    requires IsTrimmed(s)
    ensures Strip(s) == s
  {
    StripPadded([], s, []);
    assert [] + s + [] == s;
  }

  /** Stripping whitespace that surrounds an already trimmed string gives that string back. */
  lemma StripPadded(w1: string, s: string, w2: string)
    requires IsBlank(w1) && IsBlank(w2) && IsTrimmed(s)
    ensures Strip(w1 + s + w2) == s
  {
    if s == [] {
      BlankConcat(w1, w2);
      assert w1 + s + w2 == w1 + w2;
    } else {
      assert w1 + s + w2 == w1 + (s + w2);
      LeadingSpacesAfterBlank(w1, s + w2);
      assert (w1 + s + w2)[|w1|..] == s + w2;
      TrailingSpacesBeforeBlank(s, w2);
    }
  }

  /** Python's `str.lower()` on one character, as far as it can produce an
      ASCII letter: A-Z and the Kelvin sign, which lower-cases to 'k'. */
  function LowerChar(c: char): (l: char)
    ensures 'A' <= c <= 'Z' ==> 'a' <= l <= 'z'
    ensures !('A' <= c <= 'Z') && c != '\U{212A}' ==> l == c
  {
    if 'A' <= c <= 'Z' then (c as int + 32) as char
    else if c == '\U{212A}' then 'k'
    else c
  }

  function Lower(s: string): (r: string)
    ensures |r| == |s|
    ensures forall i :: 0 <= i < |s| ==> r[i] == LowerChar(s[i])
  {
    seq(|s|, i requires 0 <= i < |s| => LowerChar(s[i]))
  }

  /** `sub` occurs in `s` at position `i`. */
  predicate OccursAt(s: string, sub: string, i: nat) {
    i + |sub| <= |s| && s[i..i + |sub|] == sub
  }

  /** Python's `sub in s`. */
  predicate Contains(s: string, sub: string) {
    exists i: nat | i <= |s| :: OccursAt(s, sub, i)
  }

  /** Position of the first `c` in `s`. */
  function IndexOf(s: string, c: char): (r: Option<nat>)
    ensures r.None? <==> c !in s
    ensures r.Some? ==> r.value < |s| && s[r.value] == c && c !in s[..r.value]
  {
    if |s| == 0 then None
    else if s[0] == c then Some(0)
    else match IndexOf(s[1..], c)
      case None => None
      case Some(k) => assert s[..k + 1] == [s[0]] + s[1..][..k]; Some(k + 1)
  }

  lemma {:induction false} IndexOfFirst(s: string, c: char, i: nat)
    requires i < |s| && s[i] == c && c !in s[..i]
    ensures IndexOf(s, c) == Some(i)
  {
    if i > 0 {
      assert s[0] == s[..i][0];
      assert s[1..][..i - 1] == s[1..i] && s[1..][i - 1] == s[i];
      assert forall x :: x in s[1..i] ==> x in s[..i];
      IndexOfFirst(s[1..], c, i - 1);
    }
  }

  lemma ConcatAssoc<T>(a: seq<T>, b: seq<T>, c: seq<T>)
    ensures a + b + c == a + (b + c)
  {
  }

  /** Python's `s.split('\n')`. */
  function SplitLines(s: string): (r: seq<string>)
    ensures |r| >= 1
    ensures forall k :: 0 <= k < |r| ==> '\n' !in r[k]
    decreases |s|
  {
    match IndexOf(s, '\n')
    case None => [s]
    case Some(i) => [s[..i]] + SplitLines(s[i + 1..])
  }

  /** Python's `'\n'.join(lines)`. */
  function JoinLines(lines: seq<string>): string {
    if |lines| == 0 then ""
    else if |lines| == 1 then lines[0]
    else JoinLines(lines[..|lines| - 1]) + "\n" + lines[|lines| - 1]
  }

  /** Joining after a first line is that line, a line break and the join of the rest. */
  lemma {:induction false} JoinLinesCons(first: string, rest: seq<string>)
    requires |rest| >= 1
    ensures JoinLines([first] + rest) == first + "\n" + JoinLines(rest)
    decreases |rest|
  {
    var ls := [first] + rest;
    if |rest| > 1 {
      assert ls[..|ls| - 1] == [first] + rest[..|rest| - 1];
      JoinLinesCons(first, rest[..|rest| - 1]);
    } else {
      assert ls[..|ls| - 1] == [first];
    }
  }

  /** Splitting loses nothing: joining the pieces gives the text back. */
  lemma {:induction false} JoinSplitLines(s: string)
    ensures JoinLines(SplitLines(s)) == s
    decreases |s|
  {
    match IndexOf(s, '\n')
    case None =>
    case Some(i) =>
      JoinSplitLines(s[i + 1..]);
      JoinLinesCons(s[..i], SplitLines(s[i + 1..]));
      assert s == s[..i] + "\n" + s[i + 1..];
  }

  /** Splitting the join of line-break-free lines gives those lines back. */
  lemma {:induction false} SplitJoinLines(lines: seq<string>)
    requires |lines| >= 1
    requires forall k :: 0 <= k < |lines| ==> '\n' !in lines[k]
    ensures SplitLines(JoinLines(lines)) == lines
    decreases |lines|
  {
    if |lines| == 1 {
      assert IndexOf(lines[0], '\n').None?;
    } else {
      var rest := lines[1..];
      JoinLinesCons(lines[0], rest);
      assert lines == [lines[0]] + rest;
      var s := JoinLines(lines);
      assert s == lines[0] + "\n" + JoinLines(rest);
      var i := |lines[0]|;
      assert s[i] == '\n' && s[..i] == lines[0];
      IndexOfFirst(s, '\n', i);
      assert s[i + 1..] == JoinLines(rest);
      SplitJoinLines(rest);
    }
  }

  /** Total length of `lines` when each is followed by one line break. */
  function Width(lines: seq<string>): (w: nat)
    ensures w >= |lines|
  {
    if lines == [] then 0 else Width(lines[..|lines| - 1]) + |lines[|lines| - 1]| + 1
  }

  /** The join of the first `m` lines is a prefix of the join of all of them,
      followed by a line break when lines remain. */
  lemma {:induction false} JoinLinesPrefix(lines: seq<string>, m: nat)
    requires 1 <= m <= |lines|
    ensures |JoinLines(lines[..m])| == Width(lines[..m]) - 1 <= |JoinLines(lines)|
    ensures JoinLines(lines[..m]) == JoinLines(lines)[..Width(lines[..m]) - 1]
    ensures m < |lines| ==> Width(lines[..m]) - 1 < |JoinLines(lines)| && JoinLines(lines)[Width(lines[..m]) - 1] == '\n'
    decreases |lines|
  {
    var n := |lines|;
    if m == n {
      assert lines[..m] == lines;
      JoinLinesLength(lines);
    } else {
      var init := lines[..n - 1];
      assert init[..m] == lines[..m];
      JoinLinesPrefix(init, m);
      JoinLinesLength(init);
      if m < n - 1 {
        assert JoinLines(init)[Width(lines[..m]) - 1] == '\n';
      } else {
        assert init == lines[..m];
      }
    }
  }

  lemma {:induction false} JoinLinesLength(lines: seq<string>)
    requires |lines| >= 1
    ensures |JoinLines(lines)| == Width(lines) - 1
    decreases |lines|
  {
    if |lines| > 1 { JoinLinesLength(lines[..|lines| - 1]); }
  }

  /** Line `k` of `lines` sits in their join from offset `Width(lines[..k])`,
      preceded by a line break (or the start) and followed by one (or the end). */
  lemma LineInJoin(lines: seq<string>, k: nat)
    requires k < |lines|
    ensures Width(lines[..k]) + |lines[k]| <= |JoinLines(lines)|
    ensures JoinLines(lines)[Width(lines[..k])..Width(lines[..k]) + |lines[k]|] == lines[k]
    ensures k > 0 ==> JoinLines(lines)[Width(lines[..k]) - 1] == '\n'
    ensures k + 1 < |lines| ==> Width(lines[..k]) + |lines[k]| < |JoinLines(lines)| && JoinLines(lines)[Width(lines[..k]) + |lines[k]|] == '\n'
    ensures k + 1 == |lines| ==> Width(lines[..k]) + |lines[k]| == |JoinLines(lines)|
  {
    var s := JoinLines(lines);
    var w := Width(lines[..k]);
    JoinLinesPrefix(lines, k + 1);
    assert lines[..k + 1][..k] == lines[..k];
    var p := JoinLines(lines[..k + 1]);
    assert |p| == w + |lines[k]| && p == s[..|p|];
    if k == 0 {
      assert p == lines[0];
    } else {
      JoinLinesPrefix(lines, k);
      assert p == JoinLines(lines[..k]) + "\n" + lines[k];
      assert s[w - 1] == p[w - 1];
    }
    assert s[w..w + |lines[k]|] == p[w..];
    if k + 1 == |lines| { assert lines[..k + 1] == lines; }
  }

  /** Python's ordering of `str` values: code point by code point, a proper
      prefix first. */
  predicate Less(a: string, b: string)
    decreases |a|
  {
    |b| > 0 && (|a| == 0 || a[0] < b[0] || (a[0] == b[0] && Less(a[1..], b[1..])))
  }

  lemma {:induction false} LessIrreflexive(a: string)
    ensures !Less(a, a)
    decreases |a|
  {
    if |a| > 0 { LessIrreflexive(a[1..]); }
  }

  lemma {:induction false} LessTransitive(a: string, b: string, c: string)
    requires Less(a, b) && Less(b, c)
    ensures Less(a, c)
    decreases |a|
  {
    if |a| > 0 && a[0] == b[0] && b[0] == c[0] {
      LessTransitive(a[1..], b[1..], c[1..]);
    }
  }

  lemma {:induction false} LessTotal(a: string, b: string)
    requires a != b
    ensures Less(a, b) != Less(b, a)
    decreases |a|
  {
    if |a| > 0 && |b| > 0 && a[0] == b[0] {
      assert a == [a[0]] + a[1..] && b == [b[0]] + b[1..];
      LessTotal(a[1..], b[1..]);
    }
  }

  predicate StrictlySorted(s: seq<string>) {
    forall i, j :: 0 <= i < j < |s| ==> Less(s[i], s[j])
  }

  /** Insert `x` into a strictly sorted list unless it is already there. */
  function InsertSorted(x: string, s: seq<string>): (r: seq<string>)
    requires StrictlySorted(s)
    ensures StrictlySorted(r)
    ensures forall y :: y in r <==> y == x || y in s
  {
    if s == [] then [x]
    else if x == s[0] then s
    else if Less(x, s[0]) then
      assert forall j :: 0 < j < |s| ==> Less(x, s[j]) by {
        forall j | 0 < j < |s| ensures Less(x, s[j]) { LessTransitive(x, s[0], s[j]); }
      }
      [x] + s
    else
      LessTotal(x, s[0]);
      var rest := InsertSorted(x, s[1..]);
      assert forall y :: y in rest ==> Less(s[0], y) by {
        forall y | y in rest ensures Less(s[0], y) {
          if y != x { var j :| 0 <= j < |s[1..]| && s[1..][j] == y; assert s[j + 1] == y; }
        }
      }
      [s[0]] + rest
  }

  /** Python's `sorted(set(xs))`: the distinct elements of `xs` in increasing order. */
  function SortedDistinct(xs: seq<string>): (r: seq<string>)
    ensures StrictlySorted(r)
    ensures forall y :: y in r <==> y in xs
  {
    if xs == [] then [] else InsertSorted(xs[|xs| - 1], SortedDistinct(xs[..|xs| - 1]))
  }

  /** A strictly sorted list is determined by its elements: so whatever way
      one sorts a set, the result is `SortedDistinct`'s. */
  lemma {:induction false} SortedListsWithSameElements(a: seq<string>, b: seq<string>)
    requires StrictlySorted(a) && StrictlySorted(b)
    requires forall y :: y in a <==> y in b
    ensures a == b
    decreases |a|
  {
    assert a == [] <==> b == [] by {
      assert a != [] ==> a[0] in a;
      assert b != [] ==> b[0] in b;
    }
    if a != [] {
      assert a[0] in b;
      if a[0] != b[0] {
        assert b[0] in b;
        var i :| 0 <= i < |a| && a[i] == b[0];
        var j :| 0 <= j < |b| && b[j] == a[0];
        assert i > 0 && j > 0;
        assert Less(a[0], b[0]) && Less(b[0], a[0]);
        LessTotal(a[0], b[0]);
        assert false;
      }
      forall y ensures y in a[1..] <==> y in b[1..] {
        if y in a[1..] {
          var i :| 0 <= i < |a[1..]| && a[1..][i] == y;
          assert Less(a[0], a[i + 1]);
          LessIrreflexive(y);
          assert y in b;
        }
        if y in b[1..] {
          var i :| 0 <= i < |b[1..]| && b[1..][i] == y;
          assert Less(b[0], b[i + 1]);
          LessIrreflexive(y);
          assert y in a;
        }
      }
      SortedListsWithSameElements(a[1..], b[1..]);
      assert a == [a[0]] + a[1..] && b == [b[0]] + b[1..];
    }
  }

  function DigitChar(d: nat): (c: char)
    requires d < 10
    ensures '0' <= c <= '9'
  {
    (d + '0' as int) as char
  }

  /** Python's `str(n)` for a natural number. */
  function Decimal(n: nat): (s: string)
    ensures |s| >= 1
    ensures forall i :: 0 <= i < |s| ==> '0' <= s[i] <= '9'
    ensures s[0] == '0' <==> n == 0
    ensures |s| == 1 || s[0] != '0'
  {
    if n < 10 then [DigitChar(n)] else Decimal(n / 10) + [DigitChar(n % 10)]
  }

  /** The number a string of decimal digits spells. */
  function DecimalValue(s: string): nat
    requires forall i :: 0 <= i < |s| ==> '0' <= s[i] <= '9'
  {
    if s == [] then 0 else 10 * DecimalValue(s[..|s| - 1]) + (s[|s| - 1] as int - '0' as int)
  }

  /** Reading back what `Decimal` wrote gives the number. */
  lemma {:induction false} DecimalRoundTrip(n: nat)
    ensures DecimalValue(Decimal(n)) == n
  {
    if n >= 10 {
      var s := Decimal(n);
      assert s[..|s| - 1] == Decimal(n / 10);
      DecimalRoundTrip(n / 10);
    }
  }
}
