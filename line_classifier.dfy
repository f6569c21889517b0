/** The line classifier of the chat parser: decides whether one transcript
    line opens a new message under one of the three header layouts, and if so
    returns the four capture groups (date, time, sender, text). Each layout's
    regular expression is written out as a matcher that reproduces what
    `re.match` returns, including its backtracking. */
module LineClassifier {
  import opened Text

  /** The capture groups of a header pattern, as `match.groups()` returns them. */
  datatype Groups = Groups(date: string, time: string, sender: string, text: string)

  /** The header layouts, in the order the parser tries them. */
  datatype Layout = BracketedFullYear | BracketedMeridiem | Dashed

  const Layouts: seq<Layout> := [BracketedFullYear, BracketedMeridiem, Dashed]

  /** `\d`, restricted to ASCII digits. */
  predicate IsDigit(c: char) {
    '0' <= c <= '9'
  }

  predicate DigitsAt(s: string, i: nat, n: nat) {
    i + n <= |s| && forall k :: i <= k < i + n ==> IsDigit(s[k])
  }

  /** `\d{2}/\d{2}/\d{4}` (or `\d{2}/\d{2}/\d{2}` with two year digits) at `i`. */
  predicate DateAt(s: string, i: nat, yearDigits: nat) {
    i + 6 + yearDigits <= |s| && IsDigit(s[i]) && IsDigit(s[i + 1]) && s[i + 2] == '/'
    && IsDigit(s[i + 3]) && IsDigit(s[i + 4]) && s[i + 5] == '/' && DigitsAt(s, i + 6, yearDigits)
  }

  /** `\d{2}:\d{2}` at `i`. */
  predicate ClockAt(s: string, i: nat) {
    i + 5 <= |s| && IsDigit(s[i]) && IsDigit(s[i + 1]) && s[i + 2] == ':' && IsDigit(s[i + 3]) && IsDigit(s[i + 4])
  }

  /** `\d{2}:\d{2}:\d{2}` at `i`. */
  predicate ClockSecondsAt(s: string, i: nat) {
    ClockAt(s, i) && i + 8 <= |s| && s[i + 5] == ':' && IsDigit(s[i + 6]) && IsDigit(s[i + 7])
  }

  /** Where a greedy `\s*` starting at `i` stops. */
  function SkipSpaces(s: string, i: nat): (j: nat)
    requires i <= |s|
    ensures i <= j <= |s|
    decreases |s| - i
  {
    if i < |s| && IsSpace(s[i]) then SkipSpaces(s, i + 1) else i
  }

  lemma {:induction false} SkipSpacesStops(s: string, i: nat)
    requires i <= |s|
    ensures forall k :: i <= k < SkipSpaces(s, i) ==> IsSpace(s[k])
    ensures SkipSpaces(s, i) < |s| ==> !IsSpace(s[SkipSpaces(s, i)])
    decreases |s| - i
  {
    if i < |s| && IsSpace(s[i]) { SkipSpacesStops(s, i + 1); }
  }

  /** The first ':' at or after `i`. */
  function FindColon(s: string, i: nat): (r: Option<nat>)
    requires i <= |s|
    ensures r.Some? ==> i <= r.value < |s| && s[r.value] == ':'
    decreases |s| - i
  {
    if i == |s| then None else if s[i] == ':' then Some(i) else FindColon(s, i + 1)
  }

  lemma {:induction false} FindColonFirst(s: string, i: nat)
    requires i <= |s|
    ensures FindColon(s, i).Some? ==> forall k :: i <= k < FindColon(s, i).value ==> s[k] != ':'
    ensures FindColon(s, i).None? ==> forall k :: i <= k < |s| ==> s[k] != ':'
    decreases |s| - i
  {
    if i < |s| && s[i] != ':' { FindColonFirst(s, i + 1); }
  }

  /** Where a greedy `.*` starting at `i` stops: at the next line break. */
  function LineEnd(s: string, i: nat): (j: nat)
    requires i <= |s|
    ensures i <= j <= |s|
    decreases |s| - i
  {
    if i == |s| || s[i] == '\n' then i else LineEnd(s, i + 1)
  }

  lemma {:induction false} LineEndStops(s: string, i: nat)
    requires i <= |s|
    ensures forall k :: i <= k < LineEnd(s, i) ==> s[k] != '\n'
    ensures LineEnd(s, i) == |s| || s[LineEnd(s, i)] == '\n'
    decreases |s| - i
  {
    if i < |s| && s[i] != '\n' { LineEndStops(s, i + 1); }
  }

  /** `.*` from `i` stops at `e` when no line break comes before `e` and the
      line ends there. */
  lemma {:induction false} LineEndAt(s: string, i: nat, e: nat)
    requires i <= e <= |s| && (forall k :: i <= k < e ==> s[k] != '\n')
    requires e == |s| || s[e] == '\n'
    ensures LineEnd(s, i) == e
    decreases e - i
  {
    if i < e { LineEndAt(s, i + 1, e); }
  }

  /** What every layout ends with, `\s*([^:]+):\s*(.*)` from position `i`: the
      sender and text groups. The sender group runs to the first ':'; the
      greedy `\s*` before it gives back one character when only whitespace
      precedes that ':'. */
  function SenderAndText(s: string, i: nat): (r: Option<(string, string)>)
    requires i <= |s|
    ensures r.Some? ==> r.value.0 != [] && ':' !in r.value.0
    ensures r.Some? ==> '\n' !in r.value.1 && (r.value.1 == [] || !IsSpace(r.value.1[0]))
    ensures r.None? <==> FindColon(s, i).None? || FindColon(s, i) == Some(i)
  {
    match FindColon(s, i)
    case None => None
    case Some(c) =>
      if c == i then None
      else
        SenderGroupShape(s, i, c);
        TextGroupShape(s, c);
        Some((SenderGroup(s, i, c), TextGroup(s, c)))
  }

  /** The sender group is never empty and holds no ':'. */
  lemma SenderGroupShape(s: string, i: nat, c: nat)
    requires i < c < |s| && FindColon(s, i) == Some(c)
    ensures SenderGroup(s, i, c) != [] && ':' !in SenderGroup(s, i, c)
  {
    FindColonFirst(s, i);
    var k, g := SenderStart(s, i, c), SenderGroup(s, i, c);
    assert forall x :: 0 <= x < |g| ==> g[x] == s[k + x];
  }

  /** The text group stays on one line and does not start with whitespace. */
  lemma TextGroupShape(s: string, c: nat)
    requires c < |s|
    ensures '\n' !in TextGroup(s, c) && (TextGroup(s, c) == [] || !IsSpace(TextGroup(s, c)[0]))
  {
    var t := SkipSpaces(s, c + 1);
    SkipSpacesStops(s, c + 1);
    LineEndStops(s, t);
    var g := TextGroup(s, c);
    assert forall x :: 0 <= x < |g| ==> g[x] == s[t + x];
  }

  /** Where the sender group starts when the first ':' after `i` is at `c`:
      after the leading whitespace, but never past `c - 1`. */
  function SenderStart(s: string, i: nat, c: nat): (k: nat)
    requires i < c <= |s|
    ensures i <= k < c
  {
    var w := SkipSpaces(s, i);
    if w < c then w else c - 1
  }

  /** The sender group when the first ':' after `i` is at `c`. */
  function SenderGroup(s: string, i: nat, c: nat): (r: string)
    requires i < c <= |s|
  {
    s[SenderStart(s, i, c)..c]
  }

  /** The text group after the ':' at `c`: the rest of the line once leading
      whitespace is skipped. */
  function TextGroup(s: string, c: nat): (r: string)
    requires c < |s|
  {
    var t := SkipSpaces(s, c + 1);
    s[t..LineEnd(s, t)]
  }

  /** The groups read once the first ':' has been found. */
  lemma SenderAndTextAt(s: string, i: nat, c: nat)
    requires i < c < |s| && FindColon(s, i) == Some(c)
    ensures SenderAndText(s, i) == Some((SenderGroup(s, i, c), TextGroup(s, c)))
  {
  }

  /** How `\s*([^:]+):\s*(.*)` from `i` lays out a line: whitespace up to `k`,
      the sender from `k` to the first ':' at `c`, whitespace up to `t`, and the
      text from `t` to the line end `e`. The first `\s*` stops at the first
      non-space, or gives back one character when it reaches the ':'. */
  predicate TailAt(s: string, i: nat, k: nat, c: nat, t: nat, e: nat, sender: string, text: string) {
    && i <= k < c < t <= e <= |s|
    && (forall x :: i <= x < k ==> IsSpace(s[x])) && (k == c - 1 || !IsSpace(s[k]))
    && (forall x :: i <= x < c ==> s[x] != ':') && s[c] == ':' && sender == s[k..c]
    && (forall x :: c < x < t ==> IsSpace(s[x])) && (t == |s| || !IsSpace(s[t]))
    && (forall x :: t <= x < e ==> s[x] != '\n') && (e == |s| || s[e] == '\n') && text == s[t..e]
  }

  /** The tail groups are the slices of the line that the pattern lays out,
      and any such layout is what the tail matcher reads. */
  lemma SenderAndTextExact(s: string, i: nat, sender: string, text: string)
    requires i <= |s|
    ensures SenderAndText(s, i) == Some((sender, text)) <==> exists k, c, t, e :: TailAt(s, i, k, c, t, e, sender, text)
  {
    if SenderAndText(s, i) == Some((sender, text)) {
      SenderAndTextSound(s, i, sender, text);
    }
    if exists k, c, t, e :: TailAt(s, i, k, c, t, e, sender, text) {
      var k, c, t, e :| TailAt(s, i, k, c, t, e, sender, text);
      SenderAndTextComplete(s, i, k, c, t, e, sender, text);
    }
  }

  /** The tail matcher reads only the layout the pattern describes. */
  lemma SenderAndTextSound(s: string, i: nat, sender: string, text: string)
    requires i <= |s| && SenderAndText(s, i) == Some((sender, text))
    ensures exists k, c, t, e :: TailAt(s, i, k, c, t, e, sender, text)
  {
    var c := FindColon(s, i).value;
    FindColonFirst(s, i);
    SkipSpacesStops(s, i);
    var k := SenderStart(s, i, c);
    var t := SkipSpaces(s, c + 1);
    SkipSpacesStops(s, c + 1);
    var e := LineEnd(s, t);
    LineEndStops(s, t);
    assert TailAt(s, i, k, c, t, e, sender, text);
  }

  /** Any layout the pattern describes is read by the tail matcher. */
  lemma SenderAndTextComplete(s: string, i: nat, k: nat, c: nat, t: nat, e: nat, sender: string, text: string)
    requires TailAt(s, i, k, c, t, e, sender, text)
    ensures SenderAndText(s, i) == Some((sender, text))
  {
    FindColonAt(s, i, c);
    SenderStartAt(s, i, k, c);
    SkipSpacesOver(s, c + 1, t - c - 1);
    LineEndAt(s, t, e);
    SenderAndTextAt(s, i, c);
  }

  /** The sender starts where the whitespace run before it ends, or one
      character before the ':' when that run reaches it. */
  lemma SenderStartAt(s: string, i: nat, k: nat, c: nat)
    requires i <= k < c < |s| && s[c] == ':'
    requires (forall x :: i <= x < k ==> IsSpace(s[x])) && (k == c - 1 || !IsSpace(s[k]))
    ensures SenderStart(s, i, c) == k
  {
    if !IsSpace(s[k]) {
      SkipSpacesOver(s, i, k - i);
    } else {
      SkipSpacesOver(s, i, c - i);
    }
  }

  /** A sender of whitespace only: the first `\s*` gives back the last
      whitespace character before the ':', and the sender group is just that
      character. */
  lemma BlankSenderBacktracks(s: string, i: nat, c: nat)
    requires i < c < |s| && s[c] == ':' && forall x :: i <= x < c ==> IsSpace(s[x])
    ensures SenderAndText(s, i).Some? && SenderAndText(s, i).value.0 == [s[c - 1]]
  {
    FindColonAt(s, i, c);
    SkipSpacesOver(s, i, c - i);
    SenderAndTextAt(s, i, c);
  }

  /** The tail groups of a header line are its own sender and text, whatever
      whitespace surrounds them. */
  predicate WellFormedTail(g: Groups) {
    g.sender != [] && ':' !in g.sender && '\n' !in g.text && (g.text == [] || !IsSpace(g.text[0]))
  }

  /** Where a layout's prefix has put the time group and the start of the
      sender-and-text tail. */
  datatype Span = Span(timeStart: nat, timeEnd: nat, tailStart: nat)

  /** The prefix of `\[(\d{2}/\d{2}/\d{4}),\s*(\d{2}:\d{2}:\d{2})\]`. */
  function BracketedFullYearHead(line: string): (r: Option<Span>)
    ensures r.Some? ==> |line| >= 12 && line[0] == '[' && DateAt(line, 1, 4) && line[11] == ','
    ensures r.Some? ==> && 12 <= r.value.timeStart && r.value.timeEnd == r.value.timeStart + 8
                        && r.value.tailStart == r.value.timeEnd + 1 <= |line| && ClockSecondsAt(line, r.value.timeStart)
  {
    if |line| >= 12 && line[0] == '[' && DateAt(line, 1, 4) && line[11] == ',' then
      var i := SkipSpaces(line, 12);
      if ClockSecondsAt(line, i) && i + 8 < |line| && line[i + 8] == ']' then Some(Span(i, i + 8, i + 9))
      else None
    else None
  }

  /** `\[(\d{2}/\d{2}/\d{4}),\s*(\d{2}:\d{2}:\d{2})\]\s*([^:]+):\s*(.*)` */
  function MatchBracketedFullYear(line: string): (r: Option<Groups>)
    ensures r.Some? ==> |line| > 0 && line[0] == '['
    ensures r.Some? ==> |r.value.date| == 10 && DateAt(r.value.date, 0, 4)
    ensures r.Some? ==> |r.value.time| == 8 && ClockSecondsAt(r.value.time, 0)
    ensures r.Some? ==> WellFormedTail(r.value)
  {
    match BracketedFullYearHead(line)
    case None => None
    case Some(sp) =>
      match SenderAndText(line, sp.tailStart)
      case None => None
      case Some((sender, text)) => Some(Groups(line[1..11], line[sp.timeStart..sp.timeEnd], sender, text))
  }

  /** `\d{1,2}:` at `i`: the number of hour digits, 0 when it does not match. */
  function HourDigits(s: string, i: nat): (h: nat)
    ensures h <= 2
    ensures h > 0 ==> DigitsAt(s, i, h) && i + h < |s| && s[i + h] == ':'
  {
    if i + 2 < |s| && IsDigit(s[i]) && IsDigit(s[i + 1]) && s[i + 2] == ':' then 2
    else if i + 1 < |s| && IsDigit(s[i]) && s[i + 1] == ':' then 1
    else 0
  }

  /** The prefix of `\[(\d{2}/\d{2}/\d{2}),\s*(\d{1,2}:\d{2}:\d{2}\s*[AP]M)\]`. */
  function BracketedMeridiemHead(line: string): (r: Option<Span>)
    ensures r.Some? ==> |line| >= 10 && line[0] == '[' && DateAt(line, 1, 2) && line[9] == ','
    ensures r.Some? ==> && 10 <= r.value.timeStart && r.value.timeStart + 9 <= r.value.timeEnd
                        && r.value.tailStart == r.value.timeEnd + 1 <= |line| && line[r.value.timeEnd - 1] == 'M'
  {
    if |line| >= 10 && line[0] == '[' && DateAt(line, 1, 2) && line[9] == ',' then
      var i := SkipSpaces(line, 10);
      var h := HourDigits(line, i);
      if h > 0 && ClockAt(line, i + h + 1) then
        var j := SkipSpaces(line, i + h + 6);
        if j + 2 < |line| && (line[j] == 'A' || line[j] == 'P') && line[j + 1] == 'M' && line[j + 2] == ']' then
          Some(Span(i, j + 2, j + 3))
        else None
      else None
    else None
  }

  /** `\[(\d{2}/\d{2}/\d{2}),\s*(\d{1,2}:\d{2}:\d{2}\s*[AP]M)\]\s*([^:]+):\s*(.*)` */
  function MatchBracketedMeridiem(line: string): (r: Option<Groups>)
    ensures r.Some? ==> |line| > 0 && line[0] == '['
    ensures r.Some? ==> |r.value.date| == 8 && DateAt(r.value.date, 0, 2)
    ensures r.Some? ==> |r.value.time| >= 9 && r.value.time[|r.value.time| - 1] == 'M'
    ensures r.Some? ==> WellFormedTail(r.value)
  {
    match BracketedMeridiemHead(line)
    case None => None
    case Some(sp) =>
      match SenderAndText(line, sp.tailStart)
      case None => None
      case Some((sender, text)) => Some(Groups(line[1..9], line[sp.timeStart..sp.timeEnd], sender, text))
  }

  /** The prefix of `(\d{2}/\d{2}/\d{4}),\s*(\d{2}:\d{2})\s*-`. */
  function DashedHead(line: string): (r: Option<Span>)
    ensures r.Some? ==> |line| > 10 && DateAt(line, 0, 4) && line[10] == ','
    ensures r.Some? ==> && 11 <= r.value.timeStart && r.value.timeEnd == r.value.timeStart + 5
                        && r.value.timeEnd < r.value.tailStart <= |line| && ClockAt(line, r.value.timeStart)
  {
    if DateAt(line, 0, 4) && |line| > 10 && line[10] == ',' then
      var i := SkipSpaces(line, 11);
      if ClockAt(line, i) then
        var j := SkipSpaces(line, i + 5);
        if j < |line| && line[j] == '-' then Some(Span(i, i + 5, j + 1))
        else None
      else None
    else None
  }

  /** `(\d{2}/\d{2}/\d{4}),\s*(\d{2}:\d{2})\s*-\s*([^:]+):\s*(.*)` */
  function MatchDashed(line: string): (r: Option<Groups>)
    ensures r.Some? ==> |line| > 0 && IsDigit(line[0])
    ensures r.Some? ==> |r.value.date| == 10 && DateAt(r.value.date, 0, 4)
    ensures r.Some? ==> |r.value.time| == 5 && ClockAt(r.value.time, 0)
    ensures r.Some? ==> WellFormedTail(r.value)
  {
    match DashedHead(line)
    case None => None
    case Some(sp) =>
      match SenderAndText(line, sp.tailStart)
      case None => None
      case Some((sender, text)) => Some(Groups(line[..10], line[sp.timeStart..sp.timeEnd], sender, text))
  }

  function MatchLayout(layout: Layout, line: string): (r: Option<Groups>)
    ensures r.Some? ==> WellFormedTail(r.value)
  {
    match layout
    case BracketedFullYear => MatchBracketedFullYear(line)
    case BracketedMeridiem => MatchBracketedMeridiem(line)
    case Dashed => MatchDashed(line)
  }

  /** The groups of the first layout in `layouts` that matches `line`. */
  function FirstMatch(layouts: seq<Layout>, line: string): (r: Option<Groups>)
    ensures r.Some? ==> WellFormedTail(r.value)
  {
    if layouts == [] then None
    else match MatchLayout(layouts[0], line)
      case Some(g) => Some(g)
      case None => FirstMatch(layouts[1..], line)
  }

  /** The first layout that matches wins: there is a result exactly when some
      layout matches, and it is the groups of a layout before which none
      matches. */
  lemma {:induction false} FirstMatchSpec(layouts: seq<Layout>, line: string)
    ensures FirstMatch(layouts, line).Some? <==> exists k :: 0 <= k < |layouts| && MatchLayout(layouts[k], line).Some?
    ensures FirstMatch(layouts, line).Some? ==>
              exists k :: 0 <= k < |layouts| && FirstMatch(layouts, line) == MatchLayout(layouts[k], line)
                          && (forall j :: 0 <= j < k ==> MatchLayout(layouts[j], line).None?)
  {
    if layouts != [] && MatchLayout(layouts[0], line).None? {
      var rest := layouts[1..];
      FirstMatchSpec(rest, line);
      assert forall k :: 0 < k < |layouts| ==> layouts[k] == rest[k - 1];
      if FirstMatch(rest, line).Some? {
        var k :| 0 <= k < |rest| && FirstMatch(rest, line) == MatchLayout(rest[k], line)
                 && (forall j :: 0 <= j < k ==> MatchLayout(rest[j], line).None?);
        assert FirstMatch(layouts, line) == MatchLayout(layouts[k + 1], line);
      }
    }
  }

  /** The classifier: the first header layout that matches, or `None` for a
      line that opens no message. */
  function Classify(line: string): (r: Option<Groups>)
    ensures r.Some? ==> WellFormedTail(r.value)
  {
    FirstMatch(Layouts, line)
  }

  predicate IsHeader(line: string) {
    Classify(line).Some?
  }

  /** The loop over `patterns` with its `break`: try each layout in turn and
      stop at the first that matches. */
  method MatchHeader(line: string) returns (groups: Option<Groups>)
    ensures groups == Classify(line)
    ensures groups.Some? <==> exists layout :: MatchLayout(layout, line).Some?
  {
    groups := None;
    var k := 0;
    while k < |Layouts|
      invariant 0 <= k <= |Layouts|
      invariant groups.None? ==> FirstMatch(Layouts[k..], line) == Classify(line)
      invariant groups.Some? ==> groups == Classify(line)
    {
      var m := MatchLayout(Layouts[k], line);
      if m.Some? {
        groups := m;
        break;
      }
      assert Layouts[k..][1..] == Layouts[k + 1..];
      k := k + 1;
    }
    assert Layouts[k..] == [] ==> groups.None? ==> Classify(line).None?;
    FirstMatchSpec(Layouts, line);
    LayoutsExhaustive(line);
  }

  lemma LayoutsExhaustive(line: string)
    ensures (exists layout :: MatchLayout(layout, line).Some?) <==> exists k :: 0 <= k < |Layouts| && MatchLayout(Layouts[k], line).Some?
  {
    forall layout | MatchLayout(layout, line).Some?
      ensures exists k :: 0 <= k < |Layouts| && MatchLayout(Layouts[k], line).Some?
    {
      match layout
      case BracketedFullYear => assert Layouts[0] == layout;
      case BracketedMeridiem => assert Layouts[1] == layout;
      case Dashed => assert Layouts[2] == layout;
    }
  }

  /** The three layouts exclude one another: the dashed layout starts with a
      digit, the bracketed ones with '['; of those, the full-year date has a
      digit where the two-digit-year date has its ','. So at most one layout
      matches any line, and the order they are tried in never matters. */
  lemma LayoutsExclusive(line: string, a: Layout, b: Layout)
    requires MatchLayout(a, line).Some? && MatchLayout(b, line).Some?
    ensures a == b
  {
    if MatchBracketedFullYear(line).Some? && MatchBracketedMeridiem(line).Some? {
      assert IsDigit(line[9]) by { assert DigitsAt(line, 7, 4); }
      assert false;
    }
  }

  /** Whichever layout matches is the classifier's answer. */
  lemma ClassifyIsAnyMatch(line: string, layout: Layout)
    requires MatchLayout(layout, line).Some?
    ensures Classify(line) == MatchLayout(layout, line)
  {
    LayoutsExhaustive(line);
    FirstMatchSpec(Layouts, line);
    assert Classify(line).Some?;
    var k :| 0 <= k < |Layouts| && Classify(line) == MatchLayout(Layouts[k], line);
    LayoutsExclusive(line, Layouts[k], layout);
  }

  lemma {:induction false} SkipSpacesOver(s: string, i: nat, n: nat)
    requires i + n <= |s|
    requires forall k :: i <= k < i + n ==> IsSpace(s[k])
    requires i + n == |s| || !IsSpace(s[i + n])
    ensures SkipSpaces(s, i) == i + n
    decreases n
  {
    if n > 0 { SkipSpacesOver(s, i + 1, n - 1); }
  }

  lemma {:induction false} FindColonAt(s: string, i: nat, c: nat)
    requires i <= c < |s| && s[c] == ':'
    requires forall k :: i <= k < c ==> s[k] != ':'
    ensures FindColon(s, i) == Some(c)
    decreases c - i
  {
    if i < c { FindColonAt(s, i + 1, c); }
  }

  lemma {:induction false} LineEndAtEnd(s: string, i: nat)
    requires i <= |s|
    requires forall k :: i <= k < |s| ==> s[k] != '\n'
    ensures LineEnd(s, i) == |s|
    decreases |s| - i
  {
    if i < |s| { LineEndAtEnd(s, i + 1); }
  }

  /** The scanners look only at what follows their start position. */
  lemma {:induction false} SkipSpacesDrop(s: string, n: nat, i: nat)
    requires n + i <= |s|
    ensures SkipSpaces(s, n + i) == n + SkipSpaces(s[n..], i)
    decreases |s| - n - i
  {
    if n + i < |s| {
      assert s[n..][i] == s[n + i];
      if IsSpace(s[n + i]) { SkipSpacesDrop(s, n, i + 1); }
    }
  }

  lemma {:induction false} FindColonDrop(s: string, n: nat, i: nat)
    requires n + i <= |s|
    ensures FindColon(s[n..], i).None? ==> FindColon(s, n + i).None?
    ensures FindColon(s[n..], i).Some? ==> FindColon(s, n + i) == Some(n + FindColon(s[n..], i).value)
    decreases |s| - n - i
  {
    if n + i < |s| {
      assert s[n..][i] == s[n + i];
      if s[n + i] != ':' { FindColonDrop(s, n, i + 1); }
    }
  }

  lemma {:induction false} LineEndDrop(s: string, n: nat, i: nat)
    requires n + i <= |s|
    ensures LineEnd(s, n + i) == n + LineEnd(s[n..], i)
    decreases |s| - n - i
  {
    if n + i < |s| {
      assert s[n..][i] == s[n + i];
      if s[n + i] != '\n' { LineEndDrop(s, n, i + 1); }
    }
  }

  lemma DropSlice(s: string, n: nat, a: nat, b: nat)
    requires a <= b && n + b <= |s|
    ensures s[n..][a..b] == s[n + a..n + b]
  {
  }

  lemma SenderGroupDrop(s: string, n: nat, c: nat)
    requires 0 < c && n + c < |s|
    ensures SenderGroup(s, n, n + c) == SenderGroup(s[n..], 0, c)
  {
    SkipSpacesDrop(s, n, 0);
    DropSlice(s, n, SenderStart(s[n..], 0, c), c);
  }

  lemma TextGroupDrop(s: string, n: nat, c: nat)
    requires n + c < |s|
    ensures TextGroup(s, n + c) == TextGroup(s[n..], c)
  {
    SkipSpacesDrop(s, n, c + 1);
    var t := SkipSpaces(s[n..], c + 1);
    LineEndDrop(s, n, t);
    DropSlice(s, n, t, LineEnd(s[n..], t));
  }

  /** The sender and text groups depend only on the line after the header's prefix. */
  lemma SenderAndTextDrop(s: string, n: nat)
    requires n <= |s|
    ensures SenderAndText(s, n) == SenderAndText(s[n..], 0)
  {
    var q := s[n..];
    FindColonDrop(s, n, 0);
    match FindColon(q, 0)
    case None =>
    case Some(c) =>
      if c > 0 {
        SenderAndTextAt(q, 0, c);
        SenderAndTextAt(s, n, n + c);
        SenderGroupDrop(s, n, c);
        TextGroupDrop(s, n, c);
      }
  }

  /** How a message's sender and text are laid out after the header's prefix. */
  function TailLine(ws1: string, sender: string, ws2: string, text: string): string {
    (ws1 + sender) + ([':'] + (ws2 + text))
  }

  /** What the tail of a header line must look like to be read back unchanged. */
  predicate ReadableTail(ws1: string, sender: string, ws2: string, text: string) {
    IsBlank(ws1) && IsBlank(ws2) && sender != [] && ':' !in sender && !IsSpace(sender[0])
    && '\n' !in text && (text == [] || !IsSpace(text[0]))
  }

  /** A greedy `\s*` runs over a blank prefix and stops at a non-blank character. */
  lemma SkipBlankPrefix(w: string, q: string)
    requires IsBlank(w) && (q == [] || !IsSpace(q[0]))
    ensures SkipSpaces(w + q, 0) == |w|
  {
    assert forall k :: 0 <= k < |w| ==> (w + q)[k] == w[k];
    assert q != [] ==> (w + q)[|w|] == q[0];
    SkipSpacesOver(w + q, 0, |w|);
  }

  /** In a tail line the first ':' ends the sender, and the sender group is
      the sender itself. */
  lemma TailSender(ws1: string, sender: string, ws2: string, text: string)
    requires ReadableTail(ws1, sender, ws2, text)
    ensures var s := TailLine(ws1, sender, ws2, text);
      var c := |ws1| + |sender|;
      && 0 < c < |s| && FindColon(s, 0) == Some(c) && SenderGroup(s, 0, c) == sender
  {
    var x := ws1 + sender;
    var s := x + ([':'] + (ws2 + text));
    var c := |x|;
    assert SkipSpaces(s, 0) == |ws1| by {
      SkipBlankPrefix(ws1, sender);
      assert forall k :: 0 <= k <= |ws1| ==> s[k] == x[k];
      SkipSpacesStops(x, 0);
      SkipSpacesOver(s, 0, |ws1|);
    }
    assert FindColon(s, 0) == Some(c) by {
      assert forall k :: 0 <= k < c ==> s[k] == x[k];
      assert forall k :: 0 <= k < |ws1| ==> x[k] == ws1[k];
      assert forall k :: |ws1| <= k < c ==> x[k] == sender[k - |ws1|];
      FindColonAt(s, 0, c);
    }
    assert s[|ws1|..c] == sender by {
      assert s[..c] == x;
      assert x[|ws1|..] == sender;
    }
  }

  /** In a tail line the text group after that ':' is the text itself. */
  lemma TailText(ws1: string, sender: string, ws2: string, text: string)
    requires ReadableTail(ws1, sender, ws2, text)
    ensures var s := TailLine(ws1, sender, ws2, text);
      var c := |ws1| + |sender|;
      && c < |s| && TextGroup(s, c) == text
  {
    var z := ws2 + text;
    var s := (ws1 + sender) + ([':'] + z);
    var c := |ws1| + |sender|;
    assert s[c + 1..] == z;
    GroupAfter(s, c + 1, ws2, text);
  }

  /** Where the rest of a line is blank space and then one line of text, the
      text group after the blank space is that text. */
  lemma GroupAfter(s: string, m: nat, ws2: string, text: string)
    requires m <= |s| && s[m..] == ws2 + text
    requires IsBlank(ws2) && '\n' !in text && (text == [] || !IsSpace(text[0]))
    ensures SkipSpaces(s, m) == m + |ws2| && LineEnd(s, m + |ws2|) == |s| && s[m + |ws2|..|s|] == text
  {
    SkipBlankAt(s, m, ws2, text);
    TextToEnd(s, m, ws2, text);
  }

  /** What follows the blank run `w` at `m` is the rest of the last line. */
  lemma TextToEnd(s: string, m: nat, w: string, q: string)
    requires m <= |s| && s[m..] == w + q && '\n' !in q
    ensures LineEnd(s, m + |w|) == |s| && s[m + |w|..|s|] == q
  {
    DropConcat(s, m, w, q);
    assert '\n' !in s[m + |w|..];
    LineEndNoBreak(s, m + |w|);
  }

  lemma DropConcat(s: string, m: nat, w: string, q: string)
    requires m <= |s| && s[m..] == w + q
    ensures s[m + |w|..] == q && s[m + |w|..|s|] == q
  {
    DropSlice(s, m, |w|, |s| - m);
    assert (w + q)[|w|..] == q;
  }

  /** A greedy `\s*` at `m` runs over the blank run that starts there. */
  lemma SkipBlankAt(s: string, m: nat, w: string, q: string)
    requires m <= |s| && s[m..] == w + q
    requires IsBlank(w) && (q == [] || !IsSpace(q[0]))
    ensures SkipSpaces(s, m) == m + |w|
  {
    SkipSpacesDrop(s, m, 0);
    SkipBlankPrefix(w, q);
  }

  /** `.+` from `e` runs to the end when no line break follows. */
  lemma LineEndNoBreak(s: string, e: nat)
    requires e <= |s| && '\n' !in s[e..]
    ensures LineEnd(s, e) == |s|
  {
    LineEndDrop(s, e, 0);
    LineEndAtEnd(s[e..], 0);
  }

  /** The tail matcher reads back the sender and text it is given, whatever
      whitespace surrounds them. */
  lemma TailRoundTrip(ws1: string, sender: string, ws2: string, text: string)
    requires ReadableTail(ws1, sender, ws2, text)
    ensures SenderAndText(TailLine(ws1, sender, ws2, text), 0) == Some((sender, text))
  {
    TailSender(ws1, sender, ws2, text);
    TailText(ws1, sender, ws2, text);
    SenderAndTextAt(TailLine(ws1, sender, ws2, text), 0, |ws1| + |sender|);
  }

  /** The tail read back after a header prefix of length `n`. */
  lemma TailAfterPrefix(p: string, n: nat, ws1: string, sender: string, ws2: string, text: string)
    requires n == |p| && ReadableTail(ws1, sender, ws2, text)
    ensures SenderAndText(p + TailLine(ws1, sender, ws2, text), n) == Some((sender, text))
  {
    var tail := TailLine(ws1, sender, ws2, text);
    SenderAndTextDrop(p + tail, n);
    assert (p + tail)[n..] == tail;
    TailRoundTrip(ws1, sender, ws2, text);
  }

  lemma MiddleSlice(a: string, m: string, b: string)
    ensures (a + m + b)[|a|..|a| + |m|] == m
  {
  }

  // Full-year bracketed headers

  /** The prefix of a full-year bracketed header, up to and including its ']'. */
  function BracketedFullYearPrefix(date: string, ws0: string, time: string): string {
    "[" + date + "," + ws0 + time + "]"
  }

  /** The fields of a full-year bracketed header located in `line`, with its
      time group at `i`. */
  predicate BracketedFullYearFieldsAt(line: string, i: nat, date: string, time: string) {
    && 12 <= i && i + 9 <= |line|
    && line[0] == '[' && DateAt(line, 1, 4) && line[11] == ',' && SkipSpaces(line, 12) == i
    && ClockSecondsAt(line, i) && line[i + 8] == ']' && line[1..11] == date && line[i..i + 8] == time
  }

  /** The full-year header fields, located from the pieces a line is made of. */
  lemma BracketedFullYearFieldsFromPieces(line: string, date: string, ws0: string, time: string)
    requires |date| == 10 && DateAt(date, 0, 4)
    requires |time| == 8 && ClockSecondsAt(time, 0)
    requires IsBlank(ws0)
    requires 12 + |ws0| + 9 <= |line|
    requires line[0] == '[' && line[1..11] == date && line[11] == ',' && line[12..12 + |ws0|] == ws0
    requires line[12 + |ws0|..12 + |ws0| + 8] == time && line[12 + |ws0| + 8] == ']'
    ensures BracketedFullYearFieldsAt(line, 12 + |ws0|, date, time)
  {
    var i := 12 + |ws0|;
    assert DateAt(line, 1, 4) by {
      assert forall k :: 1 <= k < 11 ==> line[k] == line[1..11][k - 1];
    }
    assert ClockSecondsAt(line, i) by {
      assert forall k :: i <= k < i + 8 ==> line[k] == line[i..i + 8][k - i];
    }
    assert SkipSpaces(line, 12) == i by {
      assert forall k :: 12 <= k < i ==> line[k] == line[12..i][k - 12];
      SkipSpacesOver(line, 12, |ws0|);
    }
  }

  lemma BracketedFullYearPrefixFields(date: string, ws0: string, time: string, tail: string)
    requires |date| == 10 && DateAt(date, 0, 4)
    requires |time| == 8 && ClockSecondsAt(time, 0)
    requires IsBlank(ws0)
    ensures |BracketedFullYearPrefix(date, ws0, time)| == 12 + |ws0| + 9
    ensures BracketedFullYearFieldsAt(BracketedFullYearPrefix(date, ws0, time) + tail, 12 + |ws0|, date, time)
  {
    var p := BracketedFullYearPrefix(date, ws0, time);
    var line := p + tail;
    var i := 12 + |ws0|;
    assert |p| == i + 9;
    assert line[0] == '[' && line[1..11] == date && line[11] == ',' && line[12..i] == ws0 by {
      assert line[..|p|] == p;
    }
    assert line[i..i + 8] == time && line[i + 8] == ']' by {
      assert line[..|p|] == p;
    }
    BracketedFullYearFieldsFromPieces(line, date, ws0, time);
  }

  /** The prefix matcher on a line whose header fields have been located. */
  lemma BracketedFullYearHeadAt(line: string, i: nat, date: string, time: string)
    requires BracketedFullYearFieldsAt(line, i, date, time)
    ensures BracketedFullYearHead(line) == Some(Span(i, i + 8, i + 9))
  {
  }

  /** The matcher once its prefix has matched. */
  lemma MatchBracketedFullYearAt(line: string, sp: Span, g: Groups)
    requires BracketedFullYearHead(line) == Some(sp)
    requires line[1..11] == g.date && line[sp.timeStart..sp.timeEnd] == g.time
    requires SenderAndText(line, sp.tailStart) == Some((g.sender, g.text))
    ensures MatchBracketedFullYear(line) == Some(g)
  {
  }

  /** Conversely, a line whose full-year header fields are in place and whose
      tail reads as a sender and text matches with exactly those groups. */
  lemma BracketedFullYearLocated(line: string, i: nat, date: string, time: string, sender: string, text: string)
    requires BracketedFullYearFieldsAt(line, i, date, time)
    requires SenderAndText(line, i + 9) == Some((sender, text))
    ensures MatchBracketedFullYear(line) == Some(Groups(date, time, sender, text))
  {
    BracketedFullYearHeadAt(line, i, date, time);
    MatchBracketedFullYearAt(line, Span(i, i + 8, i + 9), Groups(date, time, sender, text));
  }

  /** A line the full-year layout matches has its header fields where the
      pattern puts them, and the tail after the ']' reads as the sender and
      text of the groups. */
  lemma MatchBracketedFullYearSound(line: string, g: Groups)
    requires MatchBracketedFullYear(line) == Some(g)
    ensures exists i: nat :: BracketedFullYearFieldsAt(line, i, g.date, g.time) && SenderAndText(line, i + 9) == Some((g.sender, g.text))
  {
    var sp := BracketedFullYearHead(line).value;
    BracketedFullYearHeadFields(line);
    assert BracketedFullYearFieldsAt(line, sp.timeStart, g.date, g.time);
  }

  /** The head matcher leaves the full-year date and time fields in place. */
  lemma BracketedFullYearHeadFields(line: string)
    requires BracketedFullYearHead(line).Some?
    ensures var sp := BracketedFullYearHead(line).value;
      BracketedFullYearFieldsAt(line, sp.timeStart, line[1..11], line[sp.timeStart..sp.timeEnd])
  {
  }

  /** A full-year bracketed header built from its parts is read back as those parts. */
  lemma BracketedFullYearRoundTrip(date: string, ws0: string, time: string, ws1: string, sender: string, ws2: string, text: string)
    requires |date| == 10 && DateAt(date, 0, 4)
    requires |time| == 8 && ClockSecondsAt(time, 0)
    requires IsBlank(ws0) && ReadableTail(ws1, sender, ws2, text)
    ensures MatchBracketedFullYear(BracketedFullYearPrefix(date, ws0, time) + TailLine(ws1, sender, ws2, text))
         == Some(Groups(date, time, sender, text))
  {
    var p := BracketedFullYearPrefix(date, ws0, time);
    var tail := TailLine(ws1, sender, ws2, text);
    BracketedFullYearPrefixFields(date, ws0, time, tail);
    TailAfterPrefix(p, 12 + |ws0| + 9, ws1, sender, ws2, text);
    BracketedFullYearLocated(p + tail, 12 + |ws0|, date, time, sender, text);
  }

  // Twelve-hour bracketed headers

  /** The time group of a twelve-hour header: `\d{1,2}:\d{2}:\d{2}\s*[AP]M`. */
  function MeridiemTime(hour: string, clock: string, ws: string, meridiem: char): string {
    hour + ":" + clock + ws + [meridiem] + "M"
  }

  /** The shape of a twelve-hour time group with `h` hour digits and `n`
      whitespace characters before AM/PM. */
  predicate MeridiemTimeShape(time: string, h: nat, n: nat) {
    && 1 <= h <= 2 && |time| == h + 8 + n
    && DigitsAt(time, 0, h) && time[h] == ':' && ClockAt(time, h + 1)
    && (forall k :: h + 6 <= k < h + 6 + n ==> IsSpace(time[k]))
    && (time[h + 6 + n] == 'A' || time[h + 6 + n] == 'P') && time[h + 7 + n] == 'M'
  }

  lemma MeridiemTimeHasShape(hour: string, clock: string, ws: string, meridiem: char)
    requires (|hour| == 1 || |hour| == 2) && DigitsAt(hour, 0, |hour|)
    requires |clock| == 5 && ClockAt(clock, 0)
    requires meridiem == 'A' || meridiem == 'P'
    requires IsBlank(ws)
    ensures MeridiemTimeShape(MeridiemTime(hour, clock, ws, meridiem), |hour|, |ws|)
  {
    var t := MeridiemTime(hour, clock, ws, meridiem);
    var h := |hour|;
    assert forall k :: 0 <= k < h ==> t[k] == hour[k];
    assert forall k :: 0 <= k < 5 ==> t[h + 1 + k] == clock[k];
    assert forall k :: 0 <= k < |ws| ==> t[h + 6 + k] == ws[k];
  }

  /** The prefix of a twelve-hour bracketed header, up to and including its ']'. */
  function BracketedMeridiemPrefix(date: string, ws0: string, time: string): string {
    "[" + date + "," + ws0 + time + "]"
  }

  /** The fields of a twelve-hour bracketed header located in `line`, with
      its time group at `i`. */
  predicate BracketedMeridiemFieldsAt(line: string, i: nat, date: string, time: string) {
    && 10 <= i && i + |time| < |line|
    && line[0] == '[' && DateAt(line, 1, 2) && line[9] == ',' && SkipSpaces(line, 10) == i
    && line[i + |time|] == ']' && line[1..9] == date && line[i..i + |time|] == time
  }

  lemma BracketedMeridiemPrefixFields(date: string, ws0: string, time: string, tail: string)
    requires |date| == 8 && DateAt(date, 0, 2)
    requires |time| > 0 && IsDigit(time[0])
    requires IsBlank(ws0)
    ensures |BracketedMeridiemPrefix(date, ws0, time)| == 10 + |ws0| + |time| + 1
    ensures BracketedMeridiemFieldsAt(BracketedMeridiemPrefix(date, ws0, time) + tail, 10 + |ws0|, date, time)
  {
    var head := "[" + date + "," + ws0;
    var line := BracketedMeridiemPrefix(date, ws0, time) + tail;
    var i := 10 + |ws0|;
    assert line == head + time + ("]" + tail);
    assert forall k :: 0 <= k < |head| ==> line[k] == head[k];
    assert forall k :: 0 <= k < 8 ==> head[1 + k] == date[k];
    assert forall k :: 0 <= k < |ws0| ==> head[10 + k] == ws0[k];
    MiddleSlice(head, time, "]" + tail);
    SkipSpacesOver(line, 10, |ws0|);
    assert line[1..9] == date;
  }

  /** A twelve-hour time group placed at `i` in a line is matched there. */
  lemma MeridiemTimeInLine(line: string, i: nat, time: string, h: nat, n: nat)
    requires MeridiemTimeShape(time, h, n)
    requires i + |time| <= |line| && line[i..i + |time|] == time
    ensures HourDigits(line, i) == h && ClockAt(line, i + h + 1)
    ensures SkipSpaces(line, i + h + 6) == i + h + 6 + n
    ensures (line[i + h + 6 + n] == 'A' || line[i + h + 6 + n] == 'P') && line[i + h + 7 + n] == 'M'
  {
    assert forall k :: 0 <= k < |time| ==> line[i + k] == time[k];
    SkipSpacesOver(line, i + h + 6, n);
  }

  /** The prefix matcher on a line whose header fields have been located. */
  lemma BracketedMeridiemHeadAt(line: string, i: nat, h: nat, j: nat)
    requires 10 <= i && i + h + 6 <= j && j + 3 <= |line|
    requires line[0] == '[' && DateAt(line, 1, 2) && line[9] == ',' && SkipSpaces(line, 10) == i
    requires HourDigits(line, i) == h && 0 < h && ClockAt(line, i + h + 1) && SkipSpaces(line, i + h + 6) == j
    requires (line[j] == 'A' || line[j] == 'P') && line[j + 1] == 'M' && line[j + 2] == ']'
    ensures BracketedMeridiemHead(line) == Some(Span(i, j + 2, j + 3))
  {
  }

  /** The matcher once its prefix has matched. */
  lemma MatchBracketedMeridiemAt(line: string, sp: Span, g: Groups)
    requires BracketedMeridiemHead(line) == Some(sp)
    requires line[1..9] == g.date && line[sp.timeStart..sp.timeEnd] == g.time
    requires SenderAndText(line, sp.tailStart) == Some((g.sender, g.text))
    ensures MatchBracketedMeridiem(line) == Some(g)
  {
  }

  /** Conversely, a line whose twelve-hour header fields are in place and whose
      tail reads as a sender and text matches with exactly those groups. */
  lemma BracketedMeridiemLocated(line: string, i: nat, date: string, time: string, h: nat, n: nat, sender: string, text: string)
    requires BracketedMeridiemFieldsAt(line, i, date, time) && MeridiemTimeShape(time, h, n)
    requires SenderAndText(line, i + |time| + 1) == Some((sender, text))
    ensures MatchBracketedMeridiem(line) == Some(Groups(date, time, sender, text))
  {
    MeridiemTimeInLine(line, i, time, h, n);
    var j := i + h + 6 + n;
    BracketedMeridiemHeadAt(line, i, h, j);
    MatchBracketedMeridiemAt(line, Span(i, j + 2, j + 3), Groups(date, time, sender, text));
  }

  /** A line the twelve-hour layout matches has its header fields where the
      pattern puts them, and the tail after the ']' reads as the sender and
      text of the groups. */
  lemma MatchBracketedMeridiemSound(line: string, g: Groups)
    requires MatchBracketedMeridiem(line) == Some(g)
    ensures exists i: nat :: BracketedMeridiemFieldsAt(line, i, g.date, g.time)
                             && SenderAndText(line, i + |g.time| + 1) == Some((g.sender, g.text))
  {
    var sp := BracketedMeridiemHead(line).value;
    BracketedMeridiemHeadFields(line);
    assert BracketedMeridiemFieldsAt(line, sp.timeStart, g.date, g.time);
  }

  /** The time group of a twelve-hour match has the `\d{1,2}:\d{2}:\d{2}\s*[AP]M`
      shape: one or two hour digits, a clock, whitespace, then AM or PM. */
  lemma MatchBracketedMeridiemTimeShape(line: string, g: Groups)
    requires MatchBracketedMeridiem(line) == Some(g)
    ensures exists h: nat, n: nat :: MeridiemTimeShape(g.time, h, n)
  {
    var sp := BracketedMeridiemHead(line).value;
    BracketedMeridiemHeadTime(line);
    assert g.time == line[sp.timeStart..sp.timeEnd];
  }

  /** The head matcher's time span has the twelve-hour shape. */
  lemma BracketedMeridiemHeadTime(line: string)
    requires BracketedMeridiemHead(line).Some?
    ensures var sp := BracketedMeridiemHead(line).value;
      exists h: nat, n: nat :: MeridiemTimeShape(line[sp.timeStart..sp.timeEnd], h, n)
  {
    var i := SkipSpaces(line, 10);
    var h := HourDigits(line, i);
    var j := SkipSpaces(line, i + h + 6);
    MeridiemTimeOfLine(line, i, h, j);
  }

  /** The slice of a line from the hour digits to the 'M' has the twelve-hour shape. */
  lemma MeridiemTimeOfLine(line: string, i: nat, h: nat, j: nat)
    requires i + h + 6 <= j && j + 2 <= |line|
    requires HourDigits(line, i) == h && 0 < h && ClockAt(line, i + h + 1) && SkipSpaces(line, i + h + 6) == j
    requires (line[j] == 'A' || line[j] == 'P') && line[j + 1] == 'M'
    ensures MeridiemTimeShape(line[i..j + 2], h, j - (i + h + 6))
  {
    SkipSpacesStops(line, i + h + 6);
    var time := line[i..j + 2];
    assert forall k :: 0 <= k < |time| ==> time[k] == line[i + k];
  }

  /** The head matcher leaves the twelve-hour date and time fields in place. */
  lemma BracketedMeridiemHeadFields(line: string)
    requires BracketedMeridiemHead(line).Some?
    ensures var sp := BracketedMeridiemHead(line).value;
      BracketedMeridiemFieldsAt(line, sp.timeStart, line[1..9], line[sp.timeStart..sp.timeEnd])
  {
  }

  /** A twelve-hour bracketed header built from its parts is read back as
      those parts; the time group keeps the whitespace before AM/PM. */
  lemma BracketedMeridiemRoundTrip(date: string, ws0: string, hour: string, clock: string, ws: string, meridiem: char,
                                   ws1: string, sender: string, ws2: string, text: string)
    requires |date| == 8 && DateAt(date, 0, 2)
    requires (|hour| == 1 || |hour| == 2) && DigitsAt(hour, 0, |hour|)
    requires |clock| == 5 && ClockAt(clock, 0)
    requires meridiem == 'A' || meridiem == 'P'
    requires IsBlank(ws0) && IsBlank(ws) && ReadableTail(ws1, sender, ws2, text)
    ensures var time := MeridiemTime(hour, clock, ws, meridiem);
      MatchBracketedMeridiem(BracketedMeridiemPrefix(date, ws0, time) + TailLine(ws1, sender, ws2, text))
        == Some(Groups(date, time, sender, text))
  {
    var time := MeridiemTime(hour, clock, ws, meridiem);
    MeridiemTimeHasShape(hour, clock, ws, meridiem);
    BracketedMeridiemReadBack(date, ws0, time, |hour|, |ws|, ws1, sender, ws2, text);
  }

  /** The round trip for any time group of the twelve-hour shape. */
  lemma BracketedMeridiemReadBack(date: string, ws0: string, time: string, h: nat, n: nat,
                                  ws1: string, sender: string, ws2: string, text: string)
    requires |date| == 8 && DateAt(date, 0, 2) && MeridiemTimeShape(time, h, n)
    requires IsBlank(ws0) && ReadableTail(ws1, sender, ws2, text)
    ensures MatchBracketedMeridiem(BracketedMeridiemPrefix(date, ws0, time) + TailLine(ws1, sender, ws2, text))
        == Some(Groups(date, time, sender, text))
  {
    var p := BracketedMeridiemPrefix(date, ws0, time);
    var tail := TailLine(ws1, sender, ws2, text);
    BracketedMeridiemPrefixFields(date, ws0, time, tail);
    TailAfterPrefix(p, 10 + |ws0| + |time| + 1, ws1, sender, ws2, text);
    BracketedMeridiemLocated(p + tail, 10 + |ws0|, date, time, h, n, sender, text);
  }

  // Dashed headers

  /** The prefix of a dashed header, up to and including its '-'. */
  function DashedPrefix(date: string, ws0: string, time: string, ws: string): string {
    date + "," + ws0 + time + ws + "-"
  }

  /** The fields of a dashed header located in `line`, with its time group
      at `i` and its '-' at `j`. */
  predicate DashedFieldsAt(line: string, i: nat, j: nat, date: string, time: string) {
    && 11 <= i && i + 5 <= j < |line|
    && DateAt(line, 0, 4) && line[10] == ',' && SkipSpaces(line, 11) == i && ClockAt(line, i)
    && SkipSpaces(line, i + 5) == j && line[j] == '-' && line[..10] == date && line[i..i + 5] == time
  }

  /** The fields of a dashed header, read off the pieces of the line. */
  lemma DashedFieldsFromPieces(line: string, date: string, ws0: string, time: string, ws: string)
    requires |date| == 10 && DateAt(date, 0, 4)
    requires |time| == 5 && ClockAt(time, 0)
    requires IsBlank(ws0) && IsBlank(ws)
    requires 11 + |ws0| + 5 + |ws| < |line|
    requires line[..10] == date && line[10] == ',' && line[11..11 + |ws0|] == ws0
    requires line[11 + |ws0|..11 + |ws0| + 5] == time && line[11 + |ws0| + 5..11 + |ws0| + 5 + |ws|] == ws
    requires line[11 + |ws0| + 5 + |ws|] == '-'
    ensures DashedFieldsAt(line, 11 + |ws0|, 11 + |ws0| + 5 + |ws|, date, time)
  {
    var i := 11 + |ws0|;
    var j := i + 5 + |ws|;
    assert DateAt(line, 0, 4) by {
      assert forall k :: 0 <= k < 10 ==> line[k] == line[..10][k];
    }
    assert ClockAt(line, i) by {
      assert forall k :: i <= k < i + 5 ==> line[k] == line[i..i + 5][k - i];
    }
    assert SkipSpaces(line, 11) == i by {
      assert forall k :: 11 <= k < i ==> line[k] == line[11..i][k - 11];
      SkipSpacesOver(line, 11, |ws0|);
    }
    assert SkipSpaces(line, i + 5) == j by {
      assert forall k :: i + 5 <= k < j ==> line[k] == line[i + 5..j][k - i - 5];
      SkipSpacesOver(line, i + 5, |ws|);
    }
  }

  lemma DashedPrefixFields(date: string, ws0: string, time: string, ws: string, tail: string)
    requires |date| == 10 && DateAt(date, 0, 4)
    requires |time| == 5 && ClockAt(time, 0)
    requires IsBlank(ws0) && IsBlank(ws)
    ensures |DashedPrefix(date, ws0, time, ws)| == 11 + |ws0| + 5 + |ws| + 1
    ensures DashedFieldsAt(DashedPrefix(date, ws0, time, ws) + tail, 11 + |ws0|, 11 + |ws0| + 5 + |ws|, date, time)
  {
    var p := DashedPrefix(date, ws0, time, ws);
    var line := p + tail;
    var i := 11 + |ws0|;
    var j := i + 5 + |ws|;
    assert |p| == j + 1;
    assert line[..10] == date && line[10] == ',' && line[11..i] == ws0 by {
      assert line[..|p|] == p;
    }
    assert line[i..i + 5] == time && line[i + 5..j] == ws && line[j] == '-' by {
      assert line[..|p|] == p;
    }
    DashedFieldsFromPieces(line, date, ws0, time, ws);
  }

  /** The prefix matcher on a line whose header fields have been located. */
  lemma DashedHeadAt(line: string, i: nat, j: nat, date: string, time: string)
    requires DashedFieldsAt(line, i, j, date, time)
    ensures DashedHead(line) == Some(Span(i, i + 5, j + 1))
  {
  }

  /** The matcher once its prefix has matched. */
  lemma MatchDashedAt(line: string, sp: Span, g: Groups)
    requires DashedHead(line) == Some(sp)
    requires line[..10] == g.date && line[sp.timeStart..sp.timeEnd] == g.time
    requires SenderAndText(line, sp.tailStart) == Some((g.sender, g.text))
    ensures MatchDashed(line) == Some(g)
  {
  }

  /** Conversely, a line whose dashed header fields are in place and whose
      tail reads as a sender and text matches with exactly those groups. */
  lemma DashedLocated(line: string, i: nat, j: nat, date: string, time: string, sender: string, text: string)
    requires DashedFieldsAt(line, i, j, date, time)
    requires SenderAndText(line, j + 1) == Some((sender, text))
    ensures MatchDashed(line) == Some(Groups(date, time, sender, text))
  {
    DashedHeadAt(line, i, j, date, time);
    MatchDashedAt(line, Span(i, i + 5, j + 1), Groups(date, time, sender, text));
  }

  /** A line the dashed layout matches has its header fields where the pattern
      puts them, and the tail after the '-' reads as the sender and text of
      the groups. */
  lemma MatchDashedSound(line: string, g: Groups)
    requires MatchDashed(line) == Some(g)
    ensures exists i: nat, j: nat :: DashedFieldsAt(line, i, j, g.date, g.time) && SenderAndText(line, j + 1) == Some((g.sender, g.text))
  {
    var sp := DashedHead(line).value;
    DashedHeadFields(line);
    assert DashedFieldsAt(line, sp.timeStart, sp.tailStart - 1, g.date, g.time);
  }

  /** The head matcher leaves the dashed date and time fields and the dash in place. */
  lemma DashedHeadFields(line: string)
    requires DashedHead(line).Some?
    ensures var sp := DashedHead(line).value;
      DashedFieldsAt(line, sp.timeStart, sp.tailStart - 1, line[..10], line[sp.timeStart..sp.timeEnd])
  {
  }

  /** `12/01/2024, 10:00 -  : hi`: the sender is whitespace only, so `\s*`
      gives back one space and the sender group is that space. */
  lemma DashedBlankSenderExample()
    ensures MatchDashed("12/01/2024, 10:00 -  : hi") == Some(Groups("12/01/2024", "10:00", " ", "hi"))
  {
    var line := "12/01/2024, 10:00 -  : hi";
    ExampleFields(line);
    ExampleTail(line);
    DashedLocated(line, 12, 18, "12/01/2024", "10:00", " ", "hi");
  }

  /** The header fields of the blank-sender example line. */
  lemma ExampleFields(line: string)
    requires line == "12/01/2024, 10:00 -  : hi"
    ensures DashedFieldsAt(line, 12, 18, "12/01/2024", "10:00")
  {
    assert line == DashedPrefix("12/01/2024", " ", "10:00", " ") + "  : hi";
    DashedPrefixFields("12/01/2024", " ", "10:00", " ", "  : hi");
  }

  /** The tail of the blank-sender example line. */
  lemma ExampleTail(line: string)
    requires line == "12/01/2024, 10:00 -  : hi"
    ensures SenderAndText(line, 19) == Some((" ", "hi"))
  {
    assert TailAt(line, 19, 20, 21, 23, 25, " ", "hi");
    SenderAndTextComplete(line, 19, 20, 21, 23, 25, " ", "hi");
  }

  /** A dashed header built from its parts is read back as those parts. */
  lemma DashedRoundTrip(date: string, ws0: string, time: string, ws: string, ws1: string, sender: string, ws2: string, text: string)
    requires |date| == 10 && DateAt(date, 0, 4)
    requires |time| == 5 && ClockAt(time, 0)
    requires IsBlank(ws0) && IsBlank(ws) && ReadableTail(ws1, sender, ws2, text)
    ensures MatchDashed(DashedPrefix(date, ws0, time, ws) + TailLine(ws1, sender, ws2, text))
         == Some(Groups(date, time, sender, text))
  {
    var p := DashedPrefix(date, ws0, time, ws);
    DashedPrefixFields(date, ws0, time, ws, TailLine(ws1, sender, ws2, text));
    DashedReadBack(p, 11 + |ws0|, 11 + |ws0| + 5 + |ws|, date, time, ws1, sender, ws2, text);
  }

  /** The dashed round trip for any prefix whose fields have been located. */
  lemma DashedReadBack(p: string, i: nat, j: nat, date: string, time: string,
                       ws1: string, sender: string, ws2: string, text: string)
    requires |p| == j + 1 && ReadableTail(ws1, sender, ws2, text)
    requires DashedFieldsAt(p + TailLine(ws1, sender, ws2, text), i, j, date, time)
    ensures MatchDashed(p + TailLine(ws1, sender, ws2, text)) == Some(Groups(date, time, sender, text))
  {
    TailAfterPrefix(p, j + 1, ws1, sender, ws2, text);
    DashedLocated(p + TailLine(ws1, sender, ws2, text), i, j, date, time, sender, text);
  }
}
