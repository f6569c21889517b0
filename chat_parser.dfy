/** The chat parser proper: one left-to-right pass over the transcript's
    lines that closes the open message at every header line, opens a new one
    from the header's groups, and appends every other non-blank line to the
    open message; then the chat's metadata. */
module ChatParser {
  import opened Text
  import opened LineClassifier

  /** One parsed message, with the keys of the parser's message dictionary. */
  datatype Message = Message(date: string, time: string, timestamp: string, sender: string, content: string, isMedia: bool)

  /** The placeholders a chat export writes for an attachment. */
  const MediaMarkers: seq<string> := [
    "<media omitted>", "<image omitted>", "<video omitted>",
    "<audio omitted>", "<document omitted>", "<sticker omitted>"
  ]

  /** Some media placeholder occurs in the lower-cased header text. */
  predicate HasMediaMarker(text: string) {
    exists k :: 0 <= k < |MediaMarkers| && Contains(Lower(text), MediaMarkers[k])
  }

  /** The groups of a header line, with the shape every layout guarantees. */
  type Header = g: Groups | WellFormedTail(g) witness Groups("", "", "?", "")

  /** A transcript line as the pass sees it: a header, with the message its
      groups open, or any other text. */
  datatype Line = HeaderLine(message: Message) | TextLine(text: string)

  function ReadLine(line: string): (l: Line)
    ensures l.HeaderLine? <==> IsHeader(line)
  {
    match Classify(line)
    case Some(g) => HeaderLine(OpenMessage(g))
    case None => TextLine(line)
  }

  /** A line that a layout matches is read as the message its groups open:
      date and time as matched, sender and text stripped. */
  lemma HeaderLineRead(line: string, layout: Layout, g: Groups)
    requires MatchLayout(layout, line) == Some(g)
    ensures ReadLine(line) == HeaderLine(Message(g.date, g.time, g.date + " " + g.time,
                                                 Strip(g.sender), Strip(g.text), HasMediaMarker(g.text)))
  {
    ClassifyIsAnyMatch(line, layout);
    MatchedFieldsTrimmed(line, layout, g);
    StripTrimmed(g.date);
    StripTrimmed(g.time);
  }

  /** The date and time groups of every layout begin and end with a digit or
      the 'M' of AM/PM, so `strip()` leaves them as matched. */
  lemma MatchedFieldsTrimmed(line: string, layout: Layout, g: Groups)
    requires MatchLayout(layout, line) == Some(g)
    ensures IsTrimmed(g.date) && IsTrimmed(g.time)
  {
    match layout
    case BracketedFullYear => FullYearFieldsTrimmed(line, g);
    case BracketedMeridiem => MeridiemFieldsTrimmed(line, g);
    case Dashed => DashedFieldsTrimmed(line, g);
  }

  /** The full-year date and time groups are trimmed. */
  lemma FullYearFieldsTrimmed(line: string, g: Groups)
    requires MatchBracketedFullYear(line) == Some(g)
    ensures IsTrimmed(g.date) && IsTrimmed(g.time)
  {
    DateTrimmed(g.date, 4);
    assert IsDigit(g.time[0]) && IsDigit(g.time[7]);
  }

  /** The twelve-hour date and time groups are trimmed. */
  lemma MeridiemFieldsTrimmed(line: string, g: Groups)
    requires MatchBracketedMeridiem(line) == Some(g)
    ensures IsTrimmed(g.date) && IsTrimmed(g.time)
  {
    DateTrimmed(g.date, 2);
    MatchBracketedMeridiemTimeShape(line, g);
    var h: nat, n: nat :| MeridiemTimeShape(g.time, h, n);
    assert IsDigit(g.time[0]);
  }

  /** The dashed date and time groups are trimmed. */
  lemma DashedFieldsTrimmed(line: string, g: Groups)
    requires MatchDashed(line) == Some(g)
    ensures IsTrimmed(g.date) && IsTrimmed(g.time)
  {
    DateTrimmed(g.date, 4);
    assert IsDigit(g.time[0]) && IsDigit(g.time[4]);
  }

  /** A date group starts and ends with a digit. */
  lemma DateTrimmed(date: string, yearDigits: nat)
    requires 1 <= yearDigits && |date| == 6 + yearDigits && DateAt(date, 0, yearDigits)
    ensures IsTrimmed(date)
  {
    assert IsDigit(date[|date| - 1]);
  }

  /** A full-year bracketed header written from its parts opens the message
      holding those parts. */
  lemma BracketedFullYearLineRead(date: string, ws0: string, time: string, ws1: string, sender: string, ws2: string, text: string)
    requires |date| == 10 && DateAt(date, 0, 4)
    requires |time| == 8 && ClockSecondsAt(time, 0)
    requires IsBlank(ws0) && ReadableTail(ws1, sender, ws2, text)
    ensures ReadLine(BracketedFullYearPrefix(date, ws0, time) + TailLine(ws1, sender, ws2, text))
         == HeaderLine(Message(date, time, date + " " + time, Strip(sender), Strip(text), HasMediaMarker(text)))
  {
    BracketedFullYearRoundTrip(date, ws0, time, ws1, sender, ws2, text);
    HeaderLineRead(BracketedFullYearPrefix(date, ws0, time) + TailLine(ws1, sender, ws2, text),
                   BracketedFullYear, Groups(date, time, sender, text));
  }

  /** A twelve-hour bracketed header written from its parts opens the message
      holding those parts. */
  lemma BracketedMeridiemLineRead(date: string, ws0: string, hour: string, clock: string, ws: string, meridiem: char,
                                  ws1: string, sender: string, ws2: string, text: string)
    requires |date| == 8 && DateAt(date, 0, 2)
    requires (|hour| == 1 || |hour| == 2) && DigitsAt(hour, 0, |hour|)
    requires |clock| == 5 && ClockAt(clock, 0)
    requires meridiem == 'A' || meridiem == 'P'
    requires IsBlank(ws0) && IsBlank(ws) && ReadableTail(ws1, sender, ws2, text)
    ensures var time := MeridiemTime(hour, clock, ws, meridiem);
      ReadLine(BracketedMeridiemPrefix(date, ws0, time) + TailLine(ws1, sender, ws2, text))
        == HeaderLine(Message(date, time, date + " " + time, Strip(sender), Strip(text), HasMediaMarker(text)))
  {
    var time := MeridiemTime(hour, clock, ws, meridiem);
    BracketedMeridiemRoundTrip(date, ws0, hour, clock, ws, meridiem, ws1, sender, ws2, text);
    HeaderLineRead(BracketedMeridiemPrefix(date, ws0, time) + TailLine(ws1, sender, ws2, text),
                   BracketedMeridiem, Groups(date, time, sender, text));
  }

  /** A dashed header written from its parts opens the message holding those
      parts. */
  lemma DashedLineRead(date: string, ws0: string, time: string, ws: string, ws1: string, sender: string, ws2: string, text: string)
    requires |date| == 10 && DateAt(date, 0, 4)
    requires |time| == 5 && ClockAt(time, 0)
    requires IsBlank(ws0) && IsBlank(ws) && ReadableTail(ws1, sender, ws2, text)
    ensures ReadLine(DashedPrefix(date, ws0, time, ws) + TailLine(ws1, sender, ws2, text))
         == HeaderLine(Message(date, time, date + " " + time, Strip(sender), Strip(text), HasMediaMarker(text)))
  {
    DashedRoundTrip(date, ws0, time, ws, ws1, sender, ws2, text);
    HeaderLineRead(DashedPrefix(date, ws0, time, ws) + TailLine(ws1, sender, ws2, text),
                   Dashed, Groups(date, time, sender, text));
  }

  function ReadLines(lines: seq<string>): (r: seq<Line>)
    ensures |r| == |lines| && forall k :: 0 <= k < |lines| ==> r[k] == ReadLine(lines[k])
  {
    seq(|lines|, k requires 0 <= k < |lines| => ReadLine(lines[k]))
  }

  lemma ReadLinesAppend(a: seq<string>, b: seq<string>)
    ensures ReadLines(a + b) == ReadLines(a) + ReadLines(b)
  {
    assert forall k :: 0 <= k < |b| ==> (a + b)[|a| + k] == b[k];
  }

  lemma ReadLinesSuffix(lines: seq<string>, i: nat)
    requires i <= |lines|
    ensures ReadLines(lines)[i..] == ReadLines(lines[i..])
  {
    assert lines == lines[..i] + lines[i..];
    ReadLinesAppend(lines[..i], lines[i..]);
  }

  /** The message a header line opens: every group stripped, the timestamp
      joined from date and time, and the media flag read off the header text. */
  function OpenMessage(g: Header): (m: Message)
    ensures IsTrimmed(m.date) && IsTrimmed(m.time) && IsTrimmed(m.sender) && IsTrimmed(m.content)
    ensures ':' !in m.sender && '\n' !in m.content
    ensures m.timestamp == m.date + " " + m.time
    ensures m.isMedia <==> HasMediaMarker(g.text)
    ensures m.date == Strip(g.date) && m.time == Strip(g.time)
    ensures m.sender == Strip(g.sender) && m.content == Strip(g.text)
  {
    var sender, content := Strip(g.sender), Strip(g.text);
    assert ':' !in sender by {
      assert forall x :: 0 <= x < |sender| ==> sender[x] == g.sender[LeadingSpaces(g.sender) + x];
    }
    assert '\n' !in content by {
      assert forall x :: 0 <= x < |content| ==> content[x] == g.text[LeadingSpaces(g.text) + x];
    }
    var date, time := Strip(g.date), Strip(g.time);
    Message(date, time, date + " " + time, sender, content, HasMediaMarker(g.text))
  }

  /** The open message after a continuation line: the line is appended as is,
      after a line break; nothing else changes. */
  function AppendLine(m: Message, line: string): (r: Message)
    ensures r.content == m.content + "\n" + line
    ensures r.(content := m.content) == m
  {
    m.(content := m.content + "\n" + line)
  }

  /** The pass's state: the finished messages and the open one, if any. */
  datatype Assembly = Assembly(done: seq<Message>, open: Option<Message>)

  /** One line of the pass. */
  function Step(st: Assembly, line: Line): Assembly {
    match line
    case HeaderLine(m) => Assembly(Flush(st), Some(m))
    case TextLine(text) =>
      if st.open.Some? && !IsBlank(text) then Assembly(st.done, Some(AppendLine(st.open.value, text)))
      else st
  }

  /** The finished messages followed by the open one. */
  function Flush(st: Assembly): (r: seq<Message>)
    ensures |r| == |st.done| + (if st.open.Some? then 1 else 0)
    ensures r[..|st.done|] == st.done
    ensures st.open.Some? ==> r[|st.done|] == st.open.value
  {
    st.done + (if st.open.Some? then [st.open.value] else [])
  }

  /** The pass over the remaining lines. */
  function Run(st: Assembly, lines: seq<Line>): Assembly
    decreases |lines|
  {
    if lines == [] then st else Run(Step(st, lines[0]), lines[1..])
  }

  /** The messages of a transcript, given as its lines. */
  function Assemble(lines: seq<string>): seq<Message> {
    Flush(Run(Assembly([], None), ReadLines(lines)))
  }

  // ---------------------------------------------------------------------
  // A reference reading of the transcript: one message per header line,
  // carrying the non-blank lines that follow it up to the next header.

  /** The non-blank text lines that open `lines`, up to its first header. */
  function Continuation(lines: seq<Line>): (c: seq<string>)
    ensures forall k :: 0 <= k < |c| ==> !IsBlank(c[k])
    decreases |lines|
  {
    if lines == [] || lines[0].HeaderLine? then []
    else if IsBlank(lines[0].text) then Continuation(lines[1..])
    else [lines[0].text] + Continuation(lines[1..])
  }

  /** The text continuation lines add to a message's content. */
  function ContinuationText(c: seq<string>): string
    decreases |c|
  {
    if c == [] then "" else "\n" + c[0] + ContinuationText(c[1..])
  }

  /** A message extended by its continuation lines. */
  function Extend(m: Message, c: seq<string>): (r: Message)
    ensures r.content == m.content + ContinuationText(c)
    ensures r.(content := m.content) == m
  {
    m.(content := m.content + ContinuationText(c))
  }

  /** The messages of `lines`, one per header line, in order. */
  function Messages(lines: seq<Line>): seq<Message>
    decreases |lines|
  {
    if lines == [] then []
    else match lines[0]
      case HeaderLine(m) => [Extend(m, Continuation(lines[1..]))] + Messages(lines[1..])
      case TextLine(_) => Messages(lines[1..])
  }

  function OpenPart(open: Option<Message>, c: seq<string>): seq<Message> {
    if open.Some? then [Extend(open.value, c)] else []
  }

  /** Appending a line to the open message is extending it by one more line. */
  lemma ExtendAppend(m: Message, text: string, c: seq<string>)
    ensures Extend(AppendLine(m, text), c) == Extend(m, [text] + c)
  {
    assert ContinuationText([text] + c) == "\n" + text + ContinuationText(c) by {
      assert ([text] + c)[1..] == c;
    }
    ConcatAssoc(m.content, "\n" + text, ContinuationText(c));
    assert m.content + "\n" + text == m.content + ("\n" + text);
  }

  /** The pass from any state ends with the finished messages, the open one
      extended by the continuation lines, and one message per later header. */
  lemma {:induction false} RunReading(st: Assembly, lines: seq<Line>)
    ensures Flush(Run(st, lines)) == st.done + OpenPart(st.open, Continuation(lines)) + Messages(lines)
    decreases |lines|
  {
    if lines == [] {
      if st.open.Some? {
        assert Extend(st.open.value, []) == st.open.value;
      }
    } else {
      var rest := lines[1..];
      var next := Step(st, lines[0]);
      assert Run(st, lines) == Run(next, rest);
      RunReading(next, rest);
      match lines[0]
      case HeaderLine(m) =>
        var first := Extend(m, Continuation(rest));
        assert Messages(lines) == [first] + Messages(rest);
        assert Continuation(lines) == [];
        if st.open.Some? {
          assert Extend(st.open.value, []) == st.open.value;
        }
        assert OpenPart(st.open, []) == Flush(st)[|st.done|..];
        ConcatAssoc(Flush(st), [first], Messages(rest));
        ConcatAssoc(st.done, OpenPart(st.open, []), [first] + Messages(rest));
      case TextLine(text) =>
        assert Messages(lines) == Messages(rest);
        if st.open.Some? && !IsBlank(text) {
          assert Continuation(lines) == [text] + Continuation(rest);
          ExtendAppend(st.open.value, text, Continuation(rest));
        } else if st.open.Some? {
          assert Continuation(lines) == Continuation(rest);
        }
    }
  }

  /** The pass assembles exactly the reference reading. */
  lemma AssembleIsMessages(lines: seq<string>)
    ensures Assemble(lines) == Messages(ReadLines(lines))
  {
    RunReading(Assembly([], None), ReadLines(lines));
  }

  // ---------------------------------------------------------------------
  // Properties of the parse.

  /** The number of header lines. */
  function CountHeaders(lines: seq<string>): (n: nat)
    ensures n <= |lines|
    decreases |lines|
  {
    if lines == [] then 0 else (if IsHeader(lines[0]) then 1 else 0) + CountHeaders(lines[1..])
  }

  /** One message per header line. */
  lemma MessageCount(lines: seq<string>)
    ensures |Assemble(lines)| == CountHeaders(lines)
  {
    AssembleIsMessages(lines);
    MessagesCount(lines);
  }

  lemma {:induction false} MessagesCount(lines: seq<string>)
    ensures |Messages(ReadLines(lines))| == CountHeaders(lines)
    decreases |lines|
  {
    if lines != [] {
      ReadLinesAppend([lines[0]], lines[1..]);
      assert lines == [lines[0]] + lines[1..];
      MessagesCount(lines[1..]);
    }
  }

  /** Lines before the first header belong to no message. */
  lemma LeadingLinesDropped(before: seq<string>, lines: seq<string>)
    requires forall k :: 0 <= k < |before| ==> !IsHeader(before[k])
    ensures Assemble(before + lines) == Assemble(lines)
  {
    AssembleIsMessages(before + lines);
    AssembleIsMessages(lines);
    ReadLinesAppend(before, lines);
    MessagesSkip(ReadLines(before), ReadLines(lines));
  }

  lemma {:induction false} MessagesSkip(before: seq<Line>, lines: seq<Line>)
    requires forall k :: 0 <= k < |before| ==> before[k].TextLine?
    ensures Messages(before + lines) == Messages(lines)
    decreases |before|
  {
    if before != [] {
      assert (before + lines)[0] == before[0] && (before + lines)[1..] == before[1..] + lines;
      MessagesSkip(before[1..], lines);
    } else {
      assert before + lines == lines;
    }
  }

  /** No blank line is a header: every layout starts with '[' or a digit. */
  lemma BlankIsNoHeader(line: string)
    requires IsBlank(line)
    ensures !IsHeader(line)
  {
    FirstMatchSpec(Layouts, line);
  }

  /** A whitespace-only line changes no message, wherever it stands. */
  lemma BlankLineIgnored(before: seq<string>, blank: string, after: seq<string>)
    requires IsBlank(blank)
    ensures Assemble(before + [blank] + after) == Assemble(before + after)
  {
    AssembleIsMessages(before + [blank] + after);
    AssembleIsMessages(before + after);
    BlankIsNoHeader(blank);
    ReadLinesAppend(before + [blank], after);
    ReadLinesAppend(before, [blank]);
    ReadLinesAppend(before, after);
    assert ReadLines([blank]) == [TextLine(blank)];
    MessagesBlank(ReadLines(before), blank, ReadLines(after));
  }

  lemma {:induction false} ContinuationBlank(before: seq<Line>, blank: string, after: seq<Line>)
    requires IsBlank(blank)
    ensures Continuation(before + [TextLine(blank)] + after) == Continuation(before + after)
    decreases |before|
  {
    if before == [] {
      assert (before + [TextLine(blank)] + after)[1..] == after;
      assert before + after == after;
    } else {
      assert (before + [TextLine(blank)] + after)[1..] == before[1..] + [TextLine(blank)] + after;
      assert (before + after)[1..] == before[1..] + after;
      ContinuationBlank(before[1..], blank, after);
    }
  }

  lemma {:induction false} MessagesBlank(before: seq<Line>, blank: string, after: seq<Line>)
    requires IsBlank(blank)
    ensures Messages(before + [TextLine(blank)] + after) == Messages(before + after)
    decreases |before|
  {
    if before == [] {
      assert (before + [TextLine(blank)] + after)[1..] == after;
      assert before + after == after;
    } else {
      assert (before + [TextLine(blank)] + after)[1..] == before[1..] + [TextLine(blank)] + after;
      assert (before + after)[1..] == before[1..] + after;
      ContinuationBlank(before[1..], blank, after);
      MessagesBlank(before[1..], blank, after);
    }
  }

  /** The message the header line at `i` opens, extended by the
      continuation lines that follow it. */
  function MessageAt(lines: seq<Line>, i: nat): Message
    requires i < |lines| && lines[i].HeaderLine?
  {
    Extend(lines[i].message, Continuation(lines[i + 1..]))
  }

  /** The number of header lines in `lines`. */
  function HeaderLines(lines: seq<Line>): nat
    decreases |lines|
  {
    if lines == [] then 0 else (if lines[0].HeaderLine? then 1 else 0) + HeaderLines(lines[1..])
  }

  lemma HeaderLinesPrefix(lines: seq<Line>, n: nat)
    requires n < |lines|
    ensures HeaderLines(lines[..n + 1]) == (if lines[0].HeaderLine? then 1 else 0) + HeaderLines(lines[1..][..n])
  {
    assert lines[..n + 1][1..] == lines[1..][..n];
  }

  /** The first line's message, if it is a header line, then the others. */
  lemma MessagesCons(lines: seq<Line>)
    requires lines != []
    ensures Messages(lines) == (if lines[0].HeaderLine? then [MessageAt(lines, 0)] else []) + Messages(lines[1..])
  {
  }

  lemma MessageAtDrop(lines: seq<Line>, i: nat)
    requires 0 < i < |lines| && lines[i].HeaderLine?
    ensures lines[1..][i - 1] == lines[i] && MessageAt(lines[1..], i - 1) == MessageAt(lines, i)
  {
    assert lines[1..][i..] == lines[i + 1..];
  }

  /** The header line that opens message `j`: the one with `j` header
      lines before it. */
  lemma {:induction false} HeaderOfMessage(lines: seq<Line>, j: nat) returns (i: nat)
    requires j < |Messages(lines)|
    ensures i < |lines| && lines[i].HeaderLine? && HeaderLines(lines[..i]) == j
    ensures Messages(lines)[j] == MessageAt(lines, i)
    decreases |lines|
  {
    assert lines != [];
    var rest := lines[1..];
    MessagesCons(lines);
    if lines[0].HeaderLine? && j == 0 {
      i := 0;
      assert lines[..0] == [];
    } else {
      var j' := if lines[0].HeaderLine? then j - 1 else j;
      var i' := HeaderOfMessage(rest, j');
      i := i' + 1;
      MessageAtDrop(lines, i);
      assert HeaderLines(lines[..i]) == j by {
        HeaderLinesPrefix(lines, i');
      }
    }
  }

  /** Counting headers among the read lines is counting header lines. */
  lemma {:induction false} HeaderLinesRead(lines: seq<string>)
    ensures HeaderLines(ReadLines(lines)) == CountHeaders(lines)
    decreases |lines|
  {
    if lines != [] {
      ReadLinesSuffix(lines, 1);
      HeaderLinesRead(lines[1..]);
    }
  }

  /** Every parsed message is the one a header line of the transcript opens:
      date, time, timestamp, sender and media flag from that header alone,
      and content the header's stripped text followed by the non-blank lines
      after it, up to the next header. */
  lemma MessageFromHeader(lines: seq<string>, j: nat)
    requires j < |Assemble(lines)|
    ensures exists i :: 0 <= i < |lines| && IsHeader(lines[i]) && CountHeaders(lines[..i]) == j
              && Assemble(lines)[j] == Extend(OpenMessage(Classify(lines[i]).value), Continuation(ReadLines(lines[i + 1..])))
  {
    AssembleIsMessages(lines);
    var ls := ReadLines(lines);
    var i := HeaderOfMessage(ls, j);
    HeaderLinesReadPrefix(lines, i);
    ReadLinesContinuation(lines, i);
    assert ls[i] == ReadLine(lines[i]);
  }

  lemma HeaderLinesReadPrefix(lines: seq<string>, i: nat)
    requires i <= |lines|
    ensures HeaderLines(ReadLines(lines)[..i]) == CountHeaders(lines[..i])
  {
    HeaderLinesRead(lines[..i]);
    assert ReadLines(lines[..i]) == ReadLines(lines)[..i];
  }

  lemma ReadLinesContinuation(lines: seq<string>, i: nat)
    requires i < |lines|
    ensures Continuation(ReadLines(lines)[i + 1..]) == Continuation(ReadLines(lines[i + 1..]))
  {
    ReadLinesSuffix(lines, i + 1);
  }

  // ---------------------------------------------------------------------
  // Chat metadata.

  /** The first and last message's dates. */
  datatype DateRange = DateRange(start: Option<string>, end: Option<string>)

  datatype Metadata = Metadata(participants: seq<string>, messageCount: nat, mediaCount: nat, dateRange: DateRange, filePath: string)

  /** The parser's result. */
  datatype ParsedChat = ParsedChat(metadata: Metadata, messages: seq<Message>)

  function Senders(msgs: seq<Message>): (r: seq<string>)
    ensures |r| == |msgs| && forall k :: 0 <= k < |msgs| ==> r[k] == msgs[k].sender
  {
    seq(|msgs|, k requires 0 <= k < |msgs| => msgs[k].sender)
  }

  /** The number of media messages. */
  function MediaCount(msgs: seq<Message>): (n: nat)
    ensures n <= |msgs|
    decreases |msgs|
  {
    if msgs == [] then 0 else (if msgs[0].isMedia then 1 else 0) + MediaCount(msgs[1..])
  }

  /** No media message, no media count; all media messages, a full count. */
  lemma {:induction false} MediaCountBounds(msgs: seq<Message>)
    ensures MediaCount(msgs) == 0 <==> forall k :: 0 <= k < |msgs| ==> !msgs[k].isMedia
    ensures MediaCount(msgs) == |msgs| <==> forall k :: 0 <= k < |msgs| ==> msgs[k].isMedia
    decreases |msgs|
  {
    if msgs != [] {
      MediaCountBounds(msgs[1..]);
      assert forall k :: 1 <= k < |msgs| ==> msgs[k] == msgs[1..][k - 1];
    }
  }

  function DateRangeOf(msgs: seq<Message>): (r: DateRange)
    ensures r.start.None? <==> msgs == []
    ensures r.end.None? <==> msgs == []
    ensures msgs != [] ==> r.start == Some(msgs[0].date) && r.end == Some(msgs[|msgs| - 1].date)
  {
    if msgs == [] then DateRange(None, None)
    else DateRange(Some(msgs[0].date), Some(msgs[|msgs| - 1].date))
  }

  function MetadataOf(msgs: seq<Message>, filePath: string): Metadata {
    Metadata(SortedDistinct(Senders(msgs)), |msgs|, MediaCount(msgs), DateRangeOf(msgs), filePath)
  }

  /** The participants are sorted, free of duplicates, and exactly the
      senders of the messages. */
  lemma Participants(msgs: seq<Message>, filePath: string)
    ensures var p := MetadataOf(msgs, filePath).participants;
      && StrictlySorted(p)
      && (forall x :: x in p <==> exists k :: 0 <= k < |msgs| && msgs[k].sender == x)
  {
    var s := Senders(msgs);
    forall x | x in s ensures exists k :: 0 <= k < |msgs| && msgs[k].sender == x {
      var k :| 0 <= k < |s| && s[k] == x;
    }
  }

  lemma RunFrom(st: Assembly, lines: seq<Line>, i: nat)
    requires i < |lines|
    ensures Run(st, lines[i..]) == Run(Step(st, lines[i]), lines[i + 1..])
  {
    assert lines[i..][0] == lines[i] && lines[i..][1..] == lines[i + 1..];
  }

  /** One line of the pass: a header line closes the open message and opens
      the one its groups describe; a non-blank line extends the open message;
      any other line changes nothing. */
  method ReadStep(messages: seq<Message>, current: Option<Message>, line: string)
    returns (messages': seq<Message>, current': Option<Message>)
    ensures Assembly(messages', current') == Step(Assembly(messages, current), ReadLine(line))
  {
    messages', current' := messages, current;
    var groups := MatchHeader(line);
    if groups.Some? {
      if current.Some? {
        messages' := messages + [current.value];
      }
      current' := Some(OpenMessage(groups.value));
    } else if current.Some? && !IsBlank(line) {
      current' := Some(AppendLine(current.value, line));
    }
  }

  /** The parser on the text of a chat export: split into lines, one pass
      that keeps the finished messages and the open one, then the metadata. */
  method ParseChat(content: string, filePath: string) returns (chat: ParsedChat)
    ensures chat.messages == Assemble(SplitLines(content))
    ensures chat.metadata == MetadataOf(chat.messages, filePath)
  {
    var lines := SplitLines(content);
    ghost var read := ReadLines(lines);
    var messages: seq<Message> := [];
    var current: Option<Message> := None;
    for i := 0 to |lines|
      invariant Flush(Run(Assembly(messages, current), read[i..])) == Assemble(lines)
    {
      RunFrom(Assembly(messages, current), read, i);
      messages, current := ReadStep(messages, current, lines[i]);
    }
    if current.Some? {
      messages := messages + [current.value];
    }
    var participants := SortedDistinct(Senders(messages));
    var mediaCount := MediaCount(messages);
    chat := ParsedChat(Metadata(participants, |messages|, mediaCount, DateRangeOf(messages), filePath), messages);
  }
}
