/** The Google Docs export: the document text built from a chat analysis,
    the request that inserts it at the start of the document, and the bold
    requests laid over its emoji section headers. */
module DocExport {
  import opened Text

  // ---------------------------------------------------------------------
  // The analysis handed to the export. A key that may be missing is an
  // `Option`; a scalar value is held as the text `str()` gives it.

  /** An entry of `topics`: a dictionary with optional `topic` and
      `description` keys, or any other value. */
  datatype Topic = TopicRecord(topic: Option<string>, description: Option<string>) | TopicValue(text: string)

  datatype SummaryData = SummaryData(tldr: Option<string>, keyDecisions: Option<seq<string>>, topics: Option<seq<Topic>>)

  /** An action item. `completed` is the truth value of its `completed`
      key; `deadline` and `context` are "" when the key is missing or its
      value is false (null or empty). */
  datatype Item = Item(task: string, assignee: Option<string>, priority: Option<string>, completed: bool, deadline: string, context: string)

  datatype DateRangeData = DateRangeData(start: Option<string>, end: Option<string>)

  datatype MetadataData = MetadataData(participants: Option<seq<string>>, messageCount: Option<string>, dateRange: Option<DateRangeData>)

  datatype Analysis = Analysis(summary: Option<SummaryData>, actionItems: Option<seq<Item>>, metadata: Option<MetadataData>)

  /** `d.get(key, default)`. */
  function Get(v: Option<string>, default: string): string {
    if v.Some? then v.value else default
  }

  /** `sep.join(parts)`. */
  function Joined(parts: seq<string>, sep: string): string
    decreases |parts|
  {
    if parts == [] then ""
    else if |parts| == 1 then parts[0]
    else Joined(parts[..|parts| - 1], sep) + sep + parts[|parts| - 1]
  }

  // ---------------------------------------------------------------------
  // The emoji that open a section and the two ballot boxes.

  const BarChart: char := '\U{1F4CA}'
  const CheckMark: char := '\U{2705}'
  const SpeechBalloon: char := '\U{1F4AC}'
  const Clipboard: char := '\U{1F4CB}'
  const TrendingUp: char := '\U{1F4C8}'
  const RedCircle: char := '\U{1F534}'
  const YellowCircle: char := '\U{1F7E1}'
  const GreenCircle: char := '\U{1F7E2}'

  /** The emoji whose lines are made bold, in the order they are tested. */
  const HeaderEmoji: seq<char> := [BarChart, CheckMark, SpeechBalloon, Clipboard, TrendingUp, RedCircle, YellowCircle, GreenCircle]

  const BallotChecked: char := '\U{2611}'
  const BallotEmpty: char := '\U{2610}'

  // ---------------------------------------------------------------------
  // The document, section by section.

  function Title(date: string): string {
    "WhatsApp Chat Analysis - " + date + "\n\n"
  }

  function Footer(stamp: string): string {
    "\n---\nGenerated by Agent Skills Demo\n" + stamp
  }

  function TldrSection(summary: Option<SummaryData>): (r: string)
    ensures r == [] <==> summary.None? || summary.value.tldr.None?
    ensures r != [] ==> r[0] == BarChart
  {
    if summary.Some? && summary.value.tldr.Some? then [BarChart] + " TL;DR\n" + summary.value.tldr.value + "\n\n"
    else ""
  }

  function Bullets(decisions: seq<string>): string
    decreases |decisions|
  {
    if decisions == [] then ""
    else Bullets(decisions[..|decisions| - 1]) + "• " + decisions[|decisions| - 1] + "\n"
  }

  function DecisionsSection(summary: Option<SummaryData>): (r: string)
    ensures r == [] <==> summary.None? || summary.value.keyDecisions.None?
    ensures r != [] ==> r[0] == CheckMark
  {
    if summary.Some? && summary.value.keyDecisions.Some? then
      [CheckMark] + " Key Decisions\n" + Bullets(summary.value.keyDecisions.value) + "\n"
    else ""
  }

  /** The text of a topic after its number. */
  function TopicBody(t: Topic): string {
    match t
    case TopicRecord(topic, description) => Get(topic, "Unknown") + ": " + Get(description, "")
    case TopicValue(text) => text
  }

  /** Topic number `n`. */
  function TopicLine(n: nat, t: Topic): string {
    Decimal(n) + ". " + TopicBody(t) + "\n"
  }

  /** The topics, numbered from 1. */
  function TopicLines(topics: seq<Topic>): string
    decreases |topics|
  {
    if topics == [] then ""
    else TopicLines(topics[..|topics| - 1]) + TopicLine(|topics|, topics[|topics| - 1])
  }

  function TopicsSection(summary: Option<SummaryData>): (r: string)
    ensures r == [] <==> summary.None? || summary.value.topics.None?
    ensures r != [] ==> r[0] == SpeechBalloon
  {
    if summary.Some? && summary.value.topics.Some? then
      [SpeechBalloon] + " Topics Discussed\n" + TopicLines(summary.value.topics.value) + "\n"
    else ""
  }

  function Status(item: Item): char {
    if item.completed then BallotChecked else BallotEmpty
  }

  /** An item's first line, without its line break. */
  function Headline(item: Item): string {
    [Status(item)] + " " + item.task + " - @" + Get(item.assignee, "Unassigned")
    + (if item.deadline != "" then " - Due: " + item.deadline else "")
  }

  /** An item: its headline and, when contexts are shown and it has one,
      its context line. */
  function ItemText(item: Item, withContext: bool): string {
    Headline(item) + "\n" + (if withContext && item.context != "" then "   Context: " + item.context + "\n" else "")
  }

  function ItemsText(items: seq<Item>, withContext: bool): string
    decreases |items|
  {
    if items == [] then ""
    else ItemsText(items[..|items| - 1], withContext) + ItemText(items[|items| - 1], withContext)
  }

  /** `[item for item in items if item.get('priority') == p]`. */
  function WithPriority(items: seq<Item>, p: string): (r: seq<Item>)
    ensures |r| <= |items|
    ensures forall k :: 0 <= k < |r| ==> r[k].priority == Some(p)
    decreases |items|
  {
    if items == [] then []
    else
      var rest := WithPriority(items[..|items| - 1], p);
      if items[|items| - 1].priority == Some(p) then rest + [items[|items| - 1]] else rest
  }

  /** A priority group: nothing when it has no items. */
  function Group(header: string, items: seq<Item>, withContext: bool): (r: string)
    ensures r == [] <==> items == []
  {
    if items == [] then "" else header + ItemsText(items, withContext) + "\n"
  }

  const HighHeader: string := [RedCircle] + " High Priority\n"
  const MediumHeader: string := [YellowCircle] + " Medium Priority\n"
  const LowHeader: string := [GreenCircle] + " Low Priority\n"

  /** The action items, grouped by priority; only high-priority items show
      their context. */
  function ActionSection(items: Option<seq<Item>>): (r: string)
    ensures r == [] <==> items.None?
    ensures r != [] ==> r[0] == Clipboard
  {
    if items.None? then ""
    else
      [Clipboard] + " Action Items\n\n"
      + Group(HighHeader, WithPriority(items.value, "high"), true)
      + Group(MediumHeader, WithPriority(items.value, "medium"), false)
      + Group(LowHeader, WithPriority(items.value, "low"), false)
  }

  function StatsSection(metadata: Option<MetadataData>): (r: string)
    ensures r == [] <==> metadata.None?
    ensures r != [] ==> r[0] == TrendingUp
  {
    if metadata.None? then ""
    else
      var md := metadata.value;
      [TrendingUp] + " Conversation Statistics\n" + ParticipantsLine(md) + TotalLine(md) + DateRangeLine(md) + "\n"
  }

  function ParticipantsLine(md: MetadataData): string {
    if md.participants.Some? then "Participants: " + Joined(md.participants.value, ", ") + "\n" else ""
  }

  function TotalLine(md: MetadataData): string {
    if md.messageCount.Some? then "Total messages: " + md.messageCount.value + "\n" else ""
  }

  function DateRangeLine(md: MetadataData): string {
    if md.dateRange.Some? then
      "Date range: " + Get(md.dateRange.value.start, "N/A") + " - " + Get(md.dateRange.value.end, "N/A") + "\n"
    else ""
  }

  /** The whole document; `date` and `stamp` are the two renderings of the
      current time. */
  function Document(data: Analysis, date: string, stamp: string): string {
    Title(date) + TldrSection(data.summary) + DecisionsSection(data.summary) + TopicsSection(data.summary)
    + ActionSection(data.actionItems) + StatsSection(data.metadata) + Footer(stamp)
  }

  // ---------------------------------------------------------------------
  // Building the text: `content +=` step by step.

  /** One item appended, piece by piece. */
  method AppendItem(content: string, item: Item, withContext: bool) returns (r: string)
    ensures r == content + ItemText(item, withContext)
  {
    var status := if item.completed then BallotChecked else BallotEmpty;
    var first := [status] + " " + item.task + " - @" + Get(item.assignee, "Unassigned");
    ghost var due := if item.deadline != "" then " - Due: " + item.deadline else "";
    ghost var context := if withContext && item.context != "" then "   Context: " + item.context + "\n" else "";
    assert Headline(item) == first + due;
    assert ItemText(item, withContext) == first + due + "\n" + context;
    r := content + first;
    if item.deadline != "" {
      r := r + (" - Due: " + item.deadline);
    }
    assert r == content + (first + due) by { ConcatAssoc(content, first, due); }
    r := r + "\n";
    assert r == content + (first + due + "\n") by { ConcatAssoc(content, first + due, "\n"); }
    if withContext && item.context != "" {
      r := r + ("   Context: " + item.context + "\n");
    }
    ConcatAssoc(content, first + due + "\n", context);
  }

  /** A priority group appended: its header, its items and a blank line,
      or nothing when it has no items. */
  method AppendGroup(content: string, header: string, items: seq<Item>, withContext: bool) returns (r: string)
    ensures r == content + Group(header, items, withContext)
  {
    r := content;
    if items != [] {
      r := r + header;
      ghost var head := r;
      for i := 0 to |items|
        invariant r == head + ItemsText(items[..i], withContext)
      {
        assert items[..i + 1][..i] == items[..i];
        ghost var done := ItemsText(items[..i], withContext);
        r := AppendItem(r, items[i], withContext);
        ConcatAssoc(head, done, ItemText(items[i], withContext));
      }
      assert items[..|items|] == items;
      r := r + "\n";
      ConcatAssoc(content, header, ItemsText(items, withContext));
      ConcatAssoc(content, header + ItemsText(items, withContext), "\n");
    }
  }

  method AppendTldr(content: string, summary: Option<SummaryData>) returns (r: string)
    ensures r == content + TldrSection(summary)
  {
    r := content;
    if summary.Some? && summary.value.tldr.Some? {
      var tldr := summary.value.tldr.value;
      r := r + [BarChart] + " TL;DR\n";
      r := r + (tldr + "\n\n");
      assert TldrSection(summary) == [BarChart] + " TL;DR\n" + (tldr + "\n\n");
      ConcatAssoc(content, [BarChart] + " TL;DR\n", tldr + "\n\n");
    }
  }

  /** One bullet line per decision, appended in order. */
  method AppendBullets(content: string, decisions: seq<string>) returns (r: string)
    ensures r == content + Bullets(decisions)
  {
    r := content;
    for i := 0 to |decisions|
      invariant r == content + Bullets(decisions[..i])
    {
      assert decisions[..i + 1][..i] == decisions[..i];
      ghost var done := Bullets(decisions[..i]);
      r := r + ("• " + decisions[i] + "\n");
      ConcatAssoc(content, done, "• " + decisions[i] + "\n");
    }
    assert decisions[..|decisions|] == decisions;
  }

  method AppendDecisions(content: string, summary: Option<SummaryData>) returns (r: string)
    ensures r == content + DecisionsSection(summary)
  {
    r := content;
    if summary.Some? && summary.value.keyDecisions.Some? {
      var decisions := summary.value.keyDecisions.value;
      r := r + [CheckMark] + " Key Decisions\n";
      r := AppendBullets(r, decisions);
      r := r + "\n";
      ConcatAssoc(content, [CheckMark] + " Key Decisions\n", Bullets(decisions));
      ConcatAssoc(content, [CheckMark] + " Key Decisions\n" + Bullets(decisions), "\n");
    }
  }

  /** `for i, topic in enumerate(topics, 1)`: the numbered topic lines,
      appended in order. */
  method AppendTopicLines(content: string, topics: seq<Topic>) returns (r: string)
    ensures r == content + TopicLines(topics)
  {
    r := content;
    for i := 0 to |topics|
      invariant r == content + TopicLines(topics[..i])
    {
      assert topics[..i + 1][..i] == topics[..i];
      ghost var done := TopicLines(topics[..i]);
      r := r + TopicLine(i + 1, topics[i]);
      ConcatAssoc(content, done, TopicLine(i + 1, topics[i]));
    }
    assert topics[..|topics|] == topics;
  }

  /** The topics section: its header, the numbered topics and a blank line. */
  method AppendTopics(content: string, summary: Option<SummaryData>) returns (r: string)
    ensures r == content + TopicsSection(summary)
  {
    r := content;
    if summary.Some? && summary.value.topics.Some? {
      var topics := summary.value.topics.value;
      r := r + [SpeechBalloon] + " Topics Discussed\n";
      r := AppendTopicLines(r, topics);
      r := r + "\n";
      ConcatAssoc(content, [SpeechBalloon] + " Topics Discussed\n", TopicLines(topics));
      ConcatAssoc(content, [SpeechBalloon] + " Topics Discussed\n" + TopicLines(topics), "\n");
    }
  }

  method AppendActions(content: string, actionItems: Option<seq<Item>>) returns (r: string)
    ensures r == content + ActionSection(actionItems)
  {
    r := content;
    if actionItems.Some? {
      var items := actionItems.value;
      r := r + [Clipboard] + " Action Items\n\n";
      var high := WithPriority(items, "high");
      var medium := WithPriority(items, "medium");
      var low := WithPriority(items, "low");
      ghost var g1 := Group(HighHeader, high, true);
      ghost var g2 := Group(MediumHeader, medium, false);
      ghost var g3 := Group(LowHeader, low, false);
      ghost var h := [Clipboard] + " Action Items\n\n";
      assert ActionSection(actionItems) == h + g1 + g2 + g3;
      r := AppendGroup(r, HighHeader, high, true);
      assert r == content + (h + g1) by { ConcatAssoc(content, h, g1); }
      r := AppendGroup(r, MediumHeader, medium, false);
      assert r == content + (h + g1 + g2) by { ConcatAssoc(content, h + g1, g2); }
      r := AppendGroup(r, LowHeader, low, false);
      assert r == content + (h + g1 + g2 + g3) by { ConcatAssoc(content, h + g1 + g2, g3); }
    }
  }

  method AppendStats(content: string, metadata: Option<MetadataData>) returns (r: string)
    ensures r == content + StatsSection(metadata)
  {
    r := content;
    if metadata.Some? {
      var md := metadata.value;
      var h := [TrendingUp] + " Conversation Statistics\n";
      ghost var p, m, d := ParticipantsLine(md), TotalLine(md), DateRangeLine(md);
      r := r + h;
      ghost var r0 := r;
      if md.participants.Some? {
        r := r + ("Participants: " + Joined(md.participants.value, ", ") + "\n");
      } else {
        assert r == r0 + p;
      }
      assert r == content + (h + p) by { ConcatAssoc(content, h, p); }
      ghost var r1 := r;
      if md.messageCount.Some? {
        r := r + ("Total messages: " + md.messageCount.value + "\n");
      } else {
        assert r == r1 + m;
      }
      assert r == content + (h + p + m) by { ConcatAssoc(content, h + p, m); }
      ghost var r2 := r;
      if md.dateRange.Some? {
        var range := md.dateRange.value;
        r := r + ("Date range: " + Get(range.start, "N/A") + " - " + Get(range.end, "N/A") + "\n");
      } else {
        assert r == r2 + d;
      }
      assert r == content + (h + p + m + d) by { ConcatAssoc(content, h + p + m, d); }
      r := r + "\n";
      assert StatsSection(metadata) == h + p + m + d + "\n";
      ConcatAssoc(content, h + p + m + d, "\n");
    }
  }

  /** `build_content`, with the two renderings of the current time passed in. */
  method BuildContent(data: Analysis, date: string, stamp: string) returns (content: string)
    ensures content == Document(data, date, stamp)
  {
    content := "WhatsApp Chat Analysis - " + date + "\n\n";
    content := AppendTldr(content, data.summary);
    content := AppendDecisions(content, data.summary);
    content := AppendTopics(content, data.summary);
    content := AppendActions(content, data.actionItems);
    content := AppendStats(content, data.metadata);
    content := content + "\n---\nGenerated by Agent Skills Demo\n" + stamp;
  }

  // ---------------------------------------------------------------------
  // The requests sent to the document.

  datatype TextStyle = TextStyle(bold: bool, fontSize: nat, unit: string)

  /** Bold, 12 points. */
  const HeaderStyle: TextStyle := TextStyle(true, 12, "PT")

  datatype Request =
    | InsertText(index: nat, text: string)
    | UpdateTextStyle(startIndex: nat, endIndex: nat, style: TextStyle, fields: string)

  /** `insert_text`: the whole text at index 1, the start of the body; the
      document id plays no part. */
  function InsertTextRequests(documentId: string, content: string): (r: seq<Request>)
    ensures |r| == 1 && r[0] == InsertText(1, content)
  {
    [InsertText(1, content)]
  }

  /** The line holds one of the header emoji. */
  predicate HasHeaderEmoji(line: string) {
    exists k :: 0 <= k < |HeaderEmoji| && HeaderEmoji[k] in line
  }

  function Bold(start: nat, end: nat): Request {
    UpdateTextStyle(start, end, HeaderStyle, "bold,fontSize")
  }

  /** The requests for `lines`: a line that starts at document index
      `1 + Width` of the lines before it and holds a header emoji is made
      bold over its own length. */
  function BoldRequests(lines: seq<string>): (r: seq<Request>)
    ensures forall j :: 0 <= j < |r| ==> r[j].UpdateTextStyle?
    decreases |lines|
  {
    if lines == [] then []
    else
      var init, last := lines[..|lines| - 1], lines[|lines| - 1];
      BoldRequests(init) + (if HasHeaderEmoji(last) then [Bold(1 + Width(init), 1 + Width(init) + |last|)] else [])
  }

  /** `apply_formatting`: the walk over the lines with its running index. */
  method ApplyFormatting(content: string) returns (requests: seq<Request>)
    ensures requests == BoldRequests(SplitLines(content))
  {
    var lines := SplitLines(content);
    requests := [];
    var currentIndex := 1;
    for i := 0 to |lines|
      invariant requests == BoldRequests(lines[..i])
      invariant currentIndex == 1 + Width(lines[..i])
    {
      assert lines[..i + 1][..i] == lines[..i];
      var line := lines[i];
      var lineLength := |line| + 1;
      if HasHeaderEmoji(line) {
        requests := requests + [Bold(currentIndex, currentIndex + lineLength - 1)];
      }
      currentIndex := currentIndex + lineLength;
    }
    assert lines[..|lines|] == lines;
  }

  // ---------------------------------------------------------------------
  // What the bold requests cover.

  /** The positions of the lines that hold a header emoji. */
  function EmojiLines(lines: seq<string>): (r: seq<nat>)
    ensures forall j :: 0 <= j < |r| ==> r[j] < |lines|
    decreases |lines|
  {
    if lines == [] then []
    else
      var prev := EmojiLines(lines[..|lines| - 1]);
      if HasHeaderEmoji(lines[|lines| - 1]) then prev + [|lines| - 1] else prev
  }

  /** The emoji lines in order, and exactly those. */
  lemma {:induction false} EmojiLinesExact(lines: seq<string>)
    ensures forall a, b :: 0 <= a < b < |EmojiLines(lines)| ==> EmojiLines(lines)[a] < EmojiLines(lines)[b]
    ensures forall k :: 0 <= k < |lines| ==> (k in EmojiLines(lines) <==> HasHeaderEmoji(lines[k]))
    decreases |lines|
  {
    if lines != [] {
      var init := lines[..|lines| - 1];
      EmojiLinesExact(init);
      assert forall k :: 0 <= k < |init| ==> lines[k] == init[k];
    }
  }

  /** Request `j` is for the `j`-th emoji line and spans it. */
  lemma {:induction false} BoldRequestsPerLine(lines: seq<string>)
    ensures |BoldRequests(lines)| == |EmojiLines(lines)|
    ensures forall j :: 0 <= j < |BoldRequests(lines)| ==>
      var k := EmojiLines(lines)[j];
      BoldRequests(lines)[j] == Bold(1 + Width(lines[..k]), 1 + Width(lines[..k]) + |lines[k]|)
    decreases |lines|
  {
    if lines != [] {
      var init := lines[..|lines| - 1];
      BoldRequestsPerLine(init);
      forall k | 0 <= k < |init| ensures lines[..k] == init[..k] && lines[k] == init[k] { }
    }
  }

  /** The lines before `b` are at least as wide as those before `a`, the
      line at `a` and its line break. */
  lemma {:induction false} WidthGrows(lines: seq<string>, a: nat, b: nat)
    requires a < b <= |lines|
    ensures Width(lines[..a]) + |lines[a]| + 1 <= Width(lines[..b])
    decreases b
  {
    assert lines[..b][..b - 1] == lines[..b - 1];
    if a < b - 1 {
      WidthGrows(lines, a, b - 1);
    } else {
      assert lines[..b][b - 1] == lines[a];
    }
  }

  /** The ranges come in order and do not touch: a line break lies between
      any two. */
  lemma BoldRangesIncreasing(lines: seq<string>)
    ensures forall j :: 0 <= j < |BoldRequests(lines)| - 1 ==>
      BoldRequests(lines)[j].endIndex < BoldRequests(lines)[j + 1].startIndex
  {
    var r, ix := BoldRequests(lines), EmojiLines(lines);
    BoldRequestsPerLine(lines);
    EmojiLinesExact(lines);
    forall j | 0 <= j < |r| - 1 ensures r[j].endIndex < r[j + 1].startIndex {
      WidthGrows(lines, ix[j], ix[j + 1]);
    }
  }

  /** In `text` placed at index `at`, the range of `r` lies within the text
      and holds exactly `line`. */
  predicate Covers(at: nat, text: string, r: Request, line: string)
    requires r.UpdateTextStyle?
  {
    && at <= r.startIndex <= r.endIndex <= at + |text|
    && text[r.startIndex - at..r.endIndex - at] == line
  }

  /** Bold request `j` covers, in the content, the `j`-th emoji line. */
  lemma BoldRangeInContent(content: string, j: nat)
    requires j < |BoldRequests(SplitLines(content))|
    ensures j < |EmojiLines(SplitLines(content))|
    ensures Covers(1, content, BoldRequests(SplitLines(content))[j], SplitLines(content)[EmojiLines(SplitLines(content))[j]])
  {
    var lines := SplitLines(content);
    BoldRequestsPerLine(lines);
    var k := EmojiLines(lines)[j];
    JoinSplitLines(content);
    LineInJoin(lines, k);
  }

  /** In the text that the insert request places at index 1, each bold
      range covers exactly one line holding a header emoji, and every such
      line gets a range. */
  lemma BoldRangesCoverHeaderLines(documentId: string, content: string)
    ensures var inserted := InsertTextRequests(documentId, content)[0];
      var lines := SplitLines(content);
      var r := BoldRequests(lines);
      && |r| == |EmojiLines(lines)|
      && (forall k :: 0 <= k < |lines| ==> (k in EmojiLines(lines) <==> HasHeaderEmoji(lines[k])))
      && (forall j :: 0 <= j < |r| ==> Covers(inserted.index, inserted.text, r[j], lines[EmojiLines(lines)[j]]))
  {
    var lines := SplitLines(content);
    BoldRequestsPerLine(lines);
    EmojiLinesExact(lines);
    forall j | 0 <= j < |BoldRequests(lines)|
      ensures Covers(1, content, BoldRequests(lines)[j], lines[EmojiLines(lines)[j]])
    {
      BoldRangeInContent(content, j);
    }
  }

  // ---------------------------------------------------------------------
  // What the document shows.

  /** The positions of the items with priority `p`. */
  function PriorityIndices(items: seq<Item>, p: string): (r: seq<nat>)
    ensures forall j :: 0 <= j < |r| ==> r[j] < |items|
    decreases |items|
  {
    if items == [] then []
    else
      var prev := PriorityIndices(items[..|items| - 1], p);
      if items[|items| - 1].priority == Some(p) then prev + [|items| - 1] else prev
  }

  /** A priority group holds the items of that priority, each once, in
      their original order, and no others. */
  lemma {:induction false} PriorityGroup(items: seq<Item>, p: string)
    ensures var ix := PriorityIndices(items, p);
      && |WithPriority(items, p)| == |ix|
      && (forall j :: 0 <= j < |ix| ==> WithPriority(items, p)[j] == items[ix[j]])
      && (forall a, b :: 0 <= a < b < |ix| ==> ix[a] < ix[b])
      && (forall i :: 0 <= i < |items| ==> (i in ix <==> items[i].priority == Some(p)))
    decreases |items|
  {
    if items != [] {
      var init := items[..|items| - 1];
      PriorityGroup(init, p);
      assert forall i :: 0 <= i < |init| ==> items[i] == init[i];
    }
  }

  /** The three groups split the items: an item of priority high, medium or
      low is in its group alone, and any other item is in none. */
  lemma PriorityPartition(items: seq<Item>)
    ensures forall i :: 0 <= i < |items| ==>
      && (i in PriorityIndices(items, "high") <==> items[i].priority == Some("high"))
      && (i in PriorityIndices(items, "medium") <==> items[i].priority == Some("medium"))
      && (i in PriorityIndices(items, "low") <==> items[i].priority == Some("low"))
    ensures forall i :: 0 <= i < |items| ==>
      (items[i].priority !in {Some("high"), Some("medium"), Some("low")} <==>
        i !in PriorityIndices(items, "high") && i !in PriorityIndices(items, "medium") && i !in PriorityIndices(items, "low"))
  {
    PriorityGroup(items, "high");
    PriorityGroup(items, "medium");
    PriorityGroup(items, "low");
  }

  /** The ballot box is checked exactly for a completed item. */
  lemma StatusMark(item: Item, withContext: bool)
    ensures ItemText(item, withContext)[0] in {BallotChecked, BallotEmpty}
    ensures ItemText(item, withContext)[0] == BallotChecked <==> item.completed
  {
  }

  /** The deadline adds ` - Due: <deadline>` to the headline, and nothing
      when it is empty. */
  lemma DueSuffix(item: Item)
    ensures item.deadline == "" ==> Headline(item) == Headline(item.(deadline := "x"))[..|Headline(item)|]
    ensures Headline(item) == Headline(item.(deadline := "")) + (if item.deadline != "" then " - Due: " + item.deadline else "")
  {
  }

  /** Without contexts shown, as in the medium and low groups, an item's
      context never reaches the document. */
  lemma {:induction false} ContextHidden(items: seq<Item>, others: seq<Item>)
    requires |others| == |items|
    requires forall k :: 0 <= k < |items| ==> others[k] == items[k].(context := others[k].context)
    ensures ItemsText(items, false) == ItemsText(others, false)
    decreases |items|
  {
    if items != [] {
      var n := |items| - 1;
      ContextHidden(items[..n], others[..n]);
      assert Headline(others[n]) == Headline(items[n]);
    }
  }

  /** With contexts shown, as in the high group, an item with a context gets
      one more line. */
  lemma ContextShown(item: Item)
    ensures item.context == "" ==> ItemText(item, true) == ItemText(item, false)
    ensures item.context != "" ==> ItemText(item, true) == ItemText(item, false) + "   Context: " + item.context + "\n"
  {
  }

  /** The text for the first `m` topics begins the text for all of them. */
  lemma {:induction false} TopicLinesPrefix(topics: seq<Topic>, m: nat)
    requires m <= |topics|
    ensures TopicLines(topics[..m]) <= TopicLines(topics)
    decreases |topics|
  {
    var n := |topics|;
    if m == n {
      assert topics[..m] == topics;
    } else {
      TopicLinesPrefix(topics[..n - 1], m);
      assert topics[..n - 1][..m] == topics[..m];
      var whole := TopicLines(topics);
      var init := TopicLines(topics[..n - 1]);
      assert whole == init + TopicLine(n, topics[n - 1]);
      assert init <= whole;
    }
  }

  /** The topics are numbered from 1 in order: the text for the first `k`
      is followed by topic `k` under the number `k + 1`. */
  lemma TopicNumbered(topics: seq<Topic>, k: nat)
    requires k < |topics|
    ensures TopicLines(topics[..k]) + Decimal(k + 1) + ". " + TopicBody(topics[k]) + "\n" <= TopicLines(topics)
  {
    var before, line := TopicLines(topics[..k]), TopicLine(k + 1, topics[k]);
    assert before + line <= TopicLines(topics) by {
      TopicLinesPrefix(topics, k + 1);
      assert topics[..k + 1][..k] == topics[..k];
      assert topics[..k + 1][k] == topics[k];
    }
    var d, b := Decimal(k + 1), TopicBody(topics[k]);
    ConcatAssoc(before, d, ". ");
    ConcatAssoc(before, d + ". ", b);
    ConcatAssoc(before, d + ". " + b, "\n");
  }
}
