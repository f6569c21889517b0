# WhatsApp chat parser and Google Docs export, modelled in Dafny

This project models the text-processing core of two scripts. The first,
`scripts/parse_whatsapp.py`, reads an exported WhatsApp transcript. It also
finds action items in the messages and summarises who wrote how much. The
second, `scripts/export_to_google_docs.py`, turns an analysis of a chat into
a document text and into Google Docs requests: one that inserts the text, and
bold requests over the emoji section headers. The model covers the following:

- **Header recognition** (`line_classifier.dfy`, module `LineClassifier`).
  - The three header layouts are hand-written matchers that reproduce
    `re.match` on the three patterns:
    - `[DD/MM/YYYY, HH:MM:SS] Sender: text`;
    - `[MM/DD/YY, H:MM:SS AM] Sender: text`;
    - `DD/MM/YYYY, HH:MM - Sender: text`.
  - They include the way the regular expression backtracks on the
    `\s*([^:]+):` sender group.
  - `MatchHeader` is the loop that tries the layouts in order.
- **Message assembly** (`chat_parser.dfy`, module `ChatParser`).
  - The single left-to-right pass over the lines with its open "current
    message".
  - The metadata: sorted participants, media count and date range.
  - `ParseChat` is the loop; `Assemble`/`Step` is its specification.
    `Messages` is an independent reference reading: one message per header
    line, plus the non-blank lines after it.
- **Action items** (`action_items.dfy`, module `ActionItems`).
  - `re.search` with the `TODO:`-style pattern and the `I'll` / `I will`
    pattern, written out as leftmost-match searches.
  - The priority chain: an explicit marker first, with `continue`.
  - The numbering of the items.
- **Summary** (`summary.dfy`, module `ChatSummary`).
  - The per-sender counting loop over an insertion-ordered dictionary.
  - `max` with its first-wins tie rule.
  - The figures passed through from the metadata.
- **Export** (`doc_export.dfy`, module `DocExport`).
  - `build_content` as methods that append section by section, against a
    `Document` function.
  - `insert_text`.
  - `apply_formatting` as a loop with a running index, against
    `BoldRequests`.
- **Shared text functions** (`text.dfy`, module `Text`).
  - Python's `str.isspace`, `strip`, `lower` on the characters that matter,
    `split('\n')` / `'\n'.join`, string ordering for `sorted`, and `str(n)`.

Strings are sequences of Unicode code points, as Python's `str` is. Lengths
and indices are therefore code points throughout.

## Model

| member | source | states |
|---|---|---|
| Text.Strip | scripts/parse_whatsapp.py:72-76 | `strip()` yields a text with no leading or trailing whitespace; it is a contiguous slice of the input, and it is empty exactly when the input is all whitespace |
| Text.StripPadded | scripts/parse_whatsapp.py:140 | stripping whitespace-padded trimmed text gives back that text |
| Text.StripTrimmed | scripts/parse_whatsapp.py:72-76 | `strip()` leaves a text without surrounding whitespace unchanged |
| Text.JoinSplitLines | scripts/parse_whatsapp.py:49 | joining the pieces of `split('\n')` with line breaks gives the original text |
| Text.SplitJoinLines | scripts/export_to_google_docs.py:186 | splitting the join of lines without line breaks gives those lines back |
| Text.LineInJoin | scripts/export_to_google_docs.py:186-190 | line k of a split text starts at offset Width(lines[..k]), the sum of the earlier lengths plus one per line break, and is bounded by line breaks or the ends |
| Text.SortedDistinct | scripts/parse_whatsapp.py:91-101 | `sorted(set(...))` is strictly increasing and has exactly the elements of its input |
| Text.SortedListsWithSameElements | scripts/parse_whatsapp.py:101 | two strictly sorted lists with the same elements are equal, so the participant list is determined by the set of senders |
| Text.LessTotal | scripts/parse_whatsapp.py:101 | Python's string order is total: of two different strings one is smaller |
| Text.DecimalRoundTrip | scripts/export_to_google_docs.py:103-107 | reading back the digits that `str(n)` writes gives n |
| Text.Decimal | scripts/export_to_google_docs.py:103-107 | `str(n)` writes at least one decimal digit and no leading zero: it starts with `0` exactly when n is 0, and then it is just `0` |
| LineClassifier.SenderAndText | scripts/parse_whatsapp.py:39-43 | the `\s*([^:]+):\s*(.*)` tail matches exactly when a colon follows at least one character; the sender has no colon and is non-empty; the text has no line break and does not start with whitespace |
| LineClassifier.SenderAndTextExact | scripts/parse_whatsapp.py:39-43 | the tail groups are read exactly when the line lays out as whitespace, a colon-free sender up to the first colon, whitespace, and the text up to the line end; both directions |
| LineClassifier.BlankSenderBacktracks | scripts/parse_whatsapp.py:39-43 | when only whitespace precedes the colon, `\s*` gives back its last character and the sender group is that one whitespace character |
| LineClassifier.MatchBracketedFullYear | scripts/parse_whatsapp.py:39 | a match starts with `[`, has a DD/MM/YYYY date and an HH:MM:SS time, and well-formed sender and text groups |
| LineClassifier.MatchBracketedMeridiem | scripts/parse_whatsapp.py:41 | a match starts with `[`, has a two-digit-year date, a time group of at least nine characters ending in `M`, and well-formed sender and text groups |
| LineClassifier.MatchDashed | scripts/parse_whatsapp.py:43 | a match starts with a digit, has a DD/MM/YYYY date and an HH:MM time, and well-formed groups |
| LineClassifier.FirstMatchSpec | scripts/parse_whatsapp.py:52-80 | the first layout that matches wins; the result is that layout's groups, no earlier layout matches, and there is a result exactly when some layout matches |
| LineClassifier.MatchHeader | scripts/parse_whatsapp.py:52-80 | the loop over the patterns with `break` returns the classification, which is present exactly when some layout matches |
| LineClassifier.LayoutsExhaustive | scripts/parse_whatsapp.py:37-44 | a line matches some layout exactly when it matches one of the three listed patterns |
| LineClassifier.LayoutsExclusive | scripts/parse_whatsapp.py:37-44 | no line matches two different layouts |
| LineClassifier.ClassifyIsAnyMatch | scripts/parse_whatsapp.py:52-80 | since the layouts exclude one another, the pattern order does not matter: any layout that matches gives the classification |
| LineClassifier.TailRoundTrip | scripts/parse_whatsapp.py:39-43 | whitespace, a sender without colon, a colon, whitespace and a one-line text that starts with a non-space are read back as that sender and text |
| LineClassifier.BracketedFullYearRoundTrip | scripts/parse_whatsapp.py:39 | a line written in the `[DD/MM/YYYY, HH:MM:SS] sender: text` layout is read back as exactly its date, time, sender and text |
| LineClassifier.BracketedMeridiemRoundTrip | scripts/parse_whatsapp.py:41 | a line written in the `[MM/DD/YY, H:MM:SS AM] sender: text` layout, with a one- or two-digit hour and any whitespace before AM/PM, is read back as its fields |
| LineClassifier.DashedRoundTrip | scripts/parse_whatsapp.py:43 | a line written in the `DD/MM/YYYY, HH:MM - sender: text` layout is read back as its fields |
| LineClassifier.BracketedFullYearLocated | scripts/parse_whatsapp.py:39 | a line with the full-year date and time fields in place and a readable tail after `]` matches with exactly those groups |
| LineClassifier.MatchBracketedFullYearSound | scripts/parse_whatsapp.py:39 | conversely, every full-year match has its date at offset 1, its time in place after the date and whitespace, and its sender and text read from the tail after `]` |
| LineClassifier.BracketedMeridiemLocated | scripts/parse_whatsapp.py:41 | a line with the twelve-hour date and time fields in place and a readable tail after `]` matches with exactly those groups |
| LineClassifier.MatchBracketedMeridiemSound | scripts/parse_whatsapp.py:41 | conversely, every twelve-hour match has its date at offset 1, its time in place after the date and whitespace, and its sender and text read from the tail after `]` |
| LineClassifier.MatchBracketedMeridiemTimeShape | scripts/parse_whatsapp.py:40-41 | the time group of every twelve-hour match has the `H:MM:SS AM/PM` shape: one or two hour digits, a colon, a two-digit clock with seconds, any whitespace, then `A` or `P` and `M` |
| LineClassifier.DashedLocated | scripts/parse_whatsapp.py:43 | a line with the dashed date and time fields in place and a readable tail after ` - ` matches with exactly those groups |
| LineClassifier.MatchDashedSound | scripts/parse_whatsapp.py:43 | conversely, every dashed match has its date at offset 0, its time after the comma and whitespace, the dash, and its sender and text read from the tail after the dash |
| LineClassifier.DashedBlankSenderExample | scripts/parse_whatsapp.py:43 | `12/01/2024, 10:00 -  : hi` is a header whose sender group is a single space |
| ChatParser.ReadLine | scripts/parse_whatsapp.py:49-54 | a line is read as a header exactly when one of the patterns matches it |
| ChatParser.OpenMessage | scripts/parse_whatsapp.py:59-78 | a header opens a message whose date, time, sender and content are each `strip()` of their group; the timestamp is the stripped date, a space and the stripped time; the sender has no colon; the content is one line; it is media exactly when the lower-cased text contains one of the six markers |
| ChatParser.HeaderLineRead | scripts/parse_whatsapp.py:52-78 | any line a layout matches is read as the header of the message with the matched date and time, their timestamp, the stripped sender and text, and the media flag of the text |
| ChatParser.MatchedFieldsTrimmed | scripts/parse_whatsapp.py:71-73 | the date and time groups of every layout start and end with a non-space character, so `strip()` leaves them as matched |
| ChatParser.BracketedFullYearLineRead | scripts/parse_whatsapp.py:52-78 | a full-year header line built from its parts is read as the message with that date, time and timestamp, the stripped sender and text, and the media flag of the text |
| ChatParser.BracketedMeridiemLineRead | scripts/parse_whatsapp.py:52-78 | a twelve-hour header line built from its parts is read as the message with those fields |
| ChatParser.DashedLineRead | scripts/parse_whatsapp.py:52-78 | a dashed header line built from its parts is read as the message with those fields |
| ChatParser.AppendLine | scripts/parse_whatsapp.py:83-84 | a continuation line is appended verbatim after a line break, and no other field changes (in particular not the media flag) |
| ChatParser.Flush | scripts/parse_whatsapp.py:87-88 | the finished messages followed by the open one, if any |
| ChatParser.ReadStep | scripts/parse_whatsapp.py:50-84 | one iteration of the loop over the lines moves the finished messages and the open message exactly as one step of the specification does |
| ChatParser.RunReading | scripts/parse_whatsapp.py:49-88 | the pass from any state yields the finished messages, then the open message extended by the continuation lines, then the reference messages of the rest |
| ChatParser.AssembleIsMessages | scripts/parse_whatsapp.py:49-88 | the assembled messages are the reference reading: one message per header line, in order, each with the non-blank lines that follow it |
| ChatParser.MessageCount | scripts/parse_whatsapp.py:49-88 | there are exactly as many messages as header lines |
| ChatParser.LeadingLinesDropped | scripts/parse_whatsapp.py:83 | lines before the first header belong to no message |
| ChatParser.BlankLineIgnored | scripts/parse_whatsapp.py:83 | a whitespace-only line can be removed from a transcript without changing the messages |
| ChatParser.BlankIsNoHeader | scripts/parse_whatsapp.py:37-44 | a whitespace-only line is never a header |
| ChatParser.MessageFromHeader | scripts/parse_whatsapp.py:49-88 | message j comes from the header line that has j headers before it; it is that header's message, extended by the non-blank lines after the header, up to the next header |
| ChatParser.MediaCountBounds | scripts/parse_whatsapp.py:92 | the media count is 0 exactly when no message is media, and equals the message count exactly when all are |
| ChatParser.DateRangeOf | scripts/parse_whatsapp.py:94-97 | the range is the first and last message's dates, and is None/None exactly when there are no messages |
| ChatParser.Participants | scripts/parse_whatsapp.py:91-101 | the participants are strictly sorted (so free of duplicates), and a name is among them exactly when some message has it as sender |
| ChatParser.ParseChat | scripts/parse_whatsapp.py:46-107 | the loop's messages are the assembled messages of `content.split('\n')`, and its metadata is computed from them |
| ActionItems.FoldChar | scripts/parse_whatsapp.py:122-123 | `(?i)` matching folds A-Z onto a-z and leaves every other character but four special letters alone |
| ActionItems.TailGroup | scripts/parse_whatsapp.py:122-123 | a `(.+)` group after `\s*` or `\s+` is non-empty and has no line break |
| ActionItems.SearchFromNone | scripts/parse_whatsapp.py:135-149 | `re.search` finds nothing exactly when the pattern matches at no position |
| ActionItems.SearchFromLeftmost | scripts/parse_whatsapp.py:135-149 | a successful search returns the match at the leftmost position where the pattern matches |
| ActionItems.Detect | scripts/parse_whatsapp.py:135-159 | a message yields nothing exactly when neither pattern is found; a commitment only when no explicit marker is found; the task is trimmed and one line |
| ActionItems.DetectLeftmost | scripts/parse_whatsapp.py:135-159 | the task is the stripped group of the leftmost explicit marker, or, when no marker matches anywhere, of the leftmost commitment |
| ActionItems.StripLine | scripts/parse_whatsapp.py:140-154 | stripping a line-break-free group leaves no line break |
| ActionItems.ExtractActionItems | scripts/parse_whatsapp.py:128-161 | the loop with its running id returns `Items(messages)` |
| ActionItems.ItemsFollowMessages | scripts/parse_whatsapp.py:131-159 | item k belongs to the k-th message that yields one: id k+1, the kind and task detected there, and assignee, timestamp and source copied from that message |
| ActionItems.DetectedIndicesExact | scripts/parse_whatsapp.py:131-159 | messages yield items in message order, each at most one, and exactly those messages in which a pattern is found |
| ActionItems.ItemIds | scripts/parse_whatsapp.py:129-159 | the ids are 1, 2, ..., n |
| ActionItems.TasksAreOneLine | scripts/parse_whatsapp.py:140-154 | no task contains a line break or has surrounding whitespace |
| ActionItems.MatchAtWord | scripts/parse_whatsapp.py:122-123 | the alternatives are tried in order: the first that matches and is followed by the tail gives the match |
| ActionItems.WordsExclusive | scripts/parse_whatsapp.py:122-123 | no two alternatives of either pattern match at the same position |
| ActionItems.TodoRoundTrip | scripts/parse_whatsapp.py:122-146 | `TODO:`, `ACTION:`, `TASK:` or `REMINDER:`, in any case, then whitespace and a one-line task, yields that task as an explicit to-do |
| ActionItems.CommitmentRoundTrip | scripts/parse_whatsapp.py:123-159 | `I'll` or `I will`, in any case, then whitespace and a one-line task, in content with no explicit marker, yields that task as a commitment |
| ChatSummary.KeyIndex | scripts/parse_whatsapp.py:181 | the dictionary lookup finds the entry with that name, and finds nothing exactly when the name is not a key |
| ChatSummary.Occurrences | scripts/parse_whatsapp.py:179-181 | the number of messages by a sender is 0 exactly when the sender wrote none |
| ChatSummary.TallyNames | scripts/parse_whatsapp.py:178-181 | the counting loop leaves one entry per distinct sender and no other |
| ChatSummary.TallyCounts | scripts/parse_whatsapp.py:178-181 | each entry's count is the number of messages its sender wrote |
| ChatSummary.TallyTotal | scripts/parse_whatsapp.py:178-181 | the counts add up to the number of messages |
| ChatSummary.TallyFirstSeen | scripts/parse_whatsapp.py:178-181 | the entries are in the order their senders first appear |
| ChatSummary.MostActive | scripts/parse_whatsapp.py:184 | `max` picks an entry with the largest count, and no earlier entry has that count |
| ChatSummary.MostActiveUnique | scripts/parse_whatsapp.py:184 | those two properties determine the entry |
| ChatSummary.TallyMostActive | scripts/parse_whatsapp.py:178-184 | the most active sender wrote the most messages and, among those who wrote as many, wrote first |
| ChatSummary.GenerateSummary | scripts/parse_whatsapp.py:174-196 | the counting loop and `max` give `SummaryOf(chat)`; an empty chat is outside the precondition because `max` raises |
| ChatSummary.SummaryStats | scripts/parse_whatsapp.py:177-187 | the statistics have distinct names, exactly the senders, each with its message count, in first-seen order, adding up to the message count |
| ChatSummary.SummaryMostActive | scripts/parse_whatsapp.py:184-191 | the reported most active sender and count are a sender with the maximal count, the earliest such |
| ChatSummary.SummaryOfParsed | scripts/parse_whatsapp.py:192-195 | for a parsed chat, the totals are its message and media counts, the text count is their difference and is never negative, and the date range is the first and last dates |
| DocExport.TldrSection | scripts/export_to_google_docs.py:89-91 | the TL;DR section is present exactly when the summary has a `tldr` key, and opens with its emoji |
| DocExport.DecisionsSection | scripts/export_to_google_docs.py:94-98 | the decisions section is present exactly when the summary has `key_decisions` |
| DocExport.TopicsSection | scripts/export_to_google_docs.py:101-108 | the topics section is present exactly when the summary has `topics` |
| DocExport.ActionSection | scripts/export_to_google_docs.py:111-149 | the action section is present exactly when the data has `action_items` |
| DocExport.StatsSection | scripts/export_to_google_docs.py:152-161 | the statistics section is present exactly when the data has `metadata` |
| DocExport.Group | scripts/export_to_google_docs.py:119-141 | a priority group is empty exactly when it has no items |
| DocExport.WithPriority | scripts/export_to_google_docs.py:115-117 | a priority filter keeps only items of that priority |
| DocExport.AppendItem | scripts/export_to_google_docs.py:122-128 | the pieces appended for one item are its rendering |
| DocExport.AppendGroup | scripts/export_to_google_docs.py:119-129 | the loop over a group appends the group's rendering |
| DocExport.AppendTldr | scripts/export_to_google_docs.py:89-91 | appends the TL;DR section |
| DocExport.AppendDecisions | scripts/export_to_google_docs.py:94-98 | the loop over the decisions appends the decisions section |
| DocExport.AppendBullets | scripts/export_to_google_docs.py:96-97 | the inner loop appends one `• decision` line per decision, in order |
| DocExport.AppendTopics | scripts/export_to_google_docs.py:101-108 | the `enumerate(..., 1)` loop appends the topics section |
| DocExport.AppendTopicLines | scripts/export_to_google_docs.py:103-107 | the `enumerate(..., 1)` loop appends the numbered topic lines, in order |
| DocExport.AppendActions | scripts/export_to_google_docs.py:111-149 | appends the action section with its three priority groups |
| DocExport.AppendStats | scripts/export_to_google_docs.py:152-161 | appends the statistics section |
| DocExport.BuildContent | scripts/export_to_google_docs.py:78-166 | the text built by `+=` is `Document(data, date, stamp)`: title, the five optional sections in order, footer |
| DocExport.PriorityGroup | scripts/export_to_google_docs.py:115-117 | each priority group holds the items of that priority, each once, in input order, and no others |
| DocExport.PriorityPartition | scripts/export_to_google_docs.py:115-117 | an item of priority high, medium or low is in its own group only; an item with any other priority, or none, is in no group |
| DocExport.StatusMark | scripts/export_to_google_docs.py:122-144 | an item's line starts with ☑ exactly when it is completed, and with ☐ otherwise |
| DocExport.DueSuffix | scripts/export_to_google_docs.py:124-147 | a deadline adds ` - Due: <deadline>` to the headline, and an empty one adds nothing |
| DocExport.ContextHidden | scripts/export_to_google_docs.py:131-149 | in the medium and low groups, items' contexts never affect the text |
| DocExport.ContextShown | scripts/export_to_google_docs.py:127-128 | in the high group, an item with a context gets exactly one more `   Context:` line |
| DocExport.TopicLinesPrefix | scripts/export_to_google_docs.py:103-107 | the text of the first m topics begins the text of all of them |
| DocExport.TopicNumbered | scripts/export_to_google_docs.py:103-107 | topic k appears under number k+1, right after the earlier topics |
| DocExport.InsertTextRequests | scripts/export_to_google_docs.py:169-178 | one request, inserting the whole text at index 1 |
| DocExport.ApplyFormatting | scripts/export_to_google_docs.py:181-213 | the loop with its running index returns `BoldRequests` of the split text |
| DocExport.EmojiLinesExact | scripts/export_to_google_docs.py:193 | the lines that get a request are in order, and are exactly those holding one of the eight header emoji |
| DocExport.BoldRequestsPerLine | scripts/export_to_google_docs.py:187-211 | request j is for the j-th emoji line and runs from 1 plus that line's offset to the end of the line |
| DocExport.WidthGrows | scripts/export_to_google_docs.py:190-211 | the running index passes each line and its line break before reaching a later line |
| DocExport.BoldRangesIncreasing | scripts/export_to_google_docs.py:190-211 | the ranges are strictly increasing and do not touch |
| DocExport.BoldRangeInContent | scripts/export_to_google_docs.py:186-198 | each range lies within the text, and the text under it is exactly its line |
| DocExport.BoldRangesCoverHeaderLines | scripts/export_to_google_docs.py:169-211 | in the text the insert request puts at index 1, each bold range covers exactly one header-emoji line; every such line gets one range |

## Left out

- Reading the file (`open(...).read()`): `ParseChat` takes the decoded content; `file_path` is an opaque string copied into the metadata.
- Both `main()` functions are left out. They hold argument handling, printing, JSON output and output-file naming.
- `get_credentials`, `create_document` and `export_to_google_docs` are left out. They are OAuth, token files, the Google Docs API and `sys.exit`.
- `datetime.now()` is not called. The title date and footer timestamp reach `BuildContent` as the strings it would format.
- LineClassifier: `\d` is modelled as the ASCII digits only. Python also accepts other Unicode decimal digits there.
- ActionItems.FoldChar: `(?i)` case folding covers A-Z and the four non-ASCII letters that fold onto `i`, `s` and `k`. No other Unicode case equivalence is modelled.
- Text.Lower: `str.lower()` is modelled on A-Z and the Kelvin sign, the only characters whose lower case can take part in a media marker.
- The `request` and `deadline` patterns are not modelled. They are declared but never used.
- DocExport: JSON values are held as the text `str()` gives them. A missing key is `None` in an `Option`. The truth of `completed` is a `bool`. `deadline` and `context` are `""` whenever they are false.
- DocExport: an item without a `task` key raises `KeyError`. It cannot be represented, because `task` is a field.
- DocExport.BoldRequestsPerLine: indices count code points, as Python's `len` does. The Docs API counts UTF-16 units, so real documents may shift after an astral-plane emoji; that service is not modelled.
- DocExport.BuildContent: the analysis is assumed to have an object wherever `build_content` tests a key with `in` or calls `.get` (`summary`, `metadata`, each action item, `date_range`) and a list wherever it iterates (`key_decisions`, `topics`, `action_items`). The `TypeError` and `AttributeError` paths that other shapes reach (scripts/export_to_google_docs.py:89-161) are not modelled, nor is `in` on a string `summary` acting as a substring test. The analysis is a record with those shapes, so no other shape can be given to it.
- DocExport.ParticipantsLine: `', '.join` raises `TypeError` when a participant is not a string (scripts/export_to_google_docs.py:155). That error path is not modelled, because participants are held as the text `str()` gives them.
- DocExport.DateRangeLine: `date_range.get` raises `AttributeError` when `date_range` is not an object (scripts/export_to_google_docs.py:159-160). That error path is not modelled, because the range is held as two optional texts.
- `build_content` declares an unused `requests` list, which is not modelled.
- Request records model only the keys that vary. The fixed style (bold, 12 PT, fields `bold,fontSize`) is a constant.
- ChatSummary.GenerateSummary requires a non-empty chat. The source raises `ValueError` from `max` on an empty one, and that error path is not modelled.
