/** Action-item extraction: each message's content is searched for an
    explicit marker (`TODO:`, `ACTION:`, `TASK:`, `REMINDER:`, in any case)
    and, failing that, for a first-person commitment (`I'll`, `I will`); the
    text after the marker, up to the end of its line, becomes the task. The
    two regular expressions are written out as matchers that reproduce what
    `re.search` returns. */
module ActionItems {
  import opened Text
  import opened LineClassifier
  import opened ChatParser

  /** The case folding of a `(?i)` pattern, as far as the ASCII letters of
      the markers are concerned: A-Z, the dotted and dotless capital and small
      i, the long s and the Kelvin sign fold onto the small ASCII letter they
      match. */
  function FoldChar(c: char): (f: char)
    ensures 'A' <= c <= 'Z' ==> 'a' <= f <= 'z'
    ensures !('A' <= c <= 'Z') && c !in {'\U{130}', '\U{131}', '\U{17F}', '\U{212A}'} ==> f == c
  {
    if 'A' <= c <= 'Z' then (c as int + 32) as char
    else if c == '\U{130}' || c == '\U{131}' then 'i'
    else if c == '\U{17F}' then 's'
    else if c == '\U{212A}' then 'k'
    else c
  }

  /** `word` (lower case) matches `s` at `p`, ignoring case. */
  predicate WordAt(s: string, p: nat, word: string) {
    p + |word| <= |s| && forall k :: 0 <= k < |word| ==> FoldChar(s[p + k]) == word[k]
  }

  /** `(TODO|ACTION|TASK|REMINDER):` as alternatives tried in order. */
  const TodoWords: seq<string> := ["todo:", "action:", "task:", "reminder:"]

  /** `i('ll| will)` as alternatives tried in order. */
  const CommitmentWords: seq<string> := ["i'll", "i will"]

  /** The last character at or after `lo` and before `hi` that is not a line break. */
  function LastNonBreak(s: string, lo: nat, hi: nat): (r: Option<nat>)
    requires hi <= |s|
    ensures r.Some? ==> lo <= r.value < hi && s[r.value] != '\n'
    ensures r.Some? ==> forall k :: r.value < k < hi ==> s[k] == '\n'
    ensures r.None? ==> forall k :: lo <= k < hi ==> s[k] == '\n'
    decreases hi
  {
    if hi <= lo then None
    else if s[hi - 1] != '\n' then Some(hi - 1)
    else LastNonBreak(s, lo, hi - 1)
  }

  /** `\s*(.+)` (when `minSpaces` is 0) or `\s+(.+)` (when it is 1) at `q`:
      the group `(.+)`. The greedy whitespace run stops at a character that
      is neither whitespace nor a line break, and the group runs from there
      to the end of the line; when the run reaches the end of the text, the
      regular expression backs into it, and the group is its last character
      that is not a line break. */
  function TailGroup(s: string, q: nat, minSpaces: nat): (r: Option<string>)
    requires q <= |s|
    ensures r.Some? ==> |r.value| >= 1 && '\n' !in r.value
  {
    var e := SkipSpaces(s, q);
    if e < |s| then
      if e - q >= minSpaces then
        SkipSpacesStops(s, q);
        assert s[e] != '\n' by { assert !IsSpace(s[e]); }
        LineEndStops(s, e);
        var g := s[e..LineEnd(s, e)];
        assert '\n' !in g by { assert forall x :: 0 <= x < |g| ==> g[x] == s[e + x]; }
        Some(g)
      else None
    else
      match LastNonBreak(s, q + minSpaces, e)
      case None => None
      case Some(k) => Some([s[k]])
  }

  /** The first alternative in `words` that matches at `p` and is followed by
      the tail: its group `(.+)`. */
  function MatchAt(s: string, p: nat, words: seq<string>, minSpaces: nat): (r: Option<string>)
    requires p <= |s|
    ensures r.Some? ==> |r.value| >= 1 && '\n' !in r.value
  {
    if words == [] then None
    else if WordAt(s, p, words[0]) && TailGroup(s, p + |words[0]|, minSpaces).Some? then
      TailGroup(s, p + |words[0]|, minSpaces)
    else MatchAt(s, p, words[1..], minSpaces)
  }

  /** `re.search` from position `p`: the group of the leftmost match. */
  function SearchFrom(s: string, p: nat, words: seq<string>, minSpaces: nat): (r: Option<string>)
    requires p <= |s|
    ensures r.Some? ==> |r.value| >= 1 && '\n' !in r.value
    decreases |s| - p
  {
    if p == |s| then None
    else if MatchAt(s, p, words, minSpaces).Some? then MatchAt(s, p, words, minSpaces)
    else SearchFrom(s, p + 1, words, minSpaces)
  }

  /** No alternative matches at any position from `lo` up to `hi`. */
  ghost predicate NoMatchBetween(s: string, lo: nat, hi: nat, words: seq<string>, minSpaces: nat)
    requires hi <= |s|
  {
    forall q: nat :: lo <= q < hi ==> MatchAt(s, q, words, minSpaces).None?
  }

  /** The search finds nothing exactly when nothing matches anywhere. */
  lemma {:induction false} SearchFromNone(s: string, p: nat, words: seq<string>, minSpaces: nat)
    requires p <= |s|
    ensures SearchFrom(s, p, words, minSpaces).None? <==> NoMatchBetween(s, p, |s|, words, minSpaces)
    decreases |s| - p
  {
    if p < |s| && MatchAt(s, p, words, minSpaces).None? {
      SearchFromNone(s, p + 1, words, minSpaces);
    }
  }

  /** A search that finds something returns the match at the leftmost
      position that matches. */
  lemma {:induction false} SearchFromLeftmost(s: string, p: nat, words: seq<string>, minSpaces: nat)
    requires p <= |s| && SearchFrom(s, p, words, minSpaces).Some?
    ensures exists q: nat :: p <= q < |s| && NoMatchBetween(s, p, q, words, minSpaces)
                          && SearchFrom(s, p, words, minSpaces) == MatchAt(s, q, words, minSpaces)
    decreases |s| - p
  {
    if MatchAt(s, p, words, minSpaces).None? {
      SearchFromLeftmost(s, p + 1, words, minSpaces);
      var q: nat :| p + 1 <= q < |s| && NoMatchBetween(s, p + 1, q, words, minSpaces)
                   && SearchFrom(s, p + 1, words, minSpaces) == MatchAt(s, q, words, minSpaces);
      assert NoMatchBetween(s, p, q, words, minSpaces);
    } else {
      assert NoMatchBetween(s, p, p, words, minSpaces);
    }
  }

  function SearchTodo(s: string): Option<string> {
    SearchFrom(s, 0, TodoWords, 0)
  }

  function SearchCommitment(s: string): Option<string> {
    SearchFrom(s, 0, CommitmentWords, 1)
  }

  datatype ItemKind = ExplicitTodo | Commitment

  /** What a message's content yields: an explicit marker first, a
      commitment only when there is none; the task is the group, stripped. */
  function Detect(content: string): (r: Option<(ItemKind, string)>)
    ensures r.None? <==> SearchTodo(content).None? && SearchCommitment(content).None?
    ensures r.Some? ==> IsTrimmed(r.value.1) && '\n' !in r.value.1
    ensures r.Some? && r.value.0 == Commitment ==> SearchTodo(content).None?
  {
    match SearchTodo(content)
    case Some(g) => Some((ExplicitTodo, StripLine(g)))
    case None =>
      match SearchCommitment(content)
      case Some(g) => Some((Commitment, StripLine(g)))
      case None => None
  }

  /** What `Detect` finds, in terms of matches: nothing when neither
      pattern matches anywhere; otherwise the stripped group of the leftmost
      explicit marker, or, when there is none at all, of the leftmost
      commitment. */
  lemma DetectLeftmost(content: string)
    ensures Detect(content).None? <==>
      NoMatchBetween(content, 0, |content|, TodoWords, 0) && NoMatchBetween(content, 0, |content|, CommitmentWords, 1)
    ensures Detect(content).Some? && Detect(content).value.0 == ExplicitTodo ==>
      exists q: nat :: q < |content| && NoMatchBetween(content, 0, q, TodoWords, 0)
                     && MatchAt(content, q, TodoWords, 0).Some?
                     && Detect(content).value.1 == Strip(MatchAt(content, q, TodoWords, 0).value)
    ensures Detect(content).Some? && Detect(content).value.0 == Commitment ==>
      && NoMatchBetween(content, 0, |content|, TodoWords, 0)
      && exists q: nat :: q < |content| && NoMatchBetween(content, 0, q, CommitmentWords, 1)
                        && MatchAt(content, q, CommitmentWords, 1).Some?
                        && Detect(content).value.1 == Strip(MatchAt(content, q, CommitmentWords, 1).value)
  {
    SearchFromNone(content, 0, TodoWords, 0);
    SearchFromNone(content, 0, CommitmentWords, 1);
    if SearchTodo(content).Some? {
      SearchFromLeftmost(content, 0, TodoWords, 0);
    } else if SearchCommitment(content).Some? {
      SearchFromLeftmost(content, 0, CommitmentWords, 1);
    }
  }

  /** `strip()` of a text without line breaks, which leaves none. */
  function StripLine(g: string): (r: string)
    requires '\n' !in g
    ensures r == Strip(g) && '\n' !in r
  {
    var r := Strip(g);
    assert forall x :: 0 <= x < |r| ==> r[x] == g[LeadingSpaces(g) + x];
    r
  }

  /** One extracted item, with the keys of the extractor's item dictionary. */
  datatype ActionItem = ActionItem(id: nat, kind: ItemKind, task: string, assignee: string, timestamp: string, sourceMessage: string)

  /** The items of `msgs`, numbered from 1 in message order. */
  function Items(msgs: seq<Message>): seq<ActionItem>
    decreases |msgs|
  {
    if msgs == [] then []
    else
      var prev := Items(msgs[..|msgs| - 1]);
      var m := msgs[|msgs| - 1];
      match Detect(m.content)
      case None => prev
      case Some((kind, task)) => prev + [ActionItem(|prev| + 1, kind, task, m.sender, m.timestamp, m.content)]
  }

  /** The loop over the messages with its running item id. */
  method ExtractActionItems(messages: seq<Message>) returns (items: seq<ActionItem>)
    ensures items == Items(messages)
  {
    items := [];
    var itemId := 1;
    for i := 0 to |messages|
      invariant items == Items(messages[..i])
      invariant itemId == |items| + 1
    {
      assert messages[..i + 1][..i] == messages[..i];
      var msg := messages[i];
      var content := msg.content;
      var todo := SearchTodo(content);
      if todo.Some? {
        items := items + [ActionItem(itemId, ExplicitTodo, StripLine(todo.value), msg.sender, msg.timestamp, content)];
        itemId := itemId + 1;
        continue;
      }
      var commitment := SearchCommitment(content);
      if commitment.Some? {
        items := items + [ActionItem(itemId, Commitment, StripLine(commitment.value), msg.sender, msg.timestamp, content)];
        itemId := itemId + 1;
      }
    }
    assert messages[..|messages|] == messages;
  }

  // ---------------------------------------------------------------------
  // Properties.

  /** Whether each message yields an item. */
  function Hits(msgs: seq<Message>): (r: seq<bool>)
    ensures |r| == |msgs| && forall i :: 0 <= i < |msgs| ==> r[i] == Detect(msgs[i].content).Some?
  {
    seq(|msgs|, i requires 0 <= i < |msgs| => Detect(msgs[i].content).Some?)
  }

  /** The positions of the set flags, in order. */
  function Marked(flags: seq<bool>): (r: seq<nat>)
    ensures forall k :: 0 <= k < |r| ==> r[k] < |flags|
    decreases |flags|
  {
    if flags == [] then []
    else
      var n := |flags| - 1;
      var prev := Marked(flags[..n]);
      if flags[n] then prev + [n] else prev
  }

  /** The positions are increasing and exactly those of the set flags. */
  lemma {:induction false} MarkedExact(flags: seq<bool>)
    ensures forall a, b :: 0 <= a < b < |Marked(flags)| ==> Marked(flags)[a] < Marked(flags)[b]
    ensures forall i :: 0 <= i < |flags| ==> (i in Marked(flags) <==> flags[i])
    decreases |flags|
  {
    if flags != [] {
      var n := |flags| - 1;
      var init := flags[..n];
      MarkedExact(init);
      assert forall i :: 0 <= i < n ==> flags[i] == init[i];
    }
  }

  /** The indices of the messages that yield an item, in order. */
  function DetectedIndices(msgs: seq<Message>): (r: seq<nat>)
    ensures forall k :: 0 <= k < |r| ==> r[k] < |msgs|
  {
    Marked(Hits(msgs))
  }

  /** Item `k` is the one message `DetectedIndices(msgs)[k]` yields: id
      `k + 1`, its kind and task, and sender, timestamp and content copied
      from the message. */
  predicate ItemOf(item: ActionItem, k: nat, m: Message) {
    && Detect(m.content).Some?
    && item == ActionItem(k + 1, Detect(m.content).value.0, Detect(m.content).value.1, m.sender, m.timestamp, m.content)
  }

  lemma {:induction false} ItemsFollowMessages(msgs: seq<Message>)
    ensures |Items(msgs)| == |DetectedIndices(msgs)|
    ensures forall k :: 0 <= k < |Items(msgs)| ==> ItemOf(Items(msgs)[k], k, msgs[DetectedIndices(msgs)[k]])
    decreases |msgs|
  {
    if msgs != [] {
      var n := |msgs| - 1;
      var init := msgs[..n];
      ItemsFollowMessages(init);
      assert Hits(msgs)[..n] == Hits(init);
      assert forall i :: 0 <= i < |init| ==> msgs[i] == init[i];
    }
  }

  /** Messages yield items in order, each at most one, and exactly those
      whose content holds a marker or a commitment. */
  lemma DetectedIndicesExact(msgs: seq<Message>)
    ensures forall a, b :: 0 <= a < b < |DetectedIndices(msgs)| ==> DetectedIndices(msgs)[a] < DetectedIndices(msgs)[b]
    ensures forall i :: 0 <= i < |msgs| ==> (i in DetectedIndices(msgs) <==> Detect(msgs[i].content).Some?)
  {
    MarkedExact(Hits(msgs));
  }

  /** Item ids run 1, 2, ..., n. */
  lemma ItemIds(msgs: seq<Message>)
    ensures forall k :: 0 <= k < |Items(msgs)| ==> Items(msgs)[k].id == k + 1
  {
    ItemsFollowMessages(msgs);
  }

  /** No task spans more than one line, and none has surrounding whitespace. */
  lemma TasksAreOneLine(msgs: seq<Message>)
    ensures forall k :: 0 <= k < |Items(msgs)| ==> '\n' !in Items(msgs)[k].task && IsTrimmed(Items(msgs)[k].task)
  {
    ItemsFollowMessages(msgs);
  }

  // ---------------------------------------------------------------------
  // Round trips: a marker followed by a task is read back as that task.

  /** After whitespace (at least `minSpaces` of it), a one-line text that
      starts with a non-space is the whole tail group. */
  lemma TailOfLine(pre: string, ws: string, task: string, minSpaces: nat)
    requires IsBlank(ws) && |ws| >= minSpaces
    requires task != [] && !IsSpace(task[0]) && '\n' !in task
    ensures TailGroup(pre + ws + task, |pre|, minSpaces) == Some(task)
  {
    var s := pre + ws + task;
    var e := |pre| + |ws|;
    assert forall k :: 0 <= k < |ws| ==> s[|pre| + k] == ws[k];
    assert forall k :: 0 <= k < |task| ==> s[e + k] == task[k];
    SkipSpacesOver(s, |pre|, |ws|);
    LineEndAtEnd(s, e);
    assert s[e..|s|] == task;
  }

  /** The alternatives are tried in order: the first that matches, when the
      tail follows it, gives the match. */
  lemma {:induction false} MatchAtWord(s: string, p: nat, words: seq<string>, j: nat, minSpaces: nat)
    requires p <= |s| && j < |words| && WordAt(s, p, words[j])
    requires forall i :: 0 <= i < j ==> !WordAt(s, p, words[i])
    requires TailGroup(s, p + |words[j]|, minSpaces).Some?
    ensures MatchAt(s, p, words, minSpaces) == TailGroup(s, p + |words[j]|, minSpaces)
    decreases j
  {
    if j > 0 {
      assert forall i :: 0 <= i < j - 1 ==> words[1..][i] == words[i + 1];
      MatchAtWord(s, p, words[1..], j - 1, minSpaces);
    }
  }

  /** No two marker words match at the same place. */
  lemma WordsExclusive(s: string, p: nat, words: seq<string>, a: nat, b: nat)
    requires words == TodoWords || words == CommitmentWords
    requires a < b < |words| && WordAt(s, p, words[a])
    ensures !WordAt(s, p, words[b])
  {
    assert FoldChar(s[p]) == words[a][0] && FoldChar(s[p + 1]) == words[a][1];
    assert words[a][0] != words[b][0] || words[a][1] != words[b][1];
  }

  /** `marker` is `word`, in any case. */
  predicate Spells(marker: string, word: string) {
    |marker| == |word| && WordAt(marker, 0, word)
  }

  lemma MarkerAtStart(marker: string, rest: string, words: seq<string>, j: nat, minSpaces: nat)
    requires words == TodoWords || words == CommitmentWords
    requires j < |words| && Spells(marker, words[j])
    requires TailGroup(marker + rest, |marker|, minSpaces).Some?
    ensures SearchFrom(marker + rest, 0, words, minSpaces) == TailGroup(marker + rest, |marker|, minSpaces)
  {
    var s := marker + rest;
    assert forall k :: 0 <= k < |marker| ==> s[k] == marker[k];
    assert WordAt(s, 0, words[j]);
    forall i | 0 <= i < j ensures !WordAt(s, 0, words[i]) {
      if WordAt(s, 0, words[i]) { WordsExclusive(s, 0, words, i, j); }
    }
    MatchAtWord(s, 0, words, j, minSpaces);
  }

  /** A marker, in any case, at the start of the content and followed by a
      one-line task yields that task as an explicit to-do. */
  lemma TodoRoundTrip(marker: string, ws: string, task: string)
    requires exists j :: 0 <= j < |TodoWords| && Spells(marker, TodoWords[j])
    requires IsBlank(ws) && task != [] && IsTrimmed(task) && '\n' !in task
    ensures Detect(marker + ws + task) == Some((ExplicitTodo, task))
  {
    var j :| 0 <= j < |TodoWords| && Spells(marker, TodoWords[j]);
    TailOfLine(marker, ws, task, 0);
    assert marker + ws + task == marker + (ws + task);
    MarkerAtStart(marker, ws + task, TodoWords, j, 0);
    StripPadded([], task, []);
    assert [] + task + [] == task;
  }

  /** `I'll` or `I will`, in any case, at the start of content with no
      explicit marker, followed by whitespace and a one-line task, yields
      that task as a commitment. */
  lemma CommitmentRoundTrip(marker: string, ws: string, task: string)
    requires exists j :: 0 <= j < |CommitmentWords| && Spells(marker, CommitmentWords[j])
    requires IsBlank(ws) && |ws| >= 1 && task != [] && IsTrimmed(task) && '\n' !in task
    requires SearchTodo(marker + ws + task).None?
    ensures Detect(marker + ws + task) == Some((Commitment, task))
  {
    var j :| 0 <= j < |CommitmentWords| && Spells(marker, CommitmentWords[j]);
    TailOfLine(marker, ws, task, 1);
    assert marker + ws + task == marker + (ws + task);
    MarkerAtStart(marker, ws + task, CommitmentWords, j, 1);
    StripPadded([], task, []);
    assert [] + task + [] == task;
  }
}
