/** The chat summary: how many messages each sender wrote, the most active
    sender, and the totals taken over from the metadata. */
module ChatSummary {
  import opened Text
  import opened ChatParser

  /** `participant_counts`: a dictionary from sender to message count, kept
      as its entries in insertion order. */
  type Counts = seq<(string, nat)>

  function Names(c: Counts): (r: seq<string>)
    ensures |r| == |c| && forall k :: 0 <= k < |c| ==> r[k] == c[k].0
  {
    seq(|c|, k requires 0 <= k < |c| => c[k].0)
  }

  predicate DistinctNames(c: Counts) {
    forall a, b :: 0 <= a < b < |c| ==> c[a].0 != c[b].0
  }

  /** The position of the entry for `name`, if there is one. */
  function KeyIndex(c: Counts, name: string): (r: Option<nat>)
    ensures r.Some? ==> r.value < |c| && c[r.value].0 == name
    ensures r.None? <==> name !in Names(c)
    decreases |c|
  {
    if c == [] then None
    else if c[0].0 == name then Some(0)
    else match KeyIndex(c[1..], name)
      case None =>
        assert Names(c) == [c[0].0] + Names(c[1..]);
        None
      case Some(j) => Some(j + 1)
  }

  /** `counts[name] = counts.get(name, 0) + 1`: an existing entry is
      incremented where it stands, a new one goes last with count 1. */
  function Bump(c: Counts, name: string): (r: Counts)
    ensures name in Names(r)
  {
    match KeyIndex(c, name)
    case Some(j) =>
      assert Names(c[j := (name, c[j].1 + 1)])[j] == name;
      c[j := (name, c[j].1 + 1)]
    case None =>
      assert (c + [(name, 1)])[|c|].0 == name;
      c + [(name, 1)]
  }

  /** The dictionary after counting the senders `xs` one after the other. */
  function Tally(xs: seq<string>): Counts
    decreases |xs|
  {
    if xs == [] then [] else Bump(Tally(xs[..|xs| - 1]), xs[|xs| - 1])
  }

  /** How often `x` occurs in `xs`. */
  function Occurrences(xs: seq<string>, x: string): (n: nat)
    ensures n <= |xs|
    ensures n == 0 <==> x !in xs
    decreases |xs|
  {
    if xs == [] then 0
    else
      var init := xs[..|xs| - 1];
      assert xs == init + [xs[|xs| - 1]];
      Occurrences(init, x) + (if xs[|xs| - 1] == x then 1 else 0)
  }

  /** The sum of the counts. */
  function Total(c: Counts): nat
    decreases |c|
  {
    if c == [] then 0 else c[0].1 + Total(c[1..])
  }

  // ---------------------------------------------------------------------
  // The tally counts every sender once, in the order first seen.

  /** The entries are distinct and their names are exactly the senders. */
  lemma {:induction false} TallyNames(xs: seq<string>)
    ensures DistinctNames(Tally(xs))
    ensures forall x :: x in Names(Tally(xs)) <==> x in xs
    decreases |xs|
  {
    if xs != [] {
      var init, x := xs[..|xs| - 1], xs[|xs| - 1];
      assert xs == init + [x];
      TallyNames(init);
      var c := Tally(init);
      match KeyIndex(c, x)
      case Some(j) =>
        assert Names(Tally(xs)) == Names(c);
      case None =>
        assert Names(Tally(xs)) == Names(c) + [x];
    }
  }

  /** Each entry's count is the number of messages its sender wrote. */
  lemma {:induction false} TallyCounts(xs: seq<string>)
    ensures forall k :: 0 <= k < |Tally(xs)| ==> Tally(xs)[k].1 == Occurrences(xs, Tally(xs)[k].0)
    decreases |xs|
  {
    if xs != [] {
      var init, x := xs[..|xs| - 1], xs[|xs| - 1];
      TallyCounts(init);
      TallyNames(init);
      var c := Tally(init);
      forall k | 0 <= k < |Tally(xs)| ensures Tally(xs)[k].1 == Occurrences(xs, Tally(xs)[k].0) {
        match KeyIndex(c, x)
        case Some(j) =>
          if k != j {
            assert c[k].0 != x by { assert DistinctNames(c); }
          }
        case None =>
          if k == |c| {
            assert x !in init;
          } else {
            assert c[k].0 in Names(c);
          }
      }
    }
  }

  lemma {:induction false} TotalUpdate(c: Counts, j: nat, e: (string, nat))
    requires j < |c|
    ensures Total(c[j := e]) == Total(c) - c[j].1 + e.1
    decreases |c|
  {
    if j > 0 {
      TotalUpdate(c[1..], j - 1, e);
      assert c[j := e][1..] == c[1..][j - 1 := e];
    } else {
      assert c[j := e][1..] == c[1..];
    }
  }

  lemma {:induction false} TotalAppend(c: Counts, e: (string, nat))
    ensures Total(c + [e]) == Total(c) + e.1
    decreases |c|
  {
    if c != [] {
      TotalAppend(c[1..], e);
      assert (c + [e])[1..] == c[1..] + [e];
    }
  }

  /** The counts add up to the number of messages. */
  lemma {:induction false} TallyTotal(xs: seq<string>)
    ensures Total(Tally(xs)) == |xs|
    decreases |xs|
  {
    if xs != [] {
      var init, x := xs[..|xs| - 1], xs[|xs| - 1];
      TallyTotal(init);
      var c := Tally(init);
      match KeyIndex(c, x)
      case Some(j) => TotalUpdate(c, j, (x, c[j].1 + 1));
      case None => TotalAppend(c, (x, 1));
    }
  }

  /** `x` occurs in `xs` before any occurrence of `y`. */
  ghost predicate SeenBefore(xs: seq<string>, x: string, y: string) {
    exists i :: 0 <= i < |xs| && xs[i] == x && y !in xs[..i]
  }

  /** The entries stand in the order their senders first wrote. */
  lemma {:induction false} TallyFirstSeen(xs: seq<string>)
    ensures forall a, b :: 0 <= a < b < |Tally(xs)| ==> SeenBefore(xs, Tally(xs)[a].0, Tally(xs)[b].0)
    decreases |xs|
  {
    if xs != [] {
      var init, x := xs[..|xs| - 1], xs[|xs| - 1];
      TallyFirstSeen(init);
      TallyNames(init);
      var c := Tally(init);
      forall a, b | 0 <= a < b < |Tally(xs)| ensures SeenBefore(xs, Tally(xs)[a].0, Tally(xs)[b].0) {
        var na, nb := Tally(xs)[a].0, Tally(xs)[b].0;
        if b < |c| {
          assert na == c[a].0 && nb == c[b].0;
          var i :| 0 <= i < |init| && init[i] == na && nb !in init[..i];
          assert xs[..i] == init[..i];
        } else {
          assert na == c[a].0 && nb == x && x !in Names(c);
          assert na in Names(c);
          var i :| 0 <= i < |init| && init[i] == na;
          assert xs[..i] == init[..i];
          assert x !in init;
          assert forall y :: y in init[..i] ==> y in init;
        }
      }
    }
  }

  // ---------------------------------------------------------------------
  // The most active sender.

  /** `max(counts.items(), key=count)`: the position of the first entry
      with the largest count, since `max` keeps the earliest of equal keys. */
  function MostActive(c: Counts): (r: nat)
    requires |c| > 0
    ensures r < |c|
    ensures forall k :: 0 <= k < |c| ==> c[k].1 <= c[r].1
    ensures forall k :: 0 <= k < r ==> c[k].1 < c[r].1
    decreases |c|
  {
    if |c| == 1 then 0
    else
      var j := MostActive(c[..|c| - 1]);
      if c[|c| - 1].1 > c[j].1 then |c| - 1 else j
  }

  /** Those two properties pin the entry down: no other position has them. */
  lemma MostActiveUnique(c: Counts, j: nat)
    requires j < |c|
    requires forall k :: 0 <= k < |c| ==> c[k].1 <= c[j].1
    requires forall k :: 0 <= k < j ==> c[k].1 < c[j].1
    ensures j == MostActive(c)
  {
    var r := MostActive(c);
    assert c[r].1 <= c[j].1 && c[j].1 <= c[r].1;
  }

  // ---------------------------------------------------------------------
  // The summary.

  datatype Summary = Summary(
    participantStats: Counts,
    mostActiveName: string,
    mostActiveCount: nat,
    totalMessages: nat,
    mediaMessages: nat,
    textMessages: int,
    dateRange: DateRange)

  /** What `generate_summary` returns for `chat`, whose messages must not be
      empty (`max` of no entries raises). */
  function SummaryOf(chat: ParsedChat): (s: Summary)
    requires |chat.messages| > 0
  {
    var counts := Tally(Senders(chat.messages));
    TallyNames(Senders(chat.messages));
    assert chat.messages[0].sender in Senders(chat.messages);
    var top := counts[MostActive(counts)];
    var md := chat.metadata;
    Summary(counts, top.0, top.1, md.messageCount, md.mediaCount, md.messageCount - md.mediaCount, md.dateRange)
  }

  /** The counting loop and the summary it returns. */
  method GenerateSummary(chat: ParsedChat) returns (s: Summary)
    requires |chat.messages| > 0
    ensures s == SummaryOf(chat)
  {
    var messages := chat.messages;
    ghost var senders := Senders(messages);
    var counts: Counts := [];
    for i := 0 to |messages|
      invariant counts == Tally(senders[..i])
    {
      assert senders[..i + 1][..i] == senders[..i];
      counts := Bump(counts, messages[i].sender);
    }
    assert senders[..|messages|] == senders;
    var top := counts[MostActive(counts)];
    var md := chat.metadata;
    s := Summary(counts, top.0, top.1, md.messageCount, md.mediaCount, md.messageCount - md.mediaCount, md.dateRange);
  }

  /** The statistics hold one entry per sender, in the order senders first
      wrote, with that sender's message count; the counts add up to the
      number of messages. */
  lemma SummaryStats(chat: ParsedChat)
    requires |chat.messages| > 0
    ensures var st := SummaryOf(chat).participantStats;
      && DistinctNames(st)
      && (forall x :: x in Names(st) <==> x in Senders(chat.messages))
      && (forall k :: 0 <= k < |st| ==> st[k].1 == Occurrences(Senders(chat.messages), st[k].0))
      && (forall a, b :: 0 <= a < b < |st| ==> SeenBefore(Senders(chat.messages), st[a].0, st[b].0))
      && Total(st) == |chat.messages|
  {
    var xs := Senders(chat.messages);
    TallyNames(xs);
    TallyCounts(xs);
    TallyFirstSeen(xs);
    TallyTotal(xs);
  }

  /** The first entry with the largest count in the tally of `xs` is a
      sender who wrote the most messages and, of those, wrote first. */
  lemma TallyMostActive(xs: seq<string>, st: Counts, r: nat)
    requires st == Tally(xs) && |st| > 0 && r == MostActive(st)
    ensures st[r].0 in xs
    ensures st[r].1 == Occurrences(xs, st[r].0)
    ensures forall x :: x in xs ==> Occurrences(xs, x) <= st[r].1
    ensures forall x :: x in xs && x != st[r].0 && Occurrences(xs, x) == st[r].1 ==> SeenBefore(xs, st[r].0, x)
  {
    TallyNames(xs);
    TallyCounts(xs);
    TallyFirstSeen(xs);
    assert st[r].0 in Names(st);
    CountedMaximum(xs, st, r);
    CountedFirstAmongEqual(xs, st, r);
  }

  /** A largest count over names counted exactly is the largest occurrence count. */
  lemma CountedMaximum(xs: seq<string>, st: Counts, r: nat)
    requires r < |st| && forall x :: x in Names(st) <==> x in xs
    requires forall k :: 0 <= k < |st| ==> st[k].1 == Occurrences(xs, st[k].0)
    requires forall k :: 0 <= k < |st| ==> st[k].1 <= st[r].1
    ensures forall x :: x in xs ==> Occurrences(xs, x) <= st[r].1
  {
    forall x | x in xs ensures Occurrences(xs, x) <= st[r].1 {
      assert x in Names(st);
      var k :| 0 <= k < |st| && Names(st)[k] == x;
    }
  }

  /** The first of the largest counts, over names in first-seen order, belongs
      to the name seen first among those that occur as often. */
  lemma CountedFirstAmongEqual(xs: seq<string>, st: Counts, r: nat)
    requires r < |st| && forall x :: x in Names(st) <==> x in xs
    requires forall k :: 0 <= k < |st| ==> st[k].1 == Occurrences(xs, st[k].0)
    requires forall k :: 0 <= k < |st| ==> st[k].1 <= st[r].1
    requires forall k :: 0 <= k < r ==> st[k].1 < st[r].1
    requires forall a, b :: 0 <= a < b < |st| ==> SeenBefore(xs, st[a].0, st[b].0)
    requires DistinctNames(st)
    ensures forall x :: x in xs && x != st[r].0 && Occurrences(xs, x) == st[r].1 ==> SeenBefore(xs, st[r].0, x)
  {
    forall x | x in xs && x != st[r].0 && Occurrences(xs, x) == st[r].1
      ensures SeenBefore(xs, st[r].0, x)
    {
      assert x in Names(st);
      var k :| 0 <= k < |st| && Names(st)[k] == x;
      assert r < k;
    }
  }

  /** The most active sender wrote the most messages, and of the senders
      who wrote as many, wrote first. */
  lemma SummaryMostActive(chat: ParsedChat)
    requires |chat.messages| > 0
    ensures var s := SummaryOf(chat); var xs := Senders(chat.messages);
      && s.mostActiveName in xs
      && s.mostActiveCount == Occurrences(xs, s.mostActiveName)
      && (forall x :: x in xs ==> Occurrences(xs, x) <= s.mostActiveCount)
      && (forall x :: x in xs && x != s.mostActiveName && Occurrences(xs, x) == s.mostActiveCount ==>
            SeenBefore(xs, s.mostActiveName, x))
  {
    var st := SummaryOf(chat).participantStats;
    TallyMostActive(Senders(chat.messages), st, MostActive(st));
  }

  /** For a chat as the parser produces it, the totals are those of its
      messages and the text messages are the ones that are not media. */
  lemma SummaryOfParsed(msgs: seq<Message>, filePath: string)
    requires |msgs| > 0
    ensures var s := SummaryOf(ParsedChat(MetadataOf(msgs, filePath), msgs));
      && s.totalMessages == |msgs|
      && s.mediaMessages == MediaCount(msgs)
      && s.textMessages == |msgs| - MediaCount(msgs) >= 0
      && s.dateRange == DateRange(Some(msgs[0].date), Some(msgs[|msgs| - 1].date))
  {
  }
}
