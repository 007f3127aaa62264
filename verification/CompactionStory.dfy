/** What a compaction leaves to be read (compactor.go): where it cuts, what the marker says and
    which files its ledger names, told without the functions that compute them. */
module CompactionStory {
  import opened Sequences
  import opened Transcript
  import opened Compactor

  // ---------- the text of the marker ----------

  /** The items occur in the text one behind the other. */
  ghost predicate InOrder(text: string, items: seq<string>)
    decreases |items|
  {
    items == [] || exists a, b :: text == a + items[0] + b && InOrder(b, items[1..])
  }

  lemma {:induction false} InOrderBehind(a: string, text: string, items: seq<string>)
    requires InOrder(text, items)
    ensures InOrder(a + text, items)
  {
    if items != [] {
      var x, y :| text == x + items[0] + y && InOrder(y, items[1..]);
      assert a + text == (a + x) + items[0] + y;
    }
  }

  lemma {:induction false} CommaInOrder(items: seq<string>)
    ensures InOrder(CommaJoin(items), items)
  {
    if |items| == 1 {
      assert items[0] == "" + items[0] + "" && InOrder("", items[1..]);
    } else if items != [] {
      CommaInOrder(items[1..]);
      InOrderBehind(", ", CommaJoin(items[1..]), items[1..]);
      assert CommaJoin(items) == "" + items[0] + (", " + CommaJoin(items[1..]));
    }
  }

  /** The opening, the summary behind it, then every modified file and then every file read, each
      list in its order. */
  ghost predicate TextTold(text: string, opening: string, summary: string, modified: seq<string>, read: seq<string>) {
    exists c, d :: text == opening + "\n\n" + summary + c + d && InOrder(c, modified) && InOrder(d, read)
  }

  /** A list under its heading, or nothing. */
  lemma ListTold(heading: string, items: seq<string>) returns (text: string)
    ensures text == (if items == [] then "" else heading + CommaJoin(items)) && InOrder(text, items)
  {
    text := "";
    if items != [] {
      text := heading + CommaJoin(items);
      CommaInOrder(items);
      InOrderBehind(heading, CommaJoin(items), items);
    }
  }

  lemma TextIsTold(summary: string, read: seq<string>, modified: seq<string>)
    ensures TextTold(MarkerText(summary, read, modified), HANDOFF, summary, modified, read)
  {
    var before, title, ledger := HANDOFF + "\n\n" + summary, "\n\n" + LEDGER_TITLE, RenderLedger(read, modified);
    var c := ListTold("\n- Modified: ", modified);
    var d := ListTold("\n- Read: ", read);
    WholeAndNothing(before);
    if modified != [] || read != [] {
      assert ledger == LEDGER_TITLE + c + d && ledger[0] == LEDGER_TITLE[0];
      InOrderBehind(title, c, modified);
      Pieces(before, "\n\n", LEDGER_TITLE, c, d);
      c := title + c;
    }
    assert MarkerText(summary, read, modified) == before + c + d;
  }

  lemma Pieces(before: string, gap: string, title: string, c: string, d: string)
    ensures before + (gap + (title + c + d)) == before + (gap + title + c) + d
  {
  }

  ghost predicate MetadataTold(metadata: map<string, MetaValue>, count: nat, modified: seq<string>, read: seq<string>) {
    && metadata.Keys == {"compaction", "original_message_count"}
                        + (if modified == [] then {} else {"glue/compaction:modified_files"})
                        + (if read == [] then {} else {"glue/compaction:read_files"})
    && metadata["compaction"] == Str("summarizing") && metadata["original_message_count"] == Num(count)
    && (modified != [] ==> metadata["glue/compaction:modified_files"] == Strings(modified))
    && (read != [] ==> metadata["glue/compaction:read_files"] == Strings(read))
  }

  lemma MetadataIsTold(count: nat, modified: seq<string>, read: seq<string>)
    ensures MetadataTold(MarkerMetadata(count, read, modified), count, modified, read)
  {
    KeysDiffer();
  }

  /** The message in place of older. */
  ghost predicate MarkerTold(m: Message, older: seq<Message>, summary: string, modified: seq<string>, read: seq<string>) {
    && m.role.Assistant? && |m.content| == 1 && m.content[0].Text? && m.content[0].signature == ""
    && TextTold(m.content[0].text, HANDOFF, summary, modified, read)
    && m.toolCallId == m.toolName == m.model == m.stopReason == "" && !m.isError
    && MetadataTold(m.metadata, |older|, modified, read)
  }

  lemma MarkerIsTold(older: seq<Message>, summary: string, pathOf: PathOf)
    ensures MarkerTold(Marker(older, TextFor(older, summary, pathOf), pathOf), older, summary,
                       Ledger(older, Modifies, pathOf), Ledger(older, Reads, pathOf))
  {
    TextIsTold(summary, Ledger(older, Reads, pathOf), Ledger(older, Modifies, pathOf));
    MetadataIsTold(|older|, Ledger(older, Modifies, pathOf), Ledger(older, Reads, pathOf));
  }

  // ---------- where it cuts ----------

  /** split is the nearest place at or before cut at which no result begins. */
  ghost predicate NearestSafe(ms: seq<Message>, cut: int, split: nat) {
    if cut <= 0 then split == 0
    else if cut >= |ms| then split == |ms|
    else split <= cut && (split > 0 ==> !ms[split].role.Tool?) && forall k | split < k <= cut :: ms[k].role.Tool?
  }

  /** The settings ask to cut here: to keep so many messages, or as many as fit the budget. */
  ghost predicate Asked(s: Settings, ms: seq<Message>, cut: int) {
    if s.keepRecentTokens > 0 then IsBudgetCut(ms, s.keepRecentTokens, cut)
    else cut == |ms| - (if s.keepRecent <= 0 then 8 else s.keepRecent)
  }

  /** A compaction returns what it was given, small or without anything old enough; or it fails
      for want of a summary; or, where that saves tokens, one message that opens with the
      handoff, carries the summary and names every file touched stands for all before the cut. */
  lemma CompactTold(s: Settings, ms: seq<Message>, summary: Option<string>, pathOf: PathOf)
    returns (cut: int, split: nat, marker: Message)
    ensures Asked(s, ms, cut) && NearestSafe(ms, cut, split) && split <= |ms|
    ensures var r := CompactOf(s, ms, summary, pathOf);
            if || (|ms| <= (if s.keepRecent <= 0 then 8 else s.keepRecent) && s.keepRecentTokens <= 0)
               || Estimate(ms) <= (if s.targetTokens <= 0 then 8000 else s.targetTokens)
               || split == 0
            then r == Ok(ms)
            else if summary.None? || Blank(summary.value) then r.Failed?
            else
              && MarkerTold(marker, ms[..split], summary.value,
                            Ledger(ms[..split], Modifies, pathOf), Ledger(ms[..split], Reads, pathOf))
              && r == Ok(if Estimate([marker]) < Estimate(ms[..split]) then [marker] + ms[split..] else ms)
  {
    cut := CutFor(s, ms);
    split := SafeCutOf(ms, cut);
    var text := if summary.Some? then TextFor(ms[..split], summary.value, pathOf) else "";
    marker := Marker(ms[..split], text, pathOf);
    if summary.Some? {
      MarkerIsTold(ms[..split], summary.value, pathOf);
    }
  }

  // ---------- what the ledger names ----------

  lemma {:induction false} AddedAll(list: seq<string>, items: seq<string>, p: string)
    ensures p in AddAll(list, items) <==> p in list || (p in items && p != "")
    decreases |items|
  {
    if items != [] {
      AddedAll(Add(list, items[0]), items[1..], p);
    }
  }

  lemma {:induction false} InAllMentions(ms: seq<Message>, collect: Collector, p: string)
    ensures p in AllMentions(ms, collect) <==> exists m :: m in ms && p in collect(m)
  {
    if ms != [] {
      InAllMentions(ms[1..], collect, p);
    }
  }

  lemma {:induction false} InCallPaths(calls: seq<ToolCall>, touch: Touch, pathOf: PathOf, p: string)
    ensures p in CallPaths(calls, touch, pathOf) <==>
              exists c :: c in calls && TouchOf(c.name) == touch && pathOf(c.arguments) == p
  {
    if calls != [] {
      InCallPaths(calls[1..], touch, pathOf, p);
    }
  }

  /** The message names the path: in a call of its own, or in the ledger of an earlier marker. */
  ghost predicate Names(m: Message, touch: Touch, pathOf: PathOf, p: string) {
    || (exists c :: c in Calls(m) && TouchOf(c.name) == touch && pathOf(c.arguments) == p)
    || ("compaction" in m.metadata && m.metadata["compaction"] == Str("summarizing")
        && Lists(m.metadata, if touch.Reads? then "glue/compaction:read_files" else "glue/compaction:modified_files", p))
  }

  ghost predicate Lists(metadata: map<string, MetaValue>, key: string, p: string) {
    key in metadata
    && match metadata[key]
       case Strings(items) => p in items
       case Anys(items) => Some(p) in items
       case _ => false
  }

  lemma {:induction false} InSomes(items: seq<Option<string>>, p: string)
    ensures p in SomesOf(items) <==> Some(p) in items
  {
    if items != [] {
      InSomes(items[1..], p);
    }
  }

  lemma InMetadata(metadata: map<string, MetaValue>, key: string, p: string)
    ensures p in MetadataStrings(metadata, key) <==> Lists(metadata, key, p)
  {
    if key in metadata && metadata[key].Anys? {
      InSomes(metadata[key].anys, p);
    }
  }

  /** The ledger names exactly the paths that some message names, each once. */
  lemma LedgerNames(ms: seq<Message>, touch: Touch, pathOf: PathOf, p: string)
    requires touch != Neither
    ensures p in Ledger(ms, touch, pathOf) <==> p != "" && exists m :: m in ms && Names(m, touch, pathOf, p)
    ensures Distinct(Ledger(ms, touch, pathOf))
  {
    var collect := MentionsOf(touch, pathOf);
    AddedAll([], AllMentions(ms, collect), p);
    AddAllDistinct([], AllMentions(ms, collect));
    InAllMentions(ms, collect, p);
    forall m ensures p in collect(m) <==> Names(m, touch, pathOf, p) {
      InCallPaths(CallsOf(m.content), touch, pathOf, p);
      InMetadata(m.metadata, if touch.Reads? then READ_KEY else MODIFIED_KEY, p);
    }
  }

  lemma {:induction false} AddedBehind(list: seq<string>, items: seq<string>)
    ensures list <= AddAll(list, items)
    decreases |items|
  {
    if items != [] {
      AddedBehind(Add(list, items[0]), items[1..]);
    }
  }

  /** Later messages add to the end of the ledger. */
  lemma LedgerGrows(ms: seq<Message>, later: seq<Message>, touch: Touch, pathOf: PathOf)
    ensures Ledger(ms, touch, pathOf) <= Ledger(ms + later, touch, pathOf)
  {
    var collect := MentionsOf(touch, pathOf);
    MentionsConcat(ms, later, collect);
    AddAllConcat([], AllMentions(ms, collect), AllMentions(later, collect));
    AddedBehind(Ledger(ms, touch, pathOf), AllMentions(later, collect));
  }

  /** The word occurs in the name, in letters of either case. */
  ghost predicate Spells(name: string, word: string) {
    exists a, w, b :: name == a + w + b && |w| == |word| && forall i | 0 <= i < |w| :: Lower(w[i]) == word[i]
  }

  lemma SpellsIff(name: string, low: string, word: string)
    requires |low| == |name| && forall i | 0 <= i < |name| :: low[i] == Lower(name[i])
    ensures Contains(low, word) <==> Spells(name, word)
  {
    if Contains(low, word) {
      var i :| 0 <= i <= |low| - |word| && OccursAt(low, word, i);
      var a, w, b := name[..i], name[i..i + |word|], name[i + |word|..];
      assert name == a + w + b;
      forall j | 0 <= j < |w| ensures Lower(w[j]) == word[j] {
        assert low[i..i + |word|][j] == low[i + j];
      }
    }
    if a, w, b :| name == a + w + b && |w| == |word| && forall i | 0 <= i < |w| :: Lower(w[i]) == word[i] {
      forall j | 0 <= j < |w| ensures low[|a| + j] == word[j] {
        assert name[|a| + j] == w[j];
      }
      assert low[|a|..|a| + |word|] == word;
      assert OccursAt(low, word, |a|);
    }
  }

  /** A tool writes when its name spells write or edit, and else reads when it spells read. */
  lemma TouchIff(name: string)
    ensures TouchOf(name).Modifies? <==> Spells(name, "write") || Spells(name, "edit")
    ensures TouchOf(name).Reads? <==> Spells(name, "read") && !Spells(name, "write") && !Spells(name, "edit")
  {
    var low := seq(|name|, i requires 0 <= i < |name| => Lower(name[i]));
    SpellsIff(name, low, "write");
    SpellsIff(name, low, "edit");
    SpellsIff(name, low, "read");
  }

  // ---------- what counts as a word ----------

  lemma OneLetterMore(s: string, c: char)
    ensures Words(s + [c]) == Words(s) + (if !WordBreak(c) && (s == "" || WordBreak(s[|s| - 1])) then 1 else 0)
  {
    var t := s + [c];
    assert forall k | 0 <= k < |s| :: StartsWord(t, k) <==> StartsWord(s, k);
    assert WordStarts(t) == WordStarts(s) + (if StartsWord(t, |s|) then {|s|} else {});
  }

  /** A blank between two texts keeps their words apart. */
  lemma {:induction false} WordsApart(a: string, b: string)
    ensures Words(a + " " + b) == Words(a) + Words(b)
    decreases |b|
  {
    if b == "" {
      assert WordStarts("") == {};
      assert a + " " + b == a + [' '];
      OneLetterMore(a, ' ');
    } else {
      var init, c := b[..|b| - 1], b[|b| - 1];
      assert b == init + [c] && a + " " + b == (a + " " + init) + [c];
      WordsApart(a, init);
      OneLetterMore(init, c);
      OneLetterMore(a + " " + init, c);
    }
  }

  /** What the estimate reads of a part. */
  function Reading(p: Part): string {
    match p
    case Text(text, _) => text
    case Thinking(thinking, _) => thinking
    case Call(Some(c), _) => c.name + " " + c.arguments
    case _ => ""
  }

  function ReadingOf(parts: seq<Part>): string {
    if parts == [] then "" else Reading(parts[0]) + " " + ReadingOf(parts[1..])
  }

  function WrittenOut(ms: seq<Message>): string {
    if ms == [] then "" else ReadingOf(ms[0].content) + " " + WrittenOut(ms[1..])
  }

  lemma {:induction false} ContentRead(parts: seq<Part>)
    ensures ContentWords(parts) == Words(ReadingOf(parts))
  {
    assert WordStarts("") == {};
    if parts != [] {
      ContentRead(parts[1..]);
      WordsApart(Reading(parts[0]), ReadingOf(parts[1..]));
      match parts[0]
      case Call(Some(c), _) => WordsApart(c.name, c.arguments);
      case _ =>
    }
  }

  /** The words counted are those of everything said and asked for, written out as one text. */
  lemma {:induction false} WordsRead(ms: seq<Message>)
    ensures TranscriptWords(ms) == Words(WrittenOut(ms))
    ensures 4 * Estimate(ms) - 3 <= 3 * Words(WrittenOut(ms)) <= 4 * Estimate(ms)
  {
    assert WordStarts("") == {};
    if ms != [] {
      WordsRead(ms[1..]);
      ContentRead(ms[0].content);
      WordsApart(ReadingOf(ms[0].content), WrittenOut(ms[1..]));
    }
  }
}
