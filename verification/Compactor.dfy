/** SummarizingCompactor, compactor.go: older messages are replaced by one marker that
    carries a summary and a cumulative ledger of the files touched. */
module Compactor {
  import opened Sequences
  import opened Transcript
  import Harden
  import HardenTheorems
  import Pairing

  const DEFAULT_TARGET_TOKENS := 8000
  const DEFAULT_KEEP_RECENT := 8
  const HANDOFF_OPENING := "Another assistant"
  const HANDOFF := HANDOFF_OPENING + " instance worked on this task and produced the state snapshot below before its context was compacted. Build on the work already done; avoid repeating completed steps."
  const LEDGER_TITLE := "## File Ledger (cumulative across compactions)"
  const READ_KEY := "glue/compaction:read_files"
  const MODIFIED_KEY := "glue/compaction:modified_files"

  // ---------- token estimates ----------

  predicate WordBreak(c: char) {
    c == ' ' || c == '\t' || c == '\n' || c == '\r' || c as int == 0x0B || c as int == 0x0C
  }

  predicate StartsWord(s: string, k: int)
    requires 0 <= k < |s|
  {
    !WordBreak(s[k]) && (k == 0 || WordBreak(s[k - 1]))
  }

  /** Positions where a word begins. */
  function WordStarts(s: string): set<int> {
    set k | 0 <= k < |s| && StartsWord(s, k)
  }

  method CountWords(s: string) returns (n: nat)
    ensures n == |WordStarts(s)|
  {
    n := 0;
    var inWord := false;
    for i := 0 to |s|
      invariant n == |set k | 0 <= k < i && k in WordStarts(s)|
      invariant inWord <==> i > 0 && !WordBreak(s[i - 1])
    {
      ghost var before := set k | 0 <= k < i && k in WordStarts(s);
      ghost var now := set k | 0 <= k < i + 1 && k in WordStarts(s);
      if WordBreak(s[i]) {
        inWord := false;
        assert now == before;
      } else {
        if !inWord {
          n := n + 1;
          inWord := true;
          assert now == before + {i};
        } else {
          assert now == before;
        }
      }
    }
    assert (set k | 0 <= k < |s| && k in WordStarts(s)) == WordStarts(s);
  }

  function Words(s: string): nat { |WordStarts(s)| }

  function PartWords(p: Part): nat {
    match p
    case Text(text, _) => Words(text)
    case Thinking(thinking, _) => Words(thinking)
    case Call(Some(call), _) => Words(call.name) + Words(call.arguments)
    case _ => 0
  }

  function ContentWords(parts: seq<Part>): nat {
    if parts == [] then 0 else PartWords(parts[0]) + ContentWords(parts[1..])
  }

  function TranscriptWords(ms: seq<Message>): nat {
    if ms == [] then 0 else ContentWords(ms[0].content) + TranscriptWords(ms[1..])
  }

  /** Three quarters of a token per word, rounded up. */
  function Tokens(words: nat): nat { (words * 3 + 3) / 4 }

  function Estimate(ms: seq<Message>): nat { Tokens(TranscriptWords(ms)) }

  method EstimateTokens(ms: seq<Message>) returns (tokens: nat)
    ensures tokens == Estimate(ms)
  {
    var words: nat := 0;
    for i := 0 to |ms|
      invariant words + TranscriptWords(ms[i..]) == TranscriptWords(ms)
    {
      assert ms[i..][1..] == ms[i + 1..];
      var parts := ms[i].content;
      for j := 0 to |parts|
        invariant words + ContentWords(parts[j..]) + TranscriptWords(ms[i + 1..]) == TranscriptWords(ms)
      {
        assert parts[j..][1..] == parts[j + 1..];
        match parts[j]
        case Text(text, _) =>
          var n := CountWords(text);
          words := words + n;
        case Thinking(thinking, _) =>
          var n := CountWords(thinking);
          words := words + n;
        case Call(Some(call), _) =>
          var n := CountWords(call.name);
          var k := CountWords(call.arguments);
          words := words + n + k;
        case _ =>
      }
    }
    if words == 0 { return 0; }
    tokens := (words * 3 + 3) / 4; // at least 1 here, so the source's floor of 1 never applies
  }

  lemma {:induction false} WordsConcat(a: seq<Message>, b: seq<Message>)
    ensures TranscriptWords(a + b) == TranscriptWords(a) + TranscriptWords(b)
  {
    if a == [] {
      assert a + b == b;
    } else {
      assert (a + b)[1..] == a[1..] + b;
      WordsConcat(a[1..], b);
    }
  }

  // ---------- where to cut ----------

  /** Per-message estimates summed, as the budget counts them. */
  function EstimateSum(ms: seq<Message>): nat {
    if ms == [] then 0 else Estimate([ms[0]]) + EstimateSum(ms[1..])
  }

  lemma {:induction false} LongerTailCostsMore(ms: seq<Message>, j: nat, k: nat)
    requires j <= k <= |ms|
    ensures EstimateSum(ms[k..]) <= EstimateSum(ms[j..])
    decreases k - j
  {
    if j < k {
      assert ms[j..][1..] == ms[j + 1..];
      LongerTailCostsMore(ms, j + 1, k);
    }
  }

  /** ms[split..] is the longest tail whose summed estimate fits the budget; the last message
      is kept regardless. */
  ghost predicate IsBudgetCut(ms: seq<Message>, budget: int, split: int) {
    && 0 <= split <= |ms| && (ms != [] ==> split < |ms|)
    && (split < |ms| - 1 ==> EstimateSum(ms[split..]) <= budget)
    && forall k | 0 <= k < split :: EstimateSum(ms[k..]) > budget
  }

  /** There is only one such cut. */
  lemma BudgetCutUnique(ms: seq<Message>, budget: int, a: int, b: int)
    requires IsBudgetCut(ms, budget, a) && IsBudgetCut(ms, budget, b)
    ensures a == b
  {
  }

  /** That cut, from k on. */
  ghost function BudgetCut(ms: seq<Message>, budget: int, k: nat): (split: nat)
    requires k <= |ms| && (ms != [] ==> k < |ms|) && forall j | 0 <= j < k :: EstimateSum(ms[j..]) > budget
    ensures IsBudgetCut(ms, budget, split)
    decreases |ms| - k
  {
    if k >= |ms| - 1 || EstimateSum(ms[k..]) <= budget then k else BudgetCut(ms, budget, k + 1)
  }

  method SplitByTokenBudget(ms: seq<Message>, budget: int) returns (split: nat)
    ensures IsBudgetCut(ms, budget, split)
  {
    var used: nat := 0;
    var i := |ms|;
    assert ms[|ms|..] == [];
    while i > 0
      invariant 0 <= i <= |ms|
      invariant used == EstimateSum(ms[i..])
      invariant i < |ms| - 1 ==> used <= budget
    {
      i := i - 1;
      assert ms[i..][1..] == ms[i + 1..] && ms[i..][0] == ms[i] && ms[i..i + 1] == [ms[i]];
      var cost := EstimateTokens(ms[i..i + 1]);
      used := used + cost;
      if used > budget && i < |ms| - 1 {
        forall k | 0 <= k < i + 1 ensures EstimateSum(ms[k..]) > budget {
          LongerTailCostsMore(ms, k, i);
        }
        return i + 1;
      }
    }
    return 0;
  }

  /** The nearest cut at or before split whose tail does not begin with a tool result. */
  function SafeCutOf(ms: seq<Message>, split: int): (safe: nat)
    ensures safe <= |ms| && (split >= 0 ==> safe <= split)
    ensures 0 < safe < |ms| ==> !ms[safe].role.Tool?
    ensures forall k | safe < k <= split && k < |ms| :: ms[k].role.Tool?
    decreases split
  {
    if split <= 0 then 0
    else if split >= |ms| then |ms|
    else if ms[split].role.Tool? then SafeCutOf(ms, split - 1)
    else split
  }

  method SafeSplitPoint(ms: seq<Message>, split: int) returns (safe: nat)
    ensures safe == SafeCutOf(ms, split)
  {
    if split <= 0 { return 0; }
    if split >= |ms| { return |ms|; }
    var s := split;
    while s > 0 && ms[s].role.Tool?
      invariant 0 <= s <= split
      invariant SafeCutOf(ms, s) == SafeCutOf(ms, split)
    {
      s := s - 1;
    }
    return s;
  }

  /** Cut where SafeSplitPoint cuts, closed blocks stay closed: no call is separated from its
      result. The same holds with unanswered turns among them. */
  lemma SafeCut(ms: seq<Message>, split: int, unanswered: bool)
    requires Pairing.Blocks(ms, unanswered)
    ensures Pairing.Blocks(ms[SafeCutOf(ms, split)..], unanswered)
  {
    var safe := SafeCutOf(ms, split);
    if safe == 0 {
      assert ms[0..] == ms;
    } else {
      Pairing.BlocksSuffix(ms, safe, unanswered);
    }
  }

  // ---------- the file ledger ----------

  /** unicode.ToLower, as far as it can produce ASCII letters. */
  function Lower(c: char): char {
    if 'A' <= c <= 'Z' then ((c as int) + 32) as char
    else if c as int == 0x130 then 'i'
    else if c as int == 0x212A then 'k'
    else c
  }

  predicate OccursAt(s: string, sub: string, i: int)
    requires 0 <= i <= |s| - |sub|
  {
    s[i..i + |sub|] == sub
  }

  predicate Contains(s: string, sub: string) {
    exists i | 0 <= i <= |s| - |sub| :: OccursAt(s, sub, i)
  }

  datatype Touch = Reads | Modifies | Neither

  function TouchOf(name: string): Touch {
    var low := seq(|name|, i requires 0 <= i < |name| => Lower(name[i]));
    if Contains(low, "write") || Contains(low, "edit") then Modifies
    else if Contains(low, "read") then Reads
    else Neither
  }

  /** The path argument of a call; empty when the arguments do not decode or have none. */
  type PathOf = string -> string

  function MetadataStrings(metadata: map<string, MetaValue>, key: string): seq<string> {
    if key !in metadata then []
    else match metadata[key]
      case Strings(items) => items
      case Anys(items) => SomesOf(items)
      case _ => []
  }

  function SomesOf(items: seq<Option<string>>): seq<string> {
    if items == [] then []
    else (if items[0].Some? then [items[0].value] else []) + SomesOf(items[1..])
  }

  predicate IsSnapshot(m: Message) {
    "compaction" in m.metadata && m.metadata["compaction"] == Str("summarizing")
  }

  function CallPaths(calls: seq<ToolCall>, touch: Touch, pathOf: PathOf): seq<string> {
    if calls == [] then []
    else (if TouchOf(calls[0].name) == touch then [pathOf(calls[0].arguments)] else [])
         + CallPaths(calls[1..], touch, pathOf)
  }

  /** Paths that one message mentions, an earlier snapshot's ledger first. */
  function Mentions(m: Message, touch: Touch, pathOf: PathOf): seq<string> {
    (if !IsSnapshot(m) then []
     else MetadataStrings(m.metadata, if touch == Reads then READ_KEY else MODIFIED_KEY))
    + CallPaths(CallsOf(m.content), touch, pathOf)
  }

  type Collector = Message -> seq<string>

  function MentionsOf(touch: Touch, pathOf: PathOf): Collector {
    (m: Message) => Mentions(m, touch, pathOf)
  }

  function AllMentions(ms: seq<Message>, collect: Collector): seq<string> {
    if ms == [] then [] else collect(ms[0]) + AllMentions(ms[1..], collect)
  }

  function Add(list: seq<string>, p: string): seq<string> {
    if p == "" || p in list then list else list + [p]
  }

  /** First occurrences, in order, empty paths skipped. */
  function AddAll(list: seq<string>, items: seq<string>): seq<string>
    decreases |items|
  {
    if items == [] then list else AddAll(Add(list, items[0]), items[1..])
  }

  function Ledger(ms: seq<Message>, touch: Touch, pathOf: PathOf): seq<string> {
    Gathered(ms, MentionsOf(touch, pathOf))
  }

  function Gathered(ms: seq<Message>, collect: Collector): seq<string> {
    AddAll([], AllMentions(ms, collect))
  }

  lemma {:induction false} AddAllConcat(list: seq<string>, a: seq<string>, b: seq<string>)
    ensures AddAll(list, a + b) == AddAll(AddAll(list, a), b)
    decreases |a|
  {
    if a == [] {
      assert a + b == b;
    } else {
      assert (a + b)[1..] == a[1..] + b;
      AddAllConcat(Add(list, a[0]), a[1..], b);
    }
  }

  method AddPaths(list0: seq<string>, seen0: set<string>, items: seq<string>) returns (list: seq<string>, seen: set<string>)
    requires seen0 == set p | p in list0
    ensures list == AddAll(list0, items)
    ensures seen == set p | p in list
  {
    list, seen := list0, seen0;
    for i := 0 to |items|
      invariant AddAll(list, items[i..]) == AddAll(list0, items)
      invariant seen == set p | p in list
    {
      var p := items[i];
      assert items[i..][0] == p && items[i..][1..] == items[i + 1..];
      if p != "" && p !in seen {
        seen := seen + {p};
        list := list + [p];
      }
    }
  }

  lemma {:induction false} CallPathsConcat(a: seq<ToolCall>, b: seq<ToolCall>, touch: Touch, pathOf: PathOf)
    ensures CallPaths(a + b, touch, pathOf) == CallPaths(a, touch, pathOf) + CallPaths(b, touch, pathOf)
  {
    if a == [] {
      assert a + b == b;
    } else {
      ConcatDrop(a, b, 1);
      CallPathsConcat(a[1..], b, touch, pathOf);
      Assoc(if TouchOf(a[0].name) == touch then [pathOf(a[0].arguments)] else [],
            CallPaths(a[1..], touch, pathOf), CallPaths(b, touch, pathOf));
    }
  }

  /** The paths of one message's calls, in call order. */
  method CollectCallPaths(m: Message, pathOf: PathOf) returns (read: seq<string>, modified: seq<string>)
    ensures read == CallPaths(CallsOf(m.content), Reads, pathOf)
    ensures modified == CallPaths(CallsOf(m.content), Modifies, pathOf)
  {
    var calls := CollectToolCalls(m);
    read, modified := [], [];
    for i := 0 to |calls|
      invariant read == CallPaths(calls[..i], Reads, pathOf)
      invariant modified == CallPaths(calls[..i], Modifies, pathOf)
    {
      var call := calls[i];
      assert calls[..i + 1] == calls[..i] + [call];
      CallPathsConcat(calls[..i], [call], Reads, pathOf);
      CallPathsConcat(calls[..i], [call], Modifies, pathOf);
      assert [call][1..] == [];
      match TouchOf(call.name)
      case Modifies => modified := modified + [pathOf(call.arguments)];
      case Reads => read := read + [pathOf(call.arguments)];
      case Neither =>
    }
    assert calls[..|calls|] == calls;
  }

  method ExtractFileLedger(older: seq<Message>, pathOf: PathOf) returns (readFiles: seq<string>, modifiedFiles: seq<string>)
    ensures readFiles == Ledger(older, Reads, pathOf)
    ensures modifiedFiles == Ledger(older, Modifies, pathOf)
  {
    readFiles, modifiedFiles := [], [];
    var seenRead: set<string>, seenMod: set<string> := {}, {};
    for i := 0 to |older|
      invariant AddAll(readFiles, AllMentions(older[i..], MentionsOf(Reads, pathOf))) == Ledger(older, Reads, pathOf)
      invariant AddAll(modifiedFiles, AllMentions(older[i..], MentionsOf(Modifies, pathOf))) == Ledger(older, Modifies, pathOf)
      invariant seenRead == set p | p in readFiles
      invariant seenMod == set p | p in modifiedFiles
    {
      var m := older[i];
      assert older[i..][0] == m && older[i..][1..] == older[i + 1..];
      AddAllConcat(readFiles, Mentions(m, Reads, pathOf), AllMentions(older[i + 1..], MentionsOf(Reads, pathOf)));
      AddAllConcat(modifiedFiles, Mentions(m, Modifies, pathOf), AllMentions(older[i + 1..], MentionsOf(Modifies, pathOf)));
      var read, modified := CollectCallPaths(m, pathOf);
      AddMessage(readFiles, m, Reads, read, pathOf);
      AddMessage(modifiedFiles, m, Modifies, modified, pathOf);
      if IsSnapshot(m) {
        readFiles, seenRead := AddPaths(readFiles, seenRead, MetadataStrings(m.metadata, READ_KEY));
        modifiedFiles, seenMod := AddPaths(modifiedFiles, seenMod, MetadataStrings(m.metadata, MODIFIED_KEY));
      }
      readFiles, seenRead := AddPaths(readFiles, seenRead, read);
      modifiedFiles, seenMod := AddPaths(modifiedFiles, seenMod, modified);
    }
  }

  lemma AddMessage(list: seq<string>, m: Message, touch: Touch, paths: seq<string>, pathOf: PathOf)
    requires touch != Neither && paths == CallPaths(CallsOf(m.content), touch, pathOf)
    ensures AddAll(list, Mentions(m, touch, pathOf))
         == AddAll(if IsSnapshot(m) then AddAll(list, MetadataStrings(m.metadata, if touch == Reads then READ_KEY else MODIFIED_KEY))
                   else list, paths)
  {
    if IsSnapshot(m) {
      AddAllConcat(list, MetadataStrings(m.metadata, if touch == Reads then READ_KEY else MODIFIED_KEY), paths);
    } else {
      assert [] + paths == paths;
    }
  }

  // ---------- the marker ----------

  function CommaJoin(items: seq<string>): string {
    if |items| == 0 then "" else if |items| == 1 then items[0] else items[0] + ", " + CommaJoin(items[1..])
  }

  function RenderLedger(read: seq<string>, modified: seq<string>): string {
    if read == [] && modified == [] then ""
    else
      LEDGER_TITLE
      + (if modified == [] then "" else "\n- Modified: " + CommaJoin(modified))
      + (if read == [] then "" else "\n- Read: " + CommaJoin(read))
  }

  function MarkerText(summary: string, read: seq<string>, modified: seq<string>): string {
    var ledger := RenderLedger(read, modified);
    HANDOFF + "\n\n" + summary + if ledger == "" then "" else "\n\n" + ledger
  }

  function MarkerMetadata(count: nat, read: seq<string>, modified: seq<string>): map<string, MetaValue> {
    map["compaction" := Str("summarizing"), "original_message_count" := Num(count)]
    + (if read == [] then map[] else map[READ_KEY := Strings(read)])
    + (if modified == [] then map[] else map[MODIFIED_KEY := Strings(modified)])
  }

  /** The message, reading text, that stands for the messages older. */
  function Marker(older: seq<Message>, text: string, pathOf: PathOf): Message {
    Message(Assistant, [Text(text, "")], "", "", false, "", "",
            MarkerMetadata(|older|, Ledger(older, Reads, pathOf), Ledger(older, Modifies, pathOf)))
  }

  ghost predicate Distinct(items: seq<string>) {
    forall i, j | 0 <= i < j < |items| :: items[i] != items[j]
  }

  lemma {:induction false} AddAllDistinct(list: seq<string>, items: seq<string>)
    requires Distinct(list) && "" !in list
    ensures Distinct(AddAll(list, items)) && "" !in AddAll(list, items)
    decreases |items|
  {
    if items != [] {
      AddAllDistinct(Add(list, items[0]), items[1..]);
    }
  }

  /** Adding a clean list to a list it shares nothing with appends it unchanged. */
  lemma {:induction false} AddAllAppends(list: seq<string>, items: seq<string>)
    requires Distinct(list + items) && "" !in items
    ensures AddAll(list, items) == list + items
    decreases |items|
  {
    if items == [] {
      assert list + items == list;
    } else {
      assert (list + items)[|list|] == items[0];
      assert items[0] !in list by {
        assert forall i | 0 <= i < |list| :: (list + items)[i] == list[i];
      }
      assert list + [items[0]] + items[1..] == list + items;
      AddAllAppends(list + [items[0]], items[1..]);
    }
  }

  lemma MarkerMentions(older: seq<Message>, text: string, touch: Touch, pathOf: PathOf)
    requires touch != Neither
    ensures Mentions(Marker(older, text, pathOf), touch, pathOf) == Ledger(older, touch, pathOf)
  {
    var m := Marker(older, text, pathOf);
    MarkerHasNoCalls(older, text, pathOf);
    MetadataRoundTrip(|older|, Ledger(older, Reads, pathOf), Ledger(older, Modifies, pathOf));
    assert Ledger(older, touch, pathOf) + [] == Ledger(older, touch, pathOf);
  }

  lemma MetadataRoundTrip(count: nat, read: seq<string>, modified: seq<string>)
    ensures var metadata := MarkerMetadata(count, read, modified);
            && "compaction" in metadata && metadata["compaction"] == Str("summarizing")
            && MetadataStrings(metadata, READ_KEY) == read
            && MetadataStrings(metadata, MODIFIED_KEY) == modified
  {
    var metadata := MarkerMetadata(count, read, modified);
    KeysDiffer();
    assert read == [] <==> READ_KEY !in metadata;
    assert modified == [] <==> MODIFIED_KEY !in metadata;
  }

  lemma KeysDiffer()
    ensures |READ_KEY| == 26 && |MODIFIED_KEY| == 30
    ensures |"compaction"| == 10 && |"original_message_count"| == 22
  {
  }

  /** A message that mentions exactly what older mentions can stand in for older. */
  lemma StandInGathers(m: Message, older: seq<Message>, later: seq<Message>, collect: Collector)
    requires collect(m) == Gathered(older, collect)
    ensures Gathered([m] + later, collect) == Gathered(older + later, collect)
  {
    var kept, rest := Gathered(older, collect), AllMentions(later, collect);
    assert ([m] + later)[1..] == later;
    AddAllConcat([], kept, rest);
    AddAllDistinct([], AllMentions(older, collect));
    assert [] + kept == kept;
    AddAllAppends([], kept);
    MentionsConcat(older, later, collect);
    AddAllConcat([], AllMentions(older, collect), rest);
  }

  /** Extracting from a marker and the messages after it gives the same files, in the same
      order, as extracting from everything the marker stands for and those messages. */
  lemma LedgerSurvives(older: seq<Message>, later: seq<Message>, text: string, touch: Touch, pathOf: PathOf)
    requires touch != Neither
    ensures Ledger([Marker(older, text, pathOf)] + later, touch, pathOf) == Ledger(older + later, touch, pathOf)
  {
    MarkerMentions(older, text, touch, pathOf);
    StandInGathers(Marker(older, text, pathOf), older, later, MentionsOf(touch, pathOf));
  }

  lemma {:induction false} MentionsConcat(a: seq<Message>, b: seq<Message>, collect: Collector)
    ensures AllMentions(a + b, collect) == AllMentions(a, collect) + AllMentions(b, collect)
  {
    if a == [] {
      assert a + b == b;
    } else {
      assert (a + b)[1..] == a[1..] + b;
      MentionsConcat(a[1..], b, collect);
    }
  }

  /** One stage of a session: the messages it adds, and the text of the marker that ends it. */
  datatype Stage = Stage(added: seq<Message>, text: string)

  /** The transcript after a chain of compactions, each of everything so far. */
  ghost function Chained(stages: seq<Stage>, pathOf: PathOf): seq<Message> {
    if stages == [] then []
    else
      var last := stages[|stages| - 1];
      [Marker(Chained(stages[..|stages| - 1], pathOf) + last.added, last.text, pathOf)]
  }

  ghost function Everything(stages: seq<Stage>): seq<Message> {
    if stages == [] then [] else Everything(stages[..|stages| - 1]) + stages[|stages| - 1].added
  }

  /** The ledger survives any number of compactions, order included. */
  lemma {:induction false} LedgerSurvivesChain(stages: seq<Stage>, later: seq<Message>, touch: Touch, pathOf: PathOf)
    requires touch != Neither
    ensures Ledger(Chained(stages, pathOf) + later, touch, pathOf) == Ledger(Everything(stages) + later, touch, pathOf)
    decreases |stages|
  {
    if stages != [] {
      var init, last := stages[..|stages| - 1], stages[|stages| - 1];
      var before := Chained(init, pathOf);
      LedgerSurvives(before + last.added, later, last.text, touch, pathOf);
      Assoc(before, last.added, later);
      LedgerSurvivesChain(init, last.added + later, touch, pathOf);
      Assoc(Everything(init), last.added, later);
    }
  }

  // ---------- Compact ----------

  datatype Settings = Settings(targetTokens: int, keepRecent: int, keepRecentTokens: int)

  datatype Compaction = Ok(messages: seq<Message>) | Failed(reason: string)

  /** Settings under which the provider is not asked at all. */
  ghost predicate SmallEnough(s: Settings, ms: seq<Message>) {
    || (|ms| <= (if s.keepRecent <= 0 then DEFAULT_KEEP_RECENT else s.keepRecent) && s.keepRecentTokens <= 0)
    || Estimate(ms) <= (if s.targetTokens <= 0 then DEFAULT_TARGET_TOKENS else s.targetTokens)
  }

  /** What a compaction is: one marker for a non-empty prefix, cut at a safe point, and fewer
      tokens than the prefix had. */
  ghost predicate IsCompaction(ms: seq<Message>, out: seq<Message>, cut: int, text: string, pathOf: PathOf) {
    var split := SafeCutOf(ms, cut);
    && split > 0
    && out == [Marker(ms[..split], text, pathOf)] + ms[split..]
    && Estimate([Marker(ms[..split], text, pathOf)]) < Estimate(ms[..split])
  }

  /** Where the settings ask to cut. */
  ghost function CutFor(s: Settings, ms: seq<Message>): int {
    if s.keepRecentTokens > 0 then BudgetCut(ms, s.keepRecentTokens, 0)
    else |ms| - if s.keepRecent <= 0 then DEFAULT_KEEP_RECENT else s.keepRecent
  }

  ghost function TextFor(older: seq<Message>, summary: string, pathOf: PathOf): string {
    MarkerText(summary, Ledger(older, Reads, pathOf), Ledger(older, Modifies, pathOf))
  }

  ghost function CompactOf(s: Settings, ms: seq<Message>, summary: Option<string>, pathOf: PathOf): Compaction {
    var split := SafeCutOf(ms, CutFor(s, ms));
    if SmallEnough(s, ms) || split == 0 then Ok(ms) else Replaced(ms, split, summary, pathOf)
  }

  ghost function Replaced(ms: seq<Message>, split: nat, summary: Option<string>, pathOf: PathOf): Compaction
    requires split <= |ms|
  {
    if summary.None? then Failed("provider")
    else if Blank(summary.value) then Failed("provider returned no text")
    else
      var marker := Marker(ms[..split], TextFor(ms[..split], summary.value, pathOf), pathOf);
      if Estimate([marker]) >= Estimate(ms[..split]) then Ok(ms) else Ok([marker] + ms[split..])
  }

  /** Small transcripts, and those with nothing old enough, come back unchanged; otherwise a
      missing or blank summary is an error, and the prefix is replaced exactly when that saves tokens. */
  lemma CompactAnswers(s: Settings, ms: seq<Message>, summary: Option<string>, pathOf: PathOf)
    ensures var r, cut := CompactOf(s, ms, summary, pathOf), CutFor(s, ms);
            var older := ms[..SafeCutOf(ms, cut)];
            if SmallEnough(s, ms) || older == [] then r == Ok(ms)
            else if summary.None? || Blank(summary.value) then r.Failed?
            else
              var text := TextFor(older, summary.value, pathOf);
              && r.Ok? && !Blank(text)
              && if Estimate([Marker(older, text, pathOf)]) < Estimate(older)
                 then IsCompaction(ms, r.messages, cut, text, pathOf)
                 else r.messages == ms
  {
    if summary.Some? {
      var older := ms[..SafeCutOf(ms, CutFor(s, ms))];
      MarkerTextNotBlank(summary.value, Ledger(older, Reads, pathOf), Ledger(older, Modifies, pathOf));
    }
  }

  method ChooseCut(s: Settings, ms: seq<Message>, keep: int) returns (split: int)
    requires keep == if s.keepRecent <= 0 then DEFAULT_KEEP_RECENT else s.keepRecent
    ensures split == CutFor(s, ms)
  {
    split := |ms| - keep;
    if s.keepRecentTokens > 0 {
      split := SplitByTokenBudget(ms, s.keepRecentTokens);
      BudgetCutUnique(ms, s.keepRecentTokens, split, BudgetCut(ms, s.keepRecentTokens, 0));
    }
  }

  method Compact(s: Settings, ms: seq<Message>, summary: Option<string>, pathOf: PathOf)
    returns (r: Compaction)
    ensures r == CompactOf(s, ms, summary, pathOf)
  {
    var keep := if s.keepRecent <= 0 then DEFAULT_KEEP_RECENT else s.keepRecent;
    var target := if s.targetTokens <= 0 then DEFAULT_TARGET_TOKENS else s.targetTokens;
    var split := ChooseCut(s, ms, keep);
    if |ms| <= keep && s.keepRecentTokens <= 0 { return Ok(ms); }
    var size := EstimateTokens(ms);
    if size <= target { return Ok(ms); }
    var safe := SafeSplitPoint(ms, split);
    if safe <= 0 { return Ok(ms); }
    r := Replace(ms, safe, summary, pathOf);
  }

  /** The part of it that asks for a summary and puts the marker in place. */
  method Replace(ms: seq<Message>, split: nat, summary: Option<string>, pathOf: PathOf) returns (r: Compaction)
    requires split <= |ms|
    ensures r == Replaced(ms, split, summary, pathOf)
  {
    var older, kept := ms[..split], ms[split..];
    if summary.None? { return Failed("provider"); }
    if Blank(summary.value) { return Failed("provider returned no text"); }
    var readFiles, modifiedFiles := ExtractFileLedger(older, pathOf);
    var marker := Marker(older, MarkerText(summary.value, readFiles, modifiedFiles), pathOf);
    var markerSize := EstimateTokens([marker]);
    var olderSize := EstimateTokens(older);
    if markerSize >= olderSize { return Ok(ms); }
    return Ok([marker] + kept);
  }

  lemma SmallerPrefix(ms: seq<Message>, split: nat, out: seq<Message>, marker: Message)
    requires split <= |ms| && out == [marker] + ms[split..] && Estimate([marker]) < Estimate(ms[..split])
    ensures Estimate(out) <= Estimate(ms)
    ensures TranscriptWords(out) < TranscriptWords(ms)
  {
    WordsConcat(ms[..split], ms[split..]);
    WordsConcat([marker], ms[split..]);
    assert ms == ms[..split] + ms[split..];
  }

  /** A compaction never makes the transcript larger, and saves words outright. */
  lemma CompactionShrinks(ms: seq<Message>, out: seq<Message>, cut: int, text: string, pathOf: PathOf)
    requires IsCompaction(ms, out, cut, text, pathOf)
    ensures Estimate(out) <= Estimate(ms)
    ensures TranscriptWords(out) < TranscriptWords(ms)
  {
    var split := SafeCutOf(ms, cut);
    SmallerPrefix(ms, split, out, Marker(ms[..split], text, pathOf));
  }

  /** A note without calls in place of a prefix. */
  lemma NoteThenBlocks(note: Message, kept: seq<Message>, unanswered: bool)
    requires !note.role.Tool? && Calls(note) == [] && Pairing.Blocks(kept, unanswered)
    ensures Pairing.Blocks([note] + kept, unanswered)
  {
    var out := [note] + kept;
    assert out[1..] == kept && Harden.RunLength(kept) == 0;
    WholeAndNothing(kept);
    assert kept[..0] == [] && ResultIds([]) == Pairing.TurnCallIds(note);
  }

  lemma NoteThenKept(ms: seq<Message>, split: nat, note: Message)
    requires split <= |ms| && Meaningful(note) && NoEmptyTurns(ms)
    ensures NoEmptyTurns([note] + ms[split..])
  {
    assert forall m | m in ms[split..] :: m in ms;
  }

  lemma LedgerKept(ms: seq<Message>, split: nat, text: string, pathOf: PathOf)
    requires split <= |ms|
    ensures forall touch | touch != Neither ::
              Ledger([Marker(ms[..split], text, pathOf)] + ms[split..], touch, pathOf) == Ledger(ms, touch, pathOf)
  {
    assert ms == ms[..split] + ms[split..];
    forall touch | touch != Neither
      ensures Ledger([Marker(ms[..split], text, pathOf)] + ms[split..], touch, pathOf) == Ledger(ms, touch, pathOf)
    {
      LedgerSurvives(ms[..split], ms[split..], text, touch, pathOf);
    }
  }

  /** A compaction keeps closed blocks closed and stored transcripts well formed, keeps turns
      non-empty, and keeps the ledger. */
  lemma CompactionKeeps(ms: seq<Message>, out: seq<Message>, cut: int, text: string, pathOf: PathOf)
    requires IsCompaction(ms, out, cut, text, pathOf)
    ensures Pairing.InBlocks(ms) ==> Pairing.InBlocks(out) && Pairing.Paired(out)
    ensures Pairing.Loose(ms) ==> Pairing.Loose(out)
    ensures NoEmptyTurns(ms) && !Blank(text) ==> NoEmptyTurns(out)
    ensures forall touch | touch != Neither :: Ledger(out, touch, pathOf) == Ledger(ms, touch, pathOf)
  {
    var split := SafeCutOf(ms, cut);
    var marker := Marker(ms[..split], text, pathOf);
    MarkerHasNoCalls(ms[..split], text, pathOf);
    forall unanswered | Pairing.Blocks(ms, unanswered) ensures Pairing.Blocks(out, unanswered) {
      SafeCut(ms, cut, unanswered);
      NoteThenBlocks(marker, ms[split..], unanswered);
    }
    if Pairing.InBlocks(out) {
      Pairing.BlocksArePaired(out);
    }
    if !Blank(text) && NoEmptyTurns(ms) {
      MarkerMeaningful(ms[..split], text, pathOf);
      NoteThenKept(ms, split, marker);
    }
    LedgerKept(ms, split, text, pathOf);
  }

  lemma MarkerHasNoCalls(older: seq<Message>, text: string, pathOf: PathOf)
    ensures Calls(Marker(older, text, pathOf)) == []
  {
    NoCallsInText(text);
  }

  lemma NoCallsInText(text: string)
    ensures CallsOf([Text(text, "")]) == []
  {
    assert [Text(text, "")][1..] == [];
  }

  lemma MarkerMeaningful(older: seq<Message>, text: string, pathOf: PathOf)
    requires !Blank(text)
    ensures Meaningful(Marker(older, text, pathOf))
  {
    assert PartMeaningful(Marker(older, text, pathOf).content[0]);
  }

  /** A marker begins with words of its own, so it is never blank. */
  lemma MarkerTextNotBlank(summary: string, read: seq<string>, modified: seq<string>)
    ensures !Blank(MarkerText(summary, read, modified))
  {
    var ledger := RenderLedger(read, modified);
    assert HANDOFF[0] == HANDOFF_OPENING[0] == 'A';
    NotBlankInFront(HANDOFF, "\n\n", summary, if ledger == "" then "" else "\n\n" + ledger);
  }

  lemma NotBlankInFront(a: string, b: string, c: string, d: string)
    requires a != "" && !IsSpace(a[0])
    ensures !Blank(a + b + c + d)
  {
    assert (a + b + c + d)[0] == a[0];
  }

  // ---------- when every cut is safe ----------

  /** Message j is one of the results that follow message p at once. */
  ghost predicate DirectlyAfter(ms: seq<Message>, p: int, j: int) {
    && 0 < p < j < |ms| && !ms[p].role.Tool?
    && forall q | p < q <= j :: ms[q].role.Tool?
  }

  /** Past the first message, every result that follows a message at once answers a call of
      that message or of a later one. */
  ghost predicate Owned(ms: seq<Message>) {
    forall p, j | DirectlyAfter(ms, p, j) :: ms[j].toolCallId in CallIds(ms[p..])
  }

  /** The message that a result follows, and that is no result itself. */
  lemma {:induction false} LeaderOf(ms: seq<Message>, p: nat, j: nat) returns (q: nat)
    requires 0 < p <= j < |ms| && !ms[p].role.Tool? && ms[j].role.Tool?
    ensures p <= q < j && DirectlyAfter(ms, q, j)
    decreases j
  {
    if ms[j - 1].role.Tool? {
      q := LeaderOf(ms, p, j - 1);
    } else {
      q := j - 1;
    }
  }

  lemma SuffixCallIds(ms: seq<Message>, p: nat, q: nat)
    requires p <= q <= |ms|
    ensures CallIds(ms[q..]) <= CallIds(ms[p..])
  {
    assert ms[p..] == ms[p..q] + ms[q..];
    CallIdsConcat(ms[p..q], ms[q..]);
  }

  /** Owned results keep every tail without orphans that no result begins. */
  lemma OwnedTailPaired(ms: seq<Message>, p: nat)
    requires Answered(ms) && Owned(ms) && 0 < p < |ms| && !ms[p].role.Tool?
    ensures Pairing.Paired(ms[p..])
  {
    HardenTheorems.AnsweredSuffix(ms, p);
    forall id | id in ResultIds(ms[p..]) ensures id in CallIds(ms[p..]) {
      var j :| p <= j < |ms| && ms[j].role.Tool? && ms[j].toolCallId == id;
      var q := LeaderOf(ms, p, j);
      SuffixCallIds(ms, p, q);
    }
  }

  /** What a compaction asked to cut here would keep is paired. */
  ghost predicate CutsSafely(ms: seq<Message>, split: int) {
    Pairing.Paired(ms[SafeCutOf(ms, split)..])
  }

  lemma OwnedCutsSafely(ms: seq<Message>, split: int)
    requires Pairing.Paired(ms) && Owned(ms)
    ensures CutsSafely(ms, split)
  {
    var p := SafeCutOf(ms, split);
    WholeAndNothing(ms);
    assert Pairing.Paired([]) by { assert ResultIds([]) == {}; }
    if 0 < p < |ms| {
      OwnedTailPaired(ms, p);
    }
  }

  lemma SafeCutOwns(ms: seq<Message>, p: int, j: int)
    requires DirectlyAfter(ms, p, j) && CutsSafely(ms, p)
    ensures ms[j].toolCallId in CallIds(ms[p..])
  {
    assert ms[p..][j - p] == ms[j] && ms[j] in ms[p..];
    assert ms[j].toolCallId in ResultIds(ms[p..]);
  }

  /** No cut of a paired transcript separates a call from its result exactly when every result
      is owned by the message it follows or by a later one. */
  lemma EveryCutSafeIff(ms: seq<Message>)
    requires Pairing.Paired(ms)
    ensures (forall split: int :: CutsSafely(ms, split)) <==> Owned(ms)
  {
    if Owned(ms) {
      forall split: int ensures CutsSafely(ms, split) {
        OwnedCutsSafely(ms, split);
      }
    } else {
      var p, j :| DirectlyAfter(ms, p, j) && ms[j].toolCallId !in CallIds(ms[p..]);
      if CutsSafely(ms, p) {
        SafeCutOwns(ms, p, j);
      }
    }
  }

  /** The cut does separate a call from a result that sits further on: for such a transcript
      the safe split keeps the result and drops its call. */
  lemma LateResultSeparated() returns (ms: seq<Message>, split: int)
    ensures Pairing.Paired(ms) && 0 < split < |ms| && !CutsSafely(ms, split)
  {
    var turn := Message(Assistant, [Call(Some(ToolCall("c", "t", "")), "")], "", "", false, "", "", map[]);
    var note := Message(User, [], "", "", false, "", "", map[]);
    var result := Message(Tool, [], "c", "t", false, "", "", map[]);
    ms, split := [turn, note, result], 1;
    assert Calls(turn) == [ToolCall("c", "t", "")] by {
      assert turn.content[1..] == [];
    }
    assert ms == [turn] + [note, result] && [note, result] == [note] + [result] && [result] == [result] + [];
    HardenTheorems.HeadCalls(turn, [note, result]);
    HardenTheorems.HeadCalls(note, [result]);
    HardenTheorems.HeadCalls(result, []);
    HardenTheorems.AnsweredCons(result, []);
    HardenTheorems.AnsweredCons(note, [result]);
    HardenTheorems.AnsweredCons(turn, [note, result]);
    assert "c" in CallIds(ms) by {
      assert ToolCall("c", "t", "") in Calls(turn);
    }
    assert Pairing.Paired(ms);
    assert ms[1..] == [note, result];
    assert "c" in ResultIds(ms[1..]) && "c" !in CallIds(ms[1..]);
  }
}
