/** What a store gives back of a transcript (loop/types.go, stores/file/store.go): JSON brings the
    string lists of metadata back as lists of any values, and call arguments in another layout. */
module Stores {
  import opened Sequences
  import opened Transcript
  import Harden
  import Pairing
  import opened Compactor

  function LoadedValue(v: MetaValue): MetaValue {
    match v
    case Strings(items) => Anys(Somes(items))
    case _ => v
  }

  function Somes(items: seq<string>): seq<Option<string>> {
    if items == [] then [] else [Some(items[0])] + Somes(items[1..])
  }

  /** How the text of a call's arguments comes back. */
  type Layout = string -> string

  function LoadedPart(p: Part, layout: Layout): Part {
    if p.Call? && p.call.Some?
    then p.(call := Some(p.call.value.(arguments := layout(p.call.value.arguments))))
    else p
  }

  function LoadedParts(parts: seq<Part>, layout: Layout): seq<Part> {
    if parts == [] then [] else [LoadedPart(parts[0], layout)] + LoadedParts(parts[1..], layout)
  }

  function LoadedMessage(m: Message, layout: Layout): Message {
    m.(content := LoadedParts(m.content, layout),
       metadata := map key | key in m.metadata :: LoadedValue(m.metadata[key]))
  }

  /** A transcript saved and loaded again. */
  function Loaded(ms: seq<Message>, layout: Layout): seq<Message> {
    if ms == [] then [] else [LoadedMessage(ms[0], layout)] + Loaded(ms[1..], layout)
  }

  /** The layout of JSON changes, not the path it encodes. */
  ghost predicate KeepsPaths(layout: Layout, pathOf: PathOf) {
    forall arguments :: pathOf(layout(arguments)) == pathOf(arguments)
  }

  /** A message comes back as it was, but for the layout of arguments and the type of lists. */
  ghost predicate ComesBack(a: Message, b: Message, layout: Layout) {
    && b.role == a.role && b.toolCallId == a.toolCallId && b.toolName == a.toolName && b.isError == a.isError
    && b.model == a.model && b.stopReason == a.stopReason && |b.content| == |a.content|
    && (forall k | 0 <= k < |a.content| :: PartBack(a.content[k], b.content[k], layout))
    && b.metadata.Keys == a.metadata.Keys
    && (forall key | key in a.metadata :: ValueBack(a.metadata[key], b.metadata[key]))
  }

  ghost predicate PartBack(a: Part, b: Part, layout: Layout) {
    match a
    case Call(Some(c), s) => b == Call(Some(ToolCall(c.id, c.name, layout(c.arguments))), s)
    case _ => b == a
  }

  ghost predicate ValueBack(a: MetaValue, b: MetaValue) {
    match a
    case Strings(items) => b.Anys? && |b.anys| == |items| && forall k | 0 <= k < |items| :: b.anys[k] == Some(items[k])
    case _ => b == a
  }

  lemma {:induction false} SomesTold(items: seq<string>)
    ensures ValueBack(Strings(items), Anys(Somes(items)))
  {
    if items != [] {
      SomesTold(items[1..]);
      assert Somes(items)[1..] == Somes(items[1..]);
    }
  }

  lemma {:induction false} PartsComeBack(parts: seq<Part>, layout: Layout)
    ensures |LoadedParts(parts, layout)| == |parts|
    ensures forall k | 0 <= k < |parts| :: PartBack(parts[k], LoadedParts(parts, layout)[k], layout)
  {
    if parts != [] {
      PartsComeBack(parts[1..], layout);
      assert LoadedParts(parts, layout)[1..] == LoadedParts(parts[1..], layout);
      assert forall k | 1 <= k < |parts| :: parts[k] == parts[1..][k - 1];
    }
  }

  lemma MessageComesBack(m: Message, layout: Layout)
    ensures ComesBack(m, LoadedMessage(m, layout), layout)
  {
    PartsComeBack(m.content, layout);
    forall key | key in m.metadata ensures ValueBack(m.metadata[key], LoadedValue(m.metadata[key])) {
      if m.metadata[key].Strings? { SomesTold(m.metadata[key].items); }
    }
  }

  /** Nothing else is lost or changed on the way through a store. */
  lemma {:induction false} LoadedTold(ms: seq<Message>, layout: Layout)
    ensures |Loaded(ms, layout)| == |ms|
    ensures forall k | 0 <= k < |ms| :: ComesBack(ms[k], Loaded(ms, layout)[k], layout)
  {
    if ms != [] {
      MessageComesBack(ms[0], layout);
      LoadedTold(ms[1..], layout);
      assert Loaded(ms, layout)[1..] == Loaded(ms[1..], layout);
      assert forall k | 1 <= k < |ms| :: ms[k] == ms[1..][k - 1];
    }
  }

  // ---------- the ledger ----------

  lemma {:induction false} SomesAreAll(items: seq<string>)
    ensures SomesOf(Somes(items)) == items
  {
    if items != [] {
      SomesAreAll(items[1..]);
      assert Somes(items)[1..] == Somes(items[1..]);
    }
  }

  /** The source's two forms of a string list read the same. */
  lemma LoadedStrings(m: Message, layout: Layout, key: string)
    ensures MetadataStrings(LoadedMessage(m, layout).metadata, key) == MetadataStrings(m.metadata, key)
  {
    if key in m.metadata && m.metadata[key].Strings? {
      SomesAreAll(m.metadata[key].items);
    }
  }

  lemma {:induction false} LoadedCalls(parts: seq<Part>, layout: Layout)
    ensures var calls, loaded := CallsOf(parts), CallsOf(LoadedParts(parts, layout));
            && |loaded| == |calls|
            && forall k | 0 <= k < |calls| :: loaded[k] == calls[k].(arguments := layout(calls[k].arguments))
  {
    if parts != [] {
      LoadedCalls(parts[1..], layout);
      assert LoadedParts(parts, layout)[1..] == LoadedParts(parts[1..], layout);
    }
  }

  lemma {:induction false} LoadedPaths(calls: seq<ToolCall>, loaded: seq<ToolCall>, layout: Layout, touch: Touch, pathOf: PathOf)
    requires KeepsPaths(layout, pathOf) && |loaded| == |calls|
    requires forall k | 0 <= k < |calls| :: loaded[k] == calls[k].(arguments := layout(calls[k].arguments))
    ensures CallPaths(loaded, touch, pathOf) == CallPaths(calls, touch, pathOf)
  {
    if calls != [] {
      LoadedPaths(calls[1..], loaded[1..], layout, touch, pathOf);
    }
  }

  lemma LoadedMentions(m: Message, layout: Layout, touch: Touch, pathOf: PathOf)
    requires KeepsPaths(layout, pathOf)
    ensures Mentions(LoadedMessage(m, layout), touch, pathOf) == Mentions(m, touch, pathOf)
  {
    LoadedStrings(m, layout, if touch == Reads then READ_KEY else MODIFIED_KEY);
    LoadedCalls(m.content, layout);
    LoadedPaths(CallsOf(m.content), CallsOf(LoadedMessage(m, layout).content), layout, touch, pathOf);
  }

  lemma {:induction false} LoadedAllMentions(ms: seq<Message>, layout: Layout, touch: Touch, pathOf: PathOf)
    requires KeepsPaths(layout, pathOf)
    ensures AllMentions(Loaded(ms, layout), MentionsOf(touch, pathOf)) == AllMentions(ms, MentionsOf(touch, pathOf))
  {
    if ms != [] {
      LoadedMentions(ms[0], layout, touch, pathOf);
      LoadedAllMentions(ms[1..], layout, touch, pathOf);
      assert Loaded(ms, layout)[1..] == Loaded(ms[1..], layout);
    }
  }

  /** The ledger survives saving and loading, whatever is said afterwards. */
  lemma LedgerSurvivesLoading(ms: seq<Message>, later: seq<Message>, layout: Layout, touch: Touch, pathOf: PathOf)
    requires KeepsPaths(layout, pathOf)
    ensures Ledger(Loaded(ms, layout) + later, touch, pathOf) == Ledger(ms + later, touch, pathOf)
  {
    LoadedAllMentions(ms, layout, touch, pathOf);
    MentionsConcat(Loaded(ms, layout), later, MentionsOf(touch, pathOf));
    MentionsConcat(ms, later, MentionsOf(touch, pathOf));
  }

  // ---------- pairing ----------

  ghost predicate Alike(a: seq<Message>, b: seq<Message>) {
    && |a| == |b|
    && forall k | 0 <= k < |a| ::
         b[k].role == a[k].role && b[k].toolCallId == a[k].toolCallId && Pairing.TurnCallIds(b[k]) == Pairing.TurnCallIds(a[k])
  }

  lemma AlikeResultIds(a: seq<Message>, b: seq<Message>)
    requires Alike(a, b)
    ensures ResultIds(b) == ResultIds(a)
  {
    forall id | id in ResultIds(a) ensures id in ResultIds(b) {
      var k :| 0 <= k < |a| && a[k].role.Tool? && a[k].toolCallId == id;
      assert b[k] in b;
    }
    forall id | id in ResultIds(b) ensures id in ResultIds(a) {
      var k :| 0 <= k < |b| && b[k].role.Tool? && b[k].toolCallId == id;
      assert a[k] in a;
    }
  }

  /** Blocks depend on roles and IDs alone. */
  lemma {:induction false} AlikeKeepsBlocks(a: seq<Message>, b: seq<Message>, unanswered: bool)
    requires Alike(a, b) && Pairing.Blocks(a, unanswered)
    ensures Pairing.Blocks(b, unanswered)
    decreases |a|
  {
    if a != [] {
      if a[0].role.Assistant? {
        var n := Harden.RunLength(a[1..]);
        Pairing.RunLengthIs(b[1..], n);
        AlikeResultIds(a[1..][..n], b[1..][..n]);
        AlikeKeepsBlocks(a[1..][n..], b[1..][n..], unanswered);
      } else {
        AlikeKeepsBlocks(a[1..], b[1..], unanswered);
      }
    }
  }

  lemma LoadedTurn(m: Message, layout: Layout)
    ensures Pairing.TurnCallIds(LoadedMessage(m, layout)) == Pairing.TurnCallIds(m)
  {
    var calls, loaded := Calls(m), Calls(LoadedMessage(m, layout));
    LoadedCalls(m.content, layout);
    assert forall k | 0 <= k < |calls| :: calls[k] in calls && loaded[k] in loaded && loaded[k].id == calls[k].id;
  }

  lemma {:induction false} LoadedAlike(ms: seq<Message>, layout: Layout)
    ensures Alike(ms, Loaded(ms, layout))
  {
    if ms != [] {
      LoadedTurn(ms[0], layout);
      LoadedAlike(ms[1..], layout);
      assert forall k | 1 <= k < |ms| :: ms[k] == ms[1..][k - 1];
    }
  }

  /** Saving and loading keeps blocks, closed or with unanswered turns. */
  lemma LoadingKeepsBlocks(ms: seq<Message>, layout: Layout, unanswered: bool)
    requires Pairing.Blocks(ms, unanswered)
    ensures Pairing.Blocks(Loaded(ms, layout), unanswered)
  {
    LoadedAlike(ms, layout);
    AlikeKeepsBlocks(ms, Loaded(ms, layout), unanswered);
  }
}
