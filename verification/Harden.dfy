/** HardenHistory, loop/harden.go: repair of any transcript into one that providers accept. */
module Harden {
  import opened Sequences
  import opened Transcript
  import CallIdNames

  const INTERRUPTED := "tool call was interrupted before producing a result; do not assume it ran"
  const SYNTHETIC := "glue/synthetic"

  function Synthetic(call: ToolCall): Message {
    Message(Tool, [Text(INTERRUPTED, "")], call.id, call.name, true, "", "", map[SYNTHETIC := Flag(true)])
  }

  predicate Foreign(m: Message, activeModel: string) {
    activeModel != "" && m.model != "" && m.model != activeModel
  }

  function Unsigned(p: Part): Part { p.(signature := "") }

  function StripParts(parts: seq<Part>): seq<Part> {
    if parts == [] then []
    else (if parts[0].Thinking? then [] else [Unsigned(parts[0])]) + StripParts(parts[1..])
  }

  /** sanitizeForeignTurn: another model's thinking and signatures are dropped. */
  function Sanitized(m: Message, activeModel: string): Message {
    if Foreign(m, activeModel) then m.(content := StripParts(m.content)) else m
  }

  method SanitizeForeignTurn(m: Message, activeModel: string) returns (r: Message)
    ensures r == Sanitized(m, activeModel)
  {
    if activeModel == "" || m.model == "" || m.model == activeModel { return m; }
    var content := [];
    for i := 0 to |m.content|
      invariant content + StripParts(m.content[i..]) == StripParts(m.content)
    {
      var p := m.content[i];
      ghost var rest := m.content[i + 1..];
      assert m.content[i..][0] == p && m.content[i..][1..] == rest;
      if p.Thinking? {
        assert StripParts(m.content[i..]) == StripParts(rest);
      } else {
        Shift(content, Unsigned(p), StripParts(rest));
        content := content + [Unsigned(p)];
      }
    }
    r := m.(content := content);
  }

  lemma {:induction false} StripKeepsCalls(parts: seq<Part>)
    ensures CallsOf(StripParts(parts)) == CallsOf(parts)
  {
    if parts != [] {
      StripKeepsCalls(parts[1..]);
      if parts[0].Thinking? {
        assert StripParts(parts) == StripParts(parts[1..]);
      } else {
        assert StripParts(parts) == [Unsigned(parts[0])] + StripParts(parts[1..]);
        assert StripParts(parts)[1..] == StripParts(parts[1..]);
      }
    }
  }

  lemma {:induction false} StripIdempotent(parts: seq<Part>)
    ensures StripParts(StripParts(parts)) == StripParts(parts)
  {
    if parts != [] {
      StripIdempotent(parts[1..]);
      if parts[0].Thinking? {
        assert StripParts(parts) == StripParts(parts[1..]);
      } else {
        assert StripParts(parts) == [Unsigned(parts[0])] + StripParts(parts[1..]);
        assert StripParts(parts)[1..] == StripParts(parts[1..]);
      }
    }
  }

  lemma SanitizedKeepsCalls(m: Message, activeModel: string)
    ensures Calls(Sanitized(m, activeModel)) == Calls(m)
  {
    StripKeepsCalls(m.content);
  }

  lemma SanitizedIdempotent(m: Message, activeModel: string)
    ensures Sanitized(Sanitized(m, activeModel), activeModel) == Sanitized(m, activeModel)
  {
    StripIdempotent(m.content);
  }

  // ---------- the repair, message by message ----------

  /** Number of tool results at the front of ms. */
  function RunLength(ms: seq<Message>): (n: nat)
    ensures n <= |ms|
    ensures forall k | 0 <= k < n :: ms[k].role.Tool?
    ensures n < |ms| ==> !ms[n].role.Tool?
  {
    if ms != [] && ms[0].role.Tool? then 1 + RunLength(ms[1..]) else 0
  }

  /** The results among ms that answer a call of the transcript. */
  function KnownOnly(ms: seq<Message>, known: set<string>): seq<Message> {
    if ms == [] then []
    else (if ms[0].toolCallId in known then [ms[0]] else []) + KnownOnly(ms[1..], known)
  }

  function MissingResults(calls: seq<ToolCall>, present: set<string>): seq<Message> {
    if calls == [] then []
    else (if calls[0].id in present then [] else [Synthetic(calls[0])]) + MissingResults(calls[1..], present)
  }

  /** A kept turn: the message, its kept results, and stand-ins for calls with no result at all. */
  function Block(m: Message, kept: seq<Message>, after: seq<Message>): seq<Message> {
    [m] + kept + MissingResults(Calls(m), ResultIds(kept) + ResultIds(after))
  }

  /** The repaired form of ms, where known holds the IDs of all calls of the whole transcript. */
  function Repaired(ms: seq<Message>, known: set<string>, activeModel: string): seq<Message>
    decreases |ms|
  {
    if ms == [] then []
    else if ms[0].role.Assistant? then
      var m := Sanitized(ms[0], activeModel);
      if !Meaningful(m) then Repaired(ms[1..], known, activeModel)
      else
        var n := RunLength(ms[1..]);
        var run, after := ms[1..][..n], ms[1..][n..];
        Block(m, KnownOnly(run, known), after) + Repaired(after, known, activeModel)
    else if ms[0].role.Tool? && ms[0].toolCallId !in known then Repaired(ms[1..], known, activeModel)
    else [ms[0]] + Repaired(ms[1..], known, activeModel)
  }

  function Hardened(ms: seq<Message>, activeModel: string): seq<Message> {
    Repaired(CallIdNames.Renamed(ms), CallIds(CallIdNames.Renamed(ms)), activeModel)
  }

  // ---------- the imperative form ----------

  method ResultsElsewhere(msgs: seq<Message>, from: nat, id: string) returns (found: bool)
    requires from <= |msgs|
    ensures found <==> id in ResultIds(msgs[from..])
  {
    var i := from;
    while i < |msgs|
      invariant from <= i <= |msgs|
      invariant id in ResultIds(msgs[from..]) <==> id in ResultIds(msgs[i..])
    {
      assert msgs[i..] == [msgs[i]] + msgs[i + 1..];
      if msgs[i].role.Tool? && msgs[i].toolCallId == id {
        assert msgs[i] in msgs[i..];
        return true;
      }
      i := i + 1;
    }
    return false;
  }

  method IndexCalls(msgs: seq<Message>) returns (calls: map<string, ToolCall>)
    ensures calls.Keys == CallIds(msgs)
  {
    calls := map[];
    for i := 0 to |msgs|
      invariant calls.Keys == CallIds(msgs[..i])
    {
      assert msgs[..i + 1] == msgs[..i] + [msgs[i]];
      CallIdsConcat(msgs[..i], [msgs[i]]);
      assert msgs[i] in [msgs[i]];
      if msgs[i].role.Assistant? {
        var turn := CollectToolCalls(msgs[i]);
        for j := 0 to |turn|
          invariant calls.Keys == CallIds(msgs[..i]) + set c | c in turn[..j] :: c.id
        {
          calls := calls[turn[j].id := turn[j]];
          assert turn[..j + 1] == turn[..j] + [turn[j]];
        }
        assert turn[..|turn|] == turn;
        assert CallIds([msgs[i]]) == set c | c in turn :: c.id;
      } else {
        assert CallIds([msgs[i]]) == {};
      }
    }
    assert msgs[..|msgs|] == msgs;
  }

  lemma ResultIdsOfTool(ms: seq<Message>, tm: Message)
    requires tm.role.Tool?
    ensures ResultIds(ms + [tm]) == ResultIds(ms) + {tm.toolCallId}
  {
    ResultIdsConcat(ms, [tm]);
    assert tm in [tm];
    assert ResultIds([tm]) == {tm.toolCallId};
  }

  lemma {:induction false} KnownOnlyConcat(a: seq<Message>, b: seq<Message>, known: set<string>)
    ensures KnownOnly(a + b, known) == KnownOnly(a, known) + KnownOnly(b, known)
  {
    if a == [] {
      assert a + b == b;
    } else {
      ConcatDrop(a, b, 1);
      KnownOnlyConcat(a[1..], b, known);
      Assoc(if a[0].toolCallId in known then [a[0]] else [], KnownOnly(a[1..], known), KnownOnly(b, known));
    }
  }

  lemma KnownOnlySnoc(a: seq<Message>, tm: Message, known: set<string>)
    ensures KnownOnly(a + [tm], known) == KnownOnly(a, known) + if tm.toolCallId in known then [tm] else []
  {
    KnownOnlyConcat(a, [tm], known);
    assert [tm][1..] == [];
  }

  lemma SliceSnoc(msgs: seq<Message>, from: nat, next: nat)
    requires from <= next < |msgs|
    ensures msgs[from..next + 1] == msgs[from..next] + [msgs[next]]
  {
  }

  lemma NothingAbsorbed(msgs: seq<Message>, from: nat, known: set<string>)
    requires from <= |msgs|
    ensures KnownOnly(msgs[from..from], known) == [] && ResultIds([]) == {}
  {
  }

  lemma AbsorbStep(msgs: seq<Message>, from: nat, next: nat, known: set<string>)
    requires from <= next < |msgs| && msgs[next].role.Tool?
    ensures var kept, tm := KnownOnly(msgs[from..next], known), msgs[next];
            var more := KnownOnly(msgs[from..next + 1], known);
            && more == (if tm.toolCallId in known then kept + [tm] else kept)
            && ResultIds(more) == ResultIds(kept) + if tm.toolCallId in known then {tm.toolCallId} else {}
  {
    var kept, tm := KnownOnly(msgs[from..next], known), msgs[next];
    SliceSnoc(msgs, from, next);
    KnownOnlySnoc(msgs[from..next], tm, known);
    WholeAndNothing(kept);
    ResultIdsOfTool(kept, tm);
  }

  lemma RunEnds(msgs: seq<Message>, from: nat, next: nat)
    requires from <= next <= |msgs|
    requires forall k | from <= k < next :: msgs[k].role.Tool?
    requires next < |msgs| ==> !msgs[next].role.Tool?
    ensures RunLength(msgs[from..]) == next - from
  {
    var n, rest := RunLength(msgs[from..]), msgs[from..];
    assert forall k | 0 <= k < |rest| :: rest[k] == msgs[from + k];
    assert n < |rest| ==> !msgs[from + n].role.Tool?;
  }

  /** The contiguous results of one turn: those kept, and the position after them. */
  method AbsorbResults(msgs: seq<Message>, from: nat, known: set<string>)
    returns (kept: seq<Message>, seen: set<string>, next: nat)
    requires from <= |msgs|
    ensures next == from + RunLength(msgs[from..])
    ensures kept == KnownOnly(msgs[from..next], known)
    ensures seen == ResultIds(kept)
  {
    kept, seen, next := [], {}, from;
    NothingAbsorbed(msgs, from, known);
    while next < |msgs| && msgs[next].role.Tool?
      invariant from <= next <= |msgs|
      invariant forall k | from <= k < next :: msgs[k].role.Tool?
      invariant kept == KnownOnly(msgs[from..next], known)
      invariant seen == ResultIds(kept)
    {
      var tm := msgs[next];
      AbsorbStep(msgs, from, next, known);
      next := next + 1;
      if tm.toolCallId in known {
        seen := seen + {tm.toolCallId};
        kept := kept + [tm];
      }
    }
    RunEnds(msgs, from, next);
  }

  method SynthesizeMissing(msgs: seq<Message>, next: nat, turnCalls: seq<ToolCall>, seen: set<string>)
    returns (made: seq<Message>)
    requires next <= |msgs|
    ensures made == MissingResults(turnCalls, seen + ResultIds(msgs[next..]))
  {
    made := [];
    ghost var present := seen + ResultIds(msgs[next..]);
    for k := 0 to |turnCalls|
      invariant made + MissingResults(turnCalls[k..], present) == MissingResults(turnCalls, present)
    {
      assert turnCalls[k..][1..] == turnCalls[k + 1..];
      var elsewhere := ResultsElsewhere(msgs, next, turnCalls[k].id);
      if turnCalls[k].id in seen || elsewhere { continue; }
      made := made + [Synthetic(turnCalls[k])];
    }
  }

  /** One assistant turn: what it leaves in the output, and the position after it. */
  method RepairTurn(msgs: seq<Message>, i: nat, calls: map<string, ToolCall>, activeModel: string)
    returns (block: seq<Message>, next: nat)
    requires i < |msgs| && msgs[i].role.Assistant?
    ensures i < next <= |msgs|
    ensures Repaired(msgs[i..], calls.Keys, activeModel) == block + Repaired(msgs[next..], calls.Keys, activeModel)
  {
    ghost var here := msgs[i..];
    assert here[0] == msgs[i] && here[1..] == msgs[i + 1..];
    var m := SanitizeForeignTurn(msgs[i], activeModel);
    if Meaningful(m) {
      var turnCalls := CollectToolCalls(m);
      var kept, seen;
      kept, seen, next := AbsorbResults(msgs, i + 1, calls.Keys);
      var made := SynthesizeMissing(msgs, next, turnCalls, seen);
      ghost var n := RunLength(here[1..]);
      assert here[1..][..n] == msgs[i + 1..next] && here[1..][n..] == msgs[next..];
      block := [m] + kept + made;
      assert block == Block(m, kept, msgs[next..]);
    } else {
      block, next := [], i + 1;
    }
  }

  method RepairTurns(msgs: seq<Message>, calls: map<string, ToolCall>, activeModel: string) returns (out: seq<Message>)
    ensures out == Repaired(msgs, calls.Keys, activeModel)
  {
    ghost var known := calls.Keys;
    out := [];
    var i := 0;
    while i < |msgs|
      invariant 0 <= i <= |msgs|
      invariant out + Repaired(msgs[i..], known, activeModel) == Repaired(msgs, known, activeModel)
    {
      ghost var rest := msgs[i + 1..];
      var m := msgs[i];
      assert msgs[i..][0] == m && msgs[i..][1..] == rest;
      if m.role.Assistant? {
        var block;
        block, i := RepairTurn(msgs, i, calls, activeModel);
        Assoc(out, block, Repaired(msgs[i..], known, activeModel));
        out := out + block;
      } else {
        i := i + 1;
        if !m.role.Tool? || m.toolCallId in calls {
          Shift(out, m, Repaired(rest, known, activeModel));
          out := out + [m];
        }
      }
    }
    assert msgs[|msgs|..] == [];
  }

  method HardenHistory(messages: seq<Message>, activeModel: string) returns (out: seq<Message>)
    ensures out == Hardened(messages, activeModel)
  {
    var clone := new Message[|messages|](i requires 0 <= i < |messages| => messages[i]);
    assert clone[..] == messages;
    var _ := CallIdNames.NormalizeToolCallIDs(clone);
    var msgs := clone[..];
    var calls := IndexCalls(msgs);
    out := RepairTurns(msgs, calls, activeModel);
  }
}
