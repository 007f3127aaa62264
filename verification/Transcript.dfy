/** Transcript entries, as in loop/types.go. Optional pointers are Option values; a
    string constant type that admits other values keeps an Other case. */
module Transcript {
  import opened Sequences
  import Unicode

  datatype Role = User | Assistant | Tool | OtherRole(name: string)

  datatype ToolCall = ToolCall(id: string, name: string, arguments: string)

  datatype Part =
    | Text(text: string, signature: string)
    | Thinking(thinking: string, signature: string)
    | Image(image: Option<string>, signature: string)
    | Call(call: Option<ToolCall>, signature: string)
    | OtherPart(kind: string, signature: string)

  datatype MetaValue =
    | Flag(on: bool)
    | Str(s: string)
    | Num(n: int)
    | Strings(items: seq<string>)
    | Anys(anys: seq<Option<string>>) // a decoded JSON list; None stands for a non-string element

  datatype Message = Message(
    role: Role,
    content: seq<Part>,
    toolCallId: string,
    toolName: string,
    isError: bool,
    model: string,
    stopReason: string,
    metadata: map<string, MetaValue>)

  predicate IsSpace(c: char) { Unicode.IsSpaceRune(c as int) }

  /** strings.TrimSpace(s) == "". */
  predicate Blank(s: string) {
    forall k | 0 <= k < |s| :: IsSpace(s[k])
  }

  function CallsOf(parts: seq<Part>): seq<ToolCall> {
    if parts == [] then []
    else if parts[0].Call? && parts[0].call.Some? then [parts[0].call.value] + CallsOf(parts[1..])
    else CallsOf(parts[1..])
  }

  function Calls(m: Message): seq<ToolCall> { CallsOf(m.content) }

  method CollectToolCalls(m: Message) returns (calls: seq<ToolCall>)
    ensures calls == Calls(m)
  {
    calls := [];
    for i := 0 to |m.content|
      invariant calls + CallsOf(m.content[i..]) == Calls(m)
    {
      var part := m.content[i];
      assert m.content[i..][1..] == m.content[i + 1..];
      if part.Call? && part.call.Some? {
        calls := calls + [part.call.value];
      }
    }
  }

  predicate PartMeaningful(p: Part) {
    match p
    case Text(text, _) => !Blank(text)
    case Thinking(thinking, _) => !Blank(thinking)
    case Image(image, _) => image.Some?
    case Call(call, _) => call.Some?
    case OtherPart(_, _) => false
  }

  /** hasMeaningfulContent. */
  predicate Meaningful(m: Message) {
    exists k | 0 <= k < |m.content| :: PartMeaningful(m.content[k])
  }

  lemma {:induction false} CallsComeFromParts(parts: seq<Part>)
    ensures forall c | c in CallsOf(parts) ::
              exists k | 0 <= k < |parts| :: parts[k].Call? && parts[k].call == Some(c)
  {
    if parts != [] {
      CallsComeFromParts(parts[1..]);
      forall c | c in CallsOf(parts)
        ensures exists k | 0 <= k < |parts| :: parts[k].Call? && parts[k].call == Some(c)
      {
        if parts[0].Call? && parts[0].call == Some(c) {
        } else {
          assert c in CallsOf(parts[1..]);
          var k :| 0 <= k < |parts[1..]| && parts[1..][k].Call? && parts[1..][k].call == Some(c);
          assert parts[k + 1] == parts[1..][k];
        }
      }
    }
  }

  /** The calls of a turn are the calls of its parts, part by part. */
  lemma {:induction false} CallsConcat(a: seq<Part>, b: seq<Part>)
    ensures CallsOf(a + b) == CallsOf(a) + CallsOf(b)
    ensures |a| == 1 ==> CallsOf(a) == match a[0] case Call(Some(c), _) => [c] case _ => []
  {
    if a == [] {
      assert a + b == b;
    } else {
      assert (a + b)[1..] == a[1..] + b;
      CallsConcat(a[1..], b);
    }
  }

  /** A turn that asks for a tool is never empty. */
  lemma CallsAreMeaningful(m: Message)
    requires Calls(m) != []
    ensures Meaningful(m)
  {
    CallsComeFromParts(m.content);
    assert Calls(m)[0] in Calls(m);
  }

  /** IDs of the tool results among ms. */
  function ResultIds(ms: seq<Message>): set<string> {
    set m | m in ms && m.role.Tool? :: m.toolCallId
  }

  /** IDs of the calls that the assistant turns among ms make. */
  function CallIds(ms: seq<Message>): set<string> {
    set m, c | m in ms && m.role.Assistant? && c in Calls(m) :: c.id
  }

  /** Every assistant call is followed, at some later position, by a result with its ID. */
  ghost predicate Answered(ms: seq<Message>) {
    ms != [] ==>
      && Answered(ms[1..])
      && (ms[0].role.Assistant? ==> forall c | c in Calls(ms[0]) :: c.id in ResultIds(ms[1..]))
  }

  /** Answered, read by position. */
  lemma {:induction false} AnsweredByPosition(ms: seq<Message>, i: nat, c: ToolCall) returns (j: nat)
    requires Answered(ms)
    requires i < |ms| && ms[i].role.Assistant? && c in Calls(ms[i])
    ensures i < j < |ms| && ms[j].role.Tool? && ms[j].toolCallId == c.id
  {
    if i == 0 {
      var m :| m in ms[1..] && m.role.Tool? && m.toolCallId == c.id;
      j :| 1 <= j < |ms| && ms[j] == m;
    } else {
      var k := AnsweredByPosition(ms[1..], i - 1, c);
      j := k + 1;
    }
  }

  /** Every tool result answers some assistant call of ms. */
  ghost predicate NoOrphans(ms: seq<Message>) {
    ResultIds(ms) <= CallIds(ms)
  }

  ghost predicate NoEmptyTurns(ms: seq<Message>) {
    forall m | m in ms && m.role.Assistant? :: Meaningful(m)
  }

  lemma ResultIdsConcat(a: seq<Message>, b: seq<Message>)
    ensures ResultIds(a + b) == ResultIds(a) + ResultIds(b)
  {
  }

  lemma CallIdsConcat(a: seq<Message>, b: seq<Message>)
    ensures CallIds(a + b) == CallIds(a) + CallIds(b)
  {
    forall id | id in CallIds(a) + CallIds(b) ensures id in CallIds(a + b) {
      var m, c :| (m in a || m in b) && m.role.Assistant? && c in Calls(m) && c.id == id;
      assert m in a + b;
    }
  }
}
