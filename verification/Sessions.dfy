/** Session.Prompt, session.go: a transcript that grows by prompts and the runs they start, shrinks
    by compactions, before a run and once more when the run overflows, and is saved to a store. */
module Sessions {
  import opened Sequences
  import opened Transcript
  import opened RunSpec
  import Compactor
  import Harden
  import RunLoop
  import Stores

  const ENV_CONTEXT := "glue/env:context"

  datatype Agent = Agent(compactor: Option<Compactor.Settings>, threshold: int, pathOf: Compactor.PathOf, layout: Stores.Layout)

  /** One prompt, and the world that its run, a retry and the compactions meet. */
  datatype Prompt = Prompt(
    text: string,
    context: string, // the environment block, empty without one
    opts: Options,
    env: Environment,
    retryEnv: Environment,
    summary: Option<string>,
    retrySummary: Option<string>,
    saves: bool) // whether the store takes the state

  function UserMessage(text: string, metadata: map<string, MetaValue>): Message {
    Message(User, [Text(text, "")], "", "", false, "", "", metadata)
  }

  predicate IsContext(m: Message) {
    ENV_CONTEXT in m.metadata && m.metadata[ENV_CONTEXT] == Flag(true)
  }

  function Texts(parts: seq<Part>): string {
    if parts == [] then "" else (if parts[0].Text? then parts[0].text else "") + Texts(parts[1..])
  }

  /** The text of the most recent environment block. */
  function LastContext(ms: seq<Message>): string {
    if ms == [] then ""
    else if IsContext(ms[|ms| - 1]) then Texts(ms[|ms| - 1].content)
    else LastContext(ms[..|ms| - 1])
  }

  /** The messages a prompt adds in front of its run. */
  function Asked(p: Prompt, base: seq<Message>): seq<Message> {
    (if p.context != "" && p.context != LastContext(base)
     then [UserMessage(p.context, map[ENV_CONTEXT := Flag(true)])] else [])
    + [UserMessage(p.text, map[])]
  }

  function RunOf(env: Environment, opts: Options, history: seq<Message>): (Progress, RunError) {
    Turns(env, opts, Harden.Hardened(history, opts.model), TurnLimit(opts), 0, Unstarted())
  }

  /** maybeCompact. */
  ghost function Compacted(a: Agent, ms: seq<Message>, summary: Option<string>): Compactor.Compaction {
    if a.compactor.None? || a.threshold <= 0 || |ms| <= a.threshold then Compactor.Ok(ms)
    else
      match Compactor.CompactOf(a.compactor.value, ms, summary, a.pathOf)
      case Failed(reason) => Compactor.Failed(reason)
      case Ok(out) => Compactor.Ok(if |out| == |ms| then ms else out)
  }

  /** The transcript to try once more with, when a run overflowed and a compaction helps. */
  ghost function Reduced(a: Agent, base: seq<Message>, err: RunError, summary: Option<string>): Option<seq<Message>> {
    if !err.ContextOverflow? || a.compactor.None? then None
    else
      match Compactor.CompactOf(a.compactor.value, base, summary, a.pathOf)
      case Failed(_) => None
      case Ok(out) => if 0 < |out| < |base| then Some(out) else None
  }

  /** What a prompt leaves: the transcript it was added to, what it added, and the runs made. */
  datatype Aftermath = Aftermath(base: seq<Message>, added: seq<Message>, runs: seq<Progress>)
  {
    function Messages(): seq<Message> { base + added }

    /** What the store holds afterwards: a prompt that never got to its run saves nothing. */
    function Saved(stored: seq<Message>, saves: bool): seq<Message> {
      if runs != [] && saves then Messages() else stored
    }
  }

  ghost function Prompted(a: Agent, ms: seq<Message>, p: Prompt): Aftermath {
    match Compacted(a, ms, p.summary)
    case Failed(_) => Aftermath(ms, [], [])
    case Ok(base) => Replied(a, base, Asked(p, base), p)
  }

  ghost function Replied(a: Agent, base: seq<Message>, asked: seq<Message>, p: Prompt): Aftermath {
    var (first, err) := RunOf(p.env, p.opts, base + asked);
    match Reduced(a, base, err, p.retrySummary)
    case None => Aftermath(base, asked + NewMessages(first, err), [first])
    case Some(less) =>
      var (second, err2) := RunOf(p.retryEnv, p.opts, less + asked);
      Aftermath(less, asked + NewMessages(second, err2), [first, second])
  }

  ghost function SentBy(runs: seq<Progress>): seq<seq<Message>> {
    if runs == [] then [] else runs[0].sent + SentBy(runs[1..])
  }

  /** The compaction a user asks for (cmd/glue/tui/tui.go), if it leaves fewer messages. */
  ghost function Shrunk(a: Agent, s: Compactor.Settings, ms: seq<Message>, summary: Option<string>): Option<seq<Message>> {
    match Compactor.CompactOf(s, ms, summary, a.pathOf)
    case Failed(_) => None
    case Ok(out) => if |out| < |ms| then Some(out) else None
  }

  lemma SentByOne(run: Progress)
    ensures SentBy([run]) == run.sent
  {
    assert [run][1..] == [];
  }

  lemma SentByTwo(first: Progress, second: Progress)
    ensures SentBy([first, second]) == first.sent + second.sent
  {
    assert [first, second][1..] == [second];
    SentByOne(second);
  }

  method AskedAfter(p: Prompt, base: seq<Message>) returns (asked: seq<Message>)
    ensures asked == Asked(p, base)
  {
    asked := [];
    if p.context != "" {
      var last := FindContext(base);
      if p.context != last {
        asked := [UserMessage(p.context, map[ENV_CONTEXT := Flag(true)])];
      }
    }
    asked := asked + [UserMessage(p.text, map[])];
  }

  method TextOf(m: Message) returns (text: string)
    ensures text == Texts(m.content)
  {
    text := "";
    for k := 0 to |m.content|
      invariant text + Texts(m.content[k..]) == Texts(m.content)
    {
      assert m.content[k..][1..] == m.content[k + 1..];
      var piece := if m.content[k].Text? then m.content[k].text else "";
      Assoc(text, piece, Texts(m.content[k + 1..]));
      text := text + piece;
    }
    assert Texts(m.content[|m.content|..]) == "";
  }

  method FindContext(ms: seq<Message>) returns (text: string)
    ensures text == LastContext(ms)
  {
    text := "";
    assert ms[..|ms|] == ms;
    for i := |ms| downto 0
      invariant LastContext(ms[..i]) == LastContext(ms)
    {
      assert ms[..i + 1][..i] == ms[..i];
      if IsContext(ms[i]) {
        text := TextOf(ms[i]);
        return;
      }
    }
  }

  method RunWith(env: Environment, opts: Options, history: seq<Message>)
    returns (newMessages: seq<Message>, err: RunError, sent: seq<seq<Message>>)
    ensures var (run, end) := RunOf(env, opts, history);
            newMessages == NewMessages(run, end) && err == end && sent == run.sent
  {
    var _, added, end, tried := RunLoop.Run(env, opts, history);
    return added, end, tried;
  }

  class Session {
    const agent: Agent
    var messages: seq<Message>
    var stored: seq<Message> // what the store holds of it

    /** A session as it is loaded; the store holds nothing of a new one. */
    constructor (agent: Agent, stored: seq<Message>)
      ensures this.agent == agent && this.stored == stored && messages == Stores.Loaded(stored, agent.layout)
    {
      this.agent, this.stored, messages := agent, stored, Stores.Loaded(stored, agent.layout);
    }

    method MaybeCompact(ms: seq<Message>, summary: Option<string>) returns (r: Compactor.Compaction)
      ensures r == Compacted(agent, ms, summary)
    {
      if agent.compactor.None? || agent.threshold <= 0 || |ms| <= agent.threshold { return Compactor.Ok(ms); }
      r := Compactor.Compact(agent.compactor.value, ms, summary, agent.pathOf);
      if r.Ok? && |r.messages| == |ms| { return Compactor.Ok(ms); }
    }

    method Reduce(base: seq<Message>, err: RunError, summary: Option<string>) returns (r: Option<seq<Message>>)
      ensures r == Reduced(agent, base, err, summary)
    {
      if !err.ContextOverflow? || agent.compactor.None? { return None; }
      var compacted := Compactor.Compact(agent.compactor.value, base, summary, agent.pathOf);
      if compacted.Ok? && 0 < |compacted.messages| < |base| { return Some(compacted.messages); }
      return None;
    }

    method Prompt(p: Prompt) returns (sent: seq<seq<Message>>)
      modifies this
      ensures messages == Prompted(agent, old(messages), p).Messages()
      ensures stored == Prompted(agent, old(messages), p).Saved(old(stored), p.saves)
      ensures sent == SentBy(Prompted(agent, old(messages), p).runs)
    {
      sent := [];
      WholeAndNothing(messages);
      var compacted := MaybeCompact(messages, p.summary);
      if compacted.Failed? { return; }
      messages := compacted.messages;
      var asked := AskedAfter(p, messages);
      sent := Answer(p, asked);
    }

    /** The part of it that runs the loop, with one retry. */
    method Answer(p: Prompt, asked: seq<Message>) returns (sent: seq<seq<Message>>)
      modifies this
      ensures messages == Replied(agent, old(messages), asked, p).Messages()
      ensures stored == Replied(agent, old(messages), asked, p).Saved(old(stored), p.saves)
      ensures sent == SentBy(Replied(agent, old(messages), asked, p).runs)
    {
      var base := messages;
      var newMessages, err;
      newMessages, err, sent := RunWith(p.env, p.opts, base + asked);
      var less := Reduce(base, err, p.retrySummary);
      SentByOne(RunOf(p.env, p.opts, base + asked).0);
      if less.Some? {
        messages := less.value;
        var sentAgain;
        newMessages, err, sentAgain := RunWith(p.retryEnv, p.opts, messages + asked);
        sent := sent + sentAgain;
        SentByTwo(RunOf(p.env, p.opts, base + asked).0, RunOf(p.retryEnv, p.opts, messages + asked).0);
      }
      Assoc(messages, asked, newMessages);
      messages := messages + asked + newMessages;
      if p.saves {
        stored := messages;
      }
    }

    /** Only the store sees the shorter transcript; the session in memory keeps its own. */
    method Shrink(s: Compactor.Settings, summary: Option<string>, saves: bool)
      modifies this`stored
      ensures var out := Shrunk(agent, s, messages, summary);
              stored == if out.Some? && saves then out.value else old(stored)
    {
      var out := Compactor.Compact(s, messages, summary, agent.pathOf);
      if out.Ok? && |out.messages| < |messages| && saves {
        stored := out.messages;
      }
    }
  }
}
