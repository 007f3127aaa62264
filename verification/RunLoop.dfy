/** The agent loop, loop/run.go: turns of provider, tool calls and guardrails on one growing
    transcript, proved to compute what RunSpec describes. */
module RunLoop {
  import opened Sequences
  import opened Transcript
  import Harden
  import opened Guardrails
  import opened RunSpec

  // ---------- tool execution ----------

  /** The tools of one turn. Sequential and parallel mode give the same results in the same
      order; a fatal outcome or a cancellation gives none at all. */
  method ExecuteToolCalls(env: Environment, turn: nat, parallel: bool, calls: seq<ToolCall>)
    returns (r: Outcome<seq<Message>>)
    ensures r.Good? <==>
              && (forall k | 0 <= k < |calls| :: env.execute(turn, k, calls[k]).Done?)
              && !env.cancelled(turn, AfterCalls)
              && (!parallel ==> forall k: nat | k < |calls| :: !env.cancelled(turn, BeforeCall(k)))
    ensures r == Executed(env, turn, parallel, calls)
    ensures r.Bad? ==> r.error.Canceled? || r.error.ToolError?
    ensures r.Good? ==> ReportsAll(env, turn, calls, r.value)
  {
    var outs: seq<ToolOutcome> := [];
    for k := 0 to |calls|
      invariant |outs| == k
      invariant forall j | 0 <= j < k :: outs[j] == env.execute(turn, j, calls[j])
      invariant !parallel ==> forall j: nat | j < k :: outs[j].Done? && !env.cancelled(turn, BeforeCall(j))
      invariant SequentialStop(env, turn, calls, 0) == SequentialStop(env, turn, calls, k) || parallel
    {
      if !parallel && env.cancelled(turn, BeforeCall(k)) { return Bad(Canceled); }
      var out := env.execute(turn, k, calls[k]);
      if !parallel && out.Fatal? { return Bad(ToolError(out.error)); }
      outs := outs + [out];
    }
    if env.cancelled(turn, AfterCalls) { return Bad(Canceled); }
    var results: seq<Message> := [];
    for k := 0 to |calls|
      invariant |results| == k
      invariant forall j | 0 <= j < k :: outs[j].Done? && results[j] == ToolResultMessage(calls[j], outs[j])
      invariant FirstFatal(env, turn, calls, 0) == FirstFatal(env, turn, calls, k)
    {
      if outs[k].Fatal? { return Bad(ToolError(outs[k].error)); }
      results := results + [ToolResultMessage(calls[k], outs[k])];
    }
    assert results == Results(env, turn, calls);
    r := Good(results);
  }

  // ---------- one provider turn ----------

  /** A turn with retries. Every attempt sees the same transcript; a failed attempt leaves nothing behind. */
  method AssistantTurn(env: Environment, opts: Options, turn: nat, messages: seq<Message>)
    returns (r: Outcome<Message>, sent: seq<seq<Message>>)
    ensures (r, |sent|) == ReplyAfter(env, opts, turn, messages, 0)
    ensures sent == Copies(messages, |sent|)
    ensures r.Bad? ==> r.error.Canceled? || r.error.ProviderError? || r.error.ContextOverflow?
    ensures r.Good? ==> sent != [] && env.provider(turn, |sent| - 1, messages) == Turn(r.value)
    ensures forall j | 0 <= j < |sent| - 1 ::
              env.provider(turn, j, messages).Failed? && env.classify(env.provider(turn, j, messages).error).Transient?
    ensures 1 <= |sent| <= if opts.retryDisabled then 1 else RetryLimit(opts) + 1
  {
    sent := [];
    var attempt := 0;
    while true
      invariant attempt == |sent| <= RetryLimit(opts)
      invariant opts.retryDisabled ==> attempt == 0
      invariant ReplyAfter(env, opts, turn, messages, attempt) == ReplyAfter(env, opts, turn, messages, 0)
      invariant sent == Copies(messages, |sent|)
      invariant forall j | 0 <= j < attempt ::
                  env.provider(turn, j, messages).Failed? && env.classify(env.provider(turn, j, messages).error).Transient?
      decreases RetryLimit(opts) - attempt
    {
      sent := sent + [messages];
      match env.provider(turn, attempt, messages)
      case Turn(m) => return Good(m), sent;
      case Failed(error) =>
        if opts.retryDisabled { return Bad(ProviderError(error)), sent; }
        if env.cancelled(turn, Attempt(attempt)) { return Bad(ProviderError(error)), sent; }
        match env.classify(error) {
          case Overflow => return Bad(ContextOverflow(error)), sent;
          case Permanent => return Bad(ProviderError(error)), sent;
          case Transient =>
        }
        if attempt >= RetryLimit(opts) { return Bad(ProviderError(error)), sent; }
        if env.cancelled(turn, Backoff(attempt)) { return Bad(Canceled), sent; }
        attempt := attempt + 1;
    }
  }

  // ---------- one turn ----------

  /** The calls of a turn are executed and judged, and the results and any corrective note
      join the transcript; or the turn is left unanswered. */
  method AnswerTurn(env: Environment, opts: Options, guard: GuardState, turn: nat, assistant: Message,
                    calls: seq<ToolCall>, messages0: seq<Message>, newMessages0: seq<Message>)
    returns (messages: seq<Message>, newMessages: seq<Message>, next: Next)
    requires calls == Calls(assistant)
    requires guard.policy == opts.guardrails.WithDefaults() && guard.key == env.key
    modifies guard
    ensures var (goesOn, more, streaks) := AnswerOf(env, opts, turn, assistant, old(guard.State()));
            && next == goesOn && guard.State() == streaks
            && messages == messages0 + more && newMessages == newMessages0 + more
    ensures next.Stop? ==> !next.err.MaxTurnsExceeded?
  {
    messages, newMessages := messages0 + [assistant], newMessages0 + [assistant];
    if env.cancelled(turn, TurnEnd) { return messages, newMessages, Stop(Canceled); }
    var tools := ExecuteToolCalls(env, turn, opts.parallel, calls);
    if tools.Bad? { return messages, newMessages, Stop(tools.error); }
    Assoc(messages0, [assistant], tools.value);
    Assoc(newMessages0, [assistant], tools.value);
    messages, newMessages := messages + tools.value, newMessages + tools.value;
    next := Continue;
    var verdict := guard.Observe(calls, tools.value);
    if verdict.Nudge? {
      var note := GuardNote(verdict.kind);
      Assoc(messages0, [assistant] + tools.value, [note]);
      Assoc(newMessages0, [assistant] + tools.value, [note]);
      messages, newMessages := messages + [note], newMessages + [note];
    } else if verdict.Halt? {
      next := Stop(HaltError(verdict.kind));
    }
  }

  /** A turn without calls: nudged when it stalled and the budget of nudges allows, else final. */
  method QuietTurn(env: Environment, opts: Options, assistant: Message, autoContinues0: nat,
                   messages0: seq<Message>, newMessages0: seq<Message>)
    returns (messages: seq<Message>, newMessages: seq<Message>, autoContinues: nat, next: Next)
    ensures var (goesOn, more) := QuietOf(env, opts, assistant, autoContinues0);
            && next == goesOn && autoContinues == (if next.Continue? then autoContinues0 + 1 else autoContinues0)
            && messages == messages0 + more && newMessages == newMessages0 + more
  {
    messages, newMessages := messages0 + [assistant], newMessages0 + [assistant];
    autoContinues, next := autoContinues0, Stop(NoError);
    if opts.autoContinue && opts.hasTools && autoContinues < MAX_AUTO_CONTINUES && Stalls(env, assistant) {
      autoContinues := autoContinues + 1;
      var nudge := ContinueNote();
      messages, newMessages := messages + [nudge], newMessages + [nudge];
      next := Continue;
    }
  }

  // ---------- the run ----------

  /** The loop's variables hold this progress of a run that extends base. */
  ghost predicate Holds(p: Progress, base: seq<Message>, messages: seq<Message>, newMessages: seq<Message>,
                        lastMsg: int, lastNew: int, sent: seq<seq<Message>>, streaks: Streaks, autoContinues: nat) {
    && p.added == newMessages && messages == base + newMessages
    && p.sent == sent && p.streaks == streaks && p.nudges == autoContinues
    && lastNew == (if p.turns == [] then -1 else p.turns[|p.turns| - 1]) < |newMessages|
    && lastMsg == (if p.turns == [] then -1 else |base| + lastNew)
  }

  lemma StampBoth(base: seq<Message>, added: seq<Message>, i: nat)
    requires i < |added|
    ensures (base + added)[|base| + i := Stamp((base + added)[|base| + i])] == base + added[i := Stamp(added[i])]
  {
  }

  /** One pass of the loop. */
  method TakeTurn(env: Environment, opts: Options, guard: GuardState, turn: nat, messages0: seq<Message>,
                  newMessages0: seq<Message>, lastMsg0: int, lastNew0: int, sent0: seq<seq<Message>>, autoContinues0: nat,
                  ghost base: seq<Message>, ghost p: Progress)
    returns (messages: seq<Message>, newMessages: seq<Message>, lastMsg: int, lastNew: int,
             sent: seq<seq<Message>>, autoContinues: nat, next: Next)
    requires Holds(p, base, messages0, newMessages0, lastMsg0, lastNew0, sent0, guard.State(), autoContinues0)
    requires guard.policy == opts.guardrails.WithDefaults() && guard.key == env.key
    modifies guard
    ensures var (q, goesOn) := OneTurn(env, opts, base, turn, p);
            && next == goesOn
            && Holds(q, base, messages, newMessages, lastMsg, lastNew, sent, guard.State(), autoContinues)
    ensures next.Stop? ==> !next.err.MaxTurnsExceeded?
  {
    messages, newMessages, lastMsg, lastNew := messages0, newMessages0, lastMsg0, lastNew0;
    sent, autoContinues := sent0, autoContinues0;
    if env.cancelled(turn, TurnStart) { next := Stop(Canceled); return; }
    var r, attempts := AssistantTurn(env, opts, turn, messages);
    sent := sent + attempts;
    if r.Bad? { next := Stop(r.error); return; }
    lastMsg, lastNew := |messages|, |newMessages|;
    var calls := CollectToolCalls(r.value);
    if |calls| > 0 {
      ghost var more := AnswerOf(env, opts, turn, r.value, guard.State()).1;
      Assoc(base, newMessages, more);
      messages, newMessages, next := AnswerTurn(env, opts, guard, turn, r.value, calls, messages, newMessages);
    } else {
      ghost var more := QuietOf(env, opts, r.value, autoContinues).1;
      Assoc(base, newMessages, more);
      messages, newMessages, autoContinues, next :=
        QuietTurn(env, opts, r.value, autoContinues, messages, newMessages);
    }
  }

  /** The last turn of a run that is out of turns is marked. */
  method MarkExhausted(messages0: seq<Message>, newMessages0: seq<Message>, lastMsg: int, lastNew: int,
                       ghost sent: seq<seq<Message>>, ghost streaks: Streaks, ghost autoContinues: nat,
                       ghost base: seq<Message>, ghost p: Progress, ghost n: int)
    returns (messages: seq<Message>, newMessages: seq<Message>)
    requires Holds(p, base, messages0, newMessages0, lastMsg, lastNew, sent, streaks, autoContinues)
    ensures newMessages == NewMessages(p, MaxTurnsExceeded(n)) && messages == base + newMessages
  {
    messages, newMessages := messages0, newMessages0;
    if lastMsg >= 0 {
      StampBoth(base, newMessages, lastNew);
      messages := messages[lastMsg := Stamp(messages[lastMsg])];
    }
    if lastNew >= 0 {
      newMessages := newMessages[lastNew := Stamp(newMessages[lastNew])];
    }
  }

  lemma NotYetStarted(base: seq<Message>)
    ensures Holds(Unstarted(), base, base, [], -1, -1, [], Fresh(), 0)
  {
    WholeAndNothing(base);
  }

  /** The turns of a run, from the repaired transcript on. */
  method RunTurns(env: Environment, opts: Options, maxTurns: nat, base: seq<Message>)
    returns (all: seq<Message>, newMessages: seq<Message>, err: RunError, sent: seq<seq<Message>>)
    ensures var (p, end) := Turns(env, opts, base, maxTurns, 0, Unstarted());
            err == end && newMessages == NewMessages(p, end) && all == base + newMessages && sent == p.sent
  {
    var messages := base;
    newMessages, sent := [], [];
    var lastMsg, lastNew, autoContinues := -1, -1, 0;
    var guard := new GuardState(opts.guardrails, env.key);
    NotYetStarted(base);
    ghost var p := Unstarted();
    for turn := 0 to maxTurns
      invariant Holds(p, base, messages, newMessages, lastMsg, lastNew, sent, guard.State(), autoContinues)
      invariant guard.policy == opts.guardrails.WithDefaults() && guard.key == env.key
      invariant Turns(env, opts, base, maxTurns, turn, p) == Turns(env, opts, base, maxTurns, 0, Unstarted())
    {
      ghost var q := OneTurn(env, opts, base, turn, p).0;
      var next;
      messages, newMessages, lastMsg, lastNew, sent, autoContinues, next :=
        TakeTurn(env, opts, guard, turn, messages, newMessages, lastMsg, lastNew, sent, autoContinues, base, p);
      p := q;
      if next.Stop? {
        return messages, newMessages, next.err, sent;
      }
    }
    messages, newMessages :=
      MarkExhausted(messages, newMessages, lastMsg, lastNew, sent, guard.State(), autoContinues, base, p, maxTurns);
    return messages, newMessages, MaxTurnsExceeded(maxTurns), sent;
  }

  /** Run: the input is hardened, and the turns extend the hardened transcript. */
  method Run(env: Environment, opts: Options, input: seq<Message>)
    returns (all: seq<Message>, newMessages: seq<Message>, err: RunError, sent: seq<seq<Message>>)
    ensures var base := Harden.Hardened(input, opts.model);
            var (p, end) := Turns(env, opts, base, TurnLimit(opts), 0, Unstarted());
            err == end && newMessages == NewMessages(p, end) && all == base + newMessages && sent == p.sent
  {
    var maxTurns := if opts.maxTurns <= 0 then DEFAULT_MAX_TURNS else opts.maxTurns;
    var messages := Harden.HardenHistory(input, opts.model);
    all, newMessages, err, sent := RunTurns(env, opts, maxTurns, messages);
  }
}
