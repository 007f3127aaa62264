/** What happens in a run of the agent loop, turn by turn and field by field (loop/run.go,
    loop/retry.go, loop/guardrails.go, loop/autocontinue.go): the run told from what the provider,
    the tools and cancellation do, without the functions that compute it. */
module RunStory {
  import opened Sequences
  import opened Transcript
  import opened Guardrails
  import opened RunSpec
  import opened RunTheorems

  // ---------- one lap ----------

  /** The attempts of one turn: all but the last failed in a way that is tried again. */
  ghost predicate Asks(env: Environment, opts: Options, turn: nat, ms: seq<Message>, attempts: nat) {
    && 1 <= attempts <= (if opts.retryDisabled then 1 else if opts.maxRetries <= 0 then 4 else opts.maxRetries + 1)
    && forall a: nat | a < attempts - 1 ::
         && env.provider(turn, a, ms).Failed? && env.classify(env.provider(turn, a, ms).error).Transient?
         && !env.cancelled(turn, Attempt(a)) && !env.cancelled(turn, Backoff(a))
  }

  /** Why the last attempt brought no turn and was not followed by another. */
  ghost predicate GivesUp(env: Environment, opts: Options, turn: nat, ms: seq<Message>, last: nat, err: RunError) {
    && env.provider(turn, last, ms).Failed?
    && var error := env.provider(turn, last, ms).error;
       if opts.retryDisabled || env.cancelled(turn, Attempt(last)) then err == ProviderError(error)
       else
         match env.classify(error)
         case Overflow => err == ContextOverflow(error)
         case Permanent => err == ProviderError(error)
         case Transient =>
           if last >= (if opts.maxRetries <= 0 then 3 else opts.maxRetries) then err == ProviderError(error)
           else env.cancelled(turn, Backoff(last)) && err == Canceled
  }

  /** A message of the harness in the user's role, marked in its metadata. */
  ghost predicate Note(notes: seq<Message>, mark: string, value: MetaValue) {
    |notes| == 1 && notes[0].role.User? && notes[0].metadata == map[mark := value]
  }

  /** The turn has text to show and tells of work to come. */
  ghost predicate Narrates(env: Environment, m: Message) {
    env.narrates(m) && exists k :: 0 <= k < |m.content| && m.content[k].Text? && !Blank(m.content[k].text)
  }

  /** A turn that asks for nothing ends the run, unless it stalled and nudges are left. */
  ghost predicate Quiet(env: Environment, opts: Options, p: Progress, q: Progress, next: Next, s: Lap)
    requires s.turn.Some?
  {
    && s.results == [] && q.streaks == p.streaks
    && if opts.autoContinue && opts.hasTools && p.nudges < 2 && Narrates(env, s.turn.value)
       then next.Continue? && q.nudges == p.nudges + 1 && Note(s.notes, "glue/auto-continue", Flag(true))
       else next == Stop(NoError) && q.nudges == p.nudges && s.notes == []
  }

  /** Nothing kept the calls of a turn from being answered. */
  ghost predicate AllAnswered(env: Environment, opts: Options, turn: nat, calls: seq<ToolCall>) {
    && !env.cancelled(turn, TurnEnd) && !env.cancelled(turn, AfterCalls)
    && (forall k: nat | k < |calls| :: env.execute(turn, k, calls[k]).Done?)
    && (!opts.parallel ==> forall k: nat | k < |calls| :: !env.cancelled(turn, BeforeCall(k)))
  }

  /** The reason given when they were not. */
  ghost predicate Unanswered(env: Environment, opts: Options, turn: nat, calls: seq<ToolCall>, err: RunError) {
    match err
    case Canceled =>
      || env.cancelled(turn, TurnEnd) || env.cancelled(turn, AfterCalls)
      || (!opts.parallel && exists k: nat :: k < |calls| && env.cancelled(turn, BeforeCall(k)))
    case ToolError(text) => exists k: nat :: k < |calls| && env.execute(turn, k, calls[k]) == Fatal(text)
    case _ => false
  }

  function Name(kind: Kind): string { match kind case Repeat => "repeat" case Mistakes => "mistakes" }

  /** What becomes of a verdict. */
  ghost predicate Becomes(verdict: Verdict, next: Next, notes: seq<Message>) {
    match verdict
    case Pass => next.Continue? && notes == []
    case Nudge(kind, _) => next.Continue? && Note(notes, "glue/guardrail", Str(Name(kind)))
    case Halt(Repeat, _) => next == Stop(RepeatedToolCalls) && notes == []
    case Halt(Mistakes, _) => next == Stop(TooManyMistakes) && notes == []
  }

  /** What the guard makes of an answered round. */
  ghost predicate Guarded(env: Environment, opts: Options, before: Streaks, round: Round, after: Streaks,
                          next: Next, notes: seq<Message>)
  {
    var policy := opts.guardrails.WithDefaults();
    if policy.disabled then next.Continue? && notes == [] && after == before
    else
      var (verdict, streaks) := Step(policy, env.key, before, round);
      after == streaks && Becomes(verdict, next, notes)
  }

  /** The calls of a turn are answered, and the round is judged; or the run ends without. */
  ghost predicate Busy(env: Environment, opts: Options, turn: nat, p: Progress, q: Progress, next: Next, s: Lap)
    requires s.turn.Some?
  {
    var calls := Calls(s.turn.value);
    && q.nudges == p.nudges
    && if AllAnswered(env, opts, turn, calls)
       then ReportsAll(env, turn, calls, s.results)
            && Guarded(env, opts, p.streaks, Round(calls, s.results), q.streaks, next, s.notes)
       else s.results == [] && s.notes == [] && q.streaks == p.streaks
            && next.Stop? && Unanswered(env, opts, turn, calls, next.err)
  }

  /** One lap from p to q. */
  ghost predicate Told(env: Environment, opts: Options, base: seq<Message>, turn: nat, p: Progress, q: Progress,
                       next: Next, s: Lap)
  {
    var ms := base + p.added;
    && q.added == p.added + s.Block()
    && q.turns == p.turns + (if s.turn.Some? then [|p.added|] else [])
    && q.sent == p.sent + Copies(ms, s.attempts)
    && (s.turn.None? ==> s.results == [] && s.notes == [])
    && if env.cancelled(turn, TurnStart)
       then s.attempts == 0 && s.turn.None? && next == Stop(Canceled) && q.streaks == p.streaks && q.nudges == p.nudges
       else
         && Asks(env, opts, turn, ms, s.attempts)
         && match s.turn
            case None =>
              && q.streaks == p.streaks && q.nudges == p.nudges
              && next.Stop? && GivesUp(env, opts, turn, ms, s.attempts - 1, next.err)
            case Some(m) =>
              && env.provider(turn, s.attempts - 1, ms) == Turn(m)
              && if Calls(m) == [] then Quiet(env, opts, p, q, next, s) else Busy(env, opts, turn, p, q, next, s)
  }

  lemma {:induction false} ReplyTold(env: Environment, opts: Options, turn: nat, ms: seq<Message>, attempt: nat)
    requires Asks(env, opts, turn, ms, attempt + 1)
    ensures var (reply, attempts) := ReplyAfter(env, opts, turn, ms, attempt);
            && Asks(env, opts, turn, ms, attempts)
            && match reply
               case Good(m) => env.provider(turn, attempts - 1, ms) == Turn(m)
               case Bad(e) => GivesUp(env, opts, turn, ms, attempts - 1, e)
    decreases RetryLimit(opts) - attempt
  {
    var reply := env.provider(turn, attempt, ms);
    if reply.Failed? && !opts.retryDisabled && !env.cancelled(turn, Attempt(attempt))
      && env.classify(reply.error).Transient? && attempt < RetryLimit(opts) && !env.cancelled(turn, Backoff(attempt))
    {
      ReplyTold(env, opts, turn, ms, attempt + 1);
    }
  }

  lemma {:induction false} StopTold(env: Environment, turn: nat, calls: seq<ToolCall>, k: nat)
    requires k <= |calls|
    ensures var stop := SequentialStop(env, turn, calls, k);
            && (stop.None? <==> forall j: nat | k <= j < |calls| ::
                                  env.execute(turn, j, calls[j]).Done? && !env.cancelled(turn, BeforeCall(j)))
            && (stop == Some(Canceled) ==> exists j: nat :: j < |calls| && env.cancelled(turn, BeforeCall(j)))
            && (stop.Some? && stop.value.ToolError? ==>
                  exists j: nat :: j < |calls| && env.execute(turn, j, calls[j]) == Fatal(stop.value.text))
    decreases |calls| - k
  {
    if k < |calls| && !env.cancelled(turn, BeforeCall(k)) && env.execute(turn, k, calls[k]).Done? {
      StopTold(env, turn, calls, k + 1);
    }
  }

  lemma {:induction false} FatalTold(env: Environment, turn: nat, calls: seq<ToolCall>, k: nat)
    requires k <= |calls| && FirstFatal(env, turn, calls, k).Some?
    ensures exists j: nat :: j < |calls| && env.execute(turn, j, calls[j]) == Fatal(FirstFatal(env, turn, calls, k).value.text)
    decreases |calls| - k
  {
    if env.execute(turn, k, calls[k]).Done? {
      FatalTold(env, turn, calls, k + 1);
    }
  }

  /** The tools of one turn, if nothing cancelled it before. */
  lemma ExecutedTold(env: Environment, opts: Options, turn: nat, calls: seq<ToolCall>)
    requires !env.cancelled(turn, TurnEnd)
    ensures match Executed(env, turn, opts.parallel, calls)
            case Good(results) => AllAnswered(env, opts, turn, calls) && ReportsAll(env, turn, calls, results)
            case Bad(e) => !AllAnswered(env, opts, turn, calls) && Unanswered(env, opts, turn, calls, e)
  {
    StopTold(env, turn, calls, 0);
    if FirstFatal(env, turn, calls, 0).Some? {
      FatalTold(env, turn, calls, 0);
    }
  }

  lemma JudgedTold(env: Environment, opts: Options, turn: nat, m: Message, streaks: Streaks, results: seq<Message>)
    returns (notes: seq<Message>)
    requires !env.cancelled(turn, TurnEnd) && Executed(env, turn, opts.parallel, Calls(m)) == Good(results)
    ensures var (next, more, after) := AnswerOf(env, opts, turn, m, streaks);
            && more == [m] + results + notes
            && Guarded(env, opts, streaks, Round(Calls(m), results), after, next, notes)
  {
    var verdict := Judgement(env, opts, streaks, Round(Calls(m), results)).0;
    notes := if verdict.Nudge? then [GuardNote(verdict.kind)] else [];
    WholeAndNothing([m] + results);
  }

  lemma BusyTold(env: Environment, opts: Options, turn: nat, p: Progress, m: Message, attempts: nat) returns (s: Lap)
    requires Calls(m) != []
    ensures s.attempts == attempts && s.turn == Some(m)
    ensures var (q, next) := Delivered(env, opts, turn, p, m);
            && q.added == p.added + s.Block() && q.turns == p.turns && q.sent == p.sent
            && Busy(env, opts, turn, p, q, next, s)
  {
    var results, notes := [], [];
    if !env.cancelled(turn, TurnEnd) {
      ExecutedTold(env, opts, turn, Calls(m));
      var executed := Executed(env, turn, opts.parallel, Calls(m));
      if executed.Good? {
        results := executed.value;
        notes := JudgedTold(env, opts, turn, m, p.streaks, results);
      }
    }
    WholeAndNothing([m]);
    s := Lap(attempts, Some(m), results, notes);
  }

  lemma QuietTold(env: Environment, opts: Options, turn: nat, p: Progress, m: Message, attempts: nat) returns (s: Lap)
    requires Calls(m) == []
    ensures s.attempts == attempts && s.turn == Some(m)
    ensures var (q, next) := Delivered(env, opts, turn, p, m);
            && q.added == p.added + s.Block() && q.turns == p.turns && q.sent == p.sent
            && Quiet(env, opts, p, q, next, s)
  {
    s := Lap(attempts, Some(m), [], if AutoContinues(env, opts, m, p.nudges) then [ContinueNote()] else []);
  }

  lemma OneTurnTold(env: Environment, opts: Options, base: seq<Message>, turn: nat, p: Progress) returns (s: Lap)
    ensures Told(env, opts, base, turn, p, OneTurn(env, opts, base, turn, p).0, OneTurn(env, opts, base, turn, p).1, s)
  {
    WholeAndNothing(p.sent);
    WholeAndNothing(p.added);
    WholeAndNothing(p.turns);
    s := Lap(0, None, [], []);
    if !env.cancelled(turn, TurnStart) {
      var ms := base + p.added;
      ReplyTold(env, opts, turn, ms, 0);
      var (reply, attempts) := ReplyAfter(env, opts, turn, ms, 0);
      s := Lap(attempts, None, [], []);
      if reply.Good? {
        var asked := p.(sent := p.sent + Copies(ms, attempts)).(turns := p.turns + [|p.added|]);
        if Calls(reply.value) == [] {
          s := QuietTold(env, opts, turn, asked, reply.value, attempts);
        } else {
          s := BusyTold(env, opts, turn, asked, reply.value, attempts);
        }
      }
    }
  }
}
