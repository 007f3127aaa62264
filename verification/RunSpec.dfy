/** What the agent loop computes (loop/run.go, loop/retry.go), as functions. The provider, the
    tools, cancellation and the error classes are arbitrary functions, so every run of the loop
    is covered. */
module RunSpec {
  import opened Sequences
  import opened Transcript
  import opened Guardrails

  const DEFAULT_MAX_TURNS := 32
  const MAX_AUTO_CONTINUES := 2
  const DEFAULT_MAX_RETRIES := 3
  const STOP_MAX_TURNS := "max_turns"

  datatype Outcome<+T> = Good(value: T) | Bad(error: RunError)

  datatype RunError =
    | NoError
    | Canceled
    | ProviderError(text: string)
    | ContextOverflow(text: string)
    | ToolError(text: string)
    | RepeatedToolCalls
    | TooManyMistakes
    | MaxTurnsExceeded(turns: int)

  datatype ProviderOutcome = Turn(message: Message) | Failed(error: string)

  datatype ErrorClass = Transient | Overflow | Permanent

  datatype ToolOutcome =
    | Done(content: seq<Part>, isError: bool, metadata: map<string, MetaValue>)
    | Fatal(error: string)

  /** Where the loop looks at the context. */
  datatype Moment = TurnStart | Attempt(n: nat) | Backoff(n: nat) | TurnEnd | BeforeCall(k: nat) | AfterCalls

  datatype Environment = Environment(
    provider: (nat, nat, seq<Message>) -> ProviderOutcome, // turn, attempt, transcript
    classify: string -> ErrorClass,
    cancelled: (nat, Moment) -> bool,
    execute: (nat, nat, ToolCall) -> ToolOutcome, // turn, position in the turn, call
    narrates: Message -> bool,
    key: Key)

  datatype Options = Options(
    model: string, maxTurns: int, parallel: bool, autoContinue: bool, hasTools: bool,
    guardrails: Policy, retryDisabled: bool, maxRetries: int)

  function ToolResultMessage(call: ToolCall, out: ToolOutcome): Message
    requires out.Done?
  {
    Message(Tool, out.content, call.id, call.name, out.isError, "", "", out.metadata)
  }

  /** A result message carries the outcome of its call. */
  ghost predicate Reports(result: Message, call: ToolCall, out: ToolOutcome) {
    && out.Done? && result.role.Tool? && result.toolCallId == call.id && result.toolName == call.name
    && result.content == out.content && result.isError == out.isError && result.metadata == out.metadata
    && result.model == "" && result.stopReason == ""
  }

  /** One result per call, in call order, each with its own outcome. */
  ghost predicate ReportsAll(env: Environment, turn: nat, calls: seq<ToolCall>, results: seq<Message>) {
    && |results| == |calls|
    && forall k: nat | k < |calls| :: Reports(results[k], calls[k], env.execute(turn, k, calls[k]))
  }

  function UserNote(text: string, mark: string, value: MetaValue): Message {
    Message(User, [Text(text, "")], "", "", false, "", "", map[mark := value])
  }

  /** stallIntent: narrated text, no call. */
  predicate Stalls(env: Environment, m: Message) {
    && Calls(m) == []
    && (exists k | 0 <= k < |m.content| :: m.content[k].Text? && !Blank(m.content[k].text))
    && env.narrates(m)
  }

  // ---------- one provider turn ----------

  function RetryLimit(opts: Options): nat { if opts.maxRetries <= 0 then DEFAULT_MAX_RETRIES else opts.maxRetries }

  /** The reply after this many failed attempts, all made with the same transcript, and the
      number of attempts in the end. */
  function ReplyAfter(env: Environment, opts: Options, turn: nat, ms: seq<Message>, attempt: nat): (Outcome<Message>, nat)
    decreases RetryLimit(opts) - attempt
  {
    var made := attempt + 1;
    match env.provider(turn, attempt, ms)
    case Turn(m) => (Good(m), made)
    case Failed(error) =>
      if opts.retryDisabled || env.cancelled(turn, Attempt(attempt)) then (Bad(ProviderError(error)), made)
      else
        match env.classify(error)
        case Overflow => (Bad(ContextOverflow(error)), made)
        case Permanent => (Bad(ProviderError(error)), made)
        case Transient =>
          if attempt >= RetryLimit(opts) then (Bad(ProviderError(error)), made)
          else if env.cancelled(turn, Backoff(attempt)) then (Bad(Canceled), made)
          else ReplyAfter(env, opts, turn, ms, made)
  }

  // ---------- the tools of one turn ----------

  /** Where sequential execution stops early, from call k on. */
  function SequentialStop(env: Environment, turn: nat, calls: seq<ToolCall>, k: nat): (e: Option<RunError>)
    ensures e.None? ==> forall j: nat | k <= j < |calls| ::
              !env.cancelled(turn, BeforeCall(j)) && env.execute(turn, j, calls[j]).Done?
    ensures e.Some? ==> e.value.Canceled? || e.value.ToolError?
    decreases |calls| - k
  {
    if k >= |calls| then None
    else if env.cancelled(turn, BeforeCall(k)) then Some(Canceled)
    else
      match env.execute(turn, k, calls[k])
      case Fatal(error) => Some(ToolError(error))
      case Done(_, _, _) => SequentialStop(env, turn, calls, k + 1)
  }

  /** The first fatal outcome, from call k on. */
  function FirstFatal(env: Environment, turn: nat, calls: seq<ToolCall>, k: nat): (e: Option<RunError>)
    ensures e.None? <==> forall j: nat | k <= j < |calls| :: env.execute(turn, j, calls[j]).Done?
    ensures e.Some? ==> e.value.ToolError?
    decreases |calls| - k
  {
    if k >= |calls| then None
    else
      match env.execute(turn, k, calls[k])
      case Fatal(error) => Some(ToolError(error))
      case Done(_, _, _) => FirstFatal(env, turn, calls, k + 1)
  }

  function Results(env: Environment, turn: nat, calls: seq<ToolCall>): (r: seq<Message>)
    requires forall j: nat | j < |calls| :: env.execute(turn, j, calls[j]).Done?
    ensures |r| == |calls|
  {
    seq(|calls|, k requires 0 <= k < |calls| => ToolResultMessage(calls[k], env.execute(turn, k, calls[k])))
  }

  function Executed(env: Environment, turn: nat, parallel: bool, calls: seq<ToolCall>): Outcome<seq<Message>> {
    var early := SequentialStop(env, turn, calls, 0);
    if !parallel && early.Some? then Bad(early.value)
    else if env.cancelled(turn, AfterCalls) then Bad(Canceled)
    else
      match FirstFatal(env, turn, calls, 0)
      case Some(e) => Bad(e)
      case None => Good(Results(env, turn, calls))
  }

  /** Once cancelled, a turn stays cancelled. */
  ghost predicate CancelLasts(env: Environment, turn: nat, calls: seq<ToolCall>) {
    forall k: nat | k < |calls| && env.cancelled(turn, BeforeCall(k)) :: env.cancelled(turn, AfterCalls)
  }

  lemma {:induction false} StopIsFatal(env: Environment, turn: nat, calls: seq<ToolCall>, k: nat)
    requires CancelLasts(env, turn, calls) && k <= |calls|
    ensures SequentialStop(env, turn, calls, k).Some? && !env.cancelled(turn, AfterCalls) ==>
              SequentialStop(env, turn, calls, k) == FirstFatal(env, turn, calls, k)
    ensures SequentialStop(env, turn, calls, k) == Some(Canceled) ==> env.cancelled(turn, AfterCalls)
    decreases |calls| - k
  {
    if k < |calls| {
      StopIsFatal(env, turn, calls, k + 1);
    }
  }

  /** Call k fails for good, and nothing before it ends the turn: the calls before it are done
      and no cancellation has been seen up to it. */
  ghost predicate FailsFirst(env: Environment, turn: nat, calls: seq<ToolCall>, from: nat, k: nat) {
    && from <= k < |calls| && env.execute(turn, k, calls[k]).Fatal?
    && (forall j: nat | from <= j <= k :: !env.cancelled(turn, BeforeCall(j)))
    && (forall j: nat | from <= j < k :: env.execute(turn, j, calls[j]).Done?)
  }

  lemma {:induction false} StopsOnFailure(env: Environment, turn: nat, calls: seq<ToolCall>, from: nat)
    requires from <= |calls|
    ensures var stop := SequentialStop(env, turn, calls, from);
            stop.Some? && stop.value.ToolError? <==> exists k: nat :: FailsFirst(env, turn, calls, from, k)
    decreases |calls| - from
  {
    if from < |calls| && !env.cancelled(turn, BeforeCall(from)) {
      if env.execute(turn, from, calls[from]).Fatal? {
        assert FailsFirst(env, turn, calls, from, from);
      } else {
        var next := from + 1;
        StopsOnFailure(env, turn, calls, next);
        if k: nat :| FailsFirst(env, turn, calls, next, k) {
          assert FailsFirst(env, turn, calls, from, k);
        }
        if k: nat :| FailsFirst(env, turn, calls, from, k) {
          assert FailsFirst(env, turn, calls, next, k);
        }
      }
    }
  }

  /** Parallel and sequential execution answer alike, except when the turn is cancelled after
      some call has failed for good with nothing before it to end the turn: parallel reports
      the cancellation then, sequential the failure. */
  lemma ModesAgree(env: Environment, turn: nat, calls: seq<ToolCall>)
    requires CancelLasts(env, turn, calls)
    ensures Executed(env, turn, true, calls) == Executed(env, turn, false, calls)
       <==> !(env.cancelled(turn, AfterCalls) && exists k: nat :: FailsFirst(env, turn, calls, 0, k))
  {
    StopIsFatal(env, turn, calls, 0);
    StopsOnFailure(env, turn, calls, 0);
  }

  // ---------- one turn ----------

  datatype Next = Continue | Stop(err: RunError)

  function Judgement(env: Environment, opts: Options, streaks: Streaks, round: Round): (Verdict, Streaks) {
    var policy := opts.guardrails.WithDefaults();
    if policy.disabled then (Pass, streaks) else Step(policy, env.key, streaks, round)
  }

  function KindName(kind: Kind): string { if kind == Repeat then "repeat" else "mistakes" }

  function GuardNote(kind: Kind): Message {
    UserNote(KindName(kind), "glue/guardrail", Str(KindName(kind)))
  }

  function ContinueNote(): Message { UserNote("Please continue.", "glue/auto-continue", Flag(true)) }

  function HaltError(kind: Kind): RunError { if kind == Repeat then RepeatedToolCalls else TooManyMistakes }

  /** What a turn m with calls adds, and whether the run goes on. */
  function AnswerOf(env: Environment, opts: Options, turn: nat, m: Message, streaks: Streaks): (Next, seq<Message>, Streaks) {
    if env.cancelled(turn, TurnEnd) then (Stop(Canceled), [m], streaks)
    else
      match Executed(env, turn, opts.parallel, Calls(m))
      case Bad(e) => (Stop(e), [m], streaks)
      case Good(results) =>
        var (verdict, after) := Judgement(env, opts, streaks, Round(Calls(m), results));
        match verdict
        case Pass => (Continue, [m] + results, after)
        case Nudge(kind, _) => (Continue, [m] + results + [GuardNote(kind)], after)
        case Halt(kind, _) => (Stop(HaltError(kind)), [m] + results, after)
  }

  predicate AutoContinues(env: Environment, opts: Options, m: Message, autoContinues: nat) {
    opts.autoContinue && opts.hasTools && autoContinues < MAX_AUTO_CONTINUES && Stalls(env, m)
  }

  /** What a turn m without calls adds, and whether the run goes on. */
  function QuietOf(env: Environment, opts: Options, m: Message, autoContinues: nat): (Next, seq<Message>) {
    if AutoContinues(env, opts, m, autoContinues) then (Continue, [m, ContinueNote()]) else (Stop(NoError), [m])
  }

  // ---------- all turns ----------

  /** How far a run has come: the messages it added, where the provider's turns sit among them,
      the transcripts handed to the provider, the guard's streaks, and the nudges spent. */
  datatype Progress = Progress(
    added: seq<Message>,
    turns: seq<nat>,
    sent: seq<seq<Message>>,
    streaks: Streaks,
    nudges: nat)

  function Unstarted(): Progress { Progress([], [], [], Fresh(), 0) }

  function Copies<T>(x: T, n: nat): (r: seq<T>)
    ensures |r| == n
  {
    seq(n, i requires 0 <= i < n => x)
  }

  /** One pass of the loop. */
  function OneTurn(env: Environment, opts: Options, base: seq<Message>, turn: nat, p: Progress): (Progress, Next) {
    if env.cancelled(turn, TurnStart) then (p, Stop(Canceled))
    else
      var (reply, attempts) := ReplyAfter(env, opts, turn, base + p.added, 0);
      var asked := p.(sent := p.sent + Copies(base + p.added, attempts));
      match reply
      case Bad(e) => (asked, Stop(e))
      case Good(m) => Delivered(env, opts, turn, asked.(turns := p.turns + [|p.added|]), m)
  }

  /** What follows when the provider has delivered turn m. */
  function Delivered(env: Environment, opts: Options, turn: nat, p: Progress, m: Message): (Progress, Next) {
    if Calls(m) != [] then
      var (next, more, after) := AnswerOf(env, opts, turn, m, p.streaks);
      (p.(added := p.added + more, streaks := after), next)
    else
      var (next, more) := QuietOf(env, opts, m, p.nudges);
      (p.(added := p.added + more, nudges := if next.Continue? then p.nudges + 1 else p.nudges), next)
  }

  /** The rest of a run: how far it comes, and how it ends. */
  function Turns(env: Environment, opts: Options, base: seq<Message>, maxTurns: nat, turn: nat, p: Progress): (Progress, RunError)
    decreases maxTurns - turn
  {
    if turn >= maxTurns then (p, MaxTurnsExceeded(maxTurns))
    else
      var (q, next) := OneTurn(env, opts, base, turn, p);
      match next
      case Stop(e) => (q, e)
      case Continue => Turns(env, opts, base, maxTurns, turn + 1, q)
  }

  function TurnLimit(opts: Options): nat { if opts.maxTurns <= 0 then DEFAULT_MAX_TURNS else opts.maxTurns }

  function Stamp(m: Message): Message { m.(stopReason := STOP_MAX_TURNS) }

  /** The new messages of a run: when it is out of turns, its last turn says so. */
  function NewMessages(p: Progress, err: RunError): seq<Message> {
    if err.MaxTurnsExceeded? && p.turns != [] && p.turns[|p.turns| - 1] < |p.added|
    then p.added[p.turns[|p.turns| - 1] := Stamp(p.added[p.turns[|p.turns| - 1]])]
    else p.added
  }
}
