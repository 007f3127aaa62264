/** One prompt of a session (session.go) told from its text, its context block, the runs it makes
    and the compactions around them. */
module SessionStory {
  import opened Sequences
  import opened Transcript
  import opened RunSpec
  import opened Sessions
  import CallIdNames
  import Compactor
  import Harden
  import HardenTheorems
  import RunTheorems

  /** A user message with this text, and with the mark of an environment block or without. */
  ghost predicate Says(m: Message, text: string, block: bool) {
    && m.role.User? && m.content == [Text(text, "")]
    && m.metadata == (if block then map["glue/env:context" := Flag(true)] else map[])
    && m.toolCallId == m.toolName == m.model == m.stopReason == "" && !m.isError
  }

  ghost predicate Marked(m: Message) {
    "glue/env:context" in m.metadata && m.metadata["glue/env:context"] == Flag(true)
  }

  /** The latest environment block has this text; without one, the text is empty. */
  ghost predicate LatestBlock(ms: seq<Message>, text: string) {
    || (text == "" && forall m | m in ms :: !Marked(m))
    || exists i :: LatestAt(ms, i) && text == Texts(ms[i].content)
  }

  ghost predicate LatestAt(ms: seq<Message>, i: int) {
    0 <= i < |ms| && Marked(ms[i]) && forall j | i < j < |ms| :: !Marked(ms[j])
  }

  lemma {:induction false} BlockIsLatest(ms: seq<Message>)
    ensures LatestBlock(ms, LastContext(ms))
  {
    if ms != [] {
      var n := |ms| - 1;
      if IsContext(ms[n]) {
        assert LatestAt(ms, n);
      } else {
        BlockIsLatest(ms[..n]);
        if i :| LatestAt(ms[..n], i) && LastContext(ms[..n]) == Texts(ms[..n][i].content) {
          assert LatestAt(ms, i);
        }
      }
    }
  }

  lemma LatestUnique(ms: seq<Message>, a: string, b: string)
    requires LatestBlock(ms, a) && LatestBlock(ms, b)
    ensures a == b
  {
    if i, j :| LatestAt(ms, i) && LatestAt(ms, j) {
      assert i == j;
    }
  }

  /** What a prompt adds in front of its run: its text, and before that the environment block, if
      there is one and the transcript does not end in it already. */
  ghost predicate AskedTold(p: Prompt, base: seq<Message>, asked: seq<Message>) {
    if p.context == "" || LatestBlock(base, p.context) then |asked| == 1 && Says(asked[0], p.text, false)
    else |asked| == 2 && Says(asked[0], p.context, true) && Says(asked[1], p.text, false)
  }

  lemma AskedIsTold(p: Prompt, base: seq<Message>)
    ensures AskedTold(p, base, Asked(p, base))
  {
    BlockIsLatest(base);
    if LatestBlock(base, p.context) {
      LatestUnique(base, p.context, LastContext(base));
    }
  }

  // ---------- the compactions and the runs ----------

  /** The transcript is longer than the agent lets it grow. */
  predicate Due(a: Agent, ms: seq<Message>) {
    a.compactor.Some? && a.threshold > 0 && |ms| > a.threshold
  }

  ghost function Attempt(a: Agent, ms: seq<Message>, summary: Option<string>): Compactor.Compaction
    requires a.compactor.Some?
  {
    Compactor.CompactOf(a.compactor.value, ms, summary, a.pathOf)
  }

  /** The transcript a prompt starts from: compacted when due and when that changes its length. */
  ghost predicate StartsFrom(a: Agent, ms: seq<Message>, summary: Option<string>, base: seq<Message>) {
    if Due(a, ms) then
      Attempt(a, ms, summary).Ok?
      && base == (if |Attempt(a, ms, summary).messages| == |ms| then ms else Attempt(a, ms, summary).messages)
    else base == ms
  }

  /** After an overflow the prompt is tried once more, on a compaction that is shorter and not empty. */
  ghost predicate TriesAgain(a: Agent, base: seq<Message>, err: RunError, summary: Option<string>, less: seq<Message>) {
    && err.ContextOverflow? && a.compactor.Some?
    && Attempt(a, base, summary) == Compactor.Ok(less) && 0 < |less| < |base|
  }

  /** A run over a transcript and what was asked. */
  ghost predicate Ran(env: Environment, opts: Options, history: seq<Message>, run: Progress, err: RunError) {
    (run, err) == Turns(env, opts, Harden.Hardened(history, opts.model), TurnLimit(opts), 0, Unstarted())
  }

  /** The first run is kept, unless it overflows and can be tried again; then the second is. */
  ghost predicate Kept(a: Agent, base: seq<Message>, asked: seq<Message>, p: Prompt, first: Progress, err: RunError, o: Aftermath) {
    || ((forall less :: !TriesAgain(a, base, err, p.retrySummary, less))
        && o == Aftermath(base, asked + NewMessages(first, err), [first]))
    || exists less, second, err2 ::
         && TriesAgain(a, base, err, p.retrySummary, less) && Ran(p.retryEnv, p.opts, less + asked, second, err2)
         && o == Aftermath(less, asked + NewMessages(second, err2), [first, second])
  }

  /** What a prompt comes to when its transcript can be prepared. */
  ghost predicate Answered(a: Agent, base: seq<Message>, asked: seq<Message>, p: Prompt, o: Aftermath) {
    exists first, err :: Ran(p.env, p.opts, base + asked, first, err) && Kept(a, base, asked, p, first, err, o)
  }

  lemma RetryIsKept(a: Agent, base: seq<Message>, asked: seq<Message>, p: Prompt, first: Progress, err: RunError)
    requires Reduced(a, base, err, p.retrySummary).Some?
    ensures var less := Reduced(a, base, err, p.retrySummary).value;
            var (second, err2) := RunOf(p.retryEnv, p.opts, less + asked);
            Kept(a, base, asked, p, first, err, Aftermath(less, asked + NewMessages(second, err2), [first, second]))
  {
    var less := Reduced(a, base, err, p.retrySummary).value;
    var (second, err2) := RunOf(p.retryEnv, p.opts, less + asked);
    assert TriesAgain(a, base, err, p.retrySummary, less) && Ran(p.retryEnv, p.opts, less + asked, second, err2);
  }

  lemma ReplyIsAnswered(a: Agent, base: seq<Message>, asked: seq<Message>, p: Prompt)
    ensures Answered(a, base, asked, p, Replied(a, base, asked, p))
  {
    var (first, err) := RunOf(p.env, p.opts, base + asked);
    if Reduced(a, base, err, p.retrySummary).Some? {
      RetryIsKept(a, base, asked, p, first, err);
    }
    assert Ran(p.env, p.opts, base + asked, first, err)
        && Kept(a, base, asked, p, first, err, Replied(a, base, asked, p));
  }

  /** A prompt does nothing when its transcript is due for a compaction that fails. Otherwise it
      adds its own text, and its context block if that is new, and then what its run, or after an
      overflow the run that is tried once more on a shorter transcript, adds. */
  lemma PromptTold(a: Agent, ms: seq<Message>, p: Prompt) returns (base: seq<Message>, asked: seq<Message>)
    ensures var o := Prompted(a, ms, p);
            if Due(a, ms) && Attempt(a, ms, p.summary).Failed? then o == Aftermath(ms, [], [])
            else StartsFrom(a, ms, p.summary, base) && AskedTold(p, base, asked) && Answered(a, base, asked, p, o)
  {
    var compacted := Compacted(a, ms, p.summary);
    base := if compacted.Ok? then compacted.messages else ms;
    asked := Asked(p, base);
    AskedIsTold(p, base);
    ReplyIsAnswered(a, base, asked, p);
  }

  // ---------- the prompt reaches the provider ----------

  lemma {:induction false} PromptsHold(ms: seq<Message>, m: Message)
    ensures m in HardenTheorems.Prompts(ms) <==> m in ms && !m.role.Assistant? && !m.role.Tool?
  {
    if ms != [] {
      PromptsHold(ms[1..], m);
    }
  }

  /** Hardening keeps a user's text to the letter. */
  lemma SaidIsKept(ms: seq<Message>, m: Message, text: string, block: bool, activeModel: string)
    requires m in ms && Says(m, text, block)
    ensures m in Harden.Hardened(ms, activeModel)
  {
    var i :| 0 <= i < |ms| && ms[i] == m;
    var renamed := CallIdNames.Renamed(ms);
    assert CallIdNames.RenameMessage(CallIdNames.Final(ms), m) == m;
    assert renamed[i] == m;
    PromptsHold(renamed, m);
    PromptsHold(Harden.Hardened(ms, activeModel), m);
    HardenTheorems.HardenedKeepsPrompts(ms, activeModel);
  }

  lemma RunHears(env: Environment, opts: Options, base: seq<Message>, asked: seq<Message>, m: Message, text: string)
    requires m in asked && Says(m, text, false)
    ensures forall t | t in RunOf(env, opts, base + asked).0.sent :: m in t
  {
    SaidIsKept(base + asked, m, text, false, opts.model);
    RunTheorems.RunSends(env, opts, base + asked);
  }

  lemma ReplyHears(a: Agent, base: seq<Message>, asked: seq<Message>, p: Prompt, m: Message, text: string)
    requires m in asked && Says(m, text, false)
    ensures forall run, t | run in Replied(a, base, asked, p).runs && t in run.sent :: m in t
  {
    RunHears(p.env, p.opts, base, asked, m, text);
    var err := RunOf(p.env, p.opts, base + asked).1;
    if Reduced(a, base, err, p.retrySummary).Some? {
      RunHears(p.retryEnv, p.opts, Reduced(a, base, err, p.retrySummary).value, asked, m, text);
    }
  }

  /** Every transcript that a prompt sends contains its text as a message of the user. */
  lemma PromptIsSent(a: Agent, ms: seq<Message>, p: Prompt, run: Progress, t: seq<Message>)
    requires run in Prompted(a, ms, p).runs && t in run.sent
    ensures exists m :: m in t && Says(m, p.text, false)
  {
    var compacted := Compacted(a, ms, p.summary);
    if compacted.Ok? {
      var base := compacted.messages;
      var asked := Asked(p, base);
      AskedIsTold(p, base);
      ReplyHears(a, base, asked, p, asked[|asked| - 1], p.text);
    }
  }
}
