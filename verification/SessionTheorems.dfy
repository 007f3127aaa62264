/** What a session keeps over its whole life: any sequence of prompts, however their runs end, of
    compactions and of restarts (session.go, agent.go, loop/run.go, loop/harden.go, compactor.go). */
module SessionTheorems {
  import opened Sequences
  import opened Transcript
  import opened Pairing
  import opened RunSpec
  import RunTheorems
  import opened Sessions
  import Compactor
  import Harden
  import Interrupted
  import Stores

  datatype Action =
    | Ask(p: Prompt)
    | Shrink(s: Compactor.Settings, summary: Option<string>, saves: bool)
    | Restart

  /** What a life so far has led to: the transcript in memory and the one in the store, everything
      that was ever added to either, and the runs made. */
  datatype Life = Life(
    messages: seq<Message>, stored: seq<Message>, said: seq<Message>, saved: seq<Message>, runs: seq<Progress>)

  ghost function Done(a: Agent, life: Life, action: Action): Life {
    match action
    case Ask(p) =>
      var o := Prompted(a, life.messages, p);
      var said := life.said + o.added;
      Life(o.Messages(), o.Saved(life.stored, p.saves), said, if o.runs != [] && p.saves then said else life.saved,
           life.runs + o.runs)
    case Shrink(s, summary, saves) =>
      var out := Shrunk(a, s, life.messages, summary);
      if out.Some? && saves then life.(stored := out.value, saved := life.said) else life
    case Restart => life.(messages := Stores.Loaded(life.stored, a.layout), said := life.saved)
  }

  /** A session that starts out with some stored transcript, after these actions. */
  ghost function After(a: Agent, stored: seq<Message>, actions: seq<Action>): Life
    decreases |actions|
  {
    if actions == [] then Life(Stores.Loaded(stored, a.layout), stored, stored, stored, [])
    else Done(a, After(a, stored, actions[..|actions| - 1]), actions[|actions| - 1])
  }

  // ---------- pairing ----------

  lemma {:induction false} ClosedIsLoose(ms: seq<Message>)
    requires InBlocks(ms)
    ensures Loose(ms)
    decreases |ms|
  {
    if ms != [] {
      ClosedIsLoose(if ms[0].role.Assistant? then ms[1..][Harden.RunLength(ms[1..])..] else ms[1..]);
    }
  }

  /** What a run adds is well formed: at most its last turn is unanswered. */
  lemma RunShapeIsLoose(added: seq<Message>)
    requires RunTheorems.RunShape(added)
    ensures Loose(added)
  {
    if ExactBlocks(added) {
      ExactBlocksAreBlocks(added);
      ClosedIsLoose(added);
    } else {
      var n := |added| - 1;
      ExactBlocksAreBlocks(added[..n]);
      ClosedIsLoose(added[..n]);
      assert added[n..][1..] == [];
      assert Loose(added[n..]);
      BlocksConcat(added[..n], added[n..], true);
      assert added == added[..n] + added[n..];
    }
  }

  lemma CompactionKeepsLoose(s: Compactor.Settings, ms: seq<Message>, summary: Option<string>, pathOf: Compactor.PathOf)
    requires Loose(ms)
    ensures var r := Compactor.CompactOf(s, ms, summary, pathOf); r.Ok? ==> Loose(r.messages)
  {
    var r, cut := Compactor.CompactOf(s, ms, summary, pathOf), Compactor.CutFor(s, ms);
    Compactor.CompactAnswers(s, ms, summary, pathOf);
    if r.Ok? && r.messages != ms {
      var text := Compactor.TextFor(ms[..Compactor.SafeCutOf(ms, cut)], summary.value, pathOf);
      Compactor.CompactionKeeps(ms, r.messages, cut, text, pathOf);
    }
  }

  lemma CompactedKeepsLoose(a: Agent, ms: seq<Message>, summary: Option<string>)
    requires Loose(ms)
    ensures Compacted(a, ms, summary).Ok? ==> Loose(Compacted(a, ms, summary).messages)
  {
    if a.compactor.Some? {
      CompactionKeepsLoose(a.compactor.value, ms, summary, a.pathOf);
    }
  }

  lemma ReducedKeepsLoose(a: Agent, ms: seq<Message>, err: RunError, summary: Option<string>)
    requires Loose(ms)
    ensures Reduced(a, ms, err, summary).Some? ==> Loose(Reduced(a, ms, err, summary).value)
  {
    if a.compactor.Some? {
      CompactionKeepsLoose(a.compactor.value, ms, summary, a.pathOf);
    }
  }

  lemma AskedIsLoose(p: Prompt, base: seq<Message>)
    ensures Loose(Asked(p, base))
  {
    RunTheorems.NotesClose(Asked(p, base));
    ExactBlocksAreBlocks(Asked(p, base));
    ClosedIsLoose(Asked(p, base));
  }

  /** A run that sent what is fit and adds what is well formed. */
  ghost predicate FineRun(run: Progress, err: RunError) {
    Loose(NewMessages(run, err)) && RunTheorems.AllSendable(run.sent)
  }

  lemma AssistedIsFine(env: Environment, opts: Options, history: seq<Message>)
    requires RunTheorems.Assisted(RunOf(env, opts, history).0)
    ensures FineRun(RunOf(env, opts, history).0, RunOf(env, opts, history).1)
  {
    var (run, err) := RunOf(env, opts, history);
    RunTheorems.RunEnds(env, opts, Harden.Hardened(history, opts.model));
    RunTheorems.RunSends(env, opts, history);
    RunShapeIsLoose(NewMessages(run, err));
  }

  /** What holds of every outcome of a prompt to a well-formed session. */
  ghost predicate Orderly(o: Aftermath) {
    && Loose(o.base) && Loose(o.added)
    && forall run | run in o.runs :: RunTheorems.AllSendable(run.sent)
  }

  lemma FineOnce(base: seq<Message>, asked: seq<Message>, run: Progress, err: RunError)
    requires Loose(base) && Loose(asked) && FineRun(run, err)
    ensures Orderly(Aftermath(base, asked + NewMessages(run, err), [run]))
  {
    BlocksConcat(asked, NewMessages(run, err), true);
  }

  lemma FineTwice(base: seq<Message>, asked: seq<Message>, first: Progress, err: RunError, second: Progress, err2: RunError)
    requires Loose(base) && Loose(asked) && FineRun(first, err) && FineRun(second, err2)
    ensures Orderly(Aftermath(base, asked + NewMessages(second, err2), [first, second]))
  {
    BlocksConcat(asked, NewMessages(second, err2), true);
  }

  lemma ReplyOrderly(a: Agent, base: seq<Message>, asked: seq<Message>, p: Prompt)
    requires Loose(base) && Loose(asked)
    requires forall run | run in Replied(a, base, asked, p).runs :: RunTheorems.Assisted(run)
    ensures Orderly(Replied(a, base, asked, p))
  {
    var runs := Replied(a, base, asked, p).runs;
    var (first, err) := RunOf(p.env, p.opts, base + asked);
    assert runs[0] in runs;
    AssistedIsFine(p.env, p.opts, base + asked);
    match Reduced(a, base, err, p.retrySummary)
    case None => FineOnce(base, asked, first, err);
    case Some(less) =>
      var (second, err2) := RunOf(p.retryEnv, p.opts, less + asked);
      assert runs[1] in runs;
      ReducedKeepsLoose(a, base, err, p.retrySummary);
      AssistedIsFine(p.retryEnv, p.opts, less + asked);
      FineTwice(less, asked, first, err, second, err2);
  }

  lemma PromptOrderly(a: Agent, ms: seq<Message>, p: Prompt)
    requires Loose(ms) && forall run | run in Prompted(a, ms, p).runs :: RunTheorems.Assisted(run)
    ensures Orderly(Prompted(a, ms, p))
  {
    CompactedKeepsLoose(a, ms, p.summary);
    match Compacted(a, ms, p.summary)
    case Failed(_) =>
    case Ok(base) =>
      AskedIsLoose(p, base);
      ReplyOrderly(a, base, Asked(p, base), p);
  }

  // ---------- the ledger ----------

  /** Two transcripts name the same files in the same order, whatever follows them. */
  ghost predicate SameLedger(x: seq<Message>, y: seq<Message>, pathOf: Compactor.PathOf) {
    forall touch, later | touch != Compactor.Neither ::
      Compactor.Ledger(x + later, touch, pathOf) == Compactor.Ledger(y + later, touch, pathOf)
  }

  lemma SameLedgerTrans(x: seq<Message>, y: seq<Message>, z: seq<Message>, pathOf: Compactor.PathOf)
    requires SameLedger(x, y, pathOf) && SameLedger(y, z, pathOf)
    ensures SameLedger(x, z, pathOf)
  {
  }

  lemma SameLedgerMore(x: seq<Message>, y: seq<Message>, more: seq<Message>, pathOf: Compactor.PathOf)
    requires SameLedger(x, y, pathOf)
    ensures SameLedger(x + more, y + more, pathOf)
  {
    forall touch, later | touch != Compactor.Neither
      ensures Compactor.Ledger((x + more) + later, touch, pathOf) == Compactor.Ledger((y + more) + later, touch, pathOf)
    {
      Assoc(x, more, later);
      Assoc(y, more, later);
    }
  }

  lemma MarkerLedger(ms: seq<Message>, split: nat, text: string, pathOf: Compactor.PathOf)
    requires split <= |ms|
    ensures SameLedger([Compactor.Marker(ms[..split], text, pathOf)] + ms[split..], ms, pathOf)
  {
    var marker := Compactor.Marker(ms[..split], text, pathOf);
    assert ms == ms[..split] + ms[split..];
    forall touch, later | touch != Compactor.Neither
      ensures Compactor.Ledger([marker] + ms[split..] + later, touch, pathOf) == Compactor.Ledger(ms + later, touch, pathOf)
    {
      Assoc([marker], ms[split..], later);
      Assoc(ms[..split], ms[split..], later);
      Compactor.LedgerSurvives(ms[..split], ms[split..] + later, text, touch, pathOf);
    }
  }

  lemma CompactionKeepsLedger(s: Compactor.Settings, ms: seq<Message>, summary: Option<string>, pathOf: Compactor.PathOf)
    ensures var r := Compactor.CompactOf(s, ms, summary, pathOf); r.Ok? ==> SameLedger(r.messages, ms, pathOf)
  {
    var r, cut := Compactor.CompactOf(s, ms, summary, pathOf), Compactor.CutFor(s, ms);
    Compactor.CompactAnswers(s, ms, summary, pathOf);
    if r.Ok? && r.messages != ms {
      var split := Compactor.SafeCutOf(ms, cut);
      MarkerLedger(ms, split, Compactor.TextFor(ms[..split], summary.value, pathOf), pathOf);
    }
  }

  lemma PromptKeepsLedger(a: Agent, ms: seq<Message>, p: Prompt)
    ensures SameLedger(Prompted(a, ms, p).base, ms, a.pathOf)
  {
    if a.compactor.Some? {
      CompactionKeepsLedger(a.compactor.value, ms, p.summary, a.pathOf);
      var compacted := Compacted(a, ms, p.summary);
      if compacted.Ok? {
        CompactionKeepsLedger(a.compactor.value, compacted.messages, p.retrySummary, a.pathOf);
      }
    }
  }

  // ---------- whole lives ----------

  lemma LoadingKeeps(ms: seq<Message>, layout: Stores.Layout, pathOf: Compactor.PathOf)
    requires Loose(ms) && Stores.KeepsPaths(layout, pathOf)
    ensures Loose(Stores.Loaded(ms, layout)) && SameLedger(Stores.Loaded(ms, layout), ms, pathOf)
  {
    Stores.LoadingKeepsBlocks(ms, layout, true);
    forall touch, later | touch != Compactor.Neither
      ensures Compactor.Ledger(Stores.Loaded(ms, layout) + later, touch, pathOf) == Compactor.Ledger(ms + later, touch, pathOf)
    {
      Stores.LedgerSurvivesLoading(ms, later, layout, touch, pathOf);
    }
  }

  /** The transcripts in memory and in the store are well formed, every transcript sent paired
      calls with results and had no empty turn, and no touched file is forgotten. */
  ghost predicate Kept(life: Life, pathOf: Compactor.PathOf) {
    && Loose(life.messages) && Loose(life.stored)
    && (forall run | run in life.runs :: RunTheorems.AllSendable(run.sent))
    && SameLedger(life.messages, life.said, pathOf) && SameLedger(life.stored, life.saved, pathOf)
  }

  lemma AskKeeps(a: Agent, life: Life, p: Prompt)
    requires Kept(life, a.pathOf)
    requires forall run | run in Done(a, life, Ask(p)).runs :: RunTheorems.Assisted(run)
    ensures Kept(Done(a, life, Ask(p)), a.pathOf)
  {
    var o := Prompted(a, life.messages, p);
    assert forall run | run in o.runs :: run in life.runs + o.runs;
    PromptOrderly(a, life.messages, p);
    BlocksConcat(o.base, o.added, true);
    PromptKeepsLedger(a, life.messages, p);
    SameLedgerTrans(o.base, life.messages, life.said, a.pathOf);
    SameLedgerMore(o.base, life.said, o.added, a.pathOf);
  }

  lemma ShrinkKeeps(a: Agent, life: Life, s: Compactor.Settings, summary: Option<string>, saves: bool)
    requires Kept(life, a.pathOf)
    ensures Kept(Done(a, life, Shrink(s, summary, saves)), a.pathOf)
  {
    CompactionKeepsLoose(s, life.messages, summary, a.pathOf);
    CompactionKeepsLedger(s, life.messages, summary, a.pathOf);
    var r := Compactor.CompactOf(s, life.messages, summary, a.pathOf);
    if r.Ok? {
      SameLedgerTrans(r.messages, life.messages, life.said, a.pathOf);
    }
  }

  lemma RestartKeeps(a: Agent, life: Life)
    requires Kept(life, a.pathOf) && Stores.KeepsPaths(a.layout, a.pathOf)
    ensures Kept(Done(a, life, Restart), a.pathOf)
  {
    LoadingKeeps(life.stored, a.layout, a.pathOf);
    SameLedgerTrans(Stores.Loaded(life.stored, a.layout), life.stored, life.saved, a.pathOf);
  }

  lemma ActionKeeps(a: Agent, life: Life, action: Action)
    requires Kept(life, a.pathOf) && Stores.KeepsPaths(a.layout, a.pathOf)
    requires forall run | run in Done(a, life, action).runs :: RunTheorems.Assisted(run)
    ensures Kept(Done(a, life, action), a.pathOf)
  {
    match action
    case Ask(p) => AskKeeps(a, life, p);
    case Shrink(s, summary, saves) => ShrinkKeeps(a, life, s, summary, saves);
    case Restart => RestartKeeps(a, life);
  }

  lemma RunsGrow(a: Agent, life: Life, action: Action)
    ensures life.runs <= Done(a, life, action).runs
  {
  }

  /** Whatever a session lives through - prompts, runs that end in any way, retries after an
      overflow, compactions, saving, failing to save, and restarts - its transcripts in memory and
      in the store stay well formed, everything it ever sends to the provider for a run pairs calls
      with results and has no empty turn, and its ledgers are those of everything ever said, in
      memory and as far as it was saved. Only turns that are no assistant turns, if a provider
      delivers such, can change that. */
  lemma {:induction false} SessionKeeps(a: Agent, stored: seq<Message>, actions: seq<Action>)
    requires Loose(stored) && Stores.KeepsPaths(a.layout, a.pathOf)
    requires forall run | run in After(a, stored, actions).runs :: RunTheorems.Assisted(run)
    ensures Kept(After(a, stored, actions), a.pathOf)
    decreases |actions|
  {
    if actions == [] {
      LoadingKeeps(stored, a.layout, a.pathOf);
    } else {
      var before, last := After(a, stored, actions[..|actions| - 1]), actions[|actions| - 1];
      RunsGrow(a, before, last);
      SessionKeeps(a, stored, actions[..|actions| - 1]);
      ActionKeeps(a, before, last);
    }
  }

  /** So at any time the session can be resumed: hardening restores closed blocks for any model,
      exactly when no unanswered call has its ID on a later result. */
  lemma AlwaysResumable(a: Agent, stored: seq<Message>, actions: seq<Action>, activeModel: string)
    requires Loose(stored) && Stores.KeepsPaths(a.layout, a.pathOf)
    requires forall run | run in After(a, stored, actions).runs :: RunTheorems.Assisted(run)
    ensures var ms := After(a, stored, actions).messages;
            InBlocks(Harden.Hardened(ms, activeModel)) <==> Interrupted.Unshadowed(ms)
  {
    SessionKeeps(a, stored, actions);
    Interrupted.ResumesInBlocksIff(After(a, stored, actions).messages, activeModel);
  }

  // ---------- compaction on request ----------

  /** A compaction on request reaches the session with the next restart. A prompt before that
      works on the transcript in memory, and once it is saved it leaves no trace of the compaction. */
  lemma ShrinkLost(a: Agent, life: Life, s: Compactor.Settings, summary: Option<string>, p: Prompt)
    requires Shrunk(a, s, life.messages, summary).Some?
    ensures var shrunk := Done(a, life, Shrink(s, summary, true));
            var next := Done(a, shrunk, Ask(p));
            && Done(a, shrunk, Restart).messages == Stores.Loaded(Shrunk(a, s, life.messages, summary).value, a.layout)
            && next.messages == Done(a, life, Ask(p)).messages && next.runs == Done(a, life, Ask(p)).runs
            && if Prompted(a, life.messages, p).runs != [] && p.saves then next == Done(a, life, Ask(p))
               else next.stored == shrunk.stored
  {
  }
}
