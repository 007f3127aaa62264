/** Whole runs of the agent loop (loop/run.go), from the first lap to the last: every lap as
    RunStory tells it, what the results behind each turn report, and what the guard said. */
module WholeRun {
  import opened Transcript
  import opened Guardrails
  import opened RunSpec
  import opened RunTheorems
  import opened RunStory

  /** Where a run stood before and after each lap, and what each lap did. */
  datatype Story = Story(stands: seq<Progress>, laps: seq<Lap>)

  /** What follows lap k of a run that ended with err. */
  function NextAfter(story: Story, err: RunError, k: nat): Next {
    if k + 1 < |story.laps| || err.MaxTurnsExceeded? then Continue else Stop(err)
  }

  /** What may happen in a lap: turn, progress before and after, what follows, and the lap. */
  type Tale = (nat, Progress, Progress, Next, Lap) -> bool

  /** What happens in the laps of a run. */
  ghost function TaleOf(env: Environment, opts: Options, base: seq<Message>): Tale {
    (turn: nat, p, q, next, s) => Told(env, opts, base, turn, p, q, next, s)
  }

  ghost predicate LapTold(tale: Tale, story: Story, next: Next, k: nat)
    requires k < |story.laps| < |story.stands|
  {
    tale(k, story.stands[k], story.stands[k + 1], next, story.laps[k])
  }

  /** The story of a run from nothing to p: every lap but the last goes on, the last one stops it,
      and it is out of turns exactly when none did within the limit. */
  ghost predicate Tells(tale: Tale, opts: Options, p: Progress, err: RunError, story: Story) {
    var limit := if opts.maxTurns <= 0 then 32 else opts.maxTurns;
    && |story.stands| == |story.laps| + 1 && 1 <= |story.laps| <= limit
    && story.stands[0] == Progress([], [], [], Streaks("", 0, false, 0, false), 0)
    && story.stands[|story.laps|] == p
    && (err.MaxTurnsExceeded? ==> |story.laps| == limit && err.turns == limit)
    && forall k: nat | k < |story.laps| :: LapTold(tale, story, NextAfter(story, err, k), k)
  }

  /** The story so far of a run that stands at p. */
  ghost predicate SoFar(tale: Tale, turn: nat, p: Progress, story: Story) {
    && |story.stands| == turn + 1 && |story.laps| == turn
    && story.stands[0] == Unstarted() && story.stands[turn] == p
    && forall k: nat | k < turn :: LapTold(tale, story, Continue, k)
  }

  lemma OneMore(tale: Tale, opts: Options, turn: nat, p: Progress, story: Story, q: Progress, next: Next, s: Lap)
    returns (more: Story)
    requires turn < TurnLimit(opts) && SoFar(tale, turn, p, story)
    requires tale(turn, p, q, next, s) && (next.Stop? ==> !next.err.MaxTurnsExceeded?)
    ensures next.Continue? ==> SoFar(tale, turn + 1, q, more)
    ensures next.Stop? ==> Tells(tale, opts, q, next.err, more)
  {
    more := Story(story.stands + [q], story.laps + [s]);
    forall k: nat | k < turn ensures LapTold(tale, more, Continue, k) {
      assert LapTold(tale, story, Continue, k);
    }
    assert LapTold(tale, more, next, turn);
  }

  lemma OutOfTurns(tale: Tale, opts: Options, p: Progress, story: Story)
    requires SoFar(tale, TurnLimit(opts), p, story)
    ensures Tells(tale, opts, p, MaxTurnsExceeded(TurnLimit(opts)), story)
  {
  }

  /** One pass of the loop does what the tale allows. */
  ghost predicate Follows(tale: Tale, turn: nat, p: Progress, q: Progress, next: Next) {
    (exists s :: tale(turn, p, q, next, s)) && (next.Stop? ==> !next.err.MaxTurnsExceeded?)
  }

  lemma PassFollows(env: Environment, opts: Options, base: seq<Message>, turn: nat, p: Progress)
    ensures var (q, next) := OneTurn(env, opts, base, turn, p); Follows(TaleOf(env, opts, base), turn, p, q, next)
  {
    var (q, next) := OneTurn(env, opts, base, turn, p);
    var s := OneTurnTold(env, opts, base, turn, p);
    assert TaleOf(env, opts, base)(turn, p, q, next, s);
  }

  lemma {:induction false} Onward(env: Environment, opts: Options, base: seq<Message>, tale: Tale, turn: nat, p: Progress,
                                  sofar: Story) returns (story: Story)
    requires forall t: nat, r :: Follows(tale, t, r, OneTurn(env, opts, base, t, r).0, OneTurn(env, opts, base, t, r).1)
    requires turn <= TurnLimit(opts) && SoFar(tale, turn, p, sofar)
    ensures var (q, err) := Turns(env, opts, base, TurnLimit(opts), turn, p); Tells(tale, opts, q, err, story)
    decreases TurnLimit(opts) - turn
  {
    if turn >= TurnLimit(opts) {
      story := sofar;
      OutOfTurns(tale, opts, p, story);
    } else {
      var (q, next) := OneTurn(env, opts, base, turn, p);
      assert Follows(tale, turn, p, q, next);
      var s :| tale(turn, p, q, next, s);
      story := OneMore(tale, opts, turn, p, sofar, q, next, s);
      if next.Continue? {
        story := Onward(env, opts, base, tale, turn + 1, q, story);
      }
    }
  }

  /** Every run has its story. */
  lemma StoryOf(env: Environment, opts: Options, base: seq<Message>) returns (story: Story)
    ensures var (p, err) := Turns(env, opts, base, TurnLimit(opts), 0, Unstarted());
            Tells(TaleOf(env, opts, base), opts, p, err, story)
  {
    forall t: nat, r {
      PassFollows(env, opts, base, t, r);
    }
    story := Onward(env, opts, base, TaleOf(env, opts, base), 0, Unstarted(), Story([Unstarted()], []));
  }

  /** The story of a run that comes to p and ends with err. */
  ghost predicate IsStory(env: Environment, opts: Options, base: seq<Message>, p: Progress, err: RunError, story: Story) {
    Tells(TaleOf(env, opts, base), opts, p, err, story)
  }

  /** A fact about one lap, whatever was before it. */
  lemma LapOf(env: Environment, opts: Options, base: seq<Message>, p: Progress, err: RunError, story: Story, k: nat)
    requires IsStory(env, opts, base, p, err, story) && k < |story.laps|
    ensures Told(env, opts, base, k, story.stands[k], story.stands[k + 1], NextAfter(story, err, k), story.laps[k])
  {
    assert LapTold(TaleOf(env, opts, base), story, NextAfter(story, err, k), k);
  }

  // ---------- what stands behind each turn ----------

  /** The t-th turn of a run sits at i among what it added: it is what the provider answered when
      sent all before it, and behind it stands nothing at all, or one report for each of its calls. */
  ghost predicate TurnTold(env: Environment, base: seq<Message>, added: seq<Message>, i: nat, t: nat) {
    && i < |added|
    && (exists attempt: nat :: env.provider(t, attempt, base + added[..i]) == Turn(added[i]))
    && var calls, behind := Calls(added[i]), added[i + 1..];
       behind == [] || (|calls| <= |behind| && ReportsAll(env, t, calls, behind[..|calls|]))
  }

  lemma LapTurnTold(env: Environment, opts: Options, base: seq<Message>, turn: nat, p: Progress, q: Progress,
                    next: Next, s: Lap)
    requires Told(env, opts, base, turn, p, q, next, s) && s.turn.Some?
    ensures next.Stop? || ReportsAll(env, turn, Calls(s.turn.value), s.results)
    ensures ReportsAll(env, turn, Calls(s.turn.value), s.results) || (s.results == [] && s.notes == [])
    ensures env.provider(turn, s.attempts - 1, base + p.added) == Turn(s.turn.value)
    ensures s.attempts >= 1 && q.added == p.added + ([s.turn.value] + s.results + s.notes)
  {
  }

  lemma TurnStays(env: Environment, base: seq<Message>, turn: nat, before: seq<Message>, s: Lap, added: seq<Message>)
    requires s.turn.Some? && before + ([s.turn.value] + s.results + s.notes) <= added
    requires exists attempt: nat :: env.provider(turn, attempt, base + before) == Turn(s.turn.value)
    requires || ReportsAll(env, turn, Calls(s.turn.value), s.results)
             || (s.results == [] && s.notes == [] && added == before + [s.turn.value])
    ensures TurnTold(env, base, added, |before|, turn)
  {
    var m, i := s.turn.value, |before|;
    var calls, behind := Calls(m), added[i + 1..];
    assert added[..i] == before && added[i] == m;
    assert s.results + s.notes <= behind;
    if ReportsAll(env, turn, calls, s.results) {
      assert behind[..|calls|] == s.results;
    } else {
      assert behind == [];
    }
  }

  /** A lap puts its turn behind what was added before. */
  ghost predicate Puts(story: Story, err: RunError, k: nat)
    requires k < |story.laps| < |story.stands|
  {
    var p, q, turn := story.stands[k], story.stands[k + 1], story.laps[k].turn;
    && q.turns == p.turns + (if turn.Some? then [|p.added|] else []) && p.added <= q.added
    && (NextAfter(story, err, k).Continue? ==> turn.Some?)
  }

  /** The t-th turn of a run at q is that of lap t. */
  ghost predicate TurnSits(story: Story, q: Progress, t: nat)
    requires t < |q.turns|
  {
    && t + 1 < |story.stands| == |story.laps| + 1 && story.laps[t].turn.Some?
    && q.turns[t] == |story.stands[t].added| && story.stands[t + 1].added <= q.added
  }

  lemma {:induction false} TurnsSit(story: Story, err: RunError, k: nat)
    requires |story.stands| == |story.laps| + 1 && story.stands[0].turns == [] && k <= |story.laps|
    requires forall j: nat | j < |story.laps| :: Puts(story, err, j)
    ensures k < |story.laps| ==> |story.stands[k].turns| == k
    ensures |story.stands[k].turns| <= k
    ensures forall t: nat | t < |story.stands[k].turns| :: TurnSits(story, story.stands[k], t)
  {
    if k > 0 {
      var p, q := story.stands[k - 1], story.stands[k];
      TurnsSit(story, err, k - 1);
      assert Puts(story, err, k - 1);
      forall t: nat | t < |q.turns| ensures TurnSits(story, q, t) {
        assert t < |p.turns| ==> TurnSits(story, p, t);
      }
    }
  }

  lemma LapPuts(env: Environment, opts: Options, base: seq<Message>, p: Progress, err: RunError, story: Story, k: nat)
    requires IsStory(env, opts, base, p, err, story) && k < |story.laps|
    ensures Puts(story, err, k)
  {
    LapOf(env, opts, base, p, err, story, k);
  }

  lemma TurnsOfStory(env: Environment, opts: Options, base: seq<Message>, p: Progress, err: RunError, story: Story)
    requires IsStory(env, opts, base, p, err, story)
    ensures forall t: nat | t < |p.turns| :: TurnSits(story, p, t)
  {
    forall k: nat | k < |story.laps| ensures Puts(story, err, k) {
      LapPuts(env, opts, base, p, err, story, k);
    }
    TurnsSit(story, err, |story.laps|);
  }

  lemma TurnOfStory(env: Environment, opts: Options, base: seq<Message>, p: Progress, err: RunError, story: Story, t: nat)
    requires IsStory(env, opts, base, p, err, story) && t < |p.turns| && TurnSits(story, p, t)
    ensures TurnTold(env, base, p.added, p.turns[t], t)
  {
    LapOf(env, opts, base, p, err, story, t);
    LapTurnTold(env, opts, base, t, story.stands[t], story.stands[t + 1], NextAfter(story, err, t), story.laps[t]);
    TurnStays(env, base, t, story.stands[t].added, story.laps[t], p.added);
  }

  /** Every turn that a run adds is the provider's, and the results behind it report, call by
      call, the content, the flag and the metadata that the tools gave. */
  lemma RunReports(env: Environment, opts: Options, base: seq<Message>)
    ensures var p := Turns(env, opts, base, TurnLimit(opts), 0, Unstarted()).0;
            forall t: nat | t < |p.turns| :: TurnTold(env, base, p.added, p.turns[t], t)
  {
    var (p, err) := Turns(env, opts, base, TurnLimit(opts), 0, Unstarted());
    var story := StoryOf(env, opts, base);
    TurnsOfStory(env, opts, base, p, err, story);
    forall t: nat | t < |p.turns| ensures TurnTold(env, base, p.added, p.turns[t], t) {
      assert TurnSits(story, p, t);
      TurnOfStory(env, opts, base, p, err, story, t);
    }
  }

  /** Nothing in what a run added is changed in the end but the stop reason of the last turn, and
      that only when the run is out of turns. */
  lemma OnlyStamped(p: Progress, err: RunError, i: nat)
    requires i < |p.added|
    ensures var out := NewMessages(p, err);
            && |out| == |p.added|
            && out[i] == if err.MaxTurnsExceeded? && p.turns != [] && i == p.turns[|p.turns| - 1]
                         then p.added[i].(stopReason := "max_turns") else p.added[i]
  {
  }

  // ---------- what the guard said ----------

  function RoundOf(s: Lap): Round
    requires s.turn.Some?
  {
    Round(Calls(s.turn.value), s.results)
  }

  /** Lap k was judged, with this verdict, on its calls and its results. */
  ghost predicate Judged(story: Story, err: RunError, round: Round, verdict: Verdict, k: nat) {
    && k < |story.laps| && story.laps[k].turn.Some? && story.laps[k].results != []
    && round == RoundOf(story.laps[k])
    && Becomes(verdict, NextAfter(story, err, k), story.laps[k].notes)
  }

  /** A lap with results is judged, and one without leaves the guard alone. */
  ghost predicate Guards(policy: Policy, key: Key, story: Story, err: RunError, k: nat)
    requires k < |story.laps| < |story.stands|
  {
    var s, before, after := story.laps[k], story.stands[k].streaks, story.stands[k + 1].streaks;
    if s.results == [] then
      after == before && NextAfter(story, err, k) != Stop(RepeatedToolCalls) && NextAfter(story, err, k) != Stop(TooManyMistakes)
    else
      && s.turn.Some? && after == Step(policy, key, before, RoundOf(s)).1
      && Judged(story, err, RoundOf(s), Step(policy, key, before, RoundOf(s)).0, k)
  }

  lemma LapGuards(env: Environment, opts: Options, base: seq<Message>, p: Progress, err: RunError, story: Story, k: nat)
    requires IsStory(env, opts, base, p, err, story) && k < |story.laps|
    requires !opts.guardrails.WithDefaults().disabled
    ensures Guards(opts.guardrails.WithDefaults(), env.key, story, err, k)
  {
    LapOf(env, opts, base, p, err, story, k);
  }

  /** The laps before upto that were judged, in order, and the trace of the guard over their rounds. */
  ghost predicate GuardTold(policy: Policy, key: Key, story: Story, err: RunError, upto: nat,
                            judged: seq<nat>, rounds: seq<Round>, ss: seq<Streaks>, vs: seq<Verdict>) {
    && upto < |story.stands| == |story.laps| + 1 && |judged| == |rounds|
    && Trace(policy, key, rounds, ss, vs) && ss[|rounds|] == story.stands[upto].streaks
    && (forall j | 0 <= j < |rounds| :: judged[j] < upto && Judged(story, err, rounds[j], vs[j], judged[j]))
    && (forall i, j | 0 <= i < j < |judged| :: judged[i] < judged[j])
    && (forall k: nat | k < upto && story.laps[k].results != [] :: k in judged)
  }

  lemma TraceMore(p: Policy, key: Key, rounds: seq<Round>, ss: seq<Streaks>, vs: seq<Verdict>,
                  round: Round, v: Verdict, t: Streaks)
    requires Trace(p, key, rounds, ss, vs) && Step(p, key, ss[|rounds|], round) == (v, t)
    ensures Trace(p, key, rounds + [round], ss + [t], vs + [v])
  {
    forall i | 0 <= i < |rounds| + 1 ensures StepAt(p, key, rounds + [round], ss + [t], vs + [v], i) {
      assert i < |rounds| ==> StepAt(p, key, rounds, ss, vs, i);
    }
  }

  lemma GuardMore(policy: Policy, key: Key, story: Story, err: RunError, k: nat,
                  judged: seq<nat>, rounds: seq<Round>, ss: seq<Streaks>, vs: seq<Verdict>, v: Verdict, t: Streaks)
    requires GuardTold(policy, key, story, err, k, judged, rounds, ss, vs)
    requires k < |story.laps| && story.laps[k].turn.Some? && Judged(story, err, RoundOf(story.laps[k]), v, k)
    requires Step(policy, key, story.stands[k].streaks, RoundOf(story.laps[k])) == (v, t)
    requires story.stands[k + 1].streaks == t
    ensures GuardTold(policy, key, story, err, k + 1, judged + [k], rounds + [RoundOf(story.laps[k])], ss + [t], vs + [v])
  {
    TraceMore(policy, key, rounds, ss, vs, RoundOf(story.laps[k]), v, t);
    assert k in judged + [k];
  }

  lemma {:induction false} GuardUpTo(policy: Policy, key: Key, story: Story, err: RunError, upto: nat)
    returns (judged: seq<nat>, rounds: seq<Round>, ss: seq<Streaks>, vs: seq<Verdict>)
    requires |story.stands| == |story.laps| + 1 && story.stands[0].streaks == Fresh() && upto <= |story.laps|
    requires forall k: nat | k < |story.laps| :: Guards(policy, key, story, err, k)
    ensures GuardTold(policy, key, story, err, upto, judged, rounds, ss, vs)
  {
    if upto == 0 {
      judged, rounds, ss, vs := [], [], [Fresh()], [];
    } else {
      var k := upto - 1;
      judged, rounds, ss, vs := GuardUpTo(policy, key, story, err, k);
      assert Guards(policy, key, story, err, k);
      var s := story.laps[k];
      if s.results != [] {
        var (v, t) := Step(policy, key, story.stands[k].streaks, RoundOf(s));
        GuardMore(policy, key, story, err, k, judged, rounds, ss, vs, v, t);
        judged, rounds, ss, vs := judged + [k], rounds + [RoundOf(s)], ss + [t], vs + [v];
      }
    }
  }

  /** In every run with the guard on, the laps with results are its rounds, and each lap goes on,
      is noted or ends the run as the guard's verdict on it says (see Guardrails.VerdictTold). */
  lemma RunGuarded(env: Environment, opts: Options, base: seq<Message>)
    returns (story: Story, judged: seq<nat>, rounds: seq<Round>, ss: seq<Streaks>, vs: seq<Verdict>)
    requires !opts.guardrails.disabled
    ensures var (p, err) := Turns(env, opts, base, TurnLimit(opts), 0, Unstarted());
            && IsStory(env, opts, base, p, err, story)
            && GuardTold(opts.guardrails.WithDefaults(), env.key, story, err, |story.laps|, judged, rounds, ss, vs)
            && (err.RepeatedToolCalls? ==> EndsWith(vs, Repeat))
            && (err.TooManyMistakes? ==> EndsWith(vs, Mistakes))
  {
    var policy := opts.guardrails.WithDefaults();
    var (p, err) := Turns(env, opts, base, TurnLimit(opts), 0, Unstarted());
    story := StoryOf(env, opts, base);
    forall k: nat | k < |story.laps| ensures Guards(policy, env.key, story, err, k) {
      LapGuards(env, opts, base, p, err, story, k);
    }
    judged, rounds, ss, vs := GuardUpTo(policy, env.key, story, err, |story.laps|);
    LastVerdict(policy, env.key, story, err, judged, rounds, ss, vs);
  }

  /** The last verdict, and no other, is a halt, of this kind. */
  ghost predicate EndsWith(vs: seq<Verdict>, kind: Kind) {
    vs != [] && vs[|vs| - 1].Halt? && vs[|vs| - 1].kind == kind && LiveUpTo(vs, |vs| - 1)
  }

  lemma LastVerdict(policy: Policy, key: Key, story: Story, err: RunError,
                    judged: seq<nat>, rounds: seq<Round>, ss: seq<Streaks>, vs: seq<Verdict>)
    requires GuardTold(policy, key, story, err, |story.laps|, judged, rounds, ss, vs) && story.laps != []
    requires Guards(policy, key, story, err, |story.laps| - 1)
    ensures err.RepeatedToolCalls? ==> EndsWith(vs, Repeat)
    ensures err.TooManyMistakes? ==> EndsWith(vs, Mistakes)
  {
    var last, n := |story.laps| - 1, |judged| - 1;
    if err.RepeatedToolCalls? || err.TooManyMistakes? {
      assert last in judged;
      var j :| 0 <= j < |judged| && judged[j] == last;
      assert j == n && Judged(story, err, rounds[n], vs[n], last);
      forall i | 0 <= i < n ensures !vs[i].Halt? {
        assert Judged(story, err, rounds[i], vs[i], judged[i]);
      }
    }
  }

  ghost predicate Noticed(story: Story, kind: Kind, k: nat) {
    k < |story.laps| && Note(story.laps[k].notes, "glue/guardrail", Str(Name(kind)))
  }

  /** How many of the last k of the first i judged laps carry a notice of this kind. */
  ghost function Notices(story: Story, judged: seq<nat>, kind: Kind, i: nat, k: int): nat
    requires k <= i <= |judged|
    decreases i
  {
    if k <= 0 then 0
    else (if Noticed(story, kind, judged[i - 1]) then 1 else 0) + Notices(story, judged, kind, i - 1, k - 1)
  }

  lemma NudgeIsNotice(verdict: Verdict, next: Next, notes: seq<Message>, kind: Kind)
    requires Becomes(verdict, next, notes)
    ensures Note(notes, "glue/guardrail", Str(Name(kind))) <==> verdict.Nudge? && verdict.kind == kind
  {
    assert Name(Repeat)[0] != Name(Mistakes)[0];
    forall k: Kind | Note(notes, "glue/guardrail", Str(Name(k))) ensures notes[0].metadata["glue/guardrail"] == Str(Name(k)) {
    }
  }

  lemma {:induction false} NudgesAreNotices(policy: Policy, key: Key, story: Story, err: RunError, kind: Kind, i: nat, k: int,
                                            judged: seq<nat>, rounds: seq<Round>, ss: seq<Streaks>, vs: seq<Verdict>)
    requires GuardTold(policy, key, story, err, |story.laps|, judged, rounds, ss, vs) && k <= i <= |judged|
    ensures Notices(story, judged, kind, i, k) == Nudges(vs, kind, i, k)
    decreases i
  {
    if k > 0 {
      NudgesAreNotices(policy, key, story, err, kind, i - 1, k - 1, judged, rounds, ss, vs);
      assert Judged(story, err, rounds[i - 1], vs[i - 1], judged[i - 1]);
      NudgeIsNotice(vs[i - 1], NextAfter(story, err, judged[i - 1]), story.laps[judged[i - 1]].notes, kind);
    }
  }

  lemma FailedIff(env: Environment, turn: nat, calls: seq<ToolCall>, results: seq<Message>)
    requires ReportsAll(env, turn, calls, results)
    ensures AllErrors(results) <==>
              calls != [] && forall k: nat | k < |calls| :: Fails(env.execute(turn, k, calls[k]))
  {
    assert forall k: nat | k < |calls| :: results[k].isError <==> Fails(env.execute(turn, k, calls[k]));
  }

  predicate Fails(out: ToolOutcome) { out.Done? && out.isError }

  /** Every call of lap k was reported to have failed. */
  ghost predicate LapFails(env: Environment, story: Story, k: nat) {
    && k < |story.laps| && story.laps[k].turn.Some?
    && var calls := Calls(story.laps[k].turn.value);
       calls != [] && forall c: nat | c < |calls| :: Fails(env.execute(k, c, calls[c]))
  }

  /** Lap k made one call, of this key. */
  ghost predicate LapRepeats(env: Environment, story: Story, id: string, k: nat) {
    && k < |story.laps| && story.laps[k].turn.Some?
    && var calls := Calls(story.laps[k].turn.value); |calls| == 1 && env.key(calls[0]) == id
  }

  lemma JudgedFails(env: Environment, opts: Options, base: seq<Message>, p: Progress, err: RunError, story: Story,
                    round: Round, verdict: Verdict, k: nat)
    requires IsStory(env, opts, base, p, err, story) && Judged(story, err, round, verdict, k)
    ensures AllErrors(round.results) <==> LapFails(env, story, k)
  {
    LapOf(env, opts, base, p, err, story, k);
    LapTurnTold(env, opts, base, k, story.stands[k], story.stands[k + 1], NextAfter(story, err, k), story.laps[k]);
    FailedIff(env, k, Calls(story.laps[k].turn.value), story.laps[k].results);
  }

  /** The laps that were judged are the laps with results, in order. */
  ghost predicate AllJudged(story: Story, judged: seq<nat>) {
    && (forall i, j | 0 <= i < j < |judged| :: judged[i] < judged[j])
    && (forall k: nat | k < |story.laps| :: story.laps[k].results != [] <==> k in judged)
  }

  lemma JudgedInOrder(policy: Policy, key: Key, story: Story, err: RunError,
                      judged: seq<nat>, rounds: seq<Round>, ss: seq<Streaks>, vs: seq<Verdict>)
    requires GuardTold(policy, key, story, err, |story.laps|, judged, rounds, ss, vs)
    ensures AllJudged(story, judged)
  {
    forall k | k in judged ensures k < |story.laps| && story.laps[k].results != [] {
      var j :| 0 <= j < |judged| && judged[j] == k;
      assert Judged(story, err, rounds[j], vs[j], judged[j]);
    }
  }

  ghost predicate AllRepeat(env: Environment, story: Story, judged: seq<nat>, limit: int, id: string) {
    limit <= |judged| && forall j | |judged| - limit <= j < |judged| :: LapRepeats(env, story, id, judged[j])
  }

  /** The last laps that were judged, up to the limit, made one and the same call, and exactly
      one of them carries the notice. */
  ghost predicate RepeatsSeen(env: Environment, story: Story, judged: seq<nat>, limit: int) {
    && AllJudged(story, judged) && limit <= |judged| && Notices(story, judged, Repeat, |judged|, limit) == 1
    && exists id :: AllRepeat(env, story, judged, limit, id)
  }

  /** In the last laps that were judged, up to the limit, every call failed, and exactly one of
      them carries the notice. */
  ghost predicate MistakesSeen(env: Environment, story: Story, judged: seq<nat>, limit: int) {
    && AllJudged(story, judged) && limit <= |judged| && Notices(story, judged, Mistakes, |judged|, limit) == 1
    && forall j | |judged| - limit <= j < |judged| :: LapFails(env, story, judged[j])
  }

  lemma HaltSawRepeats(env: Environment, policy: Policy, story: Story, err: RunError,
                       judged: seq<nat>, rounds: seq<Round>, ss: seq<Streaks>, vs: seq<Verdict>)
    requires GuardTold(policy, env.key, story, err, |story.laps|, judged, rounds, ss, vs) && EndsWith(vs, Repeat)
    requires NonEmpty(env.key) && Sane(policy) && policy.repeatNudge < policy.repeatHalt
    ensures RepeatsSeen(env, story, judged, policy.repeatHalt)
  {
    var n, limit := |judged|, policy.repeatHalt;
    RepeatHaltAnnounced(policy, env.key, rounds, ss, vs, n - 1);
    NudgesAreNotices(policy, env.key, story, err, Repeat, n, limit, judged, rounds, ss, vs);
    JudgedInOrder(policy, env.key, story, err, judged, rounds, ss, vs);
    var id := env.key(rounds[n - 1].calls[0]);
    forall j | n - limit <= j < n ensures LapRepeats(env, story, id, judged[j]) {
      assert Judged(story, err, rounds[j], vs[j], judged[j]);
    }
    assert AllRepeat(env, story, judged, limit, id);
  }

  lemma HaltSawMistakes(env: Environment, policy: Policy, story: Story, err: RunError,
                        judged: seq<nat>, rounds: seq<Round>, ss: seq<Streaks>, vs: seq<Verdict>)
    requires GuardTold(policy, env.key, story, err, |story.laps|, judged, rounds, ss, vs) && EndsWith(vs, Mistakes)
    requires Sane(policy) && MistakeRoom(policy)
    requires forall j | 0 <= j < |rounds| :: AllErrors(rounds[j].results) <==> LapFails(env, story, judged[j])
    ensures MistakesSeen(env, story, judged, policy.mistakeHalt)
  {
    var n, limit := |judged|, policy.mistakeHalt;
    MistakeHaltAnnounced(policy, env.key, rounds, ss, vs, n - 1);
    NudgesAreNotices(policy, env.key, story, err, Mistakes, n, limit, judged, rounds, ss, vs);
    JudgedInOrder(policy, env.key, story, err, judged, rounds, ss, vs);
  }

  /** A run that ends for repeated calls or for mistakes ends after that many laps of one and the
      same call, or in which every tool reported a failure; and exactly one of them told the
      model so, when the thresholds leave room for it. */
  lemma HaltsNoticed(env: Environment, opts: Options, base: seq<Message>) returns (story: Story, judged: seq<nat>)
    requires !opts.guardrails.disabled && NonEmpty(env.key)
    ensures var (p, err) := Turns(env, opts, base, TurnLimit(opts), 0, Unstarted());
            var policy := opts.guardrails.WithDefaults();
            && IsStory(env, opts, base, p, err, story)
            && (err.RepeatedToolCalls? && policy.repeatNudge < policy.repeatHalt ==>
                  RepeatsSeen(env, story, judged, policy.repeatHalt))
            && (err.TooManyMistakes? && MistakeRoom(policy) ==> MistakesSeen(env, story, judged, policy.mistakeHalt))
  {
    var policy := opts.guardrails.WithDefaults();
    var (p, err) := Turns(env, opts, base, TurnLimit(opts), 0, Unstarted());
    var rounds, ss, vs;
    story, judged, rounds, ss, vs := RunGuarded(env, opts, base);
    if err.RepeatedToolCalls? && policy.repeatNudge < policy.repeatHalt {
      HaltSawRepeats(env, policy, story, err, judged, rounds, ss, vs);
    } else if err.TooManyMistakes? && MistakeRoom(policy) {
      forall j | 0 <= j < |rounds| ensures AllErrors(rounds[j].results) <==> LapFails(env, story, judged[j]) {
        JudgedFails(env, opts, base, p, err, story, rounds[j], vs[j], judged[j]);
      }
      HaltSawMistakes(env, policy, story, err, judged, rounds, ss, vs);
    }
  }

  // ---------- nudges to go on ----------

  ghost predicate Continued(story: Story, k: nat) {
    k < |story.laps| && Note(story.laps[k].notes, "glue/auto-continue", Flag(true))
  }

  ghost function Continues(story: Story, k: nat): nat {
    if k == 0 then 0 else Continues(story, k - 1) + (if Continued(story, k - 1) then 1 else 0)
  }

  lemma LapNudges(env: Environment, opts: Options, base: seq<Message>, p: Progress, err: RunError, story: Story, k: nat)
    requires IsStory(env, opts, base, p, err, story) && k < |story.laps|
    ensures story.stands[k + 1].nudges == story.stands[k].nudges + (if Continued(story, k) then 1 else 0)
    ensures Continued(story, k) ==> story.stands[k].nudges < 2 && opts.autoContinue && story.laps[k].results == []
  {
    LapOf(env, opts, base, p, err, story, k);
    assert forall value | story.laps[k].notes != [] && story.laps[k].notes[0].metadata == map["glue/guardrail" := value] ::
             "glue/auto-continue" !in story.laps[k].notes[0].metadata;
  }

  /** A run nudges the model to go on at most twice. */
  lemma {:induction false} TwoNudges(env: Environment, opts: Options, base: seq<Message>, p: Progress, err: RunError,
                                     story: Story, k: nat)
    requires IsStory(env, opts, base, p, err, story) && k <= |story.laps|
    ensures story.stands[k].nudges == Continues(story, k) <= 2
  {
    if k > 0 {
      TwoNudges(env, opts, base, p, err, story, k - 1);
      LapNudges(env, opts, base, p, err, story, k - 1);
    }
  }
}
