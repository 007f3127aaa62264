/** What every run of the agent loop keeps (loop/run.go, loop/retry.go), whatever the provider,
    the tools and cancellation do. */
module RunTheorems {
  import opened Sequences
  import opened Transcript
  import opened Harden
  import HardenTheorems
  import opened Pairing
  import Guardrails
  import opened RunSpec

  // ---------- what a delivered turn adds ----------

  lemma StallIsMeaningful(env: Environment, m: Message)
    requires Stalls(env, m)
    ensures Meaningful(m)
  {
    var k :| 0 <= k < |m.content| && m.content[k].Text? && !Blank(m.content[k].text);
    assert PartMeaningful(m.content[k]);
  }

  lemma ResultsAnswer(env: Environment, turn: nat, calls: seq<ToolCall>)
    requires forall j: nat | j < |calls| :: env.execute(turn, j, calls[j]).Done?
    ensures Answers(calls, Results(env, turn, calls))
  {
  }

  /** One lap of the loop: the attempts made, and when they brought a turn, that turn, the
      results of its calls unless it is left unanswered, and at most a note. */
  datatype Lap = Lap(attempts: nat, turn: Option<Message>, results: seq<Message>, notes: seq<Message>)
  {
    function Block(): seq<Message> {
      if turn.Some? then [turn.value] + results + notes else []
    }
  }

  /** A turn that the run goes on from is answered in full and not empty; one that ends it is
      answered in full or not at all. */
  ghost predicate Answering(m: Message, results: seq<Message>, notes: seq<Message>, next: Next) {
    && (forall note | note in notes :: note.role.User?)
    && (Answers(Calls(m), results) || (next.Stop? && results == []))
    && (next.Continue? ==> Meaningful(m))
    && (next.Stop? ==> notes == [] && !next.err.MaxTurnsExceeded?)
    && (next == Stop(NoError) ==> Calls(m) == [] && results == [])
  }

  ghost predicate TakesLap(base: seq<Message>, p: Progress, q: Progress, next: Next, s: Lap) {
    && q.sent == p.sent + Copies(base + p.added, s.attempts)
    && q.added == p.added + s.Block()
    && q.turns == p.turns + (if s.turn.Some? then [|p.added|] else [])
    && (s.turn.None? ==> next.Stop? && !next.err.NoError? && !next.err.MaxTurnsExceeded?)
    && (s.turn.Some? ==> s.attempts >= 1 && Answering(s.turn.value, s.results, s.notes, next))
  }

  lemma AnswerParts(env: Environment, opts: Options, turn: nat, m: Message, streaks: Guardrails.Streaks)
    returns (results: seq<Message>, notes: seq<Message>)
    requires Calls(m) != []
    ensures var (next, more, _) := AnswerOf(env, opts, turn, m, streaks);
            more == [m] + results + notes && Answering(m, results, notes, next)
  {
    CallsAreMeaningful(m);
    results, notes := [], [];
    if !env.cancelled(turn, TurnEnd) && Executed(env, turn, opts.parallel, Calls(m)).Good? {
      results := Executed(env, turn, opts.parallel, Calls(m)).value;
      ResultsAnswer(env, turn, Calls(m));
      var verdict := Judgement(env, opts, streaks, Guardrails.Round(Calls(m), results)).0;
      if verdict.Nudge? {
        notes := [GuardNote(verdict.kind)];
      }
    }
    WholeAndNothing([m] + results);
    WholeAndNothing([m]);
  }

  lemma QuietParts(env: Environment, opts: Options, m: Message, nudges: nat) returns (notes: seq<Message>)
    requires Calls(m) == []
    ensures var (next, more) := QuietOf(env, opts, m, nudges);
            more == [m] + [] + notes && Answering(m, [], notes, next)
  {
    notes := [];
    if AutoContinues(env, opts, m, nudges) {
      StallIsMeaningful(env, m);
      notes := [ContinueNote()];
    }
  }

  lemma OneTurnIsLap(env: Environment, opts: Options, base: seq<Message>, turn: nat, p: Progress) returns (s: Lap)
    ensures TakesLap(base, p, OneTurn(env, opts, base, turn, p).0, OneTurn(env, opts, base, turn, p).1, s)
  {
    WholeAndNothing(p.sent);
    WholeAndNothing(p.added);
    WholeAndNothing(p.turns);
    s := Lap(0, None, [], []);
    if !env.cancelled(turn, TurnStart) {
      var (reply, attempts) := ReplyAfter(env, opts, turn, base + p.added, 0);
      NoReplyNoEnd(env, opts, turn, base + p.added, 0);
      s := Lap(attempts, None, [], []);
      if reply.Good? {
        var m := reply.value;
        var results, notes := [], [];
        if Calls(m) != [] {
          results, notes := AnswerParts(env, opts, turn, m, p.streaks);
        } else {
          notes := QuietParts(env, opts, m, p.nudges);
        }
        s := Lap(attempts, Some(m), results, notes);
      }
    }
  }

  lemma {:induction false} NoReplyNoEnd(env: Environment, opts: Options, turn: nat, ms: seq<Message>, attempt: nat)
    ensures var (reply, attempts) := ReplyAfter(env, opts, turn, ms, attempt);
            attempts > attempt && (reply.Bad? ==> !reply.error.NoError? && !reply.error.MaxTurnsExceeded?)
    decreases RetryLimit(opts) - attempt
  {
    if attempt < RetryLimit(opts) {
      NoReplyNoEnd(env, opts, turn, ms, attempt + 1);
    }
  }

  // ---------- progress ----------

  /** Turns sit inside what was added. */
  ghost predicate Placed(p: Progress) {
    forall i | i in p.turns :: i < |p.added|
  }

  ghost predicate Grows(p: Progress, q: Progress) {
    p.added <= q.added && p.turns <= q.turns && p.sent <= q.sent
  }

  lemma LapGrows(base: seq<Message>, p: Progress, q: Progress, next: Next, s: Lap)
    requires Placed(p) && TakesLap(base, p, q, next, s)
    ensures Grows(p, q) && Placed(q)
  {
  }

  lemma {:induction false} TurnsGrow(env: Environment, opts: Options, base: seq<Message>, maxTurns: nat, turn: nat, p: Progress)
    requires Placed(p)
    ensures Grows(p, Turns(env, opts, base, maxTurns, turn, p).0)
    decreases maxTurns - turn
  {
    if turn < maxTurns {
      var (q, next) := OneTurn(env, opts, base, turn, p);
      var s := OneTurnIsLap(env, opts, base, turn, p);
      LapGrows(base, p, q, next, s);
      if next.Continue? {
        TurnsGrow(env, opts, base, maxTurns, turn + 1, q);
      }
    }
  }

  // ---------- the shape of what a run adds ----------

  /** Closed blocks, and after them at most one turn whose calls were never answered. */
  ghost predicate RunShape(ms: seq<Message>) {
    || ExactBlocks(ms)
    || (&& ms != []
        && ms[|ms| - 1].role.Assistant? && Calls(ms[|ms| - 1]) != []
        && ExactBlocks(ms[..|ms| - 1]))
  }

  /** The position of the last assistant turn. */
  ghost predicate LastTurnAt(ms: seq<Message>, i: int) {
    && 0 <= i < |ms| && ms[i].role.Assistant?
    && forall j | i < j < |ms| :: !ms[j].role.Assistant?
  }

  /** The provider's turns are assistant turns. */
  ghost predicate Assisted(p: Progress) {
    forall i | i in p.turns && i < |p.added| :: p.added[i].role.Assistant?
  }

  /** Between turns: closed blocks, and the last turn is where the run thinks it is. */
  ghost predicate Steady(p: Progress) {
    && Placed(p) && ExactBlocks(p.added)
    && (p.turns != [] ==> LastTurnAt(p.added, p.turns[|p.turns| - 1]))
  }

  /** How a run ends: with closed blocks when it is out of turns or its last turn asks for
      nothing more, and otherwise at most its last turn is unanswered. */
  ghost predicate Ends(p: Progress, err: RunError) {
    && RunShape(p.added)
    && (err.MaxTurnsExceeded? ==> Steady(p) && p.turns != [])
    && (err.NoError? ==> ExactBlocks(p.added) && p.added != []
                         && p.added[|p.added| - 1].role.Assistant? && Calls(p.added[|p.added| - 1]) == [])
  }

  lemma {:induction false} NotesClose(notes: seq<Message>)
    requires forall note | note in notes :: note.role.User?
    ensures ExactBlocks(notes)
  {
    if notes != [] {
      assert notes[0] in notes && forall note | note in notes[1..] :: note in notes;
      NotesClose(notes[1..]);
    }
  }

  lemma BlockCloses(closed: seq<Message>, m: Message, results: seq<Message>, notes: seq<Message>)
    requires ExactBlocks(closed) && m.role.Assistant? && Answers(Calls(m), results)
    requires forall note | note in notes :: note.role.User?
    ensures ExactBlocks(closed + ([m] + results + notes))
  {
    OneBlock(m, results);
    NotesClose(notes);
    ExactBlocksConcat([m] + results, notes);
    ExactBlocksConcat(closed, [m] + results + notes);
  }

  lemma BlockIsLastTurn(added: seq<Message>, m: Message, results: seq<Message>, notes: seq<Message>)
    requires m.role.Assistant? && forall t | t in results + notes :: !t.role.Assistant?
    ensures LastTurnAt(added + ([m] + results + notes), |added|)
  {
    var out, others := added + ([m] + results + notes), results + notes;
    assert forall j | |added| < j < |out| :: out[j] == others[j - |added| - 1] && out[j] in others;
  }

  lemma LapSteady(base: seq<Message>, p: Progress, q: Progress, next: Next, s: Lap)
    requires TakesLap(base, p, q, next, s) && Steady(p)
    requires s.turn.Some? && s.turn.value.role.Assistant? && Answers(Calls(s.turn.value), s.results)
    ensures Steady(q) && q.turns != []
  {
    LapGrows(base, p, q, next, s);
    AnswersIds(s.turn.value, s.results);
    BlockCloses(p.added, s.turn.value, s.results, s.notes);
    BlockIsLastTurn(p.added, s.turn.value, s.results, s.notes);
  }

  lemma LapEnds(base: seq<Message>, p: Progress, q: Progress, next: Next, s: Lap)
    requires TakesLap(base, p, q, next, s) && Steady(p) && next.Stop?
    requires s.turn.Some? ==> s.turn.value.role.Assistant?
    ensures Ends(q, next.err)
  {
    if s.turn.None? {
      WholeAndNothing(p.added);
    } else if Answers(Calls(s.turn.value), s.results) {
      LapSteady(base, p, q, next, s);
      if next.err.NoError? {
        assert s.Block() == [s.turn.value];
      }
    } else {
      assert s.Block() == [s.turn.value];
      assert q.added[..|q.added| - 1] == p.added;
    }
  }

  lemma LapAssisted(base: seq<Message>, p: Progress, q: Progress, next: Next, s: Lap, r: Progress)
    requires TakesLap(base, p, q, next, s) && Grows(q, r) && Assisted(r)
    ensures s.turn.Some? ==> s.turn.value.role.Assistant?
  {
    if s.turn.Some? {
      assert q.turns[|p.turns|] == |p.added| && r.turns[|p.turns|] == |p.added|;
      assert q.added[|p.added|] == s.turn.value && r.added[|p.added|] == s.turn.value;
    }
  }

  lemma {:induction false} TurnsEnd(env: Environment, opts: Options, base: seq<Message>, maxTurns: nat, turn: nat, p: Progress)
    requires Steady(p) && turn <= maxTurns && maxTurns > 0 && (turn > 0 ==> p.turns != [])
    requires Assisted(Turns(env, opts, base, maxTurns, turn, p).0)
    ensures Ends(Turns(env, opts, base, maxTurns, turn, p).0, Turns(env, opts, base, maxTurns, turn, p).1)
    decreases maxTurns - turn
  {
    if turn < maxTurns {
      var (q, next) := OneTurn(env, opts, base, turn, p);
      var s := OneTurnIsLap(env, opts, base, turn, p);
      LapGrows(base, p, q, next, s);
      if next.Continue? {
        TurnsGrow(env, opts, base, maxTurns, turn + 1, q);
        LapAssisted(base, p, q, next, s, Turns(env, opts, base, maxTurns, turn + 1, q).0);
        LapSteady(base, p, q, next, s);
        TurnsEnd(env, opts, base, maxTurns, turn + 1, q);
      } else {
        LapAssisted(base, p, q, next, s, q);
        LapEnds(base, p, q, next, s);
      }
    }
  }

  lemma {:induction false} StampKeepsBlocks(ms: seq<Message>, i: nat)
    requires ExactBlocks(ms) && i < |ms| && ms[i].role.Assistant?
    ensures ExactBlocks(ms[i := Stamp(ms[i])])
    decreases |ms|
  {
    var out := ms[i := Stamp(ms[i])];
    if i == 0 {
      assert out[1..] == ms[1..];
    } else if ms[0].role.Assistant? {
      var n, rest := |Calls(ms[0])|, ms[1..];
      assert ms[i] == rest[i - 1] && forall j | 0 <= j < n :: rest[..n][j] == rest[j];
      assert out[1..] == rest[i - 1 := Stamp(ms[i])];
      assert out[1..][..n] == rest[..n];
      assert out[1..][n..] == rest[n..][i - 1 - n := Stamp(ms[i])];
      StampKeepsBlocks(rest[n..], i - 1 - n);
    } else {
      assert out[1..] == ms[1..][i - 1 := Stamp(ms[i])];
      StampKeepsBlocks(ms[1..], i - 1);
    }
  }

  /** When the provider's turns are assistant turns: every turn of a run is answered in full and
      in order, but perhaps the last; a natural end leaves a last turn without calls; and a run
      out of turns leaves closed blocks of which only the last turn is marked. */
  lemma RunEnds(env: Environment, opts: Options, base: seq<Message>)
    requires Assisted(Turns(env, opts, base, TurnLimit(opts), 0, Unstarted()).0)
    ensures var (p, err) := Turns(env, opts, base, TurnLimit(opts), 0, Unstarted());
            && Ends(p, err) && RunShape(NewMessages(p, err))
            && (err.NoError? || err.MaxTurnsExceeded? ==> ExactBlocks(NewMessages(p, err)))
            && (err.MaxTurnsExceeded? ==>
                  exists i :: LastTurnAt(p.added, i) && NewMessages(p, err) == p.added[i := Stamp(p.added[i])])
            && (!err.MaxTurnsExceeded? ==> NewMessages(p, err) == p.added)
  {
    var (p, err) := Turns(env, opts, base, TurnLimit(opts), 0, Unstarted());
    TurnsEnd(env, opts, base, TurnLimit(opts), 0, Unstarted());
    if err.MaxTurnsExceeded? {
      StampKeepsBlocks(p.added, p.turns[|p.turns| - 1]);
    }
  }

  // ---------- what a run sends ----------

  /** What every transcript handed to the provider should satisfy. */
  ghost predicate Sendable(t: seq<Message>) {
    Paired(t) && NoEmptyTurns(t)
  }

  /** A turn that leaves the transcript fit to send once answered: an assistant's, or one of
      another role that answers and asks for nothing but calls already made. */
  ghost predicate TurnFits(before: seq<Message>, m: Message) {
    || m.role.Assistant?
    || (TurnCallIds(m) <= CallIds(before) && (m.role.Tool? ==> m.toolCallId in CallIds(before)))
  }

  lemma NoTurnsNoCalls(more: seq<Message>)
    requires forall m | m in more :: !m.role.Assistant?
    ensures CallIds(more) == {} && Answered(more)
  {
    if more != [] {
      assert forall m | m in more[1..] :: m in more;
      assert more[0] in more;
      NoTurnsNoCalls(more[1..]);
    }
  }

  /** Without a new turn a transcript stays fit exactly when the new results have their calls. */
  lemma SendableWithoutTurn(before: seq<Message>, more: seq<Message>)
    requires Sendable(before) && forall m | m in more :: !m.role.Assistant?
    ensures Sendable(before + more) <==> ResultIds(more) <= CallIds(before)
  {
    NoTurnsNoCalls(more);
    AnsweredConcat(before, more);
    ResultIdsConcat(before, more);
    CallIdsConcat(before, more);
  }

  lemma SendableWithBlock(before: seq<Message>, m: Message, results: seq<Message>, notes: seq<Message>)
    requires Sendable(before) && m.role.Assistant? && Meaningful(m) && Answers(Calls(m), results)
    requires forall note | note in notes :: note.role.User?
    ensures Sendable(before + ([m] + results + notes))
  {
    WholeAndNothing([m] + results + notes);
    BlockCloses([], m, results, notes);
    ExactBlocksAreBlocks([m] + results + notes);
    BlocksArePaired([m] + results + notes);
    PairedConcat(before, [m] + results + notes);
    AnswersIds(m, results);
  }

  lemma BlockResultIds(m: Message, results: seq<Message>, notes: seq<Message>)
    requires !m.role.Assistant? && Answers(Calls(m), results)
    requires forall note | note in notes :: note.role.User?
    ensures ResultIds([m] + results + notes) == TurnCallIds(m) + if m.role.Tool? then {m.toolCallId} else {}
    ensures forall t | t in [m] + results + notes :: !t.role.Assistant?
  {
    AnswersIds(m, results);
    ResultIdsConcat([m] + results, notes);
    ResultIdsConcat([m], results);
    assert m in [m];
  }

  /** Going on from a turn keeps the transcript fit to send exactly when the turn fits. */
  lemma BlockSendableIff(before: seq<Message>, m: Message, results: seq<Message>, notes: seq<Message>)
    requires Sendable(before) && Meaningful(m) && Answers(Calls(m), results)
    requires forall note | note in notes :: note.role.User?
    ensures Sendable(before + ([m] + results + notes)) <==> TurnFits(before, m)
  {
    if m.role.Assistant? {
      SendableWithBlock(before, m, results, notes);
    } else {
      BlockResultIds(m, results, notes);
      SendableWithoutTurn(before, [m] + results + notes);
    }
  }

  ghost predicate AllSendable(sent: seq<seq<Message>>) {
    forall t | t in sent :: Sendable(t)
  }

  ghost predicate FitsAt(base: seq<Message>, p: Progress, i: nat) {
    i < |p.added| ==> TurnFits(base + p.added[..i], p.added[i])
  }

  ghost predicate TurnsFit(base: seq<Message>, p: Progress) {
    forall i | i in p.turns :: FitsAt(base, p, i)
  }

  /** The turns that are part of some transcript sent later on fit. */
  ghost predicate HeardTurnsFit(base: seq<Message>, p: Progress) {
    forall i, t | i in p.turns && t in p.sent && |base| + i < |t| :: FitsAt(base, p, i)
  }

  /** Everything sent so far lies between the base and the present transcript. */
  ghost predicate SentInside(base: seq<Message>, p: Progress) {
    forall t | t in p.sent :: base <= t <= base + p.added
  }

  ghost predicate SendsExact(base: seq<Message>, p: Progress) {
    AllSendable(p.sent) <==> HeardTurnsFit(base, p)
  }

  /** Between turns, what was sent and what would be sent next are fit exactly when all turns are. */
  ghost predicate Exact(base: seq<Message>, p: Progress) {
    && Placed(p) && SentInside(base, p) && SendsExact(base, p)
    && (AllSendable(p.sent) && Sendable(base + p.added) <==> TurnsFit(base, p))
  }

  lemma FitsAtStays(base: seq<Message>, p: Progress, q: Progress, i: nat)
    requires p.added <= q.added && i < |p.added|
    ensures FitsAt(base, p, i) <==> FitsAt(base, q, i)
  {
    assert p.added[..i] == q.added[..i];
  }

  lemma LapInside(base: seq<Message>, p: Progress, q: Progress, next: Next, s: Lap)
    requires TakesLap(base, p, q, next, s) && SentInside(base, p)
    ensures SentInside(base, q)
    ensures s.attempts >= 1 ==> base + p.added in q.sent
    ensures AllSendable(q.sent) <==> AllSendable(p.sent) && (s.attempts >= 1 ==> Sendable(base + p.added))
  {
    var copies := Copies(base + p.added, s.attempts);
    assert forall t | t in copies :: t == base + p.added;
    assert s.attempts >= 1 ==> copies[0] in copies;
    assert base + p.added <= base + q.added;
    assert forall t | t in q.sent :: t in p.sent || t in copies;
    assert forall t | t in p.sent :: t in q.sent;
  }

  /** After a lap in which the provider was asked, exactly the turns before it have been heard. */
  lemma LapHeard(base: seq<Message>, p: Progress, q: Progress, next: Next, s: Lap)
    requires TakesLap(base, p, q, next, s) && Placed(p) && SentInside(base, p) && s.attempts >= 1
    ensures HeardTurnsFit(base, q) <==> TurnsFit(base, p)
  {
    LapInside(base, p, q, next, s);
    var cur := base + p.added;
    var copies := Copies(cur, s.attempts);
    assert forall t | t in q.sent :: t in p.sent || t in copies;
    assert forall t | t in copies :: t == cur;
    assert forall t | t in q.sent :: |t| <= |cur|;
    forall i | i in p.turns ensures FitsAt(base, p, i) <==> FitsAt(base, q, i) {
      FitsAtStays(base, p, q, i);
    }
    assert forall i | i in q.turns && i < |p.added| :: i in p.turns;
    assert forall i | i in p.turns :: i in q.turns && cur in q.sent && |base| + i < |cur|;
  }

  lemma LapSendsExact(base: seq<Message>, p: Progress, q: Progress, next: Next, s: Lap)
    requires TakesLap(base, p, q, next, s) && Exact(base, p)
    ensures SendsExact(base, q)
  {
    if s.attempts >= 1 {
      LapInside(base, p, q, next, s);
      LapHeard(base, p, q, next, s);
    } else {
      WholeAndNothing(p.sent);
      WholeAndNothing(p.added);
      WholeAndNothing(p.turns);
      assert q.sent == p.sent && q.added == p.added && q.turns == p.turns;
    }
  }

  lemma LapExact(base: seq<Message>, p: Progress, q: Progress, next: Next, s: Lap)
    requires TakesLap(base, p, q, next, s) && Exact(base, p)
    ensures SentInside(base, q) && SendsExact(base, q)
    ensures next.Continue? ==> Exact(base, q)
  {
    LapGrows(base, p, q, next, s);
    LapInside(base, p, q, next, s);
    LapSendsExact(base, p, q, next, s);
    if next.Continue? {
      LapNext(base, p, q, next, s);
    }
  }

  lemma LapNext(base: seq<Message>, p: Progress, q: Progress, next: Next, s: Lap)
    requires TakesLap(base, p, q, next, s) && Exact(base, p) && next.Continue?
    ensures AllSendable(q.sent) && Sendable(base + q.added) <==> TurnsFit(base, q)
  {
    var m, cur := s.turn.value, base + p.added;
    LapInside(base, p, q, next, s);
    Assoc(base, p.added, s.Block());
    assert q.added[..|p.added|] == p.added && q.added[|p.added|] == m;
    assert FitsAt(base, q, |p.added|) <==> TurnFits(cur, m);
    assert |p.added| in q.turns && forall i | i in q.turns :: i in p.turns || i == |p.added|;
    assert forall i | i in p.turns :: i in q.turns;
    forall i | i in p.turns ensures FitsAt(base, p, i) <==> FitsAt(base, q, i) {
      FitsAtStays(base, p, q, i);
    }
    assert TurnsFit(base, q) <==> TurnsFit(base, p) && TurnFits(cur, m);
    if AllSendable(p.sent) && Sendable(cur) {
      BlockSendableIff(cur, m, s.results, s.notes);
    }
  }

  lemma {:induction false} TurnsExact(env: Environment, opts: Options, base: seq<Message>, maxTurns: nat, turn: nat, p: Progress)
    requires Exact(base, p)
    ensures var q := Turns(env, opts, base, maxTurns, turn, p).0; SentInside(base, q) && SendsExact(base, q)
    decreases maxTurns - turn
  {
    if turn < maxTurns {
      var (q, next) := OneTurn(env, opts, base, turn, p);
      var s := OneTurnIsLap(env, opts, base, turn, p);
      LapExact(base, p, q, next, s);
      if next.Continue? {
        TurnsExact(env, opts, base, maxTurns, turn + 1, q);
      }
    }
  }

  /** Everything a run sends is the hardened history and messages of the run, and all of it
      pairs calls with results and has no empty turn exactly when every turn that the provider
      gets to see again fits: in particular when all its turns are assistant turns. */
  lemma RunSends(env: Environment, opts: Options, input: seq<Message>)
    ensures var base := Hardened(input, opts.model);
            var p := Turns(env, opts, base, TurnLimit(opts), 0, Unstarted()).0;
            && (forall t | t in p.sent :: base <= t <= base + p.added)
            && (AllSendable(p.sent) <==> HeardTurnsFit(base, p))
            && (Assisted(p) ==> AllSendable(p.sent))
  {
    var base := Hardened(input, opts.model);
    HardenTheorems.HardenedPromises(input, opts.model);
    WholeAndNothing(base);
    TurnsExact(env, opts, base, TurnLimit(opts), 0, Unstarted());
  }

  /** A provider that delivers assistant turns, as its interface describes. */
  ghost predicate AssistantProvider(env: Environment) {
    forall turn, attempt, ms ::
      env.provider(turn, attempt, ms).Turn? ==> env.provider(turn, attempt, ms).message.role.Assistant?
  }

  lemma {:induction false} RepliesAssist(env: Environment, opts: Options, turn: nat, ms: seq<Message>, attempt: nat)
    requires AssistantProvider(env)
    ensures var reply := ReplyAfter(env, opts, turn, ms, attempt).0; reply.Good? ==> reply.value.role.Assistant?
    decreases RetryLimit(opts) - attempt
  {
    if attempt < RetryLimit(opts) {
      RepliesAssist(env, opts, turn, ms, attempt + 1);
    }
  }

  lemma OneTurnAssists(env: Environment, opts: Options, base: seq<Message>, turn: nat, p: Progress)
    requires AssistantProvider(env) && Placed(p) && Assisted(p)
    ensures Placed(OneTurn(env, opts, base, turn, p).0) && Assisted(OneTurn(env, opts, base, turn, p).0)
  {
    var s := OneTurnIsLap(env, opts, base, turn, p);
    var (q, next) := OneTurn(env, opts, base, turn, p);
    LapGrows(base, p, q, next, s);
    RepliesAssist(env, opts, turn, base + p.added, 0);
    assert forall i | i in p.turns :: q.added[i] == p.added[i];
    assert s.turn.Some? ==> q.added[|p.added|] == s.turn.value;
  }

  lemma {:induction false} TurnsAssist(env: Environment, opts: Options, base: seq<Message>, maxTurns: nat, turn: nat,
                                       p: Progress)
    requires AssistantProvider(env) && Placed(p) && Assisted(p)
    ensures Assisted(Turns(env, opts, base, maxTurns, turn, p).0)
    decreases maxTurns - turn
  {
    if turn < maxTurns {
      var (q, next) := OneTurn(env, opts, base, turn, p);
      OneTurnAssists(env, opts, base, turn, p);
      if next.Continue? {
        TurnsAssist(env, opts, base, maxTurns, turn + 1, q);
      }
    }
  }

  /** With a provider that delivers assistant turns, whatever else it does: all that is sent pairs
      calls with results and has no empty turn, and what the run adds has its shape. */
  lemma AssistantProviderSuffices(env: Environment, opts: Options, input: seq<Message>)
    requires AssistantProvider(env)
    ensures var (p, err) := Turns(env, opts, Hardened(input, opts.model), TurnLimit(opts), 0, Unstarted());
            Assisted(p) && AllSendable(p.sent) && Ends(p, err) && RunShape(NewMessages(p, err))
  {
    var base := Hardened(input, opts.model);
    TurnsAssist(env, opts, base, TurnLimit(opts), 0, Unstarted());
    RunSends(env, opts, input);
    RunEnds(env, opts, base);
  }

  /** A provider whose turns carry the user's role, and ask for a call. */
  function CallOfUser(): Message {
    Message(User, [Call(Some(ToolCall("c", "t", "")), "")], "", "", false, "", "", map[])
  }

  function OddProvider(): Environment {
    Environment((turn, attempt, ms) => Turn(CallOfUser()), error => Permanent, (turn, moment) => false,
                (turn, k, call) => Done([], false, map[]), m => false, call => "k")
  }

  function PlainOptions(): Options {
    Options("", 2, true, false, true, Guardrails.Policy(true, 0, 0, 0, 0), true, 0)
  }

  lemma OddCalls()
    ensures Calls(CallOfUser()) == [ToolCall("c", "t", "")]
    ensures TurnCallIds(CallOfUser()) == {"c"}
  {
    assert CallOfUser().content[1..] == [];
    assert ToolCall("c", "t", "") in Calls(CallOfUser());
  }

  lemma OddReply(turn: nat, ms: seq<Message>)
    ensures ReplyAfter(OddProvider(), PlainOptions(), turn, ms, 0) == (Good(CallOfUser()), 1)
  {
  }

  lemma OddAnswer(turn: nat, streaks: Guardrails.Streaks)
    ensures AnswerOf(OddProvider(), PlainOptions(), turn, CallOfUser(), streaks).0.Continue?
  {
    var env, calls := OddProvider(), Calls(CallOfUser());
    assert forall j: nat | j < |calls| :: env.execute(turn, j, calls[j]).Done?;
  }

  lemma OddTurn(base: seq<Message>, turn: nat, p: Progress)
    ensures var (q, next) := OneTurn(OddProvider(), PlainOptions(), base, turn, p);
            && next.Continue? && q.turns == p.turns + [|p.added|] && q.sent == p.sent + [base + p.added]
            && |q.added| > |p.added| && q.added[|p.added|] == CallOfUser()
  {
    OddCalls();
    OddReply(turn, base + p.added);
    OddAnswer(turn, p.streaks);
    assert Copies(base + p.added, 1) == [base + p.added];
    var s := OneTurnIsLap(OddProvider(), PlainOptions(), base, turn, p);
  }

  lemma TwoTurns(env: Environment, opts: Options, base: seq<Message>, p: Progress, one: Progress, two: Progress)
    requires OneTurn(env, opts, base, 0, p) == (one, Continue)
    requires OneTurn(env, opts, base, 1, one) == (two, Continue)
    ensures Turns(env, opts, base, 2, 0, p).0 == two
  {
    assert Turns(env, opts, base, 2, 2, two).0 == two;
    assert Turns(env, opts, base, 2, 1, one).0 == two;
  }

  /** The condition can fail: calls of a turn in the user's role are executed, and their results
      are sent without calls that providers would see. */
  lemma OtherRolesSendOrphans()
    ensures var base := Hardened([], PlainOptions().model);
            !AllSendable(Turns(OddProvider(), PlainOptions(), base, TurnLimit(PlainOptions()), 0, Unstarted()).0.sent)
  {
    var env, opts, base := OddProvider(), PlainOptions(), Hardened([], PlainOptions().model);
    assert base == [] && CallIds(base + []) == {};
    RunSends(env, opts, []);
    OddCalls();
    var one := OneTurn(env, opts, base, 0, Unstarted()).0;
    OddTurn(base, 0, Unstarted());
    var two := OneTurn(env, opts, base, 1, one).0;
    OddTurn(base, 1, one);
    var s0 := OneTurnIsLap(env, opts, base, 0, Unstarted());
    LapGrows(base, Unstarted(), one, Continue, s0);
    var s1 := OneTurnIsLap(env, opts, base, 1, one);
    LapGrows(base, one, two, Continue, s1);
    TwoTurns(env, opts, base, Unstarted(), one, two);
    assert two.sent[1] == base + one.added && two.turns[0] == 0;
    assert two.sent[1] in two.sent && two.turns[0] in two.turns;
    assert two.added[0] == CallOfUser() && two.added[..0] == [];
    assert !FitsAt(base, two, 0);
  }

  // ---------- what a caller can do with the result ----------

  lemma {:induction false} MissingAll(calls: seq<ToolCall>)
    ensures Answers(calls, MissingResults(calls, {}))
  {
    if calls != [] {
      MissingAll(calls[1..]);
      var rest := MissingResults(calls[1..], {});
      assert MissingResults(calls, {}) == [Synthetic(calls[0])] + rest;
      assert forall k | 1 <= k < |calls| :: calls[k] == calls[1..][k - 1];
    }
  }

  /** With stand-ins for the calls of its unanswered last turn, what a run added is closed. */
  lemma StandInsClose(added: seq<Message>) returns (results: seq<Message>)
    requires RunShape(added) && !ExactBlocks(added)
    ensures InBlocks(added + results)
  {
    var n := |added| - 1;
    var m := added[n];
    results := MissingResults(Calls(m), {});
    MissingAll(Calls(m));
    BlockCloses(added[..n], m, results, []);
    WholeAndNothing([m] + results);
    Assoc(added[..n], [m], results);
    assert added[..n] + [m] == added;
    ExactBlocksAreBlocks(added + results);
  }

  lemma ClosedIsResumable(ms: seq<Message>, more: seq<Message>, activeModel: string)
    requires InBlocks(ms + more)
    ensures InBlocks(Hardened(ms, activeModel))
  {
    WholeAndNothing(ms);
    ConcatDrop(ms, more, |ms|);
    InterruptionRepaired(ms + more, |ms|, activeModel);
  }

  /** However a run ends, hardening what it leaves yields closed blocks again, so an
      interrupted session can always be resumed and compacted. */
  lemma LeftoverResumable(base: seq<Message>, added: seq<Message>, activeModel: string)
    requires InBlocks(base) && RunShape(added)
    ensures InBlocks(Hardened(base + added, activeModel))
  {
    if ExactBlocks(added) {
      ExactBlocksAreBlocks(added);
      BlocksConcat(base, added, false);
      WholeAndNothing(base + added);
      ClosedIsResumable(base + added, [], activeModel);
    } else {
      var results := StandInsClose(added);
      BlocksConcat(base, added + results, false);
      Assoc(base, added, results);
      ClosedIsResumable(base + added, results, activeModel);
    }
  }
}
