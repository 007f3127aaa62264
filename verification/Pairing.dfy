/** Transcripts in which the results of a turn follow it directly: the shape that a run
    leaves (loop/run.go) and that compaction relies on (compactor.go). */
module Pairing {
  import Sequences
  import opened Transcript
  import opened CallIdNames
  import opened Harden
  import opened HardenTheorems

  function TurnCallIds(m: Message): set<string> {
    set c | c in Calls(m) :: c.id
  }

  /** Every turn is followed at once by results for exactly its calls, or, where that is allowed,
      by none; and there are no other results. */
  ghost predicate Blocks(ms: seq<Message>, unanswered: bool)
    decreases |ms|
  {
    ms != [] ==>
      if ms[0].role.Assistant? then
        var n := RunLength(ms[1..]);
        && ((unanswered && n == 0) || ResultIds(ms[1..][..n]) == TurnCallIds(ms[0]))
        && Blocks(ms[1..][n..], unanswered)
      else !ms[0].role.Tool? && Blocks(ms[1..], unanswered)
  }

  /** Closed blocks: every turn is answered at once and in full. */
  ghost predicate InBlocks(ms: seq<Message>) { Blocks(ms, false) }

  /** What a session stores: turns that were interrupted have no results at all. */
  ghost predicate Loose(ms: seq<Message>) { Blocks(ms, true) }

  /** One result per call, in call order. */
  predicate Answers(calls: seq<ToolCall>, results: seq<Message>) {
    && |results| == |calls|
    && forall k | 0 <= k < |calls| ::
         && results[k].role.Tool?
         && results[k].toolCallId == calls[k].id
         && results[k].toolName == calls[k].name
  }

  /** Every turn is followed at once by one result per call, in call order; no other results. */
  ghost predicate ExactBlocks(ms: seq<Message>)
    decreases |ms|
  {
    ms != [] ==>
      if ms[0].role.Assistant? then
        var n := |Calls(ms[0])|;
        n < |ms| && Answers(Calls(ms[0]), ms[1..][..n]) && ExactBlocks(ms[1..][n..])
      else !ms[0].role.Tool? && ExactBlocks(ms[1..])
  }

  lemma {:induction false} RunOfAnswers(results: seq<Message>, ms: seq<Message>)
    requires forall t | t in results :: t.role.Tool?
    requires ms == [] || !ms[0].role.Tool?
    ensures RunLength(results + ms) == |results|
  {
    if results == [] {
      assert results + ms == ms;
    } else {
      assert results[0] in results;
      assert (results + ms)[1..] == results[1..] + ms;
      RunOfAnswers(results[1..], ms);
    }
  }

  lemma AnswersIds(m: Message, results: seq<Message>)
    requires Answers(Calls(m), results)
    ensures forall t | t in results :: t.role.Tool?
    ensures ResultIds(results) == TurnCallIds(m)
  {
    forall id | id in TurnCallIds(m) ensures id in ResultIds(results) {
      var k :| 0 <= k < |Calls(m)| && Calls(m)[k].id == id;
      assert results[k] in results;
    }
  }

  lemma {:induction false} ExactBlocksAreBlocks(ms: seq<Message>)
    requires ExactBlocks(ms)
    ensures InBlocks(ms)
    decreases |ms|
  {
    if ms != [] {
      if ms[0].role.Assistant? {
        var n := |Calls(ms[0])|;
        var results, after := ms[1..][..n], ms[1..][n..];
        AnswersIds(ms[0], results);
        assert ms[1..] == results + after;
        RunOfAnswers(results, after);
        ExactBlocksAreBlocks(after);
      } else {
        ExactBlocksAreBlocks(ms[1..]);
      }
    }
  }

  lemma {:induction false} ExactBlocksConcat(a: seq<Message>, b: seq<Message>)
    requires ExactBlocks(a) && ExactBlocks(b)
    ensures ExactBlocks(a + b)
    decreases |a|
  {
    if a == [] {
      assert a + b == b;
    } else {
      var rest := a[1..];
      assert (a + b)[1..] == rest + b;
      if a[0].role.Assistant? {
        var n := |Calls(a[0])|;
        assert (rest + b)[..n] == rest[..n] && (rest + b)[n..] == rest[n..] + b;
        ExactBlocksConcat(rest[n..], b);
      } else {
        ExactBlocksConcat(rest, b);
      }
    }
  }

  /** One closed turn. */
  lemma OneBlock(m: Message, results: seq<Message>)
    requires m.role.Assistant? && Answers(Calls(m), results)
    ensures ExactBlocks([m] + results)
  {
    var ms := [m] + results;
    assert ms[1..] == results && results[..|results|] == results && results[|results|..] == [];
  }

  /** What providers accept, and what the look-ahead of HardenHistory establishes. */
  ghost predicate Paired(ms: seq<Message>) {
    Answered(ms) && NoOrphans(ms)
  }

  lemma {:induction false} BlocksArePaired(ms: seq<Message>)
    requires InBlocks(ms)
    ensures Paired(ms)
    decreases |ms|
  {
    if ms != [] {
      var m, rest := ms[0], ms[1..];
      assert ms == [m] + rest;
      HeadCalls(m, rest);
      if m.role.Assistant? {
        var n := RunLength(rest);
        var run, after := rest[..n], rest[n..];
        assert rest == run + after;
        BlocksArePaired(after);
        AnsweredPrepend(run, after);
        ResultIdsConcat(run, after);
        CallIdsConcat(run, after);
        forall c | c in Calls(m) ensures c.id in ResultIds(rest) {
          assert c.id in TurnCallIds(m);
        }
        AnsweredCons(m, rest);
      } else {
        BlocksArePaired(rest);
        AnsweredCons(m, rest);
      }
    }
  }

  lemma {:induction false} AnsweredConcat(a: seq<Message>, b: seq<Message>)
    requires Answered(a) && Answered(b)
    ensures Answered(a + b)
  {
    if a == [] {
      assert a + b == b;
    } else {
      AnsweredConcat(a[1..], b);
      ResultIdsConcat(a[1..], b);
      AnsweredCons(a[0], a[1..] + b);
      assert a + b == [a[0]] + (a[1..] + b);
    }
  }

  lemma PairedConcat(a: seq<Message>, b: seq<Message>)
    requires Paired(a) && Paired(b)
    ensures Paired(a + b)
  {
    AnsweredConcat(a, b);
    ResultIdsConcat(a, b);
    CallIdsConcat(a, b);
  }

  lemma RunStopsBefore(ms: seq<Message>, k: nat)
    requires k == |ms| || (k < |ms| && !ms[k].role.Tool?)
    ensures RunLength(ms) <= k
  {
  }

  /** Cutting where no result begins the tail cuts no block. */
  lemma {:induction false} BlocksSuffix(ms: seq<Message>, k: nat, unanswered: bool)
    requires Blocks(ms, unanswered) && k <= |ms|
    requires k == |ms| || !ms[k].role.Tool?
    ensures Blocks(ms[k..], unanswered)
    decreases |ms|
  {
    if k == 0 {
      assert ms[0..] == ms;
    } else {
      var rest := ms[1..];
      Sequences.DropDrop(ms, 1, k - 1);
      if ms[0].role.Assistant? {
        var n := RunLength(rest);
        RunStopsBefore(rest, k - 1);
        Sequences.DropDrop(rest, n, k - 1 - n);
        BlocksSuffix(rest[n..], k - 1 - n, unanswered);
      } else {
        BlocksSuffix(rest, k - 1, unanswered);
      }
    }
  }

  lemma {:induction false} BlocksConcat(a: seq<Message>, b: seq<Message>, unanswered: bool)
    requires Blocks(a, unanswered) && Blocks(b, unanswered)
    ensures Blocks(a + b, unanswered)
    decreases |a|
  {
    if a == [] {
      assert a + b == b;
    } else {
      var rest := a[1..];
      assert (a + b)[1..] == rest + b;
      if a[0].role.Assistant? {
        var n := RunLength(rest);
        RunLengthOfConcat(rest, b);
        assert (rest + b)[..n] == rest[..n] && (rest + b)[n..] == rest[n..] + b;
        BlocksConcat(rest[n..], b, unanswered);
      } else {
        BlocksConcat(rest, b, unanswered);
      }
    }
  }

  lemma {:induction false} RunLengthOfConcat(a: seq<Message>, b: seq<Message>)
    requires b == [] || !b[0].role.Tool?
    ensures RunLength(a + b) == RunLength(a)
  {
    if a == [] {
      assert a + b == b;
    } else {
      assert (a + b)[1..] == a[1..] + b;
      RunLengthOfConcat(a[1..], b);
    }
  }

  // ---------- hardening and blocks ----------

  /** Results sit where their turn left them: each known result is in the run directly after
      a turn that made its call, and no call is left to a result further on. */
  ghost predicate InPlace(ms: seq<Message>, known: set<string>, activeModel: string)
    decreases |ms|
  {
    ms != [] ==>
      if Kept(ms, activeModel) then
        var n := RunLength(ms[1..]);
        var run, after := ms[1..][..n], ms[1..][n..];
        && (forall t | t in run && t.toolCallId in known :: t.toolCallId in TurnCallIds(ms[0]))
        && (forall id | id in TurnCallIds(ms[0]) :: id in ResultIds(run) || id !in ResultIds(after))
        && InPlace(after, known, activeModel)
      else
        && (ms[0].role.Tool? ==> ms[0].toolCallId !in known)
        && InPlace(ms[1..], known, activeModel)
  }

  lemma BlockIds(m: Message, run: seq<Message>, after: seq<Message>, known: set<string>)
    requires forall t | t in run :: t.role.Tool?
    requires forall t | t in run && t.toolCallId in known :: t.toolCallId in TurnCallIds(m)
    requires forall id | id in TurnCallIds(m) :: id in known && (id in ResultIds(run) || id !in ResultIds(after))
    ensures ResultIds(Followers(m, KnownOnly(run, known), after)) == TurnCallIds(m)
  {
    var kept := KnownOnly(run, known);
    var present := ResultIds(kept) + ResultIds(after);
    var made := MissingResults(Calls(m), present);
    KnownOnlyFacts(run, known);
    MissingFacts(Calls(m), present);
    ResultIdsConcat(kept, made);
    forall id | id in TurnCallIds(m) ensures id in ResultIds(kept + made) {
      var c :| c in Calls(m) && c.id == id;
      if id in ResultIds(run) {
        var t :| t in run && t.toolCallId == id;
        assert t in kept;
      } else {
        assert forall t | t in kept :: t in run;
        assert id !in present;
        assert Synthetic(c) in made;
      }
    }
  }

  lemma {:induction false} RepairedInBlocks(ms: seq<Message>, known: set<string>, activeModel: string)
    requires CallIds(ms) <= known && InPlace(ms, known, activeModel)
    ensures InBlocks(Repaired(ms, known, activeModel))
    decreases |ms|
  {
    if Kept(ms, activeModel) {
      var m, f, after := KeptTurn(ms, known, activeModel);
      var tail := Repaired(after, known, activeModel);
      RepairedInBlocks(after, known, activeModel);
      BlockIds(m, ms[1..][..RunLength(ms[1..])], after, known);
      RunOfAnswers(f, tail);
      var out := [m] + (f + tail);
      assert out[1..] == f + tail && (f + tail)[..|f|] == f && (f + tail)[|f|..] == tail;
    } else if ms != [] {
      OtherHead(ms, known, activeModel);
      RepairedInBlocks(ms[1..], known, activeModel);
      var tail := Repaired(ms[1..], known, activeModel);
      assert ([ms[0]] + tail)[1..] == tail;
    }
  }

  /** An interrupted transcript whose results sit in place is repaired into closed blocks:
      the stand-ins land directly after the turn they stand in for. */
  lemma HardenedInBlocks(ms: seq<Message>, activeModel: string)
    requires InPlace(Renamed(ms), CallIds(Renamed(ms)), activeModel)
    ensures InBlocks(Hardened(ms, activeModel))
  {
    RepairedInBlocks(Renamed(ms), CallIds(Renamed(ms)), activeModel);
  }

  lemma NoIdsNoResults(run: seq<Message>)
    requires forall t | t in run :: t.role.Tool?
    ensures run != [] ==> ResultIds(run) != {}
  {
    if run != [] {
      assert run[0] in run && run[0].toolCallId in ResultIds(run);
    }
  }

  lemma RunThenPrefix(rest: seq<Message>, k: nat, n: nat)
    requires n == RunLength(rest) <= k <= |rest|
    ensures RunLength(rest[..k]) == n
    ensures rest[..k][..n] == rest[..n] && rest[..k][n..] == rest[n..][..k - n]
  {
    CutBoth(rest, k, n);
    RunLengthIs(rest[..k], n);
  }

  lemma CutBoth(s: seq<Message>, k: nat, n: nat)
    requires n <= k <= |s|
    ensures s[..k][..n] == s[..n] && s[..k][n..] == s[n..][..k - n]
  {
  }

  lemma RunLengthIs(ms: seq<Message>, n: nat)
    requires n <= |ms| && forall j | 0 <= j < n :: ms[j].role.Tool?
    requires n < |ms| ==> !ms[n].role.Tool?
    ensures RunLength(ms) == n
  {
    var k := RunLength(ms);
    assert k < |ms| ==> !ms[k].role.Tool?;
    assert forall j | 0 <= j < k :: ms[j].role.Tool?;
  }

  lemma RunCutShort(rest: seq<Message>, k: nat, n: nat)
    requires k < n == RunLength(rest)
    ensures RunLength(rest[..k]) == k && rest[..k][..k] == rest[..k] && rest[..k][k..] == []
    ensures forall t | t in rest[..k] :: t in rest[..n]
  {
    var cut := rest[..k];
    assert forall t | t in cut :: t in rest[..n];
    Sequences.WholeAndNothing(cut);
    RunLengthIs(cut, k);
  }

  lemma KeptTurnInPlace(p: seq<Message>, run: seq<Message>, after: seq<Message>, known: set<string>, activeModel: string)
    requires Kept(p, activeModel) && InPlace(after, known, activeModel)
    requires run == p[1..][..RunLength(p[1..])] && after == p[1..][RunLength(p[1..])..]
    requires forall t | t in run :: t.toolCallId in TurnCallIds(p[0])
    requires forall id | id in TurnCallIds(p[0]) :: id in ResultIds(run) || id !in ResultIds(after)
    ensures InPlace(p, known, activeModel)
  {
  }

  /** A cut inside the results of the first turn. */
  lemma CutInRun(ms: seq<Message>, k: nat, n: nat, known: set<string>, activeModel: string)
    requires InBlocks(ms) && 0 < k <= |ms| && ms[0].role.Assistant?
    requires k - 1 < n == RunLength(ms[1..]) && Kept(ms[..k], activeModel)
    ensures InPlace(ms[..k], known, activeModel)
  {
    var p, rest := ms[..k], ms[1..];
    RunCutShort(rest, k - 1, n);
    assert p[1..] == rest[..k - 1];
    assert ResultIds([]) == {} && InPlace([], known, activeModel);
    forall t | t in rest[..k - 1] ensures t.toolCallId in TurnCallIds(ms[0]) {
      assert t in rest[..n] && t.toolCallId in ResultIds(rest[..n]);
    }
    KeptTurnInPlace(p, rest[..k - 1], [], known, activeModel);
  }

  /** A cut past the results of the first turn. */
  lemma CutPastRun(ms: seq<Message>, k: nat, n: nat, known: set<string>, activeModel: string)
    requires InBlocks(ms) && 0 < k <= |ms| && ms[0].role.Assistant?
    requires k - 1 >= n == RunLength(ms[1..]) && Kept(ms[..k], activeModel)
    requires InPlace(ms[1..][n..][..k - 1 - n], known, activeModel)
    ensures InPlace(ms[..k], known, activeModel)
  {
    var p, rest := ms[..k], ms[1..];
    RunThenPrefix(rest, k - 1, n);
    assert p[1..] == rest[..k - 1];
    forall t | t in rest[..n] ensures t.toolCallId in TurnCallIds(ms[0]) {
      assert t.toolCallId in ResultIds(rest[..n]);
    }
    KeptTurnInPlace(p, rest[..n], rest[n..][..k - 1 - n], known, activeModel);
  }

  /** A cut after a turn that will be dropped, which has no calls and so no results. */
  lemma CutAfterDropped(ms: seq<Message>, known: set<string>, activeModel: string)
    requires InBlocks(ms) && ms != [] && ms[0].role.Assistant? && !Kept(ms, activeModel)
    ensures InBlocks(ms[1..])
  {
    DroppedTurnMakesNoCalls(ms[0], activeModel);
    NoIdsNoResults(ms[1..][..RunLength(ms[1..])]);
    assert ms[1..][0..] == ms[1..];
  }

  lemma {:induction false} PrefixInPlace(ms: seq<Message>, k: nat, known: set<string>, activeModel: string)
    requires InBlocks(ms) && k <= |ms|
    ensures InPlace(ms[..k], known, activeModel)
    decreases |ms|
  {
    if k > 0 {
      var rest, p := ms[1..], ms[..k];
      assert p[0] == ms[0] && p[1..] == rest[..k - 1];
      if Kept(p, activeModel) {
        var n := RunLength(rest);
        if k - 1 >= n {
          PrefixInPlace(rest[n..], k - 1 - n, known, activeModel);
          CutPastRun(ms, k, n, known, activeModel);
        } else {
          CutInRun(ms, k, n, known, activeModel);
        }
      } else {
        if ms[0].role.Assistant? {
          CutAfterDropped(ms, known, activeModel);
        }
        PrefixInPlace(rest, k - 1, known, activeModel);
      }
    }
  }

  // ---------- renaming and blocks ----------

  function RenameIds(st: Renaming, ids: set<string>): set<string> {
    set id | id in ids :: Apply(st, id)
  }

  lemma {:induction false} RenamedCallsOf(st: Renaming, parts: seq<Part>)
    ensures |CallsOf(RenameParts(st, parts))| == |CallsOf(parts)|
    ensures forall k | 0 <= k < |CallsOf(parts)| ::
              CallsOf(RenameParts(st, parts))[k].id == Apply(st, CallsOf(parts)[k].id)
  {
    if parts != [] {
      assert RenameParts(st, parts)[1..] == RenameParts(st, parts[1..]);
      RenamedCallsOf(st, parts[1..]);
    }
  }

  /** A renamed turn makes the renamed calls. */
  lemma RenamedTurnIds(st: Renaming, m: Message)
    ensures TurnCallIds(RenameMessage(st, m)) == RenameIds(st, TurnCallIds(m))
  {
    var before, after := Calls(m), Calls(RenameMessage(st, m));
    RenamedCallsOf(st, m.content);
    forall id | id in RenameIds(st, TurnCallIds(m)) ensures id in TurnCallIds(RenameMessage(st, m)) {
      var k :| 0 <= k < |before| && Apply(st, before[k].id) == id;
      assert after[k] in after;
    }
    forall id | id in TurnCallIds(RenameMessage(st, m)) ensures id in RenameIds(st, TurnCallIds(m)) {
      var k :| 0 <= k < |after| && after[k].id == id;
      assert before[k] in before;
    }
  }

  lemma RenamedResultIds(st: Renaming, ms: seq<Message>)
    requires "" !in st.idMap
    ensures ResultIds(RenameAll(st, ms)) == RenameIds(st, ResultIds(ms))
  {
    var out := RenameAll(st, ms);
    forall id | id in RenameIds(st, ResultIds(ms)) ensures id in ResultIds(out) {
      var k :| 0 <= k < |ms| && ms[k].role.Tool? && Apply(st, ms[k].toolCallId) == id;
      assert out[k] in out;
    }
    forall id | id in ResultIds(out) ensures id in RenameIds(st, ResultIds(ms)) {
      var k :| 0 <= k < |out| && out[k].role.Tool? && out[k].toolCallId == id;
      assert ms[k] in ms && ms[k].toolCallId in ResultIds(ms);
      assert id == Apply(st, ms[k].toolCallId);
    }
  }

  lemma RenamedSlices(st: Renaming, ms: seq<Message>, n: nat)
    requires n <= |ms|
    ensures RenameAll(st, ms)[..n] == RenameAll(st, ms[..n])
    ensures RenameAll(st, ms)[n..] == RenameAll(st, ms[n..])
  {
  }

  lemma RenamedRunLength(st: Renaming, ms: seq<Message>)
    ensures RunLength(RenameAll(st, ms)) == RunLength(ms)
  {
    RunLengthIs(RenameAll(st, ms), RunLength(ms));
  }

  /** Any renaming that leaves the empty ID alone keeps blocks, closed or not. */
  lemma {:induction false} RenamingKeepsBlocks(st: Renaming, ms: seq<Message>, unanswered: bool)
    requires "" !in st.idMap && Blocks(ms, unanswered)
    ensures Blocks(RenameAll(st, ms), unanswered)
    decreases |ms|
  {
    if ms != [] {
      var rest := ms[1..];
      RenamedSlices(st, ms, 1);
      if ms[0].role.Assistant? {
        var n := RunLength(rest);
        RenamedRunLength(st, rest);
        RenamedSlices(st, rest, n);
        RenamedTurnIds(st, ms[0]);
        RenamedResultIds(st, rest[..n]);
        RenamingKeepsBlocks(st, rest[n..], unanswered);
      } else {
        RenamingKeepsBlocks(st, rest, unanswered);
      }
    }
  }

  /** A run cut off at any message is repaired into closed blocks, whatever its IDs. */
  lemma InterruptionRepaired(ms: seq<Message>, k: nat, activeModel: string)
    requires InBlocks(ms) && k <= |ms|
    ensures InBlocks(Hardened(ms[..k], activeModel))
  {
    var st := Final(ms[..k]);
    FinalSound(ms[..k]);
    RenamingKeepsBlocks(st, ms, false);
    RenamedSlices(st, ms, k);
    PrefixInPlace(RenameAll(st, ms), k, CallIds(Renamed(ms[..k])), activeModel);
    HardenedInBlocks(ms[..k], activeModel);
  }
}
