/** Stored transcripts, where a turn is followed by all its results or, when it was interrupted,
    by none (loop/run.go, session.go), and what hardening makes of them (loop/harden.go). */
module Interrupted {
  import Sequences
  import opened Transcript
  import opened CallIdNames
  import opened Harden
  import HardenTheorems
  import opened Pairing

  /** Every result has its call. */
  lemma {:induction false} LooseHasNoOrphans(ms: seq<Message>)
    requires Loose(ms)
    ensures NoOrphans(ms)
    decreases |ms|
  {
    if ms != [] {
      var m, rest := ms[0], ms[1..];
      assert ms == [m] + rest;
      HardenTheorems.HeadCalls(m, rest);
      if m.role.Assistant? {
        var n := RunLength(rest);
        var run, after := rest[..n], rest[n..];
        assert rest == run + after;
        LooseHasNoOrphans(after);
        ResultIdsConcat(run, after);
        CallIdsConcat(run, after);
        assert n == 0 ==> ResultIds(run) == {};
      } else {
        LooseHasNoOrphans(rest);
      }
    }
  }

  /** No unanswered turn has the ID of one of its calls on a later result. */
  ghost predicate Unshadowed(ms: seq<Message>) {
    ms != [] ==>
      && (ms[0].role.Assistant? && RunLength(ms[1..]) == 0 ==> TurnCallIds(ms[0]) !! ResultIds(ms[1..]))
      && Unshadowed(ms[1..])
  }

  lemma {:induction false} UnshadowedPastResults(run: seq<Message>, after: seq<Message>)
    requires forall t | t in run :: t.role.Tool?
    ensures Unshadowed(run + after) <==> Unshadowed(after)
  {
    if run == [] {
      assert run + after == after;
    } else {
      assert run[0] in run && (run + after)[1..] == run[1..] + after;
      UnshadowedPastResults(run[1..], after);
    }
  }

  lemma {:induction false} RepairedBeginsNoResult(ms: seq<Message>, known: set<string>, activeModel: string)
    requires Loose(ms)
    ensures Repaired(ms, known, activeModel) != [] ==> !Repaired(ms, known, activeModel)[0].role.Tool?
    decreases |ms|
  {
    if ms != [] && ms[0].role.Assistant? && !HardenTheorems.Kept(ms, activeModel) {
      DroppedTurnBare(ms, activeModel);
      RepairedBeginsNoResult(ms[1..], known, activeModel);
    }
  }

  /** A turn that hardening drops has no calls, and so no results. */
  lemma DroppedTurnBare(ms: seq<Message>, activeModel: string)
    requires Loose(ms) && ms != [] && ms[0].role.Assistant? && !HardenTheorems.Kept(ms, activeModel)
    ensures TurnCallIds(ms[0]) == {} && RunLength(ms[1..]) == 0 && Loose(ms[1..])
  {
    HardenTheorems.DroppedTurnMakesNoCalls(ms[0], activeModel);
    NoIdsNoResults(ms[1..][..RunLength(ms[1..])]);
    assert ms[1..][0..] == ms[1..];
  }

  /** A turn gets results for exactly its calls, unless it has none and one of its IDs recurs. */
  lemma FollowersAnswerIff(m: Message, run: seq<Message>, after: seq<Message>, known: set<string>)
    requires forall t | t in run :: t.role.Tool?
    requires run == [] || ResultIds(run) == TurnCallIds(m)
    requires TurnCallIds(m) <= known
    ensures ResultIds(HardenTheorems.Followers(m, KnownOnly(run, known), after)) == TurnCallIds(m)
       <==> (run == [] ==> TurnCallIds(m) !! ResultIds(after))
  {
    if run != [] || TurnCallIds(m) !! ResultIds(after) {
      assert forall t | t in run :: t.toolCallId in ResultIds(run);
      BlockIds(m, run, after, known);
    } else {
      var made := MissingResults(Calls(m), ResultIds([]) + ResultIds(after));
      var id :| id in TurnCallIds(m) && id in ResultIds(after);
      HardenTheorems.MissingFacts(Calls(m), ResultIds([]) + ResultIds(after));
      assert [] + made == made;
      assert id !in ResultIds(made);
    }
  }

  lemma BlockThenTail(m: Message, f: seq<Message>, tail: seq<Message>)
    requires m.role.Assistant? && forall t | t in f :: t.role.Tool?
    requires tail != [] ==> !tail[0].role.Tool?
    ensures InBlocks([m] + (f + tail)) <==> ResultIds(f) == TurnCallIds(m) && InBlocks(tail)
  {
    var out := [m] + (f + tail);
    RunOfAnswers(f, tail);
    assert out[1..] == f + tail && (f + tail)[..|f|] == f && (f + tail)[|f|..] == tail;
  }

  /** The condition at a turn, split into the turn's own part and the rest. */
  lemma UnshadowedAtTurn(ms: seq<Message>, run: seq<Message>, after: seq<Message>)
    requires Loose(ms) && ms != [] && ms[0].role.Assistant?
    requires run == ms[1..][..RunLength(ms[1..])] && after == ms[1..][RunLength(ms[1..])..]
    ensures Loose(after) && (run == [] || ResultIds(run) == TurnCallIds(ms[0]))
    ensures Unshadowed(ms) <==> (run == [] ==> TurnCallIds(ms[0]) !! ResultIds(after)) && Unshadowed(after)
  {
    assert ms[1..] == run + after;
    UnshadowedPastResults(run, after);
    if run == [] {
      Sequences.WholeAndNothing(after);
    }
  }

  lemma KeptTurnIff(ms: seq<Message>, known: set<string>, activeModel: string)
    requires CallIds(ms) <= known && Loose(ms) && HardenTheorems.Kept(ms, activeModel)
    requires var after := ms[1..][RunLength(ms[1..])..];
             InBlocks(Repaired(after, known, activeModel)) <==> Unshadowed(after)
    ensures InBlocks(Repaired(ms, known, activeModel)) <==> Unshadowed(ms)
  {
    var m, f, after := HardenTheorems.KeptTurn(ms, known, activeModel);
    var run := ms[1..][..RunLength(ms[1..])];
    UnshadowedAtTurn(ms, run, after);
    RepairedBeginsNoResult(after, known, activeModel);
    FollowersAnswerIff(m, run, after, known);
    BlockThenTail(m, f, Repaired(after, known, activeModel));
  }

  lemma OtherHeadIff(ms: seq<Message>, known: set<string>, activeModel: string)
    requires CallIds(ms) <= known && Loose(ms) && ms != [] && !HardenTheorems.Kept(ms, activeModel)
    requires InBlocks(Repaired(ms[1..], known, activeModel)) <==> Unshadowed(ms[1..])
    ensures InBlocks(Repaired(ms, known, activeModel)) <==> Unshadowed(ms)
  {
    HardenTheorems.OtherHead(ms, known, activeModel);
    var tail := Repaired(ms[1..], known, activeModel);
    if ms[0].role.Assistant? {
      DroppedTurnBare(ms, activeModel);
      Sequences.WholeAndNothing(tail);
    } else {
      assert ([ms[0]] + tail)[1..] == tail;
    }
  }

  lemma {:induction false} RepairedInBlocksIff(ms: seq<Message>, known: set<string>, activeModel: string)
    requires CallIds(ms) <= known && Loose(ms)
    ensures InBlocks(Repaired(ms, known, activeModel)) <==> Unshadowed(ms)
    decreases |ms|
  {
    if HardenTheorems.Kept(ms, activeModel) {
      var after := ms[1..][RunLength(ms[1..])..];
      CallsKnownAfter(ms, after, known);
      RepairedInBlocksIff(after, known, activeModel);
      KeptTurnIff(ms, known, activeModel);
    } else if ms != [] {
      if ms[0].role.Assistant? {
        DroppedTurnBare(ms, activeModel);
      }
      CallsKnownAfter(ms, ms[1..], known);
      RepairedInBlocksIff(ms[1..], known, activeModel);
      OtherHeadIff(ms, known, activeModel);
    }
  }

  lemma CallsKnownAfter(ms: seq<Message>, after: seq<Message>, known: set<string>)
    requires CallIds(ms) <= known && forall m | m in after :: m in ms
    ensures CallIds(after) <= known
  {
  }

  // ---------- renaming ----------

  ghost predicate InjectiveOn(st: Renaming, ids: set<string>) {
    forall x, y | x in ids && y in ids && Apply(st, x) == Apply(st, y) :: x == y
  }

  lemma RenamedDisjoint(st: Renaming, ids: set<string>, a: set<string>, b: set<string>)
    requires InjectiveOn(st, ids) && a <= ids && b <= ids
    ensures RenameIds(st, a) !! RenameIds(st, b) <==> a !! b
  {
    forall id | id in a && id in b ensures Apply(st, id) in RenameIds(st, a) && Apply(st, id) in RenameIds(st, b) {
    }
  }

  lemma {:induction false} RenamingKeepsShadows(st: Renaming, ids: set<string>, ms: seq<Message>)
    requires "" !in st.idMap && InjectiveOn(st, ids) && CallIds(ms) <= ids && ResultIds(ms) <= ids
    ensures Unshadowed(RenameAll(st, ms)) <==> Unshadowed(ms)
  {
    if ms != [] {
      var m, rest := ms[0], ms[1..];
      assert ms == [m] + rest;
      RenamedSlices(st, ms, 1);
      HardenTheorems.HeadCalls(m, rest);
      RenamingKeepsShadows(st, ids, rest);
      RenamedRunLength(st, rest);
      if m.role.Assistant? {
        RenamedTurnIds(st, m);
        RenamedResultIds(st, rest);
        RenamedDisjoint(st, ids, TurnCallIds(m), ResultIds(rest));
      }
    }
  }

  /** Hardening closes a stored transcript, so that every turn is answered at once and in full,
      exactly when no unanswered call has its ID on a later result: such a call is taken for
      answered and gets no stand-in. */
  lemma ResumesInBlocksIff(ms: seq<Message>, activeModel: string)
    requires Loose(ms)
    ensures InBlocks(Hardened(ms, activeModel)) <==> Unshadowed(ms)
  {
    var st, ids := Final(ms), AllCallIds(ms);
    FinalSound(ms);
    LooseHasNoOrphans(ms);
    CallsAreVisited(ms);
    forall x, y | x in ids && y in ids && Apply(st, x) == Apply(st, y) ensures x == y {
      CallNamesInjective(ms, x, y);
    }
    RenamingKeepsShadows(st, ids, ms);
    RenamingKeepsBlocks(st, ms, true);
    RepairedInBlocksIff(Renamed(ms), CallIds(Renamed(ms)), activeModel);
  }

  lemma CallsAreVisited(ms: seq<Message>)
    ensures CallIds(ms) <= AllCallIds(ms)
  {
    forall m, c | m in ms && c in Calls(m) ensures c.id in PartIds(m.content) {
      HardenTheorems.CallHasVisitedId(m.content);
    }
  }

  /** A provider that numbers its calls afresh gives such a transcript: the interrupted call gets
      no stand-in, because a later turn's result has its ID. */
  lemma ReusedIdUnanswered(activeModel: string) returns (ms: seq<Message>)
    ensures Loose(ms) && !InBlocks(Hardened(ms, activeModel))
  {
    var turn := Message(Assistant, [Call(Sequences.Some(ToolCall("c", "t", "")), "")], "", "", false, "", "", map[]);
    var note := Message(User, [], "", "", false, "", "", map[]);
    var result := Message(Tool, [], "c", "t", false, "", "", map[]);
    ms := [turn, note, turn, result];
    assert Calls(turn) == [ToolCall("c", "t", "")] by {
      assert turn.content[1..] == [];
    }
    assert TurnCallIds(turn) == {"c"} by {
      assert ToolCall("c", "t", "") in Calls(turn);
    }
    var rest := [note, turn, result];
    assert ms[1..] == rest && rest[1..] == [turn, result] && [turn, result][1..] == [result] && [result][1..] == [];
    assert RunLength(rest) == 0 && RunLength([result]) == 1 && [result][..1] == [result] && rest[0..] == rest;
    assert ResultIds([result]) == {"c"} by {
      assert result in [result];
    }
    assert Loose([turn, result]) && Loose(rest) && Loose(ms);
    assert "c" in ResultIds(rest) by {
      assert result in rest;
    }
    ResumesInBlocksIff(ms, activeModel);
  }
}
