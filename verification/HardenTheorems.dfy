/** What HardenHistory promises (loop/harden.go:8-28), for every transcript and model. */
module HardenTheorems {
  import opened Sequences
  import opened Transcript
  import opened CallIdNames
  import opened Harden

  // ---------- the pieces of a kept turn ----------

  lemma {:induction false} KnownOnlyFacts(ms: seq<Message>, known: set<string>)
    ensures forall t | t in KnownOnly(ms, known) :: t in ms && t.toolCallId in known
    ensures forall t | t in ms && t.toolCallId in known :: t in KnownOnly(ms, known)
  {
    if ms != [] {
      KnownOnlyFacts(ms[1..], known);
    }
  }

  lemma {:induction false} KnownOnlyAll(ms: seq<Message>, known: set<string>)
    requires forall t | t in ms :: t.toolCallId in known
    ensures KnownOnly(ms, known) == ms
  {
    if ms != [] {
      assert ms[0] in ms;
      KnownOnlyAll(ms[1..], known);
    }
  }

  lemma {:induction false} MissingFacts(calls: seq<ToolCall>, present: set<string>)
    ensures forall t | t in MissingResults(calls, present) ::
              exists c :: c in calls && c.id !in present && t == Synthetic(c)
    ensures forall c | c in calls && c.id !in present :: Synthetic(c) in MissingResults(calls, present)
  {
    if calls != [] {
      MissingFacts(calls[1..], present);
    }
  }

  lemma {:induction false} NothingMissing(calls: seq<ToolCall>, present: set<string>)
    requires forall c | c in calls :: c.id in present
    ensures MissingResults(calls, present) == []
  {
    if calls != [] {
      assert calls[0] in calls;
      NothingMissing(calls[1..], present);
    }
  }

  /** The results that follow m in its block: its own kept ones, then the stand-ins. */
  function Followers(m: Message, kept: seq<Message>, after: seq<Message>): seq<Message> {
    kept + MissingResults(Calls(m), ResultIds(kept) + ResultIds(after))
  }

  lemma FollowersFacts(m: Message, run: seq<Message>, after: seq<Message>, known: set<string>)
    requires forall t | t in run :: t.role.Tool?
    requires forall c | c in Calls(m) :: c.id in known
    ensures var kept := KnownOnly(run, known); var f := Followers(m, kept, after);
            && Block(m, kept, after) == [m] + f
            && (forall t | t in f :: t.role.Tool? && t.toolCallId in known)
            && (forall id | id in known && id in ResultIds(run) :: id in ResultIds(f))
            && (forall c | c in Calls(m) :: c.id in ResultIds(f) || c.id in ResultIds(after))
  {
    var kept := KnownOnly(run, known);
    var present := ResultIds(kept) + ResultIds(after);
    KnownOnlyFacts(run, known);
    MissingFacts(Calls(m), present);
    ResultIdsConcat(kept, MissingResults(Calls(m), present));
    forall c | c in Calls(m) && c.id !in present ensures c.id in ResultIds(Followers(m, kept, after)) {
      assert Synthetic(c) in MissingResults(Calls(m), present);
    }
    forall id | id in known && id in ResultIds(run) ensures id in ResultIds(kept) {
      var t :| t in run && t.toolCallId == id;
      assert t in kept;
    }
  }

  /** Followers of one message: the shape that every induction over Repaired uses. */
  lemma CallsKnown(ms: seq<Message>, known: set<string>)
    requires CallIds(ms) <= known && ms != [] && ms[0].role.Assistant?
    ensures forall c | c in Calls(ms[0]) :: c.id in known
  {
    forall c | c in Calls(ms[0]) ensures c.id in known {
      assert ms[0] in ms;
      assert c.id in CallIds(ms);
    }
  }

  lemma ToolsMakeNoCalls(ms: seq<Message>)
    requires forall t | t in ms :: t.role.Tool?
    ensures CallIds(ms) == {}
  {
  }

  lemma HeadCalls(m: Message, ms: seq<Message>)
    ensures CallIds([m] + ms) == (if m.role.Assistant? then set c | c in Calls(m) :: c.id else {}) + CallIds(ms)
    ensures ResultIds([m] + ms) == (if m.role.Tool? then {m.toolCallId} else {}) + ResultIds(ms)
  {
    CallIdsConcat([m], ms);
    ResultIdsConcat([m], ms);
    assert m in [m];
    assert CallIds([m]) == if m.role.Assistant? then set c | c in Calls(m) :: c.id else {};
    assert ResultIds([m]) == if m.role.Tool? then {m.toolCallId} else {};
  }

  /** A dropped turn made no calls. */
  lemma DroppedTurnMakesNoCalls(m: Message, activeModel: string)
    requires !Meaningful(Sanitized(m, activeModel))
    ensures Calls(m) == []
  {
    SanitizedKeepsCalls(m, activeModel);
    if Calls(m) != [] {
      CallsAreMeaningful(Sanitized(m, activeModel));
    }
  }

  ghost predicate Kept(ms: seq<Message>, activeModel: string) {
    ms != [] && ms[0].role.Assistant? && Meaningful(Sanitized(ms[0], activeModel))
  }

  lemma KeptTurnUnfolds(ms: seq<Message>, known: set<string>, activeModel: string,
                        m: Message, run: seq<Message>, after: seq<Message>)
    requires Kept(ms, activeModel) && m == Sanitized(ms[0], activeModel)
    requires run == ms[1..][..RunLength(ms[1..])] && after == ms[1..][RunLength(ms[1..])..]
    ensures Repaired(ms, known, activeModel)
         == [m] + (Followers(m, KnownOnly(run, known), after) + Repaired(after, known, activeModel))
  {
    var f := Followers(m, KnownOnly(run, known), after);
    assert Block(m, KnownOnly(run, known), after) == [m] + f;
    Assoc([m], f, Repaired(after, known, activeModel));
  }

  lemma KeptTurnRegions(m0: Message, run: seq<Message>, after: seq<Message>)
    requires m0.role.Assistant?
    requires forall t | t in run :: t.role.Tool?
    ensures CallIds([m0] + (run + after)) == (set c | c in Calls(m0) :: c.id) + CallIds(after)
    ensures ResultIds([m0] + (run + after)) == ResultIds(run) + ResultIds(after)
  {
    HeadCalls(m0, run + after);
    CallIdsConcat(run, after);
    ResultIdsConcat(run, after);
    ToolsMakeNoCalls(run);
  }

  lemma KeptTurnCovers(ms: seq<Message>, known: set<string>, m: Message, run: seq<Message>, after: seq<Message>)
    requires CallIds(ms) <= known && ms != [] && ms[0].role.Assistant? && Calls(m) == Calls(ms[0])
    requires ms == [ms[0]] + (run + after) && forall t | t in run :: t.role.Tool?
    ensures var f := Followers(m, KnownOnly(run, known), after);
            && (forall t | t in f :: t.role.Tool? && t.toolCallId in known)
            && (forall c | c in Calls(m) :: c.id in known && (c.id in ResultIds(f) || c.id in ResultIds(after)))
            && (forall id | id in known && id in ResultIds(ms) :: id in ResultIds(f) || id in ResultIds(after))
    ensures CallIds(ms) == (set c | c in Calls(m) :: c.id) + CallIds(after)
  {
    CallsKnown(ms, known);
    FollowersFacts(m, run, after, known);
    KeptTurnRegions(ms[0], run, after);
  }

  /** A kept turn: the message m, the results f that follow it, and the input left over.
      Contiguous absorbing and the look-ahead together cover every call of the turn. */
  lemma KeptTurn(ms: seq<Message>, known: set<string>, activeModel: string)
    returns (m: Message, f: seq<Message>, after: seq<Message>)
    requires CallIds(ms) <= known && Kept(ms, activeModel)
    ensures m == Sanitized(ms[0], activeModel) && Calls(m) == Calls(ms[0])
    ensures after == ms[1..][RunLength(ms[1..])..] && |after| < |ms|
    ensures f == Followers(m, KnownOnly(ms[1..][..RunLength(ms[1..])], known), after)
    ensures Repaired(ms, known, activeModel) == [m] + (f + Repaired(after, known, activeModel))
    ensures forall t | t in f :: t.role.Tool? && t.toolCallId in known
    ensures forall c | c in Calls(m) :: c.id in known && (c.id in ResultIds(f) || c.id in ResultIds(after))
    ensures forall id | id in known && id in ResultIds(ms) :: id in ResultIds(f) || id in ResultIds(after)
    ensures CallIds(ms) == (set c | c in Calls(m) :: c.id) + CallIds(after)
  {
    var rest := ms[1..];
    var n := RunLength(rest);
    var run := rest[..n];
    m, after := Sanitized(ms[0], activeModel), rest[n..];
    f := Followers(m, KnownOnly(run, known), after);
    SanitizedKeepsCalls(ms[0], activeModel);
    assert ms == [ms[0]] + (run + after);
    KeptTurnCovers(ms, known, m, run, after);
    KeptTurnUnfolds(ms, known, activeModel, m, run, after);
  }

  /** Everything that is not a kept turn: the head stays or goes, alone. */
  lemma OtherHead(ms: seq<Message>, known: set<string>, activeModel: string)
    requires CallIds(ms) <= known && ms != [] && !Kept(ms, activeModel)
    ensures CallIds(ms[1..]) == CallIds(ms)
    ensures Repaired(ms, known, activeModel)
         == (if ms[0].role.Assistant? || (ms[0].role.Tool? && ms[0].toolCallId !in known) then [] else [ms[0]])
            + Repaired(ms[1..], known, activeModel)
    ensures forall id | id in ResultIds(ms) ::
              id in ResultIds(ms[1..]) || (ms[0].role.Tool? && id == ms[0].toolCallId)
  {
    assert ms == [ms[0]] + ms[1..];
    HeadCalls(ms[0], ms[1..]);
    if ms[0].role.Assistant? {
      DroppedTurnMakesNoCalls(ms[0], activeModel);
    }
  }

  // ---------- results and calls that survive ----------

  /** A result that answers some call is never lost. */
  lemma {:induction false} ResultsSurvive(ms: seq<Message>, known: set<string>, activeModel: string, id: string)
    requires CallIds(ms) <= known && id in known && id in ResultIds(ms)
    ensures id in ResultIds(Repaired(ms, known, activeModel))
    decreases |ms|
  {
    if Kept(ms, activeModel) {
      var m, f, after := KeptTurn(ms, known, activeModel);
      var tail := Repaired(after, known, activeModel);
      HeadCalls(m, f + tail);
      ResultIdsConcat(f, tail);
      if id !in ResultIds(f) {
        ResultsSurvive(after, known, activeModel, id);
      }
    } else {
      OtherHead(ms, known, activeModel);
      HeadCalls(ms[0], Repaired(ms[1..], known, activeModel));
      if id in ResultIds(ms[1..]) {
        ResultsSurvive(ms[1..], known, activeModel, id);
      }
    }
  }

  /** A call is never lost, and no call is invented. */
  lemma {:induction false} CallsSurvive(ms: seq<Message>, known: set<string>, activeModel: string)
    requires CallIds(ms) <= known
    ensures CallIds(Repaired(ms, known, activeModel)) == CallIds(ms)
    decreases |ms|
  {
    if Kept(ms, activeModel) {
      var m, f, after := KeptTurn(ms, known, activeModel);
      var tail := Repaired(after, known, activeModel);
      CallsSurvive(after, known, activeModel);
      HeadCalls(m, f + tail);
      CallIdsConcat(f, tail);
      ToolsMakeNoCalls(f);
    } else if ms != [] {
      OtherHead(ms, known, activeModel);
      CallsSurvive(ms[1..], known, activeModel);
      HeadCalls(ms[0], Repaired(ms[1..], known, activeModel));
    }
  }

  // ---------- answered, no orphans, no empty turns ----------

  lemma {:induction false} AnsweredPrepend(tools: seq<Message>, ms: seq<Message>)
    requires forall t | t in tools :: t.role.Tool?
    requires Answered(ms)
    ensures Answered(tools + ms)
  {
    if tools == [] {
      assert tools + ms == ms;
    } else {
      assert tools[0] in tools;
      AnsweredPrepend(tools[1..], ms);
      assert (tools + ms)[1..] == tools[1..] + ms;
    }
  }

  lemma AnsweredCons(m: Message, ms: seq<Message>)
    requires Answered(ms)
    requires m.role.Assistant? ==> forall c | c in Calls(m) :: c.id in ResultIds(ms)
    ensures Answered([m] + ms)
  {
    assert ([m] + ms)[1..] == ms;
  }

  lemma {:induction false} RepairedAnswered(ms: seq<Message>, known: set<string>, activeModel: string)
    requires CallIds(ms) <= known
    ensures Answered(Repaired(ms, known, activeModel))
    decreases |ms|
  {
    if Kept(ms, activeModel) {
      var m, f, after := KeptTurn(ms, known, activeModel);
      var tail := Repaired(after, known, activeModel);
      RepairedAnswered(after, known, activeModel);
      AnsweredPrepend(f, tail);
      ResultIdsConcat(f, tail);
      forall c | c in Calls(m) ensures c.id in ResultIds(f + tail) {
        if c.id !in ResultIds(f) {
          ResultsSurvive(after, known, activeModel, c.id);
        }
      }
      AnsweredCons(m, f + tail);
    } else if ms != [] {
      OtherHead(ms, known, activeModel);
      RepairedAnswered(ms[1..], known, activeModel);
      if !ms[0].role.Assistant? {
        AnsweredCons(ms[0], Repaired(ms[1..], known, activeModel));
      }
    }
  }

  /** What every single message of the output satisfies. */
  ghost predicate Presentable(m: Message, known: set<string>, activeModel: string) {
    && (m.role.Assistant? ==> Meaningful(m) && Sanitized(m, activeModel) == m)
    && (m.role.Tool? ==> m.toolCallId in known)
  }

  lemma {:induction false} RepairedPresentable(ms: seq<Message>, known: set<string>, activeModel: string)
    requires CallIds(ms) <= known
    ensures forall m | m in Repaired(ms, known, activeModel) :: Presentable(m, known, activeModel)
    decreases |ms|
  {
    if Kept(ms, activeModel) {
      var m, f, after := KeptTurn(ms, known, activeModel);
      SanitizedIdempotent(ms[0], activeModel);
      RepairedPresentable(after, known, activeModel);
    } else if ms != [] {
      OtherHead(ms, known, activeModel);
      RepairedPresentable(ms[1..], known, activeModel);
    }
  }

  /** The turn is the active model's or of no known one; or it has no thinking and no signature. */
  ghost predicate NothingForeign(m: Message, activeModel: string) {
    || activeModel == "" || m.model == "" || m.model == activeModel
    || forall p | p in m.content :: !p.Thinking? && p.signature == ""
  }

  lemma {:induction false} StrippedIsBare(parts: seq<Part>)
    ensures forall p | p in StripParts(parts) :: !p.Thinking? && p.signature == ""
  {
    if parts != [] {
      StrippedIsBare(parts[1..]);
    }
  }

  lemma {:induction false} BareIsStripped(parts: seq<Part>)
    requires forall p | p in parts :: !p.Thinking? && p.signature == ""
    ensures StripParts(parts) == parts
  {
    if parts != [] {
      assert parts[0] in parts && forall p | p in parts[1..] :: p in parts;
      BareIsStripped(parts[1..]);
      assert parts == [parts[0]] + parts[1..] && Unsigned(parts[0]) == parts[0];
    }
  }

  lemma NothingForeignIff(m: Message, activeModel: string)
    ensures NothingForeign(m, activeModel) <==> Sanitized(m, activeModel) == m
  {
    StrippedIsBare(m.content);
    if forall p | p in m.content :: !p.Thinking? && p.signature == "" {
      BareIsStripped(m.content);
    }
    assert Sanitized(m, activeModel) == m && Foreign(m, activeModel) ==> StripParts(m.content) == m.content;
  }

  /** Every call gets a result with its ID at some later position; no result is an orphan;
      no assistant turn is empty; no foreign thinking or signature is left. */
  lemma HardenedPromises(ms: seq<Message>, activeModel: string)
    ensures Answered(Hardened(ms, activeModel))
    ensures NoOrphans(Hardened(ms, activeModel))
    ensures NoEmptyTurns(Hardened(ms, activeModel))
    ensures forall m | m in Hardened(ms, activeModel) && m.role.Assistant? :: NothingForeign(m, activeModel)
  {
    var renamed := Renamed(ms);
    RepairedAnswered(renamed, CallIds(renamed), activeModel);
    RepairedPresentable(renamed, CallIds(renamed), activeModel);
    CallsSurvive(renamed, CallIds(renamed), activeModel);
    forall m | m in Hardened(ms, activeModel) && m.role.Assistant? ensures NothingForeign(m, activeModel) {
      NothingForeignIff(m, activeModel);
    }
  }

  // ---------- fixed points ----------

  /** The transcripts that need no repair. */
  ghost predicate Acceptable(ms: seq<Message>, activeModel: string) {
    && NamesFine(ms)
    && Answered(ms)
    && NoOrphans(ms)
    && NoEmptyTurns(ms)
    && (forall m | m in ms && m.role.Assistant? :: NothingForeign(m, activeModel))
  }

  lemma {:induction false} AnsweredSuffix(ms: seq<Message>, k: nat)
    requires Answered(ms) && k <= |ms|
    ensures Answered(ms[k..])
  {
    if k > 0 {
      AnsweredSuffix(ms[1..], k - 1);
      assert ms[1..][k - 1..] == ms[k..];
    } else {
      assert ms[0..] == ms;
    }
  }

  /** A presentable turn whose calls are all answered keeps its place with its results. */
  lemma TurnUnchanged(m: Message, run: seq<Message>, after: seq<Message>, known: set<string>)
    requires forall t | t in run :: t.role.Tool? && t.toolCallId in known
    requires forall c | c in Calls(m) :: c.id in ResultIds(run + after)
    ensures Followers(m, KnownOnly(run, known), after) + after == run + after
  {
    KnownOnlyAll(run, known);
    ResultIdsConcat(run, after);
    NothingMissing(Calls(m), ResultIds(run) + ResultIds(after));
    assert run + [] == run;
  }

  lemma TurnParts(ms: seq<Message>, run: seq<Message>, after: seq<Message>)
    requires ms != [] && run == ms[1..][..RunLength(ms[1..])] && after == ms[1..][RunLength(ms[1..])..]
    ensures ms[1..] == run + after && ms == [ms[0]] + (run + after)
  {
  }

  lemma KeptTurnUnchanged(ms: seq<Message>, known: set<string>, activeModel: string, run: seq<Message>, after: seq<Message>)
    requires ms != [] && ms[0].role.Assistant? && Presentable(ms[0], known, activeModel)
    requires forall c | c in Calls(ms[0]) :: c.id in ResultIds(ms[1..])
    requires run == ms[1..][..RunLength(ms[1..])] && after == ms[1..][RunLength(ms[1..])..]
    requires forall t | t in run :: t.toolCallId in known
    requires Repaired(after, known, activeModel) == after
    ensures Repaired(ms, known, activeModel) == ms
  {
    var m := ms[0];
    TurnParts(ms, run, after);
    KeptTurnUnfolds(ms, known, activeModel, m, run, after);
    TurnUnchanged(m, run, after, known);
  }

  lemma {:induction false} RepairedUnchanged(ms: seq<Message>, known: set<string>, activeModel: string)
    requires Answered(ms)
    requires forall m | m in ms :: Presentable(m, known, activeModel)
    ensures Repaired(ms, known, activeModel) == ms
    decreases |ms|
  {
    if ms != [] {
      var m, rest := ms[0], ms[1..];
      assert m in ms;
      if m.role.Assistant? {
        var n := RunLength(rest);
        var run, after := rest[..n], rest[n..];
        AnsweredSuffix(rest, n);
        RepairedUnchanged(after, known, activeModel);
        forall t | t in run ensures t.toolCallId in known { assert t in ms; }
        KeptTurnUnchanged(ms, known, activeModel, run, after);
      } else {
        RepairedUnchanged(rest, known, activeModel);
        assert ms == [m] + rest;
      }
    }
  }

  lemma AcceptableUnchanged(ms: seq<Message>, activeModel: string)
    requires Acceptable(ms, activeModel)
    ensures Hardened(ms, activeModel) == ms
  {
    FineNamesUnchanged(ms);
    forall m | m in ms ensures Presentable(m, CallIds(ms), activeModel) {
      NothingForeignIff(m, activeModel);
      if m.role.Tool? {
        assert m.toolCallId in ResultIds(ms);
      }
    }
    RepairedUnchanged(ms, CallIds(ms), activeModel);
  }

  ghost predicate NameFine(m: Message) {
    forall id | id in MessageIds(m) :: id == "" || ValidId(id)
  }

  lemma {:induction false} NamesFineByMessage(ms: seq<Message>)
    ensures NamesFine(ms) <==> forall m | m in ms :: NameFine(m)
  {
    if ms != [] {
      NamesFineByMessage(ms[1..]);
      var own, rest := MessageIds(ms[0]), Ids(ms[1..]);
      assert Ids(ms) == own + rest;
      assert forall id | id in own :: id in own + rest;
      assert forall id | id in rest :: id in own + rest;
      assert forall m | m in ms :: m == ms[0] || m in ms[1..];
      assert ms[0] in ms && forall m | m in ms[1..] :: m in ms;
    }
  }

  lemma {:induction false} StripKeepsIds(parts: seq<Part>)
    ensures PartIds(StripParts(parts)) == PartIds(parts)
  {
    if parts != [] {
      StripKeepsIds(parts[1..]);
      if parts[0].Thinking? {
        assert StripParts(parts) == StripParts(parts[1..]);
      } else {
        assert StripParts(parts) == [Unsigned(parts[0])] + StripParts(parts[1..]);
        assert StripParts(parts)[1..] == StripParts(parts[1..]);
      }
    }
  }

  lemma {:induction false} CallHasVisitedId(parts: seq<Part>)
    ensures forall c | c in CallsOf(parts) :: c.id in PartIds(parts)
  {
    if parts != [] {
      CallHasVisitedId(parts[1..]);
    }
  }

  lemma StandInNameFine(m: Message, c: ToolCall)
    requires NameFine(m) && c in Calls(m)
    ensures NameFine(Synthetic(c))
  {
    CallHasVisitedId(m.content);
    var parts := Synthetic(c).content;
    assert parts[1..] == [] && PartIds(parts) == [];
  }

  lemma {:induction false} RepairedNamesFine(ms: seq<Message>, known: set<string>, activeModel: string)
    requires CallIds(ms) <= known
    requires forall m | m in ms :: NameFine(m)
    ensures forall m | m in Repaired(ms, known, activeModel) :: NameFine(m)
    decreases |ms|
  {
    if Kept(ms, activeModel) {
      var m, f, after := KeptTurn(ms, known, activeModel);
      StripKeepsIds(ms[0].content);
      assert ms[0] in ms && NameFine(m);
      var run := ms[1..][..RunLength(ms[1..])];
      var present := ResultIds(KnownOnly(run, known)) + ResultIds(after);
      KnownOnlyFacts(run, known);
      MissingFacts(Calls(m), present);
      forall t | t in f ensures NameFine(t) {
        if t in KnownOnly(run, known) {
          assert t in ms;
        } else {
          var c :| c in Calls(m) && c.id !in present && t == Synthetic(c);
          StandInNameFine(m, c);
        }
      }
      RepairedNamesFine(after, known, activeModel);
    } else if ms != [] {
      OtherHead(ms, known, activeModel);
      RepairedNamesFine(ms[1..], known, activeModel);
    }
  }

  lemma HardenedAcceptable(ms: seq<Message>, activeModel: string)
    requires FitsInMemory(ms)
    ensures Acceptable(Hardened(ms, activeModel), activeModel)
  {
    var renamed := Renamed(ms);
    RenamedIsFine(ms);
    NamesFineByMessage(renamed);
    RepairedNamesFine(renamed, CallIds(renamed), activeModel);
    NamesFineByMessage(Hardened(ms, activeModel));
    HardenedPromises(ms, activeModel);
  }

  /** Hardening changes a transcript exactly when one of the five invariants fails. */
  lemma UnchangedIffAcceptable(ms: seq<Message>, activeModel: string)
    requires FitsInMemory(ms)
    ensures Hardened(ms, activeModel) == ms <==> Acceptable(ms, activeModel)
  {
    if Acceptable(ms, activeModel) {
      AcceptableUnchanged(ms, activeModel);
    }
    HardenedAcceptable(ms, activeModel);
  }

  lemma HardenIdempotent(ms: seq<Message>, activeModel: string)
    requires FitsInMemory(ms)
    ensures Hardened(Hardened(ms, activeModel), activeModel) == Hardened(ms, activeModel)
  {
    HardenedAcceptable(ms, activeModel);
    AcceptableUnchanged(Hardened(ms, activeModel), activeModel);
  }

  // ---------- what is kept ----------

  ghost predicate Survives(m: Message, known: set<string>, activeModel: string) {
    match m.role
    case Assistant => Meaningful(Sanitized(m, activeModel))
    case Tool => m.toolCallId in known
    case _ => true
  }

  /** The input messages that the output keeps, in order, sanitised. */
  ghost function Survivors(ms: seq<Message>, known: set<string>, activeModel: string): seq<Message> {
    if ms == [] then []
    else (if !Survives(ms[0], known, activeModel) then []
          else [if ms[0].role.Assistant? then Sanitized(ms[0], activeModel) else ms[0]])
         + Survivors(ms[1..], known, activeModel)
  }

  ghost predicate StandIn(m: Message, calls: set<ToolCall>) {
    exists c :: c in calls && m == Synthetic(c)
  }

  /** out is base with nothing but stand-ins for calls of base inserted. */
  ghost predicate OnlyInserts(out: seq<Message>, base: seq<Message>, calls: set<ToolCall>) {
    if out == [] then base == []
    else
      || (base != [] && out[0] == base[0] && OnlyInserts(out[1..], base[1..], calls))
      || (StandIn(out[0], calls) && OnlyInserts(out[1..], base, calls))
  }

  function CallSet(ms: seq<Message>): set<ToolCall> {
    set m, c | m in ms && m.role.Assistant? && c in Calls(m) :: c
  }

  lemma {:induction false} InsertsPrepend(same: seq<Message>, out: seq<Message>, base: seq<Message>, calls: set<ToolCall>)
    requires OnlyInserts(out, base, calls)
    ensures OnlyInserts(same + out, same + base, calls)
  {
    if same == [] {
      assert same + out == out && same + base == base;
    } else {
      InsertsPrepend(same[1..], out, base, calls);
      assert (same + out)[1..] == same[1..] + out && (same + base)[1..] == same[1..] + base;
    }
  }

  lemma {:induction false} InsertsStandIns(made: seq<Message>, out: seq<Message>, base: seq<Message>, calls: set<ToolCall>)
    requires OnlyInserts(out, base, calls)
    requires forall t | t in made :: StandIn(t, calls)
    ensures OnlyInserts(made + out, base, calls)
  {
    if made == [] {
      assert made + out == out;
    } else {
      assert made[0] in made;
      InsertsStandIns(made[1..], out, base, calls);
      assert (made + out)[1..] == made[1..] + out;
    }
  }

  lemma {:induction false} SurvivorsOfRun(run: seq<Message>, after: seq<Message>, known: set<string>, activeModel: string)
    requires forall t | t in run :: t.role.Tool?
    ensures Survivors(run + after, known, activeModel)
         == KnownOnly(run, known) + Survivors(after, known, activeModel)
  {
    if run == [] {
      assert run + after == after;
    } else {
      assert run[0] in run;
      ConcatDrop(run, after, 1);
      SurvivorsOfRun(run[1..], after, known, activeModel);
      var head := if run[0].toolCallId in known then [run[0]] else [];
      Assoc(head, KnownOnly(run[1..], known), Survivors(after, known, activeModel));
    }
  }

  lemma TurnOnlyInserts(m: Message, kept: seq<Message>, made: seq<Message>,
                        tail: seq<Message>, base: seq<Message>, calls: set<ToolCall>)
    requires OnlyInserts(tail, base, calls)
    requires forall t | t in made :: StandIn(t, calls)
    ensures OnlyInserts([m] + ((kept + made) + tail), [m] + (kept + base), calls)
  {
    InsertsStandIns(made, tail, base, calls);
    InsertsPrepend(kept, made + tail, base, calls);
    InsertsPrepend([m], kept + (made + tail), kept + base, calls);
    Assoc(kept, made, tail);
  }

  lemma MissingAreStandIns(cs: seq<ToolCall>, present: set<string>, calls: set<ToolCall>)
    requires forall c | c in cs :: c in calls
    ensures forall t | t in MissingResults(cs, present) :: StandIn(t, calls)
  {
    MissingFacts(cs, present);
    forall t | t in MissingResults(cs, present) ensures StandIn(t, calls) {
      var c :| c in cs && c.id !in present && t == Synthetic(c);
      assert c in calls;
    }
  }

  lemma SurvivorsOfTurn(ms: seq<Message>, known: set<string>, activeModel: string)
    requires Kept(ms, activeModel)
    ensures var run := ms[1..][..RunLength(ms[1..])];
            var after := ms[1..][RunLength(ms[1..])..];
            Survivors(ms, known, activeModel)
            == [Sanitized(ms[0], activeModel)] + (KnownOnly(run, known) + Survivors(after, known, activeModel))
  {
    var n := RunLength(ms[1..]);
    assert ms[1..] == ms[1..][..n] + ms[1..][n..];
    SurvivorsOfRun(ms[1..][..n], ms[1..][n..], known, activeModel);
  }

  lemma CallSetParts(ms: seq<Message>, k: nat)
    requires 1 <= k <= |ms| && ms[0].role.Assistant?
    ensures CallSet(ms[k..]) <= CallSet(ms)
    ensures forall c | c in Calls(ms[0]) :: c in CallSet(ms)
  {
    assert ms[0] in ms;
    assert forall m | m in ms[k..] :: m in ms;
  }

  lemma {:induction false} RepairedOnlyInserts(ms: seq<Message>, known: set<string>, activeModel: string, calls: set<ToolCall>)
    requires CallIds(ms) <= known && CallSet(ms) <= calls
    ensures OnlyInserts(Repaired(ms, known, activeModel), Survivors(ms, known, activeModel), calls)
    decreases |ms|
  {
    if Kept(ms, activeModel) {
      var n := RunLength(ms[1..]);
      var run := ms[1..][..n];
      var m, f, after := KeptTurn(ms, known, activeModel);
      var kept := KnownOnly(run, known);
      var present := ResultIds(kept) + ResultIds(after);
      assert after == ms[1 + n..];
      CallSetParts(ms, 1 + n);
      MissingAreStandIns(Calls(m), present, calls);
      SurvivorsOfTurn(ms, known, activeModel);
      RepairedOnlyInserts(after, known, activeModel, calls);
      TurnOnlyInserts(m, kept, MissingResults(Calls(m), present), Repaired(after, known, activeModel),
                      Survivors(after, known, activeModel), calls);
    } else if ms != [] {
      OtherHead(ms, known, activeModel);
      assert forall m | m in ms[1..] :: m in ms;
      RepairedOnlyInserts(ms[1..], known, activeModel, calls);
      var tail, base := Repaired(ms[1..], known, activeModel), Survivors(ms[1..], known, activeModel);
      if Survives(ms[0], known, activeModel) {
        InsertsPrepend([ms[0]], tail, base, calls);
      } else {
        assert Repaired(ms, known, activeModel) == tail;
        assert Survivors(ms, known, activeModel) == base;
      }
    }
  }

  /** The output is the surviving input, in order, with nothing added but stand-ins for its calls. */
  lemma HardenedOnlyInserts(ms: seq<Message>, activeModel: string)
    ensures var renamed := Renamed(ms);
            OnlyInserts(Hardened(ms, activeModel), Survivors(renamed, CallIds(renamed), activeModel), CallSet(renamed))
  {
    var renamed := Renamed(ms);
    RepairedOnlyInserts(renamed, CallIds(renamed), activeModel, CallSet(renamed));
  }

  /** Messages that are neither assistant turns nor tool results. */
  ghost function Prompts(ms: seq<Message>): seq<Message> {
    if ms == [] then []
    else (if ms[0].role.Assistant? || ms[0].role.Tool? then [] else [ms[0]]) + Prompts(ms[1..])
  }

  lemma {:induction false} InsertsKeepPrompts(out: seq<Message>, base: seq<Message>, calls: set<ToolCall>)
    requires OnlyInserts(out, base, calls)
    ensures Prompts(out) == Prompts(base)
    decreases |out|
  {
    if out != [] {
      if base != [] && out[0] == base[0] && OnlyInserts(out[1..], base[1..], calls) {
        InsertsKeepPrompts(out[1..], base[1..], calls);
      } else {
        InsertsKeepPrompts(out[1..], base, calls);
      }
    }
  }

  lemma {:induction false} SurvivorsKeepPrompts(ms: seq<Message>, known: set<string>, activeModel: string)
    ensures Prompts(Survivors(ms, known, activeModel)) == Prompts(ms)
  {
    if ms != [] {
      SurvivorsKeepPrompts(ms[1..], known, activeModel);
      var tail := Survivors(ms[1..], known, activeModel);
      if Survives(ms[0], known, activeModel) {
        assert Survivors(ms, known, activeModel)[1..] == tail;
      } else {
        assert Survivors(ms, known, activeModel) == tail;
      }
    }
  }

  /** Every user message is kept, in order. */
  lemma HardenedKeepsPrompts(ms: seq<Message>, activeModel: string)
    ensures Prompts(Hardened(ms, activeModel)) == Prompts(Renamed(ms))
  {
    var renamed := Renamed(ms);
    HardenedOnlyInserts(ms, activeModel);
    InsertsKeepPrompts(Hardened(ms, activeModel), Survivors(renamed, CallIds(renamed), activeModel), CallSet(renamed));
    SurvivorsKeepPrompts(renamed, CallIds(renamed), activeModel);
  }
}
