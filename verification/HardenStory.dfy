/** What hardening leaves of every message, field by field (loop/harden.go): the output told from
    the input without the functions that compute it. */
module HardenStory {
  import opened Sequences
  import opened Transcript
  import opened CallIdNames
  import opened Harden
  import opened HardenTheorems

  /** How the pass names IDs. */
  type Names = string -> string

  /** The turn is the active model's own, or one of the models is unknown. */
  predicate OwnTurn(m: Message, activeModel: string) {
    activeModel == "" || m.model == "" || m.model == activeModel
  }

  /** b is part a under its names; what is not the model's own loses its signature. */
  ghost predicate PartCopy(name: Names, own: bool, a: Part, b: Part) {
    match a
    case Text(text, s) => b == Text(text, if own then s else "")
    case Thinking(thinking, s) => own && b == a
    case Image(image, s) => b == Image(image, if own then s else "")
    case Call(None, s) => b == Call(None, if own then s else "")
    case Call(Some(c), s) => b == Call(Some(ToolCall(name(c.id), c.name, c.arguments)), if own then s else "")
    case OtherPart(kind, s) => b == OtherPart(kind, if own then s else "")
  }

  /** The parts in order, without thinking that is not the model's own. */
  ghost predicate PartsCopy(name: Names, own: bool, a: seq<Part>, b: seq<Part>) {
    if a == [] then b == []
    else if a[0].Thinking? && !own then PartsCopy(name, own, a[1..], b)
    else b != [] && PartCopy(name, own, a[0], b[0]) && PartsCopy(name, own, a[1..], b[1..])
  }

  ghost predicate MessageCopy(name: Names, activeModel: string, a: Message, b: Message) {
    && b.role == a.role && b.toolName == a.toolName && b.isError == a.isError
    && b.model == a.model && b.stopReason == a.stopReason && b.metadata == a.metadata
    && b.toolCallId == (if a.role.Tool? && a.toolCallId != "" then name(a.toolCallId) else a.toolCallId)
    && PartsCopy(name, !a.role.Assistant? || OwnTurn(a, activeModel), a.content, b.content)
  }

  /** A result that says, in its text, its flag and its metadata, that the call never ran to its end. */
  ghost predicate SaysInterrupted(t: Message, calls: set<ToolCall>) {
    && t.role.Tool? && t.isError && t.content == [Text(INTERRUPTED, "")]
    && t.metadata == map["glue/synthetic" := Flag(true)] && t.model == "" && t.stopReason == ""
    && exists c :: c in calls && t.toolCallId == c.id && t.toolName == c.name
  }

  /** A turn of which nothing worth replaying is left, or a result without a call. */
  ghost predicate Dropped(name: Names, known: set<string>, activeModel: string, m: Message) {
    || (m.role.Assistant? && forall k | 0 <= k < |m.content| ::
          PartMeaningful(m.content[k]) ==> m.content[k].Thinking? && !OwnTurn(m, activeModel))
    || (m.role.Tool? && (if m.toolCallId != "" then name(m.toolCallId) else "") !in known)
  }

  /** out is ms message by message, some dropped, with interrupted results inserted. */
  ghost predicate Hardens(name: Names, known: set<string>, calls: set<ToolCall>, activeModel: string,
                          ms: seq<Message>, out: seq<Message>)
    decreases |ms| + |out|
  {
    || (ms == [] && out == [])
    || (ms != [] && out != [] && MessageCopy(name, activeModel, ms[0], out[0])
        && Hardens(name, known, calls, activeModel, ms[1..], out[1..]))
    || (ms != [] && Dropped(name, known, activeModel, ms[0])
        && Hardens(name, known, calls, activeModel, ms[1..], out))
    || (out != [] && SaysInterrupted(out[0], calls)
        && Hardens(name, known, calls, activeModel, ms, out[1..]))
  }

  // ---------- one message ----------

  function NamesOf(st: Renaming): Names { (id: string) => Apply(st, id) }

  lemma {:induction false} StrippedIsCopy(st: Renaming, parts: seq<Part>)
    ensures PartsCopy(NamesOf(st), false, parts, StripParts(RenameParts(st, parts)))
  {
    if parts != [] {
      var renamed := RenameParts(st, parts);
      assert renamed[1..] == RenameParts(st, parts[1..]);
      StrippedIsCopy(st, parts[1..]);
      if parts[0].Thinking? {
        assert StripParts(renamed) == StripParts(renamed[1..]);
      } else {
        assert StripParts(renamed)[1..] == StripParts(renamed[1..]);
      }
    }
  }

  lemma {:induction false} RenamedIsCopy(st: Renaming, parts: seq<Part>)
    ensures PartsCopy(NamesOf(st), true, parts, RenameParts(st, parts))
  {
    if parts != [] {
      assert RenameParts(st, parts)[1..] == RenameParts(st, parts[1..]);
      RenamedIsCopy(st, parts[1..]);
    }
  }

  lemma SurvivorIsCopy(st: Renaming, m: Message, activeModel: string)
    ensures var r := RenameMessage(st, m);
            MessageCopy(NamesOf(st), activeModel, m, if m.role.Assistant? then Sanitized(r, activeModel) else r)
  {
    StrippedIsCopy(st, m.content);
    RenamedIsCopy(st, m.content);
  }

  /** A meaningful part that is no thinking stays meaningful. */
  lemma {:induction false} StrippedMeaning(parts: seq<Part>, k: nat)
    requires k < |parts| && PartMeaningful(parts[k]) && !parts[k].Thinking?
    ensures exists j | 0 <= j < |StripParts(parts)| :: PartMeaningful(StripParts(parts)[j])
  {
    var rest, out := parts[1..], StripParts(parts);
    if k == 0 {
      assert out[0] == Unsigned(parts[0]) && PartMeaningful(out[0]);
    } else {
      StrippedMeaning(rest, k - 1);
      var j :| 0 <= j < |StripParts(rest)| && PartMeaningful(StripParts(rest)[j]);
      var skip := if parts[0].Thinking? then 0 else 1;
      assert out[j + skip] == StripParts(rest)[j];
    }
  }

  lemma LostIsDropped(st: Renaming, m: Message, known: set<string>, activeModel: string)
    requires "" !in st.idMap && !Survives(RenameMessage(st, m), known, activeModel)
    ensures Dropped(NamesOf(st), known, activeModel, m)
  {
    var r := RenameMessage(st, m);
    if m.role.Assistant? {
      forall k | 0 <= k < |m.content| && PartMeaningful(m.content[k])
        ensures m.content[k].Thinking? && !OwnTurn(m, activeModel)
      {
        assert PartMeaningful(r.content[k]) && (r.content[k].Thinking? <==> m.content[k].Thinking?);
        if !m.content[k].Thinking? {
          StrippedMeaning(r.content, k);
        }
      }
    }
  }

  // ---------- the whole output ----------

  lemma StandInSays(t: Message, calls: set<ToolCall>)
    requires StandIn(t, calls)
    ensures SaysInterrupted(t, calls)
  {
  }

  lemma {:induction false} InsertsTell(st: Renaming, known: set<string>, calls: set<ToolCall>, activeModel: string,
                                       ms: seq<Message>, out: seq<Message>)
    requires "" !in st.idMap
    requires OnlyInserts(out, Survivors(RenameAll(st, ms), known, activeModel), calls)
    ensures Hardens(NamesOf(st), known, calls, activeModel, ms, out)
    decreases |ms| + |out|
  {
    var base := Survivors(RenameAll(st, ms), known, activeModel);
    if ms == [] {
      if out != [] {
        StandInSays(out[0], calls);
        InsertsTell(st, known, calls, activeModel, ms, out[1..]);
      }
    } else {
      var rest := Survivors(RenameAll(st, ms[1..]), known, activeModel);
      assert RenameAll(st, ms)[1..] == RenameAll(st, ms[1..]);
      if !Survives(RenameMessage(st, ms[0]), known, activeModel) {
        assert base == rest;
        LostIsDropped(st, ms[0], known, activeModel);
        InsertsTell(st, known, calls, activeModel, ms[1..], out);
      } else {
        assert base[1..] == rest;
        if out[0] == base[0] && OnlyInserts(out[1..], rest, calls) {
          SurvivorIsCopy(st, ms[0], activeModel);
          InsertsTell(st, known, calls, activeModel, ms[1..], out[1..]);
        } else {
          StandInSays(out[0], calls);
          InsertsTell(st, known, calls, activeModel, ms, out[1..]);
        }
      }
    }
  }

  /** Hardening keeps every message in order and in all its fields, under the pass's names; a turn
      of another model loses its thinking and its signatures and nothing else; turns with nothing
      left and results without a call go; and only results that say they are stand-ins are new. */
  lemma HardenedTold(ms: seq<Message>, activeModel: string)
    ensures Hardens(NamesOf(Final(ms)), CallIds(Renamed(ms)), CallSet(Renamed(ms)), activeModel,
                    ms, Hardened(ms, activeModel))
  {
    FinalSound(ms);
    HardenedOnlyInserts(ms, activeModel);
    InsertsTell(Final(ms), CallIds(Renamed(ms)), CallSet(Renamed(ms)), activeModel, ms, Hardened(ms, activeModel));
  }

  // ---------- where everything stands ----------

  function Same(): Names { (id: string) => id }

  /** The known ones among these results, in order. */
  ghost predicate KnownCopied(run: seq<Message>, known: set<string>, kept: seq<Message>) {
    if run == [] then kept == []
    else if run[0].toolCallId !in known then KnownCopied(run[1..], known, kept)
    else kept != [] && kept[0] == run[0] && KnownCopied(run[1..], known, kept[1..])
  }

  /** A stand-in for every call whose ID is not among these, in call order. */
  ghost predicate Missed(calls: seq<ToolCall>, present: set<string>, made: seq<Message>) {
    if calls == [] then made == []
    else if calls[0].id in present then Missed(calls[1..], present, made)
    else made != [] && SaysInterrupted(made[0], {calls[0]}) && Missed(calls[1..], present, made[1..])
  }

  /** Nothing worth replaying is left of the turn for this model. */
  ghost predicate TurnLost(m: Message, activeModel: string) {
    forall k | 0 <= k < |m.content| :: PartMeaningful(m.content[k]) ==> m.content[k].Thinking? && !OwnTurn(m, activeModel)
  }

  /** A turn, the results that follow it at once, and the stand-ins for calls without a result
      there or later on. */
  ghost predicate TurnRebuilt(known: set<string>, activeModel: string, ms: seq<Message>, out: seq<Message>,
                              n: nat, kept: seq<Message>, made: seq<Message>)
    requires ms != []
  {
    && n < |ms| && (forall k | 1 <= k <= n :: ms[k].role.Tool?) && (n + 1 < |ms| ==> !ms[n + 1].role.Tool?)
    && 1 + |kept| + |made| <= |out| && MessageCopy(Same(), activeModel, ms[0], out[0])
    && out[1..][..|kept|] == kept && out[1..][|kept|..][..|made|] == made
    && KnownCopied(ms[1..][..n], known, kept)
    && Missed(Calls(ms[0]), ResultIds(kept) + ResultIds(ms[1..][n..]), made)
  }

  ghost predicate Rebuilds(known: set<string>, activeModel: string, ms: seq<Message>, out: seq<Message>)
    decreases |ms|
  {
    if ms == [] then out == []
    else if ms[0].role.Assistant? && !TurnLost(ms[0], activeModel) then
      exists n: nat, kept: seq<Message>, made: seq<Message> :: TurnRebuilt(known, activeModel, ms, out, n, kept, made)
        && Rebuilds(known, activeModel, ms[1..][n..], out[1..][|kept|..][|made|..])
    else if ms[0].role.Assistant? || (ms[0].role.Tool? && ms[0].toolCallId !in known)
    then Rebuilds(known, activeModel, ms[1..], out)
    else out != [] && out[0] == ms[0] && Rebuilds(known, activeModel, ms[1..], out[1..])
  }

  lemma {:induction false} StripTold(parts: seq<Part>)
    ensures PartsCopy(Same(), false, parts, StripParts(parts)) && PartsCopy(Same(), true, parts, parts)
  {
    if parts != [] {
      StripTold(parts[1..]);
      if parts[0].Thinking? {
        assert StripParts(parts) == StripParts(parts[1..]);
      } else {
        assert StripParts(parts)[1..] == StripParts(parts[1..]);
      }
    }
  }

  lemma {:induction false} KnownIsCopied(run: seq<Message>, known: set<string>)
    ensures KnownCopied(run, known, KnownOnly(run, known))
  {
    if run != [] {
      KnownIsCopied(run[1..], known);
      var rest := KnownOnly(run[1..], known);
      assert KnownOnly(run, known) == if run[0].toolCallId in known then [run[0]] + rest else rest;
    }
  }

  lemma {:induction false} MissingIsMissed(calls: seq<ToolCall>, present: set<string>)
    ensures Missed(calls, present, MissingResults(calls, present))
  {
    if calls != [] {
      MissingIsMissed(calls[1..], present);
      var rest := MissingResults(calls[1..], present);
      assert MissingResults(calls, present) == if calls[0].id in present then rest else [Synthetic(calls[0])] + rest;
    }
  }

  lemma {:induction false} StripLeavesNothing(parts: seq<Part>)
    requires forall k | 0 <= k < |parts| && PartMeaningful(parts[k]) :: parts[k].Thinking?
    ensures forall p | p in StripParts(parts) :: !PartMeaningful(p)
  {
    if parts != [] {
      assert forall k | 0 <= k < |parts[1..]| :: parts[1..][k] == parts[k + 1];
      StripLeavesNothing(parts[1..]);
    }
  }

  lemma LostIff(m: Message, activeModel: string)
    ensures TurnLost(m, activeModel) <==> !Meaningful(Sanitized(m, activeModel))
  {
    if TurnLost(m, activeModel) {
      if Foreign(m, activeModel) {
        StripLeavesNothing(m.content);
      }
    } else {
      var k :| 0 <= k < |m.content| && PartMeaningful(m.content[k]) && !(m.content[k].Thinking? && !OwnTurn(m, activeModel));
      if Foreign(m, activeModel) {
        StrippedMeaning(m.content, k);
      }
    }
  }

  lemma RunAhead(ms: seq<Message>)
    requires ms != []
    ensures var n := RunLength(ms[1..]);
            n < |ms| && (forall k | 1 <= k <= n :: ms[k].role.Tool?) && (n + 1 < |ms| ==> !ms[n + 1].role.Tool?)
  {
    assert forall k | 1 <= k < |ms| :: ms[k] == ms[1..][k - 1];
  }

  lemma Laid(m: Message, kept: seq<Message>, made: seq<Message>, rest: seq<Message>)
    ensures var out := [m] + kept + made + rest;
            out[0] == m && out[1..][..|kept|] == kept && out[1..][|kept|..][..|made|] == made && out[1..][|kept|..][|made|..] == rest
  {
    var out := [m] + kept + made + rest;
    assert out[1..] == kept + (made + rest) && out[1..][|kept|..] == made + rest;
  }

  lemma TurnIsRebuilt(known: set<string>, activeModel: string, ms: seq<Message>, rest: seq<Message>)
    returns (n: nat, kept: seq<Message>, made: seq<Message>)
    requires ms != [] && ms[0].role.Assistant?
    ensures n == RunLength(ms[1..]) && kept == KnownOnly(ms[1..][..n], known)
    ensures made == MissingResults(Calls(ms[0]), ResultIds(kept) + ResultIds(ms[1..][n..]))
    ensures var out := [Sanitized(ms[0], activeModel)] + kept + made + rest;
            TurnRebuilt(known, activeModel, ms, out, n, kept, made) && out[1..][|kept|..][|made|..] == rest
  {
    n := RunLength(ms[1..]);
    kept := KnownOnly(ms[1..][..n], known);
    made := MissingResults(Calls(ms[0]), ResultIds(kept) + ResultIds(ms[1..][n..]));
    RunAhead(ms);
    Laid(Sanitized(ms[0], activeModel), kept, made, rest);
    StripTold(ms[0].content);
    KnownIsCopied(ms[1..][..n], known);
    MissingIsMissed(Calls(ms[0]), ResultIds(kept) + ResultIds(ms[1..][n..]));
  }

  lemma {:induction false} RepairRebuilds(known: set<string>, activeModel: string, ms: seq<Message>)
    ensures Rebuilds(known, activeModel, ms, Repaired(ms, known, activeModel))
    decreases |ms|
  {
    if ms != [] {
      LostIff(ms[0], activeModel);
      if ms[0].role.Assistant? && !TurnLost(ms[0], activeModel) {
        var after := ms[1..][RunLength(ms[1..])..];
        RepairRebuilds(known, activeModel, after);
        SanitizedKeepsCalls(ms[0], activeModel);
        var n, kept, made := TurnIsRebuilt(known, activeModel, ms, Repaired(after, known, activeModel));
      } else {
        RepairRebuilds(known, activeModel, ms[1..]);
        var rest := Repaired(ms[1..], known, activeModel);
        assert Repaired(ms, known, activeModel) == rest || Repaired(ms, known, activeModel) == [ms[0]] + rest;
      }
    }
  }

  /** Message by message, with the names of the pass: a turn comes with the known results that
      follow it at once and then, in call order, with one stand-in for each of its calls that has
      no result there or later; everything else keeps its place. */
  lemma RepairTold(ms: seq<Message>, activeModel: string)
    ensures Rebuilds(CallIds(Renamed(ms)), activeModel, Renamed(ms), Hardened(ms, activeModel))
  {
    RepairRebuilds(CallIds(Renamed(ms)), activeModel, Renamed(ms));
  }
}
