/** The loop guardrails, loop/guardrails.go: streaks of identical calls and of failing
    rounds are met first with a corrective message, then with a halt. */
module Guardrails {
  import opened Transcript

  const DEFAULT_REPEAT_NUDGE := 3
  const DEFAULT_REPEAT_HALT := 5
  const DEFAULT_MISTAKE_NUDGE := 3
  const DEFAULT_MISTAKE_HALT := 6

  datatype Policy = Policy(disabled: bool, repeatNudge: int, repeatHalt: int, mistakeNudge: int, mistakeHalt: int) {
    function WithDefaults(): (p: Policy)
      ensures p.disabled == disabled
      ensures p.repeatNudge >= 1 && p.repeatHalt >= 1 && p.mistakeNudge >= 1 && p.mistakeHalt >= 1
      ensures repeatNudge > 0 ==> p.repeatNudge == repeatNudge
      ensures repeatHalt > 0 ==> p.repeatHalt == repeatHalt
      ensures mistakeNudge > 0 ==> p.mistakeNudge == mistakeNudge
      ensures mistakeHalt > 0 ==> p.mistakeHalt == mistakeHalt
    {
      Policy(disabled,
             if repeatNudge <= 0 then DEFAULT_REPEAT_NUDGE else repeatNudge,
             if repeatHalt <= 0 then DEFAULT_REPEAT_HALT else repeatHalt,
             if mistakeNudge <= 0 then DEFAULT_MISTAKE_NUDGE else mistakeNudge,
             if mistakeHalt <= 0 then DEFAULT_MISTAKE_HALT else mistakeHalt)
    }
  }

  datatype Kind = Repeat | Mistakes

  datatype Verdict = Pass | Nudge(kind: Kind, count: int) | Halt(kind: Kind, count: int)

  /** One tool round: the calls of a turn and their results. */
  datatype Round = Round(calls: seq<ToolCall>, results: seq<Message>)

  /** The streak counters and the per-streak nudge flags. */
  datatype Streaks = Streaks(lastCallKey: string, repeatCount: int, repeatNudged: bool,
                             mistakeRounds: int, mistakeNudged: bool)

  /** toolCallKey; a hash in hexadecimal, so never empty. */
  type Key = ToolCall -> string

  ghost predicate NonEmpty(key: Key) { forall c :: key(c) != "" }

  predicate AllErrors(results: seq<Message>) {
    |results| > 0 && forall k | 0 <= k < |results| :: results[k].isError
  }

  function CountRound(s: Streaks, key: Key, round: Round): Streaks {
    var s1 :=
      if |round.calls| == 1 then
        if key(round.calls[0]) == s.lastCallKey then s.(repeatCount := s.repeatCount + 1)
        else s.(lastCallKey := key(round.calls[0]), repeatCount := 1, repeatNudged := false)
      else s.(lastCallKey := "", repeatCount := 0, repeatNudged := false);
    if AllErrors(round.results) then s1.(mistakeRounds := s1.mistakeRounds + 1)
    else s1.(mistakeRounds := 0, mistakeNudged := false)
  }

  function Judge(p: Policy, s: Streaks): (Verdict, Streaks) {
    if s.repeatCount >= p.repeatHalt then (Halt(Repeat, s.repeatCount), s)
    else if s.mistakeRounds >= p.mistakeHalt then (Halt(Mistakes, s.mistakeRounds), s)
    else if s.repeatCount >= p.repeatNudge && !s.repeatNudged then
      (Nudge(Repeat, s.repeatCount), s.(repeatNudged := true))
    else if s.mistakeRounds >= p.mistakeNudge && !s.mistakeNudged then
      (Nudge(Mistakes, s.mistakeRounds), s.(mistakeNudged := true))
    else (Pass, s)
  }

  /** One call of observe with the guardrails enabled. */
  function Step(p: Policy, key: Key, s: Streaks, round: Round): (Verdict, Streaks) {
    Judge(p, CountRound(s, key, round))
  }

  class GuardState {
    const policy: Policy
    const key: Key
    var lastCallKey: string
    var repeatCount: int
    var repeatNudged: bool
    var mistakeRounds: int
    var mistakeNudged: bool

    constructor (policy: Policy, key: Key)
      ensures this.policy == policy.WithDefaults() && this.key == key
      ensures State() == Fresh()
    {
      this.policy, this.key := policy.WithDefaults(), key;
      lastCallKey, repeatCount, repeatNudged := "", 0, false;
      mistakeRounds, mistakeNudged := 0, false;
    }

    function State(): Streaks
      reads this
    {
      Streaks(lastCallKey, repeatCount, repeatNudged, mistakeRounds, mistakeNudged)
    }

    method Observe(calls: seq<ToolCall>, results: seq<Message>) returns (verdict: Verdict)
      modifies this
      ensures policy.disabled ==> verdict == Pass && State() == old(State())
      ensures !policy.disabled ==> (verdict, State()) == Step(policy, key, old(State()), Round(calls, results))
    {
      if policy.disabled { return Pass; }
      if |calls| == 1 {
        var k := key(calls[0]);
        if k == lastCallKey {
          repeatCount := repeatCount + 1;
        } else {
          lastCallKey, repeatCount, repeatNudged := k, 1, false;
        }
      } else {
        lastCallKey, repeatCount, repeatNudged := "", 0, false;
      }
      var allErrors := |results| > 0;
      for i := 0 to |results|
        invariant allErrors <==> |results| > 0 && forall k | 0 <= k < i :: results[k].isError
      {
        if !results[i].isError {
          allErrors := false;
          break;
        }
      }
      if allErrors {
        mistakeRounds := mistakeRounds + 1;
      } else {
        mistakeRounds, mistakeNudged := 0, false;
      }
      if repeatCount >= policy.repeatHalt { return Halt(Repeat, repeatCount); }
      if mistakeRounds >= policy.mistakeHalt { return Halt(Mistakes, mistakeRounds); }
      if repeatCount >= policy.repeatNudge && !repeatNudged {
        repeatNudged := true;
        return Nudge(Repeat, repeatCount);
      }
      if mistakeRounds >= policy.mistakeNudge && !mistakeNudged {
        mistakeNudged := true;
        return Nudge(Mistakes, mistakeRounds);
      }
      return Pass;
    }
  }

  function Fresh(): Streaks { Streaks("", 0, false, 0, false) }

  // ---------- runs ----------

  ghost predicate StepAt(p: Policy, key: Key, rounds: seq<Round>, ss: seq<Streaks>, vs: seq<Verdict>, i: nat)
    requires i < |rounds| == |vs| && |ss| == |rounds| + 1
  {
    Step(p, key, ss[i], rounds[i]) == (vs[i], ss[i + 1])
  }

  /** The verdicts of a whole run, and the streaks before and after every round. */
  ghost predicate Trace(p: Policy, key: Key, rounds: seq<Round>, ss: seq<Streaks>, vs: seq<Verdict>) {
    && |vs| == |rounds| && |ss| == |rounds| + 1 && ss[0] == Fresh()
    && forall i | 0 <= i < |rounds| :: StepAt(p, key, rounds, ss, vs, i)
  }

  /** Every sequence of rounds has a trace. */
  lemma {:induction false} TraceOf(p: Policy, key: Key, rounds: seq<Round>) returns (ss: seq<Streaks>, vs: seq<Verdict>)
    ensures Trace(p, key, rounds, ss, vs)
  {
    if rounds == [] {
      ss, vs := [Fresh()], [];
    } else {
      var n := |rounds| - 1;
      var ss0, vs0 := TraceOf(p, key, rounds[..n]);
      var (v, t) := Step(p, key, ss0[n], rounds[n]);
      ss, vs := ss0 + [t], vs0 + [v];
      forall i | 0 <= i < n ensures StepAt(p, key, rounds, ss, vs, i) {
        assert StepAt(p, key, rounds[..n], ss0, vs0, i);
      }
    }
  }

  /** No halt before round n: a halt ends the run. */
  ghost predicate LiveUpTo(vs: seq<Verdict>, n: int)
    requires 0 <= n <= |vs|
  {
    forall i | 0 <= i < n :: !vs[i].Halt?
  }

  /** Rounds i-k .. i-1 each make one call, all with the same key. */
  ghost predicate SameCall(key: Key, rounds: seq<Round>, i: int, k: int) {
    && 0 <= k <= i <= |rounds|
    && (forall a | i - k <= a < i :: |rounds[a].calls| == 1)
    && (forall a, b | i - k <= a < i && i - k <= b < i ::
          key(rounds[a].calls[0]) == key(rounds[b].calls[0]))
  }

  /** Rounds i-k .. i-1 failed entirely. */
  ghost predicate Failing(rounds: seq<Round>, i: int, k: int) {
    0 <= k <= i <= |rounds| && forall a | i - k <= a < i :: AllErrors(rounds[a].results)
  }

  /** k is the length of the longest streak of identical single calls that ends before round i. */
  ghost predicate IsRepeatStreak(key: Key, rounds: seq<Round>, i: int, k: int) {
    SameCall(key, rounds, i, k) && !SameCall(key, rounds, i, k + 1)
  }

  ghost predicate IsMistakeStreak(rounds: seq<Round>, i: int, k: int) {
    Failing(rounds, i, k) && !Failing(rounds, i, k + 1)
  }

  /** The counters one round leaves; the verdict does not touch them. */
  lemma StepCounts(p: Policy, key: Key, s: Streaks, round: Round)
    ensures var t := Step(p, key, s, round).1;
            && t.lastCallKey == (if |round.calls| == 1 then key(round.calls[0]) else "")
            && t.repeatCount == (if |round.calls| != 1 then 0
                                 else if key(round.calls[0]) == s.lastCallKey then s.repeatCount + 1 else 1)
            && t.mistakeRounds == (if AllErrors(round.results) then s.mistakeRounds + 1 else 0)
  {
  }

  /** The key carried before round i; empty when round i-1 breaks every streak. */
  ghost function CarriedKey(key: Key, rounds: seq<Round>, i: nat): string
    requires i <= |rounds|
  {
    if i > 0 && |rounds[i - 1].calls| == 1 then key(rounds[i - 1].calls[0]) else ""
  }

  lemma RepeatStreakGrows(key: Key, rounds: seq<Round>, i: nat, k: int)
    requires NonEmpty(key) && i < |rounds| && IsRepeatStreak(key, rounds, i, k)
    ensures IsRepeatStreak(key, rounds, i + 1,
                           if |rounds[i].calls| != 1 then 0
                           else if key(rounds[i].calls[0]) == CarriedKey(key, rounds, i) then k + 1 else 1)
  {
    if |rounds[i].calls| == 1 {
      if key(rounds[i].calls[0]) == CarriedKey(key, rounds, i) {
        assert SameCall(key, rounds, i, 1);
        assert SameCall(key, rounds, i + 1, k + 1);
        assert SameCall(key, rounds, i + 1, k + 2) ==> SameCall(key, rounds, i, k + 1);
      }
    }
  }

  /** The repeat counter is the length of the maximal suffix of identical single-call rounds. */
  lemma {:induction false} RepeatCountIsStreak(p: Policy, key: Key, rounds: seq<Round>,
                                               ss: seq<Streaks>, vs: seq<Verdict>, i: nat)
    requires NonEmpty(key) && Trace(p, key, rounds, ss, vs) && i <= |rounds|
    ensures IsRepeatStreak(key, rounds, i, ss[i].repeatCount)
    ensures ss[i].lastCallKey == CarriedKey(key, rounds, i)
  {
    if i > 0 {
      RepeatCountIsStreak(p, key, rounds, ss, vs, i - 1);
      assert StepAt(p, key, rounds, ss, vs, i - 1);
      StepCounts(p, key, ss[i - 1], rounds[i - 1]);
      RepeatStreakGrows(key, rounds, i - 1, ss[i - 1].repeatCount);
    }
  }

  /** The mistake counter is the length of the maximal suffix of rounds that failed entirely. */
  lemma {:induction false} MistakeRoundsIsStreak(p: Policy, key: Key, rounds: seq<Round>,
                                                 ss: seq<Streaks>, vs: seq<Verdict>, i: nat)
    requires Trace(p, key, rounds, ss, vs) && i <= |rounds|
    ensures IsMistakeStreak(rounds, i, ss[i].mistakeRounds)
  {
    if i > 0 {
      MistakeRoundsIsStreak(p, key, rounds, ss, vs, i - 1);
      assert StepAt(p, key, rounds, ss, vs, i - 1);
      StepCounts(p, key, ss[i - 1], rounds[i - 1]);
      var k := ss[i - 1].mistakeRounds;
      assert Failing(rounds, i, k + 2) ==> Failing(rounds, i - 1, k + 1);
    }
  }

  // ---------- every halt was announced ----------

  /** Nudges of the given kind in rounds i-k .. i-1. */
  ghost function Nudges(vs: seq<Verdict>, kind: Kind, i: nat, k: int): nat
    requires k <= i <= |vs|
    decreases i
  {
    if k <= 0 then 0
    else (if vs[i - 1].Nudge? && vs[i - 1].kind == kind then 1 else 0) + Nudges(vs, kind, i - 1, k - 1)
  }

  ghost predicate Sane(p: Policy) {
    p.repeatNudge >= 1 && p.repeatHalt >= 1 && p.mistakeNudge >= 1 && p.mistakeHalt >= 1
  }

  /** Between rounds, the flag says whether the streak has reached the nudge threshold. */
  ghost predicate RepeatOk(p: Policy, s: Streaks) {
    0 <= s.repeatCount < p.repeatHalt && (s.repeatNudged <==> s.repeatCount >= p.repeatNudge)
  }

  lemma StepRepeat(p: Policy, key: Key, s: Streaks, round: Round)
    requires Sane(p) && p.repeatNudge < p.repeatHalt && RepeatOk(p, s)
    ensures var (v, t) := Step(p, key, s, round);
            && (!v.Halt? ==> RepeatOk(p, t))
            && (!v.Halt? ==> (v.Nudge? && v.kind == Repeat <==> t.repeatCount == p.repeatNudge))
            && (v.Halt? && v.kind == Repeat ==> v.count == t.repeatCount == p.repeatHalt)
            && (t.repeatCount == s.repeatCount + 1 || 0 <= t.repeatCount <= 1)
  {
  }

  lemma {:induction false} RepeatNudgedOnce(p: Policy, key: Key, rounds: seq<Round>,
                                            ss: seq<Streaks>, vs: seq<Verdict>, i: nat)
    requires Sane(p) && p.repeatNudge < p.repeatHalt
    requires Trace(p, key, rounds, ss, vs) && i <= |rounds| && LiveUpTo(vs, i)
    ensures RepeatOk(p, ss[i]) && ss[i].repeatCount <= i
    ensures Nudges(vs, Repeat, i, ss[i].repeatCount) == if ss[i].repeatCount >= p.repeatNudge then 1 else 0
  {
    if i > 0 {
      RepeatNudgedOnce(p, key, rounds, ss, vs, i - 1);
      assert StepAt(p, key, rounds, ss, vs, i - 1);
      StepRepeat(p, key, ss[i - 1], rounds[i - 1]);
      assert Nudges(vs, Repeat, i - 1, 0) == 0;
    }
  }

  /** With RepeatNudge below RepeatHalt, a repeat halt comes at the limit exactly, and its
      streak contains exactly one repeat nudge. */
  lemma RepeatHaltAnnounced(p: Policy, key: Key, rounds: seq<Round>, ss: seq<Streaks>, vs: seq<Verdict>, i: nat)
    requires Sane(p) && p.repeatNudge < p.repeatHalt && NonEmpty(key)
    requires Trace(p, key, rounds, ss, vs) && i < |rounds| && LiveUpTo(vs, i)
    requires vs[i].Halt? && vs[i].kind == Repeat
    ensures vs[i].count == p.repeatHalt <= i + 1
    ensures IsRepeatStreak(key, rounds, i + 1, p.repeatHalt)
    ensures Nudges(vs, Repeat, i + 1, p.repeatHalt) == 1
  {
    RepeatNudgedOnce(p, key, rounds, ss, vs, i);
    assert StepAt(p, key, rounds, ss, vs, i);
    StepRepeat(p, key, ss[i], rounds[i]);
    RepeatCountIsStreak(p, key, rounds, ss, vs, i + 1);
  }

  // ---------- every verdict, from the rounds and the verdicts before it ----------

  /** Between rounds, a flag says whether the current streak has been nudged. */
  lemma {:induction false} FlagsTell(p: Policy, key: Key, rounds: seq<Round>, ss: seq<Streaks>, vs: seq<Verdict>, i: nat)
    requires Sane(p) && Trace(p, key, rounds, ss, vs) && i <= |rounds|
    ensures 0 <= ss[i].repeatCount <= i && 0 <= ss[i].mistakeRounds <= i
    ensures ss[i].repeatNudged <==> Nudges(vs, Repeat, i, ss[i].repeatCount) > 0
    ensures ss[i].mistakeNudged <==> Nudges(vs, Mistakes, i, ss[i].mistakeRounds) > 0
  {
    if i > 0 {
      FlagsTell(p, key, rounds, ss, vs, i - 1);
      assert StepAt(p, key, rounds, ss, vs, i - 1);
      assert Nudges(vs, Repeat, i - 1, 0) == 0 && Nudges(vs, Mistakes, i - 1, 0) == 0;
    }
  }

  /** The verdict on round i follows from the two streaks that end with it, of r identical calls
      and of m failed rounds, and from what was already nudged in them: a halt at its limit,
      repeats first; else one nudge a streak from its threshold on, repeats first. */
  lemma VerdictTold(p: Policy, key: Key, rounds: seq<Round>, ss: seq<Streaks>, vs: seq<Verdict>, i: nat)
    returns (r: int, m: int)
    requires Sane(p) && NonEmpty(key) && Trace(p, key, rounds, ss, vs) && i < |rounds|
    ensures IsRepeatStreak(key, rounds, i + 1, r) && IsMistakeStreak(rounds, i + 1, m)
    ensures vs[i] == if r >= p.repeatHalt then Halt(Repeat, r)
                     else if m >= p.mistakeHalt then Halt(Mistakes, m)
                     else if r >= p.repeatNudge && Nudges(vs, Repeat, i, r - 1) == 0 then Nudge(Repeat, r)
                     else if m >= p.mistakeNudge && Nudges(vs, Mistakes, i, m - 1) == 0 then Nudge(Mistakes, m)
                     else Pass
  {
    r, m := ss[i + 1].repeatCount, ss[i + 1].mistakeRounds;
    RepeatCountIsStreak(p, key, rounds, ss, vs, i + 1);
    MistakeRoundsIsStreak(p, key, rounds, ss, vs, i + 1);
    FlagsTell(p, key, rounds, ss, vs, i);
    assert StepAt(p, key, rounds, ss, vs, i);
    assert Nudges(vs, Repeat, i, 0) == 0 && Nudges(vs, Mistakes, i, 0) == 0;
  }

  // ---------- mistakes ----------

  /** A repeat nudge can take the slot of the mistake nudge, but only for one round. */
  ghost predicate MistakeOk(p: Policy, s: Streaks) {
    && 0 <= s.mistakeRounds < p.mistakeHalt
    && (s.mistakeRounds < p.mistakeNudge ==> !s.mistakeNudged)
    && (s.mistakeRounds > p.mistakeNudge ==> s.mistakeNudged)
    && (s.mistakeRounds == p.mistakeNudge && !s.mistakeNudged ==> s.repeatCount == p.repeatNudge && s.repeatNudged)
  }

  /** The thresholds leave room for the mistake nudge before the mistake halt. */
  ghost predicate MistakeRoom(p: Policy) {
    p.mistakeNudge < p.mistakeHalt
    && (p.repeatHalt <= p.repeatNudge || (p.repeatNudge >= 2 && p.mistakeNudge + 1 < p.mistakeHalt))
  }

  ghost predicate CountsOk(p: Policy, s: Streaks) {
    && MistakeOk(p, s)
    && 0 <= s.repeatCount < p.repeatHalt
    && (p.repeatNudge < p.repeatHalt ==> RepeatOk(p, s))
  }

  lemma StepMistake(p: Policy, key: Key, s: Streaks, round: Round)
    requires Sane(p) && MistakeRoom(p) && CountsOk(p, s)
    ensures var (v, t) := Step(p, key, s, round);
            && (!v.Halt? ==> CountsOk(p, t))
            && (!v.Halt? && t.mistakeRounds > 0 ==>
                  (v.Nudge? && v.kind == Mistakes <==> t.mistakeNudged && !s.mistakeNudged))
            && (v.Halt? && v.kind == Mistakes ==> v.count == t.mistakeRounds == p.mistakeHalt && s.mistakeNudged)
            && (t.mistakeRounds == s.mistakeRounds + 1 || (t.mistakeRounds == 0 && !t.mistakeNudged))
            && (t.mistakeRounds > 0 && s.mistakeNudged ==> t.mistakeNudged)
  {
  }

  lemma {:induction false} MistakeNudgedOnce(p: Policy, key: Key, rounds: seq<Round>,
                                             ss: seq<Streaks>, vs: seq<Verdict>, i: nat)
    requires Sane(p) && MistakeRoom(p)
    requires Trace(p, key, rounds, ss, vs) && i <= |rounds| && LiveUpTo(vs, i)
    ensures CountsOk(p, ss[i]) && ss[i].mistakeRounds <= i
    ensures Nudges(vs, Mistakes, i, ss[i].mistakeRounds) == if ss[i].mistakeNudged then 1 else 0
  {
    if i > 0 {
      MistakeNudgedOnce(p, key, rounds, ss, vs, i - 1);
      assert StepAt(p, key, rounds, ss, vs, i - 1);
      StepMistake(p, key, ss[i - 1], rounds[i - 1]);
    }
  }

  /** When the thresholds leave room, a mistake halt comes at the limit exactly, and its
      streak contains exactly one mistake nudge. */
  lemma MistakeHaltAnnounced(p: Policy, key: Key, rounds: seq<Round>, ss: seq<Streaks>, vs: seq<Verdict>, i: nat)
    requires Sane(p) && MistakeRoom(p)
    requires Trace(p, key, rounds, ss, vs) && i < |rounds| && LiveUpTo(vs, i)
    requires vs[i].Halt? && vs[i].kind == Mistakes
    ensures vs[i].count == p.mistakeHalt <= i + 1
    ensures IsMistakeStreak(rounds, i + 1, p.mistakeHalt)
    ensures Nudges(vs, Mistakes, i + 1, p.mistakeHalt) == 1
  {
    MistakeNudgedOnce(p, key, rounds, ss, vs, i);
    assert StepAt(p, key, rounds, ss, vs, i);
    StepMistake(p, key, ss[i], rounds[i]);
    MistakeRoundsIsStreak(p, key, rounds, ss, vs, i + 1);
  }

  // ---------- the thresholds are exactly right ----------

  /** A halt of this kind in round i comes after exactly one nudge of its kind in the same streak. */
  ghost predicate AnnouncedAt(vs: seq<Verdict>, kind: Kind, i: nat)
    requires i < |vs|
  {
    vs[i].Halt? && vs[i].kind == kind ==> 0 < vs[i].count <= i + 1 && Nudges(vs, kind, i + 1, vs[i].count) == 1
  }

  ghost predicate AlwaysAnnounced(p: Policy, key: Key, kind: Kind) {
    forall rounds, ss, vs: seq<Verdict>, i: nat :: Trace(p, key, rounds, ss, vs) && i < |vs| && LiveUpTo(vs, i)
      ==> AnnouncedAt(vs, kind, i)
  }

  lemma {:induction false} NoNudges(vs: seq<Verdict>, kind: Kind, i: nat, k: int)
    requires k <= i <= |vs|
    requires forall j | 0 <= j < i :: !(vs[j].Nudge? && vs[j].kind == kind)
    ensures Nudges(vs, kind, i, k) == 0
    decreases i
  {
    if k > 0 {
      NoNudges(vs, kind, i - 1, k - 1);
    }
  }

  function Outcome(failed: bool): (results: seq<Message>)
    ensures AllErrors(results) <==> failed
  {
    var results := [Message(Tool, [], "", "", failed, "", "", map[])];
    assert results[0].isError == failed;
    results
  }

  lemma RepeatUnannounced(p: Policy, key: Key, c: ToolCall)
    requires Sane(p) && NonEmpty(key) && p.repeatNudge >= p.repeatHalt
    ensures !AlwaysAnnounced(p, key, Repeat)
  {
    var n, start, passed := p.repeatHalt, Fresh(), Outcome(false);
    var rounds := seq(n, i => Round([c], passed));
    var ss := seq(n + 1, i => if i == 0 then start else Streaks(key(c), i, false, 0, false));
    var vs := seq(n, i => if i == n - 1 then Halt(Repeat, n) else Pass);
    forall i | 0 <= i < n ensures StepAt(p, key, rounds, ss, vs, i) {
      assert !AllErrors(rounds[i].results);
    }
    NoNudges(vs, Repeat, n, n);
    assert Trace(p, key, rounds, ss, vs) && LiveUpTo(vs, n - 1) && !AnnouncedAt(vs, Repeat, n - 1);
  }

  /** Every repeat halt is announced, in every run, exactly when RepeatNudge < RepeatHalt. */
  lemma RepeatAnnouncedIff(p: Policy, key: Key, c: ToolCall)
    requires Sane(p) && NonEmpty(key)
    ensures AlwaysAnnounced(p, key, Repeat) <==> p.repeatNudge < p.repeatHalt
  {
    if p.repeatNudge >= p.repeatHalt {
      RepeatUnannounced(p, key, c);
    } else {
      forall rounds, ss, vs: seq<Verdict>, i: nat | Trace(p, key, rounds, ss, vs) && i < |vs| && LiveUpTo(vs, i)
        ensures AnnouncedAt(vs, Repeat, i)
      {
        if vs[i].Halt? && vs[i].kind == Repeat {
          RepeatHaltAnnounced(p, key, rounds, ss, vs, i);
        }
      }
    }
  }

  /** A halt threshold no higher than the nudge threshold. */
  lemma MistakeUnannouncedLow(p: Policy, key: Key, c: ToolCall)
    requires Sane(p) && NonEmpty(key) && p.mistakeNudge >= p.mistakeHalt
    ensures !AlwaysAnnounced(p, key, Mistakes)
  {
    var n, failed := p.mistakeHalt, Outcome(true);
    var rounds := seq(n, i => Round([c, c], failed));
    var ss := seq(n + 1, i => Streaks("", 0, false, i, false));
    var vs := seq(n, i => if i == n - 1 then Halt(Mistakes, n) else Pass);
    forall i | 0 <= i < n ensures StepAt(p, key, rounds, ss, vs, i) {
      assert AllErrors(rounds[i].results);
    }
    NoNudges(vs, Mistakes, n, n);
    assert Trace(p, key, rounds, ss, vs) && LiveUpTo(vs, n - 1) && !AnnouncedAt(vs, Mistakes, n - 1);
  }

  /** A repeat nudge on every fresh call takes every slot. */
  lemma MistakeUnannouncedEager(p: Policy, key: Key, a: ToolCall, b: ToolCall)
    requires Sane(p) && NonEmpty(key) && key(a) != key(b)
    requires p.repeatNudge == 1 && p.repeatHalt > 1
    ensures !AlwaysAnnounced(p, key, Mistakes)
  {
    var n, start, failed := p.mistakeHalt, Fresh(), Outcome(true);
    var rounds := seq(n, i => Round([if i % 2 == 0 then a else b], failed));
    var ss := seq(n + 1, i => if i == 0 then start
                              else Streaks(if i % 2 == 1 then key(a) else key(b), 1, i < n, i, false));
    var vs := seq(n, i => if i == n - 1 then Halt(Mistakes, n) else Nudge(Repeat, 1));
    forall i | 0 <= i < n ensures StepAt(p, key, rounds, ss, vs, i) {
      assert AllErrors(rounds[i].results);
    }
    NoNudges(vs, Mistakes, n, n);
    assert Trace(p, key, rounds, ss, vs) && LiveUpTo(vs, n - 1) && !AnnouncedAt(vs, Mistakes, n - 1);
  }

  // A run in which both streaks reach their nudge thresholds in the same round.

  ghost function TightLength(p: Policy): int {
    if p.repeatNudge > p.mistakeNudge then p.repeatNudge else p.mistakeNudge
  }

  ghost function TightRound(p: Policy, a: ToolCall, i: int): Round {
    var d := TightLength(p);
    Round(if d - p.repeatNudge <= i < d then [a] else [a, a], Outcome(i >= d - p.mistakeNudge))
  }

  ghost function TightState(p: Policy, key: Key, a: ToolCall, i: int): Streaks {
    var d := TightLength(p);
    var r, m := i - (d - p.repeatNudge), i - (d - p.mistakeNudge);
    if i > d then Streaks("", 0, false, p.mistakeNudge + 1, false)
    else Streaks(if r > 0 then key(a) else "", if r > 0 then r else 0, i == d, if m > 0 then m else 0, false)
  }

  ghost function TightVerdict(p: Policy, i: int): Verdict {
    var d := TightLength(p);
    if i == d then Halt(Mistakes, p.mistakeNudge + 1) else if i == d - 1 then Nudge(Repeat, p.repeatNudge) else Pass
  }

  lemma TightStep(p: Policy, key: Key, a: ToolCall, i: int)
    requires Sane(p) && NonEmpty(key)
    requires p.repeatNudge < p.repeatHalt && p.mistakeNudge + 1 == p.mistakeHalt
    requires 0 <= i <= TightLength(p)
    ensures Step(p, key, TightState(p, key, a, i), TightRound(p, a, i)) == (TightVerdict(p, i), TightState(p, key, a, i + 1))
  {
  }

  /** The repeat nudge takes the only slot the mistake nudge had. */
  lemma MistakeUnannouncedTight(p: Policy, key: Key, a: ToolCall)
    requires Sane(p) && NonEmpty(key)
    requires p.repeatNudge < p.repeatHalt && p.mistakeNudge + 1 == p.mistakeHalt
    ensures !AlwaysAnnounced(p, key, Mistakes)
  {
    var d := TightLength(p);
    var rounds := seq(d + 1, i => TightRound(p, a, i));
    var ss := seq(d + 2, i => TightState(p, key, a, i));
    var vs := seq(d + 1, i => TightVerdict(p, i));
    assert forall i | 0 <= i <= d :: vs[i] == TightVerdict(p, i);
    assert ss[0] == TightState(p, key, a, 0) == Fresh();
    forall i | 0 <= i <= d ensures StepAt(p, key, rounds, ss, vs, i) {
      TightStep(p, key, a, i);
    }
    NoNudges(vs, Mistakes, d + 1, p.mistakeNudge + 1);
    assert Trace(p, key, rounds, ss, vs) && LiveUpTo(vs, d) && !AnnouncedAt(vs, Mistakes, d);
  }

  /** Every mistake halt is announced, in every run, exactly when the thresholds leave room. */
  lemma MistakeAnnouncedIff(p: Policy, key: Key, a: ToolCall, b: ToolCall)
    requires Sane(p) && NonEmpty(key) && key(a) != key(b)
    ensures AlwaysAnnounced(p, key, Mistakes) <==> MistakeRoom(p)
  {
    if MistakeRoom(p) {
      forall rounds, ss, vs: seq<Verdict>, i: nat | Trace(p, key, rounds, ss, vs) && i < |vs| && LiveUpTo(vs, i)
        ensures AnnouncedAt(vs, Mistakes, i)
      {
        if vs[i].Halt? && vs[i].kind == Mistakes {
          MistakeHaltAnnounced(p, key, rounds, ss, vs, i);
        }
      }
    } else if p.mistakeNudge >= p.mistakeHalt {
      MistakeUnannouncedLow(p, key, a);
    } else if p.repeatNudge == 1 {
      MistakeUnannouncedEager(p, key, a, b);
    } else {
      MistakeUnannouncedTight(p, key, a);
    }
  }

  /** The built-in thresholds qualify. */
  lemma DefaultsLeaveRoom(disabled: bool)
    ensures var p := Policy(disabled, 0, 0, 0, 0).WithDefaults();
            p == Policy(disabled, 3, 5, 3, 6) && Sane(p) && p.repeatNudge < p.repeatHalt && MistakeRoom(p)
  {
  }
}
