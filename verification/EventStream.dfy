/** Delivery of one run's events to its subscribers (daemon/run.go eventsFrom and
    signalLocked, the loop of daemon/server.go handleRunEvents, and the order in which
    executeRun emits and finishes). A channel is named by its generation: the current one
    is open, every earlier one is closed. */
module EventStream {
  import opened Sequences
  import opened DaemonRun

  datatype Runner = Working | LastEmitted | Finished

  datatype Phase =
    | Ready                                                 // about to call eventsFrom
    | Delivering(rest: seq<Event>, sawDone: bool, ch: nat)  // writing a batch
    | Blocked(ch: nat)                                      // in the select
    | Ended                                                 // saw done
    | Dropped                                               // write failed or client gone

  datatype Subscriber = Subscriber(delivered: seq<Event>, phase: Phase)

  datatype State = State(log: seq<Event>, done: bool, generation: nat, runner: Runner, subs: map<nat, Subscriber>)

  datatype Step =
    | Emit(kind: string, payload: string)
    | EmitLast(kind: string, payload: string) // run_done or run_error
    | Finish
    | Subscribe(i: nat)
    | Fetch(i: nat)
    | Deliver(i: nat)
    | EndBatch(i: nat)
    | Wake(i: nat)
    | Drop(i: nat)

  function Initial(): State { State([], false, 0, Working, map[]) }

  function Logged(s: State, kind: string, payload: string): State {
    s.(log := s.log + [Event(|s.log| + 1, kind, payload)], generation := s.generation + 1)
  }

  function Put(s: State, i: nat, sub: Subscriber): State { s.(subs := s.subs[i := sub]) }

  function Apply(s: State, step: Step): Option<State> {
    match step
    case Emit(kind, payload) => if s.runner.Working? then Some(Logged(s, kind, payload)) else None
    case EmitLast(kind, payload) =>
      if s.runner.Working? then Some(Logged(s, kind, payload).(runner := LastEmitted)) else None
    case Finish =>
      if s.runner.LastEmitted? then Some(s.(done := true, runner := Finished, generation := s.generation + 1)) else None
    case Subscribe(i) => if i in s.subs then None else Some(Put(s, i, Subscriber([], Ready)))
    case Fetch(i) =>
      if i !in s.subs || !s.subs[i].phase.Ready? then None
      else Some(Put(s, i, s.subs[i].(phase := Delivering(From(s.log, |s.subs[i].delivered|), s.done, s.generation))))
    case Deliver(i) =>
      if i !in s.subs || !s.subs[i].phase.Delivering? || s.subs[i].phase.rest == [] then None
      else
        var Subscriber(delivered, Delivering(rest, sawDone, ch)) := s.subs[i];
        Some(Put(s, i, Subscriber(delivered + [rest[0]], Delivering(rest[1..], sawDone, ch))))
    case EndBatch(i) =>
      if i !in s.subs || !s.subs[i].phase.Delivering? || s.subs[i].phase.rest != [] then None
      else Some(Put(s, i, s.subs[i].(phase := if s.subs[i].phase.sawDone then Ended else Blocked(s.subs[i].phase.ch))))
    case Wake(i) =>
      if i !in s.subs || !s.subs[i].phase.Blocked? || s.subs[i].phase.ch == s.generation then None
      else Some(Put(s, i, s.subs[i].(phase := Ready)))
    case Drop(i) =>
      if i !in s.subs || !(s.subs[i].phase.Delivering? || s.subs[i].phase.Blocked?) then None
      else Some(Put(s, i, s.subs[i].(phase := Dropped)))
  }

  /** A whole interleaving from s; None when some step was not possible. */
  function Exec(s: State, steps: seq<Step>): Option<State>
    decreases |steps|
  {
    if steps == [] then Some(s)
    else match Apply(s, steps[0])
      case None => None
      case Some(t) => Exec(t, steps[1..])
  }

  // ---------- the invariant ----------

  ghost predicate SubOk(s: State, sub: Subscriber) {
    && sub.delivered <= s.log
    && match sub.phase
       case Delivering(rest, sawDone, ch) =>
         && sub.delivered + rest <= s.log
         && ch <= s.generation
         && (sawDone ==> s.done && sub.delivered + rest == s.log)
         && (ch == s.generation ==> sub.delivered + rest == s.log && sawDone == s.done)
       case Blocked(ch) =>
         && ch <= s.generation
         && (ch == s.generation ==> sub.delivered == s.log && !s.done)
       case Ended => s.done && sub.delivered == s.log
       case _ => true
  }

  ghost predicate Numbered(log: seq<Event>) {
    forall k | 0 <= k < |log| :: log[k].seqNo == k + 1
  }

  ghost predicate Inv(s: State) {
    && Numbered(s.log)
    && (s.done <==> s.runner.Finished?)
    && (forall i | i in s.subs :: SubOk(s, s.subs[i]))
  }

  lemma LogKeeps(s: State, t: State, sub: Subscriber)
    requires SubOk(s, sub) && !s.done
    requires s.log <= t.log && t.generation > s.generation
    ensures SubOk(t, sub)
  {
    if sub.phase.Delivering? {
      assert sub.delivered + sub.phase.rest <= t.log;
    }
  }

  lemma FetchOk(s: State, delivered: seq<Event>)
    requires delivered <= s.log
    ensures SubOk(s, Subscriber(delivered, Delivering(From(s.log, |delivered|), s.done, s.generation)))
  {
    assert delivered + s.log[|delivered|..] == s.log;
  }

  lemma DeliverOk(s: State, delivered: seq<Event>, rest: seq<Event>, sawDone: bool, ch: nat)
    requires rest != [] && SubOk(s, Subscriber(delivered, Delivering(rest, sawDone, ch)))
    ensures SubOk(s, Subscriber(delivered + [rest[0]], Delivering(rest[1..], sawDone, ch)))
  {
    assert delivered + [rest[0]] + rest[1..] == delivered + rest;
  }

  lemma StepKeeps(s: State, step: Step)
    requires Inv(s) && Apply(s, step).Some?
    ensures Inv(Apply(s, step).value)
  {
    var t := Apply(s, step).value;
    match step
    case Emit(_, _) =>
      forall i | i in t.subs ensures SubOk(t, t.subs[i]) { LogKeeps(s, t, s.subs[i]); }
    case EmitLast(_, _) =>
      forall i | i in t.subs ensures SubOk(t, t.subs[i]) { LogKeeps(s, t, s.subs[i]); }
    case Finish =>
      forall i | i in t.subs ensures SubOk(t, t.subs[i]) { LogKeeps(s, t, s.subs[i]); }
    case Subscribe(i) => OthersKept(s, i, t.subs[i]);
    case Fetch(i) =>
      FetchOk(s, s.subs[i].delivered);
      OthersKept(s, i, t.subs[i]);
    case Deliver(i) =>
      DeliverOk(s, s.subs[i].delivered, s.subs[i].phase.rest, s.subs[i].phase.sawDone, s.subs[i].phase.ch);
      OthersKept(s, i, t.subs[i]);
    case EndBatch(i) =>
      assert s.subs[i].delivered + [] == s.subs[i].delivered;
      OthersKept(s, i, t.subs[i]);
    case Wake(i) => OthersKept(s, i, t.subs[i]);
    case Drop(i) => OthersKept(s, i, t.subs[i]);
  }

  lemma OthersKept(s: State, i: nat, sub: Subscriber)
    requires Inv(s) && SubOk(s, sub)
    ensures Inv(Put(s, i, sub))
  {
    var t := Put(s, i, sub);
    forall k | k in t.subs ensures SubOk(t, t.subs[k]) {
      assert k != i ==> SubOk(s, s.subs[k]);
      assert forall x: Subscriber :: SubOk(s, x) == SubOk(t, x);
    }
  }

  lemma {:induction false} ExecKeeps(s: State, steps: seq<Step>)
    requires Inv(s) && Exec(s, steps).Some?
    ensures Inv(Exec(s, steps).value)
    decreases |steps|
  {
    if steps != [] {
      StepKeeps(s, steps[0]);
      ExecKeeps(Apply(s, steps[0]).value, steps[1..]);
    }
  }

  ghost predicate Reached(steps: seq<Step>, s: State) {
    Exec(Initial(), steps) == Some(s)
  }

  /** At all times every subscriber has been given a prefix of the log, in order, numbered 1, 2, 3, … */
  lemma DeliveredIsPrefix(steps: seq<Step>, s: State, i: nat)
    requires Reached(steps, s) && i in s.subs
    ensures s.subs[i].delivered <= s.log
    ensures forall k | 0 <= k < |s.subs[i].delivered| :: s.subs[i].delivered[k].seqNo == k + 1
  {
    ExecKeeps(Initial(), steps);
  }

  /** No lost wakeup: a subscriber asleep on the open channel has nothing left to deliver. */
  lemma NoLostWakeup(steps: seq<Step>, s: State, i: nat)
    requires Reached(steps, s) && i in s.subs
    requires s.subs[i].phase.Blocked? && Apply(s, Wake(i)).None?
    ensures s.subs[i].delivered == s.log && !s.done
  {
    ExecKeeps(Initial(), steps);
  }

  /** A subscriber that saw done has delivered the whole log. */
  lemma EndedSawEverything(steps: seq<Step>, s: State, i: nat)
    requires Reached(steps, s) && i in s.subs && s.subs[i].phase.Ended?
    ensures s.done && s.subs[i].delivered == s.log
  {
    ExecKeeps(Initial(), steps);
  }

  /** The log is append-only, and closed once the run has finished. */
  lemma {:induction false} LogGrows(s: State, steps: seq<Step>)
    requires Inv(s) && Exec(s, steps).Some?
    ensures s.log <= Exec(s, steps).value.log
    ensures s.done ==> Exec(s, steps).value.log == s.log && Exec(s, steps).value.done
    decreases |steps|
  {
    if steps != [] {
      StepKeeps(s, steps[0]);
      LogGrows(Apply(s, steps[0]).value, steps[1..]);
    }
  }

  /** Steps that subscriber i needs at most before it has everything, once the run is over. */
  ghost function Remaining(s: State, i: nat): nat
    requires i in s.subs
  {
    var sub := s.subs[i];
    var missing := if |s.log| > |sub.delivered| then |s.log| - |sub.delivered| else 0;
    missing + match sub.phase
      case Blocked(_) => 3 case Ready => 2
      case Delivering(_, sawDone, _) => if sawDone then 1 else 4
      case _ => 0
  }

  /** After the run has finished, a connected subscriber's own steps always lead it to the
      whole log: it is never stuck, and it needs no one else's help. */
  lemma {:induction false} CatchesUp(s: State, i: nat) returns (more: seq<Step>)
    requires Inv(s) && s.runner.Finished? && i in s.subs && !s.subs[i].phase.Dropped?
    ensures |more| <= Remaining(s, i)
    ensures Exec(s, more).Some?
    ensures var t := Exec(s, more).value; i in t.subs && t.subs[i] == Subscriber(s.log, Ended)
    decreases Remaining(s, i)
  {
    var sub := s.subs[i];
    assert SubOk(s, sub);
    if sub.phase.Ended? {
      more := [];
    } else {
      var step :=
        match sub.phase
        case Ready => Fetch(i)
        case Delivering(rest, _, _) => if rest != [] then Deliver(i) else EndBatch(i)
        case _ => Wake(i);
      var t := Apply(s, step).value;
      StepKeeps(s, step);
      assert sub.phase.Delivering? && sub.phase.rest == [] ==> sub.delivered + [] == sub.delivered;
      var rest := CatchesUp(t, i);
      more := [step] + rest;
      assert more[1..] == rest;
    }
  }
}
