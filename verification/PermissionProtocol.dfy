/** The race over one permission request: the decider (daemon/server.go decidePermission),
    its timer and its context, and any number of HTTP resolvers (daemon/run.go
    resolvePermission). Every locked section is one step; the send outside the lock is a
    step of its own. Request IDs may repeat; requests are told apart by their handle, as
    the source tells them apart by pointer. */
module PermissionProtocol {
  import opened Sequences
  import opened DaemonRun

  type Handle = nat
  type ResolverId = nat

  datatype Phase =
    | Made                 // allocated, not in the table yet
    | Discarded            // its ID was taken; the decider makes another request
    | Waiting              // in the select
    | MustReceive          // lost the race for the table entry; waits for the decision only
    | Received(decision: Decision)
    | TimedOut
    | Canceled

  datatype Request = Request(id: string, phase: Phase, buffer: Option<Decision>)

  datatype Resolver =
    | Sending(target: Handle, decision: Decision)  // has the entry, has not sent yet
    | Accepted(target: Handle, decision: Decision) // returned true
    | Refused                                      // returned false

  datatype State = State(table: map<string, Handle>, requests: map<Handle, Request>, resolvers: map<ResolverId, Resolver>)

  datatype Reason = Timeout | Cancel

  datatype Step =
    | Make(h: Handle, id: string)
    | Add(h: Handle)
    | ReceiveInSelect(h: Handle)
    | Expire(h: Handle, reason: Reason)
    | Receive(h: Handle)
    | Take(r: ResolverId, id: string, decision: Decision)
    | Send(r: ResolverId)

  function Initial(): State { State(map[], map[], map[]) }

  function SetPhase(s: State, h: Handle, phase: Phase, buffer: Option<Decision>): State
    requires h in s.requests
  {
    s.(requests := s.requests[h := s.requests[h].(phase := phase, buffer := buffer)])
  }

  /** The step, or None where its process is not at that point or would block. */
  function Apply(s: State, step: Step): Option<State> {
    match step
    case Make(h, id) =>
      if h in s.requests then None
      else Some(s.(requests := s.requests[h := Request(id, Made, None)]))
    case Add(h) =>
      if h !in s.requests || s.requests[h].phase != Made then None
      else
        var (ok, table) := Added(s.table, s.requests[h].id, h);
        Some(SetPhase(s, h, if ok then Waiting else Discarded, s.requests[h].buffer).(table := table))
    case ReceiveInSelect(h) =>
      if h !in s.requests || s.requests[h].phase != Waiting || s.requests[h].buffer.None? then None
      else Some(SetPhase(s, h, Received(s.requests[h].buffer.value), None))
    case Expire(h, reason) =>
      if h !in s.requests || s.requests[h].phase != Waiting then None
      else
        var (ok, table) := Expired(s.table, s.requests[h].id, h);
        var phase := if !ok then MustReceive else if reason == Timeout then TimedOut else Canceled;
        Some(SetPhase(s, h, phase, s.requests[h].buffer).(table := table))
    case Receive(h) =>
      if h !in s.requests || s.requests[h].phase != MustReceive || s.requests[h].buffer.None? then None
      else Some(SetPhase(s, h, Received(s.requests[h].buffer.value), None))
    case Take(r, id, decision) =>
      if r in s.resolvers then None
      else
        var (taken, table) := Taken(s.table, id);
        Some(s.(table := table,
                resolvers := s.resolvers[r := if taken.None? then Refused else Sending(taken.value, decision)]))
    case Send(r) =>
      if r !in s.resolvers || !s.resolvers[r].Sending? then None
      else
        var h, d := s.resolvers[r].target, s.resolvers[r].decision;
        if h !in s.requests || s.requests[h].buffer.Some? then None
        else Some(SetPhase(s, h, s.requests[h].phase, Some(d)).(resolvers := s.resolvers[r := Accepted(h, d)]))
  }

  /** The state after a whole interleaving; None when some step was not possible. */
  function Run(steps: seq<Step>): Option<State> {
    if steps == [] then Some(Initial())
    else match Run(steps[..|steps| - 1])
      case None => None
      case Some(s) => Apply(s, steps[|steps| - 1])
  }

  // ---------- the invariant ----------

  ghost predicate Aims(s: State, r: ResolverId, h: Handle) {
    r in s.resolvers && !s.resolvers[r].Refused? && s.resolvers[r].target == h
  }

  /** Table entries are waiting requests nobody has answered. */
  ghost predicate TableOk(s: State) {
    forall id | id in s.table ::
      var h := s.table[id];
      && h in s.requests && s.requests[h] == Request(id, Waiting, None)
      && forall r :: !Aims(s, r, h)
  }

  ghost predicate InTable(s: State, h: Handle)
    requires h in s.requests
  {
    s.requests[h].id in s.table && s.table[s.requests[h].id] == h
  }

  /** An entry leaves the table in one pair of hands: one resolver, or the decider. */
  ghost predicate ResolversOk(s: State) {
    && (forall r, h | Aims(s, r, h) ::
          && h in s.requests
          && (s.resolvers[r].Sending? ==>
                s.requests[h].buffer == None && (s.requests[h].phase == Waiting || s.requests[h].phase == MustReceive))
          && (s.resolvers[r].Accepted? ==>
                var d := s.resolvers[r].decision;
                || (s.requests[h].buffer == Some(d) && (s.requests[h].phase == Waiting || s.requests[h].phase == MustReceive))
                || (s.requests[h].buffer == None && s.requests[h].phase == Received(d))))
    && (forall r1, r2, h | Aims(s, r1, h) && Aims(s, r2, h) :: r1 == r2)
  }

  ghost predicate Claimed(s: State, h: Handle) {
    exists r :: Aims(s, r, h)
  }

  ghost predicate RequestsOk(s: State) {
    forall h | h in s.requests ::
      match s.requests[h].phase
      case Made => !Claimed(s, h) && s.requests[h].buffer == None
      case Discarded => !Claimed(s, h) && s.requests[h].buffer == None
      case Waiting => InTable(s, h) || Claimed(s, h)
      case MustReceive => !InTable(s, h) && Claimed(s, h)
      case Received(_) => Claimed(s, h)
      case TimedOut => !Claimed(s, h) && s.requests[h].buffer == None
      case Canceled => !Claimed(s, h) && s.requests[h].buffer == None
  }

  ghost predicate Inv(s: State) {
    TableOk(s) && ResolversOk(s) && RequestsOk(s)
  }

  lemma MakeKeeps(s: State, h: Handle, id: string)
    requires Inv(s) && h !in s.requests
    ensures Inv(Apply(s, Make(h, id)).value)
  {
    var t := Apply(s, Make(h, id)).value;
    assert forall r, k :: Aims(t, r, k) <==> Aims(s, r, k);
    assert forall k :: Claimed(t, k) <==> Claimed(s, k);
    assert !Claimed(s, h);
    assert forall k | k in s.requests :: t.requests[k] == s.requests[k] && InTable(t, k) == InTable(s, k);
  }

  /** What adding a request leaves as it was. */
  ghost predicate AddedTo(s: State, t: State, h: Handle) {
    && h in s.requests && t.requests.Keys == s.requests.Keys
    && (forall r, k :: Aims(t, r, k) <==> Aims(s, r, k))
    && (forall k :: Claimed(t, k) <==> Claimed(s, k))
    && t.resolvers == s.resolvers
    && (forall k | k in s.requests && k != h :: t.requests[k] == s.requests[k] && InTable(t, k) == InTable(s, k))
  }

  lemma AddFacts(s: State, h: Handle)
    requires Inv(s) && h in s.requests && s.requests[h].phase == Made
    ensures AddedTo(s, Apply(s, Add(h)).value, h)
    ensures !Claimed(s, h)
  {
    var t := Apply(s, Add(h)).value;
    assert forall r, k :: Aims(t, r, k) <==> Aims(s, r, k);
  }

  lemma AddKeeps(s: State, h: Handle)
    requires Inv(s) && h in s.requests && s.requests[h].phase == Made
    ensures Inv(Apply(s, Add(h)).value)
  {
    AddFacts(s, h);
  }

  /** The decision reaches the decider. */
  lemma ReceiveKeeps(s: State, h: Handle)
    requires Inv(s) && h in s.requests && s.requests[h].buffer.Some?
    requires s.requests[h].phase == Waiting || s.requests[h].phase == MustReceive
    ensures Inv(SetPhase(s, h, Received(s.requests[h].buffer.value), None))
  {
    var t := SetPhase(s, h, Received(s.requests[h].buffer.value), None);
    assert forall r, k :: Aims(t, r, k) <==> Aims(s, r, k);
    assert forall k :: Claimed(t, k) <==> Claimed(s, k);
    assert !InTable(s, h);
    assert forall k | k in s.requests && k != h :: t.requests[k] == s.requests[k] && InTable(t, k) == InTable(s, k);
  }

  lemma ExpireKeeps(s: State, h: Handle, reason: Reason)
    requires Inv(s) && h in s.requests && s.requests[h].phase == Waiting
    ensures Inv(Apply(s, Expire(h, reason)).value)
  {
    var t := Apply(s, Expire(h, reason)).value;
    assert forall r, k :: Aims(t, r, k) <==> Aims(s, r, k);
    assert forall k :: Claimed(t, k) <==> Claimed(s, k);
    assert forall k | k in s.requests && k != h :: t.requests[k] == s.requests[k] && InTable(t, k) == InTable(s, k);
  }

  lemma TakeKeeps(s: State, r: ResolverId, id: string, decision: Decision)
    requires Inv(s) && r !in s.resolvers
    ensures Inv(Apply(s, Take(r, id, decision)).value)
  {
    var t := Apply(s, Take(r, id, decision)).value;
    assert forall q, k | q != r :: Aims(t, q, k) <==> Aims(s, q, k);
    if id in s.table {
      var h := s.table[id];
      assert Aims(t, r, h);
      assert forall k | k != h :: !Aims(t, r, k) && !Aims(s, r, k);
      assert forall k | k != h :: Claimed(t, k) <==> Claimed(s, k);
      assert forall k | k in s.requests && k != h :: InTable(t, k) == InTable(s, k);
    } else {
      assert forall k :: !Aims(t, r, k) && !Aims(s, r, k);
      assert forall k :: Claimed(t, k) <==> Claimed(s, k);
      assert t.table == s.table;
    }
  }

  lemma SendKeeps(s: State, r: ResolverId)
    requires Inv(s) && Apply(s, Send(r)).Some?
    ensures Inv(Apply(s, Send(r)).value)
  {
    var t := Apply(s, Send(r)).value;
    var h := s.resolvers[r].target;
    assert Aims(s, r, h);
    assert forall q, k :: Aims(t, q, k) <==> Aims(s, q, k);
    assert forall k :: Claimed(t, k) <==> Claimed(s, k);
    assert !InTable(s, h);
    assert forall k | k in s.requests && k != h :: t.requests[k] == s.requests[k];
    assert forall k | k in s.requests :: InTable(t, k) == InTable(s, k);
  }

  lemma StepKeeps(s: State, step: Step)
    requires Inv(s) && Apply(s, step).Some?
    ensures Inv(Apply(s, step).value)
  {
    match step
    case Make(h, id) => MakeKeeps(s, h, id);
    case Add(h) => AddKeeps(s, h);
    case ReceiveInSelect(h) => ReceiveKeeps(s, h);
    case Expire(h, reason) => ExpireKeeps(s, h, reason);
    case Receive(h) => ReceiveKeeps(s, h);
    case Take(r, id, decision) => TakeKeeps(s, r, id, decision);
    case Send(r) => SendKeeps(s, r);
  }

  /** Every interleaving keeps the invariant. */
  lemma {:induction false} RunKeeps(steps: seq<Step>)
    requires Run(steps).Some?
    ensures Inv(Run(steps).value)
  {
    if steps != [] {
      RunKeeps(steps[..|steps| - 1]);
      StepKeeps(Run(steps[..|steps| - 1]).value, steps[|steps| - 1]);
    }
  }

  // ---------- what follows ----------

  predicate Settled(phase: Phase) { phase.Received? || phase.TimedOut? || phase.Canceled? }

  lemma StepFinal(s: State, step: Step, h: Handle)
    requires Apply(s, step).Some? && h in s.requests && Settled(s.requests[h].phase)
    ensures var t := Apply(s, step).value; h in t.requests && t.requests[h].phase == s.requests[h].phase
  {
  }

  /** A request gets at most one outcome: once settled, no later step changes it. */
  lemma {:induction false} OutcomeFinal(steps: seq<Step>, k: nat, h: Handle)
    requires k <= |steps| && Run(steps).Some? && Run(steps[..k]).Some?
    requires var s := Run(steps[..k]).value; h in s.requests && Settled(s.requests[h].phase)
    ensures var s := Run(steps[..k]).value; var t := Run(steps).value;
            h in t.requests && t.requests[h].phase == s.requests[h].phase
    decreases |steps|
  {
    if k == |steps| {
      assert steps[..k] == steps;
    } else {
      var init := steps[..|steps| - 1];
      assert init[..k] == steps[..k];
      OutcomeFinal(init, k, h);
      StepFinal(Run(init).value, steps[|steps| - 1], h);
    }
  }

  lemma StepAccepted(s: State, step: Step, r: ResolverId)
    requires Apply(s, step).Some? && r in s.resolvers && s.resolvers[r].Accepted?
    ensures var t := Apply(s, step).value; r in t.resolvers && t.resolvers[r] == s.resolvers[r]
  {
  }

  lemma {:induction false} AcceptedFinal(steps: seq<Step>, k: nat, r: ResolverId)
    requires k <= |steps| && Run(steps).Some? && Run(steps[..k]).Some?
    requires var s := Run(steps[..k]).value; r in s.resolvers && s.resolvers[r].Accepted?
    ensures var s := Run(steps[..k]).value; var t := Run(steps).value;
            r in t.resolvers && t.resolvers[r] == s.resolvers[r]
    decreases |steps|
  {
    if k == |steps| {
      assert steps[..k] == steps;
    } else {
      var init := steps[..|steps| - 1];
      assert init[..k] == steps[..k];
      AcceptedFinal(init, k, r);
      StepAccepted(Run(init).value, steps[|steps| - 1], r);
    }
  }

  /** Once a resolver has returned true, its request never times out and is never cancelled,
      in any continuation: the decider either has this resolver's decision or has it in its
      channel, ready to be received. */
  lemma AcceptedIsReceived(steps: seq<Step>, k: nat, r: ResolverId)
    requires k <= |steps| && Run(steps).Some? && Run(steps[..k]).Some?
    requires var s := Run(steps[..k]).value; r in s.resolvers && s.resolvers[r].Accepted?
    ensures var h := Run(steps[..k]).value.resolvers[r].target;
            var d := Run(steps[..k]).value.resolvers[r].decision;
            var t := Run(steps).value;
            && h in t.requests
            && (t.requests[h].phase == Received(d)
                || (t.requests[h].buffer == Some(d) && (t.requests[h].phase == Waiting || t.requests[h].phase == MustReceive)))
  {
    AcceptedFinal(steps, k, r);
    RunKeeps(steps);
    var t := Run(steps).value;
    assert Aims(t, r, t.resolvers[r].target);
  }

  /** A decision received is a decision some resolver was told it delivered, and only one
      resolver was told so. */
  lemma ReceivedWasAccepted(steps: seq<Step>, h: Handle) returns (r: ResolverId)
    requires Run(steps).Some?
    requires var s := Run(steps).value; h in s.requests && s.requests[h].phase.Received?
    ensures var s := Run(steps).value;
            && r in s.resolvers && s.resolvers[r] == Accepted(h, s.requests[h].phase.decision)
            && forall q | Aims(s, q, h) :: q == r
  {
    RunKeeps(steps);
    var s := Run(steps).value;
    r :| Aims(s, r, h);
  }

  /** A timed-out or cancelled request was promised to nobody. */
  lemma ExpiredWasRefused(steps: seq<Step>, h: Handle)
    requires Run(steps).Some?
    requires var s := Run(steps).value; h in s.requests && (s.requests[h].phase.TimedOut? || s.requests[h].phase.Canceled?)
    ensures var s := Run(steps).value; forall r :: !Aims(s, r, h)
  {
    RunKeeps(steps);
    var s := Run(steps).value;
    assert !Claimed(s, h);
  }

  /** The send into the channel of capacity one never blocks. */
  lemma SendEnabled(steps: seq<Step>, r: ResolverId)
    requires Run(steps).Some?
    requires var s := Run(steps).value; r in s.resolvers && s.resolvers[r].Sending?
    ensures Apply(Run(steps).value, Send(r)).Some?
  {
    RunKeeps(steps);
    var s := Run(steps).value;
    assert Aims(s, r, s.resolvers[r].target);
  }

  /** A decider that waits for the decision only is never stuck: the decision is in its
      channel, or one resolver's next step, which is enabled, puts it there. */
  lemma WaitEnds(steps: seq<Step>, h: Handle) returns (more: seq<Step>)
    requires Run(steps).Some?
    requires var s := Run(steps).value; h in s.requests && s.requests[h].phase == MustReceive
    ensures |more| <= 2 && Run(steps + more).Some?
    ensures h in Run(steps + more).value.requests && Run(steps + more).value.requests[h].phase.Received?
  {
    RunKeeps(steps);
    var s := Run(steps).value;
    assert Claimed(s, h);
    var r :| Aims(s, r, h);
    if s.resolvers[r].Sending? {
      more := [Send(r), Receive(h)];
      var mid := steps + [Send(r)];
      assert mid[..|mid| - 1] == steps;
      var all := steps + more;
      assert all[..|all| - 1] == mid;
    } else {
      more := [Receive(h)];
      var all := steps + more;
      assert all[..|all| - 1] == steps;
    }
  }

  // ---------- every outcome has its cause ----------

  /** What brought a request or a resolver to where it is. */
  ghost predicate Caused(s: State, steps: seq<Step>) {
    && (forall h | h in s.requests :: RequestCaused(s.requests[h], h, steps))
    && (forall r | r in s.resolvers :: ResolverCaused(s, r, steps))
  }

  ghost predicate RequestCaused(q: Request, h: Handle, steps: seq<Step>) {
    && Make(h, q.id) in steps
    && (q.phase.TimedOut? ==> Expire(h, Timeout) in steps)
    && (q.phase.Canceled? ==> Expire(h, Cancel) in steps)
    && (q.phase.MustReceive? ==> exists reason :: Expire(h, reason) in steps)
    && (q.phase.Discarded? || q.phase.Waiting? ==> Add(h) in steps)
  }

  /** A resolver that has the entry asked for it by the request's ID, and brings what it was given. */
  ghost predicate ResolverCaused(s: State, r: ResolverId, steps: seq<Step>)
    requires r in s.resolvers
  {
    match s.resolvers[r]
    case Refused => exists id, d :: Take(r, id, d) in steps
    case Sending(h, d) => h in s.requests && Take(r, s.requests[h].id, d) in steps
    case Accepted(h, d) => h in s.requests && Take(r, s.requests[h].id, d) in steps && Send(r) in steps
  }

  /** A step changes one request or one resolver, and leaves the IDs alone. */
  lemma StepCaused(s: State, step: Step, before: seq<Step>)
    requires Inv(s) && Caused(s, before) && Apply(s, step).Some?
    ensures Caused(Apply(s, step).value, before + [step])
  {
    var t, steps := Apply(s, step).value, before + [step];
    assert forall x | x in before :: x in steps;
    assert step in steps;
    forall h | h in t.requests ensures RequestCaused(t.requests[h], h, steps) {
      assert h in s.requests ==> RequestCaused(s.requests[h], h, before);
    }
    forall r | r in t.resolvers ensures ResolverCaused(t, r, steps) {
      assert r in s.resolvers ==> ResolverCaused(s, r, before);
    }
  }

  lemma {:induction false} RunCaused(steps: seq<Step>)
    requires Run(steps).Some?
    ensures Caused(Run(steps).value, steps)
  {
    if steps != [] {
      var init := steps[..|steps| - 1];
      RunCaused(init);
      RunKeeps(init);
      StepCaused(Run(init).value, steps[|steps| - 1], init);
      assert init + [steps[|steps| - 1]] == steps;
    }
  }

  /** A request times out only on its timer and is cancelled only by its context; and a decision
      that it receives was brought by a resolver that asked for it by its ID with that decision. */
  lemma OutcomeCaused(steps: seq<Step>, h: Handle)
    requires Run(steps).Some? && h in Run(steps).value.requests
    ensures var q := Run(steps).value.requests[h];
            && (q.phase.TimedOut? ==> Expire(h, Timeout) in steps)
            && (q.phase.Canceled? ==> Expire(h, Cancel) in steps)
            && (q.phase.Received? ==> exists r :: Take(r, q.id, q.phase.decision) in steps && Send(r) in steps)
  {
    RunCaused(steps);
    var s := Run(steps).value;
    assert RequestCaused(s.requests[h], h, steps);
    if s.requests[h].phase.Received? {
      var r := ReceivedWasAccepted(steps, h);
      assert ResolverCaused(s, r, steps);
    }
  }

  /** The timer and the context end the waiting, each in its own way, while the request is in the
      table; once a resolver has taken it from there, both only make the decider wait for it. */
  lemma ExpiryTold(steps: seq<Step>, h: Handle, reason: Reason)
    requires Run(steps).Some? && h in Run(steps).value.requests && Run(steps).value.requests[h].phase.Waiting?
    ensures var s, next := Run(steps).value, Run(steps + [Expire(h, reason)]);
            && next.Some? && h in next.value.requests
            && var phase := next.value.requests[h].phase;
               && (phase.TimedOut? <==> InTable(s, h) && reason == Timeout)
               && (phase.Canceled? <==> InTable(s, h) && reason == Cancel)
               && (phase.MustReceive? <==> exists r :: Aims(s, r, h))
               && next.value.table.Keys == s.table.Keys - (if InTable(s, h) then {s.requests[h].id} else {})
  {
    var all := steps + [Expire(h, reason)];
    assert all[..|all| - 1] == steps;
    RunKeeps(steps);
    var s := Run(steps).value;
    assert InTable(s, h) || Claimed(s, h);
    if InTable(s, h) {
      assert s.table[s.requests[h].id] == h && forall r :: !Aims(s, r, h);
    }
  }

  /** A resolver is refused exactly when no request of this ID is in the table; otherwise it gets
      the one that is, with nobody else after it. */
  lemma TakeTold(steps: seq<Step>, r: ResolverId, id: string, d: Decision)
    requires Run(steps).Some? && r !in Run(steps).value.resolvers
    ensures var s, next := Run(steps).value, Run(steps + [Take(r, id, d)]);
            && next.Some? && r in next.value.resolvers
            && (next.value.resolvers[r].Refused? <==> forall h | h in s.requests && InTable(s, h) :: s.requests[h].id != id)
            && (forall h | h in s.requests && InTable(s, h) && s.requests[h].id == id ::
                  next.value.resolvers[r] == Sending(h, d) && !InTable(next.value, h))
  {
    var all := steps + [Take(r, id, d)];
    assert all[..|all| - 1] == steps;
    RunKeeps(steps);
    var s := Run(steps).value;
    if id in s.table {
      assert s.requests[s.table[id]] == Request(id, Waiting, None) && InTable(s, s.table[id]);
    }
  }

  /** A request waits exactly when its ID was free, and else is given up. */
  lemma AddTold(steps: seq<Step>, h: Handle)
    requires Run(steps).Some? && h in Run(steps).value.requests && Run(steps).value.requests[h].phase.Made?
    ensures var s, next := Run(steps).value, Run(steps + [Add(h)]);
            && next.Some? && h in next.value.requests
            && var phase := next.value.requests[h].phase;
               if forall k | k in s.requests && InTable(s, k) :: s.requests[k].id != s.requests[h].id
               then phase.Waiting? && InTable(next.value, h) else phase.Discarded? && !InTable(next.value, h)
  {
    var all := steps + [Add(h)];
    assert all[..|all| - 1] == steps;
    RunKeeps(steps);
    var s := Run(steps).value;
    var id := s.requests[h].id;
    if id in s.table {
      assert s.requests[s.table[id]] == Request(id, Waiting, None) && InTable(s, s.table[id]);
    }
  }
}
