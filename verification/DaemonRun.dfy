/** One daemon run, daemon/run.go: an append-only event log with a broadcast channel, and
    the table of permission requests that wait for an answer. */
module DaemonRun {
  import opened Sequences

  datatype Decision = Decision(allow: bool, reason: string, rememberFor: int)

  datatype Event = Event(seqNo: int, kind: string, payload: string)

  // The table of pending requests: request ID to whatever identifies the request.

  function Added<H>(table: map<string, H>, id: string, h: H): (r: (bool, map<string, H>))
  {
    if id in table then (false, table) else (true, table[id := h])
  }

  function Taken<H>(table: map<string, H>, id: string): (r: (Option<H>, map<string, H>))
  {
    if id in table then (Some(table[id]), table - {id}) else (None, table)
  }

  function Expired<H(==)>(table: map<string, H>, id: string, h: H): (r: (bool, map<string, H>))
  {
    if id in table && table[id] == h then (true, table - {id}) else (false, table)
  }

  /** A channel used only to be closed. */
  class Notify {
    var closed: bool
    constructor ()
      ensures !closed
    {
      closed := false;
    }
  }

  /** A pending request and its channel of capacity one. */
  class Pending {
    const id: string
    var buffer: Option<Decision>
    constructor (id: string)
      ensures this.id == id && buffer == None
    {
      this.id, buffer := id, None;
    }
  }

  class Run {
    var seqNo: int
    var events: seq<Event>
    var done: bool
    var notify: Notify
    var pending: map<string, Pending>

    /** Positions carry consecutive numbers, and the current channel is open. */
    ghost predicate Valid()
      reads this, notify
    {
      && seqNo == |events|
      && (forall i | 0 <= i < |events| :: events[i].seqNo == i + 1)
      && !notify.closed
    }

    /** A request waits in the table under its own ID with nothing sent to it yet. */
    ghost predicate TableOk()
      reads this, pending.Values
    {
      forall id | id in pending :: pending[id].id == id && pending[id].buffer == None
    }

    constructor ()
      ensures Valid() && TableOk() && events == [] && !done && pending == map[]
    {
      seqNo, events, done, pending := 0, [], false, map[];
      notify := new Notify();
    }

    method SignalLocked()
      modifies this`notify, notify
      ensures fresh(notify) && !notify.closed && old(notify).closed
    {
      notify.closed := true;
      notify := new Notify();
    }

    method Emit(kind: string, payload: string)
      requires Valid()
      modifies this`seqNo, this`events, this`notify, notify
      ensures Valid()
      ensures events == old(events) + [Event(|old(events)| + 1, kind, payload)]
      ensures old(notify).closed && fresh(notify)
    {
      seqNo := seqNo + 1;
      events := events + [Event(seqNo, kind, payload)];
      SignalLocked();
    }

    method Finish()
      requires Valid()
      modifies this`done, this`notify, notify
      ensures Valid() && done
      ensures old(done) ==> notify == old(notify)
      ensures !old(done) ==> old(notify).closed && fresh(notify)
    {
      if done { return; }
      done := true;
      SignalLocked();
    }

    method EventsFrom(index: int) returns (batch: seq<Event>, isDone: bool, ch: Notify)
      requires Valid()
      ensures batch == From(events, index) && isDone == done && ch == notify && !ch.closed
    {
      var i := index;
      if i < 0 { i := 0; }
      if i > |events| { i := |events|; }
      batch, isDone, ch := events[i..], done, notify;
    }

    method AddPermission(p: Pending) returns (ok: bool)
      modifies this`pending
      ensures (ok, pending) == Added(old(pending), p.id, p)
    {
      if p.id in pending { return false; }
      pending := pending[p.id := p];
      return true;
    }

    /** The locked half of resolvePermission; the send is a step of its own. */
    method TakePermission(id: string) returns (p: Option<Pending>)
      modifies this`pending
      ensures (p, pending) == Taken(old(pending), id)
    {
      if id !in pending { return None; }
      p := Some(pending[id]);
      pending := pending - {id};
    }

    method ResolvePermission(id: string, decision: Decision) returns (ok: bool)
      requires TableOk()
      modifies this`pending, if id in pending then {pending[id]} else {}
      ensures ok <==> id in old(pending)
      ensures pending == Taken(old(pending), id).1
      ensures ok ==> old(pending[id]).buffer == Some(decision)
      ensures TableOk()
    {
      var p := TakePermission(id);
      if p.None? { return false; }
      assert p.value.buffer == None; // capacity one: the send does not block
      p.value.buffer := Some(decision);
      return true;
    }

    method ExpirePermission(id: string, p: Pending) returns (ok: bool)
      modifies this`pending
      ensures (ok, pending) == Expired(old(pending), id, p)
    {
      if id !in pending || pending[id] != p { return false; }
      pending := pending - {id};
      return true;
    }
  }

  /** What a subscriber that has consumed index events is handed. */
  function From(events: seq<Event>, index: int): seq<Event> {
    if index < 0 then events else if index > |events| then [] else events[index..]
  }
}
