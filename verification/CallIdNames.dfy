/** Normalisation of tool-call IDs, loop/harden.go normalizeToolCallIDs: every ID becomes
    one that providers accept, a call and its results keep sharing an ID, and two calls
    never come to share one. */
module CallIdNames {
  import Sequences
  import opened Transcript

  const MAX_ID := 64

  predicate Allowed(c: char) {
    'a' <= c <= 'z' || 'A' <= c <= 'Z' || '0' <= c <= '9' || c == '_' || c == '-'
  }

  ghost predicate AllAllowed(s: string) {
    forall k | 0 <= k < |s| :: Allowed(s[k])
  }

  /** [A-Za-z0-9_-]{1,64} */
  ghost predicate ValidId(id: string) {
    1 <= |id| <= MAX_ID && AllAllowed(id)
  }

  function Clean(c: char): char { if Allowed(c) then c else '_' }

  function Sanitize(id: string): (s: string)
    ensures AllAllowed(s) && |s| <= MAX_ID
    ensures s == id <==> AllAllowed(id) && |id| <= MAX_ID
    ensures id != "" ==> s != ""
    ensures |s| == if |id| < 64 then |id| else 64
    ensures forall k | 0 <= k < |s| :: s[k] == if Allowed(id[k]) then id[k] else '_'
  {
    var s := seq(|id|, i requires 0 <= i < |id| => Clean(id[i]));
    assert AllAllowed(id) ==> s == id;
    if |s| > MAX_ID then s[..MAX_ID] else s
  }

  // ---------- decimal suffixes ----------

  function Digit(d: nat): char
    requires d < 10
  {
    ('0' as int + d) as char
  }

  function Digits(n: nat): (s: string)
    ensures s != ""
    ensures forall k | 0 <= k < |s| :: '0' <= s[k] <= '9'
  {
    if n < 10 then [Digit(n)] else Digits(n / 10) + [Digit(n % 10)]
  }

  lemma {:induction false} DigitsInjective(m: nat, n: nat)
    requires Digits(m) == Digits(n)
    ensures m == n
  {
    var s := Digits(m);
    assert s[|s| - 1] == Digit(m % 10) == Digit(n % 10);
    if m >= 10 && n >= 10 {
      assert Digits(m / 10) == s[..|s| - 1] == Digits(n / 10);
      DigitsInjective(m / 10, n / 10);
    }
  }

  ghost function Pow10(k: nat): nat { if k == 0 then 1 else 10 * Pow10(k - 1) }

  lemma {:induction false} DigitsLength(n: nat, k: nat)
    requires k >= 1 && n < Pow10(k)
    ensures |Digits(n)| <= k
  {
    if k == 1 {
      assert Pow10(1) == 10 * Pow10(0);
    } else if n >= 10 {
      DigitsLength(n / 10, k - 1);
    }
  }

  function Suffix(k: nat): string { "_" + Digits(k) }

  /** The k-th alternative name for s: s cut so that the suffix still fits. */
  function Candidate(s: string, k: nat): string {
    var suffix := Suffix(k);
    var room := if |suffix| <= MAX_ID then MAX_ID - |suffix| else 0;
    (if |s| > room then s[..room] else s) + suffix
  }

  lemma SuffixInjective(a: string, b: string, m: nat, n: nat)
    requires a + Suffix(m) == b + Suffix(n)
    ensures m == n
  {
    var x, dm, dn := a + Suffix(m), Digits(m), Digits(n);
    assert x[|x| - |dm| - 1] == '_' && x[|x| - |dn| - 1] == '_';
    assert forall k | |x| - |dm| <= k < |x| :: x[k] != '_';
    assert forall k | |x| - |dn| <= k < |x| :: x[k] != '_';
    assert |dm| == |dn|;
    assert dm == x[|x| - |dm|..] == dn;
    DigitsInjective(m, n);
  }

  lemma CandidateInjective(s: string, m: nat, n: nat)
    requires Candidate(s, m) == Candidate(s, n)
    ensures m == n
  {
    var a := Candidate(s, m)[..|Candidate(s, m)| - |Suffix(m)|];
    var b := Candidate(s, n)[..|Candidate(s, n)| - |Suffix(n)|];
    assert Candidate(s, m) == a + Suffix(m);
    assert Candidate(s, n) == b + Suffix(n);
    SuffixInjective(a, b, m, n);
  }

  /** What a numeral stands for. */
  function Numeral(s: string): int {
    if s == "" then 0 else 10 * Numeral(s[..|s| - 1]) + (s[|s| - 1] as int - '0' as int)
  }

  lemma {:induction false} DigitsRead(n: nat)
    ensures Numeral(Digits(n)) == n
  {
    var s := Digits(n);
    if n >= 10 {
      DigitsRead(n / 10);
      assert s[..|s| - 1] == Digits(n / 10);
    } else {
      assert s[..0] == "";
    }
  }

  /** An alternative name is as much of the name as there is room for, an underscore, and its
      number in decimals. */
  lemma CandidateTold(s: string, k: nat) returns (front: string, number: string)
    requires |Digits(k)| < 64
    ensures Candidate(s, k) == front + "_" + number && front <= s && Numeral(number) == k
    ensures |Candidate(s, k)| <= 64 && (front == s || |Candidate(s, k)| == 64)
  {
    number := Digits(k);
    DigitsRead(k);
    front := Candidate(s, k)[..|Candidate(s, k)| - |Suffix(k)|];
    Sequences.Assoc(front, "_", number);
  }

  /** The names already taken that a later counter would still run into. */
  ghost function Obstacles(used: set<string>, s: string, next: nat): set<string> {
    set c | c in used && exists k: nat :: k > next && c == Candidate(s, k)
  }

  ghost function Attempts(used: set<string>, s: string, candidate: string, next: nat): nat {
    |Obstacles(used, s, next)| + if candidate in used then 1 else 0
  }

  /** Distinct counters give distinct candidates, so each failed attempt uses up one taken name. */
  lemma AttemptsShrink(used: set<string>, s: string, candidate: string, next: nat)
    requires candidate in used
    ensures Attempts(used, s, candidate, next) == Attempts(used, s, Candidate(s, next + 1), next + 1) + 1
  {
    var c := Candidate(s, next + 1);
    var before, after := Obstacles(used, s, next), Obstacles(used, s, next + 1);
    assert c !in after by {
      if c in after {
        var k: nat :| k > next + 1 && c == Candidate(s, k);
        CandidateInjective(s, k, next + 1);
      }
    }
    forall x | x in before && x != c ensures x in after {
      var k: nat :| k > next && x == Candidate(s, k);
      assert k > next + 1;
    }
    if c in used {
      assert before == after + {c};
    } else {
      assert before == after;
    }
  }

  /** The uniquifying loop: the first free name, and the counter it ended with. */
  function Uniquify(used: set<string>, s: string, candidate: string, next: nat): (r: (string, nat))
    ensures r.0 !in used
    ensures next <= r.1 <= next + Attempts(used, s, candidate, next)
    ensures r.0 == candidate || exists k: nat :: next < k <= r.1 && r.0 == Candidate(s, k)
    decreases Attempts(used, s, candidate, next)
  {
    if candidate !in used then (candidate, next)
    else
      AttemptsShrink(used, s, candidate, next);
      Uniquify(used, s, Candidate(s, next + 1), next + 1)
  }

  // ---------- renaming ----------

  datatype Renaming = Renaming(idMap: map<string, string>, used: set<string>, next: nat)

  function Base(id: string): string { if Sanitize(id) == "" then "call" else Sanitize(id) }

  /** One call of the closure mapped: the new name, and the state it leaves. */
  function MapId(st: Renaming, id: string): (string, Renaming) {
    if id == "" then (id, st)
    else if id in st.idMap then (st.idMap[id], st)
    else if Sanitize(id) == id then (id, st.(used := st.used + {id}))
    else
      var (candidate, next) := Uniquify(st.used, Base(id), Base(id), st.next);
      (candidate, Renaming(st.idMap[id := candidate], st.used + {candidate}, next))
  }

  method Mapped(st: Renaming, id: string) returns (name: string, after: Renaming)
    ensures (name, after) == MapId(st, id)
  {
    if id == "" { return id, st; }
    if id in st.idMap { return st.idMap[id], st; }
    var s := Sanitize(id);
    if s == id { return id, st.(used := st.used + {s}); }
    if s == "" { s := "call"; }
    var candidate, next := s, st.next;
    while candidate in st.used
      invariant Uniquify(st.used, s, candidate, next) == Uniquify(st.used, s, s, st.next)
      decreases Attempts(st.used, s, candidate, next)
    {
      AttemptsShrink(st.used, s, candidate, next);
      next := next + 1;
      candidate := Candidate(s, next);
    }
    return candidate, Renaming(st.idMap[id := candidate], st.used + {candidate}, next);
  }

  function PartIds(parts: seq<Part>): seq<string> {
    if parts == [] then []
    else (if parts[0].Call? && parts[0].call.Some? then [parts[0].call.value.id] else []) + PartIds(parts[1..])
  }

  function MessageIds(m: Message): seq<string> {
    PartIds(m.content) + if m.role.Tool? && m.toolCallId != "" then [m.toolCallId] else []
  }

  /** Every ID that the renaming pass visits, in visiting order. */
  function Ids(ms: seq<Message>): seq<string> {
    if ms == [] then [] else MessageIds(ms[0]) + Ids(ms[1..])
  }

  /** IDs that occur on calls, in messages of any role. */
  function AllCallIds(ms: seq<Message>): set<string> {
    set m, id | m in ms && id in PartIds(m.content) :: id
  }

  function Premark(ms: seq<Message>): set<string> {
    set id | id in AllCallIds(ms) && Sanitize(id) == id
  }

  function Fold(st: Renaming, ids: seq<string>): Renaming
    decreases |ids|
  {
    if ids == [] then st else Fold(MapId(st, ids[0]).1, ids[1..])
  }

  function Start(ms: seq<Message>): Renaming { Renaming(map[], Premark(ms), 0) }

  /** The state after the whole pass. */
  function Final(ms: seq<Message>): Renaming { Fold(Start(ms), Ids(ms)) }

  function Apply(st: Renaming, id: string): string {
    if id in st.idMap then st.idMap[id] else id
  }

  function RenamePart(st: Renaming, p: Part): Part {
    if p.Call? && p.call.Some?
    then p.(call := Sequences.Some(p.call.value.(id := Apply(st, p.call.value.id))))
    else p
  }

  function RenameParts(st: Renaming, parts: seq<Part>): (r: seq<Part>)
    ensures |r| == |parts|
  {
    seq(|parts|, i requires 0 <= i < |parts| => RenamePart(st, parts[i]))
  }

  function RenameMessage(st: Renaming, m: Message): Message {
    m.(content := RenameParts(st, m.content),
       toolCallId := if m.role.Tool? && m.toolCallId != "" then Apply(st, m.toolCallId) else m.toolCallId)
  }

  function RenameAll(st: Renaming, ms: seq<Message>): (r: seq<Message>)
    ensures |r| == |ms|
  {
    seq(|ms|, i requires 0 <= i < |ms| => RenameMessage(st, ms[i]))
  }

  /** The transcript with one fixed renaming applied everywhere. */
  function Renamed(ms: seq<Message>): seq<Message> { RenameAll(Final(ms), ms) }

  // ---------- what one step keeps ----------

  /** Premarked names stay reserved; the invented names are usable, taken, and pairwise distinct. */
  ghost predicate Sound(st: Renaming, marked: set<string>) {
    && marked <= st.used
    && (forall id | id in st.idMap ::
          && id != "" && Sanitize(id) != id
          && st.idMap[id] in st.used && st.idMap[id] !in marked
          && st.idMap[id] != "" && AllAllowed(st.idMap[id]))
    && (forall x, y | x in st.idMap && y in st.idMap && st.idMap[x] == st.idMap[y] :: x == y)
  }

  /** id already has its lasting name. */
  ghost predicate Settled(st: Renaming, id: string) {
    id == "" || Sanitize(id) == id || id in st.idMap
  }

  ghost predicate Extends(a: Renaming, b: Renaming) {
    forall id | id in a.idMap :: id in b.idMap && b.idMap[id] == a.idMap[id]
  }

  lemma CandidateAllowed(s: string, k: nat)
    requires AllAllowed(s)
    ensures Candidate(s, k) != "" && AllAllowed(Candidate(s, k))
  {
  }

  lemma UniquifyAllowed(used: set<string>, s: string, next: nat)
    requires AllAllowed(s) && s != ""
    ensures Uniquify(used, s, s, next).0 != "" && AllAllowed(Uniquify(used, s, s, next).0)
  {
    var (r, n) := Uniquify(used, s, s, next);
    if r != s {
      var k: nat :| next < k <= n && r == Candidate(s, k);
      CandidateAllowed(s, k);
    }
  }

  lemma MapIdKeeps(st: Renaming, id: string, marked: set<string>)
    requires Sound(st, marked)
    ensures Sound(MapId(st, id).1, marked)
    ensures Extends(st, MapId(st, id).1)
    ensures Settled(MapId(st, id).1, id)
    ensures MapId(st, id).0 == Apply(MapId(st, id).1, id)
  {
    if id != "" && id !in st.idMap && Sanitize(id) != id {
      UniquifyAllowed(st.used, Base(id), st.next);
    }
  }

  lemma {:induction false} FoldKeeps(st: Renaming, ids: seq<string>, marked: set<string>)
    requires Sound(st, marked)
    ensures Sound(Fold(st, ids), marked)
    ensures Extends(st, Fold(st, ids))
    ensures forall id | id in ids :: Settled(Fold(st, ids), id)
    decreases |ids|
  {
    if ids != [] {
      var next := MapId(st, ids[0]).1;
      MapIdKeeps(st, ids[0], marked);
      FoldKeeps(next, ids[1..], marked);
    }
  }

  lemma ApplyStable(a: Renaming, b: Renaming, id: string, marked: set<string>)
    requires Sound(b, marked) && Extends(a, b) && Settled(a, id)
    ensures Apply(b, id) == Apply(a, id)
  {
  }

  lemma StartSound(ms: seq<Message>)
    ensures Sound(Start(ms), Premark(ms))
  {
  }

  lemma FinalSound(ms: seq<Message>)
    ensures Sound(Final(ms), Premark(ms))
    ensures forall id | id in Ids(ms) :: Settled(Final(ms), id)
  {
    StartSound(ms);
    FoldKeeps(Start(ms), Ids(ms), Premark(ms));
  }

  /** The name a visit hands out is the one the finished pass would give. */
  lemma VisitIsFinal(st: Renaming, id: string, after: seq<string>, marked: set<string>)
    requires Sound(st, marked)
    ensures Sound(MapId(st, id).1, marked)
    ensures MapId(st, id).0 == Apply(Fold(st, [id] + after), id)
    ensures Fold(MapId(st, id).1, after) == Fold(st, [id] + after)
  {
    var next := MapId(st, id).1;
    MapIdKeeps(st, id, marked);
    assert ([id] + after)[1..] == after;
    FoldKeeps(next, after, marked);
    ApplyStable(next, Fold(next, after), id, marked);
  }

  method MarkPartIds(parts: seq<Part>, used0: set<string>) returns (used: set<string>)
    ensures used == used0 + set id | id in PartIds(parts) && Sanitize(id) == id
  {
    used := used0;
    for j := 0 to |parts|
      invariant used + (set id | id in PartIds(parts[j..]) && Sanitize(id) == id)
             == used0 + set id | id in PartIds(parts) && Sanitize(id) == id
    {
      assert parts[j..][1..] == parts[j + 1..];
      if parts[j].Call? && parts[j].call.Some? {
        var id := parts[j].call.value.id;
        if Sanitize(id) == id {
          used := used + {id};
        }
      }
    }
  }

  method MarkValid(msgs: array<Message>) returns (used: set<string>)
    ensures used == Premark(msgs[..])
  {
    used := {};
    ghost var ms := msgs[..];
    for i := 0 to msgs.Length
      invariant used == Premark(ms[..i])
    {
      used := MarkPartIds(msgs[i].content, used);
      assert ms[..i + 1] == ms[..i] + [ms[i]];
    }
    assert ms[..msgs.Length] == ms;
  }

  lemma PartIdsStep(parts: seq<Part>, j: nat)
    requires j < |parts|
    ensures PartIds(parts[j..])
         == if parts[j].Call? && parts[j].call.Some? then [parts[j].call.value.id] + PartIds(parts[j + 1..])
            else PartIds(parts[j + 1..])
  {
    assert parts[j..][1..] == parts[j + 1..];
  }

  /** The pass over one message's parts. */
  method RenameContent(st0: Renaming, parts: seq<Part>, ghost after: seq<string>, ghost final: Renaming, ghost marked: set<string>)
    returns (renamed: seq<Part>, st: Renaming)
    requires Sound(st0, marked)
    requires final == Fold(st0, PartIds(parts) + after)
    ensures renamed == RenameParts(final, parts)
    ensures Sound(st, marked) && final == Fold(st, after)
  {
    renamed, st := parts, st0;
    for j := 0 to |parts|
      invariant |renamed| == |parts|
      invariant forall k | 0 <= k < j :: renamed[k] == RenamePart(final, parts[k])
      invariant forall k | j <= k < |parts| :: renamed[k] == parts[k]
      invariant Sound(st, marked) && final == Fold(st, PartIds(parts[j..]) + after)
    {
      var part := renamed[j];
      PartIdsStep(parts, j);
      if part.Call? && part.call.Some? {
        ghost var rest := PartIds(parts[j + 1..]) + after;
        Sequences.Assoc([part.call.value.id], PartIds(parts[j + 1..]), after);
        VisitIsFinal(st, part.call.value.id, rest, marked);
        var name;
        name, st := Mapped(st, part.call.value.id);
        renamed := renamed[j := part.(call := Sequences.Some(part.call.value.(id := name)))];
      }
    }
    assert PartIds(parts[|parts|..]) + after == after;
  }

  method RenameOne(st0: Renaming, m: Message, ghost after: seq<string>, ghost final: Renaming, ghost marked: set<string>)
    returns (renamed: Message, st: Renaming)
    requires Sound(st0, marked)
    requires final == Fold(st0, MessageIds(m) + after)
    ensures renamed == RenameMessage(final, m)
    ensures Sound(st, marked) && final == Fold(st, after)
  {
    var content, toolCallId;
    if m.role.Tool? && m.toolCallId != "" {
      assert MessageIds(m) + after == PartIds(m.content) + ([m.toolCallId] + after);
      content, st := RenameContent(st0, m.content, [m.toolCallId] + after, final, marked);
      VisitIsFinal(st, m.toolCallId, after, marked);
      toolCallId, st := Mapped(st, m.toolCallId);
    } else {
      assert MessageIds(m) == PartIds(m.content);
      content, st := RenameContent(st0, m.content, after, final, marked);
      toolCallId := m.toolCallId;
    }
    renamed := m.(content := content, toolCallId := toolCallId);
  }

  /** One pass in place, state threaded from ID to ID, equals one fixed renaming applied
      everywhere: so a call and all its results carry the same new name. */
  method NormalizeToolCallIDs(msgs: array<Message>) returns (idMap: map<string, string>)
    modifies msgs
    ensures msgs[..] == Renamed(old(msgs[..]))
    ensures idMap == Final(old(msgs[..])).idMap
  {
    ghost var ms := msgs[..];
    ghost var final, marked := Final(ms), Premark(ms);
    var used := MarkValid(msgs);
    var st := Renaming(map[], used, 0);
    StartSound(ms);
    assert ms[0..] == ms;
    for i := 0 to msgs.Length
      invariant forall k | 0 <= k < i :: msgs[k] == RenameMessage(final, ms[k])
      invariant forall k | i <= k < msgs.Length :: msgs[k] == ms[k]
      invariant Sound(st, marked) && final == Fold(st, Ids(ms[i..]))
    {
      assert ms[i..][0] == ms[i] && ms[i..][1..] == ms[i + 1..];
      var m;
      m, st := RenameOne(st, msgs[i], Ids(ms[i + 1..]), final, marked);
      msgs[i] := m;
    }
    idMap := st.idMap;
  }

  // ---------- what the renaming promises ----------

  /** No two IDs that occur on calls come to share a name. */
  lemma CallNamesInjective(ms: seq<Message>, x: string, y: string)
    requires x in AllCallIds(ms) && y in AllCallIds(ms)
    requires Apply(Final(ms), x) == Apply(Final(ms), y)
    ensures x == y
  {
    CallIdsVisited(ms);
    FinalSound(ms);
  }

  lemma {:induction false} CallIdsVisited(ms: seq<Message>)
    ensures forall id | id in AllCallIds(ms) :: id in Ids(ms)
  {
    if ms != [] {
      CallIdsVisited(ms[1..]);
      forall id | id in AllCallIds(ms) ensures id in Ids(ms) {
        var m :| m in ms && id in PartIds(m.content);
        if m != ms[0] {
          assert m in ms[1..];
          assert id in AllCallIds(ms[1..]);
        }
      }
    }
  }

  /** An ID that providers accept already keeps its name, wherever it occurs. */
  lemma ValidNamesKept(ms: seq<Message>, id: string)
    requires ValidId(id)
    ensures Apply(Final(ms), id) == id
  {
    FinalSound(ms);
  }

  /** Of two IDs that come to share a name, one is valid, keeps its name, and occurs on
      results only; the other was renamed to it. */
  ghost predicate TakesNameOf(ms: seq<Message>, taker: string, owner: string) {
    && ValidId(owner) && owner !in AllCallIds(ms)
    && !ValidId(taker) && Apply(Final(ms), taker) == owner
  }

  lemma SharedNamesTaken(ms: seq<Message>, x: string, y: string)
    requires x in Ids(ms) && y in Ids(ms) && x != y
    ensures Apply(Final(ms), x) == Apply(Final(ms), y) <==> TakesNameOf(ms, x, y) || TakesNameOf(ms, y, x)
  {
    FinalSound(ms);
    assert forall id | id in AllCallIds(ms) && Sanitize(id) == id :: id in Premark(ms);
  }

  /** The names that the pass can invent for an ID: sanitised, or cut and numbered. */
  ghost predicate MayBecome(id: string, name: string) {
    name == Base(id) || exists k: nat :: name == Candidate(Base(id), k)
  }

  lemma {:induction false} InventedShape(st: Renaming, ids: seq<string>)
    requires forall id | id in st.idMap :: MayBecome(id, st.idMap[id])
    ensures forall id | id in Fold(st, ids).idMap :: MayBecome(id, Fold(st, ids).idMap[id])
    decreases |ids|
  {
    if ids != [] {
      InventedShape(MapId(st, ids[0]).1, ids[1..]);
    }
  }

  /** Only an ID that providers reject takes a name, and only one that its own text allows. */
  lemma TakenShape(ms: seq<Message>, taker: string, owner: string)
    requires TakesNameOf(ms, taker, owner) && taker in Ids(ms) && taker != owner
    ensures MayBecome(taker, owner)
  {
    InventedShape(Start(ms), Ids(ms));
    FinalSound(ms);
  }

  // ---------- which name an ID gets ----------

  lemma {:induction false} FoldSnoc(st: Renaming, ids: seq<string>, id: string)
    ensures Fold(st, ids + [id]) == MapId(Fold(st, ids), id).1
    decreases |ids|
  {
    if ids == [] {
      assert [] + [id] == [id] && [id][1..] == [];
    } else {
      assert (ids + [id])[1..] == ids[1..] + [id];
      FoldSnoc(MapId(st, ids[0]).1, ids[1..], id);
    }
  }

  ghost predicate NamedIn(st: Renaming, ids: seq<string>, name: string) {
    exists x :: x in ids && x != "" && Apply(st, x) == name
  }

  /** Reserved are the IDs marked in advance and the names of the IDs visited. */
  ghost predicate UsedFor(st: Renaming, ids: seq<string>, marked: set<string>) {
    && (forall name :: name in st.used <==> name in marked || NamedIn(st, ids, name))
    && (forall id | id in st.idMap :: id in ids)
    && (forall id | id in ids :: Settled(st, id))
  }

  lemma MapIdUses(st: Renaming, ids: seq<string>, id: string, marked: set<string>)
    requires Sound(st, marked) && UsedFor(st, ids, marked)
    ensures UsedFor(MapId(st, id).1, ids + [id], marked)
  {
    var after := MapId(st, id).1;
    MapIdKeeps(st, id, marked);
    forall x | x in ids ensures Apply(after, x) == Apply(st, x) {
      assert Settled(st, x);
    }
    forall name ensures name in after.used <==> name in marked || NamedIn(after, ids + [id], name) {
      if name in st.used && name !in marked {
        var x :| x in ids && x != "" && Apply(st, x) == name;
        assert x in ids + [id] && Apply(after, x) == name;
      }
      if name == Apply(after, id) && id != "" {
        assert id in ids + [id];
      }
      if NamedIn(after, ids + [id], name) {
        var x :| x in ids + [id] && x != "" && Apply(after, x) == name;
        assert x in ids ==> NamedIn(st, ids, name);
      }
    }
  }

  lemma UsesMore(ms: seq<Message>, ids: seq<string>, id: string)
    requires Sound(Fold(Start(ms), ids), Premark(ms)) && UsedFor(Fold(Start(ms), ids), ids, Premark(ms))
    ensures var st := Fold(Start(ms), ids + [id]); Sound(st, Premark(ms)) && UsedFor(st, ids + [id], Premark(ms))
  {
    MapIdUses(Fold(Start(ms), ids), ids, id, Premark(ms));
    MapIdKeeps(Fold(Start(ms), ids), id, Premark(ms));
    FoldSnoc(Start(ms), ids, id);
  }

  lemma StartUses(ms: seq<Message>)
    ensures Sound(Start(ms), Premark(ms)) && UsedFor(Start(ms), [], Premark(ms)) && Fold(Start(ms), []) == Start(ms)
  {
    StartSound(ms);
  }

  lemma {:induction false} FoldUses(ms: seq<Message>, ids: seq<string>)
    ensures Sound(Fold(Start(ms), ids), Premark(ms)) && UsedFor(Fold(Start(ms), ids), ids, Premark(ms))
    decreases |ids|
  {
    if ids == [] {
      StartUses(ms);
    } else {
      var n := |ids| - 1;
      FoldUses(ms, ids[..n]);
      UsesMore(ms, ids[..n], ids[n]);
      assert ids[..n] + [ids[n]] == ids;
    }
  }

  /** The name is a valid call ID of the transcript, or that of an ID visited before. */
  ghost predicate Gone(ms: seq<Message>, before: seq<string>, name: string) {
    || (exists m :: m in ms && name in PartIds(m.content) && Sanitize(name) == name)
    || NamedIn(Final(ms), before, name)
  }

  lemma {:induction false} FoldConcat(st: Renaming, a: seq<string>, b: seq<string>)
    ensures Fold(st, a + b) == Fold(Fold(st, a), b)
    decreases |a|
  {
    if a == [] {
      assert a + b == b;
    } else {
      assert (a + b)[1..] == a[1..] + b;
      FoldConcat(MapId(st, a[0]).1, a[1..], b);
    }
  }

  /** What an invalid ID becomes: its characters sanitised, if no other has that name when the ID
      first turns up, and else one cut and numbered, that none has either. */
  lemma NameTold(ms: seq<Message>, before: seq<string>, id: string, after: seq<string>)
    requires Ids(ms) == before + [id] + after && id !in before && id != "" && Sanitize(id) != id
    ensures var name := Apply(Final(ms), id);
            && !Gone(ms, before, name)
            && if !Gone(ms, before, Sanitize(id)) then name == Sanitize(id)
               else exists k: nat :: name == Candidate(Sanitize(id), k)
  {
    var st := Fold(Start(ms), before);
    var next := MapId(st, id).1;
    FoldUses(ms, before);
    MapIdKeeps(st, id, Premark(ms));
    FoldSnoc(Start(ms), before, id);
    FoldConcat(Start(ms), before + [id], after);
    FoldKeeps(next, after, Premark(ms));
    BeforeStays(ms, before, st, next);
    assert Apply(Final(ms), id) == next.idMap[id];
  }

  lemma BeforeStays(ms: seq<Message>, before: seq<string>, st: Renaming, next: Renaming)
    requires UsedFor(st, before, Premark(ms)) && Extends(st, next) && Extends(next, Final(ms))
    requires forall id | id in Final(ms).idMap :: Sanitize(id) != id && id != ""
    ensures forall name :: Gone(ms, before, name) <==> name in st.used
  {
    forall x | x in before && x != "" ensures Apply(Final(ms), x) == Apply(st, x) {
      assert Settled(st, x);
    }
    forall name ensures Gone(ms, before, name) <==> name in st.used {
      assert name in Premark(ms) <==> exists m :: m in ms && name in PartIds(m.content) && Sanitize(name) == name;
      assert NamedIn(Final(ms), before, name) <==> NamedIn(st, before, name);
    }
  }

  /** What a caller can check beforehand: the valid IDs that occur on results only are none that
      an invalid ID of the transcript may become. */
  ghost predicate NothingToTake(ms: seq<Message>) {
    forall x, y | x in Ids(ms) && y in Ids(ms) && !ValidId(x) && ValidId(y) && y !in AllCallIds(ms) :: !MayBecome(x, y)
  }

  /** Then all visited IDs get different names: in particular when every valid ID is on a call. */
  lemma AllNamesDiffer(ms: seq<Message>, x: string, y: string)
    requires NothingToTake(ms) && x in Ids(ms) && y in Ids(ms) && x != y
    ensures Apply(Final(ms), x) != Apply(Final(ms), y)
  {
    SharedNamesTaken(ms, x, y);
    if TakesNameOf(ms, x, y) {
      TakenShape(ms, x, y);
    } else if TakesNameOf(ms, y, x) {
      TakenShape(ms, y, x);
    }
  }

  function CollidingTranscript(): seq<Message> {
    [Message(Assistant, [Call(Sequences.Some(ToolCall("a b", "t", "")), "")], "", "", false, "", "", map[]),
     Message(Tool, [], "a_b", "", false, "", "", map[])]
  }

  lemma CollidingIds()
    ensures Ids(CollidingTranscript()) == ["a b", "a_b"]
    ensures AllCallIds(CollidingTranscript()) == {"a b"}
    ensures ResultIds(CollidingTranscript()) == {"a_b"}
  {
    var ms := CollidingTranscript();
    assert ms[1..] == [ms[1]] && [ms[1]][1..] == [];
    assert PartIds(ms[0].content) == ["a b"];
    assert MessageIds(ms[0]) == ["a b"] && MessageIds(ms[1]) == ["a_b"];
    assert Ids([ms[1]]) == ["a_b"];
    assert PartIds(ms[1].content) == [];
    assert forall m | m in ms :: m == ms[0] || m == ms[1];
    assert ms[0] in ms && ms[1] in ms && "a b" in PartIds(ms[0].content);
  }

  lemma CollidingNames()
    ensures Sanitize("a b") == "a_b" && Sanitize("a_b") == "a_b"
  {
    assert Clean('a') == 'a' && Clean(' ') == '_' && Clean('b') == 'b';
  }

  lemma CollidingFold()
    ensures Fold(Renaming(map[], {}, 0), ["a b", "a_b"]).idMap == map["a b" := "a_b"]
  {
    CollidingNames();
    var st0 := Renaming(map[], {}, 0);
    var st1 := MapId(st0, "a b").1;
    assert st1 == Renaming(map["a b" := "a_b"], {"a_b"}, 0);
    assert ["a b", "a_b"][1..] == ["a_b"] && ["a_b"][1..] == [];
    assert Fold(st1, ["a_b"]).idMap == st1.idMap;
  }

  /** A valid ID that occurs only on a result is not reserved in advance: an invalid call ID
      may be renamed to it, so injectivity does not extend to such IDs. */
  lemma ResultOnlyNamesMayCollide()
    ensures exists ms: seq<Message>, x: string, y: string ::
              && x in AllCallIds(ms) && y in ResultIds(ms) && ValidId(y)
              && x != y && Apply(Final(ms), x) == Apply(Final(ms), y)
  {
    var ms := CollidingTranscript();
    CollidingIds();
    CollidingNames();
    assert Premark(ms) == {};
    CollidingFold();
    assert "a b" in AllCallIds(ms) && "a_b" in ResultIds(ms) && ValidId("a_b");
    assert Apply(Final(ms), "a b") == Apply(Final(ms), "a_b");
  }

  // ---------- length of the invented names ----------

  /** Go holds at most this many IDs in memory: a slice length is a 64-bit signed integer. */
  ghost predicate FitsInMemory(ms: seq<Message>) {
    |Ids(ms)| < 0x8000_0000_0000_0000
  }

  ghost predicate Short(st: Renaming) {
    forall id | id in st.idMap :: |st.idMap[id]| <= MAX_ID
  }

  lemma SubsetSize<T>(a: set<T>, b: set<T>)
    requires a <= b
    ensures |a| <= |b|
  {
    assert b == a + (b - a);
  }

  lemma {:induction false} SetOfSeqSize<T>(s: seq<T>)
    ensures |set x | x in s| <= |s|
  {
    if s != [] {
      SetOfSeqSize(s[1..]);
      assert (set x | x in s) == {s[0]} + set x | x in s[1..];
    }
  }

  lemma CandidateShort(s: string, k: nat)
    requires k < Pow10(63)
    ensures |Candidate(s, k)| <= MAX_ID
  {
    DigitsLength(k, 63);
  }

  lemma MapIdShort(st: Renaming, id: string)
    requires Short(st)
    requires st.next + |st.used| + 1 < Pow10(63)
    ensures Short(MapId(st, id).1)
    ensures MapId(st, id).1.next <= st.next + |st.used| + 1
    ensures |MapId(st, id).1.used| <= |st.used| + 1
  {
    if id != "" && id !in st.idMap && Sanitize(id) != id {
      SubsetSize(Obstacles(st.used, Base(id), st.next), st.used);
      var (r, n) := Uniquify(st.used, Base(id), Base(id), st.next);
      if r != Base(id) {
        var k: nat :| st.next < k <= n && r == Candidate(Base(id), k);
        CandidateShort(Base(id), k);
      }
    }
  }

  ghost function Times(n: nat, b: nat): nat { if n == 0 then 0 else b + Times(n - 1, b) }

  lemma {:induction false} TimesIsProduct(n: nat, b: nat)
    ensures Times(n, b) == n * b
  {
    if n > 0 {
      TimesIsProduct(n - 1, b);
      assert (n - 1) * b + b == n * b;
    }
  }

  lemma {:induction false} FoldShort(st: Renaming, ids: seq<string>, bound: nat)
    requires Short(st)
    requires |st.used| + |ids| <= bound
    requires st.next + Times(|ids|, bound + 1) < Pow10(63)
    ensures Short(Fold(st, ids))
    decreases |ids|
  {
    if ids != [] {
      MapIdShort(st, ids[0]);
      FoldShort(MapId(st, ids[0]).1, ids[1..], bound);
    }
  }

  lemma PremarkSize(ms: seq<Message>)
    ensures |Premark(ms)| <= |Ids(ms)|
  {
    CallIdsVisited(ms);
    SetOfSeqSize(Ids(ms));
    SubsetSize(Premark(ms), set x | x in Ids(ms));
  }

  lemma {:induction false} Pow10Sum(a: nat, b: nat)
    ensures Pow10(a + b) == Pow10(a) * Pow10(b)
  {
    if a > 0 {
      Pow10Sum(a - 1, b);
      assert 10 * (Pow10(a - 1) * Pow10(b)) == (10 * Pow10(a - 1)) * Pow10(b);
    }
  }

  lemma ProductMono(a: nat, b: nat, c: nat, d: nat)
    requires a <= c && b <= d
    ensures a * b <= c * d
  {
    assert a * b <= a * d;
    assert a * d <= c * d;
  }

  lemma ProductGrows(x: nat, p: nat)
    requires x > 0 && p > 1
    ensures x < x * p
  {
  }

  lemma SquareRoom(n: nat, p: nat)
    requires 2 * n + 1 < p
    ensures n * (2 * n + 1) < p * p * p
  {
    ProductMono(n, 2 * n + 1, p, p);
    var square := p * p;
    if n == 0 {
      ProductGrows(p, p);
    } else {
      ProductGrows(square, p);
    }
    ProductGrows(p, p);
    ProductGrows(square, p);
  }

  lemma CounterRoom(n: nat)
    requires n < 0x8000_0000_0000_0000
    ensures n * (2 * n + 1) < Pow10(63)
  {
    var p := Pow10(21);
    assert Pow10(7) == 10000000;
    Pow10Sum(7, 7);
    Pow10Sum(14, 7);
    SquareRoom(n, p);
    Pow10Sum(21, 21);
    Pow10Sum(42, 21);
  }

  lemma CounterFits(n: nat)
    requires n < 0x8000_0000_0000_0000
    ensures Times(n, 2 * n + 1) < Pow10(63)
  {
    CounterRoom(n);
    TimesIsProduct(n, 2 * n + 1);
  }

  lemma NamesShort(ms: seq<Message>)
    requires FitsInMemory(ms)
    ensures Short(Final(ms))
  {
    PremarkSize(ms);
    CounterFits(|Ids(ms)|);
    FoldShort(Start(ms), Ids(ms), 2 * |Ids(ms)|);
  }

  /** Every non-empty ID ends up in [A-Za-z0-9_-]{1,64}. */
  lemma NamesValid(ms: seq<Message>, id: string)
    requires FitsInMemory(ms)
    requires id in Ids(ms) && id != ""
    ensures ValidId(Apply(Final(ms), id))
  {
    FinalSound(ms);
    NamesShort(ms);
  }

  // ---------- renaming twice ----------

  /** No ID needs a new name. */
  ghost predicate NamesFine(ms: seq<Message>) {
    forall id | id in Ids(ms) :: id == "" || ValidId(id)
  }

  lemma {:induction false} FoldFine(st: Renaming, ids: seq<string>)
    requires st.idMap == map[]
    requires forall id | id in ids :: id == "" || ValidId(id)
    ensures Fold(st, ids).idMap == map[]
    decreases |ids|
  {
    if ids != [] {
      assert ids[0] in ids;
      FoldFine(MapId(st, ids[0]).1, ids[1..]);
    }
  }

  lemma FineNamesUnchanged(ms: seq<Message>)
    requires NamesFine(ms)
    ensures Renamed(ms) == ms
  {
    FoldFine(Start(ms), Ids(ms));
    var st := Final(ms);
    forall i | 0 <= i < |ms| ensures RenameMessage(st, ms[i]) == ms[i] {
      assert RenameParts(st, ms[i].content) == ms[i].content;
    }
  }

  lemma {:induction false} PartIdsRenamed(st: Renaming, parts: seq<Part>, id: string) returns (was: string)
    requires id in PartIds(RenameParts(st, parts))
    ensures was in PartIds(parts) && id == Apply(st, was)
  {
    assert RenameParts(st, parts)[1..] == RenameParts(st, parts[1..]);
    if parts[0].Call? && parts[0].call.Some? && id == Apply(st, parts[0].call.value.id) {
      was := parts[0].call.value.id;
    } else {
      was := PartIdsRenamed(st, parts[1..], id);
    }
  }

  lemma {:induction false} IdsRenamed(st: Renaming, ms: seq<Message>, id: string) returns (was: string)
    requires id in Ids(RenameAll(st, ms))
    ensures id == "" || (was in Ids(ms) && id == Apply(st, was))
  {
    assert RenameAll(st, ms)[1..] == RenameAll(st, ms[1..]);
    var m := ms[0];
    if id in PartIds(RenameParts(st, m.content)) {
      was := PartIdsRenamed(st, m.content, id);
    } else if m.role.Tool? && m.toolCallId != "" && id == Apply(st, m.toolCallId) {
      was := m.toolCallId;
    } else {
      was := IdsRenamed(st, ms[1..], id);
    }
  }

  lemma RenamedIsFine(ms: seq<Message>)
    requires FitsInMemory(ms)
    ensures NamesFine(Renamed(ms))
  {
    forall id | id in Ids(Renamed(ms)) && id != "" ensures ValidId(id) {
      var was := IdsRenamed(Final(ms), ms, id);
      FinalSound(ms);
      NamesValid(ms, was);
    }
  }
}
