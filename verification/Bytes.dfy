/** Byte strings and their lines. */
module Bytes {
  import opened Sequences

  type Byte = b: int | 0 <= b < 256

  type Str = seq<Byte>

  const NEWLINE: Byte := 10

  /** The pieces put together. */
  function Flat(pieces: seq<Str>): Str {
    if pieces == [] then [] else pieces[0] + Flat(pieces[1..])
  }

  /** The lines of a text; a final newline ends the last line and starts no other. */
  function Lines(s: Str): seq<Str> {
    var parts := Split(s, NEWLINE);
    if parts[|parts| - 1] == [] then parts[..|parts| - 1] else parts
  }

  /** A text without one final newline. */
  function Chomped(s: Str): Str {
    if s != [] && s[|s| - 1] == NEWLINE then s[..|s| - 1] else s
  }

  lemma {:induction false} JoinSnocEmpty(parts: seq<Str>)
    requires parts != []
    ensures Join(parts + [[]], NEWLINE) == Join(parts, NEWLINE) + [NEWLINE]
  {
    assert (parts + [[]])[1..] == parts[1..] + [[]];
    if |parts| == 1 {
      assert parts[1..] + [[]] == [[]];
    } else {
      JoinSnocEmpty(parts[1..]);
      var rest := Join(parts[1..], NEWLINE);
      assert parts[0] + [NEWLINE] + (rest + [NEWLINE]) == (parts[0] + [NEWLINE] + rest) + [NEWLINE];
    }
  }

  lemma {:induction false} LastPart(s: Str)
    ensures var parts := Split(s, NEWLINE); parts[|parts| - 1] == [] <==> s == [] || s[|s| - 1] == NEWLINE
    ensures s != [] && s[|s| - 1] == NEWLINE ==> |Split(s, NEWLINE)| >= 2
  {
    if s != [] {
      LastPart(s[1..]);
    }
  }

  lemma JoinInit(parts: seq<Str>, s: Str)
    requires |parts| >= 2 && parts[|parts| - 1] == [] && Join(parts, NEWLINE) == s
    ensures s == Join(parts[..|parts| - 1], NEWLINE) + [NEWLINE]
  {
    assert parts == parts[..|parts| - 1] + [[]];
    JoinSnocEmpty(parts[..|parts| - 1]);
  }

  lemma ChompedSnoc(s: Str)
    ensures Chomped(s + [NEWLINE]) == s
  {
  }

  /** Joining the lines gives the text back, minus one final newline. */
  lemma JoinLines(s: Str)
    ensures Join(Lines(s), NEWLINE) == Chomped(s)
  {
    var parts := Split(s, NEWLINE);
    JoinSplit(s, NEWLINE);
    LastPart(s);
    if s == [] {
      assert Lines(s) == [];
    } else if s[|s| - 1] == NEWLINE {
      var init := parts[..|parts| - 1];
      JoinInit(parts, s);
      assert Lines(s) == init;
      ChompedSnoc(Join(init, NEWLINE));
    } else {
      assert Lines(s) == parts;
    }
  }

  lemma {:induction false} JoinConcat(a: seq<Str>, b: seq<Str>)
    requires a != [] && b != []
    ensures Join(a + b, NEWLINE) == Join(a, NEWLINE) + [NEWLINE] + Join(b, NEWLINE)
  {
    assert (a + b)[1..] == a[1..] + b;
    if |a| == 1 {
      assert a[1..] + b == b;
    } else {
      JoinConcat(a[1..], b);
      var ra, rb := Join(a[1..], NEWLINE), Join(b, NEWLINE);
      assert a[0] + [NEWLINE] + (ra + [NEWLINE] + rb) == (a[0] + [NEWLINE] + ra) + [NEWLINE] + rb;
    }
  }
}
