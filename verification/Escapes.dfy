/** repairOverEscaping, tools/fs/match.go: literal backslash sequences collapsed to the
    characters they name. */
module Escapes {
  import opened Sequences
  import opened Bytes

  const BACKSLASH: Byte := 0x5C

  /** What a backslash and this letter stand for. */
  function Named(letter: Byte): Option<Byte> {
    if letter == 0x6E then Some(NEWLINE)
    else if letter == 0x74 then Some(0x09)
    else if letter == 0x72 then Some(0x0D)
    else if letter == 0x22 then Some(0x22)
    else if letter == 0x27 then Some(0x27)
    else None
  }

  /** Backslash n, t and r name the newline, the tab and the return; quotes name themselves. */
  lemma NamedTable(letter: Byte, b: Byte)
    ensures Named(letter) == Some(b)
       <==> (letter, b) in {(110, 10), (116, 9), (114, 13), (34, 34), (39, 39)}
  {
  }

  predicate EscapeAt(s: Str, i: int) {
    0 <= i && i + 1 < |s| && s[i] == BACKSLASH && Named(s[i + 1]).Some?
  }

  /** The replacer: left to right, no replacement inside a replacement. */
  function Unescape(s: Str): Str
    decreases |s|
  {
    if s == [] then []
    else if EscapeAt(s, 0) then [Named(s[1]).value] + Unescape(s[2..])
    else [s[0]] + Unescape(s[1..])
  }

  function RepairOverEscaping(s: Str): Str {
    if BACKSLASH !in s then s else Unescape(s)
  }

  ghost predicate HasEscape(s: Str) { exists i :: EscapeAt(s, i) }

  lemma {:induction false} UnescapeLength(s: Str)
    ensures |Unescape(s)| <= |s|
    ensures HasEscape(s) ==> |Unescape(s)| < |s|
    ensures !HasEscape(s) ==> Unescape(s) == s
    decreases |s|
  {
    if s != [] {
      if EscapeAt(s, 0) {
        UnescapeLength(s[2..]);
      } else {
        var rest := s[1..];
        UnescapeLength(rest);
        if HasEscape(s) {
          var i :| EscapeAt(s, i);
          assert EscapeAt(rest, i - 1);
        }
        if HasEscape(rest) {
          var i :| EscapeAt(rest, i);
          assert EscapeAt(s, i + 1);
        }
        assert s == [s[0]] + rest;
      }
    }
  }

  /** The repair changes a text exactly when it holds an escape sequence, and then shortens it. */
  lemma RepairChanges(s: Str)
    ensures RepairOverEscaping(s) != s <==> HasEscape(s)
    ensures HasEscape(s) ==> |RepairOverEscaping(s)| < |s|
  {
    UnescapeLength(s);
    if HasEscape(s) {
      var i :| EscapeAt(s, i);
      assert s[i] in s;
    }
  }

  // ---------- over-escaping ----------

  /** The letter a byte is over-escaped with. */
  function LetterOf(b: Byte): (letter: Option<Byte>)
    ensures letter.Some? ==> Named(letter.value) == Some(b)
  {
    if b == NEWLINE then Some(0x6E)
    else if b == 0x09 then Some(0x74)
    else if b == 0x0D then Some(0x72)
    else if b == 0x22 || b == 0x27 then Some(b)
    else None
  }

  /** What a model delivers that escapes line ends, tabs and quotes once too often. */
  function OverEscape(s: Str): Str {
    if s == [] then []
    else (if LetterOf(s[0]).Some? then [BACKSLASH, LetterOf(s[0]).value] else [s[0]]) + OverEscape(s[1..])
  }

  /** A backslash of the text itself that would be read as naming a control character. */
  predicate Misread(s: Str, i: int) {
    0 <= i && i + 1 < |s| && s[i] == BACKSLASH && s[i + 1] in [0x6E, 0x74, 0x72]
  }

  lemma {:induction false} UnescapeOverEscape(s: Str)
    ensures Unescape(OverEscape(s)) == s <==> forall i :: !Misread(s, i)
  {
    if s == [] {
    } else {
      var rest, e := s[1..], OverEscape(s);
      UnescapeOverEscape(rest);
      MisreadCons(s);
      if LetterOf(s[0]).Some? {
        assert EscapeAt(e, 0) && e[2..] == OverEscape(rest);
        SameTail(s, Unescape(OverEscape(rest)));
      } else if Misread(s, 0) {
        assert EscapeAt(e, 0);
        assert Unescape(e)[0] != s[0];
      } else {
        assert e[1..] == OverEscape(rest);
        assert !EscapeAt(e, 0);
        SameTail(s, Unescape(OverEscape(rest)));
      }
    }
  }

  lemma SameTail(s: Str, tail: Str)
    requires s != []
    ensures [s[0]] + tail == s <==> tail == s[1..]
  {
    assert s == [s[0]] + s[1..];
    assert ([s[0]] + tail)[1..] == tail;
  }

  lemma MisreadCons(s: Str)
    requires s != []
    ensures (forall i :: !Misread(s, i)) <==> !Misread(s, 0) && forall i :: !Misread(s[1..], i)
  {
    if i :| Misread(s, i) && i > 0 {
      assert Misread(s[1..], i - 1);
    }
    if i :| Misread(s[1..], i) {
      assert Misread(s, i + 1);
    }
  }

  lemma {:induction false} OverEscapeFree(s: Str)
    requires BACKSLASH !in OverEscape(s)
    ensures OverEscape(s) == s
  {
    if s != [] {
      var e := OverEscape(s);
      assert e[0] in e;
      assert forall b | b in OverEscape(s[1..]) :: b in e;
      OverEscapeFree(s[1..]);
      assert s == [s[0]] + s[1..];
    }
  }

  /** The repair undoes over-escaping exactly when the text has no backslash before an n, t or r. */
  lemma RepairUndoes(s: Str)
    ensures RepairOverEscaping(OverEscape(s)) == s <==> forall i :: !Misread(s, i)
  {
    UnescapeOverEscape(s);
    if BACKSLASH !in OverEscape(s) {
      OverEscapeFree(s);
      RepairChanges(s);
    }
  }
}
