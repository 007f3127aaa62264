/** Where compiled globs and git part ways: names with newlines under a trailing double star,
    and patterns outside ASCII (tools/fs/ignore.go globToRegexp). */
module GlobLimits {
  import opened Sequences
  import opened Bytes
  import Utf8
  import opened GlobRegex
  import GlobTheorem

  // ---------- newlines ----------

  predicate TrailingStars(pats: seq<string>) {
    pats != [] && pats[|pats| - 1] == STARS
  }

  /** Without a trailing double star newlines make no difference. */
  lemma {:induction false} SameWithoutTrailingStars(cls: Classes, pats: seq<string>, segs: seq<string>)
    requires !TrailingStars(pats)
    ensures GlobMatch(cls, pats, segs) <==> GlobTheorem.GitMatch(cls, pats, segs)
    decreases |pats|, |segs|
  {
    if pats != [] {
      if pats[0] == STARS {
        SameWithoutTrailingStars(cls, pats[1..], segs);
        if segs != [] { SameWithoutTrailingStars(cls, pats, segs[1..]); }
      } else if segs != [] {
        SameWithoutTrailingStars(cls, pats[1..], segs[1..]);
      }
    }
  }

  /** A trailing double star as compiled reaches no name with a newline. */
  lemma {:induction false} TrailingStarsStop(cls: Classes, pats: seq<string>, segs: seq<string>)
    requires TrailingStars(pats) && GlobMatch(cls, pats, segs)
    ensures segs != [] && '\n' !in segs[|segs| - 1]
    decreases |pats|, |segs|
  {
    if segs == [] {
      NothingMatchesNone(cls, pats);
    } else if pats[0] == STARS && |pats| > 1 {
      if GlobMatch(cls, pats[1..], segs) {
        TrailingStarsStop(cls, pats[1..], segs);
      } else {
        TrailingStarsStop(cls, pats, segs[1..]);
      }
    } else if pats[0] != STARS {
      TrailingStarsStop(cls, pats[1..], segs[1..]);
    }
  }

  /** A name that a segment pattern accepts. */
  function Example(pat: string): string {
    if pat == "" then ""
    else if pat[0] == '*' then Example(pat[1..])
    else [if pat[0] == '?' then 'x' else pat[0]] + Example(pat[1..])
  }

  lemma {:induction false} ExampleMatches(cls: Classes, pat: string)
    requires '/' !in pat && '[' !in pat
    ensures WildMatch(cls, pat, Example(pat)) && '/' !in Example(pat)
  {
    if pat != "" {
      assert pat[0] in pat;
      ExampleMatches(cls, pat[1..]);
      if pat[0] != '*' {
        assert Example(pat)[1..] == Example(pat[1..]);
      }
    }
  }

  /** A path that git lets the pattern match, with a newline for its last name. */
  function NewlinePath(pats: seq<string>): (segs: seq<string>)
    ensures segs != [] && segs[|segs| - 1] == "\n"
  {
    if |pats| <= 1 then ["\n"]
    else if pats[0] == STARS then NewlinePath(pats[1..])
    else [Example(pats[0])] + NewlinePath(pats[1..])
  }

  lemma {:induction false} NewlinePathMatches(cls: Classes, pats: seq<string>)
    requires TrailingStars(pats) && forall p | p in pats :: '/' !in p && '[' !in p
    ensures GlobTheorem.GitMatch(cls, pats, NewlinePath(pats))
    ensures forall n | n in NewlinePath(pats) :: '/' !in n
  {
    if |pats| > 1 {
      assert pats[0] in pats;
      NewlinePathMatches(cls, pats[1..]);
      ExampleMatches(cls, pats[0]);
      if pats[0] != STARS {
        assert NewlinePath(pats)[1..] == NewlinePath(pats[1..]);
      }
    }
  }

  /** The compiled pattern and git judge this path alike. */
  ghost predicate AgreesWithGit(cls: Classes, glob: string, path: string) {
    Matches(cls, RegexOf(glob), path) <==> GlobTheorem.GitMatch(cls, Split(glob, '/'), Split(path, '/'))
  }

  /** A plain pattern is compiled to git's meaning on all paths exactly when it does not end in
      a whole double-star segment. */
  lemma NewlineMattersIff(cls: Classes, glob: string)
    requires Plain(glob)
    ensures (forall path :: AgreesWithGit(cls, glob, path)) <==> !TrailingStars(Split(glob, '/'))
  {
    var pats := Split(glob, '/');
    ClassFree(glob);
    if TrailingStars(pats) {
      GlobTheorem.SplitWithout(glob, '[');
      var segs := NewlinePath(pats);
      SplitFree(glob, '/');
      NewlinePathMatches(cls, pats);
      SplitJoin(segs, '/');
      var path := Join(segs, '/');
      GlobTheorem.GlobCompiles(cls, glob, path);
      assert '\n' in segs[|segs| - 1];
      if GlobMatch(cls, pats, segs) {
        TrailingStarsStop(cls, pats, segs);
      }
      assert !AgreesWithGit(cls, glob, path);
    } else {
      forall path ensures AgreesWithGit(cls, glob, path) {
        GlobTheorem.GlobCompiles(cls, glob, path);
        SameWithoutTrailingStars(cls, pats, Split(path, '/'));
      }
    }
  }

  /** The dot of the trailing double star stops at a newline, so a name that contains one is missed. */
  lemma NewlineMissed(cls: Classes)
    ensures GlobTheorem.GitMatch(cls, Split("**", '/'), Split("a\nb", '/')) && !Matches(cls, RegexOf("**"), "a\nb")
  {
    SplitOfFree("**", '/');
    SplitOfFree("a\nb", '/');
    var s := "a\nb";
    assert s[1] == '\n' && '\n' in s && [s][0] == s;
    GlobTheorem.StarsAlone(cls, s);
    assert !GlobMatch(cls, [STARS], [s]);
  }

  // ---------- classes that take a slash ----------

  lemma OneClass(body: string)
    requires '/' !in body && ']' !in body
    ensures var glob := "[" + body + "]";
            && OpensClass(glob) && Bracketed(glob) == body && ClassBodies(glob) == [body]
            && Split(glob, '/') == [glob] && !EndsInStars(glob)
  {
    var glob := "[" + body + "]";
    assert glob[1..] == body + "]" && glob[1..][|body|] == ']' && glob[1..][..|body|] == body;
    GlobTheorem.InPrefix(glob[1..], |body|, |Bracketed(glob)|);
    GlobTheorem.BodyUnique(glob[1..], body, Bracketed(glob));
    assert glob[|body| + 2..] == "";
    SplitOfFree(glob, '/');
  }

  /** The slash alone is two empty names to git, and one character to the expression. */
  lemma SlashTaken(cls: Classes, body: string)
    requires '/' !in body && ']' !in body && Takes(cls, body, '/')
    ensures !AgreesWithGit(cls, "[" + body + "]", "/")
  {
    var glob := "[" + body + "]";
    OneClass(body);
    var cs := GlobTheorem.ClassPiece(cls, glob);
    GlobTheorem.CatOne(cls, cs, RegexOf(glob[|body| + 2..]), "/");
    assert glob[|body| + 2..] == "" && "/"[1..] == "" && RegexOf("") == Eps;
    assert Split("/", '/')[0] == "";
  }

  /** A class means what it means to git exactly when it does not take a slash: otherwise it
      reaches across directories. */
  lemma ClassAgreesIff(cls: Classes, body: string)
    requires '/' !in body && ']' !in body
    ensures (forall path :: AgreesWithGit(cls, "[" + body + "]", path)) <==> !Takes(cls, body, '/')
  {
    var glob := "[" + body + "]";
    OneClass(body);
    if Takes(cls, body, '/') {
      SlashTaken(cls, body);
    } else {
      forall path ensures AgreesWithGit(cls, glob, path) {
        GlobTheorem.GlobCompiles(cls, glob, path);
        SameWithoutTrailingStars(cls, [glob], Split(path, '/'));
      }
    }
  }

  // ---------- patterns outside ASCII ----------

  ghost predicate Literal(glob: string) {
    forall k | 0 <= k < |glob| :: glob[k] != '*' && glob[k] != '?' && glob[k] != '['
  }

  /** A glob without special characters accepts its own bytes, each read as one rune. */
  lemma {:induction false} LiteralAcceptsItself(cls: Classes, glob: string, s: string)
    requires Literal(glob)
    ensures Matches(cls, RegexOf(glob), s) <==> s == glob
  {
    if glob != "" {
      var rest := glob[1..];
      assert forall k | 0 <= k < |rest| :: rest[k] == glob[k + 1];
      assert Pieces(glob)[0] == One(Exactly(glob[0])) && Pieces(glob)[1..] == Pieces(rest);
      GlobTheorem.CatOne(cls, Exactly(glob[0]), RegexOf(rest), s);
      if s != "" {
        LiteralAcceptsItself(cls, rest, s[1..]);
        assert s == [s[0]] + s[1..] && glob == [glob[0]] + rest;
      }
    }
  }

  /** A backslash is a character like others: a pattern that escapes its first character, as git
      has it, does not match what it stands for. */
  lemma EscapesNotRead(cls: Classes, glob: string)
    requires Literal(glob)
    ensures !Matches(cls, RegexOf("\\" + glob), glob)
  {
    LiteralAcceptsItself(cls, "\\" + glob, glob);
    assert |"\\" + glob| != |glob|;
  }

  /** The text that bytes spell, rune by rune. */
  function Spelled(s: Str): string
    decreases |s|
  {
    if s == [] then "" else [Utf8.Decode(s).0 as char] + Spelled(s[Utf8.Decode(s).1..])
  }

  /** The pattern as the compiler reads it, byte by byte. */
  function BytesAsChars(s: Str): (t: string)
    ensures |t| == |s|
  {
    seq(|s|, k requires 0 <= k < |s| => s[k] as char)
  }

  lemma {:induction false} SpelledNoLonger(s: Str)
    ensures |Spelled(s)| <= |s|
    decreases |s|
  {
    if s != [] {
      SpelledNoLonger(s[Utf8.Decode(s).1..]);
    }
  }

  ghost predicate Ascii(s: Str) { forall b | b in s :: b < 0x80 }

  lemma AsciiCons(b: Byte, rest: Str)
    requires b < 0x80
    ensures Ascii([b] + rest) <==> Ascii(rest)
  {
    assert forall c | c in rest :: c in [b] + rest;
  }

  /** Bytes spell themselves exactly when all are ASCII. */
  lemma {:induction false} SpelledIsBytesIff(s: Str)
    ensures Spelled(s) == BytesAsChars(s) <==> Ascii(s)
    decreases |s|
  {
    if s != [] {
      var spelled, chars := Spelled(s), BytesAsChars(s);
      if s[0] < 0x80 {
        var rest := s[1..];
        assert Utf8.Decode(s) == (s[0] as int, 1);
        SpelledIsBytesIff(rest);
        assert spelled == [s[0] as char] + Spelled(rest) && chars == [s[0] as char] + BytesAsChars(rest);
        assert spelled[1..] == Spelled(rest) && chars[1..] == BytesAsChars(rest);
        assert s == [s[0]] + rest;
        AsciiCons(s[0], rest);
      } else {
        SpelledNoLonger(s[Utf8.Decode(s).1..]);
        assert s[0] in s;
        if Utf8.ValidFront(s) {
          assert |spelled| < |chars|;
        } else {
          assert spelled[0] != chars[0];
        }
      }
    }
  }

  /** A pattern without special characters matches the name it spells exactly when it is ASCII. */
  lemma AsciiIff(cls: Classes, pattern: Str)
    requires Literal(BytesAsChars(pattern))
    ensures Matches(cls, RegexOf(BytesAsChars(pattern)), Spelled(pattern)) <==> Ascii(pattern)
  {
    LiteralAcceptsItself(cls, BytesAsChars(pattern), Spelled(pattern));
    SpelledIsBytesIff(pattern);
  }

  /** So a pattern outside ASCII misses the very name it spells: e-acute is two bytes in the
      pattern and one rune in the path. */
  lemma NonAsciiMissed(cls: Classes)
    ensures !Matches(cls, RegexOf(['\U{C3}', '\U{A9}']), ['\U{E9}'])
  {
    LiteralAcceptsItself(cls, ['\U{C3}', '\U{A9}'], ['\U{E9}']);
  }
}
