/** Gitignore globs and the regular expressions they are compiled to, tools/fs/ignore.go
    globToRegexp. A glob is read byte by byte, so its characters stand for byte values;
    a path is a sequence of runes. */
module GlobRegex {
  import opened Sequences

  /** Membership in a bracketed class, which passes through to the regexp package. */
  type Classes = (string, char) -> bool

  datatype CharSet = Exactly(c: char) | NotSlash | NotNewline | InClass(body: string)

  datatype Regex = Eps | One(cs: CharSet) | Cat(first: Regex, second: Regex) | Star(body: Regex)

  predicate Has(cls: Classes, cs: CharSet, c: char) {
    match cs
    case Exactly(d) => c == d
    case NotSlash => c != '/'
    case NotNewline => c != '\n'
    case InClass(body) => cls(body, c)
  }

  /** s is in the language of r. */
  predicate Matches(cls: Classes, r: Regex, s: string)
    decreases r, |s|
  {
    match r
    case Eps => s == ""
    case One(cs) => |s| == 1 && Has(cls, cs, s[0])
    case Cat(a, b) => exists k | 0 <= k <= |s| :: Matches(cls, a, s[..k]) && Matches(cls, b, s[k..])
    case Star(body) =>
      s == "" || exists k | 0 < k <= |s| :: Matches(cls, body, s[..k]) && Matches(cls, r, s[k..])
  }

  const SEGMENT := Star(One(NotSlash))                          // [^/]*
  const DIRS := Star(Cat(SEGMENT, One(Exactly('/'))))           // (?:[^/]*/)*
  const ANYTHING := Star(One(NotNewline))                       // .*

  /** The index of the first closing bracket. */
  function ClosingBracket(s: string): (i: int)
    ensures -1 <= i < |s|
    ensures i >= 0 ==> s[i] == ']' && ']' !in s[..i]
    ensures i < 0 ==> ']' !in s
  {
    if s == "" then -1
    else if s[0] == ']' then 0
    else
      var i := ClosingBracket(s[1..]);
      if i < 0 then -1 else i + 1
  }

  function ClassBody(class_: string): string {
    if class_ != "" && class_[0] == '!' then "^" + class_[1..] else class_
  }

  /** What the pass writes for the front of the glob, and how many bytes it consumes. */
  function FirstPiece(glob: string): (r: (Regex, nat))
    requires glob != ""
    ensures 0 < r.1 <= |glob|
  {
    if glob[0] == '*' then
      if "**/" <= glob then (DIRS, 3)
      else if glob == "**" then (ANYTHING, 2)
      else (SEGMENT, 1)
    else if glob[0] == '?' then (One(NotSlash), 1)
    else if glob[0] == '[' && ClosingBracket(glob[1..]) >= 0 then
      var end := ClosingBracket(glob[1..]);
      (One(InClass(ClassBody(glob[1..1 + end]))), end + 2)
    else (One(Exactly(glob[0])), 1)
  }

  /** The pieces that one pass over the glob writes. */
  function Pieces(glob: string): seq<Regex>
    decreases |glob|
  {
    if glob == "" then []
    else
      var (piece, n) := FirstPiece(glob);
      [piece] + Pieces(glob[n..])
  }

  function Concat(pieces: seq<Regex>): Regex {
    if pieces == [] then Eps else Cat(pieces[0], Concat(pieces[1..]))
  }

  /** The regular expression of a glob, to be matched against a whole path. */
  function RegexOf(glob: string): Regex { Concat(Pieces(glob)) }

  /** One turn of the loop. */
  method PieceAt(rest: string) returns (piece: Regex, n: nat)
    requires rest != ""
    ensures (piece, n) == FirstPiece(rest) && n > 0
  {
    if rest[0] == '*' {
      if "**/" <= rest { return DIRS, 3; }
      if rest == "**" { return ANYTHING, 2; }
      return SEGMENT, 1;
    }
    if rest[0] == '?' { return One(NotSlash), 1; }
    if rest[0] == '[' {
      var end := ClosingBracket(rest[1..]);
      if end < 0 { return One(Exactly('[')), 1; }
      return One(InClass(ClassBody(rest[1..1 + end]))), end + 2;
    }
    return One(Exactly(rest[0])), 1;
  }

  /** todo gives the pieces that remain to be written from each position. */
  ghost predicate TodoAt(glob: string, todo: int -> seq<Regex>, i: int) {
    0 <= i < |glob| ==>
      var (piece, n) := FirstPiece(glob[i..]);
      i + n <= |glob| && todo(i) == [piece] + todo(i + n)
  }

  method Pass(glob: string, ghost todo: int -> seq<Regex>) returns (pieces: seq<Regex>)
    requires (forall i :: TodoAt(glob, todo, i)) && todo(|glob|) == []
    ensures pieces == todo(0)
  {
    pieces := [];
    var i := 0;
    while i < |glob|
      invariant 0 <= i <= |glob|
      invariant pieces + todo(i) == todo(0)
    {
      var piece, n := PieceAt(glob[i..]);
      assert TodoAt(glob, todo, i);
      Shift(pieces, piece, todo(i + n));
      pieces := pieces + [piece];
      i := i + n;
    }
    WholeAndNothing(pieces);
  }

  ghost function TodoOf(glob: string): int -> seq<Regex> {
    (i: int) => if 0 <= i <= |glob| then Pieces(glob[i..]) else []
  }

  lemma PiecesFrom(glob: string, i: nat, piece: Regex, n: nat)
    requires i < |glob| && FirstPiece(glob[i..]) == (piece, n)
    ensures i + n <= |glob| && Pieces(glob[i..]) == [piece] + Pieces(glob[i + n..])
  {
    DropDrop(glob, i, n);
  }

  lemma TodoAtPiece(glob: string, i: nat)
    requires i < |glob|
    ensures TodoAt(glob, TodoOf(glob), i)
  {
    PiecesFrom(glob, i, FirstPiece(glob[i..]).0, FirstPiece(glob[i..]).1);
  }

  lemma TodoOfPieces(glob: string)
    ensures forall i :: TodoAt(glob, TodoOf(glob), i)
  {
    forall i | 0 <= i < |glob| ensures TodoAt(glob, TodoOf(glob), i) {
      TodoAtPiece(glob, i);
    }
  }

  lemma TodoEnds(glob: string)
    ensures TodoOf(glob)(|glob|) == [] && TodoOf(glob)(0) == Pieces(glob)
  {
    WholeAndNothing(glob);
  }

  method GlobToRegexp(glob: string) returns (pieces: seq<Regex>)
    ensures pieces == Pieces(glob)
  {
    TodoOfPieces(glob);
    TodoEnds(glob);
    pieces := Pass(glob, TodoOf(glob));
  }

  // ---------- the languages of the three stars ----------

  lemma {:induction false} StarOne(cls: Classes, cs: CharSet, s: string)
    ensures Matches(cls, Star(One(cs)), s) <==> forall k | 0 <= k < |s| :: Has(cls, cs, s[k])
    decreases |s|
  {
    var r := Star(One(cs));
    if s != "" {
      StarOne(cls, cs, s[1..]);
      assert Matches(cls, One(cs), s[..1]) <==> Has(cls, cs, s[0]);
      if Matches(cls, r, s) {
        var k :| 0 < k <= |s| && Matches(cls, One(cs), s[..k]) && Matches(cls, r, s[k..]);
        assert k == 1;
        assert forall j | 1 <= j < |s| :: s[j] == s[1..][j - 1];
      }
      if forall j | 0 <= j < |s| :: Has(cls, cs, s[j]) {
        assert Matches(cls, r, s[1..]);
      }
    }
  }

  lemma SegmentLanguage(cls: Classes, s: string)
    ensures Matches(cls, SEGMENT, s) <==> '/' !in s
  {
    StarOne(cls, NotSlash, s);
  }

  lemma AnythingLanguage(cls: Classes, s: string)
    ensures Matches(cls, ANYTHING, s) <==> '\n' !in s
  {
    StarOne(cls, NotNewline, s);
  }

  lemma OneDirLanguage(cls: Classes, s: string)
    ensures Matches(cls, Cat(SEGMENT, One(Exactly('/'))), s) <==> s != "" && s[|s| - 1] == '/' && '/' !in s[..|s| - 1]
  {
    var r := Cat(SEGMENT, One(Exactly('/')));
    if Matches(cls, r, s) {
      var k :| 0 <= k <= |s| && Matches(cls, SEGMENT, s[..k]) && Matches(cls, One(Exactly('/')), s[k..]);
      SegmentLanguage(cls, s[..k]);
      assert k == |s| - 1;
    }
    if s != "" && s[|s| - 1] == '/' && '/' !in s[..|s| - 1] {
      SegmentLanguage(cls, s[..|s| - 1]);
      assert Matches(cls, One(Exactly('/')), s[|s| - 1..]);
    }
  }

  /** The first slash of s. */
  function FirstSlash(s: string): (i: nat)
    requires '/' in s
    ensures i < |s| && s[i] == '/' && '/' !in s[..i]
  {
    if s[0] == '/' then 0
    else
      assert s == [s[0]] + s[1..];
      var i := FirstSlash(s[1..]);
      assert s[..i + 1] == [s[0]] + s[1..][..i];
      i + 1
  }

  lemma {:induction false} DirsLanguage(cls: Classes, s: string)
    ensures Matches(cls, DIRS, s) <==> s == "" || s[|s| - 1] == '/'
    decreases |s|
  {
    var dir := Cat(SEGMENT, One(Exactly('/')));
    if s != "" {
      if Matches(cls, DIRS, s) {
        var k :| 0 < k <= |s| && Matches(cls, dir, s[..k]) && Matches(cls, DIRS, s[k..]);
        OneDirLanguage(cls, s[..k]);
        DirsLanguage(cls, s[k..]);
      }
      if s[|s| - 1] == '/' {
        var k := FirstSlash(s) + 1;
        assert s[..k][..k - 1] == s[..k - 1];
        OneDirLanguage(cls, s[..k]);
        DirsLanguage(cls, s[k..]);
        assert Matches(cls, dir, s[..k]) && Matches(cls, DIRS, s[k..]);
      }
    }
  }

  // ---------- segment-wise matching ----------

  /** The pattern begins with a class: a bracket that is closed later on. */
  predicate OpensClass(pat: string) { pat != "" && pat[0] == '[' && ']' in pat[1..] }

  /** What stands between the brackets. */
  function Bracketed(pat: string): (body: string)
    requires OpensClass(pat)
    ensures |body| + 2 <= |pat| && ']' !in body && pat == "[" + body + "]" + pat[|body| + 2..]
  {
    var end := ClosingBracket(pat[1..]);
    assert pat == [pat[0]] + pat[1..1 + end] + [pat[1..][end]] + pat[end + 2..];
    pat[1..1 + end]
  }

  /** The class takes the character; an exclamation mark in front negates as the caret does. */
  predicate Takes(cls: Classes, body: string, c: char) {
    if body != "" && body[0] == '!' then cls("^" + body[1..], c) else cls(body, c)
  }

  /** A pattern without slash against one path segment; a backslash is a character like others,
      and so is a bracket that is never closed. */
  predicate WildMatch(cls: Classes, pat: string, t: string)
    decreases |pat|, |t|
  {
    if pat == "" then t == ""
    else if pat[0] == '*' then WildMatch(cls, pat[1..], t) || (t != "" && WildMatch(cls, pat, t[1..]))
    else if OpensClass(pat) then
      var body := Bracketed(pat);
      t != "" && Takes(cls, body, t[0]) && WildMatch(cls, pat[|body| + 2..], t[1..])
    else t != "" && (pat[0] == '?' || t[0] == pat[0]) && WildMatch(cls, pat[1..], t[1..])
  }

  const STARS := "**"

  ghost predicate OneLine(segs: seq<string>) {
    forall k | 0 <= k < |segs| :: '\n' !in segs[k]
  }

  /** Pattern segments against path segments: a leading or inner double star stands for zero
      or more segments, a trailing one for one or more; the dot it compiles to stops at newlines. */
  predicate GlobMatch(cls: Classes, pats: seq<string>, segs: seq<string>)
    decreases |pats|, |segs|
  {
    if pats == [] then segs == []
    else if pats[0] == STARS then
      if |pats| == 1 then |segs| >= 1 && forall k | 0 <= k < |segs| :: '\n' !in segs[k]
      else GlobMatch(cls, pats[1..], segs) || (segs != [] && GlobMatch(cls, pats, segs[1..]))
    else segs != [] && WildMatch(cls, pats[0], segs[0]) && GlobMatch(cls, pats[1..], segs[1..])
  }

  predicate EndsInStars(pat: string) {
    |pat| >= 2 && pat[|pat| - 2] == '*' && pat[|pat| - 1] == '*'
  }

  /** Class-free, and no segment but a whole double star ends in a double star; elsewhere in a
      segment a double star is two stars. */
  ghost predicate Plain(glob: string) {
    '[' !in glob && PlainSegments(Split(glob, '/'))
  }

  ghost predicate PlainSegments(pats: seq<string>) {
    forall k | 0 <= k < |pats| :: pats[k] == STARS || !EndsInStars(pats[k])
  }

  /** What stands between the brackets of each class of the glob, left to right. */
  function ClassBodies(glob: string): seq<string>
    decreases |glob|
  {
    if glob == "" then []
    else if OpensClass(glob) then [Bracketed(glob)] + ClassBodies(glob[|Bracketed(glob)| + 2..])
    else ClassBodies(glob[1..])
  }

  /** Every class stays within a segment: it holds no slash and does not take one. */
  ghost predicate ClassesKept(cls: Classes, glob: string) {
    forall body | body in ClassBodies(glob) :: '/' !in body && !Takes(cls, body, '/')
  }

  /** The classes stay within segments, and no segment but a whole double star ends in one. */
  ghost predicate Sound(cls: Classes, glob: string) {
    ClassesKept(cls, glob) && PlainSegments(Split(glob, '/'))
  }

  /** Text without brackets in front holds no class. */
  lemma {:induction false} ClassesBeyond(glob: string, n: nat)
    requires n <= |glob| && '[' !in glob[..n]
    ensures ClassBodies(glob) == ClassBodies(glob[n..])
  {
    WholeAndNothing(glob);
    if n > 0 {
      assert glob[..n][0] == glob[0] && glob[..n][1..] == glob[1..][..n - 1];
      assert forall c | c in glob[..n][1..] :: c in glob[..n];
      DropDrop(glob, 1, n - 1);
      ClassesBeyond(glob[1..], n - 1);
    }
  }

  lemma ClassFree(glob: string)
    requires '[' !in glob
    ensures ClassBodies(glob) == []
  {
    assert glob[..|glob|] == glob;
    ClassesBeyond(glob, |glob|);
  }

  lemma {:induction false} WildStar(cls: Classes, pat: string, t: string)
    ensures WildMatch(cls, "*" + pat, t) <==> exists k | 0 <= k <= |t| :: WildMatch(cls, pat, t[k..])
    decreases |t|
  {
    assert ("*" + pat)[1..] == pat;
    assert t[0..] == t;
    if t != "" {
      WildStar(cls, pat, t[1..]);
      assert forall k | 0 <= k <= |t[1..]| :: t[1..][k..] == t[k + 1..];
      if exists k | 0 <= k <= |t| :: WildMatch(cls, pat, t[k..]) {
        var k :| 0 <= k <= |t| && WildMatch(cls, pat, t[k..]);
        assert k > 0 ==> t[1..][k - 1..] == t[k..];
      }
    }
  }

  lemma {:induction false} NothingMatchesNone(cls: Classes, pats: seq<string>)
    requires pats != []
    ensures !GlobMatch(cls, pats, [])
  {
    if pats[0] == STARS && |pats| > 1 {
      NothingMatchesNone(cls, pats[1..]);
    }
  }

  lemma {:induction false} StarsMatch(cls: Classes, pats: seq<string>, segs: seq<string>)
    requires pats != []
    ensures GlobMatch(cls, [STARS] + pats, segs) <==> exists k | 0 <= k < |segs| :: GlobMatch(cls, pats, segs[k..])
    decreases |segs|
  {
    assert ([STARS] + pats)[1..] == pats;
    assert segs[0..] == segs;
    if segs == [] {
      NothingMatchesNone(cls, pats);
    } else {
      StarsMatch(cls, pats, segs[1..]);
      assert forall k | 0 <= k < |segs[1..]| :: segs[1..][k..] == segs[k + 1..];
      if exists k | 0 <= k < |segs| :: GlobMatch(cls, pats, segs[k..]) {
        var k :| 0 <= k < |segs| && GlobMatch(cls, pats, segs[k..]);
        assert k > 0 ==> segs[1..][k - 1..] == segs[k..];
      }
    }
  }
}
