/** The compiled regular expression of a glob accepts a path exactly when the glob matches
    it segment by segment. */
module GlobTheorem {
  import opened Sequences
  import opened GlobRegex

  lemma {:induction false} FirstSegment(s: string)
    ensures var f := Split(s, '/')[0];
            f <= s && '/' !in f && (|f| < |s| ==> s[|f|] == '/')
    ensures var f := Split(s, '/')[0];
            Split(s, '/')[1..] == if |f| < |s| then Split(s[|f| + 1..], '/') else []
  {
    if s != "" && s[0] != '/' {
      FirstSegment(s[1..]);
      var f, g := Split(s, '/')[0], Split(s[1..], '/')[0];
      assert f == [s[0]] + g;
      assert |f| < |s| ==> s[1..][|g| + 1..] == s[|f| + 1..];
    }
  }

  lemma {:induction false} SplitDrop(s: string, k: nat)
    requires k <= |Split(s, '/')[0]|
    ensures k <= |s|
    ensures Split(s[k..], '/') == [Split(s, '/')[0][k..]] + Split(s, '/')[1..]
  {
    FirstSegment(s);
    if k == 0 {
      assert s[0..] == s && Split(s, '/')[0][0..] == Split(s, '/')[0];
    } else {
      assert s[0] != '/';
      SplitDrop(s[1..], k - 1);
      var rest := Split(s[1..], '/');
      assert s[1..][k - 1..] == s[k..];
      assert Split(s, '/')[0] == [s[0]] + rest[0] && Split(s, '/')[1..] == rest[1..];
      assert Split(s, '/')[0][k..] == rest[0][k - 1..];
    }
  }

  lemma NoSlashIsFirstSegment(s: string, k: nat)
    requires k <= |s|
    ensures '/' !in s[..k] <==> k <= |Split(s, '/')[0]|
  {
    FirstSegment(s);
    var f := Split(s, '/')[0];
    if k > |f| {
      assert s[..k][|f|] == '/';
    } else {
      assert s[..k] == f[..k];
      assert forall c | c in f[..k] :: c in f;
    }
  }

  lemma {:induction false} SplitWithout(s: string, c: char)
    requires c !in s
    ensures forall p | p in Split(s, '/') :: c !in p
  {
    if s != "" {
      assert forall d | d in s[1..] :: d in s;
      assert s[0] in s;
      SplitWithout(s[1..], c);
      var rest := Split(s[1..], '/');
      assert rest[0] in rest;
      forall p | p in Split(s, '/') ensures c !in p {
        assert p == [] || p == [s[0]] + rest[0] || p in rest;
      }
    }
  }

  /** A position just after a slash, or at the front, starts a segment. */
  lemma {:induction false} Boundary(s: string, k: nat) returns (j: nat)
    requires k <= |s| && (k == 0 || s[k - 1] == '/')
    ensures j < |Split(s, '/')| && Split(s[k..], '/') == Split(s, '/')[j..]
  {
    if k == 0 {
      j := 0;
      assert s[0..] == s && Split(s, '/')[0..] == Split(s, '/');
    } else {
      assert s[1..][k - 1..] == s[k..];
      if s[0] == '/' {
        j := Boundary(s[1..], k - 1);
        assert Split(s, '/') == [[]] + Split(s[1..], '/');
        assert Split(s, '/')[j + 1..] == Split(s[1..], '/')[j..];
        j := j + 1;
      } else {
        j := Boundary(s[1..], k - 1);
        var rest := Split(s[1..], '/');
        assert Split(s, '/')[1..] == rest[1..];
        if j == 0 {
          MidIsNoBoundary(s[1..], k - 1);
        }
        assert Split(s, '/')[j..] == rest[j..];
      }
    }
  }

  /** Past the first character, a boundary is past the first segment. */
  lemma MidIsNoBoundary(s: string, k: nat)
    requires 0 < k <= |s| && s[k - 1] == '/'
    ensures |Split(s[k..], '/')| < |Split(s, '/')|
  {
    SplitSuffixCount(s, k);
  }

  lemma {:induction false} SplitSuffixCount(s: string, k: nat)
    requires k <= |s|
    ensures |Split(s, '/')| >= |Split(s[k..], '/')| + if k > 0 && s[k - 1] == '/' then 1 else 0
  {
    if k == 0 {
      assert s[0..] == s;
    } else {
      assert s[1..][k - 1..] == s[k..];
      SplitSuffixCount(s[1..], k - 1);
    }
  }

  lemma {:induction false} BoundaryOf(s: string, j: nat) returns (k: nat)
    requires j < |Split(s, '/')|
    ensures k <= |s| && (k == 0 || s[k - 1] == '/')
    ensures Split(s[k..], '/') == Split(s, '/')[j..]
  {
    if j == 0 {
      k := 0;
      assert s[0..] == s && Split(s, '/')[0..] == Split(s, '/');
    } else {
      FirstSegment(s);
      var n := |Split(s, '/')[0]| + 1;
      k := BoundaryOf(s[n..], j - 1);
      DropDrop(s, n, k);
      DropDrop(Split(s, '/'), 1, j - 1);
      k := n + k;
    }
  }

  lemma CatOne(cls: Classes, cs: CharSet, r: Regex, s: string)
    ensures Matches(cls, Cat(One(cs), r), s) <==> s != "" && Has(cls, cs, s[0]) && Matches(cls, r, s[1..])
  {
    if Matches(cls, Cat(One(cs), r), s) {
      var k :| 0 <= k <= |s| && Matches(cls, One(cs), s[..k]) && Matches(cls, r, s[k..]);
      assert k == 1;
    }
    if s != "" && Has(cls, cs, s[0]) && Matches(cls, r, s[1..]) {
      assert Matches(cls, One(cs), s[..1]);
    }
  }

  ghost predicate CutMatches(cls: Classes, r: Regex, s: string, k: int) {
    0 <= k <= |s| && Matches(cls, r, s[k..])
  }

  /** A concatenation, when the cuts that suit its first part are known. */
  lemma CatWith(cls: Classes, a: Regex, r: Regex, s: string, suits: int -> bool)
    requires forall k | 0 <= k <= |s| :: Matches(cls, a, s[..k]) <==> suits(k)
    ensures Matches(cls, Cat(a, r), s) <==> exists k :: suits(k) && CutMatches(cls, r, s, k)
  {
    if Matches(cls, Cat(a, r), s) {
      var k :| 0 <= k <= |s| && Matches(cls, a, s[..k]) && Matches(cls, r, s[k..]);
      assert suits(k) && CutMatches(cls, r, s, k);
    }
    if k :| suits(k) && CutMatches(cls, r, s, k) {
      assert Matches(cls, a, s[..k]);
    }
  }

  lemma CatSegment(cls: Classes, r: Regex, s: string)
    ensures Matches(cls, Cat(SEGMENT, r), s)
       <==> exists k :: k <= |Split(s, '/')[0]| && CutMatches(cls, r, s, k)
  {
    var suits := (k: int) => k <= |Split(s, '/')[0]|;
    forall k | 0 <= k <= |s| ensures Matches(cls, SEGMENT, s[..k]) <==> suits(k) {
      FirstSegment(s);
      SegmentLanguage(cls, s[..k]);
      NoSlashIsFirstSegment(s, k);
    }
    CatWith(cls, SEGMENT, r, s, suits);
  }

  lemma CatDirs(cls: Classes, r: Regex, s: string)
    ensures Matches(cls, Cat(DIRS, r), s)
       <==> exists k :: 0 <= k <= |s| && (k == 0 || s[k - 1] == '/') && CutMatches(cls, r, s, k)
  {
    var suits := (k: int) => 0 <= k <= |s| && (k == 0 || s[k - 1] == '/');
    forall k | 0 <= k <= |s| ensures Matches(cls, DIRS, s[..k]) <==> suits(k) {
      DirsLanguage(cls, s[..k]);
    }
    CatWith(cls, DIRS, r, s, suits);
  }

  lemma {:induction false} NewlineInSegments(s: string)
    ensures '\n' in s <==> exists k | 0 <= k < |Split(s, '/')| :: '\n' in Split(s, '/')[k]
  {
    if s != "" {
      NewlineInSegments(s[1..]);
      var rest, segs := Split(s[1..], '/'), Split(s, '/');
      assert s == [s[0]] + s[1..];
      if s[0] == '/' {
        assert segs == [[]] + rest;
        assert forall k | 0 <= k < |rest| :: segs[k + 1] == rest[k];
      } else {
        assert segs[0] == [s[0]] + rest[0];
        assert forall k | 1 <= k < |rest| :: segs[k] == rest[k];
      }
    }
  }

  // ---------- the induction ----------

  /** The rest of a pattern that starts inside a segment. */
  predicate TailMatch(cls: Classes, pats: seq<string>, segs: seq<string>)
    requires pats != []
  {
    segs != [] && WildMatch(cls, pats[0], segs[0]) && GlobMatch(cls, pats[1..], segs[1..])
  }

  /** Like Sound, but the first segment may be the rest of one. */
  ghost predicate SoundRest(cls: Classes, g: string) {
    && ClassesKept(cls, g)
    && !EndsInStars(Split(g, '/')[0])
    && PlainSegments(Split(g, '/')[1..])
  }

  lemma SoundRestTail(cls: Classes, g: string)
    requires SoundRest(cls, g) && g != "" && g[0] != '/' && !OpensClass(g)
    ensures SoundRest(cls, g[1..])
    ensures Split(g, '/') == [[g[0]] + Split(g[1..], '/')[0]] + Split(g[1..], '/')[1..]
  {
    var pats, rest := Split(g, '/'), Split(g[1..], '/');
    assert pats[0] == [g[0]] + rest[0];
    assert pats[1..] == rest[1..];
  }

  lemma SoundAfterSlash(cls: Classes, g: string)
    requires SoundRest(cls, g) && g != "" && g[0] == '/'
    ensures Sound(cls, g[1..]) && Split(g, '/') == [[]] + Split(g[1..], '/')
  {
    assert Split(g, '/')[1..] == Split(g[1..], '/');
  }

  lemma SoundIsSoundRest(cls: Classes, g: string)
    requires Sound(cls, g) && Split(g, '/')[0] != STARS
    ensures SoundRest(cls, g)
  {
  }

  /** A text without slash in front belongs to the first segment. */
  lemma {:induction false} SplitBehind(v: string, g: string)
    requires '/' !in v
    ensures Split(v + g, '/') == [v + Split(g, '/')[0]] + Split(g, '/')[1..]
  {
    if v == "" {
      WholeAndNothing(g);
      WholeAndNothing(Split(g, '/')[0]);
    } else {
      assert v[0] in v && forall c | c in v[1..] :: c in v;
      assert (v + g)[1..] == v[1..] + g;
      SplitBehind(v[1..], g);
      assert v + Split(g, '/')[0] == [v[0]] + (v[1..] + Split(g, '/')[0]);
    }
  }

  lemma BodyInFront(g: string)
    requires OpensClass(g)
    ensures g[..|Bracketed(g)| + 2] == "[" + Bracketed(g) + "]"
    ensures |Bracketed(g)| < |g[1..]| && g[1..][..|Bracketed(g)|] == Bracketed(g) && g[1..][|Bracketed(g)|] == ']'
  {
    var body := Bracketed(g);
    assert g[1..] == body + ("]" + g[|body| + 2..]);
  }

  /** The first closed bracket is found wherever one looks for it. */
  lemma SameBody(g: string, h: string)
    requires OpensClass(g) && |Bracketed(g)| + 2 <= |h| && g[..|Bracketed(g)| + 2] == h[..|Bracketed(g)| + 2]
    ensures OpensClass(h) && Bracketed(h) == Bracketed(g)
  {
    var body := Bracketed(g);
    var n := |body| + 2;
    BodyInFront(g);
    assert h == h[..n] + h[n..];
    assert h[1..] == body + ("]" + h[n..]);
    assert h[1..][|body|] == ']';
    var other := Bracketed(h);
    BodyInFront(h);
    BodyUnique(h[1..], body, other);
  }

  lemma InPrefix(s: string, k: nat, n: nat)
    requires k < |s| && n <= |s|
    ensures k < n ==> s[k] in s[..n]
  {
    assert k < n ==> s[..n][k] == s[k];
  }

  lemma BodyUnique(s: string, a: string, b: string)
    requires |a| < |s| && |b| < |s| && s[..|a|] == a && s[..|b|] == b && s[|a|] == s[|b|] == ']'
    requires ']' !in a && ']' !in b
    ensures a == b
  {
    InPrefix(s, |a|, |b|);
    InPrefix(s, |b|, |a|);
  }

  lemma ClassSplits(g: string)
    requires OpensClass(g) && '/' !in Bracketed(g)
    ensures var n := |Bracketed(g)| + 2;
            Split(g, '/') == [g[..n] + Split(g[n..], '/')[0]] + Split(g[n..], '/')[1..]
  {
    var n := |Bracketed(g)| + 2;
    assert g[..n] == "[" + Bracketed(g) + "]" && g == g[..n] + g[n..];
    SplitBehind(g[..n], g[n..]);
  }

  lemma EndsBehind(v: string, rest: string)
    requires EndsInStars(rest)
    ensures EndsInStars(v + rest)
  {
  }

  /** A class in front, that stays in the first segment, and what is behind it. */
  lemma ClassInFront(cls: Classes, g: string)
    requires SoundRest(cls, g) && OpensClass(g)
    ensures var n := |Bracketed(g)| + 2;
            && SoundRest(cls, g[n..])
            && Split(g, '/') == [g[..n] + Split(g[n..], '/')[0]] + Split(g[n..], '/')[1..]
    ensures OpensClass(Split(g, '/')[0]) && Bracketed(Split(g, '/')[0]) == Bracketed(g)
    ensures '/' !in Bracketed(g) && !Takes(cls, Bracketed(g), '/')
  {
    var n := |Bracketed(g)| + 2;
    ClassSplits(g);
    assert ClassBodies(g)[1..] == ClassBodies(g[n..]) && ClassBodies(g)[0] == Bracketed(g);
    var rest := Split(g[n..], '/')[0];
    assert (g[..n] + rest)[..n] == g[..n];
    SameBody(g, g[..n] + rest);
    if EndsInStars(rest) { EndsBehind(g[..n], rest); }
  }

  /** A bracket that is never closed is not closed in its segment. */
  lemma NoClassInFront(g: string)
    requires g != "" && g[0] != '/' && !OpensClass(g)
    ensures !OpensClass(Split(g, '/')[0])
  {
    FirstSegment(g[1..]);
    var rest := Split(g[1..], '/')[0];
    assert Split(g, '/')[0] == [g[0]] + rest && ([g[0]] + rest)[1..] == rest;
    assert forall c | c in rest :: c in g[1..];
  }

  /** The first piece of a sound pattern inside a segment is never a double star. */
  lemma RestPiece(cls: Classes, g: string)
    requires SoundRest(cls, g) && g != "" && !OpensClass(g)
    ensures FirstPiece(g) == (if g[0] == '*' then (SEGMENT, 1) else if g[0] == '?' then (One(NotSlash), 1)
                              else (One(Exactly(g[0])), 1))
    ensures RegexOf(g) == Cat(FirstPiece(g).0, RegexOf(g[1..]))
  {
    FirstSegment(g);
    var f := Split(g, '/')[0];
    var rest := Pieces(g[1..]);
    assert Pieces(g)[0] == FirstPiece(g).0 && Pieces(g)[1..] == rest;
  }

  /** The piece for a class takes what the class takes, and the pass goes on behind the bracket. */
  lemma ClassPiece(cls: Classes, g: string) returns (cs: CharSet)
    requires OpensClass(g)
    ensures RegexOf(g) == Cat(One(cs), RegexOf(g[|Bracketed(g)| + 2..]))
    ensures forall c :: Has(cls, cs, c) <==> Takes(cls, Bracketed(g), c)
  {
    var n := |Bracketed(g)| + 2;
    cs := FirstPiece(g).0.cs;
    assert Pieces(g)[0] == One(cs) && Pieces(g)[1..] == Pieces(g[n..]);
  }

  /** One class. */
  lemma ClassCase(cls: Classes, g: string, s: string, cs: CharSet)
    requires SoundRest(cls, g) && OpensClass(g)
    requires forall c :: Has(cls, cs, c) <==> Takes(cls, Bracketed(g), c)
    requires var rest := g[|Bracketed(g)| + 2..];
             s != "" ==> (Matches(cls, RegexOf(rest), s[1..]) <==> TailMatch(cls, Split(rest, '/'), Split(s[1..], '/')))
    ensures Matches(cls, Cat(One(cs), RegexOf(g[|Bracketed(g)| + 2..])), s) <==> TailMatch(cls, Split(g, '/'), Split(s, '/'))
  {
    var n := |Bracketed(g)| + 2;
    CatOne(cls, cs, RegexOf(g[n..]), s);
    ClassInFront(cls, g);
    if s != "" {
      FirstRune(s);
      ClassTail(cls, g, Split(s, '/'));
    }
  }

  /** The first rune of a text and the first name. */
  lemma FirstRune(s: string)
    requires s != ""
    ensures var segs := Split(s, '/');
            if s[0] == '/' then segs[0] == []
            else segs[0] != [] && segs[0][0] == s[0] && Split(s[1..], '/') == [segs[0][1..]] + segs[1..]
  {
    var segs, after := Split(s, '/'), Split(s[1..], '/');
    if s[0] != '/' {
      assert segs[0] == [s[0]] + after[0] && segs[0][1..] == after[0] && segs[1..] == after[1..];
    }
  }

  lemma ClassTail(cls: Classes, g: string, segs: seq<string>)
    requires SoundRest(cls, g) && OpensClass(g) && segs != []
    ensures TailMatch(cls, Split(g, '/'), segs)
       <==> && segs[0] != [] && Takes(cls, Bracketed(g), segs[0][0])
            && TailMatch(cls, Split(g[|Bracketed(g)| + 2..], '/'), [segs[0][1..]] + segs[1..])
  {
    var n := |Bracketed(g)| + 2;
    ClassInFront(cls, g);
    var pats, rest := Split(g, '/'), Split(g[n..], '/');
    assert pats[0] == g[..n] + rest[0] && pats[0][n..] == rest[0] && pats[1..] == rest[1..];
    if segs[0] != [] {
      var after := [segs[0][1..]] + segs[1..];
      assert after[0] == segs[0][1..] && after[1..] == segs[1..];
    }
  }

  /** One literal or question mark. */
  lemma CharCase(cls: Classes, g: string, s: string, cs: CharSet)
    requires g != "" && g[0] != '/' && g[0] != '*' && !OpensClass(g)
    requires cs == (if g[0] == '?' then NotSlash else Exactly(g[0]))
    requires s != "" ==> (Matches(cls, RegexOf(g[1..]), s[1..]) <==> TailMatch(cls, Split(g[1..], '/'), Split(s[1..], '/')))
    ensures Matches(cls, Cat(One(cs), RegexOf(g[1..])), s) <==> TailMatch(cls, Split(g, '/'), Split(s, '/'))
  {
    CatOne(cls, cs, RegexOf(g[1..]), s);
    NoClassInFront(g);
    var pats, rest := Split(g, '/'), Split(g[1..], '/');
    assert pats[0] == [g[0]] + rest[0] && pats[0][1..] == rest[0] && pats[1..] == rest[1..];
    if s != "" {
      var segs, after := Split(s, '/'), Split(s[1..], '/');
      if s[0] == '/' {
        assert segs[0] == [];
      } else {
        assert segs[0] == [s[0]] + after[0] && segs[0][1..] == after[0] && segs[1..] == after[1..];
      }
    }
  }

  /** A slash between segments. */
  lemma SlashCase(cls: Classes, g: string, s: string)
    requires g != "" && g[0] == '/'
    requires s != "" ==> (Matches(cls, RegexOf(g[1..]), s[1..]) <==> GlobMatch(cls, Split(g[1..], '/'), Split(s[1..], '/')))
    ensures Matches(cls, Cat(One(Exactly('/')), RegexOf(g[1..])), s) <==> TailMatch(cls, Split(g, '/'), Split(s, '/'))
  {
    CatOne(cls, Exactly('/'), RegexOf(g[1..]), s);
    var pats := Split(g, '/');
    assert pats[0] == [] && pats[1..] == Split(g[1..], '/');
    if s == "" {
      assert Split(s, '/')[1..] == [];
      NothingMatchesNone(cls, pats[1..]);
    } else if s[0] == '/' {
      assert Split(s, '/')[0] == [] && Split(s, '/')[1..] == Split(s[1..], '/');
    } else {
      assert Split(s, '/')[0] != [];
    }
  }

  /** Inside the first segment, dropping k characters drops them from that segment only. */
  lemma TailDrop(cls: Classes, rest: seq<string>, s: string, k: nat)
    requires rest != [] && k <= |Split(s, '/')[0]|
    ensures k <= |s|
    ensures TailMatch(cls, rest, Split(s[k..], '/'))
       <==> WildMatch(cls, rest[0], Split(s, '/')[0][k..]) && GlobMatch(cls, rest[1..], Split(s, '/')[1..])
  {
    SplitDrop(s, k);
    var segs := Split(s[k..], '/');
    assert segs[0] == Split(s, '/')[0][k..] && segs[1..] == Split(s, '/')[1..];
  }

  /** Regex and pattern agree on the rest of s from k on. */
  ghost predicate Agree(cls: Classes, r: Regex, rest: seq<string>, s: string, k: int)
    requires rest != [] && 0 <= k <= |s|
  {
    Matches(cls, r, s[k..]) <==> TailMatch(cls, rest, Split(s[k..], '/'))
  }

  /** A single star. */
  lemma StarCase(cls: Classes, r: Regex, rest: seq<string>, s: string)
    requires rest != []
    requires forall k | 0 <= k <= |s| :: Agree(cls, r, rest, s, k)
    ensures Matches(cls, Cat(SEGMENT, r), s) <==> TailMatch(cls, ["*" + rest[0]] + rest[1..], Split(s, '/'))
  {
    var pats, first := ["*" + rest[0]] + rest[1..], Split(s, '/')[0];
    assert pats[0] == "*" + rest[0] && pats[1..] == rest[1..];
    FirstSegment(s);
    CatSegment(cls, r, s);
    WildStar(cls, rest[0], first);
    if Matches(cls, Cat(SEGMENT, r), s) {
      var k :| k <= |first| && CutMatches(cls, r, s, k);
      assert Agree(cls, r, rest, s, k);
      TailDrop(cls, rest, s, k);
      assert WildMatch(cls, rest[0], first[k..]);
    }
    if TailMatch(cls, pats, Split(s, '/')) {
      var k :| 0 <= k <= |first| && WildMatch(cls, rest[0], first[k..]);
      TailDrop(cls, rest, s, k);
      assert Agree(cls, r, rest, s, k);
      assert CutMatches(cls, r, s, k);
    }
  }

  lemma {:induction false} InsideSegment(cls: Classes, g: string, s: string)
    requires SoundRest(cls, g)
    ensures Matches(cls, RegexOf(g), s) <==> TailMatch(cls, Split(g, '/'), Split(s, '/'))
    decreases |g|, 0
  {
    if g == "" {
      FirstSegment(s);
    } else if OpensClass(g) {
      ClassInFront(cls, g);
      if s != "" { InsideSegment(cls, g[|Bracketed(g)| + 2..], s[1..]); }
      var cs := ClassPiece(cls, g);
      ClassCase(cls, g, s, cs);
    } else {
      RestPiece(cls, g);
      if g[0] == '/' {
        SoundAfterSlash(cls, g);
        if s != "" { AtSegment(cls, g[1..], s[1..]); }
        SlashCase(cls, g, s);
      } else {
        SoundRestTail(cls, g);
        if g[0] == '*' {
          forall k | 0 <= k <= |s| ensures Agree(cls, RegexOf(g[1..]), Split(g[1..], '/'), s, k) {
            InsideSegment(cls, g[1..], s[k..]);
          }
          StarCase(cls, RegexOf(g[1..]), Split(g[1..], '/'), s);
        } else {
          if s != "" { InsideSegment(cls, g[1..], s[1..]); }
          CharCase(cls, g, s, if g[0] == '?' then NotSlash else Exactly(g[0]));
        }
      }
    }
  }

  /** A whole double-star segment that others follow. */
  lemma DirsCase(cls: Classes, g: string, s: string)
    requires forall k | 0 <= k <= |s| :: Matches(cls, RegexOf(g), s[k..]) <==> GlobMatch(cls, Split(g, '/'), Split(s[k..], '/'))
    ensures Matches(cls, Cat(DIRS, RegexOf(g)), s) <==> GlobMatch(cls, [STARS] + Split(g, '/'), Split(s, '/'))
  {
    var pats, segs := Split(g, '/'), Split(s, '/');
    CatDirs(cls, RegexOf(g), s);
    StarsMatch(cls, pats, segs);
    if k :| 0 <= k <= |s| && (k == 0 || s[k - 1] == '/') && CutMatches(cls, RegexOf(g), s, k) {
      var j := Boundary(s, k);
    }
    if j :| 0 <= j < |segs| && GlobMatch(cls, pats, segs[j..]) {
      var k := BoundaryOf(s, j);
      assert CutMatches(cls, RegexOf(g), s, k);
    }
  }

  lemma StarsAlone(cls: Classes, s: string)
    ensures Matches(cls, RegexOf(STARS), s) <==> GlobMatch(cls, [STARS], Split(s, '/'))
  {
    assert Pieces(STARS) == [ANYTHING] by {
      assert STARS[2..] == "";
    }
    assert [ANYTHING][1..] == [];
    assert RegexOf(STARS) == Cat(ANYTHING, Eps);
    NewlineInSegments(s);
    assert s[..|s|] == s && s[|s|..] == "";
    AnythingLanguage(cls, s);
    if Matches(cls, RegexOf(STARS), s) {
      var k :| 0 <= k <= |s| && Matches(cls, ANYTHING, s[..k]) && Matches(cls, Eps, s[k..]);
      assert s[..k] == s;
    }
  }

  lemma {:induction false} AtSegment(cls: Classes, g: string, s: string)
    requires Sound(cls, g)
    ensures Matches(cls, RegexOf(g), s) <==> GlobMatch(cls, Split(g, '/'), Split(s, '/'))
    decreases |g|, 1
  {
    FirstSegment(g);
    if Split(g, '/')[0] != STARS {
      SoundIsSoundRest(cls, g);
      InsideSegment(cls, g, s);
    } else if |g| == 2 {
      assert g == STARS && Split(g, '/') == [STARS];
      StarsAlone(cls, s);
    } else {
      var rest := g[3..];
      assert g[0] == '*' && g[1] == '*' && g[2] == '/';
      assert Split(g, '/') == [STARS] + Split(rest, '/');
      DirsPiece(g);
      SoundAfterStars(cls, g);
      forall k | 0 <= k <= |s|
        ensures Matches(cls, RegexOf(rest), s[k..]) <==> GlobMatch(cls, Split(rest, '/'), Split(s[k..], '/'))
      {
        AtSegment(cls, rest, s[k..]);
      }
      DirsCase(cls, rest, s);
    }
  }

  lemma DirsPiece(g: string)
    requires |g| >= 3 && g[0] == '*' && g[1] == '*' && g[2] == '/'
    ensures RegexOf(g) == Cat(DIRS, RegexOf(g[3..]))
  {
    assert "**/" <= g;
    assert Pieces(g)[0] == DIRS && Pieces(g)[1..] == Pieces(g[3..]);
  }

  lemma SoundAfterStars(cls: Classes, g: string)
    requires Sound(cls, g) && |g| >= 3 && g[..3] == "**/" && Split(g, '/') == [STARS] + Split(g[3..], '/')
    ensures Sound(cls, g[3..])
  {
    var pats, rest := Split(g, '/'), Split(g[3..], '/');
    assert forall k | 0 <= k < |rest| :: rest[k] == pats[k + 1];
    ClassesBeyond(g, 3);
  }

  /** For a pattern whose double stars are whole segments and whose classes stay within segments,
      the compiled regular expression accepts a path exactly when segment-wise matching does. */
  lemma GlobCompiles(cls: Classes, glob: string, path: string)
    requires Sound(cls, glob)
    ensures Matches(cls, RegexOf(glob), path) <==> GlobMatch(cls, Split(glob, '/'), Split(path, '/'))
  {
    AtSegment(cls, glob, path);
  }

  /** Segment-wise matching as git has it: a trailing double star takes any segments. */
  predicate GitMatch(cls: Classes, pats: seq<string>, segs: seq<string>)
    decreases |pats|, |segs|
  {
    if pats == [] then segs == []
    else if pats[0] == STARS then
      if |pats| == 1 then |segs| >= 1
      else GitMatch(cls, pats[1..], segs) || (segs != [] && GitMatch(cls, pats, segs[1..]))
    else segs != [] && WildMatch(cls, pats[0], segs[0]) && GitMatch(cls, pats[1..], segs[1..])
  }

  lemma {:induction false} GitMatchOneLine(cls: Classes, pats: seq<string>, segs: seq<string>)
    ensures GlobMatch(cls, pats, segs) ==> GitMatch(cls, pats, segs)
    ensures OneLine(segs) ==> (GlobMatch(cls, pats, segs) <==> GitMatch(cls, pats, segs))
    decreases |pats|, |segs|
  {
    if pats != [] {
      if pats[0] == STARS {
        if |pats| > 1 {
          GitMatchOneLine(cls, pats[1..], segs);
          if segs != [] { GitMatchOneLine(cls, pats, segs[1..]); }
        }
      } else if segs != [] {
        GitMatchOneLine(cls, pats[1..], segs[1..]);
      }
    }
  }

  /** On paths without newlines the compiled pattern is git's segment-wise matching. */
  lemma GlobCompilesToGit(cls: Classes, glob: string, path: string)
    requires Sound(cls, glob) && '\n' !in path
    ensures Matches(cls, RegexOf(glob), path) <==> GitMatch(cls, Split(glob, '/'), Split(path, '/'))
  {
    GlobCompiles(cls, glob, path);
    NewlineInSegments(path);
    GitMatchOneLine(cls, Split(glob, '/'), Split(path, '/'));
  }
}
