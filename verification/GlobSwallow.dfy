/** Double stars at the end of a pattern that an earlier whole double star makes harmless
    (tools/fs/ignore.go globToRegexp). */
module GlobSwallow {
  import opened Sequences
  import opened GlobRegex
  import opened GlobTheorem
  import opened GlobLimits
  import opened GlobWitness

  // ---------- a double star that another one swallows ----------

  /** Segments of one star each, and a last one of any number of stars. */
  ghost predicate StarNames(ps: seq<string>) {
    && ps != [] && (forall k | 0 <= k < |ps| :: AnyName(ps[k]))
    && forall k | 0 <= k < |ps| - 1 :: ps[k] == "*"
  }

  lemma StarNamesTail(ps: seq<string>)
    requires StarNames(ps) && |ps| > 1
    ensures ps[0] == "*" && StarNames(ps[1..]) && Join(ps, '/') == "*" + "/" + Join(ps[1..], '/')
  {
    assert forall k | 0 <= k < |ps[1..]| :: ps[1..][k] == ps[k + 1];
  }

  lemma {:induction false} StarsAcceptNothing(cls: Classes, stars: string)
    requires forall k | 0 <= k < |stars| :: stars[k] == '*'
    ensures Matches(cls, RegexOf(stars), "")
    decreases |stars|
  {
    if stars != "" {
      var (piece, n) := FirstPiece(stars);
      RegexUnfolds(stars);
      StarsAcceptNothing(cls, stars[n..]);
      assert Matches(cls, piece, "");
      CatMatches(cls, piece, RegexOf(stars[n..]), "", "");
    }
  }

  lemma OneNameTaken(cls: Classes, stars: string, t: string)
    requires AnyName(stars) && '/' !in t
    ensures Matches(cls, RegexOf(stars), t)
  {
    assert stars[0] == '*' && (|stars| >= 3 ==> stars[2] == '*');
    assert !("**/" <= stars) by {
      assert "**/"[2] == '/';
    }
    assert FirstPiece(stars) == (SEGMENT, 1);
    RegexUnfolds(stars);
    StarsAcceptNothing(cls, stars[1..]);
    SegmentLanguage(cls, t);
    CatMatches(cls, SEGMENT, RegexOf(stars[1..]), t, "");
    WholeAndNothing(t);
  }

  lemma StarThenSlash(g: string)
    ensures RegexOf("*" + "/" + g) == Cat(SEGMENT, Cat(One(Exactly('/')), RegexOf(g)))
  {
    var all, rest := "*" + "/" + g, "/" + g;
    assert all[1..] == rest && rest[1..] == g;
    assert FirstPiece(all) == (SEGMENT, 1) && FirstPiece(rest) == (One(Exactly('/')), 1);
    RegexUnfolds(all);
    RegexUnfolds(rest);
  }

  lemma NameThenRest(cls: Classes, g: string, f: string, after: string)
    requires '/' !in f && Matches(cls, RegexOf(g), after)
    ensures Matches(cls, RegexOf("*" + "/" + g), f + ("/" + after))
  {
    StarThenSlash(g);
    SegmentLanguage(cls, f);
    CatMatches(cls, One(Exactly('/')), RegexOf(g), "/", after);
    CatMatches(cls, SEGMENT, Cat(One(Exactly('/')), RegexOf(g)), f, "/" + after);
  }

  lemma OneNameOnly(s: string)
    requires |Split(s, '/')| == 1
    ensures '/' !in s
  {
    FirstSegment(s);
    OnlySegment(s);
  }

  lemma AfterFirst(s: string) returns (f: string, after: string)
    requires |Split(s, '/')| > 1
    ensures s == f + ("/" + after) && '/' !in f && |Split(after, '/')| == |Split(s, '/')| - 1
  {
    FirstSegment(s);
    f := Split(s, '/')[0];
    after := s[|f| + 1..];
    assert Split(s, '/')[1..] == Split(after, '/');
  }

  lemma {:induction false} NamesTaken(cls: Classes, ps: seq<string>, s: string)
    requires StarNames(ps) && |Split(s, '/')| == |ps|
    ensures Matches(cls, RegexOf(Join(ps, '/')), s)
    decreases |ps|
  {
    if |ps| == 1 {
      OneNameOnly(s);
      OneNameTaken(cls, ps[0], s);
    } else {
      var f, after := AfterFirst(s);
      StarNamesTail(ps);
      NamesTaken(cls, ps[1..], after);
      NameThenRest(cls, Join(ps[1..], '/'), f, after);
    }
  }

  lemma {:induction false} NamesNeeded(cls: Classes, ps: seq<string>, s: string)
    requires StarNames(ps) && Matches(cls, RegexOf(Join(ps, '/')), s)
    ensures |Split(s, '/')| >= |ps|
    decreases |ps|
  {
    if |ps| > 1 {
      StarNamesTail(ps);
      var g := Join(ps[1..], '/');
      StarThenSlash(g);
      CatSegment(cls, Cat(One(Exactly('/')), RegexOf(g)), s);
      var k: int :| k <= |Split(s, '/')[0]| && CutMatches(cls, Cat(One(Exactly('/')), RegexOf(g)), s, k);
      CatOne(cls, Exactly('/'), RegexOf(g), s[k..]);
      DropDrop(s, k, 1);
      NamesNeeded(cls, ps[1..], s[k + 1..]);
      SplitSuffixCount(s, k + 1);
    }
  }

  lemma StarsInFront(ps: seq<string>)
    requires ps != []
    ensures RegexOf(Join([STARS] + ps, '/')) == Cat(DIRS, RegexOf(Join(ps, '/')))
  {
    var g := Join(ps, '/');
    assert ([STARS] + ps)[1..] == ps;
    var all := STARS + ['/'] + g;
    assert all[3..] == g;
    DirsPiece(all);
  }

  lemma LastSegmentsTaken(cls: Classes, ps: seq<string>, s: string)
    requires StarNames(ps) && |Split(s, '/')| >= |ps|
    ensures Matches(cls, Cat(DIRS, RegexOf(Join(ps, '/'))), s)
  {
    var k := BoundaryOf(s, |Split(s, '/')| - |ps|);
    NamesTaken(cls, ps, s[k..]);
    CatDirs(cls, RegexOf(Join(ps, '/')), s);
    assert CutMatches(cls, RegexOf(Join(ps, '/')), s, k);
  }

  lemma LastSegmentsNeeded(cls: Classes, ps: seq<string>, s: string)
    requires StarNames(ps) && Matches(cls, Cat(DIRS, RegexOf(Join(ps, '/'))), s)
    ensures |Split(s, '/')| >= |ps|
  {
    var r := RegexOf(Join(ps, '/'));
    CatDirs(cls, r, s);
    var k: int :| 0 <= k <= |s| && (k == 0 || s[k - 1] == '/') && CutMatches(cls, r, s, k);
    NamesNeeded(cls, ps, s[k..]);
    SplitSuffixCount(s, k);
  }

  /** Whole double star, then any names: at least so many segments, for the expression as for git. */
  lemma StarsThenNames(cls: Classes, ps: seq<string>, s: string)
    requires StarNames(ps)
    ensures Matches(cls, RegexOf(Join([STARS] + ps, '/')), s) <==> |Split(s, '/')| >= |ps|
  {
    StarsInFront(ps);
    if |Split(s, '/')| >= |ps| {
      LastSegmentsTaken(cls, ps, s);
    } else if Matches(cls, RegexOf(Join([STARS] + ps, '/')), s) {
      LastSegmentsNeeded(cls, ps, s);
    }
  }

  lemma {:induction false} AnyNameTakes(cls: Classes, pat: string, t: string)
    requires AnyName(pat) || pat == STARS
    ensures WildMatch(cls, pat, t)
    decreases |t|, |pat|
  {
    if t != "" {
      AnyNameTakes(cls, pat, t[1..]);
    } else if |pat| > 1 {
      assert forall k | 0 <= k < |pat[1..]| :: pat[1..][k] == pat[k + 1];
      AnyNameTakes(cls, pat[1..], t);
    }
  }

  lemma {:induction false} GitTakesNames(cls: Classes, ps: seq<string>, segs: seq<string>)
    requires forall k | 0 <= k < |ps| :: AnyName(ps[k])
    ensures GitMatch(cls, ps, segs) <==> |segs| == |ps|
  {
    if ps != [] {
      assert AnyName(ps[0]);
      assert forall k | 0 <= k < |ps[1..]| :: ps[1..][k] == ps[k + 1];
      if segs != [] {
        AnyNameTakes(cls, ps[0], segs[0]);
        GitTakesNames(cls, ps[1..], segs[1..]);
      }
    }
  }

  lemma {:induction false} GitStarsThenNames(cls: Classes, ps: seq<string>, segs: seq<string>)
    requires ps != [] && forall k | 0 <= k < |ps| :: AnyName(ps[k])
    ensures GitMatch(cls, [STARS] + ps, segs) <==> |segs| >= |ps|
    decreases |segs|
  {
    assert ([STARS] + ps)[1..] == ps;
    GitTakesNames(cls, ps, segs);
    if segs != [] {
      GitStarsThenNames(cls, ps, segs[1..]);
    }
  }

  // ---------- patterns that differ in their last segments only ----------

  ghost predicate SameLanguage(cls: Classes, g: string, h: string) {
    forall s :: Matches(cls, RegexOf(g), s) <==> Matches(cls, RegexOf(h), s)
  }

  lemma SameCat(cls: Classes, a: Regex, r: Regex, t: Regex)
    requires forall s :: Matches(cls, r, s) <==> Matches(cls, t, s)
    ensures forall s :: Matches(cls, Cat(a, r), s) <==> Matches(cls, Cat(a, t), s)
  {
  }

  lemma FrontPiece(v: string, g: string)
    requires v != "" && v[|v| - 1] == '/' && '[' !in v
    ensures FirstPiece(v + g) == FirstPiece(v) && FirstPiece(v).1 <= |v|
    ensures (v + g)[FirstPiece(v).1..] == v[FirstPiece(v).1..] + g
  {
    assert v[0] in v;
    assert (v + g)[..|v|] == v;
    if |v| >= 3 {
      assert (v + g)[..3] == v[..3];
    }
    ConcatDrop(v, g, FirstPiece(v).1);
  }

  /** Text in whole segments in front changes nothing. */
  lemma {:induction false} SameBehind(cls: Classes, v: string, g: string, h: string)
    requires (v == "" || v[|v| - 1] == '/') && '[' !in v && SameLanguage(cls, g, h)
    ensures SameLanguage(cls, v + g, v + h)
    decreases |v|
  {
    if v == "" {
      WholeAndNothing(g);
      WholeAndNothing(h);
    } else {
      var (piece, n) := FirstPiece(v);
      FrontPiece(v, g);
      FrontPiece(v, h);
      assert forall c | c in v[n..] :: c in v;
      SameBehind(cls, v[n..], g, h);
      RegexUnfolds(v + g);
      RegexUnfolds(v + h);
      SameCat(cls, piece, RegexOf(v[n..] + g), RegexOf(v[n..] + h));
    }
  }

  lemma {:induction false} SamePrefix(cls: Classes, a: seq<string>, b: seq<string>, c: seq<string>)
    requires b != [] && c != [] && SameLanguage(cls, Join(b, '/'), Join(c, '/'))
    requires forall p | p in a :: '[' !in p
    ensures SameLanguage(cls, Join(a + b, '/'), Join(a + c, '/'))
  {
    if a == [] {
      WholeAndNothing(b);
      WholeAndNothing(c);
    } else {
      assert (a + b)[1..] == a[1..] + b && (a + c)[1..] == a[1..] + c;
      SamePrefix(cls, a[1..], b, c);
      assert a[0] in a;
      SameBehind(cls, a[0] + ['/'], Join(a[1..] + b, '/'), Join(a[1..] + c, '/'));
    }
  }

  ghost predicate GitSame(cls: Classes, b: seq<string>, c: seq<string>) {
    forall segs :: GitMatch(cls, b, segs) <==> GitMatch(cls, c, segs)
  }

  lemma {:induction false} GitSamePrefix(cls: Classes, a: seq<string>, b: seq<string>, c: seq<string>, segs: seq<string>)
    requires b != [] && c != [] && GitSame(cls, b, c)
    ensures GitMatch(cls, a + b, segs) <==> GitMatch(cls, a + c, segs)
    decreases |a|, |segs|
  {
    if a == [] {
      WholeAndNothing(b);
      WholeAndNothing(c);
    } else {
      assert (a + b)[1..] == a[1..] + b && (a + c)[1..] == a[1..] + c;
      assert (a + b)[0] == a[0] == (a + c)[0];
      if a[0] == STARS {
        GitSamePrefix(cls, a[1..], b, c, segs);
        if segs != [] { GitSamePrefix(cls, a, b, c, segs[1..]); }
      } else if segs != [] {
        GitSamePrefix(cls, a[1..], b, c, segs[1..]);
      }
    }
  }

  // ---------- one star for the last segment ----------

  lemma {:induction false} JoinWithout(parts: seq<string>, c: char)
    requires c != '/' && forall p | p in parts :: c !in p
    ensures c !in Join(parts, '/')
  {
    if parts != [] {
      assert parts[0] in parts && forall p | p in parts[1..] :: p in parts;
      JoinWithout(parts[1..], c);
    }
  }

  /** Behind the swallowing double star, as InnerPlain has it: single stars, then any stars. */
  lemma SwallowedNames(pats: seq<string>, q: nat)
    requires q < |pats| - 1 && SwallowedFrom(pats, q) && InnerPlain(pats)
    ensures StarNames(pats[q + 1..]) && pats == pats[..q] + ([STARS] + pats[q + 1..])
  {
    var ps := pats[q + 1..];
    assert forall k | 0 <= k < |ps| :: ps[k] == pats[q + 1 + k];
    forall k | 0 <= k < |ps| - 1 ensures ps[k] == "*" {
      assert AnyName(pats[q + 1 + k]);
    }
  }

  /** The same pattern with one star at the end. */
  function Tamed(pats: seq<string>): seq<string>
    requires pats != []
  {
    pats[..|pats| - 1] + ["*"]
  }

  lemma TamedNames(ps: seq<string>)
    requires StarNames(ps)
    ensures StarNames(Tamed(ps)) && |Tamed(ps)| == |ps|
  {
  }

  lemma TamedBehind(a: seq<string>, b: seq<string>)
    requires b != []
    ensures Tamed(a + b) == a + Tamed(b)
  {
    assert (a + b)[..|a + b| - 1] == a + b[..|b| - 1];
    Assoc(a, b[..|b| - 1], ["*"]);
  }

  lemma SameNames(cls: Classes, ps: seq<string>, qs: seq<string>)
    requires StarNames(ps) && StarNames(qs) && |ps| == |qs|
    ensures SameLanguage(cls, Join([STARS] + ps, '/'), Join([STARS] + qs, '/'))
    ensures GitSame(cls, [STARS] + ps, [STARS] + qs)
  {
    forall s ensures Matches(cls, RegexOf(Join([STARS] + ps, '/')), s) <==> Matches(cls, RegexOf(Join([STARS] + qs, '/')), s) {
      StarsThenNames(cls, ps, s);
      StarsThenNames(cls, qs, s);
    }
    forall segs ensures GitMatch(cls, [STARS] + ps, segs) <==> GitMatch(cls, [STARS] + qs, segs) {
      GitStarsThenNames(cls, ps, segs);
      GitStarsThenNames(cls, qs, segs);
    }
  }

  /** A swallowed double star might as well be one star, for the expression as for git. */
  lemma TamedSame(cls: Classes, pats: seq<string>, q: nat)
    requires q < |pats| - 1 && SwallowedFrom(pats, q) && InnerPlain(pats)
    requires forall p | p in pats :: '[' !in p
    ensures SameLanguage(cls, Join(pats, '/'), Join(Tamed(pats), '/')) && GitSame(cls, pats, Tamed(pats))
  {
    SwallowedNames(pats, q);
    var a, ps := pats[..q], pats[q + 1..];
    TamedNames(ps);
    SameNames(cls, ps, Tamed(ps));
    TamedBehind([STARS], ps);
    TamedBehind(a, [STARS] + ps);
    assert forall p | p in a :: p in pats;
    SamePrefix(cls, a, [STARS] + ps, [STARS] + Tamed(ps));
    forall segs ensures GitMatch(cls, pats, segs) <==> GitMatch(cls, Tamed(pats), segs) {
      GitSamePrefix(cls, a, [STARS] + ps, [STARS] + Tamed(ps), segs);
    }
  }

  lemma TamedIsPlain(pats: seq<string>)
    requires pats != [] && InnerPlain(pats)
    ensures PlainSegments(Tamed(pats)) && !TrailingStars(Tamed(pats))
  {
    var t := Tamed(pats);
    assert forall k | 0 <= k < |t| - 1 :: t[k] == pats[k];
  }

  lemma SwallowedAgrees(cls: Classes, glob: string, path: string)
    requires '[' !in glob && InnerPlain(Split(glob, '/')) && Swallowed(Split(glob, '/'))
    ensures AgreesWithGit(cls, glob, path)
  {
    var pats := Split(glob, '/');
    var q :| 0 <= q < |pats| - 1 && SwallowedFrom(pats, q);
    SplitWithout(glob, '[');
    SplitFree(glob, '/');
    JoinSplit(glob, '/');
    TamedSame(cls, pats, q);
    var tamed := Tamed(pats);
    TamedIsPlain(pats);
    assert forall p | p in tamed :: p in pats || p == "*";
    JoinWithout(tamed, '[');
    SplitJoin(tamed, '/');
    var other := Join(tamed, '/');
    NewlineMattersIff(cls, other);
    assert AgreesWithGit(cls, other, path);
    assert Matches(cls, RegexOf(glob), path) <==> Matches(cls, RegexOf(other), path);
    assert GitMatch(cls, pats, Split(path, '/')) <==> GitMatch(cls, tamed, Split(path, '/'));
  }
}
