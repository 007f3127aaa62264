/** Paths that a compiled glob accepts and git rejects, for double stars at the end of longer
    segments (tools/fs/ignore.go globToRegexp). */
module GlobWitness {
  import opened Sequences
  import opened GlobRegex
  import opened GlobTheorem
  import opened GlobLimits

  // ---------- a path that the expression accepts ----------

  function Sample(piece: Regex): string {
    match piece
    case One(Exactly(c)) => [c]
    case One(NotSlash) => "x"
    case _ => ""
  }

  /** The shortest text that the pieces of a glob accept. */
  function Bare(glob: string): string
    decreases |glob|
  {
    if glob == "" then ""
    else
      var (piece, n) := FirstPiece(glob);
      Sample(piece) + Bare(glob[n..])
  }

  lemma RegexUnfolds(glob: string)
    requires glob != ""
    ensures var (piece, n) := FirstPiece(glob); RegexOf(glob) == Cat(piece, RegexOf(glob[n..]))
  {
    var (piece, n) := FirstPiece(glob);
    assert Pieces(glob)[1..] == Pieces(glob[n..]);
  }

  lemma CatMatches(cls: Classes, a: Regex, r: Regex, x: string, y: string)
    requires Matches(cls, a, x) && Matches(cls, r, y)
    ensures Matches(cls, Cat(a, r), x + y)
  {
    ConcatDrop(x, y, |x|);
    assert (x + y)[..|x|] == x && (x + y)[|x|..] == y;
  }

  lemma StarsEndLater(glob: string)
    requires EndsInStars(glob) && glob != STARS && '[' !in glob
    ensures EndsInStars(glob[FirstPiece(glob).1..])
  {
  }

  /** The expression accepts the bare text, and what follows it when the glob ends in two stars. */
  lemma {:induction false} BareMatches(cls: Classes, glob: string, more: string)
    requires '[' !in glob && (more == "" || (EndsInStars(glob) && '\n' !in more))
    ensures Matches(cls, RegexOf(glob), Bare(glob) + more)
    decreases |glob|
  {
    if glob == "" {
    } else if glob == STARS {
      RegexUnfolds(glob);
      AnythingLanguage(cls, more);
      WholeAndNothing(more);
      assert Bare(glob) == "";
      CatMatches(cls, ANYTHING, Eps, more, "");
    } else {
      var (piece, n) := FirstPiece(glob);
      var rest := glob[n..];
      RegexUnfolds(glob);
      assert forall c | c in rest :: c in glob;
      if more != "" { StarsEndLater(glob); }
      BareMatches(cls, rest, more);
      assert glob[0] in glob;
      assert Matches(cls, piece, Sample(piece));
      CatMatches(cls, piece, RegexOf(rest), Sample(piece), Bare(rest) + more);
      Assoc(Sample(piece), Bare(rest), more);
    }
  }

  /** The segments of the bare text: a segment that ends in two stars runs into the next. */
  function Merged(pats: seq<string>): (segs: seq<string>)
    requires pats != []
    ensures segs != []
  {
    if |pats| == 1 then [Example(pats[0])]
    else
      var m := Merged(pats[1..]);
      if EndsInStars(pats[0]) then [Example(pats[0]) + m[0]] + m[1..] else [Example(pats[0])] + m
  }

  /** What a character of a segment leaves of it. */
  function Shown(c: char): string {
    if c == '*' then "" else [if c == '?' then 'x' else c]
  }

  lemma ExampleCons(c: char, first: string)
    ensures Example([c] + first) == Shown(c) + Example(first)
  {
    assert ([c] + first)[1..] == first;
  }

  lemma MergedCons(first: string, tail: seq<string>, c: char)
    requires c != '*' || tail == [] || first != "*"
    ensures var m := Merged([first] + tail); Merged([[c] + first] + tail) == [Shown(c) + m[0]] + m[1..]
  {
    var a, b := [[c] + first] + tail, [first] + tail;
    assert a[1..] == tail && b[1..] == tail;
    ExampleCons(c, first);
    if tail == [] {
      assert Merged(a) == [Example(a[0])] && Merged(b) == [Example(b[0])];
    } else {
      var m := Merged(tail);
      assert EndsInStars([c] + first) <==> EndsInStars(first);
      Assoc(Shown(c), Example(first), m[0]);
    }
  }

  /** A star inside a segment is not the first of two that a slash follows. */
  lemma LoneStar(glob: string)
    requires glob != "" && glob[0] == '*' && FirstPiece(glob) == (SEGMENT, 1)
    ensures Split(glob[1..], '/')[0] == "*" ==> |Split(glob[1..], '/')| == 1
  {
    FirstSegment(glob[1..]);
  }

  lemma BareDirs(glob: string)
    requires "**/" <= glob
    requires Split(Bare(glob[3..]), '/') == Merged(Split(glob[3..], '/'))
    ensures Split(Bare(glob), '/') == Merged(Split(glob, '/'))
  {
    var rest := glob[3..];
    var pats := Split(rest, '/');
    assert glob == STARS + ['/'] + rest;
    SplitAtSeparator(STARS, rest, '/');
    assert ([STARS] + pats)[1..] == pats;
    assert Example(STARS) == "" by {
      assert STARS[1..] == "*" && "*"[1..] == "";
    }
    WholeAndNothing(Merged(pats)[0]);
    assert [Merged(pats)[0]] + Merged(pats)[1..] == Merged(pats);
    assert FirstPiece(glob) == (DIRS, 3);
    WholeAndNothing(Bare(rest));
    assert Bare(glob) == Bare(rest);
  }

  lemma BareSlash(glob: string)
    requires glob != "" && glob[0] == '/'
    requires Split(Bare(glob[1..]), '/') == Merged(Split(glob[1..], '/'))
    ensures Split(Bare(glob), '/') == Merged(Split(glob, '/'))
  {
    var pats := Split(glob[1..], '/');
    assert ([""] + pats)[1..] == pats;
    assert FirstPiece(glob) == (One(Exactly('/')), 1);
    assert Bare(glob)[1..] == Bare(glob[1..]);
  }

  lemma BareCons(glob: string)
    requires glob != "" && glob[0] != '/' && glob[0] != '[' && FirstPiece(glob).1 == 1
    ensures Bare(glob) == Shown(glob[0]) + Bare(glob[1..])
    ensures var m := Merged(Split(glob[1..], '/'));
            Merged(Split(glob, '/')) == [Shown(glob[0]) + m[0]] + m[1..]
  {
    var pats := Split(glob[1..], '/');
    if glob[0] == '*' { LoneStar(glob); }
    MergedCons(pats[0], pats[1..], glob[0]);
    assert [pats[0]] + pats[1..] == pats;
  }

  lemma SplitShown(c: char, s: string)
    requires c != '/'
    ensures var m := Split(s, '/'); Split(Shown(c) + s, '/') == [Shown(c) + m[0]] + m[1..]
  {
    var m := Split(s, '/');
    if c == '*' {
      WholeAndNothing(s);
      WholeAndNothing(m[0]);
      assert [m[0]] + m[1..] == m;
    } else {
      assert (Shown(c) + s)[1..] == s;
    }
  }

  lemma BareChar(glob: string)
    requires glob != "" && glob[0] != '/' && glob[0] != '[' && FirstPiece(glob).1 == 1
    requires Split(Bare(glob[1..]), '/') == Merged(Split(glob[1..], '/'))
    ensures Split(Bare(glob), '/') == Merged(Split(glob, '/'))
  {
    BareCons(glob);
    SplitShown(glob[0], Bare(glob[1..]));
  }

  lemma {:induction false} BareSegments(glob: string)
    requires '[' !in glob
    ensures Split(Bare(glob), '/') == Merged(Split(glob, '/'))
    decreases |glob|
  {
    if glob == STARS {
      SplitOfFree(STARS, '/');
      assert Bare(glob) == "" && STARS[1..] == "*" && "*"[1..] == "";
    } else if glob != "" {
      var rest := glob[FirstPiece(glob).1..];
      assert glob[0] in glob && forall c | c in rest :: c in glob;
      BareSegments(rest);
      if "**/" <= glob {
        BareDirs(glob);
      } else if glob[0] == '/' {
        BareSlash(glob);
      } else {
        BareChar(glob);
      }
    }
  }

  // ---------- a double star before a slash ----------

  /** Segments before the last that end in two stars and are more than that. */
  ghost predicate InnerPlain(pats: seq<string>) {
    forall k | 0 <= k < |pats| - 1 :: pats[k] == STARS || !EndsInStars(pats[k])
  }

  /** The fewest segments that git's pattern takes. */
  function Needed(pats: seq<string>): nat {
    if pats == [] then 0
    else if pats[0] == STARS && |pats| > 1 then Needed(pats[1..])
    else 1 + Needed(pats[1..])
  }

  lemma {:induction false} GitNeeds(cls: Classes, pats: seq<string>, segs: seq<string>)
    requires GitMatch(cls, pats, segs)
    ensures |segs| >= Needed(pats)
    decreases |pats|, |segs|
  {
    if pats != [] {
      if pats[0] == STARS {
        if |pats| > 1 {
          if GitMatch(cls, pats[1..], segs) { GitNeeds(cls, pats[1..], segs); } else { GitNeeds(cls, pats, segs[1..]); }
        }
      } else {
        GitNeeds(cls, pats[1..], segs[1..]);
      }
    }
  }

  /** Merging brings the bare text below that exactly when some inner segment is not plain. */
  lemma {:induction false} MergedNeeds(pats: seq<string>)
    requires pats != []
    ensures |Merged(pats)| <= Needed(pats)
    ensures |Merged(pats)| == Needed(pats) <==> InnerPlain(pats)
  {
    if |pats| > 1 {
      var rest := pats[1..];
      MergedNeeds(rest);
      assert forall k | 1 <= k < |pats| :: pats[k] == rest[k - 1];
      assert InnerPlain(pats) <==> (pats[0] == STARS || !EndsInStars(pats[0])) && InnerPlain(rest);
    }
  }

  /** A double star at the end of a longer segment and before a slash also lets the next segment
      follow at once: a text with too few segments for git is accepted. */
  lemma InnerStarsDiffer(cls: Classes, glob: string)
    requires '[' !in glob && !InnerPlain(Split(glob, '/'))
    ensures !AgreesWithGit(cls, glob, Bare(glob))
  {
    var pats := Split(glob, '/');
    BareMatches(cls, glob, "");
    WholeAndNothing(Bare(glob));
    BareSegments(glob);
    MergedNeeds(pats);
    if GitMatch(cls, pats, Merged(pats)) {
      GitNeeds(cls, pats, Merged(pats));
    }
  }

  /** Such a text. */
  lemma InnerStarsMissed(cls: Classes)
    ensures !AgreesWithGit(cls, "a**/b", "ab")
  {
    var glob := "a**" + ['/'] + "b";
    SplitAtSeparator("a**", "b", '/');
    var pats := Split(glob, '/');
    assert pats[0] == "a**" && EndsInStars(pats[0]) && !InnerPlain(pats);
    BareOfExample();
    assert glob == "a**/b";
    InnerStarsDiffer(cls, glob);
  }

  lemma BareOfExample()
    ensures Bare("a**/b") == "ab"
  {
    var glob := "a**/b";
    assert glob[1..] == "**/b" && "**/b"[3..] == "b" && "b"[1..] == "";
    assert "**/" <= "**/b";
    assert Bare("b") == "b" && Bare("**/b") == "b";
  }

  // ---------- a double star at the end ----------

  /** Stars alone, but not the two that make a segment of their own kind: any one name. */
  predicate AnyName(pat: string) {
    pat != "" && pat != STARS && forall k | 0 <= k < |pat| :: pat[k] == '*'
  }

  ghost predicate AnyNames(pats: seq<string>, from: int) {
    forall j | from <= j < |pats| && 0 <= j :: AnyName(pats[j])
  }

  /** A whole double star with nothing after it but segments that take any one name: what
      more a final double star could reach, that one reaches already. */
  ghost predicate Swallowed(pats: seq<string>) {
    exists q | 0 <= q < |pats| - 1 :: SwallowedFrom(pats, q)
  }

  ghost predicate SwallowedFrom(pats: seq<string>, q: int)
    requires 0 <= q < |pats|
  {
    pats[q] == STARS && AnyNames(pats, q + 1)
  }

  /** The last segment that is no any-name segment, if there is one. */
  lemma {:induction false} Pivot(pats: seq<string>, n: nat) returns (q: int)
    requires n <= |pats| && AnyNames(pats, n)
    ensures -1 <= q < n && AnyNames(pats, q + 1)
    ensures q >= 0 ==> !AnyName(pats[q])
  {
    if n == 0 {
      q := -1;
    } else if AnyName(pats[n - 1]) {
      q := Pivot(pats, n - 1);
    } else {
      q := n - 1;
    }
  }

  ghost predicate NoWholeStars(pats: seq<string>) {
    forall k | 0 <= k < |pats| :: pats[k] != STARS
  }

  /** Patterns without a whole double star take the last segments, one each. */
  lemma {:induction false} TailForced(cls: Classes, a: seq<string>, b: seq<string>, segs: seq<string>)
    requires b != [] && NoWholeStars(b) && GitMatch(cls, a + b, segs)
    ensures |segs| >= |b| && GitMatch(cls, b, segs[|segs| - |b|..])
    ensures a == [] ==> |segs| == |b|
    decreases |a| + |b|, |segs|
  {
    if a == [] {
      assert a + b == b;
      RigidLength(cls, b, segs);
      WholeAndNothing(segs);
    } else {
      assert (a + b)[1..] == a[1..] + b && (a + b)[0] == a[0];
      if a[0] == STARS && GitMatch(cls, a[1..] + b, segs) {
        TailForced(cls, a[1..], b, segs);
      } else {
        var less := if a[0] == STARS then a else a[1..];
        TailForced(cls, less, b, segs[1..]);
        DropDrop(segs, 1, |segs| - 1 - |b|);
      }
    }
  }

  lemma {:induction false} RigidLength(cls: Classes, b: seq<string>, segs: seq<string>)
    requires NoWholeStars(b) && GitMatch(cls, b, segs)
    ensures |segs| == |b|
  {
    if b != [] {
      assert forall k | 0 <= k < |b[1..]| :: b[1..][k] == b[k + 1];
      RigidLength(cls, b[1..], segs[1..]);
    }
  }

  /** A name that a segment pattern which is not of any-name kind rejects. */
  function Rejected(pat: string): string { if pat == "" then "x" else "" }

  lemma {:induction false} EmptyNeedsStars(cls: Classes, pat: string)
    requires WildMatch(cls, pat, "")
    ensures forall k | 0 <= k < |pat| :: pat[k] == '*'
  {
    if pat != "" {
      EmptyNeedsStars(cls, pat[1..]);
      assert forall k | 1 <= k < |pat| :: pat[k] == pat[1..][k - 1];
    }
  }

  lemma RejectedIs(cls: Classes, pat: string)
    requires !AnyName(pat) && pat != STARS
    ensures !WildMatch(cls, pat, Rejected(pat))
  {
    if pat != "" && WildMatch(cls, pat, "") {
      EmptyNeedsStars(cls, pat);
    }
  }

  /** n more segments t, then an empty one, to be written behind a text. */
  function More(t: string, n: nat): string {
    if n == 0 then "" else t + "/" + More(t, n - 1)
  }

  function MoreSegments(t: string, n: nat): (segs: seq<string>)
    ensures |segs| == n + 1
    ensures forall k | 0 <= k < n :: segs[k] == t
    ensures segs[n] == ""
  {
    if n == 0 then [""] else [t] + MoreSegments(t, n - 1)
  }

  lemma {:induction false} SplitMore(t: string, n: nat)
    requires '/' !in t && '\n' !in t
    ensures Split(More(t, n), '/') == MoreSegments(t, n) && '\n' !in More(t, n)
  {
    if n > 0 {
      SplitMore(t, n - 1);
      SplitAtSeparator(t, More(t, n - 1), '/');
    }
  }

  /** Segments behind segments: the last of the one and the first of the other become one. */
  function Glued(a: seq<string>, b: seq<string>): seq<string>
    requires a != [] && b != []
  {
    if |a| == 1 then [a[0] + b[0]] + b[1..] else [a[0]] + Glued(a[1..], b)
  }

  lemma GluedHead(c: char, a: seq<string>, b: seq<string>)
    requires a != [] && b != []
    ensures var g := Glued(a, b); g != [] && Glued([[c] + a[0]] + a[1..], b) == [[c] + g[0]] + g[1..]
  {
    var longer := [[c] + a[0]] + a[1..];
    if |a| == 1 {
      assert longer == [[c] + a[0]];
      Assoc([c], a[0], b[0]);
    } else {
      assert longer[1..] == a[1..];
    }
  }

  /** Text behind a text: its first segment runs on. */
  lemma {:induction false} SplitConcat(x: string, y: string)
    ensures Split(x + y, '/') == Glued(Split(x, '/'), Split(y, '/'))
  {
    var b := Split(y, '/');
    if x == "" {
      WholeAndNothing(y);
      WholeAndNothing(b[0]);
      assert [b[0]] + b[1..] == b;
    } else {
      var c := Split(x[1..], '/');
      assert (x + y)[1..] == x[1..] + y;
      SplitConcat(x[1..], y);
      if x[0] == '/' {
        assert ([[]] + c)[1..] == c;
      } else {
        GluedHead(x[0], c, b);
      }
    }
  }

  lemma {:induction false} GluedEnd(a: seq<string>, b: seq<string>, k: nat)
    requires a != [] && b != [] && k < |b| - 1
    ensures |Glued(a, b)| == |a| + |b| - 1
    ensures Glued(a, b)[|a| + |b| - 2 - k] == b[|b| - 1 - k]
  {
    if |a| > 1 {
      GluedEnd(a[1..], b, k);
    }
  }

  // ---------- the last segment ----------

  lemma {:induction false} LastSegmentEnds(glob: string)
    requires EndsInStars(Split(glob, '/')[|Split(glob, '/')| - 1])
    ensures EndsInStars(glob)
  {
    if glob != "" {
      var rest := Split(glob[1..], '/');
      if glob[0] == '/' || |rest| > 1 {
        LastSegmentEnds(glob[1..]);
      } else {
        SplitSuffixCount(glob, 0);
        OnlySegment(glob);
      }
    }
  }

  lemma OnlySegment(s: string)
    requires |Split(s, '/')| == 1
    ensures Split(s, '/')[0] == s
  {
    FirstSegment(s);
  }

  /** The path that the expression accepts and git rejects: what the pivot rejects, often enough. */
  function Overlong(glob: string, t: string): string { Bare(glob) + More(t, |Split(glob, '/')|) }

  ghost predicate EndAt(segs: seq<string>, t: string, k: nat) {
    k < |segs| && segs[|segs| - 1 - k] == if k == 0 then "" else t
  }

  /** More than n segments, of which the last is empty and those before it are t. */
  ghost predicate EndsIn(segs: seq<string>, t: string, n: nat) {
    |segs| > n && forall k: nat | k < n :: EndAt(segs, t, k)
  }

  lemma GluedEnds(a: seq<string>, t: string, n: nat)
    requires a != [] && n > 0
    ensures EndsIn(Glued(a, MoreSegments(t, n)), t, n)
  {
    GluedEnd(a, MoreSegments(t, n), 0);
    forall k: nat | k < n ensures EndAt(Glued(a, MoreSegments(t, n)), t, k) {
      GluedEnd(a, MoreSegments(t, n), k);
    }
  }

  lemma OverlongSegments(glob: string, t: string)
    requires '[' !in glob && '/' !in t && '\n' !in t
    ensures EndsIn(Split(Overlong(glob, t), '/'), t, |Split(glob, '/')|)
  {
    var n := |Split(glob, '/')|;
    SplitMore(t, n);
    SplitConcat(Bare(glob), More(t, n));
    GluedEnds(Split(Bare(glob), '/'), t, n);
  }

  lemma NoStarsFrom(pats: seq<string>, from: nat)
    requires from < |pats| && pats[from] != STARS && AnyNames(pats, from + 1)
    ensures NoWholeStars(pats[from..]) && pats == pats[..from] + pats[from..]
  {
    forall k | 0 <= k < |pats[from..]| ensures pats[from..][k] != STARS {
      assert pats[from..][k] == pats[from + k];
    }
  }

  /** Counted from the end, the pivot takes t. */
  lemma PivotTakes(cls: Classes, pats: seq<string>, q: nat, segs: seq<string>, t: string)
    requires q < |pats| && pats[q] != STARS && AnyNames(pats, q + 1)
    requires GitMatch(cls, pats, segs) && EndsIn(segs, t, |pats|)
    ensures WildMatch(cls, pats[q], if q == |pats| - 1 then "" else t)
  {
    NoStarsFrom(pats, q);
    TailForced(cls, pats[..q], pats[q..], segs);
    var k := |pats| - q - 1;
    assert EndAt(segs, t, k);
    assert segs[|segs| - 1 - k..][0] == segs[|segs| - 1 - k];
    assert pats[q..][0] == pats[q];
  }

  lemma AllTakeOne(cls: Classes, pats: seq<string>, segs: seq<string>)
    requires pats != [] && AnyNames(pats, 0) && GitMatch(cls, pats, segs)
    ensures |segs| == |pats|
  {
    assert AnyName(pats[0]);
    NoStarsFrom(pats, 0);
    WholeAndNothing(pats);
    RigidLength(cls, pats, segs);
  }

  /** Git rejects it: counted from the end, the pivot would have to take what it rejects. */
  lemma OverlongRejected(cls: Classes, pats: seq<string>, q: int, segs: seq<string>)
    requires pats != [] && -1 <= q < |pats| && AnyNames(pats, q + 1)
    requires q >= 0 ==> !AnyName(pats[q]) && pats[q] != STARS
    requires q == |pats| - 1 ==> pats[q] != ""
    requires EndsIn(segs, if q < 0 then "" else Rejected(pats[q]), |pats|)
    ensures !GitMatch(cls, pats, segs)
  {
    if GitMatch(cls, pats, segs) {
      if q < 0 {
        AllTakeOne(cls, pats, segs);
      } else {
        RejectedIs(cls, pats[q]);
        PivotTakes(cls, pats, q, segs, Rejected(pats[q]));
      }
    }
  }

  lemma OverlongMatches(cls: Classes, glob: string, t: string)
    requires '[' !in glob && '/' !in t && '\n' !in t
    requires EndsInStars(Split(glob, '/')[|Split(glob, '/')| - 1])
    ensures Matches(cls, RegexOf(glob), Overlong(glob, t))
  {
    LastSegmentEnds(glob);
    SplitMore(t, |Split(glob, '/')|);
    BareMatches(cls, glob, More(t, |Split(glob, '/')|));
  }

  /** No pivot, or one that rejects some name, unless the last stars are swallowed. */
  lemma FreePivot(pats: seq<string>) returns (q: int)
    requires pats != [] && !Swallowed(pats)
    requires EndsInStars(pats[|pats| - 1]) && pats[|pats| - 1] != STARS
    ensures -1 <= q < |pats| && AnyNames(pats, q + 1)
    ensures q >= 0 ==> !AnyName(pats[q]) && pats[q] != STARS && pats[|pats| - 1] != ""
  {
    forall k | 0 <= k < |pats| - 1 && pats[k] == STARS ensures !AnyNames(pats, k + 1) {
      assert !SwallowedFrom(pats, k);
    }
    q := Pivot(pats, |pats|);
  }

  lemma OverlongDiffers(cls: Classes, glob: string, t: string)
    requires Matches(cls, RegexOf(glob), Overlong(glob, t))
    requires !GitMatch(cls, Split(glob, '/'), Split(Overlong(glob, t), '/'))
    ensures !AgreesWithGit(cls, glob, Overlong(glob, t))
  {
  }

  /** At the end of a longer last segment a double star reaches into further segments, where git
      has one name, unless a whole double star reaches them already. */
  lemma LastStarsDiffer(cls: Classes, glob: string) returns (t: string)
    requires '[' !in glob && !Swallowed(Split(glob, '/'))
    requires EndsInStars(Split(glob, '/')[|Split(glob, '/')| - 1]) && Split(glob, '/')[|Split(glob, '/')| - 1] != STARS
    ensures !AgreesWithGit(cls, glob, Overlong(glob, t))
  {
    var pats := Split(glob, '/');
    var q := FreePivot(pats);
    t := if q < 0 then "" else Rejected(pats[q]);
    OverlongMatches(cls, glob, t);
    OverlongSegments(glob, t);
    OverlongRejected(cls, pats, q, Split(Overlong(glob, t), '/'));
    OverlongDiffers(cls, glob, t);
  }
}
