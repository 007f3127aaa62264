/** White space and punctuation folding on UTF-8 text (tools/fs/match.go, and Go's
    strings.TrimSpace and strings.TrimRight). */
module Text {
  import opened Sequences
  import opened Bytes
  import opened Utf8
  import Unicode

  const SPACE: Byte := 0x20
  const TAB: Byte := 0x09

  // ---------- trimming ----------

  function TrimLeft(s: Str): Str
    decreases |s|
  {
    if s != [] && Unicode.IsSpaceRune(Decode(s).0) then TrimLeft(s[Decode(s).1..]) else s
  }

  predicate EndsInSpace(s: Str, n: nat)
    requires n > 0
  {
    && n <= |s|
    && ValidFront(s[|s| - n..]) && Need(s[|s| - n]) == n && Unicode.IsSpaceRune(Value(s[|s| - n..]))
  }

  /** Without the white-space runes at the end; none is longer than three bytes. */
  function TrimEnd(s: Str): Str
    decreases |s|
  {
    if EndsInSpace(s, 1) then TrimEnd(s[..|s| - 1])
    else if EndsInSpace(s, 2) then TrimEnd(s[..|s| - 2])
    else if EndsInSpace(s, 3) then TrimEnd(s[..|s| - 3])
    else s
  }

  function TrimSpace(s: Str): Str { TrimEnd(TrimLeft(s)) }

  predicate IsIndent(b: Byte) { b == SPACE || b == TAB }

  /** strings.TrimRight(s, " \t"). */
  function TrimRightIndent(s: Str): Str {
    if s != [] && IsIndent(s[|s| - 1]) then TrimRightIndent(s[..|s| - 1]) else s
  }

  /** Indentation in front never changes the trimmed text. */
  lemma {:induction false} TrimSkipsIndent(ws: Str, s: Str)
    requires forall b | b in ws :: IsIndent(b)
    ensures TrimSpace(ws + s) == TrimSpace(s)
  {
    if ws == [] {
      assert ws + s == s;
    } else {
      assert ws[0] in ws;
      assert Decode(ws + s) == (ws[0] as int, 1);
      assert (ws + s)[1..] == ws[1..] + s;
      TrimSkipsIndent(ws[1..], s);
    }
  }

  /** The width of the white-space rune in front; zero when there is none. */
  type FrontWidth = Str -> nat

  function SpaceWidth(): FrontWidth { (s: Str) => if s != [] && Unicode.IsSpaceRune(Decode(s).0) then Decode(s).1 else 0 }

  /** The first n bytes are white-space runes. */
  ghost predicate SpaceInFront(width: FrontWidth, s: Str, n: nat)
    decreases |s|
  {
    n == 0 || (1 <= width(s) <= n <= |s| && SpaceInFront(width, s[width(s)..], n - width(s)))
  }

  /** The text ends in a white-space rune of so many bytes. */
  type EndTest = (Str, nat) -> bool

  function SpaceAtEnd(): EndTest { (s: Str, w: nat) => 1 <= w <= 3 && EndsInSpace(s, w) }

  /** All bytes from n on are white-space runes. */
  ghost predicate SpaceBehind(ends: EndTest, s: Str, n: nat)
    decreases |s|
  {
    n == |s| || exists w: nat :: 1 <= w <= |s| && ends(s, w) && SpaceBehind(ends, s[..|s| - w], n)
  }

  /** One rune less in front, or nothing to take. */
  ghost predicate DropsOne(trim: Str -> Str, width: FrontWidth, s: Str) {
    width(s) <= |s| && trim(s) == if width(s) > 0 then trim(s[width(s)..]) else s
  }

  lemma {:induction false} DropsAll(trim: Str -> Str, width: FrontWidth, s: Str) returns (n: nat)
    requires forall t :: DropsOne(trim, width, t)
    ensures n <= |s| && trim(s) == s[n..] && SpaceInFront(width, s, n) && width(s[n..]) == 0
    decreases |s|
  {
    n := 0;
    assert DropsOne(trim, width, s) && s[0..] == s;
    if width(s) > 0 {
      n := DropsAll(trim, width, s[width(s)..]);
      DropDrop(s, width(s), n);
      n := width(s) + n;
    }
  }

  lemma TrimLeftTold(s: Str) returns (n: nat)
    ensures n <= |s| && TrimLeft(s) == s[n..] && SpaceInFront(SpaceWidth(), s, n) && SpaceWidth()(s[n..]) == 0
  {
    var trim := (t: Str) => TrimLeft(t);
    forall t ensures DropsOne(trim, SpaceWidth(), t) {
    }
    n := DropsAll(trim, SpaceWidth(), s);
  }

  /** One rune less, or nothing to take. */
  ghost predicate TakesOne(trim: Str -> Str, ends: EndTest, s: Str) {
    || (trim(s) == s && forall w :: !ends(s, w))
    || exists w: nat :: 1 <= w <= |s| && ends(s, w) && trim(s) == trim(s[..|s| - w])
  }

  lemma TrimEndTakesOne(s: Str)
    ensures TakesOne((s: Str) => TrimEnd(s), SpaceAtEnd(), s)
  {
    var ends: EndTest := SpaceAtEnd();
    if EndsInSpace(s, 1) {
      assert ends(s, 1);
    } else if EndsInSpace(s, 2) {
      assert ends(s, 2);
    } else if EndsInSpace(s, 3) {
      assert ends(s, 3);
    } else {
      forall w ensures !ends(s, w) {
        assert w == 1 || w == 2 || w == 3 || !ends(s, w);
      }
    }
  }

  lemma {:induction false} TakesAll(trim: Str -> Str, ends: EndTest, s: Str) returns (n: nat)
    requires forall t :: TakesOne(trim, ends, t)
    ensures n <= |s| && trim(s) == s[..n] && SpaceBehind(ends, s, n)
    ensures forall w :: !ends(s[..n], w)
    decreases |s|
  {
    n := |s|;
    assert TakesOne(trim, ends, s) && s[..|s|] == s;
    if w: nat :| 1 <= w <= |s| && ends(s, w) && trim(s) == trim(s[..|s| - w]) {
      n := TakesAll(trim, ends, s[..|s| - w]);
      assert s[..|s| - w][..n] == s[..n];
    }
  }

  lemma TrimEndTold(s: Str) returns (n: nat)
    ensures n <= |s| && TrimEnd(s) == s[..n] && SpaceBehind(SpaceAtEnd(), s, n)
    ensures forall w :: !SpaceAtEnd()(s[..n], w)
  {
    var trim := (t: Str) => TrimEnd(t);
    forall t ensures TakesOne(trim, SpaceAtEnd(), t) {
      TrimEndTakesOne(t);
    }
    n := TakesAll(trim, SpaceAtEnd(), s);
  }

  /** Trimming takes white space from both ends, all of it, and nothing else. */
  lemma TrimTold(s: Str) returns (a: nat, b: nat)
    ensures a <= |s| && b <= |s| - a && TrimSpace(s) == s[a..][..b]
    ensures SpaceInFront(SpaceWidth(), s, a) && SpaceBehind(SpaceAtEnd(), s[a..], b)
    ensures SpaceWidth()(s[a..]) == 0
    ensures forall w :: !SpaceAtEnd()(TrimSpace(s), w)
  {
    a := TrimLeftTold(s);
    b := TrimEndTold(s[a..]);
  }

  lemma {:induction false} TrimRightTold(s: Str) returns (n: nat)
    ensures n <= |s| && TrimRightIndent(s) == s[..n] && forall k | n <= k < |s| :: IsIndent(s[k])
    ensures n > 0 ==> !IsIndent(s[n - 1])
    decreases |s|
  {
    n := |s|;
    if s != [] && IsIndent(s[|s| - 1]) {
      n := TrimRightTold(s[..|s| - 1]);
    }
  }

  // ---------- folding ----------

  function FoldRune(r: int): Str
    requires Scalar(r)
  {
    if 0x2018 <= r <= 0x201B then [0x27]
    else if 0x201C <= r <= 0x201F then [0x22]
    else if 0x2010 <= r <= 0x2015 || r == 0x2212 then [0x2D]
    else if r == 0xA0 || 0x2000 <= r <= 0x200A || r == 0x202F || r == 0x205F || r == 0x3000 then [SPACE]
    else Encode(r)
  }

  /** What folds to a plain quotation mark, dash or space: those marks themselves, and their
      typographic kin, and nothing else. */
  lemma FoldTable(r: int)
    requires Scalar(r)
    ensures FoldRune(r) == [0x27] <==> r in {0x27, 0x2018, 0x2019, 0x201A, 0x201B}
    ensures FoldRune(r) == [0x22] <==> r in {0x22, 0x201C, 0x201D, 0x201E, 0x201F}
    ensures FoldRune(r) == [0x2D] <==> r in {0x2D, 0x2010, 0x2011, 0x2012, 0x2013, 0x2014, 0x2015, 0x2212}
    ensures FoldRune(r) == [0x20] <==> r in {0x20, 0xA0, 0x202F, 0x205F, 0x3000} || 0x2000 <= r <= 0x200A
    ensures FoldRune(r) == Encode(r) || FoldRune(r) in {[0x27], [0x22], [0x2D], [0x20]}
  {
  }

  lemma FoldRuneUnit(r: int)
    requires Scalar(r)
    ensures Unit(FoldRune(r))
  {
    EncodeUnit(r);
  }

  /** What is read at the front of a text: how many bytes, and what they fold to. */
  datatype Front = Front(width: nat, text: Str)

  type Reader = Str -> Front

  function FoldReader(): Reader {
    (s: Str) => if s == [] then Front(1, []) else Front(Decode(s).1, FoldRune(Decode(s).0))
  }

  ghost predicate GoodFront(f: Reader, s: Str) {
    s != [] ==> 1 <= f(s).width <= |s| && Unit(f(s).text)
  }

  ghost predicate Stable(f: Reader, s: Str, m: int) {
    s != [] && f(s).width <= m <= |s| ==> f(s[..m]) == f(s)
  }

  /** A reader takes at least one byte, gives one rune, and does not look past what it takes. */
  ghost predicate Good(f: Reader) {
    (forall s :: GoodFront(f, s)) && (forall s, m :: Stable(f, s, m))
  }

  lemma FoldReaderGood()
    ensures Good(FoldReader())
  {
    var f := FoldReader();
    forall s ensures GoodFront(f, s) {
      if s != [] { FoldRuneUnit(Decode(s).0); }
    }
    forall s, m ensures Stable(f, s, m) {
      if s != [] && f(s).width <= m <= |s| { DecodePrefix(s, m); }
    }
  }

  /** A text folded rune by rune. The guard holds for every good reader. */
  function FoldWith(f: Reader, s: Str): Str
    decreases |s|
  {
    if s == [] || !(1 <= f(s).width <= |s|) then [] else f(s).text + FoldWith(f, s[f(s).width..])
  }

  /** foldASCII. */
  function Fold(s: Str): Str { FoldWith(FoldReader(), s) }

  function Repeat(x: nat, n: nat): (r: seq<nat>)
    ensures |r| == n
  {
    seq(n, _ => x)
  }

  /** For every folded byte, where its source rune starts; s stands at offset in the whole text. */
  function Starts(f: Reader, s: Str, offset: nat): (r: seq<nat>)
    ensures |r| == |FoldWith(f, s)|
    decreases |s|
  {
    if s == [] || !(1 <= f(s).width <= |s|) then []
    else Repeat(offset, |f(s).text|) + Starts(f, s[f(s).width..], offset + f(s).width)
  }

  function Ends(f: Reader, s: Str, offset: nat): (r: seq<nat>)
    ensures |r| == |FoldWith(f, s)|
    decreases |s|
  {
    if s == [] || !(1 <= f(s).width <= |s|) then []
    else Repeat(offset + f(s).width, |f(s).text|) + Ends(f, s[f(s).width..], offset + f(s).width)
  }

  method FoldASCIIWithMap(s: Str) returns (b: Str, starts: seq<nat>, ends: seq<nat>)
    ensures b == Fold(s) && starts == Starts(FoldReader(), s, 0) && ends == Ends(FoldReader(), s, 0)
  {
    b, starts, ends := MapRunes(FoldReader(), s);
  }

  /** The rune at i, then the rest. */
  lemma RuneStep(f: Reader, s: Str, i: nat, front: Front, b: Str, starts: seq<nat>, ends: seq<nat>)
    requires i < |s| && front == f(s[i..]) && 1 <= front.width <= |s| - i
    ensures b + FoldWith(f, s[i..]) == (b + front.text) + FoldWith(f, s[i + front.width..])
    ensures starts + Starts(f, s[i..], i)
         == (starts + Repeat(i, |front.text|)) + Starts(f, s[i + front.width..], i + front.width)
    ensures ends + Ends(f, s[i..], i)
         == (ends + Repeat(i + front.width, |front.text|)) + Ends(f, s[i + front.width..], i + front.width)
  {
    DropDrop(s, i, front.width);
    var rest := s[i + front.width..];
    Assoc(b, front.text, FoldWith(f, rest));
    Assoc(starts, Repeat(i, |front.text|), Starts(f, rest, i + front.width));
    Assoc(ends, Repeat(i + front.width, |front.text|), Ends(f, rest, i + front.width));
  }

  lemma NoRunesLeft(f: Reader, s: Str, i: nat)
    requires i <= |s| && (i < |s| ==> !(1 <= f(s[i..]).width <= |s| - i))
    ensures FoldWith(f, s[i..]) == [] && Starts(f, s[i..], i) == [] && Ends(f, s[i..], i) == []
  {
  }

  method MapRunes(f: Reader, s: Str) returns (b: Str, starts: seq<nat>, ends: seq<nat>)
    ensures b == FoldWith(f, s) && starts == Starts(f, s, 0) && ends == Ends(f, s, 0)
  {
    b, starts, ends := [], [], [];
    var i := 0;
    WholeAndNothing(s);
    while i < |s|
      invariant 0 <= i <= |s|
      invariant b + FoldWith(f, s[i..]) == FoldWith(f, s)
      invariant starts + Starts(f, s[i..], i) == Starts(f, s, 0)
      invariant ends + Ends(f, s[i..], i) == Ends(f, s, 0)
      decreases |s| - i
    {
      var front := f(s[i..]);
      if !(1 <= front.width <= |s| - i) { break; }
      RuneStep(f, s, i, front, b, starts, ends);
      b := b + front.text;
      starts := starts + Repeat(i, |front.text|);
      ends := ends + Repeat(i + front.width, |front.text|);
      i := i + front.width;
    }
    NoRunesLeft(f, s, i);
    WholeAndNothing(b);
    WholeAndNothing(starts);
    WholeAndNothing(ends);
  }

  // ---------- rune by rune ----------

  /** m stands between two runes of s, or at either end. */
  predicate RuneBoundary(f: Reader, s: Str, m: int)
    decreases |s|
  {
    || m == 0
    || (&& s != [] && 1 <= f(s).width <= m <= |s|
        && RuneBoundary(f, s[f(s).width..], m - f(s).width))
  }

  lemma CutFront(f: Reader, s: Str, m: nat)
    requires Good(f) && s != [] && f(s).width <= m <= |s|
    ensures 1 <= f(s).width && s[..m] != [] && f(s[..m]) == f(s)
    ensures s[..m][f(s).width..] == s[f(s).width..][..m - f(s).width]
    ensures s[f(s).width..][m - f(s).width..] == s[m..]
  {
    assert GoodFront(f, s) && Stable(f, s, m);
  }

  lemma FoldCut(f: Reader, s: Str, m: nat)
    requires Good(f) && s != [] && f(s).width <= m <= |s|
    ensures FoldWith(f, s[..m]) == f(s).text + FoldWith(f, s[f(s).width..][..m - f(s).width])
  {
    CutFront(f, s, m);
  }

  /** The folded bytes past the first rune, in the maps. */
  lemma MapsTail(f: Reader, s: Str, offset: nat, k: nat)
    requires Good(f) && s != [] && 1 <= f(s).width <= |s| && k < |FoldWith(f, s[f(s).width..])|
    ensures |f(s).text| + k < |FoldWith(f, s)|
    ensures Starts(f, s, offset)[|f(s).text| + k] == Starts(f, s[f(s).width..], offset + f(s).width)[k]
    ensures Ends(f, s, offset)[|f(s).text| + k] == Ends(f, s[f(s).width..], offset + f(s).width)[k]
  {
  }

  /** Folding works piecewise between runes. */
  lemma {:induction false} FoldSplits(f: Reader, s: Str, m: nat)
    requires Good(f) && m <= |s| && RuneBoundary(f, s, m)
    ensures FoldWith(f, s) == FoldWith(f, s[..m]) + FoldWith(f, s[m..])
    decreases |s|
  {
    if m == 0 {
      assert s[..0] == [] && s[0..] == s;
    } else {
      var w := f(s).width;
      CutFront(f, s, m);
      FoldCut(f, s, m);
      FoldSplits(f, s[w..], m - w);
      Assoc(f(s).text, FoldWith(f, s[w..][..m - w]), FoldWith(f, s[m..]));
    }
  }

  lemma FirstRuneMaps(f: Reader, s: Str, offset: nat, j: nat)
    requires Good(f) && s != [] && j < |f(s).text|
    ensures j < |FoldWith(f, s)|
    ensures Starts(f, s, offset)[j] == offset && Ends(f, s, offset)[j] == offset + f(s).width
  {
    assert GoodFront(f, s);
  }

  /** Folded byte q comes from the rune at start..end. */
  ghost predicate MappedTo(f: Reader, s: Str, offset: nat, q: int, start: int, end: int) {
    0 <= q < |FoldWith(f, s)| && Starts(f, s, offset)[q] == start && Ends(f, s, offset)[q] == end
  }

  lemma MappedPastFront(f: Reader, s: Str, offset: nat, m: nat, j: nat, start: int, end: int)
    requires Good(f) && s != [] && 1 <= f(s).width <= m <= |s|
    requires var w := f(s).width;
             MappedTo(f, s[w..], offset + w, |FoldWith(f, s[w..][..m - w])| + j, start, end)
    ensures MappedTo(f, s, offset, |FoldWith(f, s[..m])| + j, start, end)
  {
    FoldCut(f, s, m);
    MapsTail(f, s, offset, |FoldWith(f, s[f(s).width..][..m - f(s).width])| + j);
  }

  /** The offset maps, read at any folded byte of the rune at m. */
  lemma {:induction false} MapsAt(f: Reader, s: Str, offset: nat, m: nat, j: nat)
    requires Good(f) && m < |s| && RuneBoundary(f, s, m) && j < |f(s[m..]).text|
    ensures MappedTo(f, s, offset, |FoldWith(f, s[..m])| + j, offset + m, offset + m + f(s[m..]).width)
    decreases |s|
  {
    if m == 0 {
      WholeAndNothing(s);
      FirstRuneMaps(f, s, offset, j);
      assert FoldWith(f, s[..0]) == [];
    } else {
      var w := f(s).width;
      CutFront(f, s, m);
      MapsAt(f, s[w..], offset + w, m - w, j);
      MappedPastFront(f, s, offset, m, j, offset + m, offset + m + f(s[m..]).width);
    }
  }

  // ---------- runes as units ----------

  function FoldUnits(f: Reader, s: Str): seq<Str>
    decreases |s|
  {
    if s == [] || !(1 <= f(s).width <= |s|) then [] else [f(s).text] + FoldUnits(f, s[f(s).width..])
  }

  /** Where the k-th rune starts. */
  function RuneStart(f: Reader, s: Str, k: nat): nat
    decreases |s|
  {
    if k == 0 || s == [] || !(1 <= f(s).width <= |s|) then 0
    else f(s).width + RuneStart(f, s[f(s).width..], k - 1)
  }

  lemma {:induction false} FoldUnitsFold(f: Reader, s: Str)
    requires Good(f)
    ensures Flat(FoldUnits(f, s)) == FoldWith(f, s) && Units(FoldUnits(f, s))
    decreases |s|
  {
    if s != [] {
      assert GoodFront(f, s);
      FoldUnitsFold(f, s[f(s).width..]);
      var us, rest := FoldUnits(f, s), FoldUnits(f, s[f(s).width..]);
      assert us[1..] == rest;
      assert forall k | 1 <= k < |us| :: us[k] == rest[k - 1];
    }
  }

  /** The first k units are the fold of everything before the k-th rune. */
  lemma {:induction false} UnitsBefore(f: Reader, s: Str, k: nat)
    requires Good(f) && k <= |FoldUnits(f, s)|
    ensures RuneBoundary(f, s, RuneStart(f, s, k)) && RuneStart(f, s, k) <= |s|
    ensures Flat(FoldUnits(f, s)[..k]) == FoldWith(f, s[..RuneStart(f, s, k)])
    ensures k < |FoldUnits(f, s)| ==> RuneStart(f, s, k) < |s| && f(s[RuneStart(f, s, k)..]).text == FoldUnits(f, s)[k]
    decreases |s|
  {
    if k == 0 {
      assert s[..0] == [] && FoldUnits(f, s)[..0] == [] && s[0..] == s;
    } else {
      var w := f(s).width;
      var us, rest := FoldUnits(f, s), s[w..];
      UnitsBefore(f, rest, k - 1);
      var m := RuneStart(f, s, k);
      assert us[..k] == [us[0]] + FoldUnits(f, rest)[..k - 1];
      CutFront(f, s, m);
      assert us[..k][1..] == FoldUnits(f, rest)[..k - 1];
    }
  }

  /** Everything up to and including the k-th rune ends where that rune ends. */
  lemma {:induction false} RuneStartNext(f: Reader, s: Str, k: nat)
    requires Good(f) && k < |FoldUnits(f, s)|
    ensures RuneStart(f, s, k) < |s|
    ensures RuneStart(f, s, k + 1) == RuneStart(f, s, k) + f(s[RuneStart(f, s, k)..]).width
    decreases |s|
  {
    if k == 0 {
      assert s[0..] == s;
      assert RuneStart(f, s[f(s).width..], 0) == 0;
    } else {
      var w := f(s).width;
      RuneStartNext(f, s[w..], k - 1);
      assert s[w..][RuneStart(f, s[w..], k - 1)..] == s[RuneStart(f, s, k)..];
    }
  }
}
