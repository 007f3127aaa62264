/** The line-by-line rungs of the edit ladder: windows of whole lines compared with the quoted
    lines (tools/fs/match.go lineWindowSpans, blockAnchorSpans and the lineEq tests). */
module Windows {
  import opened Sequences
  import opened Bytes
  import Text
  import opened Spans

  // ---------- line tests ----------

  function RStripEq(): LineEq { (a: Str, b: Str) => Text.TrimRightIndent(a) == Text.TrimRightIndent(b) }

  function TrimEq(): LineEq { (a: Str, b: Str) => Text.TrimSpace(a) == Text.TrimSpace(b) }

  function FoldEq(): LineEq { (a: Str, b: Str) => Text.Fold(Text.TrimSpace(a)) == Text.Fold(Text.TrimSpace(b)) }

  lemma {:induction false} TrimRightSkips(x: Str, ws: Str)
    requires forall b | b in ws :: Text.IsIndent(b)
    ensures Text.TrimRightIndent(x + ws) == Text.TrimRightIndent(x)
    decreases |ws|
  {
    if ws == [] {
      WholeAndNothing(x);
    } else {
      var n := |ws| - 1;
      assert ws[n] in ws && (x + ws)[..|x + ws| - 1] == x + ws[..n];
      TrimRightSkips(x, ws[..n]);
    }
  }

  ghost predicate SameButEnd(a: Str, b: Str, x: Str) {
    x <= a && x <= b && (forall c | c in a[|x|..] :: Text.IsIndent(c)) && forall c | c in b[|x|..] :: Text.IsIndent(c)
  }

  /** Two lines are equal to the whitespace rung exactly when spaces and tabs at their ends are
      all that tells them apart. */
  lemma RStripIff(a: Str, b: Str)
    ensures RStripEq()(a, b) <==> exists x :: SameButEnd(a, b, x)
  {
    if RStripEq()(a, b) {
      var n := Text.TrimRightTold(a);
      var m := Text.TrimRightTold(b);
      assert SameButEnd(a, b, a[..n]);
    }
    if x :| SameButEnd(a, b, x) {
      TrimRightSkips(x, a[|x|..]);
      TrimRightSkips(x, b[|x|..]);
      assert a == x + a[|x|..] && b == x + b[|x|..];
    }
  }

  /** Only the first and the last line of the window are compared. */
  predicate AnchorEq(content: Str, lines: seq<Span>, quoted: seq<Str>, eq: LineEq, i: int)
    requires quoted != []
  {
    && 0 <= i && i + |quoted| <= |lines|
    && eq(LineText(content, lines[i]), quoted[0])
    && eq(LineText(content, lines[i + |quoted| - 1]), quoted[|quoted| - 1])
  }

  function AnchorTest(content: Str, lines: seq<Span>, quoted: seq<Str>, eq: LineEq): Test
    requires quoted != []
  {
    (i: int) => AnchorEq(content, lines, quoted, eq, i)
  }

  // ---------- what is found ----------

  function EqWindows(content: Str, old_: Str, eq: LineEq): seq<Span> {
    var needle, lines := NeedleOf(old_), LinesOf(content);
    Found(EqTest(content, lines, needle.lines, eq), content, lines, |needle.lines|, needle.trailingNL)
  }

  /** Blocks of fewer than three lines, or with a blank first or last line, have no anchors. */
  predicate HasAnchors(quoted: seq<Str>) {
    |quoted| >= 3 && Text.TrimSpace(quoted[0]) != [] && Text.TrimSpace(quoted[|quoted| - 1]) != []
  }

  function AnchorWindows(content: Str, old_: Str): seq<Span> {
    var needle, lines := NeedleOf(old_), LinesOf(content);
    if HasAnchors(needle.lines)
    then Found(AnchorTest(content, lines, needle.lines, TrimEq()), content, lines, |needle.lines|, needle.trailingNL)
    else []
  }

  // ---------- the searches ----------

  method LineWindowSpans(content: Str, old_: Str, eq: LineEq) returns (spans: seq<Span>)
    ensures spans == EqWindows(content, old_, eq)
  {
    var needle := NeedleOf(old_);
    var lines := SplitLineInfos(content);
    if |needle.lines| > |lines| { return []; }
    spans := SlideWindow(content, lines, |needle.lines|, needle.trailingNL, EqTest(content, lines, needle.lines, eq));
  }

  method BlockAnchorSpans(content: Str, old_: Str) returns (spans: seq<Span>)
    ensures spans == AnchorWindows(content, old_)
  {
    var needle := NeedleOf(old_);
    var quoted := needle.lines;
    if |quoted| < 3 { return []; }
    var first, last := Text.TrimSpace(quoted[0]), Text.TrimSpace(quoted[|quoted| - 1]);
    if first == [] || last == [] { return []; }
    var lines := SplitLineInfos(content);
    if |quoted| > |lines| { return []; }
    spans := SlideWindow(content, lines, |quoted|, needle.trailingNL, AnchorTest(content, lines, quoted, TrimEq()));
  }

  // ---------- bounds and order ----------

  lemma FoundOrdered(test: Test, content: Str, lines: seq<Span>, n: nat, trailingNL: bool)
    requires n > 0 && IsLines(content, lines)
    ensures Ordered(Found(test, content, lines, n, trailingNL), 0, |content|)
  {
    GreedyExact(test, n, |lines|, 0);
    WindowSpansOrdered(content, lines, n, trailingNL, Greedy(test, n, |lines|, 0));
  }

  lemma EqWindowsOrdered(content: Str, old_: Str, eq: LineEq)
    ensures Ordered(EqWindows(content, old_, eq), 0, |content|)
  {
    var needle, lines := NeedleOf(old_), LinesOf(content);
    LinesOfAreLines(content);
    FoundOrdered(EqTest(content, lines, needle.lines, eq), content, lines, |needle.lines|, needle.trailingNL);
  }

  lemma AnchorWindowsOrdered(content: Str, old_: Str)
    ensures Ordered(AnchorWindows(content, old_), 0, |content|)
  {
    var needle, lines := NeedleOf(old_), LinesOf(content);
    LinesOfAreLines(content);
    if HasAnchors(needle.lines) {
      FoundOrdered(AnchorTest(content, lines, needle.lines, TrimEq()), content, lines, |needle.lines|, needle.trailingNL);
    }
  }

  // ---------- the text of a window ----------

  lemma {:induction false} SplitSnoc(s: Str)
    ensures Split(s + [NEWLINE], NEWLINE) == Split(s, NEWLINE) + [[]]
  {
    if s == [] {
      assert Split([NEWLINE], NEWLINE) == [[]] + Split([], NEWLINE);
    } else {
      assert (s + [NEWLINE])[1..] == s[1..] + [NEWLINE];
      SplitSnoc(s[1..]);
    }
  }

  lemma TextsCons(content: Str, lines: seq<Span>, i: nat, j: nat)
    requires i < j <= |lines|
    ensures Texts(content, lines[i..j]) == [LineText(content, lines[i])] + Texts(content, lines[i + 1..j])
  {
  }

  lemma CutAtNewline(content: Str, line: Span, next: nat, end: nat)
    requires line.start <= line.end < next == line.end + 1 <= end <= |content| && content[line.end] == NEWLINE
    ensures content[line.start..end] == LineText(content, line) + [NEWLINE] + content[next..end]
  {
  }

  /** Line i, its newline, and what follows. */
  lemma SplitFirstLine(content: Str, lines: seq<Span>, i: nat, end: nat)
    requires IsLines(content, lines) && i + 1 < |lines| && lines[i + 1].start <= end <= |content|
    ensures Split(content[lines[i].start..end], NEWLINE)
         == [LineText(content, lines[i])] + Split(content[lines[i + 1].start..end], NEWLINE)
  {
    assert NoNewline(content, lines[i].start, lines[i].end);
    SplitAtSeparator(LineText(content, lines[i]), content[lines[i + 1].start..end], NEWLINE);
    CutAtNewline(content, lines[i], lines[i + 1].start, end);
  }

  /** The text from line i to the end of line j, line by line. */
  lemma {:induction false} SplitLines(content: Str, lines: seq<Span>, i: nat, j: nat)
    requires IsLines(content, lines) && i <= j < |lines|
    ensures lines[i].start <= lines[j].end <= |content|
    ensures Split(content[lines[i].start..lines[j].end], NEWLINE) == Texts(content, lines[i..j + 1])
    decreases j - i
  {
    if i == j {
      assert NoNewline(content, lines[i].start, lines[i].end);
      SplitOfFree(LineText(content, lines[i]), NEWLINE);
      assert lines[i..j + 1] == [lines[i]];
    } else {
      SplitLines(content, lines, i + 1, j);
      SplitFirstLine(content, lines, i, lines[j].end);
      TextsCons(content, lines, i, j + 1);
    }
  }

  /** parts are these lines, and then at most what follows a final newline. */
  ghost predicate HoldsLines(parts: seq<Str>, content: Str, lines: seq<Span>, i: int, n: int) {
    && 0 <= i && 0 <= n <= |parts| && i + n <= |lines|
    && (forall j | 0 <= j < n :: parts[j] == LineText(content, lines[i + j]))
    && (parts == parts[..n] || parts == parts[..n] + [[]])
  }

  lemma TextsHold(parts: seq<Str>, content: Str, lines: seq<Span>, i: nat, n: nat)
    requires i + n <= |lines|
    requires parts == Texts(content, lines[i..i + n]) || parts == Texts(content, lines[i..i + n]) + [[]]
    ensures HoldsLines(parts, content, lines, i, n)
  {
    assert parts[..n] == Texts(content, lines[i..i + n]);
    var window := lines[i..i + n];
    assert forall j | 0 <= j < n :: window[j] == lines[i + j];
  }

  /** The span of a window holds the window's lines. */
  lemma WindowText(content: Str, lines: seq<Span>, n: nat, trailingNL: bool, i: nat)
    requires IsLines(content, lines) && n > 0 && i + n <= |lines|
    ensures var sp := WindowSpan(content, lines, n, trailingNL, i);
            && sp.start <= sp.end <= |content|
            && HoldsLines(Split(content[sp.start..sp.end], NEWLINE), content, lines, i, n)
  {
    var sp := WindowSpan(content, lines, n, trailingNL, i);
    var start, end := lines[i].start, lines[i + n - 1].end;
    SplitLines(content, lines, i, i + n - 1);
    if sp.end != end {
      SplitSnoc(content[start..end]);
      assert content[start..end + 1] == content[start..end] + [NEWLINE];
    }
    TextsHold(Split(content[sp.start..sp.end], NEWLINE), content, lines, i, n);
  }

  /** The span is n whole lines, without the last newline, or with it when the quoted text ends
      in one and the file has it. */
  ghost predicate WholeLines(content: Str, n: nat, trailing: bool, sp: Span)
    requires sp.start <= sp.end <= |content|
  {
    var parts := Split(content[sp.start..sp.end], NEWLINE);
    && (sp.start == 0 || content[sp.start - 1] == NEWLINE)
    && if |parts| == n then sp.end == |content| || (!trailing && content[sp.end] == NEWLINE)
       else |parts| == n + 1 && trailing && parts[n] == []
  }

  lemma LineBegins(content: Str, lines: seq<Span>, i: nat)
    requires IsLines(content, lines) && i < |lines|
    ensures lines[i].start == 0 || (lines[i].start <= |content| && content[lines[i].start - 1] == NEWLINE)
    ensures lines[i].end == |content| || content[lines[i].end] == NEWLINE
  {
    if i > 0 {
      assert lines[i - 1].end + 1 == lines[i].start;
    }
  }

  /** A text of n lines, taken as it is or with the newline behind it. */
  lemma WholeText(content: Str, n: nat, trailing: bool, start: nat, end: nat)
    requires start <= end <= |content| && |Split(content[start..end], NEWLINE)| == n
    requires start == 0 || content[start - 1] == NEWLINE
    requires end == |content| || content[end] == NEWLINE
    ensures !trailing || end == |content| ==> WholeLines(content, n, trailing, Span(start, end))
    ensures trailing && end < |content| ==> WholeLines(content, n, trailing, Span(start, end + 1))
  {
    if trailing && end < |content| {
      SplitSnoc(content[start..end]);
      assert content[start..end + 1] == content[start..end] + [NEWLINE];
    }
  }

  lemma WindowLines(content: Str, lines: seq<Span>, n: nat, i: nat)
    requires IsLines(content, lines) && n > 0 && i + n <= |lines|
    ensures lines[i].start <= lines[i + n - 1].end <= |content|
    ensures |Split(content[lines[i].start..lines[i + n - 1].end], NEWLINE)| == n
  {
    SplitLines(content, lines, i, i + n - 1);
  }

  lemma WindowWhole(content: Str, lines: seq<Span>, n: nat, trailingNL: bool, i: nat)
    requires IsLines(content, lines) && n > 0 && i + n <= |lines|
    ensures var sp := WindowSpan(content, lines, n, trailingNL, i);
            sp.start <= sp.end <= |content| && WholeLines(content, n, trailingNL, sp)
  {
    LineBegins(content, lines, i);
    LineBegins(content, lines, i + n - 1);
    WindowLines(content, lines, n, i);
    WholeText(content, n, trailingNL, lines[i].start, lines[i + n - 1].end);
  }

  lemma FoundWhole(test: Test, content: Str, lines: seq<Span>, n: nat, trailingNL: bool)
    requires n > 0 && IsLines(content, lines)
    ensures forall sp | sp in Found(test, content, lines, n, trailingNL) ::
              sp.start <= sp.end <= |content| && WholeLines(content, n, trailingNL, sp)
  {
    var ws := Greedy(test, n, |lines|, 0);
    GreedyExact(test, n, |lines|, 0);
    forall k | 0 <= k < |ws|
      ensures var sp := WindowSpan(content, lines, n, trailingNL, ws[k]);
              sp.start <= sp.end <= |content| && WholeLines(content, n, trailingNL, sp)
    {
      WindowWhole(content, lines, n, trailingNL, ws[k]);
    }
  }

  ghost predicate EndsLine(s: Str) { s != [] && s[|s| - 1] == NEWLINE }

  lemma TrailingIff(old_: Str)
    ensures NeedleOf(old_).trailingNL <==> EndsLine(old_)
  {
    LastPart(old_);
  }

  /** The quoted lines and the newline set apart make up the quoted text. */
  lemma NeedleTold(old_: Str)
    ensures var n := NeedleOf(old_);
            && old_ == Join(n.lines, NEWLINE) + (if n.trailingNL then [NEWLINE] else [])
            && (forall line | line in n.lines :: NEWLINE !in line)
            && (n.trailingNL <==> EndsLine(old_))
  {
    var parts := Split(old_, NEWLINE);
    TrailingIff(old_);
    JoinSplit(old_, NEWLINE);
    SplitFree(old_, NEWLINE);
    if NeedleOf(old_).trailingNL {
      JoinInit(parts, old_);
    }
  }

  /** The spans of the windows are whole lines. */
  lemma EqWindowsWhole(content: Str, old_: Str, eq: LineEq)
    ensures forall sp | sp in EqWindows(content, old_, eq) ::
              sp.start <= sp.end <= |content| && WholeLines(content, |NeedleOf(old_).lines|, EndsLine(old_), sp)
  {
    var needle, lines := NeedleOf(old_), LinesOf(content);
    LinesOfAreLines(content);
    TrailingIff(old_);
    FoundWhole(EqTest(content, lines, needle.lines, eq), content, lines, |needle.lines|, needle.trailingNL);
  }

  lemma AnchorWindowsWhole(content: Str, old_: Str)
    ensures forall sp | sp in AnchorWindows(content, old_) ::
              sp.start <= sp.end <= |content| && WholeLines(content, |NeedleOf(old_).lines|, EndsLine(old_), sp)
  {
    var needle, lines := NeedleOf(old_), LinesOf(content);
    LinesOfAreLines(content);
    TrailingIff(old_);
    FoundWhole(AnchorTest(content, lines, needle.lines, TrimEq()), content, lines, |needle.lines|, needle.trailingNL);
  }

  ghost predicate LinesMatch(parts: seq<Str>, quoted: seq<Str>, eq: LineEq) {
    && |parts| >= |quoted|
    && (forall j | 0 <= j < |quoted| :: eq(parts[j], quoted[j]))
    && (parts == parts[..|quoted|] || parts == parts[..|quoted|] + [[]])
  }

  /** Every reported span holds, line by line, text that equals the quoted lines under the
      rung's test, and nothing more than one final newline. */
  lemma EqWindowsMatch(content: Str, old_: Str, eq: LineEq, k: nat)
    requires k < |EqWindows(content, old_, eq)|
    ensures var sp := EqWindows(content, old_, eq)[k];
            && sp.start <= sp.end <= |content|
            && LinesMatch(Split(content[sp.start..sp.end], NEWLINE), NeedleOf(old_).lines, eq)
  {
    var needle, lines := NeedleOf(old_), LinesOf(content);
    var n, test := |needle.lines|, EqTest(content, lines, needle.lines, eq);
    LinesOfAreLines(content);
    GreedyExact(test, n, |lines|, 0);
    var i := Greedy(test, n, |lines|, 0)[k];
    assert test(i);
    assert WindowEq(content, lines, needle.lines, eq, i);
    WindowText(content, lines, n, needle.trailingNL, i);
  }

  /** Every window of lines that equals the quoted lines overlaps a reported one that begins
      at or above it. */
  lemma EqWindowsComplete(content: Str, old_: Str, eq: LineEq, i: nat) returns (k: nat, w: nat)
    requires WindowEq(content, LinesOf(content), NeedleOf(old_).lines, eq, i)
    ensures w <= i < w + |NeedleOf(old_).lines| <= |LinesOf(content)| && k < |EqWindows(content, old_, eq)|
    ensures EqWindows(content, old_, eq)[k]
         == WindowSpan(content, LinesOf(content), |NeedleOf(old_).lines|, NeedleOf(old_).trailingNL, w)
  {
    var needle, lines := NeedleOf(old_), LinesOf(content);
    var n, test := |needle.lines|, EqTest(content, lines, needle.lines, eq);
    GreedyExact(test, n, |lines|, 0);
    var ws := Greedy(test, n, |lines|, 0);
    assert test(i);
    assert Covered(ws, n, i);
    k :| 0 <= k < |ws| && ws[k] <= i < ws[k] + n;
    w := ws[k];
  }

  ghost predicate EndsMatch(parts: seq<Str>, quoted: seq<Str>, eq: LineEq) {
    && |parts| >= |quoted| > 0
    && eq(parts[0], quoted[0]) && eq(parts[|quoted| - 1], quoted[|quoted| - 1])
    && (parts == parts[..|quoted|] || parts == parts[..|quoted|] + [[]])
  }

  lemma AnchoredEnds(parts: seq<Str>, content: Str, lines: seq<Span>, quoted: seq<Str>, eq: LineEq, i: nat)
    requires quoted != [] && AnchorEq(content, lines, quoted, eq, i)
    requires HoldsLines(parts, content, lines, i, |quoted|)
    ensures EndsMatch(parts, quoted, eq)
  {
    var last := |quoted| - 1;
    assert parts[0] == LineText(content, lines[i + 0]);
    assert parts[last] == LineText(content, lines[i + last]);
  }

  /** An anchored span has the quoted number of lines, at least three, the first and last as
      quoted but for white space around them, and neither blank. */
  lemma AnchorWindowsMatch(content: Str, old_: Str)
    ensures AnchorWindows(content, old_) != [] ==> HasAnchors(NeedleOf(old_).lines)
    ensures forall sp | sp in AnchorWindows(content, old_) ::
              && sp.start <= sp.end <= |content|
              && EndsMatch(Split(content[sp.start..sp.end], NEWLINE), NeedleOf(old_).lines, TrimEq())
  {
    var needle, lines := NeedleOf(old_), LinesOf(content);
    if HasAnchors(needle.lines) {
      LinesOfAreLines(content);
      AnchoredSpans(content, lines, needle.lines, needle.trailingNL, TrimEq());
    }
  }

  lemma AnchoredSpans(content: Str, lines: seq<Span>, quoted: seq<Str>, trailingNL: bool, eq: LineEq)
    requires IsLines(content, lines) && quoted != []
    ensures forall sp | sp in Found(AnchorTest(content, lines, quoted, eq), content, lines, |quoted|, trailingNL) ::
              && sp.start <= sp.end <= |content|
              && EndsMatch(Split(content[sp.start..sp.end], NEWLINE), quoted, eq)
  {
    var n, test := |quoted|, AnchorTest(content, lines, quoted, eq);
    var ws, spans := Greedy(test, n, |lines|, 0), Found(test, content, lines, n, trailingNL);
    GreedyExact(test, n, |lines|, 0);
    forall k | 0 <= k < |ws|
      ensures spans[k].start <= spans[k].end <= |content|
      ensures EndsMatch(Split(content[spans[k].start..spans[k].end], NEWLINE), quoted, eq)
    {
      assert test(ws[k]);
      WindowText(content, lines, n, trailingNL, ws[k]);
      AnchoredEnds(Split(content[spans[k].start..spans[k].end], NEWLINE), content, lines, quoted, eq, ws[k]);
    }
  }
}
