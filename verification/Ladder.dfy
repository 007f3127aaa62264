/** The edit repair ladder (tools/fs/match.go applyLadderEdit, ladderOnce): rungs from strict to
    tolerant, the first that finds the quoted text decides. */
module Ladder {
  import opened Sequences
  import opened Bytes
  import opened Text
  import opened Spans
  import opened Windows
  import Fragments
  import opened Reindent
  import ReindentStory
  import opened Splice
  import Escapes

  datatype Strategy = Exact | Whitespace | Indentation | Punctuation | BlockAnchor

  function Rungs(): (r: seq<Strategy>)
    ensures |r| == 5
  {
    [Exact, Whitespace, Indentation, Punctuation, BlockAnchor]
  }

  function Rank(st: Strategy): (k: nat)
    ensures k < |Rungs()| && Rungs()[k] == st
  {
    match st
    case Exact => 0
    case Whitespace => 1
    case Indentation => 2
    case Punctuation => 3
    case BlockAnchor => 4
  }

  /** Where a rung finds the quoted text. */
  function SpansFor(st: Strategy, content: Str, old_: Str): seq<Span> {
    match st
    case Exact => if old_ == [] then [] else SpansAt(Occurrences(content, old_, 0), |old_|)
    case Whitespace => EqWindows(content, old_, RStripEq())
    case Indentation => EqWindows(content, old_, TrimEq())
    case Punctuation =>
      if NEWLINE !in old_ then Fragments.FragmentSpans(FoldReader(), content, old_) else EqWindows(content, old_, FoldEq())
    case BlockAnchor => AnchorWindows(content, old_)
  }

  function RendererFor(st: Strategy, content: Str, old_: Str, new_: Str): Renderer {
    if st == Exact || st == Whitespace || (st == Punctuation && NEWLINE !in old_) then Verbatim(new_)
    else LikeFile(content, old_, new_)
  }

  /** In bounds, sorted and disjoint, for every rung. */
  lemma SpansForOrdered(st: Strategy, content: Str, old_: Str)
    ensures Ordered(SpansFor(st, content, old_), 0, |content|)
  {
    match st
    case Exact => if old_ != [] { ExactSpansOrdered(content, old_); }
    case Whitespace => EqWindowsOrdered(content, old_, RStripEq());
    case Indentation => EqWindowsOrdered(content, old_, TrimEq());
    case Punctuation =>
      if NEWLINE !in old_ {
        FoldReaderGood();
        Fragments.FragmentSpansOrdered(FoldReader(), content, old_);
      } else {
        EqWindowsOrdered(content, old_, FoldEq());
      }
    case BlockAnchor => AnchorWindowsOrdered(content, old_);
  }

  method FindSpans(st: Strategy, content: Str, old_: Str) returns (spans: seq<Span>)
    ensures spans == SpansFor(st, content, old_)
    ensures Ordered(spans, 0, |content|)
  {
    SpansForOrdered(st, content, old_);
    match st
    case Exact => spans := ExactSpans(content, old_);
    case Whitespace => spans := LineWindowSpans(content, old_, RStripEq());
    case Indentation => spans := LineWindowSpans(content, old_, TrimEq());
    case Punctuation =>
      if NEWLINE !in old_ {
        spans := Fragments.FoldedFragmentSpans(content, old_);
      } else {
        spans := LineWindowSpans(content, old_, FoldEq());
      }
    case BlockAnchor => spans := BlockAnchorSpans(content, old_);
  }

  /** As many whole lines as were quoted. */
  ghost predicate OnLines(content: Str, old_: Str, sp: Span)
    requires sp.start <= sp.end <= |content|
  {
    WholeLines(content, |NeedleOf(old_).lines|, EndsLine(old_), sp)
  }

  /** The text of a found span agrees with the quoted text as far as the rung promises. */
  ghost predicate Agrees(st: Strategy, content: Str, old_: Str, sp: Span)
    requires sp.start <= sp.end <= |content|
  {
    var text, quoted := content[sp.start..sp.end], NeedleOf(old_).lines;
    match st
    case Exact => text == old_
    case Whitespace => OnLines(content, old_, sp) && LinesMatch(Split(text, NEWLINE), quoted, RStripEq())
    case Indentation => OnLines(content, old_, sp) && LinesMatch(Split(text, NEWLINE), quoted, TrimEq())
    case Punctuation =>
      if NEWLINE !in old_ then Fragments.IsReport(FoldReader(), content, LinesOf(content), Fold(old_), sp)
      else OnLines(content, old_, sp) && LinesMatch(Split(text, NEWLINE), quoted, FoldEq())
    case BlockAnchor =>
      OnLines(content, old_, sp) && HasAnchors(quoted) && EndsMatch(Split(text, NEWLINE), quoted, TrimEq())
  }

  lemma ExactAgrees(content: Str, old_: Str, k: nat)
    requires old_ != [] && k < |SpansAt(Occurrences(content, old_, 0), |old_|)|
    ensures var sp := SpansAt(Occurrences(content, old_, 0), |old_|)[k];
            sp.start <= sp.end <= |content| && content[sp.start..sp.end] == old_
  {
    GreedyExact(OccursTest(content, old_), |old_|, |content|, 0);
    assert OccursTest(content, old_)(Occurrences(content, old_, 0)[k]);
  }

  lemma FragmentAgrees(f: Reader, content: Str, old_: Str, k: nat)
    requires Good(f) && k < |Fragments.FragmentSpans(f, content, old_)|
    ensures Fragments.IsReport(f, content, LinesOf(content), FoldWith(f, old_), Fragments.FragmentSpans(f, content, old_)[k])
  {
    Fragments.FragmentSpansExact(f, content, old_);
  }

  /** Nothing is replaced that the rung's own test does not accept. */
  lemma FoundAgrees(st: Strategy, content: Str, old_: Str, k: nat)
    requires k < |SpansFor(st, content, old_)|
    ensures var sp := SpansFor(st, content, old_)[k];
            sp.start <= sp.end <= |content| && Agrees(st, content, old_, sp)
  {
    SpansForOrdered(st, content, old_);
    match st
    case Exact => ExactAgrees(content, old_, k);
    case Whitespace =>
      EqWindowsMatch(content, old_, RStripEq(), k);
      EqWindowsWhole(content, old_, RStripEq());
    case Indentation =>
      EqWindowsMatch(content, old_, TrimEq(), k);
      EqWindowsWhole(content, old_, TrimEq());
    case Punctuation =>
      if NEWLINE !in old_ {
        FoldReaderGood();
        FragmentAgrees(FoldReader(), content, old_, k);
      } else {
        EqWindowsMatch(content, old_, FoldEq(), k);
        EqWindowsWhole(content, old_, FoldEq());
      }
    case BlockAnchor =>
      AnchorWindowsMatch(content, old_);
      AnchorWindowsWhole(content, old_);
  }

  /** What the fragment search should report. */
  ghost function Reports(content: Str, old_: Str): Span -> bool {
    (sp: Span) => Fragments.IsReport(FoldReader(), content, LinesOf(content), Fold(old_), sp)
  }

  ghost predicate Begins(report: Span -> bool, i: int) {
    exists sp :: report(sp) && sp.start == i
  }

  /** A place in the content that the rung should find. */
  ghost predicate Place(st: Strategy, content: Str, old_: Str, i: int) {
    var lines, quoted := LinesOf(content), NeedleOf(old_).lines;
    match st
    case Exact => Occurs(content, old_, i)
    case Whitespace => WindowEq(content, lines, quoted, RStripEq(), i)
    case Indentation => WindowEq(content, lines, quoted, TrimEq(), i)
    case Punctuation =>
      if NEWLINE in old_ then WindowEq(content, lines, quoted, FoldEq(), i)
      else Begins(Reports(content, old_), i)
    case BlockAnchor => HasAnchors(quoted) && AnchorEq(content, lines, quoted, TrimEq(), i)
  }

  lemma GreedyFinds(test: Test, n: nat, total: nat)
    requires n > 0
    ensures Greedy(test, n, total, 0) != [] <==> exists i: nat :: i + n <= total && test(i)
  {
    GreedyExact(test, n, total, 0);
    var ps := Greedy(test, n, total, 0);
    if ps != [] {
      assert test(ps[0]) && ps[0] + n <= total;
    }
    if i: nat :| i + n <= total && test(i) {
      assert Covered(ps, n, i);
    }
  }

  lemma WindowsFindsIff(content: Str, old_: Str, eq: LineEq)
    ensures EqWindows(content, old_, eq) != []
       <==> exists i :: WindowEq(content, LinesOf(content), NeedleOf(old_).lines, eq, i)
  {
    var lines, quoted := LinesOf(content), NeedleOf(old_).lines;
    GreedyFinds(EqTest(content, lines, quoted, eq), |quoted|, |lines|);
    assert forall i :: EqTest(content, lines, quoted, eq)(i) <==> WindowEq(content, lines, quoted, eq, i);
  }

  lemma AnchorsFindIff(content: Str, old_: Str)
    requires HasAnchors(NeedleOf(old_).lines)
    ensures AnchorWindows(content, old_) != []
       <==> exists i :: AnchorEq(content, LinesOf(content), NeedleOf(old_).lines, TrimEq(), i)
  {
    var lines, quoted := LinesOf(content), NeedleOf(old_).lines;
    GreedyFinds(AnchorTest(content, lines, quoted, TrimEq()), |quoted|, |lines|);
    assert forall i :: AnchorTest(content, lines, quoted, TrimEq())(i) <==> AnchorEq(content, lines, quoted, TrimEq(), i);
  }

  lemma ExactFindsIff(content: Str, old_: Str)
    requires old_ != []
    ensures Occurrences(content, old_, 0) != [] <==> exists i :: Occurs(content, old_, i)
  {
    GreedyFinds(OccursTest(content, old_), |old_|, |content|);
    assert forall i :: OccursTest(content, old_)(i) <==> Occurs(content, old_, i);
  }

  lemma FragmentsFindIff(f: Reader, content: Str, old_: Str, report: Span -> bool)
    requires Good(f) && old_ != []
    requires forall sp :: report(sp) <==> Fragments.IsReport(f, content, LinesOf(content), FoldWith(f, old_), sp)
    ensures Fragments.FragmentSpans(f, content, old_) != [] <==> exists sp :: report(sp)
  {
    assert GoodFront(f, old_);
    Fragments.FragmentSpansExact(f, content, old_);
    var spans := Fragments.FragmentSpans(f, content, old_);
    if spans != [] {
      assert report(spans[0]);
    }
  }

  ghost predicate Somewhere(st: Strategy, content: Str, old_: Str) {
    exists i :: Place(st, content, old_, i)
  }

  /** The windows of some lines, under one of these tests. */
  lemma LinesFindIff(st: Strategy, content: Str, old_: Str, eq: LineEq)
    requires SpansFor(st, content, old_) == EqWindows(content, old_, eq)
    requires forall i :: Place(st, content, old_, i) <==> WindowEq(content, LinesOf(content), NeedleOf(old_).lines, eq, i)
    ensures Finds(st, content, old_) <==> Somewhere(st, content, old_)
  {
    WindowsFindsIff(content, old_, eq);
  }

  lemma BeginSomewhere(report: Span -> bool)
    ensures (exists i :: Begins(report, i)) <==> exists sp :: report(sp)
  {
    if sp :| report(sp) {
      assert Begins(report, sp.start);
    }
  }

  lemma FragmentFindIff(content: Str, old_: Str)
    requires old_ != [] && NEWLINE !in old_
    ensures Finds(Punctuation, content, old_) <==> Somewhere(Punctuation, content, old_)
  {
    FoldReaderGood();
    FragmentsFindIff(FoldReader(), content, old_, Reports(content, old_));
    BeginSomewhere(Reports(content, old_));
    assert forall i :: Place(Punctuation, content, old_, i) <==> Begins(Reports(content, old_), i);
  }

  lemma OccurrenceFindIff(content: Str, old_: Str)
    requires old_ != []
    ensures Finds(Exact, content, old_) <==> Somewhere(Exact, content, old_)
  {
    ExactFindsIff(content, old_);
    assert forall i :: Place(Exact, content, old_, i) <==> Occurs(content, old_, i);
  }

  lemma BlockFindIff(content: Str, old_: Str)
    ensures Finds(BlockAnchor, content, old_) <==> Somewhere(BlockAnchor, content, old_)
  {
    var lines, quoted := LinesOf(content), NeedleOf(old_).lines;
    if HasAnchors(quoted) {
      AnchorsFindIff(content, old_);
      assert forall i :: Place(BlockAnchor, content, old_, i) <==> AnchorEq(content, lines, quoted, TrimEq(), i);
    }
  }

  /** A rung finds something exactly when there is something to find. */
  lemma FindsIff(st: Strategy, content: Str, old_: Str)
    requires old_ != []
    ensures Finds(st, content, old_) <==> Somewhere(st, content, old_)
  {
    match st
    case Exact => OccurrenceFindIff(content, old_);
    case Whitespace => LinesFindIff(st, content, old_, RStripEq());
    case Indentation => LinesFindIff(st, content, old_, TrimEq());
    case Punctuation =>
      if NEWLINE in old_ {
        LinesFindIff(st, content, old_, FoldEq());
      } else {
        FragmentFindIff(content, old_);
      }
    case BlockAnchor => BlockFindIff(content, old_);
  }

  // ---------- one climb ----------

  datatype EditError = Ambiguous(count: nat, via: Strategy) | NotFound(needle: Str)

  datatype Outcome = Outcome(replaced: nat, strategy: Strategy, lines: LineRange, unescaped: bool)

  datatype EditResult = Applied(text: Str, outcome: Outcome) | Refused(error: EditError)

  ghost predicate Finds(st: Strategy, content: Str, old_: Str) { SpansFor(st, content, old_) != [] }

  /** This rung finds the quoted text and no stricter one does. */
  ghost predicate FirstRung(st: Strategy, content: Str, old_: Str) {
    && Finds(st, content, old_)
    && (st != Exact ==> !Finds(Exact, content, old_))
    && (st in {Indentation, Punctuation, BlockAnchor} ==> !Finds(Whitespace, content, old_))
    && (st in {Punctuation, BlockAnchor} ==> !Finds(Indentation, content, old_))
    && (st == BlockAnchor ==> !Finds(Punctuation, content, old_))
  }

  lemma CanRenderAll(st: Strategy, content: Str, old_: Str, new_: Str, spans: seq<Span>)
    requires Ordered(spans, 0, |content|)
    ensures forall k | 0 <= k < |spans| :: CanRender(RendererFor(st, content, old_, new_), spans[k])
  {
  }

  /** What a rung puts in place of its spans. */
  function FillsFor(st: Strategy, content: Str, old_: Str, new_: Str): (fills: seq<Str>)
    ensures |fills| == |SpansFor(st, content, old_)|
  {
    SpansForOrdered(st, content, old_);
    CanRenderAll(st, content, old_, new_, SpansFor(st, content, old_));
    Fills(RendererFor(st, content, old_, new_), SpansFor(st, content, old_))
  }

  /** The replacement as it stands where the rung found the quoted text: word for word on the rungs
      that compare indentation or only a part of a line, and else line by line, each line with
      the file's own indentation where the quoted lines show what that is. */
  ghost predicate FillTold(st: Strategy, content: Str, old_: Str, new_: Str, sp: Span, fill: Str)
    requires sp.start <= sp.end <= |content|
  {
    if st == Exact || st == Whitespace || (st == Punctuation && NEWLINE !in old_) then fill == new_
    else ReindentStory.AllIndented(NeedleOf(old_).lines, Split(content[sp.start..sp.end], NEWLINE),
                                   Split(new_, NEWLINE), Split(fill, NEWLINE))
  }

  lemma RenderTold(st: Strategy, content: Str, old_: Str, new_: Str, sp: Span)
    requires sp.start <= sp.end <= |content|
    ensures FillTold(st, content, old_, new_, sp, Rendered(RendererFor(st, content, old_, new_), sp))
  {
    ReindentStory.FillIndented(content, old_, new_, sp);
  }

  ghost predicate FillsTold(st: Strategy, content: Str, old_: Str, new_: Str, spans: seq<Span>, fills: seq<Str>) {
    && |fills| == |spans|
    && forall k | 0 <= k < |spans| ::
         spans[k].start <= spans[k].end <= |content| && FillTold(st, content, old_, new_, spans[k], fills[k])
  }

  lemma RenderAllTold(st: Strategy, content: Str, old_: Str, new_: Str, spans: seq<Span>)
    requires Ordered(spans, 0, |content|)
    requires forall k | 0 <= k < |spans| :: CanRender(RendererFor(st, content, old_, new_), spans[k])
    ensures FillsTold(st, content, old_, new_, spans, Fills(RendererFor(st, content, old_, new_), spans))
  {
    forall k | 0 <= k < |spans|
      ensures FillTold(st, content, old_, new_, spans[k], Fills(RendererFor(st, content, old_, new_), spans)[k])
    {
      RenderTold(st, content, old_, new_, spans[k]);
    }
  }

  lemma FillsAreTold(st: Strategy, content: Str, old_: Str, new_: Str)
    ensures FillsTold(st, content, old_, new_, SpansFor(st, content, old_), FillsFor(st, content, old_, new_))
  {
    SpansForOrdered(st, content, old_);
    CanRenderAll(st, content, old_, new_, SpansFor(st, content, old_));
    RenderAllTold(st, content, old_, new_, SpansFor(st, content, old_));
  }

  /** text is content with the spans replaced by the fills; lines are the first replacement's. */
  ghost predicate IsReplacement(content: Str, spans: seq<Span>, fills: seq<Str>, text: Str, lines: LineRange) {
    && Ordered(spans, 0, |content|) && |fills| == |spans| > 0
    && text == Replaced(content, spans, fills)
    && spans[0].start <= |text|
    && lines == ReplacedLineRange(text, spans[0].start, |fills[0]|)
  }

  ghost predicate IsEdit(content: Str, old_: Str, new_: Str, unescaped: bool, text: Str, o: Outcome) {
    var spans, fills := SpansFor(o.strategy, content, old_), FillsFor(o.strategy, content, old_, new_);
    o.replaced == |spans| && o.unescaped == unescaped && IsReplacement(content, spans, fills, text, o.lines)
  }

  /** What one climb of the ladder may answer. */
  ghost predicate Climbed(content: Str, old_: Str, new_: Str, all: bool, unescaped: bool, res: EditResult) {
    match res
    case Applied(text, o) =>
      && FirstRung(o.strategy, content, old_)
      && (all || o.replaced == 1)
      && IsEdit(content, old_, new_, unescaped, text, o)
    case Refused(Ambiguous(count, st)) =>
      FirstRung(st, content, old_) && !all && count == |SpansFor(st, content, old_)| > 1
    case Refused(NotFound(needle)) =>
      needle == old_ && forall st :: !Finds(st, content, old_)
  }

  lemma OneFirstRung(a: Strategy, b: Strategy, content: Str, old_: Str)
    requires FirstRung(a, content, old_) && FirstRung(b, content, old_)
    ensures a == b
  {
  }

  /** The rung that decided. */
  function Via(res: EditResult): Option<Strategy> {
    match res
    case Applied(_, o) => Some(o.strategy)
    case Refused(Ambiguous(_, st)) => Some(st)
    case Refused(NotFound(_)) => None
  }

  /** The description leaves no choice: content, quoted text, replacement and flags decide the
      answer. */
  lemma ClimbDecided(content: Str, old_: Str, new_: Str, all: bool, unescaped: bool, a: EditResult, b: EditResult)
    requires Climbed(content, old_, new_, all, unescaped, a) && Climbed(content, old_, new_, all, unescaped, b)
    ensures a == b
  {
    if Via(a).Some? && Via(b).Some? {
      OneFirstRung(Via(a).value, Via(b).value, content, old_);
    }
  }

  method ReplaceAndReport(content: Str, spans: seq<Span>, render: Renderer) returns (text: Str, lines: LineRange)
    requires spans != [] && Ordered(spans, 0, |content|) && forall k | 0 <= k < |spans| :: CanRender(render, spans[k])
    ensures IsReplacement(content, spans, Fills(render, spans), text, lines)
  {
    var firstStart;
    text, firstStart := ReplaceSpans(content, spans, render);
    FirstReplacement(content, spans, Fills(render, spans));
    var first := RunRenderer(render, spans[0]);
    lines := ReplacedLineRange(text, firstStart, |first|);
  }

  method ApplyRung(st: Strategy, content: Str, old_: Str, new_: Str, spans: seq<Span>) returns (res: EditResult)
    requires spans == SpansFor(st, content, old_) != [] && Ordered(spans, 0, |content|)
    ensures res.Applied? && res.outcome.strategy == st && IsEdit(content, old_, new_, false, res.text, res.outcome)
  {
    CanRenderAll(st, content, old_, new_, spans);
    var text, lines := ReplaceAndReport(content, spans, RendererFor(st, content, old_, new_));
    res := Applied(text, Outcome(|spans|, st, lines, false));
  }

  method LadderOnce(content: Str, old_: Str, new_: Str, all: bool) returns (res: EditResult)
    ensures Climbed(content, old_, new_, all, false, res)
  {
    for k := 0 to |Rungs()|
      invariant forall s | Rank(s) < k :: !Finds(s, content, old_)
    {
      var st := Rungs()[k];
      var spans := FindSpans(st, content, old_);
      assert Rank(st) == k;
      assert forall s | Rank(s) == k :: s == st;
      if spans == [] { continue; }
      assert FirstRung(st, content, old_);
      if |spans| > 1 && !all {
        return Refused(Ambiguous(|spans|, st));
      }
      res := ApplyRung(st, content, old_, new_, spans);
      return;
    }
    return Refused(NotFound(old_));
  }

  // ---------- what an edit does ----------

  /** The reported lines are those on which the first replacement begins and ends. */
  ghost predicate ReportsLines(text: Str, start: int, n: int, lines: LineRange) {
    && 0 <= start && start + n <= |text| && lines.first >= 1
    && OnLine(text, lines.first - 1, start) && OnLine(text, lines.last - 1, start + n)
  }

  lemma WholeReplaced(content: Str, spans: seq<Span>)
    requires Ordered(spans, 0, |content|)
    ensures content == Replaced(content, spans, Texts(content, spans))
  {
    OutsideAndInside(content, 0, spans);
    WholeAndNothing(content);
  }

  lemma ReplacementFacts(content: Str, spans: seq<Span>, fills: seq<Str>, text: Str, lines: LineRange)
    requires IsReplacement(content, spans, fills, text, lines)
    ensures content == Replaced(content, spans, Texts(content, spans))
    ensures ReportsLines(text, spans[0].start, |fills[0]|, lines)
    ensures text[..spans[0].start] == content[..spans[0].start]
    ensures text[spans[0].start..spans[0].start + |fills[0]|] == fills[0]
  {
    WholeReplaced(content, spans);
    FirstReplacement(content, spans, fills);
    LineRangeExact(text, spans[0].start, |fills[0]|);
  }

  /** An edit replaces text its rung accepts and keeps every stretch between; the lines
      reported are the first replacement's. */
  lemma EditReplacesWhatAgrees(content: Str, old_: Str, new_: Str, all: bool, unescaped: bool, res: EditResult)
    requires Climbed(content, old_, new_, all, unescaped, res) && res.Applied?
    ensures var st := res.outcome.strategy;
            var spans, fills := SpansFor(st, content, old_), FillsFor(st, content, old_, new_);
            && content == Replaced(content, spans, Texts(content, spans))
            && res.text == Replaced(content, spans, fills)
            && (forall k | 0 <= k < |spans| :: Agrees(st, content, old_, spans[k]))
            && FillsTold(st, content, old_, new_, spans, fills)
            && res.text[..spans[0].start] == content[..spans[0].start]
            && res.text[spans[0].start..spans[0].start + |fills[0]|] == fills[0]
            && ReportsLines(res.text, spans[0].start, |fills[0]|, res.outcome.lines)
  {
    var st := res.outcome.strategy;
    var spans := SpansFor(st, content, old_);
    ReplacementFacts(content, spans, FillsFor(st, content, old_, new_), res.text, res.outcome.lines);
    FillsAreTold(st, content, old_, new_);
    forall k | 0 <= k < |spans| ensures Agrees(st, content, old_, spans[k]) {
      FoundAgrees(st, content, old_, k);
    }
  }

  /** Without replace_all one span is replaced, the only one that the first successful rung
      finds; the replacement stands there, and every byte before and after it is kept. */
  lemma SingleEdit(content: Str, old_: Str, new_: Str, unescaped: bool, res: EditResult) returns (sp: Span, fill: Str)
    requires Climbed(content, old_, new_, false, unescaped, res) && res.Applied?
    ensures sp.start <= sp.end <= |content| && FirstRung(res.outcome.strategy, content, old_)
    ensures SpansFor(res.outcome.strategy, content, old_) == [sp]
    ensures Agrees(res.outcome.strategy, content, old_, sp)
    ensures FillTold(res.outcome.strategy, content, old_, new_, sp, fill)
    ensures res.text == content[..sp.start] + fill + content[sp.end..]
    ensures ReportsLines(res.text, sp.start, |fill|, res.outcome.lines)
  {
    var st := res.outcome.strategy;
    EditReplacesWhatAgrees(content, old_, new_, false, unescaped, res);
    var spans, fills := SpansFor(st, content, old_), FillsFor(st, content, old_, new_);
    sp, fill := spans[0], fills[0];
    assert spans == [sp] && fills == [fill];
    OneReplacement(content, sp, fill);
  }

  lemma SecondBehind(n: nat, ps: seq<nat>)
    requires Apart(n, ps)
    ensures |ps| > 1 ==> ps[0] + n <= ps[1]
  {
  }

  lemma OccursOnce(content: Str, old_: Str, i: nat)
    requires old_ != [] && forall j :: Occurs(content, old_, j) <==> j == i
    ensures SpansFor(Exact, content, old_) == [Span(i, i + |old_|)]
  {
    var test, ps := OccursTest(content, old_), Occurrences(content, old_, 0);
    ExactFindsIff(content, old_);
    GreedyExact(test, |old_|, |content|, 0);
    SecondBehind(|old_|, ps);
    assert Occurs(content, old_, i);
    forall k | 0 <= k < |ps| ensures ps[k] == i {
      assert test(ps[k]);
    }
    assert ps == [i];
  }

  lemma ExactDecides(content: Str, old_: Str, new_: Str, all: bool, res: EditResult)
    requires |SpansFor(Exact, content, old_)| == 1 && Repaired(content, old_, new_, all, res)
    ensures res.Applied? && res.outcome.strategy == Exact && Climbed(content, old_, new_, all, false, res)
  {
    assert Finds(Exact, content, old_);
    assert FirstRung(Exact, content, old_);
    if Via(res).Some? {
      OneFirstRung(Exact, Via(res).value, content, old_);
    }
  }

  lemma OneExactFill(content: Str, old_: Str, new_: Str, sp: Span)
    requires SpansFor(Exact, content, old_) == [sp]
    ensures FillsFor(Exact, content, old_, new_) == [new_]
  {
    FillsAreTold(Exact, content, old_, new_);
    assert FillsFor(Exact, content, old_, new_)[0] == new_;
  }

  /** A text quoted as it stands, at one place of the content only, is replaced there by the
      replacement as it stands, whatever the flags. */
  lemma QuotedOnce(content: Str, old_: Str, new_: Str, all: bool, i: nat, res: EditResult)
    requires old_ != [] && forall j :: Occurs(content, old_, j) <==> j == i
    requires Repaired(content, old_, new_, all, res)
    ensures res.Applied? && res.outcome.strategy == Exact && res.outcome.replaced == 1 && !res.outcome.unescaped
    ensures Occurs(content, old_, i) && res.text == content[..i] + new_ + content[i + |old_|..]
  {
    var sp := Span(i, i + |old_|);
    OccursOnce(content, old_, i);
    ExactDecides(content, old_, new_, all, res);
    EditReplacesWhatAgrees(content, old_, new_, all, false, res);
    OneExactFill(content, old_, new_, sp);
    OneReplacement(content, sp, new_);
  }

  /** The quoted text rendered in place of a window that matched it up to indentation: every
      non-blank line keeps the file's trimmed text, and gets the file's own indentation exactly
      when equal quoted indentations met equal file indentations. */
  lemma ReindentedQuote(content: Str, old_: Str, k: nat)
    requires k < |EqWindows(content, old_, TrimEq())|
    ensures var sp := EqWindows(content, old_, TrimEq())[k]; sp.start <= sp.end <= |content|
    ensures var sp := EqWindows(content, old_, TrimEq())[k];
            var quoted, file := NeedleOf(old_).lines, Split(content[sp.start..sp.end], NEWLINE);
            var out := Split(Reindented(content, old_, old_, sp), NEWLINE);
            && |quoted| <= |file| && |quoted| <= |out|
            && SameText(IsBlank(), quoted, out, file)
            && (SameIndent(IsBlank(), quoted, out, file) <==> Consistent(IsBlank(), quoted, file))
  {
    EqWindowsMatch(content, old_, TrimEq(), k);
    var sp := EqWindows(content, old_, TrimEq())[k];
    var quoted, file := NeedleOf(old_).lines, Split(content[sp.start..sp.end], NEWLINE);
    QuotedTextLines(content, old_, sp);
    TrimMatches(file, quoted);
    IsBlankSeesIndent();
    RenderedBesideFile(IsBlank(), quoted, file, Split(Reindented(content, old_, old_, sp), NEWLINE));
  }

  lemma TrimMatches(parts: seq<Str>, quoted: seq<Str>)
    requires LinesMatch(parts, quoted, TrimEq())
    ensures |parts| >= |quoted| && forall j | 0 <= j < |quoted| :: TrimSpace(parts[j]) == TrimSpace(quoted[j])
  {
    assert forall j | 0 <= j < |quoted| :: TrimEq()(parts[j], quoted[j]);
  }

  // ---------- with the over-escape repair ----------

  /** The quoted text as given if any rung finds it; else as repaired, if any rung finds that;
      else not found. */
  ghost predicate Repaired(content: Str, old_: Str, new_: Str, all: bool, res: EditResult) {
    var uOld, uNew := Escapes.RepairOverEscaping(old_), Escapes.RepairOverEscaping(new_);
    if exists st :: Finds(st, content, old_) then Climbed(content, old_, new_, all, false, res)
    else if exists st :: Finds(st, content, uOld) then Climbed(content, uOld, uNew, all, true, res)
    else res == Refused(NotFound(old_))
  }

  method ApplyLadderEdit(content: Str, old_: Str, new_: Str, all: bool) returns (res: EditResult)
    ensures Repaired(content, old_, new_, all, res)
  {
    res := LadderOnce(content, old_, new_, all);
    if res.Applied? || res.error.Ambiguous? { return; }
    var uOld, uNew := Escapes.RepairOverEscaping(old_), Escapes.RepairOverEscaping(new_);
    if uOld != old_ {
      var second := LadderOnce(content, uOld, uNew, all);
      if second.Applied? {
        return Applied(second.text, second.outcome.(unescaped := true));
      }
      if second.error.Ambiguous? {
        return second;
      }
    }
  }

  /** The whole edit is decided too. */
  lemma RepairDecided(content: Str, old_: Str, new_: Str, all: bool, a: EditResult, b: EditResult)
    requires Repaired(content, old_, new_, all, a) && Repaired(content, old_, new_, all, b)
    ensures a == b
  {
    var uOld, uNew := Escapes.RepairOverEscaping(old_), Escapes.RepairOverEscaping(new_);
    if exists st :: Finds(st, content, old_) {
      ClimbDecided(content, old_, new_, all, false, a, b);
    } else if exists st :: Finds(st, content, uOld) {
      ClimbDecided(content, uOld, uNew, all, true, a, b);
    }
  }

  /** A quoted text escaped once too often, which no rung finds as it stands, is edited as the
      text it was made from, unless that has a backslash of its own before an n, t or r. */
  lemma OverEscapedEdit(content: Str, old_: Str, new_: Str, all: bool, res: EditResult)
    requires (forall i :: !Escapes.Misread(old_, i)) && (forall i :: !Escapes.Misread(new_, i))
    requires (forall st :: !Finds(st, content, Escapes.OverEscape(old_))) && exists st :: Finds(st, content, old_)
    requires Repaired(content, Escapes.OverEscape(old_), Escapes.OverEscape(new_), all, res)
    ensures Climbed(content, old_, new_, all, true, res)
  {
    Escapes.RepairUndoes(old_);
    Escapes.RepairUndoes(new_);
  }
}
