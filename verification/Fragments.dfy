/** foldedFragmentSpans, tools/fs/match.go: a single-line fragment found inside lines after
    folding, with the folded offsets mapped back to the original bytes. */
module Fragments {
  import opened Sequences
  import opened Bytes
  import Utf8
  import opened Spans
  import opened Text

  /** The original bytes of the folded bytes q .. q+n-1 of a line. */
  function FragmentAt(f: Reader, line: Str, n: nat, q: nat): Span
    requires n > 0 && q + n <= |FoldWith(f, line)|
  {
    Span(Starts(f, line, 0)[q], Ends(f, line, 0)[q + n - 1])
  }

  /** x .. y are whole runes of the line, and the source of folded bytes q .. q+n-1. */
  ghost predicate Source(f: Reader, line: Str, x: int, y: int, q: int, n: int) {
    && 0 <= x < y <= |line|
    && RuneBoundary(f, line, x) && RuneBoundary(f, line, y)
    && |FoldWith(f, line[..x])| == q && |FoldWith(f, line[..y])| == q + n
  }

  /** Runes a .. b-1 of a line, as a source. */
  lemma RunesAreSource(f: Reader, line: Str, a: nat, b: nat)
    requires Good(f) && a < b <= |FoldUnits(f, line)|
    ensures var us := FoldUnits(f, line); var q := |Flat(us[..a])|;
            |Flat(us[..b])| >= q
            && Source(f, line, RuneStart(f, line, a), RuneStart(f, line, b), q, |Flat(us[..b])| - q)
  {
    UnitsBefore(f, line, a);
    UnitsBefore(f, line, b);
    RunesIncrease(f, line, a, b);
    Utf8.FlatMonotone(FoldUnits(f, line), a, b);
  }

  /** The offset maps give the source of runes a .. b-1. */
  lemma RunesAreMapped(f: Reader, line: Str, a: nat, b: nat, q: nat, n: nat)
    requires Good(f) && a < b <= |FoldUnits(f, line)| && n > 0
    requires |Flat(FoldUnits(f, line)[..a])| == q && |Flat(FoldUnits(f, line)[..b])| == q + n
    ensures q + n <= |FoldWith(f, line)|
    ensures FragmentAt(f, line, n, q) == Span(RuneStart(f, line, a), RuneStart(f, line, b))
  {
    FoldUnitsFold(f, line);
    UnitsBefore(f, line, a);
    UnitsBefore(f, line, b);
    assert Utf8.Unit(FoldUnits(f, line)[a]);
    MapsAt(f, line, 0, RuneStart(f, line, a), 0);
    LastByte(f, line, b - 1, q + n);
  }

  lemma OccurrenceRunes(f: Reader, line: Str, units: seq<Str>, q: nat) returns (a: nat)
    requires Good(f) && Utf8.Units(units) && units != []
    requires Occurs(FoldWith(f, line), Flat(units), q)
    ensures a + |units| <= |FoldUnits(f, line)| && |Flat(units)| > 0
    ensures |Flat(FoldUnits(f, line)[..a])| == q
    ensures |Flat(FoldUnits(f, line)[..a + |units|])| == q + |Flat(units)|
  {
    FoldUnitsFold(f, line);
    UnitsNotEmpty(units);
    a := Utf8.Synchronised(FoldUnits(f, line), units, q);
  }

  /** An occurrence of folded runes in a folded line comes from whole runes of the line, and
      the offset maps say which. */
  lemma OccurrenceSource(f: Reader, line: Str, units: seq<Str>, q: nat)
    requires Good(f) && Utf8.Units(units) && units != []
    requires Occurs(FoldWith(f, line), Flat(units), q)
    ensures |Flat(units)| > 0
    ensures var s := FragmentAt(f, line, |Flat(units)|, q); Source(f, line, s.start, s.end, q, |Flat(units)|)
  {
    var a := OccurrenceRunes(f, line, units, q);
    RunesAreFragment(f, line, a, a + |units|, q, |Flat(units)|);
  }

  lemma UnitsNotEmpty(units: seq<Str>)
    requires Utf8.Units(units) && units != []
    ensures |Flat(units)| > 0
  {
    assert Utf8.Unit(units[0]);
  }

  lemma RunesAreFragment(f: Reader, line: Str, a: nat, b: nat, q: nat, n: nat)
    requires Good(f) && a < b <= |FoldUnits(f, line)| && n > 0
    requires |Flat(FoldUnits(f, line)[..a])| == q && |Flat(FoldUnits(f, line)[..b])| == q + n
    ensures q + n <= |FoldWith(f, line)|
    ensures var s := FragmentAt(f, line, n, q); Source(f, line, s.start, s.end, q, n)
  {
    RunesAreMapped(f, line, a, b, q, n);
    RunesAreSource(f, line, a, b);
  }

  /** The last folded byte of a rune maps to the rune's end. */
  lemma LastByte(f: Reader, line: Str, k: nat, stop: nat)
    requires Good(f) && k < |FoldUnits(f, line)|
    requires RuneStart(f, line, k + 1) <= |line|
    requires |FoldWith(f, line[..RuneStart(f, line, k + 1)])| == stop
    ensures 0 < stop <= |FoldWith(f, line)|
    ensures Ends(f, line, 0)[stop - 1] == RuneStart(f, line, k + 1)
  {
    var us := FoldUnits(f, line);
    FoldUnitsFold(f, line);
    UnitsBefore(f, line, k);
    UnitsBefore(f, line, k + 1);
    Utf8.UnitAtBoundary(us, k);
    RuneStartNext(f, line, k);
    assert Utf8.Unit(us[k]);
    MapsAt(f, line, 0, RuneStart(f, line, k), |us[k]| - 1);
  }

  lemma {:induction false} RunesIncrease(f: Reader, line: Str, a: nat, b: nat)
    requires Good(f) && a < b <= |FoldUnits(f, line)|
    ensures RuneStart(f, line, a) < RuneStart(f, line, b)
    decreases b
  {
    RuneStartNext(f, line, b - 1);
    UnitsBefore(f, line, b - 1);
    var t := line[RuneStart(f, line, b - 1)..];
    assert GoodFront(f, t);
    if a < b - 1 {
      RunesIncrease(f, line, a, b - 1);
    }
  }

  /** Whole runes fold on their own to what they contribute to the whole line. */
  lemma SourceFolds(f: Reader, line: Str, x: nat, y: nat, q: nat, n: nat)
    requires Good(f) && Source(f, line, x, y, q, n)
    ensures q + n <= |FoldWith(f, line)|
    ensures FoldWith(f, line[x..y]) == FoldWith(f, line)[q..q + n]
  {
    FoldSplits(f, line, y);
    BoundaryOfPrefix(f, line, x, y);
    FoldSplits(f, line[..y], x);
    assert line[..y][..x] == line[..x] && line[..y][x..] == line[x..y];
    var a, b, c := FoldWith(f, line[..x]), FoldWith(f, line[x..y]), FoldWith(f, line[y..]);
    assert FoldWith(f, line) == (a + b) + c;
  }

  lemma {:induction false} BoundaryOfPrefix(f: Reader, s: Str, x: nat, y: nat)
    requires Good(f) && x <= y <= |s| && RuneBoundary(f, s, x)
    ensures RuneBoundary(f, s[..y], x)
    decreases |s|
  {
    if x > 0 {
      var w := f(s).width;
      CutFront(f, s, y);
      BoundaryOfPrefix(f, s[w..], x - w, y - w);
    }
  }

  /** A boundary further on has more folded bytes before it. */
  lemma {:induction false} BoundaryOrder(f: Reader, s: Str, x: nat, y: nat)
    requires Good(f) && x < y <= |s| && RuneBoundary(f, s, x) && RuneBoundary(f, s, y)
    ensures |FoldWith(f, s[..x])| < |FoldWith(f, s[..y])|
    decreases |s|
  {
    var w := f(s).width;
    CutFront(f, s, y);
    assert GoodFront(f, s);
    if x > 0 {
      CutFront(f, s, x);
      BoundaryOrder(f, s[w..], x - w, y - w);
    } else {
      assert s[..0] == [];
    }
  }

  // ---------- one line ----------

  /** What the search in one line reports, relative to the line. */
  function LineFragments(f: Reader, line: Str, needle: Str): (spans: seq<Span>)
    requires needle != []
  {
    var folded := FoldWith(f, line);
    var qs := Occurrences(folded, needle, 0);
    GreedyExact(OccursTest(folded, needle), |needle|, |folded|, 0);
    seq(|qs|, k requires 0 <= k < |qs| => FragmentAt(f, line, |needle|, qs[k]))
  }

  /** A span of whole runes whose fold is the needle. */
  ghost predicate IsFragment(f: Reader, line: Str, needle: Str, s: Span) {
    && s.start < s.end <= |line|
    && RuneBoundary(f, line, s.start) && RuneBoundary(f, line, s.end)
    && FoldWith(f, line[s.start..s.end]) == needle
  }

  ghost predicate Meets(spans: seq<Span>, s: Span) {
    exists k | 0 <= k < |spans| :: spans[k].start <= s.start < spans[k].end
  }

  ghost predicate AllSources(f: Reader, line: Str, spans: seq<Span>, qs: seq<nat>, n: int) {
    |spans| == |qs| && forall k | 0 <= k < |qs| :: Source(f, line, spans[k].start, spans[k].end, qs[k], n)
  }

  lemma SourcesOrdered(f: Reader, line: Str, spans: seq<Span>, qs: seq<nat>, n: nat)
    requires Good(f) && AllSources(f, line, spans, qs, n) && Apart(n, qs)
    ensures Ordered(spans, 0, |line|)
  {
    forall i, j | 0 <= i < j < |qs| ensures spans[i].end <= spans[j].start {
      assert Source(f, line, spans[i].start, spans[i].end, qs[i], n);
      assert Source(f, line, spans[j].start, spans[j].end, qs[j], n);
      if spans[j].start < spans[i].end {
        BoundaryOrder(f, line, spans[j].start, spans[i].end);
      }
    }
  }

  lemma ReportsAreFragments(f: Reader, line: Str, old_: Str, qs: seq<nat>)
    requires Good(f) && FoldWith(f, old_) != []
    requires qs == Occurrences(FoldWith(f, line), FoldWith(f, old_), 0)
    ensures var needle := FoldWith(f, old_); var spans := LineFragments(f, line, needle);
            && AllSources(f, line, spans, qs, |needle|)
            && forall k | 0 <= k < |spans| :: IsFragment(f, line, needle, spans[k])
  {
    var needle, folded := FoldWith(f, old_), FoldWith(f, line);
    var spans := LineFragments(f, line, needle);
    GreedyExact(OccursTest(folded, needle), |needle|, |folded|, 0);
    forall k | 0 <= k < |qs|
      ensures IsFragment(f, line, needle, spans[k])
      ensures Source(f, line, spans[k].start, spans[k].end, qs[k], |needle|)
    {
      assert Occurs(folded, needle, qs[k]);
      ReportedIsFragment(f, line, old_, qs[k]);
    }
  }

  /** Everything reported is whole runes that fold to the folded fragment; reports are in
      order and disjoint; and every such range of the line begins inside a reported one. */
  lemma LineFragmentsExact(f: Reader, line: Str, old_: Str)
    requires Good(f) && FoldWith(f, old_) != []
    ensures var spans := LineFragments(f, line, FoldWith(f, old_));
            && Ordered(spans, 0, |line|)
            && (forall k | 0 <= k < |spans| :: IsFragment(f, line, FoldWith(f, old_), spans[k]))
            && (forall s | IsFragment(f, line, FoldWith(f, old_), s) :: Meets(spans, s))
  {
    var needle, folded := FoldWith(f, old_), FoldWith(f, line);
    var qs, spans := Occurrences(folded, needle, 0), LineFragments(f, line, needle);
    GreedyExact(OccursTest(folded, needle), |needle|, |folded|, 0);
    ReportsAreFragments(f, line, old_, qs);
    SourcesOrdered(f, line, spans, qs, |needle|);
    forall s | IsFragment(f, line, needle, s) ensures Meets(spans, s) {
      FragmentIsMet(f, line, needle, qs, spans, s);
    }
  }

  lemma SourceIsFragment(f: Reader, line: Str, needle: Str, q: nat, s: Span)
    requires Good(f) && Source(f, line, s.start, s.end, q, |needle|)
    requires Occurs(FoldWith(f, line), needle, q)
    ensures IsFragment(f, line, needle, s)
  {
    SourceFolds(f, line, s.start, s.end, q, |needle|);
  }

  lemma ReportedIsFragment(f: Reader, line: Str, old_: Str, q: nat)
    requires Good(f) && FoldWith(f, old_) != []
    requires Occurs(FoldWith(f, line), FoldWith(f, old_), q)
    ensures var s := FragmentAt(f, line, |FoldWith(f, old_)|, q);
            IsFragment(f, line, FoldWith(f, old_), s) && Source(f, line, s.start, s.end, q, |FoldWith(f, old_)|)
  {
    FoldUnitsFold(f, old_);
    OccurrenceSource(f, line, FoldUnits(f, old_), q);
    SourceIsFragment(f, line, FoldWith(f, old_), q, FragmentAt(f, line, |FoldWith(f, old_)|, q));
  }

  lemma FragmentOccurs(f: Reader, line: Str, needle: Str, s: Span)
    requires Good(f) && IsFragment(f, line, needle, s)
    ensures Occurs(FoldWith(f, line), needle, |FoldWith(f, line[..s.start])|)
  {
    FoldSplits(f, line, s.end);
    BoundaryOfPrefix(f, line, s.start, s.end);
    FoldSplits(f, line[..s.end], s.start);
    assert line[..s.end][..s.start] == line[..s.start] && line[..s.end][s.start..] == line[s.start..s.end];
    var a, b, c := FoldWith(f, line[..s.start]), needle, FoldWith(f, line[s.end..]);
    assert FoldWith(f, line) == (a + b) + c;
    assert ((a + b) + c)[|a|..|a| + |b|] == b;
  }

  lemma FragmentIsMet(f: Reader, line: Str, needle: Str, qs: seq<nat>, spans: seq<Span>, s: Span)
    requires Good(f) && needle != [] && IsFragment(f, line, needle, s)
    requires AllSources(f, line, spans, qs, |needle|)
    requires AllCovered(OccursTest(FoldWith(f, line), needle), |needle|, |FoldWith(f, line)|, 0, qs)
    ensures Meets(spans, s)
  {
    var p := |FoldWith(f, line[..s.start])|;
    FragmentOccurs(f, line, needle, s);
    assert Covered(qs, |needle|, p);
    var k :| 0 <= k < |qs| && qs[k] <= p < qs[k] + |needle|;
    assert Source(f, line, spans[k].start, spans[k].end, qs[k], |needle|);
    if s.start < spans[k].start {
      BoundaryOrder(f, line, s.start, spans[k].start);
    }
    if spans[k].end < s.start {
      BoundaryOrder(f, line, spans[k].end, s.start);
    }
    assert spans[k].start <= s.start < spans[k].end;
  }

  // ---------- all lines ----------

  function Shifted(spans: seq<Span>, d: nat): (r: seq<Span>)
    ensures |r| == |spans|
  {
    seq(|spans|, k requires 0 <= k < |spans| => Span(spans[k].start + d, spans[k].end + d))
  }

  /** The reports of all the lines, in order. */
  function FragmentsIn(f: Reader, content: Str, lines: seq<Span>, needle: Str): seq<Span>
    requires needle != []
  {
    if lines == [] then []
    else Shifted(LineFragments(f, LineText(content, lines[0]), needle), lines[0].start)
         + FragmentsIn(f, content, lines[1..], needle)
  }

  /** A folded occurrence at q as a span of the whole text. */
  function Mapped(starts: seq<nat>, ends: seq<nat>, n: nat, offset: nat, q: nat): Span {
    if n > 0 && q + n <= |starts| && |starts| == |ends|
    then Span(offset + starts[q], offset + ends[q + n - 1])
    else Span(offset, offset)
  }

  function AllMapped(starts: seq<nat>, ends: seq<nat>, n: nat, offset: nat, qs: seq<nat>): (spans: seq<Span>)
    ensures |spans| == |qs|
  {
    seq(|qs|, k requires 0 <= k < |qs| => Mapped(starts, ends, n, offset, qs[k]))
  }

  lemma AllMappedSnoc(starts: seq<nat>, ends: seq<nat>, n: nat, offset: nat, qs: seq<nat>, q: nat)
    ensures AllMapped(starts, ends, n, offset, qs + [q])
         == AllMapped(starts, ends, n, offset, qs) + [Mapped(starts, ends, n, offset, q)]
  {
  }

  lemma AllMappedIsShifted(f: Reader, line: Str, needle: Str, offset: nat)
    requires needle != []
    ensures AllMapped(Starts(f, line, 0), Ends(f, line, 0), |needle|, offset, Occurrences(FoldWith(f, line), needle, 0))
         == Shifted(LineFragments(f, line, needle), offset)
  {
    var folded := FoldWith(f, line);
    var qs := Occurrences(folded, needle, 0);
    GreedyExact(OccursTest(folded, needle), |needle|, |folded|, 0);
    var a := AllMapped(Starts(f, line, 0), Ends(f, line, 0), |needle|, offset, qs);
    var b := Shifted(LineFragments(f, line, needle), offset);
    forall k | 0 <= k < |qs| ensures a[k] == b[k] {
      MappedIsFragment(f, line, |needle|, offset, qs[k]);
    }
  }

  lemma MappedIsFragment(f: Reader, line: Str, n: nat, offset: nat, q: nat)
    requires n > 0 && q + n <= |FoldWith(f, line)|
    ensures var s := FragmentAt(f, line, n, q);
            Mapped(Starts(f, line, 0), Ends(f, line, 0), n, offset, q) == Span(s.start + offset, s.end + offset)
  {
  }

  /** The search in one folded line. */
  method SearchLine(f: Reader, line: Str, offset: nat, needle: Str) returns (spans: seq<Span>)
    requires needle != []
    ensures spans == Shifted(LineFragments(f, line, needle), offset)
  {
    var folded, starts, ends := MapRunes(f, line);
    spans := Search(OccursTest(folded, needle), starts, ends, |needle|, offset);
    AllMappedIsShifted(f, line, needle, offset);
  }

  method Search(test: Test, starts: seq<nat>, ends: seq<nat>, n: nat, offset: nat) returns (spans: seq<Span>)
    requires n > 0 && |starts| == |ends|
    ensures spans == AllMapped(starts, ends, n, offset, Greedy(test, n, |starts|, 0))
  {
    spans := [];
    ghost var done: seq<nat> := [];
    var from := 0;
    while true
      invariant 0 <= from <= |starts|
      invariant done + Greedy(test, n, |starts|, from) == Greedy(test, n, |starts|, 0)
      invariant spans == AllMapped(starts, ends, n, offset, done)
      decreases |starts| - from
    {
      var q := IndexFrom(test, n, |starts|, from);
      if q < 0 {
        assert done + [] == done;
        break;
      }
      Shift(done, q, Greedy(test, n, |starts|, q + n));
      AllMappedSnoc(starts, ends, n, offset, done, q);
      spans := spans + [Span(offset + starts[q], offset + ends[q + n - 1])];
      done := done + [q];
      from := q + n;
    }
  }

  function FragmentSpans(f: Reader, content: Str, old_: Str): seq<Span> {
    var needle := FoldWith(f, old_);
    if needle == [] then [] else FragmentsIn(f, content, LinesOf(content), needle)
  }

  method FoldedFragmentSpans(content: Str, old_: Str) returns (spans: seq<Span>)
    ensures spans == FragmentSpans(FoldReader(), content, old_)
  {
    var infos := SplitLineInfos(content);
    spans := [];
    var f := FoldReader();
    var needle := FoldWith(f, old_);
    if needle == [] { return; }
    for k := 0 to |infos|
      invariant spans + FragmentsIn(f, content, infos[k..], needle) == FragmentsIn(f, content, infos, needle)
    {
      ghost var rest := FragmentsIn(f, content, infos[k + 1..], needle);
      assert infos[k..][0] == infos[k] && infos[k..][1..] == infos[k + 1..];
      var more := SearchLine(f, LineText(content, infos[k]), infos[k].start, needle);
      Assoc(spans, more, rest);
      spans := spans + more;
    }
    assert infos[|infos|..] == [];
  }

  lemma FragmentSpansOrdered(f: Reader, content: Str, old_: Str)
    requires Good(f)
    ensures Ordered(FragmentSpans(f, content, old_), 0, |content|)
  {
    var lines := LinesOf(content);
    LinesOfAreLines(content);
    if FoldWith(f, old_) != [] {
      assert lines[0..] == lines;
      FragmentsOrdered(f, content, lines, 0, old_);
    }
  }

  lemma ShiftedOrdered(spans: seq<Span>, d: nat, hi: nat)
    requires Ordered(spans, 0, hi)
    ensures Ordered(Shifted(spans, d), d, d + hi)
  {
  }

  /** In bounds, sorted and disjoint over the whole text. */
  lemma {:induction false} FragmentsOrdered(f: Reader, content: Str, lines: seq<Span>, k: nat, old_: Str)
    requires Good(f) && FoldWith(f, old_) != [] && IsLines(content, lines) && k < |lines|
    ensures Ordered(FragmentsIn(f, content, lines[k..], FoldWith(f, old_)), lines[k].start, |content|)
    decreases |lines| - k
  {
    var needle, line := FoldWith(f, old_), LineText(content, lines[k]);
    LineFragmentsExact(f, line, old_);
    ShiftedOrdered(LineFragments(f, line, needle), lines[k].start, |line|);
    var here := Shifted(LineFragments(f, line, needle), lines[k].start);
    var rest := FragmentsIn(f, content, lines[k + 1..], needle);
    assert lines[k..][0] == lines[k] && lines[k..][1..] == lines[k + 1..];
    if k + 1 < |lines| {
      FragmentsOrdered(f, content, lines, k + 1, old_);
      assert Ordered(rest, lines[k].end, |content|);
    }
    OrderedConcat(here, rest, lines[k].start, lines[k].end, |content|);
  }

  /** sp is the range r of the k-th line: whole runes that fold to the needle. */
  ghost predicate OnOneLine(f: Reader, content: Str, lines: seq<Span>, needle: Str, k: int, r: Span, sp: Span) {
    && 0 <= k < |lines|
    && sp == Span(r.start + lines[k].start, r.end + lines[k].start)
    && IsFragment(f, LineText(content, lines[k]), needle, r)
  }

  ghost predicate IsReport(f: Reader, content: Str, lines: seq<Span>, needle: Str, sp: Span) {
    exists k, r :: OnOneLine(f, content, lines, needle, k, r, sp)
  }

  lemma ReportOfRest(f: Reader, content: Str, lines: seq<Span>, needle: Str, k: nat, r: Span, sp: Span)
    requires lines != [] && OnOneLine(f, content, lines[1..], needle, k, r, sp)
    ensures IsReport(f, content, lines, needle, sp)
  {
    assert OnOneLine(f, content, lines, needle, k + 1, r, sp);
  }

  lemma LineReport(f: Reader, line: Str, old_: Str, j: nat)
    requires Good(f) && FoldWith(f, old_) != [] && j < |LineFragments(f, line, FoldWith(f, old_))|
    ensures IsFragment(f, line, FoldWith(f, old_), LineFragments(f, line, FoldWith(f, old_))[j])
  {
    LineFragmentsExact(f, line, old_);
  }

  lemma LineComplete(f: Reader, line: Str, old_: Str, r: Span)
    requires Good(f) && FoldWith(f, old_) != [] && IsFragment(f, line, FoldWith(f, old_), r)
    ensures Meets(LineFragments(f, line, FoldWith(f, old_)), r)
  {
    LineFragmentsExact(f, line, old_);
  }

  lemma FirstLineReports(f: Reader, content: Str, lines: seq<Span>, needle: Str, first: seq<Span>, j: nat)
    requires lines != [] && j < |first| && IsFragment(f, LineText(content, lines[0]), needle, first[j])
    ensures IsReport(f, content, lines, needle, Shifted(first, lines[0].start)[j])
  {
    var r := first[j];
    assert OnOneLine(f, content, lines, needle, 0, r, Span(r.start + lines[0].start, r.end + lines[0].start));
  }

  lemma {:induction false} ReportsOfLines(f: Reader, content: Str, lines: seq<Span>, old_: Str, j: nat)
    requires Good(f) && FoldWith(f, old_) != []
    requires j < |FragmentsIn(f, content, lines, FoldWith(f, old_))|
    ensures IsReport(f, content, lines, FoldWith(f, old_), FragmentsIn(f, content, lines, FoldWith(f, old_))[j])
    decreases |lines|
  {
    var first := LineFragments(f, LineText(content, lines[0]), FoldWith(f, old_));
    if j < |first| {
      LineReport(f, LineText(content, lines[0]), old_, j);
      FirstLineReports(f, content, lines, FoldWith(f, old_), first, j);
    } else {
      ReportsOfLines(f, content, lines[1..], old_, j - |first|);
      var needle, sp := FoldWith(f, old_), FragmentsIn(f, content, lines, FoldWith(f, old_))[j];
      var k, r :| OnOneLine(f, content, lines[1..], needle, k, r, sp);
      ReportOfRest(f, content, lines, needle, k, r, sp);
    }
  }

  lemma MeetsEither(a: seq<Span>, b: seq<Span>, sp: Span)
    requires Meets(a, sp) || Meets(b, sp)
    ensures Meets(a + b, sp)
  {
    var all := a + b;
    if Meets(a, sp) {
      var m :| 0 <= m < |a| && a[m].start <= sp.start < a[m].end;
      assert all[m] == a[m];
    } else {
      var m :| 0 <= m < |b| && b[m].start <= sp.start < b[m].end;
      assert all[|a| + m] == b[m];
    }
  }

  lemma MeetsShifted(spans: seq<Span>, r: Span, d: nat)
    requires Meets(spans, r)
    ensures Meets(Shifted(spans, d), Span(r.start + d, r.end + d))
  {
    var m :| 0 <= m < |spans| && spans[m].start <= r.start < spans[m].end;
    assert Shifted(spans, d)[m].start == spans[m].start + d;
  }

  lemma NextLine(f: Reader, content: Str, lines: seq<Span>, needle: Str, k: nat, r: Span, sp: Span)
    requires k > 0 && OnOneLine(f, content, lines, needle, k, r, sp)
    ensures OnOneLine(f, content, lines[1..], needle, k - 1, r, sp)
  {
  }

  /** Every fragment of any line begins inside a reported span. */
  lemma {:induction false} FragmentsComplete(f: Reader, content: Str, lines: seq<Span>, old_: Str, k: nat, r: Span, sp: Span)
    requires Good(f) && FoldWith(f, old_) != []
    requires OnOneLine(f, content, lines, FoldWith(f, old_), k, r, sp)
    ensures Meets(FragmentsIn(f, content, lines, FoldWith(f, old_)), sp)
    decreases |lines|
  {
    var needle, line := FoldWith(f, old_), LineText(content, lines[0]);
    var first := LineFragments(f, line, needle);
    if k == 0 {
      LineComplete(f, line, old_, r);
      MeetsShifted(first, r, lines[0].start);
    } else {
      NextLine(f, content, lines, needle, k, r, sp);
      FragmentsComplete(f, content, lines[1..], old_, k - 1, r, sp);
    }
    MeetsEither(Shifted(first, lines[0].start), FragmentsIn(f, content, lines[1..], needle), sp);
  }

  /** The reported spans are whole runes of single lines that fold to the folded fragment, in
      bounds, sorted and disjoint; and every such stretch of any line begins inside one. */
  lemma FragmentSpansExact(f: Reader, content: Str, old_: Str)
    requires Good(f) && FoldWith(f, old_) != []
    ensures var spans, lines := FragmentSpans(f, content, old_), LinesOf(content);
            && Ordered(spans, 0, |content|)
            && (forall j | 0 <= j < |spans| :: IsReport(f, content, lines, FoldWith(f, old_), spans[j]))
            && (forall sp | IsReport(f, content, lines, FoldWith(f, old_), sp) :: Meets(spans, sp))
  {
    var spans, lines := FragmentSpans(f, content, old_), LinesOf(content);
    LinesOfAreLines(content);
    FragmentSpansOrdered(f, content, old_);
    forall j | 0 <= j < |spans| ensures IsReport(f, content, lines, FoldWith(f, old_), spans[j]) {
      ReportsOfLines(f, content, lines, old_, j);
    }
    forall sp | IsReport(f, content, lines, FoldWith(f, old_), sp) ensures Meets(spans, sp) {
      var k, r :| OnOneLine(f, content, lines, FoldWith(f, old_), k, r, sp);
      FragmentsComplete(f, content, lines, old_, k, r, sp);
    }
  }
}
