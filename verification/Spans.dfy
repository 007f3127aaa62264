/** Where an edit applies: byte ranges of a text, and the greedy left-to-right searches that
    find them (tools/fs/match.go exactSpans, splitLineInfos, lineWindowSpans, blockAnchorSpans). */
module Spans {
  import Sequences
  import opened Bytes

  /** The half-open byte range start..end. */
  datatype Span = Span(start: nat, end: nat)

  ghost predicate Within(spans: seq<Span>, lo: int, hi: int) {
    forall k | 0 <= k < |spans| :: lo <= spans[k].start <= spans[k].end <= hi
  }

  /** In bounds, sorted and disjoint. */
  ghost predicate Ordered(spans: seq<Span>, lo: int, hi: int) {
    && Within(spans, lo, hi)
    && forall i, j | 0 <= i < j < |spans| :: spans[i].end <= spans[j].start
  }

  lemma OrderedConcat(a: seq<Span>, b: seq<Span>, lo: int, mid: int, hi: int)
    requires Ordered(a, lo, mid) && Ordered(b, mid, hi) && lo <= mid <= hi
    ensures Ordered(a + b, lo, hi)
  {
    var all := a + b;
    assert forall k | 0 <= k < |a| :: all[k] == a[k];
    assert forall k | |a| <= k < |all| :: all[k] == b[k - |a|];
  }

  // ---------- greedy search ----------

  /** Does a match of fixed length begin at this position? */
  type Test = int -> bool

  /** Greedy non-overlapping matches of length n among total positions, from i on. */
  function Greedy(test: Test, n: nat, total: nat, i: nat): seq<nat>
    requires n > 0
    decreases total - i
  {
    if i + n > total then []
    else if test(i) then [i] + Greedy(test, n, total, i + n)
    else Greedy(test, n, total, i + 1)
  }

  /** A found match begins at or before p and reaches past it. */
  ghost predicate Covered(ps: seq<nat>, n: nat, p: int) {
    exists k | 0 <= k < |ps| :: ps[k] <= p < ps[k] + n
  }

  ghost predicate AllMatch(test: Test, n: nat, total: nat, i: nat, ps: seq<nat>) {
    forall k | 0 <= k < |ps| :: i <= ps[k] && ps[k] + n <= total && test(ps[k])
  }

  ghost predicate Apart(n: nat, ps: seq<nat>) {
    forall a, b | 0 <= a < b < |ps| :: ps[a] + n <= ps[b]
  }

  ghost predicate AllCovered(test: Test, n: nat, total: nat, i: nat, ps: seq<nat>) {
    forall p {:trigger Covered(ps, n, p)} | i <= p && p + n <= total && test(p) :: Covered(ps, n, p)
  }

  lemma CoveredCons(i: nat, rest: seq<nat>, n: nat, p: int)
    requires i <= p < i + n || Covered(rest, n, p)
    ensures Covered([i] + rest, n, p)
  {
    var ps := [i] + rest;
    if i <= p < i + n {
      assert ps[0] <= p < ps[0] + n;
    } else {
      var k :| 0 <= k < |rest| && rest[k] <= p < rest[k] + n;
      assert ps[k + 1] == rest[k];
    }
  }

  ghost predicate Exact(test: Test, n: nat, total: nat, i: nat, ps: seq<nat>) {
    AllMatch(test, n, total, i, ps) && Apart(n, ps) && AllCovered(test, n, total, i, ps)
  }

  lemma MatchesCons(test: Test, n: nat, total: nat, i: nat, rest: seq<nat>)
    requires i + n <= total && test(i) && AllMatch(test, n, total, i + n, rest) && Apart(n, rest)
    ensures AllMatch(test, n, total, i, [i] + rest) && Apart(n, [i] + rest)
  {
    var ps := [i] + rest;
    assert forall k | 1 <= k < |ps| :: ps[k] == rest[k - 1];
  }

  lemma ExactCons(test: Test, n: nat, total: nat, i: nat, rest: seq<nat>)
    requires n > 0 && i + n <= total && test(i) && Exact(test, n, total, i + n, rest)
    ensures Exact(test, n, total, i, [i] + rest)
  {
    var ps := [i] + rest;
    MatchesCons(test, n, total, i, rest);
    forall p | i <= p && p + n <= total && test(p) ensures Covered(ps, n, p) {
      assert p >= i + n ==> Covered(rest, n, p);
      CoveredCons(i, rest, n, p);
    }
  }

  /** Every position found is a match, found matches do not overlap, and every match
      overlaps a found one that begins no later. */
  lemma {:induction false} GreedyExact(test: Test, n: nat, total: nat, i: nat)
    requires n > 0
    ensures Exact(test, n, total, i, Greedy(test, n, total, i))
    decreases total - i
  {
    if i + n <= total {
      if test(i) {
        GreedyExact(test, n, total, i + n);
        ExactCons(test, n, total, i, Greedy(test, n, total, i + n));
      } else {
        GreedyExact(test, n, total, i + 1);
      }
    }
  }

  // ---------- exact occurrences ----------

  predicate Occurs(s: Str, needle: Str, p: int) {
    0 <= p && p + |needle| <= |s| && s[p..p + |needle|] == needle
  }

  function OccursTest(s: Str, needle: Str): Test { (p: int) => Occurs(s, needle, p) }

  /** Greedy non-overlapping occurrences, left to right. */
  function Occurrences(s: Str, needle: Str, from: nat): seq<nat>
    requires needle != []
  {
    Greedy(OccursTest(s, needle), |needle|, |s|, from)
  }

  /** The first match at or after from; -1 when there is none (strings.Index). */
  function IndexFrom(test: Test, n: nat, total: nat, from: nat): (p: int)
    requires n > 0
    ensures p < 0 ==> Greedy(test, n, total, from) == []
    ensures p >= 0 ==> from <= p && p + n <= total
                       && Greedy(test, n, total, from) == [p] + Greedy(test, n, total, p + n)
    decreases total - from
  {
    if from + n > total then -1
    else if test(from) then from
    else IndexFrom(test, n, total, from + 1)
  }

  function SpansAt(ps: seq<nat>, n: nat): (spans: seq<Span>)
    ensures |spans| == |ps|
  {
    seq(|ps|, k requires 0 <= k < |ps| => Span(ps[k], ps[k] + n))
  }

  lemma SpansAtSnoc(ps: seq<nat>, p: nat, n: nat)
    ensures SpansAt(ps + [p], n) == SpansAt(ps, n) + [Span(p, p + n)]
  {
  }

  /** The searching loop: on from the end of each match. */
  method SearchAll(test: Test, n: nat, total: nat) returns (spans: seq<Span>)
    requires n > 0
    ensures spans == SpansAt(Greedy(test, n, total, 0), n)
  {
    spans := [];
    var from := 0;
    ghost var done: seq<nat> := [];
    while true
      invariant 0 <= from <= total
      invariant spans == SpansAt(done, n)
      invariant done + Greedy(test, n, total, from) == Greedy(test, n, total, 0)
      decreases total - from
    {
      var start := IndexFrom(test, n, total, from);
      if start < 0 {
        assert done + [] == done;
        break;
      }
      Sequences.Shift(done, start, Greedy(test, n, total, start + n));
      SpansAtSnoc(done, start, n);
      done := done + [start];
      spans := spans + [Span(start, start + n)];
      from := start + n;
    }
  }

  method ExactSpans(content: Str, old_: Str) returns (spans: seq<Span>)
    ensures spans == if old_ == [] then [] else SpansAt(Occurrences(content, old_, 0), |old_|)
  {
    if old_ == [] { return []; }
    spans := SearchAll(OccursTest(content, old_), |old_|, |content|);
  }

  lemma ExactSpansOrdered(content: Str, needle: Str)
    requires needle != []
    ensures Ordered(SpansAt(Occurrences(content, needle, 0), |needle|), 0, |content|)
  {
    GreedyExact(OccursTest(content, needle), |needle|, |content|, 0);
  }

  // ---------- lines ----------

  /** The lines from the one that begins at start, when there is no newline in start .. i. */
  function LinesFrom(content: Str, start: nat, i: nat): seq<Span>
    requires i <= |content|
    decreases |content| - i
  {
    if i == |content| then [Span(start, i)]
    else if content[i] == NEWLINE then [Span(start, i)] + LinesFrom(content, i + 1, i + 1)
    else LinesFrom(content, start, i + 1)
  }

  /** The lines of a text, each without its newline, as positions. */
  function LinesOf(content: Str): seq<Span> { LinesFrom(content, 0, 0) }

  ghost predicate NoNewline(content: Str, i: int, j: int) {
    forall p | 0 <= i <= p < j <= |content| :: content[p] != NEWLINE
  }

  /** Consecutive lines, separated by single newlines and holding none, from start to the end. */
  ghost predicate IsLinesFrom(content: Str, lines: seq<Span>, start: int) {
    && |lines| > 0
    && lines[0].start == start && lines[|lines| - 1].end == |content|
    && (forall k | 0 <= k < |lines| :: lines[k].start <= lines[k].end <= |content|)
    && (forall k | 0 <= k < |lines| :: NoNewline(content, lines[k].start, lines[k].end))
    && (forall k | 0 <= k < |lines| - 1 ::
          lines[k].end + 1 == lines[k + 1].start && content[lines[k].end] == NEWLINE)
  }

  ghost predicate IsLines(content: Str, lines: seq<Span>) { IsLinesFrom(content, lines, 0) }

  lemma LinesCons(content: Str, line: Span, rest: seq<Span>)
    requires line.start <= line.end < |content| && content[line.end] == NEWLINE
    requires NoNewline(content, line.start, line.end) && IsLinesFrom(content, rest, line.end + 1)
    ensures IsLinesFrom(content, [line] + rest, line.start)
  {
    var all := [line] + rest;
    assert forall k | 1 <= k < |all| :: all[k] == rest[k - 1];
  }

  lemma {:induction false} LinesFromAreLines(content: Str, start: nat, i: nat)
    requires start <= i <= |content| && NoNewline(content, start, i)
    ensures IsLinesFrom(content, LinesFrom(content, start, i), start)
    decreases |content| - i
  {
    if i < |content| {
      if content[i] == NEWLINE {
        LinesFromAreLines(content, i + 1, i + 1);
        LinesCons(content, Span(start, i), LinesFrom(content, i + 1, i + 1));
      } else {
        LinesFromAreLines(content, start, i + 1);
      }
    }
  }

  lemma LinesOfAreLines(content: Str)
    ensures IsLines(content, LinesOf(content))
  {
    LinesFromAreLines(content, 0, 0);
  }

  method SplitLineInfos(content: Str) returns (lines: seq<Span>)
    ensures lines == LinesOf(content)
    ensures IsLines(content, lines)
  {
    lines := [];
    var start := 0;
    for i := 0 to |content|
      invariant 0 <= start <= i
      invariant lines + LinesFrom(content, start, i) == LinesOf(content)
    {
      if content[i] == NEWLINE {
        Sequences.Shift(lines, Span(start, i), LinesFrom(content, i + 1, i + 1));
        lines := lines + [Span(start, i)];
        start := i + 1;
      }
    }
    lines := lines + [Span(start, |content|)];
    LinesOfAreLines(content);
  }

  lemma {:induction false} LinesIncrease(content: Str, lines: seq<Span>, i: nat, j: nat)
    requires IsLines(content, lines) && i < j < |lines|
    ensures lines[i].end < lines[j].start
    decreases j - i
  {
    if i + 1 < j {
      LinesIncrease(content, lines, i + 1, j);
    }
  }

  // ---------- windows of lines ----------

  /** The bytes of a window; its last newline is absorbed when the quoted text ended in one. */
  function WindowSpan(content: Str, lines: seq<Span>, n: nat, trailingNL: bool, i: nat): Span
    requires n > 0 && i + n <= |lines|
  {
    var end := lines[i + n - 1].end;
    Span(lines[i].start, if trailingNL && end < |content| && content[end] == NEWLINE then end + 1 else end)
  }

  function WindowSpans(content: Str, lines: seq<Span>, n: nat, trailingNL: bool, ws: seq<nat>): (spans: seq<Span>)
    requires n > 0 && forall k | 0 <= k < |ws| :: ws[k] + n <= |lines|
    ensures |spans| == |ws|
  {
    seq(|ws|, k requires 0 <= k < |ws| => WindowSpan(content, lines, n, trailingNL, ws[k]))
  }

  lemma WindowSpansSnoc(content: Str, lines: seq<Span>, n: nat, trailingNL: bool, ws: seq<nat>, i: nat)
    requires n > 0 && i + n <= |lines| && forall k | 0 <= k < |ws| :: ws[k] + n <= |lines|
    ensures forall k | 0 <= k < |ws| + 1 :: (ws + [i])[k] + n <= |lines|
    ensures WindowSpans(content, lines, n, trailingNL, ws + [i])
         == WindowSpans(content, lines, n, trailingNL, ws) + [WindowSpan(content, lines, n, trailingNL, i)]
  {
  }

  lemma WindowSpansOrdered(content: Str, lines: seq<Span>, n: nat, trailingNL: bool, ws: seq<nat>)
    requires IsLines(content, lines)
    requires n > 0 && forall k | 0 <= k < |ws| :: ws[k] + n <= |lines|
    requires forall a, b | 0 <= a < b < |ws| :: ws[a] + n <= ws[b]
    ensures Ordered(WindowSpans(content, lines, n, trailingNL, ws), 0, |content|)
  {
    var spans := WindowSpans(content, lines, n, trailingNL, ws);
    forall k | 0 <= k < |ws| ensures 0 <= spans[k].start <= spans[k].end <= |content| {
      if n > 1 { LinesIncrease(content, lines, ws[k], ws[k] + n - 1); }
    }
    forall a, b | 0 <= a < b < |ws| ensures spans[a].end <= spans[b].start {
      LinesIncrease(content, lines, ws[a] + n - 1, ws[b]);
    }
  }

  // ---------- the quoted text ----------

  datatype Needle = Needle(lines: seq<Str>, trailingNL: bool)

  /** oldNeedleLines: a trailing newline is set apart so that a match can absorb it. */
  function NeedleOf(old_: Str): (n: Needle)
    ensures |n.lines| > 0
  {
    var lines := Sequences.Split(old_, NEWLINE);
    if |lines| > 1 && lines[|lines| - 1] == [] then Needle(lines[..|lines| - 1], true) else Needle(lines, false)
  }

  type LineEq = (Str, Str) -> bool

  function LineText(content: Str, line: Span): Str {
    if line.start <= line.end <= |content| then content[line.start..line.end] else []
  }

  /** The texts at these positions. */
  function Texts(content: Str, lines: seq<Span>): (r: seq<Str>)
    ensures |r| == |lines|
  {
    seq(|lines|, k requires 0 <= k < |lines| => LineText(content, lines[k]))
  }

  /** Every line of the window equals the quoted line beside it. */
  predicate WindowEq(content: Str, lines: seq<Span>, quoted: seq<Str>, eq: LineEq, i: int) {
    && 0 <= i && i + |quoted| <= |lines|
    && forall j | 0 <= j < |quoted| :: eq(LineText(content, lines[i + j]), quoted[j])
  }

  function EqTest(content: Str, lines: seq<Span>, quoted: seq<Str>, eq: LineEq): Test {
    (i: int) => WindowEq(content, lines, quoted, eq, i)
  }

  /** The spans of the greedy windows of n lines. */
  function Found(test: Test, content: Str, lines: seq<Span>, n: nat, trailingNL: bool): seq<Span>
    requires n > 0
  {
    GreedyExact(test, n, |lines|, 0);
    WindowSpans(content, lines, n, trailingNL, Greedy(test, n, |lines|, 0))
  }

  /** The sliding loop: windows of n lines, top to bottom, not overlapping. */
  method SlideWindow(content: Str, lines: seq<Span>, n: nat, trailingNL: bool, test: Test) returns (spans: seq<Span>)
    requires n > 0
    ensures spans == Found(test, content, lines, n, trailingNL)
  {
    spans := [];
    ghost var ws: seq<nat> := [];
    var i := 0;
    while i + n <= |lines|
      invariant 0 <= i
      invariant ws + Greedy(test, n, |lines|, i) == Greedy(test, n, |lines|, 0)
      invariant forall k | 0 <= k < |ws| :: ws[k] + n <= |lines|
      invariant spans == WindowSpans(content, lines, n, trailingNL, ws)
      decreases |lines| - i
    {
      if test(i) {
        Sequences.Shift(ws, i, Greedy(test, n, |lines|, i + n));
        WindowSpansSnoc(content, lines, n, trailingNL, ws, i);
        spans := spans + [WindowSpan(content, lines, n, trailingNL, i)];
        ws := ws + [i];
        i := i + n;
      } else {
        i := i + 1;
      }
    }
    assert ws + [] == ws;
  }
}
