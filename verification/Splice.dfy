/** Replacing spans of a text and reporting which lines changed (tools/fs/match.go
    replaceSpans, replacedLineRange). */
module Splice {
  import opened Sequences
  import opened Bytes
  import opened Spans
  import Reindent

  /** How a rung renders its replacement: the text as given, or re-indented like the file. */
  datatype Renderer = Verbatim(text: Str) | LikeFile(content: Str, quoted: Str, text: Str)

  predicate CanRender(r: Renderer, sp: Span) {
    r.LikeFile? ==> sp.start <= sp.end <= |r.content|
  }

  function Rendered(r: Renderer, sp: Span): Str
    requires CanRender(r, sp)
  {
    match r
    case Verbatim(text) => text
    case LikeFile(content, quoted, text) => Reindent.Reindented(content, quoted, text, sp)
  }

  method RunRenderer(r: Renderer, sp: Span) returns (out: Str)
    requires CanRender(r, sp)
    ensures out == Rendered(r, sp)
  {
    match r
    case Verbatim(text) => out := text;
    case LikeFile(content, quoted, text) => out := Reindent.Render(content, quoted, text, sp);
  }

  function Fills(r: Renderer, spans: seq<Span>): (fills: seq<Str>)
    requires forall k | 0 <= k < |spans| :: CanRender(r, spans[k])
    ensures |fills| == |spans|
  {
    seq(|spans|, k requires 0 <= k < |spans| => Rendered(r, spans[k]))
  }

  // ---------- a text as gaps and fills ----------

  /** The stretches of content from prev on that lie outside the spans. */
  function Gaps(content: Str, prev: nat, spans: seq<Span>): (gaps: seq<Str>)
    requires prev <= |content| && Ordered(spans, prev, |content|)
    ensures |gaps| == |spans| + 1
    decreases |spans|
  {
    if spans == [] then [content[prev..]]
    else [content[prev..spans[0].start]] + Gaps(content, spans[0].end, spans[1..])
  }

  /** gap, fill, gap, fill, ... gap. */
  function Interleave(gaps: seq<Str>, fills: seq<Str>): Str
    requires |gaps| == |fills| + 1
  {
    if fills == [] then gaps[0] else gaps[0] + (fills[0] + Interleave(gaps[1..], fills[1..]))
  }

  /** The text with every span replaced by its fill. */
  function Replaced(content: Str, spans: seq<Span>, fills: seq<Str>): Str
    requires Ordered(spans, 0, |content|) && |fills| == |spans|
  {
    Interleave(Gaps(content, 0, spans), fills)
  }

  /** What lies outside the spans and what lies inside make up the text, so a replacement
      keeps exactly the stretches outside the spans. */
  lemma {:induction false} OutsideAndInside(content: Str, prev: nat, spans: seq<Span>)
    requires prev <= |content| && Ordered(spans, prev, |content|)
    ensures Interleave(Gaps(content, prev, spans), Texts(content, spans)) == content[prev..]
    decreases |spans|
  {
    if spans != [] {
      var s, rest := spans[0], spans[1..];
      OutsideAndInside(content, s.end, rest);
      assert Texts(content, spans)[1..] == Texts(content, rest);
      assert Gaps(content, prev, spans)[1..] == Gaps(content, s.end, rest);
      assert content[prev..] == content[prev..s.start] + (content[s.start..s.end] + content[s.end..]);
    }
  }

  /** The first replacement stands where the first span stood, after unchanged text. */
  lemma FirstReplacement(content: Str, spans: seq<Span>, fills: seq<Str>)
    requires Ordered(spans, 0, |content|) && |fills| == |spans| > 0
    ensures var updated := Replaced(content, spans, fills); var start := spans[0].start;
            && start + |fills[0]| <= |updated|
            && updated[..start] == content[..start]
            && updated[start..start + |fills[0]|] == fills[0]
  {
    var start, rest := spans[0].start, Interleave(Gaps(content, 0, spans)[1..], fills[1..]);
    var updated := Replaced(content, spans, fills);
    assert updated == content[0..start] + (fills[0] + rest);
    assert updated[start..] == fills[0] + rest;
    assert updated[start..start + |fills[0]|] == updated[start..][..|fills[0]|];
  }

  // ---------- the loop ----------

  /** Interleaving from the next span on. */
  function Remaining(content: Str, prev: nat, spans: seq<Span>, fills: seq<Str>): Str
    requires prev <= |content| && Ordered(spans, prev, |content|) && |fills| == |spans|
  {
    Interleave(Gaps(content, prev, spans), fills)
  }

  lemma RemainingStep(content: Str, prev: nat, spans: seq<Span>, fills: seq<Str>)
    requires prev <= |content| && Ordered(spans, prev, |content|) && |fills| == |spans| > 0
    ensures Remaining(content, prev, spans, fills)
         == content[prev..spans[0].start] + (fills[0] + Remaining(content, spans[0].end, spans[1..], fills[1..]))
  {
    assert Gaps(content, prev, spans)[1..] == Gaps(content, spans[0].end, spans[1..]);
  }

  /** A single replacement keeps everything before and after it. */
  lemma OneReplacement(content: Str, s: Span, fill: Str)
    requires s.start <= s.end <= |content|
    ensures Replaced(content, [s], [fill]) == content[..s.start] + fill + content[s.end..]
  {
    var none: seq<Span> := [];
    assert [s][1..] == none && [fill][1..] == [];
    RemainingStep(content, 0, [s], [fill]);
    assert Remaining(content, s.end, none, []) == content[s.end..];
    Assoc(content[0..s.start], fill, content[s.end..]);
    assert content[0..s.start] == content[..s.start];
  }

  lemma TailOrdered(content: Str, prev: nat, spans: seq<Span>)
    requires prev <= |content| && Ordered(spans, prev, |content|) && spans != []
    ensures prev <= spans[0].start <= spans[0].end <= |content| && Ordered(spans[1..], spans[0].end, |content|)
  {
  }

  lemma Regroup(b: Str, gap: Str, text: Str, rest: Str)
    ensures b + (gap + (text + rest)) == ((b + gap) + text) + rest
  {
  }

  /** b is what has been written when the text from prev on and these spans remain. */
  ghost predicate Written(b: Str, content: Str, prev: int, spans: seq<Span>, fills: seq<Str>, whole: Str) {
    && 0 <= prev <= |content| && Ordered(spans, prev, |content|) && |fills| == |spans|
    && b + Remaining(content, prev, spans, fills) == whole
  }

  lemma WrittenStep(b: Str, content: Str, prev: nat, spans: seq<Span>, fills: seq<Str>, whole: Str)
    requires Written(b, content, prev, spans, fills, whole) && spans != []
    ensures prev <= spans[0].start <= |content|
    ensures Written((b + content[prev..spans[0].start]) + fills[0], content, spans[0].end, spans[1..], fills[1..], whole)
  {
    TailOrdered(content, prev, spans);
    RemainingStep(content, prev, spans, fills);
    Regroup(b, content[prev..spans[0].start], fills[0], Remaining(content, spans[0].end, spans[1..], fills[1..]));
  }

  ghost predicate AreFills(r: Renderer, spans: seq<Span>, fills: seq<Str>) {
    && |fills| == |spans|
    && forall k | 0 <= k < |spans| :: CanRender(r, spans[k]) && fills[k] == Rendered(r, spans[k])
  }

  lemma AreFillsStep(r: Renderer, spans: seq<Span>, fills: seq<Str>)
    requires AreFills(r, spans, fills) && spans != []
    ensures AreFills(r, spans[1..], fills[1..])
  {
  }

  method ReplaceSpans(content: Str, spans: seq<Span>, r: Renderer) returns (updated: Str, firstStart: nat)
    requires Ordered(spans, 0, |content|) && forall k | 0 <= k < |spans| :: CanRender(r, spans[k])
    ensures updated == Replaced(content, spans, Fills(r, spans))
    ensures firstStart == if spans == [] then 0 else spans[0].start
  {
    var b: Str := [];
    var prev := 0;
    firstStart := 0;
    ghost var rest, fills, whole := spans, Fills(r, spans), Replaced(content, spans, Fills(r, spans));
    for i := 0 to |spans|
      invariant rest == spans[i..]
      invariant Written(b, content, prev, rest, fills, whole)
      invariant AreFills(r, rest, fills)
      invariant if i == 0 then prev == 0 && b == [] && firstStart == 0 else firstStart == spans[0].start
    {
      var sp := spans[i];
      DropDrop(spans, i, 1);
      AreFillsStep(r, rest, fills);
      WrittenStep(b, content, prev, rest, fills, whole);
      b := b + content[prev..sp.start];
      if i == 0 {
        firstStart := |b|;
      }
      var text := RunRenderer(r, sp);
      b := b + text;
      prev := sp.end;
      rest, fills := rest[1..], fills[1..];
    }
    updated := b + content[prev..];
  }

  // ---------- the reported lines ----------

  datatype LineRange = LineRange(first: nat, last: nat)

  function ReplacedLineRange(updated: Str, start: nat, n: nat): LineRange
    requires start <= |updated|
  {
    var first := 1 + Count(updated[..start], NEWLINE);
    var end := if start + n > |updated| then |updated| else start + n;
    LineRange(first, first + Count(updated[start..end], NEWLINE))
  }

  /** Byte position p belongs to the line with this index, or is the newline that ends it. */
  ghost predicate OnLine(content: Str, k: int, p: int) {
    0 <= k < |LinesOf(content)| && LinesOf(content)[k].start <= p <= LinesOf(content)[k].end
  }

  lemma {:induction false} NewlinesBefore(content: Str, lines: seq<Span>, k: nat)
    requires IsLines(content, lines) && k < |lines|
    ensures lines[k].start <= |content| && Count(content[..lines[k].start], NEWLINE) == k
  {
    if k == 0 {
      assert content[..0] == [];
    } else {
      var before := lines[k - 1];
      NewlinesBefore(content, lines, k - 1);
      NewlinesInside(content, before.start, before.end);
      CountConcat(content[..before.start], content[before.start..before.end], NEWLINE);
      CountConcat(content[..before.start] + content[before.start..before.end], [NEWLINE], NEWLINE);
      assert content[..lines[k].start]
          == content[..before.start] + content[before.start..before.end] + [NEWLINE];
    }
  }

  lemma {:induction false} NewlinesInside(content: Str, i: nat, j: nat)
    requires i <= j <= |content| && NoNewline(content, i, j)
    ensures Count(content[i..j], NEWLINE) == 0
    decreases j
  {
    if i < j {
      NewlinesInside(content, i, j - 1);
      CountConcat(content[i..j - 1], [content[j - 1]], NEWLINE);
      assert content[i..j] == content[i..j - 1] + [content[j - 1]];
    } else {
      assert content[i..j] == [];
    }
  }

  /** The newlines before a position number the line it is on. */
  lemma NewlinesNumberLines(content: Str, k: nat, p: nat)
    requires OnLine(content, k, p)
    ensures p <= |content| && Count(content[..p], NEWLINE) == k
  {
    var lines := LinesOf(content);
    LinesOfAreLines(content);
    NewlinesBefore(content, lines, k);
    var start := lines[k].start;
    assert NoNewline(content, start, lines[k].end);
    NewlinesInside(content, start, p);
    CountConcat(content[..start], content[start..p], NEWLINE);
    assert content[..p] == content[..start] + content[start..p];
  }

  lemma {:induction false} LineHolding(content: Str, lines: seq<Span>, k: nat, p: nat) returns (m: nat)
    requires IsLines(content, lines) && k < |lines| && lines[k].start <= p <= |content|
    ensures m < |lines| && lines[m].start <= p <= lines[m].end
    decreases |lines| - k
  {
    if p <= lines[k].end { m := k; } else { m := LineHolding(content, lines, k + 1, p); }
  }

  /** Every position is on the line that the newlines before it number. */
  lemma PositionOnLine(content: Str, p: nat)
    requires p <= |content|
    ensures OnLine(content, Count(content[..p], NEWLINE), p)
  {
    LinesOfAreLines(content);
    var m := LineHolding(content, LinesOf(content), 0, p);
    NewlinesNumberLines(content, m, p);
  }

  /** The reported range runs from the line where the replacement begins to the line where it
      ends; counting from one. */
  lemma LineRangeExact(updated: Str, start: nat, n: nat)
    requires start + n <= |updated|
    ensures var range := ReplacedLineRange(updated, start, n);
            && range.first >= 1 && OnLine(updated, range.first - 1, start)
            && OnLine(updated, range.last - 1, start + n)
  {
    PositionOnLine(updated, start);
    PositionOnLine(updated, start + n);
    CountConcat(updated[..start], updated[start..start + n], NEWLINE);
    assert updated[..start + n] == updated[..start] + updated[start..start + n];
  }
}
