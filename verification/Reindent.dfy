/** reindentRenderer, tools/fs/match.go: the file's own indentation, learned from the lines
    that matched, is applied to the replacement. */
module Reindent {
  import opened Sequences
  import opened Bytes
  import opened Text
  import Spans

  /** leadingWhitespace: the spaces and tabs in front. */
  function LeadingIndent(s: Str): (ws: Str)
    ensures ws <= s && forall b | b in ws :: IsIndent(b)
    ensures |ws| < |s| ==> !IsIndent(s[|ws|])
  {
    if s == [] || !IsIndent(s[0]) then []
    else
      var rest := LeadingIndent(s[1..]);
      assert s == [s[0]] + s[1..];
      [s[0]] + rest
  }

  /** Which lines carry no indentation to learn from. */
  type BlankTest = Str -> bool

  function IsBlank(): BlankTest { (s: Str) => TrimSpace(s) == [] }

  /** Quoted indentation, and the file's indentation beside it. */
  datatype Pair = Pair(from: Str, to: Str)

  predicate HasFrom(pairs: seq<Pair>, from: Str) {
    exists k | 0 <= k < |pairs| :: pairs[k].from == from
  }

  /** The pairs learned from the first n lines: the first meeting of each quoted indentation counts. */
  function PairsUpTo(blank: BlankTest, quoted: seq<Str>, matched: seq<Str>, n: nat): seq<Pair>
    requires n <= |quoted| && n <= |matched|
  {
    if n == 0 then []
    else
      var pairs := PairsUpTo(blank, quoted, matched, n - 1);
      var from := LeadingIndent(quoted[n - 1]);
      if blank(quoted[n - 1]) || HasFrom(pairs, from) then pairs
      else pairs + [Pair(from, LeadingIndent(matched[n - 1]))]
  }

  function PairsOf(quoted: seq<Str>, matched: seq<Str>): seq<Pair> {
    PairsUpTo(IsBlank(), quoted, matched, Min(|quoted|, |matched|))
  }

  ghost predicate DistinctFroms(pairs: seq<Pair>) {
    forall i, j | 0 <= i < j < |pairs| :: pairs[i].from != pairs[j].from
  }

  /** A pair with an empty quoted indentation is for unindented lines only. */
  predicate Applies(p: Pair, ws: Str) {
    if p.from == [] then ws == [] else p.from <= ws
  }

  /** The pair with the longest quoted indentation among those that apply. */
  function Best(pairs: seq<Pair>, ws: Str): (best: Option<Pair>)
    ensures best.None? ==> forall k | 0 <= k < |pairs| :: !Applies(pairs[k], ws)
    ensures best.Some? ==>
              && best.value in pairs && Applies(best.value, ws)
              && forall k | 0 <= k < |pairs| :: Applies(pairs[k], ws) ==> |pairs[k].from| <= |best.value.from|
  {
    if pairs == [] then None
    else
      var last := pairs[|pairs| - 1];
      var best := Best(pairs[..|pairs| - 1], ws);
      if Applies(last, ws) && (best.None? || |best.value.from| < |last.from|) then Some(last) else best
  }

  function RenderLine(pairs: seq<Pair>, line: Str): Str {
    match Best(pairs, LeadingIndent(line))
    case None => line
    case Some(p) => if line == [] then line else p.to + line[|p.from|..]
  }

  function RenderLines(pairs: seq<Pair>, lines: seq<Str>): (r: seq<Str>)
    ensures |r| == |lines|
  {
    seq(|lines|, k requires 0 <= k < |lines| => RenderLine(pairs, lines[k]))
  }

  function RenderText(pairs: seq<Pair>, text: Str): Str {
    Join(RenderLines(pairs, Split(text, NEWLINE)), NEWLINE)
  }

  /** What the renderer puts in place of one span. */
  function Reindented(content: Str, old_: Str, new_: Str, sp: Spans.Span): Str
    requires sp.start <= sp.end <= |content|
  {
    RenderText(PairsOf(Spans.NeedleOf(old_).lines, Split(content[sp.start..sp.end], NEWLINE)), new_)
  }

  // ---------- the imperative form ----------

  method CollectPairs(blank: BlankTest, quoted: seq<Str>, matched: seq<Str>) returns (pairs: seq<Pair>)
    ensures pairs == PairsUpTo(blank, quoted, matched, Min(|quoted|, |matched|))
  {
    pairs := [];
    var seen: set<Str> := {};
    var j := 0;
    while j < |quoted| && j < |matched|
      invariant 0 <= j <= |quoted| && j <= |matched|
      invariant pairs == PairsUpTo(blank, quoted, matched, j)
      invariant forall from :: from in seen <==> HasFrom(pairs, from)
    {
      var from := LeadingIndent(quoted[j]);
      if !blank(quoted[j]) && from !in seen {
        HasFromSnoc(pairs, Pair(from, LeadingIndent(matched[j])));
        seen := seen + {from};
        pairs := pairs + [Pair(from, LeadingIndent(matched[j]))];
      }
      j := j + 1;
    }
  }

  lemma HasFromSnoc(pairs: seq<Pair>, p: Pair)
    ensures forall from :: HasFrom(pairs + [p], from) <==> HasFrom(pairs, from) || from == p.from
  {
    var all := pairs + [p];
    assert all[|pairs|] == p;
    assert forall k | 0 <= k < |pairs| :: all[k] == pairs[k];
  }

  ghost predicate Descending(pairs: seq<Pair>, n: int) {
    forall a, b | 0 <= a < b < |pairs| && a < n :: |pairs[a].from| >= |pairs[b].from|
  }

  ghost predicate SamePairs(a: seq<Pair>, b: seq<Pair>) {
    |a| == |b| && (forall p :: p in a <==> p in b) && (DistinctFroms(a) ==> DistinctFroms(b))
  }

  lemma SwapKeeps(orig: seq<Pair>, pairs: seq<Pair>, i: nat, j: nat)
    requires SamePairs(orig, pairs) && i < j < |pairs|
    ensures SamePairs(orig, pairs[i := pairs[j]][j := pairs[i]])
  {
    var out := pairs[i := pairs[j]][j := pairs[i]];
    assert out[i] == pairs[j] && out[j] == pairs[i];
    forall p ensures p in pairs <==> p in out {
      if p in pairs {
        var k :| 0 <= k < |pairs| && pairs[k] == p;
        assert out[if k == i then j else if k == j then i else k] == p;
      }
    }
    assert forall k | 0 <= k < |pairs| && k != i && k != j :: out[k] == pairs[k];
  }

  /** The exchange sort: longest quoted indentation first. */
  method SortPairs(pairs0: seq<Pair>) returns (pairs: seq<Pair>)
    ensures SamePairs(pairs0, pairs) && Descending(pairs, |pairs|)
  {
    pairs := pairs0;
    for i := 0 to |pairs0|
      invariant SamePairs(pairs0, pairs) && Descending(pairs, i)
    {
      for j := i + 1 to |pairs0|
        invariant SamePairs(pairs0, pairs) && Descending(pairs, i)
        invariant forall b | i < b < j :: |pairs[i].from| >= |pairs[b].from|
      {
        if |pairs[j].from| > |pairs[i].from| {
          SwapKeeps(pairs0, pairs, i, j);
          pairs := pairs[i := pairs[j]][j := pairs[i]];
        }
      }
    }
  }

  /** Prefixes of one text with different lengths only: the first that applies in descending
      order is the longest that applies. */
  lemma FirstIsBest(orig: seq<Pair>, pairs: seq<Pair>, ws: Str, k: nat)
    requires SamePairs(orig, pairs) && DistinctFroms(orig) && Descending(pairs, |pairs|)
    requires k < |pairs| && Applies(pairs[k], ws)
    requires forall j | 0 <= j < k :: !Applies(pairs[j], ws)
    ensures Best(orig, ws) == Some(pairs[k])
  {
    var p := pairs[k];
    assert p in pairs;
    var m :| 0 <= m < |orig| && orig[m] == p;
    var best := Best(orig, ws).value;
    assert best in pairs;
    var j :| 0 <= j < |pairs| && pairs[j] == best;
    assert |p.from| <= |best.from|;
    assert |best.from| <= |p.from|;
    assert best.from == p.from;
  }

  lemma NoneIsBest(orig: seq<Pair>, pairs: seq<Pair>, ws: Str)
    requires SamePairs(orig, pairs)
    requires forall j | 0 <= j < |pairs| :: !Applies(pairs[j], ws)
    ensures Best(orig, ws) == None
  {
    forall p | p in orig ensures !Applies(p, ws) {
      assert p in pairs;
    }
  }

  method ApplyPairs(ghost orig: seq<Pair>, pairs: seq<Pair>, line: Str) returns (out: Str)
    requires SamePairs(orig, pairs) && DistinctFroms(orig) && Descending(pairs, |pairs|)
    ensures out == RenderLine(orig, line)
  {
    if line == [] { return line; }
    var ws := LeadingIndent(line);
    for k := 0 to |pairs|
      invariant forall j | 0 <= j < k :: !Applies(pairs[j], ws)
    {
      var p := pairs[k];
      if p.from == [] {
        if ws == [] {
          FirstIsBest(orig, pairs, ws, k);
          return p.to + line;
        }
      } else if p.from <= ws {
        FirstIsBest(orig, pairs, ws, k);
        return p.to + line[|p.from|..];
      }
    }
    NoneIsBest(orig, pairs, ws);
    return line;
  }

  lemma {:induction false} PairsDistinct(blank: BlankTest, quoted: seq<Str>, matched: seq<Str>, n: nat)
    requires n <= |quoted| && n <= |matched|
    ensures DistinctFroms(PairsUpTo(blank, quoted, matched, n))
  {
    if n > 0 {
      PairsDistinct(blank, quoted, matched, n - 1);
    }
  }

  /** Pairs that change nothing render a line unchanged. */
  lemma UnchangedPairs(pairs: seq<Pair>, line: Str)
    requires forall p | p in pairs :: p.from == p.to
    ensures RenderLine(pairs, line) == line
  {
    var best := Best(pairs, LeadingIndent(line));
    if best.Some? {
      assert best.value in pairs && best.value.from <= line;
      assert line == line[..|best.value.from|] + line[|best.value.from|..];
    }
  }

  method Render(content: Str, old_: Str, new_: Str, sp: Spans.Span) returns (out: Str)
    requires sp.start <= sp.end <= |content|
    ensures out == Reindented(content, old_, new_, sp)
  {
    var quoted, matched := Spans.NeedleOf(old_).lines, Split(content[sp.start..sp.end], NEWLINE);
    var pairs0 := CollectPairs(IsBlank(), quoted, matched);
    PairsDistinct(IsBlank(), quoted, matched, Min(|quoted|, |matched|));
    var pairs := SortPairs(pairs0);
    var changed := exists k | 0 <= k < |pairs| :: pairs[k].from != pairs[k].to;
    var lines := Split(new_, NEWLINE);
    if !changed {
      forall k | 0 <= k < |lines| ensures RenderLine(pairs0, lines[k]) == lines[k] {
        UnchangedPairs(pairs0, lines[k]);
      }
      assert RenderLines(pairs0, lines) == lines;
      JoinSplit(new_, NEWLINE);
      return new_;
    }
    var rendered := lines;
    for i := 0 to |lines|
      invariant |rendered| == |lines|
      invariant forall k | 0 <= k < i :: rendered[k] == RenderLine(pairs0, lines[k])
      invariant forall k | i <= k < |lines| :: rendered[k] == lines[k]
    {
      var line := ApplyPairs(pairs0, pairs, rendered[i]);
      rendered := rendered[i := line];
    }
    assert rendered == RenderLines(pairs0, lines);
    return Join(rendered, NEWLINE);
  }

  // ---------- rendering the quoted text itself ----------

  /** Equal quoted indentations always met equal file indentations. */
  ghost predicate Consistent(blank: BlankTest, quoted: seq<Str>, matched: seq<Str>)
    requires |quoted| <= |matched|
  {
    forall i, j | 0 <= i < |quoted| && 0 <= j < |quoted| && !blank(quoted[i]) && !blank(quoted[j])
      && LeadingIndent(quoted[i]) == LeadingIndent(quoted[j]) ::
        LeadingIndent(matched[i]) == LeadingIndent(matched[j])
  }

  /** The first line that showed line k's indentation taught its pair. */
  lemma {:induction false} PairLearned(blank: BlankTest, quoted: seq<Str>, matched: seq<Str>, n: nat, k: nat) returns (i: nat)
    requires k < n <= |quoted| && n <= |matched| && !blank(quoted[k])
    ensures i <= k && !blank(quoted[i]) && LeadingIndent(quoted[i]) == LeadingIndent(quoted[k])
    ensures Pair(LeadingIndent(quoted[i]), LeadingIndent(matched[i])) in PairsUpTo(blank, quoted, matched, n)
  {
    var from := LeadingIndent(quoted[k]);
    if k < n - 1 {
      i := PairLearned(blank, quoted, matched, n - 1, k);
    } else {
      var pairs := PairsUpTo(blank, quoted, matched, n - 1);
      if HasFrom(pairs, from) {
        var m :| 0 <= m < |pairs| && pairs[m].from == from;
        i := PairOrigin(blank, quoted, matched, n - 1, m);
      } else {
        i := k;
      }
    }
  }

  /** Every pair was taught by some line. */
  lemma {:induction false} PairOrigin(blank: BlankTest, quoted: seq<Str>, matched: seq<Str>, n: nat, m: nat) returns (i: nat)
    requires n <= |quoted| && n <= |matched| && m < |PairsUpTo(blank, quoted, matched, n)|
    ensures i < n && !blank(quoted[i])
    ensures PairsUpTo(blank, quoted, matched, n)[m] == Pair(LeadingIndent(quoted[i]), LeadingIndent(matched[i]))
  {
    var pairs := PairsUpTo(blank, quoted, matched, n - 1);
    if m < |pairs| {
      i := PairOrigin(blank, quoted, matched, n - 1, m);
    } else {
      i := n - 1;
    }
  }

  lemma OwnPairIsBest(pairs: seq<Pair>, p: Pair)
    requires p in pairs && DistinctFroms(pairs)
    ensures Best(pairs, p.from) == Some(p)
  {
    var best := Best(pairs, p.from);
    assert Applies(p, p.from);
    assert best.value.from <= p.from && |p.from| <= |best.value.from|;
    assert best.value.from == p.from;
  }

  /** A quoted line rendered: the file's indentation of the line that taught its pair, then
      the rest of the line as quoted. */
  lemma QuotedLineRendered(blank: BlankTest, quoted: seq<Str>, matched: seq<Str>, k: nat) returns (i: nat)
    requires |quoted| <= |matched| && k < |quoted| && !blank(quoted[k]) && quoted[k] != []
    ensures i <= k && !blank(quoted[i]) && LeadingIndent(quoted[i]) == LeadingIndent(quoted[k])
    ensures RenderLine(PairsUpTo(blank, quoted, matched, |quoted|), quoted[k])
         == LeadingIndent(matched[i]) + quoted[k][|LeadingIndent(quoted[k])|..]
  {
    var pairs := PairsUpTo(blank, quoted, matched, |quoted|);
    i := PairLearned(blank, quoted, matched, |quoted|, k);
    PairsDistinct(blank, quoted, matched, |quoted|);
    OwnPairIsBest(pairs, Pair(LeadingIndent(quoted[i]), LeadingIndent(matched[i])));
  }

  /** Indentation, then text that does not begin with any: the indentation is what leads. */
  lemma {:induction false} LeadingOf(ws: Str, rest: Str)
    requires forall b | b in ws :: IsIndent(b)
    requires rest != [] && !IsIndent(rest[0])
    ensures LeadingIndent(ws + rest) == ws
  {
    if ws == [] {
      assert ws + rest == rest;
    } else {
      assert ws[0] in ws;
      assert (ws + rest)[1..] == ws[1..] + rest;
      LeadingOf(ws[1..], rest);
    }
  }

  /** Tests that see white space as Go does, on lines that hold more than indentation. */
  ghost predicate SeesIndent(blank: BlankTest) {
    forall s :: !blank(s) ==> |LeadingIndent(s)| < |s|
  }

  lemma IsBlankSeesIndent()
    ensures SeesIndent(IsBlank())
  {
    assert TrimSpace([]) == [];
    forall s | |LeadingIndent(s)| == |s| ensures IsBlank()(s) {
      assert s == LeadingIndent(s) + [];
      TrimSkipsIndent(LeadingIndent(s), []);
    }
  }

  /** A rendered quoted line keeps its trimmed text and has the indentation of line i of the file. */
  lemma QuotedLineFacts(blank: BlankTest, quoted: seq<Str>, matched: seq<Str>, k: nat) returns (i: nat)
    requires SeesIndent(blank)
    requires |quoted| <= |matched| && k < |quoted| && !blank(quoted[k])
    ensures i <= k && !blank(quoted[i]) && LeadingIndent(quoted[i]) == LeadingIndent(quoted[k])
    ensures var out := RenderLine(PairsUpTo(blank, quoted, matched, |quoted|), quoted[k]);
            LeadingIndent(out) == LeadingIndent(matched[i]) && TrimSpace(out) == TrimSpace(quoted[k])
  {
    i := QuotedLineRendered(blank, quoted, matched, k);
    var ws, to := LeadingIndent(quoted[k]), LeadingIndent(matched[i]);
    var rest := quoted[k][|ws|..];
    LeadingOf(to, rest);
    assert quoted[k] == ws + rest;
    TrimSkipsIndent(ws, rest);
    TrimSkipsIndent(to, rest);
  }

  ghost predicate OwnIndent(blank: BlankTest, quoted: seq<Str>, matched: seq<Str>, k: int)
    requires |quoted| <= |matched| && 0 <= k < |quoted|
  {
    !blank(quoted[k]) ==>
      LeadingIndent(RenderLine(PairsUpTo(blank, quoted, matched, |quoted|), quoted[k])) == LeadingIndent(matched[k])
  }

  /** Rendering the quoted text gives every non-blank line the file's own indentation exactly
      when equal quoted indentations met equal file indentations; the trimmed text never changes. */
  lemma OwnIndentIff(blank: BlankTest, quoted: seq<Str>, matched: seq<Str>)
    requires SeesIndent(blank) && |quoted| <= |matched|
    ensures (forall k | 0 <= k < |quoted| :: OwnIndent(blank, quoted, matched, k)) <==> Consistent(blank, quoted, matched)
    ensures forall k | 0 <= k < |quoted| && !blank(quoted[k]) ::
              TrimSpace(RenderLine(PairsUpTo(blank, quoted, matched, |quoted|), quoted[k])) == TrimSpace(quoted[k])
  {
    forall k | 0 <= k < |quoted| && !blank(quoted[k])
      ensures TrimSpace(RenderLine(PairsUpTo(blank, quoted, matched, |quoted|), quoted[k])) == TrimSpace(quoted[k])
      ensures Consistent(blank, quoted, matched) ==> OwnIndent(blank, quoted, matched, k)
    {
      var i := QuotedLineFacts(blank, quoted, matched, k);
    }
    if forall k | 0 <= k < |quoted| :: OwnIndent(blank, quoted, matched, k) {
      forall i, j | 0 <= i < |quoted| && 0 <= j < |quoted| && !blank(quoted[i]) && !blank(quoted[j])
        && LeadingIndent(quoted[i]) == LeadingIndent(quoted[j])
        ensures LeadingIndent(matched[i]) == LeadingIndent(matched[j])
      {
        SameIndentRendersSame(blank, quoted, matched, i, j);
        assert OwnIndent(blank, quoted, matched, i) && OwnIndent(blank, quoted, matched, j);
      }
    }
  }

  lemma SameIndentRendersSame(blank: BlankTest, quoted: seq<Str>, matched: seq<Str>, i: nat, j: nat)
    requires SeesIndent(blank) && |quoted| <= |matched| && i < |quoted| && j < |quoted|
    requires !blank(quoted[i]) && !blank(quoted[j]) && LeadingIndent(quoted[i]) == LeadingIndent(quoted[j])
    ensures var pairs := PairsUpTo(blank, quoted, matched, |quoted|);
            LeadingIndent(RenderLine(pairs, quoted[i])) == LeadingIndent(RenderLine(pairs, quoted[j]))
  {
    var pairs := PairsUpTo(blank, quoted, matched, |quoted|);
    var a := PairLearned(blank, quoted, matched, |quoted|, i);
    PairsDistinct(blank, quoted, matched, |quoted|);
    var p := Pair(LeadingIndent(quoted[a]), LeadingIndent(matched[a]));
    OwnPairIsBest(pairs, p);
    LeadingOf(p.to, quoted[i][|p.from|..]);
    LeadingOf(p.to, quoted[j][|p.from|..]);
  }

  // ---------- whole texts ----------

  ghost predicate PairsFree(pairs: seq<Pair>) {
    forall p | p in pairs :: NEWLINE !in p.to
  }

  lemma {:induction false} LearnedPairsFree(blank: BlankTest, quoted: seq<Str>, matched: seq<Str>, n: nat)
    requires n <= |quoted| && n <= |matched|
    ensures PairsFree(PairsUpTo(blank, quoted, matched, n))
  {
    if n > 0 {
      LearnedPairsFree(blank, quoted, matched, n - 1);
    }
  }

  lemma RenderLineFree(pairs: seq<Pair>, line: Str)
    requires PairsFree(pairs) && NEWLINE !in line
    ensures NEWLINE !in RenderLine(pairs, line)
  {
    var best := Best(pairs, LeadingIndent(line));
    if best.Some? {
      assert best.value in pairs;
    }
  }

  /** A rendered text has the rendered lines. */
  lemma RenderedLines(pairs: seq<Pair>, text: Str)
    requires PairsFree(pairs)
    ensures Split(RenderText(pairs, text), NEWLINE) == RenderLines(pairs, Split(text, NEWLINE))
  {
    var lines := Split(text, NEWLINE);
    var rendered := RenderLines(pairs, lines);
    SplitFree(text, NEWLINE);
    forall line | line in rendered ensures NEWLINE !in line {
      var k :| 0 <= k < |rendered| && rendered[k] == line;
      assert lines[k] in lines;
      RenderLineFree(pairs, lines[k]);
    }
    SplitJoin(rendered, NEWLINE);
  }

  /** The quoted text rendered for a span, line by line. */
  lemma QuotedTextLines(content: Str, old_: Str, sp: Spans.Span)
    requires sp.start <= sp.end <= |content|
    requires |Spans.NeedleOf(old_).lines| <= |Split(content[sp.start..sp.end], NEWLINE)|
    ensures var quoted, matched := Spans.NeedleOf(old_).lines, Split(content[sp.start..sp.end], NEWLINE);
            var out := Split(Reindented(content, old_, old_, sp), NEWLINE);
            && |out| >= |quoted|
            && forall k | 0 <= k < |quoted| ::
                 out[k] == RenderLine(PairsUpTo(IsBlank(), quoted, matched, |quoted|), quoted[k])
  {
    var quoted, matched := Spans.NeedleOf(old_).lines, Split(content[sp.start..sp.end], NEWLINE);
    LearnedPairsFree(IsBlank(), quoted, matched, |quoted|);
    RenderedLines(PairsUpTo(IsBlank(), quoted, matched, |quoted|), old_);
  }

  /** The non-blank lines read the same apart from white space around them. */
  ghost predicate SameText(blank: BlankTest, quoted: seq<Str>, a: seq<Str>, b: seq<Str>)
    requires |quoted| <= |a| && |quoted| <= |b|
  {
    forall k | 0 <= k < |quoted| && !blank(quoted[k]) :: TrimSpace(a[k]) == TrimSpace(b[k])
  }

  ghost predicate SameIndent(blank: BlankTest, quoted: seq<Str>, a: seq<Str>, b: seq<Str>)
    requires |quoted| <= |a| && |quoted| <= |b|
  {
    forall k | 0 <= k < |quoted| && !blank(quoted[k]) :: LeadingIndent(a[k]) == LeadingIndent(b[k])
  }

  /** The quoted lines rendered (out) beside the lines of the file. */
  lemma RenderedBesideFile(blank: BlankTest, quoted: seq<Str>, file: seq<Str>, out: seq<Str>)
    requires SeesIndent(blank) && |quoted| <= |file| && |quoted| <= |out|
    requires forall k | 0 <= k < |quoted| :: out[k] == RenderLine(PairsUpTo(blank, quoted, file, |quoted|), quoted[k])
    requires forall k | 0 <= k < |quoted| :: TrimSpace(file[k]) == TrimSpace(quoted[k])
    ensures SameText(blank, quoted, out, file)
    ensures SameIndent(blank, quoted, out, file) <==> Consistent(blank, quoted, file)
  {
    OwnIndentIff(blank, quoted, file);
    if SameIndent(blank, quoted, out, file) {
      forall k | 0 <= k < |quoted| ensures OwnIndent(blank, quoted, file, k) {}
    } else {
      var k :| 0 <= k < |quoted| && !blank(quoted[k]) && LeadingIndent(out[k]) != LeadingIndent(file[k]);
      assert !OwnIndent(blank, quoted, file, k);
    }
  }
}
