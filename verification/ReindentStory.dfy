/** What a re-indented replacement looks like, line by line (tools/fs/match.go reindentRenderer):
    told from the quoted lines and the file's own, without the functions that compute it. */
module ReindentStory {
  import opened Sequences
  import opened Bytes
  import opened Text
  import Spans
  import opened Reindent

  /** Line j is the first of the quoted lines that are not blank to show its indentation, and a
      line of the file stands beside it. */
  ghost predicate Teaches(quoted: seq<Str>, file: seq<Str>, j: nat) {
    && j < |quoted| && j < |file| && TrimSpace(quoted[j]) != []
    && forall i | 0 <= i < j && TrimSpace(quoted[i]) != [] :: LeadingIndent(quoted[i]) != LeadingIndent(quoted[j])
  }

  /** What line j teaches is of use for this indentation: it begins with what line j begins with. */
  ghost predicate Suits(quoted: seq<Str>, file: seq<Str>, j: nat, ws: Str) {
    && Teaches(quoted, file, j)
    && if LeadingIndent(quoted[j]) == [] then ws == [] else LeadingIndent(quoted[j]) <= ws
  }

  /** The line with the longest suitable indentation of a quoted line exchanged for the file's;
      or the line as it is, when none suits. */
  ghost predicate Indented(quoted: seq<Str>, file: seq<Str>, line: Str, out: Str) {
    var ws := LeadingIndent(line);
    if line == [] || forall j: nat :: !Suits(quoted, file, j, ws) then out == line
    else
      exists j: nat :: SuitsBest(quoted, file, j, ws) && Exchanged(LeadingIndent(quoted[j]), LeadingIndent(file[j]), line, out)
  }

  /** The line with what it begins with exchanged. */
  predicate Exchanged(from: Str, to: Str, line: Str, out: Str) {
    from <= line && out == to + line[|from|..]
  }

  ghost predicate SuitsBest(quoted: seq<Str>, file: seq<Str>, j: nat, ws: Str) {
    && Suits(quoted, file, j, ws) && LeadingIndent(quoted[j]) <= ws
    && forall i: nat :: Suits(quoted, file, i, ws) ==> |LeadingIndent(quoted[i])| <= |LeadingIndent(quoted[j])|
  }

  ghost predicate AllIndented(quoted: seq<Str>, file: seq<Str>, lines: seq<Str>, out: seq<Str>) {
    |out| == |lines| && forall k | 0 <= k < |lines| :: Indented(quoted, file, lines[k], out[k])
  }

  function TaughtBy(quoted: seq<Str>, file: seq<Str>, j: nat): Pair
    requires j < |quoted| && j < |file|
  {
    Pair(LeadingIndent(quoted[j]), LeadingIndent(file[j]))
  }

  lemma {:induction false} ShownIsKnown(quoted: seq<Str>, file: seq<Str>, n: nat, j: nat)
    requires j < n <= |quoted| && n <= |file| && TrimSpace(quoted[j]) != []
    ensures HasFrom(PairsUpTo(IsBlank(), quoted, file, n), LeadingIndent(quoted[j]))
  {
    var before := PairsUpTo(IsBlank(), quoted, file, n - 1);
    HasFromSnoc(before, TaughtBy(quoted, file, n - 1));
    if j < n - 1 {
      ShownIsKnown(quoted, file, n - 1, j);
    }
  }

  /** Every pair learned is taught by some line. */
  lemma {:induction false} PairTaught(quoted: seq<Str>, file: seq<Str>, n: nat, p: Pair) returns (j: nat)
    requires n <= |quoted| && n <= |file| && p in PairsUpTo(IsBlank(), quoted, file, n)
    ensures j < n && Teaches(quoted, file, j) && TaughtBy(quoted, file, j) == p
  {
    j := n - 1;
    if p in PairsUpTo(IsBlank(), quoted, file, j) {
      j := PairTaught(quoted, file, j, p);
    } else {
      forall i | 0 <= i < j && TrimSpace(quoted[i]) != [] ensures LeadingIndent(quoted[i]) != LeadingIndent(quoted[j]) {
        ShownIsKnown(quoted, file, j, i);
      }
    }
  }

  lemma TeachesNew(quoted: seq<Str>, file: seq<Str>, j: nat)
    requires Teaches(quoted, file, j)
    ensures !HasFrom(PairsUpTo(IsBlank(), quoted, file, j), LeadingIndent(quoted[j]))
  {
    var before := PairsUpTo(IsBlank(), quoted, file, j);
    forall m | 0 <= m < |before| ensures before[m].from != LeadingIndent(quoted[j]) {
      var i := PairOrigin(IsBlank(), quoted, file, j, m);
    }
  }

  lemma NewIsLearned(quoted: seq<Str>, file: seq<Str>, k: nat, p: Pair)
    requires k < |quoted| && k < |file|
    requires || p in PairsUpTo(IsBlank(), quoted, file, k)
             || (&& p == TaughtBy(quoted, file, k) && TrimSpace(quoted[k]) != []
                 && !HasFrom(PairsUpTo(IsBlank(), quoted, file, k), p.from))
    ensures p in PairsUpTo(IsBlank(), quoted, file, k + 1)
  {
  }

  /** What is learned from the first n lines, by n. */
  ghost function Lesson(quoted: seq<Str>, file: seq<Str>): nat -> seq<Pair> {
    (n: nat) => if n <= |quoted| && n <= |file| then PairsUpTo(IsBlank(), quoted, file, n) else []
  }

  lemma {:induction false} GrowingStays(lesson: nat -> seq<Pair>, n: nat, k: nat)
    requires k <= n && forall i: nat, j: nat | j < n && i == j + 1 :: lesson(j) <= lesson(i)
    ensures lesson(k) <= lesson(n)
  {
    if k < n {
      GrowingStays(lesson, n - 1, k);
      assert lesson(n - 1) <= lesson(n);
    }
  }

  lemma LearnedStays(quoted: seq<Str>, file: seq<Str>, n: nat, k: nat)
    requires k <= n <= |quoted| && n <= |file|
    ensures PairsUpTo(IsBlank(), quoted, file, k) <= PairsUpTo(IsBlank(), quoted, file, n)
  {
    var lesson := Lesson(quoted, file);
    forall i: nat, j: nat | j < n && i == j + 1 ensures lesson(j) <= lesson(i) {
      OneLesson(quoted, file, j);
    }
    GrowingStays(lesson, n, k);
  }

  lemma OneLesson(quoted: seq<Str>, file: seq<Str>, k: nat)
    requires k < |quoted| && k < |file|
    ensures Lesson(quoted, file)(k) <= Lesson(quoted, file)(k + 1)
  {
  }

  /** What a line teaches is learned. */
  lemma TaughtIsLearned(quoted: seq<Str>, file: seq<Str>, n: nat, j: nat)
    requires n <= |quoted| && n <= |file| && j < n && Teaches(quoted, file, j)
    ensures TaughtBy(quoted, file, j) in PairsUpTo(IsBlank(), quoted, file, n)
  {
    TeachesNew(quoted, file, j);
    NewIsLearned(quoted, file, j, TaughtBy(quoted, file, j));
    LearnedStays(quoted, file, n, j + 1);
  }

  lemma SuitedApplies(quoted: seq<Str>, file: seq<Str>, j: nat, ws: Str)
    requires Suits(quoted, file, j, ws)
    ensures TaughtBy(quoted, file, j) in PairsOf(quoted, file) && Applies(TaughtBy(quoted, file, j), ws)
  {
    TaughtIsLearned(quoted, file, Min(|quoted|, |file|), j);
  }

  /** The pair that applies best is that of the line that suits best. */
  lemma BestSuits(quoted: seq<Str>, file: seq<Str>, ws: Str) returns (j: nat)
    requires Best(PairsOf(quoted, file), ws).Some?
    ensures SuitsBest(quoted, file, j, ws) && Best(PairsOf(quoted, file), ws).value == TaughtBy(quoted, file, j)
  {
    j := PairTaught(quoted, file, Min(|quoted|, |file|), Best(PairsOf(quoted, file), ws).value);
    forall i: nat | Suits(quoted, file, i, ws) ensures |LeadingIndent(quoted[i])| <= |LeadingIndent(quoted[j])| {
      SuitedApplies(quoted, file, i, ws);
    }
  }

  lemma NoneSuits(quoted: seq<Str>, file: seq<Str>, ws: Str)
    requires Best(PairsOf(quoted, file), ws).None?
    ensures forall j: nat :: !Suits(quoted, file, j, ws)
  {
    forall j: nat ensures !Suits(quoted, file, j, ws) {
      if Suits(quoted, file, j, ws) { SuitedApplies(quoted, file, j, ws); }
    }
  }

  lemma LineIndented(quoted: seq<Str>, file: seq<Str>, line: Str)
    ensures Indented(quoted, file, line, RenderLine(PairsOf(quoted, file), line))
  {
    var ws := LeadingIndent(line);
    if Best(PairsOf(quoted, file), ws).Some? {
      var j := BestSuits(quoted, file, ws);
      assert Suits(quoted, file, j, ws);
    } else {
      NoneSuits(quoted, file, ws);
    }
  }

  /** What is put in place of a span has the lines of the replacement, each re-indented. */
  lemma FillIndented(content: Str, old_: Str, new_: Str, sp: Spans.Span)
    requires sp.start <= sp.end <= |content|
    ensures AllIndented(Spans.NeedleOf(old_).lines, Split(content[sp.start..sp.end], NEWLINE),
                        Split(new_, NEWLINE), Split(Reindented(content, old_, new_, sp), NEWLINE))
  {
    var quoted, file, lines := Spans.NeedleOf(old_).lines, Split(content[sp.start..sp.end], NEWLINE), Split(new_, NEWLINE);
    LearnedPairsFree(IsBlank(), quoted, file, Min(|quoted|, |file|));
    RenderedLines(PairsOf(quoted, file), new_);
    forall k | 0 <= k < |lines| ensures Indented(quoted, file, lines[k], RenderLine(PairsOf(quoted, file), lines[k])) {
      LineIndented(quoted, file, lines[k]);
    }
  }

  lemma {:induction false} IndentConcat(ws: Str, s: Str)
    requires forall b | b in ws :: IsIndent(b)
    ensures LeadingIndent(ws + s) == ws + LeadingIndent(s)
  {
    if ws == [] {
      assert ws + s == s;
    } else {
      assert ws[0] in ws;
      assert (ws + s)[1..] == ws[1..] + s;
      IndentConcat(ws[1..], s);
    }
  }

  lemma RestBehind(ws: Str, rest: Str)
    requires forall b | b in ws :: IsIndent(b)
    ensures (ws + rest)[|LeadingIndent(ws + rest)|..] == rest[|LeadingIndent(rest)|..]
  {
    IndentConcat(ws, rest);
  }

  lemma ExchangedIndent(from: Str, to: Str, line: Str, out: Str)
    requires Exchanged(from, to, line, out) && (forall b | b in from :: IsIndent(b)) && forall b | b in to :: IsIndent(b)
    ensures out[|LeadingIndent(out)|..] == line[|LeadingIndent(line)|..]
  {
    var rest := line[|from|..];
    assert line == from + rest;
    RestBehind(from, rest);
    RestBehind(to, rest);
  }

  /** Only the indentation of a line changes: what stands behind it is the same. */
  lemma OnlyIndentChanges(quoted: seq<Str>, file: seq<Str>, line: Str, out: Str)
    requires Indented(quoted, file, line, out)
    ensures out[|LeadingIndent(out)|..] == line[|LeadingIndent(line)|..]
  {
    if out != line {
      var j: nat :| SuitsBest(quoted, file, j, LeadingIndent(line))
                    && Exchanged(LeadingIndent(quoted[j]), LeadingIndent(file[j]), line, out);
      ExchangedIndent(LeadingIndent(quoted[j]), LeadingIndent(file[j]), line, out);
    }
  }
}
