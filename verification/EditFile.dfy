/** edit_file (tools/fs/edit.go): a file's byte-order mark and CRLF line ends are taken off for
    the edit and put back on write. */
module EditFile {
  import Sequences
  import opened Bytes
  import Spans
  import opened Splice
  import opened Ladder
  import Escapes

  const RETURN: Byte := 13

  const BOM: Str := [0xEF, 0xBB, 0xBF]

  /** What is taken off before the edit. */
  datatype Form = Form(bom: bool, crlf: bool)

  predicate CrLfAt(s: Str, i: int) {
    0 <= i && i + 1 < |s| && s[i] == RETURN && s[i + 1] == NEWLINE
  }

  ghost predicate HasCrLf(s: Str) { exists i :: CrLfAt(s, i) }

  method ContainsCrLf(s: Str) returns (found: bool)
    ensures found <==> HasCrLf(s)
  {
    for i := 0 to |s|
      invariant forall j | j < i :: !CrLfAt(s, j)
    {
      if CrLfAt(s, i) { return true; }
    }
    return false;
  }

  /** Every CR LF replaced by LF, left to right. */
  function ToLf(s: Str): Str
    decreases |s|
  {
    if s == [] then []
    else if CrLfAt(s, 0) then [NEWLINE] + ToLf(s[2..])
    else [s[0]] + ToLf(s[1..])
  }

  /** Every LF replaced by CR LF. */
  function ToCrLf(s: Str): Str {
    if s == [] then []
    else (if s[0] == NEWLINE then [RETURN, NEWLINE] else [s[0]]) + ToCrLf(s[1..])
  }

  function Body(data: Str): Str {
    if BOM <= data then data[|BOM|..] else data
  }

  ghost function FormOf(data: Str): Form { Form(BOM <= data, HasCrLf(Body(data))) }

  /** The text the edit works on. */
  ghost function Normalised(data: Str): Str {
    if HasCrLf(Body(data)) then ToLf(Body(data)) else Body(data)
  }

  function LineEnds(form: Form, text: Str): Str {
    if form.crlf then ToCrLf(text) else text
  }

  function Restored(form: Form, text: Str): Str {
    (if form.bom then BOM else []) + LineEnds(form, text)
  }

  // ---------- line ends there and back ----------

  lemma {:induction false} ToLfFree(s: Str)
    requires !HasCrLf(s)
    ensures ToLf(s) == s
  {
    if s != [] {
      assert !CrLfAt(s, 0);
      forall i ensures !CrLfAt(s[1..], i) {
        assert !CrLfAt(s, i + 1);
      }
      ToLfFree(s[1..]);
      assert s == [s[0]] + s[1..];
    }
  }

  /** The edit works on ToLf of the body whether or not there was a CR LF. */
  lemma NormalisedIsToLf(data: Str)
    ensures Normalised(data) == ToLf(Body(data))
  {
    if !HasCrLf(Body(data)) {
      ToLfFree(Body(data));
    }
  }

  lemma {:induction false} ToLfToCrLf(s: Str)
    ensures ToLf(ToCrLf(s)) == s
  {
    if s != [] {
      var t, rest := ToCrLf(s), ToCrLf(s[1..]);
      ToLfToCrLf(s[1..]);
      if s[0] == NEWLINE {
        assert CrLfAt(t, 0) && t[2..] == rest;
      } else {
        assert t[1..] == rest;
        if s[0] == RETURN && rest != [] {
          assert rest[0] == if s[1] == NEWLINE then RETURN else s[1];
        }
        assert !CrLfAt(t, 0);
      }
      assert s == [s[0]] + s[1..];
    }
  }

  /** A line end without a CR before it. */
  predicate LoneLf(s: Str, i: int) {
    0 <= i < |s| && s[i] == NEWLINE && (i == 0 || s[i - 1] != RETURN)
  }

  ghost predicate AllCrLf(s: Str) { forall i :: !LoneLf(s, i) }

  /** Going to LF and back lengthens a text by its lone line ends. */
  lemma {:induction false} ToCrLfToLf(s: Str)
    ensures |ToCrLf(ToLf(s))| >= |s|
    ensures ToCrLf(ToLf(s)) == s <==> AllCrLf(s)
    ensures !AllCrLf(s) ==> |ToCrLf(ToLf(s))| > |s|
    decreases |s|
  {
    if s == [] {
    } else if CrLfAt(s, 0) {
      ToCrLfToLf(s[2..]);
      AllCrLfDrop(s, 2);
      assert ToLf(s)[1..] == ToLf(s[2..]);
      assert s == [RETURN, NEWLINE] + s[2..];
    } else if s[0] == NEWLINE {
      assert LoneLf(s, 0);
      ToCrLfToLf(s[1..]);
      assert ToLf(s)[1..] == ToLf(s[1..]);
    } else {
      ToCrLfToLf(s[1..]);
      AllCrLfDrop(s, 1);
      assert ToLf(s)[1..] == ToLf(s[1..]);
      assert s == [s[0]] + s[1..];
    }
  }

  lemma AllCrLfDrop(s: Str, n: nat)
    requires (n == 1 && s != [] && s[0] != NEWLINE && !CrLfAt(s, 0)) || (n == 2 && CrLfAt(s, 0))
    ensures AllCrLf(s) <==> AllCrLf(s[n..])
  {
    if i :| LoneLf(s, i) {
      assert LoneLf(s[n..], i - n);
    }
    if i :| LoneLf(s[n..], i) {
      assert LoneLf(s, i + n);
    }
  }

  lemma {:induction false} ToCrLfConcat(a: Str, b: Str)
    ensures ToCrLf(a + b) == ToCrLf(a) + ToCrLf(b)
  {
    if a == [] {
      assert a + b == b;
    } else {
      assert (a + b)[1..] == a[1..] + b;
      ToCrLfConcat(a[1..], b);
      var head := if a[0] == NEWLINE then [RETURN, NEWLINE] else [a[0]];
      Sequences.Assoc(head, ToCrLf(a[1..]), ToCrLf(b));
    }
  }

  lemma LineEndsConcat(form: Form, a: Str, b: Str)
    ensures LineEnds(form, a + b) == LineEnds(form, a) + LineEnds(form, b)
  {
    ToCrLfConcat(a, b);
  }

  // ---------- the whole file ----------

  /** The line ends are all of one kind: no CR LF at all, or no LF without its CR. */
  ghost predicate Uniform(data: Str) { HasCrLf(Body(data)) ==> AllCrLf(Body(data)) }

  /** Taking the form off and putting it back gives the file back exactly when its line ends
      are uniform; otherwise it grows, every lone LF having become CR LF. */
  lemma FormRoundTrip(data: Str)
    ensures Restored(FormOf(data), Normalised(data)) == data <==> Uniform(data)
    ensures !Uniform(data) ==> |Restored(FormOf(data), Normalised(data))| > |data|
  {
    var body := Body(data);
    ToCrLfToLf(body);
    if BOM <= data {
      assert data == BOM + body;
      assert (BOM + ToCrLf(ToLf(body)))[|BOM|..] == ToCrLf(ToLf(body));
    }
  }

  lemma {:induction false} ToCrLfHasCrLf(s: Str)
    ensures HasCrLf(ToCrLf(s)) <==> NEWLINE in s
  {
    if s == [] {
    } else if s[0] == NEWLINE {
      assert CrLfAt(ToCrLf(s), 0);
    } else {
      var t, rest := ToCrLf(s), ToCrLf(s[1..]);
      ToCrLfHasCrLf(s[1..]);
      assert t[1..] == rest;
      if i :| CrLfAt(rest, i) {
        assert CrLfAt(t, i + 1);
      }
      if i :| CrLfAt(t, i) {
        CrLfNotFirst(s);
        assert CrLfAt(rest, i - 1);
      }
    }
  }

  lemma CrLfNotFirst(s: Str)
    requires s != [] && s[0] != NEWLINE
    ensures !CrLfAt(ToCrLf(s), 0)
  {
    if |s| > 1 {
      var rest := ToCrLf(s[1..]);
      assert rest[0] == if s[1] == NEWLINE then RETURN else s[1];
      assert ToCrLf(s) == [s[0]] + rest;
    }
  }

  lemma {:induction false} ToCrLfFree(s: Str)
    requires NEWLINE !in s
    ensures ToCrLf(s) == s
  {
    if s != [] {
      assert s[0] in s;
      ToCrLfFree(s[1..]);
      assert s == [s[0]] + s[1..];
    }
  }

  /** LineEnds then normalising the body. */
  lemma BodyReads(form: Form, text: Str)
    ensures (if HasCrLf(LineEnds(form, text)) then ToLf(LineEnds(form, text)) else LineEnds(form, text)) == text
            <==> form.crlf || !HasCrLf(text)
  {
    if form.crlf {
      ToLfToCrLf(text);
      ToCrLfHasCrLf(text);
      if NEWLINE !in text {
        ToCrLfFree(text);
      }
    } else if HasCrLf(text) {
      ToLfShrinks(text);
    }
  }

  lemma {:induction false} ToLfShrinks(s: Str)
    ensures |ToLf(s)| <= |s|
    ensures HasCrLf(s) ==> |ToLf(s)| < |s|
    decreases |s|
  {
    if s != [] {
      if CrLfAt(s, 0) {
        ToLfShrinks(s[2..]);
      } else {
        ToLfShrinks(s[1..]);
        if i :| CrLfAt(s, i) {
          assert CrLfAt(s[1..], i - 1);
        }
      }
    }
  }

  lemma {:induction false} ToCrLfKeepsBom(text: Str)
    ensures BOM <= ToCrLf(text) <==> BOM <= text
  {
    var t := ToCrLf(text);
    if BOM <= text {
      assert text == BOM + text[3..];
      ToCrLfConcat(BOM, text[3..]);
      ToCrLfFree(BOM);
    }
    if BOM <= t {
      FirstBytes(BOM, text);
    }
  }

  lemma {:induction false} FirstBytes(p: Str, text: Str)
    requires p <= ToCrLf(text) && NEWLINE !in p && RETURN !in p
    ensures p <= text
  {
    if p != [] {
      var t := ToCrLf(text);
      assert p[0] in p && t[0] == p[0];
      assert t == [text[0]] + ToCrLf(text[1..]);
      assert p[1..] <= t[1..];
      FirstBytes(p[1..], text[1..]);
      assert p == [p[0]] + p[1..] && text == [text[0]] + text[1..];
    }
  }

  /** Reading a written file again gives the edited text, except where the text itself begins
      with a mark or holds a CR LF that the form did not account for. */
  lemma WrittenReadsBack(form: Form, text: Str)
    ensures Normalised(Restored(form, text)) == text
            <==> (form.bom || !(BOM <= text)) && (form.crlf || !HasCrLf(text))
  {
    var ends, data := LineEnds(form, text), Restored(form, text);
    ToCrLfKeepsBom(text);
    BodyReads(form, text);
    if form.bom {
      assert data[|BOM|..] == ends;
    } else {
      assert data == ends;
      if BOM <= text {
        MarkIsLost(form, text);
      }
    }
  }

  lemma MarkIsLost(form: Form, text: Str)
    requires BOM <= text && !form.bom
    ensures |Normalised(Restored(form, text))| < |text|
  {
    var rest := text[|BOM|..];
    assert text == BOM + rest;
    LineEndsConcat(form, BOM, rest);
    ToCrLfFree(BOM);
    var data := Restored(form, text);
    assert data == BOM + LineEnds(form, rest);
    assert Body(data) == LineEnds(form, rest);
    NormalisedIsToLf(data);
    ToLfToCrLf(rest);
    ToLfShrinks(rest);
  }

  // ---------- editing the file ----------

  datatype Failure =
    | NothingQuoted
    | NothingToChange
    | FileTooLarge
    | Placeholder
    | NoEdit(error: EditError)
    | ResultTooLarge

  datatype FileResult = Written(bytes: Str, outcome: Outcome) | Failed(failure: Failure)

  /** What an edit of a readable file may answer. */
  ghost predicate Edited(data: Str, old_: Str, new_: Str, all: bool, max: int, lazy: Str -> bool, res: FileResult) {
    if old_ == [] then res == Failed(NothingQuoted)
    else if old_ == new_ then res == Failed(NothingToChange)
    else if |data| > max then res == Failed(FileTooLarge)
    else if lazy(new_) && !lazy(old_) then res == Failed(Placeholder)
    else
      exists edit :: Repaired(Normalised(data), ToLf(old_), ToLf(new_), all, edit) && WrittenAs(data, max, edit, res)
  }

  ghost predicate WrittenAs(data: Str, max: int, edit: EditResult, res: FileResult) {
    match edit
    case Refused(error) => res == Failed(NoEdit(error))
    case Applied(text, outcome) =>
      var bytes := Restored(FormOf(data), text);
      res == if |bytes| > max then Failed(ResultTooLarge) else Written(bytes, outcome)
  }

  method Edit(data: Str, old_: Str, new_: Str, all: bool, max: int, lazy: Str -> bool) returns (res: FileResult)
    ensures Edited(data, old_, new_, all, max, lazy, res)
  {
    if old_ == [] { return Failed(NothingQuoted); }
    if old_ == new_ { return Failed(NothingToChange); }
    if |data| > max { return Failed(FileTooLarge); }
    if lazy(new_) && !lazy(old_) { return Failed(Placeholder); }
    var content := data;
    var hadBom := BOM <= content;
    if hadBom {
      content := content[|BOM|..];
    }
    var hadCrLf := ContainsCrLf(content);
    if hadCrLf {
      content := ToLf(content);
    }
    var edit := ApplyLadderEdit(content, ToLf(old_), ToLf(new_), all);
    if edit.Refused? {
      assert WrittenAs(data, max, edit, Failed(NoEdit(edit.error)));
      return Failed(NoEdit(edit.error));
    }
    var updated := edit.text;
    if hadCrLf {
      updated := ToCrLf(updated);
    }
    if hadBom {
      updated := BOM + updated;
    }
    assert updated == Restored(FormOf(data), edit.text);
    res := if |updated| > max then Failed(ResultTooLarge) else Written(updated, edit.outcome);
    assert WrittenAs(data, max, edit, res);
  }

  // ---------- what is kept on disk ----------

  function AllLineEnds(form: Form, parts: seq<Str>): (r: seq<Str>)
    ensures |r| == |parts|
  {
    seq(|parts|, k requires 0 <= k < |parts| => LineEnds(form, parts[k]))
  }

  lemma {:induction false} LineEndsInterleave(form: Form, gaps: seq<Str>, fills: seq<Str>)
    requires |gaps| == |fills| + 1
    ensures LineEnds(form, Interleave(gaps, fills)) == Interleave(AllLineEnds(form, gaps), AllLineEnds(form, fills))
  {
    if fills != [] {
      var rest := Interleave(gaps[1..], fills[1..]);
      LineEndsInterleave(form, gaps[1..], fills[1..]);
      assert AllLineEnds(form, gaps)[1..] == AllLineEnds(form, gaps[1..]);
      assert AllLineEnds(form, fills)[1..] == AllLineEnds(form, fills[1..]);
      LineEndsConcat(form, gaps[0], fills[0] + rest);
      LineEndsConcat(form, fills[0], rest);
    }
  }

  /** A tool argument as the successful climb used it. */
  ghost function Argument(arg: Str, unescaped: bool): Str {
    if unescaped then Escapes.RepairOverEscaping(ToLf(arg)) else ToLf(arg)
  }

  /** The mark in front, then the parts with the file's line ends. */
  function OnDisk(form: Form, gaps: seq<Str>, fills: seq<Str>): Str
    requires |gaps| == |fills| + 1
  {
    (if form.bom then BOM else []) + Interleave(AllLineEnds(form, gaps), AllLineEnds(form, fills))
  }

  lemma RestoredOnDisk(form: Form, gaps: seq<Str>, fills: seq<Str>)
    requires |gaps| == |fills| + 1
    ensures Restored(form, Interleave(gaps, fills)) == OnDisk(form, gaps, fills)
  {
    LineEndsInterleave(form, gaps, fills);
  }

  lemma WrittenClimb(data: Str, old_: Str, new_: Str, all: bool, max: int, lazy: Str -> bool, res: FileResult)
    returns (edit: EditResult)
    requires Edited(data, old_, new_, all, max, lazy, res) && res.Written?
    ensures edit.Applied? && edit.outcome == res.outcome && res.bytes == Restored(FormOf(data), edit.text)
    ensures var u := res.outcome.unescaped;
            Climbed(Normalised(data), Argument(old_, u), Argument(new_, u), all, u, edit)
  {
    edit :| Repaired(Normalised(data), ToLf(old_), ToLf(new_), all, edit) && WrittenAs(data, max, edit, res);
  }

  /** On disk too an edit replaces the found spans and keeps the bytes between them; that the
      file was made of those same bytes holds exactly when its line ends were uniform. */
  lemma OutsideKeptOnDisk(data: Str, old_: Str, new_: Str, all: bool, max: int, lazy: Str -> bool, res: FileResult)
    requires Edited(data, old_, new_, all, max, lazy, res) && res.Written?
    ensures var st, u := res.outcome.strategy, res.outcome.unescaped;
            var content, form := Normalised(data), FormOf(data);
            var spans := SpansFor(st, content, Argument(old_, u));
            && Spans.Ordered(spans, 0, |content|)
            && var gaps, fills := Gaps(content, 0, spans), FillsFor(st, content, Argument(old_, u), Argument(new_, u));
               && res.bytes == OnDisk(form, gaps, fills)
               && FillsTold(st, content, Argument(old_, u), Argument(new_, u), spans, fills)
               && (data == OnDisk(form, gaps, Spans.Texts(content, spans)) <==> Uniform(data))
  {
    var edit := WrittenClimb(data, old_, new_, all, max, lazy, res);
    var st, u := res.outcome.strategy, res.outcome.unescaped;
    var content, form := Normalised(data), FormOf(data);
    var quoted, text := Argument(old_, u), Argument(new_, u);
    var spans := SpansFor(st, content, quoted);
    SpansForOrdered(st, content, quoted);
    EditReplacesWhatAgrees(content, quoted, text, all, u, edit);
    RestoredOnDisk(form, Gaps(content, 0, spans), FillsFor(st, content, quoted, text));
    RestoredOnDisk(form, Gaps(content, 0, spans), Spans.Texts(content, spans));
    FormRoundTrip(data);
  }

  /** The single span a written file differs in. */
  ghost predicate SingleSpan(data: Str, old_: Str, new_: Str, o: Outcome, sp: Spans.Span, fill: Str) {
    var content, quoted := Normalised(data), Argument(old_, o.unescaped);
    && sp.start <= sp.end <= |content|
    && SpansFor(o.strategy, content, quoted) == [sp]
    && Agrees(o.strategy, content, quoted, sp)
    && FillTold(o.strategy, content, quoted, Argument(new_, o.unescaped), sp, fill)
  }

  lemma SingleWritten(data: Str, old_: Str, new_: Str, max: int, lazy: Str -> bool, res: FileResult)
    returns (sp: Spans.Span, fill: Str)
    requires Edited(data, old_, new_, false, max, lazy, res) && res.Written?
    ensures SingleSpan(data, old_, new_, res.outcome, sp, fill)
    ensures var content := Normalised(data);
            res.bytes == Restored(FormOf(data), content[..sp.start] + fill + content[sp.end..])
  {
    var edit := WrittenClimb(data, old_, new_, false, max, lazy, res);
    var u := res.outcome.unescaped;
    sp, fill := SingleEdit(Normalised(data), Argument(old_, u), Argument(new_, u), u, edit);
  }

  lemma CutAt(content: Str, i: nat, j: nat)
    requires i <= j <= |content|
    ensures content == content[..i] + content[i..j] + content[j..]
  {
  }

  /** Without replace_all, in a file with uniform line ends, one stretch of bytes is replaced:
      what the rung accepted as the quoted text; every other byte of the file is kept. */
  lemma SingleEditOnDisk(data: Str, old_: Str, new_: Str, max: int, lazy: Str -> bool, res: FileResult)
    returns (sp: Spans.Span, fill: Str, before: Str, after: Str)
    requires Edited(data, old_, new_, false, max, lazy, res) && res.Written? && Uniform(data)
    ensures SingleSpan(data, old_, new_, res.outcome, sp, fill)
    ensures data == before + LineEnds(FormOf(data), Normalised(data)[sp.start..sp.end]) + after
    ensures res.bytes == before + LineEnds(FormOf(data), fill) + after
  {
    sp, fill := SingleWritten(data, old_, new_, max, lazy, res);
    var content, form := Normalised(data), FormOf(data);
    var a, b, c := content[..sp.start], content[sp.start..sp.end], content[sp.end..];
    before, after := (if form.bom then BOM else []) + LineEnds(form, a), LineEnds(form, c);
    FormRoundTrip(data);
    CutAt(content, sp.start, sp.end);
    RestoredParts(form, a, b, c);
    RestoredParts(form, a, fill, c);
  }

  lemma RestoredParts(form: Form, a: Str, b: Str, c: Str)
    ensures Restored(form, a + b + c)
         == (if form.bom then BOM else []) + LineEnds(form, a) + LineEnds(form, b) + LineEnds(form, c)
  {
    LineEndsConcat(form, a + b, c);
    LineEndsConcat(form, a, b);
  }
}
