/** pageLines, tools/fs/read.go: windows of a file bounded in lines and in bytes. */
module Pager {
  import opened Sequences
  import opened Bytes

  /** What one read shows. */
  datatype Page =
    | Nothing                                          // empty file
    | Beyond(offset: int, total: nat)                  // past the end
    | Truncated(prefix: Str, offset: int, length: nat) // first line alone exceeds the byte cap
    | Whole(body: Str)                                 // all of the file, no note
    | Window(body: Str, from: int, to: int, total: nat) // continue at line to + 1

  /** Bytes of the first k lines joined. */
  function Size(lines: seq<Str>, k: nat): nat
    requires k <= |lines|
  {
    if k == 0 then 0
    else Size(lines, k - 1) + |lines[k - 1]| + if k > 1 then 1 else 0
  }

  lemma {:induction false} SizeIsJoined(lines: seq<Str>, k: nat)
    requires k <= |lines|
    ensures Size(lines, k) == |Join(lines[..k], NEWLINE)|
  {
    if k > 1 {
      SizeIsJoined(lines, k - 1);
      assert lines[..k] == lines[..k - 1] + [lines[k - 1]];
      JoinConcat(lines[..k - 1], [lines[k - 1]]);
    }
  }

  /** k is the number of whole lines that fit: the most, and zero only when the first is too long. */
  ghost predicate Fits(lines: seq<Str>, byteLimit: int, k: int) {
    && 0 <= k <= |lines|
    && (k > 0 ==> |Join(lines[..k], NEWLINE)| <= byteLimit)
    && (k < |lines| ==> |Join(lines[..k + 1], NEWLINE)| > byteLimit)
  }

  /** How many lines the counting loop keeps, having kept some. */
  function MaxFit(lines: seq<Str>, byteLimit: int, kept: nat): (k: nat)
    requires kept <= |lines| && Size(lines, kept) <= byteLimit
    ensures kept <= k && Fits(lines, byteLimit, k)
    decreases |lines| - kept
  {
    SizeIsJoined(lines, kept);
    if kept == |lines| then kept
    else
      SizeIsJoined(lines, kept + 1);
      if Size(lines, kept + 1) > byteLimit then kept else MaxFit(lines, byteLimit, kept + 1)
  }

  /** The lines a read may show: at most lineLimit of them. */
  function WindowOf(lines: seq<Str>, offset: int, lineLimit: int): (window: seq<Str>)
    requires 1 <= offset <= |lines| && lineLimit >= 1
    ensures 1 <= |window| <= lineLimit
  {
    lines[offset - 1..if offset - 1 + lineLimit > |lines| then |lines| else offset - 1 + lineLimit]
  }

  function PageOf(lines: seq<Str>, offset: int, lineLimit: int, byteLimit: int): Page
    requires offset >= 1 && lineLimit >= 1 && byteLimit >= 1
  {
    var total := |lines|;
    if total == 0 then Nothing
    else if offset > total then Beyond(offset, total)
    else
      var window := WindowOf(lines, offset, lineLimit);
      var k := MaxFit(window, byteLimit, 0);
      if k == 0 then
        assert window[..1] == [window[0]];
        Truncated(window[0][..byteLimit], offset, |window[0]|)
      else if offset == 1 && k == total then Whole(Join(window[..k], NEWLINE))
      else Window(Join(window[..k], NEWLINE), offset, offset - 1 + k, total)
  }

  /** The counting loop. */
  method CountFit(window: seq<Str>, byteLimit: int) returns (kept: nat)
    requires byteLimit >= 1
    ensures kept == MaxFit(window, byteLimit, 0)
  {
    kept := 0;
    var used := 0;
    while kept < |window|
      invariant 0 <= kept <= |window|
      invariant used == Size(window, kept) <= byteLimit
      invariant MaxFit(window, byteLimit, kept) == MaxFit(window, byteLimit, 0)
    {
      var need := |window[kept]|;
      if kept > 0 { need := need + 1; }
      if used + need > byteLimit { break; }
      used := used + need;
      kept := kept + 1;
    }
  }

  /** One page of a text already split into lines. */
  method PageOfLines(lines: seq<Str>, offset: int, lineLimit: int, byteLimit: int) returns (page: Page)
    requires offset >= 1 && lineLimit >= 1 && byteLimit >= 1
    ensures page == PageOf(lines, offset, lineLimit, byteLimit)
  {
    var total := |lines|;
    if total == 0 { return Nothing; }
    if offset > total { return Beyond(offset, total); }
    var end := offset - 1 + lineLimit;
    if end > total { end := total; }
    var window := lines[offset - 1..end];
    var kept := CountFit(window, byteLimit);
    if kept == 0 {
      assert window[..1] == [window[0]];
      return Truncated(window[0][..byteLimit], offset, |window[0]|);
    }
    var body := Join(window[..kept], NEWLINE);
    var lastShown := offset - 1 + kept;
    if offset == 1 && lastShown == total { return Whole(body); }
    return Window(body, offset, lastShown, total);
  }

  method PageLines(content: Str, offset: int, lineLimit: int, byteLimit: int) returns (page: Page)
    requires offset >= 1 && lineLimit >= 1 && byteLimit >= 1
    ensures page == PageOf(Lines(content), offset, lineLimit, byteLimit)
  {
    var lines := Split(content, NEWLINE);
    var total := |lines|;
    if total > 0 && lines[total - 1] == [] { total := total - 1; }
    page := PageOfLines(lines[..total], offset, lineLimit, byteLimit);
    assert lines[..|lines|] == lines;
  }

  // ---------- following the offsets ----------

  /** What a read from an offset shows. */
  type Reading = int -> Page

  function PagesOf(lines: seq<Str>, lineLimit: int, byteLimit: int): Reading
    requires lineLimit >= 1 && byteLimit >= 1
  {
    (offset: int) => if offset >= 1 then PageOf(lines, offset, lineLimit, byteLimit) else Nothing
  }

  /** The pages a reader sees who starts at offset and continues where each page says. The
      bounds hold for every page of a text with total lines. */
  function Follow(at: Reading, total: nat, offset: int): (pages: seq<Page>)
    ensures |pages| >= 1
    decreases total + 1 - offset
  {
    var page := at(offset);
    if page.Window? && offset <= page.to <= total then [page] + Follow(at, total, page.to + 1) else [page]
  }

  /** The text a page shows, when it shows whole lines. */
  function Bodies(pages: seq<Page>): seq<Str> {
    if pages == [] then []
    else (match pages[0]
          case Whole(body) => [body]
          case Window(body, _, _, _) => [body]
          case _ => []) + Bodies(pages[1..])
  }

  ghost predicate AllFit(lines: seq<Str>, byteLimit: int) {
    forall k | 0 <= k < |lines| :: |lines[k]| <= byteLimit
  }

  ghost predicate WithinCaps(page: Page, lineLimit: int, byteLimit: int) {
    match page
    case Whole(body) => |body| <= byteLimit
    case Window(body, from, to, _) => |body| <= byteLimit && to - from + 1 <= lineLimit
    case _ => true
  }

  /** What a read from an offset within the text shows, when all lines fit: at least one whole
      line from there on, within both caps. */
  ghost predicate GoodPage(page: Page, lines: seq<Str>, offset: int, lineLimit: int, byteLimit: int)
    requires 1 <= offset <= |lines|
  {
    && (page.Whole? || page.Window?)
    && WithinCaps(page, lineLimit, byteLimit)
    && (page.Whole? ==> offset == 1 && page.body == Join(lines, NEWLINE) && |lines| <= lineLimit)
    && (page.Window? ==>
          && page.from == offset <= page.to <= |lines| == page.total
          && page.body == Join(lines[offset - 1..page.to], NEWLINE))
  }

  lemma PageFacts(lines: seq<Str>, offset: int, lineLimit: int, byteLimit: int)
    requires 1 <= offset <= |lines| && lineLimit >= 1 && byteLimit >= 1
    requires AllFit(lines, byteLimit)
    ensures GoodPage(PageOf(lines, offset, lineLimit, byteLimit), lines, offset, lineLimit, byteLimit)
  {
    var window := WindowOf(lines, offset, lineLimit);
    var k := MaxFit(window, byteLimit, 0);
    assert k > 0 by {
      assert window[..1] == [window[0]] && window[0] == lines[offset - 1];
    }
    assert window[..k] == lines[offset - 1..offset - 1 + k];
    assert offset == 1 && k == |lines| ==> lines[0..k] == lines;
  }

  /** Good pages everywhere in the text, and past its end the note that says so. */
  ghost predicate GoodReading(at: Reading, lines: seq<Str>, lineLimit: int, byteLimit: int) {
    && (forall offset | 1 <= offset <= |lines| :: GoodPage(at(offset), lines, offset, lineLimit, byteLimit))
    && at(|lines| + 1) == Beyond(|lines| + 1, |lines|)
  }

  lemma PagesAreGood(lines: seq<Str>, lineLimit: int, byteLimit: int)
    requires lines != [] && lineLimit >= 1 && byteLimit >= 1 && AllFit(lines, byteLimit)
    ensures GoodReading(PagesOf(lines, lineLimit, byteLimit), lines, lineLimit, byteLimit)
  {
    forall offset | 1 <= offset <= |lines|
      ensures GoodPage(PagesOf(lines, lineLimit, byteLimit)(offset), lines, offset, lineLimit, byteLimit)
    {
      PageFacts(lines, offset, lineLimit, byteLimit);
    }
  }

  /** Pages are contiguous and disjoint: each continues on the line after the one before. */
  ghost predicate Contiguous(pages: seq<Page>, offset: int) {
    pages != [] && pages[0].Window? ==>
      pages[0].from == offset && Contiguous(pages[1..], pages[0].to + 1)
  }

  lemma ContiguousCons(page: Page, rest: seq<Page>)
    requires page.Window? && rest != [] && Contiguous(rest, page.to + 1)
    ensures Contiguous([page] + rest, page.from)
    ensures ([page] + rest)[|rest|] == rest[|rest| - 1]
  {
    assert ([page] + rest)[1..] == rest;
  }

  /** Following the named offsets shows at most one page a line, never skips or repeats a line,
      keeps every page within both caps, and ends with the whole file or the note that says
      there is no more. */
  lemma {:induction false} FollowShape(at: Reading, lines: seq<Str>, offset: int, lineLimit: int, byteLimit: int)
    requires 1 <= offset <= |lines| + 1 && GoodReading(at, lines, lineLimit, byteLimit)
    ensures var pages := Follow(at, |lines|, offset);
            && |pages| <= |lines| + 2 - offset
            && Contiguous(pages, offset)
            && (pages[|pages| - 1].Whole? || pages[|pages| - 1] == Beyond(|lines| + 1, |lines|))
            && (forall page | page in pages :: WithinCaps(page, lineLimit, byteLimit))
    decreases |lines| + 1 - offset
  {
    if offset <= |lines| {
      var page := at(offset);
      assert GoodPage(page, lines, offset, lineLimit, byteLimit);
      if page.Window? {
        FollowShape(at, lines, page.to + 1, lineLimit, byteLimit);
        ContiguousCons(page, Follow(at, |lines|, page.to + 1));
      }
    }
  }

  /** rest shows the lines after the first done ones, to the end, in at most that many pages. */
  ghost predicate Shows(rest: seq<Page>, lines: seq<Str>, done: int)
    requires 0 <= done <= |lines|
  {
    && |Bodies(rest)| <= |lines| - done
    && if done == |lines| then Bodies(rest) == []
       else Bodies(rest) != [] && Join(Bodies(rest), NEWLINE) == Join(lines[done..], NEWLINE)
  }

  lemma ShowsMore(page: Page, rest: seq<Page>, lines: seq<Str>, done: int)
    requires page.Window? && 0 <= done < page.to <= |lines|
    requires page.body == Join(lines[done..page.to], NEWLINE)
    requires Shows(rest, lines, page.to)
    ensures Shows([page] + rest, lines, done)
  {
    var a, b := lines[done..page.to], lines[page.to..];
    assert ([page] + rest)[1..] == rest;
    assert Bodies([page] + rest) == [page.body] + Bodies(rest);
    assert lines[done..] == a + b;
    if page.to < |lines| {
      JoinConcat(a, b);
      JoinConcat([page.body], Bodies(rest));
    } else {
      assert lines[done..page.to] == lines[done..];
    }
  }

  lemma ShowsWhole(page: Page, lines: seq<Str>)
    requires page.Whole? && lines != [] && page.body == Join(lines, NEWLINE)
    ensures Shows([page], lines, 0)
  {
    assert [page][1..] == [] && Bodies([page]) == [page.body];
    assert lines[0..] == lines;
  }

  lemma ShowsNone(page: Page, lines: seq<Str>)
    requires page.Beyond?
    ensures Shows([page], lines, |lines|)
  {
    assert [page][1..] == [] && Bodies([]) == [];
  }

  /** The bodies joined by newlines are exactly the lines from the starting one on. */
  lemma {:induction false} FollowRebuilds(at: Reading, lines: seq<Str>, offset: int, lineLimit: int, byteLimit: int)
    requires lines != [] && 1 <= offset <= |lines| + 1 && GoodReading(at, lines, lineLimit, byteLimit)
    ensures Shows(Follow(at, |lines|, offset), lines, offset - 1)
    decreases |lines| + 1 - offset
  {
    var page := at(offset);
    if offset > |lines| {
      ShowsNone(page, lines);
    } else {
      assert GoodPage(page, lines, offset, lineLimit, byteLimit);
      if page.Whole? {
        ShowsWhole(page, lines);
      } else {
        FollowRebuilds(at, lines, page.to + 1, lineLimit, byteLimit);
        ShowsMore(page, Follow(at, |lines|, page.to + 1), lines, offset - 1);
      }
    }
  }

  /** Reading a whole file page by page gives the file back, minus one final newline, after at
      most one page a line, each within both caps. */
  lemma PagesRebuildFile(content: Str, lineLimit: int, byteLimit: int)
    requires Lines(content) != [] && lineLimit >= 1 && byteLimit >= 1
    requires AllFit(Lines(content), byteLimit)
    ensures var pages := Follow(PagesOf(Lines(content), lineLimit, byteLimit), |Lines(content)|, 1);
            && Join(Bodies(pages), NEWLINE) == Chomped(content)
            && |Bodies(pages)| <= |Lines(content)|
            && Contiguous(pages, 1)
            && forall page | page in pages :: WithinCaps(page, lineLimit, byteLimit)
  {
    var lines := Lines(content);
    var at := PagesOf(lines, lineLimit, byteLimit);
    PagesAreGood(lines, lineLimit, byteLimit);
    FollowShape(at, lines, 1, lineLimit, byteLimit);
    FollowRebuilds(at, lines, 1, lineLimit, byteLimit);
    assert lines[0..] == lines;
    JoinLines(content);
  }

  /** A page names no offset to continue from exactly when its first line exceeds the byte cap:
      reading then stops there, which is why rebuilding asks that all lines fit. */
  lemma LongLineStops(lines: seq<Str>, offset: int, lineLimit: int, byteLimit: int)
    requires 1 <= offset <= |lines| && lineLimit >= 1 && byteLimit >= 1
    ensures |lines[offset - 1]| > byteLimit <==> PageOf(lines, offset, lineLimit, byteLimit).Truncated?
  {
    var window := WindowOf(lines, offset, lineLimit);
    var k := MaxFit(window, byteLimit, 0);
    assert window[..1] == [window[0]] && window[0] == lines[offset - 1];
    if k > 0 {
      JoinAtLeastFirst(window[..k]);
    }
  }

  lemma JoinAtLeastFirst(parts: seq<Str>)
    requires parts != []
    ensures |Join(parts, NEWLINE)| >= |parts[0]|
  {
  }

  lemma {:induction false} JoinAtLeastEach(parts: seq<Str>, i: nat)
    requires i < |parts|
    ensures |Join(parts, NEWLINE)| >= |parts[i]|
  {
    if i > 0 {
      JoinAtLeastEach(parts[1..], i - 1);
    }
  }

  /** A page whose first line fits shows whole lines, none of them too long. */
  ghost predicate ShowsFitting(page: Page, lines: seq<Str>, offset: int, byteLimit: int)
    requires 1 <= offset <= |lines|
  {
    && (page.Whole? || page.Window?)
    && (page.Whole? ==> AllFit(lines, byteLimit))
    && (page.Window? ==>
          && offset <= page.to <= |lines|
          && page.body == Join(lines[offset - 1..page.to], NEWLINE)
          && AllFit(lines[offset - 1..page.to], byteLimit))
  }

  lemma FittingPage(lines: seq<Str>, offset: int, lineLimit: int, byteLimit: int)
    requires 1 <= offset <= |lines| && lineLimit >= 1 && byteLimit >= 1
    requires |lines[offset - 1]| <= byteLimit
    ensures ShowsFitting(PageOf(lines, offset, lineLimit, byteLimit), lines, offset, byteLimit)
  {
    var window := WindowOf(lines, offset, lineLimit);
    var k := MaxFit(window, byteLimit, 0);
    assert window[..1] == [window[0]] && window[0] == lines[offset - 1];
    assert window[..k] == lines[offset - 1..offset - 1 + k];
    assert offset == 1 && k == |lines| ==> lines[0..k] == lines;
    var shown := window[..k];
    forall i | 0 <= i < |shown| ensures |shown[i]| <= byteLimit {
      JoinAtLeastEach(shown, i);
    }
  }

  /** A line that exceeds the cap lies ahead. */
  ghost predicate LongAhead(lines: seq<Str>, offset: int, byteLimit: int)
    requires offset >= 1
  {
    exists k | offset - 1 <= k < |lines| :: |lines[k]| > byteLimit
  }

  lemma LongStaysAhead(lines: seq<Str>, offset: int, to: int, byteLimit: int)
    requires 1 <= offset <= to <= |lines| && LongAhead(lines, offset, byteLimit)
    requires AllFit(lines[offset - 1..to], byteLimit)
    ensures to < |lines| && LongAhead(lines, to + 1, byteLimit)
  {
    assert forall j | offset - 1 <= j < to :: lines[j] == lines[offset - 1..to][j - offset + 1];
  }

  /** The pages end in a cut line, and show less than there is. */
  ghost predicate StopsShort(pages: seq<Page>, rest: seq<Str>) {
    pages != [] && pages[|pages| - 1].Truncated? && |Join(Bodies(pages), NEWLINE)| < |Join(rest, NEWLINE)|
  }

  lemma StopsHere(page: Page, rest: seq<Str>, byteLimit: int)
    requires page.Truncated? && rest != [] && |rest[0]| > byteLimit >= 1
    ensures StopsShort([page], rest)
  {
    assert [page][1..] == [] && Bodies([page]) == [];
    JoinAtLeastFirst(rest);
  }

  lemma JoinBehind(body: Str, parts: seq<Str>)
    ensures |Join([body] + parts, NEWLINE)| <= |body| + 1 + |Join(parts, NEWLINE)|
  {
    if parts == [] {
      WholeAndNothing([body]);
    } else {
      JoinConcat([body], parts);
    }
  }

  lemma BodiesOfMore(page: Page, pages: seq<Page>)
    requires page.Window?
    ensures Bodies([page] + pages) == [page.body] + Bodies(pages)
  {
    assert ([page] + pages)[1..] == pages;
  }

  lemma StopsLater(page: Page, pages: seq<Page>, shown: seq<Str>, rest: seq<Str>)
    requires page.Window? && page.body == Join(shown, NEWLINE) && shown != [] && rest != []
    requires StopsShort(pages, rest)
    ensures StopsShort([page] + pages, shown + rest)
  {
    BodiesOfMore(page, pages);
    JoinConcat(shown, rest);
    JoinBehind(page.body, Bodies(pages));
  }

  /** A cut line where the line is too long, and whole lines that fit elsewhere. */
  ghost predicate HonestPage(page: Page, lines: seq<Str>, offset: int, byteLimit: int)
    requires 1 <= offset <= |lines|
  {
    if |lines[offset - 1]| > byteLimit then page.Truncated? else ShowsFitting(page, lines, offset, byteLimit)
  }

  ghost predicate HonestReading(at: Reading, lines: seq<Str>, byteLimit: int) {
    forall offset | 1 <= offset <= |lines| :: HonestPage(at(offset), lines, offset, byteLimit)
  }

  lemma PagesAreHonest(lines: seq<Str>, lineLimit: int, byteLimit: int)
    requires lineLimit >= 1 && byteLimit >= 1
    ensures HonestReading(PagesOf(lines, lineLimit, byteLimit), lines, byteLimit)
  {
    forall offset | 1 <= offset <= |lines|
      ensures HonestPage(PagesOf(lines, lineLimit, byteLimit)(offset), lines, offset, byteLimit)
    {
      LongLineStops(lines, offset, lineLimit, byteLimit);
      if |lines[offset - 1]| <= byteLimit {
        FittingPage(lines, offset, lineLimit, byteLimit);
      }
    }
  }

  /** A page of whole lines before pages that stop short. */
  lemma StopsBefore(page: Page, pages: seq<Page>, lines: seq<Str>, from: nat)
    requires page.Window? && from < page.to < |lines| && page.body == Join(lines[from..page.to], NEWLINE)
    requires StopsShort(pages, lines[page.to..])
    ensures StopsShort([page] + pages, lines[from..])
  {
    assert lines[from..] == lines[from..page.to] + lines[page.to..];
    StopsLater(page, pages, lines[from..page.to], lines[page.to..]);
  }

  /** With a too long line ahead, following the offsets ends in a cut line. */
  lemma {:induction false} FollowStops(at: Reading, lines: seq<Str>, offset: int, byteLimit: int)
    requires 1 <= offset <= |lines| && byteLimit >= 1
    requires HonestReading(at, lines, byteLimit) && LongAhead(lines, offset, byteLimit)
    ensures StopsShort(Follow(at, |lines|, offset), lines[offset - 1..])
    decreases |lines| - offset
  {
    var page := at(offset);
    assert HonestPage(page, lines, offset, byteLimit);
    if |lines[offset - 1]| > byteLimit {
      StopsHere(page, lines[offset - 1..], byteLimit);
    } else {
      LongStaysAhead(lines, offset, page.to, byteLimit);
      FollowStops(at, lines, page.to + 1, byteLimit);
      StopsBefore(page, Follow(at, |lines|, page.to + 1), lines, offset - 1);
    }
  }

  ghost predicate Rebuilds(pages: seq<Page>, content: Str) {
    Join(Bodies(pages), NEWLINE) == Chomped(content)
  }

  ghost predicate EndsCut(pages: seq<Page>) {
    pages != [] && pages[|pages| - 1].Truncated?
  }

  lemma StoppedIsNotRebuilt(pages: seq<Page>, content: Str)
    requires StopsShort(pages, Lines(content))
    ensures !Rebuilds(pages, content) && EndsCut(pages)
  {
    JoinLines(content);
  }

  lemma FittingIsRebuilt(content: Str, lineLimit: int, byteLimit: int)
    requires Lines(content) != [] && lineLimit >= 1 && byteLimit >= 1
    requires AllFit(Lines(content), byteLimit)
    ensures var pages := Follow(PagesOf(Lines(content), lineLimit, byteLimit), |Lines(content)|, 1);
            Rebuilds(pages, content) && !EndsCut(pages)
  {
    var lines := Lines(content);
    PagesRebuildFile(content, lineLimit, byteLimit);
    PagesAreGood(lines, lineLimit, byteLimit);
    FollowShape(PagesOf(lines, lineLimit, byteLimit), lines, 1, lineLimit, byteLimit);
  }

  /** Following the offsets from the first line rebuilds the file exactly when every line fits
      the byte cap; otherwise, and only then, it ends in a cut line. */
  lemma RebuiltIff(content: Str, lineLimit: int, byteLimit: int)
    requires Lines(content) != [] && lineLimit >= 1 && byteLimit >= 1
    ensures var pages := Follow(PagesOf(Lines(content), lineLimit, byteLimit), |Lines(content)|, 1);
            && (Rebuilds(pages, content) <==> AllFit(Lines(content), byteLimit))
            && (EndsCut(pages) <==> !AllFit(Lines(content), byteLimit))
  {
    var lines := Lines(content);
    if AllFit(lines, byteLimit) {
      FittingIsRebuilt(content, lineLimit, byteLimit);
    } else {
      PagesAreHonest(lines, lineLimit, byteLimit);
      FollowStops(PagesOf(lines, lineLimit, byteLimit), lines, 1, byteLimit);
      WholeAndNothing(lines);
      StoppedIsNotRebuilt(Follow(PagesOf(lines, lineLimit, byteLimit), |lines|, 1), content);
    }
  }

  // ---------- one page, told from the lines ----------

  /** The page that begins at offset ends with line to: both caps are kept, and one line more
      would break one of them. */
  ghost predicate EndsAt(lines: seq<Str>, offset: int, to: int, lineLimit: int, byteLimit: int)
    requires 1 <= offset <= |lines|
  {
    && offset <= to <= |lines| && to - offset + 1 <= lineLimit
    && |Join(lines[offset - 1..to], NEWLINE)| <= byteLimit
    && (to < |lines| && to - offset + 1 < lineLimit ==> |Join(lines[offset - 1..to + 1], NEWLINE)| > byteLimit)
  }

  ghost predicate Shown(page: Page, lines: seq<Str>, offset: int, to: int)
    requires 1 <= offset <= to <= |lines|
  {
    var body := Join(lines[offset - 1..to], NEWLINE);
    page == if offset == 1 && to == |lines| then Whole(body) else Window(body, offset, to, |lines|)
  }

  /** A page says that there is nothing, or nothing there; or it shows as many whole lines as fit,
      and where it stopped; or, where not even one line fits, as much of it as fits. */
  ghost predicate PageTold(page: Page, lines: seq<Str>, offset: int, lineLimit: int, byteLimit: int)
    requires offset >= 1
  {
    if lines == [] then page.Nothing?
    else if offset > |lines| then page == Beyond(offset, |lines|)
    else if |lines[offset - 1]| > byteLimit then
      && page.Truncated? && page.prefix <= lines[offset - 1] && |page.prefix| == byteLimit
      && page.offset == offset && page.length == |lines[offset - 1]|
    else exists to :: EndsAt(lines, offset, to, lineLimit, byteLimit) && Shown(page, lines, offset, to)
  }

  lemma PageIsTold(lines: seq<Str>, offset: int, lineLimit: int, byteLimit: int)
    requires offset >= 1 && lineLimit >= 1 && byteLimit >= 1
    ensures PageTold(PageOf(lines, offset, lineLimit, byteLimit), lines, offset, lineLimit, byteLimit)
  {
    if 1 <= offset <= |lines| {
      LongLineStops(lines, offset, lineLimit, byteLimit);
      var window := WindowOf(lines, offset, lineLimit);
      var k := MaxFit(window, byteLimit, 0);
      if k > 0 {
        var to := offset - 1 + k;
        assert window[..k] == lines[offset - 1..to];
        assert k < |window| ==> window[..k + 1] == lines[offset - 1..to + 1];
        assert EndsAt(lines, offset, to, lineLimit, byteLimit) && Shown(PageOf(lines, offset, lineLimit, byteLimit), lines, offset, to);
      }
    }
  }
}
