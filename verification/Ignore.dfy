/** IgnoreMatcher, tools/fs/ignore.go: which paths the .gitignore files of a tree exclude. */
module Ignore {
  import opened Sequences
  import opened GlobRegex
  import GlobTheorem
  import GlobStars

  datatype Rule = Rule(re: Regex, negate: bool, dirOnly: bool, baseOnly: bool)

  /** The world outside: file contents by directory, and the regexp package's classes. */
  datatype World = World(
    gitignore: string -> Option<string>, // scope directory to the content of its .gitignore
    classes: Classes,
    classCompiles: string -> bool)

  // ---------- patterns ----------

  predicate Blank(c: char) { c == ' ' || c == '\t' || c == '\r' }

  function TrimRight(line: string): (t: string)
    ensures t <= line && (t != "" ==> !Blank(t[|t| - 1]))
    ensures forall k | |t| <= k < |line| :: Blank(line[k])
  {
    if line != "" && Blank(line[|line| - 1]) then TrimRight(line[..|line| - 1]) else line
  }

  predicate Compiles(w: World, r: Regex) {
    match r
    case One(InClass(body)) => w.classCompiles(body)
    case Cat(a, b) => Compiles(w, a) && Compiles(w, b)
    case Star(body) => Compiles(w, body)
    case _ => true
  }

  /** parseIgnorePattern: None for blank lines, comments, and patterns that do not compile. */
  method ParseIgnorePattern(w: World, line: string) returns (r: Option<Rule>)
    ensures r == RuleOf(w, line)
  {
    var l := TakeApart(line);
    if l.None? { return None; }
    var anchored := l.value.rooted || '/' in l.value.glob;
    var pieces := GlobToRegexp(l.value.glob);
    var re := Concat(pieces);
    if !Compiles(w, re) { return None; }
    return Some(Rule(re, l.value.negate, l.value.dirOnly, !anchored));
  }

  /** The part of it that reads the line. */
  method TakeApart(line0: string) returns (r: Option<Line>)
    ensures r == Parted(line0)
  {
    var line := TrimRight(line0);
    var padding := line0[|line|..];
    if line == "" || line[0] == '#' { return None; }
    var negate, dirOnly := false, false;
    if line[0] == '!' {
      negate := true;
      line := line[1..];
    }
    if line != "" && line[|line| - 1] == '/' {
      dirOnly := true;
      line := line[..|line| - 1];
    }
    var rooted := line != "" && line[0] == '/';
    if rooted { line := line[1..]; }
    if line == "" { return None; }
    return Some(Line(negate, rooted, line, dirOnly, padding));
  }

  /** The parts of an ignore line: an exclamation mark, a leading slash, the pattern, a slash
      that asks for a directory, and white space at the end. */
  datatype Line = Line(negate: bool, rooted: bool, glob: string, dirOnly: bool, padding: string)

  /** A slash in front or inside ties a pattern to the directory of its file. */
  predicate Anchored(l: Line) { l.rooted || '/' in l.glob }

  function DropFirst(text: string, c: char): (r: (bool, string)) {
    if text != "" && text[0] == c then (true, text[1..]) else (false, text)
  }

  function DropLast(text: string, c: char): (r: (bool, string)) {
    if text != "" && text[|text| - 1] == c then (true, text[..|text| - 1]) else (false, text)
  }

  /** A line taken apart; None for blank lines, comments and empty patterns. */
  function Parted(line: string): Option<Line> {
    PartedText(TrimRight(line), line[|TrimRight(line)|..])
  }

  function PartedText(text: string, padding: string): Option<Line> {
    if text == "" || text[0] == '#' then None
    else
      var (negate, body) := DropFirst(text, '!');
      var (dirOnly, tail) := DropLast(body, '/');
      var (rooted, glob) := DropFirst(tail, '/');
      if glob == "" then None else Some(Line(negate, rooted, glob, dirOnly, padding))
  }

  function RuleOf(w: World, line0: string): Option<Rule> {
    match Parted(line0)
    case None => None
    case Some(l) =>
      if Compiles(w, RegexOf(l.glob)) then Some(Rule(RegexOf(l.glob), l.negate, l.dirOnly, !Anchored(l))) else None
  }

  function RulesOf(w: World, lines: seq<string>): seq<Rule> {
    if lines == [] then []
    else (match RuleOf(w, lines[0]) case None => [] case Some(r) => [r]) + RulesOf(w, lines[1..])
  }

  method ParseIgnoreFile(w: World, content: string) returns (rules: seq<Rule>)
    ensures rules == RulesOf(w, Split(content, '\n'))
  {
    var lines := Split(content, '\n');
    rules := [];
    for i := 0 to |lines|
      invariant rules + RulesOf(w, lines[i..]) == RulesOf(w, lines)
    {
      ghost var rest := RulesOf(w, lines[i + 1..]);
      assert lines[i..][0] == lines[i] && lines[i..][1..] == lines[i + 1..];
      var r := ParseIgnorePattern(w, lines[i]);
      if r.Some? {
        Shift(rules, r.value, rest);
        rules := rules + [r.value];
      } else {
        assert RulesOf(w, lines[i..]) == rest;
      }
    }
  }

  function ScopeRules(w: World, scope: string): seq<Rule> {
    match w.gitignore(scope)
    case None => []
    case Some(content) => RulesOf(w, Split(content, '\n'))
  }

  // ---------- paths ----------

  // A path relative to the root is a sequence of names.

  type Path = seq<string>

  function Text(path: Path): string { Join(path, '/') }

  function Base(path: Path): string {
    if path == [] then "." else path[|path| - 1]
  }

  predicate RuleMatches(w: World, r: Rule, sub: Path) {
    Matches(w.classes, r.re, if r.baseOnly then Base(sub) else Text(sub))
  }

  predicate Applies(w: World, r: Rule, sub: Path, isDir: bool) {
    (isDir || !r.dirOnly) && RuleMatches(w, r, sub)
  }

  /** How one rule judges a path. */
  datatype Hit = Hit(applies: bool, negate: bool)

  function HitOf(w: World, r: Rule, sub: Path, isDir: bool): Hit {
    Hit(Applies(w, r, sub, isDir), r.negate)
  }

  /** The judgements of one scope's rules on what is left of the path below the scope. */
  function Scoped(w: World, path: Path, depth: nat, isDir: bool): seq<Hit>
    requires depth <= |path|
  {
    var rules := ScopeRules(w, Text(path[..depth]));
    seq(|rules|, i requires 0 <= i < |rules| => HitOf(w, rules[i], path[depth..], isDir))
  }

  /** The judgements of the first scopes from the root down, nearest last. */
  function Governing(w: World, path: Path, scopes: nat, isDir: bool): seq<Hit>
    requires scopes <= |path|
  {
    if scopes == 0 then [] else Governing(w, path, scopes - 1, isDir) + Scoped(w, path, scopes - 1, isDir)
  }

  /** The verdict after all the rules, last match wins. */
  function Verdict(hits: seq<Hit>): bool {
    if hits == [] then false
    else if hits[|hits| - 1].applies then !hits[|hits| - 1].negate
    else Verdict(hits[..|hits| - 1])
  }

  /** The scopes that govern a path are the root and every proper ancestor. */
  function PathIgnored(w: World, path: Path, isDir: bool): bool {
    Verdict(Governing(w, path, |path|, isDir))
  }

  ghost predicate LastHit(hits: seq<Hit>, i: int)
    requires 0 <= i < |hits|
  {
    hits[i].applies && forall j | i < j < |hits| :: !hits[j].applies
  }

  /** The last rule that applies decides, and without one the path is kept. */
  lemma {:induction false} LastMatchDecides(hits: seq<Hit>)
    ensures Verdict(hits) <==> exists i | 0 <= i < |hits| :: LastHit(hits, i) && !hits[i].negate
  {
    if hits != [] {
      var n := |hits| - 1;
      var init := hits[..n];
      LastMatchDecides(init);
      if hits[n].applies {
        assert LastHit(hits, n);
        assert forall i | 0 <= i < n :: !LastHit(hits, i);
      } else {
        assert forall i | 0 <= i < n :: LastHit(hits, i) <==> LastHit(init, i);
      }
    }
  }

  /** Whether a path is ignored on its own account. */
  type Judge = (Path, bool) -> bool

  function OwnJudge(w: World): Judge {
    (path: Path, isDir: bool) => PathIgnored(w, path, isDir)
  }

  /** Ignored itself, or through an ignored ancestor directory. */
  predicate IgnoredBy(own: Judge, path: Path, isDir: bool) {
    path != [] && (own(path, isDir) || exists i | 1 <= i < |path| :: own(path[..i], true))
  }

  predicate IgnoredPath(w: World, path: Path, isDir: bool) {
    IgnoredBy(OwnJudge(w), path, isDir)
  }

  /** No ancestor directory above depth n is ignored. */
  predicate NoneAbove(own: Judge, path: Path, n: int) {
    forall i | 1 <= i < n && i <= |path| :: !own(path[..i], true)
  }

  lemma NoneAboveNext(own: Judge, path: Path, i: nat)
    requires NoneAbove(own, path, i) && 1 <= i <= |path| && !own(path[..i], true)
    ensures NoneAbove(own, path, i + 1)
  {
  }

  lemma IgnoredFromAbove(own: Judge, path: Path, i: nat, isDir: bool)
    requires 1 <= i < |path| && own(path[..i], true)
    ensures IgnoredBy(own, path, isDir)
  {
  }

  lemma IgnoredOnItsOwn(own: Judge, path: Path, isDir: bool)
    requires path != [] && NoneAbove(own, path, |path|)
    ensures IgnoredBy(own, path, isDir) <==> own(path, isDir)
  {
  }

  /** An ignored directory makes everything beneath it ignored. */
  lemma IgnoredBelow(own: Judge, dir: Path, more: Path, isDir: bool)
    requires IgnoredBy(own, dir, true) && more != []
    ensures IgnoredBy(own, dir + more, isDir)
  {
    var path := dir + more;
    if own(dir, true) {
      assert path[..|dir|] == dir;
    } else {
      var i :| 1 <= i < |dir| && own(dir[..i], true);
      assert path[..i] == dir[..i];
    }
  }

  // ---------- cleaning ----------

  /** path.Clean on names: empty names and single dots vanish, a double dot drops the name before it. */
  function CleanNames(names: seq<string>, rooted: bool): Path {
    if names == [] then []
    else
      var before := CleanNames(names[..|names| - 1], rooted);
      var name := names[|names| - 1];
      if name == "" || name == "." then before
      else if name != ".." then before + [name]
      else if before != [] && before[|before| - 1] != ".." then before[..|before| - 1]
      else if rooted then before
      else before + [".."]
  }

  /** A raw relative path as the names it is judged by. */
  function Cleaned(rel: string): Path {
    CleanNames(Split(rel, '/'), rel != "" && rel[0] == '/')
  }

  ghost predicate IsName(s: string) {
    s != "" && '/' !in s && s != "." && s != ".."
  }

  lemma {:induction false} CleanNamesKept(names: seq<string>, rooted: bool)
    requires forall n | n in names :: IsName(n)
    ensures CleanNames(names, rooted) == names
  {
    if names != [] {
      var init := names[..|names| - 1];
      assert names[|names| - 1] in names && forall n | n in init :: n in names;
      CleanNamesKept(init, rooted);
    }
  }

  /** A path already clean is judged as it stands. */
  lemma CleanPathKept(path: Path)
    requires path != [] && forall n | n in path :: IsName(n)
    ensures Cleaned(Text(path)) == path
  {
    SplitJoin(path, '/');
    CleanNamesKept(path, Text(path) != "" && Text(path)[0] == '/');
  }

  // ---------- what a line means ----------

  function Mark(present: bool, c: char): string { if present then [c] else "" }

  function Body(l: Line): string { Mark(l.rooted, '/') + l.glob + Mark(l.dirOnly, '/') }

  function Shown(l: Line): string { Mark(l.negate, '!') + Body(l) + l.padding }

  /** The parts are as large as they can be, and the line is no comment. */
  predicate WellParted(l: Line) {
    && l.glob != ""
    && (!l.rooted ==> l.glob[0] != '/' && (!l.negate ==> l.glob[0] != '#' && l.glob[0] != '!'))
    && (!l.dirOnly ==> l.glob[|l.glob| - 1] != '/' && !Blank(l.glob[|l.glob| - 1]))
    && forall k | 0 <= k < |l.padding| :: Blank(l.padding[k])
  }

  lemma {:induction false} TrimRightOf(text: string, padding: string)
    requires text != "" && !Blank(text[|text| - 1]) && forall k | 0 <= k < |padding| :: Blank(padding[k])
    ensures TrimRight(text + padding) == text
    decreases |padding|
  {
    var line := text + padding;
    if padding == "" {
      assert line == text;
    } else {
      var n := |padding| - 1;
      assert line[..|line| - 1] == text + padding[..n];
      TrimRightOf(text, padding[..n]);
    }
  }

  lemma DropFirstOf(c: char, present: bool, rest: string)
    requires present || rest == "" || rest[0] != c
    ensures DropFirst(Mark(present, c) + rest, c) == (present, rest)
  {
    var text := Mark(present, c) + rest;
    assert present ==> text[1..] == rest;
    assert !present ==> text == rest;
  }

  lemma DropLastOf(c: char, present: bool, rest: string)
    requires present || rest == "" || rest[|rest| - 1] != c
    ensures DropLast(rest + Mark(present, c), c) == (present, rest)
  {
    var text := rest + Mark(present, c);
    assert present ==> text[..|text| - 1] == rest;
    assert !present ==> text == rest;
  }

  lemma BodyEnds(l: Line)
    requires WellParted(l)
    ensures Body(l) != "" && !Blank(Body(l)[|Body(l)| - 1])
    ensures !l.negate ==> Body(l)[0] != '#' && Body(l)[0] != '!'
    ensures !l.dirOnly ==> (Mark(l.rooted, '/') + l.glob)[|Mark(l.rooted, '/') + l.glob| - 1] != '/'
  {
  }

  lemma PartedTextOf(l: Line)
    requires WellParted(l)
    ensures PartedText(Mark(l.negate, '!') + Body(l), l.padding) == Some(l)
  {
    BodyEnds(l);
    DropFirstOf('!', l.negate, Body(l));
    DropLastOf('/', l.dirOnly, Mark(l.rooted, '/') + l.glob);
    DropFirstOf('/', l.rooted, l.glob);
  }

  /** A line is read as the parts it was put together from. */
  lemma PartedShown(l: Line)
    requires WellParted(l)
    ensures Parted(Shown(l)) == Some(l)
  {
    BodyEnds(l);
    var text := Mark(l.negate, '!') + Body(l);
    TrimRightOf(text, l.padding);
    assert (text + l.padding)[|text|..] == l.padding;
    PartedTextOf(l);
  }

  lemma DropFirstBack(text: string, c: char)
    ensures var (present, rest) := DropFirst(text, c);
            text == Mark(present, c) + rest && (present || rest == "" || rest[0] != c)
  {
  }

  lemma DropLastBack(text: string, c: char)
    ensures var (present, rest) := DropLast(text, c);
            text == rest + Mark(present, c) && (present || rest == "" || rest[|rest| - 1] != c)
  {
  }

  lemma TextRejoins(text: string, padding: string)
    requires PartedText(text, padding).Some?
    ensures var l := PartedText(text, padding).value; text == Mark(l.negate, '!') + Body(l) && l.padding == padding
  {
    var (negate, body) := DropFirst(text, '!');
    var (dirOnly, tail) := DropLast(body, '/');
    DropFirstBack(text, '!');
    DropLastBack(body, '/');
    DropFirstBack(tail, '/');
  }

  lemma PartsAreLarge(text: string, padding: string)
    requires PartedText(text, padding).Some? && !Blank(text[|text| - 1])
    requires forall k | 0 <= k < |padding| :: Blank(padding[k])
    ensures WellParted(PartedText(text, padding).value)
  {
    var (negate, body) := DropFirst(text, '!');
    var (dirOnly, tail) := DropLast(body, '/');
    var (rooted, glob) := DropFirst(tail, '/');
    assert glob[|glob| - 1] == tail[|tail| - 1];
    assert !dirOnly ==> tail[|tail| - 1] == text[|text| - 1];
    assert !rooted ==> tail[0] == body[0];
  }

  /** Every line that can be taken apart is put together from its parts. */
  lemma ShownParted(line: string)
    requires Parted(line).Some?
    ensures WellParted(Parted(line).value) && Shown(Parted(line).value) == line
  {
    var text := TrimRight(line);
    var padding := line[|text|..];
    assert line == text + padding;
    assert forall k | 0 <= k < |padding| :: padding[k] == line[|text| + k];
    TextRejoins(text, padding);
    PartsAreLarge(text, padding);
  }

  /** The regexp package accepts every class of the pattern. */
  ghost predicate ClassesCompile(w: World, glob: string) {
    forall body | body in ClassBodies(glob) ::
      w.classCompiles(if body != "" && body[0] == '!' then "^" + body[1..] else body)
  }

  /** What the first piece consumes holds its class, if any, and no other. */
  lemma ClassesBehind(glob: string)
    requires glob != ""
    ensures var n := FirstPiece(glob).1;
            ClassBodies(glob) == (if OpensClass(glob) then [Bracketed(glob)] else []) + ClassBodies(glob[n..])
  {
    var n := FirstPiece(glob).1;
    if !OpensClass(glob) && n > 1 {
      assert glob[..n] == if n == 3 then "**/" else "**";
      ClassesBeyond(glob, n);
    }
  }

  lemma {:induction false} ClassesDecide(w: World, glob: string)
    requires ClassesCompile(w, glob)
    ensures Compiles(w, RegexOf(glob))
    decreases |glob|
  {
    if glob != "" {
      var (piece, n) := FirstPiece(glob);
      ClassesBehind(glob);
      ClassesDecide(w, glob[n..]);
      assert OpensClass(glob) ==> Bracketed(glob) in ClassBodies(glob);
      assert Compiles(w, piece) by {
        assert Compiles(w, SEGMENT) && Compiles(w, One(Exactly('/')));
        assert Compiles(w, Cat(SEGMENT, One(Exactly('/'))));
      }
      assert Pieces(glob)[0] == piece && Pieces(glob)[1..] == Pieces(glob[n..]);
      assert RegexOf(glob) == Cat(piece, RegexOf(glob[n..]));
    }
  }

  /** Patterns that mean what they mean to git: without classes, when their double stars do; or on
      names without newlines, when no class reaches across a slash and no segment but a whole
      double star ends in one. */
  ghost predicate Understood(w: World, glob: string, names: Path) {
    && ClassesCompile(w, glob)
    && (|| ('[' !in glob && GlobStars.GitStars(Split(glob, '/')))
        || (Sound(w.classes, glob) && forall n | n in names :: '\n' !in n))
  }

  /** What a line means for a clean path: an anchored pattern is matched against the names from
      the scope down, any other against the base name alone, both as git matches; a pattern that
      ends in a slash applies to directories only; and an exclamation mark re-includes. */
  lemma LineMeaning(w: World, l: Line, path: Path, isDir: bool)
    requires WellParted(l) && Understood(w, l.glob, path)
    requires path != [] && forall n | n in path :: IsName(n)
    ensures RuleOf(w, Shown(l)).Some? && RuleOf(w, Shown(l)).value.negate == l.negate
    ensures Applies(w, RuleOf(w, Shown(l)).value, path, isDir)
       <==> (l.dirOnly ==> isDir) && GlobTheorem.GitMatch(w.classes, Split(l.glob, '/'), if l.rooted || '/' in l.glob then path else [Base(path)])
  {
    PartedShown(l);
    ClassesDecide(w, l.glob);
    RuleMeaning(w, RuleOf(w, Shown(l)).value, l.glob, path);
  }

  lemma RuleMeaning(w: World, r: Rule, glob: string, path: Path)
    requires r.re == RegexOf(glob) && Understood(w, glob, path)
    requires path != [] && forall n | n in path :: IsName(n)
    ensures RuleMatches(w, r, path) <==> GlobTheorem.GitMatch(w.classes, Split(glob, '/'), if r.baseOnly then [Base(path)] else path)
  {
    assert Base(path) in path;
    var names := if r.baseOnly then [Base(path)] else path;
    SplitJoin(names, '/');
    GlobAgrees(w, glob, names);
  }

  /** The pattern against a path of names, as git has it. */
  lemma GlobAgrees(w: World, glob: string, names: Path)
    requires Understood(w, glob, names) && Split(Text(names), '/') == names
    ensures Matches(w.classes, RegexOf(glob), Text(names)) <==> GlobTheorem.GitMatch(w.classes, Split(glob, '/'), names)
  {
    if '[' !in glob && GlobStars.GitStars(Split(glob, '/')) {
      GlobStars.AgreesWhen(w.classes, glob, Text(names));
    } else {
      GlobTheorem.NewlineInSegments(Text(names));
      assert forall k | 0 <= k < |names| :: names[k] in names;
      GlobTheorem.GlobCompilesToGit(w.classes, glob, Text(names));
    }
  }

  // ---------- the matcher ----------

  class IgnoreMatcher {
    const world: World
    var rules: map<string, seq<Rule>>

    /** Cached rules are the rules of the file they were read from. */
    ghost predicate Valid()
      reads this
    {
      forall scope | scope in rules :: rules[scope] == ScopeRules(world, scope)
    }

    constructor (world: World)
      ensures Valid() && this.world == world
    {
      this.world, rules := world, map[];
    }

    method RulesFor(scope: string) returns (r: seq<Rule>)
      requires Valid()
      modifies this
      ensures Valid() && r == ScopeRules(world, scope)
    {
      if scope in rules { return rules[scope]; }
      r := [];
      var content := world.gitignore(scope);
      if content.Some? {
        r := ParseIgnoreFile(world, content.value);
      }
      rules := rules[scope := r];
    }

    method PathIgnoredHere(path: Path, isDir: bool) returns (ignored: bool)
      requires Valid()
      modifies this
      ensures Valid() && ignored == PathIgnored(world, path, isDir)
    {
      ignored := false;
      for depth := 0 to |path|
        invariant Valid()
        invariant ignored == Verdict(Governing(world, path, depth, isDir))
      {
        var sub := path[depth..];
        var scoped := RulesFor(Text(path[..depth]));
        ghost var hits := Scoped(world, path, depth, isDir);
        ignored := Judged(ignored, scoped, sub, isDir, Governing(world, path, depth, isDir), hits);
      }
    }

    /** One scope's rules, applied in order after those that came before. */
    method Judged(ignored0: bool, scoped: seq<Rule>, sub: Path, isDir: bool, ghost before: seq<Hit>, ghost hits: seq<Hit>)
      returns (ignored: bool)
      requires ignored0 == Verdict(before)
      requires |hits| == |scoped| && forall i | 0 <= i < |scoped| :: hits[i] == HitOf(world, scoped[i], sub, isDir)
      ensures ignored == Verdict(before + hits)
    {
      ignored := ignored0;
      assert before + hits[..0] == before;
      for i := 0 to |scoped|
        invariant ignored == Verdict(before + hits[..i])
      {
        VerdictSnoc(before + hits[..i], hits[i]);
        assert before + hits[..i + 1] == before + hits[..i] + [hits[i]];
        if Applies(world, scoped[i], sub, isDir) {
          ignored := !scoped[i].negate;
        }
      }
      assert hits[..|scoped|] == hits;
    }

    method Ignored(rel: string, isDir: bool) returns (ignored: bool)
      requires Valid()
      modifies this
      ensures Valid() && ignored == IgnoredPath(world, Cleaned(rel), isDir)
    {
      var path := Cleaned(rel);
      if path == [] { return false; }
      for i := 1 to |path|
        invariant Valid()
        invariant NoneAbove(OwnJudge(world), path, i)
      {
        var up := PathIgnoredHere(path[..i], true);
        if up {
          IgnoredFromAbove(OwnJudge(world), path, i, isDir);
          return true;
        }
        NoneAboveNext(OwnJudge(world), path, i);
      }
      ignored := PathIgnoredHere(path, isDir);
      IgnoredOnItsOwn(OwnJudge(world), path, isDir);
    }
  }

  lemma VerdictSnoc(hits: seq<Hit>, x: Hit)
    ensures Verdict(hits + [x]) == if x.applies then !x.negate else Verdict(hits)
  {
    assert (hits + [x])[..|hits|] == hits;
  }
}
