/** Git's verdict on a path, stated over the lines of the ignore files, and that the matcher of
    tools/fs/ignore.go gives it. */
module GitIgnore {
  import opened Sequences
  import opened Ignore
  import GlobRegex
  import GlobTheorem

  /** The lines of a file that hold a pattern. */
  function PatternLines(lines: seq<string>): seq<Line> {
    if lines == [] then []
    else (match Parted(lines[0]) case None => [] case Some(l) => [l]) + PatternLines(lines[1..])
  }

  type Files = string -> Option<string>

  function FileLines(files: Files, scope: string): seq<Line> {
    match files(scope)
    case None => []
    case Some(content) => PatternLines(Split(content, '\n'))
  }

  /** A line applies to what is left of a path below its file: to directories only if it says so,
      and by the whole rest or by the base name. */
  predicate LineApplies(cls: GlobRegex.Classes, l: Line, sub: Path, isDir: bool) {
    && (l.dirOnly ==> isDir)
    && GlobTheorem.GitMatch(cls, Split(l.glob, '/'), if l.rooted || '/' in l.glob then sub else [Base(sub)])
  }

  /** A line in the file of the directory so many names down the path. */
  datatype Claim = Claim(line: Line, depth: nat)

  function ClaimsAt(files: Files, path: Path, depth: nat): seq<Claim>
    requires depth <= |path|
  {
    var lines := FileLines(files, Text(path[..depth]));
    seq(|lines|, i requires 0 <= i < |lines| => Claim(lines[i], depth))
  }

  /** All lines that have a say on a path: root file first, nearest file last, each in order. */
  function Claims(files: Files, path: Path, scopes: nat): (claims: seq<Claim>)
    requires scopes <= |path|
    ensures forall c | c in claims :: c.depth < scopes
  {
    if scopes == 0 then [] else Claims(files, path, scopes - 1) + ClaimsAt(files, path, scopes - 1)
  }

  predicate ClaimApplies(cls: GlobRegex.Classes, c: Claim, path: Path, isDir: bool)
    requires c.depth <= |path|
  {
    LineApplies(cls, c.line, path[c.depth..], isDir)
  }

  /** The last line that applies decides. */
  ghost predicate Decides(cls: GlobRegex.Classes, claims: seq<Claim>, path: Path, isDir: bool, i: int)
    requires 0 <= i < |claims| && forall c | c in claims :: c.depth <= |path|
  {
    && ClaimApplies(cls, claims[i], path, isDir)
    && forall j | i < j < |claims| :: !ClaimApplies(cls, claims[j], path, isDir)
  }

  ghost predicate Excludes(cls: GlobRegex.Classes, files: Files, path: Path, isDir: bool) {
    var claims := Claims(files, path, |path|);
    exists i | 0 <= i < |claims| :: Decides(cls, claims, path, isDir, i) && !claims[i].line.negate
  }

  /** Git ignores a path that is excluded, or that lies in an excluded directory: there, nothing
      can be included again. */
  ghost predicate GitIgnores(cls: GlobRegex.Classes, files: Files, path: Path, isDir: bool) {
    && path != []
    && (Excludes(cls, files, path, isDir) || exists i | 1 <= i < |path| :: Excludes(cls, files, path[..i], true))
  }

  /** All patterns that have a say on the path are understood. */
  ghost predicate AllUnderstood(w: World, path: Path) {
    forall depth, l | 0 <= depth < |path| && l in FileLines(w.gitignore, Text(path[..depth])) :: Understood(w, l.glob, path)
  }

  // ---------- the rules are the lines ----------

  ghost predicate RuleIs(w: World, r: Rule, l: Line) {
    WellParted(l) && RuleOf(w, Shown(l)) == Some(r)
  }

  ghost predicate RulesAre(w: World, rules: seq<Rule>, lines: seq<Line>) {
    |rules| == |lines| && forall i | 0 <= i < |rules| :: RuleIs(w, rules[i], lines[i])
  }

  lemma OneRule(w: World, line: string)
    requires Parted(line).Some? && ClassesCompile(w, Parted(line).value.glob)
    ensures RuleOf(w, line).Some? && RuleIs(w, RuleOf(w, line).value, Parted(line).value)
  {
    ShownParted(line);
    ClassesDecide(w, Parted(line).value.glob);
  }

  lemma RulesAreCons(w: World, r: Rule, l: Line, rules: seq<Rule>, lines: seq<Line>)
    requires RuleIs(w, r, l) && RulesAre(w, rules, lines)
    ensures RulesAre(w, [r] + rules, [l] + lines)
  {
  }

  lemma {:induction false} RulesAreLines(w: World, lines: seq<string>)
    requires forall l | l in PatternLines(lines) :: ClassesCompile(w, l.glob)
    ensures RulesAre(w, RulesOf(w, lines), PatternLines(lines))
  {
    if lines != [] {
      var rules, rest := RulesOf(w, lines[1..]), PatternLines(lines[1..]);
      assert forall l | l in rest :: l in PatternLines(lines);
      RulesAreLines(w, lines[1..]);
      if Parted(lines[0]).Some? {
        assert PatternLines(lines)[0] == Parted(lines[0]).value;
        OneRule(w, lines[0]);
        RulesAreCons(w, RuleOf(w, lines[0]).value, Parted(lines[0]).value, rules, rest);
      } else {
        WholeAndNothing(rules);
        WholeAndNothing(rest);
      }
    }
  }

  lemma HitIsClaim(w: World, r: Rule, l: Line, sub: Path, isDir: bool)
    requires RuleIs(w, r, l) && Understood(w, l.glob, sub) && sub != [] && forall n | n in sub :: IsName(n)
    ensures HitOf(w, r, sub, isDir) == Hit(LineApplies(w.classes, l, sub, isDir), l.negate)
  {
    LineMeaning(w, l, sub, isDir);
  }

  function HitOfClaim(cls: GlobRegex.Classes, c: Claim, path: Path, isDir: bool): Hit
    requires c.depth <= |path|
  {
    Hit(ClaimApplies(cls, c, path, isDir), c.line.negate)
  }

  ghost predicate HitsAreClaims(cls: GlobRegex.Classes, hits: seq<Hit>, claims: seq<Claim>, path: Path, isDir: bool) {
    && |hits| == |claims|
    && forall i | 0 <= i < |claims| :: claims[i].depth <= |path| && hits[i] == HitOfClaim(cls, claims[i], path, isDir)
  }

  lemma UnderstoodBelow(w: World, glob: string, path: Path, depth: nat)
    requires Understood(w, glob, path) && depth <= |path|
    ensures Understood(w, glob, path[depth..])
  {
    assert forall n | n in path[depth..] :: n in path;
  }

  lemma ScopeIsClaims(w: World, path: Path, depth: nat, isDir: bool)
    requires depth < |path| && AllUnderstood(w, path) && forall n | n in path :: IsName(n)
    ensures HitsAreClaims(w.classes, Scoped(w, path, depth, isDir), ClaimsAt(w.gitignore, path, depth), path, isDir)
  {
    var scope, sub := Text(path[..depth]), path[depth..];
    var lines := FileLines(w.gitignore, scope);
    assert forall l | l in lines :: Understood(w, l.glob, path);
    if w.gitignore(scope).Some? {
      RulesAreLines(w, Split(w.gitignore(scope).value, '\n'));
    }
    assert RulesAre(w, ScopeRules(w, scope), lines);
    assert forall n | n in sub :: n in path;
    forall i | 0 <= i < |lines|
      ensures HitOf(w, ScopeRules(w, scope)[i], sub, isDir) == Hit(LineApplies(w.classes, lines[i], sub, isDir), lines[i].negate)
    {
      assert lines[i] in lines;
      UnderstoodBelow(w, lines[i].glob, path, depth);
      HitIsClaim(w, ScopeRules(w, scope)[i], lines[i], sub, isDir);
    }
  }

  lemma MoreClaims(cls: GlobRegex.Classes, h: seq<Hit>, c: seq<Claim>, k: seq<Hit>, d: seq<Claim>, path: Path, isDir: bool)
    requires HitsAreClaims(cls, h, c, path, isDir) && HitsAreClaims(cls, k, d, path, isDir)
    ensures HitsAreClaims(cls, h + k, c + d, path, isDir)
  {
  }

  lemma {:induction false} GoverningIsClaims(w: World, path: Path, scopes: nat, isDir: bool)
    requires scopes <= |path| && AllUnderstood(w, path) && forall n | n in path :: IsName(n)
    ensures HitsAreClaims(w.classes, Governing(w, path, scopes, isDir), Claims(w.gitignore, path, scopes), path, isDir)
  {
    if scopes > 0 {
      GoverningIsClaims(w, path, scopes - 1, isDir);
      ScopeIsClaims(w, path, scopes - 1, isDir);
      MoreClaims(w.classes, Governing(w, path, scopes - 1, isDir), Claims(w.gitignore, path, scopes - 1),
                 Scoped(w, path, scopes - 1, isDir), ClaimsAt(w.gitignore, path, scopes - 1), path, isDir);
    }
  }

  lemma VerdictIsLastClaim(cls: GlobRegex.Classes, hits: seq<Hit>, claims: seq<Claim>, path: Path, isDir: bool)
    requires HitsAreClaims(cls, hits, claims, path, isDir) && forall c | c in claims :: c.depth <= |path|
    ensures Verdict(hits)
       <==> exists i | 0 <= i < |claims| :: Decides(cls, claims, path, isDir, i) && !claims[i].line.negate
  {
    LastMatchDecides(hits);
    assert forall i | 0 <= i < |claims| :: LastHit(hits, i) <==> Decides(cls, claims, path, isDir, i);
  }

  lemma ExcludedAsGit(w: World, path: Path, isDir: bool)
    requires AllUnderstood(w, path) && forall n | n in path :: IsName(n)
    ensures PathIgnored(w, path, isDir) <==> Excludes(w.classes, w.gitignore, path, isDir)
  {
    GoverningIsClaims(w, path, |path|, isDir);
    VerdictIsLastClaim(w.classes, Governing(w, path, |path|, isDir), Claims(w.gitignore, path, |path|), path, isDir);
  }

  lemma UnderstoodAbove(w: World, path: Path, n: nat)
    requires AllUnderstood(w, path) && n <= |path|
    ensures AllUnderstood(w, path[..n])
  {
    assert forall x | x in path[..n] :: x in path;
    forall depth, l | 0 <= depth < n && l in FileLines(w.gitignore, Text(path[..n][..depth])) ensures Understood(w, l.glob, path[..n]) {
      assert path[..n][..depth] == path[..depth];
      assert Understood(w, l.glob, path);
    }
  }

  /** The matcher ignores a clean path exactly when git does, when all the patterns that have a
      say on it are understood. */
  lemma IgnoredAsGit(w: World, path: Path, isDir: bool)
    requires AllUnderstood(w, path) && forall n | n in path :: IsName(n)
    ensures IgnoredPath(w, path, isDir) <==> GitIgnores(w.classes, w.gitignore, path, isDir)
  {
    ExcludedAsGit(w, path, isDir);
    forall i | 1 <= i < |path| ensures OwnJudge(w)(path[..i], true) <==> Excludes(w.classes, w.gitignore, path[..i], true) {
      UnderstoodAbove(w, path, i);
      assert forall n | n in path[..i] :: n in path;
      ExcludedAsGit(w, path[..i], true);
    }
  }
}
