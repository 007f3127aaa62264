/** Which globs without classes are compiled to what they mean to git: the exact condition
    (tools/fs/ignore.go globToRegexp). */
module GlobStars {
  import opened Sequences
  import opened GlobRegex
  import opened GlobLimits
  import opened GlobWitness
  import GlobSwallow

  /** The double stars of a pattern mean what they mean to git: before a slash they are a whole
      segment, and at the end there are none, or only stars that a whole double star swallows. */
  ghost predicate GitStars(pats: seq<string>)
    requires pats != []
  {
    InnerPlain(pats) && (!EndsInStars(pats[|pats| - 1]) || Swallowed(pats))
  }

  lemma PlainByParts(pats: seq<string>)
    requires pats != []
    ensures PlainSegments(pats)
       <==> InnerPlain(pats) && (!EndsInStars(pats[|pats| - 1]) || pats[|pats| - 1] == STARS)
  {
  }

  lemma AgreesWhen(cls: Classes, glob: string, path: string)
    requires '[' !in glob && GitStars(Split(glob, '/'))
    ensures AgreesWithGit(cls, glob, path)
  {
    var pats := Split(glob, '/');
    if Swallowed(pats) {
      GlobSwallow.SwallowedAgrees(cls, glob, path);
    } else {
      PlainByParts(pats);
      NewlineMattersIff(cls, glob);
    }
  }

  lemma DiffersWhen(cls: Classes, glob: string) returns (path: string)
    requires '[' !in glob && !GitStars(Split(glob, '/'))
    ensures !AgreesWithGit(cls, glob, path)
  {
    var pats := Split(glob, '/');
    if !InnerPlain(pats) {
      InnerStarsDiffer(cls, glob);
      path := Bare(glob);
    } else if TrailingStars(pats) {
      PlainByParts(pats);
      NewlineMattersIff(cls, glob);
      path :| !AgreesWithGit(cls, glob, path);
    } else {
      var t := LastStarsDiffer(cls, glob);
      path := Overlong(glob, t);
    }
  }

  /** A glob without classes is compiled to git's meaning, on all paths, exactly when its double
      stars mean what they mean to git. */
  lemma GlobAgreesIff(cls: Classes, glob: string)
    requires '[' !in glob
    ensures (forall path :: AgreesWithGit(cls, glob, path)) <==> GitStars(Split(glob, '/'))
  {
    if GitStars(Split(glob, '/')) {
      forall path ensures AgreesWithGit(cls, glob, path) {
        AgreesWhen(cls, glob, path);
      }
    } else {
      var path := DiffersWhen(cls, glob);
    }
  }
}
