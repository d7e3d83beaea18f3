/** How the lines of a workspace root's `.gitignore` become the path matchers
    that prune the workspace walk (`ignoredPathPatterns` in
    DefaultClassPathResolver.kt).

    The glob library is a parameter: `compile(s)` is what
    `FileSystems.getDefault().getPathMatcher(s)` returns, `None` when it
    throws; `M` is the type of the compiled matchers. */
module IgnorePatterns {
  import opened Collections
  import opened KotlinText
  import opened Paths

  /** The pattern that is always appended when a `.gitignore` exists. */
  const DefaultIgnored: string := ".git"

  /** A trimmed line that is kept: not empty and not a `#` comment. */
  predicate IsPatternLine(trimmed: string) {
    |trimmed| > 0 && !StartsWith(trimmed, "#")
  }

  function RemoveTrailingSlash(s: string): string {
    RemoveSuffix(s, "/")
  }

  /** The patterns taken from the file's own lines: trim every line, keep the
      non-blank non-comment ones, drop one trailing `/` from each. */
  function KeptPatterns(lines: seq<string>): seq<string> {
    Map(RemoveTrailingSlash, Filter(IsPatternLine, Map(Trim, lines)))
  }

  /** The patterns to compile: the kept ones followed by `.git`. */
  function PatternStrings(lines: seq<string>): seq<string> {
    KeptPatterns(lines) + [DefaultIgnored]
  }

  /** The glob string compiled for `pattern`: the root, then any number of
      directories, then the pattern. */
  function GlobSyntax(root: Path, pattern: string): string {
    "glob:" + root + "**/" + pattern
  }

  /** Compiling one pattern of `root`'s `.gitignore`; `None` when the
      library throws. */
  function GlobCompiler<M>(root: Path, compile: string -> Option<M>): string -> Option<M> {
    p => compile(GlobSyntax(root, p))
  }

  /** Compile every pattern, dropping the ones that do not compile. */
  function CompileAll<M>(root: Path, patterns: seq<string>, compile: string -> Option<M>): seq<M> {
    MapNotNull(GlobCompiler(root, compile), patterns)
  }

  /** `ignoredPathPatterns(root, gitignore)`, where `gitignore` holds the
      file's lines when it exists and is `None` when it does not. */
  function IgnoredPathPatterns<M>(root: Path, gitignore: Option<seq<string>>, compile: string -> Option<M>)
    : (ms: seq<M>)
    // no file: no matchers at all, not even one for `.git`
    ensures gitignore.None? ==> ms == []
    // at most one matcher per kept line, plus one for `.git`
    ensures gitignore.Some? ==> |ms| <= |KeptPatterns(gitignore.value)| + 1
    // every matcher is compiled from one of the pattern strings
    ensures gitignore.Some? ==> forall k :: 0 <= k < |ms| ==>
      exists i :: 0 <= i < |PatternStrings(gitignore.value)|
        && compile(GlobSyntax(root, PatternStrings(gitignore.value)[i])) == Some(ms[k])
    // whatever the file holds, the `.git` matcher comes last when it compiles
    ensures gitignore.Some? && compile(GlobSyntax(root, DefaultIgnored)).Some? ==>
      |ms| > 0 && ms[|ms| - 1] == compile(GlobSyntax(root, DefaultIgnored)).value
    // every pattern string that compiles keeps its matcher, even when `.git` does not compile ...
    ensures gitignore.Some? ==> forall i :: (0 <= i < |PatternStrings(gitignore.value)|
      && compile(GlobSyntax(root, PatternStrings(gitignore.value)[i])).Some?) ==>
        compile(GlobSyntax(root, PatternStrings(gitignore.value)[i])).value in ms
    // ... and the matchers are those of the pattern strings one by one, in file order
    ensures gitignore.Some? ==> ms == FlatMap(NonNullSeq(GlobCompiler(root, compile)), PatternStrings(gitignore.value))
  {
    match gitignore
    case None => []
    case Some(lines) =>
      CompiledPatternFacts(root, lines, compile);
      CompileAll(root, PatternStrings(lines), compile)
  }

  lemma CompiledPatternFacts<M>(root: Path, lines: seq<string>, compile: string -> Option<M>)
    ensures var ps, ms := PatternStrings(lines), CompileAll(root, PatternStrings(lines), compile);
      && (forall k :: 0 <= k < |ms| ==>
            exists i :: 0 <= i < |ps| && compile(GlobSyntax(root, ps[i])) == Some(ms[k]))
      && (compile(GlobSyntax(root, DefaultIgnored)).Some? ==>
            |ms| > 0 && ms[|ms| - 1] == compile(GlobSyntax(root, DefaultIgnored)).value)
      && (forall i :: (0 <= i < |ps| && compile(GlobSyntax(root, ps[i])).Some?) ==>
            compile(GlobSyntax(root, ps[i])).value in ms)
      && ms == FlatMap(NonNullSeq(GlobCompiler(root, compile)), ps)
  {
    var ps := PatternStrings(lines);
    var f := GlobCompiler(root, compile);
    var ms := MapNotNull(f, ps);
    MapNotNullComplete(f, ps);
    MapNotNullIsFlatMap(f, ps);
    forall k | 0 <= k < |ms|
      ensures exists i :: 0 <= i < |ps| && f(ps[i]) == Some(ms[k])
    {
      MapNotNullMember(f, ps, ms[k]);
    }
    if f(DefaultIgnored).Some? {
      MapNotNullLast(f, KeptPatterns(lines), DefaultIgnored);
    }
  }

  /** The patterns contributed by one line on its own. */
  function LinePattern(line: string): (ps: seq<string>)
    ensures |ps| <= 1
  {
    var t := Trim(line);
    if IsPatternLine(t) then [RemoveTrailingSlash(t)] else []
  }

  /** Every line is handled on its own and in file order: the kept patterns
      are the concatenation of what each line contributes. */
  lemma {:induction false} KeptPatternsAppend(a: seq<string>, b: seq<string>)
    ensures KeptPatterns(a + b) == KeptPatterns(a) + KeptPatterns(b)
  {
    MapAppend(Trim, a, b);
    FilterAppend(IsPatternLine, Map(Trim, a), Map(Trim, b));
    MapAppend(RemoveTrailingSlash, Filter(IsPatternLine, Map(Trim, a)), Filter(IsPatternLine, Map(Trim, b)));
  }

  lemma KeptPatternsOfLine(line: string)
    ensures KeptPatterns([line]) == LinePattern(line)
  {
    assert Map(Trim, [line]) == [Trim(line)];
  }

  /** The kept patterns are what each line contributes on its own,
      concatenated in file order. */
  lemma {:induction false} KeptPatternsLineByLine(lines: seq<string>)
    ensures KeptPatterns(lines) == FlatMap(LinePattern, lines)
  {
    if lines != [] {
      assert lines == [lines[0]] + lines[1..];
      KeptPatternsAppend([lines[0]], lines[1..]);
      KeptPatternsOfLine(lines[0]);
      KeptPatternsLineByLine(lines[1..]);
    }
  }

  /** Each kept pattern is a kept line, trimmed, with at most one trailing
      `/` removed. */
  lemma KeptPatternsFromLines(lines: seq<string>)
    ensures |KeptPatterns(lines)| <= |lines|
    ensures forall k :: 0 <= k < |KeptPatterns(lines)| ==>
      exists j :: 0 <= j < |lines| && IsPatternLine(Trim(lines[j]))
        && KeptPatterns(lines)[k] == RemoveTrailingSlash(Trim(lines[j]))
  {
    var ts := Map(Trim, lines);
    var fs := Filter(IsPatternLine, ts);
    assert KeptPatterns(lines) == Map(RemoveTrailingSlash, fs);
    forall k | 0 <= k < |fs|
      ensures exists j :: (0 <= j < |lines| && IsPatternLine(Trim(lines[j]))
        && KeptPatterns(lines)[k] == RemoveTrailingSlash(Trim(lines[j])))
    {
      assert KeptPatterns(lines)[k] == RemoveTrailingSlash(fs[k]);
      assert fs[k] in ts;
      var j :| 0 <= j < |ts| && ts[j] == fs[k];
      assert IsPatternLine(Trim(lines[j]));
    }
  }

  /** A blank line, a comment line, or a line whose glob does not compile
      changes nothing: the matcher list is the one the file would give
      without that line. */
  lemma LineWithoutMatcherIsInert<M>(root: Path, a: seq<string>, line: string, b: seq<string>,
                                    compile: string -> Option<M>)
    requires !IsPatternLine(Trim(line))
      || compile(GlobSyntax(root, RemoveTrailingSlash(Trim(line)))).None?
    ensures IgnoredPathPatterns(root, Some(a + [line] + b), compile)
         == IgnoredPathPatterns(root, Some(a + b), compile)
  {
    var ka, kl, tail := KeptPatterns(a), LinePattern(line), KeptPatterns(b) + [DefaultIgnored];
    PatternStringsAround(a, line, b);
    var f := GlobCompiler(root, compile);
    assert MapNotNull(f, kl) == [];
    calc {
      CompileAll(root, ka + (kl + tail), compile);
      { MapNotNullAppend(f, ka, kl + tail); }
      MapNotNull(f, ka) + MapNotNull(f, kl + tail);
      { MapNotNullAppend(f, kl, tail); }
      MapNotNull(f, ka) + MapNotNull(f, tail);
      { MapNotNullAppend(f, ka, tail); }
      CompileAll(root, ka + tail, compile);
    }
  }

  /** The pattern strings of a file, split around one of its lines. */
  lemma PatternStringsAround(a: seq<string>, line: string, b: seq<string>)
    ensures PatternStrings(a + [line] + b)
         == KeptPatterns(a) + (LinePattern(line) + (KeptPatterns(b) + [DefaultIgnored]))
    ensures PatternStrings(a + b) == KeptPatterns(a) + (KeptPatterns(b) + [DefaultIgnored])
  {
    KeptPatternsAppend(a + [line], b);
    KeptPatternsAppend(a, [line]);
    KeptPatternsAppend(a, b);
    KeptPatternsOfLine(line);
    AppendAssociates(KeptPatterns(a), LinePattern(line), KeptPatterns(b), [DefaultIgnored]);
  }

  /** When every pattern compiles there is exactly one matcher per pattern,
      in the same order, and the `.git` one is last. */
  lemma AllPatternsCompile<M>(root: Path, lines: seq<string>, compile: string -> Option<M>)
    requires forall p :: p in PatternStrings(lines) ==> compile(GlobSyntax(root, p)).Some?
    ensures |IgnoredPathPatterns(root, Some(lines), compile)| == |KeptPatterns(lines)| + 1
    ensures forall i :: 0 <= i < |PatternStrings(lines)| ==>
      IgnoredPathPatterns(root, Some(lines), compile)[i]
        == compile(GlobSyntax(root, PatternStrings(lines)[i])).value
  {
    MapNotNullTotal(GlobCompiler(root, compile), PatternStrings(lines));
  }

  /** Blank and comment lines give nothing, surrounding whitespace goes, one
      trailing `/` goes, and `.git` comes last. */
  lemma ExamplePatternStrings()
    ensures PatternStrings(["# build output", "", " target/ ", "out//"]) == ["target", "out/", ".git"]
  {
    var l0, l1, l2, l3 := "# build output", "", " target/ ", "out//";
    calc {
      PatternStrings([l0, l1, l2, l3]);
      { PatternStringsOfFour(l0, l1, l2, l3); }
      LinePattern(l0) + LinePattern(l1) + LinePattern(l2) + LinePattern(l3) + [DefaultIgnored];
      { CommentLineExample(); BlankLineExample(); PaddedLineExample(); DoubleSlashLineExample(); }
      [] + [] + ["target"] + ["out/"] + [DefaultIgnored];
      ["target", "out/", ".git"];
    }
  }

  lemma PatternStringsOfFour(l0: string, l1: string, l2: string, l3: string)
    ensures PatternStrings([l0, l1, l2, l3])
         == LinePattern(l0) + LinePattern(l1) + LinePattern(l2) + LinePattern(l3) + [DefaultIgnored]
  {
    KeptPatternsLineByLine([l0, l1, l2, l3]);
    FlatMapFour(LinePattern, l0, l1, l2, l3);
  }

  lemma CommentLineExample()
    ensures LinePattern("# build output") == []
  {
    var comment := "# build output";
    TrimOfUnpadded(comment);
    assert StartsWith(comment, "#");
  }

  lemma BlankLineExample()
    ensures LinePattern("") == []
  {
    TrimOfUnpadded("");
  }

  lemma PaddedLineExample()
    ensures LinePattern(" target/ ") == ["target"]
  {
    TrimOfSpaced("target/");
    assert " " + "target/" + " " == " target/ ";
    assert RemoveSuffix("target/", "/") == "target";
  }

  lemma TargetLineExample()
    ensures LinePattern("target/") == ["target"]
  {
    TrimOfUnpadded("target/");
    assert RemoveSuffix("target/", "/") == "target";
  }

  lemma SingleLinePatternStrings(line: string)
    ensures PatternStrings([line]) == LinePattern(line) + [DefaultIgnored]
  {
    KeptPatternsOfLine(line);
  }

  lemma DoubleSlashLineExample()
    ensures LinePattern("out//") == ["out/"]
  {
    var slashes := "out//";
    assert Trim(slashes) == slashes by {
      TrimOfUnpadded(slashes);
    }
    assert IsPatternLine(slashes) by {
      assert slashes[0] == 'o';
    }
    assert RemoveTrailingSlash(slashes) == "out/" by {
      assert slashes == "out" + "//";
      RemoveSuffixRemovesOnce("out");
    }
  }
}
