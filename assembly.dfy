/** The resolver that the language server asks for its classpath
    (`defaultClassPathResolver` and `workspaceResolvers` in
    DefaultClassPathResolver.kt).

    The combinators `or`, `joined`, `WithStdlibResolver`, `BackupClassPathResolver`
    and `ShellClassPathResolver.global` are defined elsewhere; here they are
    constructors of a resolver tree, so the model states which tree is built
    and in which order its parts come, not what resolving it yields. */
module Assembly {
  import opened Collections
  import opened Paths
  import opened IgnorePatterns
  import opened WorkspaceWalk
  import opened Classifier

  /** A resolver tree over the resolvers `R` that the build-file detectors
      create. */
  datatype ClassPathResolver<R> =
    | Detected(resolver: R)                 // created by a detector for one build file
    | GlobalShell(root: Option<Path>)       // ShellClassPathResolver.global(root)
    | Or(preferred: ClassPathResolver<R>, alternative: ClassPathResolver<R>)  // preferred.or(alternative)
    | Joined(members: seq<ClassPathResolver<R>>)                              // members.joined
    | WithStdlib(wrapped: ClassPathResolver<R>)                               // WithStdlibResolver(wrapped)
    | Backup                                                                  // BackupClassPathResolver

  /** What the resolver reads from the disk: the lines of a file, `None`
      when it does not exist, and the tree of entries found at a path,
      `None` when nothing exists there. */
  datatype FileSystem = FileSystem(readLines: Path -> Option<seq<string>>, tree: Path -> Option<Entry>)

  /** Everything the resolver consults: the disk, the glob library and the
      build-file detectors (which already hold the storage handle). */
  datatype Environment<!M, R> = Environment(
    fs: FileSystem,
    compile: string -> Option<M>,
    matches: (M, Path) -> bool,
    detectors: Detectors<R>)

  function Classify<R>(d: Detectors<R>): Path -> Option<R> {
    p => AsClassPathProvider(p, d)
  }

  /** The matchers built from the `.gitignore` directly inside `root`. */
  function RootMatchers<M, R>(root: Path, env: Environment<M, R>): (ms: seq<M>)
    // no `.gitignore` directly inside the root: nothing is ignored
    ensures env.fs.readLines(Resolve(root, ".gitignore")).None? ==> ms == []
    // every matcher is a pattern of that file (or `.git`) anchored at the same root
    ensures var g := env.fs.readLines(Resolve(root, ".gitignore"));
      g.Some? ==> forall k :: 0 <= k < |ms| ==>
        exists i :: 0 <= i < |PatternStrings(g.value)| && env.compile(GlobSyntax(root, PatternStrings(g.value)[i])) == Some(ms[k])
    // a root with a `.gitignore` never descends into its `.git` directory
    ensures env.fs.readLines(Resolve(root, ".gitignore")).Some? && env.compile(GlobSyntax(root, DefaultIgnored)).Some? ==>
      env.compile(GlobSyntax(root, DefaultIgnored)).value in ms
    // every pattern of that file that compiles at the root prunes the walk
    ensures var g := env.fs.readLines(Resolve(root, ".gitignore"));
      g.Some? ==> forall i :: (0 <= i < |PatternStrings(g.value)|
        && env.compile(GlobSyntax(root, PatternStrings(g.value)[i])).Some?) ==>
          env.compile(GlobSyntax(root, PatternStrings(g.value)[i])).value in ms
    // the matchers are the ignore patterns of the root's own `.gitignore`, anchored at the root
    ensures ms == IgnoredPathPatterns(root, env.fs.readLines(Resolve(root, ".gitignore")), env.compile)
  {
    IgnoredPathPatterns(root, env.fs.readLines(Resolve(root, ".gitignore")), env.compile)
  }

  /** `workspaceResolvers(root)`: one resolver per walked path of `root`
      that some detector accepts, pruned by `root`'s own `.gitignore`. */
  function WorkspaceResolvers<M, R>(root: Path, env: Environment<M, R>): (rs: seq<R>)
    // nothing at the root: no resolvers
    ensures env.fs.tree(root).None? ==> rs == []
    // every path of the pruned walk that a detector accepts gives its resolver ...
    ensures env.fs.tree(root).Some? ==>
      var ws := Walk(env.fs.tree(root).value, RootMatchers(root, env), env.matches);
      forall j :: (0 <= j < |ws| && AsClassPathProvider(ws[j], env.detectors).Some?) ==>
        AsClassPathProvider(ws[j], env.detectors).value in rs
    // ... and the resolvers are exactly those, one per accepted path, in walk order
    ensures env.fs.tree(root).Some? ==>
      rs == FlatMap(NonNullSeq(Classify(env.detectors)), Walk(env.fs.tree(root).value, RootMatchers(root, env), env.matches))
  {
    FolderResolvers(env.fs.tree(root), RootMatchers(root, env), env.matches, Classify(env.detectors))
  }

  function WorkspaceResolversIn<M, R>(env: Environment<M, R>): Path -> seq<R> {
    root => WorkspaceResolvers(root, env)
  }

  /** `roots.asSequence().flatMap { workspaceResolvers(it) }`. */
  function AllWorkspaceResolvers<M, R>(roots: seq<Path>, env: Environment<M, R>): (rs: seq<R>)
    ensures roots == [] ==> rs == []
    // every root contributes all of its resolvers
    ensures forall i, k :: 0 <= i < |roots| && 0 <= k < |WorkspaceResolvers(roots[i], env)| ==>
      WorkspaceResolvers(roots[i], env)[k] in rs
  {
    RootsContribute(roots, env);
    FlatMap(WorkspaceResolversIn(env), roots)
  }

  lemma RootsContribute<M, R>(roots: seq<Path>, env: Environment<M, R>)
    ensures forall i, k :: 0 <= i < |roots| && 0 <= k < |WorkspaceResolvers(roots[i], env)| ==>
      WorkspaceResolvers(roots[i], env)[k] in FlatMap(WorkspaceResolversIn(env), roots)
  {
    var f := WorkspaceResolversIn(env);
    FlatMapComplete(f, roots);
    forall i, k | 0 <= i < |roots| && 0 <= k < |WorkspaceResolvers(roots[i], env)|
      ensures WorkspaceResolvers(roots[i], env)[k] in FlatMap(f, roots)
    {
      assert f(roots[i]) == WorkspaceResolvers(roots[i], env);
    }
  }

  function FirstOrNull(roots: seq<Path>): (first: Option<Path>)
    ensures first.Some? <==> |roots| > 0
    ensures first.Some? ==> first.value == roots[0]
  {
    if roots == [] then None else Some(roots[0])
  }

  /** `defaultClassPathResolver(roots)`: the global shell resolver of the
      first root, else everything found in the workspaces, with the standard
      library added around both, and Backup as the very last resort. */
  function DefaultClassPathResolver<M, R>(roots: seq<Path>, env: Environment<M, R>): (r: ClassPathResolver<R>)
    // Backup is the outermost alternative
    ensures r.Or? && r.alternative == Backup
    // the standard library wraps the global shell resolver and the workspace resolvers
    ensures r.preferred.WithStdlib? && r.preferred.wrapped.Or?
    // the global shell resolver sees only the first root, or none
    ensures r.preferred.wrapped.preferred == GlobalShell(FirstOrNull(roots))
    // the fallback joins one resolver per detected build file, root by root
    ensures r.preferred.wrapped.alternative.Joined?
    ensures r.preferred.wrapped.alternative.members == Map(d => Detected(d), AllWorkspaceResolvers(roots, env))
  {
    var found := AllWorkspaceResolvers(roots, env);
    var joined := Joined(Map(d => Detected(d), found));
    Or(WithStdlib(Or(GlobalShell(FirstOrNull(roots)), joined)), Backup)
  }

  /** No workspace roots: no global shell root, nothing to join, and Backup
      as the last resort. */
  lemma NoRootsExample<M, R>(env: Environment<M, R>)
    ensures DefaultClassPathResolver([], env) == Or(WithStdlib(Or(GlobalShell(None), Joined([]))), Backup)
  {
  }

  /** Per-root resolvers are concatenated in root order. */
  lemma AllWorkspaceResolversAppend<M, R>(roots1: seq<Path>, roots2: seq<Path>, env: Environment<M, R>)
    ensures AllWorkspaceResolvers(roots1 + roots2, env)
         == AllWorkspaceResolvers(roots1, env) + AllWorkspaceResolvers(roots2, env)
  {
    FlatMapAppend(WorkspaceResolversIn(env), roots1, roots2);
  }

  /** Each root contributes exactly its own resolvers, at its place among
      the roots. */
  lemma AllWorkspaceResolversAt<M, R>(roots: seq<Path>, i: nat, env: Environment<M, R>)
    requires i < |roots|
    ensures AllWorkspaceResolvers(roots, env)
         == AllWorkspaceResolvers(roots[..i], env) + WorkspaceResolvers(roots[i], env)
            + AllWorkspaceResolvers(roots[i + 1..], env)
  {
    FlatMapAt(WorkspaceResolversIn(env), roots, i);
  }

  /** A root's resolvers depend on that root's `.gitignore` and tree only:
      another root's `.gitignore` never prunes it. */
  lemma WorkspaceResolversAreLocal<M, R>(root: Path, env1: Environment<M, R>, env2: Environment<M, R>)
    requires env1.fs.readLines(Resolve(root, ".gitignore")) == env2.fs.readLines(Resolve(root, ".gitignore"))
    requires env1.fs.tree(root) == env2.fs.tree(root)
    requires env1.compile == env2.compile && env1.matches == env2.matches && env1.detectors == env2.detectors
    ensures WorkspaceResolvers(root, env1) == WorkspaceResolvers(root, env2)
  {
  }

  /** Whatever lies below a directory that the root's `.gitignore` refuses
      never reaches a detector: the resolvers are the same whatever those
      directories contain. */
  lemma IgnoredContentsNeverClassified<M, R>(root: Path, env1: Environment<M, R>, env2: Environment<M, R>)
    requires env1.fs.readLines(Resolve(root, ".gitignore")) == env2.fs.readLines(Resolve(root, ".gitignore"))
    requires env1.compile == env2.compile && env1.matches == env2.matches && env1.detectors == env2.detectors
    requires env1.fs.tree(root).Some? && env2.fs.tree(root).Some?
    requires SameOutsideRefused(env1.fs.tree(root).value, env2.fs.tree(root).value, RootMatchers(root, env1), env1.matches)
    ensures WorkspaceResolvers(root, env1) == WorkspaceResolvers(root, env2)
  {
    RefusedContentsAreNeverVisited(env1.fs.tree(root).value, env2.fs.tree(root).value, RootMatchers(root, env1), env1.matches);
  }

  /** Every resolver in the workspace part comes from a detector accepting
      a path that the walk of some root produced. */
  lemma WorkspaceResolverOrigin<M, R>(roots: seq<Path>, env: Environment<M, R>, k: nat)
    requires k < |AllWorkspaceResolvers(roots, env)|
    ensures exists i, j :: (0 <= i < |roots| && env.fs.tree(roots[i]).Some?
      && 0 <= j < |Walk(env.fs.tree(roots[i]).value, RootMatchers(roots[i], env), env.matches)|
      && AsClassPathProvider(Walk(env.fs.tree(roots[i]).value, RootMatchers(roots[i], env), env.matches)[j], env.detectors)
         == Some(AllWorkspaceResolvers(roots, env)[k]))
  {
    var f := WorkspaceResolversIn(env);
    FlatMapOrigin(f, roots, k);
    var i, n :| 0 <= i < |roots| && 0 <= n < |f(roots[i])| && f(roots[i])[n] == FlatMap(f, roots)[k];
    var rs := WorkspaceResolvers(roots[i], env);
    assert rs[n] == AllWorkspaceResolvers(roots, env)[k];
    var ws := Walk(env.fs.tree(roots[i]).value, RootMatchers(roots[i], env), env.matches);
    var j :| 0 <= j < |ws| && Classify(env.detectors)(ws[j]) == Some(rs[n]);
    assert AsClassPathProvider(ws[j], env.detectors) == Some(rs[n]);
  }

  /** Every path of every root's pruned walk that a detector accepts gives a
      resolver in the workspace part. */
  lemma WorkspaceResolverComplete<M, R>(roots: seq<Path>, env: Environment<M, R>, i: nat, j: nat)
    requires i < |roots| && env.fs.tree(roots[i]).Some?
    requires j < |Walk(env.fs.tree(roots[i]).value, RootMatchers(roots[i], env), env.matches)|
    requires AsClassPathProvider(Walk(env.fs.tree(roots[i]).value, RootMatchers(roots[i], env), env.matches)[j], env.detectors).Some?
    ensures AsClassPathProvider(Walk(env.fs.tree(roots[i]).value, RootMatchers(roots[i], env), env.matches)[j], env.detectors).value
            in AllWorkspaceResolvers(roots, env)
  {
    var ws := Walk(env.fs.tree(roots[i]).value, RootMatchers(roots[i], env), env.matches);
    var r := AsClassPathProvider(ws[j], env.detectors).value;
    var rs := WorkspaceResolvers(roots[i], env);
    assert r in rs;
    var k :| 0 <= k < |rs| && rs[k] == r;
    assert rs[k] in AllWorkspaceResolvers(roots, env);
  }

  /** A workspace `/ws` with its `.gitignore`, a `pom.xml` and an ignored
      `target/` that holds another `pom.xml`: the walk does not enter
      `target/`, so the only resolver is the one Maven creates for
      `/ws/pom.xml`, whatever the detectors would say about the file inside
      `target/` (the `.gitignore` itself is walked, and declined). */
  lemma IgnoredTargetExample<M, R>(env: Environment<M, R>, target: M, git: M, pom: R)
    requires env.fs.readLines("/ws/.gitignore") == Some(["target/"])
    requires env.fs.tree("/ws")
          == Some(Dir("/ws", [File("/ws/.gitignore"), File("/ws/pom.xml"), Dir("/ws/target", [File("/ws/target/pom.xml")])]))
    requires env.compile(GlobSyntax("/ws", "target")) == Some(target)
    requires env.compile(GlobSyntax("/ws", ".git")) == Some(git)
    requires env.matches(target, "/ws/target")
    requires !env.matches(target, "/ws") && !env.matches(git, "/ws")
    requires env.detectors.maven("/ws/pom.xml") == Some(pom)
    requires env.detectors.maven("/ws") == None && env.detectors.gradle("/ws") == None
    requires env.detectors.shell("/ws") == None
    requires env.detectors.maven("/ws/.gitignore") == None && env.detectors.gradle("/ws/.gitignore") == None
    requires env.detectors.shell("/ws/.gitignore") == None
    ensures WorkspaceResolvers("/ws", env) == [pom]
  {
    TargetMatchers(env, target, git);
    var tree := Dir("/ws", [File("/ws/.gitignore"), File("/ws/pom.xml"), Dir("/ws/target", [File("/ws/target/pom.xml")])]);
    var walked := Walk(tree, [target, git], env.matches);
    TargetWalk(env.matches, target, git);
    var classify := Classify(env.detectors);
    assert classify("/ws") == None;
    assert classify("/ws/.gitignore") == None;
    assert classify("/ws/pom.xml") == Some(pom);
    assert MapNotNull(classify, walked) == [pom] by {
      assert walked[1..] == ["/ws/.gitignore", "/ws/pom.xml"];
      assert walked[1..][1..] == ["/ws/pom.xml"];
      assert MapNotNull(classify, ["/ws/pom.xml"]) == [pom] + MapNotNull(classify, []);
    }
  }

  lemma TargetWalk<M>(matches: (M, Path) -> bool, target: M, git: M)
    requires matches(target, "/ws/target")
    requires !matches(target, "/ws") && !matches(git, "/ws")
    ensures Walk(Dir("/ws", [File("/ws/.gitignore"), File("/ws/pom.xml"), Dir("/ws/target", [File("/ws/target/pom.xml")])]), [target, git], matches)
         == ["/ws", "/ws/.gitignore", "/ws/pom.xml"]
  {
    var ms := [target, git];
    assert AnyMatches(ms, matches, "/ws/target");
    assert !AnyMatches(ms, matches, "/ws");
    assert WalkAll([Dir("/ws/target", [File("/ws/target/pom.xml")])], ms, matches) == [];
  }

  lemma TargetMatchers<M, R>(env: Environment<M, R>, target: M, git: M)
    requires env.fs.readLines("/ws/.gitignore") == Some(["target/"])
    requires env.compile(GlobSyntax("/ws", "target")) == Some(target)
    requires env.compile(GlobSyntax("/ws", ".git")) == Some(git)
    ensures RootMatchers("/ws", env) == [target, git]
  {
    assert Resolve("/ws", ".gitignore") == "/ws/.gitignore";
    SingleLinePatternStrings("target/");
    TargetLineExample();
    var f := GlobCompiler("/ws", env.compile);
    MapNotNullTotal(f, ["target", DefaultIgnored]);
  }
}
