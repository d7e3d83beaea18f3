# Default classpath resolver of the Kotlin language server, in Dafny

This project models how the Kotlin language server decides where a
workspace's classpath comes from (`DefaultClassPathResolver.kt`). It covers
four steps:

- **Ignore patterns.** Each workspace root's `.gitignore` lines become glob
  path matchers. Lines are trimmed. Blank and `#` lines are dropped. One
  trailing `/` is removed. `.git` is appended. Each pattern is compiled as
  `glob:<root>**/<pattern>`, and a pattern that does not compile is
  dropped.
- **Pruned walk.** Each root is walked top-down. Any directory that a
  matcher matches is not entered.
- **Classification.** Every walked path is offered to the Maven detector,
  then Gradle, then Shell. The first one that accepts supplies the
  resolver.
- **Assembly.** The resolver tree is
  `WithStdlib(GlobalShell(first root).or(joined workspace resolvers)).or(Backup)`.

The source is purely functional Kotlin, so the model uses datatypes, functions
and lemmas. The collaborators the source calls but does not define are
parameters:

- The glob library is `compile: string -> Option<M>`, which gives `None`
  where `getPathMatcher` throws, and `matches: (M, Path) -> bool`.
- Each build-tool detector (`maybeCreate`) is a `Path -> Option<R>`.
- The disk is a function giving a file's lines and a function giving the
  entry tree at a path.
- The combinators (`or`, `joined`, `WithStdlibResolver`, `Backup`,
  `ShellClassPathResolver.global`) are constructors of a resolver-tree
  datatype.

Modules and files:

| file | module | models |
|---|---|---|
| collections.dfy | Collections | Kotlin `map`, `filter`, `mapNotNull`, `flatMap` |
| kotlin_text.dfy | KotlinText | Kotlin `trim`, `startsWith`, `removeSuffix`, `Char.isWhitespace` |
| paths.dfy | Paths | path strings, `Path.resolve` |
| ignore_patterns.dfy | IgnorePatterns | `ignoredPathPatterns` |
| workspace_walk.dfy | WorkspaceWalk | `File.walk().onEnter { … }`, `folderResolvers` |
| classifier.dfy | Classifier | `asClassPathProvider` |
| assembly.dfy | Assembly | `workspaceResolvers`, `defaultClassPathResolver` |

Three behaviours of the code deserve a note:

- **No `.gitignore`.** `.git` is appended only inside the chain that starts
  with `takeIf { it.exists() }`. A root without a `.gitignore` therefore
  gets no matchers at all, and its walk prunes nothing, not even `.git`
  (`IgnoredPathPatterns`, `NoMatchersNoPruning`).
- **The starting directory.** Kotlin's `File.walk` calls `onEnter` on the
  starting directory too, so a root that a matcher matches yields nothing
  (`Walk`, second ensures).
- **What the walk yields.** `File.walk` yields directories as well as
  files, so directories are offered to the detectors too. Files are never
  tested against the matchers, because `onEnter` only sees directories.
  A file whose name matches a pattern is still classified (`Walk`, first
  ensures).

## Model

| member | source | states |
|---|---|---|
| KotlinText.Trim | shared/src/main/kotlin/org/javacs/kt/classpath/DefaultClassPathResolver.kt:34 | `it.trim()`: the result is the slice of the line after its leading whitespace, everything after the slice is whitespace, and the result neither starts nor ends with whitespace |
| KotlinText.TrimOfTrimmed | shared/src/main/kotlin/org/javacs/kt/classpath/DefaultClassPathResolver.kt:34 | trimming is idempotent |
| KotlinText.RemoveSuffix | shared/src/main/kotlin/org/javacs/kt/classpath/DefaultClassPathResolver.kt:36 | `removeSuffix("/")`: when the line ends with the suffix, result + suffix is the line; otherwise the line is unchanged |
| KotlinText.RemoveSuffixRemovesOnce | shared/src/main/kotlin/org/javacs/kt/classpath/DefaultClassPathResolver.kt:36 | only one `/` is removed: `x//` becomes `x/` and `x/` becomes `x` |
| Paths.Resolve | shared/src/main/kotlin/org/javacs/kt/classpath/DefaultClassPathResolver.kt:17 | `workspaceRoot.resolve(".gitignore")` ends with the name, and for a relative name it starts with the root and is longer |
| Paths.GitignoreInsideRoot | shared/src/main/kotlin/org/javacs/kt/classpath/DefaultClassPathResolver.kt:17 | the consulted file is `<root>/.gitignore` |
| IgnorePatterns.IgnoredPathPatterns | shared/src/main/kotlin/org/javacs/kt/classpath/DefaultClassPathResolver.kt:30-48 | no file gives no matchers (no `.git` default); otherwise there is at most one matcher per kept line plus one; every matcher is compiled from `glob:<root>**/<pattern>` for one of the patterns; the `.git` matcher is last whenever it compiles, whatever the file holds; every pattern that compiles keeps its matcher, even when `.git` does not; the matchers are the per-pattern compilations concatenated in file order |
| IgnorePatterns.KeptPatternsAppend | shared/src/main/kotlin/org/javacs/kt/classpath/DefaultClassPathResolver.kt:33-36 | lines are handled independently and in file order: the patterns of `a + b` are those of `a` followed by those of `b`, with duplicates kept |
| IgnorePatterns.KeptPatternsLineByLine | shared/src/main/kotlin/org/javacs/kt/classpath/DefaultClassPathResolver.kt:33-36 | the kept patterns equal the per-line reference: for each line, `[removeSuffix(trim(line))]` if the trimmed line is non-empty and not a comment, else nothing, concatenated in file order |
| IgnorePatterns.KeptPatternsFromLines | shared/src/main/kotlin/org/javacs/kt/classpath/DefaultClassPathResolver.kt:34-36 | there are at most as many patterns as lines, and each pattern is some kept line, trimmed, with at most one trailing `/` removed |
| IgnorePatterns.LineWithoutMatcherIsInert | shared/src/main/kotlin/org/javacs/kt/classpath/DefaultClassPathResolver.kt:35-47 | a blank line, a `#` comment line, or a line whose glob fails to compile leaves the matcher list exactly as it would be without that line |
| IgnorePatterns.AllPatternsCompile | shared/src/main/kotlin/org/javacs/kt/classpath/DefaultClassPathResolver.kt:37-47 | when every pattern compiles there are exactly kept + 1 matchers, the i-th compiled from the i-th pattern |
| IgnorePatterns.ExamplePatternStrings | shared/src/main/kotlin/org/javacs/kt/classpath/DefaultClassPathResolver.kt:33-40 | `["# build output", "", " target/ ", "out//"]` gives the patterns `["target", "out/", ".git"]` |
| Collections.MapNotNullIsFlatMap | shared/src/main/kotlin/org/javacs/kt/classpath/DefaultClassPathResolver.kt:26 | `mapNotNull` equals `flatMap` over the zero-or-one results of each element: every non-null image, in element order |
| Collections.MapNotNullAppend | shared/src/main/kotlin/org/javacs/kt/classpath/DefaultClassPathResolver.kt:41-47 | `mapNotNull` works element by element, so one element yielding null affects no other |
| WorkspaceWalk.AnyMatches | shared/src/main/kotlin/org/javacs/kt/classpath/DefaultClassPathResolver.kt:25 | holds exactly when some matcher of the list matches the path |
| WorkspaceWalk.Walk | shared/src/main/kotlin/org/javacs/kt/classpath/DefaultClassPathResolver.kt:23-25 | a file is always produced and never tested against the matchers; a matched directory, the starting one included, yields nothing; an unmatched directory is produced first, before its contents |
| WorkspaceWalk.WalkIsPrunedListing | shared/src/main/kotlin/org/javacs/kt/classpath/DefaultClassPathResolver.kt:23-25 | the walk equals the plain pre-order listing of the tree with every matched directory cut off together with its subtree (pruning, not post-filtering) |
| WorkspaceWalk.PrunedTreeHasNoRefusedDir | shared/src/main/kotlin/org/javacs/kt/classpath/DefaultClassPathResolver.kt:25 | the pruned tree that the walk lists contains no matched directory |
| WorkspaceWalk.RefusedContentsAreNeverVisited | shared/src/main/kotlin/org/javacs/kt/classpath/DefaultClassPathResolver.kt:25 | two trees that differ only below matched directories walk identically, so nothing below a matched directory is ever looked at |
| WorkspaceWalk.NoMatchersNoPruning | shared/src/main/kotlin/org/javacs/kt/classpath/DefaultClassPathResolver.kt:22-27 | with no matchers (no `.gitignore`) the walk is the full listing of the tree |
| WorkspaceWalk.FolderResolvers | shared/src/main/kotlin/org/javacs/kt/classpath/DefaultClassPathResolver.kt:22-27 | nothing at the root gives no resolvers; otherwise every resolver is the classification of some walked path, every walked path that is classified contributes its resolver, and the resolvers are the per-path classifications concatenated in walk order (one per accepted path, none for the others) |
| Classifier.AsClassPathProvider | shared/src/main/kotlin/org/javacs/kt/classpath/DefaultClassPathResolver.kt:51-54 | Maven's resolver if Maven accepts, else Gradle's if Gradle accepts, else Shell's; there is a result exactly when some detector accepts |
| Classifier.LaterDetectorsNotConsulted | shared/src/main/kotlin/org/javacs/kt/classpath/DefaultClassPathResolver.kt:51-54 | once Maven accepts, Gradle and Shell do not affect the result; once Gradle is the first to accept, Shell does not |
| Assembly.FirstOrNull | shared/src/main/kotlin/org/javacs/kt/classpath/DefaultClassPathResolver.kt:11 | `firstOrNull()` is present exactly when there is a root, and is then the first root |
| Assembly.DefaultClassPathResolver | shared/src/main/kotlin/org/javacs/kt/classpath/DefaultClassPathResolver.kt:9-13 | Backup is the outermost alternative; the stdlib wrapper encloses `GlobalShell(first root or none).or(Joined(...))`; the joined members are the detected resolvers of all roots in root order |
| Assembly.NoRootsExample | shared/src/main/kotlin/org/javacs/kt/classpath/DefaultClassPathResolver.kt:9-13 | with no roots the tree is `WithStdlib(GlobalShell(none).or(Joined([]))).or(Backup)` |
| Assembly.RootMatchers | shared/src/main/kotlin/org/javacs/kt/classpath/DefaultClassPathResolver.kt:17 | the matchers come from the `.gitignore` directly inside the root and are anchored at that same root: no such file gives none; each is compiled from one of its patterns or `.git`; the `.git` matcher is among them whenever the file exists and it compiles; every pattern of the file that compiles at the root gives its matcher; the matchers are exactly `ignoredPathPatterns` of the root's own `.gitignore` |
| Assembly.WorkspaceResolvers | shared/src/main/kotlin/org/javacs/kt/classpath/DefaultClassPathResolver.kt:16-19 | nothing at the root gives no resolvers; every path of the root's walk, pruned by its own matchers, that a detector accepts gives its resolver; the resolvers are exactly those, in walk order |
| Assembly.AllWorkspaceResolvers | shared/src/main/kotlin/org/javacs/kt/classpath/DefaultClassPathResolver.kt:12 | no roots give no resolvers; every resolver of every root is in the result |
| Assembly.AllWorkspaceResolversAppend | shared/src/main/kotlin/org/javacs/kt/classpath/DefaultClassPathResolver.kt:12 | per-root resolvers are concatenated in root order |
| Assembly.AllWorkspaceResolversAt | shared/src/main/kotlin/org/javacs/kt/classpath/DefaultClassPathResolver.kt:12 | root i contributes exactly its own resolvers, between those of the earlier and those of the later roots |
| Assembly.WorkspaceResolversAreLocal | shared/src/main/kotlin/org/javacs/kt/classpath/DefaultClassPathResolver.kt:16-18 | a root's resolvers depend only on that root's own `.gitignore` and tree |
| Assembly.IgnoredContentsNeverClassified | shared/src/main/kotlin/org/javacs/kt/classpath/DefaultClassPathResolver.kt:16-27 | changing what lies below a directory ignored by the root's `.gitignore` changes none of the root's resolvers |
| Assembly.WorkspaceResolverOrigin | shared/src/main/kotlin/org/javacs/kt/classpath/DefaultClassPathResolver.kt:12-27 | every workspace resolver comes from the detectors accepting a path produced by the pruned walk of some root |
| Assembly.WorkspaceResolverComplete | shared/src/main/kotlin/org/javacs/kt/classpath/DefaultClassPathResolver.kt:12-27 | conversely, every path of the pruned walk of any root that a detector accepts gives a resolver in the workspace part |
| Assembly.IgnoredTargetExample | shared/src/main/kotlin/org/javacs/kt/classpath/DefaultClassPathResolver.kt:16-48 | for `/ws` with `pom.xml` and an ignored `target/` holding another `pom.xml`, the only resolver is Maven's for `/ws/pom.xml`; the walked `.gitignore` itself is declined |

## Left out

- Reading `.gitignore` (`exists`, `readLines`) and listing directories are
  inputs. A file is given as its lines, or `None` when it does not exist. A
  tree is a finite datatype of entries in listing order. A directory that
  cannot be listed is a directory with no children; `File.walk` still yields
  it.
- `readLines` splitting on line terminators is not modelled. The lines
  arrive already split.
- `File.walk` traversal is not modelled beyond its default top-down order.
  The walk follows the order of the tree's children, with the default
  unlimited depth.
- Glob semantics (`getPathMatcher`, `PathMatcher.matches`) are a library
  call. They appear only as the `compile` and `matches` parameters.
- `MavenClassPathResolver`, `GradleClassPathResolver` and
  `ShellClassPathResolver` (`maybeCreate`, `global`) are defined in files
  that are not part of this model. So are `or`, `joined`,
  `WithStdlibResolver` and `BackupClassPathResolver`. The model builds the
  resolver tree but does not say what resolving it yields: fallback,
  aggregation, stdlib decoration and Backup never failing are not modelled.
- `Storage` is passed through to the Maven and Gradle detectors unread, so
  it is folded into the detector parameters.
- `LOG` calls are diagnostics only.
- Paths are Unix path strings. `Path.resolve` is modelled with `/` as the
  separator, and Windows paths are not modelled.
- Characters are Unicode scalar values rather than UTF-16 code units. No
  surrogate is whitespace, so this makes no difference to `trim`.
- A `.gitignore` that exists but cannot be read (no permission, or a
  directory named `.gitignore`) makes `readLines` throw. The call is
  outside the `try` around `getPathMatcher`, so the exception leaves
  `ignoredPathPatterns`, `workspaceResolvers` and `defaultClassPathResolver`.
  The model has no failure outcome for it: a file is either given as its
  lines or absent.
- `IsWhitespace` uses the Unicode tables of JDK 9 and later. On JDK 8,
  U+180E is also whitespace, and `trim` removes it there.
