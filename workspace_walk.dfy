/** The pruned top-down walk of a workspace root (`folderResolvers` in
    DefaultClassPathResolver.kt): `File.walk()` with an `onEnter` callback
    that refuses every directory some ignore matcher matches.

    The file system is a finite tree of entries in listing order. The glob
    library is a parameter: `matches(m, p)` is `m.matches(p)`. */
module WorkspaceWalk {
  import opened Collections
  import opened Paths

  /** A file-system entry: a file, or a directory with the entries it lists.
      A directory that cannot be listed is one with no children. */
  datatype Entry = File(path: Path) | Dir(path: Path, children: seq<Entry>)

  /** `ignored.any { it.matches(p) }`: some matcher matches `p`. */
  function AnyMatches<M>(ignored: seq<M>, matches: (M, Path) -> bool, p: Path): (b: bool)
    ensures b <==> exists i :: 0 <= i < |ignored| && matches(ignored[i], p)
  {
    if ignored == [] then false
    else if matches(ignored[0], p) then true
    else
      var b := AnyMatches(ignored[1..], matches, p);
      assert forall i :: 1 <= i < |ignored| ==> ignored[i] == ignored[1..][i - 1];
      b
  }

  /** The paths `File.walk().onEnter { ignored.none { it.matches(dir) } }`
      produces from `e`, in order. A directory is produced before its
      contents; a refused directory (the walk's starting directory
      included) is not produced and none of its contents is looked at.
      Files are never tested against the matchers. */
  function Walk<M>(e: Entry, ignored: seq<M>, matches: (M, Path) -> bool): (ps: seq<Path>)
    decreases e
    ensures e.File? ==> ps == [e.path]
    ensures e.Dir? && AnyMatches(ignored, matches, e.path) ==> ps == []
    ensures e.Dir? && !AnyMatches(ignored, matches, e.path) ==> |ps| > 0 && ps[0] == e.path
  {
    match e
    case File(p) => [p]
    case Dir(p, children) =>
      if AnyMatches(ignored, matches, p) then [] else [p] + WalkAll(children, ignored, matches)
  }

  function WalkAll<M>(es: seq<Entry>, ignored: seq<M>, matches: (M, Path) -> bool): seq<Path>
    decreases es
  {
    if es == [] then [] else Walk(es[0], ignored, matches) + WalkAll(es[1..], ignored, matches)
  }

  /** Reference view of the walk: the plain listing of every entry of a
      tree, with no matchers, directories before their contents. */
  function Listing(e: Entry): seq<Path>
    decreases e
  {
    match e
    case File(p) => [p]
    case Dir(p, children) => [p] + ListingAll(children)
  }

  function ListingAll(es: seq<Entry>): seq<Path>
    decreases es
  {
    if es == [] then [] else Listing(es[0]) + ListingAll(es[1..])
  }

  /** The tree with every refused directory cut off together with
      everything below it; `None` when `e` itself is refused. */
  function Prune<M>(e: Entry, ignored: seq<M>, matches: (M, Path) -> bool): Option<Entry>
    decreases e
  {
    match e
    case File(_) => Some(e)
    case Dir(p, children) =>
      if AnyMatches(ignored, matches, p) then None
      else Some(Dir(p, PruneAll(children, ignored, matches)))
  }

  function PruneAll<M>(es: seq<Entry>, ignored: seq<M>, matches: (M, Path) -> bool): seq<Entry>
    decreases es
  {
    if es == [] then []
    else
      (match Prune(es[0], ignored, matches) case Some(t) => [t] case None => [])
        + PruneAll(es[1..], ignored, matches)
  }

  function PrunedListing<M>(e: Entry, ignored: seq<M>, matches: (M, Path) -> bool): seq<Path> {
    match Prune(e, ignored, matches)
    case None => []
    case Some(t) => Listing(t)
  }

  /** No directory of the tree is refused by the matchers. */
  ghost predicate NoRefusedDir<M>(e: Entry, ignored: seq<M>, matches: (M, Path) -> bool)
    decreases e
  {
    match e
    case File(_) => true
    case Dir(p, children) =>
      !AnyMatches(ignored, matches, p)
      && forall i :: 0 <= i < |children| ==> NoRefusedDir(children[i], ignored, matches)
  }

  /** The walk is pruning, not post-filtering: what it produces is exactly
      the plain listing of the tree from which every refused directory has
      been cut off with its whole subtree. */
  lemma {:induction false} WalkIsPrunedListing<M>(e: Entry, ignored: seq<M>, matches: (M, Path) -> bool)
    decreases e, 1
    ensures Walk(e, ignored, matches) == PrunedListing(e, ignored, matches)
  {
    match e
    case File(_) =>
    case Dir(p, children) =>
      if !AnyMatches(ignored, matches, p) {
        WalkAllIsPrunedListing(children, ignored, matches);
      }
  }

  lemma {:induction false} WalkAllIsPrunedListing<M>(es: seq<Entry>, ignored: seq<M>, matches: (M, Path) -> bool)
    decreases es, 0
    ensures WalkAll(es, ignored, matches) == ListingAll(PruneAll(es, ignored, matches))
  {
    if es != [] {
      WalkIsPrunedListing(es[0], ignored, matches);
      WalkAllIsPrunedListing(es[1..], ignored, matches);
      var head := match Prune(es[0], ignored, matches) case Some(t) => [t] case None => [];
      var rest := PruneAll(es[1..], ignored, matches);
      ListingAllAppend(head, rest);
      if head != [] {
        assert ListingAll(head) == Listing(head[0]) + ListingAll([]);
      }
    }
  }

  lemma {:induction false} ListingAllAppend(xs: seq<Entry>, ys: seq<Entry>)
    ensures ListingAll(xs + ys) == ListingAll(xs) + ListingAll(ys)
  {
    if xs == [] {
      assert xs + ys == ys;
    } else {
      assert (xs + ys)[1..] == xs[1..] + ys;
      ListingAllAppend(xs[1..], ys);
    }
  }

  /** The pruned tree keeps no refused directory, so the walk never enters
      one. */
  lemma {:induction false} PrunedTreeHasNoRefusedDir<M>(e: Entry, ignored: seq<M>, matches: (M, Path) -> bool)
    decreases e, 1
    ensures Prune(e, ignored, matches).Some? ==> NoRefusedDir(Prune(e, ignored, matches).value, ignored, matches)
  {
    match e
    case File(_) =>
    case Dir(p, children) =>
      if !AnyMatches(ignored, matches, p) {
        PruneAllHasNoRefusedDir(children, ignored, matches);
      }
  }

  lemma {:induction false} PruneAllHasNoRefusedDir<M>(es: seq<Entry>, ignored: seq<M>, matches: (M, Path) -> bool)
    decreases es, 0
    ensures forall i :: 0 <= i < |PruneAll(es, ignored, matches)| ==>
      NoRefusedDir(PruneAll(es, ignored, matches)[i], ignored, matches)
  {
    if es != [] {
      PrunedTreeHasNoRefusedDir(es[0], ignored, matches);
      PruneAllHasNoRefusedDir(es[1..], ignored, matches);
    }
  }

  /** Two trees that differ only inside refused directories: the same shape
      and paths everywhere else, with arbitrary contents below a directory
      that the matchers refuse. */
  ghost predicate SameOutsideRefused<M>(e1: Entry, e2: Entry, ignored: seq<M>, matches: (M, Path) -> bool)
    decreases e1
  {
    match e1
    case File(p) => e2 == File(p)
    case Dir(p, c1) =>
      e2.Dir? && e2.path == p
      && (AnyMatches(ignored, matches, p)
          || (|e2.children| == |c1|
              && forall i :: 0 <= i < |c1| ==> SameOutsideRefused(c1[i], e2.children[i], ignored, matches)))
  }

  /** Nothing below a refused directory is ever looked at: changing what
      refused directories contain, anywhere in the tree (a sentinel file
      added below an ignored `target/`, say), leaves the walk unchanged. */
  lemma {:induction false} RefusedContentsAreNeverVisited<M>(e1: Entry, e2: Entry, ignored: seq<M>,
                                                          matches: (M, Path) -> bool)
    requires SameOutsideRefused(e1, e2, ignored, matches)
    ensures Walk(e1, ignored, matches) == Walk(e2, ignored, matches)
  {
    SameOutsideRefusedPrunesAlike(e1, e2, ignored, matches);
    WalkIsPrunedListing(e1, ignored, matches);
    WalkIsPrunedListing(e2, ignored, matches);
  }

  lemma {:induction false} SameOutsideRefusedPrunesAlike<M>(e1: Entry, e2: Entry, ignored: seq<M>,
                                                         matches: (M, Path) -> bool)
    requires SameOutsideRefused(e1, e2, ignored, matches)
    decreases e1, 1
    ensures Prune(e1, ignored, matches) == Prune(e2, ignored, matches)
  {
    match e1
    case File(_) =>
    case Dir(p, c1) =>
      if !AnyMatches(ignored, matches, p) {
        SameOutsideRefusedPruneAllAlike(c1, e2.children, ignored, matches);
      }
  }

  lemma {:induction false} SameOutsideRefusedPruneAllAlike<M>(es1: seq<Entry>, es2: seq<Entry>, ignored: seq<M>,
                                                            matches: (M, Path) -> bool)
    requires |es1| == |es2|
    requires forall i :: 0 <= i < |es1| ==> SameOutsideRefused(es1[i], es2[i], ignored, matches)
    decreases es1, 0
    ensures PruneAll(es1, ignored, matches) == PruneAll(es2, ignored, matches)
  {
    if es1 != [] {
      SameOutsideRefusedPrunesAlike(es1[0], es2[0], ignored, matches);
      SameOutsideRefusedPruneAllAlike(es1[1..], es2[1..], ignored, matches);
    }
  }

  /** With no matchers (a root without `.gitignore`) nothing is pruned, not
      even `.git` directories: the walk is the plain listing. */
  lemma {:induction false} NoMatchersNoPruning<M>(e: Entry, matches: (M, Path) -> bool)
    decreases e, 1
    ensures Walk(e, [], matches) == Listing(e)
  {
    match e
    case File(_) =>
    case Dir(p, children) =>
      NoMatchersNoPruningAll(children, matches);
  }

  lemma {:induction false} NoMatchersNoPruningAll<M>(es: seq<Entry>, matches: (M, Path) -> bool)
    decreases es, 0
    ensures WalkAll(es, [], matches) == ListingAll(es)
  {
    if es != [] {
      NoMatchersNoPruning(es[0], matches);
      NoMatchersNoPruningAll(es[1..], matches);
    }
  }

  /** `folderResolvers(root, ignored)`: the walk of the tree found at the
      root (`None` when nothing exists there), with every produced path
      classified and the paths that yield no resolver skipped, in walk
      order. */
  function FolderResolvers<M, R>(tree: Option<Entry>, ignored: seq<M>, matches: (M, Path) -> bool,
                                 classify: Path -> Option<R>): (rs: seq<R>)
    ensures tree.None? ==> rs == []
    ensures tree.Some? ==> |rs| <= |Walk(tree.value, ignored, matches)|
    ensures tree.Some? ==> forall k :: 0 <= k < |rs| ==>
      exists i :: 0 <= i < |Walk(tree.value, ignored, matches)|
        && classify(Walk(tree.value, ignored, matches)[i]) == Some(rs[k])
    // every walked path that is classified contributes its resolver ...
    ensures tree.Some? ==> forall i :: (0 <= i < |Walk(tree.value, ignored, matches)|
      && classify(Walk(tree.value, ignored, matches)[i]).Some?) ==>
        classify(Walk(tree.value, ignored, matches)[i]).value in rs
    // ... and the resolvers are those of the walked paths one by one, in walk order
    ensures tree.Some? ==> rs == FlatMap(NonNullSeq(classify), Walk(tree.value, ignored, matches))
  {
    match tree
    case None => []
    case Some(e) =>
      var ps := Walk(e, ignored, matches);
      ResolversFromWalk(ps, classify);
      MapNotNull(classify, ps)
  }

  lemma ResolversFromWalk<R>(ps: seq<Path>, classify: Path -> Option<R>)
    ensures forall k :: 0 <= k < |MapNotNull(classify, ps)| ==>
      exists i :: 0 <= i < |ps| && classify(ps[i]) == Some(MapNotNull(classify, ps)[k])
    ensures forall i :: 0 <= i < |ps| && classify(ps[i]).Some? ==> classify(ps[i]).value in MapNotNull(classify, ps)
    ensures MapNotNull(classify, ps) == FlatMap(NonNullSeq(classify), ps)
  {
    MapNotNullComplete(classify, ps);
    MapNotNullIsFlatMap(classify, ps);
    var rs := MapNotNull(classify, ps);
    forall k | 0 <= k < |rs|
      ensures exists i :: 0 <= i < |ps| && classify(ps[i]) == Some(rs[k])
    {
      MapNotNullMember(classify, ps, rs[k]);
    }
  }
}
