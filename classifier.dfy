/** Choosing the build system that owns a path (`asClassPathProvider` in
    DefaultClassPathResolver.kt). The three detectors are parameters: each
    is the `maybeCreate` of its resolver, with the storage handle already
    supplied, and gives `None` when it declines the path. */
module Classifier {
  import opened Collections
  import opened Paths

  /** `MavenClassPathResolver.maybeCreate`, `GradleClassPathResolver.maybeCreate`
      and `ShellClassPathResolver.maybeCreate`. */
  datatype Detectors<R> = Detectors(maven: Path -> Option<R>, gradle: Path -> Option<R>, shell: Path -> Option<R>)

  /** Maven first, then Gradle, then Shell: the first detector that accepts
      the path supplies its resolver. */
  function AsClassPathProvider<R>(path: Path, d: Detectors<R>): (r: Option<R>)
    ensures d.maven(path).Some? ==> r == d.maven(path)
    ensures d.maven(path).None? && d.gradle(path).Some? ==> r == d.gradle(path)
    ensures d.maven(path).None? && d.gradle(path).None? ==> r == d.shell(path)
    ensures r.Some? <==> d.maven(path).Some? || d.gradle(path).Some? || d.shell(path).Some?
  {
    match d.maven(path)
    case Some(_) => d.maven(path)
    case None =>
      match d.gradle(path)
      case Some(_) => d.gradle(path)
      case None => d.shell(path)
  }

  /** A later detector is never consulted once an earlier one accepts: if
      Maven accepts, Gradle and Shell could be anything; if only Gradle
      accepts, Shell could be anything. */
  lemma LaterDetectorsNotConsulted<R>(path: Path, d1: Detectors<R>, d2: Detectors<R>)
    requires d1.maven(path) == d2.maven(path)
    requires d1.maven(path).Some? || d1.gradle(path) == d2.gradle(path)
    requires d1.maven(path).Some? || d1.gradle(path).Some? || d1.shell(path) == d2.shell(path)
    ensures AsClassPathProvider(path, d1) == AsClassPathProvider(path, d2)
  {
  }
}
