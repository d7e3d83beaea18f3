/** File-system paths as the resolver sees them: the string form of a
    `java.nio.file.Path` on a Unix file system. */
module Paths {
  import opened KotlinText

  type Path = string

  /** `Path.resolve(name)` for a path string `name`: an absolute `name`
      replaces `dir`, an empty one leaves `dir` as it is, and otherwise the
      two are joined with one separator (the root directory `/` already ends
      with one). */
  function Resolve(dir: Path, name: string): (p: Path)
    ensures EndsWith(p, name)
    ensures name != [] && name[0] != '/' && dir != [] ==> StartsWith(p, dir) && |p| > |dir|
  {
    if name != [] && name[0] == '/' then name
    else if name == [] then dir
    else if dir == [] then name
    else if dir[|dir| - 1] == '/' then dir + name
    else dir + "/" + name
  }

  /** The `.gitignore` consulted for a workspace root is the one directly
      inside it. */
  lemma GitignoreInsideRoot(root: Path)
    requires root != [] && root[|root| - 1] != '/'
    ensures Resolve(root, ".gitignore") == root + "/.gitignore"
  {
  }
}
