/** Paths and prefix matching (path.hpp). */
module Paths {
  type Path = seq<string>

  // `PathBase::matches_parent`: an element-wise comparison decides whether `parent` is a prefix of `path`.
  predicate MatchesParent(path: Path, parent: Path)
    ensures MatchesParent(path, parent) == (parent <= path)
  {
    |parent| <= |path| && forall i :: 0 <= i < |parent| ==> path[i] == parent[i]
  }
}
