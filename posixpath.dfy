/** The parts of Python's `os.path` that the migration uses, with '/' as the
    separator. */
module PosixPath {

  /** `os.path.join(a, b)` for a relative `b`: an empty `a` contributes nothing,
      otherwise one separator goes between the two parts. */
  function Join(a: string, b: string): string {
    if a == "" then b else a + "/" + b
  }

  /** `path` names something strictly below the folder `root`. */
  predicate IsUnder(path: string, root: string) {
    |root| < |path| && path[..|root|] == root && path[|root|] == '/'
  }

  /** `os.path.relpath(path, root)` for a normalised path below `root`. */
  function RelPath(path: string, root: string): (rel: string)
    requires IsUnder(path, root)
    ensures path == root + "/" + rel
  {
    path[|root| + 1..]
  }

  /** Joining under a non-empty folder and taking the path relative to that
      folder again are inverse. */
  lemma RelPathOfJoin(root: string, rel: string)
    requires root != ""
    ensures IsUnder(Join(root, rel), root)
    ensures RelPath(Join(root, rel), root) == rel
  {
    var p := Join(root, rel);
    assert p[..|root|] == root;
    assert p[|root| + 1..] == rel;
  }

  /** Distinct relative paths stay distinct once joined under the same folder. */
  lemma JoinInjective(root: string, x: string, y: string)
    requires Join(root, x) == Join(root, y)
    ensures x == y
  {
    if root != "" {
      RelPathOfJoin(root, x);
      RelPathOfJoin(root, y);
    }
  }
}
