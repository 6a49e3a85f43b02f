/** `pathlib` paths as sequences of components.  A path is held without its
    anchor (the leading `/`), so `Path('/home/x/foo')` is
    `["home", "x", "foo"]`; the empty sequence is `Path('.')`. */
module Paths {
  import opened Text

  type Path = seq<string>

  /** `p.name`: the last component, or `""` for a path with none. */
  function Name(p: Path): string
  {
    if p == [] then "" else p[|p| - 1]
  }

  /** `p.parent`: the path without its last component (`.` is its own parent). */
  function Parent(p: Path): Path
  {
    if p == [] then [] else p[..|p| - 1]
  }

  /** `p / c` (`os.path.join(p, c)`) for a plain component `c`. */
  function Join(p: Path, c: string): Path
  {
    p + [c]
  }

  /** `PurePath.match(pattern)` for a relative pattern: the pattern's
      components are matched with `fnmatch` against the path's last
      components, and a path shorter than the pattern never matches. */
  predicate MatchesPattern(p: Path, pattern: seq<string>)
  {
    |pattern| <= |p|
    && forall i :: 0 <= i < |pattern| ==> GlobMatch(p[|p| - |pattern| + i], pattern[i])
  }

  /** A four-component relative pattern matches exactly when the last four
      components match it one by one. */
  lemma MatchesFour(path: Path, p0: string, p1: string, p2: string, p3: string)
    ensures MatchesPattern(path, [p0, p1, p2, p3]) <==>
              |path| >= 4 && GlobMatch(path[|path| - 4], p0) && GlobMatch(path[|path| - 3], p1)
              && GlobMatch(path[|path| - 2], p2) && GlobMatch(path[|path| - 1], p3)
  {
    var pat := [p0, p1, p2, p3];
    if |path| >= 4 && GlobMatch(path[|path| - 4], p0) && GlobMatch(path[|path| - 3], p1)
       && GlobMatch(path[|path| - 2], p2) && GlobMatch(path[|path| - 1], p3) {
      forall i | 0 <= i < 4 ensures GlobMatch(path[|path| - 4 + i], pat[i]) {
        assert i == 0 || i == 1 || i == 2 || i == 3;
      }
    }
    if MatchesPattern(path, pat) {
      assert GlobMatch(path[|path| - 4 + 0], pat[0]);
      assert GlobMatch(path[|path| - 4 + 1], pat[1]);
      assert GlobMatch(path[|path| - 4 + 2], pat[2]);
      assert GlobMatch(path[|path| - 4 + 3], pat[3]);
    }
  }
}
