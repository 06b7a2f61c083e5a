/**
 * Slash-separated paths as Go's `path` and `path/filepath` packages treat them on a
 * Unix system: `Base` (the last element) and `Join` (two elements glued by one slash).
 */
module Paths {

  /** Drops the slashes at the end of `p`. */
  function TrimTrailingSlashes(p: string): (r: string)
    ensures |r| <= |p| && r == p[..|r|]
    ensures r != [] ==> r[|r| - 1] != '/'
    ensures forall i :: |r| <= i < |p| ==> p[i] == '/'
  {
    if p != [] && p[|p| - 1] == '/' then TrimTrailingSlashes(p[..|p| - 1]) else p
  }

  /** What follows the last slash of `p` (all of `p` when it has none). */
  function LastElement(p: string): (r: string)
    ensures |r| <= |p| && r == p[|p| - |r|..]
    ensures '/' !in r
    ensures |r| < |p| ==> p[|p| - |r| - 1] == '/'
  {
    if p == [] || p[|p| - 1] == '/' then [] else LastElement(p[..|p| - 1]) + [p[|p| - 1]]
  }

  /**
   * Go's `filepath.Base`: the last element of `p` once trailing slashes are removed;
   * "." for the empty path and "/" for a path made only of slashes.
   */
  function Base(p: string): (b: string)
    ensures b != []
    ensures b == "/" || '/' !in b
  {
    if p == [] then "."
    else
      var last := LastElement(TrimTrailingSlashes(p));
      if last == [] then "/" else last
  }

  /**
   * Go's `filepath.Join(dir, elem)` (and `path.Join`) for a directory and one element,
   * without the final `Clean`: an empty argument is ignored, otherwise the directory's
   * trailing slashes are dropped and the two are glued by one slash. Go's `Clean` would
   * also collapse repeated slashes inside either part, remove `.` and `..` elements and
   * clean a lone argument; none of that changes the last element of the result.
   */
  function Join(dir: string, elem: string): (r: string)
    ensures elem != [] ==> |elem| <= |r| && r[|r| - |elem|..] == elem
  {
    if dir == [] then elem
    else if elem == [] then dir
    else TrimTrailingSlashes(dir) + "/" + elem
  }

  /** The base of a single path element is the element itself. */
  lemma BaseOfElement(e: string)
    requires e != [] && '/' !in e
    ensures Base(e) == e
  {
    assert TrimTrailingSlashes(e) == e;
    LastElementOfElement(e);
  }

  lemma {:induction false} LastElementOfElement(e: string)
    requires '/' !in e
    ensures LastElement(e) == e
  {
    if e != [] {
      assert '/' !in e[..|e| - 1];
      LastElementOfElement(e[..|e| - 1]);
    }
  }

  /** Joining a directory and a file name, then taking the base, gives back the file name. */
  lemma BaseOfJoin(dir: string, elem: string)
    requires elem != [] && '/' !in elem
    ensures Base(Join(dir, elem)) == elem
  {
    if dir == [] {
      BaseOfElement(elem);
    } else {
      var r := Join(dir, elem);
      assert TrimTrailingSlashes(r) == r;
      LastElementAfterSlash(TrimTrailingSlashes(dir), elem);
    }
  }

  lemma {:induction false} LastElementAfterSlash(prefix: string, elem: string)
    requires '/' !in elem
    ensures LastElement(prefix + "/" + elem) == elem
    decreases |elem|
  {
    var p := prefix + "/" + elem;
    if elem == [] {
    } else {
      assert p[..|p| - 1] == prefix + "/" + elem[..|elem| - 1];
      LastElementAfterSlash(prefix, elem[..|elem| - 1]);
      assert elem == elem[..|elem| - 1] + [elem[|elem| - 1]];
    }
  }
}
