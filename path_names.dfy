/**
 * The two path functions the window model applies to every matching file:
 * the last component (Path.GetFileName) and everything before it
 * (Path.GetDirectoryName). On Windows both '\' and '/' separate components.
 */
module PathNames {
  import opened Wrappers

  predicate IsSeparator(c: char) {
    c == '\\' || c == '/'
  }

  /** Index of the last separator of `p`, if it has one. */
  function LastSeparator(p: string): (r: Option<nat>)
    ensures r.None? <==> forall k :: 0 <= k < |p| ==> !IsSeparator(p[k])
    ensures r.Some? ==> r.value < |p| && IsSeparator(p[r.value])
    ensures r.Some? ==> forall k :: r.value < k < |p| ==> !IsSeparator(p[k])
  {
    if p == [] then None
    else if IsSeparator(p[|p| - 1]) then Some(|p| - 1)
    else LastSeparator(p[..|p| - 1])
  }

  /** The part after the last separator; the whole path when it has none. */
  function FileName(p: string): string {
    match LastSeparator(p)
    case None => p
    case Some(i) => p[i + 1..]
  }

  /** The part before the last separator; empty when the path has none. */
  function DirectoryName(p: string): string {
    match LastSeparator(p)
    case None => ""
    case Some(i) => p[..i]
  }

  /**
   * The file name holds no separator, and the directory, one separator and
   * the file name put back together give the path.
   */
  lemma SplitPath(p: string)
    ensures forall k :: 0 <= k < |FileName(p)| ==> !IsSeparator(FileName(p)[k])
    ensures LastSeparator(p).None? ==> DirectoryName(p) == "" && FileName(p) == p
    ensures LastSeparator(p).Some? ==>
      DirectoryName(p) + [p[LastSeparator(p).value]] + FileName(p) == p
  {
    match LastSeparator(p)
    case None =>
    case Some(i) =>
      forall k | 0 <= k < |FileName(p)| ensures !IsSeparator(FileName(p)[k]) {
        assert FileName(p)[k] == p[i + 1 + k];
      }
      assert p[..i] + [p[i]] + p[i + 1..] == p;
  }
}
