/** File paths named on the command line: the extension after the last dot,
    and whether a path names a `.vlt` source file (valete.c, lines 13-29).
    A C string is modelled by the characters before its terminating NUL. */
module Paths {

  datatype Option<T> = None | Some(value: T)

  /** No position of `path` in the half-open range [lo, hi) holds a dot. */
  ghost predicate NoDotIn(path: string, lo: int, hi: int)
    requires 0 <= lo && hi <= |path|
  {
    forall j :: lo <= j < hi ==> path[j] != '.'
  }

  /** The left-to-right scan of `filepath_extension`: `p` is the next
      character to look at and `dot` the last dot seen before it. The result
      is the position of the last dot of the whole path, if there is one. */
  function ScanDot(path: string, p: nat, dot: Option<nat>): (r: Option<nat>)
    requires p <= |path|
    requires dot.None? ==> NoDotIn(path, 0, p)
    requires dot.Some? ==> dot.value < p && path[dot.value] == '.' && NoDotIn(path, dot.value + 1, p)
    ensures r.None? ==> NoDotIn(path, 0, |path|)
    ensures r.Some? ==> r.value < |path| && path[r.value] == '.' && NoDotIn(path, r.value + 1, |path|)
    decreases |path| - p
  {
    if p == |path| then dot
    else ScanDot(path, p + 1, if path[p] == '.' then Some(p) else dot)
  }

  /** `filepath_extension`: the text after the last dot (possibly empty), or
      None (the NULL pointer) when the path has no dot at all. */
  function Extension(path: string): (r: Option<string>)
    ensures r.None? <==> '.' !in path
    ensures r.Some? ==> '.' !in r.value
    ensures r.Some? ==> |r.value| < |path| && path[|path| - |r.value| - 1] == '.'
                        && path[|path| - |r.value|..] == r.value
  {
    match ScanDot(path, 0, None)
    case None => None
    case Some(k) => Some(path[k + 1..])
  }

  /** `source_filepath`: the path has an extension and it is exactly "vlt".
      Such a path ends in ".vlt"; `SourcePathIffSuffix` gives the converse. */
  function IsSourcePath(path: string): (b: bool)
    ensures b ==> |path| >= 4 && path[|path| - 4..] == ".vlt"
  {
    match Extension(path)
    case None => false
    case Some(ext) => ext == "vlt"
  }

  /** A path is a source path exactly when it ends in ".vlt": the last dot
      of such a path is the one before "vlt", whatever comes before it. */
  lemma SourcePathIffSuffix(path: string)
    ensures IsSourcePath(path) <==> |path| >= 4 && path[|path| - 4..] == ".vlt"
  {
    if |path| >= 4 && path[|path| - 4..] == ".vlt" {
      var n := |path|;
      assert path[n - 4] == '.';
      assert '.' in path;
      assert path[n - 3] != '.' && path[n - 2] != '.' && path[n - 1] != '.';
    }
  }
}
