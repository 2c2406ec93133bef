/**
  The two pieces of Go's `path/filepath` package that the index handler of net/net.go
  relies on, for a Unix system where '/' is the only separator: `Ext`, and `Match`
  for the pattern "*.txt" that the index handler's `Glob` applies to each entry of
  the working directory.
 */
module FilePath {
  import opened Wrappers
  import opened Bytes

  /** No separator occurs in `path[lo..hi]`. */
  predicate NoSlashIn(path: seq<byte>, lo: int, hi: int)
    requires 0 <= lo <= hi <= |path|
  {
    forall k :: lo <= k < hi ==> path[k] != Slash
  }

  /**
    The position of the last dot in `path[..i]` that no separator follows within
    `path[..i]`, found by scanning backwards from `i` as `filepath.Ext` does.
   */
  function LastDotOfBase(path: seq<byte>, i: nat): (r: Option<nat>)
    requires i <= |path|
    ensures r.Some? ==> r.value < i && path[r.value] == Dot
    ensures r.Some? ==> forall k :: r.value < k < i ==> path[k] != Dot && path[k] != Slash
    ensures r.None? ==> forall j :: 0 <= j < i && path[j] == Dot ==> !NoSlashIn(path, j, i)
    decreases i
  {
    if i == 0 then None
    else if path[i - 1] == Slash then None
    else if path[i - 1] == Dot then Some(i - 1)
    else LastDotOfBase(path, i - 1)
  }

  /** `filepath.Ext`: the suffix from the final dot of the final element, or "". */
  function Ext(path: seq<byte>): (e: seq<byte>)
    ensures |e| <= |path| && e == path[|path| - |e|..]
    ensures e != [] ==> e[0] == Dot
    ensures forall k :: 0 < k < |e| ==> e[k] != Dot && e[k] != Slash
    ensures e == [] ==> forall j :: 0 <= j < |path| && path[j] == Dot ==> !NoSlashIn(path, j, |path|)
  {
    match LastDotOfBase(path, |path|)
    case None => []
    case Some(j) => path[j..]
  }

  /** `file[:len(file)-len(filepath.Ext(file))]`: a file name without its extension. */
  function TrimExt(file: seq<byte>): (base: seq<byte>)
    ensures file == base + Ext(file)
  {
    file[..|file| - |Ext(file)|]
  }

  /** The extension every page file carries. */
  const TxtExt: seq<byte> := Ascii(".txt")

  /**
    `filepath.Match("*.txt", name)`: the star matches any run of non-separator bytes,
    so a name matches when it has no separator and ends in ".txt".
   */
  predicate MatchesTxtGlob(name: seq<byte>) {
    && NoSlashIn(name, 0, |name|)
    && |name| >= |TxtExt|
    && name[|name| - |TxtExt|..] == TxtExt
  }

  /** The extension of `stem + ".txt"` is ".txt", whatever `stem` holds. */
  lemma ExtOfTxt(stem: seq<byte>)
    ensures Ext(stem + TxtExt) == TxtExt
  {
    var f := stem + TxtExt;
    var n := |stem|;
    assert f[n] == Dot;
    assert forall k :: n < k < |f| ==> f[k] != Dot && f[k] != Slash by {
      forall k | n < k < |f| ensures f[k] != Dot && f[k] != Slash {
        assert f[k] == TxtExt[k - n];
      }
    }
    assert NoSlashIn(f, n, |f|);
    var r := LastDotOfBase(f, |f|);
    assert r.Some?;
    assert r.value == n;
  }

  /** Trimming the extension from `stem + ".txt"` gives back `stem`. */
  lemma TrimExtOfTxt(stem: seq<byte>)
    ensures TrimExt(stem + TxtExt) == stem
  {
    ExtOfTxt(stem);
  }
}
