/** The general helpers of haymaker/utils.py: dictionary lookup with a
    default, path normalisation, and the version component of file names
    such as `shot.0003.ma`. */
module Utils {
  import opened Common
  import opened Text

  /** `get_or_default`. */
  function GetOrDefault<K, V>(d: map<K, V>, key: K, default: V): (r: V)
    ensures key in d ==> r == d[key]
    ensures key !in d ==> r == default
  {
    if key in d then d[key] else default
  }

  /** `normalize_path`: `os.path.normpath` with `/` separators only. */
  function NormalizePath(host: Host, path: string): (r: string)
    ensures '\\' !in r
  {
    ReplaceCharGone(host.normpath(path), '\\', "/");
    Replace(host.normpath(path), "\\", "/")
  }

  /** `normalize_user_path`: the normalised path with the normalised home
      directory written as `~`. */
  function NormalizeUserPath(host: Host, path: string): string
  {
    Replace(NormalizePath(host, path), NormalizePath(host, host.home), "~")
  }

  /** A path outside the home directory is only normalised; one that
      mentions it is rewritten. */
  lemma NormalizeUserPathSpec(host: Host, path: string)
    requires NormalizePath(host, host.home) != "~"
    ensures NormalizeUserPath(host, path) == NormalizePath(host, path)
      <==> !Contains(NormalizePath(host, path), NormalizePath(host, host.home))
  {
    ReplaceUnchangedIff(NormalizePath(host, path), NormalizePath(host, host.home), "~");
  }

  /** The version component written into file names: `f'{version:04}'`. */
  function VersionTag(version: int): (r: string)
    ensures |r| >= 4 && '.' !in r
  {
    FormatIntChars(version, 4);
    FormatInt(version, 4)
  }

  /** The `.`-separated pieces `increment_version_path` produces from the
      pieces of a name with at least one `.`: an integer second-to-last
      piece becomes that number plus `delta`; otherwise version 1 is
      inserted before the extension. */
  function IncrementedParts(parts: seq<string>, delta: int): (out: seq<string>)
    requires |parts| >= 2
    ensures |out| >= 3 && out[|out| - 1] == parts[|parts| - 1]
  {
    var n := |parts|;
    if n > 2 && IsDigits(parts[n - 2]) then
      parts[..n - 2] + [VersionTag(ParseNat(parts[n - 2]) + delta), parts[n - 1]]
    else
      parts[..n - 1] + [VersionTag(1), parts[n - 1]]
  }

  /** The pieces of a version-tagged name `get_version_path` is meant to
      produce: the second-to-last piece of a name with more than two
      pieces is taken to be the old version and replaced. */
  function VersionedParts(parts: seq<string>, version: int): (out: seq<string>)
    requires |parts| >= 2
    ensures |out| >= 3 && out[|out| - 1] == parts[|parts| - 1]
  {
    var n := |parts|;
    if n > 2 then parts[..n - 2] + [VersionTag(version), parts[n - 1]]
    else parts[..n - 1] + [VersionTag(version), parts[n - 1]]
  }

  /** Pieces without `.` joined with `.` split back into themselves. */
  lemma JoinedDots(parts: seq<string>)
    requires |parts| >= 1 && forall k | 0 <= k < |parts| :: '.' !in parts[k]
    ensures Split(Join(parts, "."), ".") == parts
  {
    SplitJoin(parts, '.');
  }

  lemma SplitDotsFree(path: string)
    ensures forall k | 0 <= k < |Split(path, ".")| :: '.' !in Split(path, ".")[k]
  {
    var parts := Split(path, ".");
    SplitPartsFree(path, ".");
    forall k | 0 <= k < |parts|
      ensures '.' !in parts[k]
    {
      ContainsChar(parts[k], '.');
    }
  }

  /** A path has at least two pieces exactly when it has a `.`. */
  lemma DotPieces(path: string)
    ensures |Split(path, ".")| >= 2 <==> '.' in path
  {
    SplitCount(path, '.');
  }

  /** `increment_version_path`: `None` for a path without `.`; otherwise
      the path whose `.`-pieces are `IncrementedParts` of its own. */
  method IncrementVersionPath(path: string, delta: int) returns (r: Option<string>)
    ensures r.None? <==> '.' !in path
    ensures r.Some? ==>
      |Split(path, ".")| >= 2
      && Split(r.value, ".") == IncrementedParts(Split(path, "."), delta)
      && r.value == Join(IncrementedParts(Split(path, "."), delta), ".")
  {
    DotPieces(path);
    var pathSplit := Split(path, ".");
    var version := 1;
    if |pathSplit| <= 1 {
      // the source logs an error here
      return None;
    }
    ghost var parts := pathSplit;
    if |pathSplit| > 2 {
      var slot := pathSplit[|pathSplit| - 2];
      if IsDigits(slot) {
        version := ParseNat(slot) + delta;
        pathSplit := pathSplit[..|pathSplit| - 2] + pathSplit[|pathSplit| - 1..];
      }
    }
    pathSplit := pathSplit[..|pathSplit| - 1] + [VersionTag(version)] + pathSplit[|pathSplit| - 1..];
    assert pathSplit == IncrementedParts(parts, delta);
    SplitDotsFree(path);
    JoinedDots(pathSplit);
    return Some(Join(pathSplit, "."));
  }

  /** The number in a version piece reads back as the version written. */
  lemma VersionTagParses(version: nat)
    ensures IsDigits(VersionTag(version)) && ParseNat(VersionTag(version)) == version
  {
    FormatIntParses(version, 4);
  }

  /** Incrementing twice adds both deltas, as long as the version never
      goes below zero: the first increment leaves a version piece the
      second one recognises. */
  lemma IncrementTwice(parts: seq<string>, d1: nat, d2: nat)
    requires |parts| >= 2
    ensures var n := |parts|;
      var base := if n > 2 && IsDigits(parts[n - 2]) then ParseNat(parts[n - 2]) else 1;
      var once := IncrementedParts(parts, d1);
      var twice := IncrementedParts(once, d2);
      |twice| == |once|
      && twice[..|twice| - 2] == once[..|once| - 2]
      && twice[|twice| - 2] == VersionTag(base + (if n > 2 && IsDigits(parts[n - 2]) then d1 else 0) + d2)
  {
    var n := |parts|;
    var once := IncrementedParts(parts, d1);
    var m := |once|;
    if n > 2 && IsDigits(parts[n - 2]) {
      VersionTagParses(ParseNat(parts[n - 2]) + d1);
    } else {
      VersionTagParses(1);
    }
    assert IsDigits(once[m - 2]);
  }

  /** With an integer version piece, incrementing is setting the version to
      that number plus `delta`; without one, it is setting version 1 on a
      name with a single `.`. */
  lemma IncrementIsSetVersion(parts: seq<string>, delta: int)
    requires |parts| >= 2
    ensures |parts| > 2 && IsDigits(parts[|parts| - 2]) ==>
      IncrementedParts(parts, delta) == VersionedParts(parts, ParseNat(parts[|parts| - 2]) + delta)
    ensures |parts| == 2 ==> IncrementedParts(parts, delta) == VersionedParts(parts, 1)
    ensures |parts| > 2 && !IsDigits(parts[|parts| - 2]) ==>
      |IncrementedParts(parts, delta)| == |VersionedParts(parts, 1)| + 1
  {
  }

  /** `get_version_path` as written: it builds the new name but has no
      `return` after it, so every call returns `None`. Its guard
      `len(path_split) < 2` cannot hold after the `<= 1` return above it,
      so the old version piece would never have been dropped either; that
      branch is left out here as it can never run. */
  method GetVersionPathAsWritten(path: string, version: int) returns (r: Option<string>)
    ensures r == None
  {
    var pathSplit := Split(path, ".");
    if |pathSplit| <= 1 {
      return None;
    }
    pathSplit := pathSplit[..|pathSplit| - 1] + [VersionTag(version)] + pathSplit[|pathSplit| - 1..];
    var pathNew := Join(pathSplit, ".");
    r := None;
  }

  /** `get_version_path` as we read its intent: the guard reads `> 2` and
      the new name is returned. Which piece the version replaces is a
      reading, not stated by the source: with three or more pieces the
      second-to-last one goes whatever it holds (`my.scene.ma` becomes
      `my.0003.ma`). */
  method GetVersionPath(path: string, version: int) returns (r: Option<string>)
    ensures r.None? <==> '.' !in path
    ensures r.Some? ==>
      |Split(path, ".")| >= 2
      && Split(r.value, ".") == VersionedParts(Split(path, "."), version)
  {
    DotPieces(path);
    var pathSplit := Split(path, ".");
    if |pathSplit| <= 1 {
      return None;
    }
    ghost var parts := pathSplit;
    if |pathSplit| > 2 {
      pathSplit := pathSplit[..|pathSplit| - 2] + pathSplit[|pathSplit| - 1..];
    }
    pathSplit := pathSplit[..|pathSplit| - 1] + [VersionTag(version)] + pathSplit[|pathSplit| - 1..];
    assert pathSplit == VersionedParts(parts, version);
    SplitDotsFree(path);
    JoinedDots(pathSplit);
    return Some(Join(pathSplit, "."));
  }

  /** Setting a version and reading it back gives that version. */
  lemma VersionedPartsReadBack(parts: seq<string>, version: nat)
    requires |parts| >= 2
    ensures var out := VersionedParts(parts, version);
      IsDigits(out[|out| - 2]) && ParseNat(out[|out| - 2]) == version
  {
    VersionTagParses(version);
  }
}
