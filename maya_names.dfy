/** The string helpers of haymaker/maya.py: Maya node names with
    `namespace:` prefixes, `|`-separated DAG paths and `.f[...]` face
    suffixes; the home-directory rewrite of file paths; the texture-name
    test of `fix_color_mode`. */
module MayaNames {
  import opened Common
  import opened Text

  /** The separator of a face-set suffix such as `.f[0:11]`. */
  const Face := ".f"

  /** `name.split('.f')[0]`: the name before its first face suffix. */
  function BeforeFace(name: string): (w: string)
    ensures StartsWith(name, w) && !Contains(w, Face)
    ensures w == name || StartsWith(name[|w|..], Face)
    ensures Contains(name, Face) ==> |w| == Find(name, Face)
  {
    SplitPartsFree(name, Face);
    Split(name, Face)[0]
  }

  /** `w.split(':')[-1]`: the text after the last `:` (all of `w` when it
      has none). */
  function AfterLastColon(w: string): (r: string)
    ensures ':' !in r && EndsWith(w, r)
    ensures ':' in w ==> EndsWith(w, ":" + r)
    ensures ':' !in w ==> r == w
  {
    SplitLast(w, ":");
    ContainsChar(Last(Split(w, ":")), ':');
    ContainsChar(w, ':');
    if ':' in w then
      SplitCount(w, ':');
      Last(Split(w, ":"))
    else
      SplitNone(w, ":");
      Last(Split(w, ":"))
  }

  /** `w.split(':')[0]`: the text before the first `:` (all of `w` when it
      has none). */
  function BeforeFirstColon(w: string): (r: string)
    ensures ':' !in r && StartsWith(w, r)
    ensures ':' in w ==> StartsWith(w, r + ":")
    ensures ':' !in w ==> r == w
  {
    SplitPartsFree(w, ":");
    ContainsChar(Split(w, ":")[0], ':');
    ContainsChar(w, ':');
    var i := Find(w, ":");
    if i >= 0 then
      StartsWithChar(w, ':', i);
      assert w[..i + 1] == w[..i] + ":";
      Split(w, ":")[0]
    else
      Split(w, ":")[0]
  }

  /** `_remove_namespace`: the name after the last `:` before its face
      suffix, with the text between the first and a second `.f` put back. */
  function RemoveNamespace(name: string): string
  {
    var face := Split(name, Face);
    var without := AfterLastColon(face[0]);
    if |face| > 1 then without + Face + face[1] else without
  }

  /** At most one face suffix: the case in which `_remove_namespace`
      keeps the whole suffix. */
  predicate AtMostOneFace(name: string)
  {
    !Contains(name, Face) || !Contains(name[Find(name, Face) + |Face|..], Face)
  }

  /** With at most one face suffix, `_remove_namespace` keeps everything
      from the `.f` on and drops what precedes the last `:` before it. */
  lemma RemoveNamespaceSpec(name: string)
    requires AtMostOneFace(name)
    ensures var w := BeforeFace(name);
      RemoveNamespace(name) == AfterLastColon(w) + name[|w|..]
  {
    var w := BeforeFace(name);
    if Contains(name, Face) {
      var i := Find(name, Face);
      var t := name[i + 2..];
      assert Split(name, Face) == [name[..i]] + Split(t, Face);
      SplitNone(t, Face);
      assert name[i..] == Face + t by {
        assert name[i..][..2] == Face;
      }
    } else {
      SplitNone(name, Face);
    }
  }

  /** `_get_namespace`: the text before the first `:` of the part before
      the face suffix, or `''` when that part has no `:`. */
  function GetNamespace(name: string): (r: string)
    ensures ':' !in r
  {
    var w := BeforeFace(name);
    if ':' in w then BeforeFirstColon(w) else ""
  }

  /** `_set_namespace`. */
  function SetNamespace(namespace: string, obj: string): string
  {
    if namespace != "" then namespace + ":" + obj else obj
  }

  /** A name's `:` occurrences: at most one. */
  predicate AtMostOneColon(name: string)
  {
    forall i, j | 0 <= i < j < |name| :: !(name[i] == ':' && name[j] == ':')
  }

  /** Reading the namespace and the bare name off a plain node name and
      putting them back together gives the name again, for a name with at
      most one `:` that does not start with it (the root namespace `:x`
      has an empty namespace and comes back as `x`). */
  lemma NamespaceRoundTrip(name: string)
    requires !Contains(name, Face) && AtMostOneColon(name)
    requires |name| > 0 ==> name[0] != ':'
    ensures SetNamespace(GetNamespace(name), RemoveNamespace(name)) == name
  {
    SplitNone(name, Face);
    var ns, bare := GetNamespace(name), RemoveNamespace(name);
    if ':' in name {
      assert StartsWith(name, ns + ":");
      assert EndsWith(name, ":" + bare);
      var p, q := |ns|, |name| - |bare| - 1;
      assert name[p] == ':' && name[q] == ':';
      assert p == q;
      assert ns != "";
      assert name == name[..p] + ":" + name[p + 1..];
    }
  }

  /** `remove_namespaces`: `_remove_namespace` on every `|`-separated
      component. */
  function RemoveNamespaces(fullname: string): string
  {
    var parts := Split(fullname, "|");
    Join(seq(|parts|, k requires 0 <= k < |parts| => RemoveNamespace(parts[k])), "|")
  }

  /** `_remove_namespace` adds no character the name lacks (checked here
      for `|`, which keeps the component structure). */
  lemma RemoveNamespaceNoBar(name: string)
    requires '|' !in name
    ensures '|' !in RemoveNamespace(name)
  {
    SplitPartsChars(name, Face, '|');
    var face := Split(name, Face);
    assert '|' !in face[0];
    var b := AfterLastColon(face[0]);
    assert '|' !in b by {
      assert b == face[0][|face[0]| - |b|..];
    }
  }

  /** `remove_namespaces` keeps the `|` structure: as many components as
      before, each with its namespace removed. */
  lemma RemoveNamespacesStructure(fullname: string)
    ensures var parts := Split(fullname, "|");
      var out := Split(RemoveNamespaces(fullname), "|");
      |out| == |parts| && forall k | 0 <= k < |parts| :: out[k] == RemoveNamespace(parts[k])
  {
    var parts := Split(fullname, "|");
    var mapped := seq(|parts|, k requires 0 <= k < |parts| => RemoveNamespace(parts[k]));
    SplitPartsFree(fullname, "|");
    forall k | 0 <= k < |parts|
      ensures '|' !in mapped[k]
    {
      ContainsChar(parts[k], '|');
      RemoveNamespaceNoBar(parts[k]);
    }
    SplitJoin(mapped, '|');
  }

  /** No occurrence of `.f` starts inside `b + ".f" + t` before the `.f`
      itself when `b` has none. */
  lemma FaceFirstAt(b: string, t: string)
    requires !Contains(b, Face)
    ensures forall j | 0 <= j < |b| :: !StartsWith((b + Face + t)[j..], Face)
  {
    var s := b + Face + t;
    FindFirst(b, Face);
    forall j | 0 <= j < |b|
      ensures !StartsWith(s[j..], Face)
    {
      if j + 2 <= |b| {
        assert Find(b, Face) < 0;
        assert !StartsWith(b[j..], Face);
        assert s[j..][..2] == b[j..][..2];
      } else {
        assert s[j..][1] == '.';
      }
    }
  }

  /** A name already without namespace (and with at most one face suffix)
      is left alone. */
  lemma RemoveNamespaceIdempotent(name: string)
    requires AtMostOneFace(name)
    ensures RemoveNamespace(RemoveNamespace(name)) == RemoveNamespace(name)
  {
    var face := Split(name, Face);
    var b := AfterLastColon(face[0]);
    SplitPartsFree(name, Face);
    NotContainsSuffix(face[0], b, Face);
    ContainsChar(b, ':');
    if |face| > 1 {
      var i := Find(name, Face);
      var t := name[i + 2..];
      assert face == [name[..i]] + Split(t, Face);
      SplitNone(t, Face);
      assert face[1] == t;
      FaceFirstAt(b, t);
      SplitCons(b, Face, t);
      SplitNone(t, Face);
      assert Split(b + Face + t, Face)[0] == b;
    } else {
      assert !Contains(name, Face);
      SplitNone(b, Face);
    }
  }

  /** Components with at most one face suffix each. */
  predicate ComponentsAtMostOneFace(fullname: string)
  {
    forall k | 0 <= k < |Split(fullname, "|")| :: AtMostOneFace(Split(fullname, "|")[k])
  }

  /** `remove_namespaces` is idempotent on paths whose components carry at
      most one face suffix each. */
  lemma RemoveNamespacesIdempotent(fullname: string)
    requires ComponentsAtMostOneFace(fullname)
    ensures RemoveNamespaces(RemoveNamespaces(fullname)) == RemoveNamespaces(fullname)
  {
    var once := RemoveNamespaces(fullname);
    var parts := Split(fullname, "|");
    var out := Split(once, "|");
    RemoveNamespacesStructure(fullname);
    forall k | 0 <= k < |parts|
      ensures RemoveNamespace(out[k]) == out[k]
    {
      RemoveNamespaceIdempotent(parts[k]);
    }
    assert seq(|out|, k requires 0 <= k < |out| => RemoveNamespace(out[k]))
      == seq(|parts|, k requires 0 <= k < |parts| => RemoveNamespace(parts[k]));
  }

  /** `get_foolproof_file_path`: the normalised path with `/` separators,
      and the same path with the home directory replaced by
      `%USERPROFILE%`. */
  function FoolproofFilePath(host: Host, path: string): (paths: (string, string))
  {
    var user := Replace(host.home, "\\", "/");
    var og := Replace(host.normpath(path), "\\", "/");
    (og, Replace(og, user, "%USERPROFILE%"))
  }

  /** Both paths use `/` only, and the foolproof path differs from the
      original exactly when the home directory occurs in it. */
  lemma FoolproofFilePathSpec(host: Host, path: string)
    requires Replace(host.home, "\\", "/") != "%USERPROFILE%"
    ensures var (og, fp) := FoolproofFilePath(host, path);
      '\\' !in og
      && (fp == og <==> !Contains(og, Replace(host.home, "\\", "/")))
  {
    var user := Replace(host.home, "\\", "/");
    var og := Replace(host.normpath(path), "\\", "/");
    ReplaceCharGone(host.normpath(path), '\\', "/");
    ReplaceUnchangedIff(og, user, "%USERPROFILE%");
  }

  /** The colour settings `fix_color_mode` writes on a file node. */
  datatype ColorMode = ColorMode(colorSpace: string, alphaIsLuminance: bool)

  /** `name[:name.find('.')]`: the text before the first `.`; without a
      `.`, `find` gives -1 and the slice drops the last character. */
  function Stem(name: string): (r: string)
    ensures '.' !in name ==> r == name[..if |name| > 0 then |name| - 1 else 0]
    ensures '.' in name ==> '.' !in r && StartsWith(name, r + ".")
  {
    ContainsChar(name, '.');
    var i := Find(name, ".");
    if i >= 0 then
      FindFirst(name, ".");
      StartsWithChar(name, '.', i);
      forall j | 0 <= j < i
        ensures name[j] != '.'
      {
        StartsWithChar(name, '.', j);
      }
      assert name[..i + 1] == name[..i] + ".";
      name[..i]
    else if |name| > 0 then name[..|name| - 1]
    else ""
  }

  /** The texture-type test of `fix_color_mode`. */
  predicate IsBaseColor(name: string)
  {
    EndsWith(Lower(Stem(name)), "_basecolor")
  }

  /** `fix_color_mode`: nothing for an empty texture path; base-colour
      textures are sRGB without alpha-is-luminance, all others Raw with it. */
  function FixColorMode(host: Host, pathFile: string): (r: Option<ColorMode>)
    ensures r.None? <==> pathFile == ""
    ensures r.Some? ==> (r.value.colorSpace == "sRGB" <==> !r.value.alphaIsLuminance)
    ensures r.Some? ==> r.value == if IsBaseColor(host.basename(pathFile)) then ColorMode("sRGB", false) else ColorMode("Raw", true)
  {
    if pathFile == "" then None
    else if IsBaseColor(host.basename(pathFile)) then Some(ColorMode("sRGB", false))
    else Some(ColorMode("Raw", true))
  }

  lemma {:induction false} FindDotUpper(s: string)
    ensures Find(Upper(s), ".") == Find(s, ".")
    decreases |s|
  {
    StartsWithChar(s, '.', 0);
    StartsWithChar(Upper(s), '.', 0);
    if |s| > 0 {
      assert Upper(s)[1..] == Upper(s[1..]);
      FindDotUpper(s[1..]);
    }
  }

  /** The test ignores case: upper-casing the file name changes nothing. */
  lemma BaseColorIgnoresCase(name: string)
    ensures IsBaseColor(Upper(name)) == IsBaseColor(name)
  {
    FindDotUpper(name);
    ContainsChar(name, '.');
    ContainsChar(Upper(name), '.');
    var u := Stem(Upper(name));
    var l := Stem(name);
    assert |u| == |l|;
    assert Lower(u) == Lower(l) by {
      forall k | 0 <= k < |l|
        ensures Lower(u)[k] == Lower(l)[k]
      {
        assert u[k] == Upper(name)[k];
      }
    }
  }

  /** The stem of `base.ext` is `base` when `base` has no `.`. */
  lemma StemOf(base: string, ext: string)
    requires '.' !in base
    ensures Stem(base + "." + ext) == base
  {
    var name := base + "." + ext;
    assert name[|base|] == '.';
    var r := Stem(name);
    assert name[..|r| + 1] == r + ".";
    assert name[|r|] == '.';
    assert |r| >= |base|;
    assert |r| <= |base|;
    assert r == name[..|r|];
  }

  lemma LowerAppend(base: string, suffix: string)
    ensures Lower(base + suffix) == Lower(base) + Lower(suffix)
  {
  }

  /** Texture files named `<base>_BaseColor.<ext>` are base colour. */
  lemma BaseColorNamed(base: string, ext: string)
    requires '.' !in base
    ensures IsBaseColor(base + "_BaseColor." + ext)
  {
    var b := base + "_BaseColor";
    assert '.' !in b;
    assert base + "_BaseColor." + ext == b + "." + ext;
    StemOf(b, ext);
    LowerAppend(base, "_BaseColor");
    assert Lower("_BaseColor") == "_basecolor";
    var l := Lower(b);
    assert l[|l| - 10..] == "_basecolor";
  }

  /** Texture files named `<base>_Normal.<ext>` are not. */
  lemma NormalNamed(base: string, ext: string)
    requires '.' !in base
    ensures !IsBaseColor(base + "_Normal." + ext)
  {
    var b := base + "_Normal";
    assert '.' !in b;
    assert base + "_Normal." + ext == b + "." + ext;
    StemOf(b, ext);
    var l := Lower(b);
    assert l[|l| - 1] == 'l';
  }

  /** Without a `.` the last character is dropped before the test, so a
      name is judged by all but its last character. */
  lemma NoDotDropsLast(name: string, c: char)
    requires '.' !in name && c != '.'
    ensures IsBaseColor(name + [c]) == EndsWith(Lower(name), "_basecolor")
  {
    assert (name + [c])[..|name|] == name;
  }
}
