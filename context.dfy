/** The pipeline context of haymaker/context.py: the studio settings read
    from `pipeline.json` and the folder layout of an asset,
    `<home>/<disk>/<project>/<discipline>/<group>/<asset>/<dcc>/<version>/<file>`. */
module Context {
  import opened Common
  import opened Text

  datatype Disk = Work | Store | Config

  /** `Disk.value`. */
  function DiskValue(disk: Disk): string
  {
    match disk
    case Work => "work"
    case Store => "store"
    case Config => "config"
  }

  datatype ContextType = AssetType | SetType | ShotType

  datatype DisciplineData = DisciplineData(name: string, nameNice: string, contextType: ContextType)

  datatype Discipline = Model | Surface | Rig | Set | Lay | Ani | Lit

  /** `Discipline.value`. */
  function DisciplineValue(d: Discipline): DisciplineData
  {
    match d
    case Model => DisciplineData("model", "Modeling", AssetType)
    case Surface => DisciplineData("surface", "Surfacing", AssetType)
    case Rig => DisciplineData("rig", "Rigging", AssetType)
    case Set => DisciplineData("set", "Set Dressing", SetType)
    case Lay => DisciplineData("lay", "Layout", ShotType)
    case Ani => DisciplineData("ani", "Animation", ShotType)
    case Lit => DisciplineData("lit", "Lighting", ShotType)
  }

  datatype DCC = Maya | Painter | Unreal

  /** `DCC.value`. */
  function DCCValue(dcc: DCC): string
  {
    match dcc
    case Maya => "maya"
    case Painter => "painter"
    case Unreal => "unreal"
  }

  /** The disciplines `PipeContext.from_dict` gives each application. */
  function DisciplinesFor(dcc: DCC): set<Discipline>
  {
    match dcc
    case Maya => {Model, Surface, Rig, Set, Lay, Ani, Lit}
    case Painter => {Surface}
    case Unreal => {Surface, Lit}
  }

  datatype DCCData = DCCData(name: string, path: string, pathBatch: Option<string>, disciplines: set<Discipline>)

  datatype PipeContext = PipeContext(
    company: string, version: string, username: string, home: string,
    dccs: map<DCC, DCCData>, lastModified: real)

  datatype AssetContext = AssetContext(dcc: DCC, discipline: Discipline, project: string, group: string, name: string)

  /** The exceptions reading the settings can raise. */
  datatype ContextError =
    | MissingKey(key: string)          // KeyError
    | NotSubscriptable(key: string)    // TypeError: the value is not a dict
    | NotText(key: string)             // the value is not a string
    | TypeError(message: string)

  /** `j[key]` on a decoded JSON value. */
  function Get(j: Json, key: string): Result<Json, ContextError>
  {
    if !j.Object? then Err(NotSubscriptable(key))
    else if key !in j.fields then Err(MissingKey(key))
    else Ok(j.fields[key])
  }

  /** `j[key]` where the settings expect a string. */
  function GetText(j: Json, key: string): Result<string, ContextError>
  {
    match Get(j, key)
    case Err(e) => Err(e)
    case Ok(v) => if v.Text? then Ok(v.s) else Err(NotText(key))
  }

  /** `DCCData.from_dict`: `path` is required, `path_batch` optional; a
      null `path_batch` is `None`, as an absent one is. */
  function DCCDataFromDict(name: string, data: Json, disciplines: set<Discipline>): Result<DCCData, ContextError>
  {
    match GetText(data, "path")
    case Err(e) => Err(e)
    case Ok(path) =>
      if "path_batch" !in data.fields || data.fields["path_batch"].Null? then Ok(DCCData(name, path, None, disciplines))
      else
        match GetText(data, "path_batch")
        case Err(e) => Err(e)
        case Ok(batch) => Ok(DCCData(name, path, Some(batch), disciplines))
  }

  /** One entry of the `dccs` dictionary `PipeContext.from_dict` builds. */
  function DCCEntry(dccs: Json, dcc: DCC): (r: Result<DCCData, ContextError>)
    ensures r.Ok? <==> dccs.Object? && DCCValue(dcc) in dccs.fields && DCCWellFormed(dccs.fields[DCCValue(dcc)])
    ensures r.Ok? ==>
      var data := dccs.fields[DCCValue(dcc)];
      r.value.name == DCCValue(dcc) && r.value.disciplines == DisciplinesFor(dcc)
      && r.value.path == data.fields["path"].s
      && (r.value.pathBatch.None? <==> "path_batch" !in data.fields || data.fields["path_batch"].Null?)
      && (r.value.pathBatch.Some? ==> r.value.pathBatch.value == data.fields["path_batch"].s)
  {
    match Get(dccs, DCCValue(dcc))
    case Err(e) => Err(e)
    case Ok(data) => DCCDataFromDict(DCCValue(dcc), data, DisciplinesFor(dcc))
  }

  /** `PipeContext.from_dict`, failing with the first lookup Python would
      fail on: the three applications in order, then `company`, `version`,
      `user.name` and `user.home`. */
  function PipeContextFromDict(data: Json, lastModified: real): Result<PipeContext, ContextError>
  {
    match Get(data, "dccs")
    case Err(e) => Err(e)
    case Ok(dccs) =>
      var maya, painter, unreal := DCCEntry(dccs, Maya), DCCEntry(dccs, Painter), DCCEntry(dccs, Unreal);
      if maya.Err? then Err(maya.error)
      else if painter.Err? then Err(painter.error)
      else if unreal.Err? then Err(unreal.error)
      else
        var company, version := GetText(data, "company"), GetText(data, "version");
        if company.Err? then Err(company.error)
        else if version.Err? then Err(version.error)
        else
          match Get(data, "user")
          case Err(e) => Err(e)
          case Ok(user) =>
            var username, home := GetText(user, "name"), GetText(user, "home");
            if username.Err? then Err(username.error)
            else if home.Err? then Err(home.error)
            else
              Ok(PipeContext(
                company.value, version.value, username.value, home.value + "/" + company.value,
                map[Maya := maya.value, Painter := painter.value, Unreal := unreal.value],
                lastModified))
  }

  /** `key` holds a string in `j`. */
  predicate TextAt(j: Json, key: string)
  {
    j.Object? && key in j.fields && j.fields[key].Text?
  }

  /** What the settings of one application must hold. */
  predicate DCCWellFormed(j: Json)
  {
    TextAt(j, "path") && ("path_batch" in j.fields ==> j.fields["path_batch"].Text? || j.fields["path_batch"].Null?)
  }

  /** A `pipeline.json` document every lookup of `from_dict` succeeds on. */
  predicate WellFormed(data: Json)
  {
    data.Object? && "dccs" in data.fields
    && (var dccs := data.fields["dccs"];
        dccs.Object?
        && "maya" in dccs.fields && DCCWellFormed(dccs.fields["maya"])
        && "painter" in dccs.fields && DCCWellFormed(dccs.fields["painter"])
        && "unreal" in dccs.fields && DCCWellFormed(dccs.fields["unreal"]))
    && TextAt(data, "company") && TextAt(data, "version")
    && "user" in data.fields && TextAt(data.fields["user"], "name") && TextAt(data.fields["user"], "home")
  }

  /** Every application is present, under its own name, with its disciplines. */
  predicate Valid(ctx: PipeContext)
  {
    forall dcc: DCC :: dcc in ctx.dccs && ctx.dccs[dcc].name == DCCValue(dcc) && ctx.dccs[dcc].disciplines == DisciplinesFor(dcc)
  }

  /** `from_dict` succeeds exactly on well-formed documents, and then holds
      every application with its name and disciplines, the company, version
      and user name as written, and the company folder under the user's
      home as `home`. */
  lemma PipeContextFromDictSpec(data: Json, lastModified: real)
    ensures PipeContextFromDict(data, lastModified).Ok? <==> WellFormed(data)
    ensures PipeContextFromDict(data, lastModified).Ok? ==>
      var ctx, user := PipeContextFromDict(data, lastModified).value, data.fields["user"];
      Valid(ctx)
      && ctx.company == data.fields["company"].s
      && ctx.version == data.fields["version"].s
      && ctx.username == user.fields["name"].s
      && ctx.home == user.fields["home"].s + "/" + data.fields["company"].s
      && ctx.lastModified == lastModified
      && forall dcc | dcc in ctx.dccs :: ctx.dccs[dcc] == DCCEntry(data.fields["dccs"], dcc).value
  {
    if data.Object? && "dccs" in data.fields {
      var dccs := data.fields["dccs"];
      var r := PipeContextFromDict(data, lastModified);
      if r.Ok? {
        forall dcc: DCC
          ensures dcc in r.value.dccs && r.value.dccs[dcc] == DCCEntry(dccs, dcc).value
        {
          match dcc
          case Maya =>
          case Painter =>
          case Unreal =>
        }
      }
    }
  }

  /** `_get_asset_dir`; the pipeline context is passed in rather than
      loaded. */
  function AssetDir(ctx: PipeContext, a: AssetContext, disk: Disk): string
    requires a.dcc in ctx.dccs
  {
    ctx.home + "/" + DiskValue(disk) + "/" + a.project + "/" + DisciplineValue(a.discipline).name
      + "/" + a.group + "/" + a.name + "/" + ctx.dccs[a.dcc].name
  }

  /** `'.'.join([name, ext])` with the asset's name when `name` is falsy. */
  function BaseName(a: AssetContext, name: Option<string>, ext: string): (r: string)
    ensures StartsWith(r, if name.None? || name.value == "" then a.name else name.value)
    ensures EndsWith(r, "." + ext)
  {
    (if name.None? || name.value == "" then a.name else name.value) + "." + ext
  }

  /** The `version` argument of `get_version_dir`: an integer, a folder
      name such as `"active"`, or `None`. */
  datatype Version = Number(n: int) | Label(s: string) | NoVersion

  /** The folder name: an integer padded to three digits, anything else
      formatted as is. */
  function VersionName(v: Version): string
  {
    match v
    case Number(n) => FormatInt(n, 3)
    case Label(s) => s
    case NoVersion => "None"
  }

  /** `get_asset_file`. */
  function AssetFile(ctx: PipeContext, a: AssetContext, disk: Disk, name: Option<string>, ext: string): string
    requires a.dcc in ctx.dccs
  {
    AssetDir(ctx, a, disk) + "/" + BaseName(a, name, ext)
  }

  /** `get_version_dir`. */
  function VersionDir(ctx: PipeContext, a: AssetContext, disk: Disk, v: Version): string
    requires a.dcc in ctx.dccs
  {
    AssetDir(ctx, a, disk) + "/" + VersionName(v)
  }

  /** `get_version_file`. */
  function VersionFile(ctx: PipeContext, a: AssetContext, disk: Disk, v: Version, name: Option<string>, ext: string): string
    requires a.dcc in ctx.dccs
  {
    VersionDir(ctx, a, disk, v) + "/" + BaseName(a, name, ext)
  }

  /** `get_active_file`: the file in the version folder named `active`. */
  function ActiveFile(ctx: PipeContext, a: AssetContext, disk: Disk, name: Option<string>, ext: string): (r: string)
    requires a.dcc in ctx.dccs
    ensures r == VersionFile(ctx, a, disk, Label("active"), name, ext)
  {
    AssetDir(ctx, a, disk) + "/" + "active" + "/" + BaseName(a, name, ext)
  }

  /** The names an asset's folder is built from hold no `/`. */
  predicate SlashFree(a: AssetContext)
  {
    '/' !in a.project && '/' !in a.group && '/' !in a.name
  }

  /** The `/`-separated pieces of an asset folder: those of the home folder,
      then disk, project, discipline, group, asset and application. */
  lemma AssetDirSegments(ctx: PipeContext, a: AssetContext, disk: Disk)
    requires Valid(ctx) && SlashFree(a)
    ensures Split(AssetDir(ctx, a, disk), "/") == Split(ctx.home, "/")
      + [DiskValue(disk), a.project, DisciplineValue(a.discipline).name, a.group, a.name, DCCValue(a.dcc)]
  {
    NamesSlashFree(disk, a.discipline, a.dcc);
    PathSegments(ctx.home, DiskValue(disk), a.project, DisciplineValue(a.discipline).name, a.group, a.name, DCCValue(a.dcc));
  }

  lemma NamesSlashFree(disk: Disk, d: Discipline, dcc: DCC)
    ensures '/' !in DiskValue(disk) && '/' !in DisciplineValue(d).name && '/' !in DCCValue(dcc)
  {
  }

  lemma SplitAppendSlash(s: string, x: string)
    requires '/' !in x
    ensures Split(s + "/" + x, "/") == Split(s, "/") + [x]
  {
    SplitAppend(s, '/', x);
  }

  lemma PathSegments(home: string, x1: string, x2: string, x3: string, x4: string, x5: string, x6: string)
    requires '/' !in x1 && '/' !in x2 && '/' !in x3 && '/' !in x4 && '/' !in x5 && '/' !in x6
    ensures Split(home + "/" + x1 + "/" + x2 + "/" + x3 + "/" + x4 + "/" + x5 + "/" + x6, "/")
      == Split(home, "/") + [x1, x2, x3, x4, x5, x6]
  {
    ThreeSegments(home, x1, x2, x3);
    ThreeSegments(home + "/" + x1 + "/" + x2 + "/" + x3, x4, x5, x6);
  }

  lemma ThreeSegments(s: string, x1: string, x2: string, x3: string)
    requires '/' !in x1 && '/' !in x2 && '/' !in x3
    ensures Split(s + "/" + x1 + "/" + x2 + "/" + x3, "/") == Split(s, "/") + [x1, x2, x3]
  {
    SplitAppendSlash(s, x1);
    SplitAppendSlash(s + "/" + x1, x2);
    SplitAppendSlash(s + "/" + x1 + "/" + x2, x3);
  }

  /** Different assets, or different disks, never share a folder. */
  lemma AssetDirInjective(ctx: PipeContext, a: AssetContext, b: AssetContext, d1: Disk, d2: Disk)
    requires Valid(ctx) && SlashFree(a) && SlashFree(b)
    ensures AssetDir(ctx, a, d1) == AssetDir(ctx, b, d2) <==> a == b && d1 == d2
  {
    if AssetDir(ctx, a, d1) == AssetDir(ctx, b, d2) {
      AssetDirSegments(ctx, a, d1);
      AssetDirSegments(ctx, b, d2);
      var h := Split(ctx.home, "/");
      var la := [DiskValue(d1), a.project, DisciplineValue(a.discipline).name, a.group, a.name, DCCValue(a.dcc)];
      var lb := [DiskValue(d2), b.project, DisciplineValue(b.discipline).name, b.group, b.name, DCCValue(b.dcc)];
      assert la == (h + la)[|h|..] == (h + lb)[|h|..] == lb;
      assert la[0] == lb[0] && la[2] == lb[2] && la[5] == lb[5];
      ValuesInjective(d1, d2, a.discipline, b.discipline, a.dcc, b.dcc);
    }
  }

  /** The enumeration values name their members apart. */
  lemma ValuesInjective(d1: Disk, d2: Disk, e1: Discipline, e2: Discipline, c1: DCC, c2: DCC)
    ensures DiskValue(d1) == DiskValue(d2) ==> d1 == d2
    ensures DisciplineValue(e1).name == DisciplineValue(e2).name ==> e1 == e2
    ensures DCCValue(c1) == DCCValue(c2) ==> c1 == c2
  {
  }

  /** A numbered version folder is one more piece below the asset folder,
      and its name reads back as the version. */
  lemma VersionDirSegments(ctx: PipeContext, a: AssetContext, disk: Disk, version: nat)
    requires a.dcc in ctx.dccs
    ensures Split(VersionDir(ctx, a, disk, Number(version)), "/")
      == Split(AssetDir(ctx, a, disk), "/") + [VersionName(Number(version))]
    ensures |VersionName(Number(version))| >= 3
    ensures IsDigits(VersionName(Number(version))) && ParseNat(VersionName(Number(version))) == version
  {
    FormatIntParses(version, 3);
    var name := VersionName(Number(version));
    assert '/' !in name by {
      assert forall i | 0 <= i < |name| :: IsDigit(name[i]);
    }
    SplitAppendSlash(AssetDir(ctx, a, disk), name);
  }

  /** A directory entry `get_versions` keeps: not a file, and named by an
      integer. */
  predicate IsVersionEntry(e: DirEntry)
  {
    !e.isFile && IsDigits(e.name)
  }

  /** The `(path, version)` pairs `get_versions` collects, in listing order. */
  function VersionsOf(entries: seq<DirEntry>): seq<(string, nat)>
  {
    if |entries| == 0 then []
    else
      var e := entries[|entries| - 1];
      VersionsOf(entries[..|entries| - 1]) + (if IsVersionEntry(e) then [(e.path, ParseNat(e.name))] else [])
  }

  /** What `get_versions` returns for a listing; `None` stands for a
      folder that does not exist. */
  function VersionsIn(listing: Option<seq<DirEntry>>): seq<(string, nat)>
  {
    if listing.None? then [] else VersionsOf(listing.value)
  }

  /** A pair is collected exactly when some entry of the listing is a
      version folder with that path and number. */
  lemma {:induction false} VersionsOfMembers(entries: seq<DirEntry>, p: string, v: nat)
    ensures (p, v) in VersionsOf(entries) <==>
      exists k | 0 <= k < |entries| :: IsVersionEntry(entries[k]) && entries[k].path == p && ParseNat(entries[k].name) == v
  {
    if |entries| > 0 {
      var n := |entries| - 1;
      var init := entries[..n];
      VersionsOfMembers(init, p, v);
      if (p, v) in VersionsOf(entries) {
        if (p, v) in VersionsOf(init) {
          var k :| 0 <= k < n && IsVersionEntry(init[k]) && init[k].path == p && ParseNat(init[k].name) == v;
          assert entries[k] == init[k];
        } else {
          assert IsVersionEntry(entries[n]) && entries[n].path == p && ParseNat(entries[n].name) == v;
        }
      } else {
        forall k | 0 <= k < |entries|
          ensures !(IsVersionEntry(entries[k]) && entries[k].path == p && ParseNat(entries[k].name) == v)
        {
          if k < n {
            assert entries[k] == init[k];
          }
        }
      }
    }
  }

  /** `get_versions`: the listing of the asset folder is supplied by
      `listdir` (`None` when `os.path.isdir` is false). */
  method GetVersions(ctx: PipeContext, a: AssetContext, disk: Disk, listdir: string -> Option<seq<DirEntry>>)
    returns (versions: seq<(string, nat)>)
    requires a.dcc in ctx.dccs
    ensures versions == VersionsIn(listdir(AssetDir(ctx, a, disk)))
  {
    var dirVersions := AssetDir(ctx, a, disk);
    var listing := listdir(dirVersions);
    if listing.None? {
      return [];
    }
    var entries := listing.value;
    versions := [];
    for k := 0 to |entries|
      invariant versions == VersionsOf(entries[..k])
    {
      assert entries[..k + 1][..k] == entries[..k];
      var item := entries[k];
      if item.isFile {
        continue;
      }
      if !IsDigits(item.name) {
        // `int()` raises ValueError and the entry is skipped
        continue;
      }
      versions := versions + [(item.path, ParseNat(item.name))];
    }
    assert entries[..|entries|] == entries;
  }

  /** `get_latest_version_dir`: the folder listed last, if any. */
  method GetLatestVersionDir(ctx: PipeContext, a: AssetContext, disk: Disk, listdir: string -> Option<seq<DirEntry>>)
    returns (dir: Option<string>)
    requires a.dcc in ctx.dccs
    ensures var vs := VersionsIn(listdir(AssetDir(ctx, a, disk)));
      dir == if |vs| == 0 then None else Some(Last(vs).0)
  {
    var versions := GetVersions(ctx, a, disk, listdir);
    dir := if |versions| == 0 then None else Some(versions[|versions| - 1].0);
  }

  /** The number the next version gets: one more than the version listed
      last, or 1. */
  function NextVersion(versions: seq<(string, nat)>): (n: nat)
  {
    if |versions| == 0 then 1 else Last(versions).1 + 1
  }

  /** The next number is positive and above the version listed last; it is
      above every listed version when the listing is in ascending order
      (`os.scandir` promises no order). */
  lemma NextVersionAbove(versions: seq<(string, nat)>)
    ensures NextVersion(versions) >= 1
    ensures |versions| > 0 ==> NextVersion(versions) == Last(versions).1 + 1
    ensures (forall j, k | 0 <= j < k < |versions| :: versions[j].1 <= versions[k].1) ==>
      forall k | 0 <= k < |versions| :: versions[k].1 < NextVersion(versions)
  {
    if forall j, k | 0 <= j < k < |versions| :: versions[j].1 <= versions[k].1 {
      forall k | 0 <= k < |versions|
        ensures versions[k].1 < NextVersion(versions)
      {
        if k < |versions| - 1 {
          assert versions[k].1 <= versions[|versions| - 1].1;
        }
      }
    }
  }

  /** `get_next_version_dir`. */
  method GetNextVersionDir(ctx: PipeContext, a: AssetContext, disk: Disk, listdir: string -> Option<seq<DirEntry>>)
    returns (dir: string)
    requires a.dcc in ctx.dccs
    ensures dir == VersionDir(ctx, a, disk, Number(NextVersion(VersionsIn(listdir(AssetDir(ctx, a, disk))))))
  {
    var versions := GetVersions(ctx, a, disk, listdir);
    if |versions| == 0 {
      return VersionDir(ctx, a, disk, Number(1));
    }
    var latestVersion := versions[|versions| - 1];
    var nextVersion := latestVersion.1 + 1;
    dir := VersionDir(ctx, a, disk, Number(nextVersion));
  }

  /** `get_next_version_file` as written: it adds 1 to the path of the
      latest version instead of its number, which raises `TypeError`
      whenever a version folder exists. */
  method GetNextVersionFileAsWritten(ctx: PipeContext, a: AssetContext, disk: Disk, listdir: string -> Option<seq<DirEntry>>,
                                     name: Option<string>, ext: string)
    returns (r: Result<string, ContextError>)
    requires a.dcc in ctx.dccs
    ensures var vs := VersionsIn(listdir(AssetDir(ctx, a, disk)));
      (|vs| == 0 ==> r == Ok(VersionFile(ctx, a, disk, Number(1), name, ext)))
      && (|vs| > 0 ==> r == Err(TypeError("can only concatenate str (not \"int\") to str")))
  {
    var versions := GetVersions(ctx, a, disk, listdir);
    if |versions| == 0 {
      return Ok(VersionFile(ctx, a, disk, Number(1), name, ext));
    }
    // `latest_version[0] + 1`: a path plus an integer
    return Err(TypeError("can only concatenate str (not \"int\") to str"));
  }

  /** `get_next_version_file` with the number of the latest version: the
      file of that name in the folder `get_next_version_dir` gives. */
  method GetNextVersionFile(ctx: PipeContext, a: AssetContext, disk: Disk, listdir: string -> Option<seq<DirEntry>>,
                            name: Option<string>, ext: string)
    returns (path: string)
    requires a.dcc in ctx.dccs
    ensures path == VersionFile(ctx, a, disk, Number(NextVersion(VersionsIn(listdir(AssetDir(ctx, a, disk))))), name, ext)
  {
    var versions := GetVersions(ctx, a, disk, listdir);
    if |versions| == 0 {
      return VersionFile(ctx, a, disk, Number(1), name, ext);
    }
    var latestVersion := versions[|versions| - 1];
    var nextVersion := latestVersion.1 + 1;
    path := VersionFile(ctx, a, disk, Number(nextVersion), name, ext);
  }

  /** An asset with one version folder `001`: as written the next file
      cannot be named at all, corrected it is the `002` file. */
  method NextVersionFileWithOneVersion(ctx: PipeContext, a: AssetContext, disk: Disk, name: Option<string>, ext: string)
    returns (asWritten: Result<string, ContextError>, corrected: string)
    requires a.dcc in ctx.dccs
    ensures asWritten.Err?
    ensures corrected == VersionFile(ctx, a, disk, Number(2), name, ext)
  {
    var folder := FormatInt(1, 3);
    FormatIntParses(1, 3);
    var listing := [DirEntry(folder, folder, true, false)];
    assert VersionsOf(listing) == [(folder, 1)] by {
      assert listing[..0] == [];
    }
    asWritten := GetNextVersionFileAsWritten(ctx, a, disk, _ => Some(listing), name, ext);
    corrected := GetNextVersionFile(ctx, a, disk, _ => Some(listing), name, ext);
  }

  /** `get_for_other_asset`: the same application, discipline and project
      for another asset. */
  function GetForOtherAsset(a: AssetContext, group: string, name: string): (r: AssetContext)
    ensures r.dcc == a.dcc && r.discipline == a.discipline && r.project == a.project
    ensures r.group == group && r.name == name
  {
    AssetContext(a.dcc, a.discipline, a.project, group, name)
  }

  /** Switching to another asset and back gives the original context, and
      the other asset's folder is the original's exactly when the group
      and name are the same. */
  lemma OtherAssetRoundTrip(ctx: PipeContext, a: AssetContext, group: string, name: string, disk: Disk)
    requires Valid(ctx) && SlashFree(a) && '/' !in group && '/' !in name
    ensures GetForOtherAsset(GetForOtherAsset(a, group, name), a.group, a.name) == a
    ensures AssetDir(ctx, GetForOtherAsset(a, group, name), disk) == AssetDir(ctx, a, disk)
      <==> group == a.group && name == a.name
  {
    AssetDirInjective(ctx, GetForOtherAsset(a, group, name), a, disk, disk);
  }
}
