/** The asset catalogue of haymaker/asset_library/utils.py: a dictionary
    from a normalised file path to an entry (a display name and an optional
    thumbnail), updated in place by `add_entry` and read from and written
    to JSON as plain dictionaries. */
module AssetLibrary {
  import opened Common
  import opened Text
  import opened Utils

  /** A `CatalogEntry`. */
  datatype CatalogEntry = CatalogEntry(name: string, pathThumbnail: Option<string>)

  /** The exceptions reading a catalogue can raise. */
  datatype CatalogError =
    | NotSubscriptable            // TypeError: the data is not a dict
    | NotText(key: string)        // the value is not a string
    | NameError(name: string)     // a name the module never defines

  /** Python truthiness of an optional string. */
  predicate Given(s: Option<string>)
  {
    s.Some? && s.value != ""
  }

  /** `CatalogEntry(name, path_thumbnail)`: `__post_init__` normalises a
      truthy thumbnail path. */
  function NewEntry(host: Host, name: string, pathThumbnail: Option<string>): (e: CatalogEntry)
    ensures e.name == name
    ensures Given(pathThumbnail) ==> e.pathThumbnail == Some(NormalizeUserPath(host, pathThumbnail.value))
    ensures !Given(pathThumbnail) ==> e.pathThumbnail == pathThumbnail
  {
    CatalogEntry(name, if Given(pathThumbnail) then Some(NormalizeUserPath(host, pathThumbnail.value)) else pathThumbnail)
  }

  /** `CatalogEntry.to_dict`. */
  function EntryToDict(e: CatalogEntry): map<string, Json>
  {
    map["name" := Text(e.name),
        "path_thumbnail" := if e.pathThumbnail.Some? then Text(e.pathThumbnail.value) else Null]
  }

  /** `CatalogEntry.from_dict` as written: the module never imports
      `get_or_default`, and its `KeyError` handler names an undefined
      `item`, so every dictionary ends in a `NameError`. */
  function EntryFromDictAsWritten(data: Json): (r: Result<Option<CatalogEntry>, CatalogError>)
    ensures r.Err?
    ensures data.Object? ==> r.error.NameError?
  {
    if !data.Object? then Err(NotSubscriptable)
    else if "name" !in data.fields then Err(NameError("item"))
    else Err(NameError("get_or_default"))
  }

  /** `CatalogEntry.from_dict` with the helpers imported: `None` for data
      without a name, otherwise the entry with the thumbnail path, if any. */
  function EntryFromDict(host: Host, data: Json): (r: Result<Option<CatalogEntry>, CatalogError>)
    ensures data.Object? ==> ("name" !in data.fields <==> r == Ok(None))
    ensures r.Ok? && r.value.Some? ==>
      data.Object? && "name" in data.fields && data.fields["name"] == Text(r.value.value.name)
    ensures data.Object? && "name" in data.fields && data.fields["name"].Text?
            && ("path_thumbnail" !in data.fields || data.fields["path_thumbnail"].Null?) ==>
      r == Ok(Some(CatalogEntry(data.fields["name"].s, None)))
    ensures data.Object? && "name" in data.fields && data.fields["name"].Text?
            && "path_thumbnail" in data.fields && data.fields["path_thumbnail"].Text? ==>
      r == Ok(Some(NewEntry(host, data.fields["name"].s, Some(data.fields["path_thumbnail"].s))))
    ensures !data.Object? ==> r == Err(NotSubscriptable)
    ensures r.Err? && data.Object? ==>
      (r == Err(NotText("name")) && "name" in data.fields && !data.fields["name"].Text?)
      || (r == Err(NotText("path_thumbnail")) && "path_thumbnail" in data.fields
          && !data.fields["path_thumbnail"].Text? && !data.fields["path_thumbnail"].Null?)
  {
    if !data.Object? then Err(NotSubscriptable)
    else if "name" !in data.fields then Ok(None)
    else
      var name := data.fields["name"];
      var thumbnail := GetOrDefault(data.fields, "path_thumbnail", Null);
      if !name.Text? then Err(NotText("name"))
      else if thumbnail.Null? then Ok(Some(NewEntry(host, name.s, None)))
      else if thumbnail.Text? then Ok(Some(NewEntry(host, name.s, Some(thumbnail.s))))
      else Err(NotText("path_thumbnail"))
  }

  /** A thumbnail path normalisation leaves as it is. */
  predicate Normalised(host: Host, e: CatalogEntry)
  {
    Given(e.pathThumbnail) ==> NormalizeUserPath(host, e.pathThumbnail.value) == e.pathThumbnail.value
  }

  /** `from_dict(e.to_dict())` gives `e` back when its thumbnail path is
      already normalised. */
  lemma EntryRoundTrip(host: Host, e: CatalogEntry)
    requires Normalised(host, e)
    ensures EntryFromDict(host, Object(EntryToDict(e))) == Ok(Some(e))
  {
    var d := EntryToDict(e);
    assert "name" in d && d["name"] == Text(e.name);
    assert "path_thumbnail" in d;
  }

  /** The entries the load loop keeps: every key whose data `from_dict`
      turns into an entry, under that same key. */
  function Loaded(host: Host, data: map<string, Json>): map<string, CatalogEntry>
  {
    map k | k in data && EntryFromDict(host, data[k]).Ok? && EntryFromDict(host, data[k]).value.Some?
      :: EntryFromDict(host, data[k]).value.value
  }

  /** The load loop of `Catalog.load`: it fails with the error of an entry
      `from_dict` raises on (dictionary order decides which one when there
      are several), and otherwise keeps the entries `from_dict` accepts. */
  method LoadEntries(host: Host, data: map<string, Json>) returns (r: Result<map<string, CatalogEntry>, CatalogError>)
    ensures r.Ok? <==> forall k | k in data :: EntryFromDict(host, data[k]).Ok?
    ensures r.Ok? ==> r.value == Loaded(host, data)
    ensures r.Err? ==> exists k | k in data :: EntryFromDict(host, data[k]) == Err(r.error)
  {
    var entries := map[];
    var todo := data.Keys;
    while todo != {}
      invariant todo <= data.Keys
      invariant forall k | k in data && k !in todo :: EntryFromDict(host, data[k]).Ok?
      invariant entries == Loaded(host, data - todo)
      decreases todo
    {
      var pathFile :| pathFile in todo;
      var entry := EntryFromDict(host, data[pathFile]);
      if entry.Err? {
        return Err(entry.error);
      }
      if entry.value.Some? {
        entries := entries[pathFile := entry.value.value];
      }
      todo := todo - {pathFile};
    }
    assert data - todo == data;
    return Ok(entries);
  }

  /** The catalogue after `add_entry`, with `read_json` and
      `get_or_default` imported so that `Config.load` can read the
      configuration. `key` is the normalised file
      path; when a thumbnail is uploaded (`upload`: a truthy path to an
      existing file) it goes to the entry's current thumbnail path if it has
      one, otherwise to `freshDst`, the unique name under the configured
      thumbnail directory that the upload would create.
      The key is added or updated and every other key keeps its entry; the
      entry has the new name; an existing entry keeps its thumbnail unless
      one is uploaded. */
  function Upsert(host: Host, entries: map<string, CatalogEntry>, key: string, name: string, upload: bool, freshDst: string)
    : (r: map<string, CatalogEntry>)
    ensures r.Keys == entries.Keys + {key}
    ensures forall k | k in entries && k != key :: r[k] == entries[k]
    ensures r[key].name == name
    ensures !upload ==> r[key].pathThumbnail == if key in entries then entries[key].pathThumbnail else None
    ensures upload && key in entries && Given(entries[key].pathThumbnail) ==>
      r[key].pathThumbnail == Some(NormalizeUserPath(host, entries[key].pathThumbnail.value))
    ensures upload && (key !in entries || !Given(entries[key].pathThumbnail)) ==>
      r[key].pathThumbnail == Some(NormalizeUserPath(host, freshDst))
  {
    var entry := if key in entries then entries[key].(name := name) else NewEntry(host, name, None);
    var dst := if Given(entry.pathThumbnail) then entry.pathThumbnail.value else freshDst;
    entries[key := if upload then entry.(pathThumbnail := Some(NormalizeUserPath(host, dst))) else entry]
  }

  /** Adding the same asset again without a thumbnail changes nothing. */
  lemma UpsertIdempotent(host: Host, entries: map<string, CatalogEntry>, key: string, name: string, freshDst: string)
    ensures var once := Upsert(host, entries, key, name, false, freshDst);
      Upsert(host, once, key, name, false, freshDst) == once
  {
    var once := Upsert(host, entries, key, name, false, freshDst);
    assert once[key].(name := name) == once[key];
  }

  /** `Catalog`: the entries by normalised file path and the file it is
      saved to. */
  class Catalog {
    var entries: map<string, CatalogEntry>
    var path: Option<string>

    constructor (entries: map<string, CatalogEntry>, path: Option<string>)
      ensures this.entries == entries && this.path == path
    {
      this.entries := entries;
      this.path := path;
    }

    /** `Catalog.empty`. */
    constructor Empty(path: Option<string>)
      ensures entries == map[] && this.path == path
    {
      entries := map[];
      this.path := path;
    }

    /** `add_entry` with `read_json` and `get_or_default` imported: true exactly when the
        normalised path was not yet in the catalogue. The thumbnail copy is
        left out: `thumbnailIsFile` is `os.path.isfile(path_thumbnail)` and
        `freshDst` the unique destination a new upload would get. */
    method AddEntry(host: Host, name: string, pathFile: string, pathThumbnail: Option<string>,
                    thumbnailIsFile: bool, freshDst: string)
      returns (isNew: bool)
      modifies this
      ensures isNew <==> NormalizeUserPath(host, pathFile) !in old(entries)
      ensures entries == Upsert(host, old(entries), NormalizeUserPath(host, pathFile), name,
                                Given(pathThumbnail) && thumbnailIsFile, freshDst)
      ensures path == old(path)
    {
      var key := NormalizeUserPath(host, pathFile);
      isNew := true;
      var entry: CatalogEntry;
      var pathDst: Option<string>;
      if key in entries {
        entry := entries[key];
        entry := entry.(name := name);
        isNew := false;
        pathDst := entry.pathThumbnail;
      } else {
        entry := NewEntry(host, name, None);
        pathDst := None;
      }
      if Given(pathThumbnail) && thumbnailIsFile {
        if !Given(pathDst) {
          pathDst := Some(freshDst);
        }
        entry := entry.(pathThumbnail := Some(NormalizeUserPath(host, pathDst.value)));
      }
      entries := entries[key := entry];
    }

    /** `add_entry` as written. A thumbnail uploaded for an entry without
        one needs `Config.load`, which calls the never imported `read_json`
        and raises `NameError`; an existing entry has been renamed in place
        by then, and the dictionary holds that same object. Every other call
        does what `AddEntry` does. */
    method AddEntryAsWritten(host: Host, name: string, pathFile: string, pathThumbnail: Option<string>,
                             thumbnailIsFile: bool)
      returns (r: Result<bool, CatalogError>)
      modifies this
      ensures path == old(path)
      ensures var key := NormalizeUserPath(host, pathFile);
        var upload := Given(pathThumbnail) && thumbnailIsFile;
        if upload && !(key in old(entries) && Given(old(entries)[key].pathThumbnail)) then
          r == Err(NameError("read_json"))
          && entries == if key in old(entries) then old(entries)[key := old(entries)[key].(name := name)] else old(entries)
        else
          r == Ok(key !in old(entries)) && entries == Upsert(host, old(entries), key, name, upload, "")
    {
      var key := NormalizeUserPath(host, pathFile);
      var isNew := true;
      var entry: CatalogEntry;
      var pathDst: Option<string>;
      if key in entries {
        entry := entries[key].(name := name);
        entries := entries[key := entry];
        isNew := false;
        pathDst := entry.pathThumbnail;
      } else {
        entry := NewEntry(host, name, None);
        pathDst := None;
      }
      if Given(pathThumbnail) && thumbnailIsFile {
        if !Given(pathDst) {
          return Err(NameError("read_json"));
        }
        entry := entry.(pathThumbnail := Some(NormalizeUserPath(host, pathDst.value)));
      }
      entries := entries[key := entry];
      return Ok(isNew);
    }

    /** `Catalog.to_dict`: each entry's dictionary under its key. */
    function ToDict(): (r: map<string, Json>)
      reads this
      ensures r.Keys == entries.Keys
      ensures forall k | k in entries :: r[k] == Object(EntryToDict(entries[k]))
    {
      map k | k in entries :: Object(EntryToDict(entries[k]))
    }
  }

  /** A catalogue of normalised entries survives writing it out with
      `to_dict` and reading it back with the load loop. */
  lemma CatalogRoundTrip(host: Host, c: Catalog)
    requires forall k | k in c.entries :: Normalised(host, c.entries[k])
    ensures forall k | k in c.ToDict() :: EntryFromDict(host, c.ToDict()[k]).Ok?
    ensures Loaded(host, c.ToDict()) == c.entries
  {
    var data := c.ToDict();
    forall k | k in data
      ensures EntryFromDict(host, data[k]) == Ok(Some(c.entries[k]))
    {
      EntryRoundTrip(host, c.entries[k]);
    }
  }

  /** `Catalog.load` as written: the module never imports `read_json`, so
      reading the catalogue (line 115), or the configuration first when no
      path is given (`Config.load`, line 56), raises `NameError` on every
      call. */
  method LoadAsWritten(path: Option<string>) returns (r: Result<Catalog, CatalogError>)
    ensures r == Err(NameError("read_json"))
  {
    // with or without a path, the first call made is one of `read_json`
    return Err(NameError("read_json"));
  }

  /** `Catalog.load` with `read_json` and `get_or_default` imported, on the data read from `path`
      (`Null` when the file is missing or unreadable): falsy data gives an
      empty catalogue; a dictionary goes through the load loop; any other
      truthy value fails on iterating it or on indexing `data` with its
      items. */
  method Load(host: Host, path: string, data: Json) returns (r: Result<Catalog, CatalogError>)
    ensures r.Ok? ==> fresh(r.value) && r.value.path == Some(path)
    ensures !Truthy(data) ==> r.Ok? && r.value.entries == map[]
    ensures Truthy(data) && !data.Object? ==> r == Err(NotSubscriptable)
    ensures Truthy(data) && data.Object? ==>
      (r.Ok? <==> forall k | k in data.fields :: EntryFromDict(host, data.fields[k]).Ok?)
      && (r.Ok? ==> r.value.entries == Loaded(host, data.fields))
  {
    if !Truthy(data) {
      var c := new Catalog.Empty(Some(path));
      return Ok(c);
    }
    if !data.Object? {
      // a string, list, number or `true`: `for ... in data`, `data[item]` or
      // `from_dict` on an item raises (`TypeError`, or `IndexError` for a list)
      return Err(NotSubscriptable);
    }
    var entries := LoadEntries(host, data.fields);
    if entries.Err? {
      return Err(entries.error);
    }
    var c := new Catalog(entries.value, Some(path));
    return Ok(c);
  }
}
