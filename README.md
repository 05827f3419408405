# haymaker core, modelled in Dafny

haymaker is a Maya pipeline toolkit. Under its scene and GUI glue sit a few
self-contained pieces of string and collection logic. This project models
them and proves what they promise.

- **Path formulas** (`formulas.dfy`, `formula_laws.dfy`, `formula_manager.dfy`).
  Formulas such as `|drive|/13_Tech/config` have their `|name|` tokens
  expanded from three sources, in this order: the reserved keywords `Drive`
  and `Disk`, the caller's keyword arguments, and the other formulas of the
  repository.
  - `Formulas` gives the meaning of evaluation as functions over
    `split('|')`.
  - `FormulaLaws` proves what evaluation promises.
  - `FormulaManager.FormulaRepo` is the class. Its methods walk the formula
    character by character, the way `_eval` does, and are proved to compute
    those functions.
- **Publishing** (`publisher.dfy`): the batch splitter, the next publish
  version folder, and the success/fail partition of `publish_animations`.
- **Maya names** (`maya_names.dfy`): namespace stripping and reading on
  `|`-separated DAG paths with `.f[...]` face suffixes; the home-directory
  rewrite of file paths; the texture-name test of `fix_color_mode`.
- **Reference callbacks** (`maya_callbacks.dfy`): the registry meant to keep
  a reference-creation callback from being hooked twice.
- **Helpers** (`utils.dfy`): `get_or_default`, path normalisation, and the
  version component of file names such as `shot.0003.ma`.
- **Console log** (`log.dfy`): the line-wrapping loop and the level gate of
  `_log_to_console`.
- **Pipeline context** (`context.dfy`):
  - `PipeContext.from_dict` / `DCCData.from_dict` over decoded JSON;
  - the `AssetContext` path builders;
  - the version listing and next-version rules.
- **Asset catalogue** (`asset_library.dfy`): the `Catalog` class with
  `add_entry`, its dictionary form and its load loop.
- **Shared definitions**:
  - `common.dfy` holds `Option`, `Result`, a JSON value type, and a `Host`.
    The `Host` carries `os.path.normpath`, `os.path.basename` and the home
    directory as parameters.
  - `text.dfy` holds Python's `str.find`, `split`, `join`, `replace`,
    `lower`/`upper`, `int()` on digit strings and zero-padded formatting,
    with their lemmas.

## Model

| member | source | states |
|---|---|---|
| FormulaManager.FormulaRepo.constructor | haymaker/formula_manager.py:126-128 | A new repository has no formulas, no prefixes and the reserved keywords `Drive`, `Disk` |
| FormulaManager.FormulaRepo.RemovePrefix | haymaker/formula_manager.py:241-245 | The prefix loop returns the key `StripPrefix` defines (see `Formulas.StripPrefixSpec`) |
| FormulaManager.FormulaRepo.AddFormula | haymaker/formula_manager.py:247-251 | A stripped key already present is `FormulaDuplicateError` and leaves `formulas` unchanged; otherwise exactly that key is added, and `get_formula` then finds it |
| FormulaManager.FormulaRepo.GetFormula | haymaker/formula_manager.py:182-190 | Returns the formula under the prefix-stripped name, or `None` |
| FormulaManager.FormulaRepo.Eval | haymaker/formula_manager.py:130-152 | A keyword argument named `self` or `formula_name` makes the call a `TypeError` before anything else. Then an unknown stripped name is `FormulaNotFoundError`, a keyword argument named `formula` is a `TypeError` at the call to `_eval`, and otherwise the result is the formula's evaluation |
| FormulaManager.FormulaRepo.EvalFormula | haymaker/formula_manager.py:192-220 | The character loop computes `Evaluate`: each `\|name\|` is expanded, other text is copied, and an open variable at the end is `FormulaEvaluationError` |
| FormulaManager.FormulaRepo.ExpandVariableMethod | haymaker/formula_manager.py:204-207 | The closing-bar branch resolves the name and evaluates a string result once more; an enum member is a `TypeError`. A keyword argument named `self` or `variable` is a `TypeError` at the `_resolve_variable` call, one named `formula` at the `_eval` call |
| FormulaManager.FormulaRepo.ResolveVariable | haymaker/formula_manager.py:222-239 | The lookup loop computes `ResolveName`: reserved keywords, then kwargs, then a non-empty formula, else `FormulaArgumentError`. A kwarg named `cls` or `value` is a `TypeError` at `try_to_resolve`, and one named `formula` is a `TypeError` at the `_eval` of a found formula |
| Formulas.Drop | haymaker/formula_manager.py:244 | Python's `s[n:]` is a suffix of `s` of length `max(0, len(s) - n)` |
| Formulas.FindMemberFirst | haymaker/formula_manager.py:78-85 | The member loop finds nothing exactly when no lower-cased name matches; otherwise it finds the first member that matches |
| Formulas.TryToResolveSpec | haymaker/formula_manager.py:64-87 | `try_to_resolve` behaves as follows. A kwarg named `cls` or `value` is a `TypeError`. Otherwise: the bare default name gives the first member after `DEFAULT`; a lower-cased member name gives that member; a `DEFAULT` kwarg overrides either with its `.value` (an error for a plain string); anything else gives `None`, in both directions |
| Formulas.LookupInFirst | haymaker/formula_manager.py:224-226 | A falsy reserved result falls through: nothing is found iff every keyword is falsy, and otherwise the first truthy keyword's result is returned. A found value is non-empty, and the only errors are a plain-string override and the `TypeError` of a clashing kwarg |
| Formulas.StripPrefixSpec | haymaker/formula_manager.py:241-245 | The stripped key is a suffix of the name. A name matching no prefix is kept. Otherwise the first matching prefix and one more character are removed |
| FormulaLaws.StepOpen | haymaker/formula_manager.py:198-201 | An opening bar starts an empty variable name without changing the text resolved so far |
| FormulaLaws.StepClose | haymaker/formula_manager.py:204-207 | A closing bar appends the expanded variable to the text resolved so far; if the expansion fails, the whole formula fails with that error |
| FormulaLaws.StepLiteral | haymaker/formula_manager.py:212-213 | A character outside a variable is appended to the resolved text |
| FormulaLaws.StepName | haymaker/formula_manager.py:214-215 | A character inside a variable is appended to its name |
| FormulaLaws.ErrorPersists | haymaker/formula_manager.py:205-206 | Once an expansion has raised, the rest of the formula does not change the outcome |
| FormulaLaws.ScanFinish | haymaker/formula_manager.py:217-220 | At the end of the formula, a closed scan is the result and an open variable is `FormulaEvaluationError` |
| FormulaLaws.NoBarIdentity | haymaker/formula_manager.py:192-220 | A formula without `\|` evaluates to itself |
| FormulaLaws.OddBarsFail | haymaker/formula_manager.py:217-218 | An odd number of `\|` never evaluates successfully |
| FormulaLaws.EvaluateConcat | haymaker/formula_manager.py:196-215 | `lit\|name\|rest`: the literal is copied, the name expanded, and the rest evaluated after them, in order; an error in the name wins over the rest |
| FormulaLaws.EvaluateSound | haymaker/formula_manager.py:192-220 | A successful evaluation contains no `\|` |
| FormulaLaws.DoubleEvaluationHarmless | haymaker/formula_manager.py:233-234 | Evaluating a formula's result a second time (as `_eval` does after `_resolve_variable`) returns it unchanged |
| FormulaLaws.ResolveNameSound | haymaker/formula_manager.py:222-239 | Resolving a variable never raises `FormulaNotFoundError` or `FormulaDuplicateError` |
| FormulaLaws.EvalNotFoundIff | haymaker/formula_manager.py:146-151 | `eval` raises `FormulaNotFoundError` exactly when no kwarg is named `self` or `formula_name` (that is a `TypeError` first) and `get_formula` returns `None` for the same name |
| FormulaLaws.LookupReservedUnfold | haymaker/formula_manager.py:122-124 | The reserved lookup asks `Drive` first, then `Disk` |
| FormulaLaws.NotReserved | haymaker/formula_manager.py:78-87 | A name that is neither a default name nor a lower-cased member name passes the reserved lookup with nothing found. With a kwarg named `cls` or `value`, the lookup is a `TypeError` |
| FormulaLaws.KwargsBeforeFormulas | haymaker/formula_manager.py:228-230 | A non-reserved name present in kwargs resolves to the kwarg, whatever formulas exist, unless a kwarg named `cls` or `value` makes the reserved lookup a `TypeError` |
| FormulaLaws.ReservedFirst | haymaker/formula_manager.py:90-98 | A kwarg named `cls` or `value` makes every reserved name a `TypeError`. Otherwise, when no kwarg overrides `drive` or `disk`: `drive` and `box` resolve to `~/Box/Capstone_Uploads`, `disk` and `config` to `\|drive\|/13_Tech/config`, and `code` to `\|drive\|/13_Tech/haymaker`, whatever the formulas hold |
| FormulaLaws.MissingArgumentWhenUnknown | haymaker/formula_manager.py:236-239 | A name no source knows (or whose formula is empty) raises `FormulaArgumentError`, or the `TypeError` of a kwarg named `cls` or `value` |
| FormulaLaws.FirstVariableClashes | haymaker/formula_manager.py:204-207 | A formula whose first variable is reached with a kwarg named `self`, `variable`, `cls` or `value` is a `TypeError`, whatever follows it (`repo.eval('f', value='abc')` with `f = '\|value\|'`) |
| Formulas.Evaluate | haymaker/formula_manager.py:192-220 | The meaning of `_eval`, read through `split('\|')`. `FormulaRepo.EvalFormula` computes it; `FormulaLaws` proves its laws (`NoBarIdentity`, `EvaluateConcat`, `OddBarsFail`, `EvaluateSound`, `DoubleEvaluationHarmless`) |
| Formulas.ExpandParts | haymaker/formula_manager.py:196-220 | Pieces from left to right: even ones copied, odd ones expanded as variables, the first error wins, and an unclosed last variable is `FormulaEvaluationError` after the rest is expanded (`FormulaLaws.EvaluateConcat`, `OddBarsFail`, `ErrorPersists`) |
| Formulas.ExpandVariable | haymaker/formula_manager.py:204-207 | A closed variable: `TypeError` for a kwarg named after a parameter of `_resolve_variable` or `_eval`, otherwise resolved and evaluated once more (`FormulaRepo.ExpandVariableMethod` computes it; `FormulaLaws.StepClose`) |
| Formulas.ResolveName | haymaker/formula_manager.py:222-239 | `_resolve_variable`: reserved keywords, then kwargs, then a non-empty formula, else `FormulaArgumentError` (`FormulaLaws.ReservedFirst`, `KwargsBeforeFormulas`, `MissingArgumentWhenUnknown`, `ResolveNameSound`) |
| Formulas.EvalName | haymaker/formula_manager.py:130-152 | `eval` on the repository's state (`FormulaRepo.Eval` computes it; `FormulaLaws.EvalNotFoundIff`) |
| Formulas.TryToResolve | haymaker/formula_manager.py:71-87 | `try_to_resolve` of one keyword class (`Formulas.TryToResolveSpec`) |
| Formulas.LookupIn | haymaker/formula_manager.py:224-226 | The reserved-keyword loop: the first truthy result wins (`Formulas.LookupInFirst`, `FormulaLaws.LookupReservedUnfold`) |
| Formulas.StripPrefix | haymaker/formula_manager.py:241-245 | `_remove_prefix` (`Formulas.StripPrefixSpec`; `FormulaRepo.RemovePrefix` computes it) |
| Formulas.FindMember | haymaker/formula_manager.py:78-85 | The member loop of `try_to_resolve` (`Formulas.FindMemberFirst`) |
| Formulas.FormulaOf | haymaker/formula_manager.py:182-190 | `get_formula` on the repository's state (`FormulaRepo.GetFormula` computes it; `FormulaLaws.EvalNotFoundIff`) |
| Publisher.BatchSizes | haymaker/publisher.py:52-54 | `ceil(n/m)` and `int(n/m)` are equal or one apart; they are equal exactly when `m` divides `n`; they bracket `n` |
| Publisher.SplitIntoBatches | haymaker/publisher.py:37-62 | The batches laid end to end are the items. With `n <= m` each item is its own batch, in order. Otherwise there are exactly `m` batches, each of size `int(n/m)` or `ceil(n/m)`, and sizes never grow |
| Publisher.BatchStep | haymaker/publisher.py:57-62 | One loop turn keeps the remaining items within the small and big capacity of the remaining batches, and a small batch is followed only by small ones |
| Publisher.BatchingStep | haymaker/publisher.py:57-62 | One loop turn keeps the batches laid end to end equal to the items consumed, each of the two sizes, sizes non-increasing, and the rest within capacity |
| Publisher.NextPublishVersion | haymaker/publisher.py:119-132 | The version is above every integer-named directory, and equals one plus one of them, or 1 when there is none. The folder name is `f'{version:03}'`: padded with zeros to exactly 3 digits, with no leading zero when longer, and it reads back as the version |
| Text.FormatIntPadding | haymaker/publisher.py:132 | Zero padding to a width is minimal: the result is exactly that wide, or longer with no leading `0` |
| Publisher.PublishAnimations | haymaker/publisher.py:79-89 | `success` and `fail` are the non-empty paths whose publish returned true and false respectively, in input order |
| Publisher.PublishPartition | haymaker/publisher.py:79-89 | Together, `success` and `fail` hold each non-empty path exactly as often as the input does. Neither holds an empty path |
| Publisher.PublishedOutcome | haymaker/publisher.py:82-88 | Every path in `success` (`fail`) is a non-empty input path whose publish succeeded (failed) |
| MayaNames.BeforeFace | haymaker/maya.py:117 | `name.split('.f')[0]` is the prefix of the name up to its first `.f`, and holds no `.f` |
| MayaNames.AfterLastColon | haymaker/maya.py:102 | `w.split(':')[-1]` holds no `:` and is the suffix of `w` after its last `:` (all of `w` without one) |
| MayaNames.BeforeFirstColon | haymaker/maya.py:118 | `w.split(':')[0]` holds no `:` and is the prefix of `w` before its first `:` |
| MayaNames.RemoveNamespaceSpec | haymaker/maya.py:100-106 | With at most one face suffix, `_remove_namespace` keeps the text after the last `:` before the `.f` and re-attaches the whole `.f...` suffix |
| MayaNames.GetNamespace | haymaker/maya.py:116-118 | The namespace never contains `:` |
| MayaNames.NamespaceRoundTrip | haymaker/maya.py:121-122 | For a name with at most one `:`, not leading, and no face suffix, `_set_namespace(_get_namespace(x), _remove_namespace(x)) == x` |
| MayaNames.RemoveNamespacesStructure | haymaker/maya.py:109-113 | `remove_namespaces` keeps the number of `\|` components, each namespace-stripped |
| MayaNames.RemoveNamespaceIdempotent | haymaker/maya.py:100-106 | `_remove_namespace` is idempotent on names with at most one `.f` |
| MayaNames.RemoveNamespacesIdempotent | haymaker/maya.py:109-113 | `remove_namespaces` is idempotent when every component has at most one `.f` |
| MayaNames.FoolproofFilePathSpec | haymaker/maya.py:245-252 | Both paths use `/` only. The foolproof path equals the original exactly when the home directory does not occur in it |
| MayaNames.Stem | haymaker/maya.py:190 | `name[:name.find('.')]` is the `.`-free text before the first `.`; without a `.` it is the name minus its last character |
| MayaNames.FixColorMode | haymaker/maya.py:183-202 | An empty texture path does nothing. Otherwise a file whose name stem ends in `_basecolor` (any case) gets sRGB without alpha-is-luminance, and every other file Raw with it |
| MayaNames.BaseColorIgnoresCase | haymaker/maya.py:190 | The base-colour test gives the same answer for the upper-cased file name |
| MayaNames.BaseColorNamed | haymaker/maya.py:193-196 | A file named `<base>_BaseColor.<ext>` is treated as base colour |
| MayaNames.NormalNamed | haymaker/maya.py:197-200 | A file named `<base>_Normal.<ext>` is treated as raw |
| MayaNames.NoDotDropsLast | haymaker/maya.py:190 | Without a `.`, the test judges the name minus its last character |
| MayaNames.RemoveNamespace | haymaker/maya.py:100-106 | `_remove_namespace` (`MayaNames.RemoveNamespaceSpec`, `RemoveNamespaceIdempotent`, `NamespaceRoundTrip`) |
| MayaNames.RemoveNamespaces | haymaker/maya.py:109-113 | `remove_namespaces` over the `\|`-separated path (`MayaNames.RemoveNamespacesStructure`, `RemoveNamespacesIdempotent`) |
| MayaNames.SetNamespace | haymaker/maya.py:121-122 | `_set_namespace`: `ns:obj`, or `obj` for an empty namespace (`MayaNames.NamespaceRoundTrip`) |
| MayaNames.FoolproofFilePath | haymaker/maya.py:245-252 | `get_foolproof_file_path`: the original and the `%USERPROFILE%` path (`MayaNames.FoolproofFilePathSpec`) |
| MayaNames.IsBaseColor | haymaker/maya.py:189-190 | The texture-name test of `fix_color_mode` (`MayaNames.BaseColorIgnoresCase`, `BaseColorNamed`, `NormalNamed`, `NoDotDropsLast`) |
| MayaCallbacks.ReferenceCallbacks.constructor | haymaker/maya.py:234 | The registry starts empty with nothing hooked |
| MayaCallbacks.ReferenceCallbacks.AddAsWritten | haymaker/maya.py:235-242 | As written: a known callback is refused; any other is hooked, but the registry does not grow |
| MayaCallbacks.ReferenceCallbacks.Add | haymaker/maya.py:235-242 | Returns true iff the callback was unknown, records it, and hooks it once; the registry stays exactly the set of hooked callbacks, without repeats |
| MayaCallbacks.AsWrittenHooksTwice | haymaker/maya.py:240 | As written, registering one callback twice on a fresh registry succeeds both times and hooks it twice |
| MayaCallbacks.CorrectedHooksOnce | haymaker/maya.py:234-242 | With the callback recorded, the second registration is refused and it is hooked once |
| Utils.GetOrDefault | haymaker/utils.py:36-40 | `d[key]` when the key is present, else the default |
| Utils.NormalizePath | haymaker/utils.py:60-61 | The normalised path holds no backslash |
| Utils.NormalizeUserPathSpec | haymaker/utils.py:64-66 | `normalize_user_path` leaves the normalised path unchanged exactly when the home directory does not occur in it |
| Utils.NormalizeUserPath | haymaker/utils.py:64-66 | `normalize_user_path`: the home directory replaced by `~` in the normalised path (`Utils.NormalizeUserPathSpec`) |
| Utils.VersionTag | haymaker/utils.py:86 | `f'{version:04}'` has at least 4 characters and no `.` |
| Utils.VersionTagParses | haymaker/utils.py:86 | The padded version reads back with `int()` as the version |
| Utils.IncrementVersionPath | haymaker/utils.py:71-87 | `None` iff the path has no `.`. Otherwise, the new path's `.`-pieces: an integer second-to-last piece (of three or more) is replaced by its value plus `delta`; otherwise `0001` is inserted before the extension. Every other piece is unchanged and the extension stays last |
| Utils.IncrementTwice | haymaker/utils.py:78-86 | Incrementing twice by `d1` then `d2` gives the base version plus both deltas and leaves the other pieces alone |
| Utils.IncrementIsSetVersion | haymaker/utils.py:78-87 | Incrementing is setting the version to the old number plus `delta`, or setting version 1 on a two-piece name; with a non-integer slot one piece more is kept |
| Utils.GetVersionPathAsWritten | haymaker/utils.py:90-104 | As written, `get_version_path` returns `None` on every path |
| Utils.GetVersionPath | haymaker/utils.py:90-104 | Corrected: `None` iff the path has no `.`; otherwise the new path's pieces are the old ones with the version slot set |
| Utils.VersionedPartsReadBack | haymaker/utils.py:103 | The version set reads back from the second-to-last piece |
| Log.WrapLines | haymaker/log.py:74-86 | There is at least one line. The first line starts with the header and the others with as many spaces. Stripped of those, the lines give back the message. A line ends early only after a `\n`, and no `\n` appears elsewhere. With a header shorter than `width`, no line exceeds `width`. Each line but the last is closed by the first character that can close it, and the last is still open, so it may be the bare indent |
| Log.LayoutUnique | haymaker/log.py:79-86 | Two layouts with the same bodies are the same lines: the contract of `WrapLines` leaves no choice of lines |
| Log.LStrip | haymaker/log.py:100 | `lstrip()` gives the suffix that starts with no white space (in the sense of `str.isspace`), and all it removes is white space |
| Log.PrintTrace | haymaker/log.py:93-100 | One `File ..., line ..., in ...` line per frame, in order, each followed by its stripped context when there is one |
| Log.LogToConsole | haymaker/log.py:70-100 | The lines are the wrapping of the message under the `HH:MM:SS  [LEVEL]  ` header, with the same layout as `WrapLines`. The printed output is those lines joined by `\n`, then the frames only for warnings and errors |
| Log.Header | haymaker/log.py:71-74 | The first-line header: time, two spaces, the upper-cased level in brackets, two spaces (`Log.LogToConsole`) |
| Log.FrameText | haymaker/log.py:93-100 | The one or two lines printed for a frame (`Log.PrintTrace`) |
| Context.DCCEntry | haymaker/context.py:117-123 | `DCCData.from_dict` succeeds iff the application's entry has a string `path` (and `path_batch` is a string or null when present). It keeps the name and disciplines; `path_batch` is `None` exactly when absent or null, and otherwise the string |
| Context.PipeContextFromDictSpec | haymaker/context.py:135-155 | `from_dict` succeeds exactly on well-formed documents. The result then holds every application under its own name with its disciplines, and `home == user.home + '/' + company` |
| Context.BaseName | haymaker/context.py:173-174 | The basename starts with the given name (the asset's when falsy) and ends with `.` + ext |
| Context.ActiveFile | haymaker/context.py:187-190 | The active file is the version file of the folder `active` |
| Context.AssetDirSegments | haymaker/context.py:167-170 | The asset folder's `/`-pieces are those of home, then disk, project, discipline, group, name and application |
| Context.AssetDirInjective | haymaker/context.py:167-170 | Two assets share a folder exactly when they are the same asset on the same disk |
| Context.ValuesInjective | haymaker/context.py:75-107 | The disk, discipline and application values name their members apart |
| Context.VersionDirSegments | haymaker/context.py:177-180 | A numbered version folder adds one `/`-piece: at least 3 digits that read back as the version |
| Context.VersionsOfMembers | haymaker/context.py:197-204 | A `(path, version)` pair is collected iff some listed entry is not a file and its integer name is that version |
| Context.GetVersions | haymaker/context.py:192-206 | The loop returns the version pairs of the listing, in listing order; a missing folder gives `[]` |
| Context.GetLatestVersionDir | haymaker/context.py:208-210 | `None` when there are no versions, else the path listed last |
| Context.NextVersionAbove | haymaker/context.py:212-219 | The next number is 1 without versions, else the last listed plus one; over a sorted listing it is above every version |
| Context.GetNextVersionDir | haymaker/context.py:212-219 | The folder of the next version number |
| Context.GetNextVersionFileAsWritten | haymaker/context.py:221-231 | As written: version 1 without versions; with any version, a `TypeError` |
| Context.GetNextVersionFile | haymaker/context.py:221-231 | Corrected: the file in the folder of the next version number |
| Context.NextVersionFileWithOneVersion | haymaker/context.py:229-231 | With a single folder `001`, the as-written call fails and the corrected one gives the file of version 2 |
| Context.GetForOtherAsset | haymaker/context.py:233-234 | Application, discipline and project are kept; only group and name are replaced |
| Context.OtherAssetRoundTrip | haymaker/context.py:233-234 | Switching to another asset and back gives the original, and the folder of the asset switched back to is the original folder |
| Context.PipeContextFromDict | haymaker/context.py:135-155 | `PipeContext.from_dict` over decoded JSON (`Context.PipeContextFromDictSpec`) |
| Context.DCCDataFromDict | haymaker/context.py:117-123 | `DCCData.from_dict`: `path` required, `path_batch` `None` when absent or null (`Context.DCCEntry`) |
| Context.AssetDir | haymaker/context.py:167-170 | `_get_asset_dir` (`Context.AssetDirSegments`, `AssetDirInjective`) |
| Context.AssetFile | haymaker/context.py:172-175 | `get_asset_file`: the basename in the asset folder (`Context.BaseName`) |
| Context.VersionDir | haymaker/context.py:177-180 | `get_version_dir` (`Context.VersionDirSegments`) |
| Context.VersionFile | haymaker/context.py:182-185 | `get_version_file`: the basename in the version folder (`Context.ActiveFile`, `GetNextVersionFile`) |
| Context.VersionName | haymaker/context.py:178-180 | A number as at least 3 digits, a label as itself (`Context.VersionDirSegments`) |
| Context.VersionsOf | haymaker/context.py:196-206 | The version pairs of a listing (`Context.VersionsOfMembers`; `Context.GetVersions` computes it) |
| Context.NextVersion | haymaker/context.py:213-218 | The next version number (`Context.NextVersionAbove`) |
| AssetLibrary.NewEntry | haymaker/asset_library/utils.py:160-162 | A truthy thumbnail path is normalised; a falsy one is kept |
| AssetLibrary.EntryFromDictAsWritten | haymaker/asset_library/utils.py:164-173 | As written, every dictionary ends in a `NameError` |
| AssetLibrary.EntryFromDict | haymaker/asset_library/utils.py:160-173 | Corrected: data without `name` gives `None` (and only such data); an entry takes its name from the data; a missing or null thumbnail gives none, a string one is normalised by `__post_init__`; non-dict data is a `TypeError`, and a non-string name or thumbnail an error |
| AssetLibrary.EntryRoundTrip | haymaker/asset_library/utils.py:175-179 | `from_dict(e.to_dict())` gives `e` back when its thumbnail path is already normalised |
| AssetLibrary.LoadEntries | haymaker/asset_library/utils.py:122-127 | Corrected, with `read_json` and `get_or_default` imported. The loop succeeds iff every entry parses, then keeps exactly the parsed entries under their keys; a failure is the error of some entry |
| AssetLibrary.Upsert | haymaker/asset_library/utils.py:69-103 | Corrected, with `read_json` and `get_or_default` imported. After `add_entry` the key is present with the new name and other keys are unchanged. Without an upload the thumbnail is kept. An upload reuses the entry's thumbnail destination, else a fresh one, normalised |
| AssetLibrary.UpsertIdempotent | haymaker/asset_library/utils.py:69-103 | Adding the same asset twice without a thumbnail equals adding it once |
| AssetLibrary.Catalog.constructor | haymaker/asset_library/utils.py:64-67 | The catalogue holds the given entries and path |
| AssetLibrary.Catalog.Empty | haymaker/asset_library/utils.py:144-146 | An empty catalogue at the given path |
| AssetLibrary.Catalog.AddEntry | haymaker/asset_library/utils.py:69-106 | Corrected, with `read_json` and `get_or_default` imported. Returns true iff the normalised key was new; the entries become the `Upsert` of the old ones; the path is unchanged |
| AssetLibrary.Catalog.AddEntryAsWritten | haymaker/asset_library/utils.py:69-106 | As written: an upload that needs a fresh destination reaches `Config.load`, whose `read_json` is undefined, and fails with `NameError` after an existing entry has already been renamed in place. Every other call behaves like the corrected one |
| AssetLibrary.Catalog.ToDict | haymaker/asset_library/utils.py:148-152 | The dictionary has exactly the catalogue's keys, each mapped to its entry's `to_dict` |
| AssetLibrary.CatalogRoundTrip | haymaker/asset_library/utils.py:148-152 | Corrected load. A catalogue of normalised entries, written with `to_dict` and read back by the load loop, parses everywhere and gives the same entries |
| AssetLibrary.Load | haymaker/asset_library/utils.py:108-130 | Corrected, with `read_json` and `get_or_default` imported. Falsy data (`null`, `{}`, `""`, `[]`, `0`, `false`) gives an empty catalogue. A dictionary succeeds iff every entry parses and then holds the parsed entries; other truthy data is an error. The catalogue is fresh and remembers its path |
| AssetLibrary.LoadAsWritten | haymaker/asset_library/utils.py:108-115 | As written, every call fails with `NameError`: with a path the first call is to the unimported `read_json`, and without one `Config.load` calls it first |
| AssetLibrary.EntryToDict | haymaker/asset_library/utils.py:175-179 | `CatalogEntry.to_dict` (`AssetLibrary.EntryRoundTrip`) |
| AssetLibrary.Loaded | haymaker/asset_library/utils.py:122-127 | The entries the load loop keeps (`AssetLibrary.LoadEntries`, `CatalogRoundTrip`) |

## Left out

- File, JSON and console I/O; clocks; Maya scene calls; subprocesses; GUI code. These are left out:
  - reading JSON, `FormulaRepo.load`, `Config.load` and `Catalog.save`;
  - `get_pipe_context` and its modification-time cache;
  - `_log_to_file` and `_build_trace`;
  - `MSceneMessage.addReferenceCallback`, `set_attr` and `print`.
- Values passed in instead:
  - the decoded JSON;
  - the directory listing (`os.scandir`, with a missing folder as `None`);
  - the time string, the stack frames, and the publish outcome of each path;
  - whether the thumbnail is a file;
  - the fresh thumbnail destination that `uuid4` and a working `Config.load` would give. As written, `Config.load` calls the unimported `read_json` (and `Config.from_dict` the unimported `get_or_default`), so no destination is ever produced: see Findings.
- The `shutil.copy` of the thumbnail and `os.makedirs` are left out. `os.path.normpath`, `expanduser('~')` and `basename` are fields of a `Host` value, not interpreted.
- `int()` is modelled on plain ASCII digit strings only. Python also accepts signs, surrounding whitespace, underscores and other Unicode digits. `lower`/`upper` are ASCII only.
- The float division `len(items) / max_batches` is modelled as integer floor and ceiling.
- SplitIntoBatches: requires `max_batches >= 1` or no items. With no items and `max_batches == 0` it gives no batches, as Python does. With items and `max_batches == 0`, Python raises `ZeroDivisionError`, which is not modelled. `max_batches` is a `nat`, so a negative value, for which Python's `while batches_left` never ends, is not modelled. The batches are returned as a list; the generator's laziness is not modelled.
- Recursion in formula evaluation is bounded by `fuel`, which stands for Python's recursion limit and gives `RecursionLimit` when spent. The model does not say how deep Python actually gets before a cyclic formula fails.
- The message text of the formula exceptions is not modelled; only their kinds are, with the offending name.
- JSON values of other types are an error (`NotText`), in the context settings and in the catalogue:
  - a null, number or list where the settings expect a string (except a null `path_batch`, which is `None` as in Python);
  - a non-string catalogue `name`, and a non-string, non-null thumbnail.

  Python would store such a value and only fail, or silently misbehave, later.
- `Catalog` entries are values, so the in-place `entry.name = name` on a shared entry object is modelled as replacing the entry under its key. No other reference to the entry is observed.
- `get_versions` keeps the listing order of `os.scandir`, which is unspecified. `NextVersion` uses the version listed last, as the source does. `NextVersionAbove` shows it is above every version only for a sorted listing.
- The `Catalog.load` path default from `Config.load` is left out; the path is a parameter.
- The order of keys in a JSON object is not modelled: `Json.Object` is a map. So `LoadEntries` reports the error of some failing entry, not of the first one in file order, and the key order of `to_dict` (and of the saved file) is not kept.

## Findings

| source | as written | input that shows it | evidently intended | confidence | as-written member | corrected member |
|---|---|---|---|---|---|---|
| haymaker/utils.py:90-104 | `get_version_path` builds `path_new` and has no `return`; its `< 2` guard can never hold after the `<= 1` return | `get_version_path('a.ma', 3)` returns `None` | return `a.0003.ma`. Which piece is replaced is our reading: with three or more pieces the second-to-last goes whatever it holds, so `my.scene.ma` gives `my.0003.ma` | high that it returns `None`; the replaced piece is a guess; not executed | Utils.GetVersionPathAsWritten | Utils.GetVersionPath |
| haymaker/maya.py:240 | `_reference_create_callbacks.union([callback])` discards the new set | registering the same callback twice: both calls return True and Maya gets it twice | `add(callback)`, so the second call is refused | high, not executed | MayaCallbacks.AsWrittenHooksTwice | MayaCallbacks.CorrectedHooksOnce |
| haymaker/context.py:230 | `latest_version[0] + 1` adds 1 to the folder path (a string) | an asset with one version folder `001`: `TypeError` | `latest_version[1] + 1`, giving the file in folder `002` | high, not executed | Context.NextVersionFileWithOneVersion | Context.GetNextVersionFile |
| haymaker/asset_library/utils.py:169 | `from_dict` calls `get_or_default`, which the module never imports (line 171), and its `KeyError` handler logs an undefined `item` | `{'name': 'rock'}`: `NameError` | `CatalogEntry('rock', None)`; `None` for data without a name | high, not executed | AssetLibrary.EntryFromDictAsWritten | AssetLibrary.EntryFromDict |
| haymaker/asset_library/utils.py:115 | `read_json` is called but never imported: line 30 imports only `normalize_user_path` from `haymaker.utils` | `Catalog.load('catalog.json')` raises `NameError`; with no path, `Config.load` (line 56) raises it first | import `read_json` (and `get_or_default`, which `CatalogEntry.from_dict` needs); then load the file and parse its entries | high, not executed | AssetLibrary.LoadAsWritten | AssetLibrary.Load |
| haymaker/asset_library/utils.py:91 | `add_entry` calls `Config.load`, which calls the unimported `read_json` (line 56) | `add_entry('rock', 'rock.ma', 'rock.png')` with `rock.png` a file and `rock.ma` already catalogued without a thumbnail: the entry is renamed, then `NameError` | import `read_json` and `get_or_default` (which `Config.from_dict` calls at line 44), so the thumbnail goes to a fresh destination | high, not executed | AssetLibrary.Catalog.AddEntryAsWritten | AssetLibrary.Catalog.AddEntry |
