# Photo organizers and thumbnail batcher, modelled in Dafny

The repository holds three scripts:

- `lulofoto.py` copies the photos of a source tree into destination folders named
  after each photo's date (`%y%m%d`). It has an optional start date, the *date
  floor*: photos dated before it are not copied.
- `bak-foto.py` is the earlier variant without the date floor. This model calls
  it the *baseline* organizer.
- `lulada.py` writes thumbnails of the images in one directory. It names each
  output from the input's name and a configurable prefix and postfix.

Both organizers keep a JSON state file in the destination. It holds the time of
the last sync and `copied_files`, which maps each copied file's path relative to
the source to its photo date. A rerun skips a file when both hold:

- the file is recorded in `copied_files`;
- the file was not modified after the last sync.

This model covers:

- the per-file decision of both organizers;
- the whole walk, including state loading and saving and the collision-free
  target path;
- the naming, configuration and batch loop of the thumbnail batcher.

The filesystem appears as values:

- the destination is a finite set of relative paths;
- the walk is the sequence of `(directory, files)` pairs that `os.walk` yields,
  in its order;
- each file carries its modification time, its EXIF entries and whether its
  copy succeeds;
- the clock's `now` is a parameter;
- `strptime` with the EXIF format is a function parameter `parse`;
- the availability of PIL is a boolean.

Modules, by file:

- `wrappers.dfy`: `Option`.
- `text.dfy`: Python string behaviour the scripts rely on. This covers
  `Path.suffix`, `os.path.splitext`, `str.lower`/`str.upper`, `in` on strings,
  `str.replace`, `str(int)` and `int(str)`.
- `datetimes.dfy`: `datetime` values, their order, `isoformat`/`fromisoformat`
  and the `%y%m%d` bucket.
- `sync_state.dfy`: the state document, `load_state`, `save_state`, and the
  `in` and item assignment on `copied_files`.
- `photo_dates.dfy`: `get_photo_date` and its EXIF search loop.
- `path_planner.dfy`: the destination path and the duplicate-name loop.
- `sync_common.dfy`: the shared image filter, the walk's carried state, and the
  copy path (bucket, target, copy, record).
- `lulofoto.dfy`, `bak_foto.dfy`: one iteration of each organizer's loop, as a
  function and as a method.
- `sync_engine.dfy`: `organize_photos` for both variants, as a specification
  function `Organize` and a method `OrganizePhotos` with the two nested loops.
- `sync_steps.dfy`, `sync_walks.dfy`, `sync_runs.dfy`: properties of one step,
  of a walk, and of whole runs.
- `lulada.dfy`: the thumbnail batcher.

The failure paths the model covers are values:

- An exception caught per file becomes an error count. This covers an unreadable
  modification time, a failed copy, and a `copied_files` that is not a
  dictionary.
- An exception that escapes `organize_photos` becomes `Crashed`, with its cause.
  This covers a state document that is not a dictionary, and a dictionary
  without `last_sync` or `copied_files`.
- An exception that escapes `batch_thumbnails` becomes `OutputDirFailed` (from
  `os.makedirs`) or `ListingFailed` (from `os.listdir` on a source that is a
  regular file or cannot be read).
- A `ValueError` from `getint` becomes the `NotAnInteger` preset result.

The failures that printing can raise are not modelled; "## Left out" lists them.

Two helper lemmas only unfold a definition for the proofs that use it and
state no property of their own: `SyncRuns.OrganizeUnfolds` and
`Lulada.OutputUnfold`. They have no row below.

## Model

| member | source | states |
|---|---|---|
| SyncCommon.IsImageFileByExtension | lulofoto.py:120-122 | a name with a non-empty stem and a proper extension is an image exactly when the lower-cased extension is one of the 14 organizer extensions |
| SyncCommon.HiddenOrBareNameIsNotImage | lulofoto.py:120-122 | a name without a dot, or whose only dot is leading (`.jpg`), has no suffix and is never an image |
| Text.SuffixOfStemAndExtension | lulofoto.py:122 | `Path(stem + ext).suffix` is `ext` for a non-empty stem and an extension `.x` without further dots |
| Text.SplitExtOfJoin | lulofoto.py:209 | `os.path.splitext(stem + ext)` gives back `(stem, ext)` for a stem that is not all dots |
| Text.SplitExt | lulofoto.py:209 | splitext's parts concatenate to the input; the extension is empty or a dot followed by no dot, after a stem that is not all dots |
| Text.CaseChangesOnlyCase | lulada.py:120-123 | upper- and lower-casing keep the length and agree after lower-casing |
| Text.ReplaceAbsent | lulada.py:116-117 | `replace` on text without the pattern changes nothing |
| Text.ReplaceSkipsPlain | lulada.py:116-117 | `replace` copies leading text that cannot start an occurrence and continues behind it |
| Text.ReplaceOccurrence | lulada.py:116-117 | the first occurrence after such text is replaced and `replace` continues behind it, so every occurrence is replaced from left to right |
| Text.ReplaceLeadingPattern | lulada.py:116-117 | `replace` on the pattern followed by pattern-free text gives the replacement followed by that text |
| Text.ParseIntOfIntToString | lulada.py:94-95 | `int(str(n)) == n` for every integer |
| Text.NatToStringInjective | lulofoto.py:212 | distinct counters have distinct decimal forms |
| DateTimes.BeforeIsStrictTotalOrder | lulofoto.py:183 | `<` on datetimes is irreflexive, transitive and total; `<=` is `<` or equality |
| DateTimes.IsoRoundTrip | lulofoto.py:66 | `fromisoformat(d.isoformat()) == d` for every valid datetime |
| DateTimes.BucketDigits | lulofoto.py:200 | the `%y%m%d` folder of a valid date is six digits: year modulo 100, month and day |
| DateTimes.SameBucketIffSameDay | lulofoto.py:200 | two photos share a folder exactly when they agree on year modulo 100, month and day |
| SyncState.LoadState | lulofoto.py:57-71 | a missing or unreadable file gives the default record; an object without `last_sync` is returned as it is; an object whose `last_sync` is not a string `fromisoformat` accepts gives the default record; a loaded datetime comes from a stored ISO string; a loaded state is well shaped |
| SyncState.SaveState | lulofoto.py:74-87 | the written object has the state's keys plus `last_sync`, and every other entry unchanged |
| SyncState.LoadStoredTime | lulofoto.py:57-71 | entries without `last_sync`, stored with a `last_sync` string that parses, load as that datetime and the same entries |
| SyncState.LoadOfSave | lulofoto.py:57-87 | loading what `save_state` wrote for a state with a valid `last_sync` gives that state back |
| SyncState.LoadOfSaveWithoutTime | bak-foto.py:56-86 | a state saved with `last_sync` equal to `None` loads as the default record |
| SyncState.InCopied | lulofoto.py:195 | `key in copied_files` raises exactly on `null`, booleans and numbers, and is key membership on an object |
| SyncState.SetCopied | lulofoto.py:218 | item assignment succeeds exactly on an object; it sets the key and keeps every other entry |
| SyncState.SetThenIn | lulofoto.py:195-218 | after the assignment the key is in `copied_files`, and membership of every other key is unchanged |
| PhotoDates.FirstExifDateIsFirstMatch | lulofoto.py:39-50 | the EXIF search finds nothing exactly when no date tag parses, and otherwise returns the first date tag, in iteration order, that parses |
| PhotoDates.PhotoDateFallback | lulofoto.py:30-54 | without PIL or a parsing date tag the photo date is the modification time; otherwise it is the first parsing tag's date; a readable modification time always gives a date |
| PhotoDates.GetPhotoDate | bak-foto.py:29-53 | the search loop returns the specified photo date |
| PathPlanner.CandidateInjective | lulofoto.py:212-213 | distinct counters give distinct `base_k.ext` paths |
| PathPlanner.FreeFrom | lulofoto.py:211-214 | the first candidate from counter `k` on that does not exist; every candidate before it exists |
| PathPlanner.Target | lulofoto.py:203-214 | the destination path never exists beforehand |
| PathPlanner.TargetIsFirstFree | lulofoto.py:203-214 | the target is the plain name when free, else `base_k.ext` for the least free `k >= 1` |
| PathPlanner.ResolveTarget | bak-foto.py:163-174 | the duplicate-name loop ends on the target and that path does not exist |
| Text.Suffix | lulofoto.py:122 | `Path.suffix`: from the last dot when that dot is neither first nor last, else empty; characterised by `Text.SuffixOfStemAndExtension` |
| Text.Lower | lulofoto.py:122 | `str.lower` on ASCII, character by character |
| Text.Upper | lulada.py:121 | `str.upper` on ASCII, character by character |
| Text.Replace | lulada.py:116-117 | `str.replace`: left-to-right, non-overlapping replacement of every occurrence; characterised by `Text.ReplaceAbsent`, `Text.ReplaceOccurrence` and `Text.ReplaceLeadingPattern` |
| Text.IntToString | lulada.py:71 | `str(width)`: an optional minus sign and the decimal digits |
| Text.ParseInt | lulada.py:94-95 | the `int()` behind `getint`: an optional sign and decimal digits, else a `ValueError`; inverse of `IntToString` by `Text.ParseIntOfIntToString` |
| DateTimes.ToIso | lulofoto.py:81 | `datetime.isoformat()`: date, `T`, time, and microseconds only when they are not zero |
| DateTimes.FromIso | lulofoto.py:66 | `datetime.fromisoformat` for the forms without a UTC offset; inverse of `ToIso` by `DateTimes.IsoRoundTrip` |
| DateTimes.Bucket | lulofoto.py:200 | `strftime("%y%m%d")`; characterised by `DateTimes.BucketDigits` and `DateTimes.SameBucketIffSameDay` |
| PhotoDates.FirstExifDate | lulofoto.py:39-48 | the EXIF loop: the first date tag whose value parses, in iteration order; characterised by `PhotoDates.FirstExifDateIsFirstMatch` |
| PhotoDates.PhotoDate | lulofoto.py:30-54 | `get_photo_date`: the EXIF date with PIL, else the modification time; characterised by `PhotoDates.PhotoDateFallback` |
| SyncCommon.IsImageFile | lulofoto.py:120-122 | the organizers' filter: the lower-cased suffix is one of the 14 extensions; characterised by `SyncCommon.IsImageFileByExtension` |
| SyncCommon.CopyFile | lulofoto.py:199-219 | the copy path: bucket, first free target, copy, then the `copied_files` entry; characterised by `SyncSteps.CopyFileEffect` |
| Lulofoto.Step | lulofoto.py:171-225 | one iteration of the date-floor organizer: date first, then the floor, the modification time and the recorded-file skip; its properties are in `SyncSteps` |
| BakFoto.Step | bak-foto.py:136-185 | one iteration of the baseline organizer: modification time and recorded-file skip first, the date only on the copy path; its properties are in `SyncSteps` |
| SyncEngine.Organize | lulofoto.py:125-241 | `organize_photos`: source check, state loading, the walk, the new stamp and the save; its properties are in `SyncRuns` |
| SyncCommon.FileKey | lulofoto.py:191 | `os.path.relpath` of a walked file: its directory relative to the source, a slash and the name, or the name alone at the top |
| SyncCommon.CountFound | lulofoto.py:175 | `stats['total_found'] += 1` |
| SyncCommon.CountSkipped | lulofoto.py:184 | `stats['skipped'] += 1` |
| SyncCommon.CountError | lulofoto.py:224 | `stats['errors'] += 1` |
| SyncEngine.StepFile | lulofoto.py:171-225 | the per-file step of the chosen organizer: `Lulofoto.Step` with the optional floor, or `BakFoto.Step` |
| SyncEngine.WalkFiles | lulofoto.py:171 | the inner `for` loop over one directory's files, in order; characterised by `SyncWalks.FilesPreserve` and `SyncWalks.FilesFound` |
| SyncEngine.WalkTree | lulofoto.py:170 | the outer `for` loop over the directories `os.walk` yields, in order; characterised by `SyncWalks.TreePreserves` and `SyncWalks.TreeFound` |
| SyncEngine.RunOptions | lulofoto.py:149 | the run's `force_all`, PIL flag and `last_sync`, a loaded datetime or none |
| SyncEngine.Start | lulofoto.py:150-167 | the walk starts from the loaded `copied_files`, the destination as it is, zeroed counters and no writes |
| SyncEngine.SavedFile | lulofoto.py:74-87 | the state file after `save_state`: the written document, the old file when `open` fails, or an unreadable one when writing fails; characterised by `SyncRuns.SavedStampLoads` |
| PathPlanner.JoinPath | lulofoto.py:203 | `os.path.join(dest_folder, filename)` |
| PathPlanner.Candidate | lulofoto.py:211-213 | `os.path.join(dest_folder, f"{base}_{counter}{ext}")`; characterised by `PathPlanner.CandidateInjective` |
| PhotoDates.IsDateTag | lulofoto.py:43 | the three EXIF tag names the search accepts |
| SyncState.DefaultState | lulofoto.py:71 | `{'last_sync': None, 'copied_files': {}}` |
| DateTimes.Valid | lulofoto.py:66 | the range `datetime` enforces: years 1 to 9999, the calendar's months and days, and the clock's fields |
| DateTimes.Before | lulofoto.py:183 | datetime `<`, field by field; characterised by `DateTimes.BeforeIsStrictTotalOrder` |
| DateTimes.NotAfter | lulofoto.py:193 | datetime `<=` as not `>`; characterised by `DateTimes.BeforeIsStrictTotalOrder` |
| SyncCommon.CopyPhoto | lulofoto.py:199-219 | the copy path as statements equals its specification, and adds at most the written path to the destination |
| Lulofoto.ProcessFile | lulofoto.py:171-225 | one iteration of the date-floor organizer's loop equals its decision function |
| BakFoto.ProcessFile | bak-foto.py:136-185 | one iteration of the baseline organizer's loop equals its decision function |
| SyncEngine.OrganizePhotos | lulofoto.py:125-241 | the two nested loops with the state loading and saving compute `Organize` |
| SyncSteps.CopyFileEffect | lulofoto.py:199-219 | a failed copy is an error and nothing else; otherwise exactly the target is written, then recorded under the key with the ISO photo date, or counted as an error when `copied_files` is not a dictionary |
| SyncSteps.StepShape | lulofoto.py:171-225 | an image ends as an error, a skip, or the copy path with its photo date |
| SyncSteps.StepCounts | bak-foto.py:136-185 | a non-image changes nothing; an image adds one to the found count and one to exactly one of copied, skipped and errors |
| SyncSteps.StepWrites | lulofoto.py:199-218 | a step writes at most one path, a new one in the photo's date folder; a copy always writes, and with a dictionary `copied_files` a write is always a copy |
| SyncSteps.StepRecords | lulofoto.py:218 | `copied_files` changes only on a copy, and then only at the file's key, which gets the ISO photo date |
| SyncSteps.StepRespectsFloor | lulofoto.py:182-185 | a photo dated before the floor is skipped whatever the state says; a copied or written photo is not dated before it |
| SyncSteps.StepSkipsSynced | lulofoto.py:193-197 | without a floor or forcing, a recorded image not modified since the last sync is skipped with nothing else changed |
| SyncSteps.FloorStepCopies | lulofoto.py:182-218 | with a date floor, an image dated at or after the floor whose modification time is readable takes the copy path, recorded or not, forced or not, whatever `last_sync` is |
| SyncSteps.StepIgnoresLastSync | lulofoto.py:193 | with `force_all` or a floor the decision does not depend on `last_sync` |
| SyncSteps.ForcedStepCopies | bak-foto.py:148-180 | with `force_all` and no floor, whatever `last_sync` is, an image is copied exactly when its modification time is readable and its copy succeeds, and is an error otherwise |
| SyncSteps.UnrecordedStepCopies | lulofoto.py:193-218 | without a floor, an image whose key is not in `copied_files` and whose modification time is readable takes the copy path, even when it was not modified after the last sync |
| SyncSteps.StepsAgree | bak-foto.py:136-185 | without a floor both organizers take the same decision on every file |
| SyncSteps.StepResolution | lulofoto.py:179-180 | the date-floor organizer looks up every image's date; the baseline one never for a skipped file, always for a copied one |
| SyncSteps.StepKeys | lulofoto.py:218 | a step leaves `copied_files` as it is or, for an image and a dictionary, adds exactly the file's key |
| SyncSteps.StepKeepsRecorded | lulofoto.py:218 | a recorded key stays recorded, whatever the shape of `copied_files` |
| SyncSteps.StepRecordsImage | bak-foto.py:148-180 | without a floor, an image processed without error is recorded afterwards |
| SyncSteps.BaselineFirstRun | bak-foto.py:142-180 | the baseline organizer's case of `SyncSteps.StepFirstRun` |
| SyncSteps.FloorlessFirstRun | lulofoto.py:171-219 | the date-floor organizer's case of `SyncSteps.StepFirstRun`, without a floor |
| SyncSteps.StepFirstRun | bak-foto.py:142-180 | with no last sync, an image is copied exactly when its modification time is readable and its copy succeeds, and is an error otherwise |
| SyncWalks.FilesImageKeysHave | bak-foto.py:136-144 | every image of a directory has its key among the directory's image keys |
| SyncWalks.ImageKeysHave | bak-foto.py:135-144 | every image of the walk has its key among the walk's image keys |
| SyncWalks.FilesSplit | bak-foto.py:136-138 | the copyable and uncopyable images of a directory add up to its images |
| SyncWalks.TreeSplit | bak-foto.py:135-138 | the copyable and uncopyable images of a walk add up to its images |
| SyncWalks.FilesPreserve | bak-foto.py:136 | what every step preserves, the walk over one directory preserves |
| SyncWalks.TreePreserves | bak-foto.py:135-136 | what every step preserves, the whole walk preserves |
| SyncWalks.StepNoOverwrite | lulofoto.py:203-218 | one step keeps the writes new, pairwise distinct, and equal to what the destination gained |
| SyncWalks.StepLedger | lulofoto.py:175-224 | one step keeps the counters balanced and the copies within the writes |
| SyncWalks.StepKeysFrom | lulofoto.py:189-217 | one step drops no key from `copied_files` and adds only an image key of the walk |
| SyncWalks.StepFloorRecords | lulofoto.py:182-217 | one step with a floor keeps every entry either initial or the ISO date of a photo not before the floor |
| SyncWalks.TreeNoOverwrite | lulofoto.py:170-218 | the walk writes no path that existed, none twice, and the destination gains exactly its writes |
| SyncWalks.TreeLedger | lulofoto.py:170-224 | the walk keeps the counters balanced and every copy a write |
| SyncWalks.TreeKeysFrom | lulofoto.py:170-217 | the walk keeps every initial key and adds only image keys |
| SyncWalks.TreeFloorRecords | lulofoto.py:170-217 | after a walk with a floor every entry is initial or admitted by the floor |
| SyncWalks.FilesFound | bak-foto.py:136-140 | each image of a directory is counted as found once |
| SyncWalks.TreeFound | lulofoto.py:170-175 | each image of the walk is counted as found once |
| SyncWalks.FilesFirstRun | bak-foto.py:136-184 | on a first run each directory copies its copyable images and fails on the rest |
| SyncWalks.TreeFirstRun | bak-foto.py:135-184 | on a first run the walk copies its copyable images and fails on the rest, skipping none |
| SyncWalks.FilesAgree | bak-foto.py:136-185 | without a floor both organizers walk a directory to the same result |
| SyncWalks.TreeAgree | bak-foto.py:135-185 | without a floor both organizers walk the tree to the same result |
| SyncWalks.TreeErrorsGrow | lulofoto.py:222-224 | the walk never lowers the error count |
| SyncWalks.FilesErrorsGrow | lulofoto.py:222-224 | a directory never lowers the error count |
| SyncWalks.FilesKeepRecorded | lulofoto.py:218 | a recorded key stays recorded through a directory |
| SyncWalks.FilesRecordImages | bak-foto.py:136-180 | without a floor, a directory walked without new error has all its images recorded |
| SyncWalks.TreeRecordsImages | bak-foto.py:135-180 | without a floor, a walk without new error has all its images recorded |
| SyncWalks.TreeSkipsSynced | bak-foto.py:148-154 | a walk over recorded, unmodified images counts every image as skipped and copies, writes and fails on nothing |
| SyncRuns.OrganizeOutcome | lulofoto.py:140-150 | a missing source ends the run; each crash happens exactly for its state document shape; a missing or unreadable state file never crashes |
| SyncRuns.OrganizeCounts | lulofoto.py:161-238 | a completed run counts each image once as copied, skipped or failed, and each copy is a write |
| SyncRuns.OrganizeNoOverwrite | lulofoto.py:203-218 | a completed run never overwrites or twice writes a path, and the destination gains exactly its writes |
| SyncRuns.OrganizeSavesState | lulofoto.py:227-230 | the saved state carries `now` and every loaded entry; a written state file loads back as the run left it; a failed open leaves the file, a failed write leaves it unreadable |
| SyncRuns.SavedStampLoads | lulofoto.py:74-87 | a failed open leaves the state file, a failed write leaves it unreadable, and a written file with a valid stamp loads back as the saved record |
| SyncRuns.OrganizeKeys | lulofoto.py:149-229 | `copied_files` keeps every key it was loaded with and gains only image keys of the walk |
| SyncRuns.OrganizeRespectsFloor | lulofoto.py:182-217 | with a floor every `copied_files` entry after the run is a loaded one or the date of a photo not before the floor |
| SyncRuns.OrganizeRecordsImages | bak-foto.py:135-190 | without a floor, a run with no error records every image of the walk |
| SyncRuns.OrganizeFirstRun | bak-foto.py:108-190 | a first run copies exactly the copyable images, fails on the others and skips none |
| SyncRuns.RunOverSyncedState | bak-foto.py:117-154 | a run from a state that records every image, none modified since the last sync, copies and writes nothing and keeps the state's entries |
| SyncRuns.RerunCopiesNothing | bak-foto.py:94-199 | a rerun after an error-free run over unchanged files skips every image, copies and writes nothing, and keeps `copied_files` |
| SyncRuns.OrganizersAgree | lulofoto.py:170-225 | without a floor both organizers end every run with the same outcome, counters, state, state file and destination |
| Lulada.IsImageFileByExtension | lulada.py:102-104 | a name with a proper extension is an image exactly when the lower-cased extension is one of the 8 batcher extensions |
| Lulada.ExtensionSetsDiffer | lulada.py:23 | the batcher takes WebP files the organizers ignore, and ignores the HEIF and raw files they copy |
| Lulada.IsImageFile | lulada.py:102-104 | the batcher's filter: the lower-cased suffix is one of its 8 extensions; characterised by `Lulada.IsImageFileByExtension` |
| Lulada.SizeAbbr | lulada.py:67-85 | `get_size_abbr`: the `[sizes]` entry for `str(width)`, else the built-in abbreviation; characterised by `Lulada.SizeAbbrOverride` and `Lulada.DefaultAbbr` |
| Lulada.GetInt | lulada.py:94-95 | `getint(option, fallback)`: the fallback when the option is absent, the parsed value, or the `ValueError` as `None`; characterised by `Lulada.PresetOptions` |
| Lulada.Get | lulada.py:72 | a section lookup finds the section's value, else the `DEFAULT` value, and is empty exactly when neither has the option |
| Lulada.DefaultAbbr | lulada.py:76-85 | each built-in abbreviation is given exactly for its width range |
| Lulada.DefaultAbbrMonotone | lulada.py:76-85 | a wider thumbnail never gets a smaller built-in abbreviation |
| Lulada.SizeAbbrOverride | lulada.py:67-85 | a `[sizes]` entry for the decimal width wins; without `[sizes]` or such an entry the built-in abbreviation is used |
| Lulada.GetPresetSize | lulada.py:88-99 | there is no preset exactly when the `preset_` section is absent |
| Lulada.PresetDefaults | lulada.py:94-97 | a preset without options gives 800 by 600 and its own name; stored decimal sizes and an abbreviation are returned as stored |
| Lulada.PresetOptions | lulada.py:92-97 | option by option: `NotAnInteger` exactly when `width` or `height` is present and not an integer; otherwise the width is the parsed value or 800, the height the parsed value or 600, and the abbreviation the stored one or the preset's name |
| Lulada.PresetStoredSizes | lulada.py:94-96 | a preset storing its width and height in decimal gives them back, with its stored abbreviation or, without one, its own name |
| Lulada.CaseExt | lulada.py:120-124 | `upper` gives the upper-cased extension and `lower` the lower-cased one; any other `ext_case` leaves it unchanged; every case keeps the length and the letters up to case |
| Lulada.OutputFilename | lulada.py:109-110 | with `keep_same` the output is the input name |
| Lulada.CaseExtKeepsDots | lulada.py:120-123 | case changes keep a proper extension proper |
| Lulada.OutputKeepsExtension | lulada.py:113-129 | the output's own extension is the input's after `ext_case` (upper-cased, lower-cased or as it is); before it come the substituted prefix, the input's name and the substituted postfix |
| Lulada.OutputWithoutPlaceholder | lulada.py:116-129 | affixes without `{size}` are used verbatim and the abbreviation plays no part |
| Lulada.OutputOfBareNaming | lulada.py:107-129 | with no affixes and no case change the output is the input name, a `{size}` in it included |
| Lulada.OutputSizePostfix | lulada.py:116-127 | a postfix with one `{size}` (such as `_{size}`) gets the abbreviation in its place; everything else of both affixes, the name and the cased extension are kept |
| Lulada.OutputSizePrefix | lulada.py:116-127 | a prefix with one `{size}` (such as `thumb_{size}_`) gets the abbreviation in its place; everything else is kept |
| Lulada.OutputCaseOnlyExtension | lulada.py:120-129 | two `ext_case` values give outputs that differ only in the letter case of the extension |
| Lulada.OutputName | lulada.py:213-214 | the `generate_output_filename` call with the run's naming options |
| Lulada.Visit | lulada.py:210-228 | the iteration on an image: found, then skipped when the output exists, else created or failed; characterised by `Lulada.VisitKeepsInvariant` and `Lulada.StepSkipsExisting` |
| Lulada.ThumbStep | lulada.py:206-228 | one iteration: a non-image is passed over, an image is visited under its output name |
| Lulada.ThumbFold | lulada.py:206-228 | the loop over the listing, in order; characterised by `Lulada.FoldKeepsInvariant` and `Lulada.BatchCountsAndNoOverwrite` |
| Lulada.Thumbnails | lulada.py:184-206 | the batch returns `False` exactly when the source directory is missing, raises from `os.makedirs` exactly when the output directory cannot be made, raises from `os.listdir` exactly when the source cannot be listed, and otherwise runs the loop |
| Lulada.ProcessListed | lulada.py:206-228 | one loop iteration as statements equals its step function |
| Lulada.ProcessImage | lulada.py:210-228 | the iteration on an image, from the existence check on, as statements equals its specification |
| Lulada.BatchThumbnails | lulada.py:178-239 | the batch loop computes `Thumbnails` |
| Lulada.StepSkipsExisting | lulada.py:217-221 | an image whose output exists is counted as skipped with nothing else changed |
| Lulada.VisitKeepsInvariant | lulada.py:210-228 | the iteration on an image adds one found image, keeps the counters balanced and the created thumbnails new and distinct |
| Lulada.StepKeepsInvariant | lulada.py:206-228 | one iteration keeps the counters balanced and the created thumbnails new and distinct |
| Lulada.FoldKeepsInvariant | lulada.py:206-228 | the loop keeps the counters balanced and the created thumbnails new and distinct |
| Lulada.BatchCountsAndNoOverwrite | lulada.py:178-239 | every image is counted once as created, skipped or failed; no output is overwritten or written twice; each created thumbnail is named after a listed image |
| Lulada.FoldGrows | lulada.py:206-228 | the loop never removes an output and never lowers the error count |
| Lulada.StepLeavesOutput | lulada.py:217-226 | a step on an image that adds no error leaves its output present |
| Lulada.FoldLeavesOutputs | lulada.py:206-228 | after a loop with no new error every listed image has its output present |
| Lulada.FoldCreatesWanted | lulada.py:213-226 | every created thumbnail's name is the output name of a listed image |
| Lulada.SkipOnlyFold | lulada.py:217-221 | a listing whose outputs all exist is skipped entirely |
| Lulada.RerunSkipsAll | lulada.py:178-239 | a second batch after an error-free one creates nothing and skips every image |

## Left out

- Reading image files and their EXIF data with PIL is left out. Each file carries the entries `_getexif()` would yield.
- The body of `create_thumbnail` is left out: the aspect-ratio arithmetic, resampling, RGBA to RGB conversion and JPEG quality. Each listed file carries whether it succeeds. Width, height and quality reach only that outcome, so they are not modelled.
- A failed `create_thumbnail` is assumed to write nothing. A partly written output file is not modelled.
- A failed `shutil.copy2` is assumed to write nothing. A partly copied destination file is not modelled.
- A failed `os.makedirs` for the date folder is folded into the file's copy outcome.
- Creating the organizers' destination directory (`os.makedirs` at lulofoto.py:145 and its twin in bak-foto.py) is not modelled; a failure there is not an outcome of `Organize`. The paths below the destination are the model's state. The batcher's `os.makedirs` is modelled as `OutputDirFailed`.
- `os.walk` passes over directories it cannot list, so the organizers' walk has no listing failure; unlisted directories are simply absent from the given walk.
- The clock is a parameter: `datetime.now()` is `now`, and `os.path.getmtime` with `fromtimestamp` is the file's `mtime`. Time zones and floating-point timestamps are left out.
- `strptime("%Y:%m:%d %H:%M:%S")` is the parameter `parse`; its parsing rules are not spelled out.
- The order `os.walk` and `os.listdir` produce is an input. So is the effect of a destination inside the source: the walk is given, not computed from the filesystem.
- JSON text encoding and decoding are left out. The state file is a parsed document, unreadable, or absent, and JSON numbers are integers.
- `fromisoformat` is modelled for the forms Python 3.7 to 3.10 accept without a UTC offset; a string with an offset is rejected. In the source it would load an aware datetime, and comparing that with a naive modification time raises. The wider forms that 3.11 accepts are left out.
- Case mapping is ASCII only. Python's `str.lower` and `str.upper` also map other Unicode letters, which matters only for extensions outside ASCII.
- `int()` in `getint` is modelled as an optional sign followed by decimal digits. Surrounding whitespace and digit-group underscores, which Python also accepts, are left out.
- INI parsing is left out (`load_config` in lulada.py and lulofoto.py, interpolation, and option-name case folding). The configuration is a parsed `DEFAULT` map and sections of maps.
- `save_config`, `main` and argument parsing are left out, as is all printing, including the run summaries. The summaries' counters are the model's `Stats`/`BatchStats`.
- A `print` that raises is not modelled. Inside the per-file `try` (lulofoto.py:221, bak-foto.py:181) a `UnicodeEncodeError` or `BrokenPipeError` after a copy would count the file both copied and as an error; a `print` that raises in the `except` clause, in the batcher (lulada.py:219, 225) or in a summary would instead end the run with that exception, in the organizers before `save_state`. The model takes every `print` to succeed.
- `SyncState.SaveState`: its precondition is a state with a `last_sync` entry. That is the only shape its caller passes; it does not model the `KeyError` for a state without one.
- `Lulada.OutputFilename`: the output's path is the name alone. An absolute name, or one with a directory part, that would make `os.path.join` leave the output directory is left out.
- Concurrency and crashes part-way through a run are left out, as is the state file being written only at the end of a run.
- With a date floor, a file already recorded is copied again on each run (lulofoto.py:193 switches the recorded-file skip off). `SyncSteps.FloorStepCopies` states this: such a file takes the copy path whatever `copied_files`, `force_all` and `last_sync` say. Entries loaded from an earlier run are never removed, so `copied_files` may hold photos dated before the floor; `SyncRuns.OrganizeRespectsFloor` states the guarantee only for the entries the run adds.
