/** Properties of whole runs of `organize_photos`. */
module SyncRuns {
  import opened Wrappers
  import opened Text
  import opened DateTimes
  import opened SyncState
  import opened SyncCommon
  import opened SyncEngine
  import opened SyncSteps
  import opened SyncWalks

  /** How a run ends, by the state file it finds: a missing source stops
      it; a stored document that is not an object and is not shielded by a
      raising membership test, an object without `last_sync`, or an object
      whose valid `last_sync` comes without `copied_files` crashes it; a
      missing or unreadable state file never does. */
  lemma OrganizeOutcome(v: Variant, forceAll: bool, hasPil: bool, parse: string -> Option<DateTime>,
                        sourceExists: bool, stateFile: StateFile, walk: seq<WalkDir>,
                        destDir: set<string>, now: DateTime, save: SaveOutcome)
    ensures var r := Organize(v, forceAll, hasPil, parse, sourceExists, stateFile, walk, destDir, now, save);
            r.SourceMissing? <==> !sourceExists
    ensures var r := Organize(v, forceAll, hasPil, parse, sourceExists, stateFile, walk, destDir, now, save);
            r == Crashed(NotADictionary) <==>
              && sourceExists && stateFile.Stored?
              && (|| (stateFile.doc.JString? && !Contains(stateFile.doc.s, "last_sync"))
                  || (stateFile.doc.JArray? && JString("last_sync") !in stateFile.doc.items))
    ensures var r := Organize(v, forceAll, hasPil, parse, sourceExists, stateFile, walk, destDir, now, save);
            r == Crashed(MissingLastSync) <==>
              && sourceExists && stateFile.Stored? && stateFile.doc.JObject?
              && "last_sync" !in stateFile.doc.fields
    ensures var r := Organize(v, forceAll, hasPil, parse, sourceExists, stateFile, walk, destDir, now, save);
            r == Crashed(MissingCopiedFiles) <==>
              && sourceExists && stateFile.Stored? && stateFile.doc.JObject?
              && "last_sync" in stateFile.doc.fields && stateFile.doc.fields["last_sync"].JString?
              && FromIso(stateFile.doc.fields["last_sync"].s).Some?
              && "copied_files" !in stateFile.doc.fields
    ensures var r := Organize(v, forceAll, hasPil, parse, sourceExists, stateFile, walk, destDir, now, save);
            sourceExists && (stateFile.Absent? || stateFile.Unreadable?) ==> r.Completed?
  {
  }

  /** Unfolding step for the run lemmas below: a completed run is the walk
      from the loaded state, stamped and saved. */
  lemma OrganizeUnfolds(v: Variant, forceAll: bool, hasPil: bool, parse: string -> Option<DateTime>,
                        sourceExists: bool, stateFile: StateFile, walk: seq<WalkDir>,
                        destDir: set<string>, now: DateTime, save: SaveOutcome)
    requires Organize(v, forceAll, hasPil, parse, sourceExists, stateFile, walk, destDir, now, save).Completed?
    ensures var st := LoadState(stateFile);
            && sourceExists && st.StateDict? && !st.lastSync.NoKey? && "copied_files" in st.rest
            && var acc := WalkTree(v, RunOptions(st, forceAll, hasPil), parse, Start(st, destDir), walk);
               var final := StateDict(Time(now), st.rest["copied_files" := acc.copiedFiles]);
               Organize(v, forceAll, hasPil, parse, sourceExists, stateFile, walk, destDir, now, save) ==
                 Completed(acc.stats, final, SavedFile(stateFile, final, save), acc.dest, acc.writes, acc.resolved)
  {
  }

  /** A completed run finds every image once and counts it once as
      copied, skipped or failed; every copy is a write. */
  lemma OrganizeCounts(v: Variant, forceAll: bool, hasPil: bool, parse: string -> Option<DateTime>,
                       sourceExists: bool, stateFile: StateFile, walk: seq<WalkDir>,
                       destDir: set<string>, now: DateTime, save: SaveOutcome)
    requires Organize(v, forceAll, hasPil, parse, sourceExists, stateFile, walk, destDir, now, save).Completed?
    ensures var r := Organize(v, forceAll, hasPil, parse, sourceExists, stateFile, walk, destDir, now, save);
            && Balanced(r.stats)
            && r.stats.totalFound == TreeWhere(walk, IsImage)
            && r.stats.copied <= |r.writes|
  {
    OrganizeUnfolds(v, forceAll, hasPil, parse, sourceExists, stateFile, walk, destDir, now, save);
    var st := LoadState(stateFile);
    var opts := RunOptions(st, forceAll, hasPil);
    var start := Start(st, destDir);
    TreeFound(v, opts, parse, start, walk);
    TreeLedger(v, opts, parse, start, walk);
  }

  /** A completed run never writes a path that existed before it, never
      writes a path twice, and what the destination gains is exactly the
      paths it wrote. */
  lemma OrganizeNoOverwrite(v: Variant, forceAll: bool, hasPil: bool, parse: string -> Option<DateTime>,
                            sourceExists: bool, stateFile: StateFile, walk: seq<WalkDir>,
                            destDir: set<string>, now: DateTime, save: SaveOutcome)
    requires Organize(v, forceAll, hasPil, parse, sourceExists, stateFile, walk, destDir, now, save).Completed?
    ensures var r := Organize(v, forceAll, hasPil, parse, sourceExists, stateFile, walk, destDir, now, save);
            && (forall i :: 0 <= i < |r.writes| ==> r.writes[i] !in destDir)
            && (forall i, j :: 0 <= i < j < |r.writes| ==> r.writes[i] != r.writes[j])
            && r.dest == destDir + (set w | w in r.writes)
  {
    OrganizeUnfolds(v, forceAll, hasPil, parse, sourceExists, stateFile, walk, destDir, now, save);
    var st := LoadState(stateFile);
    var opts := RunOptions(st, forceAll, hasPil);
    var start := Start(st, destDir);
    assert (set w | w in start.writes) == {};
    TreeNoOverwrite(destDir, v, opts, parse, start, walk);
  }

  /** A completed run stamps the state with `now` and keeps every other
      entry it was loaded with; written with a valid `now`, the state
      file loads back as the run left the state. */
  lemma OrganizeSavesState(v: Variant, forceAll: bool, hasPil: bool, parse: string -> Option<DateTime>,
                           sourceExists: bool, stateFile: StateFile, walk: seq<WalkDir>,
                           destDir: set<string>, now: DateTime, save: SaveOutcome)
    requires Organize(v, forceAll, hasPil, parse, sourceExists, stateFile, walk, destDir, now, save).Completed?
    ensures var r := Organize(v, forceAll, hasPil, parse, sourceExists, stateFile, walk, destDir, now, save);
            var loaded := LoadState(stateFile);
            && r.state.StateDict? && r.state.lastSync == Time(now)
            && loaded.StateDict? && r.state.rest.Keys == loaded.rest.Keys
            && (forall k :: k in loaded.rest && k != "copied_files" ==> r.state.rest[k] == loaded.rest[k])
    ensures var r := Organize(v, forceAll, hasPil, parse, sourceExists, stateFile, walk, destDir, now, save);
            save == Written && Valid(now) ==> LoadState(r.stateFile) == r.state
    ensures var r := Organize(v, forceAll, hasPil, parse, sourceExists, stateFile, walk, destDir, now, save);
            (save == OpenFailed ==> r.stateFile == stateFile) && (save == WriteFailed ==> r.stateFile == Unreadable)
  {
    OrganizeUnfolds(v, forceAll, hasPil, parse, sourceExists, stateFile, walk, destDir, now, save);
    var st := LoadState(stateFile);
    var acc := WalkTree(v, RunOptions(st, forceAll, hasPil), parse, Start(st, destDir), walk);
    var final := StateDict(Time(now), st.rest["copied_files" := acc.copiedFiles]);
    assert final.rest.Keys == st.rest.Keys;
    SavedStampLoads(stateFile, final, save);
  }

  /** The state file a save leaves: as before when `open` fails, not JSON
      when the write fails part way, and one that loads back as the saved
      record when it is written with a valid stamp. */
  lemma SavedStampLoads(previous: StateFile, final: LoadedState, save: SaveOutcome)
    requires final.StateDict? && final.lastSync.Time? && "last_sync" !in final.rest
    ensures save == Written && Valid(final.lastSync.at) ==> LoadState(SavedFile(previous, final, save)) == final
    ensures save == OpenFailed ==> SavedFile(previous, final, save) == previous
    ensures save == WriteFailed ==> SavedFile(previous, final, save) == Unreadable
  {
    if save == Written && Valid(final.lastSync.at) {
      LoadOfSave(final);
    }
  }

  /** Keys of a dictionary `copied_files` are never dropped, and the keys
      a run adds are keys of images of the walk. */
  lemma OrganizeKeys(v: Variant, forceAll: bool, hasPil: bool, parse: string -> Option<DateTime>,
                     sourceExists: bool, stateFile: StateFile, walk: seq<WalkDir>,
                     destDir: set<string>, now: DateTime, save: SaveOutcome)
    requires Organize(v, forceAll, hasPil, parse, sourceExists, stateFile, walk, destDir, now, save).Completed?
    requires LoadState(stateFile).rest["copied_files"].JObject?
    ensures var r := Organize(v, forceAll, hasPil, parse, sourceExists, stateFile, walk, destDir, now, save);
            var init := LoadState(stateFile).rest["copied_files"].fields;
            && r.state.rest["copied_files"].JObject?
            && init.Keys <= r.state.rest["copied_files"].fields.Keys <= init.Keys + ImageKeys(walk)
  {
    var st := LoadState(stateFile);
    var opts := RunOptions(st, forceAll, hasPil);
    var start := Start(st, destDir);
    var init := st.rest["copied_files"].fields;
    TreeKeysFrom(init, v, opts, parse, start, walk);
  }

  /** With a date floor, every entry of `copied_files` after the run is
      either one it was loaded with, unchanged, or the ISO date of a photo
      not dated before the floor. */
  lemma OrganizeRespectsFloor(startDate: DateTime, forceAll: bool, hasPil: bool, parse: string -> Option<DateTime>,
                              sourceExists: bool, stateFile: StateFile, walk: seq<WalkDir>,
                              destDir: set<string>, now: DateTime, save: SaveOutcome)
    requires Organize(DateFloor(Some(startDate)), forceAll, hasPil, parse, sourceExists, stateFile, walk, destDir, now, save).Completed?
    requires LoadState(stateFile).rest["copied_files"].JObject?
    ensures var r := Organize(DateFloor(Some(startDate)), forceAll, hasPil, parse, sourceExists, stateFile, walk, destDir, now, save);
            var init := LoadState(stateFile).rest["copied_files"].fields;
            FloorRecords(startDate, init, WalkTree(DateFloor(Some(startDate)), RunOptions(LoadState(stateFile), forceAll, hasPil),
                                                   parse, Start(LoadState(stateFile), destDir), walk))
    ensures var r := Organize(DateFloor(Some(startDate)), forceAll, hasPil, parse, sourceExists, stateFile, walk, destDir, now, save);
            var init := LoadState(stateFile).rest["copied_files"].fields;
            var c := r.state.rest["copied_files"];
            c.JObject? && forall k :: k in c.fields ==> (k in init && c.fields[k] == init[k]) || AdmittedBy(startDate, c.fields[k])
  {
    var v := DateFloor(Some(startDate));
    var st := LoadState(stateFile);
    var opts := RunOptions(st, forceAll, hasPil);
    var start := Start(st, destDir);
    var init := st.rest["copied_files"].fields;
    TreeFloorRecords(startDate, init, opts, parse, start, walk);
  }

  /** Without a floor, a run that reports no error leaves every image of
      the walk recorded in `copied_files`. */
  lemma OrganizeRecordsImages(v: Variant, forceAll: bool, hasPil: bool, parse: string -> Option<DateTime>,
                              sourceExists: bool, stateFile: StateFile, walk: seq<WalkDir>,
                              destDir: set<string>, now: DateTime, save: SaveOutcome)
    requires v == Baseline || v == DateFloor(None)
    requires Organize(v, forceAll, hasPil, parse, sourceExists, stateFile, walk, destDir, now, save).Completed?
    requires Organize(v, forceAll, hasPil, parse, sourceExists, stateFile, walk, destDir, now, save).stats.errors == 0
    ensures var r := Organize(v, forceAll, hasPil, parse, sourceExists, stateFile, walk, destDir, now, save);
            forall i, j :: 0 <= i < |walk| && 0 <= j < |walk[i].files| && IsImageFile(walk[i].files[j].name) ==>
              InCopied(r.state.rest["copied_files"], FileKey(walk[i].rel, walk[i].files[j].name)) == Some(true)
  {
    var st := LoadState(stateFile);
    var r := Organize(v, forceAll, hasPil, parse, sourceExists, stateFile, walk, destDir, now, save);
    TreeRecordsImages(v, RunOptions(st, forceAll, hasPil), parse, Start(st, destDir), walk);
    forall i, j | 0 <= i < |walk| && 0 <= j < |walk[i].files| && IsImageFile(walk[i].files[j].name)
      ensures InCopied(r.state.rest["copied_files"], FileKey(walk[i].rel, walk[i].files[j].name)) == Some(true)
    {
      ImageKeysHave(walk, i, j);
    }
  }

  /** A first run (no state file, or one that cannot be read) without a
      floor copies exactly the images whose modification time can be read
      and whose copy succeeds, fails on the other images and skips none. */
  lemma OrganizeFirstRun(v: Variant, forceAll: bool, hasPil: bool, parse: string -> Option<DateTime>,
                         stateFile: StateFile, walk: seq<WalkDir>,
                         destDir: set<string>, now: DateTime, save: SaveOutcome)
    requires v == Baseline || v == DateFloor(None)
    requires stateFile.Absent? || stateFile.Unreadable?
    ensures var r := Organize(v, forceAll, hasPil, parse, true, stateFile, walk, destDir, now, save);
            && r.Completed?
            && r.stats.copied == TreeWhere(walk, Copyable)
            && r.stats.errors == TreeWhere(walk, Uncopyable)
            && r.stats.skipped == 0
            && r.stats.totalFound == r.stats.copied + r.stats.errors
  {
    var st := LoadState(stateFile);
    var opts := RunOptions(st, forceAll, hasPil);
    TreeFirstRun(v, opts, parse, Start(st, destDir), walk);
    TreeFound(v, opts, parse, Start(st, destDir), walk);
    TreeSplit(walk);
  }

  /** A run without a floor or a forced copy from a state whose last sync
      is no earlier than every image's modification time and which records
      every image skips them all. */
  lemma RunOverSyncedState(v: Variant, hasPil: bool, parse: string -> Option<DateTime>,
                           stateFile: StateFile, walk: seq<WalkDir>, destDir: set<string>,
                           now: DateTime, save: SaveOutcome)
    requires v == Baseline || v == DateFloor(None)
    requires LoadState(stateFile).StateDict? && LoadState(stateFile).lastSync.Time?
    requires "copied_files" in LoadState(stateFile).rest
    requires forall i, j :: 0 <= i < |walk| && 0 <= j < |walk[i].files| && IsImageFile(walk[i].files[j].name) ==>
               && walk[i].files[j].mtime.Some?
               && NotAfter(walk[i].files[j].mtime.value, LoadState(stateFile).lastSync.at)
               && InCopied(LoadState(stateFile).rest["copied_files"], FileKey(walk[i].rel, walk[i].files[j].name)) == Some(true)
    ensures var r := Organize(v, false, hasPil, parse, true, stateFile, walk, destDir, now, save);
            && r.Completed?
            && r.stats.copied == 0 && r.stats.errors == 0
            && r.stats.skipped == r.stats.totalFound == TreeWhere(walk, IsImage)
            && r.writes == [] && r.dest == destDir
            && r.state.rest == LoadState(stateFile).rest
  {
    var st := LoadState(stateFile);
    var opts := RunOptions(st, false, hasPil);
    var start := Start(st, destDir);
    TreeSkipsSynced(v, opts, parse, start, walk);
    var acc := WalkTree(v, opts, parse, start, walk);
    assert st.rest["copied_files" := acc.copiedFiles] == st.rest;
    OrganizeUnfolds(v, false, hasPil, parse, true, stateFile, walk, destDir, now, save);
    OrganizeCounts(v, false, hasPil, parse, true, stateFile, walk, destDir, now, save);
  }

  /** Running again right after a run that had no error, over the same
      unchanged files (none modified after the first run's `now`), without
      forcing: every image is skipped, nothing is copied or written, and
      `copied_files` stays as the first run saved it. */
  lemma RerunCopiesNothing(v: Variant, forceAll: bool, hasPil: bool, parse: string -> Option<DateTime>,
                           stateFile: StateFile, walk: seq<WalkDir>, destDir: set<string>,
                           now1: DateTime, now2: DateTime, save2: SaveOutcome)
    requires v == Baseline || v == DateFloor(None)
    requires Valid(now1)
    requires forall i, j :: 0 <= i < |walk| && 0 <= j < |walk[i].files| && IsImageFile(walk[i].files[j].name) ==>
               walk[i].files[j].mtime.Some? && NotAfter(walk[i].files[j].mtime.value, now1)
    requires Organize(v, forceAll, hasPil, parse, true, stateFile, walk, destDir, now1, Written).Completed?
    requires Organize(v, forceAll, hasPil, parse, true, stateFile, walk, destDir, now1, Written).stats.errors == 0
    ensures var r1 := Organize(v, forceAll, hasPil, parse, true, stateFile, walk, destDir, now1, Written);
            var r2 := Organize(v, false, hasPil, parse, true, r1.stateFile, walk, r1.dest, now2, save2);
            && r2.Completed?
            && r2.stats.copied == 0 && r2.stats.errors == 0
            && r2.stats.skipped == r2.stats.totalFound == TreeWhere(walk, IsImage)
            && r2.writes == [] && r2.dest == r1.dest
            && r2.state.rest == r1.state.rest
  {
    var r1 := Organize(v, forceAll, hasPil, parse, true, stateFile, walk, destDir, now1, Written);
    OrganizeSavesState(v, forceAll, hasPil, parse, true, stateFile, walk, destDir, now1, Written);
    OrganizeRecordsImages(v, forceAll, hasPil, parse, true, stateFile, walk, destDir, now1, Written);
    OrganizeUnfolds(v, forceAll, hasPil, parse, true, stateFile, walk, destDir, now1, Written);
    assert LoadState(r1.stateFile) == r1.state;
    RunOverSyncedState(v, hasPil, parse, r1.stateFile, walk, r1.dest, now2, save2);
  }

  /** Without a floor the two organizers end every run alike: the same
      outcome, counters, state, state file and destination; they differ
      only in which photo dates they look up. */
  lemma OrganizersAgree(forceAll: bool, hasPil: bool, parse: string -> Option<DateTime>,
                        sourceExists: bool, stateFile: StateFile, walk: seq<WalkDir>,
                        destDir: set<string>, now: DateTime, save: SaveOutcome)
    ensures var r1 := Organize(DateFloor(None), forceAll, hasPil, parse, sourceExists, stateFile, walk, destDir, now, save);
            var r2 := Organize(Baseline, forceAll, hasPil, parse, sourceExists, stateFile, walk, destDir, now, save);
            && (r1.Completed? <==> r2.Completed?)
            && (!r1.Completed? ==> r1 == r2)
            && (r1.Completed? ==> r1.(resolved := []) == r2.(resolved := []))
  {
    if sourceExists {
      var st := LoadState(stateFile);
      if st.StateDict? && !st.lastSync.NoKey? && "copied_files" in st.rest {
        var opts := RunOptions(st, forceAll, hasPil);
        var start := Start(st, destDir);
        TreeAgree(opts, parse, start, start, walk);
      }
    }
  }
}
