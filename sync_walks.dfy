/** Properties of the two nested walk loops: what every step preserves
    holds after the whole walk, and the counters add up over the walk. */
module SyncWalks {
  import opened Wrappers
  import opened DateTimes
  import opened SyncState
  import opened PhotoDates
  import opened SyncCommon
  import opened SyncEngine
  import opened SyncSteps

  // ---------------------------------------------------------------------
  // Counting and collecting over a walk
  // ---------------------------------------------------------------------

  /** How many files of a directory satisfy `q`. */
  function FilesWhere(files: seq<SourceFile>, q: SourceFile -> bool): nat
    decreases |files|
  {
    if files == [] then 0
    else FilesWhere(files[..|files| - 1], q) + (if q(files[|files| - 1]) then 1 else 0)
  }

  /** How many files of the whole walk satisfy `q`. */
  function TreeWhere(walk: seq<WalkDir>, q: SourceFile -> bool): nat
    decreases |walk|
  {
    if walk == [] then 0
    else TreeWhere(walk[..|walk| - 1], q) + FilesWhere(walk[|walk| - 1].files, q)
  }

  predicate IsImage(f: SourceFile) {
    IsImageFile(f.name)
  }

  /** An image a first run copies: its modification time can be read and
      its copy succeeds. */
  predicate Copyable(f: SourceFile) {
    IsImageFile(f.name) && f.mtime.Some? && f.copyOk
  }

  predicate Uncopyable(f: SourceFile) {
    IsImageFile(f.name) && !(f.mtime.Some? && f.copyOk)
  }

  /** The `copied_files` keys of the images of one directory. */
  function FilesImageKeys(rel: string, files: seq<SourceFile>): set<string>
    decreases |files|
  {
    if files == [] then {}
    else
      var f := files[|files| - 1];
      FilesImageKeys(rel, files[..|files| - 1]) + (if IsImageFile(f.name) then {FileKey(rel, f.name)} else {})
  }

  /** The `copied_files` keys of the images of the walk. */
  function ImageKeys(walk: seq<WalkDir>): set<string>
    decreases |walk|
  {
    if walk == [] then {}
    else ImageKeys(walk[..|walk| - 1]) + FilesImageKeys(walk[|walk| - 1].rel, walk[|walk| - 1].files)
  }

  /** Every image of a directory has its key among the directory's keys. */
  lemma {:induction false} FilesImageKeysHave(rel: string, files: seq<SourceFile>, j: nat)
    requires j < |files| && IsImageFile(files[j].name)
    ensures FileKey(rel, files[j].name) in FilesImageKeys(rel, files)
    decreases |files|
  {
    if j < |files| - 1 {
      var front := files[..|files| - 1];
      assert front[j] == files[j];
      FilesImageKeysHave(rel, front, j);
    }
  }

  /** Every image of the walk has its key among the walk's keys. */
  lemma {:induction false} ImageKeysHave(walk: seq<WalkDir>, i: nat, j: nat)
    requires i < |walk| && j < |walk[i].files| && IsImageFile(walk[i].files[j].name)
    ensures FileKey(walk[i].rel, walk[i].files[j].name) in ImageKeys(walk)
    decreases |walk|
  {
    if i < |walk| - 1 {
      var front := walk[..|walk| - 1];
      assert front[i] == walk[i];
      ImageKeysHave(front, i, j);
    } else {
      FilesImageKeysHave(walk[i].rel, walk[i].files, j);
    }
  }

  /** Every image of a directory is its own image or none; the counts of
      copyable and uncopyable images add up to the images. */
  lemma {:induction false} FilesSplit(files: seq<SourceFile>)
    ensures FilesWhere(files, Copyable) + FilesWhere(files, Uncopyable) == FilesWhere(files, IsImage)
    decreases |files|
  {
    if files != [] {
      FilesSplit(files[..|files| - 1]);
    }
  }

  lemma {:induction false} TreeSplit(walk: seq<WalkDir>)
    ensures TreeWhere(walk, Copyable) + TreeWhere(walk, Uncopyable) == TreeWhere(walk, IsImage)
    decreases |walk|
  {
    if walk != [] {
      TreeSplit(walk[..|walk| - 1]);
      FilesSplit(walk[|walk| - 1].files);
    }
  }

  // ---------------------------------------------------------------------
  // What every step preserves, the walk preserves
  // ---------------------------------------------------------------------

  lemma {:induction false} FilesPreserve(P: Acc -> bool, v: Variant, opts: Options, parse: string -> Option<DateTime>,
                                         acc: Acc, rel: string, files: seq<SourceFile>)
    requires P(acc)
    requires forall j, a :: 0 <= j < |files| && P(a) ==> P(StepFile(v, opts, parse, a, rel, files[j]))
    ensures P(WalkFiles(v, opts, parse, acc, rel, files))
    decreases |files|
  {
    if files != [] {
      var front := files[..|files| - 1];
      forall j, a | 0 <= j < |front| && P(a) ensures P(StepFile(v, opts, parse, a, rel, front[j])) {
        assert front[j] == files[j];
      }
      FilesPreserve(P, v, opts, parse, acc, rel, front);
    }
  }

  lemma {:induction false} TreePreserves(P: Acc -> bool, v: Variant, opts: Options, parse: string -> Option<DateTime>,
                                         acc: Acc, walk: seq<WalkDir>)
    requires P(acc)
    requires forall i, j, a :: 0 <= i < |walk| && 0 <= j < |walk[i].files| && P(a) ==>
               P(StepFile(v, opts, parse, a, walk[i].rel, walk[i].files[j]))
    ensures P(WalkTree(v, opts, parse, acc, walk))
    decreases |walk|
  {
    if walk != [] {
      var front := walk[..|walk| - 1];
      forall i, j, a | 0 <= i < |front| && 0 <= j < |front[i].files| && P(a)
        ensures P(StepFile(v, opts, parse, a, front[i].rel, front[i].files[j]))
      {
        assert front[i] == walk[i];
      }
      TreePreserves(P, v, opts, parse, acc, front);
      var d := walk[|walk| - 1];
      FilesPreserve(P, v, opts, parse, WalkTree(v, opts, parse, acc, front), d.rel, d.files);
    }
  }

  // ---------------------------------------------------------------------
  // Invariants of the walk
  // ---------------------------------------------------------------------

  /** The destination paths written are new, pairwise distinct, and are
      exactly what the destination gained. */
  predicate NoOverwrite(init: set<string>, a: Acc) {
    && (forall i :: 0 <= i < |a.writes| ==> a.writes[i] !in init)
    && (forall i, j :: 0 <= i < j < |a.writes| ==> a.writes[i] != a.writes[j])
    && a.dest == init + (set w | w in a.writes)
  }

  lemma StepNoOverwrite(init: set<string>, v: Variant, opts: Options, parse: string -> Option<DateTime>,
                        a: Acc, rel: string, f: SourceFile)
    requires NoOverwrite(init, a)
    ensures NoOverwrite(init, StepFile(v, opts, parse, a, rel, f))
  {
    StepWrites(v, opts, parse, a, rel, f);
    var r := StepFile(v, opts, parse, a, rel, f);
    if r.writes != a.writes {
      var t := r.writes[|a.writes|];
      assert r.writes == a.writes + [t];
      assert t !in a.dest && r.dest == a.dest + {t};
      forall i | 0 <= i < |a.writes| ensures a.writes[i] != t {
        assert a.writes[i] in a.dest;
      }
      assert (set w | w in r.writes) == (set w | w in a.writes) + {t};
    }
  }

  /** The counters stay balanced, every copy is a write, and with a
      dictionary `copied_files` every write is a copy. */
  predicate Ledger(a: Acc) {
    && Balanced(a.stats)
    && a.stats.copied <= |a.writes|
    && (a.copiedFiles.JObject? ==> a.stats.copied == |a.writes|)
  }

  lemma StepLedger(v: Variant, opts: Options, parse: string -> Option<DateTime>,
                   a: Acc, rel: string, f: SourceFile)
    requires Ledger(a)
    ensures Ledger(StepFile(v, opts, parse, a, rel, f))
  {
    StepCounts(v, opts, parse, a, rel, f);
    StepWrites(v, opts, parse, a, rel, f);
    StepRecords(v, opts, parse, a, rel, f);
  }

  /** Keys of `copied_files` are never removed, and every key it gains is
      the key of an image of the walk. */
  predicate KeysFrom(init: map<string, Json>, walk: seq<WalkDir>, c: Json) {
    c.JObject? && init.Keys <= c.fields.Keys <= init.Keys + ImageKeys(walk)
  }

  lemma StepKeysFrom(init: map<string, Json>, walk: seq<WalkDir>, v: Variant, opts: Options,
                     parse: string -> Option<DateTime>, a: Acc, i: nat, j: nat)
    requires 0 <= i < |walk| && 0 <= j < |walk[i].files|
    requires KeysFrom(init, walk, a.copiedFiles)
    ensures KeysFrom(init, walk, StepFile(v, opts, parse, a, walk[i].rel, walk[i].files[j]).copiedFiles)
  {
    var f := walk[i].files[j];
    var c := StepFile(v, opts, parse, a, walk[i].rel, f).copiedFiles;
    StepKeys(v, opts, parse, a, walk[i].rel, f);
    if c != a.copiedFiles {
      ImageKeysHave(walk, i, j);
      AddKeyKeepsKeysFrom(init, walk, a.copiedFiles, c, FileKey(walk[i].rel, f.name));
    }
  }

  lemma AddKeyKeepsKeysFrom(init: map<string, Json>, walk: seq<WalkDir>, c: Json, d: Json, key: string)
    requires KeysFrom(init, walk, c) && key in ImageKeys(walk)
    requires d.JObject? && d.fields.Keys == c.fields.Keys + {key}
    ensures KeysFrom(init, walk, d)
  {
  }

  /** A value the date floor admits: the ISO form of a date not before it. */
  ghost predicate AdmittedBy(startDate: DateTime, value: Json) {
    exists p: DateTime :: value == JString(ToIso(p)) && !Before(p, startDate)
  }

  /** Every entry of `copied_files` is an initial one or was written for a
      photo at or after the floor. */
  ghost predicate FloorRecords(startDate: DateTime, init: map<string, Json>, a: Acc) {
    a.copiedFiles.JObject? &&
    forall k :: k in a.copiedFiles.fields ==>
      (k in init && a.copiedFiles.fields[k] == init[k]) || AdmittedBy(startDate, a.copiedFiles.fields[k])
  }

  lemma StepFloorRecords(startDate: DateTime, init: map<string, Json>, opts: Options,
                         parse: string -> Option<DateTime>, a: Acc, rel: string, f: SourceFile)
    requires FloorRecords(startDate, init, a)
    ensures FloorRecords(startDate, init, StepFile(DateFloor(Some(startDate)), opts, parse, a, rel, f))
  {
    var r := StepFile(DateFloor(Some(startDate)), opts, parse, a, rel, f);
    StepRecords(DateFloor(Some(startDate)), opts, parse, a, rel, f);
    StepRespectsFloor(startDate, opts, parse, a, rel, f);
    if r.stats.copied > a.stats.copied {
      var p := PhotoDate(opts.hasPil, f.exif, f.mtime, parse).value;
      assert AdmittedBy(startDate, JString(ToIso(p)));
    }
  }

  /** The walk-level forms of the four invariants above. */
  lemma TreeNoOverwrite(init: set<string>, v: Variant, opts: Options, parse: string -> Option<DateTime>,
                        acc: Acc, walk: seq<WalkDir>)
    requires NoOverwrite(init, acc)
    ensures NoOverwrite(init, WalkTree(v, opts, parse, acc, walk))
  {
    var P := (a: Acc) => NoOverwrite(init, a);
    forall i, j, a | 0 <= i < |walk| && 0 <= j < |walk[i].files| && P(a)
      ensures P(StepFile(v, opts, parse, a, walk[i].rel, walk[i].files[j]))
    {
      StepNoOverwrite(init, v, opts, parse, a, walk[i].rel, walk[i].files[j]);
    }
    TreePreserves(P, v, opts, parse, acc, walk);
  }

  lemma TreeLedger(v: Variant, opts: Options, parse: string -> Option<DateTime>, acc: Acc, walk: seq<WalkDir>)
    requires Ledger(acc)
    ensures Ledger(WalkTree(v, opts, parse, acc, walk))
  {
    forall i, j, a | 0 <= i < |walk| && 0 <= j < |walk[i].files| && Ledger(a)
      ensures Ledger(StepFile(v, opts, parse, a, walk[i].rel, walk[i].files[j]))
    {
      StepLedger(v, opts, parse, a, walk[i].rel, walk[i].files[j]);
    }
    TreePreserves(Ledger, v, opts, parse, acc, walk);
  }

  lemma TreeKeysFrom(init: map<string, Json>, v: Variant, opts: Options, parse: string -> Option<DateTime>,
                     acc: Acc, walk: seq<WalkDir>)
    requires KeysFrom(init, walk, acc.copiedFiles)
    ensures KeysFrom(init, walk, WalkTree(v, opts, parse, acc, walk).copiedFiles)
  {
    var P := (a: Acc) => KeysFrom(init, walk, a.copiedFiles);
    forall i, j, a | 0 <= i < |walk| && 0 <= j < |walk[i].files| && P(a)
      ensures P(StepFile(v, opts, parse, a, walk[i].rel, walk[i].files[j]))
    {
      StepKeysFrom(init, walk, v, opts, parse, a, i, j);
    }
    TreePreserves(P, v, opts, parse, acc, walk);
  }

  lemma TreeFloorRecords(startDate: DateTime, init: map<string, Json>, opts: Options,
                         parse: string -> Option<DateTime>, acc: Acc, walk: seq<WalkDir>)
    requires FloorRecords(startDate, init, acc)
    ensures FloorRecords(startDate, init, WalkTree(DateFloor(Some(startDate)), opts, parse, acc, walk))
  {
    var P := (a: Acc) => FloorRecords(startDate, init, a);
    forall i, j, a | 0 <= i < |walk| && 0 <= j < |walk[i].files| && P(a)
      ensures P(StepFile(DateFloor(Some(startDate)), opts, parse, a, walk[i].rel, walk[i].files[j]))
    {
      StepFloorRecords(startDate, init, opts, parse, a, walk[i].rel, walk[i].files[j]);
    }
    TreePreserves(P, DateFloor(Some(startDate)), opts, parse, acc, walk);
  }

  // ---------------------------------------------------------------------
  // Relations between the start and the end of a walk
  // ---------------------------------------------------------------------

  /** Every image of the walk is counted as found, once. */
  lemma {:induction false} FilesFound(v: Variant, opts: Options, parse: string -> Option<DateTime>,
                                      acc: Acc, rel: string, files: seq<SourceFile>)
    ensures WalkFiles(v, opts, parse, acc, rel, files).stats.totalFound ==
            acc.stats.totalFound + FilesWhere(files, IsImage)
    decreases |files|
  {
    if files != [] {
      var front := files[..|files| - 1];
      FilesFound(v, opts, parse, acc, rel, front);
      StepCounts(v, opts, parse, WalkFiles(v, opts, parse, acc, rel, front), rel, files[|files| - 1]);
    }
  }

  lemma {:induction false} TreeFound(v: Variant, opts: Options, parse: string -> Option<DateTime>,
                                     acc: Acc, walk: seq<WalkDir>)
    ensures WalkTree(v, opts, parse, acc, walk).stats.totalFound ==
            acc.stats.totalFound + TreeWhere(walk, IsImage)
    decreases |walk|
  {
    if walk != [] {
      var front := walk[..|walk| - 1];
      TreeFound(v, opts, parse, acc, front);
      var d := walk[|walk| - 1];
      FilesFound(v, opts, parse, WalkTree(v, opts, parse, acc, front), d.rel, d.files);
    }
  }

  /** On a first run without a floor every copyable image is copied and
      every other image is an error; nothing is skipped. */
  lemma {:induction false} FilesFirstRun(v: Variant, opts: Options, parse: string -> Option<DateTime>,
                                         acc: Acc, rel: string, files: seq<SourceFile>)
    requires v == Baseline || v == DateFloor(None)
    requires opts.lastSync.None? && acc.copiedFiles.JObject?
    ensures var r := WalkFiles(v, opts, parse, acc, rel, files);
            && r.copiedFiles.JObject?
            && r.stats.copied == acc.stats.copied + FilesWhere(files, Copyable)
            && r.stats.errors == acc.stats.errors + FilesWhere(files, Uncopyable)
            && r.stats.skipped == acc.stats.skipped
    decreases |files|
  {
    if files != [] {
      var front := files[..|files| - 1];
      FilesFirstRun(v, opts, parse, acc, rel, front);
      var mid := WalkFiles(v, opts, parse, acc, rel, front);
      var f := files[|files| - 1];
      if IsImageFile(f.name) {
        StepFirstRun(v, opts, parse, mid, rel, f);
      }
    }
  }

  lemma {:induction false} TreeFirstRun(v: Variant, opts: Options, parse: string -> Option<DateTime>,
                                        acc: Acc, walk: seq<WalkDir>)
    requires v == Baseline || v == DateFloor(None)
    requires opts.lastSync.None? && acc.copiedFiles.JObject?
    ensures var r := WalkTree(v, opts, parse, acc, walk);
            && r.copiedFiles.JObject?
            && r.stats.copied == acc.stats.copied + TreeWhere(walk, Copyable)
            && r.stats.errors == acc.stats.errors + TreeWhere(walk, Uncopyable)
            && r.stats.skipped == acc.stats.skipped
    decreases |walk|
  {
    if walk != [] {
      var front := walk[..|walk| - 1];
      TreeFirstRun(v, opts, parse, acc, front);
      var d := walk[|walk| - 1];
      FilesFirstRun(v, opts, parse, WalkTree(v, opts, parse, acc, front), d.rel, d.files);
    }
  }

  /** Without a floor the two organizers walk to the same result, apart
      from the dates they look up. */
  lemma {:induction false} FilesAgree(opts: Options, parse: string -> Option<DateTime>,
                                      a: Acc, b: Acc, rel: string, files: seq<SourceFile>)
    requires Erase(a) == Erase(b)
    ensures Erase(WalkFiles(DateFloor(None), opts, parse, a, rel, files)) ==
            Erase(WalkFiles(Baseline, opts, parse, b, rel, files))
    decreases |files|
  {
    if files != [] {
      var front := files[..|files| - 1];
      FilesAgree(opts, parse, a, b, rel, front);
      StepsAgree(opts, parse, WalkFiles(DateFloor(None), opts, parse, a, rel, front),
                 WalkFiles(Baseline, opts, parse, b, rel, front), rel, files[|files| - 1]);
    }
  }

  lemma {:induction false} TreeAgree(opts: Options, parse: string -> Option<DateTime>,
                                     a: Acc, b: Acc, walk: seq<WalkDir>)
    requires Erase(a) == Erase(b)
    ensures Erase(WalkTree(DateFloor(None), opts, parse, a, walk)) ==
            Erase(WalkTree(Baseline, opts, parse, b, walk))
    decreases |walk|
  {
    if walk != [] {
      var front := walk[..|walk| - 1];
      TreeAgree(opts, parse, a, b, front);
      var d := walk[|walk| - 1];
      FilesAgree(opts, parse, WalkTree(DateFloor(None), opts, parse, a, front),
                 WalkTree(Baseline, opts, parse, b, front), d.rel, d.files);
    }
  }
  /** The error counter never goes down. */
  lemma TreeErrorsGrow(v: Variant, opts: Options, parse: string -> Option<DateTime>, acc: Acc, walk: seq<WalkDir>)
    ensures WalkTree(v, opts, parse, acc, walk).stats.errors >= acc.stats.errors
  {
    var P := (a: Acc) => a.stats.errors >= acc.stats.errors;
    forall i, j, a | 0 <= i < |walk| && 0 <= j < |walk[i].files| && P(a)
      ensures P(StepFile(v, opts, parse, a, walk[i].rel, walk[i].files[j]))
    {
      StepCounts(v, opts, parse, a, walk[i].rel, walk[i].files[j]);
    }
    TreePreserves(P, v, opts, parse, acc, walk);
  }

  lemma FilesErrorsGrow(v: Variant, opts: Options, parse: string -> Option<DateTime>,
                        acc: Acc, rel: string, files: seq<SourceFile>)
    ensures WalkFiles(v, opts, parse, acc, rel, files).stats.errors >= acc.stats.errors
  {
    var P := (a: Acc) => a.stats.errors >= acc.stats.errors;
    forall j, a | 0 <= j < |files| && P(a) ensures P(StepFile(v, opts, parse, a, rel, files[j])) {
      StepCounts(v, opts, parse, a, rel, files[j]);
    }
    FilesPreserve(P, v, opts, parse, acc, rel, files);
  }

  /** A recorded key stays recorded through a directory. */
  lemma FilesKeepRecorded(v: Variant, opts: Options, parse: string -> Option<DateTime>,
                          acc: Acc, rel: string, files: seq<SourceFile>, key: string)
    requires InCopied(acc.copiedFiles, key) == Some(true)
    ensures InCopied(WalkFiles(v, opts, parse, acc, rel, files).copiedFiles, key) == Some(true)
  {
    var P := (a: Acc) => InCopied(a.copiedFiles, key) == Some(true);
    forall j, a | 0 <= j < |files| && P(a) ensures P(StepFile(v, opts, parse, a, rel, files[j])) {
      StepKeepsRecorded(v, opts, parse, a, rel, files[j], key);
    }
    FilesPreserve(P, v, opts, parse, acc, rel, files);
  }

  /** Every key of `keys` is recorded in `c`. */
  predicate RecordsAll(c: Json, keys: set<string>) {
    forall key :: key in keys ==> InCopied(c, key) == Some(true)
  }

  /** Without a floor, a walk with no new error leaves every image of its
      directory recorded. */
  lemma {:induction false} FilesRecordImages(v: Variant, opts: Options, parse: string -> Option<DateTime>,
                                             acc: Acc, rel: string, files: seq<SourceFile>)
    requires v == Baseline || v == DateFloor(None)
    ensures var r := WalkFiles(v, opts, parse, acc, rel, files);
            r.stats.errors == acc.stats.errors ==> RecordsAll(r.copiedFiles, FilesImageKeys(rel, files))
    decreases |files|
  {
    if files != [] {
      var front := files[..|files| - 1];
      var f := files[|files| - 1];
      var mid := WalkFiles(v, opts, parse, acc, rel, front);
      var r := StepFile(v, opts, parse, mid, rel, f);
      assert WalkFiles(v, opts, parse, acc, rel, files) == r;
      FilesRecordImages(v, opts, parse, acc, rel, front);
      FilesErrorsGrow(v, opts, parse, acc, rel, front);
      StepCounts(v, opts, parse, mid, rel, f);
      if r.stats.errors == acc.stats.errors {
        forall key | key in FilesImageKeys(rel, front) ensures InCopied(r.copiedFiles, key) == Some(true) {
          StepKeepsRecorded(v, opts, parse, mid, rel, f, key);
        }
        if IsImageFile(f.name) {
          StepRecordsImage(v, opts, parse, mid, rel, f);
        }
      }
    }
  }

  /** Without a floor, a walk with no new error leaves every image of the
      walk recorded in `copied_files`. */
  lemma {:induction false} TreeRecordsImages(v: Variant, opts: Options, parse: string -> Option<DateTime>,
                                             acc: Acc, walk: seq<WalkDir>)
    requires v == Baseline || v == DateFloor(None)
    ensures var r := WalkTree(v, opts, parse, acc, walk);
            r.stats.errors == acc.stats.errors ==> RecordsAll(r.copiedFiles, ImageKeys(walk))
    decreases |walk|
  {
    if walk != [] {
      var front := walk[..|walk| - 1];
      var d := walk[|walk| - 1];
      var mid := WalkTree(v, opts, parse, acc, front);
      var r := WalkFiles(v, opts, parse, mid, d.rel, d.files);
      assert WalkTree(v, opts, parse, acc, walk) == r;
      TreeRecordsImages(v, opts, parse, acc, front);
      TreeErrorsGrow(v, opts, parse, acc, front);
      FilesErrorsGrow(v, opts, parse, mid, d.rel, d.files);
      FilesRecordImages(v, opts, parse, mid, d.rel, d.files);
      if r.stats.errors == acc.stats.errors {
        forall key | key in ImageKeys(front) ensures InCopied(r.copiedFiles, key) == Some(true) {
          FilesKeepRecorded(v, opts, parse, mid, d.rel, d.files, key);
        }
      }
    }
  }

  /** A walk over files that are all recorded and unmodified since the
      last sync, without a floor or a forced copy, skips them all: it
      counts every image as skipped, copies nothing, writes nothing and
      reports no error. */
  lemma TreeSkipsSynced(v: Variant, opts: Options, parse: string -> Option<DateTime>, acc: Acc, walk: seq<WalkDir>)
    requires v == Baseline || v == DateFloor(None)
    requires !opts.forceAll && opts.lastSync.Some?
    requires forall i, j :: 0 <= i < |walk| && 0 <= j < |walk[i].files| && IsImageFile(walk[i].files[j].name) ==>
               && walk[i].files[j].mtime.Some?
               && NotAfter(walk[i].files[j].mtime.value, opts.lastSync.value)
               && InCopied(acc.copiedFiles, FileKey(walk[i].rel, walk[i].files[j].name)) == Some(true)
    ensures var r := WalkTree(v, opts, parse, acc, walk);
            && r.copiedFiles == acc.copiedFiles && r.dest == acc.dest && r.writes == acc.writes
            && r.stats.copied == acc.stats.copied && r.stats.errors == acc.stats.errors
            && r.stats.skipped == acc.stats.skipped + TreeWhere(walk, IsImage)
  {
    var P := (a: Acc) => a.copiedFiles == acc.copiedFiles && a.dest == acc.dest && a.writes == acc.writes &&
                         a.stats.copied == acc.stats.copied && a.stats.errors == acc.stats.errors &&
                         a.stats.skipped - acc.stats.skipped == a.stats.totalFound - acc.stats.totalFound;
    forall i, j, a | 0 <= i < |walk| && 0 <= j < |walk[i].files| && P(a)
      ensures P(StepFile(v, opts, parse, a, walk[i].rel, walk[i].files[j]))
    {
      var f := walk[i].files[j];
      StepCounts(v, opts, parse, a, walk[i].rel, f);
      if IsImageFile(f.name) {
        StepSkipsSynced(v, opts, parse, a, walk[i].rel, f);
      }
    }
    TreePreserves(P, v, opts, parse, acc, walk);
    TreeFound(v, opts, parse, acc, walk);
  }
}
