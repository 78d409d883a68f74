/** Properties of one iteration of the walk loop, for both organizers. */
module SyncSteps {
  import opened Wrappers
  import opened DateTimes
  import opened SyncState
  import opened PhotoDates
  import opened PathPlanner
  import opened SyncCommon
  import opened SyncEngine
  import Lulofoto
  import BakFoto

  /** The walk state without the trace of date look-ups. */
  function Erase(acc: Acc): Acc {
    acc.(resolved := [])
  }

  /** The copy path: a failed copy is an error that changes nothing else;
      otherwise exactly one new path, the target, is written, and then
      either recorded under `key` (copied) or, when `copied_files` is not a
      dictionary, left unrecorded (an error). */
  lemma CopyFileEffect(acc: Acc, key: string, f: SourceFile, photo: DateTime)
    ensures var r := CopyFile(acc, key, f, photo);
            var t := Target(acc.dest, Bucket(photo), f.name);
            && r.resolved == acc.resolved
            && (!f.copyOk ==> r == CountError(acc))
            && (f.copyOk ==> t !in acc.dest && r.writes == acc.writes + [t] && r.dest == acc.dest + {t})
            && (f.copyOk && acc.copiedFiles.JObject? ==>
                  r.stats == acc.stats.(copied := acc.stats.copied + 1) &&
                  r.copiedFiles == JObject(acc.copiedFiles.fields[key := JString(ToIso(photo))]))
            && (f.copyOk && !acc.copiedFiles.JObject? ==>
                  r.stats == acc.stats.(errors := acc.stats.errors + 1) && r.copiedFiles == acc.copiedFiles)
  {
  }

  /** The outcomes of a step on an image: an error or a skip, counted
      after the date look-up in the date-floor organizer and before it in
      the baseline one, or the copy path with the file's photo date. */
  lemma StepShape(v: Variant, opts: Options, parse: string -> Option<DateTime>,
                  acc: Acc, rel: string, f: SourceFile)
    requires IsImageFile(f.name)
    ensures var r := StepFile(v, opts, parse, acc, rel, f);
            var key := FileKey(rel, f.name);
            var counted := if v.DateFloor? then LookedUp(CountFound(acc), key) else CountFound(acc);
            var p := PhotoDate(opts.hasPil, f.exif, f.mtime, parse);
            || r == CountError(counted)
            || r == CountSkipped(counted)
            || (p.Some? && r == CopyFile(LookedUp(CountFound(acc), key), key, f, p.value))
  {
  }

  /** A non-image is passed over; an image counts once as found and once
      as exactly one of copied, skipped or failed. */
  lemma StepCounts(v: Variant, opts: Options, parse: string -> Option<DateTime>,
                   acc: Acc, rel: string, f: SourceFile)
    ensures !IsImageFile(f.name) ==> StepFile(v, opts, parse, acc, rel, f) == acc
    ensures var s, t := acc.stats, StepFile(v, opts, parse, acc, rel, f).stats;
            IsImageFile(f.name) ==>
              && t.totalFound == s.totalFound + 1
              && t.copied + t.skipped + t.errors == s.copied + s.skipped + s.errors + 1
              && t.copied >= s.copied && t.skipped >= s.skipped && t.errors >= s.errors
  {
    if IsImageFile(f.name) {
      StepShape(v, opts, parse, acc, rel, f);
      var p := PhotoDate(opts.hasPil, f.exif, f.mtime, parse);
      var key := FileKey(rel, f.name);
      if p.Some? {
        CopyFileEffect(LookedUp(CountFound(acc), key), key, f, p.value);
      }
    }
  }

  /** A step writes at most one path, never one that already exists, into
      the bucket of the file's photo date under the first free name; a
      copied file has always been written. */
  lemma StepWrites(v: Variant, opts: Options, parse: string -> Option<DateTime>,
                   acc: Acc, rel: string, f: SourceFile)
    ensures var r := StepFile(v, opts, parse, acc, rel, f);
            || (r.writes == acc.writes && r.dest == acc.dest)
            || (&& IsImageFile(f.name) && f.copyOk
                && PhotoDate(opts.hasPil, f.exif, f.mtime, parse).Some?
                && var t := Target(acc.dest, Bucket(PhotoDate(opts.hasPil, f.exif, f.mtime, parse).value), f.name);
                   t !in acc.dest && r.writes == acc.writes + [t] && r.dest == acc.dest + {t})
    ensures var r := StepFile(v, opts, parse, acc, rel, f);
            r.stats.copied > acc.stats.copied ==> r.writes != acc.writes
    ensures var r := StepFile(v, opts, parse, acc, rel, f);
            acc.copiedFiles.JObject? && r.writes != acc.writes ==> r.stats.copied > acc.stats.copied
  {
    if IsImageFile(f.name) {
      StepShape(v, opts, parse, acc, rel, f);
      var p := PhotoDate(opts.hasPil, f.exif, f.mtime, parse);
      var key := FileKey(rel, f.name);
      if p.Some? {
        CopyFileEffect(LookedUp(CountFound(acc), key), key, f, p.value);
      }
    }
  }

  /** `copied_files` changes only when a file is copied, and then only at
      the file's key, which receives the photo date in ISO form. */
  lemma StepRecords(v: Variant, opts: Options, parse: string -> Option<DateTime>,
                    acc: Acc, rel: string, f: SourceFile)
    ensures var r := StepFile(v, opts, parse, acc, rel, f);
            r.stats.copied == acc.stats.copied ==> r.copiedFiles == acc.copiedFiles
    ensures var r := StepFile(v, opts, parse, acc, rel, f);
            r.stats.copied > acc.stats.copied ==>
              && IsImageFile(f.name) && acc.copiedFiles.JObject?
              && PhotoDate(opts.hasPil, f.exif, f.mtime, parse).Some?
              && r.copiedFiles == JObject(acc.copiedFiles.fields[FileKey(rel, f.name) :=
                                    JString(ToIso(PhotoDate(opts.hasPil, f.exif, f.mtime, parse).value))])
  {
    if IsImageFile(f.name) {
      StepShape(v, opts, parse, acc, rel, f);
      var p := PhotoDate(opts.hasPil, f.exif, f.mtime, parse);
      var key := FileKey(rel, f.name);
      if p.Some? {
        CopyFileEffect(LookedUp(CountFound(acc), key), key, f, p.value);
      }
    }
  }

  /** A step either leaves `copied_files` as it is or, for an image and a
      dictionary, adds the file's key to it. */
  lemma StepKeys(v: Variant, opts: Options, parse: string -> Option<DateTime>,
                 acc: Acc, rel: string, f: SourceFile)
    ensures var c := StepFile(v, opts, parse, acc, rel, f).copiedFiles;
            || c == acc.copiedFiles
            || (&& IsImageFile(f.name) && acc.copiedFiles.JObject? && c.JObject?
                && c.fields.Keys == acc.copiedFiles.fields.Keys + {FileKey(rel, f.name)})
  {
    StepRecords(v, opts, parse, acc, rel, f);
  }
  /** With a date floor, a photo dated before it is skipped whatever else
      holds, and a file that is copied has a photo date not before it. */
  lemma StepRespectsFloor(startDate: DateTime, opts: Options, parse: string -> Option<DateTime>,
                          acc: Acc, rel: string, f: SourceFile)
    ensures var r := StepFile(DateFloor(Some(startDate)), opts, parse, acc, rel, f);
            var p := PhotoDate(opts.hasPil, f.exif, f.mtime, parse);
            IsImageFile(f.name) && p.Some? && Before(p.value, startDate) ==>
              r == CountSkipped(LookedUp(CountFound(acc), FileKey(rel, f.name)))
    ensures var r := StepFile(DateFloor(Some(startDate)), opts, parse, acc, rel, f);
            var p := PhotoDate(opts.hasPil, f.exif, f.mtime, parse);
            r.writes != acc.writes || r.stats.copied > acc.stats.copied ==>
              p.Some? && !Before(p.value, startDate)
  {
    if IsImageFile(f.name) {
      var p := PhotoDate(opts.hasPil, f.exif, f.mtime, parse);
      if p.Some? {
        CopyFileEffect(LookedUp(CountFound(acc), FileKey(rel, f.name)), FileKey(rel, f.name), f, p.value);
      }
    }
  }

  /** The already-synced skip: without a floor or a forced copy, an image
      not modified since the last sync whose key is recorded is skipped and
      nothing but the counters changes (the date-floor organizer has still
      looked up its date; the baseline has not). */
  lemma StepSkipsSynced(v: Variant, opts: Options, parse: string -> Option<DateTime>,
                        acc: Acc, rel: string, f: SourceFile)
    requires v == Baseline || v == DateFloor(None)
    requires IsImageFile(f.name) && !opts.forceAll && opts.lastSync.Some?
    requires f.mtime.Some? && NotAfter(f.mtime.value, opts.lastSync.value)
    requires InCopied(acc.copiedFiles, FileKey(rel, f.name)) == Some(true)
    ensures var r := StepFile(v, opts, parse, acc, rel, f);
            && r.stats == acc.stats.(totalFound := acc.stats.totalFound + 1, skipped := acc.stats.skipped + 1)
            && r.copiedFiles == acc.copiedFiles && r.dest == acc.dest && r.writes == acc.writes
            && r.resolved == (if v == Baseline then acc.resolved else acc.resolved + [FileKey(rel, f.name)])
  {
    PhotoDateFallback(opts.hasPil, f.exif, f.mtime, parse);
  }

  /** With a date floor, an image whose photo date is not before the
      floor and whose modification time can be read takes the copy path,
      whether or not it is recorded, forced or modified since the last
      sync: a recorded file is copied again on every such run. */
  lemma FloorStepCopies(startDate: DateTime, opts: Options, parse: string -> Option<DateTime>,
                        acc: Acc, rel: string, f: SourceFile)
    requires IsImageFile(f.name) && f.mtime.Some?
    requires var p := PhotoDate(opts.hasPil, f.exif, f.mtime, parse); p.Some? && !Before(p.value, startDate)
    ensures var key := FileKey(rel, f.name);
            StepFile(DateFloor(Some(startDate)), opts, parse, acc, rel, f) ==
              CopyFile(LookedUp(CountFound(acc), key), key, f, PhotoDate(opts.hasPil, f.exif, f.mtime, parse).value)
  {
  }

  /** A forced copy or a date floor switches the last-sync test off: the
      step does not depend on `last_sync` at all. */
  lemma StepIgnoresLastSync(v: Variant, forceAll: bool, hasPil: bool, ls1: Option<DateTime>, ls2: Option<DateTime>,
                            parse: string -> Option<DateTime>, acc: Acc, rel: string, f: SourceFile)
    requires forceAll || (v.DateFloor? && v.startDate.Some?)
    ensures StepFile(v, Options(forceAll, hasPil, ls1), parse, acc, rel, f) ==
            StepFile(v, Options(forceAll, hasPil, ls2), parse, acc, rel, f)
  {
  }

  /** The copy path does not read the trace of date look-ups. */
  lemma CopyFileErase(a: Acc, b: Acc, key: string, f: SourceFile, photo: DateTime)
    requires Erase(a) == Erase(b)
    ensures Erase(CopyFile(a, key, f, photo)) == Erase(CopyFile(b, key, f, photo))
  {
    assert a.copiedFiles == b.copiedFiles && a.dest == b.dest && a.stats == b.stats && a.writes == b.writes;
  }

  /** Without a floor the two organizers take the same decision on every
      file: they differ only in which dates they look up. */
  lemma StepsAgree(opts: Options, parse: string -> Option<DateTime>, a: Acc, b: Acc, rel: string, f: SourceFile)
    requires Erase(a) == Erase(b)
    ensures Erase(StepFile(DateFloor(None), opts, parse, a, rel, f)) == Erase(StepFile(Baseline, opts, parse, b, rel, f))
  {
    assert a.copiedFiles == b.copiedFiles && a.dest == b.dest && a.stats == b.stats && a.writes == b.writes;
    var key := FileKey(rel, f.name);
    var la, lb := LookedUp(CountFound(a), key), LookedUp(CountFound(b), key);
    assert Erase(la) == Erase(lb) == Erase(CountFound(b));
    var ra, rb := Lulofoto.Step(None, opts, parse, a, rel, f), BakFoto.Step(opts, parse, b, rel, f);
    if IsImageFile(f.name) {
      if f.mtime.None? {
        assert ra == CountError(la);
        assert rb == CountError(CountFound(b));
      } else {
        PhotoDateFallback(opts.hasPil, f.exif, f.mtime, parse);
        var p := PhotoDate(opts.hasPil, f.exif, f.mtime, parse).value;
        CopyFileErase(la, lb, key, f, p);
        var synced := !opts.forceAll && opts.lastSync.Some? && NotAfter(f.mtime.value, opts.lastSync.value);
        var present := InCopied(la.copiedFiles, key);
        assert present == InCopied(CountFound(b).copiedFiles, key);
        if synced && present == None {
          assert ra == CountError(la);
          assert rb == CountError(CountFound(b));
        } else if synced && present == Some(true) {
          assert ra == CountSkipped(la);
          assert rb == CountSkipped(CountFound(b));
        } else {
          assert ra == CopyFile(la, key, f, p);
          assert rb == CopyFile(lb, key, f, p);
        }
      }
    }
  }

  /** When the date is looked up: the date-floor organizer looks up every
      image's date before anything else; the baseline one never for a file
      it skips, always for a file it copies. */
  lemma StepResolution(v: Variant, opts: Options, parse: string -> Option<DateTime>,
                       acc: Acc, rel: string, f: SourceFile)
    ensures var r := StepFile(v, opts, parse, acc, rel, f);
            r.resolved == acc.resolved || (IsImageFile(f.name) && r.resolved == acc.resolved + [FileKey(rel, f.name)])
    ensures var r := StepFile(v, opts, parse, acc, rel, f);
            v.DateFloor? && IsImageFile(f.name) ==> r.resolved == acc.resolved + [FileKey(rel, f.name)]
    ensures var r := StepFile(v, opts, parse, acc, rel, f);
            v.Baseline? && r.stats.skipped > acc.stats.skipped ==> r.resolved == acc.resolved
    ensures var r := StepFile(v, opts, parse, acc, rel, f);
            v.Baseline? && r.stats.copied > acc.stats.copied ==> r.resolved == acc.resolved + [FileKey(rel, f.name)]
  {
    if IsImageFile(f.name) {
      StepShape(v, opts, parse, acc, rel, f);
      var p := PhotoDate(opts.hasPil, f.exif, f.mtime, parse);
      var key := FileKey(rel, f.name);
      if p.Some? {
        CopyFileEffect(LookedUp(CountFound(acc), key), key, f, p.value);
      }
    }
  }

  /** A recorded key stays recorded, whatever the shape of `copied_files`. */
  lemma StepKeepsRecorded(v: Variant, opts: Options, parse: string -> Option<DateTime>,
                          acc: Acc, rel: string, f: SourceFile, key: string)
    requires InCopied(acc.copiedFiles, key) == Some(true)
    ensures InCopied(StepFile(v, opts, parse, acc, rel, f).copiedFiles, key) == Some(true)
  {
    var r := StepFile(v, opts, parse, acc, rel, f);
    StepRecords(v, opts, parse, acc, rel, f);
    if r.stats.copied > acc.stats.copied {
      var m := acc.copiedFiles.fields;
      var p := PhotoDate(opts.hasPil, f.exif, f.mtime, parse).value;
      assert r.copiedFiles == JObject(m[FileKey(rel, f.name) := JString(ToIso(p))]);
      assert key in m;
    }
  }

  /** Without a floor, an image processed without an error is recorded
      afterwards: it was either skipped as recorded or copied and recorded. */
  lemma StepRecordsImage(v: Variant, opts: Options, parse: string -> Option<DateTime>,
                         acc: Acc, rel: string, f: SourceFile)
    requires v == Baseline || v == DateFloor(None)
    requires IsImageFile(f.name)
    requires StepFile(v, opts, parse, acc, rel, f).stats.errors == acc.stats.errors
    ensures InCopied(StepFile(v, opts, parse, acc, rel, f).copiedFiles, FileKey(rel, f.name)) == Some(true)
  {
    var r := StepFile(v, opts, parse, acc, rel, f);
    var key := FileKey(rel, f.name);
    var looked := LookedUp(CountFound(acc), key);
    if f.mtime.Some? {
      PhotoDateFallback(opts.hasPil, f.exif, f.mtime, parse);
      var p := PhotoDate(opts.hasPil, f.exif, f.mtime, parse).value;
      var synced := !opts.forceAll && opts.lastSync.Some? && NotAfter(f.mtime.value, opts.lastSync.value);
      var present := InCopied(acc.copiedFiles, key);
      if synced && present == Some(true) {
        assert r.copiedFiles == acc.copiedFiles;
      } else if !(synced && present == None) {
        assert r == CopyFile(looked, key, f, p);
        CopyFileEffect(looked, key, f, p);
        SetThenIn(acc.copiedFiles, key, JString(ToIso(p)), key);
      }
    }
  }

  /** The stats a first-run step leaves on an image: copied when its
      modification time can be read and its copy succeeds, an error
      otherwise. */
  predicate FirstRunStats(acc: Acc, f: SourceFile, r: Acc) {
    && r.copiedFiles.JObject?
    && (f.mtime.Some? && f.copyOk ==>
          r.stats == acc.stats.(totalFound := acc.stats.totalFound + 1, copied := acc.stats.copied + 1))
    && (!(f.mtime.Some? && f.copyOk) ==>
          r.stats == acc.stats.(totalFound := acc.stats.totalFound + 1, errors := acc.stats.errors + 1))
  }

  lemma BaselineFirstRun(opts: Options, parse: string -> Option<DateTime>, acc: Acc, rel: string, f: SourceFile)
    requires opts.lastSync.None? && acc.copiedFiles.JObject?
    requires IsImageFile(f.name)
    ensures FirstRunStats(acc, f, BakFoto.Step(opts, parse, acc, rel, f))
  {
    var r := BakFoto.Step(opts, parse, acc, rel, f);
    var key := FileKey(rel, f.name);
    if f.mtime.Some? {
      PhotoDateFallback(opts.hasPil, f.exif, f.mtime, parse);
      var p := PhotoDate(opts.hasPil, f.exif, f.mtime, parse).value;
      var looked := LookedUp(CountFound(acc), key);
      assert r == CopyFile(looked, key, f, p);
      CopyFileEffect(looked, key, f, p);
    } else {
      assert r == CountError(CountFound(acc));
    }
  }

  lemma FloorlessFirstRun(opts: Options, parse: string -> Option<DateTime>, acc: Acc, rel: string, f: SourceFile)
    requires opts.lastSync.None? && acc.copiedFiles.JObject?
    requires IsImageFile(f.name)
    ensures FirstRunStats(acc, f, Lulofoto.Step(None, opts, parse, acc, rel, f))
  {
    var r := Lulofoto.Step(None, opts, parse, acc, rel, f);
    var key := FileKey(rel, f.name);
    var looked := LookedUp(CountFound(acc), key);
    if f.mtime.Some? {
      PhotoDateFallback(opts.hasPil, f.exif, f.mtime, parse);
      var p := PhotoDate(opts.hasPil, f.exif, f.mtime, parse).value;
      assert r == CopyFile(looked, key, f, p);
      CopyFileEffect(looked, key, f, p);
    } else {
      assert r == CountError(looked);
    }
  }

  /** On a first run (no last sync, a dictionary `copied_files`) without a
      floor, an image is copied exactly when its modification time can be
      read and its copy succeeds, and is an error otherwise. */
  lemma StepFirstRun(v: Variant, opts: Options, parse: string -> Option<DateTime>,
                     acc: Acc, rel: string, f: SourceFile)
    requires v == Baseline || v == DateFloor(None)
    requires opts.lastSync.None? && acc.copiedFiles.JObject?
    requires IsImageFile(f.name)
    ensures FirstRunStats(acc, f, StepFile(v, opts, parse, acc, rel, f))
  {
    if v == Baseline {
      BaselineFirstRun(opts, parse, acc, rel, f);
    } else {
      FloorlessFirstRun(opts, parse, acc, rel, f);
    }
  }

  /** With a forced copy and no floor, every image takes the copy path
      whatever `last_sync` is: it is copied exactly when its modification
      time can be read and its copy succeeds, and is an error otherwise. */
  lemma ForcedStepCopies(v: Variant, hasPil: bool, lastSync: Option<DateTime>, parse: string -> Option<DateTime>,
                         acc: Acc, rel: string, f: SourceFile)
    requires v == Baseline || v == DateFloor(None)
    requires acc.copiedFiles.JObject?
    requires IsImageFile(f.name)
    ensures FirstRunStats(acc, f, StepFile(v, Options(true, hasPil, lastSync), parse, acc, rel, f))
  {
    StepIgnoresLastSync(v, true, hasPil, lastSync, None, parse, acc, rel, f);
    StepFirstRun(v, Options(true, hasPil, None), parse, acc, rel, f);
  }

  /** Without a floor, an image whose key is absent from `copied_files` is
      copied whenever its modification time can be read, even when that
      time is not after the last sync. */
  lemma UnrecordedStepCopies(v: Variant, opts: Options, parse: string -> Option<DateTime>,
                             acc: Acc, rel: string, f: SourceFile)
    requires v == Baseline || v == DateFloor(None)
    requires IsImageFile(f.name) && f.mtime.Some?
    requires InCopied(acc.copiedFiles, FileKey(rel, f.name)) == Some(false)
    ensures var key := FileKey(rel, f.name);
            StepFile(v, opts, parse, acc, rel, f) ==
              CopyFile(LookedUp(CountFound(acc), key), key, f, PhotoDate(opts.hasPil, f.exif, f.mtime, parse).value)
  {
    PhotoDateFallback(opts.hasPil, f.exif, f.mtime, parse);
  }
}
