/** The per-file decision of the date-floor organizer (`lulofoto.py`): the
    photo date is resolved first, a photo dated before the floor is
    skipped, and the already-synced skip applies only when there is no
    floor and no forced copy. */
module Lulofoto {
  import opened Wrappers
  import opened DateTimes
  import opened SyncState
  import opened PhotoDates
  import opened SyncCommon

  /** One iteration of the inner walk loop on file `f` of directory `rel`,
      with the optional `start_date` floor. */
  function Step(startDate: Option<DateTime>, opts: Options, parse: string -> Option<DateTime>,
                acc: Acc, rel: string, f: SourceFile): Acc
  {
    if !IsImageFile(f.name) then acc
    else
      var key := FileKey(rel, f.name);
      var looked := LookedUp(CountFound(acc), key);
      match PhotoDate(opts.hasPil, f.exif, f.mtime, parse)
      case None => CountError(looked)
      case Some(photo) =>
        if startDate.Some? && Before(photo, startDate.value) then CountSkipped(looked)
        else
          match f.mtime
          case None => CountError(looked)
          case Some(mt) =>
            if !opts.forceAll && startDate.None? && opts.lastSync.Some? && NotAfter(mt, opts.lastSync.value) then
              match InCopied(looked.copiedFiles, key)
              case None => CountError(looked)
              case Some(present) => if present then CountSkipped(looked) else CopyFile(looked, key, f, photo)
            else CopyFile(looked, key, f, photo)
  }

  /** The loop body of `organize_photos`, statement by statement. */
  method ProcessFile(startDate: Option<DateTime>, opts: Options, parse: string -> Option<DateTime>,
                     acc: Acc, rel: string, f: SourceFile) returns (next: Acc)
    ensures next == Step(startDate, opts, parse, acc, rel, f)
  {
    next := acc;
    if !IsImageFile(f.name) {
      return;
    }
    next := CountFound(next);
    var key := FileKey(rel, f.name);
    next := LookedUp(next, key);
    var photoDate := GetPhotoDate(opts.hasPil, f.exif, f.mtime, parse);
    if photoDate.None? {
      next := CountError(next);
      return;
    }
    if startDate.Some? && Before(photoDate.value, startDate.value) {
      next := CountSkipped(next);
      return;
    }
    if f.mtime.None? {
      next := CountError(next);
      return;
    }
    var fileMtime := f.mtime.value;
    if !opts.forceAll && startDate.None? && opts.lastSync.Some? && NotAfter(fileMtime, opts.lastSync.value) {
      var present := InCopied(next.copiedFiles, key);
      if present.None? {
        next := CountError(next);
        return;
      }
      if present.value {
        next := CountSkipped(next);
        return;
      }
    }
    next := CopyPhoto(next, key, f, photoDate.value);
  }
}
