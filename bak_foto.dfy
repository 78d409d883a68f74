/** The per-file decision of the baseline organizer (`bak-foto.py`): no
    date floor, the already-synced skip is decided on the modification time
    first, and the photo date is resolved only for files that go on to be
    copied. */
module BakFoto {
  import opened Wrappers
  import opened DateTimes
  import opened SyncState
  import opened PhotoDates
  import opened SyncCommon

  /** One iteration of the inner walk loop on file `f` of directory `rel`.
      The photo date always exists here: its fallback is the modification
      time, which was read successfully just before. */
  function Step(opts: Options, parse: string -> Option<DateTime>, acc: Acc, rel: string, f: SourceFile): Acc
  {
    if !IsImageFile(f.name) then acc
    else
      var found := CountFound(acc);
      var key := FileKey(rel, f.name);
      match f.mtime
      case None => CountError(found)
      case Some(mt) =>
        var synced := !opts.forceAll && opts.lastSync.Some? && NotAfter(mt, opts.lastSync.value);
        if synced && InCopied(found.copiedFiles, key).None? then CountError(found)
        else if synced && InCopied(found.copiedFiles, key) == Some(true) then CountSkipped(found)
        else
          PhotoDateFallback(opts.hasPil, f.exif, f.mtime, parse);
          var photo := PhotoDate(opts.hasPil, f.exif, f.mtime, parse).value;
          CopyFile(LookedUp(found, key), key, f, photo)
  }

  /** The loop body of `organize_photos`, statement by statement. */
  method ProcessFile(opts: Options, parse: string -> Option<DateTime>,
                     acc: Acc, rel: string, f: SourceFile) returns (next: Acc)
    ensures next == Step(opts, parse, acc, rel, f)
  {
    next := acc;
    if !IsImageFile(f.name) {
      return;
    }
    next := CountFound(next);
    if f.mtime.None? {
      next := CountError(next);
      return;
    }
    var fileMtime := f.mtime.value;
    var key := FileKey(rel, f.name);
    if !opts.forceAll && opts.lastSync.Some? && NotAfter(fileMtime, opts.lastSync.value) {
      var present := InCopied(next.copiedFiles, key);
      if present.None? {
        next := CountError(next);
        return;
      }
      if present.value {
        next := CountSkipped(next);
        return;
      }
    }
    next := LookedUp(next, key);
    var photoDate := GetPhotoDate(opts.hasPil, f.exif, f.mtime, parse);
    PhotoDateFallback(opts.hasPil, f.exif, f.mtime, parse);
    next := CopyPhoto(next, key, f, photoDate.value);
  }
}
