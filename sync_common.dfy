/** What the two organizers share: the image filter, the source files the
    walk yields, the run statistics, the state a walk carries from file to
    file, and the copy path (bucket, collision handling, copy, record). */
module SyncCommon {
  import opened Wrappers
  import opened Text
  import opened DateTimes
  import opened SyncState
  import opened PhotoDates
  import opened PathPlanner

  /** `IMAGE_EXTENSIONS` of both organizers. */
  const ImageExtensions: set<string> :=
    {".jpg", ".jpeg", ".png", ".gif", ".bmp", ".tiff", ".tif",
     ".heic", ".heif", ".raw", ".cr2", ".nef", ".arw", ".dng"}

  /** `is_image_file`: the lower-cased final suffix is a known extension. */
  predicate IsImageFile(filename: string) {
    Lower(Suffix(filename)) in ImageExtensions
  }

  /** A non-empty stem followed by a proper extension is an image exactly
      when the extension is one, in any letter case. */
  lemma IsImageFileByExtension(stem: string, ext: string)
    requires |stem| > 0 && |ext| >= 2 && ext[0] == '.' && NoDot(ext[1..])
    ensures IsImageFile(stem + ext) <==> Lower(ext) in ImageExtensions
  {
    SuffixOfStemAndExtension(stem, ext);
  }

  /** A name with no dot, or whose only dot is its first character (such
      as `.jpg`), is never an image. */
  lemma HiddenOrBareNameIsNotImage(name: string)
    requires NoDot(name) || (|name| > 0 && name[0] == '.' && NoDot(name[1..]))
    ensures !IsImageFile(name)
  {
    var i := RFind(name, '.');
    if !NoDot(name) {
      assert name[0] == '.';
      forall j | 0 < j < |name| ensures name[j] != '.' {
        assert name[j] == name[1..][j - 1];
      }
      assert i == 0;
    }
  }

  /** One file the walk yields: its name, its modification time (`None`
      when `os.path.getmtime` raises), the EXIF entries it yields (empty
      when it cannot be opened or has none) and whether copying it with
      `shutil.copy2` and creating its bucket folder succeed. */
  datatype SourceFile = SourceFile(name: string, mtime: Option<DateTime>,
                                   exif: seq<ExifEntry>, copyOk: bool)

  /** One `(root, dirs, files)` triple of `os.walk`, with `root` given
      relative to the source directory (`""` for the source itself). */
  datatype WalkDir = WalkDir(rel: string, files: seq<SourceFile>)

  /** `os.path.relpath(os.path.join(root, filename), source_dir)`. */
  function FileKey(rel: string, name: string): string {
    if rel == "" then name else rel + "/" + name
  }

  /** The `stats` dictionary. */
  datatype Stats = Stats(totalFound: nat, copied: nat, skipped: nat, errors: nat)

  predicate Balanced(s: Stats) {
    s.totalFound == s.copied + s.skipped + s.errors
  }

  /** What the walk carries from one file to the next: `copied_files`, the
      paths that exist in the destination, the counters, the destination
      paths written so far in order, and the keys whose photo date was
      looked up, in order. */
  datatype Acc = Acc(copiedFiles: Json, dest: set<string>, stats: Stats,
                     writes: seq<string>, resolved: seq<string>)

  /** The run-wide inputs to the per-file decision. */
  datatype Options = Options(forceAll: bool, hasPil: bool, lastSync: Option<DateTime>)

  function CountFound(acc: Acc): Acc {
    acc.(stats := acc.stats.(totalFound := acc.stats.totalFound + 1))
  }

  function CountSkipped(acc: Acc): Acc {
    acc.(stats := acc.stats.(skipped := acc.stats.skipped + 1))
  }

  function CountError(acc: Acc): Acc {
    acc.(stats := acc.stats.(errors := acc.stats.errors + 1))
  }

  /** The photo date of the file under `key` is looked up. */
  function LookedUp(acc: Acc, key: string): Acc {
    acc.(resolved := acc.resolved + [key])
  }

  /** The copy path: bucket `%y%m%d`, a target that does not exist yet, the
      copy, then `copied_files[key] = photo_date.isoformat()`. A failed copy
      is an error and writes nothing; a failed assignment (a `copied_files`
      that is not a dictionary) is an error after the file was written. */
  function CopyFile(acc: Acc, key: string, f: SourceFile, photo: DateTime): Acc {
    var target := Target(acc.dest, Bucket(photo), f.name);
    if !f.copyOk then CountError(acc)
    else
      var written := acc.(dest := acc.dest + {target}, writes := acc.writes + [target]);
      match SetCopied(acc.copiedFiles, key, JString(ToIso(photo)))
      case Some(c) => written.(copiedFiles := c, stats := written.stats.(copied := written.stats.copied + 1))
      case None => CountError(written)
  }

  /** Lines 199-219 of the organizer loop as statements. */
  method CopyPhoto(acc: Acc, key: string, f: SourceFile, photo: DateTime) returns (next: Acc)
    ensures next == CopyFile(acc, key, f, photo)
    ensures next.dest == acc.dest || (f.copyOk && next.dest == acc.dest + {next.writes[|next.writes| - 1]})
  {
    var dateFolder := Bucket(photo);
    var destPath := ResolveTarget(acc.dest, dateFolder, f.name);
    if !f.copyOk {
      next := CountError(acc);
      return;
    }
    next := acc.(dest := acc.dest + {destPath}, writes := acc.writes + [destPath]);
    var updated := SetCopied(next.copiedFiles, key, JString(ToIso(photo)));
    if updated.Some? {
      next := next.(copiedFiles := updated.value, stats := next.stats.(copied := next.stats.copied + 1));
    } else {
      next := CountError(next);
    }
  }
}
