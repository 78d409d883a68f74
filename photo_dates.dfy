/** `get_photo_date` (the same in both organizers): the first EXIF date-time
    entry that parses, otherwise the file's modification time. Opening the
    image and reading its EXIF table are outside the model: a file carries
    the entries `_getexif()` yields, in iteration order (none when the file
    cannot be opened or has no EXIF data), and `strptime` with the format
    `%Y:%m:%d %H:%M:%S` is the parameter `parse`. */
module PhotoDates {
  import opened Wrappers
  import opened DateTimes

  /** One EXIF entry, its tag already mapped to a name by `TAGS`. */
  datatype ExifEntry = ExifEntry(tag: string, value: string)

  predicate IsDateTag(tag: string) {
    tag == "DateTimeOriginal" || tag == "DateTime" || tag == "DateTimeDigitized"
  }

  /** An entry the search returns: a date tag whose value parses. */
  predicate Qualifies(e: ExifEntry, parse: string -> Option<DateTime>) {
    IsDateTag(e.tag) && parse(e.value).Some?
  }

  /** The date of the first qualifying entry, in iteration order. */
  function FirstExifDate(exif: seq<ExifEntry>, parse: string -> Option<DateTime>): Option<DateTime>
    decreases |exif|
  {
    if exif == [] then None
    else if Qualifies(exif[0], parse) then parse(exif[0].value)
    else FirstExifDate(exif[1..], parse)
  }

  /** The search result is `None` exactly when no entry qualifies, and
      otherwise the parsed value of a qualifying entry that no earlier
      qualifying entry precedes. */
  lemma {:induction false} FirstExifDateIsFirstMatch(exif: seq<ExifEntry>, parse: string -> Option<DateTime>)
    ensures FirstExifDate(exif, parse).None? <==>
            forall i :: 0 <= i < |exif| ==> !Qualifies(exif[i], parse)
    ensures FirstExifDate(exif, parse).Some? ==>
            exists i :: 0 <= i < |exif| && Qualifies(exif[i], parse) &&
                        parse(exif[i].value) == FirstExifDate(exif, parse) &&
                        forall j :: 0 <= j < i ==> !Qualifies(exif[j], parse)
    decreases |exif|
  {
    if exif != [] {
      FirstExifDateIsFirstMatch(exif[1..], parse);
      if !Qualifies(exif[0], parse) {
        if FirstExifDate(exif, parse).Some? {
          var i :| 0 <= i < |exif[1..]| && Qualifies(exif[1..][i], parse) &&
                   parse(exif[1..][i].value) == FirstExifDate(exif[1..], parse) &&
                   forall j :: 0 <= j < i ==> !Qualifies(exif[1..][j], parse);
          assert Qualifies(exif[i + 1], parse);
          forall j | 0 <= j < i + 1 ensures !Qualifies(exif[j], parse) {
            if j > 0 { assert exif[j] == exif[1..][j - 1]; }
          }
        } else {
          forall i | 0 <= i < |exif| ensures !Qualifies(exif[i], parse) {
            if i > 0 { assert exif[i] == exif[1..][i - 1]; }
          }
        }
      } else {
        assert Qualifies(exif[0], parse);
      }
    }
  }

  /** `get_photo_date`: `None` is the exception raised when the fallback
      cannot read the modification time (`mtime` is `None`). */
  function PhotoDate(hasPil: bool, exif: seq<ExifEntry>, mtime: Option<DateTime>,
                     parse: string -> Option<DateTime>): Option<DateTime>
  {
    if hasPil && FirstExifDate(exif, parse).Some? then FirstExifDate(exif, parse) else mtime
  }

  /** Without PIL, or when no entry qualifies, the photo date is the
      modification time; otherwise it is the first qualifying entry's date,
      whatever the modification time. */
  lemma PhotoDateFallback(hasPil: bool, exif: seq<ExifEntry>, mtime: Option<DateTime>,
                          parse: string -> Option<DateTime>)
    ensures (!hasPil || forall i :: 0 <= i < |exif| ==> !Qualifies(exif[i], parse)) ==>
            PhotoDate(hasPil, exif, mtime, parse) == mtime
    ensures forall i :: 0 <= i < |exif| && hasPil && Qualifies(exif[i], parse) &&
                        (forall j :: 0 <= j < i ==> !Qualifies(exif[j], parse)) ==>
            PhotoDate(hasPil, exif, mtime, parse) == parse(exif[i].value)
    ensures mtime.Some? ==> PhotoDate(hasPil, exif, mtime, parse).Some?
  {
    FirstExifDateIsFirstMatch(exif, parse);
    forall i | 0 <= i < |exif| && hasPil && Qualifies(exif[i], parse) &&
               (forall j :: 0 <= j < i ==> !Qualifies(exif[j], parse))
      ensures PhotoDate(hasPil, exif, mtime, parse) == parse(exif[i].value)
    {
      var k :| 0 <= k < |exif| && Qualifies(exif[k], parse) &&
               parse(exif[k].value) == FirstExifDate(exif, parse) &&
               forall j :: 0 <= j < k ==> !Qualifies(exif[j], parse);
      assert k == i;
    }
  }

  /** The search loop of `get_photo_date`, returning at the first entry
      that qualifies. */
  method GetPhotoDate(hasPil: bool, exif: seq<ExifEntry>, mtime: Option<DateTime>,
                      parse: string -> Option<DateTime>) returns (r: Option<DateTime>)
    ensures r == PhotoDate(hasPil, exif, mtime, parse)
  {
    if hasPil {
      for i := 0 to |exif|
        invariant FirstExifDate(exif[i..], parse) == FirstExifDate(exif, parse)
      {
        assert exif[i..][1..] == exif[i + 1..];
        if IsDateTag(exif[i].tag) {
          var parsed := parse(exif[i].value);
          if parsed.Some? {
            return parsed;
          }
        }
      }
      assert exif[|exif|..] == [];
    }
    return mtime;
  }
}
