/** The thumbnail batcher (`lulada.py`): its own image filter, the size
    abbreviation and preset lookups over a parsed configuration, the
    output-name builder and the batch loop over one directory listing.
    Producing a thumbnail is outside the model: each listed file carries
    whether `create_thumbnail` succeeds for it. */
module Lulada {
  import opened Wrappers
  import opened Text
  import SyncCommon

  // ---------------------------------------------------------------------
  // Image filter
  // ---------------------------------------------------------------------

  /** `IMAGE_EXTENSIONS` of the batcher. */
  const ThumbnailExtensions: set<string> :=
    {".jpg", ".jpeg", ".png", ".gif", ".bmp", ".tiff", ".tif", ".webp"}

  /** `is_image_file`: the lower-cased final suffix is a known extension. */
  predicate IsImageFile(filename: string) {
    Lower(Suffix(filename)) in ThumbnailExtensions
  }

  /** A non-empty stem followed by a proper extension is an image exactly
      when the extension is one, in any letter case. */
  lemma IsImageFileByExtension(stem: string, ext: string)
    requires |stem| > 0 && |ext| >= 2 && ext[0] == '.' && NoDot(ext[1..])
    ensures IsImageFile(stem + ext) <==> Lower(ext) in ThumbnailExtensions
  {
    SuffixOfStemAndExtension(stem, ext);
  }

  /** The batcher and the organizers disagree on some files: WebP images
      are thumbnailed but never organized, HEIF and raw images the other
      way round; the other seven extensions are common to both. */
  lemma ExtensionSetsDiffer(stem: string, ext: string)
    requires |stem| > 0 && |ext| >= 2 && ext[0] == '.' && NoDot(ext[1..])
    ensures IsImageFile(stem + ext) && !SyncCommon.IsImageFile(stem + ext) <==> Lower(ext) == ".webp"
    ensures !IsImageFile(stem + ext) && SyncCommon.IsImageFile(stem + ext) <==>
            Lower(ext) in {".heic", ".heif", ".raw", ".cr2", ".nef", ".arw", ".dng"}
  {
    SuffixOfStemAndExtension(stem, ext);
  }

  // ---------------------------------------------------------------------
  // Configuration
  // ---------------------------------------------------------------------

  /** A parsed INI configuration: the `DEFAULT` values and the named
      sections, with option names already in the lower case the parser
      stores them in. */
  datatype Config = Config(defaults: map<string, string>, sections: map<string, map<string, string>>)

  /** `config[section].get(option)`: a section's own value, else the
      `DEFAULT` value, else nothing. */
  function Get(c: Config, section: string, option: string): (r: Option<string>)
    requires section in c.sections
    ensures option in c.sections[section] ==> r == Some(c.sections[section][option])
    ensures option !in c.sections[section] && option in c.defaults ==> r == Some(c.defaults[option])
    ensures r.None? <==> option !in c.sections[section] && option !in c.defaults
  {
    if option in c.sections[section] then Some(c.sections[section][option])
    else if option in c.defaults then Some(c.defaults[option])
    else None
  }

  /** The built-in abbreviations by width threshold. */
  function DefaultAbbr(width: int): (r: string)
    ensures r == "xs" <==> width <= 200
    ensures r == "sm" <==> 200 < width <= 400
    ensures r == "md" <==> 400 < width <= 800
    ensures r == "lg" <==> 800 < width <= 1200
    ensures r == "xl" <==> 1200 < width
  {
    if width <= 200 then "xs"
    else if width <= 400 then "sm"
    else if width <= 800 then "md"
    else if width <= 1200 then "lg"
    else "xl"
  }

  /** The order of the built-in abbreviations, smallest first. */
  function AbbrRank(abbr: string): nat {
    if abbr == "xs" then 0
    else if abbr == "sm" then 1
    else if abbr == "md" then 2
    else if abbr == "lg" then 3
    else 4
  }

  /** A wider thumbnail never gets a smaller built-in abbreviation. */
  lemma DefaultAbbrMonotone(w1: int, w2: int)
    requires w1 <= w2
    ensures AbbrRank(DefaultAbbr(w1)) <= AbbrRank(DefaultAbbr(w2))
  {
  }

  /** `get_size_abbr`: an entry of `[sizes]` keyed by `str(width)` wins;
      otherwise the built-in abbreviation. */
  function SizeAbbr(c: Config, width: int): string {
    var key := IntToString(width);
    if "sizes" in c.sections && Get(c, "sizes", key).Some? then Get(c, "sizes", key).value
    else DefaultAbbr(width)
  }

  /** The override happens exactly for a `[sizes]` section that has (or
      inherits) an option spelled as the decimal width; a configuration
      without `[sizes]` always gives the built-in abbreviation. */
  lemma SizeAbbrOverride(c: Config, width: int)
    ensures "sizes" in c.sections && IntToString(width) in c.sections["sizes"] ==>
              SizeAbbr(c, width) == c.sections["sizes"][IntToString(width)]
    ensures "sizes" !in c.sections ==> SizeAbbr(c, width) == DefaultAbbr(width)
    ensures "sizes" in c.sections && IntToString(width) !in c.sections["sizes"] && IntToString(width) !in c.defaults ==>
              SizeAbbr(c, width) == DefaultAbbr(width)
  {
  }

  /** What `get_preset_size` yields: no such preset (`(None, None, None)`),
      a size, or the `ValueError` `getint` raises on a value that is not an
      integer. */
  datatype PresetSize = NoPreset | Preset(width: int, height: int, abbr: string) | NotAnInteger

  /** `config[section].getint(option, fallback)`: `None` is the
      `ValueError`. */
  function GetInt(c: Config, section: string, option: string, fallback: int): Option<int>
    requires section in c.sections
  {
    match Get(c, section, option)
    case None => Some(fallback)
    case Some(s) => ParseInt(s)
  }

  /** `get_preset_size`. */
  function GetPresetSize(c: Config, presetName: string): (r: PresetSize)
    ensures r.NoPreset? <==> "preset_" + presetName !in c.sections
  {
    var section := "preset_" + presetName;
    if section !in c.sections then NoPreset
    else
      match (GetInt(c, section, "width", 800), GetInt(c, section, "height", 600))
      case (Some(w), Some(h)) =>
        Preset(w, h, if Get(c, section, "abbr").Some? then Get(c, section, "abbr").value else presetName)
      case _ => NotAnInteger
  }

  /** A preset section gives 800 by 600 and its own name when it sets
      none of the three options (and `DEFAULT` does not either), and gives
      back exactly the integers it stores in decimal. */
  lemma PresetDefaults(c: Config, presetName: string, width: int, height: int)
    ensures var section := "preset_" + presetName;
            section in c.sections &&
            (forall o :: o in {"width", "height", "abbr"} ==> o !in c.sections[section] && o !in c.defaults) ==>
              GetPresetSize(c, presetName) == Preset(800, 600, presetName)
    ensures var section := "preset_" + presetName;
            section in c.sections &&
            "width" in c.sections[section] && "height" in c.sections[section] && "abbr" in c.sections[section] &&
            c.sections[section]["width"] == IntToString(width) && c.sections[section]["height"] == IntToString(height) ==>
              GetPresetSize(c, presetName) == Preset(width, height, c.sections[section]["abbr"])
  {
    ParseIntOfIntToString(width);
    ParseIntOfIntToString(height);
  }

  /** Option by option: `getint` raises exactly when `width` or `height`
      is present (in the section or `DEFAULT`) and not an integer;
      otherwise the width is the parsed value or 800, the height the
      parsed value or 600, and the abbreviation the stored one or the
      preset's name. */
  lemma PresetOptions(c: Config, presetName: string)
    requires "preset_" + presetName in c.sections
    ensures var section := "preset_" + presetName;
            var w, h := Get(c, section, "width"), Get(c, section, "height");
            GetPresetSize(c, presetName).NotAnInteger? <==>
              (w.Some? && ParseInt(w.value).None?) || (h.Some? && ParseInt(h.value).None?)
    ensures var section := "preset_" + presetName;
            var w, h, a := Get(c, section, "width"), Get(c, section, "height"), Get(c, section, "abbr");
            var r := GetPresetSize(c, presetName);
            r.Preset? ==>
              && (w.Some? ==> ParseInt(w.value) == Some(r.width)) && (w.None? ==> r.width == 800)
              && (h.Some? ==> ParseInt(h.value) == Some(r.height)) && (h.None? ==> r.height == 600)
              && (a.Some? ==> r.abbr == a.value) && (a.None? ==> r.abbr == presetName)
  {
  }

  /** A preset section storing its width and height in decimal gives them
      back, with its stored abbreviation or, without one, its own name
      (`[preset_md]` with `width = 1024`, `height = 768` is 1024 by 768,
      named `md`). */
  lemma PresetStoredSizes(c: Config, presetName: string, width: int, height: int)
    requires var section := "preset_" + presetName;
             section in c.sections && "width" in c.sections[section] && "height" in c.sections[section] &&
             c.sections[section]["width"] == IntToString(width) && c.sections[section]["height"] == IntToString(height)
    ensures var section := "preset_" + presetName;
            "abbr" in c.sections[section] ==>
              GetPresetSize(c, presetName) == Preset(width, height, c.sections[section]["abbr"])
    ensures var section := "preset_" + presetName;
            "abbr" !in c.sections[section] && "abbr" !in c.defaults ==>
              GetPresetSize(c, presetName) == Preset(width, height, presetName)
  {
    ParseIntOfIntToString(width);
    ParseIntOfIntToString(height);
  }

  // ---------------------------------------------------------------------
  // Output names
  // ---------------------------------------------------------------------

  /** The text the size abbreviation replaces in the prefix and postfix. */
  const Placeholder: string := "{size}"

  /** The extension after `ext_case`: `upper`, `lower`, or left as it is. */
  function CaseExt(ext: string, extCase: string): (r: string)
    ensures |r| == |ext| && Lower(r) == Lower(ext)
    ensures extCase == "upper" ==> r == Upper(ext)
    ensures extCase == "lower" ==> r == Lower(ext)
    ensures extCase != "upper" && extCase != "lower" ==> r == ext
  {
    CaseChangesOnlyCase(ext);
    if extCase == "upper" then Upper(ext)
    else if extCase == "lower" then Lower(ext)
    else ext
  }

  /** `generate_output_filename`. */
  function OutputFilename(input: string, prefix: string, postfix: string, sizeAbbr: string,
                          keepSame: bool, extCase: string): (r: string)
    ensures keepSame ==> r == input
  {
    if keepSame then input
    else
      var name, ext := SplitExt(input).0, SplitExt(input).1;
      Replace(prefix, Placeholder, sizeAbbr) + name + Replace(postfix, Placeholder, sizeAbbr) + CaseExt(ext, extCase)
  }

  /** Unfolding step for the naming lemmas below: the name built when the
      name is not kept is the substituted prefix, name, substituted postfix
      and extension in the requested case. */
  lemma OutputUnfold(input: string, prefix: string, postfix: string, sizeAbbr: string, extCase: string)
    ensures OutputFilename(input, prefix, postfix, sizeAbbr, false, extCase) ==
            Replace(prefix, Placeholder, sizeAbbr) + SplitExt(input).0 + Replace(postfix, Placeholder, sizeAbbr) +
            CaseExt(SplitExt(input).1, extCase)
  {
  }

  /** Changing case keeps a proper extension a proper extension. */
  lemma CaseExtKeepsDots(ext: string, extCase: string)
    requires |ext| >= 1 && ext[0] == '.' && NoDot(ext[1..])
    ensures var e := CaseExt(ext, extCase); |e| >= 1 && e[0] == '.' && NoDot(e[1..])
  {
    var e := CaseExt(ext, extCase);
    assert LowerChar(e[0]) == LowerChar(ext[0]);
    forall i | 0 <= i < |e[1..]| ensures e[1..][i] != '.' {
      assert LowerChar(e[i + 1]) == LowerChar(ext[i + 1]);
    }
  }

  /** The name built for a file with an extension has that extension, in
      the requested case, as its own extension, and everything before it
      is the substituted prefix, the input's name verbatim and the
      substituted postfix. */
  lemma OutputKeepsExtension(input: string, prefix: string, postfix: string, sizeAbbr: string, extCase: string)
    requires SplitExt(input).1 != []
    ensures var name, ext := SplitExt(input).0, SplitExt(input).1;
            SplitExt(OutputFilename(input, prefix, postfix, sizeAbbr, false, extCase)) ==
              (Replace(prefix, Placeholder, sizeAbbr) + name + Replace(postfix, Placeholder, sizeAbbr), CaseExt(ext, extCase))
  {
    var name, ext := SplitExt(input).0, SplitExt(input).1;
    var p, q := Replace(prefix, Placeholder, sizeAbbr), Replace(postfix, Placeholder, sizeAbbr);
    var stem := p + name + q;
    CaseExtKeepsDots(ext, extCase);
    var i :| 0 <= i < |name| && name[i] != '.';
    assert stem[|p| + i] == name[i];
    SplitExtOfJoin(stem, CaseExt(ext, extCase));
  }

  /** Substituting into a prefix and a postfix without the placeholder. */
  lemma SubstituteAbsent(prefix: string, name: string, postfix: string, sizeAbbr: string, ext: string)
    requires !Contains(prefix, Placeholder) && !Contains(postfix, Placeholder)
    ensures Replace(prefix, Placeholder, sizeAbbr) + name + Replace(postfix, Placeholder, sizeAbbr) + ext ==
            prefix + name + postfix + ext
  {
    ReplaceAbsent(prefix, Placeholder, sizeAbbr);
    ReplaceAbsent(postfix, Placeholder, sizeAbbr);
  }

  /** Without a placeholder the prefix and postfix are used as given, and
      the size abbreviation plays no part. */
  lemma OutputWithoutPlaceholder(input: string, prefix: string, postfix: string, sizeAbbr: string, extCase: string)
    requires !Contains(prefix, Placeholder) && !Contains(postfix, Placeholder)
    ensures OutputFilename(input, prefix, postfix, sizeAbbr, false, extCase) ==
            prefix + SplitExt(input).0 + postfix + CaseExt(SplitExt(input).1, extCase)
  {
    OutputUnfold(input, prefix, postfix, sizeAbbr, extCase);
    SubstituteAbsent(prefix, SplitExt(input).0, postfix, sizeAbbr, CaseExt(SplitExt(input).1, extCase));
  }

  /** With neither prefix nor postfix, and the extension's case left as
      it is, the name is the input itself, a `{size}` in it included. */
  lemma OutputOfBareNaming(input: string, sizeAbbr: string, extCase: string)
    requires extCase != "upper" && extCase != "lower"
    ensures OutputFilename(input, "", "", sizeAbbr, false, extCase) == input
  {
    var name, ext := SplitExt(input).0, SplitExt(input).1;
    OutputWithoutPlaceholder(input, "", "", sizeAbbr, extCase);
    assert CaseExt(ext, extCase) == ext;
    assert "" + name + "" + ext == name + ext;
  }

  /** Substituting into a prefix without the pattern and a postfix with
      one occurrence, after text that cannot start one. */
  lemma SubstituteInPostfix(prefix: string, name: string, a: string, tail: string, pat: string, rep: string, ext: string)
    requires |pat| > 0 && !Contains(prefix, pat) && Avoids(a, pat[0]) && !Contains(tail, pat)
    ensures Replace(prefix, pat, rep) + name + Replace(a + pat + tail, pat, rep) + ext ==
            prefix + name + a + rep + tail + ext
  {
    ReplaceOccurrence(a, tail, pat, rep);
    ReplaceAbsent(tail, pat, rep);
    ReplaceAbsent(prefix, pat, rep);
  }

  /** Substituting into a prefix with one occurrence, after text that
      cannot start one, and a postfix without the pattern. */
  lemma SubstituteInPrefix(a: string, tail: string, name: string, postfix: string, pat: string, rep: string, ext: string)
    requires |pat| > 0 && Avoids(a, pat[0]) && !Contains(tail, pat) && !Contains(postfix, pat)
    ensures Replace(a + pat + tail, pat, rep) + name + Replace(postfix, pat, rep) + ext ==
            a + rep + tail + name + postfix + ext
  {
    ReplaceOccurrence(a, tail, pat, rep);
    ReplaceAbsent(tail, pat, rep);
    ReplaceAbsent(postfix, pat, rep);
  }

  /** A postfix with one `{size}` (`_{size}`, `{size}`, `-{size}px`) gets
      the abbreviation in its place, the rest of both affixes kept. */
  lemma OutputSizePostfix(input: string, prefix: string, a: string, tail: string, sizeAbbr: string, extCase: string)
    requires !Contains(prefix, Placeholder) && Avoids(a, '{') && !Contains(tail, Placeholder)
    ensures OutputFilename(input, prefix, a + Placeholder + tail, sizeAbbr, false, extCase) ==
            prefix + SplitExt(input).0 + a + sizeAbbr + tail + CaseExt(SplitExt(input).1, extCase)
  {
    assert Placeholder[0] == '{';
    OutputUnfold(input, prefix, a + Placeholder + tail, sizeAbbr, extCase);
    SubstituteInPostfix(prefix, SplitExt(input).0, a, tail, Placeholder, sizeAbbr, CaseExt(SplitExt(input).1, extCase));
  }

  /** A prefix with one `{size}` (`thumb_{size}_`) gets the abbreviation in
      its place, the rest of both affixes kept. */
  lemma OutputSizePrefix(input: string, a: string, tail: string, postfix: string, sizeAbbr: string, extCase: string)
    requires Avoids(a, '{') && !Contains(tail, Placeholder) && !Contains(postfix, Placeholder)
    ensures OutputFilename(input, a + Placeholder + tail, postfix, sizeAbbr, false, extCase) ==
            a + sizeAbbr + tail + SplitExt(input).0 + postfix + CaseExt(SplitExt(input).1, extCase)
  {
    assert Placeholder[0] == '{';
    OutputUnfold(input, a + Placeholder + tail, postfix, sizeAbbr, extCase);
    SubstituteInPrefix(a, tail, SplitExt(input).0, postfix, Placeholder, sizeAbbr, CaseExt(SplitExt(input).1, extCase));
  }

  /** `ext_case` affects the extension's letter case and nothing else. */
  lemma OutputCaseOnlyExtension(input: string, prefix: string, postfix: string, sizeAbbr: string,
                                case1: string, case2: string)
    ensures var r1 := OutputFilename(input, prefix, postfix, sizeAbbr, false, case1);
            var r2 := OutputFilename(input, prefix, postfix, sizeAbbr, false, case2);
            var k := |SplitExt(input).1|;
            && |r1| == |r2| && k <= |r1|
            && r1[..|r1| - k] == r2[..|r2| - k]
            && Lower(r1[|r1| - k..]) == Lower(r2[|r2| - k..])
  {
    var name, ext := SplitExt(input).0, SplitExt(input).1;
    var stem := Replace(prefix, Placeholder, sizeAbbr) + name + Replace(postfix, Placeholder, sizeAbbr);
    var r1 := OutputFilename(input, prefix, postfix, sizeAbbr, false, case1);
    var r2 := OutputFilename(input, prefix, postfix, sizeAbbr, false, case2);
    assert r1 == stem + CaseExt(ext, case1);
    assert r2 == stem + CaseExt(ext, case2);
    assert r1[..|r1| - |ext|] == stem && r2[..|r2| - |ext|] == stem;
    assert r1[|r1| - |ext|..] == CaseExt(ext, case1);
    assert r2[|r2| - |ext|..] == CaseExt(ext, case2);
  }

  // ---------------------------------------------------------------------
  // The batch loop
  // ---------------------------------------------------------------------

  /** One entry of `os.listdir(source_dir)` and whether `create_thumbnail`
      succeeds for it. */
  datatype ListedFile = ListedFile(name: string, thumbnailOk: bool)

  /** The naming arguments of `batch_thumbnails`. */
  datatype Naming = Naming(prefix: string, postfix: string, sizeAbbr: string, keepSame: bool, extCase: string)

  function OutputName(n: Naming, name: string): string {
    OutputFilename(name, n.prefix, n.postfix, n.sizeAbbr, n.keepSame, n.extCase)
  }

  /** The `stats` dictionary of the batch. */
  datatype BatchStats = BatchStats(totalFound: nat, processed: nat, skipped: nat, errors: nat)

  /** What the loop carries: the counters, the names present in the output
      directory, and the thumbnails created so far in order. */
  datatype Batch = Batch(stats: BatchStats, outputs: set<string>, created: seq<string>)

  /** `False` for a missing source; the exception that escapes when the
      output directory cannot be created (`os.makedirs`) or the source
      cannot be listed (`os.listdir` on a regular file or an unreadable
      directory); otherwise what the loop leaves. */
  datatype BatchResult = NoSource | OutputDirFailed | ListingFailed | Finished(batch: Batch)

  /** One iteration of the loop. */
  function ThumbStep(n: Naming, b: Batch, f: ListedFile): Batch {
    if !IsImageFile(f.name) then b
    else Visit(b, OutputName(n, f.name), f.thumbnailOk)
  }

  /** The iteration on an image whose thumbnail would be `out`: counted
      as found, then skipped when `out` exists, otherwise created or
      failed as `create_thumbnail` fares. */
  function Visit(b: Batch, out: string, ok: bool): Batch {
    var s := b.stats.(totalFound := b.stats.totalFound + 1);
    if out in b.outputs then b.(stats := s.(skipped := s.skipped + 1))
    else if ok then Batch(s.(processed := s.processed + 1), b.outputs + {out}, b.created + [out])
    else b.(stats := s.(errors := s.errors + 1))
  }

  /** The loop over a listing. */
  function ThumbFold(n: Naming, b: Batch, files: seq<ListedFile>): Batch
    decreases |files|
  {
    if files == [] then b
    else ThumbStep(n, ThumbFold(n, b, files[..|files| - 1]), files[|files| - 1])
  }

  /** A whole `batch_thumbnails` run over the names present in the output
      directory. `outputMade` says whether `os.makedirs` succeeds and
      `listable` whether `os.listdir` of the source succeeds. */
  function Thumbnails(sourceExists: bool, outputMade: bool, listable: bool,
                      files: seq<ListedFile>, outputs: set<string>, n: Naming): (r: BatchResult)
    ensures r.NoSource? <==> !sourceExists
    ensures r.OutputDirFailed? <==> sourceExists && !outputMade
    ensures r.ListingFailed? <==> sourceExists && outputMade && !listable
    ensures r.Finished? <==> sourceExists && outputMade && listable
  {
    if !sourceExists then NoSource
    else if !outputMade then OutputDirFailed
    else if !listable then ListingFailed
    else Finished(ThumbFold(n, Batch(BatchStats(0, 0, 0, 0), outputs, []), files))
  }

  /** One iteration of the batch loop as statements. */
  method ProcessListed(n: Naming, b: Batch, f: ListedFile) returns (next: Batch)
    ensures next == ThumbStep(n, b, f)
  {
    if !IsImageFile(f.name) {
      return b;
    }
    var outputFilename := OutputName(n, f.name);
    next := ProcessImage(b, outputFilename, f.thumbnailOk);
  }

  /** The iteration on an image, from the found count on. */
  method ProcessImage(b: Batch, outputFilename: string, ok: bool) returns (next: Batch)
    ensures next == Visit(b, outputFilename, ok)
  {
    var stats := b.stats.(totalFound := b.stats.totalFound + 1);
    if outputFilename in b.outputs {
      next := b.(stats := stats.(skipped := stats.skipped + 1));
    } else if ok {
      next := Batch(stats.(processed := stats.processed + 1), b.outputs + {outputFilename}, b.created + [outputFilename]);
    } else {
      next := b.(stats := stats.(errors := stats.errors + 1));
    }
  }

  /** `batch_thumbnails` with its loop. */
  method BatchThumbnails(sourceExists: bool, outputMade: bool, listable: bool,
                         files: seq<ListedFile>, outputs: set<string>, n: Naming)
    returns (r: BatchResult)
    ensures r == Thumbnails(sourceExists, outputMade, listable, files, outputs, n)
  {
    if !sourceExists {
      return NoSource;
    }
    if !outputMade {
      return OutputDirFailed;
    }
    if !listable {
      return ListingFailed;
    }
    var b := Batch(BatchStats(0, 0, 0, 0), outputs, []);
    for i := 0 to |files|
      invariant b == ThumbFold(n, Batch(BatchStats(0, 0, 0, 0), outputs, []), files[..i])
    {
      assert files[..i + 1][..i] == files[..i];
      b := ProcessListed(n, b, files[i]);
    }
    assert files[..|files|] == files;
    r := Finished(b);
  }

  // ---------------------------------------------------------------------
  // Properties of the batch
  // ---------------------------------------------------------------------

  /** How many listed names are images. */
  function ImageCount(files: seq<ListedFile>): nat
    decreases |files|
  {
    if files == [] then 0
    else ImageCount(files[..|files| - 1]) + (if IsImageFile(files[|files| - 1].name) then 1 else 0)
  }

  /** An existing output is never written: the file is counted as skipped
      and nothing else changes. */
  lemma StepSkipsExisting(n: Naming, b: Batch, f: ListedFile)
    requires IsImageFile(f.name) && OutputName(n, f.name) in b.outputs
    ensures ThumbStep(n, b, f) ==
            b.(stats := b.stats.(totalFound := b.stats.totalFound + 1, skipped := b.stats.skipped + 1))
  {
  }

  /** The counters add up and count every image once; every thumbnail
      created is new, none is created twice, and the output directory
      gains exactly the thumbnails created. */
  predicate BatchInvariant(init: set<string>, b: Batch) {
    && b.stats.totalFound == b.stats.processed + b.stats.skipped + b.stats.errors
    && b.stats.processed == |b.created|
    && (forall i :: 0 <= i < |b.created| ==> b.created[i] !in init)
    && (forall i, j :: 0 <= i < j < |b.created| ==> b.created[i] != b.created[j])
    && b.outputs == init + (set o | o in b.created)
  }

  lemma VisitKeepsInvariant(init: set<string>, b: Batch, out: string, ok: bool)
    requires BatchInvariant(init, b)
    ensures BatchInvariant(init, Visit(b, out, ok))
    ensures Visit(b, out, ok).stats.totalFound == b.stats.totalFound + 1
  {
    var r := Visit(b, out, ok);
    if out !in b.outputs && ok {
      assert r.created == b.created + [out];
      forall i | 0 <= i < |b.created| ensures b.created[i] != out {
        assert b.created[i] in b.outputs;
      }
      assert (set o | o in r.created) == (set o | o in b.created) + {out};
    }
  }

  lemma StepKeepsInvariant(init: set<string>, n: Naming, b: Batch, f: ListedFile)
    requires BatchInvariant(init, b)
    ensures BatchInvariant(init, ThumbStep(n, b, f))
    ensures ThumbStep(n, b, f).stats.totalFound == b.stats.totalFound + (if IsImageFile(f.name) then 1 else 0)
  {
    if IsImageFile(f.name) {
      VisitKeepsInvariant(init, b, OutputName(n, f.name), f.thumbnailOk);
    }
  }

  lemma {:induction false} FoldKeepsInvariant(init: set<string>, n: Naming, b: Batch, files: seq<ListedFile>)
    requires BatchInvariant(init, b)
    ensures BatchInvariant(init, ThumbFold(n, b, files))
    ensures ThumbFold(n, b, files).stats.totalFound == b.stats.totalFound + ImageCount(files)
    decreases |files|
  {
    if files != [] {
      FoldKeepsInvariant(init, n, b, files[..|files| - 1]);
      StepKeepsInvariant(init, n, ThumbFold(n, b, files[..|files| - 1]), files[|files| - 1]);
    }
  }

  /** A finished batch: every image is found once and counted once as
      created, skipped or failed; no existing output is overwritten, no
      output is written twice, the output directory gains exactly the
      thumbnails created, and each of them is named after a listed image. */
  lemma BatchCountsAndNoOverwrite(files: seq<ListedFile>, outputs: set<string>, n: Naming)
    ensures var r := Thumbnails(true, true, true, files, outputs, n).batch;
            && r.stats.totalFound == ImageCount(files)
            && r.stats.totalFound == r.stats.processed + r.stats.skipped + r.stats.errors
            && r.stats.processed == |r.created|
            && (forall i :: 0 <= i < |r.created| ==> r.created[i] !in outputs)
            && (forall i, j :: 0 <= i < j < |r.created| ==> r.created[i] != r.created[j])
            && r.outputs == outputs + (set o | o in r.created)
            && (forall i :: 0 <= i < |r.created| ==> r.created[i] in Wanted(n, files))
  {
    var start := Batch(BatchStats(0, 0, 0, 0), outputs, []);
    assert (set o | o in start.created) == {};
    FoldKeepsInvariant(outputs, n, start, files);
    FoldCreatesWanted(n, start, files);
  }

  /** The loop never removes an output and never lowers the error
      count. */
  lemma {:induction false} FoldGrows(n: Naming, b: Batch, files: seq<ListedFile>)
    ensures b.outputs <= ThumbFold(n, b, files).outputs
    ensures ThumbFold(n, b, files).stats.errors >= b.stats.errors
    decreases |files|
  {
    if files != [] {
      FoldGrows(n, b, files[..|files| - 1]);
    }
  }

  /** A step that adds no error leaves the image's output present; no
      step removes an output. */
  lemma StepLeavesOutput(n: Naming, b: Batch, f: ListedFile)
    ensures b.outputs <= ThumbStep(n, b, f).outputs
    ensures ThumbStep(n, b, f).stats.errors >= b.stats.errors
    ensures IsImageFile(f.name) && ThumbStep(n, b, f).stats.errors == b.stats.errors ==>
              OutputName(n, f.name) in ThumbStep(n, b, f).outputs
  {
  }

  /** The output names of the listed images. */
  function Wanted(n: Naming, files: seq<ListedFile>): set<string>
    decreases |files|
  {
    if files == [] then {}
    else
      var last := files[|files| - 1];
      Wanted(n, files[..|files| - 1]) + (if IsImageFile(last.name) then {OutputName(n, last.name)} else {})
  }

  /** After a batch with no new error, every listed image has its output
      present. */
  lemma {:induction false} FoldLeavesOutputs(n: Naming, b: Batch, files: seq<ListedFile>)
    requires ThumbFold(n, b, files).stats.errors == b.stats.errors
    ensures Wanted(n, files) <= ThumbFold(n, b, files).outputs
    decreases |files|
  {
    if files != [] {
      var front := files[..|files| - 1];
      var mid := ThumbFold(n, b, front);
      var last := files[|files| - 1];
      assert ThumbFold(n, b, files) == ThumbStep(n, mid, last);
      FoldGrows(n, b, front);
      StepLeavesOutput(n, mid, last);
      FoldLeavesOutputs(n, b, front);
    }
  }

  /** Every thumbnail a batch creates is the output name of a listed
      image. */
  lemma {:induction false} FoldCreatesWanted(n: Naming, b: Batch, files: seq<ListedFile>)
    ensures forall i :: 0 <= i < |ThumbFold(n, b, files).created| ==>
              ThumbFold(n, b, files).created[i] in b.created || ThumbFold(n, b, files).created[i] in Wanted(n, files)
    decreases |files|
  {
    if files != [] {
      var front := files[..|files| - 1];
      var mid := ThumbFold(n, b, front);
      var r := ThumbStep(n, mid, files[|files| - 1]);
      assert ThumbFold(n, b, files) == r;
      FoldCreatesWanted(n, b, front);
      assert Wanted(n, front) <= Wanted(n, files);
      assert r.created == mid.created || r.created == mid.created + [OutputName(n, files[|files| - 1].name)];
    }
  }

  /** Running the batch again over the outputs of a batch that had no
      error creates nothing and skips every image. */
  lemma RerunSkipsAll(files: seq<ListedFile>, outputs: set<string>, n: Naming)
    requires Thumbnails(true, true, true, files, outputs, n).batch.stats.errors == 0
    ensures var first := Thumbnails(true, true, true, files, outputs, n).batch;
            var second := Thumbnails(true, true, true, files, first.outputs, n).batch;
            && second.created == [] && second.outputs == first.outputs
            && second.stats.processed == 0 && second.stats.errors == 0
            && second.stats.skipped == second.stats.totalFound == ImageCount(files)
  {
    var first := Thumbnails(true, true, true, files, outputs, n).batch;
    FoldLeavesOutputs(n, Batch(BatchStats(0, 0, 0, 0), outputs, []), files);
    SkipOnlyFold(n, Batch(BatchStats(0, 0, 0, 0), first.outputs, []), files);
    BatchCountsAndNoOverwrite(files, first.outputs, n);
  }

  /** A listing whose images all have their outputs present is all
      skipped. */
  lemma {:induction false} SkipOnlyFold(n: Naming, b: Batch, files: seq<ListedFile>)
    requires Wanted(n, files) <= b.outputs
    ensures var r := ThumbFold(n, b, files);
            r.created == b.created && r.outputs == b.outputs &&
            r.stats.processed == b.stats.processed && r.stats.errors == b.stats.errors
    decreases |files|
  {
    if files != [] {
      SkipOnlyFold(n, b, files[..|files| - 1]);
    }
  }
}
