/** `organize_photos` of both organizers as a whole run: validate the
    source, load the state, walk every directory and file, then stamp and
    save the state. The walk is given as the sequence of directories
    `os.walk` yields, in order; `now` is the value of `datetime.now()`. */
module SyncEngine {
  import opened Wrappers
  import opened DateTimes
  import opened SyncState
  import opened SyncCommon
  import Lulofoto
  import BakFoto

  /** Which organizer runs: the date-floor one with its optional
      `start_date`, or the baseline one. */
  datatype Variant = DateFloor(startDate: Option<DateTime>) | Baseline

  /** The uncaught exceptions of lines 149/150 (117/118 in the baseline):
      a state that is not a dictionary, or one lacking an entry. */
  datatype Crash = NotADictionary | MissingLastSync | MissingCopiedFiles

  /** How `save_state` fares: the file is written, `open` fails (nothing
      changes), or `json.dump` fails part way (what remains is not JSON). */
  datatype SaveOutcome = Written | OpenFailed | WriteFailed

  /** What a run leaves behind: `False` for a missing source, an uncaught
      exception, or the final counters, state record, state file,
      destination paths, the paths written in order and the keys whose
      photo date was looked up. */
  datatype RunResult =
    | SourceMissing
    | Crashed(cause: Crash)
    | Completed(stats: Stats, state: LoadedState, stateFile: StateFile,
                dest: set<string>, writes: seq<string>, resolved: seq<string>)

  function StepFile(v: Variant, opts: Options, parse: string -> Option<DateTime>,
                    acc: Acc, rel: string, f: SourceFile): Acc
  {
    match v
    case DateFloor(startDate) => Lulofoto.Step(startDate, opts, parse, acc, rel, f)
    case Baseline => BakFoto.Step(opts, parse, acc, rel, f)
  }

  /** The inner loop over the files of one directory. */
  function WalkFiles(v: Variant, opts: Options, parse: string -> Option<DateTime>,
                     acc: Acc, rel: string, files: seq<SourceFile>): Acc
    decreases |files|
  {
    if files == [] then acc
    else StepFile(v, opts, parse, WalkFiles(v, opts, parse, acc, rel, files[..|files| - 1]), rel, files[|files| - 1])
  }

  /** The outer loop over the directories of the walk. */
  function WalkTree(v: Variant, opts: Options, parse: string -> Option<DateTime>,
                    acc: Acc, walk: seq<WalkDir>): Acc
    decreases |walk|
  {
    if walk == [] then acc
    else
      var d := walk[|walk| - 1];
      WalkFiles(v, opts, parse, WalkTree(v, opts, parse, acc, walk[..|walk| - 1]), d.rel, d.files)
  }

  /** The state file after `save_state`. */
  function SavedFile(previous: StateFile, st: LoadedState, save: SaveOutcome): StateFile
    requires st.StateDict? && !st.lastSync.NoKey?
  {
    match save
    case Written => Stored(SaveState(st))
    case OpenFailed => previous
    case WriteFailed => Unreadable
  }

  /** The walk's starting point for a loaded state that has both entries. */
  function Start(st: LoadedState, destDir: set<string>): Acc
    requires st.StateDict? && "copied_files" in st.rest
  {
    Acc(st.rest["copied_files"], destDir, Stats(0, 0, 0, 0), [], [])
  }

  function RunOptions(st: LoadedState, forceAll: bool, hasPil: bool): Options
    requires st.StateDict?
  {
    Options(forceAll, hasPil, if st.lastSync.Time? then Some(st.lastSync.at) else None)
  }

  /** A whole run of `organize_photos`. */
  function Organize(v: Variant, forceAll: bool, hasPil: bool, parse: string -> Option<DateTime>,
                    sourceExists: bool, stateFile: StateFile, walk: seq<WalkDir>,
                    destDir: set<string>, now: DateTime, save: SaveOutcome): RunResult
  {
    if !sourceExists then SourceMissing
    else
      var st := LoadState(stateFile);
      if st.NotADict? then Crashed(NotADictionary)
      else if st.lastSync.NoKey? then Crashed(MissingLastSync)
      else if "copied_files" !in st.rest then Crashed(MissingCopiedFiles)
      else
        var acc := WalkTree(v, RunOptions(st, forceAll, hasPil), parse, Start(st, destDir), walk);
        var final := StateDict(Time(now), st.rest["copied_files" := acc.copiedFiles]);
        Completed(acc.stats, final, SavedFile(stateFile, final, save), acc.dest, acc.writes, acc.resolved)
  }

  /** `organize_photos` with its two nested loops. */
  method OrganizePhotos(v: Variant, forceAll: bool, hasPil: bool, parse: string -> Option<DateTime>,
                        sourceExists: bool, stateFile: StateFile, walk: seq<WalkDir>,
                        destDir: set<string>, now: DateTime, save: SaveOutcome) returns (r: RunResult)
    ensures r == Organize(v, forceAll, hasPil, parse, sourceExists, stateFile, walk, destDir, now, save)
  {
    if !sourceExists {
      return SourceMissing;
    }
    var state := LoadState(stateFile);
    if state.NotADict? {
      return Crashed(NotADictionary);
    }
    if state.lastSync.NoKey? {
      return Crashed(MissingLastSync);
    }
    if "copied_files" !in state.rest {
      return Crashed(MissingCopiedFiles);
    }
    var opts := RunOptions(state, forceAll, hasPil);
    var start := Start(state, destDir);
    var acc := start;
    for i := 0 to |walk|
      invariant acc == WalkTree(v, opts, parse, start, walk[..i])
    {
      var d := walk[i];
      var before := acc;
      assert walk[..i + 1][..i] == walk[..i];
      for j := 0 to |d.files|
        invariant acc == WalkFiles(v, opts, parse, before, d.rel, d.files[..j])
      {
        assert d.files[..j + 1][..j] == d.files[..j];
        match v {
          case DateFloor(startDate) =>
            acc := Lulofoto.ProcessFile(startDate, opts, parse, acc, d.rel, d.files[j]);
          case Baseline =>
            acc := BakFoto.ProcessFile(opts, parse, acc, d.rel, d.files[j]);
        }
      }
      assert d.files[..|d.files|] == d.files;
    }
    assert walk[..|walk|] == walk;
    var final := StateDict(Time(now), state.rest["copied_files" := acc.copiedFiles]);
    var file := SavedFile(stateFile, final, save);
    r := Completed(acc.stats, final, file, acc.dest, acc.writes, acc.resolved);
  }
}
