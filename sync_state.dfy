/** The organizers' sync state: the JSON document kept in the destination
    directory, what `load_state` makes of it, what `save_state` writes back
    (both organizers have the same two functions), and the dictionary
    operations the walk performs on `copied_files`. */
module SyncState {
  import opened Wrappers
  import opened Text
  import opened DateTimes

  /** A JSON value as `json.load` returns it (numbers kept as integers). */
  datatype Json =
    | JNull
    | JBool(b: bool)
    | JNumber(n: int)
    | JString(s: string)
    | JArray(items: seq<Json>)
    | JObject(fields: map<string, Json>)

  /** The state file as the loader finds it: missing, present but not
      readable as JSON (an I/O error or a syntax error), or a document. */
  datatype StateFile = Absent | Unreadable | Stored(doc: Json)

  /** The `last_sync` entry of a loaded state dictionary: missing, `None`,
      or a datetime (the loader converts any stored value it keeps). */
  datatype LastSync = NoKey | NullTime | Time(at: DateTime)

  /** What `load_state` returns: a dictionary, split into its `last_sync`
      entry and the other entries, or a JSON document that is not an
      object, returned as it is. */
  datatype LoadedState =
    | StateDict(lastSync: LastSync, rest: map<string, Json>)
    | NotADict(doc: Json)

  /** `{'last_sync': None, 'copied_files': {}}`. */
  function DefaultState(): LoadedState {
    StateDict(NullTime, map["copied_files" := JObject(map[])])
  }

  /** What every loaded state satisfies: `last_sync` is never among the
      other entries, a datetime in it is a valid one, and `None` there only
      comes from the default record. */
  predicate WellShaped(st: LoadedState) {
    st.StateDict? ==>
      && "last_sync" !in st.rest
      && (st.lastSync.Time? ==> Valid(st.lastSync.at))
      && (st.lastSync.NullTime? ==> st == DefaultState())
  }

  /** `load_state`: a missing or unreadable file gives the default record;
      an object has its `last_sync` string converted with `fromisoformat`
      (any failure there, or a `last_sync` that is not a string, gives the
      default record as well); other entries, `copied_files` among them,
      are returned as stored. A document that is not an object is returned
      as it is unless the membership test `'last_sync' in state` raises or
      succeeds (then the following conversion raises), which both give the
      default record. */
  function LoadState(f: StateFile): (st: LoadedState)
    ensures WellShaped(st)
    ensures (f.Absent? || f.Unreadable?) ==> st == DefaultState()
    ensures f.Stored? && f.doc.JObject? && "last_sync" !in f.doc.fields ==>
              st == StateDict(NoKey, f.doc.fields)
    ensures f.Stored? && f.doc.JObject? && "last_sync" in f.doc.fields &&
            !(f.doc.fields["last_sync"].JString? && FromIso(f.doc.fields["last_sync"].s).Some?) ==>
              st == DefaultState()
    ensures st.StateDict? && st.lastSync.Time? ==>
              && f.Stored? && f.doc.JObject? && "last_sync" in f.doc.fields
              && f.doc.fields["last_sync"].JString?
              && FromIso(f.doc.fields["last_sync"].s) == Some(st.lastSync.at)
              && st.rest == f.doc.fields - {"last_sync"}
  {
    match f
    case Absent => DefaultState()
    case Unreadable => DefaultState()
    case Stored(doc) =>
      match doc
      case JObject(m) =>
        if "last_sync" in m then
          match m["last_sync"]
          case JString(s) =>
            (match FromIso(s)
             case Some(d) => StateDict(Time(d), m - {"last_sync"})
             case None => DefaultState())
          case _ => DefaultState()
        else StateDict(NoKey, m)
      case JString(s) => if Contains(s, "last_sync") then DefaultState() else NotADict(doc)
      case JArray(xs) => if JString("last_sync") in xs then DefaultState() else NotADict(doc)
      case _ => DefaultState()
  }

  /** The document `save_state` writes: a shallow copy of the dictionary in
      which a datetime `last_sync` becomes its ISO string (a `None` one is
      written as `null`). The caller's record is a value and is not changed.
      The only caller always has a `last_sync` entry. */
  function SaveState(st: LoadedState): (doc: Json)
    requires st.StateDict? && !st.lastSync.NoKey?
    ensures doc.JObject? && doc.fields.Keys == st.rest.Keys + {"last_sync"}
    ensures forall k :: k in st.rest && k != "last_sync" ==> doc.fields[k] == st.rest[k]
  {
    var stamp := match st.lastSync
      case Time(d) => JString(ToIso(d))
      case _ => JNull;
    JObject(st.rest["last_sync" := stamp])
  }

  /** Entries without `last_sync`, stored with a `last_sync` string that
      parses, load as that datetime and the same entries. */
  lemma LoadStoredTime(rest: map<string, Json>, s: string, d: DateTime)
    requires "last_sync" !in rest && FromIso(s) == Some(d)
    ensures LoadState(Stored(JObject(rest["last_sync" := JString(s)]))) == StateDict(Time(d), rest)
  {
    var m := rest["last_sync" := JString(s)];
    assert m - {"last_sync"} == rest;
  }

  /** Saving a dictionary with a valid `last_sync` and loading the written
      file gives the same dictionary back. */
  lemma LoadOfSave(st: LoadedState)
    requires st.StateDict? && st.lastSync.Time? && Valid(st.lastSync.at)
    requires "last_sync" !in st.rest
    ensures LoadState(Stored(SaveState(st))) == st
  {
    IsoRoundTrip(st.lastSync.at);
    LoadStoredTime(st.rest, ToIso(st.lastSync.at), st.lastSync.at);
  }

  /** A dictionary saved with `last_sync` equal to `None` does not load
      back: `fromisoformat(None)` raises and the loader falls back to the
      default record, losing `copied_files`. */
  lemma LoadOfSaveWithoutTime(st: LoadedState)
    requires st.StateDict? && st.lastSync.NullTime?
    ensures LoadState(Stored(SaveState(st))) == DefaultState()
  {
  }

  // ---------------------------------------------------------------------
  // `copied_files` operations
  // ---------------------------------------------------------------------

  /** `key in copied_files`: key membership for an object, element
      membership for an array, substring test for a string; `None` stands
      for the `TypeError` raised on `null`, booleans and numbers. */
  function InCopied(c: Json, key: string): (r: Option<bool>)
    ensures r.None? <==> (c.JNull? || c.JBool? || c.JNumber?)
    ensures c.JObject? ==> r == Some(key in c.fields)
  {
    match c
    case JObject(m) => Some(key in m)
    case JArray(xs) => Some(JString(key) in xs)
    case JString(s) => Some(Contains(s, key))
    case _ => None
  }

  /** `copied_files[key] = v`: only an object supports item assignment by
      a string key; `None` stands for the `TypeError` anything else raises. */
  function SetCopied(c: Json, key: string, v: Json): (r: Option<Json>)
    ensures r.Some? <==> c.JObject?
    ensures r.Some? ==> r.value.JObject? && r.value.fields.Keys == c.fields.Keys + {key}
    ensures r.Some? ==> r.value.fields[key] == v
    ensures r.Some? ==> forall k :: k in c.fields && k != key ==> r.value.fields[k] == c.fields[k]
  {
    match c
    case JObject(m) => Some(JObject(m[key := v]))
    case _ => None
  }

  /** After a successful assignment the key is present, and membership of
      every other key is as before. */
  lemma SetThenIn(c: Json, key: string, v: Json, other: string)
    requires SetCopied(c, key, v).Some?
    ensures InCopied(SetCopied(c, key, v).value, key) == Some(true)
    ensures other != key ==> InCopied(SetCopied(c, key, v).value, other) == InCopied(c, other)
  {
  }
}
