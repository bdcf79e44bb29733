/** The JSON configuration file, its defaults, and the way a load merges the two. */
module ConfigManager {
  import opened Json

  type Config = map<string, Value>

  /** `DEFAULT_CONFIG` as the module defines it. */
  function DefaultConfig(): (d: Config)
    ensures d.Keys == {"BACKUP_CRON", "SECURITY_UPDATE_CRON", "LOG_ROTATION_CRON",
                       "ENABLE_GDRIVE_SYNC", "GDRIVE_TOKEN_PATH"}
  {
    map[
      "BACKUP_CRON" := Str("0 3 * * *"),
      "SECURITY_UPDATE_CRON" := Str("0 4 * * *"),
      "LOG_ROTATION_CRON" := Str("0 5 * * *"),
      "ENABLE_GDRIVE_SYNC" := Bool(false),
      "GDRIVE_TOKEN_PATH" := Str("/data/drive_token.json")
    ]
  }

  /** `{**defaults, **data}`: every key of either map; the file's value wins. */
  function Merge(defaults: Config, data: Config): (r: Config)
    ensures r.Keys == defaults.Keys + data.Keys
    ensures forall k :: k in data ==> r[k] == data[k]
    ensures forall k :: k in defaults && k !in data ==> r[k] == defaults[k]
  {
    defaults + data
  }

  /** Merging a map into itself, or into what it already overrides, changes nothing. */
  lemma MergeIdempotent(defaults: Config, data: Config)
    ensures Merge(Merge(defaults, data), data) == Merge(defaults, data)
    ensures Merge(defaults, defaults) == defaults
  {
  }

  /** What the config file holds. `Unreadable` covers a missing permission and text that
    * is not JSON; `Holds` is any JSON document. */
  datatype FileState = Absent | Unreadable | Holds(doc: Value)

  /** Where the dict `load_config` returns comes from: the shared `DEFAULT_CONFIG` object,
    * or a new dict with the given entries. */
  datatype LoadSource = SharedDefaults | Fresh(entries: Config)

  /** The answer `load_config` gives for a file state, given the defaults' current entries. */
  function LoadResult(file: FileState, defaults: Config): LoadSource {
    match file
    case Holds(Object(fields)) => Fresh(Merge(defaults, fields))
    case _ => SharedDefaults
  }

  /** The entries of the dict `load_config()` returns for a file and the current defaults. */
  function LoadedEntries(file: FileState, defaults: Config): Config {
    match LoadResult(file, defaults)
    case SharedDefaults => defaults
    case Fresh(e) => e
  }

  /** The file `load_config` leaves: a missing file is created with the defaults (when the
    * write succeeds), any other file is left alone. */
  function FileAfterLoad(file: FileState, defaults: Config, writeOk: bool): FileState {
    if file.Absent? && writeOk then Holds(Object(defaults)) else file
  }

  /** A readable mapping yields every default key, the file's values, and its extra keys. */
  lemma LoadedHasEveryDefault(file: FileState, defaults: Config)
    requires file.Holds? && file.doc.Object?
    ensures LoadResult(file, defaults).Fresh?
    ensures defaults.Keys <= LoadResult(file, defaults).entries.Keys
    ensures file.doc.fields.Keys <= LoadResult(file, defaults).entries.Keys
    ensures forall k :: k in file.doc.fields ==> LoadResult(file, defaults).entries[k] == file.doc.fields[k]
  {
  }

  /** A file that cannot be read, or whose document is not an object, gives the shared
    * defaults and is not rewritten. */
  lemma BadFileFallsBack(file: FileState, defaults: Config, writeOk: bool)
    requires file.Unreadable? || (file.Holds? && !file.doc.Object?)
    ensures LoadResult(file, defaults) == SharedDefaults
    ensures FileAfterLoad(file, defaults, writeOk) == file
  {
  }

  /** After a successful `save_config(d)` the next load gives the defaults overridden by `d`. */
  lemma SaveThenLoad(d: Config, defaults: Config)
    ensures LoadResult(Holds(Object(d)), defaults) == Fresh(Merge(defaults, d))
    ensures defaults.Keys <= LoadResult(Holds(Object(d)), defaults).entries.Keys
  {
  }

  /** A missing file is written with the defaults; the load after that gives equal values. */
  lemma MissingThenLoad(defaults: Config)
    ensures LoadResult(Absent, defaults) == SharedDefaults
    ensures LoadResult(FileAfterLoad(Absent, defaults, true), defaults) == Fresh(defaults)
  {
    MergeIdempotent(defaults, defaults);
  }

  /** A Python dict: callers can change it in place. */
  class Dict {
    var entries: Config

    constructor (entries0: Config)
      ensures entries == entries0
    {
      entries := entries0;
    }

    /** `d[key] = value` */
    method Set(key: string, value: Value)
      modifies this
      ensures entries == old(entries)[key := value]
    {
      entries := entries[key := value];
    }
  }

  /** The config file together with the module-level `DEFAULT_CONFIG` object. */
  class ConfigStore {
    var file: FileState
    const defaults: Dict

    constructor (file0: FileState)
      ensures file == file0 && fresh(defaults) && defaults.entries == DefaultConfig()
    {
      file := file0;
      defaults := new Dict(DefaultConfig());
    }

    /** `save_config(data)`; `writeOk` says whether the file could be written. A failed
      * write is logged, never raised. */
    method Save(data: Config, writeOk: bool)
      modifies this
      ensures file == (if writeOk then Holds(Object(data)) else old(file))
    {
      if writeOk {
        file := Holds(Object(data));
      }
    }

    /** `load_config()`; `writeOk` is the outcome of the write made when the file is missing. */
    method Load(writeOk: bool) returns (cfg: Dict)
      modifies this
      ensures file == FileAfterLoad(old(file), defaults.entries, writeOk)
      ensures LoadResult(old(file), defaults.entries) == SharedDefaults ==> cfg == defaults
      ensures LoadResult(old(file), defaults.entries).Fresh? ==>
        fresh(cfg) && cfg.entries == LoadResult(old(file), defaults.entries).entries
    {
      if file.Absent? {
        Save(defaults.entries, writeOk);
        return defaults;
      }
      match file
      case Holds(Object(fields)) =>
        cfg := new Dict(Merge(defaults.entries, fields));
      case _ =>
        cfg := defaults;
    }
  }

  /** A caller that changes the dict returned for an unreadable file changes the defaults
    * every later load falls back on or merges into. */
  method CallerMutationReachesDefaults(store: ConfigStore, key: string, value: Value)
    requires store.file.Unreadable?
    modifies store, store.defaults
    ensures store.defaults.entries == old(store.defaults.entries)[key := value]
  {
    var cfg := store.Load(true);
    cfg.Set(key, value);
  }
}
