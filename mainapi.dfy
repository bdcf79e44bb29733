/** The web routes that carry logic of their own: the configuration update gate, the
  * friendly cron descriptions, the Drive settings form and the manual backup trigger.
  * A request body is the JSON object's members in order; the file and the defaults object
  * are a `ConfigStore`. */
module MainApi {
  import opened Text
  import opened Json
  import opened Wrappers
  import opened ConfigManager
  import CronUtils
  import GDriveSync
  import Backup
  import Clock

  /** The members of a request object, in order. */
  type Items = seq<(string, Value)>

  /** A Python dict holds each key once. */
  predicate DistinctKeys(data: Items) {
    forall i, j :: 0 <= i < j < |data| ==> data[i].0 != data[j].0
  }

  /** `key.endswith("_CRON")` */
  predicate IsCronKey(k: string) {
    EndsWith(k, "_CRON")
  }

  /** A member the update route refuses. */
  predicate Rejected(item: (string, Value)) {
    IsCronKey(item.0) && !CronUtils.IsValidCron(item.1)
  }

  /** The position of the first refused member, if any. */
  function FirstInvalid(data: Items): (r: Option<nat>)
    ensures r.Some? ==> r.value < |data| && Rejected(data[r.value])
    ensures r.Some? ==> forall j :: 0 <= j < r.value ==> !Rejected(data[j])
    ensures r.None? <==> forall j :: 0 <= j < |data| ==> !Rejected(data[j])
  {
    if data == [] then None
    else if Rejected(data[0]) then Some(0)
    else match FirstInvalid(data[1..])
      case None =>
        assert forall j :: 1 <= j < |data| ==> data[j] == data[1..][j - 1];
        None
      case Some(i) =>
        assert forall j :: 1 <= j <= i ==> data[j] == data[1..][j - 1];
        Some(i + 1)
  }

  /** The loaded config after `cfg[key] = val` for every `_CRON` member of `data`, in order. */
  function Apply(cfg: Config, data: Items): Config {
    if data == [] then cfg
    else
      var c := Apply(cfg, data[..|data| - 1]);
      var item := data[|data| - 1];
      if IsCronKey(item.0) then c[item.0 := item.1] else c
  }

  /** The keys a request writes. */
  function CronKeys(data: Items): set<string> {
    set i | 0 <= i < |data| && IsCronKey(data[i].0) :: data[i].0
  }

  /** A key that does not end in `_CRON` is never written: it is present, and holds its old
    * value, exactly when the loaded config had it. */
  lemma {:induction false} NonCronKeysUntouched(cfg: Config, data: Items)
    ensures forall k :: !IsCronKey(k) ==> (k in Apply(cfg, data) <==> k in cfg)
    ensures forall k :: !IsCronKey(k) && k in cfg ==> Apply(cfg, data)[k] == cfg[k]
  {
    if data != [] {
      NonCronKeysUntouched(cfg, data[..|data| - 1]);
    }
  }

  lemma DistinctInit(data: Items)
    requires DistinctKeys(data) && data != []
    ensures DistinctKeys(data[..|data| - 1])
  {
    var init := data[..|data| - 1];
    forall i, j | 0 <= i < j < |init| ensures init[i].0 != init[j].0 {
      assert init[i] == data[i] && init[j] == data[j];
    }
  }

  lemma CronKeysSnoc(data: Items)
    requires data != []
    ensures var last := data[|data| - 1];
      CronKeys(data) == CronKeys(data[..|data| - 1]) + (if IsCronKey(last.0) then {last.0} else {})
  {
    var init := data[..|data| - 1];
    var last := data[|data| - 1];
    forall k | k in CronKeys(data) ensures k in CronKeys(init) + (if IsCronKey(last.0) then {last.0} else {}) {
      var i :| 0 <= i < |data| && IsCronKey(data[i].0) && data[i].0 == k;
      if i < |init| { assert init[i] == data[i]; }
    }
    forall k | k in CronKeys(init) ensures k in CronKeys(data) {
      var i :| 0 <= i < |init| && IsCronKey(init[i].0) && init[i].0 == k;
      assert data[i] == init[i];
    }
  }

  /** The written config holds the loaded keys and the request's `_CRON` keys; each of those
    * holds its request value, every other key its loaded value. */
  lemma {:induction false} ApplyContents(cfg: Config, data: Items)
    requires DistinctKeys(data)
    ensures Apply(cfg, data).Keys == cfg.Keys + CronKeys(data)
    ensures forall i :: 0 <= i < |data| && IsCronKey(data[i].0) ==> Apply(cfg, data)[data[i].0] == data[i].1
    ensures forall k :: k in cfg && k !in CronKeys(data) ==> Apply(cfg, data)[k] == cfg[k]
  {
    if data != [] {
      var init := data[..|data| - 1];
      var last := data[|data| - 1];
      DistinctInit(data);
      ApplyContents(cfg, init);
      CronKeysSnoc(data);
      forall i | 0 <= i < |data| && IsCronKey(data[i].0)
        ensures Apply(cfg, data)[data[i].0] == data[i].1
      {
        if i < |init| {
          assert init[i] == data[i];
          assert data[i].0 != last.0;
        }
      }
    }
  }

  /** The answer of `api_update_config`: `{"ok": True}`, or `{"ok": False}` with an error
    * naming the refused value. */
  datatype UpdateResponse = UpdateOk | InvalidCron(value: Value)

  /** How far the update loop gets: to the first refused member, or through all of them. */
  function Reached(data: Items): (n: nat)
    ensures n <= |data|
  {
    match FirstInvalid(data)
    case Some(i) => i
    case None => |data|
  }

  /** `api_update_config(data)`: `loadWriteOk` is the outcome of the write `load_config` makes
    * for a missing file, `saveWriteOk` that of `save_config`. `reloaded` says whether
    * `reload_scheduler()` runs. Assignments made before a refused member stay in the loaded
    * dict, which on the fallback paths is the shared defaults object. */
  method ApiUpdateConfig(store: ConfigStore, data: Items, loadWriteOk: bool, saveWriteOk: bool)
    returns (resp: UpdateResponse, reloaded: bool)
    modifies store, store.defaults
    ensures resp == (match FirstInvalid(data) case Some(i) => InvalidCron(data[i].1) case None => UpdateOk)
    ensures reloaded <==> resp.UpdateOk?
    ensures resp.InvalidCron? || !saveWriteOk ==>
      store.file == FileAfterLoad(old(store.file), old(store.defaults.entries), loadWriteOk)
    ensures resp.UpdateOk? && saveWriteOk ==>
      store.file == Holds(Object(Apply(LoadedEntries(old(store.file), old(store.defaults.entries)), data)))
    ensures store.defaults.entries ==
      if LoadResult(old(store.file), old(store.defaults.entries)).SharedDefaults?
      then Apply(old(store.defaults.entries), data[..Reached(data)])
      else old(store.defaults.entries)
  {
    ghost var shared := LoadResult(store.file, store.defaults.entries).SharedDefaults?;
    var cfg := store.Load(loadWriteOk);
    ghost var loaded := cfg.entries;
    ghost var fileAfter := store.file;
    var i := 0;
    while i < |data|
      invariant 0 <= i <= |data|
      invariant cfg.entries == Apply(loaded, data[..i])
      invariant forall j :: 0 <= j < i ==> !Rejected(data[j])
      invariant store.file == fileAfter
      invariant shared ==> cfg == store.defaults
      invariant !shared ==> fresh(cfg) && store.defaults.entries == old(store.defaults.entries)
    {
      var key, val := data[i].0, data[i].1;
      assert data[..i + 1][..i] == data[..i];
      if IsCronKey(key) {
        if !CronUtils.IsValidCron(val) {
          assert FirstInvalid(data) == Some(i);
          return InvalidCron(val), false;
        }
        cfg.Set(key, val);
      }
      i := i + 1;
    }
    assert data[..i] == data;
    store.Save(cfg.entries, saveWriteOk);
    return UpdateOk, true;
  }

  /** After an accepted update whose save succeeded, the next load shows every requested
    * `_CRON` value and every default key, and no other request key. */
  lemma UpdateThenLoad(loaded: Config, data: Items, defaults: Config)
    requires DistinctKeys(data) && FirstInvalid(data).None?
    ensures var next := LoadedEntries(Holds(Object(Apply(loaded, data))), defaults);
      && defaults.Keys <= next.Keys
      && (forall i :: 0 <= i < |data| && IsCronKey(data[i].0) ==> data[i].0 in next)
      && (forall i :: 0 <= i < |data| && IsCronKey(data[i].0) ==> next[data[i].0] == data[i].1)
      && (forall i :: 0 <= i < |data| && IsCronKey(data[i].0) ==> CronUtils.IsValidCron(next[data[i].0]))
      && (forall k :: !IsCronKey(k) && k in next ==> k in loaded || k in defaults)
  {
    ApplyContents(loaded, data);
    NonCronKeysUntouched(loaded, data);
  }

  /** What `describe_cron(v)` is given for a value: the text of a string, and Python's
    * `str()` of anything else (`render`). */
  function Shown(v: Value, render: Value -> string): string {
    if v.Str? then v.s else render(v)
  }

  /** The `friendly` map of `api_get_config()`: `described` is the description library's
    * answer for an expression, `None` when it raises. */
  method Friendly(cfg: Config, render: Value -> string, described: string -> Option<string>)
    returns (friendly: map<string, string>)
    ensures friendly.Keys == set k | k in cfg && IsCronKey(k)
    ensures forall k :: k in friendly ==>
      friendly[k] == CronUtils.DescribeCron(Shown(cfg[k], render), described(Shown(cfg[k], render)))
  {
    friendly := map[];
    var pending := cfg.Keys;
    while pending != {}
      invariant pending <= cfg.Keys
      invariant friendly.Keys == set k | k in cfg.Keys - pending && IsCronKey(k)
      invariant forall k :: k in friendly ==>
        friendly[k] == CronUtils.DescribeCron(Shown(cfg[k], render), described(Shown(cfg[k], render)))
      decreases pending
    {
      var k :| k in pending;
      if IsCronKey(k) {
        var text := Shown(cfg[k], render);
        friendly := friendly[k := CronUtils.DescribeCron(text, described(text))];
      }
      pending := pending - {k};
    }
  }

  /** With the default configuration the friendly map describes the three schedules. */
  lemma DefaultCronKeys()
    ensures (set k | k in DefaultConfig() && IsCronKey(k)) ==
      {"BACKUP_CRON", "SECURITY_UPDATE_CRON", "LOG_ROTATION_CRON"}
  {
    CronKeyNames();
    var keys := {"BACKUP_CRON", "SECURITY_UPDATE_CRON", "LOG_ROTATION_CRON", "ENABLE_GDRIVE_SYNC", "GDRIVE_TOKEN_PATH"};
    assert DefaultConfig().Keys == keys;
  }

  lemma CronKeyNames()
    ensures IsCronKey("BACKUP_CRON") && IsCronKey("SECURITY_UPDATE_CRON") && IsCronKey("LOG_ROTATION_CRON")
    ensures !IsCronKey("ENABLE_GDRIVE_SYNC") && !IsCronKey("GDRIVE_TOKEN_PATH")
  {
    assert "BACKUP_CRON"[6..] == "_CRON";
    assert "SECURITY_UPDATE_CRON"[15..] == "_CRON";
    assert "LOG_ROTATION_CRON"[12..] == "_CRON";
    assert "ENABLE_GDRIVE_SYNC"[17] != 'N';
    assert "GDRIVE_TOKEN_PATH"[16] != 'N';
  }

  /** The answer of `api_gdrive_settings` besides `"ok": True`. */
  datatype SettingsResponse = SettingsResponse(enabled: bool, tokenPath: Value)

  /** The request's settings: `bool(data.get("enabled", False))` and
    * `data.get("token_path", "/data/drive_token.json")`. */
  function RequestedSettings(data: Config): (r: SettingsResponse)
    ensures "enabled" !in data ==> !r.enabled
    ensures "token_path" !in data ==> r.tokenPath == Str(GDriveSync.DefaultTokenPath)
    ensures "enabled" in data ==> (r.enabled <==> Truthy(data["enabled"]))
  {
    SettingsResponse(Truthy(Get(data, "enabled", Bool(false))),
                     Get(data, "token_path", Str(GDriveSync.DefaultTokenPath)))
  }

  /** The loaded config with the two settings written into it. */
  function WithSettings(cfg: Config, s: SettingsResponse): Config {
    cfg["ENABLE_GDRIVE_SYNC" := Bool(s.enabled)]["GDRIVE_TOKEN_PATH" := s.tokenPath]
  }

  /** `api_gdrive_settings(data)`. */
  method ApiGdriveSettings(store: ConfigStore, data: Config, loadWriteOk: bool, saveWriteOk: bool)
    returns (resp: SettingsResponse)
    modifies store, store.defaults
    ensures resp == RequestedSettings(data)
    ensures !saveWriteOk ==> store.file == FileAfterLoad(old(store.file), old(store.defaults.entries), loadWriteOk)
    ensures saveWriteOk ==>
      store.file == Holds(Object(WithSettings(LoadedEntries(old(store.file), old(store.defaults.entries)), resp)))
    ensures store.defaults.entries ==
      if LoadResult(old(store.file), old(store.defaults.entries)).SharedDefaults?
      then WithSettings(old(store.defaults.entries), resp)
      else old(store.defaults.entries)
  {
    var enabled := Truthy(Get(data, "enabled", Bool(false)));
    var tokenPath := Get(data, "token_path", Str(GDriveSync.DefaultTokenPath));
    var cfg := store.Load(loadWriteOk);
    cfg.Set("ENABLE_GDRIVE_SYNC", Bool(enabled));
    cfg.Set("GDRIVE_TOKEN_PATH", tokenPath);
    store.Save(cfg.entries, saveWriteOk);
    resp := SettingsResponse(enabled, tokenPath);
  }

  /** After saving the settings, the next load carries them: the backup job's sync flag
    * follows the form, while the Drive side stays disabled because it reads `GDRIVE_ENABLED`,
    * which neither the form nor the defaults set. */
  lemma SettingsThenLoad(loaded: Config, s: SettingsResponse, defaults: Config)
    requires "GDRIVE_ENABLED" !in loaded && "GDRIVE_ENABLED" !in defaults
    ensures var next := LoadedEntries(Holds(Object(WithSettings(loaded, s))), defaults);
      && next["ENABLE_GDRIVE_SYNC"] == Bool(s.enabled)
      && GDriveSync.TokenPath(next) == s.tokenPath
      && (Backup.SyncRequested(next) <==> s.enabled)
      && !GDriveSync.IsEnabled(next)
  {
  }

  /** `api_run_backup()`: runs the backup and answers `{"ok": True}` whatever it reported. */
  method ApiRunBackup(archives: Backup.ArchiveStore, now: Clock.DateTime, keep: int,
                      env: Backup.BackupEnv, cfg: Config, drive: Backup.DriveEnv)
    returns (ok: bool)
    requires archives.Valid()
    modifies archives
    ensures archives.Valid()
    ensures archives.entries == Backup.AfterRun(old(archives.entries), Backup.ArchiveName(now), keep, env)
    ensures ok
  {
    var _ := archives.RunBackup(now, keep, env, cfg, drive);
    ok := true;
  }
}
