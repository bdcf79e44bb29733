/** The application's own update check: which GitHub endpoint a channel queries, the
  * once-a-day cache kept in two module globals, the channel setting, and the archive a
  * download fetches. Time is seconds since an epoch; what GitHub answers for a URL is a
  * parameter. */
module SelfUpdater {
  import opened Text
  import opened Json
  import opened Wrappers
  import opened ConfigManager

  const RepoOwner: string := "ShepC260"
  const RepoName: string := "frigate-backup-manager"

  /** `_CHECK_INTERVAL`, one day. */
  const CheckInterval: int := 86400

  const ApiBase: string := "https://api.github.com/repos/" + RepoOwner + "/" + RepoName
  const ReleasesUrl: string := ApiBase + "/releases/latest"
  const DevUrl: string := ApiBase + "/commits/dev"
  const MainUrl: string := ApiBase + "/commits/main"

  /** The branch a channel setting selects: `releases` and `dev` as such, every other value
    * (any other string, or a value that is not a string) falls back to `main`. */
  function EffectiveChannel(channel: Value): (r: string)
    ensures r in {"main", "releases", "dev"}
    ensures channel.Str? && channel.s in {"main", "releases", "dev"} ==> r == channel.s
    ensures r != "main" ==> channel == Str(r)
  {
    if channel == Str("releases") then "releases"
    else if channel == Str("dev") then "dev"
    else "main"
  }

  /** `_get_channel_url(channel)` */
  function ChannelUrl(channel: Value): string {
    if channel == Str("releases") then ReleasesUrl
    else if channel == Str("dev") then DevUrl
    else MainUrl
  }

  /** The endpoint is total and depends only on the effective channel; the three endpoints
    * differ, so each channel queries its own. */
  lemma ChannelUrlCases(channel: Value)
    ensures ChannelUrl(channel) == ChannelUrl(Str(EffectiveChannel(channel)))
    ensures ChannelUrl(channel) == ReleasesUrl <==> EffectiveChannel(channel) == "releases"
    ensures ChannelUrl(channel) == DevUrl <==> EffectiveChannel(channel) == "dev"
    ensures ChannelUrl(channel) == MainUrl <==> EffectiveChannel(channel) == "main"
  {
    assert ReleasesUrl[|ApiBase| + 1] == 'r' && DevUrl[|ApiBase| + 1] == 'c';
    assert DevUrl[|ApiBase| + 9] == 'd' && MainUrl[|ApiBase| + 9] == 'm';
  }

  const ArchiveBase: string := "https://github.com/" + RepoOwner + "/" + RepoName + "/archive/refs/"
  const ReleasesZip: string := ArchiveBase + "tags/latest.zip"
  const DevZip: string := ArchiveBase + "heads/dev.zip"
  const MainZip: string := ArchiveBase + "heads/main.zip"

  /** The archive `download_update()` fetches for a channel setting. */
  function ZipUrl(channel: Value): string {
    if channel == Str("releases") then ReleasesZip
    else if channel == Str("dev") then DevZip
    else MainZip
  }

  /** A download fetches the archive of the same channel the check queries, with the same
    * fall-back to `main`. */
  lemma DownloadFollowsCheck(a: Value, b: Value)
    ensures ZipUrl(a) == ZipUrl(Str(EffectiveChannel(a)))
    ensures ZipUrl(a) == ZipUrl(b) <==> ChannelUrl(a) == ChannelUrl(b)
  {
    ChannelUrlCases(a);
    ChannelUrlCases(b);
    assert ReleasesZip[|ArchiveBase|] == 't' && DevZip[|ArchiveBase|] == 'h';
    assert DevZip[|ArchiveBase| + 6] == 'd' && MainZip[|ArchiveBase| + 6] == 'm';
  }

  /** What GitHub answers for a URL: a JSON object, or the error the request raised
    * (including a non-success status). */
  datatype GitHubAnswer = Body(fields: map<string, Value>) | RequestFailed(err: string)

  /** The dict a check returns. */
  datatype CheckResult =
    | CheckFailed(err: string, channel: Value, checkedAt: int)
    | CheckOk(channel: Value, remote: Value, local: Value, updateAvailable: bool, checkedAt: int)

  /** `_perform_real_update_check()` with the loaded configuration `cfg`. */
  function PerformCheck(cfg: Config, answer: string -> GitHubAnswer, now: int): CheckResult {
    var channel := Get(cfg, "UPDATE_CHANNEL", Str("main"));
    match answer(ChannelUrl(channel))
    case RequestFailed(e) => CheckFailed(e, channel, now)
    case Body(data) =>
      var remote := if channel == Str("releases") then Get(data, "tag_name", Null) else Get(data, "sha", Null);
      var local := Get(cfg, "LOCAL_VERSION", Str("unknown"));
      CheckOk(channel, remote, local, remote != local, now)
  }

  /** A check queries its channel's endpoint, compares the release tag or the commit sha
    * with `LOCAL_VERSION` (default `"unknown"`), and reports an update exactly when they
    * differ. */
  lemma CheckReportsDifference(cfg: Config, answer: string -> GitHubAnswer, now: int)
    ensures var r := PerformCheck(cfg, answer, now);
      && r.channel == Get(cfg, "UPDATE_CHANNEL", Str("main"))
      && (r.CheckOk? <==> answer(ChannelUrl(r.channel)).Body?)
      && (r.CheckOk? ==> (r.updateAvailable <==> r.remote != r.local))
      && (r.CheckOk? && "LOCAL_VERSION" !in cfg ==> r.local == Str("unknown"))
      && (r.CheckOk? ==> r.remote == Get(answer(ChannelUrl(r.channel)).fields,
                                         if EffectiveChannel(r.channel) == "releases" then "tag_name" else "sha", Null))
  {
  }

  /** `(_LAST_UPDATE_CHECK, _CACHED_UPDATE_DATA)` */
  datatype Cache = Cache(last: Option<int>, data: Option<CheckResult>)

  /** Both globals are set and less than a day has passed. */
  predicate CacheHit(c: Cache, now: int) {
    c.last.Some? && c.data.Some? && now - c.last.value < CheckInterval
  }

  /** `get_update_status()`: `check` is what a real check made now would return. */
  function Status(c: Cache, now: int, check: CheckResult): (CheckResult, Cache) {
    if CacheHit(c, now) then (c.data.value, c)
    else (check, Cache(Some(now), Some(check)))
  }

  /** `force_update_check()` */
  function Force(now: int, check: CheckResult): (CheckResult, Cache) {
    (check, Cache(Some(now), Some(check)))
  }

  /** The cache answers without a check exactly within a day of the last one; a miss checks
    * and records the result and the time, failures included. After any call, every call
    * within a day of the recorded time gives the same answer whatever GitHub would say. */
  lemma CacheBehaviour(c: Cache, now: int, check: CheckResult, later: int, check2: CheckResult)
    ensures CacheHit(c, now) ==> Status(c, now, check) == (c.data.value, c)
    ensures !CacheHit(c, now) ==> Status(c, now, check) == (check, Cache(Some(now), Some(check)))
    ensures var (r, c1) := Status(c, now, check);
      && c1.last.Some? && c1.data == Some(r)
      && (later - c1.last.value < CheckInterval ==> Status(c1, later, check2) == (r, c1))
    ensures var (r, c1) := Force(now, check);
      r == check && (later - now < CheckInterval ==> Status(c1, later, check2) == (check, c1))
  {
  }

  /** The two module globals. */
  class UpdateCache {
    var lastCheck: Option<int>
    var cachedData: Option<CheckResult>

    constructor ()
      ensures lastCheck.None? && cachedData.None?
    {
      lastCheck, cachedData := None, None;
    }

    /** `get_update_status()` at time `now`, with the loaded configuration `cfg`. */
    method GetUpdateStatus(now: int, cfg: Config, answer: string -> GitHubAnswer) returns (result: CheckResult)
      modifies this
      ensures (result, Cache(lastCheck, cachedData)) ==
        Status(Cache(old(lastCheck), old(cachedData)), now, PerformCheck(cfg, answer, now))
    {
      if lastCheck.Some? && cachedData.Some? {
        if now - lastCheck.value < CheckInterval {
          return cachedData.value;
        }
      }
      result := PerformCheck(cfg, answer, now);
      lastCheck, cachedData := Some(now), Some(result);
    }

    /** `force_update_check()` */
    method ForceUpdateCheck(now: int, cfg: Config, answer: string -> GitHubAnswer) returns (result: CheckResult)
      modifies this
      ensures (result, Cache(lastCheck, cachedData)) == Force(now, PerformCheck(cfg, answer, now))
    {
      result := PerformCheck(cfg, answer, now);
      lastCheck, cachedData := Some(now), Some(result);
    }
  }

  /** `channel.lower().strip()` */
  function Normalise(channel: string): string {
    Strip(Lower(channel))
  }

  /** Whether `set_update_channel` takes the input. */
  predicate AcceptedChannel(channel: string) {
    Normalise(channel) in {"main", "releases", "dev"}
  }

  /** An accepted setting is stored as one of the three names, so the check and the download
    * use exactly that channel. */
  lemma AcceptedChannelIsUsed(channel: string)
    requires AcceptedChannel(channel)
    ensures EffectiveChannel(Str(Normalise(channel))) == Normalise(channel)
  {
  }

  /** Surrounding blanks and upper case are tolerated. */
  lemma UpperCaseWithBlanksAccepted()
    ensures Normalise(" DEV ") == "dev" && AcceptedChannel(" DEV ")
  {
    LowerDev();
    StripDev();
  }

  lemma LowerDev()
    ensures Lower(" DEV ") == " dev "
  {
  }

  lemma StripDev()
    ensures Strip(" dev ") == "dev"
  {
    var low := " dev ";
    assert !IsSpace('d') && !IsSpace('v') && IsSpace(' ');
    assert low[1..] == "dev ";
    assert TrimStart("dev ") == "dev ";
    assert TrimStart(low) == "dev ";
    assert "dev "[..3] == "dev";
    assert TrimEnd("dev") == "dev";
  }

  /** A name outside the three is refused. */
  lemma UnknownChannelRefused()
    ensures !AcceptedChannel("beta")
  {
    var low := Lower("beta");
    assert low == "beta";
    assert !IsSpace('b') && !IsSpace('a');
    assert TrimStart("beta") == "beta";
    assert TrimEnd("beta") == "beta";
  }

  /** `set_update_channel(channel)`: `loadWriteOk` and `saveWriteOk` are the outcomes of the
    * writes `load_config` and `save_config` make. */
  method SetUpdateChannel(store: ConfigStore, channel: string, loadWriteOk: bool, saveWriteOk: bool)
    returns (ok: bool, message: string)
    modifies store, store.defaults
    ensures ok <==> AcceptedChannel(channel)
    ensures !ok ==> (message == "Invalid channel. Use: main, releases, or dev."
      && store.file == old(store.file) && store.defaults.entries == old(store.defaults.entries))
    ensures ok ==> message == "Update channel set to " + Normalise(channel) + "."
    ensures ok && saveWriteOk ==> (store.file ==
      Holds(Object(LoadedEntries(old(store.file), old(store.defaults.entries))["UPDATE_CHANNEL" := Str(Normalise(channel))])))
    ensures ok && !saveWriteOk ==> store.file == FileAfterLoad(old(store.file), old(store.defaults.entries), loadWriteOk)
    ensures ok && LoadResult(old(store.file), old(store.defaults.entries)).SharedDefaults? ==>
      store.defaults.entries == old(store.defaults.entries)["UPDATE_CHANNEL" := Str(Normalise(channel))]
    ensures ok && LoadResult(old(store.file), old(store.defaults.entries)).Fresh? ==>
      store.defaults.entries == old(store.defaults.entries)
  {
    var c := Normalise(channel);
    if c !in {"main", "releases", "dev"} {
      return false, "Invalid channel. Use: main, releases, or dev.";
    }
    ghost var f0, d0 := store.file, store.defaults.entries;
    var cfg := store.Load(loadWriteOk);
    assert cfg.entries == LoadedEntries(f0, d0);
    cfg.Set("UPDATE_CHANNEL", Str(c));
    assert store.defaults.entries == if cfg == store.defaults then cfg.entries else d0;
    store.Save(cfg.entries, saveWriteOk);
    return true, "Update channel set to " + c + ".";
  }

  /** What `download_update()` reports: the archive URL, and the error when the request or
    * the write failed. */
  datatype DownloadResult = DownloadResult(url: string, error: Option<string>)

  /** `download_update()` with the loaded configuration; `fetch` gives the error text for a
    * URL whose download or write fails, `None` when it is saved. */
  function DownloadUpdate(cfg: Config, fetch: string -> Option<string>): (r: DownloadResult)
    ensures r.url == ZipUrl(Str(EffectiveChannel(Get(cfg, "UPDATE_CHANNEL", Str("main")))))
    ensures r.error == fetch(r.url)
  {
    DownloadFollowsCheck(Get(cfg, "UPDATE_CHANNEL", Str("main")), Null);
    var url := ZipUrl(Get(cfg, "UPDATE_CHANNEL", Str("main")));
    DownloadResult(url, fetch(url))
  }
}
