/** The optional Google Drive mirror: whether it is switched on, what the settings page
  * shows about it, the upload guards, and which local archives also exist on Drive.
  * Each operation reads the configuration once (`cfg`); whether the token file exists and
  * what Drive answers are parameters. */
module GDriveSync {
  import opened Json
  import opened Text
  import opened Wrappers

  type Config = map<string, Value>

  const DefaultTokenPath: string := "/data/drive_token.json"

  /** `_get_token_path()`: the configured token path, defaulting to `/data/drive_token.json`. */
  function TokenPath(cfg: Config): (p: Value)
    ensures "GDRIVE_TOKEN_PATH" !in cfg ==> p == Str(DefaultTokenPath)
  {
    Get(cfg, "GDRIVE_TOKEN_PATH", Str(DefaultTokenPath))
  }

  /** `_is_enabled()`: the truth of the `GDRIVE_ENABLED` key. Note that it is not the key
    * `ENABLE_GDRIVE_SYNC` that the defaults, the settings route and the backup job use. */
  predicate IsEnabled(cfg: Config) {
    Truthy(Get(cfg, "GDRIVE_ENABLED", Bool(false)))
  }

  /** Switching the sync on through `ENABLE_GDRIVE_SYNC` never enables the Drive side:
    * only `GDRIVE_ENABLED` counts, and it is absent from the defaults. */
  lemma SyncFlagDoesNotEnable(cfg: Config, v: Value)
    requires "GDRIVE_ENABLED" !in cfg
    ensures !IsEnabled(cfg[ "ENABLE_GDRIVE_SYNC" := v])
  {
  }

  /** The answer of the account query `about().get(...)`: the `emailAddress` found (or null),
    * or the error it raised. Building the Drive service is part of the query. */
  datatype AccountAnswer = Account(email: Value) | AccountError(err: string)

  /** The dict `get_drive_status()` returns. */
  datatype DriveStatus = DriveStatus(enabled: bool, configured: bool, email: Value,
                                     tokenPath: Value, message: string)

  /** `get_drive_status()`: disabled, then token missing, then connected or error. */
  function GetDriveStatus(cfg: Config, tokenExists: bool, answer: AccountAnswer): DriveStatus {
    var path := TokenPath(cfg);
    if !IsEnabled(cfg) then DriveStatus(false, tokenExists, Null, path, "Google Drive disabled")
    else if !tokenExists then DriveStatus(true, false, Null, path, "Token file missing")
    else match answer
      case Account(email) => DriveStatus(true, true, email, path, "Connected")
      case AccountError(e) => DriveStatus(true, false, Null, path, "Error: " + e)
  }

  /** The outcomes are tried in priority order: a disabled mirror never looks at Drive, an
    * enabled one without a token never queries it; "configured" means the token file
    * exists when disabled, and a successful query when enabled. */
  lemma DriveStatusPriority(cfg: Config, tokenExists: bool, answer: AccountAnswer, other: AccountAnswer)
    ensures GetDriveStatus(cfg, tokenExists, answer).enabled == IsEnabled(cfg)
    ensures !IsEnabled(cfg) ==>
      GetDriveStatus(cfg, tokenExists, answer) == GetDriveStatus(cfg, tokenExists, other)
      && GetDriveStatus(cfg, tokenExists, answer).message == "Google Drive disabled"
    ensures IsEnabled(cfg) && !tokenExists ==>
      GetDriveStatus(cfg, tokenExists, answer) == GetDriveStatus(cfg, tokenExists, other)
      && GetDriveStatus(cfg, tokenExists, answer).message == "Token file missing"
    ensures GetDriveStatus(cfg, tokenExists, answer).configured <==>
      (if IsEnabled(cfg) then tokenExists && answer.Account? else tokenExists)
    ensures GetDriveStatus(cfg, tokenExists, answer).email != Null ==> IsEnabled(cfg) && answer.Account?
  {
  }

  /** What `upload_backup_to_drive(path)` did: whether it asked Drive, and what it returned. */
  datatype UploadResult = UploadResult(contacted: bool, ok: bool)

  /** `upload_backup_to_drive(path)`; `createOk` is whether building the service and the
    * `files().create` request both succeeded. Every failure becomes `False`. */
  function Upload(cfg: Config, pathExists: bool, tokenExists: bool, createOk: bool): UploadResult {
    if !IsEnabled(cfg) || !pathExists then UploadResult(false, false)
    else if !tokenExists then UploadResult(false, false)
    else UploadResult(true, createOk)
  }

  /** The guards: disabled or no archive means no request and `False`; `True` only after a
    * successful create. */
  lemma UploadGuards(cfg: Config, pathExists: bool, tokenExists: bool, createOk: bool)
    ensures !IsEnabled(cfg) || !pathExists ==> !Upload(cfg, pathExists, tokenExists, createOk).contacted
    ensures Upload(cfg, pathExists, tokenExists, createOk).ok <==>
      IsEnabled(cfg) && pathExists && tokenExists && createOk
    ensures Upload(cfg, pathExists, tokenExists, createOk).ok ==>
      Upload(cfg, pathExists, tokenExists, createOk).contacted
  {
  }

  /** The answer to one exact-name query: the number of untrashed files found, an
    * `HttpError`, or any other exception. */
  datatype QueryAnswer = Found(count: nat) | HttpFailure(err: string) | OtherFailure(err: string)

  /** The presence map for `names`, or `None` once a query raises something other than
    * `HttpError`. */
  function Presence(names: seq<string>, answer: string -> QueryAnswer): Option<map<string, bool>> {
    if names == [] then Some(map[])
    else
      match Presence(names[..|names| - 1], answer)
      case None => None
      case Some(m) =>
        var n := names[|names| - 1];
        match answer(n)
        case Found(c) => Some(m[n := c > 0])
        case HttpFailure(_) => Some(m[n := false])
        case OtherFailure(_) => None
  }

  /** On success the keys are exactly the names, each mapped to whether Drive has a file
    * of that name; an `HttpError` marks just its own name absent. */
  lemma {:induction false} PresenceContents(names: seq<string>, answer: string -> QueryAnswer)
    requires Presence(names, answer).Some?
    ensures Presence(names, answer).value.Keys == set n | n in names
    ensures forall n :: n in names ==>
      Presence(names, answer).value[n] == (answer(n).Found? && answer(n).count > 0)
    ensures forall n :: n in names ==> !answer(n).OtherFailure?
  {
    if names != [] {
      var init := names[..|names| - 1];
      PresenceContents(init, answer);
      assert forall n :: n in names <==> n in init || n == names[|names| - 1];
    }
  }

  /** The map is abandoned as soon as any name meets another exception. */
  lemma {:induction false} PresenceFails(names: seq<string>, answer: string -> QueryAnswer, i: nat)
    requires i < |names| && answer(names[i]).OtherFailure?
    ensures Presence(names, answer).None?
  {
    if i < |names| - 1 {
      PresenceFails(names[..|names| - 1], answer, i);
    }
  }

  /** `list_drive_backups(local_filenames)`; `serviceOk` is whether the Drive service could be
    * built from the token. Disabled, tokenless and failed runs give `{}`. */
  method ListDriveBackups(cfg: Config, tokenExists: bool, serviceOk: bool,
                          names: seq<string>, answer: string -> QueryAnswer)
    returns (result: map<string, bool>)
    ensures !IsEnabled(cfg) || !tokenExists || !serviceOk ==> result == map[]
    ensures IsEnabled(cfg) && tokenExists && serviceOk ==>
      result == (match Presence(names, answer) case Some(m) => m case None => map[])
  {
    if !IsEnabled(cfg) || !tokenExists || !serviceOk {
      return map[];
    }
    result := map[];
    var i := 0;
    while i < |names|
      invariant 0 <= i <= |names|
      invariant Presence(names[..i], answer) == Some(result)
    {
      var name := names[i];
      assert names[..i + 1][..i] == names[..i];
      match answer(name) {
        case Found(c) =>
          result := result[name := c > 0];
        case HttpFailure(_) =>
          result := result[name := false];
        case OtherFailure(_) =>
          PresenceFails(names, answer, i);
          return map[];
      }
      i := i + 1;
    }
    assert names[..i] == names;
  }

  /** The token file the settings page writes. */
  class TokenFile {
    var text: Option<string>

    constructor (text0: Option<string>)
      ensures text == text0
    {
      text := text0;
    }

    /** `save_token_json(token_json)`: writes the stripped text; `writeOk` is whether the
      * write succeeded. A failure returns `False` and leaves the file as it was. */
    method SaveTokenJson(token: string, writeOk: bool) returns (ok: bool)
      modifies this
      ensures ok == writeOk
      ensures ok ==> text == Some(Strip(token))
      ensures !ok ==> text == old(text)
    {
      if writeOk {
        text := Some(Strip(token));
      }
      return writeOk;
    }
  }
}
