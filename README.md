# Frigate Backup Manager: a verified model of its core

Frigate Backup Manager is a small web application that sits beside a Frigate NVR
installation. It keeps timestamped `.tar.gz` archives of the Frigate configuration
directory and prunes them to a retention count. It can mirror archives to Google Drive
and restore the configuration from a local or a Drive archive. Background jobs run on
cron schedules, and it keeps a rotating log of its own. It also reports system status,
detects hardware to install drivers for, runs OS and container updates, and checks
GitHub for new versions of itself.

This project models the logic of those operations in Dafny and proves what they promise.
Each source file is one module:

- `Backup`, `Restore`, `Scheduler`, `CronUtils`, `GDriveSync` and `Logger`;
- `ConfigManager`, `MainApi`, `SelfUpdater`, `Update`, `Drivers` and `Status`.

Five helper modules cover the Python built-ins the source relies on:

- `Wrappers`: optional values and value-or-error results;
- `Text`: splitting, stripping and prefix and suffix tests on strings;
- `Lex`: Python's code-point string order and `sorted`;
- `Clock`: `datetime` stamps;
- `Json`: JSON values with Python truthiness.

Some state changes in place in the source: the backup directory, the log directory, the
configuration file with its shared defaults dict, the job registry, the update cache and
the Drive token file. Each of these is a class whose methods are proved against pure
specification functions. The remaining code is functions and lemmas.

Every call whose outcome comes from outside the program is a parameter of the model:

- the file system's answers (does a file exist, did a write or removal fail);
- shell commands (their output and exit code, or the exception they raise);
- Google Drive and GitHub answers;
- the cron parser and the cron description library;
- the clock.

## Model

| member | source | states |
|---|---|---|
| Backup.Archives | app/backup.py:21 | an entry is kept exactly when it is in the directory and ends in `.tar.gz` |
| Backup.ListingProps | app/backup.py:18-23 | the listing is ascending and repetition-free, and holds exactly the directory's `.tar.gz` entries (same multiset as the filtered directory) |
| Backup.ListingWithout | app/backup.py:18-23 | removing names from the directory removes exactly them from the listing and keeps the order of the rest |
| Backup.Victims | app/backup.py:29-31 | the names to delete are a prefix of the sorted listing; none when there are at most `BACKUP_RETENTION`, otherwise exactly all but `BACKUP_RETENTION` of them (all when the retention is 0 or less) |
| Backup.RotationLog | app/backup.py:32-38 | one message per victim, in order: "Removed old backup: name" on success, "Failed to remove name: error" on failure |
| Backup.RotationBelowRetention | app/backup.py:28-30 | with at most `BACKUP_RETENTION` archives the directory is untouched and nothing is logged |
| Backup.RotationIsolatesFailures | app/backup.py:32-38 | a name survives rotation exactly when it was no victim or its removal failed; a failed removal does not stop the others |
| Backup.RotationKeepsNewest | app/backup.py:26-38 | without removal failures the remaining listing is the suffix of the old listing after the victims, of length min(count, retention) |
| Backup.RotationSurvivorsAreLargest | app/backup.py:31 | every surviving archive name is lexicographically larger than every deleted one |
| Backup.ArchiveName | app/backup.py:44-45 | the archive name starts with `frigate_config_` and ends with `.tar.gz` |
| Backup.ArchiveNameOrder | app/backup.py:44-45 | for valid times, name order is chronological order, and two names are equal exactly when the times are |
| Backup.UploadOnlyAfterSuccess | app/backup.py:47-69 | the run reports a finished backup exactly when the create-and-rotate block succeeded; an upload is attempted exactly when that block succeeded and `ENABLE_GDRIVE_SYNC` is truthy |
| Backup.SyncFlagMismatch | app/backup.py:63-69 | with the default configuration no upload is attempted; with the sync flag switched on the upload is attempted but refused, because the Drive side reads `GDRIVE_ENABLED` |
| Backup.FailureCleansUp | app/backup.py:54-61 | after a failure in the block, with a working cleanup, the directory is the old one without the archive's name |
| Backup.BackupRetention | app/backup.py:41-53 | after a successful run with retention at least 1, no removal failures and a new name larger than every other archive, at most `BACKUP_RETENTION` archives remain and the new one is among them |
| Backup.BackupRetentionChronological | app/backup.py:41-53 | the same promise when every archive in the directory was named by this application at an earlier time |
| Backup.NonPositiveRetentionDeletesAll | app/backup.py:29-31 | a retention of 0 or less deletes every archive, the new one included, and a requested upload then finds no file |
| Backup.ArchiveStore.RotateBackups | app/backup.py:26-38 | the loop leaves the directory as the rotation specification says and returns its log |
| Backup.ArchiveStore.RunBackup | app/backup.py:41-69 | the directory and the reported outcome are those of the run specification |
| Clock.DigitsOrder | app/backup.py:44 | zero-padded fixed-width numbers compare as strings the way they compare as numbers |
| Clock.StampOrder | app/backup.py:44 | `%Y-%m-%d_%H-%M-%S` stamps of valid times compare like the times, before any common tail |
| ConfigManager.DefaultConfig | app/config_manager.py:7-13 | the five default keys with their values |
| ConfigManager.Merge | app/config_manager.py:26 | the merged keys are those of both maps; the file's value wins, and every other key keeps its default |
| ConfigManager.MergeIdempotent | app/config_manager.py:26 | merging the same data twice changes nothing, nor does merging the defaults into themselves |
| ConfigManager.LoadedHasEveryDefault | app/config_manager.py:22-26 | a readable mapping gives a fresh dict with every default key, the file's keys and the file's values |
| ConfigManager.BadFileFallsBack | app/config_manager.py:27-29 | an unreadable or non-object file gives the shared defaults object and is not rewritten |
| ConfigManager.SaveThenLoad | app/config_manager.py:32-37 | after a successful save of `d`, the next load is the defaults overridden by `d` |
| ConfigManager.MissingThenLoad | app/config_manager.py:19-21 | a missing file gives the shared defaults and is written with them; the load after that gives equal values |
| ConfigManager.Dict.Set | app/main.py:53 | `d[key] = value` changes only that key |
| ConfigManager.ConfigStore.Save | app/config_manager.py:32-40 | the file holds the data after a successful write and is unchanged after a failed one, which does not raise |
| ConfigManager.ConfigStore.Load | app/config_manager.py:16-29 | the file state afterwards, and which dict is returned: the shared defaults object itself, or a fresh merged dict |
| ConfigManager.CallerMutationReachesDefaults | app/config_manager.py:27-29 | a caller that writes into the dict loaded from an unreadable file changes the module's defaults |
| CronUtils.WhitespaceInsensitive | app/cron_utils.py:7-8 | whitespace before and after the expression does not change the verdict |
| CronUtils.RunsCollapse | app/cron_utils.py:7-8 | any run of whitespace between fields counts as one space |
| CronUtils.AnyFiveWords | app/cron_utils.py:7-8 | words joined by spaces pass exactly when there are five of them, whatever they contain |
| CronUtils.FiveLettersPass | app/cron_utils.py:7-8 | "a b c d e" passes |
| CronUtils.ThreeStarsFail | app/cron_utils.py:8 | "* * *" fails |
| CronUtils.DefaultsPass | app/config_manager.py:8-10 | the three default schedules pass the check |
| CronUtils.DescribeCron | app/cron_utils.py:13-19 | the library's description when it gives one, otherwise "Cron: " followed by the expression |
| Drivers.Detect | app/drivers.py:12-22 | Coral is detected exactly when the device listing ran and its stripped output is non-empty |
| Drivers.DetectionMonotone | app/drivers.py:25-48 | each GPU flag is a substring test, so more `lspci` text around the old text never clears a flag |
| Drivers.LowerCaseVendorMissed | app/drivers.py:38 | the tests are case-sensitive: "nvidia" is not detected as NVIDIA |
| Drivers.InstallCoral | app/drivers.py:61-97 | true exactly when the download exits 0, the `chmod` succeeds and the installer exits 0; every exception gives false |
| Drivers.SucceededMembers | app/drivers.py:118-124 | a group installs exactly its packages whose install command exits 0, at most all of them |
| Drivers.InstalledExactly | app/drivers.py:105-150 | the Coral label is listed exactly when Coral was detected and its installer succeeded; a package is listed exactly when its group was detected and its install succeeded |
| Drivers.NothingDetected | app/drivers.py:152-156 | with nothing detected nothing is installed |
| Drivers.InstallGroup | app/drivers.py:118-124 | the loop appends the succeeding packages of the group, in order |
| Drivers.InstallDrivers | app/drivers.py:100-156 | `installed` is the coral label, then the Intel, NVIDIA and AMD packages that succeeded, in that order; `ok` is true exactly when that list is non-empty |
| GDriveSync.TokenPath | app/gdrive_sync.py:14-16 | the configured token path, or `/data/drive_token.json` when none is set |
| GDriveSync.SyncFlagDoesNotEnable | app/gdrive_sync.py:19-21 | enablement reads only `GDRIVE_ENABLED`, so setting `ENABLE_GDRIVE_SYNC` never enables Drive |
| GDriveSync.DriveStatusPriority | app/gdrive_sync.py:37-82 | the outcomes go disabled, token missing, then connected or error; a disabled mirror reports whether the token file exists and never asks Drive; an enabled one counts as configured only when the account query answered |
| GDriveSync.UploadGuards | app/gdrive_sync.py:85-117 | disabled, or no archive at the path, means no request and false; true exactly when enabled, the archive and token exist and the create succeeded |
| GDriveSync.PresenceContents | app/gdrive_sync.py:151-168 | on success the keys are exactly the names, each mapped to whether Drive has an untrashed file of that name; a per-name HTTP error maps that name to false |
| GDriveSync.PresenceFails | app/gdrive_sync.py:169-171 | any other exception for any name discards the whole map |
| GDriveSync.ListDriveBackups | app/gdrive_sync.py:136-171 | `{}` when disabled, without a token file or without a service; otherwise the loop's map is the presence map, or `{}` |
| GDriveSync.TokenFile.SaveTokenJson | app/gdrive_sync.py:120-133 | on a successful write the file holds the stripped token text and the answer is true; a failed write answers false and changes nothing |
| Logger.Utf8SizeConcat | app/logger.py:19 | sizes of UTF-8 text add up, and each character takes one to four bytes |
| Logger.NoRotationBelowLimit | app/logger.py:16-21 | with the log absent or below 512 KiB the directory is unchanged |
| Logger.RotationShifts | app/logger.py:23-33 | after a rotation the live log is gone, `.1` holds its text, and for 1 ≤ k < 5 slot `.k+1` holds what `.k` held, absence included |
| Logger.RotationLosesOnlyLast | app/logger.py:24-33 | every text except the old `.5` survives in some slot, and no slot above `.5` is created or changed |
| Logger.PartialStep | app/logger.py:24-31 | one pass of the descending loop moves slot `i` to `i+1` (the removal at `i == 5`), taking the partial directory at `i` to the one at `i-1` |
| Logger.FormatParse | app/logger.py:40 | a log line parses back into its stamp, component and message when the first two hold no `]` |
| Logger.LogStampParses | app/logger.py:39-40 | every line `write_log` writes parses back, because its `%Y-%m-%d %H:%M:%S` stamp holds no `]` |
| Logger.LogDir.RotateIfNeeded | app/logger.py:14-33 | the loop leaves the directory as the rotation specification says |
| Logger.LogDir.WriteLog | app/logger.py:36-42 | the directory is rotated, then the live log gets one formatted line appended |
| Logger.AppendKeepsContent | app/logger.py:38-42 | below the limit, a write keeps the live log's text as a prefix and adds exactly one line |
| Logger.AppendAfterRotation | app/logger.py:38-42 | after a rotation the live log holds only the new line |
| MainApi.FirstInvalid | app/main.py:49-52 | the position of the first `_CRON` member that fails the check, with every earlier one passing; none exactly when every one passes |
| MainApi.NonCronKeysUntouched | app/main.py:49-53 | a key not ending in `_CRON` is present, and holds its loaded value, exactly as before |
| MainApi.ApplyContents | app/main.py:49-53 | the written config holds the loaded keys and the request's `_CRON` keys, each `_CRON` key with its request value and every other key with its loaded value |
| MainApi.ApiUpdateConfig | app/main.py:46-56 | the answer names the first refused value, and then nothing is saved and the scheduler is not reloaded; otherwise the saved file is the loaded config with the request applied, followed by one reload |
| MainApi.UpdateThenLoad | app/main.py:46-56 | after an accepted update the next load shows every default key and every requested `_CRON` value, and each of those values passes the check |
| MainApi.Friendly | app/main.py:39-42 | the friendly map has exactly the config's `_CRON` keys, each mapped to the description of its value |
| MainApi.DefaultCronKeys | app/main.py:39-42 | for the default configuration those are the three schedules |
| MainApi.RequestedSettings | app/main.py:154-155 | `enabled` is false when absent and the truth of the value otherwise; the token path defaults to `/data/drive_token.json` |
| MainApi.ApiGdriveSettings | app/main.py:152-160 | the answer echoes the requested settings, and the saved file is the loaded config with the two keys written |
| MainApi.SettingsThenLoad | app/main.py:152-160 | after saving, the backup's sync flag follows the form, while Drive stays disabled because it reads `GDRIVE_ENABLED` |
| MainApi.ApiRunBackup | app/main.py:62-65 | the backup runs and the answer is ok whatever it reported |
| Restore.LocalListingIsReversed | app/restore.py:14-19 | the restore page lists exactly the `.tar.gz` entries, newest name first: the reverse of the backup listing |
| Restore.SortByTimeProps | app/restore.py:34 | the Drive listing is ordered by modification time, newest first, and loses no file |
| Restore.ListBackupsDispatch | app/restore.py:41-45 | Drive is consulted only for exactly `"gdrive"`, and the local directory for every other source |
| Restore.RestoreLocal | app/restore.py:48-62 | extraction is attempted exactly when the archive exists |
| Restore.RestoreLocalOutcomes | app/restore.py:48-62 | a missing archive gives "Backup file not found."; success exactly when extraction raised nothing, naming the archive; otherwise the error's text |
| Restore.DriveRestoreOutcomes | app/restore.py:65-97 | no credentials, then no match, then the first match is downloaded; success exactly when the download finished and extraction raised nothing; the temporary file is left behind exactly on a failure after it was created |
| Restore.TempFiles.RestoreFromDrive | app/restore.py:65-97 | the chunk loop runs until the first finished or failed chunk; the answer and the temporary files left are those of the specification |
| Scheduler.AddJobRegisters | app/scheduler.py:15-24 | a parseable cron for a name that is not stale leaves one job with id `name` in both maps and every other id unchanged |
| Scheduler.AddJobUnparseable | app/scheduler.py:18-26 | an unparseable cron for a registered name takes it out of the scheduler but leaves the stale `jobs` entry |
| Scheduler.AddJobUnparseableUnknown | app/scheduler.py:18-26 | an unparseable cron for a name `jobs` does not hold removes nothing: the registry is unchanged, even when the scheduler holds a job with that id |
| Scheduler.InitRegistersThree | app/scheduler.py:29-38 | from a fresh registry with three parseable crons, exactly `backup`, `security_updates` and `log_rotation` are registered with their configured crons |
| Scheduler.InitStartsAtMostOnce | app/scheduler.py:36-38 | after init the scheduler runs; it was started only if it was not running, so a second init starts nothing |
| Scheduler.StaleSurvivesAddJob | app/scheduler.py:18-26 | a stale name stays stale through any `add_job` |
| Scheduler.StaleSurvivesReload | app/scheduler.py:41-50 | a stale name stays stale through init and reload, so it is never registered again |
| Scheduler.ReloadIdempotent | app/scheduler.py:41-50 | reloading twice with the same configuration gives the registry one reload gives |
| Scheduler.Registry.AddJob | app/scheduler.py:15-26 | the registry after the call is the `add_job` specification of the old one, and every job keeps its own name as id |
| Scheduler.Registry.InitScheduler | app/scheduler.py:29-38 | the registry after the call is the init specification of the old one |
| Scheduler.Registry.ReloadScheduler | app/scheduler.py:41-50 | the removal loop and the init leave the registry as the reload specification says |
| Scheduler.Registry.GetNextRunTimes | app/scheduler.py:53-62 | exactly one entry per key of `jobs`, each built from that job |
| Scheduler.NextRunEntryShape | app/scheduler.py:57-60 | an entry shows a 19-character stamp or the placeholder, and "Cron: " with the job's cron when no description is available |
| SelfUpdater.EffectiveChannel | app/self_updater.py:25-30 | the channel a setting selects is one of the three names; `releases` and `dev` are taken as such and everything else falls back to `main` |
| SelfUpdater.ChannelUrlCases | app/self_updater.py:18-30 | the endpoint depends only on the effective channel, and each channel has its own endpoint |
| SelfUpdater.CheckReportsDifference | app/self_updater.py:33-75 | the check queries its channel's endpoint; it succeeds exactly when GitHub answers; the local version defaults to "unknown"; an update is reported exactly when the tag or sha differs from it |
| SelfUpdater.CacheBehaviour | app/self_updater.py:78-114 | a cached answer is served exactly within a day of the last check; otherwise a check is made and recorded, failures included; after any call, calls within a day give the same answer |
| SelfUpdater.UpdateCache.GetUpdateStatus | app/self_updater.py:78-98 | the answer and the two globals afterwards are those of the cache specification |
| SelfUpdater.UpdateCache.ForceUpdateCheck | app/self_updater.py:101-114 | always checks, and replaces both globals |
| SelfUpdater.AcceptedChannelIsUsed | app/self_updater.py:123-128 | an accepted setting is stored as one of the three names, so the check uses exactly that channel |
| SelfUpdater.UpperCaseWithBlanksAccepted | app/self_updater.py:123-124 | " DEV " is accepted as `dev` |
| SelfUpdater.UnknownChannelRefused | app/self_updater.py:124-125 | "beta" is refused |
| SelfUpdater.SetUpdateChannel | app/self_updater.py:122-132 | accepted exactly when the lowered, stripped input is one of the three; a refusal saves nothing; an acceptance stores the normalised name and answers with it |
| SelfUpdater.DownloadFollowsCheck | app/self_updater.py:142-147 | the download fetches the archive of the same effective channel the check queries |
| SelfUpdater.DownloadUpdate | app/self_updater.py:135-167 | the archive URL of the configured channel, and the error when fetching or writing it fails |
| Status.OsVersion | app/status.py:7-13 | the stripped description holds no double quote; if the command raises, the platform string |
| Status.OsVersionKeepsText | app/status.py:11 | only the double quotes are removed |
| Status.FrigateVersionCases | app/status.py:16-25 | empty output is "Not running"; with a colon, the text after the last colon; otherwise the stripped image, so whitespace-only output gives "" |
| Status.TagOfTagged | app/status.py:23-24 | the version of `name:tag` is the tag, whatever colons the name has |
| Status.RegistryPortShown | app/status.py:23-24 | an untagged reference through a registry with a port shows the port and path as its version |
| Status.CoralStatus | app/status.py:30-38 | one of the three answers; "Unknown" exactly when the listing raised |
| Status.CoralAgreesWithDrivers | app/status.py:33-36 | the status page reports a Coral exactly when driver detection finds one in the same output |
| Status.SummaryShape | app/status.py:41-66 | the summary always carries the stamp and the three fields; when the OS lookup's fallback raises too, all three are "Unknown" |
| Update.RunCommand | app/update.py:6-12 | an exception becomes `("", message, 1)`; otherwise the exit code is the process's |
| Update.RunCommandShape | app/update.py:10 | exit code 0 means the command ran and exited 0; returned output has no surrounding whitespace |
| Update.CheckForUpdates | app/update.py:15-29 | the answer is the parse specification of `apt-get -s upgrade`: false on a non-zero exit, otherwise the package list |
| Update.ParseUpgrade | app/update.py:23-27 | the line loop gives the package list of the parse specification |
| Update.InstLineNamesPackage | app/update.py:25-26 | the second word of an `Inst` line is the package it names |
| Update.InstPackagesStep | app/update.py:24-27 | an `Inst` line appends its package and any other line adds nothing |
| Update.SecurityChain | app/update.py:32-47 | true exactly when both commands exit 0; the upgrade runs only after the package lists were updated |
| Update.FullChain | app/update.py:50-59 | true exactly when its one command exits 0 |
| Update.FrigateChain | app/update.py:62-85 | true exactly when the lookup exits 0 with output, the pull of that image exits 0 and the restart exits 0 |
| Update.FrigateSteps | app/update.py:62-85 | the steps run in order, lookup then pull then restart, and the pull runs exactly when the lookup found an image |
| Update.FrigateStops | app/update.py:73-85 | a chain cut short failed, and a pull that ran last had failed |

## Left out

- Input and output are parameters: the directory listings, file existence and file contents the source reads, the outcomes of the writes and removals named in the contracts, shell commands, `subprocess`, Google Drive, GitHub, `tarfile`, the cron parser of the background scheduler, `cron_descriptor` and the clock. Archive contents, extraction and the tar/gzip format are not modelled.
- Logger.LogDir.WriteLog: the directory creation of `_ensure_log_dir`, the removals and renames of the rotation and the append of `app/logger.py:24-42` are assumed to succeed. In the source an `OSError` there propagates into the caller, and `run_backup`, `restore_local` and `add_job` call `write_log` inside their `try` blocks, so a failing log write would send them into their failure branches. Their models assume it does not.
- Backup.ArchiveStore.RunBackup: `os.makedirs` of the backup directory (`app/backup.py:15`, in `ensure_backup_dir`, called at `app/backup.py:43`) is assumed to succeed. In the source it runs outside the `try`, so a failure raises out of `run_backup`.
- MainApi.ApiRunBackup: the same directory creation is assumed to succeed, so the route always answers ok. In the source an exception there would fail the request.
- ConfigManager.ConfigStore.Load: `os.makedirs` of the configuration directory (`app/config_manager.py:18`) is assumed to succeed. A failure raises out of `load_config` in the source.
- ConfigManager.ConfigStore.Save: `os.makedirs` before the write (`app/config_manager.py:34`) is assumed to succeed. A failure raises out of `save_config` in the source, instead of being logged like a failed write.
- GDriveSync.TokenFile.SaveTokenJson: `os.makedirs` before the write (`app/gdrive_sync.py:125`) is assumed to succeed. A failure raises in the source instead of answering false.
- SelfUpdater.DownloadUpdate: `os.makedirs("/data/updates")` (`app/self_updater.py:149`) is assumed to succeed.
- Restore.TempFiles.RestoreFromDrive: `os.unlink` of the temporary file (`app/restore.py:92`) is assumed to succeed. In the source a failure there, after a good extraction, answers ok false.
- The text of log messages is not modelled except for rotation messages and the log line format. `Backup.ArchiveStore.RunBackup` does not model its log messages.
- Concurrency is not modelled. The background scheduler runs jobs on its own thread; the registry is modelled as sequential state.
- The JavaScript front end and its floating-point size formatting are not part of this model. Neither are `app/updater.py` (one subprocess wrapper) and `app/driver_installer.py` (a stub that returns false).
- The HTTP routes of `app/main.py` beyond the four modelled ones are plumbing. Several of them call names that do not exist.
- `app/restore.py:7` and `app/scheduler.py:7` import names that do not exist. The functions are modelled as written, not the import graph.
- Clock: `Valid()` restricts years to four digits. Years before 1000 are printed by `strftime` without padding, and then name order is not chronological order.
- Text: `lower()` is modelled for ASCII letters only.
- JSON encoding and decoding are not modelled. A file is a parsed document, an unparseable file, or no file. `str()` of a non-string value is a parameter (`render`).
- Json.Value: a JSON number with a fraction or an exponent is a `Float` holding an exact real, so `bool(0.0)` is false as in Python. Binary floating-point rounding, NaN and the infinities are not modelled.
- Each Drive function in `app/gdrive_sync.py` reloads the configuration several times. The model reads one configuration per call.
- A partial write of the configuration or token file is not modelled: a write either succeeds or fails and leaves the old state.
- Scheduler.InitSpec, Scheduler.Registry.InitScheduler, Scheduler.Registry.ReloadScheduler: a configuration that lacks one of the three cron keys raises `KeyError` in the source. Here that is a precondition.
- Scheduler.NextRunEntryShape: `get_next_run_times` passes the job's `CronTrigger` object to `describe_cron` (`app/scheduler.py:60`). When the description library fails, the fallback of `app/cron_utils.py:19` formats that object. The model passes the job's crontab text instead, so `Scheduler.NextRunEntry` falls back to `"Cron: "` followed by that text, not the trigger's own text form.
- Restore.SortByTimeProps: the Drive listing's order among files with the same modification time is not proved stable. A Drive file without `modifiedTime` raises in the sort; that case is not modelled.
- Restore.TempFiles.RestoreFromDrive: the chunk answers must contain a final (done or failed) answer. A download that never finishes is not modelled.
- MainApi.ApiUpdateConfig: the reload of the scheduler is reported as the `reloaded` flag and is not performed on a registry.
- SelfUpdater.DownloadUpdate: the destination file name (`update_<channel>_<stamp>.zip`) is not modelled.
- SelfUpdater.PerformCheck: a GitHub body that is not JSON raises in the source and is not modelled. `checked_at` is modelled as the time of the call, in seconds.
- Drivers.InstallDrivers: the result of the `apt-get update` each group runs first is ignored by the source, so it is not modelled.
- Drivers.InstallCoral: the `chmod` outcome is a flag.
- Status.OsVersion: `subprocess.getoutput` returns output for a failing command instead of raising. An exception is modelled by `None`, whatever its cause.
