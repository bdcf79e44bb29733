/** Configuration backups: timestamped `.tar.gz` archives in the backup directory, kept to
  * the newest `BACKUP_RETENTION`, optionally mirrored to Google Drive. The directory is the
  * sequence of its entry names (`os.listdir`), which never repeats a name. */
module Backup {
  import opened Text
  import opened Lex
  import opened Clock
  import opened Json
  import opened Wrappers
  import GDriveSync
  import ConfigManager

  /** `BACKUP_RETENTION` when the environment does not set it. */
  const DefaultRetention: int := 10
  const Prefix: string := "frigate_config_"
  const Suffix: string := ".tar.gz"

  /** The entries of `es` that end in `.tar.gz`, in directory order. */
  function Archives(es: seq<string>): (r: seq<string>)
    ensures forall x :: x in r <==> x in es && EndsWith(x, Suffix)
  {
    if es == [] then []
    else (if EndsWith(es[0], Suffix) then [es[0]] else []) + Archives(es[1..])
  }

  /** `list_backups()`: the archive names, sorted. */
  function Listing(es: seq<string>): seq<string> {
    Sort(Archives(es))
  }

  /** `es` with every name in `gone` removed, order kept. */
  function Without(es: seq<string>, gone: set<string>): (r: seq<string>)
    ensures forall x :: x in r <==> x in es && x !in gone
  {
    if es == [] then []
    else (if es[0] in gone then [] else [es[0]]) + Without(es[1..], gone)
  }

  lemma WithoutStep(es: seq<string>, gone: set<string>)
    requires es != []
    ensures Without(es, gone) ==
      (if es[0] in gone then Without(es[1..], gone) else [es[0]] + Without(es[1..], gone))
  {
    if es[0] in gone {
      assert [] + Without(es[1..], gone) == Without(es[1..], gone);
    }
  }

  lemma ArchivesStep(es: seq<string>)
    requires es != []
    ensures Archives(es) ==
      (if EndsWith(es[0], Suffix) then [es[0]] + Archives(es[1..]) else Archives(es[1..]))
  {
    if !EndsWith(es[0], Suffix) {
      assert [] + Archives(es[1..]) == Archives(es[1..]);
    }
  }

  lemma ConsTail(h: string, t: seq<string>)
    ensures ([h] + t)[0] == h && ([h] + t)[1..] == t
  {
  }

  lemma DistinctCons(xs: seq<string>)
    requires xs != []
    ensures Distinct(xs) <==> xs[0] !in xs[1..] && Distinct(xs[1..])
  {
    if Distinct(xs) {
      forall k | 0 <= k < |xs[1..]| ensures xs[1..][k] != xs[0] {
        assert xs[1..][k] == xs[k + 1];
      }
    }
    if xs[0] !in xs[1..] && Distinct(xs[1..]) {
      forall i, j | 0 <= i < j < |xs| ensures xs[i] != xs[j] {
        if i == 0 {
          assert xs[j] == xs[1..][j - 1];
        } else {
          assert xs[i] == xs[1..][i - 1] && xs[j] == xs[1..][j - 1];
        }
      }
    }
  }

  lemma {:induction false} ArchivesDistinct(es: seq<string>)
    requires Distinct(es)
    ensures Distinct(Archives(es))
  {
    if es != [] {
      DistinctCons(es);
      ArchivesDistinct(es[1..]);
      if EndsWith(es[0], Suffix) {
        DistinctCons([es[0]] + Archives(es[1..]));
        assert ([es[0]] + Archives(es[1..]))[1..] == Archives(es[1..]);
      }
    }
  }

  lemma {:induction false} WithoutDistinct(es: seq<string>, gone: set<string>)
    requires Distinct(es)
    ensures Distinct(Without(es, gone))
  {
    if es != [] {
      DistinctCons(es);
      WithoutDistinct(es[1..], gone);
      if es[0] !in gone {
        DistinctCons([es[0]] + Without(es[1..], gone));
        assert ([es[0]] + Without(es[1..], gone))[1..] == Without(es[1..], gone);
      }
    }
  }

  /** The listing returns exactly the archives of the directory, ascending and without
    * repetition. */
  lemma ListingProps(es: seq<string>)
    requires Distinct(es)
    ensures SortedAsc(Listing(es)) && Distinct(Listing(es))
    ensures forall x :: x in Listing(es) <==> x in es && EndsWith(x, Suffix)
    ensures multiset(Listing(es)) == multiset(Archives(es))
  {
    SortProps(Archives(es));
    ArchivesDistinct(es);
    SortDistinct(Archives(es));
  }

  lemma SortedCons(h: string, ys: seq<string>)
    requires SortedAsc(ys) && forall y :: y in ys ==> Le(h, y)
    ensures SortedAsc([h] + ys)
  {
    var s := [h] + ys;
    forall i, j | 0 <= i < j < |s| ensures Le(s[i], s[j]) {
      if i == 0 {
        assert s[j] == ys[j - 1];
      } else {
        assert s[i] == ys[i - 1] && s[j] == ys[j - 1];
      }
    }
  }

  lemma {:induction false} WithoutSorted(es: seq<string>, gone: set<string>)
    requires SortedAsc(es)
    ensures SortedAsc(Without(es, gone))
  {
    if es != [] {
      assert SortedAsc(es[1..]) by {
        forall i, j | 0 <= i < j < |es[1..]| ensures Le(es[1..][i], es[1..][j]) {
          assert es[1..][i] == es[i + 1] && es[1..][j] == es[j + 1];
        }
      }
      WithoutSorted(es[1..], gone);
      if es[0] !in gone {
        forall y | y in Without(es[1..], gone) ensures Le(es[0], y) {
          SortedHeadLe(es, y);
        }
        SortedCons(es[0], Without(es[1..], gone));
      }
    }
  }

  lemma {:induction false} WithoutConcat(p: seq<string>, q: seq<string>, gone: set<string>)
    ensures Without(p + q, gone) == Without(p, gone) + Without(q, gone)
  {
    if p == [] {
      assert p + q == q;
    } else {
      assert (p + q)[0] == p[0] && (p + q)[1..] == p[1..] + q;
      WithoutConcat(p[1..], q, gone);
    }
  }

  lemma {:induction false} WithoutNone(es: seq<string>, gone: set<string>)
    requires forall x :: x in es ==> x !in gone
    ensures Without(es, gone) == es
  {
    if es != [] {
      WithoutNone(es[1..], gone);
    }
  }

  lemma {:induction false} WithoutWithout(es: seq<string>, a: set<string>, b: set<string>)
    ensures Without(Without(es, a), b) == Without(es, a + b)
  {
    if es != [] {
      WithoutWithout(es[1..], a, b);
      WithoutStep(es, a);
      WithoutStep(es, a + b);
      if es[0] !in a {
        var w := Without(es[1..], a);
        ConsTail(es[0], w);
        WithoutStep([es[0]] + w, b);
      }
    }
  }

  lemma {:induction false} ArchivesWithout(es: seq<string>, gone: set<string>)
    ensures Archives(Without(es, gone)) == Without(Archives(es), gone)
  {
    if es != [] {
      ArchivesWithout(es[1..], gone);
      WithoutStep(es, gone);
      ArchivesStep(es);
      var w := Without(es[1..], gone);
      var a := Archives(es[1..]);
      if es[0] !in gone {
        ConsTail(es[0], w);
        ArchivesStep([es[0]] + w);
      }
      if EndsWith(es[0], Suffix) {
        ConsTail(es[0], a);
        WithoutStep([es[0]] + a, gone);
      }
    }
  }

  /** Removing names from the directory removes them from the listing and keeps its order. */
  lemma ListingWithout(es: seq<string>, gone: set<string>)
    requires Distinct(es)
    ensures Listing(Without(es, gone)) == Without(Listing(es), gone)
  {
    var a := Archives(es);
    ArchivesWithout(es, gone);
    ArchivesDistinct(es);
    WithoutDistinct(a, gone);
    SortProps(Without(a, gone));
    SortDistinct(Without(a, gone));
    SortProps(a);
    SortDistinct(a);
    WithoutSorted(Sort(a), gone);
    WithoutDistinct(Sort(a), gone);
    SortedSetUnique(Sort(Without(a, gone)), Without(Sort(a), gone));
  }

  lemma {:induction false} WithoutAll(es: seq<string>, gone: set<string>)
    requires forall x :: x in es ==> x in gone
    ensures Without(es, gone) == []
  {
    if es != [] {
      WithoutAll(es[1..], gone);
    }
  }

  /** In a repetition-free sequence, no name of a suffix occurs in the prefix before it. */
  lemma DistinctSplit(l: seq<string>, n: nat)
    requires Distinct(l) && n <= |l|
    ensures forall x :: x in l[n..] ==> x !in l[..n]
  {
    forall x | x in l[n..] ensures x !in l[..n] {
      var j :| 0 <= j < |l[n..]| && l[n..][j] == x;
      forall i | 0 <= i < n ensures l[..n][i] != x {
        assert l[..n][i] == l[i] && l[n..][j] == l[n + j];
      }
    }
  }

  /** Dropping the names of a prefix of a repetition-free sequence leaves the suffix. */
  lemma WithoutPrefix(l: seq<string>, n: nat)
    requires Distinct(l) && n <= |l|
    ensures Without(l, set x | x in l[..n]) == l[n..]
  {
    var gone := set x | x in l[..n];
    assert l == l[..n] + l[n..];
    WithoutConcat(l[..n], l[n..], gone);
    WithoutAll(l[..n], gone);
    DistinctSplit(l, n);
    WithoutNone(l[n..], gone);
  }

  /** The names `rotate_backups` tries to delete: none when there are at most `keep`,
    * otherwise `files[0:len(files) - keep]`, which for `keep <= 0` is every name. */
  function Victims(files: seq<string>, keep: int): (v: seq<string>)
    ensures |v| <= |files| && v == files[..|v|]
    ensures |files| <= keep ==> v == []
    ensures |files| > keep ==> |files| - |v| == (if keep > 0 then keep else 0)
  {
    if |files| <= keep then [] else files[..|files| - (if keep > 0 then keep else 0)]
  }

  /** The victims whose removal succeeded; `failures` maps a name to the error its
    * `os.remove` raises. */
  function Deleted(victims: seq<string>, failures: map<string, string>): set<string> {
    set v | v in victims && v !in failures
  }

  /** The message logged for one victim. */
  function RemovalMessage(v: string, failures: map<string, string>): string {
    if v in failures then "Failed to remove " + v + ": " + failures[v]
    else "Removed old backup: " + v
  }

  /** The messages logged for the victims, in order. */
  function RotationLog(victims: seq<string>, failures: map<string, string>): (log: seq<string>)
    ensures |log| == |victims|
    ensures forall i :: 0 <= i < |victims| ==> log[i] == RemovalMessage(victims[i], failures)
  {
    if victims == [] then []
    else RotationLog(victims[..|victims| - 1], failures) + [RemovalMessage(victims[|victims| - 1], failures)]
  }

  lemma RotationStep(victims: seq<string>, i: nat, failures: map<string, string>)
    requires i < |victims|
    ensures Deleted(victims[..i + 1], failures) ==
      Deleted(victims[..i], failures) + (if victims[i] in failures then {} else {victims[i]})
    ensures RotationLog(victims[..i + 1], failures) ==
      RotationLog(victims[..i], failures) + [RemovalMessage(victims[i], failures)]
  {
    assert victims[..i + 1] == victims[..i] + [victims[i]];
    assert victims[..i + 1][..i] == victims[..i];
  }

  /** The directory `rotate_backups` leaves. */
  function Rotate(es: seq<string>, keep: int, failures: map<string, string>): seq<string> {
    Without(es, Deleted(Victims(Listing(es), keep), failures))
  }

  /** With at most `keep` archives nothing is touched. */
  lemma RotationBelowRetention(es: seq<string>, keep: int, failures: map<string, string>)
    requires |Listing(es)| <= keep
    ensures Rotate(es, keep, failures) == es
    ensures RotationLog(Victims(Listing(es), keep), failures) == []
  {
    WithoutNone(es, Deleted(Victims(Listing(es), keep), failures));
  }

  /** A failed removal leaves that one archive and does not stop the others: every victim
    * without a failure is gone, every other entry stays. */
  lemma RotationIsolatesFailures(es: seq<string>, keep: int, failures: map<string, string>)
    ensures forall x :: x in Rotate(es, keep, failures) <==>
      x in es && (x !in Victims(Listing(es), keep) || x in failures)
  {
  }

  /** Without removal failures, rotation leaves exactly the `keep` largest archive names (all
    * of them when there are fewer, none when `keep <= 0`), in order. */
  lemma {:induction false} RotationKeepsNewest(es: seq<string>, keep: int, failures: map<string, string>)
    requires Distinct(es)
    requires forall v :: v in Victims(Listing(es), keep) ==> v !in failures
    ensures Listing(Rotate(es, keep, failures)) == Listing(es)[|Victims(Listing(es), keep)|..]
    ensures |Listing(Rotate(es, keep, failures))| ==
      (if |Listing(es)| <= keep then |Listing(es)| else if keep > 0 then keep else 0)
  {
    var l := Listing(es);
    var v := Victims(l, keep);
    ListingProps(es);
    assert Deleted(v, failures) == set x | x in l[..|v|];
    ListingWithout(es, Deleted(v, failures));
    WithoutPrefix(l, |v|);
  }

  /** Every archive that survives rotation is larger than every archive it deleted. */
  lemma RotationSurvivorsAreLargest(es: seq<string>, keep: int, x: string, y: string)
    requires Distinct(es)
    requires x in Listing(es)[|Victims(Listing(es), keep)|..] && y in Victims(Listing(es), keep)
    ensures Lt(y, x)
  {
    var l := Listing(es);
    var n := |Victims(l, keep)|;
    ListingProps(es);
    var j :| n <= j < |l| && l[j] == x;
    var i :| 0 <= i < n && l[i] == y;
    assert l[i] == Victims(l, keep)[i];
  }

  /** `f"frigate_config_{now}.tar.gz"` with `now` in `%Y-%m-%d_%H-%M-%S`. */
  function ArchiveName(t: DateTime): (n: string)
    ensures StartsWith(n, Prefix) && EndsWith(n, Suffix)
  {
    Prefix + FileStamp(t) + Suffix
  }

  /** Archive names sort in the order of the times they were taken, and two different
    * times never share a name. */
  lemma ArchiveNameOrder(a: DateTime, b: DateTime)
    requires a.Valid() && b.Valid()
    ensures Le(ArchiveName(a), ArchiveName(b)) <==> NotAfter(a, b)
    ensures ArchiveName(a) == ArchiveName(b) <==> a == b
  {
    FileStampFields(a, Suffix);
    FileStampFields(b, Suffix);
    assert ArchiveName(a) == Prefix + StampThen(a, Suffix);
    assert ArchiveName(b) == Prefix + StampThen(b, Suffix);
    LeCommonPrefix(Prefix, StampThen(a, Suffix), StampThen(b, Suffix));
    StampOrder(a, b, Suffix);
    if ArchiveName(a) == ArchiveName(b) {
      assert StampThen(a, Suffix) == ArchiveName(a)[|Prefix|..];
      assert StampThen(b, Suffix) == ArchiveName(b)[|Prefix|..];
    }
  }

  /** How writing the archive went: finished, failed before the file was opened, or failed
    * after a partial file was created. */
  datatype TarOutcome = TarOk | TarFailedEarly | TarFailedPartial

  /** The outcomes `run_backup` depends on besides the clock and the config: the archive
    * write, whether listing the directory in `rotate_backups` succeeded, the removals that
    * raise, and whether removing the archive after a failure succeeded. */
  datatype BackupEnv = BackupEnv(tar: TarOutcome, listOk: bool, failures: map<string, string>, cleanupOk: bool)

  /** What Drive will answer to an upload: is there a token file, will the create succeed. */
  datatype DriveEnv = DriveEnv(tokenExists: bool, createOk: bool)

  /** A failed run, or a finished one with the upload result (`None`: sync switched off). */
  datatype BackupOutcome = BackupFailed | BackedUp(upload: Option<GDriveSync.UploadResult>)

  /** The directory once the archive `name` has been written (`"w:gz"` replaces a file). */
  function WithArchive(es: seq<string>, name: string): seq<string> {
    if name in es then es else es + [name]
  }

  /** Whether the create-and-rotate block ran to the end. */
  predicate BlockSucceeds(env: BackupEnv) {
    env.tar.TarOk? && env.listOk
  }

  /** The directory `run_backup` leaves. */
  function AfterRun(es: seq<string>, name: string, keep: int, env: BackupEnv): seq<string> {
    if BlockSucceeds(env) then Rotate(WithArchive(es, name), keep, env.failures)
    else
      var written := if env.tar.TarFailedEarly? then es else WithArchive(es, name);
      if env.cleanupOk then Without(written, {name}) else written
  }

  /** `cfg.get("ENABLE_GDRIVE_SYNC")` is truthy. */
  predicate SyncRequested(cfg: map<string, Value>) {
    Truthy(Get(cfg, "ENABLE_GDRIVE_SYNC", Null))
  }

  /** What `run_backup` reports. */
  function RunOutcome(es: seq<string>, name: string, keep: int, env: BackupEnv,
                      cfg: map<string, Value>, drive: DriveEnv): BackupOutcome {
    if !BlockSucceeds(env) then BackupFailed
    else if !SyncRequested(cfg) then BackedUp(None)
    else BackedUp(Some(GDriveSync.Upload(cfg, name in AfterRun(es, name, keep, env),
                                         drive.tokenExists, drive.createOk)))
  }

  /** An upload is attempted iff the block succeeded and the sync flag is set. */
  lemma UploadOnlyAfterSuccess(es: seq<string>, name: string, keep: int, env: BackupEnv,
                               cfg: map<string, Value>, drive: DriveEnv)
    ensures RunOutcome(es, name, keep, env, cfg, drive).BackedUp? <==> BlockSucceeds(env)
    ensures (RunOutcome(es, name, keep, env, cfg, drive).BackedUp?
             && RunOutcome(es, name, keep, env, cfg, drive).upload.Some?)
            <==> BlockSucceeds(env) && SyncRequested(cfg)
  {
  }

  /** With the default configuration no upload is ever attempted; and turning on
    * `ENABLE_GDRIVE_SYNC` alone leads to an upload that Drive's own switch refuses. */
  lemma SyncFlagMismatch(es: seq<string>, name: string, keep: int, env: BackupEnv, drive: DriveEnv)
    requires BlockSucceeds(env)
    ensures RunOutcome(es, name, keep, env, ConfigManager.DefaultConfig(), drive) == BackedUp(None)
    ensures RunOutcome(es, name, keep, env, ConfigManager.DefaultConfig()["ENABLE_GDRIVE_SYNC" := Bool(true)], drive)
      == BackedUp(Some(GDriveSync.UploadResult(false, false)))
  {
    var on := ConfigManager.DefaultConfig()["ENABLE_GDRIVE_SYNC" := Bool(true)];
    GDriveSync.SyncFlagDoesNotEnable(ConfigManager.DefaultConfig(), Bool(true));
    assert !GDriveSync.IsEnabled(on);
  }

  /** A failure anywhere in the block removes whatever is at the archive's path (a finished
    * archive too, when only the listing failed) and changes nothing else. */
  lemma FailureCleansUp(es: seq<string>, name: string, keep: int, env: BackupEnv)
    requires !BlockSucceeds(env) && env.cleanupOk
    ensures AfterRun(es, name, keep, env) == Without(es, {name})
    ensures name !in AfterRun(es, name, keep, env)
  {
    if !env.tar.TarFailedEarly? && name !in es {
      WithoutConcat(es, [name], {name});
    }
  }

  /** The retention promise: after a successful run with `keep >= 1`, no removal failures,
    * and a new archive name larger than every archive already present, at most `keep`
    * archives remain and the new one is among them. */
  lemma {:induction false} BackupRetention(es: seq<string>, name: string, keep: int, env: BackupEnv)
    requires Distinct(es) && BlockSucceeds(env) && keep >= 1 && env.failures == map[]
    requires EndsWith(name, Suffix)
    requires forall x :: x in es && EndsWith(x, Suffix) && x != name ==> Lt(x, name)
    ensures |Listing(AfterRun(es, name, keep, env))| <= keep
    ensures name in AfterRun(es, name, keep, env)
  {
    var es1 := WithArchive(es, name);
    assert Distinct(es1) by {
      if name !in es {
        forall i, j | 0 <= i < j < |es1| ensures es1[i] != es1[j] {
          if j == |es| { assert es1[i] == es[i]; }
        }
      }
    }
    RotationKeepsNewest(es1, keep, env.failures);
    var l := Listing(es1);
    ListingProps(es1);
    var n := |Victims(l, keep)|;
    assert name in es1;
    var last := l[|l| - 1];
    assert last in es1 && EndsWith(last, Suffix);
    assert last == name || last in es;
    LeRefl(name);
    assert Le(last, name);
    assert Le(name, last) by {
      var k :| 0 <= k < |l| && l[k] == name;
      if k == |l| - 1 { LeRefl(name); }
    }
    LeAntisym(last, name);
    assert name in l[n..] by {
      assert l[n..][|l| - 1 - n] == l[|l| - 1];
    }
    assert name in Listing(Rotate(es1, keep, env.failures));
  }

  /** When the backup directory holds only archives this application named, each taken
    * earlier than `now`, the retention promise applies to the archive taken at `now`. */
  lemma BackupRetentionChronological(es: seq<string>, now: DateTime, keep: int, env: BackupEnv)
    requires Distinct(es) && BlockSucceeds(env) && keep >= 1 && env.failures == map[]
    requires now.Valid()
    requires forall x :: x in es && EndsWith(x, Suffix) ==>
      exists t: DateTime :: t.Valid() && Before(t, now) && x == ArchiveName(t)
    ensures |Listing(AfterRun(es, ArchiveName(now), keep, env))| <= keep
    ensures ArchiveName(now) in AfterRun(es, ArchiveName(now), keep, env)
  {
    var name := ArchiveName(now);
    forall x | x in es && EndsWith(x, Suffix) && x != name ensures Lt(x, name) {
      var t: DateTime :| t.Valid() && Before(t, now) && x == ArchiveName(t);
      ArchiveNameOrder(t, now);
    }
    BackupRetention(es, name, keep, env);
  }

  /** A retention of zero or less deletes every archive, the new one included, so a
    * requested upload finds no file and never reaches Drive. */
  lemma NonPositiveRetentionDeletesAll(es: seq<string>, name: string, keep: int, env: BackupEnv,
                                       cfg: map<string, Value>, drive: DriveEnv)
    requires Distinct(es) && BlockSucceeds(env) && keep <= 0 && env.failures == map[]
    requires EndsWith(name, Suffix)
    ensures Listing(AfterRun(es, name, keep, env)) == []
    ensures name !in AfterRun(es, name, keep, env)
    ensures SyncRequested(cfg) ==>
      RunOutcome(es, name, keep, env, cfg, drive) == BackedUp(Some(GDriveSync.UploadResult(false, false)))
  {
    var es1 := WithArchive(es, name);
    assert Distinct(es1) by {
      if name !in es {
        forall i, j | 0 <= i < j < |es1| ensures es1[i] != es1[j] {
          if j == |es| { assert es1[i] == es[i]; }
        }
      }
    }
    RotationKeepsNewest(es1, keep, env.failures);
    ListingProps(es1);
    WithoutDistinct(es1, Deleted(Victims(Listing(es1), keep), env.failures));
    ListingProps(Rotate(es1, keep, env.failures));
    assert name in es1;
  }

  /** The backup directory. */
  class ArchiveStore {
    var entries: seq<string>

    predicate Valid()
      reads this
    {
      Distinct(entries)
    }

    constructor (entries0: seq<string>)
      requires Distinct(entries0)
      ensures entries == entries0 && Valid()
    {
      entries := entries0;
    }

    /** `rotate_backups()` with `BACKUP_RETENTION == keep`. */
    method RotateBackups(keep: int, failures: map<string, string>) returns (log: seq<string>)
      requires Valid()
      modifies this
      ensures Valid()
      ensures entries == Rotate(old(entries), keep, failures)
      ensures log == RotationLog(Victims(Listing(old(entries)), keep), failures)
    {
      var files := Listing(entries);
      ghost var es := entries;
      var toRemove := Victims(files, keep);
      if |files| <= keep {
        WithoutNone(entries, Deleted(toRemove, failures));
        return [];
      }
      log := [];
      var i := 0;
      assert Deleted(toRemove[..0], failures) == {};
      WithoutNone(entries, {});
      while i < |toRemove|
        invariant 0 <= i <= |toRemove|
        invariant entries == Without(es, Deleted(toRemove[..i], failures))
        invariant log == RotationLog(toRemove[..i], failures)
      {
        var fname := toRemove[i];
        RotationStep(toRemove, i, failures);
        ghost var before := Deleted(toRemove[..i], failures);
        if fname in failures {
          log := log + ["Failed to remove " + fname + ": " + failures[fname]];
          assert Deleted(toRemove[..i + 1], failures) == before;
        } else {
          WithoutWithout(es, before, {fname});
          entries := Without(entries, {fname});
          log := log + ["Removed old backup: " + fname];
          assert Deleted(toRemove[..i + 1], failures) == before + {fname};
        }
        i := i + 1;
      }
      assert toRemove[..i] == toRemove;
      WithoutDistinct(es, Deleted(toRemove, failures));
    }

    /** `run_backup()` at time `now` with `BACKUP_RETENTION == keep` and the configuration
      * `cfg` that `load_config()` returns after the block. */
    method RunBackup(now: DateTime, keep: int, env: BackupEnv, cfg: map<string, Value>, drive: DriveEnv)
      returns (outcome: BackupOutcome)
      requires Valid()
      modifies this
      ensures Valid()
      ensures entries == AfterRun(old(entries), ArchiveName(now), keep, env)
      ensures outcome == RunOutcome(old(entries), ArchiveName(now), keep, env, cfg, drive)
    {
      var name := ArchiveName(now);
      ghost var es := entries;
      var ok := false;
      if !env.tar.TarFailedEarly? {
        if name !in entries {
          assert Distinct(entries + [name]) by {
            forall i, j | 0 <= i < j < |entries| + 1 ensures (entries + [name])[i] != (entries + [name])[j] {
              if j == |entries| { assert (entries + [name])[i] == entries[i]; }
            }
          }
          entries := entries + [name];
        }
        if env.tar.TarOk? && env.listOk {
          var _ := RotateBackups(keep, env.failures);
          ok := true;
        }
      }
      if !ok {
        if env.cleanupOk {
          WithoutDistinct(entries, {name});
          entries := Without(entries, {name});
        }
        return BackupFailed;
      }
      if SyncRequested(cfg) {
        var up := GDriveSync.Upload(cfg, name in entries, drive.tokenExists, drive.createOk);
        outcome := BackedUp(Some(up));
      } else {
        outcome := BackedUp(None);
      }
    }
  }
}
