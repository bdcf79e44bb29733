/** The job registry: the module's `jobs` dict (name to job) next to the background
  * scheduler's own job table (id to job). `CronTrigger.from_crontab` is the oracle `parses`;
  * job execution, the clock and the scheduler thread are outside the model. */
module Scheduler {
  import opened Json
  import opened Clock
  import opened Wrappers
  import CronUtils

  /** The three functions the application schedules. */
  datatype Task = RunBackupTask | SecurityUpdatesTask | RotateLogsTask

  /** A scheduled job: its id, the crontab line of its trigger, and what it runs. */
  datatype Job = Job(id: string, cron: string, task: Task)

  /** Both maps, whether the scheduler thread runs, and how many times it was started. */
  datatype State = State(jobs: map<string, Job>, table: map<string, Job>, running: bool, starts: nat)

  /** `CronTrigger.from_crontab(cron)` succeeds: only a string the parser accepts. */
  predicate Parses(cron: Value, parses: string -> bool) {
    cron.Str? && parses(cron.s)
  }

  /** `jobs` names `name` but the scheduler no longer holds it. */
  predicate Stale(st: State, name: string) {
    name in st.jobs && name !in st.table
  }

  /** `add_job(name, cron, task)`: a stale name fails at `remove_job` and nothing changes;
    * otherwise a name in `jobs` has its old job leave the table, and if the cron parses the
    * new job enters both maps, replacing any job with that id. Every failure is logged,
    * never raised. */
  function AddJobSpec(st: State, name: string, cron: Value, task: Task, parses: string -> bool): State {
    if Stale(st, name) then st
    else
      var t := if name in st.jobs then st.table - {name} else st.table;
      if !Parses(cron, parses) then st.(table := t)
      else
        var job := Job(name, cron.s, task);
        st.(table := t[name := job], jobs := st.jobs[name := job])
  }

  /** A parseable cron for a name that is not stale leaves one job with id `name` in both
    * maps and every other id as it was. */
  lemma AddJobRegisters(st: State, name: string, cron: Value, task: Task, parses: string -> bool)
    requires !Stale(st, name) && Parses(cron, parses)
    ensures var r := AddJobSpec(st, name, cron, task, parses);
      name in r.jobs && name in r.table && r.jobs[name] == r.table[name] == Job(name, cron.s, task)
      && (forall k :: k != name ==> (k in r.jobs <==> k in st.jobs) && (k in r.jobs ==> r.jobs[k] == st.jobs[k]))
      && (forall k :: k != name ==> (k in r.table <==> k in st.table) && (k in r.table ==> r.table[k] == st.table[k]))
  {
  }

  /** An unparseable cron for a registered name takes the job out of the scheduler but
    * leaves the old entry in `jobs`: the name becomes stale. */
  lemma AddJobUnparseable(st: State, name: string, cron: Value, task: Task, parses: string -> bool)
    requires name in st.jobs && name in st.table && !Parses(cron, parses)
    ensures var r := AddJobSpec(st, name, cron, task, parses);
      Stale(r, name) && r.jobs == st.jobs && r.table == st.table - {name}
  {
  }

  /** An unparseable cron for a name `jobs` does not hold fails before anything is removed:
    * the registry is unchanged, even when the scheduler holds a job with that id. */
  lemma AddJobUnparseableUnknown(st: State, name: string, cron: Value, task: Task, parses: string -> bool)
    requires name !in st.jobs && !Parses(cron, parses)
    ensures AddJobSpec(st, name, cron, task, parses) == st
  {
  }

  /** `init_scheduler()` on the loaded configuration. */
  function InitSpec(st: State, cfg: map<string, Value>, parses: string -> bool): State
    requires "BACKUP_CRON" in cfg && "SECURITY_UPDATE_CRON" in cfg && "LOG_ROTATION_CRON" in cfg
  {
    var s1 := AddJobSpec(st, "backup", cfg["BACKUP_CRON"], RunBackupTask, parses);
    var s2 := AddJobSpec(s1, "security_updates", cfg["SECURITY_UPDATE_CRON"], SecurityUpdatesTask, parses);
    var s3 := AddJobSpec(s2, "log_rotation", cfg["LOG_ROTATION_CRON"], RotateLogsTask, parses);
    if s3.running then s3 else s3.(running := true, starts := s3.starts + 1)
  }

  /** `init_scheduler()` from a fresh registry with three parseable crons holds exactly the
    * three jobs, each with its configured cron, and starts the scheduler once. */
  lemma InitRegistersThree(cfg: map<string, Value>, parses: string -> bool)
    requires "BACKUP_CRON" in cfg && "SECURITY_UPDATE_CRON" in cfg && "LOG_ROTATION_CRON" in cfg
    requires Parses(cfg["BACKUP_CRON"], parses) && Parses(cfg["SECURITY_UPDATE_CRON"], parses)
    requires Parses(cfg["LOG_ROTATION_CRON"], parses)
    ensures var r := InitSpec(State(map[], map[], false, 0), cfg, parses);
      r.table.Keys == r.jobs.Keys == {"backup", "security_updates", "log_rotation"}
      && r.table["backup"] == r.jobs["backup"] == Job("backup", cfg["BACKUP_CRON"].s, RunBackupTask)
      && r.table["security_updates"] == Job("security_updates", cfg["SECURITY_UPDATE_CRON"].s, SecurityUpdatesTask)
      && r.table["log_rotation"] == Job("log_rotation", cfg["LOG_ROTATION_CRON"].s, RotateLogsTask)
      && r.running && r.starts == 1
  {
  }

  /** The scheduler is started only when it is not running: repeated inits never start
    * it twice. */
  lemma InitStartsAtMostOnce(st: State, cfg: map<string, Value>, parses: string -> bool)
    requires "BACKUP_CRON" in cfg && "SECURITY_UPDATE_CRON" in cfg && "LOG_ROTATION_CRON" in cfg
    ensures InitSpec(st, cfg, parses).running
    ensures InitSpec(st, cfg, parses).starts == st.starts + (if st.running then 0 else 1)
    ensures InitSpec(InitSpec(st, cfg, parses), cfg, parses).starts == InitSpec(st, cfg, parses).starts
  {
    InitFlags(st, cfg, parses);
    InitFlags(InitSpec(st, cfg, parses), cfg, parses);
  }

  /** `add_job` never touches the scheduler thread. */
  lemma AddJobKeepsFlags(st: State, name: string, cron: Value, task: Task, parses: string -> bool)
    ensures AddJobSpec(st, name, cron, task, parses).running == st.running
    ensures AddJobSpec(st, name, cron, task, parses).starts == st.starts
  {
  }

  lemma InitFlags(st: State, cfg: map<string, Value>, parses: string -> bool)
    requires "BACKUP_CRON" in cfg && "SECURITY_UPDATE_CRON" in cfg && "LOG_ROTATION_CRON" in cfg
    ensures InitSpec(st, cfg, parses).running
    ensures InitSpec(st, cfg, parses).starts == st.starts + (if st.running then 0 else 1)
  {
    var s1 := AddJobSpec(st, "backup", cfg["BACKUP_CRON"], RunBackupTask, parses);
    var s2 := AddJobSpec(s1, "security_updates", cfg["SECURITY_UPDATE_CRON"], SecurityUpdatesTask, parses);
    AddJobKeepsFlags(st, "backup", cfg["BACKUP_CRON"], RunBackupTask, parses);
    AddJobKeepsFlags(s1, "security_updates", cfg["SECURITY_UPDATE_CRON"], SecurityUpdatesTask, parses);
    AddJobKeepsFlags(s2, "log_rotation", cfg["LOG_ROTATION_CRON"], RotateLogsTask, parses);
  }

  /** The loop of `reload_scheduler()`: each name whose job the scheduler could remove
    * leaves both maps; a name whose removal raises keeps its `jobs` entry. */
  function ClearSpec(st: State): State {
    st.(jobs := map k | k in st.jobs && k !in st.table :: st.jobs[k],
        table := st.table - st.jobs.Keys)
  }

  /** `reload_scheduler()`. */
  function ReloadSpec(st: State, cfg: map<string, Value>, parses: string -> bool): State
    requires "BACKUP_CRON" in cfg && "SECURITY_UPDATE_CRON" in cfg && "LOG_ROTATION_CRON" in cfg
  {
    InitSpec(ClearSpec(st), cfg, parses)
  }

  /** What the two maps hold for one key. Every operation acts key by key, so the
    * registry's behaviour at a key depends only on its slot there. */
  datatype Slot = Slot(job: Option<Job>, scheduled: Option<Job>)

  function At(st: State, k: string): Slot {
    Slot(if k in st.jobs then Some(st.jobs[k]) else None,
         if k in st.table then Some(st.table[k]) else None)
  }

  /** Two registries with the same slot at every key have the same maps. */
  lemma AtExt(a: State, b: State)
    requires forall k :: At(a, k) == At(b, k)
    ensures a.jobs == b.jobs && a.table == b.table
  {
    forall k ensures (k in a.jobs <==> k in b.jobs) && (k in a.jobs ==> a.jobs[k] == b.jobs[k]) {
      assert At(a, k) == At(b, k);
    }
    forall k ensures (k in a.table <==> k in b.table) && (k in a.table ==> a.table[k] == b.table[k]) {
      assert At(a, k) == At(b, k);
    }
  }

  /** `add_job(name, ...)` seen from the slot at `k`. */
  function AddSlot(s: Slot, k: string, name: string, cron: Value, task: Task, parses: string -> bool): Slot {
    if k != name || (s.job.Some? && s.scheduled.None?) then s
    else if !Parses(cron, parses) then (if s.job.Some? then s.(scheduled := None) else s)
    else Slot(Some(Job(name, cron.s, task)), Some(Job(name, cron.s, task)))
  }

  lemma AddJobAt(st: State, name: string, cron: Value, task: Task, parses: string -> bool, k: string)
    ensures At(AddJobSpec(st, name, cron, task, parses), k) == AddSlot(At(st, k), k, name, cron, task, parses)
  {
  }

  function InitSlot(s: Slot, k: string, cfg: map<string, Value>, parses: string -> bool): Slot
    requires "BACKUP_CRON" in cfg && "SECURITY_UPDATE_CRON" in cfg && "LOG_ROTATION_CRON" in cfg
  {
    var s1 := AddSlot(s, k, "backup", cfg["BACKUP_CRON"], RunBackupTask, parses);
    var s2 := AddSlot(s1, k, "security_updates", cfg["SECURITY_UPDATE_CRON"], SecurityUpdatesTask, parses);
    AddSlot(s2, k, "log_rotation", cfg["LOG_ROTATION_CRON"], RotateLogsTask, parses)
  }

  lemma InitAt(st: State, cfg: map<string, Value>, parses: string -> bool, k: string)
    requires "BACKUP_CRON" in cfg && "SECURITY_UPDATE_CRON" in cfg && "LOG_ROTATION_CRON" in cfg
    ensures At(InitSpec(st, cfg, parses), k) == InitSlot(At(st, k), k, cfg, parses)
  {
    var s1 := AddJobSpec(st, "backup", cfg["BACKUP_CRON"], RunBackupTask, parses);
    var s2 := AddJobSpec(s1, "security_updates", cfg["SECURITY_UPDATE_CRON"], SecurityUpdatesTask, parses);
    var s3 := AddJobSpec(s2, "log_rotation", cfg["LOG_ROTATION_CRON"], RotateLogsTask, parses);
    AddJobAt(st, "backup", cfg["BACKUP_CRON"], RunBackupTask, parses, k);
    AddJobAt(s1, "security_updates", cfg["SECURITY_UPDATE_CRON"], SecurityUpdatesTask, parses, k);
    AddJobAt(s2, "log_rotation", cfg["LOG_ROTATION_CRON"], RotateLogsTask, parses, k);
    assert At(InitSpec(st, cfg, parses), k) == At(s3, k);
  }

  /** The loop of `reload_scheduler()` seen from one slot. */
  function ClearSlot(s: Slot): Slot {
    if s.job.Some? && s.scheduled.Some? then Slot(None, None) else s
  }

  lemma ClearAt(st: State, k: string)
    ensures At(ClearSpec(st), k) == ClearSlot(At(st, k))
  {
  }

  /** A stale name stays stale through `add_job`, whatever name and cron it is given. */
  lemma StaleSurvivesAddJob(st: State, name: string, other: string, cron: Value, task: Task, parses: string -> bool)
    requires Stale(st, name)
    ensures Stale(AddJobSpec(st, other, cron, task, parses), name)
  {
    AddJobAt(st, other, cron, task, parses, name);
  }

  /** A stale name stays stale through `init_scheduler` and `reload_scheduler`: it is never
    * registered again. */
  lemma StaleSurvivesReload(st: State, name: string, cfg: map<string, Value>, parses: string -> bool)
    requires Stale(st, name)
    requires "BACKUP_CRON" in cfg && "SECURITY_UPDATE_CRON" in cfg && "LOG_ROTATION_CRON" in cfg
    ensures Stale(InitSpec(st, cfg, parses), name)
    ensures Stale(ReloadSpec(st, cfg, parses), name)
  {
    InitAt(st, cfg, parses, name);
    ClearAt(st, name);
    InitAt(ClearSpec(st), cfg, parses, name);
  }

  /** One slot cleared and re-initialised twice ends as after the first time. */
  lemma SlotReloadIdempotent(s: Slot, k: string, cfg: map<string, Value>, parses: string -> bool)
    requires "BACKUP_CRON" in cfg && "SECURITY_UPDATE_CRON" in cfg && "LOG_ROTATION_CRON" in cfg
    ensures InitSlot(ClearSlot(InitSlot(ClearSlot(s), k, cfg, parses)), k, cfg, parses)
         == InitSlot(ClearSlot(s), k, cfg, parses)
  {
  }

  /** Reloading twice with the same configuration gives the registry one reload gives. */
  lemma ReloadIdempotent(st: State, cfg: map<string, Value>, parses: string -> bool)
    requires "BACKUP_CRON" in cfg && "SECURITY_UPDATE_CRON" in cfg && "LOG_ROTATION_CRON" in cfg
    ensures ReloadSpec(ReloadSpec(st, cfg, parses), cfg, parses) == ReloadSpec(st, cfg, parses)
  {
    var r1 := ReloadSpec(st, cfg, parses);
    var r2 := ReloadSpec(r1, cfg, parses);
    forall k ensures At(r2, k) == At(r1, k) {
      ClearAt(st, k);
      InitAt(ClearSpec(st), cfg, parses, k);
      ClearAt(r1, k);
      InitAt(ClearSpec(r1), cfg, parses, k);
      SlotReloadIdempotent(At(st, k), k, cfg, parses);
    }
    AtExt(r2, r1);
    InitFlags(ClearSpec(st), cfg, parses);
    InitFlags(ClearSpec(r1), cfg, parses);
  }

  /** The placeholder `get_next_run_times` shows for a job without a next run: the UTF-8
    * bytes of an em dash read back as three code points. */
  const NoNextRun: string := "\U{E2}\U{20AC}\U{201D}"

  /** One entry of `get_next_run_times()`. */
  datatype NextRun = NextRun(next: string, description: string)

  /** The entry for one job: its next run as `%Y-%m-%d %H:%M:%S` or the placeholder, and the
    * description `describe_cron` gives (`described` is the library's answer). */
  function NextRunEntry(job: Job, nextRun: Option<DateTime>, described: Option<string>): NextRun {
    NextRun(if nextRun.Some? then LogStamp(nextRun.value) else NoNextRun,
            CronUtils.DescribeCron(job.cron, described))
  }

  /** The registry. */
  class Registry {
    var jobs: map<string, Job>
    var table: map<string, Job>
    var running: bool
    ghost var starts: nat

    ghost function Snapshot(): State
      reads this
    {
      State(jobs, table, running, starts)
    }

    constructor ()
      ensures Snapshot() == State(map[], map[], false, 0)
    {
      jobs, table, running := map[], map[], false;
      starts := 0;
    }

    /** Every job in `jobs` was added under its own name. */
    predicate IdsMatch()
      reads this
    {
      forall k :: k in jobs ==> jobs[k].id == k
    }

    /** `add_job(name, cron, task)` */
    method AddJob(name: string, cron: Value, task: Task, parses: string -> bool)
      requires IdsMatch()
      modifies this
      ensures IdsMatch()
      ensures Snapshot() == AddJobSpec(old(Snapshot()), name, cron, task, parses)
    {
      if name in jobs {
        assert jobs[name].id == name;
        if jobs[name].id !in table {
          return;
        }
        table := table - {jobs[name].id};
      }
      if !Parses(cron, parses) {
        return;
      }
      var job := Job(name, cron.s, task);
      table := table[name := job];
      jobs := jobs[name := job];
    }

    /** `init_scheduler()` with the configuration `load_config()` returned. */
    method InitScheduler(cfg: map<string, Value>, parses: string -> bool)
      requires "BACKUP_CRON" in cfg && "SECURITY_UPDATE_CRON" in cfg && "LOG_ROTATION_CRON" in cfg
      requires IdsMatch()
      modifies this
      ensures IdsMatch()
      ensures Snapshot() == InitSpec(old(Snapshot()), cfg, parses)
    {
      ghost var s0 := Snapshot();
      AddJob("backup", cfg["BACKUP_CRON"], RunBackupTask, parses);
      ghost var s1 := Snapshot();
      AddJob("security_updates", cfg["SECURITY_UPDATE_CRON"], SecurityUpdatesTask, parses);
      ghost var s2 := Snapshot();
      AddJob("log_rotation", cfg["LOG_ROTATION_CRON"], RotateLogsTask, parses);
      assert s1 == AddJobSpec(s0, "backup", cfg["BACKUP_CRON"], RunBackupTask, parses);
      assert s2 == AddJobSpec(s1, "security_updates", cfg["SECURITY_UPDATE_CRON"], SecurityUpdatesTask, parses);
      if !running {
        running := true;
        starts := starts + 1;
      }
    }

    /** `reload_scheduler()` with the configuration `load_config()` returns. */
    method ReloadScheduler(cfg: map<string, Value>, parses: string -> bool)
      requires "BACKUP_CRON" in cfg && "SECURITY_UPDATE_CRON" in cfg && "LOG_ROTATION_CRON" in cfg
      requires IdsMatch()
      modifies this
      ensures IdsMatch()
      ensures Snapshot() == ReloadSpec(old(Snapshot()), cfg, parses)
    {
      ghost var st := Snapshot();
      var pending := jobs.Keys;
      while pending != {}
        invariant pending <= st.jobs.Keys
        invariant running == st.running && starts == st.starts
        invariant IdsMatch()
        invariant forall k :: At(Snapshot(), k) == (if k in pending then At(st, k) else ClearSlot(At(st, k)))
        decreases pending
      {
        var id :| id in pending;
        assert At(Snapshot(), id) == At(st, id);
        ghost var before := Snapshot();
        if jobs[id].id in table {
          table := table - {jobs[id].id};
          jobs := jobs - {id};
        }
        pending := pending - {id};
        forall k ensures At(Snapshot(), k) == (if k in pending then At(st, k) else ClearSlot(At(st, k))) {
          if k != id { assert At(Snapshot(), k) == At(before, k); }
        }
      }
      forall k ensures At(Snapshot(), k) == At(ClearSpec(st), k) {
        ClearAt(st, k);
      }
      AtExt(Snapshot(), ClearSpec(st));
      InitScheduler(cfg, parses);
    }

    /** `get_next_run_times()`: `nextRun` and `described` are what the scheduler and the
      * description library answer for each job. */
    method GetNextRunTimes(nextRun: string -> Option<DateTime>, described: string -> Option<string>)
      returns (out: map<string, NextRun>)
      ensures out.Keys == jobs.Keys
      ensures forall k :: k in out ==> out[k] == NextRunEntry(jobs[k], nextRun(k), described(k))
    {
      out := map[];
      var pending := jobs.Keys;
      while pending != {}
        invariant pending <= jobs.Keys
        invariant out.Keys == jobs.Keys - pending
        invariant forall k :: k in out ==> out[k] == NextRunEntry(jobs[k], nextRun(k), described(k))
        decreases pending
      {
        var name :| name in pending;
        out := out[name := NextRunEntry(jobs[name], nextRun(name), described(name))];
        pending := pending - {name};
      }
    }
  }

  /** Every entry of `get_next_run_times()` shows a stamp or the placeholder, and the
    * description falls back to `"Cron: " + cron` when the library fails. */
  lemma NextRunEntryShape(job: Job, nextRun: Option<DateTime>, described: Option<string>)
    ensures nextRun.None? ==> NextRunEntry(job, nextRun, described).next == NoNextRun
    ensures nextRun.Some? ==> |NextRunEntry(job, nextRun, described).next| == 19
    ensures described.None? ==> NextRunEntry(job, nextRun, described).description == "Cron: " + job.cron
  {
  }
}
