/** Process detection: which configured applications are running, over an abstract
    Toolhelp32 process snapshot. */
module Process {
  import opened Wrappers
  import opened Strings
  import opened Config

  /** The outcome of taking a process snapshot: None when the snapshot or its first entry
      cannot be obtained, otherwise the executable name of every entry, in snapshot order. */
  type Snapshot = Option<seq<string>>

  datatype ProcessError = SnapshotFailed

  /** The names `GetRunningProcesses` keeps: every non-empty executable name, in order. */
  function NonEmptyNames(entries: seq<string>): seq<string> {
    if entries == [] then []
    else
      var rest := NonEmptyNames(entries[..|entries| - 1]);
      if entries[|entries| - 1] != "" then rest + [entries[|entries| - 1]] else rest
  }

  /** A name is kept exactly when it is in the snapshot and is not empty. */
  lemma {:induction false} NonEmptyNamesMembers(entries: seq<string>, x: string)
    ensures x in NonEmptyNames(entries) <==> x in entries && x != ""
  {
    if entries != [] {
      var init := entries[..|entries| - 1];
      NonEmptyNamesMembers(init, x);
      assert entries == init + [entries[|entries| - 1]];
    }
  }

  /** Filtering keeps snapshot order: filtering two consecutive parts of a snapshot and
      concatenating is filtering the whole. */
  lemma {:induction false} NonEmptyNamesOrder(a: seq<string>, b: seq<string>)
    ensures NonEmptyNames(a + b) == NonEmptyNames(a) + NonEmptyNames(b)
  {
    if b == [] {
      assert a + b == a;
    } else {
      var init := b[..|b| - 1];
      assert (a + b)[..|a + b| - 1] == a + init;
      NonEmptyNamesOrder(a, init);
    }
  }

  /** `GetRunningProcesses`: the snapshot's non-empty names, or an error. */
  method GetRunningProcesses(snapshot: Snapshot) returns (r: Result<seq<string>, ProcessError>)
    ensures snapshot.None? ==> r == Err(SnapshotFailed)
    ensures snapshot.Some? ==> r == Ok(NonEmptyNames(snapshot.value))
  {
    if snapshot.None? {
      return Err(SnapshotFailed);
    }
    var entries := snapshot.value;
    var processes: seq<string> := [];
    var i := 0;
    while i < |entries|
      invariant 0 <= i <= |entries|
      invariant processes == NonEmptyNames(entries[..i])
    {
      assert entries[..i + 1][..i] == entries[..i];
      if entries[i] != "" {
        processes := processes + [entries[i]];
      }
      i := i + 1;
    }
    assert entries[..i] == entries;
    return Ok(processes);
  }

  /** Some process name equals `name` once both are lower-cased. */
  predicate Running(processes: seq<string>, name: string) {
    exists i :: 0 <= i < |processes| && ToLower(processes[i]) == ToLower(name)
  }

  /** `IsProcessRunning`: a case-insensitive search of a fresh snapshot; a snapshot
      failure is an error, not `false`. */
  method IsProcessRunning(snapshot: Snapshot, name: string) returns (r: Result<bool, ProcessError>)
    ensures snapshot.None? ==> r == Err(SnapshotFailed)
    ensures snapshot.Some? ==> r == Ok(Running(NonEmptyNames(snapshot.value), name))
  {
    var processes := GetRunningProcesses(snapshot);
    if processes.Err? {
      return Err(processes.error);
    }
    var procs := processes.value;
    var target := ToLower(name);
    for i := 0 to |procs|
      invariant forall j :: 0 <= j < i ==> ToLower(procs[j]) != target
    {
      if ToLower(procs[i]) == target {
        return Ok(true);
      }
    }
    return Ok(false);
  }

  /** A rule whose process name is empty never matches: empty names are dropped from
      the snapshot. */
  lemma EmptyNameNeverRuns(entries: seq<string>)
    ensures !Running(NonEmptyNames(entries), "")
  {
    if Running(NonEmptyNames(entries), "") {
      var i :| 0 <= i < |NonEmptyNames(entries)| && ToLower(NonEmptyNames(entries)[i]) == ToLower("");
      NonEmptyNamesMembers(entries, NonEmptyNames(entries)[i]);
    }
  }

  /** The map `MonitorProcesses` builds, rule by rule in configuration order: a running
      rule is stored under its process name as written, overwriting an earlier one. */
  function RunningRules(apps: seq<AppConfig>, processes: seq<string>): map<string, AppConfig> {
    if apps == [] then map[]
    else
      var m := RunningRules(apps[..|apps| - 1], processes);
      var app := apps[|apps| - 1];
      if Running(processes, app.processName) then m[app.processName := app] else m
  }

  /** A key is present exactly when some rule has that process name and it is running. */
  lemma {:induction false} RunningRulesKeys(apps: seq<AppConfig>, processes: seq<string>, k: string)
    ensures k in RunningRules(apps, processes) <==>
            (exists i :: 0 <= i < |apps| && apps[i].processName == k) && Running(processes, k)
  {
    if apps != [] {
      var init := apps[..|apps| - 1];
      RunningRulesKeys(init, processes, k);
      if exists i :: 0 <= i < |init| && init[i].processName == k {
        var i :| 0 <= i < |init| && init[i].processName == k;
        assert apps[i].processName == k;
      }
      if exists i :: 0 <= i < |apps| && apps[i].processName == k {
        var i :| 0 <= i < |apps| && apps[i].processName == k;
        if i < |init| {
          assert init[i].processName == k;
        }
      }
    }
  }

  /** When several rules share a process name, the stored rule is the last of them. */
  lemma {:induction false} RunningRulesLastWins(apps: seq<AppConfig>, processes: seq<string>, k: string)
    requires k in RunningRules(apps, processes)
    ensures exists i :: 0 <= i < |apps| && apps[i] == RunningRules(apps, processes)[k] && apps[i].processName == k
              && forall j :: i < j < |apps| ==> apps[j].processName != k
  {
    var init := apps[..|apps| - 1];
    var last := apps[|apps| - 1];
    if Running(processes, last.processName) && last.processName == k {
      assert apps[|apps| - 1] == RunningRules(apps, processes)[k];
    } else {
      RunningRulesKeys(init, processes, k);
      RunningRulesLastWins(init, processes, k);
      var i :| 0 <= i < |init| && init[i] == RunningRules(init, processes)[k] && init[i].processName == k
                && forall j :: i < j < |init| ==> init[j].processName != k;
      assert apps[i] == init[i];
      assert forall j :: i < j < |apps| ==> apps[j].processName != k by {
        forall j | i < j < |apps| ensures apps[j].processName != k {
          if j < |init| { assert apps[j] == init[j]; }
        }
      }
    }
  }

  /** The stored rule is always one with the key as its process name. */
  lemma RunningRulesNames(apps: seq<AppConfig>, processes: seq<string>)
    ensures forall k :: k in RunningRules(apps, processes) ==> RunningRules(apps, processes)[k].processName == k
  {
    forall k | k in RunningRules(apps, processes)
      ensures RunningRules(apps, processes)[k].processName == k
    {
      RunningRulesLastWins(apps, processes, k);
    }
  }

  /** The outcome of one process scan, as `MonitorProcesses` computes it. */
  function Scan(apps: seq<AppConfig>, snapshot: Snapshot): Result<map<string, AppConfig>, ProcessError> {
    if snapshot.Some? then Ok(RunningRules(apps, NonEmptyNames(snapshot.value)))
    else if apps == [] then Ok(map[])
    else Err(SnapshotFailed)
  }

  /** `MonitorProcesses`: every rule is checked against the tick's snapshot; a failed check
      aborts with an error and no map. */
  method MonitorProcesses(apps: seq<AppConfig>, snapshot: Snapshot)
    returns (r: Result<map<string, AppConfig>, ProcessError>)
    ensures snapshot.None? && apps != [] ==> r == Err(SnapshotFailed)
    ensures snapshot.None? && apps == [] ==> r == Ok(map[])
    ensures snapshot.Some? ==> r == Ok(RunningRules(apps, NonEmptyNames(snapshot.value)))
    ensures r == Scan(apps, snapshot)
  {
    var runningApps: map<string, AppConfig> := map[];
    for i := 0 to |apps|
      invariant snapshot.None? ==> i == 0 && runningApps == map[]
      invariant snapshot.Some? ==> runningApps == RunningRules(apps[..i], NonEmptyNames(snapshot.value))
    {
      var isRunning := IsProcessRunning(snapshot, apps[i].processName);
      if isRunning.Err? {
        return Err(isRunning.error);
      }
      assert apps[..i + 1][..i] == apps[..i];
      if isRunning.value {
        runningApps := runningApps[apps[i].processName := apps[i]];
      }
    }
    if snapshot.Some? {
      assert apps[..|apps|] == apps;
    }
    return Ok(runningApps);
  }
}
