/**
 * The `push` command (py_netauto/cli/commands/push.py): gates on the flags,
 * the output directory, the inventory and the filter, a confirmation in
 * commit mode, then one device result per host from the dry-run or commit
 * task, exiting 1 exactly when a device failed.
 */
module PushCommand {
  import opened Wrappers
  import opened Text
  import CliModels
  import Inventory
  import opened CliRun

  /** The two ways of pushing. */
  datatype Mode = DryRun | Commit

  /**
   * The flag check and mode choice: both flags together are refused; commit
   * mode needs `--commit` alone, and without either flag the push is a dry
   * run.
   */
  function ModeOf(dryRun: bool, commit: bool): (m: Option<Mode>)
    ensures m.None? <==> dryRun && commit
    ensures m == Some(Commit) <==> commit && !dryRun
    ensures m == Some(DryRun) <==> !commit
  {
    if dryRun && commit then None
    else if commit && !dryRun then Some(Commit)
    else Some(DryRun)
  }

  /** The operation name of each mode's report. */
  function OperationName(m: Mode): (name: string)
    ensures name != []
    ensures name == (if m == Commit then "Push (Commit)" else "Push (Dry-Run)")
  {
    match m
    case DryRun => "Push (Dry-Run)"
    case Commit => "Push (Commit)"
  }

  /** The Nornir task each mode runs on the selected hosts. */
  function TaskName(m: Mode): (task: string)
    ensures task == (if m == Commit then "config_device_commit" else "config_device_dry_run")
  {
    match m
    case DryRun => "config_device_dry_run"
    case Commit => "config_device_commit"
  }

  /**
   * What a host's non-failed task run holds: no sub-results at all, or a
   * first sub-result whose `result` is a text or None.
   */
  datatype MultiResult = NoResults | FirstResult(result: Option<string>)

  /** `multi_result[0].result if multi_result else ""` */
  function DiffOf(m: MultiResult): (diff: Option<string>)
    ensures m.NoResults? ==> diff == Some("")
    ensures m.FirstResult? ==> diff == m.result
  {
    match m
    case NoResults => Some("")
    case FirstResult(r) => r
  }

  /** `diff and diff.strip()`: a diff that is present and not all whitespace. */
  predicate HasChanges(diff: Option<string>) {
    diff.Some? && Trim(diff.value) != []
  }

  /** A diff has changes exactly when it is present and not blank. */
  lemma HasChangesIffNotBlank(diff: Option<string>)
    ensures HasChanges(diff) <==> diff.Some? && !IsBlank(diff.value)
  {
    if diff.Some? {
      TrimEmptyIffBlank(diff.value);
    }
  }

  /**
   * The dry-run rule for one host: failed is FAILED with the exception text,
   * a diff with changes is SUCCESS carrying it, and anything else is SKIPPED;
   * only SUCCESS carries a diff.
   */
  function DryRunEntry(outcome: Inventory.TaskOutcome<MultiResult>): (e: Entry)
    ensures e.status == CliModels.Failed <==> outcome.Failed?
    ensures outcome.Failed? ==> e.message == Inventory.ErrorText(outcome.exception) && e.diff == None
    ensures e.status == CliModels.Success <==> outcome.Succeeded? && HasChanges(DiffOf(outcome.result))
    ensures e.status == CliModels.Success ==> e.message == "Diff retrieved successfully" && e.diff == DiffOf(outcome.result)
    ensures e.status == CliModels.Skipped ==> e.message == "No configuration changes" && e.diff == None
  {
    match outcome
    case Failed(ex) => Entry(CliModels.Failed, Inventory.ErrorText(ex), None)
    case Succeeded(m) =>
      var diff := DiffOf(m);
      if HasChanges(diff) then Entry(CliModels.Success, "Diff retrieved successfully", diff)
      else Entry(CliModels.Skipped, "No configuration changes", None)
  }

  /** A dry run without sub-results, with a None diff or with a whitespace-only diff skips the host. */
  lemma DryRunWithoutChangesSkips(m: MultiResult)
    requires m.NoResults? || m.result.None? || IsBlank(m.result.value)
    ensures DryRunEntry(Inventory.Succeeded(m)).status == CliModels.Skipped
  {
    HasChangesIffNotBlank(DiffOf(m));
  }

  /**
   * The commit rule for one host: failed is FAILED with "Commit failed: "
   * before the exception text, and any other is SUCCESS carrying its diff,
   * even an empty one.
   */
  function CommitEntry(outcome: Inventory.TaskOutcome<MultiResult>): (e: Entry)
    ensures e.status == CliModels.Failed <==> outcome.Failed?
    ensures e.status != CliModels.Skipped
    ensures outcome.Failed? ==> e.message == "Commit failed: " + Inventory.ErrorText(outcome.exception) && e.diff == None
    ensures outcome.Succeeded? ==> e.message == "Configuration committed successfully" && e.diff == DiffOf(outcome.result)
  {
    match outcome
    case Failed(ex) => Entry(CliModels.Failed, "Commit failed: " + Inventory.ErrorText(ex), None)
    case Succeeded(m) => Entry(CliModels.Success, "Configuration committed successfully", DiffOf(m))
  }

  /** A committed host is a success whatever its diff, and a dry run of it shows a change only when the diff has one. */
  lemma CommitIgnoresDiff(m: MultiResult)
    ensures CommitEntry(Inventory.Succeeded(m)).status == CliModels.Success
    ensures DryRunEntry(Inventory.Succeeded(m)).status == CliModels.Success <==> HasChanges(DiffOf(m))
  {
  }

  /** The per-host rule of a mode. */
  function EntryFor(mode: Mode, outcome: Inventory.TaskOutcome<MultiResult>): (e: Entry)
    ensures e.status == CliModels.Failed <==> outcome.Failed?
    ensures mode == DryRun ==> e == DryRunEntry(outcome)
    ensures mode == Commit ==> e == CommitEntry(outcome)
  {
    match mode
    case DryRun => DryRunEntry(outcome)
    case Commit => CommitEntry(outcome)
  }

  /**
   * A run of the mode's task: the task on every host, then the summary when
   * a report was built; a blank hostname raises the ValueError and gives no
   * report; otherwise one record per host by the mode's rule, and exit 1
   * exactly when a device failed.
   */
  predicate ExecuteRun(mode: Mode, hosts: seq<Inventory.Host>, remote: string -> Inventory.TaskOutcome<MultiResult>, run: CommandRun) {
    && (run.code == 0 || run.code == 1)
    && run.steps == [RunTask(TaskName(mode), Inventory.Names(hosts))] +
      (if run.report.Some? then [ShowSummary(CliModels.ToSummary(run.report.value))] else [])
    && (run.report.None? <==> exists i :: 0 <= i < |hosts| && IsBlank(hosts[i].name))
    && (run.report.None? ==> run.code == 1 && run.error == Some(ValueError))
    && (run.report.Some? ==> run.report.value.operation == OperationName(mode) && run.error.None? && run.code == ExitCodeFor(run.report.value))
    && (run.report.Some? ==> |run.report.value.deviceResults| == |hosts| && forall i :: 0 <= i < |hosts| ==>
      run.report.value.deviceResults[i] == Stored(hosts[i].name, EntryFor(mode, remote(hosts[i].name))))
    && (run.report.Some? ==>
      run.report.value.FailedCount() == Inventory.FailedOutcomes(Inventory.Run(hosts, remote)))
  }

  /**
   * _execute_dry_run and _execute_commit: run the mode's task, one device
   * result per host by the mode's rule, the summary, and exit 1 exactly when
   * a device failed (or a hostname fails validation).
   */
  method Execute(mode: Mode, hosts: seq<Inventory.Host>, remote: string -> Inventory.TaskOutcome<MultiResult>)
    returns (run: CommandRun)
    ensures ExecuteRun(mode, hosts, remote, run)
  {
    var classify := (h: string, o: Inventory.TaskOutcome<MultiResult>) => EntryFor(mode, o);
    assert forall i :: 0 <= i < |hosts| ==> classify(hosts[i].name, remote(hosts[i].name)) == EntryFor(mode, remote(hosts[i].name));
    run := RunAndReport(TaskName(mode), OperationName(mode), hosts, remote, classify);
    if run.report.Some? {
      ReportedFailures(hosts, remote, classify, run.report.value);
    }
  }

  /** The steps up to the mode's task: the gates, and the confirmation in commit mode without `--force`. */
  function GateSteps(mode: Mode, force: bool): (steps: seq<Step>)
    ensures |steps| == (if mode == Commit && !force then 4 else 3)
    ensures steps[..3] == [PreparePaths, ListConfigs, InitInventory]
    ensures AskConfirmation in steps <==> mode == Commit && !force
  {
    [PreparePaths, ListConfigs, InitInventory] + (if mode == Commit && !force then [AskConfirmation] else [])
  }

  /**
   * The part of push_command after a non-empty host selection: the commit
   * warning asks for confirmation unless `--force` is given, a declined
   * commit exits 0 without running anything, and otherwise the mode's task
   * runs after the gate steps.
   */
  method Proceed(mode: Mode, force: bool, confirmed: bool, hosts: seq<Inventory.Host>,
                 remote: string -> Inventory.TaskOutcome<MultiResult>)
    returns (run: CommandRun)
    ensures run.code == 0 || run.code == 1
    ensures mode == Commit && !force && !confirmed ==> run == CommandRun(0, GateSteps(Commit, false), None, None)
    ensures RanTask(run.steps) <==> !(mode == Commit && !force && !confirmed)
    ensures RanTask(run.steps) ==>
      |run.steps| > |GateSteps(mode, force)| && run.steps[..|GateSteps(mode, force)|] == GateSteps(mode, force) &&
      run.steps[|GateSteps(mode, force)|] == RunTask(TaskName(mode), Inventory.Names(hosts))
    ensures mode == DryRun ==> AskConfirmation !in run.steps
    ensures run.report.Some? ==>
      run.report.value.operation == OperationName(mode) && run.error.None? &&
      run.code == ExitCodeFor(run.report.value) &&
      run.report.value.FailedCount() == Inventory.FailedOutcomes(Inventory.Run(hosts, remote))
    ensures run.error.Some? ==> run.code == 1
    ensures RanTask(run.steps) ==> ExecuteRun(mode, hosts, remote, run.(steps := run.steps[|GateSteps(mode, force)|..]))
  {
    var steps := GateSteps(mode, force);
    if mode == Commit && !force && !confirmed {
      return CommandRun(0, steps, None, None);
    }
    var tail := Execute(mode, hosts, remote);
    run := tail.(steps := steps + tail.steps);
    assert run.steps[|steps|] == tail.steps[0];
    assert run.steps[..|steps|] == steps;
    assert tail.steps[0] in run.steps;
    assert run.(steps := run.steps[|steps|..]) == tail;
  }

  /**
   * push_command. The environment is given as inputs: `paths` is the
   * exception the path set-up raises (if any), `configFiles` the number of
   * `*.cfg` files found, `inventory` the initialised inventory or its
   * exception, `confirmed` the answer to the commit prompt and `remote` each
   * host's outcome of the mode's task.
   */
  method Push(
    filters: Option<seq<string>>,
    dryRun: bool,
    commit: bool,
    force: bool,
    paths: Option<ErrorKind>,
    configFiles: nat,
    inventory: Result<seq<Inventory.Host>, ErrorKind>,
    confirmed: bool,
    remote: string -> Inventory.TaskOutcome<MultiResult>)
    returns (run: CommandRun)
    ensures run.code == 0 || run.code == 1
    ensures dryRun && commit ==> run == CommandRun(1, [], None, None)
    ensures !(dryRun && commit) && paths.Some? ==> run == CommandRun(1, [PreparePaths], None, paths)
    ensures !(dryRun && commit) && paths.None? && configFiles == 0 ==>
      run == CommandRun(1, [PreparePaths, ListConfigs], None, None)
    ensures !(dryRun && commit) && paths.None? && configFiles > 0 && inventory.Err? ==>
      run == CommandRun(1, [PreparePaths, ListConfigs, InitInventory], None, Some(inventory.error))
    ensures !(dryRun && commit) && paths.None? && configFiles > 0 && inventory.Ok? ==>
      (SelectHosts(inventory.value, filters).Err? ==>
        run == CommandRun(1, [PreparePaths, ListConfigs, InitInventory], None, Some(ValueError))) &&
      (SelectHosts(inventory.value, filters) == Ok([]) ==>
        run == CommandRun(0, [PreparePaths, ListConfigs, InitInventory], None, None))
    ensures (!(dryRun && commit) && paths.None? && configFiles > 0 && inventory.Ok? && commit && !force && !confirmed &&
      SelectHosts(inventory.value, filters).Ok? && SelectHosts(inventory.value, filters).value != []) ==>
      run == CommandRun(0, GateSteps(Commit, false), None, None)
    ensures RanTask(run.steps) <==>
      (!(dryRun && commit) && paths.None? && configFiles > 0 && inventory.Ok? &&
       SelectHosts(inventory.value, filters).Ok? && SelectHosts(inventory.value, filters).value != [] &&
       (!commit || force || confirmed))
    ensures RanTask(run.steps) ==>
      var mode := ModeOf(dryRun, commit).value;
      |run.steps| > |GateSteps(mode, force)| && run.steps[..|GateSteps(mode, force)|] == GateSteps(mode, force) &&
      run.steps[|GateSteps(mode, force)|] == RunTask(TaskName(mode), Inventory.Names(SelectHosts(inventory.value, filters).value))
    ensures !commit ==> AskConfirmation !in run.steps
    ensures run.report.Some? ==>
      run.report.value.operation == OperationName(ModeOf(dryRun, commit).value) && run.error.None? &&
      run.code == ExitCodeFor(run.report.value) &&
      run.report.value.FailedCount() == Inventory.FailedOutcomes(Inventory.Run(SelectHosts(inventory.value, filters).value, remote))
    ensures run.error.Some? ==> run.code == 1
    ensures RanTask(run.steps) ==>
      var mode := ModeOf(dryRun, commit).value;
      ExecuteRun(mode, SelectHosts(inventory.value, filters).value, remote, run.(steps := run.steps[|GateSteps(mode, force)|..]))
  {
    var m := ModeOf(dryRun, commit);
    if m.None? {
      return CommandRun(1, [], None, None);
    }
    var mode := m.value;
    if paths.Some? {
      return CommandRun(1, [PreparePaths], None, paths);
    }
    if configFiles == 0 {
      return CommandRun(1, [PreparePaths, ListConfigs], None, None);
    }
    var steps := [PreparePaths, ListConfigs, InitInventory];
    if inventory.Err? {
      return CommandRun(1, steps, None, Some(inventory.error));
    }
    var selected := SelectHosts(inventory.value, filters);
    if selected.Err? {
      return CommandRun(1, steps, None, Some(ValueError));
    }
    var hosts := selected.value;
    if hosts == [] {
      return CommandRun(0, steps, None, None);
    }
    run := Proceed(mode, force, confirmed, hosts, remote);
  }
}
