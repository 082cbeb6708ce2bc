/**
 * The `render` command (py_netauto/cli/commands/render.py): select hosts by
 * filter, run the rendering task on them, turn each host's outcome into a
 * device result and exit 1 exactly when a device failed or an exception was
 * caught.
 */
module RenderCommand {
  import opened Wrappers
  import opened Text
  import CliModels
  import Inventory
  import opened CliRun

  /** The operation name of every rendering report. */
  const RenderOperation := "Configuration Rendering"

  /** The Nornir task `render_command` runs on the selected hosts. */
  const RenderTask := "render_configs"

  /** Where a host's rendered configuration is reported to be written. */
  function RenderedMessage(outputPath: string, hostname: string): string {
    "Configuration rendered to " + outputPath + "/" + hostname + ".cfg"
  }

  /**
   * The device result decided for one host: a failed host is FAILED with its
   * exception text (or "Unknown error"), any other is SUCCESS naming the
   * output file; neither carries a diff.
   */
  function RenderEntry(outputPath: string, hostname: string, outcome: Inventory.TaskOutcome<()>): (e: Entry)
    ensures e.diff == None
    ensures e.status == CliModels.Failed <==> outcome.Failed?
    ensures outcome.Failed? ==> e.message == Inventory.ErrorText(outcome.exception)
    ensures outcome.Succeeded? ==> e.status == CliModels.Success && e.message == RenderedMessage(outputPath, hostname)
  {
    match outcome
    case Failed(ex) => Entry(CliModels.Failed, Inventory.ErrorText(ex), None)
    case Succeeded(_) => Entry(CliModels.Success, RenderedMessage(outputPath, hostname), None)
  }

  /**
   * _build_operation_result: one device result per host, in result order,
   * under the operation name "Configuration Rendering".
   */
  method BuildOperationResult(results: seq<(string, Inventory.TaskOutcome<()>)>, outputPath: string)
    returns (r: Result<CliModels.OperationResult, CliModels.HostnameError>)
    ensures r.Ok? <==> forall i :: 0 <= i < |results| ==> !IsBlank(results[i].0)
    ensures r.Ok? ==> r.value.operation == RenderOperation && |r.value.deviceResults| == |results|
    ensures r.Ok? ==> forall i :: 0 <= i < |results| ==>
      r.value.deviceResults[i] == Stored(results[i].0, RenderEntry(outputPath, results[i].0, results[i].1))
  {
    r := CollectResults(RenderOperation, results, (h, o) => RenderEntry(outputPath, h, o));
  }

  /**
   * A run of the rendering part of render_command: the render task on every
   * host; a blank hostname raises the ValueError and ends the run; otherwise
   * one record per host by the rendering rule, the summary, and exit 1
   * exactly when a device failed.
   */
  predicate RenderRun(hosts: seq<Inventory.Host>, outputPath: string, remote: string -> Inventory.TaskOutcome<()>, run: CommandRun) {
    && (run.code == 0 || run.code == 1)
    && (run.report.None? <==> exists i :: 0 <= i < |hosts| && IsBlank(hosts[i].name))
    && (run.report.None? ==> run == CommandRun(1, [RunTask(RenderTask, Inventory.Names(hosts))], None, Some(ValueError)))
    && (run.report.Some? ==>
      var o := run.report.value;
      o.operation == RenderOperation && run.error.None? && run.code == ExitCodeFor(o) &&
      run.steps == [RunTask(RenderTask, Inventory.Names(hosts)), ShowSummary(CliModels.ToSummary(o))] &&
      |o.deviceResults| == |hosts| &&
      (forall i :: 0 <= i < |hosts| ==>
        o.deviceResults[i] == Stored(hosts[i].name, RenderEntry(outputPath, hosts[i].name, remote(hosts[i].name)))) &&
      o.FailedCount() == Inventory.FailedOutcomes(Inventory.Run(hosts, remote)))
  }

  /**
   * The rendering part of render_command: run the render task on the selected
   * hosts, build the report, show its summary, and exit 1 exactly when a
   * device failed.
   */
  method RenderHosts(hosts: seq<Inventory.Host>, outputPath: string, remote: string -> Inventory.TaskOutcome<()>)
    returns (run: CommandRun)
    ensures run.code == 0 || run.code == 1
    ensures |run.steps| >= 1 && run.steps[0] == RunTask(RenderTask, Inventory.Names(hosts))
    ensures forall i :: 1 <= i < |run.steps| ==> !run.steps[i].RunTask?
    ensures run.report.Some? ==> run.report.value.operation == RenderOperation && run.error.None? && run.code == ExitCodeFor(run.report.value)
    ensures run.report.Some? ==> run.report.value.FailedCount() == Inventory.FailedOutcomes(Inventory.Run(hosts, remote))
    ensures run.code == 1 <==> run.error.Some? || (run.report.Some? && run.report.value.FailedCount() > 0)
    ensures RenderRun(hosts, outputPath, remote, run)
  {
    var classify := (h, o) => RenderEntry(outputPath, h, o);
    assert forall i :: 0 <= i < |hosts| ==>
      classify(hosts[i].name, remote(hosts[i].name)) == RenderEntry(outputPath, hosts[i].name, remote(hosts[i].name));
    run := RunAndReport(RenderTask, RenderOperation, hosts, remote, classify);
    if run.report.Some? {
      ReportedFailures(hosts, remote, classify, run.report.value);
    }
  }

  /**
   * When the render task fails on every host, as the extra keyword arguments
   * `render_command` passes to `render_configs` make it do, a render run of a
   * non-empty selection exits 1 with every record FAILED.
   */
  lemma RenderAllFailed(hosts: seq<Inventory.Host>, outputPath: string, remote: string -> Inventory.TaskOutcome<()>, run: CommandRun)
    requires hosts != []
    requires forall i :: 0 <= i < |hosts| ==> remote(hosts[i].name).Failed?
    requires RenderRun(hosts, outputPath, remote, run)
    ensures run.code == 1
    ensures run.report.Some? ==> forall i :: 0 <= i < |run.report.value.deviceResults| ==>
      run.report.value.deviceResults[i].status == CliModels.Failed
  {
    if run.report.Some? {
      var o := run.report.value;
      assert o.deviceResults[0].status == CliModels.Failed;
    }
  }

  /**
   * render_command. The environment is given as inputs: `paths` is the
   * exception the path set-up raises (if any), `inventory` the initialised
   * inventory or its exception, and `remote` each host's outcome of the
   * rendering task.
   */
  method Render(
    filters: Option<seq<string>>,
    paths: Option<ErrorKind>,
    inventory: Result<seq<Inventory.Host>, ErrorKind>,
    outputPath: string,
    remote: string -> Inventory.TaskOutcome<()>)
    returns (run: CommandRun)
    ensures run.code == 0 || run.code == 1
    ensures paths.Some? ==> run == CommandRun(1, [PreparePaths], None, paths)
    ensures paths.None? && inventory.Err? ==> run == CommandRun(1, [PreparePaths, InitInventory], None, Some(inventory.error))
    ensures paths.None? && inventory.Ok? && SelectHosts(inventory.value, filters).Err? ==>
      run == CommandRun(1, [PreparePaths, InitInventory], None, Some(ValueError))
    ensures paths.None? && inventory.Ok? && SelectHosts(inventory.value, filters) == Ok([]) ==>
      run == CommandRun(0, [PreparePaths, InitInventory], None, None)
    ensures RanTask(run.steps) <==>
      (paths.None? && inventory.Ok? && SelectHosts(inventory.value, filters).Ok? && SelectHosts(inventory.value, filters).value != [])
    ensures RanTask(run.steps) ==>
      |run.steps| >= 3 && run.steps[2] == RunTask(RenderTask, Inventory.Names(SelectHosts(inventory.value, filters).value))
    ensures run.report.Some? ==> run.report.value.operation == RenderOperation && run.error.None? && run.code == ExitCodeFor(run.report.value)
    ensures run.report.Some? ==>
      run.report.value.FailedCount() == Inventory.FailedOutcomes(Inventory.Run(SelectHosts(inventory.value, filters).value, remote))
    ensures run.code == 1 <==> run.error.Some? || (run.report.Some? && run.report.value.FailedCount() > 0)
    ensures RanTask(run.steps) ==>
      RenderRun(SelectHosts(inventory.value, filters).value, outputPath, remote, run.(steps := run.steps[2..]))
  {
    var steps := [PreparePaths];
    if paths.Some? {
      return CommandRun(1, steps, None, paths);
    }
    steps := steps + [InitInventory];
    if inventory.Err? {
      return CommandRun(1, steps, None, Some(inventory.error));
    }
    var selected := SelectHosts(inventory.value, filters);
    if selected.Err? {
      return CommandRun(1, steps, None, Some(ValueError));
    }
    var hosts := selected.value;
    if hosts == [] {
      return CommandRun(0, steps, None, None);
    }
    var tail := RenderHosts(hosts, outputPath, remote);
    run := tail.(steps := steps + tail.steps);
    assert run.steps[2] == tail.steps[0];
    assert run.(steps := run.steps[2..]) == tail;
  }
}
