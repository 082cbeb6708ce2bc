/**
 * What the commands share: the host selection by `--filter`, the steps a
 * command run goes through with the outside world, and its exit code.
 */
module CliRun {
  import opened Wrappers
  import opened Text
  import Filters
  import CliModels
  import Inventory

  /** The exception classes the commands tell apart. */
  datatype ErrorKind = ValueError | FileNotFound | PermissionDenied | OtherError

  /** The exchanges of a command run with the outside world, in the order they happen. */
  datatype Step =
    | PreparePaths                                    // path manager set-up and directory checks
    | ListConfigs                                     // the `*.cfg` glob of the output directory
    | InitInventory                                   // initialize_nornir()
    | AskConfirmation                                 // a yes/no prompt
    | AskChoice                                       // the three-way menu or the session-number prompt
    | RunTask(task: string, hosts: seq<string>)       // nr.run(task) on these hosts
    | ShowSummary(summary: CliModels.Summary)         // display_operation_summary

  /** How a command run ended. */
  datatype CommandRun = CommandRun(
    code: nat,                                        // the process exit code
    steps: seq<Step>,
    report: Option<CliModels.OperationResult>,        // the aggregated device results, once built
    error: Option<ErrorKind>)                         // the exception a handler caught, if any

  /** Whether a command reached a Nornir task run. */
  predicate RanTask(steps: seq<Step>) {
    exists i :: 0 <= i < |steps| && steps[i].RunTask?
  }

  /** The exit code after a completed operation: 1 exactly when some device failed. */
  function ExitCodeFor(o: CliModels.OperationResult): (code: nat)
    ensures code == 1 <==> exists i :: 0 <= i < |o.deviceResults| && o.deviceResults[i].status == CliModels.Failed
    ensures code == 0 || code == 1
  {
    CliModels.FailedCountPositiveIff(o);
    if o.FailedCount() > 0 then 1 else 0
  }

  /**
   * The filtering the commands do before any task: build the filter
   * expression from the `--filter` list, and filter the inventory only when it
   * yields a predicate. A syntax error surfaces as the ValueError it raises.
   */
  function SelectHosts(hosts: seq<Inventory.Host>, filters: Option<seq<string>>): (r: Result<seq<Inventory.Host>, Filters.FilterError>)
    ensures r.Ok? ==> |r.value| <= |hosts| && forall h :: h in r.value ==> h in hosts
  {
    match CliModels.FromCliArgs(filters)
    case Err(e) => Err(e)
    case Ok(expr) =>
      if expr.filter.None? then Ok(hosts) else Ok(Inventory.FilterHosts(hosts, expr.filter.value))
  }

  /**
   * Without clauses the inventory is returned unchanged; otherwise the
   * selection is a sub-list of it, and it fails exactly on a syntax error.
   */
  lemma SelectHostsBasics(hosts: seq<Inventory.Host>, filters: Option<seq<string>>)
    ensures (filters.None? || filters.value == []) ==> SelectHosts(hosts, filters) == Ok(hosts)
    ensures SelectHosts(hosts, filters).Ok? ==>
      |SelectHosts(hosts, filters).value| <= |hosts| && forall h :: h in SelectHosts(hosts, filters).value ==> h in hosts
    ensures SelectHosts(hosts, filters).Err? <==> CliModels.FromCliArgs(filters).Err?
  {
  }

  /** With clauses given, a host is selected exactly when it is in the inventory and every clause matches it. */
  lemma SelectHostsMembers(hosts: seq<Inventory.Host>, clauses: seq<string>, h: Inventory.Host)
    requires clauses != [] && SelectHosts(hosts, Some(clauses)).Ok?
    ensures h in SelectHosts(hosts, Some(clauses)).value <==>
      (h in hosts && forall i :: 0 <= i < |clauses| ==> Filters.Matches(Filters.ParseSingleFilter(clauses[i]).value, h.attrs))
  {
    CliModels.FromCliArgsSemantics(clauses, h.attrs);
    var p := CliModels.FromCliArgs(Some(clauses)).value.filter.value;
    if h in hosts && Filters.Matches(p, h.attrs) {
      Inventory.FilterHostsComplete(hosts, p, h);
    }
  }

  /** With one device result per outcome, failed exactly where the outcome failed, the failure counts agree. */
  lemma {:induction false} FailuresMatch<T>(ds: seq<CliModels.DeviceResult>, rs: seq<(string, Inventory.TaskOutcome<T>)>)
    requires |ds| == |rs|
    requires forall i :: 0 <= i < |rs| ==> (ds[i].status == CliModels.Failed <==> rs[i].1.Failed?)
    ensures CliModels.Count(ds, CliModels.Failed) == Inventory.FailedOutcomes(rs)
    decreases |rs|
  {
    if rs != [] {
      FailuresMatch(ds[..|ds| - 1], rs[..|rs| - 1]);
    }
  }

  /** What a command decides for one host: the status, message and diff of its device result. */
  datatype Entry = Entry(status: CliModels.OperationStatus, message: string, diff: Option<string>)

  /** The device result a valid hostname is stored under: the name stripped, the entry as decided. */
  function Stored(hostname: string, e: Entry): (d: CliModels.DeviceResult)
    ensures d.hostname == Trim(hostname) && d.status == e.status && d.message == e.message && d.diff == e.diff
  {
    CliModels.DeviceResult(Trim(hostname), e.status, e.message, e.diff)
  }

  /**
   * The loop over `result.items()` shared by the render and push commands:
   * one validated device result per host, in result order, appended to a
   * report that starts empty. A blank hostname fails validation and ends
   * the loop with its error.
   */
  method CollectResults<T>(
    operation: string,
    results: seq<(string, Inventory.TaskOutcome<T>)>,
    classify: (string, Inventory.TaskOutcome<T>) -> Entry)
    returns (r: Result<CliModels.OperationResult, CliModels.HostnameError>)
    ensures r.Ok? <==> forall i :: 0 <= i < |results| ==> !IsBlank(results[i].0)
    ensures r.Ok? ==> r.value.operation == operation && |r.value.deviceResults| == |results|
    ensures r.Ok? ==> forall i :: 0 <= i < |results| ==>
      r.value.deviceResults[i] == Stored(results[i].0, classify(results[i].0, results[i].1))
  {
    var report := CliModels.OperationResult(operation, []);
    var i := 0;
    while i < |results|
      invariant 0 <= i <= |results|
      invariant report.operation == operation && |report.deviceResults| == i
      invariant forall j :: 0 <= j < i ==> !IsBlank(results[j].0)
      invariant forall j :: 0 <= j < i ==> report.deviceResults[j] == Stored(results[j].0, classify(results[j].0, results[j].1))
    {
      var (hostname, outcome) := results[i];
      var e := classify(hostname, outcome);
      var entry := CliModels.NewDeviceResult(hostname, e.status, e.message, e.diff);
      if entry.Err? {
        return Err(entry.error);
      }
      report := report.(deviceResults := report.deviceResults + [entry.value]);
      i := i + 1;
    }
    return Ok(report);
  }

  /**
   * Run a task on the selected hosts, collect the report, show its summary
   * and exit 1 exactly when a device failed. A hostname that fails
   * validation raises the ValueError a pydantic ValidationError is, which
   * exits 1 as well.
   */
  method RunAndReport<T>(
    task: string,
    operation: string,
    hosts: seq<Inventory.Host>,
    remote: string -> Inventory.TaskOutcome<T>,
    classify: (string, Inventory.TaskOutcome<T>) -> Entry)
    returns (run: CommandRun)
    ensures run.code == 0 || run.code == 1
    ensures |run.steps| >= 1 && run.steps[0] == RunTask(task, Inventory.Names(hosts))
    ensures run.report.None? <==> exists i :: 0 <= i < |hosts| && IsBlank(hosts[i].name)
    ensures run.report.None? ==> run.code == 1 && run.error == Some(ValueError) && |run.steps| == 1
    ensures run.report.Some? ==>
      run.report.value.operation == operation && run.error.None? && run.code == ExitCodeFor(run.report.value) &&
      run.steps == [RunTask(task, Inventory.Names(hosts)), ShowSummary(CliModels.ToSummary(run.report.value))]
    ensures run.report.Some? ==> |run.report.value.deviceResults| == |hosts| && forall i :: 0 <= i < |hosts| ==>
      run.report.value.deviceResults[i] == Stored(hosts[i].name, classify(hosts[i].name, remote(hosts[i].name)))
    ensures run.code == 1 <==> run.error.Some? || (run.report.Some? && run.report.value.FailedCount() > 0)
  {
    var steps := [RunTask(task, Inventory.Names(hosts))];
    var results := Inventory.Run(hosts, remote);
    var built := CollectResults(operation, results, classify);
    if built.Err? {
      var i :| 0 <= i < |results| && IsBlank(results[i].0);
      assert IsBlank(hosts[i].name);
      return CommandRun(1, steps, None, Some(ValueError));
    }
    var report := built.value;
    steps := steps + [ShowSummary(CliModels.ToSummary(report))];
    run := CommandRun(ExitCodeFor(report), steps, Some(report), None);
  }

  /** When the classification fails exactly the failed outcomes, the report's failures are the failed hosts. */
  lemma ReportedFailures<T>(
    hosts: seq<Inventory.Host>,
    remote: string -> Inventory.TaskOutcome<T>,
    classify: (string, Inventory.TaskOutcome<T>) -> Entry,
    report: CliModels.OperationResult)
    requires |report.deviceResults| == |hosts|
    requires forall i :: 0 <= i < |hosts| ==>
      report.deviceResults[i] == Stored(hosts[i].name, classify(hosts[i].name, remote(hosts[i].name)))
    requires forall i :: 0 <= i < |hosts| ==>
      (classify(hosts[i].name, remote(hosts[i].name)).status == CliModels.Failed <==> remote(hosts[i].name).Failed?)
    ensures report.FailedCount() == Inventory.FailedOutcomes(Inventory.Run(hosts, remote))
  {
    FailuresMatch(report.deviceResults, Inventory.Run(hosts, remote));
  }
}
