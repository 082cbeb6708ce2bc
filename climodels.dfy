/**
 * The command line's data records (py_netauto/cli/models.py): a parsed filter
 * expression, the status of one device's operation, one device's result and
 * the aggregate over all devices with its derived counts.
 */
module CliModels {
  import opened Wrappers
  import opened Text
  import Filters

  /** A parsed `--filter` list: the clauses as given, the compiled predicate and its display text. */
  datatype FilterExpression = FilterExpression(
    rawFilters: seq<string>,
    filter: Option<Filters.Predicate>,
    displayText: string)

  /** The expression built from no arguments: every field at its default. */
  const NoFilter := FilterExpression([], None, Filters.NoFiltersText)

  /**
   * from_cli_args: no clauses give the defaults; otherwise the clauses are
   * parsed, and a syntax error in any of them raises (here: is returned).
   */
  function FromCliArgs(filterStrings: Option<seq<string>>): (r: Result<FilterExpression, Filters.FilterError>)
    ensures (filterStrings.None? || filterStrings.value == []) ==> r == Ok(NoFilter)
  {
    if filterStrings.None? || filterStrings.value == [] then Ok(NoFilter)
    else
      var clauses := filterStrings.value;
      match Filters.ParseFilters(filterStrings)
      case Err(e) => Err(e)
      case Ok(p) => Ok(FilterExpression(clauses, p, Filters.FormatFilterExpression(clauses)))
  }

  /**
   * On a non-empty clause list the expression is built exactly when every
   * clause parses, and it keeps the clauses verbatim beside their conjunction
   * and their " AND " display text.
   */
  lemma FromCliArgsBuilds(clauses: seq<string>)
    requires clauses != []
    ensures FromCliArgs(Some(clauses)).Ok? <==> forall i :: 0 <= i < |clauses| ==> Filters.ParseSingleFilter(clauses[i]).Ok?
    ensures FromCliArgs(Some(clauses)).Ok? ==>
      var e := FromCliArgs(Some(clauses)).value;
      e.rawFilters == clauses && e.filter.Some? && e.displayText == Join(clauses, " AND ")
  {
    Filters.ParseFiltersSemantics(clauses, map[]);
  }

  /**
   * A successfully built expression selects exactly the hosts that every clause
   * selects, and shows one " AND " per extra clause.
   */
  lemma FromCliArgsSemantics(clauses: seq<string>, attrs: map<string, string>)
    requires clauses != []
    requires FromCliArgs(Some(clauses)).Ok?
    ensures var e := FromCliArgs(Some(clauses)).value;
      e.filter.Some? &&
      (Filters.Matches(e.filter.value, attrs) <==>
        forall i :: 0 <= i < |clauses| ==> Filters.Matches(Filters.ParseSingleFilter(clauses[i]).value, attrs))
  {
    Filters.ParseFiltersSemantics(clauses, attrs);
    FromCliArgsBuilds(clauses);
  }

  /** The three outcomes of an operation on one device. */
  datatype OperationStatus = Success | Failed | Skipped

  /** The string value of each status. */
  function StatusValue(s: OperationStatus): (v: string)
    ensures v in {"success", "failed", "skipped"}
  {
    match s
    case Success => "success"
    case Failed => "failed"
    case Skipped => "skipped"
  }

  /** Distinct statuses have distinct string values. */
  lemma StatusValueInjective(a: OperationStatus, b: OperationStatus)
    ensures StatusValue(a) == StatusValue(b) <==> a == b
  {
  }

  /** One device's result; only `NewDeviceResult` builds one from raw input. */
  datatype DeviceResult = DeviceResult(
    hostname: string,
    status: OperationStatus,
    message: string,
    diff: Option<string>)

  /** The two ways a hostname is refused. */
  datatype HostnameError =
    | TooShort     // the `min_length=1` field constraint, checked first
    | Blank        // the validator: "Hostname cannot be empty or whitespace"

  /** A stored hostname: non-empty and already stripped. */
  predicate ValidHostname(h: string) {
    h != [] && Trim(h) == h
  }

  /**
   * Validation of a DeviceResult: the empty hostname fails the length
   * constraint, a whitespace-only one fails the validator, and any other is
   * stored stripped.
   */
  function NewDeviceResult(hostname: string, status: OperationStatus, message: string, diff: Option<string>): (r: Result<DeviceResult, HostnameError>)
    ensures r.Ok? <==> !IsBlank(hostname)
    ensures r.Err? ==> r.error == (if hostname == [] then TooShort else Blank)
    ensures r.Ok? ==> r.value == DeviceResult(Trim(hostname), status, message, diff)
  {
    TrimEmptyIffBlank(hostname);
    if |hostname| < 1 then Err(TooShort)
    else if Trim(hostname) == [] then Err(Blank)
    else Ok(DeviceResult(Trim(hostname), status, message, diff))
  }

  /** A stored hostname is non-empty and already stripped. */
  lemma StoredHostnameValid(hostname: string, status: OperationStatus, message: string, diff: Option<string>)
    requires NewDeviceResult(hostname, status, message, diff).Ok?
    ensures ValidHostname(NewDeviceResult(hostname, status, message, diff).value.hostname)
  {
    TrimEmptyIffBlank(hostname);
    TrimIdempotent(hostname);
  }

  /** A DeviceResult built without a diff; `diff` then defaults to None. */
  function NewDeviceResultNoDiff(hostname: string, status: OperationStatus, message: string): (r: Result<DeviceResult, HostnameError>)
    ensures r.Ok? ==> r.value.diff == None && r.value.hostname == Trim(hostname)
    ensures r.Err? <==> IsBlank(hostname)
  {
    TrimEmptyIffBlank(hostname);
    NewDeviceResult(hostname, status, message, None)
  }

  /** Validation accepts exactly the non-blank hostnames, and a stored hostname passes it unchanged. */
  lemma HostnameRevalidates(r: DeviceResult)
    requires ValidHostname(r.hostname)
    ensures NewDeviceResult(r.hostname, r.status, r.message, r.diff) == Ok(r)
  {
    TrimEmptyIffBlank(r.hostname);
  }

  /** Hostnames with surrounding whitespace are stored without it. */
  lemma HostnameStripped(pre: string, name: string, post: string)
    requires IsBlank(pre) && IsBlank(post) && ValidHostname(name)
    ensures NewDeviceResult(pre + name + post, Success, "", None).Ok?
    ensures NewDeviceResult(pre + name + post, Success, "", None).value.hostname == name
  {
    TrimFacts(name);
    TrimAround(pre, name, post);
    TrimEmptyIffBlank(name);
    TrimEmptyIffBlank(pre + name + post);
  }

  /** The number of results with status `s`. */
  function Count(rs: seq<DeviceResult>, s: OperationStatus): (n: nat)
    ensures n <= |rs|
    decreases |rs|
  {
    if rs == [] then 0
    else Count(rs[..|rs| - 1], s) + (if rs[|rs| - 1].status == s then 1 else 0)
  }

  /** The positions holding status `s`. */
  function Positions(rs: seq<DeviceResult>, s: OperationStatus): set<nat> {
    set i: nat | i < |rs| && rs[i].status == s
  }

  /** The count is the number of entries with that status. */
  lemma {:induction false} CountIsPositions(rs: seq<DeviceResult>, s: OperationStatus)
    ensures Count(rs, s) == |Positions(rs, s)|
    decreases |rs|
  {
    if rs != [] {
      var init := rs[..|rs| - 1];
      CountIsPositions(init, s);
      if rs[|rs| - 1].status == s {
        assert Positions(rs, s) == Positions(init, s) + {|rs| - 1};
      } else {
        assert Positions(rs, s) == Positions(init, s);
      }
    } else {
      assert Positions(rs, s) == {};
    }
  }

  /** A count is positive exactly when some entry has that status. */
  lemma {:induction false} CountPositiveIff(rs: seq<DeviceResult>, s: OperationStatus)
    ensures Count(rs, s) > 0 <==> exists i :: 0 <= i < |rs| && rs[i].status == s
    decreases |rs|
  {
    if rs != [] {
      var init := rs[..|rs| - 1];
      CountPositiveIff(init, s);
      if Count(init, s) > 0 {
        var i :| 0 <= i < |init| && init[i].status == s;
        assert rs[i].status == s;
      }
      if exists i :: 0 <= i < |rs| && rs[i].status == s {
        var i :| 0 <= i < |rs| && rs[i].status == s;
        if i < |rs| - 1 {
          assert init[i].status == s;
        }
      }
    }
  }

  /** Every entry is counted under exactly one of the three statuses. */
  lemma {:induction false} CountsPartition(rs: seq<DeviceResult>)
    ensures Count(rs, Success) + Count(rs, Failed) + Count(rs, Skipped) == |rs|
    decreases |rs|
  {
    if rs != [] {
      CountsPartition(rs[..|rs| - 1]);
    }
  }

  /** Appending one result adds one to its own status's count and leaves the others. */
  lemma CountAppend(rs: seq<DeviceResult>, r: DeviceResult, s: OperationStatus)
    ensures Count(rs + [r], s) == Count(rs, s) + (if r.status == s then 1 else 0)
  {
    assert (rs + [r])[..|rs|] == rs;
  }

  /** The results of one operation over many devices. */
  datatype OperationResult = OperationResult(operation: string, deviceResults: seq<DeviceResult>) {
    function TotalDevices(): nat { |deviceResults| }
    function SuccessCount(): nat { Count(deviceResults, Success) }
    function FailedCount(): nat { Count(deviceResults, Failed) }
    function SkippedCount(): nat { Count(deviceResults, Skipped) }
  }

  /** `device_results.append(r)` adds one to the total and to its own status's count only. */
  lemma AppendResult(o: OperationResult, r: DeviceResult)
    ensures var o' := o.(deviceResults := o.deviceResults + [r]);
      o'.TotalDevices() == o.TotalDevices() + 1 &&
      o'.SuccessCount() == o.SuccessCount() + (if r.status == Success then 1 else 0) &&
      o'.FailedCount() == o.FailedCount() + (if r.status == Failed then 1 else 0) &&
      o'.SkippedCount() == o.SkippedCount() + (if r.status == Skipped then 1 else 0)
  {
    CountAppend(o.deviceResults, r, Success);
    CountAppend(o.deviceResults, r, Failed);
    CountAppend(o.deviceResults, r, Skipped);
  }

  /** Counts of an aggregate always add up to its total. */
  lemma TotalIsSum(o: OperationResult)
    ensures o.TotalDevices() == o.SuccessCount() + o.FailedCount() + o.SkippedCount()
  {
    CountsPartition(o.deviceResults);
  }

  /** Some device failed exactly when the failed count is positive. */
  lemma FailedCountPositiveIff(o: OperationResult)
    ensures o.FailedCount() > 0 <==> exists i :: 0 <= i < |o.deviceResults| && o.deviceResults[i].status == Failed
  {
    CountPositiveIff(o.deviceResults, Failed);
  }

  /** Validation of an OperationResult: the operation name must be non-empty. */
  function NewOperationResult(operation: string, deviceResults: seq<DeviceResult>): (r: Option<OperationResult>)
    ensures r.Some? <==> operation != []
    ensures r.Some? ==> r.value.operation == operation && r.value.TotalDevices() == |deviceResults|
  {
    if |operation| < 1 then None else Some(OperationResult(operation, deviceResults))
  }

  /** The record returned by to_summary_dict. */
  datatype Summary = Summary(operation: string, total: nat, success: nat, failed: nat, skipped: nat)

  /** to_summary_dict: the name and the four derived counts, which add up. */
  function ToSummary(o: OperationResult): (s: Summary)
    ensures s.operation == o.operation && s.total == |o.deviceResults|
    ensures s.total == s.success + s.failed + s.skipped
    ensures s.failed > 0 <==> exists i :: 0 <= i < |o.deviceResults| && o.deviceResults[i].status == Failed
    ensures s.success == |Positions(o.deviceResults, Success)|
    ensures s.failed == |Positions(o.deviceResults, Failed)|
    ensures s.skipped == |Positions(o.deviceResults, Skipped)|
  {
    TotalIsSum(o);
    FailedCountPositiveIff(o);
    CountIsPositions(o.deviceResults, Success);
    CountIsPositions(o.deviceResults, Failed);
    CountIsPositions(o.deviceResults, Skipped);
    Summary(o.operation, o.TotalDevices(), o.SuccessCount(), o.FailedCount(), o.SkippedCount())
  }
}
