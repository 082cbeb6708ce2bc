/**
 * The `sessions list` and `sessions abort` commands
 * (py_netauto/cli/commands/sessions.py): totals of the sessions found, the
 * flat list of sessions, the menu, the session-number parser and the two
 * ways of aborting with their device results and exit codes.
 */
module SessionsCommand {
  import opened Wrappers
  import opened Text
  import CliModels
  import Inventory
  import opened CliRun

  /** One configuration session a device reports. */
  datatype Session = Session(name: string, status: string, details: string)

  /** The payload of the session-listing task: the reported count and the sessions. */
  datatype SessionsInfo = SessionsInfo(count: int, sessions: seq<Session>)

  /** The payload of the abort-all task: `aborted_count`, when present. */
  datatype AbortInfo = AbortInfo(abortedCount: Option<int>)

  /** `abort_info.get("aborted_count", 0)` */
  function AbortedCount(info: AbortInfo): (n: int)
    ensures info.abortedCount.None? ==> n == 0
    ensures info.abortedCount.Some? ==> n == info.abortedCount.value
  {
    info.abortedCount.GetOr(0)
  }

  /** The operation name of both abort reports. */
  const AbortOperation := "Session Abort"

  /** A host whose listing succeeded with a positive count. */
  predicate HasSessions(o: Inventory.TaskOutcome<SessionsInfo>) {
    o.Succeeded? && o.result.count > 0
  }

  // ---------------------------------------------------------------------------
  // sessions list: the two counters

  /** `total_sessions`: the positive counts of the hosts whose listing succeeded, added up. */
  function TotalSessions(rs: seq<(string, Inventory.TaskOutcome<SessionsInfo>)>): (total: nat)
    decreases |rs|
  {
    if rs == [] then 0
    else TotalSessions(rs[..|rs| - 1]) + (if HasSessions(rs[|rs| - 1].1) then rs[|rs| - 1].1.result.count as nat else 0)
  }

  /** `devices_with_sessions`: the hosts whose listing succeeded with a positive count. */
  function DevicesWithSessions(rs: seq<(string, Inventory.TaskOutcome<SessionsInfo>)>): (n: nat)
    decreases |rs|
  {
    if rs == [] then 0
    else DevicesWithSessions(rs[..|rs| - 1]) + (if HasSessions(rs[|rs| - 1].1) then 1 else 0)
  }

  /**
   * Each counted host adds at least one session, so sessions were found
   * exactly when some device has them, and there are never more devices
   * than sessions or hosts.
   */
  lemma {:induction false} TotalsAgree(rs: seq<(string, Inventory.TaskOutcome<SessionsInfo>)>)
    ensures DevicesWithSessions(rs) <= TotalSessions(rs)
    ensures DevicesWithSessions(rs) <= |rs|
    ensures TotalSessions(rs) > 0 <==> DevicesWithSessions(rs) > 0
    ensures DevicesWithSessions(rs) > 0 <==> exists i :: 0 <= i < |rs| && HasSessions(rs[i].1)
    decreases |rs|
  {
    if rs != [] {
      var init := rs[..|rs| - 1];
      TotalsAgree(init);
      if exists i :: 0 <= i < |init| && HasSessions(init[i].1) {
        var i :| 0 <= i < |init| && HasSessions(init[i].1);
        assert rs[i] == init[i];
      }
      if exists i :: 0 <= i < |rs| && HasSessions(rs[i].1) {
        var i :| 0 <= i < |rs| && HasSessions(rs[i].1);
        if i < |rs| - 1 {
          assert init[i] == rs[i];
        }
      }
    }
  }

  /** The counting loop of `sessions list`: failed hosts are skipped, and only positive counts count. */
  method CountSessions(rs: seq<(string, Inventory.TaskOutcome<SessionsInfo>)>) returns (total: nat, devices: nat)
    ensures total == TotalSessions(rs) && devices == DevicesWithSessions(rs)
  {
    total, devices := 0, 0;
    var i := 0;
    while i < |rs|
      invariant 0 <= i <= |rs|
      invariant total == TotalSessions(rs[..i]) && devices == DevicesWithSessions(rs[..i])
    {
      assert rs[..i + 1][..i] == rs[..i];
      var (_, outcome) := rs[i];
      if outcome.Succeeded? {
        var count := outcome.result.count;
        if count > 0 {
          devices := devices + 1;
          total := total + count;
        }
      }
      i := i + 1;
    }
    assert rs[..|rs|] == rs;
  }

  /** The closing line of `sessions list`. */
  datatype ListSummary = Found(sessions: nat, devices: nat) | NoneFound

  /**
   * sessions_list_command. The environment is given as inputs: `inventory`
   * the initialised inventory or its exception and `remote` each host's
   * listing outcome. A failed host does not change the exit code.
   */
  method List(
    filters: Option<seq<string>>,
    inventory: Result<seq<Inventory.Host>, ErrorKind>,
    remote: string -> Inventory.TaskOutcome<SessionsInfo>)
    returns (run: CommandRun, summary: Option<ListSummary>)
    ensures run.report.None?
    ensures inventory.Err? ==> run == CommandRun(1, [InitInventory], None, Some(inventory.error)) && summary.None?
    ensures inventory.Ok? && SelectHosts(inventory.value, filters).Err? ==>
      run == CommandRun(1, [InitInventory], None, Some(ValueError)) && summary.None?
    ensures inventory.Ok? && SelectHosts(inventory.value, filters) == Ok([]) ==>
      run == CommandRun(0, [InitInventory], None, None) && summary.None?
    ensures inventory.Ok? && SelectHosts(inventory.value, filters).Ok? && SelectHosts(inventory.value, filters).value != [] ==>
      var hosts := SelectHosts(inventory.value, filters).value;
      var rs := Inventory.Run(hosts, remote);
      run == CommandRun(0, [InitInventory, RunTask("list_all_sessions", Inventory.Names(hosts))], None, None) &&
      summary == Some(if TotalSessions(rs) > 0 then Found(TotalSessions(rs), DevicesWithSessions(rs)) else NoneFound)
    ensures summary.Some? && summary.value.Found? ==> 0 < summary.value.devices <= summary.value.sessions
  {
    summary := None;
    if inventory.Err? {
      return CommandRun(1, [InitInventory], None, Some(inventory.error)), None;
    }
    var selected := SelectHosts(inventory.value, filters);
    if selected.Err? {
      return CommandRun(1, [InitInventory], None, Some(ValueError)), None;
    }
    var hosts := selected.value;
    if hosts == [] {
      return CommandRun(0, [InitInventory], None, None), None;
    }
    var rs := Inventory.Run(hosts, remote);
    var total, devices := CountSessions(rs);
    TotalsAgree(rs);
    run := CommandRun(0, [InitInventory, RunTask("list_all_sessions", Inventory.Names(hosts))], None, None);
    summary := Some(if total > 0 then Found(total, devices) else NoneFound);
  }

  // ---------------------------------------------------------------------------
  // sessions abort: the flat list of sessions

  /** One entry of `all_sessions`. */
  datatype SessionRow = SessionRow(hostname: string, sessionName: string, status: string, details: string)

  /** The row of one session of a host. */
  function RowOf(hostname: string, session: Session): SessionRow {
    SessionRow(hostname, session.name, session.status, session.details)
  }

  /** The rows of one host's sessions, in order. */
  function RowsOf(hostname: string, sessions: seq<Session>): (rows: seq<SessionRow>)
    ensures |rows| == |sessions|
    decreases |sessions|
  {
    if sessions == [] then [] else RowsOf(hostname, sessions[..|sessions| - 1]) + [RowOf(hostname, sessions[|sessions| - 1])]
  }

  /** Each session of a host gives the row in the same position. */
  lemma {:induction false} RowsOfAt(hostname: string, sessions: seq<Session>, k: nat)
    requires k < |sessions|
    ensures RowsOf(hostname, sessions)[k] == RowOf(hostname, sessions[k])
    decreases |sessions|
  {
    if k < |sessions| - 1 {
      RowsOfAt(hostname, sessions[..|sessions| - 1], k);
    }
  }

  /** The sessions a host contributes: all of them when it has sessions, none otherwise. */
  function HostRows(r: (string, Inventory.TaskOutcome<SessionsInfo>)): seq<SessionRow> {
    if HasSessions(r.1) then RowsOf(r.0, r.1.result.sessions) else []
  }

  /** `all_sessions`: hosts in result order, each host's sessions in order. */
  function FlatRows(rs: seq<(string, Inventory.TaskOutcome<SessionsInfo>)>): seq<SessionRow>
    decreases |rs|
  {
    if rs == [] then [] else FlatRows(rs[..|rs| - 1]) + HostRows(rs[|rs| - 1])
  }

  /** Flattening keeps result order across any split of the results. */
  lemma {:induction false} FlatRowsAppend(xs: seq<(string, Inventory.TaskOutcome<SessionsInfo>)>, ys: seq<(string, Inventory.TaskOutcome<SessionsInfo>)>)
    ensures FlatRows(xs + ys) == FlatRows(xs) + FlatRows(ys)
    decreases |ys|
  {
    if ys == [] {
      assert xs + ys == xs;
    } else {
      var init := ys[..|ys| - 1];
      var last := ys[|ys| - 1];
      assert (xs + ys)[..|xs + ys| - 1] == xs + init;
      assert (xs + ys)[|xs + ys| - 1] == last;
      assert FlatRows(xs + ys) == FlatRows(xs + init) + HostRows(last);
      FlatRowsAppend(xs, init);
      assert FlatRows(ys) == FlatRows(init) + HostRows(last);
    }
  }

  /** No rows come out exactly when no host with sessions lists any. */
  lemma {:induction false} FlatRowsEmptyIff(rs: seq<(string, Inventory.TaskOutcome<SessionsInfo>)>)
    ensures FlatRows(rs) == [] <==> forall i :: 0 <= i < |rs| ==> HostRows(rs[i]) == []
    decreases |rs|
  {
    if rs != [] {
      var init := rs[..|rs| - 1];
      FlatRowsEmptyIff(init);
      assert forall i :: 0 <= i < |init| ==> init[i] == rs[i];
    }
  }

  /**
   * The collection loop of `sessions abort`: the flat session list, and the
   * hosts with sessions (a host is a key exactly when its listing succeeded
   * with a positive count, even with no session listed).
   */
  method Flatten(rs: seq<(string, Inventory.TaskOutcome<SessionsInfo>)>)
    returns (rows: seq<SessionRow>, withSessions: map<string, seq<Session>>)
    ensures rows == FlatRows(rs)
    ensures forall h :: h in withSessions <==> exists i :: 0 <= i < |rs| && rs[i].0 == h && HasSessions(rs[i].1)
  {
    rows, withSessions := [], map[];
    var i := 0;
    while i < |rs|
      invariant 0 <= i <= |rs|
      invariant rows == FlatRows(rs[..i])
      invariant forall h :: h in withSessions <==> exists j :: 0 <= j < i && rs[j].0 == h && HasSessions(rs[j].1)
    {
      assert rs[..i + 1][..i] == rs[..i];
      var (hostname, outcome) := rs[i];
      if outcome.Succeeded? && outcome.result.count > 0 {
        withSessions := withSessions[hostname := outcome.result.sessions];
        rows := AppendRows(rows, hostname, outcome.result.sessions);
      }
      i := i + 1;
    }
    assert rs[..|rs|] == rs;
  }

  /** The inner loop of the collection: one row per session of the host, appended in order. */
  method AppendRows(rows: seq<SessionRow>, hostname: string, sessions: seq<Session>) returns (out: seq<SessionRow>)
    ensures out == rows + RowsOf(hostname, sessions)
  {
    out := rows;
    var k := 0;
    while k < |sessions|
      invariant 0 <= k <= |sessions|
      invariant out == rows + RowsOf(hostname, sessions[..k])
    {
      assert sessions[..k + 1][..k] == sessions[..k];
      out := out + [RowOf(hostname, sessions[k])];
      k := k + 1;
    }
    assert sessions[..k] == sessions;
  }

  // ---------------------------------------------------------------------------
  // sessions abort: choosing sessions by number

  /** Why a selection was refused. */
  datatype SelectionError = InvalidNumbers | InvalidFormat

  /** The outcome of the session-number prompt. */
  datatype Selection = Cancel | Chosen(indices: seq<nat>) | Refused(error: SelectionError)

  /** `int(x.strip()) - 1` for one comma-separated piece, or None when it is not an integer. */
  function PieceIndex(piece: string): Option<int> {
    match ParseInt(Trim(piece))
    case None => None
    case Some(k) => Some(k - 1)
  }

  /** The indices of all pieces, or None as soon as one is not an integer. */
  function PieceIndices(pieces: seq<string>): (r: Option<seq<int>>)
    ensures r.Some? <==> forall i :: 0 <= i < |pieces| ==> PieceIndex(pieces[i]).Some?
    ensures r.Some? ==> |r.value| == |pieces| && forall i :: 0 <= i < |pieces| ==> r.value[i] == PieceIndex(pieces[i]).value
    decreases |pieces|
  {
    if pieces == [] then Some([])
    else
      match PieceIndex(pieces[0])
      case None => None
      case Some(k) =>
        match PieceIndices(pieces[1..])
        case None => None
        case Some(ks) => Some([k] + ks)
  }

  /** `list(range(n))` */
  function AllIndices(n: nat): (ks: seq<nat>)
    ensures |ks| == n && forall i :: 0 <= i < n ==> ks[i] == i
  {
    seq(n, i requires 0 <= i < n => i)
  }

  /**
   * The session-number prompt's answer for `n` sessions: empty or "cancel"
   * in any case cancels, "all" in any case picks every session in order, and
   * otherwise a comma list of 1-based numbers picks those sessions in the
   * order given, duplicates kept; a piece that is not an integer refuses the
   * input before any range check, and a number outside 1..n refuses it after.
   */
  function ParseSelection(selection: string, n: nat): (s: Selection)
    ensures s == Cancel <==> selection == [] || Lower(selection) == "cancel"
    ensures s.Chosen? ==> forall i :: 0 <= i < |s.indices| ==> s.indices[i] < n
  {
    if selection == [] || Lower(selection) == "cancel" then Cancel
    else if Lower(selection) == "all" then Chosen(AllIndices(n))
    else
      match PieceIndices(Split(selection, ','))
      case None => Refused(InvalidFormat)
      case Some(ks) =>
        if exists i :: 0 <= i < |ks| && (ks[i] < 0 || ks[i] >= n) then Refused(InvalidNumbers)
        else Chosen(seq(|ks|, i requires 0 <= i < |ks| => ks[i] as nat))
  }

  /** "all", in any case, picks every session in order. */
  lemma SelectAll(selection: string, n: nat)
    requires Lower(selection) == "all"
    ensures ParseSelection(selection, n) == Chosen(AllIndices(n))
  {
  }

  /** A comma list is refused as a format error exactly when one of its pieces is not an integer. */
  lemma SelectFormatError(selection: string, n: nat)
    requires selection != [] && Lower(selection) != "cancel" && Lower(selection) != "all"
    ensures ParseSelection(selection, n) == Refused(InvalidFormat) ==>
      exists i :: 0 <= i < |Split(selection, ',')| && PieceIndex(Split(selection, ',')[i]).None?
    ensures (exists i :: 0 <= i < |Split(selection, ',')| && PieceIndex(Split(selection, ',')[i]).None?) ==>
      ParseSelection(selection, n) == Refused(InvalidFormat)
  {
    var pieces := Split(selection, ',');
    if PieceIndices(pieces).None? {
      assert ParseSelection(selection, n) == Refused(InvalidFormat);
      var i :| 0 <= i < |pieces| && !PieceIndex(pieces[i]).Some?;
      assert PieceIndex(pieces[i]).None?;
    } else {
      assert ParseSelection(selection, n) != Refused(InvalidFormat);
    }
  }

  /** A comma list of integers is refused as a range error exactly when a number is outside 1..n. */
  lemma SelectRangeError(selection: string, n: nat)
    requires selection != [] && Lower(selection) != "cancel" && Lower(selection) != "all"
    requires forall i :: 0 <= i < |Split(selection, ',')| ==> PieceIndex(Split(selection, ',')[i]).Some?
    ensures ParseSelection(selection, n) == Refused(InvalidNumbers) ==>
      exists i :: 0 <= i < |Split(selection, ',')| && !(0 <= PieceIndex(Split(selection, ',')[i]).value < n)
    ensures (exists i :: 0 <= i < |Split(selection, ',')| && !(0 <= PieceIndex(Split(selection, ',')[i]).value < n)) ==>
      ParseSelection(selection, n) == Refused(InvalidNumbers)
  {
    var pieces := Split(selection, ',');
    var ks := PieceIndices(pieces).value;
    if exists i :: 0 <= i < |ks| && (ks[i] < 0 || ks[i] >= n) {
      assert ParseSelection(selection, n) == Refused(InvalidNumbers);
      var i :| 0 <= i < |ks| && (ks[i] < 0 || ks[i] >= n);
      assert !(0 <= PieceIndex(pieces[i]).value < n);
    } else {
      assert ParseSelection(selection, n).Chosen?;
      assert forall i :: 0 <= i < |pieces| ==> 0 <= PieceIndex(pieces[i]).value < n by {
        forall i | 0 <= i < |pieces| ensures 0 <= PieceIndex(pieces[i]).value < n {
          assert ks[i] == PieceIndex(pieces[i]).value;
        }
      }
    }
  }

  /** A chosen comma list has one index per piece, its number minus one, in order and with duplicates. */
  lemma SelectChosen(selection: string, n: nat)
    requires selection != [] && Lower(selection) != "cancel" && Lower(selection) != "all"
    requires ParseSelection(selection, n).Chosen?
    ensures var pieces := Split(selection, ',');
      var s := ParseSelection(selection, n);
      |s.indices| == |pieces| && forall i :: 0 <= i < |pieces| ==> s.indices[i] == PieceIndex(pieces[i]).value
  {
  }

  /** The rows the chosen indices pick, in the order chosen. */
  function Pick(rows: seq<SessionRow>, indices: seq<nat>): (picked: seq<SessionRow>)
    requires forall i :: 0 <= i < |indices| ==> indices[i] < |rows|
    ensures |picked| == |indices| && forall i :: 0 <= i < |indices| ==> picked[i] == rows[indices[i]]
  {
    seq(|indices|, i requires 0 <= i < |indices| => rows[indices[i]])
  }

  // ---------------------------------------------------------------------------
  // sessions abort: aborting all sessions

  /**
   * The abort-all rule for one host: failed is FAILED with "Session abort
   * failed: " before the exception text, a positive aborted count is SUCCESS
   * naming the count, and a zero or missing count gives no result at all.
   */
  function AbortAllEntry(outcome: Inventory.TaskOutcome<AbortInfo>): (e: Option<Entry>)
    ensures e.Some? <==> outcome.Failed? || AbortedCount(outcome.result) > 0
    ensures e.Some? ==> e.value.diff == None && e.value.status != CliModels.Skipped
    ensures e.Some? ==> (e.value.status == CliModels.Failed <==> outcome.Failed?)
    ensures outcome.Failed? ==> e.value.message == "Session abort failed: " + Inventory.ErrorText(outcome.exception)
    ensures outcome.Succeeded? && e.Some? ==>
      e.value.message == "Aborted " + NatToString(AbortedCount(outcome.result) as nat) + " session(s)"
  {
    match outcome
    case Failed(ex) => Some(Entry(CliModels.Failed, "Session abort failed: " + Inventory.ErrorText(ex), None))
    case Succeeded(info) =>
      var n := AbortedCount(info);
      if n > 0 then Some(Entry(CliModels.Success, "Aborted " + NatToString(n as nat) + " session(s)", None))
      else None
  }

  /** The hosts the abort-all report lists, with their entries, in result order. */
  function Reported(rs: seq<(string, Inventory.TaskOutcome<AbortInfo>)>): (out: seq<(string, Entry)>)
    ensures |out| <= |rs|
    decreases |rs|
  {
    if rs == [] then []
    else
      var last := rs[|rs| - 1];
      Reported(rs[..|rs| - 1]) + (match AbortAllEntry(last.1) case None => [] case Some(e) => [(last.0, e)])
  }

  /** A host is reported exactly when it failed or aborted sessions, with its own entry. */
  lemma {:induction false} ReportedMembers(rs: seq<(string, Inventory.TaskOutcome<AbortInfo>)>, x: (string, Entry))
    ensures x in Reported(rs) <==> exists i :: 0 <= i < |rs| && rs[i].0 == x.0 && AbortAllEntry(rs[i].1) == Some(x.1)
    decreases |rs|
  {
    if rs != [] {
      var init := rs[..|rs| - 1];
      ReportedMembers(init, x);
      if exists i :: 0 <= i < |init| && init[i].0 == x.0 && AbortAllEntry(init[i].1) == Some(x.1) {
        var i :| 0 <= i < |init| && init[i].0 == x.0 && AbortAllEntry(init[i].1) == Some(x.1);
        assert rs[i] == init[i];
      }
      if exists i :: 0 <= i < |rs| && rs[i].0 == x.0 && AbortAllEntry(rs[i].1) == Some(x.1) {
        var i :| 0 <= i < |rs| && rs[i].0 == x.0 && AbortAllEntry(rs[i].1) == Some(x.1);
        if i < |rs| - 1 {
          assert init[i] == rs[i];
        }
      }
    }
  }

  /** Reported entries fail exactly where the hosts failed. */
  lemma {:induction false} AbortFailuresMatch(ds: seq<CliModels.DeviceResult>, rs: seq<(string, Inventory.TaskOutcome<AbortInfo>)>)
    requires |ds| == |Reported(rs)|
    requires forall i :: 0 <= i < |ds| ==> ds[i].status == Reported(rs)[i].1.status
    ensures CliModels.Count(ds, CliModels.Failed) == Inventory.FailedOutcomes(rs)
    decreases |rs|
  {
    if rs != [] {
      var init := rs[..|rs| - 1];
      var prev := Reported(init);
      if AbortAllEntry(rs[|rs| - 1].1).None? {
        assert Reported(rs) == prev;
        AbortFailuresMatch(ds, init);
      } else {
        assert Reported(rs)[..|prev|] == prev;
        AbortFailuresMatch(ds[..|ds| - 1], init);
      }
    }
  }

  /**
   * The loop of _abort_all_sessions_on_devices: one validated device result
   * per reported host, in result order, under "Session Abort".
   */
  method AbortAllResults(rs: seq<(string, Inventory.TaskOutcome<AbortInfo>)>)
    returns (r: Result<CliModels.OperationResult, CliModels.HostnameError>)
    ensures r.Ok? <==> forall i :: 0 <= i < |Reported(rs)| ==> !IsBlank(Reported(rs)[i].0)
    ensures r.Ok? ==> r.value.operation == AbortOperation && |r.value.deviceResults| == |Reported(rs)|
    ensures r.Ok? ==> forall i :: 0 <= i < |Reported(rs)| ==>
      r.value.deviceResults[i] == Stored(Reported(rs)[i].0, Reported(rs)[i].1)
  {
    var report := CliModels.OperationResult(AbortOperation, []);
    var i := 0;
    while i < |rs|
      invariant 0 <= i <= |rs|
      invariant report.operation == AbortOperation && |report.deviceResults| == |Reported(rs[..i])|
      invariant forall j :: 0 <= j < |Reported(rs[..i])| ==> !IsBlank(Reported(rs[..i])[j].0)
      invariant forall j :: 0 <= j < |Reported(rs[..i])| ==>
        report.deviceResults[j] == Stored(Reported(rs[..i])[j].0, Reported(rs[..i])[j].1)
    {
      assert rs[..i + 1][..i] == rs[..i];
      var (hostname, outcome) := rs[i];
      var e := AbortAllEntry(outcome);
      if e.Some? {
        var entry := CliModels.NewDeviceResult(hostname, e.value.status, e.value.message, e.value.diff);
        if entry.Err? {
          assert Reported(rs[..i + 1])[|Reported(rs[..i])|] == (hostname, e.value);
          ReportedPrefix(rs, i + 1);
          return Err(entry.error);
        }
        report := report.(deviceResults := report.deviceResults + [entry.value]);
      }
      i := i + 1;
    }
    assert rs[..|rs|] == rs;
    return Ok(report);
  }

  /** The report of a prefix of the results is a prefix of the whole report. */
  lemma {:induction false} ReportedPrefix(rs: seq<(string, Inventory.TaskOutcome<AbortInfo>)>, k: nat)
    requires k <= |rs|
    ensures |Reported(rs[..k])| <= |Reported(rs)| && Reported(rs)[..|Reported(rs[..k])|] == Reported(rs[..k])
    decreases |rs| - k
  {
    if k < |rs| {
      ReportedPrefix(rs, k + 1);
      var shorter, longer := Reported(rs[..k]), Reported(rs[..k + 1]);
      assert rs[..k + 1][..k] == rs[..k];
      assert longer[..|shorter|] == shorter;
      assert Reported(rs)[..|longer|] == longer;
    } else {
      assert rs[..k] == rs;
    }
  }

  /**
   * A run of _abort_all_sessions_on_devices: the abort task on every host;
   * a blank reported hostname raises; otherwise the reported records, with
   * the failures of the failed hosts, the summary only when a record exists
   * and exit 1 exactly when a device failed.
   */
  predicate AllRun(hosts: seq<Inventory.Host>, remote: string -> Inventory.TaskOutcome<AbortInfo>, run: CommandRun) {
    && (run.code == 0 || run.code == 1)
    && |run.steps| >= 1 && run.steps[0] == RunTask("abort_all_sessions", Inventory.Names(hosts))
    && (var reported := Reported(Inventory.Run(hosts, remote));
        run.report.None? <==> exists i :: 0 <= i < |reported| && IsBlank(reported[i].0))
    && (run.report.None? ==> run == CommandRun(1, [RunTask("abort_all_sessions", Inventory.Names(hosts))], None, Some(ValueError)))
    && (run.report.Some? ==>
      var o := run.report.value;
      o.operation == AbortOperation && run.error.None? && run.code == ExitCodeFor(o) &&
      o.FailedCount() == Inventory.FailedOutcomes(Inventory.Run(hosts, remote)) &&
      |o.deviceResults| == |Reported(Inventory.Run(hosts, remote))| &&
      (forall i :: 0 <= i < |o.deviceResults| ==>
        o.deviceResults[i] == Stored(Reported(Inventory.Run(hosts, remote))[i].0, Reported(Inventory.Run(hosts, remote))[i].1)) &&
      run.steps == [RunTask("abort_all_sessions", Inventory.Names(hosts))] +
        (if o.deviceResults != [] then [ShowSummary(CliModels.ToSummary(o))] else []))
  }

  /**
   * _abort_all_sessions_on_devices: run the abort-all task, report the hosts
   * that failed or aborted sessions, show the summary only when one was
   * reported, and exit 1 exactly when one failed.
   */
  method AbortAll(hosts: seq<Inventory.Host>, remote: string -> Inventory.TaskOutcome<AbortInfo>)
    returns (run: CommandRun)
    ensures AllRun(hosts, remote, run)
  {
    var rs := Inventory.Run(hosts, remote);
    var steps := [RunTask("abort_all_sessions", Inventory.Names(hosts))];
    var built := AbortAllResults(rs);
    if built.Err? {
      return CommandRun(1, steps, None, Some(ValueError));
    }
    var o := built.value;
    AbortFailuresMatch(o.deviceResults, rs);
    if o.deviceResults != [] {
      steps := steps + [ShowSummary(CliModels.ToSummary(o))];
    }
    run := CommandRun(ExitCodeFor(o), steps, Some(o), None);
  }

  /**
   * _abort_all_sessions_on_devices as written. abort_all_sessions returns
   * nothing, so for a host that did not fail `multi_result[0].result` is
   * None and `abort_info.get(...)` raises AttributeError. The command's
   * handler turns that into exit 1, and the records made before it are
   * never shown. Every host thus either fails or raises, and the command
   * exits 1 whenever there is a host.
   */
  method AbortAllAsWritten(hosts: seq<Inventory.Host>, remote: string -> Inventory.TaskOutcome<()>)
    returns (run: CommandRun)
    ensures run.code == (if hosts == [] then 0 else 1)
    ensures |run.steps| >= 1 && run.steps[0] == RunTask("abort_all_sessions", Inventory.Names(hosts))
    ensures (exists i :: 0 <= i < |hosts| && remote(hosts[i].name).Succeeded?) ==> run.report.None? && run.error.Some?
    ensures (forall i :: 0 <= i < |hosts| ==> remote(hosts[i].name).Failed? && !IsBlank(hosts[i].name)) ==> run.report.Some?
    ensures run.report.Some? ==>
      run.error.None? && |run.report.value.deviceResults| == |hosts| &&
      forall i :: 0 <= i < |hosts| ==> run.report.value.deviceResults[i].status == CliModels.Failed
  {
    var rs := Inventory.Run(hosts, remote);
    var steps := [RunTask("abort_all_sessions", Inventory.Names(hosts))];
    var report := CliModels.OperationResult(AbortOperation, []);
    var i := 0;
    while i < |rs|
      invariant 0 <= i <= |rs|
      invariant forall j :: 0 <= j < i ==> rs[j].1.Failed? && !IsBlank(rs[j].0)
      invariant report.operation == AbortOperation && |report.deviceResults| == i
      invariant forall j :: 0 <= j < i ==> report.deviceResults[j].status == CliModels.Failed
    {
      var (hostname, outcome) := rs[i];
      if outcome.Succeeded? {
        return CommandRun(1, steps, None, Some(OtherError));
      }
      var e := AbortAllEntry(Inventory.Failed(outcome.exception)).value;
      var entry := CliModels.NewDeviceResult(hostname, e.status, e.message, e.diff);
      if entry.Err? {
        return CommandRun(1, steps, None, Some(ValueError));
      }
      report := report.(deviceResults := report.deviceResults + [entry.value]);
      i := i + 1;
    }
    if report.deviceResults != [] {
      assert report.deviceResults[0].status == CliModels.Failed;
      steps := steps + [ShowSummary(CliModels.ToSummary(report))];
    }
    run := CommandRun(ExitCodeFor(report), steps, Some(report), None);
  }

  /**
   * One leaf with one pending session: as written the command exits 1 and
   * reports nothing, while with the `{"aborted_count": 1}` payload it
   * reports the leaf and exits 0.
   */
  method AbortAllPayloadMismatch() returns (asWritten: CommandRun, intended: CommandRun)
    ensures asWritten.code == 1 && asWritten.report.None?
    ensures intended.code == 0 && intended.report.Some? && |intended.report.value.deviceResults| == 1
  {
    var hosts := [Inventory.Host("leaf1", None, map[])];
    asWritten := AbortAllAsWritten(hosts, h => Inventory.Succeeded(()));
    assert hosts[0].name == "leaf1";
    var remote := h => Inventory.Succeeded(AbortInfo(Some(1)));
    ghost var rs := Inventory.Run(hosts, remote);
    assert rs == [("leaf1", Inventory.Succeeded(AbortInfo(Some(1))))];
    assert rs[..0] == [];
    ghost var entry := AbortAllEntry(rs[0].1).value;
    assert Reported(rs) == [("leaf1", entry)];
    assert !IsBlank("leaf1") by {
      assert !IsSpace('l');
    }
    assert Inventory.FailedOutcomes(rs) == 0;
    intended := AbortAll(hosts, remote);
    CliModels.CountPositiveIff(intended.report.value.deviceResults, CliModels.Failed);
  }

  // ---------------------------------------------------------------------------
  // sessions abort: aborting chosen sessions

  /** What aborting one chosen session did: it raised, or its Nornir task ran with an outcome. */
  datatype AbortAttempt = Raised(error: string) | Ran(outcome: Inventory.TaskOutcome<()>)

  /**
   * The rule for one chosen session: a raised exception or a failed run is
   * FAILED naming the session and the error, any other run is SUCCESS.
   */
  function SpecificEntry(sessionName: string, attempt: AbortAttempt): (e: Entry)
    ensures e.diff == None && e.status != CliModels.Skipped
    ensures e.status == CliModels.Failed <==> attempt.Raised? || attempt.outcome.Failed?
    ensures attempt.Raised? ==> e.message == "Session " + sessionName + " abort failed: " + attempt.error
    ensures attempt.Ran? && attempt.outcome.Failed? ==>
      e.message == "Session " + sessionName + " abort failed: " + Inventory.ErrorText(attempt.outcome.exception)
    ensures attempt.Ran? && attempt.outcome.Succeeded? ==> e.message == "Session " + sessionName + " aborted successfully"
  {
    match attempt
    case Raised(err) => Entry(CliModels.Failed, "Session " + sessionName + " abort failed: " + err, None)
    case Ran(Failed(ex)) => Entry(CliModels.Failed, "Session " + sessionName + " abort failed: " + Inventory.ErrorText(ex), None)
    case Ran(Succeeded(_)) => Entry(CliModels.Success, "Session " + sessionName + " aborted successfully", None)
  }

  /** The Nornir task run for one chosen session, on its host alone. */
  function AbortStep(row: SessionRow): Step {
    RunTask("abort_specific_session", [row.hostname])
  }

  /** The Nornir task runs for chosen sessions, in order. */
  function AbortSteps(rows: seq<SessionRow>): (steps: seq<Step>)
    ensures |steps| == |rows| && forall i :: 0 <= i < |rows| ==> steps[i] == AbortStep(rows[i])
  {
    seq(|rows|, i requires 0 <= i < |rows| => AbortStep(rows[i]))
  }

  /** The entry of one chosen session, given how aborting it went. */
  function ChosenEntry(row: SessionRow, attempt: (string, string) -> AbortAttempt): Entry {
    SpecificEntry(row.sessionName, attempt(row.hostname, row.sessionName))
  }

  /**
   * The loop of _abort_specific_sessions_interactive: one task run and one
   * validated device result per chosen session, so a host can be listed
   * more than once. A blank hostname ends the loop right after its task.
   */
  method AbortChosen(chosen: seq<SessionRow>, attempt: (string, string) -> AbortAttempt)
    returns (r: Result<CliModels.OperationResult, CliModels.HostnameError>, steps: seq<Step>)
    ensures r.Ok? <==> forall i :: 0 <= i < |chosen| ==> !IsBlank(chosen[i].hostname)
    ensures r.Ok? ==> steps == AbortSteps(chosen)
    ensures r.Err? ==> (1 <= |steps| <= |chosen| && steps == AbortSteps(chosen[..|steps|]) &&
      IsBlank(chosen[|steps| - 1].hostname) && forall i :: 0 <= i < |steps| - 1 ==> !IsBlank(chosen[i].hostname))
    ensures r.Ok? ==> r.value.operation == AbortOperation && |r.value.deviceResults| == |chosen|
    ensures r.Ok? ==> forall i :: 0 <= i < |chosen| ==>
      r.value.deviceResults[i] == Stored(chosen[i].hostname, ChosenEntry(chosen[i], attempt))
  {
    var report := CliModels.OperationResult(AbortOperation, []);
    steps := [];
    var i := 0;
    while i < |chosen|
      invariant 0 <= i <= |chosen|
      invariant steps == AbortSteps(chosen[..i])
      invariant report.operation == AbortOperation && |report.deviceResults| == i
      invariant forall j :: 0 <= j < i ==> !IsBlank(chosen[j].hostname)
      invariant forall j :: 0 <= j < i ==> report.deviceResults[j] == Stored(chosen[j].hostname, ChosenEntry(chosen[j], attempt))
    {
      var row := chosen[i];
      steps := steps + [AbortStep(row)];
      assert steps == AbortSteps(chosen[..i + 1]);
      var e := ChosenEntry(row, attempt);
      var entry := CliModels.NewDeviceResult(row.hostname, e.status, e.message, e.diff);
      if entry.Err? {
        return Err(entry.error), steps;
      }
      report := report.(deviceResults := report.deviceResults + [entry.value]);
      i := i + 1;
    }
    assert chosen[..i] == chosen;
    return Ok(report), steps;
  }

  /** The failed attempts among the chosen sessions. */
  function FailedAttempts(chosen: seq<SessionRow>, attempt: (string, string) -> AbortAttempt): (n: nat)
    ensures n <= |chosen|
    decreases |chosen|
  {
    if chosen == [] then 0
    else
      var last := chosen[|chosen| - 1];
      FailedAttempts(chosen[..|chosen| - 1], attempt) + (if ChosenEntry(last, attempt).status == CliModels.Failed then 1 else 0)
  }

  /** A report with one result per chosen session counts exactly the failed attempts as failed. */
  lemma {:induction false} ChosenFailuresMatch(ds: seq<CliModels.DeviceResult>, chosen: seq<SessionRow>, attempt: (string, string) -> AbortAttempt)
    requires |ds| == |chosen|
    requires forall i :: 0 <= i < |chosen| ==> ds[i].status == ChosenEntry(chosen[i], attempt).status
    ensures CliModels.Count(ds, CliModels.Failed) == FailedAttempts(chosen, attempt)
    decreases |chosen|
  {
    if chosen != [] {
      ChosenFailuresMatch(ds[..|ds| - 1], chosen[..|chosen| - 1], attempt);
    }
  }

  /**
   * What the aborts after the confirmation must do: one task and one device
   * result per chosen session, then the summary; exit 1 exactly when an
   * abort failed or a hostname fails validation.
   */
  predicate ChosenRun(chosen: seq<SessionRow>, attempt: (string, string) -> AbortAttempt, run: CommandRun) {
    && (run.code == 0 || run.code == 1)
    && (run.report.None? <==> exists i :: 0 <= i < |chosen| && IsBlank(chosen[i].hostname))
    && (run.report.None? ==> run.code == 1 && run.error == Some(ValueError))
    && (run.report.Some? ==>
      var o := run.report.value;
      o.operation == AbortOperation && run.error.None? && run.code == ExitCodeFor(o) &&
      |o.deviceResults| == |chosen| &&
      (forall i :: 0 <= i < |chosen| ==> o.deviceResults[i] == Stored(chosen[i].hostname, ChosenEntry(chosen[i], attempt))) &&
      o.FailedCount() == FailedAttempts(chosen, attempt) &&
      run.steps == AbortSteps(chosen) + [ShowSummary(CliModels.ToSummary(o))])
  }

  /** The run of the aborts of the chosen sessions. */
  method RunChosen(chosen: seq<SessionRow>, attempt: (string, string) -> AbortAttempt) returns (run: CommandRun)
    ensures ChosenRun(chosen, attempt, run)
  {
    var built, tasks := AbortChosen(chosen, attempt);
    if built.Err? {
      return CommandRun(1, tasks, None, Some(ValueError));
    }
    var o := built.value;
    ChosenFailuresMatch(o.deviceResults, chosen, attempt);
    run := CommandRun(ExitCodeFor(o), tasks + [ShowSummary(CliModels.ToSummary(o))], Some(o), None);
  }

  /**
   * A run of _abort_specific_sessions_interactive: cancel exits 0, a refused
   * selection exits 1, a declined confirmation exits 0, and a confirmed one
   * is the run of the aborts of the picked rows.
   */
  predicate SpecificRun(rows: seq<SessionRow>, selection: string, proceed: bool, attempt: (string, string) -> AbortAttempt, run: CommandRun) {
    && (run.code == 0 || run.code == 1)
    && (ParseSelection(selection, |rows|) == Cancel ==> run == CommandRun(0, [AskChoice], None, None))
    && (ParseSelection(selection, |rows|).Refused? ==> run == CommandRun(1, [AskChoice], None, None))
    && (ParseSelection(selection, |rows|).Chosen? && !proceed ==> run == CommandRun(0, [AskChoice, AskConfirmation], None, None))
    && (ParseSelection(selection, |rows|).Chosen? && proceed ==>
      |run.steps| >= 2 && run.steps[..2] == [AskChoice, AskConfirmation] &&
      ChosenRun(Pick(rows, ParseSelection(selection, |rows|).indices), attempt, run.(steps := run.steps[2..])))
    && (run.report.Some? ==> run.report.value.operation == AbortOperation && run.error.None? && run.code == ExitCodeFor(run.report.value))
  }

  /**
   * _abort_specific_sessions_interactive: the number prompt (`selection`),
   * the confirmation (`proceed`), then the aborts of the chosen sessions.
   */
  method AbortSpecific(rows: seq<SessionRow>, selection: string, proceed: bool, attempt: (string, string) -> AbortAttempt)
    returns (run: CommandRun)
    ensures SpecificRun(rows, selection, proceed, attempt, run)
  {
    var steps := [AskChoice];
    var s := ParseSelection(selection, |rows|);
    if s == Cancel {
      return CommandRun(0, steps, None, None);
    }
    if s.Refused? {
      return CommandRun(1, steps, None, None);
    }
    var chosen := Pick(rows, s.indices);
    steps := steps + [AskConfirmation];
    if !proceed {
      return CommandRun(0, steps, None, None);
    }
    var tail := RunChosen(chosen, attempt);
    run := tail.(steps := steps + tail.steps);
    assert run.steps[2..] == tail.steps;
    assert run.(steps := run.steps[2..]) == tail;
  }

  // ---------------------------------------------------------------------------
  // sessions abort: the command

  /** The menu's three answers; the prompt offers these and defaults to "3". */
  const AbortAllChoice := "1"
  const SelectChoice := "2"

  /**
   * A run of the menu of sessions_abort_command, once sessions were found:
   * --force is the abort-all run without a prompt; otherwise the choice
   * prompt comes first, "1" is the abort-all run after a confirmation, "2"
   * is the selection run, and any other answer exits 0.
   */
  predicate MenuRun(
    hosts: seq<Inventory.Host>,
    rows: seq<SessionRow>,
    force: bool,
    choice: string,
    confirmAll: bool,
    selection: string,
    proceed: bool,
    abortAll: string -> Inventory.TaskOutcome<AbortInfo>,
    attempt: (string, string) -> AbortAttempt,
    run: CommandRun)
  {
    && (run.code == 0 || run.code == 1)
    && (force ==> AllRun(hosts, abortAll, run))
    && (!force ==> |run.steps| >= 1 && run.steps[0] == AskChoice)
    && (!force && choice != AbortAllChoice && choice != SelectChoice ==> run == CommandRun(0, [AskChoice], None, None))
    && (!force && choice == AbortAllChoice && !confirmAll ==> run == CommandRun(0, [AskChoice, AskConfirmation], None, None))
    && (!force && choice == AbortAllChoice && confirmAll ==>
      |run.steps| >= 2 && run.steps[..2] == [AskChoice, AskConfirmation] &&
      AllRun(hosts, abortAll, run.(steps := run.steps[2..])))
    && (!force && choice == SelectChoice ==>
      SpecificRun(rows, selection, proceed, attempt, run.(steps := run.steps[1..])))
    && (run.report.Some? ==> run.report.value.operation == AbortOperation && run.error.None? && run.code == ExitCodeFor(run.report.value))
  }

  /**
   * The menu's run after the two listing steps: each branch's run is the
   * command's run from the listing on.
   */
  lemma AfterListing(
    hosts: seq<Inventory.Host>,
    rows: seq<SessionRow>,
    force: bool,
    choice: string,
    confirmAll: bool,
    selection: string,
    proceed: bool,
    abortAll: string -> Inventory.TaskOutcome<AbortInfo>,
    attempt: (string, string) -> AbortAttempt,
    listed: seq<Step>,
    tail: CommandRun,
    run: CommandRun)
    requires |listed| == 2 && listed[1] == RunTask("list_all_sessions", Inventory.Names(hosts))
    requires MenuRun(hosts, rows, force, choice, confirmAll, selection, proceed, abortAll, attempt, tail)
    requires run == tail.(steps := listed + tail.steps)
    ensures run.code == 0 || run.code == 1
    ensures |run.steps| >= 2 && run.steps[..2] == listed
    ensures force ==> |run.steps| >= 3 && run.steps[2] == RunTask("abort_all_sessions", Inventory.Names(hosts))
    ensures !force ==> |run.steps| >= 3 && run.steps[2] == AskChoice
    ensures !force && choice != AbortAllChoice && choice != SelectChoice ==> run == CommandRun(0, listed + [AskChoice], None, None)
    ensures !force && choice == AbortAllChoice && !confirmAll ==> run == CommandRun(0, listed + [AskChoice, AskConfirmation], None, None)
    ensures !force && choice == AbortAllChoice && confirmAll ==>
      |run.steps| >= 5 && run.steps[4] == RunTask("abort_all_sessions", Inventory.Names(hosts))
    ensures force ==> AllRun(hosts, abortAll, run.(steps := run.steps[2..]))
    ensures !force && choice == AbortAllChoice && confirmAll ==>
      run.steps[2..4] == [AskChoice, AskConfirmation] && AllRun(hosts, abortAll, run.(steps := run.steps[4..]))
    ensures !force && choice == SelectChoice ==>
      run.steps[2] == AskChoice && SpecificRun(rows, selection, proceed, attempt, run.(steps := run.steps[3..]))
    ensures run.report.Some? ==> run.report.value.operation == AbortOperation && run.error.None? && run.code == ExitCodeFor(run.report.value)
  {
    assert run.(steps := run.steps[2..]) == tail;
    if !force && choice == AbortAllChoice && confirmAll {
      assert run.steps[4..] == tail.steps[2..];
    }
    if !force && choice == SelectChoice {
      assert run.steps[3..] == tail.steps[1..];
    }
  }

  /**
   * The menu of sessions_abort_command, once sessions were found: --force
   * aborts everything without asking; otherwise "1" asks for a confirmation
   * and aborts everything, "2" aborts chosen sessions, and any other answer
   * exits 0.
   */
  method Menu(
    hosts: seq<Inventory.Host>,
    rows: seq<SessionRow>,
    force: bool,
    choice: string,
    confirmAll: bool,
    selection: string,
    proceed: bool,
    abortAll: string -> Inventory.TaskOutcome<AbortInfo>,
    attempt: (string, string) -> AbortAttempt)
    returns (run: CommandRun)
    ensures MenuRun(hosts, rows, force, choice, confirmAll, selection, proceed, abortAll, attempt, run)
  {
    if force {
      run := AbortAll(hosts, abortAll);
    } else if choice == AbortAllChoice {
      if !confirmAll {
        return CommandRun(0, [AskChoice, AskConfirmation], None, None);
      }
      var all := AbortAll(hosts, abortAll);
      run := all.(steps := [AskChoice, AskConfirmation] + all.steps);
      assert run.steps[2..] == all.steps;
      assert run.(steps := run.steps[2..]) == all;
    } else if choice == SelectChoice {
      var specific := AbortSpecific(rows, selection, proceed, attempt);
      run := specific.(steps := [AskChoice] + specific.steps);
      assert run.steps[1..] == specific.steps;
      assert run.(steps := run.steps[1..]) == specific;
    } else {
      run := CommandRun(0, [AskChoice], None, None);
    }
  }

  /**
   * sessions_abort_command up to the menu: the inventory, the filter, the
   * session listing and the flat session list. The environment is given as
   * inputs, as for the other commands.
   */
  method Abort(
    filters: Option<seq<string>>,
    force: bool,
    inventory: Result<seq<Inventory.Host>, ErrorKind>,
    listing: string -> Inventory.TaskOutcome<SessionsInfo>,
    choice: string,
    confirmAll: bool,
    selection: string,
    proceed: bool,
    abortAll: string -> Inventory.TaskOutcome<AbortInfo>,
    attempt: (string, string) -> AbortAttempt)
    returns (run: CommandRun)
    ensures run.code == 0 || run.code == 1
    ensures inventory.Err? ==> run == CommandRun(1, [InitInventory], None, Some(inventory.error))
    ensures inventory.Ok? && SelectHosts(inventory.value, filters).Err? ==>
      run == CommandRun(1, [InitInventory], None, Some(ValueError))
    ensures inventory.Ok? && SelectHosts(inventory.value, filters) == Ok([]) ==>
      run == CommandRun(0, [InitInventory], None, None)
    ensures inventory.Ok? && SelectHosts(inventory.value, filters).Ok? && SelectHosts(inventory.value, filters).value != [] ==>
      var hosts := SelectHosts(inventory.value, filters).value;
      var listed := [InitInventory, RunTask("list_all_sessions", Inventory.Names(hosts))];
      |run.steps| >= 2 && run.steps[..2] == listed &&
      (FlatRows(Inventory.Run(hosts, listing)) == [] ==> run == CommandRun(0, listed, None, None)) &&
      (FlatRows(Inventory.Run(hosts, listing)) != [] ==>
        (force ==> |run.steps| >= 3 && run.steps[2] == RunTask("abort_all_sessions", Inventory.Names(hosts))) &&
        (!force ==> |run.steps| >= 3 && run.steps[2] == AskChoice) &&
        (!force && choice != AbortAllChoice && choice != SelectChoice ==> run == CommandRun(0, listed + [AskChoice], None, None)) &&
        (!force && choice == AbortAllChoice && !confirmAll ==> run == CommandRun(0, listed + [AskChoice, AskConfirmation], None, None)) &&
        (!force && choice == AbortAllChoice && confirmAll ==>
          |run.steps| >= 5 && run.steps[4] == RunTask("abort_all_sessions", Inventory.Names(hosts))) &&
        (force ==> AllRun(hosts, abortAll, run.(steps := run.steps[2..]))) &&
        (!force && choice == AbortAllChoice && confirmAll ==>
          run.steps[2..4] == [AskChoice, AskConfirmation] && AllRun(hosts, abortAll, run.(steps := run.steps[4..]))) &&
        (!force && choice == SelectChoice ==>
          run.steps[2] == AskChoice &&
          SpecificRun(FlatRows(Inventory.Run(hosts, listing)), selection, proceed, attempt, run.(steps := run.steps[3..]))))
    ensures run.report.Some? ==> run.report.value.operation == AbortOperation && run.error.None? && run.code == ExitCodeFor(run.report.value)
  {
    if inventory.Err? {
      return CommandRun(1, [InitInventory], None, Some(inventory.error));
    }
    var selected := SelectHosts(inventory.value, filters);
    if selected.Err? {
      return CommandRun(1, [InitInventory], None, Some(ValueError));
    }
    var hosts := selected.value;
    if hosts == [] {
      return CommandRun(0, [InitInventory], None, None);
    }
    var listed := [InitInventory, RunTask("list_all_sessions", Inventory.Names(hosts))];
    var rows, _ := Flatten(Inventory.Run(hosts, listing));
    if rows == [] {
      return CommandRun(0, listed, None, None);
    }
    var tail := Menu(hosts, rows, force, choice, confirmAll, selection, proceed, abortAll, attempt);
    run := tail.(steps := listed + tail.steps);
    AfterListing(hosts, rows, force, choice, confirmAll, selection, proceed, abortAll, attempt, listed, tail, run);
  }
}
