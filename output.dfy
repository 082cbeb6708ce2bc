/**
 * What the command line shows (py_netauto/cli/output.py): the title and rows
 * of the filtered-hosts table, the success rate and panel of an operation
 * summary, and the title of a diff panel.
 */
module Output {
  import opened Wrappers
  import opened Text
  import CliModels
  import Inventory

  /** The count part of the title: "(N device)" for one device, "(N devices)" otherwise. */
  function DeviceCount(n: nat): string {
    "(" + NatToString(n) + " device" + (if n != 1 then "s" else "") + ")"
  }

  /**
   * The title of the filtered-hosts table: the device count, then the filter
   * text when there is a non-empty one.
   */
  function Title(deviceCount: nat, filterExpr: Option<string>): (t: string)
    ensures var base := "Filtered Devices " + DeviceCount(deviceCount);
      |base| <= |t| && t[..|base|] == base && (|t| == |base| <==> filterExpr.None? || filterExpr.value == [])
  {
    var title := "Filtered Devices " + DeviceCount(deviceCount);
    if filterExpr.Some? && filterExpr.value != [] then title + " - Filter: " + filterExpr.value else title
  }

  /**
   * One device reads "device", any other count "devices"; a missing or empty
   * filter adds nothing, and a non-empty one is appended after " - Filter: ".
   */
  lemma TitleShape(deviceCount: nat, filterExpr: Option<string>)
    ensures var base := Title(deviceCount, None);
      base == "Filtered Devices (" + NatToString(deviceCount) + (if deviceCount == 1 then " device)" else " devices)") &&
      (filterExpr.None? || filterExpr.value == [] ==> Title(deviceCount, filterExpr) == base) &&
      (filterExpr.Some? && filterExpr.value != [] ==> Title(deviceCount, filterExpr) == base + " - Filter: " + filterExpr.value)
  {
  }

  /** The title names the filter text it was given. */
  lemma TitleNamesFilter(deviceCount: nat, f: string)
    ensures Contains(Title(deviceCount, Some(f)), f)
  {
    if f != [] {
      ContainsInfix(Title(deviceCount, None) + " - Filter: ", f, []);
      assert Title(deviceCount, None) + " - Filter: " + f + [] == Title(deviceCount, Some(f));
    } else {
      assert OccursAt(Title(deviceCount, Some(f)), f, 0);
    }
  }

  /** One table row: hostname, role and platform. */
  datatype HostRow = HostRow(hostname: string, role: string, platform: string)

  /** `host.get("role", "N/A")` and `host.platform or "N/A"` (an empty platform is falsy). */
  function RowFor(host: Inventory.Host): (row: HostRow)
    ensures row.hostname == host.name
    ensures "role" in host.attrs ==> row.role == host.attrs["role"]
    ensures "role" !in host.attrs ==> row.role == "N/A"
    ensures row.platform == "N/A" <==> host.platform.None? || host.platform.value == [] || host.platform.value == "N/A"
    ensures row.platform != "N/A" ==> host.platform == Some(row.platform)
  {
    var platform := if host.platform.Some? && host.platform.value != [] then host.platform.value else "N/A";
    HostRow(host.name, if "role" in host.attrs then host.attrs["role"] else "N/A", platform)
  }

  /** The `add_row` loop: one row per host, in inventory order. */
  method HostRows(hosts: seq<Inventory.Host>) returns (rows: seq<HostRow>)
    ensures |rows| == |hosts|
    ensures forall i :: 0 <= i < |hosts| ==> rows[i] == RowFor(hosts[i])
  {
    rows := [];
    var i := 0;
    while i < |hosts|
      invariant 0 <= i <= |hosts|
      invariant |rows| == i
      invariant forall j :: 0 <= j < i ==> rows[j] == RowFor(hosts[j])
    {
      rows := rows + [RowFor(hosts[i])];
      i := i + 1;
    }
  }

  /** The success rate in percent, as an exact rational: 0 for no devices. */
  function SuccessRate(total: nat, success: nat): (rate: real)
    ensures total == 0 ==> rate == 0.0
    ensures total > 0 ==> rate * (total as real) == (success as real) * 100.0
  {
    if total > 0 then (success as real) / (total as real) * 100.0 else 0.0
  }

  /**
   * The rate of a consistent summary lies between 0 and 100: it is 0 exactly
   * when nothing succeeded and 100 exactly when everything did.
   */
  lemma SuccessRateBounds(total: nat, success: nat)
    requires total > 0 && success <= total
    ensures 0.0 <= SuccessRate(total, success) <= 100.0
    ensures SuccessRate(total, success) == 0.0 <==> success == 0
    ensures SuccessRate(total, success) == 100.0 <==> success == total
  {
    var t := total as real;
    var r := SuccessRate(total, success);
    assert r * t == (success as real) * 100.0;
  }

  /** The border colour of the summary panel. */
  datatype PanelStyle = Green | Red | Yellow

  /** The summary panel's colour and title. */
  datatype Panel = Panel(style: PanelStyle, title: string)

  /**
   * No failure is green "Operation Complete"; failures without a success are
   * red "Operation Failed"; failures beside successes are yellow.
   */
  function PanelFor(success: nat, failed: nat): (p: Panel)
    ensures p.style == Green <==> failed == 0
    ensures p.style == Red <==> failed > 0 && success == 0
    ensures p.style == Yellow <==> failed > 0 && success > 0
    ensures p.style == Green ==> p.title == "✓ Operation Complete"
    ensures p.style == Red ==> p.title == "✗ Operation Failed"
    ensures p.style == Yellow ==> p.title == "⚠ Operation Complete with Errors"
  {
    if failed == 0 then Panel(Green, "✓ Operation Complete")
    else if success == 0 then Panel(Red, "✗ Operation Failed")
    else Panel(Yellow, "⚠ Operation Complete with Errors")
  }

  /** The panel of a report is green exactly when no device failed, which is when the command exits 0. */
  lemma PanelOfReport(o: CliModels.OperationResult)
    ensures var s := CliModels.ToSummary(o);
      PanelFor(s.success, s.failed).style == Green <==>
        forall i :: 0 <= i < |o.deviceResults| ==> o.deviceResults[i].status != CliModels.Failed
  {
  }

  /** A report where every device was skipped still shows green. */
  lemma AllSkippedIsGreen(o: CliModels.OperationResult)
    requires forall i :: 0 <= i < |o.deviceResults| ==> o.deviceResults[i].status == CliModels.Skipped
    ensures PanelFor(CliModels.ToSummary(o).success, CliModels.ToSummary(o).failed).style == Green
  {
  }

  /** The title of a host's diff panel. */
  function DiffTitle(hostname: string): string {
    "Configuration Diff: " + hostname
  }

  /** Diff panels of different hosts have different titles, and each title ends with its hostname. */
  lemma DiffTitleNamesHost(h1: string, h2: string)
    ensures DiffTitle(h1) == DiffTitle(h2) <==> h1 == h2
    ensures DiffTitle(h1)[|"Configuration Diff: "|..] == h1
  {
    if DiffTitle(h1) == DiffTitle(h2) {
      assert h1 == DiffTitle(h1)[|"Configuration Diff: "|..];
      assert h2 == DiffTitle(h2)[|"Configuration Diff: "|..];
    }
  }
}
