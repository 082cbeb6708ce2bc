# py_netauto, modelled in Dafny

py_netauto is a command-line tool that renders configurations for the
devices of a data-centre fabric and pushes them to those devices. It also
lists and aborts configuration sessions on the devices. Hosts come from a
Nornir inventory and can be narrowed with `--filter key=value` clauses.
Each command runs a Nornir task on the selected hosts. Render, push and
the two abort paths of `sessions abort` fold the per-host outcomes into one
report of device results and exit 1 exactly when a device failed. Render
and push always show the report's summary. Abort-all shows it only when a
record exists, and as written it exits 1 as soon as a host succeeds (see
Findings). `sessions list` builds no report: it prints the totals and
exits 0 after the run.

This project models what the tool decides locally:

- the filter language: validation, parsing into an `Eq | Or | And`
  predicate with a `Matches` semantics, and the display text;
- the result records: the hostname validator and the counts derived from
  the list of device results;
- the render, push and sessions commands: their gates, the per-host
  classification of outcomes, the session-selection parser and the exit
  codes;
- the device tasks, as a class whose calls go to an append-only trace;
- the role-to-template lookup and the hostname-prefix role;
- the fabric ASN injection;
- the titles and panel colours of the output;
- the inventory debugger: its source tracking, its rows with duplicates
  suppressed, its summary counts and its host choice.

Modules follow the source files:

| module | source |
|---|---|
| `Filters` | `py_netauto/cli/filters.py` |
| `CliModels` | `py_netauto/cli/models.py` |
| `Inventory`, `CliRun` | what the commands share: the inventory's filter and run, the command steps and the exit code |
| `RenderCommand` | `py_netauto/cli/commands/render.py` |
| `PushCommand` | `py_netauto/cli/commands/push.py` |
| `SessionsCommand` | `py_netauto/cli/commands/sessions.py` |
| `Output` | `py_netauto/cli/output.py` |
| `ScrapliConfigDevice` | `py_netauto/nornir_tasks/scrapli_config_device.py` |
| `RenderConfig` | `py_netauto/nornir_tasks/render_config.py` |
| `DebugInventory`, `Sorting` | `py_netauto/utils/debug_inventory.py` |
| `NetworkDevice` | `py_netauto/datamodel/device.py` |
| `FabricModels` | `py_netauto/datamodel/models.py` |
| `Fabric` | `py_netauto/datamodel/fabric.py`, `py_netauto/datamodel/topology.py` |
| `Text`, `Wrappers` | Python's `str` methods (`strip`, `split`, `partition`, `splitlines`, `lower`, `isdigit`, `int`), plus `Option` and `Result` |

The outside world enters as parameters:

- each host's remote outcome is a function from hostname to outcome;
- each prompt's answer is a parameter;
- the file system is a function from path to optional content;
- a path or inventory set-up failure is an optional exception kind.

A command run is a `CommandRun`: its exit code, the steps it took
(prompts, task runs, the summary shown), its report and the exception
that ended it.

## Model

| member | source | states |
|---|---|---|
| Filters.Matches | py_netauto/cli/filters.py:107-116 | the reading of Nornir's `F` and its OR and AND combinations: an equality test on the host's own attributes, with a missing attribute never matching; a host with no attributes matches no filter |
| Filters.Message | py_netauto/cli/filters.py:39-51 | every ValueError message names the offending clause |
| Filters.ValidateFilterSyntax | py_netauto/cli/filters.py:14-51 | a missing `=` is reported first, then a blank key, then a blank value; no error exactly when the clause has `=`, a non-blank key and a non-blank value |
| Filters.SplitsAtFirstEquals | py_netauto/cli/filters.py:43 | a clause splits at its first `=`, so the value keeps any later `=` |
| Filters.IndexOfAfterPrefix | py_netauto/cli/filters.py:43 | the first `=` after an `=`-free key is found right after the key |
| Filters.StripAll | py_netauto/cli/filters.py:100 | every piece is stripped, with order and count kept |
| Filters.NonEmpty | py_netauto/cli/filters.py:100 | the kept pieces are never empty and are no more than the input |
| Filters.NonEmptyMembers | py_netauto/cli/filters.py:100 | a piece is kept exactly when it is listed and non-empty |
| Filters.NonEmptyAppend | py_netauto/cli/filters.py:100 | keeping non-empty pieces splits over concatenation, so input order is kept |
| Filters.NonBlankStrippedMembers | py_netauto/cli/filters.py:98-100 | the OR values are exactly the non-empty strips of the pipe-separated pieces |
| Filters.OrChain | py_netauto/cli/filters.py:106-113 | the left-nested OR matches exactly when the attribute is present and equals one of the values |
| Filters.ParseSingleFilter | py_netauto/cli/filters.py:54-116 | a clause that fails validation gives that validation error; every error names the clause |
| Filters.ParseSingleFilterSemantics | py_netauto/cli/filters.py:54-116 | the parse succeeds exactly when the clause validates and some OR piece is non-blank; the predicate then matches exactly the hosts whose stripped-key attribute equals one of the stripped pieces |
| Filters.SingleValue | py_netauto/cli/filters.py:93-98 | without a pipe the only accepted value is the stripped value |
| Filters.SimpleClauseIsEq | py_netauto/cli/filters.py:93-116 | a clause without a pipe becomes `Eq(stripped key, stripped value)`, both non-empty |
| Filters.AllBlankPiecesRejected | py_netauto/cli/filters.py:98-104 | a pipe-separated value whose pieces are all blank fails with "No valid values in OR expression" |
| Filters.FirstErr | py_netauto/cli/filters.py:163-166 | the index of the first failed parse: all earlier ones succeeded |
| Filters.Collect | py_netauto/cli/filters.py:163-166 | all results when every parse succeeds, otherwise the first error |
| Filters.ParseEach | py_netauto/cli/filters.py:163-166 | each clause is parsed on its own, in order |
| Filters.ParseAll | py_netauto/cli/filters.py:160-166 | success exactly when every clause parses, giving one predicate per clause; otherwise the first invalid clause's error, with all clauses before it valid |
| Filters.AndChain | py_netauto/cli/filters.py:160-166 | the left-nested AND matches exactly when every predicate matches |
| Filters.ParseFilters | py_netauto/cli/filters.py:119-168 | no predicate exactly when the list is None or empty |
| Filters.ParseFiltersSemantics | py_netauto/cli/filters.py:119-168 | a non-empty list parses exactly when every clause does; the result matches exactly when every clause matches; otherwise the error is the first invalid clause's |
| Filters.FormatFilterExpression | py_netauto/cli/filters.py:171-210 | "No filters applied" for no clauses; one clause is shown verbatim |
| Filters.FormatAppend | py_netauto/cli/filters.py:207-210 | each further clause adds " AND " and the clause itself, with pipes not expanded |
| CliModels.FromCliArgs | py_netauto/cli/models.py:37-59 | None or an empty list gives the defaults: no clauses, no predicate, "No filters applied" |
| CliModels.FromCliArgsBuilds | py_netauto/cli/models.py:58-71 | a non-empty list succeeds exactly when every clause parses; it then keeps the clauses verbatim, has a predicate, and shows them joined by " AND " |
| CliModels.FromCliArgsSemantics | py_netauto/cli/models.py:64-71 | the built predicate matches exactly the hosts that every clause matches |
| CliModels.StatusValue | py_netauto/cli/models.py:74-85 | each status has one of the three string values |
| CliModels.StatusValueInjective | py_netauto/cli/models.py:83-85 | distinct statuses have distinct values |
| CliModels.NewDeviceResult | py_netauto/cli/models.py:103-126 | the result is built exactly when the hostname is not blank, and then stores it stripped; an empty name fails the length constraint and a whitespace-only one fails the validator |
| CliModels.NewDeviceResultNoDiff | py_netauto/cli/models.py:106 | without a diff argument the diff is None |
| CliModels.StoredHostnameValid | py_netauto/cli/models.py:124-126 | a stored hostname is non-empty and already stripped |
| CliModels.HostnameRevalidates | py_netauto/cli/models.py:124-126 | validating a stored record again gives the same record |
| CliModels.HostnameStripped | py_netauto/cli/models.py:124-126 | surrounding whitespace is removed from the hostname |
| CliModels.Count | py_netauto/cli/models.py:167-191 | a status count never exceeds the number of results |
| CliModels.CountIsPositions | py_netauto/cli/models.py:167-191 | a status count is the number of positions holding that status |
| CliModels.CountPositiveIff | py_netauto/cli/models.py:167-191 | a count is positive exactly when some result has that status |
| CliModels.CountsPartition | py_netauto/cli/models.py:83-191 | success + failed + skipped = the number of results |
| CliModels.CountAppend | py_netauto/cli/models.py:167-191 | appending a result adds one to its own status's count and nothing to the others |
| CliModels.AppendResult | py_netauto/cli/models.py:145-191 | appending raises the total by one and exactly one status count by one |
| CliModels.TotalIsSum | py_netauto/cli/models.py:145-191 | the total is the sum of the three counts |
| CliModels.FailedCountPositiveIff | py_netauto/cli/models.py:179 | the failed count is positive exactly when some device failed |
| CliModels.NewOperationResult | py_netauto/cli/models.py:142-143 | an operation result exists exactly when its name is non-empty |
| CliModels.ToSummary | py_netauto/cli/models.py:193-214 | the summary holds the name and the four derived counts, which add up and count the positions of each status |
| Inventory.ErrorText | py_netauto/cli/commands/render.py:45 | the exception text, or "Unknown error" when there is none |
| Inventory.Names | py_netauto/cli/commands/render.py:191 | the hosts' names in inventory order |
| Inventory.FilterHosts | py_netauto/cli/commands/render.py:81 | the filtered hosts are inventory hosts the predicate matches |
| Inventory.FilterHostsComplete | py_netauto/cli/commands/render.py:81 | every matching host is kept |
| Inventory.FilterHostsAppend | py_netauto/cli/commands/render.py:81 | filtering splits over concatenation, so inventory order is kept |
| Inventory.Run | py_netauto/cli/commands/render.py:191-195 | one outcome per host, in inventory order, each from that host's remote side |
| Inventory.FailedOutcomes | py_netauto/cli/commands/render.py:40 | the failure count never exceeds the number of outcomes |
| Inventory.FailedOutcomesPositiveIff | py_netauto/cli/commands/render.py:40 | the failure count is positive exactly when some host failed |
| CliRun.ExitCodeFor | py_netauto/cli/commands/render.py:212-213 | the exit code is 1 exactly when some device result failed, and 0 otherwise |
| CliRun.SelectHosts | py_netauto/cli/commands/render.py:76-87 | a selection keeps at most the inventory's hosts, and only hosts of the inventory |
| CliRun.SelectHostsBasics | py_netauto/cli/commands/render.py:76-87 | without clauses the inventory is unchanged; a selection is a sub-list of the inventory; it fails exactly when building the filter expression fails |
| CliRun.SelectHostsMembers | py_netauto/cli/commands/render.py:78-81 | with clauses, a host is selected exactly when it is in the inventory and every clause matches it |
| CliRun.FailuresMatch | py_netauto/cli/commands/render.py:38-55 | with one result per outcome, failed exactly where the outcome failed, the report's failures are the failed hosts |
| CliRun.Stored | py_netauto/cli/models.py:103-126 | the stored record keeps the decided status, message and diff, with the hostname stripped |
| CliRun.CollectResults | py_netauto/cli/commands/render.py:38-55 | the loop succeeds exactly when no hostname is blank, and then holds one classified record per host, in result order |
| CliRun.RunAndReport | py_netauto/cli/commands/push.py:144-206 | the given Nornir task runs on the selected hosts; a blank hostname exits 1 with a ValueError; otherwise the summary is shown and the exit code is 1 exactly when a device failed |
| CliRun.ReportedFailures | py_netauto/cli/commands/push.py:158-193 | when the rule fails exactly the failed outcomes, the failed count equals the number of failed hosts |
| RenderCommand.RenderEntry | py_netauto/cli/commands/render.py:40-54 | a failed host is FAILED with its exception text or "Unknown error"; any other host is SUCCESS with "Configuration rendered to <path>/<host>.cfg"; no diff |
| RenderCommand.BuildOperationResult | py_netauto/cli/commands/render.py:26-60 | one record per host, in result order, under "Configuration Rendering" |
| RenderCommand.RenderHosts | py_netauto/cli/commands/render.py:191-213 | `RenderRun`: the render task runs once on the selected hosts; a blank hostname gives no report and exit 1 with the ValueError; otherwise one record per host by the rendering rule, then the summary; the failed count is the number of failed hosts; exit 1 exactly when a device failed or a hostname fails validation |
| RenderCommand.RenderAllFailed | py_netauto/cli/commands/render.py:190-213 | when the task fails on every host of a non-empty selection, the run exits 1 and every record is FAILED |
| RenderCommand.Render | py_netauto/cli/commands/render.py:162-244 | a path or inventory error, or a filter ValueError, exits 1; no matching host exits 0 before rendering; the render task runs exactly when hosts match; the exit code is 1 exactly when an error was caught or a device failed; once the task ran, the rest of the run is `RenderRun` on the selected hosts |
| RenderConfig.DeviceRole | py_netauto/nornir_tasks/render_config.py:19 | the `role` attribute, or "default" without one |
| RenderConfig.RenderConfigs | py_netauto/nornir_tasks/render_config.py:12-33 | at most one sub-task; none exactly when the role has no template; otherwise the mapped template file |
| RenderConfig.RolelessHostUsesDefaults | py_netauto/nornir_tasks/render_config.py:19-33 | a host without a role renders defaults.j2 |
| RenderConfig.TemplatesAreDistinct | py_netauto/nornir_tasks/render_config.py:13-18 | only the four roles have templates, and no two share one |
| PushCommand.ModeOf | py_netauto/cli/commands/push.py:54-60 | both flags are refused; commit mode exactly when `--commit` comes without `--dry-run`; no `--commit` means dry run |
| PushCommand.OperationName | py_netauto/cli/commands/push.py:201-230 | "Push (Commit)" or "Push (Dry-Run)", never empty |
| PushCommand.TaskName | py_netauto/cli/commands/push.py:144-228 | the commit or the dry-run task |
| PushCommand.DiffOf | py_netauto/cli/commands/push.py:173 | an empty multi-result gives "", otherwise the first sub-result's result |
| PushCommand.HasChangesIffNotBlank | py_netauto/cli/commands/push.py:175 | a diff shows changes exactly when it is present and not blank |
| PushCommand.DryRunEntry | py_netauto/cli/commands/push.py:158-193 | failed → FAILED with the error text; a non-blank diff → SUCCESS carrying it; anything else → SKIPPED without a diff |
| PushCommand.DryRunWithoutChangesSkips | py_netauto/cli/commands/push.py:173-193 | no sub-result, a None diff or a whitespace-only diff skips the host |
| PushCommand.CommitEntry | py_netauto/cli/commands/push.py:236-265 | failed → FAILED with "Commit failed: " before the error text; otherwise SUCCESS carrying its diff; never SKIPPED |
| PushCommand.CommitIgnoresDiff | py_netauto/cli/commands/push.py:250-265 | a committed host succeeds whatever its diff, while a dry run succeeds only with changes |
| PushCommand.EntryFor | py_netauto/cli/commands/push.py:117-120 | each mode's rule fails exactly the failed hosts |
| PushCommand.Execute | py_netauto/cli/commands/push.py:131-278 | `ExecuteRun`: the task, then the summary exactly when a report was built; no report, exit 1 and the ValueError exactly for a blank hostname; otherwise one record per host by the mode's rule, the summary, and exit 1 exactly when a device failed; the failed count is the number of failed hosts |
| PushCommand.GateSteps | py_netauto/cli/commands/push.py:62-114 | paths, the `*.cfg` listing and the inventory come first; a confirmation is asked exactly in commit mode without `--force` |
| PushCommand.Proceed | py_netauto/cli/commands/push.py:101-120 | a declined commit without `--force` exits 0 with no task run; otherwise the mode's task runs right after the gate steps, and the rest of the run is `ExecuteRun` of the mode on the hosts; a dry run never asks for confirmation |
| PushCommand.Push | py_netauto/cli/commands/push.py:54-128 | both flags exit 1 before any other step; a path error, no `*.cfg` file, an inventory error or a filter error exits 1; no matching host exits 0; a declined commit exits 0 without running the commit; otherwise the mode's task runs after the gates, and the rest of the run is `ExecuteRun` on the selected hosts |
| SessionsCommand.AbortedCount | py_netauto/cli/commands/sessions.py:309 | a missing aborted count counts as 0 |
| SessionsCommand.TotalsAgree | py_netauto/cli/commands/sessions.py:80-96 | devices with sessions never outnumber the sessions or the hosts; sessions exist exactly when some device has them |
| SessionsCommand.CountSessions | py_netauto/cli/commands/sessions.py:80-96 | the counter loop computes the session total and the devices with sessions |
| SessionsCommand.List | py_netauto/cli/commands/sessions.py:23-126 | the inventory and filter gates; no host exits 0; otherwise the listing task runs and the summary reports a total exactly when sessions were found |
| SessionsCommand.RowsOf | py_netauto/cli/commands/sessions.py:191-197 | one row per session of the host |
| SessionsCommand.RowsOfAt | py_netauto/cli/commands/sessions.py:191-197 | the k-th row is the host's k-th session |
| SessionsCommand.FlatRowsAppend | py_netauto/cli/commands/sessions.py:184-200 | hosts contribute in result order, each host's sessions in order |
| SessionsCommand.FlatRowsEmptyIff | py_netauto/cli/commands/sessions.py:184-200 | the flat list is empty exactly when no host contributes a row |
| SessionsCommand.Flatten | py_netauto/cli/commands/sessions.py:184-200 | the flattening loop gives the flat list, and a host is in the map exactly when it did not fail and has sessions |
| SessionsCommand.AppendRows | py_netauto/cli/commands/sessions.py:191-197 | appending a host's sessions adds its rows at the end |
| SessionsCommand.PieceIndices | py_netauto/cli/commands/sessions.py:386 | every piece gives `int(piece.strip()) - 1`, in order, or the whole list fails when one does not parse |
| SessionsCommand.AllIndices | py_netauto/cli/commands/sessions.py:382-383 | "all" selects 0 to n-1 in order |
| SessionsCommand.ParseSelection | py_netauto/cli/commands/sessions.py:375-396 | cancel exactly for an empty input or "cancel" in any case; chosen indices are in range |
| SessionsCommand.SelectAll | py_netauto/cli/commands/sessions.py:382-383 | "all" in any case chooses every session in order |
| SessionsCommand.SelectFormatError | py_netauto/cli/commands/sessions.py:385-393 | "Invalid input format" exactly when some piece is not an integer |
| SessionsCommand.SelectRangeError | py_netauto/cli/commands/sessions.py:386-391 | with all pieces integers, "Invalid session number(s)" exactly when some index is out of range |
| SessionsCommand.SelectChosen | py_netauto/cli/commands/sessions.py:386-396 | a chosen list holds one index per piece, in order, duplicates kept |
| SessionsCommand.Pick | py_netauto/cli/commands/sessions.py:396 | the chosen rows, in the order of the indices |
| SessionsCommand.AbortAllEntry | py_netauto/cli/commands/sessions.py:294-322 | failed → FAILED with "Session abort failed: "; a positive count → SUCCESS "Aborted N session(s)"; a zero or missing count → no record |
| SessionsCommand.Reported | py_netauto/cli/commands/sessions.py:294-322 | no more records than hosts |
| SessionsCommand.ReportedMembers | py_netauto/cli/commands/sessions.py:294-322 | a record appears exactly for a host whose outcome gives one |
| SessionsCommand.AbortFailuresMatch | py_netauto/cli/commands/sessions.py:294-322 | the failed count equals the number of failed hosts |
| SessionsCommand.AbortAllResults | py_netauto/cli/commands/sessions.py:294-322 | the aggregation loop succeeds exactly when no reported hostname is blank, and then stores the reported records in order |
| SessionsCommand.ReportedPrefix | py_netauto/cli/commands/sessions.py:294-322 | the records of a prefix of the hosts are a prefix of the records |
| SessionsCommand.AbortAll | py_netauto/cli/commands/sessions.py:270-338 | `AllRun`, with the intended `{"aborted_count": n}` payload: the abort task runs on all hosts; each record is the reported host's stored entry, in result order; the summary is shown only when a record exists; the failed count is the number of failed hosts; exit 1 exactly when a device failed |
| SessionsCommand.AbortAllAsWritten | py_netauto/cli/commands/sessions.py:270-338 | with the `None` payload abort_all_sessions really returns: a host that did not fail raises, so nothing is reported, and the command exits 1 whenever there is a host |
| SessionsCommand.AbortAllPayloadMismatch | py_netauto/cli/commands/sessions.py:307-309 | for one leaf with one pending session the code as written exits 1 with no report, and the intended payload reports the leaf and exits 0 |
| SessionsCommand.SpecificEntry | py_netauto/cli/commands/sessions.py:419-466 | an exception or a failed outcome → FAILED naming the session; otherwise SUCCESS "Session <name> aborted successfully" |
| SessionsCommand.AbortSteps | py_netauto/cli/commands/sessions.py:419-432 | one abort task per chosen session, in order |
| SessionsCommand.AbortChosen | py_netauto/cli/commands/sessions.py:419-466 | one record per chosen session, so a host may repeat; a blank hostname stops the loop right after its task |
| SessionsCommand.FailedAttempts | py_netauto/cli/commands/sessions.py:419-466 | failed attempts never outnumber the chosen sessions |
| SessionsCommand.ChosenFailuresMatch | py_netauto/cli/commands/sessions.py:419-466 | the failed count equals the number of failed attempts |
| SessionsCommand.RunChosen | py_netauto/cli/commands/sessions.py:419-479 | the chosen aborts, the summary and exit 1 exactly when an attempt failed |
| SessionsCommand.AbortSpecific | py_netauto/cli/commands/sessions.py:341-479 | `SpecificRun`: cancel exits 0; a refused selection exits 1; a declined confirmation exits 0; a confirmed one aborts the picked sessions, with exit 1 exactly when a device failed |
| SessionsCommand.Menu | py_netauto/cli/commands/sessions.py:224-259 | `--force` is the abort-all run (`AllRun`) with no prompt; a choice other than "1" or "2" exits 0; "1" abort-all only after a confirmation, and then it is the abort-all run; "2" is the selection run (`SpecificRun`) after the choice prompt |
| SessionsCommand.Abort | py_netauto/cli/commands/sessions.py:129-267 | the gates; no session found exits 0 before any abort; after the listing, `--force` and a confirmed "1" are the abort-all run (`AllRun`) on the selected hosts, "2" is the selection run (`SpecificRun`) on the flat session list, and any other choice cancels with exit 0; a report gives exit 1 exactly when a device failed |
| Output.Title | py_netauto/cli/output.py:44-46 | the title starts with "Filtered Devices (N device(s))" and is longer than that exactly when a non-empty filter text is given |
| Output.TitleShape | py_netauto/cli/output.py:40-46 | "(N device)" for one device and "(N devices)" otherwise; " - Filter: <text>" is added exactly for a non-empty filter text |
| Output.TitleNamesFilter | py_netauto/cli/output.py:45-46 | the title contains the filter text |
| Output.RowFor | py_netauto/cli/output.py:55-57 | the hostname; the role or "N/A" without one; the platform, or "N/A" when it is missing or empty |
| Output.HostRows | py_netauto/cli/output.py:54-57 | one row per host, in inventory order |
| Output.SuccessRate | py_netauto/cli/output.py:90 | 0 for no devices, otherwise the rate times the total is 100 times the successes |
| Output.SuccessRateBounds | py_netauto/cli/output.py:90 | the rate lies between 0 and 100; it is 0 exactly when nothing succeeded and 100 exactly when everything did |
| Output.PanelFor | py_netauto/cli/output.py:104-112 | green "✓ Operation Complete" exactly when nothing failed; red "✗ Operation Failed" exactly for failures without a success; yellow otherwise |
| Output.PanelOfReport | py_netauto/cli/output.py:104-106 | a report's panel is green exactly when no device failed |
| Output.AllSkippedIsGreen | py_netauto/cli/output.py:104-106 | a report of skipped devices only is green |
| Output.DiffTitleNamesHost | py_netauto/cli/output.py:161 | "Configuration Diff: <host>" ends with the hostname, and different hosts get different titles |
| ScrapliConfigDevice.IsSessionLine | py_netauto/nornir_tasks/scrapli_config_device.py:18 | a line holding "pending", "PENDING" or "scrapli_cfg" is a session line |
| ScrapliConfigDevice.PendingAnyCase | py_netauto/nornir_tasks/scrapli_config_device.py:18 | `line.lower()` contains "pending" when the line holds "pending" or "PENDING" |
| ScrapliConfigDevice.SessionLineHasName | py_netauto/nornir_tasks/scrapli_config_device.py:18-20 | a session line has a first word |
| ScrapliConfigDevice.SessionName | py_netauto/nornir_tasks/scrapli_config_device.py:20 | a session name is never empty |
| ScrapliConfigDevice.AbortCommandsShape | py_netauto/nornir_tasks/scrapli_config_device.py:16-25 | two commands per session line: "configure session <name>" with a non-empty name, then "abort" |
| ScrapliConfigDevice.AbortCommandsAppend | py_netauto/nornir_tasks/scrapli_config_device.py:16-25 | lines are handled in output order, each on its own |
| ScrapliConfigDevice.NoSessionLinesNoCommands | py_netauto/nornir_tasks/scrapli_config_device.py:16-18 | lines that are not session lines issue nothing |
| ScrapliConfigDevice.AbortAllTraceShape | py_netauto/nornir_tasks/scrapli_config_device.py:9-26 | the listing comes first, then two calls per session line, and the abort-config call is never made |
| ScrapliConfigDevice.ConfigTraceCommits | py_netauto/nornir_tasks/scrapli_config_device.py:43-55 | load with replace, diff, then commit, and never an abort |
| ScrapliConfigDevice.UntilFailure | py_netauto/nornir_tasks/scrapli_config_device.py:12-25 | the calls made are never more than the calls meant |
| ScrapliConfigDevice.UntilFailureShape | py_netauto/nornir_tasks/scrapli_config_device.py:12-25 | the calls made are a prefix of the calls meant: all of them when every call is answered, otherwise up to and including the first call that raises, all before it answered |
| ScrapliConfigDevice.AllAnsweredAppend | py_netauto/nornir_tasks/scrapli_config_device.py:12-25 | a sequence of calls is answered exactly when both of its parts are |
| ScrapliConfigDevice.UntilFailureAppend | py_netauto/nornir_tasks/scrapli_config_device.py:12-25 | answered calls are followed by whatever the rest makes; a part with a raising call ends the run inside that part |
| ScrapliConfigDevice.AbortAllPlan | py_netauto/nornir_tasks/scrapli_config_device.py:12-25 | the listing is always the first call meant |
| ScrapliConfigDevice.AbortAllPlanRun | py_netauto/nornir_tasks/scrapli_config_device.py:12-25 | a raising listing ends abort_all_sessions at once; otherwise the run is the listing followed by the run of the commands for the listed lines |
| ScrapliConfigDevice.StepOfRun | py_netauto/nornir_tasks/scrapli_config_device.py:16-25 | after answered calls, a line whose calls do not all answer ends the run inside that line; otherwise the answered calls extend by it |
| ScrapliConfigDevice.AbortCommandsAt | py_netauto/nornir_tasks/scrapli_config_device.py:16-25 | the commands up to a line are those before it followed by the line's own |
| ScrapliConfigDevice.AbortCommandsSplit | py_netauto/nornir_tasks/scrapli_config_device.py:16-25 | the commands for all lines are those up to a line followed by those after it |
| ScrapliConfigDevice.ConfigTraceStops | py_netauto/nornir_tasks/scrapli_config_device.py:43-55 | the push stops at a raising load or diff; the commit is sent exactly when the load and the diff were answered, and then all three calls are made |
| ScrapliConfigDevice.Task.constructor | py_netauto/nornir_tasks/scrapli_config_device.py:9 | a task starts with no calls made |
| ScrapliConfigDevice.Task.Run | py_netauto/nornir_tasks/scrapli_config_device.py:12 | one call is appended to the trace and the device's reply returned |
| ScrapliConfigDevice.Task.AbortSessionNamed | py_netauto/nornir_tasks/scrapli_config_device.py:24-25 | "configure session <name>" then "abort", stopping at the first that raises, whose error is returned |
| ScrapliConfigDevice.Task.AbortLine | py_netauto/nornir_tasks/scrapli_config_device.py:16-25 | one pass of the loop: a line's calls are added after the earlier lines' answered calls, or the run ends inside this line |
| ScrapliConfigDevice.Task.AbortListed | py_netauto/nornir_tasks/scrapli_config_device.py:16-25 | the loop makes the commands for the listed lines up to the first call that raises, and fails exactly when one raises, with that call's error |
| ScrapliConfigDevice.Task.AbortAllSessions | py_netauto/nornir_tasks/scrapli_config_device.py:9-26 | the trace grows by exactly the listing and the abort commands for the listed lines, cut after the first call that raises; abort_all_sessions fails exactly when a call raises, with that call's error |
| ScrapliConfigDevice.Task.ConfigDeviceFromFile | py_netauto/nornir_tasks/scrapli_config_device.py:29-55 | it reads `<folder>/<hostname>.cfg`; a missing file fails with no call; otherwise load, diff and commit are made up to the first call that raises, and config_device_from_file fails exactly when one raises, naming that call |
| NetworkDevice.Role | py_netauto/datamodel/device.py:31-52 | a role exactly when the hostname starts with "l" or "s", and then "leaf" or "spine" |
| NetworkDevice.RoleByFirstChar | py_netauto/datamodel/device.py:46-52 | only the first character decides; "l" gives leaf and "s" spine; anything else, the empty name too, gives "Cannot determine role from hostname <h>." |
| NetworkDevice.Device.constructor | py_netauto/datamodel/device.py:13-29 | a device starts with no fabric ASNs |
| FabricModels.Device.Role | py_netauto/datamodel/models.py:113-119 | a role exactly when the hostname starts with "l" or "s" |
| FabricModels.RoleAgrees | py_netauto/datamodel/models.py:113-119 | it agrees with the role of py_netauto/datamodel/device.py for every hostname |
| Fabric.Topology.constructor | py_netauto/datamodel/topology.py:13-26 | the topology holds the given spines and leaves |
| Fabric.FabricDataModel.constructor | py_netauto/datamodel/fabric.py:22-43 | the model holds the given fields |
| Fabric.FabricDataModel.InjectFabricAsns | py_netauto/datamodel/fabric.py:44-50 | every spine and every leaf ends up with the model's fabric ASNs, and the same model is returned |
| Sorting.StrLeTotal | py_netauto/utils/debug_inventory.py:239 | the string order is total |
| Sorting.StrLeTrans | py_netauto/utils/debug_inventory.py:239 | the string order is transitive |
| Sorting.StrLeAntisymmetric | py_netauto/utils/debug_inventory.py:239 | the string order is antisymmetric |
| Sorting.Insert | py_netauto/utils/debug_inventory.py:239 | insertion keeps the elements |
| Sorting.InsertSorted | py_netauto/utils/debug_inventory.py:239 | insertion into a sorted list keeps it sorted |
| Sorting.SortBy | py_netauto/utils/debug_inventory.py:239 | sorting is a permutation |
| Sorting.SortBySorted | py_netauto/utils/debug_inventory.py:239 | the result is sorted by key and holds the same elements |
| Sorting.SortStrings | py_netauto/utils/debug_inventory.py:239 | `sorted(names)` is a permutation |
| Sorting.SortStringsSorted | py_netauto/utils/debug_inventory.py:239 | `sorted(names)` is in order and holds the same names |
| DebugInventory.Keys | py_netauto/utils/debug_inventory.py:57-63 | one key per entry |
| DebugInventory.KeysAt | py_netauto/utils/debug_inventory.py:57-63 | the k-th key is the k-th entry's |
| DebugInventory.AssignNew | py_netauto/utils/debug_inventory.py:57-63 | assigning a new key appends it at the end |
| DebugInventory.AssignFacts | py_netauto/utils/debug_inventory.py:57-63 | after assignment the dict holds the key with the new value, its keys are the old keys plus this one, every entry is the new one or an old one, and every old entry under another key stays |
| DebugInventory.AssignDistinct | py_netauto/utils/debug_inventory.py:57-63 | on a dict with distinct keys the keys stay distinct and the key's only entry holds the new value |
| DebugInventory.KeysAppend | py_netauto/utils/debug_inventory.py:57-63 | the keys of a concatenation are concatenated |
| DebugInventory.Raw | py_netauto/utils/debug_inventory.py:21-35 | an attribute is defined at a level exactly when it is set there; connection options exactly when they are non-empty |
| DebugInventory.GroupSourcesAppend | py_netauto/utils/debug_inventory.py:76-82 | group sources follow the group list order |
| DebugInventory.GroupSourcesLabels | py_netauto/utils/debug_inventory.py:76-82 | every group source is labelled "group: <name>" by a group that defines the attribute |
| DebugInventory.SourcesOrder | py_netauto/utils/debug_inventory.py:73-87 | "defaults" can only be first and is first when the defaults define it; "host" can only be last and is last when the host defines it |
| DebugInventory.SourcesIffDefined | py_netauto/utils/debug_inventory.py:73-87 | sources exist exactly when some level defines the attribute |
| DebugInventory.LastDefiningIsLastSource | py_netauto/utils/debug_inventory.py:93-103 | the last group that defines the attribute is the last group source |
| DebugInventory.SelectedIsLastSource | py_netauto/utils/debug_inventory.py:93-103 | no selection exactly when no level defines it; otherwise the selection, host over last group over defaults, is the last source |
| DebugInventory.SpecialAttrsRecorded | py_netauto/utils/debug_inventory.py:70-141 | an attribute is recorded exactly when some level defines it, always with sources and a selection |
| DebugInventory.EmptyConnectionOptionsIgnored | py_netauto/utils/debug_inventory.py:113-126 | empty connection options count as undefined at that level |
| DebugInventory.GroupVariablesNonEmpty | py_netauto/utils/debug_inventory.py:57-63 | no group with empty data is kept, and the kept keys are exactly the names of groups with data |
| DebugInventory.CollectGroups | py_netauto/utils/debug_inventory.py:57-63 | the group loop builds the group variables |
| DebugInventory.CollectSources | py_netauto/utils/debug_inventory.py:73-87 | the source loop builds the ordered sources |
| DebugInventory.FindSelected | py_netauto/utils/debug_inventory.py:93-103 | the reverse group scan finds the selected source |
| DebugInventory.CollectHostVariables | py_netauto/utils/debug_inventory.py:38-143 | the whole collection: host, groups, defaults and special attributes |
| DebugInventory.Labels | py_netauto/utils/debug_inventory.py:183-186 | one label per source, in order |
| DebugInventory.SpecialRows | py_netauto/utils/debug_inventory.py:175-191 | one row per recorded special attribute |
| DebugInventory.PlainRowsHide | py_netauto/utils/debug_inventory.py:194-207 | a variable already shown as a special attribute gets no plain row |
| DebugInventory.GroupRowsHide | py_netauto/utils/debug_inventory.py:199-202 | group rows hide the special attributes |
| DebugInventory.InheritedRowsHide | py_netauto/utils/debug_inventory.py:194-207 | defaults, group and host rows hide the special attributes |
| DebugInventory.NoRepeatedSpecials | py_netauto/utils/debug_inventory.py:175-207 | the special rows come first, and no later row repeats a special attribute |
| DebugInventory.RowsSplit | py_netauto/utils/debug_inventory.py:175-207 | rows split into the special part and the rest |
| DebugInventory.SpecialRowsShape | py_netauto/utils/debug_inventory.py:175-191 | every special row names its attribute and is marked as special, with the "selected" note only for more than one source |
| DebugInventory.PerGroup | py_netauto/utils/debug_inventory.py:212-222 | one count per kept group |
| DebugInventory.GroupTotalIsSum | py_netauto/utils/debug_inventory.py:216-217 | the group-variable total is the sum of the per-group counts |
| DebugInventory.GroupTotalCountsAll | py_netauto/utils/debug_inventory.py:57-217 | with distinct group names the total counts every group's variables |
| DebugInventory.DisplayHostVariables | py_netauto/utils/debug_inventory.py:146-222 | the table rows and summary of the collected variables |
| DebugInventory.AddSpecialRows | py_netauto/utils/debug_inventory.py:175-191 | the loop appends the special rows |
| DebugInventory.AddGroupRows | py_netauto/utils/debug_inventory.py:199-202 | the loop appends the group rows |
| DebugInventory.AddRows | py_netauto/utils/debug_inventory.py:194-207 | the loop appends the rows of one section |
| DebugInventory.SelectHost | py_netauto/utils/debug_inventory.py:239-266 | "q" in either case chooses nothing; a chosen name is one of the sorted names; an answer that is not all digits can only choose itself |
| DebugInventory.PromptDefault | py_netauto/utils/debug_inventory.py:247 | "" for an empty inventory; otherwise a host name no greater than any other, which is the first in sorted order |
| DebugInventory.PromptDefaultSelects | py_netauto/utils/debug_inventory.py:245-266 | accepting the default chooses nothing for an empty inventory, and otherwise the first sorted name, unless that name reads as "q" or as a number |
| DebugInventory.SelectQuit | py_netauto/utils/debug_inventory.py:250-251 | quitting exactly for "q" or "Q" |
| DebugInventory.SelectIsHost | py_netauto/utils/debug_inventory.py:239-266 | any chosen name is an inventory host |
| DebugInventory.SelectByNumber | py_netauto/utils/debug_inventory.py:254-259 | an all-digit answer of value k from 1 to n chooses the k-th sorted name; 0 or past the end chooses nothing |
| DebugInventory.SelectByName | py_netauto/utils/debug_inventory.py:262-266 | an answer that is not all digits and not "q" or "Q" chooses itself when it is a host name, and nothing otherwise |

## Left out

- Concurrency: Nornir's threaded run is a sequence of (hostname, outcome) pairs in inventory order.
- Typer, Rich and prompts: tables, panels, syntax highlighting and printed text are left out. Each prompt's answer is a parameter, and `Prompt`'s default and stripping are folded into that answer.
- The per-host tasks `list_all_sessions`, `abort_specific_session`, `config_device_dry_run` and `config_device_commit` are imported by the commands but not defined in the repository. Their outcomes and payloads (`count`, `sessions`) are opaque inputs.
- `SessionsCommand.AbortAll`: `abort_all_sessions` is defined in scrapli_config_device.py and returns None, so the `aborted_count` payload does not exist as written (see Findings). `AbortAll` models the intended dict payload as an opaque input and is the version `SessionsCommand.Abort` uses. `SessionsCommand.AbortAllAsWritten` models the code as written. The count the device task would report is not connected to `ScrapliConfigDevice.Task.AbortAllSessions`.
- Scrapli internals: only the order of the calls and whether each call raised are modelled, as a trace and a reply function. A call that raises ends the Nornir task, as Nornir's `task.run` raises on a failed sub-task. Why a call fails (a timeout, a failed-when string) is not modelled, and the error is the call's own text rather than Nornir's wrapping exception.
- Nornir's `F`: `Filters.Matches` reads `Eq` as lookup in the host's own attribute map, with a missing key not matching. This is an assumption about the library: it leaves out `__` operator suffixes and lookup through groups and defaults.
- Nornir's attribute resolution in debug_inventory (`getattr(nr_host, attr)`): `selected_value`, and the value of a special row, are not modelled. The row value is the `resolved` parameter.
- The Defaults object is taken to be present. Its truthiness in debug_inventory is not modelled.
- Filesystem and environment: `PathManager`, `PathConfiguration`, directory checks, `mkdir`, permissions and globbing are out. A path failure is an optional exception kind and the `*.cfg` listing is a count. `py_netauto/config.py` and `initialize_nornir` are out, and the inventory is given as a result.
- Every `main()` script is out: those in scrapli_config_device.py, render_config.py, debug_inventory.py, lists_hosts.py and scrapli_get_device_info.py.
- `GENERATED_CONFIGS_FOLDER_PATH` is imported by scrapli_config_device.py from nornir_helpers.py, which does not define it. The folder is a parameter of `ScrapliConfigDevice.Task.ConfigDeviceFromFile`.
- IP address types (`IPv4Network`, `IPv6Interface`, `ReservedSupernets`) are kept as text or left out. The fabric model holds no reserved supernets.
- The `:.1f` formatting of the success rate is out. The rate is an exact rational.
- `Text.ParseInt`: Python's `int()` also accepts inner underscores, Unicode digits and surrounding whitespace of other kinds. The model accepts an optional sign followed by ASCII decimal digits only.
- `str.isdigit()` in debug_inventory also accepts non-ASCII digits. The model accepts ASCII digits only.
- `str.lower()` is modelled on ASCII letters only.
- Signature mismatch: render.py:190-194 passes `templates_path` and `output_path` to `render_configs`, which accepts only `task` (render_config.py:12). As written, every host's task would then raise TypeError, so `render` would exit 1 for any non-empty selection, with every host FAILED. The model leaves each host's outcome as the input `remote`, so this case is `remote` failing everywhere. `RenderCommand.RenderAllFailed` states that such a run exits 1 with every record FAILED. The two models are not connected across that call. `RenderConfig.RenderConfigs` takes the templates path as a parameter.
- Task payloads are well formed: a listing payload always has `count` and `sessions`, and an abort-all payload is a dict. A payload of another shape is not modelled. Negative counts are modelled (`int`), and the `> 0` tests treat them as the source does.
- `SessionsCommand.Flatten`: the `devices_with_sessions` map is only displayed. Its keys are stated, but the session lists stored under them are not.
- `DebugInventory`: dictionaries are association lists. Sorting by key alone (an element goes after equal keys already placed, so the sort keeps their order) instead of by (key, value) pairs differs only for duplicate keys, which a Python dict cannot hold.
- `ScrapliConfigDevice.SessionName`: the contract states that the name is non-empty, not that it equals the first word. The body is `line.split()[0]`.
- `config_device_from_file` commits whatever the diff shows and never aborts, because its abort call at scrapli_config_device.py:52 is commented out.
- The filtered-hosts title always carries " - Filter: ", even with no filters. The display text is "No filters applied" or a non-empty " AND " join (filters.py:207-210), so it is never empty.
- `Fabric.FabricDataModel.InjectFabricAsns`: every device is given the same `fabric_asns` object, but the model gives each device an equal value. A later in-place change to that dict reaching every device is not modelled.

## Findings

| source | as written | input that shows it | evidently intended | confidence | as-written member | corrected member |
|---|---|---|---|---|---|---|
| py_netauto/cli/commands/sessions.py:307-309 | `abort_all_sessions` (scrapli_config_device.py:9-26) has no `return`, so `abort_info` is None and `abort_info.get("aborted_count", 0)` raises AttributeError; the handler at sessions.py:261-267 exits 1 | one host `leaf1` whose abort task succeeds, through `--force` or the "1" menu choice confirmed | abort_all_sessions returns `{"aborted_count": n}`, the host is reported as "Aborted n session(s)" and the command exits 0 | high, not executed | SessionsCommand.AbortAllAsWritten | SessionsCommand.AbortAll |
