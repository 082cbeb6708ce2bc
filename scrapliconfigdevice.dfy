/**
 * The device-side tasks (py_netauto/nornir_tasks/scrapli_config_device.py):
 * aborting every pending configuration session a device lists, and pushing
 * a host's configuration file. The transport is an append-only trace of the
 * calls a task makes; the device's answers are given as a function.
 */
module ScrapliConfigDevice {
  import opened Wrappers
  import opened Text

  /** The calls a task makes to its device. */
  datatype Call =
    | SendCommand(command: string)
    | LoadConfig(config: string, replace: bool, privilegeLevel: string)
    | DiffConfig
    | CommitConfig(source: string)
    | AbortConfig

  /** The command that lists the configuration sessions. */
  const ShowSessions := "show configuration sessions"

  /** A line naming a session: "pending" in any case, or "scrapli_cfg" as written. */
  predicate IsSessionLine(line: string)
    ensures Contains(line, "pending") || Contains(line, "PENDING") || Contains(line, "scrapli_cfg") ==> IsSessionLine(line)
  {
    PendingAnyCase(line);
    Contains(Lower(line), "pending") || Contains(line, "scrapli_cfg")
  }

  /** "pending" and "PENDING" both read as "pending" once the line is lowered. */
  lemma PendingAnyCase(line: string)
    ensures Contains(line, "pending") || Contains(line, "PENDING") ==> Contains(Lower(line), "pending")
  {
    if Contains(line, "pending") {
      var i :| 0 <= i <= |line| - 7 && OccursAt(line, "pending", i);
      LowerAt(line, "pending", i);
      assert Lower("pending") == "pending";
    } else if Contains(line, "PENDING") {
      var i :| 0 <= i <= |line| - 7 && OccursAt(line, "PENDING", i);
      LowerAt(line, "PENDING", i);
      assert Lower("PENDING") == "pending";
    }
  }

  /** Lowering a line lowers every word where it occurs. */
  lemma LowerAt(line: string, word: string, i: nat)
    requires OccursAt(line, word, i)
    ensures OccursAt(Lower(line), Lower(word), i)
  {
    assert Lower(line)[i..i + |word|] == Lower(word) by {
      forall k | 0 <= k < |word| ensures Lower(line)[i..i + |word|][k] == Lower(word)[k] {
        assert line[i + k] == word[k];
      }
    }
  }

  /** A session line holds a non-whitespace character, so it has a first word. */
  lemma SessionLineHasName(line: string)
    requires IsSessionLine(line)
    ensures |Words(line)| > 0
  {
    if Contains(Lower(line), "pending") {
      var i :| 0 <= i <= |Lower(line)| - |"pending"| && OccursAt(Lower(line), "pending", i);
      assert Lower(line)[i] == "pending"[0] == 'p';
      LowerKeepsSpace(line[i]);
      WordsOfNonBlank(line, i);
    } else {
      var i :| 0 <= i <= |line| - |"scrapli_cfg"| && OccursAt(line, "scrapli_cfg", i);
      assert line[i] == "scrapli_cfg"[0] == 's';
      WordsOfNonBlank(line, i);
    }
  }

  /** `line.split()[0]`: the first word of a session line, never empty. */
  function SessionName(line: string): (name: string)
    requires IsSessionLine(line)
    ensures name != []
  {
    SessionLineHasName(line);
    Words(line)[0]
  }

  /** "configure session " followed by a non-empty session name. */
  predicate EntersSession(c: Call) {
    c.SendCommand? && |c.command| > |"configure session "| && c.command[..|"configure session "|] == "configure session "
  }

  /** The two commands that abort one named session. */
  function AbortSession(name: string): seq<Call> {
    [SendCommand("configure session " + name), SendCommand("abort")]
  }

  /** The commands issued for the listed lines: two per session line, in line order. */
  function AbortCommands(lines: seq<string>): (calls: seq<Call>)
    decreases |lines|
  {
    if lines == [] then []
    else
      var last := lines[|lines| - 1];
      AbortCommands(lines[..|lines| - 1]) + (if IsSessionLine(last) then AbortSession(SessionName(last)) else [])
  }

  /** The number of session lines. */
  function SessionLines(lines: seq<string>): nat
    decreases |lines|
  {
    if lines == [] then 0
    else SessionLines(lines[..|lines| - 1]) + (if IsSessionLine(lines[|lines| - 1]) then 1 else 0)
  }

  /**
   * Every session line adds exactly two calls: "configure session <name>"
   * with a non-empty name at an even position, "abort" right after it.
   */
  lemma {:induction false} AbortCommandsShape(lines: seq<string>)
    ensures |AbortCommands(lines)| == 2 * SessionLines(lines)
    ensures forall k :: 0 <= k < |AbortCommands(lines)| && k % 2 == 1 ==> AbortCommands(lines)[k] == SendCommand("abort")
    ensures forall k :: 0 <= k < |AbortCommands(lines)| && k % 2 == 0 ==> EntersSession(AbortCommands(lines)[k])
    decreases |lines|
  {
    if lines != [] {
      var init := lines[..|lines| - 1];
      var last := lines[|lines| - 1];
      AbortCommandsShape(init);
      var prev := AbortCommands(init);
      var cmds := AbortCommands(lines);
      if IsSessionLine(last) {
        var name := SessionName(last);
        assert cmds == prev + AbortSession(name);
        forall k | 0 <= k < |cmds| && k % 2 == 0 ensures EntersSession(cmds[k]) {
          if k < |prev| {
            assert cmds[k] == prev[k];
          } else {
            assert cmds[k].command == "configure session " + name;
          }
        }
        forall k | 0 <= k < |cmds| && k % 2 == 1 ensures cmds[k] == SendCommand("abort") {
          if k < |prev| {
            assert cmds[k] == prev[k];
          }
        }
      } else {
        assert cmds == prev;
      }
    }
  }

  /** Lines are handled one after another: the commands of two runs of lines are concatenated. */
  lemma {:induction false} AbortCommandsAppend(xs: seq<string>, ys: seq<string>)
    ensures AbortCommands(xs + ys) == AbortCommands(xs) + AbortCommands(ys)
    decreases |ys|
  {
    if ys == [] {
      assert xs + ys == xs;
    } else {
      var init := ys[..|ys| - 1];
      assert (xs + ys)[..|xs + ys| - 1] == xs + init;
      assert (xs + ys)[|xs + ys| - 1] == ys[|ys| - 1];
      AbortCommandsAppend(xs, init);
    }
  }

  /** Output without a session line issues no command after the listing. */
  lemma {:induction false} NoSessionLinesNoCommands(lines: seq<string>)
    requires forall i :: 0 <= i < |lines| ==> !IsSessionLine(lines[i])
    ensures AbortCommands(lines) == []
    decreases |lines|
  {
    if lines != [] {
      NoSessionLinesNoCommands(lines[..|lines| - 1]);
    }
  }

  /** The trace of abort_all_sessions for a given listing: the listing first, then two commands per session line. */
  function AbortAllTrace(output: string): seq<Call> {
    [SendCommand(ShowSessions)] + AbortCommands(SplitLines(output))
  }

  /**
   * The listing is the first call, and the rest is two calls per session
   * line: no session line means the listing is the only call.
   */
  lemma AbortAllTraceShape(output: string)
    ensures AbortAllTrace(output)[0] == SendCommand(ShowSessions)
    ensures |AbortAllTrace(output)| == 1 + 2 * SessionLines(SplitLines(output))
    ensures AbortConfig !in AbortAllTrace(output)
  {
    AbortCommandsShape(SplitLines(output));
    var cmds := AbortCommands(SplitLines(output));
    forall k | 0 <= k < |cmds| ensures cmds[k] != AbortConfig {
      if k % 2 == 0 {
        assert EntersSession(cmds[k]);
      }
    }
    assert AbortConfig !in cmds;
  }

  /** What the device did with one call: it answered with its output, or the call raised an error. */
  datatype Reply = Answered(output: string) | Raised(error: string)

  /** Every call of `cs` is answered. */
  predicate AllAnswered(cs: seq<Call>, reply: Call -> Reply) {
    forall i :: 0 <= i < |cs| ==> reply(cs[i]).Answered?
  }

  /**
   * The calls a task makes when it means to make `cs`: a failed `task.run`
   * raises out of the Nornir task, so the first call that raises is the last one made.
   */
  function UntilFailure(cs: seq<Call>, reply: Call -> Reply): (made: seq<Call>)
    ensures |made| <= |cs|
    decreases |cs|
  {
    if cs == [] then []
    else if reply(cs[0]).Raised? then [cs[0]]
    else [cs[0]] + UntilFailure(cs[1..], reply)
  }

  /**
   * The calls made are a prefix of the calls meant: all of them when every
   * call is answered; otherwise up to and including the first that raises.
   */
  lemma {:induction false} UntilFailureShape(cs: seq<Call>, reply: Call -> Reply)
    ensures UntilFailure(cs, reply) == cs[..|UntilFailure(cs, reply)|]
    ensures AllAnswered(cs, reply) ==> UntilFailure(cs, reply) == cs
    ensures !AllAnswered(cs, reply) ==>
      var m := |UntilFailure(cs, reply)|;
      m > 0 && reply(cs[m - 1]).Raised? && AllAnswered(cs[..m - 1], reply)
    decreases |cs|
  {
    if cs != [] && reply(cs[0]).Answered? {
      UntilFailureShape(cs[1..], reply);
      var made := UntilFailure(cs, reply);
      assert made == [cs[0]] + UntilFailure(cs[1..], reply);
      if !AllAnswered(cs, reply) {
        var j :| 0 <= j < |cs| && reply(cs[j]).Raised?;
        assert reply(cs[1..][j - 1]).Raised?;
        var m := |made|;
        var before := cs[..m - 1];
        forall i | 0 <= i < |before| ensures reply(before[i]).Answered? {
          if i > 0 {
            assert before[i] == cs[1..][..m - 2][i - 1];
          }
        }
      }
    }
  }

  /** A concatenation is answered exactly when both parts are. */
  lemma AllAnsweredAppend(p: seq<Call>, q: seq<Call>, reply: Call -> Reply)
    ensures AllAnswered(p + q, reply) <==> AllAnswered(p, reply) && AllAnswered(q, reply)
  {
    if AllAnswered(p, reply) && AllAnswered(q, reply) {
      forall i | 0 <= i < |p + q| ensures reply((p + q)[i]).Answered? {
        if i >= |p| {
          assert (p + q)[i] == q[i - |p|];
        }
      }
    }
    if AllAnswered(p + q, reply) {
      forall i | 0 <= i < |p| ensures reply(p[i]).Answered? {
        assert (p + q)[i] == p[i];
      }
      forall i | 0 <= i < |q| ensures reply(q[i]).Answered? {
        assert (p + q)[|p| + i] == q[i];
      }
    }
  }

  /**
   * Calls that were all answered are followed by whatever the rest makes,
   * and a part with a call that raises ends the run there.
   */
  lemma {:induction false} UntilFailureAppend(p: seq<Call>, q: seq<Call>, reply: Call -> Reply)
    ensures AllAnswered(p, reply) ==> UntilFailure(p + q, reply) == p + UntilFailure(q, reply)
    ensures !AllAnswered(p, reply) ==> UntilFailure(p + q, reply) == UntilFailure(p, reply)
    decreases |p|
  {
    if p == [] {
      assert p + q == q;
    } else {
      var pq := p + q;
      assert pq[0] == p[0] && pq[1..] == p[1..] + q;
      UntilFailureAppend(p[1..], q, reply);
      assert p == [p[0]] + p[1..];
      if reply(p[0]).Answered? {
        assert UntilFailure(pq, reply) == [p[0]] + UntilFailure(p[1..] + q, reply);
        AllAnsweredAppend([p[0]], p[1..], reply);
      }
    }
  }

  /** The calls abort_all_sessions means to make, given the listing's reply. */
  function AbortAllPlan(listing: Reply): (plan: seq<Call>)
    ensures |plan| > 0 && plan[0] == SendCommand(ShowSessions)
  {
    match listing
    case Raised(_) => [SendCommand(ShowSessions)]
    case Answered(output) => AbortAllTrace(output)
  }

  /** The calls abort_all_sessions makes against a device that replies with `reply`. */
  function AbortAllRun(reply: Call -> Reply): seq<Call> {
    UntilFailure(AbortAllPlan(reply(SendCommand(ShowSessions))), reply)
  }

  /** Every call abort_all_sessions means to make is answered. */
  predicate AbortAllAnswered(reply: Call -> Reply) {
    AllAnswered(AbortAllPlan(reply(SendCommand(ShowSessions))), reply)
  }

  /**
   * abort_all_sessions ends at the listing when it raises; otherwise its run
   * is the listing followed by the run of the commands for the listed lines.
   */
  lemma AbortAllPlanRun(reply: Call -> Reply)
    ensures var listing := reply(SendCommand(ShowSessions));
      (listing.Raised? ==> AbortAllRun(reply) == [SendCommand(ShowSessions)] && !AbortAllAnswered(reply)) &&
      (listing.Answered? ==>
        var cmds := AbortCommands(SplitLines(listing.output));
        AbortAllRun(reply) == [SendCommand(ShowSessions)] + UntilFailure(cmds, reply) &&
        (AbortAllAnswered(reply) <==> AllAnswered(cmds, reply)))
  {
    var listing := reply(SendCommand(ShowSessions));
    if listing.Answered? {
      var cmds := AbortCommands(SplitLines(listing.output));
      assert AbortAllPlan(listing) == [SendCommand(ShowSessions)] + cmds;
      UntilFailureAppend([SendCommand(ShowSessions)], cmds, reply);
      AllAnsweredAppend([SendCommand(ShowSessions)], cmds, reply);
    }
  }

  /**
   * After answered calls, a step with a call that raises ends the run inside
   * that step; a step whose calls are all answered extends the answered calls.
   */
  lemma StepOfRun(prefix: seq<Call>, steps: seq<Call>, later: seq<Call>, reply: Call -> Reply)
    requires AllAnswered(prefix, reply)
    ensures !AllAnswered(steps, reply) ==>
      UntilFailure(prefix + steps + later, reply) == prefix + UntilFailure(steps, reply) &&
      !AllAnswered(prefix + steps + later, reply)
    ensures AllAnswered(steps, reply) ==> AllAnswered(prefix + steps, reply)
  {
    assert prefix + steps + later == prefix + (steps + later);
    UntilFailureAppend(prefix, steps + later, reply);
    UntilFailureAppend(steps, later, reply);
    AllAnsweredAppend(prefix, steps, reply);
    AllAnsweredAppend(prefix, steps + later, reply);
    AllAnsweredAppend(steps, later, reply);
  }

  /** The commands for the lines up to line i are those before it followed by line i's own. */
  lemma AbortCommandsAt(lines: seq<string>, i: nat)
    requires i < |lines|
    ensures AbortCommands(lines[..i + 1]) ==
      AbortCommands(lines[..i]) + (if IsSessionLine(lines[i]) then AbortSession(SessionName(lines[i])) else [])
  {
    var upto := lines[..i + 1];
    assert upto[..|upto| - 1] == lines[..i] && upto[|upto| - 1] == lines[i];
  }

  /** The commands for all lines are those up to line i followed by those after it. */
  lemma AbortCommandsSplit(lines: seq<string>, i: nat)
    requires i < |lines|
    ensures AbortCommands(lines) == AbortCommands(lines[..i + 1]) + AbortCommands(lines[i + 1..])
  {
    assert lines == lines[..i + 1] + lines[i + 1..];
    AbortCommandsAppend(lines[..i + 1], lines[i + 1..]);
  }

  /** The path config_device_from_file reads: `<folder>/<hostname>.cfg`. */
  function ConfigPath(folder: string, hostname: string): string {
    folder + "/" + hostname + ".cfg"
  }

  /** The trace of config_device_from_file for a configuration: replace-load, diff, commit. */
  function ConfigTrace(config: string): seq<Call> {
    [LoadConfig(config, true, "privilege_exec"), DiffConfig, CommitConfig("running")]
  }

  /** The push commits whatever the diff shows, and never aborts. */
  lemma ConfigTraceCommits(config: string)
    ensures |ConfigTrace(config)| == 3 && ConfigTrace(config)[2] == CommitConfig("running")
    ensures ConfigTrace(config)[0].LoadConfig? && ConfigTrace(config)[0].replace && ConfigTrace(config)[0].config == config
    ensures AbortConfig !in ConfigTrace(config)
  {
  }

  /**
   * The push stops at the load when it raises, at the diff when that
   * raises, and otherwise makes all three calls: the commit is sent only
   * after the load and the diff were answered.
   */
  lemma ConfigTraceStops(config: string, reply: Call -> Reply)
    ensures var cs := ConfigTrace(config);
      (reply(cs[0]).Raised? ==> UntilFailure(cs, reply) == [cs[0]]) &&
      (reply(cs[0]).Answered? && reply(DiffConfig).Raised? ==> UntilFailure(cs, reply) == cs[..2]) &&
      (reply(cs[0]).Answered? && reply(DiffConfig).Answered? ==> UntilFailure(cs, reply) == cs) &&
      (AllAnswered(cs, reply) <==> reply(cs[0]).Answered? && reply(DiffConfig).Answered? && reply(cs[2]).Answered?)
    ensures CommitConfig("running") in UntilFailure(ConfigTrace(config), reply) <==>
      reply(ConfigTrace(config)[0]).Answered? && reply(DiffConfig).Answered?
  {
    var cs := ConfigTrace(config);
    assert cs[1..] == [DiffConfig, CommitConfig("running")] && cs[1..][1..] == [CommitConfig("running")];
    assert cs[1..][1..][1..] == [];
    if reply(cs[0]).Answered? && reply(DiffConfig).Answered? {
      assert UntilFailure(cs[1..][1..], reply) == [CommitConfig("running")];
    }
  }

  /** The device's reply to one call. */
  function ReplyOf(reply: Call -> Reply, c: Call): Reply {
    reply(c)
  }

  /** Why config_device_from_file failed: the file is missing, or a call to the device raised. */
  datatype TaskFailure = FileNotFound(path: string) | CallFailed(call: Call, error: string)

  /** One host's task: the host's name, the device's replies and the calls made so far. */
  class Task {
    const hostName: string
    const reply: Call -> Reply
    var calls: seq<Call>

    constructor (hostName: string, reply: Call -> Reply)
      ensures this.hostName == hostName && this.reply == reply && calls == []
    {
      this.hostName := hostName;
      this.reply := reply;
      calls := [];
    }

    /** `task.run(...)`: make one call and get the device's reply. */
    method Run(c: Call) returns (result: Reply)
      modifies this
      ensures calls == old(calls) + [c] && result == ReplyOf(reply, c)
    {
      calls := calls + [c];
      result := ReplyOf(reply, c);
    }

    /** Enter one session and abort it, stopping at the first call that raises. */
    method AbortSessionNamed(name: string) returns (error: Option<string>)
      modifies this
      ensures calls == old(calls) + UntilFailure(AbortSession(name), reply)
      ensures error.None? <==> AllAnswered(AbortSession(name), reply)
      ensures error.Some? ==> |calls| > |old(calls)| && ReplyOf(reply, calls[|calls| - 1]) == Raised(error.value)
    {
      ghost var steps := AbortSession(name);
      assert steps[1..] == [SendCommand("abort")] && steps[1..][1..] == [];
      var entered := Run(SendCommand("configure session " + name));
      if entered.Raised? {
        return Some(entered.error);
      }
      var aborted := Run(SendCommand("abort"));
      if aborted.Raised? {
        return Some(aborted.error);
      }
      error := None;
    }

    /**
     * One pass of abort_all_sessions' loop: a session line's two calls, when
     * the calls for the lines before it were made and answered.
     */
    method AbortLine(ghost base: seq<Call>, lines: seq<string>, i: nat) returns (error: Option<string>)
      requires i < |lines| && calls == base + AbortCommands(lines[..i])
      requires AllAnswered(AbortCommands(lines[..i]), reply)
      modifies this
      ensures error.None? ==>
        calls == base + AbortCommands(lines[..i + 1]) && AllAnswered(AbortCommands(lines[..i + 1]), reply)
      ensures error.Some? ==>
        calls == base + UntilFailure(AbortCommands(lines), reply) && !AllAnswered(AbortCommands(lines), reply) &&
        |calls| > |base| && ReplyOf(reply, calls[|calls| - 1]) == Raised(error.value)
    {
      AbortCommandsAt(lines, i);
      if !IsSessionLine(lines[i]) {
        return None;
      }
      var name := SessionName(lines[i]);
      ghost var prefix, steps, later := AbortCommands(lines[..i]), AbortSession(name), AbortCommands(lines[i + 1..]);
      AbortCommandsSplit(lines, i);
      StepOfRun(prefix, steps, later, reply);
      error := AbortSessionNamed(name);
    }

    /** The loop of abort_all_sessions over the listed lines, stopping at the first call that raises. */
    method AbortListed(lines: seq<string>) returns (error: Option<string>)
      modifies this
      ensures calls == old(calls) + UntilFailure(AbortCommands(lines), reply)
      ensures error.None? <==> AllAnswered(AbortCommands(lines), reply)
      ensures error.Some? ==> |calls| > |old(calls)| && ReplyOf(reply, calls[|calls| - 1]) == Raised(error.value)
    {
      var i := 0;
      while i < |lines|
        invariant 0 <= i <= |lines|
        invariant calls == old(calls) + AbortCommands(lines[..i])
        invariant AllAnswered(AbortCommands(lines[..i]), reply)
      {
        error := AbortLine(old(calls), lines, i);
        if error.Some? {
          return;
        }
        i := i + 1;
      }
      assert lines[..i] == lines;
      UntilFailureShape(AbortCommands(lines), reply);
      error := None;
    }

    /**
     * abort_all_sessions: list the sessions, then enter and abort each
     * session a line names, in line order. The first call that raises ends
     * the Nornir task with that call's error.
     */
    method AbortAllSessions() returns (error: Option<string>)
      modifies this
      ensures calls == old(calls) + AbortAllRun(reply)
      ensures error.None? <==> AbortAllAnswered(reply)
      ensures error.Some? ==> |calls| > |old(calls)| && ReplyOf(reply, calls[|calls| - 1]) == Raised(error.value)
    {
      AbortAllPlanRun(reply);
      var listing := Run(SendCommand(ShowSessions));
      if listing.Raised? {
        return Some(listing.error);
      }
      var lines := SplitLines(listing.output);
      error := AbortListed(lines);
    }

    /**
     * config_device_from_file: read `<folder>/<hostname>.cfg` (`files` is the
     * file system), then load it replacing the configuration, take the diff
     * and commit. A missing file fails before any call; the first call that
     * raises ends the Nornir task with that call's error.
     */
    method ConfigDeviceFromFile(folder: string, files: string -> Option<string>) returns (failure: Option<TaskFailure>)
      modifies this
      ensures files(ConfigPath(folder, hostName)).None? ==>
        failure == Some(FileNotFound(ConfigPath(folder, hostName))) && calls == old(calls)
      ensures files(ConfigPath(folder, hostName)).Some? ==>
        var config := files(ConfigPath(folder, hostName)).value;
        calls == old(calls) + UntilFailure(ConfigTrace(config), reply) &&
        (failure.None? <==> AllAnswered(ConfigTrace(config), reply)) &&
        (failure.Some? ==>
          failure.value.CallFailed? && |calls| > |old(calls)| &&
          failure.value.call == calls[|calls| - 1] && ReplyOf(reply, failure.value.call) == Raised(failure.value.error))
    {
      var path := ConfigPath(folder, hostName);
      var content := files(path);
      if content.None? {
        return Some(FileNotFound(path));
      }
      var load := LoadConfig(content.value, true, "privilege_exec");
      ConfigTraceStops(content.value, reply);
      var loaded := Run(load);
      if loaded.Raised? {
        return Some(CallFailed(load, loaded.error));
      }
      var diff := Run(DiffConfig);
      if diff.Raised? {
        return Some(CallFailed(DiffConfig, diff.error));
      }
      var committed := Run(CommitConfig("running"));
      if committed.Raised? {
        return Some(CallFailed(CommitConfig("running"), committed.error));
      }
      failure := None;
    }
  }
}
