/**
 * The slice of the inventory library that the commands use: hosts in
 * inventory order, filtering by a predicate, and one outcome per host when a
 * task runs on the inventory.
 */
module Inventory {
  import opened Wrappers
  import Filters

  /**
   * A host of the inventory: its name, its platform (possibly unset or empty)
   * and the attributes a filter clause can test.
   */
  datatype Host = Host(name: string, platform: Option<string>, attrs: map<string, string>)

  /** What one host's task run produced: a failure with an optional exception text, or a payload. */
  datatype TaskOutcome<T> = Failed(exception: Option<string>) | Succeeded(result: T)

  /** `str(exception) if exception else "Unknown error"` */
  function ErrorText(exception: Option<string>): (t: string)
    ensures exception.None? ==> t == "Unknown error"
    ensures exception.Some? ==> t == exception.value
  {
    match exception
    case None => "Unknown error"
    case Some(e) => e
  }

  /** The hosts' names, in order. */
  function Names(hosts: seq<Host>): (ns: seq<string>)
    ensures |ns| == |hosts| && forall i :: 0 <= i < |hosts| ==> ns[i] == hosts[i].name
  {
    seq(|hosts|, i requires 0 <= i < |hosts| => hosts[i].name)
  }

  /** `nr.filter(p)`: the hosts the predicate selects, in inventory order. */
  function FilterHosts(hosts: seq<Host>, p: Filters.Predicate): (r: seq<Host>)
    ensures |r| <= |hosts|
    ensures forall h :: h in r ==> h in hosts && Filters.Matches(p, h.attrs)
    decreases |hosts|
  {
    if hosts == [] then []
    else if Filters.Matches(p, hosts[0].attrs) then [hosts[0]] + FilterHosts(hosts[1..], p)
    else FilterHosts(hosts[1..], p)
  }

  /** Filtering keeps every selected host: no host the predicate matches is lost. */
  lemma {:induction false} FilterHostsComplete(hosts: seq<Host>, p: Filters.Predicate, h: Host)
    requires h in hosts && Filters.Matches(p, h.attrs)
    ensures h in FilterHosts(hosts, p)
    decreases |hosts|
  {
    if hosts[0] != h {
      assert h in hosts[1..];
      FilterHostsComplete(hosts[1..], p, h);
    }
  }

  /** Filtering distributes over concatenation, so inventory order is kept. */
  lemma {:induction false} FilterHostsAppend(xs: seq<Host>, ys: seq<Host>, p: Filters.Predicate)
    ensures FilterHosts(xs + ys, p) == FilterHosts(xs, p) + FilterHosts(ys, p)
    decreases |xs|
  {
    if xs == [] {
      assert xs + ys == ys;
    } else {
      assert (xs + ys)[1..] == xs[1..] + ys;
      FilterHostsAppend(xs[1..], ys, p);
    }
  }

  /**
   * `nr.run(task)`: the per-host outcomes in inventory order, each host's
   * outcome coming from the remote side.
   */
  function Run<T>(hosts: seq<Host>, remote: string -> TaskOutcome<T>): (rs: seq<(string, TaskOutcome<T>)>)
    ensures |rs| == |hosts|
    ensures forall i :: 0 <= i < |hosts| ==> rs[i] == (hosts[i].name, remote(hosts[i].name))
  {
    seq(|hosts|, i requires 0 <= i < |hosts| => (hosts[i].name, remote(hosts[i].name)))
  }

  /** The number of failed outcomes. */
  function FailedOutcomes<T>(rs: seq<(string, TaskOutcome<T>)>): (n: nat)
    ensures n <= |rs|
    decreases |rs|
  {
    if rs == [] then 0
    else FailedOutcomes(rs[..|rs| - 1]) + (if rs[|rs| - 1].1.Failed? then 1 else 0)
  }

  /** Some outcome failed exactly when the failure count is positive. */
  lemma {:induction false} FailedOutcomesPositiveIff<T>(rs: seq<(string, TaskOutcome<T>)>)
    ensures FailedOutcomes(rs) > 0 <==> exists i :: 0 <= i < |rs| && rs[i].1.Failed?
    decreases |rs|
  {
    if rs != [] {
      var init := rs[..|rs| - 1];
      FailedOutcomesPositiveIff(init);
      if FailedOutcomes(init) > 0 {
        var i :| 0 <= i < |init| && init[i].1.Failed?;
        assert rs[i].1.Failed?;
      }
      if exists i :: 0 <= i < |rs| && rs[i].1.Failed? {
        var i :| 0 <= i < |rs| && rs[i].1.Failed?;
        if i < |rs| - 1 {
          assert init[i].1.Failed?;
        }
      }
    }
  }
}
