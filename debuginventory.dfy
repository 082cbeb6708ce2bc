/**
 * The inventory debugging tool (py_netauto/utils/debug_inventory.py): for
 * one host, where each variable comes from (defaults, groups, host), which
 * level a special attribute is taken from, the rows of the inheritance
 * table, its summary counts, and the interactive choice of a host.
 */
module DebugInventory {
  import opened Wrappers
  import opened Text
  import opened Sorting

  /** A Python dict as its entries in insertion order. */
  type Dict<V> = seq<(string, V)>

  /** The keys of a dict, in order. */
  function Keys<V>(d: Dict<V>): (ks: seq<string>)
    ensures |ks| == |d|
    decreases |d|
  {
    if d == [] then [] else Keys(d[..|d| - 1]) + [d[|d| - 1].0]
  }

  lemma {:induction false} KeysAt<V>(d: Dict<V>, i: nat)
    requires i < |d|
    ensures Keys(d)[i] == d[i].0
    decreases |d|
  {
    if i < |d| - 1 {
      KeysAt(d[..|d| - 1], i);
    }
  }

  /** `d[k] = v`: an existing key keeps its place and takes the new value; a new key goes last. */
  function Assign<V>(d: Dict<V>, k: string, v: V): (r: Dict<V>)
    decreases |d|
  {
    if d == [] then [(k, v)]
    else if d[0].0 == k then [(k, v)] + d[1..]
    else [d[0]] + Assign(d[1..], k, v)
  }

  /** Assigning a key the dict does not hold appends it. */
  lemma {:induction false} AssignNew<V>(d: Dict<V>, k: string, v: V)
    requires forall i :: 0 <= i < |d| ==> d[i].0 != k
    ensures Assign(d, k, v) == d + [(k, v)]
    decreases |d|
  {
    if d != [] {
      AssignNew(d[1..], k, v);
      assert d == [d[0]] + d[1..];
    }
  }

  /** A setting as the tool sees it: a scalar's text, or a connection-options dict. */
  datatype Value = Scalar(text: string) | Options(options: Dict<string>)

  /**
   * One inventory level (a host, one of its groups, or the defaults): its
   * name, its data, the special attributes set at that level and its
   * connection options.
   */
  datatype Level = Level(name: string, data: Dict<string>, attrs: map<string, string>, connectionOptions: Dict<string>)

  /** A host with its own level, its groups in order, and the defaults. */
  datatype InventoryHost = InventoryHost(name: string, own: Level, groups: seq<Level>, defaults: Level)

  /** The attributes Nornir keeps outside `data`, in the order the tool visits them. */
  const SpecialAttributes: seq<string> := ["hostname", "username", "password", "platform", "port"]

  /** What the tool looks up at each level. */
  datatype Probe = Attribute(attr: string) | ConnectionOptions {
    function Name(): string {
      match this
      case Attribute(a) => a
      case ConnectionOptions => "connection_options"
    }
  }

  /**
   * What a level defines for a probe: a special attribute counts when it is
   * set (not None); connection options count when the dict is non-empty
   * (truthy).
   */
  function Raw(level: Level, p: Probe): (v: Option<Value>)
    ensures p.Attribute? ==> (v.Some? <==> p.attr in level.attrs)
    ensures p.ConnectionOptions? ==> (v.Some? <==> level.connectionOptions != [])
  {
    match p
    case Attribute(a) => if a in level.attrs then Some(Scalar(level.attrs[a])) else None
    case ConnectionOptions => if level.connectionOptions != [] then Some(Options(level.connectionOptions)) else None
  }

  /** One place a setting is defined: its label and value. */
  datatype Source = Source(origin: string, value: Value)

  function GroupLabel(g: Level): string {
    "group: " + g.name
  }

  /** The groups defining the probe, in list order. */
  function GroupSources(groups: seq<Level>, p: Probe): seq<Source>
    decreases |groups|
  {
    if groups == [] then []
    else
      var g := groups[|groups| - 1];
      GroupSources(groups[..|groups| - 1], p) + (if Raw(g, p).Some? then [Source(GroupLabel(g), Raw(g, p).value)] else [])
  }

  /** Every place the probe is defined: the defaults, then the groups in list order, then the host. */
  function Sources(h: InventoryHost, p: Probe): seq<Source> {
    (if Raw(h.defaults, p).Some? then [Source("defaults", Raw(h.defaults, p).value)] else [])
    + GroupSources(h.groups, p)
    + (if Raw(h.own, p).Some? then [Source("host", Raw(h.own, p).value)] else [])
  }

  /** The label of the last group in list order that defines the probe. */
  function LastDefining(groups: seq<Level>, p: Probe): Option<string>
    decreases |groups|
  {
    if groups == [] then None
    else if Raw(groups[|groups| - 1], p).Some? then Some(GroupLabel(groups[|groups| - 1]))
    else LastDefining(groups[..|groups| - 1], p)
  }

  /** The level a setting is taken from: the host, else the last defining group, else the defaults. */
  function SelectedFrom(h: InventoryHost, p: Probe): Option<string> {
    if Raw(h.own, p).Some? then Some("host")
    else if LastDefining(h.groups, p).Some? then LastDefining(h.groups, p)
    else if Raw(h.defaults, p).Some? then Some("defaults")
    else None
  }

  /** What is recorded about one special attribute. */
  datatype AttrInfo = AttrInfo(sources: seq<Source>, selectedFrom: Option<string>)

  /** Everything collected about one host. */
  datatype Variables = Variables(
    host: Dict<string>,
    groups: Dict<Dict<string>>,
    defaults: Dict<string>,
    specialAttrs: Dict<AttrInfo>)

  /** `variables["groups"]`: each group with non-empty data under its name, in group order. */
  function GroupVariables(groups: seq<Level>): Dict<Dict<string>>
    decreases |groups|
  {
    if groups == [] then []
    else
      var g := groups[|groups| - 1];
      var d := GroupVariables(groups[..|groups| - 1]);
      if g.data != [] then Assign(d, g.name, g.data) else d
  }

  /** The probes in the order the tool visits them. */
  function Probes(): seq<Probe> {
    [Attribute("hostname"), Attribute("username"), Attribute("password"), Attribute("platform"), Attribute("port"), ConnectionOptions]
  }

  /** `variables["special_attrs"]` over the given probes: a probe is recorded only when some level defines it. */
  function SpecialAttrs(h: InventoryHost, probes: seq<Probe>): Dict<AttrInfo>
    decreases |probes|
  {
    if probes == [] then []
    else
      var p := probes[|probes| - 1];
      SpecialAttrs(h, probes[..|probes| - 1])
      + (if Sources(h, p) != [] then [(p.Name(), AttrInfo(Sources(h, p), SelectedFrom(h, p)))] else [])
  }

  /** What `collect_host_variables` returns for a host. */
  function Collected(h: InventoryHost): Variables {
    Variables(h.own.data, GroupVariables(h.groups), h.defaults.data, SpecialAttrs(h, Probes()))
  }

  // ---------------------------------------------------------------------
  // Properties of the collected variables
  // ---------------------------------------------------------------------

  /** Group sources of consecutive runs of groups are concatenated: list order is kept. */
  lemma {:induction false} GroupSourcesAppend(g1: seq<Level>, g2: seq<Level>, p: Probe)
    ensures GroupSources(g1 + g2, p) == GroupSources(g1, p) + GroupSources(g2, p)
    decreases |g2|
  {
    if g2 == [] {
      assert g1 + g2 == g1;
    } else {
      assert (g1 + g2)[..|g1 + g2| - 1] == g1 + g2[..|g2| - 1];
      assert (g1 + g2)[|g1 + g2| - 1] == g2[|g2| - 1];
      GroupSourcesAppend(g1, g2[..|g2| - 1], p);
    }
  }

  /** Each group source is labelled "group: <name>" after a group that defines the probe. */
  lemma {:induction false} GroupSourcesLabels(groups: seq<Level>, p: Probe)
    ensures forall i :: 0 <= i < |GroupSources(groups, p)| ==>
      exists j :: 0 <= j < |groups| && Raw(groups[j], p).Some? && GroupSources(groups, p)[i].origin == GroupLabel(groups[j])
    ensures GroupSources(groups, p) != [] <==> exists j :: 0 <= j < |groups| && Raw(groups[j], p).Some?
    decreases |groups|
  {
    if groups != [] {
      var init := groups[..|groups| - 1];
      var g := groups[|groups| - 1];
      GroupSourcesLabels(init, p);
      var prev := GroupSources(init, p);
      var s := GroupSources(groups, p);
      forall i | 0 <= i < |s|
        ensures exists j :: 0 <= j < |groups| && Raw(groups[j], p).Some? && s[i].origin == GroupLabel(groups[j])
      {
        if i < |prev| {
          assert s[i] == prev[i];
          var j :| 0 <= j < |init| && Raw(init[j], p).Some? && prev[i].origin == GroupLabel(init[j]);
          assert groups[j] == init[j];
        } else {
          var j := |groups| - 1;
          assert Raw(groups[j], p).Some? && s[i].origin == GroupLabel(groups[j]);
        }
      }
      if exists j :: 0 <= j < |groups| && Raw(groups[j], p).Some? {
        var j :| 0 <= j < |groups| && Raw(groups[j], p).Some?;
        if j < |groups| - 1 {
          assert init[j] == groups[j];
        }
      }
    } else {
      assert GroupSources(groups, p) == [];
    }
  }

  /** The defaults come first and the host last: "defaults" only labels index 0, "host" only the last index. */
  lemma SourcesOrder(h: InventoryHost, p: Probe)
    ensures var s := Sources(h, p);
      (Raw(h.defaults, p).Some? ==> s[0].origin == "defaults") &&
      (Raw(h.own, p).Some? ==> s[|s| - 1].origin == "host") &&
      (forall i :: 0 <= i < |s| && s[i].origin == "defaults" ==> i == 0) &&
      (forall i :: 0 <= i < |s| && s[i].origin == "host" ==> i == |s| - 1)
  {
    var s := Sources(h, p);
    var d := if Raw(h.defaults, p).Some? then [Source("defaults", Raw(h.defaults, p).value)] else [];
    var gs := GroupSources(h.groups, p);
    GroupSourcesLabels(h.groups, p);
    forall i | 0 <= i < |gs| ensures gs[i].origin != "defaults" && gs[i].origin != "host" {
      var j :| 0 <= j < |h.groups| && Raw(h.groups[j], p).Some? && gs[i].origin == GroupLabel(h.groups[j]);
      assert gs[i].origin[0] == 'g';
    }
  }

  /** A probe has a source exactly when the defaults, some group or the host defines it. */
  lemma SourcesIffDefined(h: InventoryHost, p: Probe)
    ensures Sources(h, p) != [] <==>
      Raw(h.defaults, p).Some? || Raw(h.own, p).Some? || exists j :: 0 <= j < |h.groups| && Raw(h.groups[j], p).Some?
  {
    GroupSourcesLabels(h.groups, p);
  }

  /** The last defining group is the last group source. */
  lemma {:induction false} LastDefiningIsLastSource(groups: seq<Level>, p: Probe)
    ensures GroupSources(groups, p) == [] <==> LastDefining(groups, p).None?
    ensures GroupSources(groups, p) != [] ==>
      LastDefining(groups, p) == Some(GroupSources(groups, p)[|GroupSources(groups, p)| - 1].origin)
    decreases |groups|
  {
    if groups != [] {
      LastDefiningIsLastSource(groups[..|groups| - 1], p);
    }
  }

  /**
   * Precedence is the source order read backwards: the level a setting is
   * taken from is the last of its sources, and there is one exactly when
   * there are sources.
   */
  lemma SelectedIsLastSource(h: InventoryHost, p: Probe)
    ensures Sources(h, p) == [] <==> SelectedFrom(h, p).None?
    ensures Sources(h, p) != [] ==> SelectedFrom(h, p) == Some(Sources(h, p)[|Sources(h, p)| - 1].origin)
  {
    LastDefiningIsLastSource(h.groups, p);
    var gs := GroupSources(h.groups, p);
    var d := if Raw(h.defaults, p).Some? then [Source("defaults", Raw(h.defaults, p).value)] else [];
    var s := Sources(h, p);
    if Raw(h.own, p).None? && gs != [] {
      assert s == d + gs;
      assert s[|s| - 1] == gs[|gs| - 1];
    }
  }

  /** Recorded special attributes: one per probe with a source, each with its level chosen. */
  lemma {:induction false} SpecialAttrsRecorded(h: InventoryHost, probes: seq<Probe>)
    ensures forall i :: 0 <= i < |SpecialAttrs(h, probes)| ==>
      SpecialAttrs(h, probes)[i].1.sources != [] && SpecialAttrs(h, probes)[i].1.selectedFrom.Some?
    ensures forall q :: q in probes && Sources(h, q) != [] ==> q.Name() in Keys(SpecialAttrs(h, probes))
    ensures forall k :: k in Keys(SpecialAttrs(h, probes)) ==> exists q :: q in probes && q.Name() == k && Sources(h, q) != []
    decreases |probes|
  {
    if probes != [] {
      var init := probes[..|probes| - 1];
      var p := probes[|probes| - 1];
      SpecialAttrsRecorded(h, init);
      SelectedIsLastSource(h, p);
      var prev := SpecialAttrs(h, init);
      var r := SpecialAttrs(h, probes);
      var extra := if Sources(h, p) != [] then [(p.Name(), AttrInfo(Sources(h, p), SelectedFrom(h, p)))] else [];
      assert r == prev + extra;
      assert Keys(r) == Keys(prev) + Keys(extra) by {
        KeysAppend(prev, extra);
      }
      forall i | 0 <= i < |r| ensures r[i].1.sources != [] && r[i].1.selectedFrom.Some? {
        if i < |prev| {
          assert r[i] == prev[i];
        }
      }
      forall q | q in probes && Sources(h, q) != [] ensures q.Name() in Keys(r) {
        if q in init {
        } else {
          assert q == p;
          assert Keys(extra) == [p.Name()];
        }
      }
      forall k | k in Keys(r) ensures exists q :: q in probes && q.Name() == k && Sources(h, q) != [] {
        if k in Keys(prev) {
          var q :| q in init && q.Name() == k && Sources(h, q) != [];
          assert q in probes;
        } else {
          assert k in Keys(extra);
          assert Keys(extra) == [p.Name()];
          assert p in probes;
        }
      }
    }
  }

  lemma {:induction false} KeysAppend<V>(a: Dict<V>, b: Dict<V>)
    ensures Keys(a + b) == Keys(a) + Keys(b)
    decreases |b|
  {
    if b == [] {
      assert a + b == a;
    } else {
      assert (a + b)[..|a + b| - 1] == a + b[..|b| - 1];
      KeysAppend(a, b[..|b| - 1]);
    }
  }

  /** Connection options empty at every level are not recorded: emptiness counts as undefined. */
  lemma EmptyConnectionOptionsIgnored(h: InventoryHost)
    requires h.own.connectionOptions == [] && h.defaults.connectionOptions == []
    requires forall j :: 0 <= j < |h.groups| ==> h.groups[j].connectionOptions == []
    ensures "connection_options" !in Keys(Collected(h).specialAttrs)
  {
    SpecialAttrsRecorded(h, Probes());
    SourcesIffDefined(h, ConnectionOptions);
  }

  /** `variables["groups"]` holds no empty group, and names exactly the groups with data. */
  lemma {:induction false} GroupVariablesNonEmpty(groups: seq<Level>)
    ensures forall i :: 0 <= i < |GroupVariables(groups)| ==> GroupVariables(groups)[i].1 != []
    ensures forall k :: k in Keys(GroupVariables(groups)) <==> exists j :: 0 <= j < |groups| && groups[j].name == k && groups[j].data != []
    decreases |groups|
  {
    if groups != [] {
      var init := groups[..|groups| - 1];
      var g := groups[|groups| - 1];
      GroupVariablesNonEmpty(init);
      var d := GroupVariables(init);
      if g.data != [] {
        AssignFacts(d, g.name, g.data);
      }
      forall k | k in Keys(GroupVariables(groups)) ensures exists j :: 0 <= j < |groups| && groups[j].name == k && groups[j].data != [] {
        if k != g.name || g.data == [] {
          var j :| 0 <= j < |init| && init[j].name == k && init[j].data != [];
          assert groups[j] == init[j];
        }
      }
      forall k | exists j :: 0 <= j < |groups| && groups[j].name == k && groups[j].data != []
        ensures k in Keys(GroupVariables(groups))
      {
        var j :| 0 <= j < |groups| && groups[j].name == k && groups[j].data != [];
        if j < |groups| - 1 {
          assert init[j] == groups[j];
        }
      }
    }
  }

  /** Assigning keeps every other entry's presence, adds the key, and puts the value in. */
  lemma {:induction false} AssignFacts<V>(d: Dict<V>, k: string, v: V)
    ensures forall x :: x in Keys(Assign(d, k, v)) <==> x in Keys(d) || x == k
    ensures (k, v) in Assign(d, k, v)
    ensures forall i :: 0 <= i < |Assign(d, k, v)| ==> Assign(d, k, v)[i] == (k, v) || Assign(d, k, v)[i] in d
    ensures forall i :: 0 <= i < |d| && d[i].0 != k ==> d[i] in Assign(d, k, v)
    decreases |d|
  {
    if d == [] {
      assert Keys(Assign(d, k, v)) == [k];
    } else {
      var r := Assign(d, k, v);
      assert Keys([d[0]]) == [d[0].0];
      KeysAppend([d[0]], d[1..]);
      assert [d[0]] + d[1..] == d;
      if d[0].0 == k {
        KeysAppend([(k, v)], d[1..]);
        assert Keys([(k, v)]) == [k];
        assert r[0] == (k, v);
        forall i | 0 <= i < |r| ensures r[i] == (k, v) || r[i] in d {
          if i > 0 {
            assert r[i] == d[i];
          }
        }
        forall i | 0 <= i < |d| && d[i].0 != k ensures d[i] in r {
          assert r[i] == d[i];
        }
      } else {
        AssignFacts(d[1..], k, v);
        KeysAppend([d[0]], Assign(d[1..], k, v));
        assert r == [d[0]] + Assign(d[1..], k, v);
        forall i | 0 <= i < |r| ensures r[i] == (k, v) || r[i] in d {
          if i > 0 {
            var x := Assign(d[1..], k, v)[i - 1];
            assert r[i] == x;
            if x != (k, v) {
              var j :| 0 <= j < |d[1..]| && d[1..][j] == x;
              assert d[j + 1] == x;
            }
          }
        }
        forall i | 0 <= i < |d| && d[i].0 != k ensures d[i] in r {
          if i > 0 {
            assert d[1..][i - 1] == d[i];
          }
        }
      }
    }
  }

  /** No key occurs twice, as in a Python dict. */
  predicate DistinctKeys<V>(d: Dict<V>) {
    forall i, j :: 0 <= i < j < |d| ==> d[i].0 != d[j].0
  }

  /**
   * On a dict whose keys are distinct, assigning keeps them distinct and
   * leaves exactly one entry for the key, holding the new value.
   */
  lemma {:induction false} AssignDistinct<V>(d: Dict<V>, k: string, v: V)
    requires DistinctKeys(d)
    ensures DistinctKeys(Assign(d, k, v))
    ensures forall i :: 0 <= i < |Assign(d, k, v)| && Assign(d, k, v)[i].0 == k ==> Assign(d, k, v)[i].1 == v
    decreases |d|
  {
    if d != [] {
      var r := Assign(d, k, v);
      if d[0].0 == k {
        assert r == [(k, v)] + d[1..];
        forall i | 0 < i < |r| ensures r[i].0 != k {
          assert r[i] == d[i];
        }
        forall i, j | 0 <= i < j < |r| ensures r[i].0 != r[j].0 {
          assert r[j] == d[j];
          if i > 0 {
            assert r[i] == d[i];
          }
        }
      } else {
        var rest := Assign(d[1..], k, v);
        assert DistinctKeys(d[1..]) by {
          forall i, j | 0 <= i < j < |d[1..]| ensures d[1..][i].0 != d[1..][j].0 {
            assert d[1..][i] == d[i + 1] && d[1..][j] == d[j + 1];
          }
        }
        AssignDistinct(d[1..], k, v);
        AssignFacts(d[1..], k, v);
        assert r == [d[0]] + rest;
        forall j | 0 <= j < |rest| ensures rest[j].0 != d[0].0 {
          if rest[j] != (k, v) {
            var m :| 0 <= m < |d[1..]| && d[1..][m] == rest[j];
            assert d[m + 1] == rest[j];
          }
        }
        forall i, j | 0 <= i < j < |r| ensures r[i].0 != r[j].0 {
          assert r[j] == rest[j - 1];
          if i > 0 {
            assert r[i] == rest[i - 1];
          }
        }
      }
    }
  }

  // ---------------------------------------------------------------------
  // collect_host_variables
  // ---------------------------------------------------------------------

  /** The loop over the host's groups that fills `variables["groups"]`. */
  method CollectGroups(groups: seq<Level>) returns (d: Dict<Dict<string>>)
    ensures d == GroupVariables(groups)
  {
    d := [];
    var i := 0;
    while i < |groups|
      invariant 0 <= i <= |groups|
      invariant d == GroupVariables(groups[..i])
    {
      assert groups[..i + 1][..i] == groups[..i];
      var g := groups[i];
      if g.data != [] {
        d := Assign(d, g.name, g.data);
      }
      i := i + 1;
    }
    assert groups[..i] == groups;
  }

  /** The checks of the defaults, each group in turn, and the host for one probe. */
  method CollectSources(h: InventoryHost, p: Probe) returns (sources: seq<Source>)
    ensures sources == Sources(h, p)
  {
    sources := [];
    var fromDefaults := Raw(h.defaults, p);
    if fromDefaults.Some? {
      sources := sources + [Source("defaults", fromDefaults.value)];
    }
    var i := 0;
    while i < |h.groups|
      invariant 0 <= i <= |h.groups|
      invariant sources == (if Raw(h.defaults, p).Some? then [Source("defaults", Raw(h.defaults, p).value)] else [])
        + GroupSources(h.groups[..i], p)
    {
      assert h.groups[..i + 1][..i] == h.groups[..i];
      var g := h.groups[i];
      var fromGroup := Raw(g, p);
      if fromGroup.Some? {
        sources := sources + [Source(GroupLabel(g), fromGroup.value)];
      }
      i := i + 1;
    }
    assert h.groups[..i] == h.groups;
    var fromHost := Raw(h.own, p);
    if fromHost.Some? {
      sources := sources + [Source("host", fromHost.value)];
    }
  }

  /** The level chosen for one probe: the host, else the groups scanned in reverse, else the defaults. */
  method FindSelected(h: InventoryHost, p: Probe) returns (from: Option<string>)
    ensures from == SelectedFrom(h, p)
  {
    from := None;
    if Raw(h.own, p).Some? {
      return Some("host");
    }
    var i := |h.groups|;
    assert h.groups[..i] == h.groups;
    while i > 0
      invariant 0 <= i <= |h.groups|
      invariant LastDefining(h.groups, p) == LastDefining(h.groups[..i], p)
    {
      assert h.groups[..i][..i - 1] == h.groups[..i - 1];
      var g := h.groups[i - 1];
      if Raw(g, p).Some? {
        return Some(GroupLabel(g));
      }
      i := i - 1;
    }
    if Raw(h.defaults, p).Some? {
      from := Some("defaults");
    }
  }

  /** `collect_host_variables`. */
  method CollectHostVariables(h: InventoryHost) returns (vars: Variables)
    ensures vars == Collected(h)
  {
    var groups := CollectGroups(h.groups);
    var probes := Probes();
    var special: Dict<AttrInfo> := [];
    var i := 0;
    while i < |probes|
      invariant 0 <= i <= |probes|
      invariant special == SpecialAttrs(h, probes[..i])
    {
      assert probes[..i + 1][..i] == probes[..i];
      var p := probes[i];
      var sources := CollectSources(h, p);
      var from := FindSelected(h, p);
      if sources != [] {
        special := special + [(p.Name(), AttrInfo(sources, from))];
      }
      i := i + 1;
    }
    assert probes[..i] == probes;
    vars := Variables(h.own.data, groups, h.defaults.data, special);
  }

  // ---------------------------------------------------------------------
  // display_host_variables
  // ---------------------------------------------------------------------

  /** Where a table row says its value comes from. */
  datatype RowSource =
    | SpecialSource(labels: seq<string>, selectedNote: Option<string>)
    | DefaultsSource
    | GroupSource(group: string)
    | HostSource

  /** One row of the inheritance table. */
  datatype Row = Row(name: string, value: string, source: RowSource)

  function Labels(sources: seq<Source>): (ls: seq<string>)
    ensures |ls| == |sources|
    decreases |sources|
  {
    if sources == [] then [] else Labels(sources[..|sources| - 1]) + [sources[|sources| - 1].origin]
  }

  /**
   * The row of a special attribute: every label of its sources, and the
   * selected level noted only when there is more than one source;
   * `resolved` is the value Nornir's own lookup gives.
   */
  function SpecialRow(entry: (string, AttrInfo), resolved: string -> string): Row {
    var info := entry.1;
    Row(entry.0, resolved(entry.0),
        SpecialSource(Labels(info.sources), if |info.sources| > 1 then info.selectedFrom else None))
  }

  /** The rows of the special attributes, in the order given. */
  function SpecialRows(entries: Dict<AttrInfo>, resolved: string -> string): (rows: seq<Row>)
    ensures |rows| == |entries|
    decreases |entries|
  {
    if entries == [] then []
    else SpecialRows(entries[..|entries| - 1], resolved) + [SpecialRow(entries[|entries| - 1], resolved)]
  }

  /** The rows of one section, in the order given, leaving out names already shown as special attributes. */
  function PlainRows(items: Dict<string>, shown: seq<string>, source: RowSource): seq<Row>
    decreases |items|
  {
    if items == [] then []
    else
      var item := items[|items| - 1];
      PlainRows(items[..|items| - 1], shown, source) + (if item.0 !in shown then [Row(item.0, item.1, source)] else [])
  }

  /** The sort key of a dict item: its key. */
  function ItemKey<V>(item: (string, V)): string {
    item.0
  }

  /** The rows of the group sections, group after group, each group's variables sorted. */
  function GroupRows(groups: Dict<Dict<string>>, shown: seq<string>): seq<Row>
    decreases |groups|
  {
    if groups == [] then []
    else
      var g := groups[|groups| - 1];
      GroupRows(groups[..|groups| - 1], shown) + PlainRows(SortBy(g.1, ItemKey), shown, GroupSource(g.0))
  }

  /** The rows after the special attributes: defaults, groups, host, each sorted by name. */
  function InheritedRows(vars: Variables): seq<Row> {
    var shown := Keys(vars.specialAttrs);
    PlainRows(SortBy(vars.defaults, ItemKey), shown, DefaultsSource)
    + GroupRows(vars.groups, shown)
    + PlainRows(SortBy(vars.host, ItemKey), shown, HostSource)
  }

  /** The whole table: the special attributes sorted by name, then the inherited rows. */
  function TableRows(vars: Variables, resolved: string -> string): seq<Row> {
    SpecialRows(SortBy(vars.specialAttrs, ItemKey), resolved) + InheritedRows(vars)
  }

  lemma {:induction false} PlainRowsHide(items: Dict<string>, shown: seq<string>, source: RowSource)
    ensures forall r :: r in PlainRows(items, shown, source) ==> r.name !in shown && r.source == source
    decreases |items|
  {
    if items != [] {
      PlainRowsHide(items[..|items| - 1], shown, source);
    }
  }

  lemma {:induction false} GroupRowsHide(groups: Dict<Dict<string>>, shown: seq<string>)
    ensures forall r :: r in GroupRows(groups, shown) ==> r.name !in shown && r.source.GroupSource?
    decreases |groups|
  {
    if groups != [] {
      var g := groups[|groups| - 1];
      GroupRowsHide(groups[..|groups| - 1], shown);
      PlainRowsHide(SortBy(g.1, ItemKey), shown, GroupSource(g.0));
    }
  }

  /** No inherited row repeats a special attribute or carries a special source. */
  lemma InheritedRowsHide(vars: Variables)
    ensures forall r :: r in InheritedRows(vars) ==> r.name !in Keys(vars.specialAttrs) && !r.source.SpecialSource?
  {
    var shown := Keys(vars.specialAttrs);
    var a := PlainRows(SortBy(vars.defaults, ItemKey), shown, DefaultsSource);
    var b := GroupRows(vars.groups, shown);
    var c := PlainRows(SortBy(vars.host, ItemKey), shown, HostSource);
    PlainRowsHide(SortBy(vars.defaults, ItemKey), shown, DefaultsSource);
    GroupRowsHide(vars.groups, shown);
    PlainRowsHide(SortBy(vars.host, ItemKey), shown, HostSource);
    assert InheritedRows(vars) == a + b + c;
  }

  /**
   * A variable shown as a special attribute is not listed again: the table
   * starts with one row per special attribute, and no later row carries a
   * special attribute's name or a special source.
   */
  lemma NoRepeatedSpecials(vars: Variables, resolved: string -> string)
    ensures var rows := TableRows(vars, resolved);
      var n := |vars.specialAttrs|;
      n <= |rows| &&
      (forall i :: 0 <= i < n ==> rows[i].source.SpecialSource?) &&
      (forall i :: n <= i < |rows| ==> rows[i].name !in Keys(vars.specialAttrs) && !rows[i].source.SpecialSource?)
  {
    var sorted := SortBy(vars.specialAttrs, ItemKey);
    SpecialRowsShape(sorted, resolved);
    InheritedRowsHide(vars);
    RowsSplit(SpecialRows(sorted, resolved), InheritedRows(vars), Keys(vars.specialAttrs));
  }

  /** The facts above for any table made of special rows followed by rows that hide them. */
  lemma RowsSplit(specials: seq<Row>, rest: seq<Row>, shown: seq<string>)
    requires forall i :: 0 <= i < |specials| ==> specials[i].source.SpecialSource?
    requires forall r :: r in rest ==> r.name !in shown && !r.source.SpecialSource?
    ensures forall i :: 0 <= i < |specials| ==> (specials + rest)[i].source.SpecialSource?
    ensures forall i :: |specials| <= i < |specials + rest| ==>
      (specials + rest)[i].name !in shown && !(specials + rest)[i].source.SpecialSource?
  {
    forall i | |specials| <= i < |specials + rest|
      ensures (specials + rest)[i].name !in shown && !(specials + rest)[i].source.SpecialSource?
    {
      assert (specials + rest)[i] == rest[i - |specials|];
    }
  }

  lemma {:induction false} SpecialRowsShape(entries: Dict<AttrInfo>, resolved: string -> string)
    ensures forall i :: 0 <= i < |entries| ==> SpecialRows(entries, resolved)[i] == SpecialRow(entries[i], resolved)
    ensures forall i :: 0 <= i < |entries| ==> SpecialRows(entries, resolved)[i].source.SpecialSource?
    decreases |entries|
  {
    if entries != [] {
      SpecialRowsShape(entries[..|entries| - 1], resolved);
    }
  }

  /** The summary printed under the table. */
  datatype Summary = Summary(
    specialAttributes: nat,
    defaultVars: nat,
    groupVars: nat,
    groupCount: nat,
    perGroup: seq<(string, nat)>,
    hostVars: nat)

  /** The number of variables over all recorded groups. */
  function GroupVarTotal(groups: Dict<Dict<string>>): nat
    decreases |groups|
  {
    if groups == [] then 0 else GroupVarTotal(groups[..|groups| - 1]) + |groups[|groups| - 1].1|
  }

  /** The per-group counts, in group order. */
  function PerGroup(groups: Dict<Dict<string>>): (counts: seq<(string, nat)>)
    ensures |counts| == |groups|
    decreases |groups|
  {
    if groups == [] then [] else PerGroup(groups[..|groups| - 1]) + [(groups[|groups| - 1].0, |groups[|groups| - 1].1|)]
  }

  /** The sum of a list of counts. */
  function SumCounts(counts: seq<(string, nat)>): nat
    decreases |counts|
  {
    if counts == [] then 0 else SumCounts(counts[..|counts| - 1]) + counts[|counts| - 1].1
  }

  function SummaryOf(vars: Variables): Summary {
    Summary(|vars.specialAttrs|, |vars.defaults|, GroupVarTotal(vars.groups), |vars.groups|, PerGroup(vars.groups), |vars.host|)
  }

  /** The reported group-variable total is the sum of the per-group counts listed under it. */
  lemma {:induction false} GroupTotalIsSum(groups: Dict<Dict<string>>)
    ensures GroupVarTotal(groups) == SumCounts(PerGroup(groups))
    decreases |groups|
  {
    if groups != [] {
      GroupTotalIsSum(groups[..|groups| - 1]);
      assert PerGroup(groups)[..|groups| - 1] == PerGroup(groups[..|groups| - 1]);
    }
  }

  /** The data sizes of a host's groups. */
  function DataSizes(groups: seq<Level>): nat
    decreases |groups|
  {
    if groups == [] then 0 else DataSizes(groups[..|groups| - 1]) + |groups[|groups| - 1].data|
  }

  /**
   * With distinct group names, the group-variable total counts every
   * variable of every group: empty groups are left out but add nothing.
   */
  lemma {:induction false} GroupTotalCountsAll(groups: seq<Level>)
    requires forall i, j :: 0 <= i < j < |groups| ==> groups[i].name != groups[j].name
    ensures GroupVarTotal(GroupVariables(groups)) == DataSizes(groups)
    decreases |groups|
  {
    if groups != [] {
      var init := groups[..|groups| - 1];
      var g := groups[|groups| - 1];
      GroupTotalCountsAll(init);
      var d := GroupVariables(init);
      if g.data != [] {
        GroupVariablesNonEmpty(init);
        forall i | 0 <= i < |d| ensures d[i].0 != g.name {
          KeysAt(d, i);
          assert d[i].0 in Keys(d);
          var j :| 0 <= j < |init| && init[j].name == d[i].0 && init[j].data != [];
          assert init[j] == groups[j];
        }
        AssignNew(d, g.name, g.data);
        assert (d + [(g.name, g.data)])[..|d|] == d;
      }
    }
  }

  /** `display_host_variables`: the table's rows and the summary for one host. */
  method DisplayHostVariables(h: InventoryHost, resolved: string -> string) returns (rows: seq<Row>, summary: Summary)
    ensures rows == TableRows(Collected(h), resolved)
    ensures summary == SummaryOf(Collected(h))
  {
    var vars := CollectHostVariables(h);
    var specialRows := AddSpecialRows(SortBy(vars.specialAttrs, ItemKey), resolved);
    var shown := Keys(vars.specialAttrs);
    var defaultRows := AddRows(SortBy(vars.defaults, ItemKey), shown, DefaultsSource);
    var groupRows := AddGroupRows(vars.groups, shown);
    var hostRows := AddRows(SortBy(vars.host, ItemKey), shown, HostSource);
    rows := specialRows + (defaultRows + groupRows + hostRows);
    summary := Summary(|vars.specialAttrs|, |vars.defaults|, GroupVarTotal(vars.groups), |vars.groups|,
                       PerGroup(vars.groups), |vars.host|);
  }

  /** The loop over the special attributes: one row each. */
  method AddSpecialRows(specials: Dict<AttrInfo>, resolved: string -> string) returns (rows: seq<Row>)
    ensures rows == SpecialRows(specials, resolved)
  {
    rows := [];
    var i := 0;
    while i < |specials|
      invariant 0 <= i <= |specials|
      invariant rows == SpecialRows(specials[..i], resolved)
    {
      assert specials[..i + 1][..i] == specials[..i];
      rows := rows + [SpecialRow(specials[i], resolved)];
      i := i + 1;
    }
    assert specials[..i] == specials;
  }

  /** The loop over the recorded groups, each group's variables sorted. */
  method AddGroupRows(groups: Dict<Dict<string>>, shown: seq<string>) returns (rows: seq<Row>)
    ensures rows == GroupRows(groups, shown)
  {
    rows := [];
    var j := 0;
    while j < |groups|
      invariant 0 <= j <= |groups|
      invariant rows == GroupRows(groups[..j], shown)
    {
      assert groups[..j + 1][..j] == groups[..j];
      var g := groups[j];
      var more := AddRows(SortBy(g.1, ItemKey), shown, GroupSource(g.0));
      rows := rows + more;
      j := j + 1;
    }
    assert groups[..j] == groups;
  }

  /** One section's loop: a row per variable not already shown as a special attribute. */
  method AddRows(items: Dict<string>, shown: seq<string>, source: RowSource) returns (rows: seq<Row>)
    ensures rows == PlainRows(items, shown, source)
  {
    rows := [];
    var i := 0;
    while i < |items|
      invariant 0 <= i <= |items|
      invariant rows == PlainRows(items[..i], shown, source)
    {
      assert items[..i + 1][..i] == items[..i];
      if items[i].0 !in shown {
        rows := rows + [Row(items[i].0, items[i].1, source)];
      }
      i := i + 1;
    }
    assert items[..i] == items;
  }

  // ---------------------------------------------------------------------
  // select_host_interactive
  // ---------------------------------------------------------------------

  /**
   * The host a prompt answer names, among the inventory's names listed
   * sorted: "q" in either case quits; a number picks from the list counting
   * from 1; otherwise an exact name; anything else gives nothing.
   */
  function SelectHost(hostNames: seq<string>, choice: string): (r: Option<string>)
    ensures Lower(choice) == "q" ==> r.None?
    ensures r.Some? ==> r.value in SortStrings(hostNames)
    ensures r.Some? && !IsDigits(choice) ==> r == Some(choice)
  {
    var hosts := SortStrings(hostNames);
    if Lower(choice) == "q" then None
    else if IsDigits(choice) then
      var idx := DigitsValue(choice) - 1;
      if 0 <= idx < |hosts| then Some(hosts[idx]) else None
    else if choice in hosts then Some(choice)
    else None
  }

  /** The prompt's default: the first host in sorted order, or nothing for an empty inventory. */
  function PromptDefault(hostNames: seq<string>): (d: string)
    ensures hostNames == [] ==> d == ""
    ensures hostNames != [] ==> d in hostNames && forall h :: h in hostNames ==> StrLe(d, h)
  {
    SortStringsSorted(hostNames);
    var hosts := SortStrings(hostNames);
    assert |hosts| == |hostNames| by {
      assert |multiset(hosts)| == |multiset(hostNames)|;
    }
    if hosts != [] then
      assert forall h :: h in hosts ==> StrLe(hosts[0], h) by {
        forall h | h in hosts ensures StrLe(hosts[0], h) {
          var j :| 0 <= j < |hosts| && hosts[j] == h;
          if j == 0 { StrLeTotal(h, h); }
        }
      }
      hosts[0]
    else ""
  }

  /**
   * Accepting the prompt's default picks nothing for an empty inventory, and
   * otherwise the first host in sorted order, unless that name reads as "q"
   * or as a number.
   */
  lemma PromptDefaultSelects(hostNames: seq<string>)
    ensures hostNames == [] ==> SelectHost(hostNames, PromptDefault(hostNames)).None?
    ensures hostNames != [] && Lower(PromptDefault(hostNames)) != "q" && !IsDigits(PromptDefault(hostNames)) ==>
      SelectHost(hostNames, PromptDefault(hostNames)) == Some(PromptDefault(hostNames))
  {
    SortStringsSorted(hostNames);
  }

  /** "q" and "Q" and nothing else quit. */
  lemma SelectQuit(hostNames: seq<string>, choice: string)
    ensures Lower(choice) == "q" <==> choice == "q" || choice == "Q"
    ensures choice == "q" || choice == "Q" ==> SelectHost(hostNames, choice).None?
  {
    if Lower(choice) == "q" {
      assert |choice| == 1;
      assert LowerChar(choice[0]) == 'q';
      assert choice == [choice[0]];
    }
  }

  /** Whatever is chosen is a host of the inventory. */
  lemma SelectIsHost(hostNames: seq<string>, choice: string)
    ensures SelectHost(hostNames, choice).Some? ==> SelectHost(hostNames, choice).value in hostNames
  {
    SortStringsSorted(hostNames);
    var hosts := SortStrings(hostNames);
    if Lower(choice) != "q" && IsDigits(choice) {
      var idx := DigitsValue(choice) - 1;
      if 0 <= idx < |hosts| {
        assert hosts[idx] in hosts;
      }
    }
  }

  /**
   * An answer of decimal digits, leading zeros allowed, picks the name at
   * its value in sorted order counting from 1; 0 and values past the list
   * pick nothing.
   */
  lemma SelectByNumber(hostNames: seq<string>, choice: string)
    requires IsDigits(choice)
    ensures 1 <= DigitsValue(choice) <= |hostNames| ==>
      SelectHost(hostNames, choice) == Some(SortStrings(hostNames)[DigitsValue(choice) - 1])
    ensures (DigitsValue(choice) == 0 || DigitsValue(choice) > |hostNames|) ==> SelectHost(hostNames, choice).None?
  {
    assert choice[0] != 'q' && choice[0] != 'Q';
    SelectQuit(hostNames, choice);
    assert |SortStrings(hostNames)| == |hostNames| by {
      assert |multiset(SortStrings(hostNames))| == |multiset(hostNames)|;
    }
  }

  /** A name that is neither a number nor a quit picks itself when it is a host, and nothing otherwise. */
  lemma SelectByName(hostNames: seq<string>, choice: string)
    requires !IsDigits(choice) && choice != "q" && choice != "Q"
    ensures SelectHost(hostNames, choice) == (if choice in hostNames then Some(choice) else None)
  {
    SelectQuit(hostNames, choice);
    SortStringsSorted(hostNames);
  }
}
