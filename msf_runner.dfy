/** `msf_common_runner.rb`: `run_module`, the shared Metasploit workflow.
    It selects a module, sets its options, groups the open services of the
    database by port, and runs the module once per port. The console is
    modelled as the log of the commands `run_single` issued. */
module MsfRunner {
  import opened Text
  import opened Seqs

  // =====================================================================
  // Inputs

  /** `target_filter`: the protocol, service names and ports to select. */
  datatype Filter = Filter(proto: string, services: seq<string>, ports: seq<int>)

  /** The `opts` hash. An option is None when it is nil or false (Ruby's
      falsy values); a present option is its interpolated text. */
  datatype Options = Options(
    modulePath: Option<string>, targetFilter: Option<Filter>,
    threadCount: Option<string>, userFile: Option<string>, passFile: Option<string>,
    username: Option<string>, password: Option<string>)

  /** A database service; `name` is None when it is nil. */
  datatype Service = Service(proto: string, state: string, name: Option<string>, port: int)

  datatype Host = Host(address: string, services: seq<Service>)

  // =====================================================================
  // Output paths

  /** Ruby's `split` drops trailing empty strings. */
  function DropTrailingEmpty(parts: seq<string>): (r: seq<string>)
    ensures |r| <= |parts| && r == parts[..|r|]
    ensures r != [] ==> r[|r| - 1] != ""
    ensures forall k :: |r| <= k < |parts| ==> parts[k] == ""
  {
    if parts == [] then []
    else if parts[|parts| - 1] == "" then DropTrailingEmpty(parts[..|parts| - 1])
    else parts
  }

  /** `module_path.split("/").last`, interpolated: nil (no non-empty
      segment at the end) renders as `""`. */
  function ModuleName(path: string): string {
    var parts := DropTrailingEmpty(Split(path, "/"));
    if parts == [] then "" else parts[|parts| - 1]
  }

  const TeeDir := "/root/DATA/OUTPUT/TEE"

  function TeeLog(path: string): string {
    TeeDir + "/MSF_" + ModuleName(path) + ".tee"
  }

  /** The module name is one segment: it holds no `/`. */
  lemma ModuleNameIsSegment(path: string)
    ensures '/' !in ModuleName(path)
  {
    var pieces := Split(path, "/");
    var parts := DropTrailingEmpty(pieces);
    SplitPiecesFree(path, "/");
    if parts != [] {
      var last := parts[|parts| - 1];
      assert last == pieces[|parts| - 1];
      ContainsChar(last, '/');
    }
  }

  /** Splitting segments joined by `/` gives the segments back. */
  lemma {:induction false} SplitSegments(parts: seq<string>)
    requires parts != []
    requires forall i :: 0 <= i < |parts| ==> '/' !in parts[i]
    ensures Split(Join(parts, "/"), "/") == parts
  {
    forall i | 0 <= i < |parts| - 1 ensures IndexOf(parts[i] + "/", "/") == Some(|parts[i]|) {
      ContainsChar(parts[i], '/');
      SingleCharSepFirst(parts[i], '/');
    }
    ContainsChar(parts[|parts| - 1], '/');
    JoinSplit(parts, "/");
  }

  lemma {:induction false} ModuleNameOfParts(path: string, parts: seq<string>)
    requires Split(path, "/") == parts
    requires DropTrailingEmpty(parts) != []
    ensures ModuleName(path) == DropTrailingEmpty(parts)[|DropTrailingEmpty(parts)| - 1]
  {
  }

  /** The name of a path built from segments is its last segment, with or
      without a trailing `/`. */
  lemma {:induction false} ModuleNameOfJoin(segments: seq<string>, trailingSlash: bool)
    requires segments != []
    requires forall i :: 0 <= i < |segments| ==> '/' !in segments[i]
    requires segments[|segments| - 1] != ""
    ensures ModuleName(Join(segments, "/") + (if trailingSlash then "/" else "")) == segments[|segments| - 1]
  {
    var path := Join(segments, "/") + (if trailingSlash then "/" else "");
    var parts := if trailingSlash then segments + [""] else segments;
    assert forall i :: 0 <= i < |parts| ==> '/' !in parts[i] by {
      forall i | 0 <= i < |parts| ensures '/' !in parts[i] {
        if i < |segments| { assert parts[i] == segments[i]; }
      }
    }
    assert path == Join(parts, "/") by {
      if trailingSlash {
        JoinSnoc(segments, "", "/");
      }
    }
    SplitSegments(parts);
    DropOneTrailingEmpty(segments, trailingSlash);
    ModuleNameOfParts(path, parts);
  }

  lemma DropOneTrailingEmpty(segments: seq<string>, trailingSlash: bool)
    requires segments != [] && segments[|segments| - 1] != ""
    ensures DropTrailingEmpty(if trailingSlash then segments + [""] else segments) == segments
  {
    if trailingSlash {
      assert (segments + [""])[..|segments|] == segments;
    }
  }

  // =====================================================================
  // Selecting and grouping services

  function LowerAll(names: seq<string>): (r: seq<string>)
    ensures |r| == |names|
  {
    seq(|names|, i requires 0 <= i < |names| => Lower(names[i]))
  }

  /** Line 60's protocol and state test, then line 63's name-or-port test;
      `s.name.to_s` is `""` for nil. */
  predicate Selected(f: Filter, s: Service) {
    && s.proto == f.proto && s.state == "open"
    && (Lower(s.name.GetOr("")) in LowerAll(f.services) || s.port in f.ports)
  }

  function SelectedPair(f: Filter, address: string, s: Service): Option<(int, string)> {
    if Selected(f, s) then Some((s.port, address)) else None
  }

  function HostPairs(f: Filter, h: Host): seq<(int, string)> {
    FilterMap(h.services, s => SelectedPair(f, h.address, s))
  }

  /** Each `services_by_port[s.port] << host.address`, in order. */
  function Pairs(f: Filter, hosts: seq<Host>): seq<(int, string)> {
    ConcatMap(hosts, h => HostPairs(f, h))
  }

  /** `services_by_port`: a Ruby hash keeps its keys in insertion order. */
  datatype Groups = Groups(order: seq<int>, byPort: map<int, seq<string>>)

  function GroupStep(g: Groups, pair: (int, string)): Groups {
    if pair.0 in g.byPort then Groups(g.order, g.byPort[pair.0 := g.byPort[pair.0] + [pair.1]])
    else Groups(g.order + [pair.0], g.byPort[pair.0 := [pair.1]])
  }

  function Grouped(pairs: seq<(int, string)>): Groups {
    FoldL(pairs, Groups([], map[]), GroupStep)
  }

  /** The ports of the pairs, in order. */
  function PortsOf(pairs: seq<(int, string)>): seq<int> {
    if pairs == [] then [] else PortsOf(pairs[..|pairs| - 1]) + [pairs[|pairs| - 1].0]
  }

  /** The addresses paired with `port`, in order. */
  function AddressesOn(pairs: seq<(int, string)>, port: int): seq<string> {
    if pairs == [] then []
    else
      var last := pairs[|pairs| - 1];
      AddressesOn(pairs[..|pairs| - 1], port) + (if last.0 == port then [last.1] else [])
  }

  lemma {:induction false} AddressesOnAbsent(pairs: seq<(int, string)>, port: int)
    requires port !in PortsOf(pairs)
    ensures AddressesOn(pairs, port) == []
  {
    if pairs != [] {
      var init := pairs[..|pairs| - 1];
      assert PortsOf(pairs) == PortsOf(init) + [pairs[|pairs| - 1].0];
      AddressesOnAbsent(init, port);
    }
  }

  /** The grouping keeps the ports in first-seen order, and each port's list
      holds every address selected on it, in order, repeats included. */
  lemma {:induction false} GroupedSpec(pairs: seq<(int, string)>)
    ensures Grouped(pairs).order == Dedupe(PortsOf(pairs))
    ensures forall p :: p in Grouped(pairs).byPort <==> p in PortsOf(pairs)
    ensures forall p :: p in Grouped(pairs).byPort ==> Grouped(pairs).byPort[p] == AddressesOn(pairs, p)
  {
    if pairs != [] {
      var init, last := pairs[..|pairs| - 1], pairs[|pairs| - 1];
      GroupedSpec(init);
      var ports := PortsOf(pairs);
      assert ports[..|ports| - 1] == PortsOf(init);
      assert forall p :: p in ports <==> p in PortsOf(init) || p == last.0;
      var before := Grouped(init);
      assert Grouped(pairs) == GroupStep(before, last);
      if last.0 !in before.byPort {
        AddressesOnAbsent(init, last.0);
      }
    }
  }

  /** Every port in the order has a group. */
  lemma OrderedPortsGrouped(pairs: seq<(int, string)>)
    ensures Grouped(pairs).order == Dedupe(PortsOf(pairs))
    ensures forall p :: p in Grouped(pairs).order ==>
              p in Grouped(pairs).byPort && Grouped(pairs).byPort[p] == AddressesOn(pairs, p)
  {
    GroupedSpec(pairs);
    DedupeSpec(PortsOf(pairs));
  }

  /** The nested `each` loops of lines 58-66. */
  method GroupByPort(f: Filter, hosts: seq<Host>) returns (g: Groups)
    ensures g == Grouped(Pairs(f, hosts))
  {
    g := Groups([], map[]);
    var perHost := h => HostPairs(f, h);
    for i := 0 to |hosts|
      invariant g == Grouped(ConcatMap(hosts[..i], perHost))
    {
      ConcatMapStep(hosts, i, perHost);
      var host := hosts[i];
      var done := ConcatMap(hosts[..i], perHost);
      var select := s => SelectedPair(f, host.address, s);
      for j := 0 to |host.services|
        invariant g == FoldL(FilterMap(host.services[..j], select), Grouped(done), GroupStep)
      {
        FilterMapStep(host.services, j, select);
        var s := host.services[j];
        if s.proto == f.proto && s.state == "open" {
          var nm := LowerAll(f.services);
          var pm := f.ports;
          if Lower(s.name.GetOr("")) in nm || s.port in pm {
            assert select(s) == Some((s.port, host.address));
            FoldLSnoc(FilterMap(host.services[..j], select), (s.port, host.address), Grouped(done), GroupStep);
            if s.port in g.byPort {
              g := Groups(g.order, g.byPort[s.port := g.byPort[s.port] + [host.address]]);
            } else {
              g := Groups(g.order + [s.port], g.byPort[s.port := [host.address]]);
            }
            continue;
          }
        }
        assert select(s) == None;
        assert FilterMap(host.services[..j + 1], select) == FilterMap(host.services[..j], select) + [];
        assert FilterMap(host.services[..j + 1], select) == FilterMap(host.services[..j], select);
      }
      FilterMapWhole(host.services, select);
      FoldLAppend(done, HostPairs(f, host), Groups([], map[]), GroupStep);
    }
    ConcatMapWhole(hosts, perHost);
  }

  lemma HostPairsMembers(f: Filter, h: Host, pair: (int, string))
    ensures pair in HostPairs(f, h) <==>
              pair.1 == h.address && exists j :: 0 <= j < |h.services| && Selected(f, h.services[j]) && h.services[j].port == pair.0
  {
    FilterMapMembers(h.services, s => SelectedPair(f, h.address, s), pair);
  }

  lemma {:induction false} PortsOfMembers(pairs: seq<(int, string)>, p: int)
    ensures p in PortsOf(pairs) <==> exists a :: (p, a) in pairs
  {
    if pairs != [] {
      var init, last := pairs[..|pairs| - 1], pairs[|pairs| - 1];
      PortsOfMembers(init, p);
      assert pairs == init + [last];
      if exists a :: (p, a) in pairs {
        var a :| (p, a) in pairs;
        assert (p, a) in init || (p, a) == last;
      }
      if exists a :: (p, a) in init {
        var a :| (p, a) in init;
        assert (p, a) in pairs;
      }
    }
  }

  lemma {:induction false} AddressesOnMembers(pairs: seq<(int, string)>, p: int, a: string)
    ensures a in AddressesOn(pairs, p) <==> (p, a) in pairs
  {
    if pairs != [] {
      var init, last := pairs[..|pairs| - 1], pairs[|pairs| - 1];
      AddressesOnMembers(init, p, a);
      assert pairs == init + [last];
    }
  }

  /** A port gets a group exactly when some host has a selected service on
      it, and the port's group lists exactly the addresses of the hosts with
      a selected service on it. */
  lemma GroupsSelectExactly(f: Filter, hosts: seq<Host>, p: int, a: string)
    ensures (p, a) in Pairs(f, hosts) <==>
              exists i :: 0 <= i < |hosts| && hosts[i].address == a
                && exists j :: 0 <= j < |hosts[i].services| && Selected(f, hosts[i].services[j]) && hosts[i].services[j].port == p
    ensures p in Grouped(Pairs(f, hosts)).byPort ==>
              (a in Grouped(Pairs(f, hosts)).byPort[p] <==> (p, a) in Pairs(f, hosts))
    ensures p in Grouped(Pairs(f, hosts)).order <==> exists b :: (p, b) in Pairs(f, hosts)
  {
    var pairs := Pairs(f, hosts);
    ConcatMapMembers(hosts, h => HostPairs(f, h), (p, a));
    forall i | 0 <= i < |hosts| {
      HostPairsMembers(f, hosts[i], (p, a));
    }
    GroupedSpec(pairs);
    AddressesOnMembers(pairs, p, a);
    PortsOfMembers(pairs, p);
    DedupeSpec(PortsOf(pairs));
  }

  // =====================================================================
  // The command sequence

  function SetCommand(option: string, value: Option<string>): seq<string> {
    if value.Some? then ["set " + option + " " + value.value] else []
  }

  /** Lines 43-47, in their order. */
  function SetCommands(opts: Options): seq<string> {
    SetCommand("THREADS", opts.threadCount)
    + SetCommand("USER_FILE", opts.userFile)
    + SetCommand("PASS_FILE", opts.passFile)
    + SetCommand("USERNAME", opts.username)
    + SetCommand("PASSWORD", opts.password)
  }

  /** Lines 42-49. */
  function SetupCommands(opts: Options, path: string): seq<string> {
    ["use " + path] + SetCommands(opts) + ["spool " + TeeLog(path)]
  }

  function RhostsCommand(pairs: seq<(int, string)>, port: int): string {
    "set RHOSTS " + Join(Dedupe(AddressesOn(pairs, port)), " ")
  }

  /** One port's group, given the module's option names. */
  function GroupCommands(pairs: seq<(int, string)>, moduleOptions: set<string>, port: int): seq<string> {
    [RhostsCommand(pairs, port)]
    + (if "RPORT" in moduleOptions then ["set RPORT " + IntToString(port)] else [])
    + ["run"]
  }

  function PerPort(pairs: seq<(int, string)>, moduleOptions: set<string>): int -> seq<string> {
    p => GroupCommands(pairs, moduleOptions, p)
  }

  /** Lines 52-90. A nil `target_filter` raises on the first service, so no
      group runs; a nil module instance raises at `mod.options`, just after
      the first group's `set RHOSTS`. The rescue lets cleanup follow. */
  function TargetCommands(opts: Options, hosts: seq<Host>, moduleOptions: Option<set<string>>): seq<string> {
    if opts.targetFilter.None? then []
    else
      var pairs := Pairs(opts.targetFilter.value, hosts);
      var order := Dedupe(PortsOf(pairs));
      if moduleOptions.None? then (if order == [] then [] else [RhostsCommand(pairs, order[0])])
      else ConcatMap(order, PerPort(pairs, moduleOptions.value))
  }

  /** Everything `run_module` sends to the console. `teeDirReady` is false
      when the tee directory is missing and cannot be created. */
  function RunCommands(opts: Options, hosts: seq<Host>, moduleOptions: Option<set<string>>, teeDirReady: bool): seq<string> {
    if opts.modulePath.None? || !teeDirReady then []
    else
      SetupCommands(opts, opts.modulePath.value)
      + TargetCommands(opts, hosts, moduleOptions)
      + ["spool off", "back"]
  }

  class Console {
    /** The commands sent so far. */
    var log: seq<string>

    constructor()
      ensures log == []
    {
      log := [];
    }

    method RunSingle(command: string)
      modifies this
      ensures log == old(log) + [command]
    {
      log := log + [command];
    }

    method RunSet(option: string, value: Option<string>)
      modifies this
      ensures log == old(log) + SetCommand(option, value)
    {
      if value.Some? {
        RunSingle("set " + option + " " + value.value);
      }
    }

    /** Lines 42-49. */
    method RunSetup(opts: Options, path: string)
      modifies this
      ensures log == old(log) + SetupCommands(opts, path)
    {
      ghost var start := log;
      RunSingle("use " + path);
      ghost var sent: seq<string> := ["use " + path];
      RunSet("THREADS", opts.threadCount);
      AppendAssoc(start, sent, SetCommand("THREADS", opts.threadCount));
      sent := sent + SetCommand("THREADS", opts.threadCount);
      RunSet("USER_FILE", opts.userFile);
      AppendAssoc(start, sent, SetCommand("USER_FILE", opts.userFile));
      sent := sent + SetCommand("USER_FILE", opts.userFile);
      RunSet("PASS_FILE", opts.passFile);
      AppendAssoc(start, sent, SetCommand("PASS_FILE", opts.passFile));
      sent := sent + SetCommand("PASS_FILE", opts.passFile);
      RunSet("USERNAME", opts.username);
      AppendAssoc(start, sent, SetCommand("USERNAME", opts.username));
      sent := sent + SetCommand("USERNAME", opts.username);
      RunSet("PASSWORD", opts.password);
      AppendAssoc(start, sent, SetCommand("PASSWORD", opts.password));
      sent := sent + SetCommand("PASSWORD", opts.password);
      SetupSent(opts, path);
      RunSingle("spool " + TeeLog(path));
      AppendAssoc(start, sent, ["spool " + TeeLog(path)]);
    }

    /** One iteration of lines 68-84, for a port and its addresses. */
    method RunGroup(pairs: seq<(int, string)>, addresses: seq<string>, moduleOptions: set<string>, port: int)
      requires addresses == AddressesOn(pairs, port)
      modifies this
      ensures log == old(log) + GroupCommands(pairs, moduleOptions, port)
    {
      var uniq := Dedupe(addresses);
      RunSingle("set RHOSTS " + Join(uniq, " "));
      if "RPORT" in moduleOptions {
        RunSingle("set RPORT " + IntToString(port));
      }
      RunSingle("run");
    }

    /** Lines 68-84 for a module instance with these option names. */
    method RunGroups(pairs: seq<(int, string)>, order: seq<int>, byPort: map<int, seq<string>>, moduleOptions: set<string>)
      requires order == Dedupe(PortsOf(pairs))
      requires forall p :: p in order ==> p in byPort && byPort[p] == AddressesOn(pairs, p)
      modifies this
      ensures log == old(log) + ConcatMap(order, PerPort(pairs, moduleOptions))
    {
      var perPort := PerPort(pairs, moduleOptions);
      for k := 0 to |order|
        invariant log == old(log) + ConcatMap(order[..k], perPort)
      {
        ConcatMapStep(order, k, perPort);
        var port := order[k];
        assert port in order;
        assert perPort(port) == GroupCommands(pairs, moduleOptions, port);
        AppendAssoc(old(log), ConcatMap(order[..k], perPort), perPort(port));
        RunGroup(pairs, byPort[port], moduleOptions, port);
      }
      ConcatMapWhole(order, perPort);
    }

    /** Lines 52-90. */
    method RunTargets(opts: Options, hosts: seq<Host>, moduleOptions: Option<set<string>>)
      modifies this
      ensures log == old(log) + TargetCommands(opts, hosts, moduleOptions)
    {
      if opts.targetFilter.None? {
        // `target_filter[:proto]` raises on the first service; rescued.
        return;
      }
      var f := opts.targetFilter.value;
      var g := GroupByPort(f, hosts);
      var pairs := Pairs(f, hosts);
      OrderedPortsGrouped(pairs);
      if moduleOptions.None? {
        if g.order != [] {
          var port := g.order[0];
          assert port in g.order;
          RunSingle("set RHOSTS " + Join(Dedupe(g.byPort[port]), " "));
          // `mod.options` raises here; rescued.
        }
      } else {
        RunGroups(pairs, g.order, g.byPort, moduleOptions.value);
      }
    }

    /** `run_module`. */
    method RunModule(opts: Options, hosts: seq<Host>, moduleOptions: Option<set<string>>, teeDirReady: bool)
      modifies this
      ensures log == old(log) + RunCommands(opts, hosts, moduleOptions, teeDirReady)
    {
      if opts.modulePath.None? {
        return;
      }
      var path := opts.modulePath.value;
      if !teeDirReady {
        return;
      }
      ghost var start := log;
      ghost var setup := SetupCommands(opts, path);
      ghost var targets := TargetCommands(opts, hosts, moduleOptions);
      RunSetup(opts, path);
      RunTargets(opts, hosts, moduleOptions);
      AppendAssoc(start, setup, targets);
      RunSingle("spool off");
      RunSingle("back");
      AppendAssoc(start, setup + targets, ["spool off"]);
      AppendAssoc(start, setup + targets + ["spool off"], ["back"]);
      assert setup + targets + ["spool off"] + ["back"] == setup + targets + ["spool off", "back"];
    }
  }

  /** The setup commands in the shape `run_module` sends them. */
  lemma SetupSent(opts: Options, path: string)
    ensures SetupCommands(opts, path)
            == ["use " + path] + SetCommand("THREADS", opts.threadCount) + SetCommand("USER_FILE", opts.userFile)
               + SetCommand("PASS_FILE", opts.passFile) + SetCommand("USERNAME", opts.username)
               + SetCommand("PASSWORD", opts.password) + ["spool " + TeeLog(path)]
  {
    var u: seq<string> := ["use " + path];
    var a, b, c := SetCommand("THREADS", opts.threadCount), SetCommand("USER_FILE", opts.userFile), SetCommand("PASS_FILE", opts.passFile);
    var d, e := SetCommand("USERNAME", opts.username), SetCommand("PASSWORD", opts.password);
    AppendAssoc(u, a, b);
    AppendAssoc(u, a + b, c);
    AppendAssoc(u, a + b + c, d);
    AppendAssoc(u, a + b + c + d, e);
  }

  // =====================================================================
  // Properties of the sequence

  /** Without a module path nothing is sent. With one, `use` comes first
      and `spool off`, `back` come last, whatever happened in the loop. */
  lemma RunCommandsFrame(opts: Options, hosts: seq<Host>, moduleOptions: Option<set<string>>, teeDirReady: bool)
    ensures opts.modulePath.None? ==> RunCommands(opts, hosts, moduleOptions, teeDirReady) == []
    ensures opts.modulePath.Some? && teeDirReady ==>
              var r := RunCommands(opts, hosts, moduleOptions, teeDirReady);
              && |r| >= 4
              && r[0] == "use " + opts.modulePath.value
              && r[|r| - 2] == "spool off" && r[|r| - 1] == "back"
  {
  }

  function SetOptions(opts: Options): seq<(string, Option<string>)> {
    [("THREADS", opts.threadCount), ("USER_FILE", opts.userFile), ("PASS_FILE", opts.passFile),
     ("USERNAME", opts.username), ("PASSWORD", opts.password)]
  }

  function GivenSet(o: (string, Option<string>)): Option<string> {
    if o.1.Some? then Some("set " + o.0 + " " + o.1.value) else None
  }

  lemma SetsInOrder(opts: Options)
    ensures FilterMap(SetOptions(opts), GivenSet) == SetCommands(opts)
  {
    var o := SetOptions(opts);
    assert o == [o[0]] + [o[1]] + [o[2]] + [o[3]] + [o[4]];
    FilterMapOne(o[0], GivenSet);
    FilterMapOne(o[1], GivenSet);
    FilterMapOne(o[2], GivenSet);
    FilterMapOne(o[3], GivenSet);
    FilterMapOne(o[4], GivenSet);
    FilterMapAppend([o[0]] + [o[1]] + [o[2]] + [o[3]], [o[4]], GivenSet);
    FilterMapAppend([o[0]] + [o[1]] + [o[2]], [o[3]], GivenSet);
    FilterMapAppend([o[0]] + [o[1]], [o[2]], GivenSet);
    FilterMapAppend([o[0]], [o[1]], GivenSet);
  }

  /** The setup is `use`, then one `set` per given option in the order
      THREADS, USER_FILE, PASS_FILE, USERNAME, PASSWORD, then `spool` to
      `MSF_<module name>.tee` in the tee directory. */
  lemma SetupOrder(opts: Options, path: string)
    ensures var r := SetupCommands(opts, path);
      && r[0] == "use " + path
      && r[1..|r| - 1] == FilterMap(SetOptions(opts), GivenSet)
      && r[|r| - 1] == "spool " + TeeDir + "/MSF_" + ModuleName(path) + ".tee"
  {
    SetsInOrder(opts);
    var r := SetupCommands(opts, path);
    assert r[1..|r| - 1] == SetCommands(opts);
    var m := ModuleName(path);
    AppendAssoc("spool ", TeeDir + "/MSF_" + m, ".tee");
    AppendAssoc("spool ", TeeDir + "/MSF_", m);
    AppendAssoc("spool ", TeeDir, "/MSF_");
  }

  /** Each group sets RHOSTS to its port's addresses without repeats,
      then RPORT exactly when the module has that option, then runs. */
  lemma GroupCommandsSpec(pairs: seq<(int, string)>, moduleOptions: set<string>, port: int)
    ensures var r := GroupCommands(pairs, moduleOptions, port);
      && r[0] == "set RHOSTS " + Join(Dedupe(AddressesOn(pairs, port)), " ")
      && Distinct(Dedupe(AddressesOn(pairs, port)))
      && (forall a :: a in Dedupe(AddressesOn(pairs, port)) <==> (port, a) in pairs)
      && r[|r| - 1] == "run"
      && (|r| == 3 <==> "RPORT" in moduleOptions)
      && ("RPORT" in moduleOptions ==> r[1] == "set RPORT " + IntToString(port))
  {
    DedupeSpec(AddressesOn(pairs, port));
    forall a {
      AddressesOnMembers(pairs, port, a);
    }
  }
}
