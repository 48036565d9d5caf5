/** `nessus_parser.py`: queries over the `ReportHost` / `ReportItem`
    records of a `.nessus` XML report. Each query's printed lines are the
    result; the messages it writes to standard error are outcomes. */
module Nessus {
  import opened Text
  import opened Xml
  import opened Seqs
  import opened Ordering

  // =====================================================================
  // The report

  /** A `ReportItem`'s attributes; None when absent. */
  datatype ReportItem = ReportItem(port: Option<string>, severity: Option<string>, pluginName: Option<string>)

  /** A `ReportHost`: its `name` attribute and its `ReportItem` children. */
  datatype ReportHost = ReportHost(name: Option<string>, items: seq<ReportItem>)

  function ItemOf(ri: Element): ReportItem {
    ReportItem(Get(ri, "port"), Get(ri, "severity"), Get(ri, "pluginName"))
  }

  function HostOf(host: Element): (r: ReportHost)
    ensures r.name == Get(host, "name")
    ensures |r.items| == |FindAll(host, Plain("ReportItem"))|
    ensures forall j :: 0 <= j < |r.items| ==> r.items[j] == ItemOf(FindAll(host, Plain("ReportItem"))[j])
  {
    var items := FindAll(host, Plain("ReportItem"));
    ReportHost(Get(host, "name"), seq(|items|, i requires 0 <= i < |items| => ItemOf(items[i])))
  }

  /** `get_hosts`: every `ReportHost` below the root, in document order. */
  function Hosts(root: Element): (r: seq<ReportHost>)
    ensures |r| == |FindAllBelow(root, Plain("ReportHost"))|
    ensures forall i :: 0 <= i < |r| ==> r[i] == HostOf(FindAllBelow(root, Plain("ReportHost"))[i])
  {
    var hosts := FindAllBelow(root, Plain("ReportHost"));
    seq(|hosts|, i requires 0 <= i < |hosts| => HostOf(hosts[i]))
  }

  // =====================================================================
  // int(): the numeric sort key of open-ports

  /** Python's `int(s)` on a `str`: surrounding whitespace, an optional
      sign, then decimal digits; None where `int` raises ValueError. */
  function PyInt(s: string): Option<int> {
    SignedDigits(Strip(s))
  }

  /** An optional sign, then decimal digits. */
  function SignedDigits(t: string): Option<int> {
    var signed := t != [] && (t[0] == '+' || t[0] == '-');
    var body := if signed then t[1..] else t;
    if body == [] || exists i :: 0 <= i < |body| && !IsDigit(body[i]) then None
    else
      var value: int := DigitsValue(body);
      if signed && t[0] == '-' then Some(-value) else Some(value)
  }

  /** `int(str(n)) == n`. */
  lemma PyIntOfIntToString(n: int)
    ensures PyInt(IntToString(n)) == Some(n)
  {
    var m: nat := if n < 0 then -n else n;
    var digits := NatToString(m);
    DigitsValueOfNatToString(m);
    if n < 0 {
      var s := "-" + digits;
      assert s[1..] == digits;
      assert forall i :: 1 <= i < |s| ==> IsDigit(s[i]);
      PyIntOfNegative(s);
    } else {
      PyIntOfDigits(digits);
    }
  }

  /** `int()` of a minus sign and decimal digits is minus their value. */
  lemma PyIntOfNegative(t: string)
    requires |t| > 1 && t[0] == '-'
    requires forall i :: 1 <= i < |t| ==> IsDigit(t[i])
    ensures PyInt(t) == Some(-(DigitsValue(t[1..]) as int))
  {
    assert !IsSpace(t[0]);
    assert IsDigit(t[|t| - 1]);
    StripTrimmed(t);
    var body := t[1..];
    assert forall i :: 0 <= i < |body| ==> IsDigit(body[i]);
  }

  // =====================================================================
  // cmd_open_ports

  datatype OpenPorts =
    | Ports(ports: seq<string>)  // printed, one per line
    | NoOpenPorts                // "No open ports found for <ip>"
    | IpNotFound                 // "IP not found: <ip>"
    | NotAnInteger               // `int()` raised on a port value

  function PortValue(s: string): int {
    PyInt(s).GetOr(0)
  }

  function IntLess(): (int, int) -> bool {
    (a: int, b: int) => a < b
  }

  lemma IntLessIsStrictTotal()
    ensures StrictTotalOrder(IntLess())
  {
  }

  /** The item's port, when it has one `int` can read. */
  function NumericPort(ri: ReportItem): Option<string> {
    if ri.port.Some? && PyInt(ri.port.value).Some? then ri.port else None
  }

  predicate AllPortsNumeric(h: ReportHost) {
    forall j :: 0 <= j < |h.items| ==> NumericPort(h.items[j]).Some?
  }

  /** The report for the first host whose name matches: the distinct ports,
      sorted by their value. */
  function PortsReport(h: ReportHost): OpenPorts {
    if h.items == [] then NoOpenPorts
    else if !AllPortsNumeric(h) then NotAnInteger
    else Ports(StableSortBy(Dedupe(FilterMap(h.items, NumericPort)), PortValue, IntLess()))
  }

  /** The index of the first host named `target`. */
  function FirstNamed(hosts: seq<ReportHost>, target: string, from: nat): (r: Option<nat>)
    requires from <= |hosts|
    ensures r.Some? ==> from <= r.value < |hosts| && hosts[r.value].name == Some(target)
                        && forall j :: from <= j < r.value ==> hosts[j].name != Some(target)
    ensures r.None? ==> forall j :: from <= j < |hosts| ==> hosts[j].name != Some(target)
    decreases |hosts| - from
  {
    if from == |hosts| then None
    else if hosts[from].name == Some(target) then Some(from)
    else FirstNamed(hosts, target, from + 1)
  }

  function OpenPortsOf(hosts: seq<ReportHost>, target: string): OpenPorts {
    match FirstNamed(hosts, target, 0)
    case None => IpNotFound
    case Some(i) => PortsReport(hosts[i])
  }

  /** `cmd_open_ports`: the host loop with its early return. */
  method OpenPortsQuery(hosts: seq<ReportHost>, target: string) returns (r: OpenPorts)
    ensures r == OpenPortsOf(hosts, target)
  {
    for k := 0 to |hosts|
      invariant forall j :: 0 <= j < k ==> hosts[j].name != Some(target)
    {
      if hosts[k].name == Some(target) {
        assert FirstNamed(hosts, target, 0) == Some(k);
        r := PortsReport(hosts[k]);
        return;
      }
    }
    r := IpNotFound;
  }

  /** Only the first host with the name counts: `IpNotFound` exactly when
      no host has it, otherwise the first such host's report. */
  lemma OpenPortsFirstHost(hosts: seq<ReportHost>, target: string)
    ensures OpenPortsOf(hosts, target) == IpNotFound <==>
              forall j :: 0 <= j < |hosts| ==> hosts[j].name != Some(target)
    ensures forall i :: 0 <= i < |hosts| && hosts[i].name == Some(target)
                          && (forall j :: 0 <= j < i ==> hosts[j].name != Some(target))
                        ==> OpenPortsOf(hosts, target) == PortsReport(hosts[i])
  {
  }

  lemma {:induction false} FirstNamedAppend(hosts: seq<ReportHost>, more: seq<ReportHost>, target: string, from: nat)
    requires from <= |hosts|
    requires FirstNamed(hosts, target, from).Some?
    ensures FirstNamed(hosts + more, target, from) == FirstNamed(hosts, target, from)
    decreases |hosts| - from
  {
    assert (hosts + more)[from] == hosts[from];
    if hosts[from].name != Some(target) {
      FirstNamedAppend(hosts, more, target, from + 1);
    }
  }

  /** Hosts after the first match never change the answer. */
  lemma OpenPortsIgnoresLaterHosts(hosts: seq<ReportHost>, more: seq<ReportHost>, target: string)
    requires exists i :: 0 <= i < |hosts| && hosts[i].name == Some(target)
    ensures OpenPortsOf(hosts + more, target) == OpenPortsOf(hosts, target)
  {
    FirstNamedAppend(hosts, more, target, 0);
    var i := FirstNamed(hosts, target, 0).value;
    assert (hosts + more)[i] == hosts[i];
  }

  /** An empty host reports `NoOpenPorts`, and a port `int` cannot read
      makes the command fail. */
  lemma PortsReportOutcome(h: ReportHost)
    ensures PortsReport(h) == NoOpenPorts <==> h.items == []
    ensures PortsReport(h) == NotAnInteger <==>
              h.items != [] && exists j :: 0 <= j < |h.items| && (h.items[j].port.None? || PyInt(h.items[j].port.value).None?)
  {
  }

  /** The printed ports are the host's distinct port values, in
      nondecreasing numeric order. */
  lemma PortsReportSpec(h: ReportHost)
    requires PortsReport(h).Ports?
    ensures Distinct(PortsReport(h).ports)
    ensures forall p :: p in PortsReport(h).ports <==> exists j :: 0 <= j < |h.items| && h.items[j].port == Some(p)
    ensures forall i, j :: 0 <= i < j < |PortsReport(h).ports| ==>
              PortValue(PortsReport(h).ports[i]) <= PortValue(PortsReport(h).ports[j])
  {
    var all := FilterMap(h.items, NumericPort);
    var d := Dedupe(all);
    var ps := StableSortBy(d, PortValue, IntLess());
    assert PortsReport(h).ports == ps;
    DedupeSpec(all);
    IntLessIsStrictTotal();
    StableSortBySpec(d, PortValue, IntLess());
    PermutationKeepsDistinct(d, ps);
    forall p ensures p in ps <==> exists j :: 0 <= j < |h.items| && h.items[j].port == Some(p) {
      assert p in ps <==> p in multiset(ps);
      assert p in d <==> p in multiset(d);
      FilterMapMembers(h.items, NumericPort, p);
    }
  }

  lemma PermutationKeepsDistinct<T>(a: seq<T>, b: seq<T>)
    requires Distinct(a)
    requires multiset(a) == multiset(b)
    ensures Distinct(b)
  {
    DistinctMultiset(a);
    DistinctMultiset(b);
  }

  // =====================================================================
  // Sorting printed names

  /** `sorted(...)` of a set whose elements may include None: None alongside
      any string cannot be compared, and a lone None prints as `None`. */
  datatype Listing = Lines(lines: seq<string>) | Unorderable

  function PyStrs(xs: seq<Option<string>>): (r: seq<string>)
    ensures |r| == |xs|
  {
    seq(|xs|, i requires 0 <= i < |xs| => PyStr(xs[i]))
  }

  function SortedNames(xs: seq<Option<string>>): Listing {
    if None in xs && exists i :: 0 <= i < |xs| && xs[i].Some? then Unorderable
    else Lines(SortUnique(PyStrs(xs), LessStr))
  }

  /** The listing holds each distinct name once, in increasing order, and
      fails exactly when a missing name meets a present one. */
  lemma SortedNamesSpec(xs: seq<Option<string>>)
    ensures SortedNames(xs) == Unorderable <==> None in xs && exists i :: 0 <= i < |xs| && xs[i].Some?
    ensures SortedNames(xs).Lines? ==>
              && StrictlyIncreasing(SortedNames(xs).lines, LessStr)
              && forall s :: s in SortedNames(xs).lines <==> exists i :: 0 <= i < |xs| && PyStr(xs[i]) == s
  {
    LessStrIsStrictTotal();
    SortUniqueSpec(PyStrs(xs), LessStr);
    forall s ensures s in PyStrs(xs) <==> exists i :: 0 <= i < |xs| && PyStr(xs[i]) == s {
      if s in PyStrs(xs) {
        var i :| 0 <= i < |xs| && PyStrs(xs)[i] == s;
      }
      if exists i :: 0 <= i < |xs| && PyStr(xs[i]) == s {
        var i :| 0 <= i < |xs| && PyStr(xs[i]) == s;
        assert PyStrs(xs)[i] == s;
      }
    }
  }

  /** Two inputs with the same elements give the same sorted output, so the
      sequence of additions stands for the set the source builds. */
  lemma SortUniqueByMembers(a: seq<string>, b: seq<string>)
    requires forall s :: s in a <==> s in b
    ensures SortUnique(a, LessStr) == SortUnique(b, LessStr)
  {
    LessStrIsStrictTotal();
    SortUniqueSpec(a, LessStr);
    SortUniqueSpec(b, LessStr);
    StrictlyIncreasingUnique(SortUnique(a, LessStr), SortUnique(b, LessStr), LessStr);
  }

  // =====================================================================
  // cmd_ips_with_port

  /** `ri.get('port') == str(port)`: textual equality. */
  predicate PortMatches(ri: ReportItem, port: int) {
    ri.port == Some(IntToString(port))
  }

  function HostIfPort(h: ReportHost, port: int): seq<Option<string>> {
    FilterMap(h.items, (ri: ReportItem) => if PortMatches(ri, port) then Some(h.name) else None)
  }

  function MatchingNames(hosts: seq<ReportHost>, port: int): seq<Option<string>> {
    ConcatMap(hosts, h => HostIfPort(h, port))
  }

  function IpsWithPort(hosts: seq<ReportHost>, port: int): Listing {
    SortedNames(MatchingNames(hosts, port))
  }

  lemma HostIfPortMembers(h: ReportHost, port: int, n: Option<string>)
    ensures n in HostIfPort(h, port) <==>
              n == h.name && exists j :: 0 <= j < |h.items| && PortMatches(h.items[j], port)
  {
    FilterMapMembers(h.items, (ri: ReportItem) => if PortMatches(ri, port) then Some(h.name) else None, n);
  }

  /** A name is in the comprehension exactly when its host has an item on
      that port. */
  lemma MatchingNamesMembers(hosts: seq<ReportHost>, port: int, n: Option<string>)
    ensures n in MatchingNames(hosts, port) <==>
              exists h :: 0 <= h < |hosts| && hosts[h].name == n
                && exists j :: 0 <= j < |hosts[h].items| && PortMatches(hosts[h].items[j], port)
  {
    ConcatMapMembers(hosts, h => HostIfPort(h, port), n);
    forall h | 0 <= h < |hosts| {
      HostIfPortMembers(hosts[h], port, n);
    }
  }

  /** The printed IPs are, once each and in increasing order, the names of
      the hosts with an item whose port attribute is the decimal text of
      `port`. */
  lemma IpsWithPortSpec(hosts: seq<ReportHost>, port: int)
    ensures IpsWithPort(hosts, port).Lines? ==>
              var ls := IpsWithPort(hosts, port).lines;
              && StrictlyIncreasing(ls, LessStr)
              && forall s :: s in ls <==>
                   exists h :: 0 <= h < |hosts| && PyStr(hosts[h].name) == s
                     && exists j :: 0 <= j < |hosts[h].items| && PortMatches(hosts[h].items[j], port)
  {
    var xs := MatchingNames(hosts, port);
    SortedNamesSpec(xs);
    if IpsWithPort(hosts, port).Lines? {
      var ls := IpsWithPort(hosts, port).lines;
      forall s ensures s in ls <==>
                         exists h :: 0 <= h < |hosts| && PyStr(hosts[h].name) == s
                           && exists j :: 0 <= j < |hosts[h].items| && PortMatches(hosts[h].items[j], port)
      {
        NamesOfMatchingHosts(hosts, port, s);
      }
    }
  }

  lemma NamesOfMatchingHosts(hosts: seq<ReportHost>, port: int, s: string)
    ensures var xs := MatchingNames(hosts, port);
      (exists i :: 0 <= i < |xs| && PyStr(xs[i]) == s) <==>
      exists h :: 0 <= h < |hosts| && PyStr(hosts[h].name) == s
        && exists j :: 0 <= j < |hosts[h].items| && PortMatches(hosts[h].items[j], port)
  {
    var xs := MatchingNames(hosts, port);
    if exists i :: 0 <= i < |xs| && PyStr(xs[i]) == s {
      var i :| 0 <= i < |xs| && PyStr(xs[i]) == s;
      MatchingNamesMembers(hosts, port, xs[i]);
    }
    if exists h :: 0 <= h < |hosts| && PyStr(hosts[h].name) == s
         && exists j :: 0 <= j < |hosts[h].items| && PortMatches(hosts[h].items[j], port)
    {
      var h :| 0 <= h < |hosts| && PyStr(hosts[h].name) == s
               && exists j :: 0 <= j < |hosts[h].items| && PortMatches(hosts[h].items[j], port);
      MatchingNamesMembers(hosts, port, hosts[h].name);
      var i :| 0 <= i < |xs| && xs[i] == hosts[h].name;
    }
  }

  /** The textual match implies the numeric one: a matching port attribute
      reads back as `port`. */
  lemma PortMatchIsNumeric(ri: ReportItem, port: int)
    requires PortMatches(ri, port)
    ensures PyInt(ri.port.value) == Some(port)
  {
    PyIntOfIntToString(port);
  }

  lemma PyIntOfDigits(s: string)
    requires s != [] && forall i :: 0 <= i < |s| ==> IsDigit(s[i])
    ensures PyInt(s) == Some(DigitsValue(s))
  {
    assert Strip(s) == s by {
      assert NoSpace(s);
      StripNoSpace(s);
    }
    assert !(s[0] == '+' || s[0] == '-') by {
      assert IsDigit(s[0]);
    }
  }

  /** The converse fails: a zero-padded port such as `"0443"` reads as the
      port number but does not match it. */
  lemma PaddedPortDoesNotMatch(port: int)
    requires port > 0
    ensures PyInt("0" + IntToString(port)) == Some(port)
    ensures !PortMatches(ReportItem(Some("0" + IntToString(port)), None, None), port)
  {
    var digits := IntToString(port);
    var padded := "0" + digits;
    assert forall i :: 0 <= i < |padded| ==> IsDigit(padded[i]) by {
      forall i | 0 < i < |padded| ensures IsDigit(padded[i]) {
        assert padded[i] == digits[i - 1];
      }
    }
    assert PyInt(padded) == Some(DigitsValue(padded)) by {
      PyIntOfDigits(padded);
    }
    assert DigitsValue(padded) == port by {
      DigitsValueLeadingZero(digits);
      DigitsValueOfNatToString(port);
    }
    assert padded != digits by {
      NatToStringLeadingDigit(port);
    }
  }

  // =====================================================================
  // cmd_list_ip_ports

  function IpPort(h: ReportHost, ri: ReportItem): string {
    PyStr(h.name) + ":" + PyStr(ri.port)
  }

  function HostIpPorts(h: ReportHost): (r: seq<string>)
    ensures |r| == |h.items|
  {
    seq(|h.items|, j requires 0 <= j < |h.items| => IpPort(h, h.items[j]))
  }

  function ListIpPorts(hosts: seq<ReportHost>): seq<string> {
    SortUnique(ConcatMap(hosts, HostIpPorts), LessStr)
  }

  /** Each `name:port` pair once, in increasing order. */
  lemma ListIpPortsSpec(hosts: seq<ReportHost>)
    ensures StrictlyIncreasing(ListIpPorts(hosts), LessStr)
    ensures forall s :: s in ListIpPorts(hosts) <==>
              exists h :: 0 <= h < |hosts| && exists j :: 0 <= j < |hosts[h].items| && IpPort(hosts[h], hosts[h].items[j]) == s
  {
    var all := ConcatMap(hosts, HostIpPorts);
    assert StrictlyIncreasing(ListIpPorts(hosts), LessStr) && forall s :: s in ListIpPorts(hosts) <==> s in all by {
      LessStrIsStrictTotal();
      SortUniqueSpec(all, LessStr);
    }
    forall s ensures s in ConcatMap(hosts, HostIpPorts) <==>
                     exists h :: 0 <= h < |hosts| && exists j :: 0 <= j < |hosts[h].items| && IpPort(hosts[h], hosts[h].items[j]) == s
    {
      ConcatMapMembers(hosts, HostIpPorts, s);
      if exists h :: 0 <= h < |hosts| && s in HostIpPorts(hosts[h]) {
        var h :| 0 <= h < |hosts| && s in HostIpPorts(hosts[h]);
        var j :| 0 <= j < |hosts[h].items| && HostIpPorts(hosts[h])[j] == s;
      }
      if exists h :: 0 <= h < |hosts| && exists j :: 0 <= j < |hosts[h].items| && IpPort(hosts[h], hosts[h].items[j]) == s {
        var h :| 0 <= h < |hosts| && exists j :: 0 <= j < |hosts[h].items| && IpPort(hosts[h], hosts[h].items[j]) == s;
        var j :| 0 <= j < |hosts[h].items| && IpPort(hosts[h], hosts[h].items[j]) == s;
        assert HostIpPorts(hosts[h])[j] == s;
      }
    }
  }

  // =====================================================================
  // cmd_findings

  /** `sev_map.get(sev, sev)`. */
  function SeverityNumber(sev: string): string {
    if sev == "info" then "0"
    else if sev == "low" then "1"
    else if sev == "medium" then "2"
    else if sev == "high" then "3"
    else sev
  }

  /** `num2txt.get(sev_val, sev_val)`. */
  function SeverityName(v: Option<string>): Option<string> {
    if v == Some("0") then Some("info")
    else if v == Some("1") then Some("low")
    else if v == Some("2") then Some("medium")
    else if v == Some("3") then Some("high")
    else v
  }

  /** The `--severity` argument as a filter: None when absent or empty. */
  function SeverityFilter(arg: Option<string>): Option<string> {
    if arg.Some? && arg.value != "" then Some(SeverityNumber(Lower(arg.value))) else None
  }

  /** The arguments of `findings`, with `regex.search` as `search(pattern,
      text)`. */
  datatype Query = Query(severity: Option<string>, regex: Option<string>, search: (string, string) -> bool)

  /** `ri.get('pluginName') or ''`. */
  function FindingName(ri: ReportItem): string {
    ri.pluginName.GetOr("")
  }

  predicate PassesSeverity(ri: ReportItem, filter: Option<string>) {
    !(filter.Some? && filter.value != "" && ri.severity != filter)
  }

  predicate PassesRegex(ri: ReportItem, q: Query) {
    !(q.regex.Some? && q.regex.value != "" && !q.search(q.regex.value, FindingName(ri)))
  }

  function FindingLine(ip: Option<string>, ri: ReportItem): string {
    PyStr(ip) + ":" + PyStr(ri.port) + ":" + PyStr(SeverityName(ri.severity)) + ":" + FindingName(ri)
  }

  function FindingOf(ip: Option<string>, ri: ReportItem, q: Query): Option<string> {
    if PassesSeverity(ri, SeverityFilter(q.severity)) && PassesRegex(ri, q) then Some(FindingLine(ip, ri))
    else None
  }

  function HostFindings(h: ReportHost, q: Query): seq<string> {
    FilterMap(h.items, ri => FindingOf(h.name, ri, q))
  }

  /** The `output.add` calls, in order. */
  function FindingLines(hosts: seq<ReportHost>, q: Query): seq<string> {
    ConcatMap(hosts, h => HostFindings(h, q))
  }

  function Findings(hosts: seq<ReportHost>, q: Query): seq<string> {
    SortUnique(FindingLines(hosts, q), LessStr)
  }

  /** `cmd_findings`: the host and item loops with their `continue`
      filters, then `sorted(output)`. */
  method FindingsQuery(hosts: seq<ReportHost>, q: Query) returns (lines: seq<string>)
    ensures lines == Findings(hosts, q)
  {
    var filter := SeverityFilter(q.severity);
    var output: seq<string> := [];
    var perHost := h => HostFindings(h, q);
    for k := 0 to |hosts|
      invariant output == ConcatMap(hosts[..k], perHost)
    {
      ConcatMapStep(hosts, k, perHost);
      var host := hosts[k];
      var ip := host.name;
      var found := ri => FindingOf(ip, ri, q);
      var added: seq<string> := [];
      for j := 0 to |host.items|
        invariant added == FilterMap(host.items[..j], found)
      {
        FilterMapStep(host.items, j, found);
        var ri := host.items[j];
        var name := FindingName(ri);
        if filter.Some? && filter.value != "" && ri.severity != filter {
          assert found(ri) == None;
          assert FilterMap(host.items[..j + 1], found) == FilterMap(host.items[..j], found) + [];
          assert FilterMap(host.items[..j + 1], found) == FilterMap(host.items[..j], found);
          continue;
        }
        if q.regex.Some? && q.regex.value != "" && !q.search(q.regex.value, name) {
          assert found(ri) == None;
          assert FilterMap(host.items[..j + 1], found) == FilterMap(host.items[..j], found) + [];
          assert FilterMap(host.items[..j + 1], found) == FilterMap(host.items[..j], found);
          continue;
        }
        var sevText := SeverityName(ri.severity);
        assert found(ri) == Some(PyStr(ip) + ":" + PyStr(ri.port) + ":" + PyStr(sevText) + ":" + name);
        added := added + [PyStr(ip) + ":" + PyStr(ri.port) + ":" + PyStr(sevText) + ":" + name];
      }
      FilterMapWhole(host.items, found);
      output := output + added;
    }
    ConcatMapWhole(hosts, perHost);
    lines := SortUnique(output, LessStr);
  }

  /** Printing inverts filtering: a name filtered on is printed back as the
      same name, and the numbers `0`..`3` survive the round trip. */
  lemma SeverityRoundTrip(name: string, number: string)
    ensures name in {"info", "low", "medium", "high"} ==> SeverityName(Some(SeverityNumber(name))) == Some(name)
    ensures number in {"0", "1", "2", "3"} ==> SeverityNumber(SeverityName(Some(number)).value) == number
    ensures SeverityName(Some(number)) != Some(number) <==> number in {"0", "1", "2", "3"}
  {
  }

  lemma HostFindingsMembers(h: ReportHost, q: Query, s: string)
    ensures s in HostFindings(h, q) <==> exists j :: 0 <= j < |h.items| && FindingOf(h.name, h.items[j], q) == Some(s)
  {
    FilterMapMembers(h.items, ri => FindingOf(h.name, ri, q), s);
  }

  /** The printed findings are each line once, in increasing order, and a
      line is printed exactly when some item passing both filters renders
      to it. */
  lemma FindingsSpec(hosts: seq<ReportHost>, q: Query)
    ensures StrictlyIncreasing(Findings(hosts, q), LessStr)
    ensures forall s :: s in Findings(hosts, q) <==>
              exists h :: 0 <= h < |hosts| && exists j :: (
                0 <= j < |hosts[h].items|
                && PassesSeverity(hosts[h].items[j], SeverityFilter(q.severity))
                && PassesRegex(hosts[h].items[j], q)
                && FindingLine(hosts[h].name, hosts[h].items[j]) == s)
  {
    LessStrIsStrictTotal();
    SortUniqueSpec(FindingLines(hosts, q), LessStr);
    forall s ensures s in FindingLines(hosts, q) <==>
                     exists h :: 0 <= h < |hosts| && exists j :: (
                       0 <= j < |hosts[h].items| && FindingOf(hosts[h].name, hosts[h].items[j], q) == Some(s))
    {
      ConcatMapMembers(hosts, h => HostFindings(h, q), s);
      forall h | 0 <= h < |hosts| {
        HostFindingsMembers(hosts[h], q, s);
      }
    }
  }

  /** With a severity filter, every printed finding from an item carries
      the filter's level. */
  lemma FilteredSeverityShown(ip: Option<string>, ri: ReportItem, q: Query)
    requires SeverityFilter(q.severity).Some?
    requires FindingOf(ip, ri, q).Some?
    ensures ri.severity == SeverityFilter(q.severity)
  {
    var arg := q.severity.value;
    assert |Lower(arg)| == |arg| > 0;
    assert SeverityFilter(q.severity).value != "";
  }
}
