/** `extractDefaultCreds.py`, the first version of the extractor: the same
    walk over the nmap XML report, but missing text and attributes pass
    through as Python None, every host must have `<ports>`, and the
    credentials of several `credentials` tables accumulate. */
module DefaultCreds {
  import opened Text
  import opened Xml
  import opened Seqs
  import opened Assoc

  datatype Credential = Credential(username: Option<string>, password: Option<string>)

  datatype ServiceInfo = ServiceInfo(
    cpe: string, path: Option<string>, credentials: seq<Credential>,
    ip: Option<string>, hostname: Option<string>, port: Option<string>, service: Option<string>)

  // =====================================================================
  // Credentials

  /** One child of a credential table: any child keyed `username` or
      `password` sets that field to its text, whatever its tag. */
  function CredStep(c: Credential, e: Element): Credential {
    if AttrIs(e, "key", "username") then c.(username := e.text)
    else if AttrIs(e, "key", "password") then c.(password := e.text)
    else c
  }

  function CredentialOf(cred: Element): Credential {
    FoldL(cred.children, Credential(Some(""), Some("")), CredStep)
  }

  /** A child of a `credentials` table gives a credential when it is a
      `<table>`. */
  function CredentialIfTable(cred: Element): Option<Credential> {
    if HasTag(cred, "table") then Some(CredentialOf(cred)) else None
  }

  function CredentialsOf(table: Element): seq<Credential> {
    FilterMap(table.children, CredentialIfTable)
  }

  predicate IsUsernameKeyed(e: Element) {
    AttrIs(e, "key", "username")
  }

  predicate IsPasswordKeyed(e: Element) {
    AttrIs(e, "key", "password")
  }

  lemma {:induction false} CredFold(xs: seq<Element>, c: Credential)
    ensures FoldL(xs, c, CredStep).username ==
              match LastWhere(xs, IsUsernameKeyed) case Some(e) => e.text case None => c.username
    ensures FoldL(xs, c, CredStep).password ==
              match LastWhere(xs, IsPasswordKeyed) case Some(e) => e.text case None => c.password
  {
    if xs != [] {
      CredFold(xs[..|xs| - 1], c);
    }
  }

  /** A credential's fields are the texts of the last children keyed
      `username` and `password`, whatever their tag; None when that text is
      missing, `""` when there is no such child. */
  lemma CredentialOfSpec(cred: Element)
    ensures CredentialOf(cred).username ==
              match LastWhere(cred.children, IsUsernameKeyed) case Some(e) => e.text case None => Some("")
    ensures CredentialOf(cred).password ==
              match LastWhere(cred.children, IsPasswordKeyed) case Some(e) => e.text case None => Some("")
  {
    CredFold(cred.children, Credential(Some(""), Some("")));
  }

  /** Only the `<table>` children of a `credentials` table give
      credentials, in order. */
  lemma CredentialsOfSpec(table: Element, c: Credential)
    ensures c in CredentialsOf(table) <==>
              exists i :: 0 <= i < |table.children| && HasTag(table.children[i], "table")
                && CredentialOf(table.children[i]) == c
    ensures (forall i :: 0 <= i < |table.children| ==> HasTag(table.children[i], "table")) ==>
              |CredentialsOf(table)| == |table.children|
  {
    FilterMapMembers(table.children, CredentialIfTable, c);
    FilterMapLength(table.children, CredentialIfTable);
  }

  // =====================================================================
  // The script's tables

  predicate IsPathElem(e: Element) {
    HasTag(e, "elem") && AttrIs(e, "key", "path")
  }

  predicate IsCredentialsTable(e: Element) {
    HasTag(e, "table") && AttrIs(e, "key", "credentials")
  }

  predicate IsKeyedTable(t: Element) {
    HasTruthyAttr(t, "key")
  }

  /** One child of a script table: a `path` elem sets the path to its raw
      text; a `credentials` table appends its credentials. */
  function ElemStep(si: ServiceInfo, e: Element): ServiceInfo {
    if HasTag(e, "elem") then (if AttrIs(e, "key", "path") then si.(path := e.text) else si)
    else if IsCredentialsTable(e) then si.(credentials := si.credentials + CredentialsOf(e))
    else si
  }

  function TableStep(si: ServiceInfo, table: Element): ServiceInfo {
    var keyed := if IsKeyedTable(table) then si.(service := Get(table, "key")) else si;
    FoldL(table.children, keyed, ElemStep)
  }

  function InitialInfo(ip: Option<string>, hostname: Option<string>, portId: Option<string>,
                       serviceName: Option<string>): ServiceInfo
  {
    ServiceInfo("", Some(""), [], ip, hostname, portId, serviceName)
  }

  function ScriptInfo(script: Element, ip: Option<string>, hostname: Option<string>, portId: Option<string>,
                      serviceName: Option<string>): ServiceInfo
  {
    FoldL(FindAll(script, Plain("table")), InitialInfo(ip, hostname, portId, serviceName), TableStep)
  }

  /** The loop over a `credentials` table's children. */
  method AppendCredentials(credentials: seq<Credential>, table: Element) returns (next: seq<Credential>)
    ensures next == credentials + CredentialsOf(table)
  {
    next := credentials;
    for k := 0 to |table.children|
      invariant next == credentials + FilterMap(table.children[..k], CredentialIfTable)
    {
      FilterMapStep(table.children, k, CredentialIfTable);
      var cred := table.children[k];
      if HasTag(cred, "table") {
        var info := Credential(Some(""), Some(""));
        for j := 0 to |cred.children|
          invariant info == FoldL(cred.children[..j], Credential(Some(""), Some("")), CredStep)
        {
          FoldLStep(cred.children, j, Credential(Some(""), Some("")), CredStep);
          var c := cred.children[j];
          if Get(c, "key") == Some("username") {
            info := info.(username := c.text);
          } else if Get(c, "key") == Some("password") {
            info := info.(password := c.text);
          }
        }
        FoldLWhole(cred.children, Credential(Some(""), Some("")), CredStep);
        next := next + [info];
      } else {
        assert FilterMap(table.children[..k + 1], CredentialIfTable) == FilterMap(table.children[..k], CredentialIfTable) + [];
        assert FilterMap(table.children[..k + 1], CredentialIfTable) == FilterMap(table.children[..k], CredentialIfTable);
      }
    }
    FilterMapWhole(table.children, CredentialIfTable);
  }

  /** The loop over one table's children. */
  method ReadTable(si: ServiceInfo, table: Element) returns (next: ServiceInfo)
    ensures next == TableStep(si, table)
  {
    next := si;
    if Get(table, "key").Some? && Get(table, "key").value != "" {
      next := next.(service := Get(table, "key"));
    }
    var start := next;
    for k := 0 to |table.children|
      invariant next == FoldL(table.children[..k], start, ElemStep)
    {
      FoldLStep(table.children, k, start, ElemStep);
      var elem := table.children[k];
      if HasTag(elem, "elem") {
        if Get(elem, "key") == Some("path") {
          next := next.(path := elem.text);
        }
      } else if HasTag(elem, "table") && Get(elem, "key") == Some("credentials") {
        var credentials := AppendCredentials(next.credentials, elem);
        next := next.(credentials := credentials);
      }
    }
    FoldLWhole(table.children, start, ElemStep);
  }

  /** The table loop for a qualifying port's script. */
  method ReadScript(script: Element, ip: Option<string>, hostname: Option<string>, portId: Option<string>,
                    serviceName: Option<string>) returns (si: ServiceInfo)
    ensures si == ScriptInfo(script, ip, hostname, portId, serviceName)
  {
    var tables := FindAll(script, Plain("table"));
    var start := InitialInfo(ip, hostname, portId, serviceName);
    si := start;
    for k := 0 to |tables|
      invariant si == FoldL(tables[..k], start, TableStep)
    {
      FoldLStep(tables, k, start, TableStep);
      si := ReadTable(si, tables[k]);
    }
    FoldLWhole(tables, start, TableStep);
  }

  function Children(e: Element): seq<Element> {
    e.children
  }

  function CredentialsIfTable(e: Element): seq<Credential> {
    if IsCredentialsTable(e) then CredentialsOf(e) else []
  }

  lemma {:induction false} ElemFold(xs: seq<Element>, si: ServiceInfo)
    ensures var r := FoldL(xs, si, ElemStep);
      && r.path == (match LastWhere(xs, IsPathElem) case Some(e) => e.text case None => si.path)
      && r.credentials == si.credentials + ConcatMap(xs, CredentialsIfTable)
      && r.(path := si.path, credentials := si.credentials) == si
  {
    if xs != [] {
      ElemFold(xs[..|xs| - 1], si);
    }
  }

  lemma {:induction false} TableFold(tables: seq<Element>, si: ServiceInfo)
    ensures var r := FoldL(tables, si, TableStep);
      var elems := ConcatMap(tables, Children);
      && r.service == (match LastWhere(tables, IsKeyedTable) case Some(t) => Get(t, "key") case None => si.service)
      && r.path == (match LastWhere(elems, IsPathElem) case Some(e) => e.text case None => si.path)
      && r.credentials == si.credentials + ConcatMap(elems, CredentialsIfTable)
      && r.(path := si.path, credentials := si.credentials, service := si.service) == si
  {
    if tables != [] {
      var init, last := tables[..|tables| - 1], tables[|tables| - 1];
      TableFold(init, si);
      var before := FoldL(init, si, TableStep);
      var keyed := if IsKeyedTable(last) then before.(service := Get(last, "key")) else before;
      assert FoldL(tables, si, TableStep) == FoldL(last.children, keyed, ElemStep);
      var prior := ConcatMap(init, Children);
      assert ConcatMap(tables, Children) == prior + last.children;
      assert LastWhere(tables, IsKeyedTable)
             == if IsKeyedTable(last) then Some(last) else LastWhere(init, IsKeyedTable);
      ElemFold(last.children, keyed);
      LastWhereAppend(prior, last.children, IsPathElem);
      ConcatMapAppend(prior, last.children, CredentialsIfTable);
      AppendAssoc(si.credentials, ConcatMap(prior, CredentialsIfTable), ConcatMap(last.children, CredentialsIfTable));
    }
  }

  /** What the script's tables give: the service is the key of the last
      keyed table (the `<service>` name when none is keyed); the path is the
      raw text of the last `path` elem, which may be None; the credentials
      of every `credentials` table are concatenated in document order. */
  lemma ScriptInfoSpec(script: Element, ip: Option<string>, hostname: Option<string>, portId: Option<string>,
                       serviceName: Option<string>)
    ensures var r := ScriptInfo(script, ip, hostname, portId, serviceName);
      var tables := FindAll(script, Plain("table"));
      var elems := ConcatMap(tables, Children);
      && r.service == (match LastWhere(tables, IsKeyedTable) case Some(t) => Get(t, "key") case None => serviceName)
      && r.path == (match LastWhere(elems, IsPathElem) case Some(e) => e.text case None => Some(""))
      && r.credentials == ConcatMap(elems, CredentialsIfTable)
      && r.cpe == "" && r.ip == ip && r.hostname == hostname && r.port == portId
  {
    TableFold(FindAll(script, Plain("table")), InitialInfo(ip, hostname, portId, serviceName));
  }

  // =====================================================================
  // extract_information_from_xml

  function IpOf(host: Element): Option<string> {
    match Find(host, Plain("address"))
    case Some(a) => Get(a, "addr")
    case None => Some("")
  }

  function HostnameOf(host: Element): Option<string> {
    match Find(host, Plain("hostnames"))
    case Some(hs) => (match Find(hs, Plain("hostname")) case Some(h) => Get(h, "name") case None => Some(""))
    case None => Some("")
  }

  function ServiceNameOf(port: Element): Option<string> {
    match Find(port, Plain("service"))
    case Some(s) => Get(s, "name")
    case None => Some("")
  }

  predicate Qualifies(port: Element) {
    var s := Find(port, Plain("script"));
    s.Some? && AttrIs(s.value, "id", "http-default-accounts")
  }

  /** `f"{ip}:{port_id}"`, where either may be None. */
  function EntryKey(ip: Option<string>, portId: Option<string>): string {
    PyStr(ip) + ":" + PyStr(portId)
  }

  function PortEntry(host: Element, port: Element): Option<(string, ServiceInfo)> {
    if Qualifies(port) then
      var portId := Get(port, "portid");
      Some((EntryKey(IpOf(host), portId),
            ScriptInfo(Find(port, Plain("script")).value, IpOf(host), HostnameOf(host), portId, ServiceNameOf(port))))
    else None
  }

  /** `PortEntry` for the ports of one host. */
  function EntryOf(host: Element): Element -> Option<(string, ServiceInfo)> {
    p => PortEntry(host, p)
  }

  /** Every host has `<ports>`: `host.find('ports').findall('port')` raises
      otherwise. */
  predicate AllHostsHavePorts(root: Element) {
    forall host :: host in FindAll(root, Plain("host")) ==> Find(host, Plain("ports")).Some?
  }

  function HostEntries(host: Element): seq<(string, ServiceInfo)>
    requires Find(host, Plain("ports")).Some?
  {
    FilterMap(FindAll(Find(host, Plain("ports")).value, Plain("port")), EntryOf(host))
  }

  function Entries(root: Element): seq<(string, ServiceInfo)>
    requires AllHostsHavePorts(root)
  {
    var hosts := FindAll(root, Plain("host"));
    ConcatMap(hosts, host => if host in hosts then HostEntries(host) else [])
  }

  function Extracted(root: Option<Element>): map<string, ServiceInfo>
    requires root.Some? ==> AllHostsHavePorts(root.value)
  {
    if root.None? then map[] else MapOf(Entries(root.value))
  }

  /** The key order `info.items()` yields after the assignments. */
  function ExtractedOrder(root: Option<Element>): seq<string>
    requires root.Some? ==> AllHostsHavePorts(root.value)
  {
    if root.None? then [] else KeyOrder(Entries(root.value))
  }

  /** The port loop of one host, assigning into `info`. `order` is the
      order of `info`'s keys, which the assignments `before` built. */
  method AddHostPorts(info: map<string, ServiceInfo>, order: seq<string>, host: Element,
                      ghost before: seq<(string, ServiceInfo)>)
    returns (next: map<string, ServiceInfo>, nextOrder: seq<string>)
    requires Find(host, Plain("ports")).Some?
    requires info == MapOf(before) && order == KeyOrder(before)
    ensures next == info + MapOf(HostEntries(host))
    ensures nextOrder == KeyOrder(before + HostEntries(host))
  {
    var ip := IpOf(host);
    var hostname := HostnameOf(host);
    var portList := FindAll(Find(host, Plain("ports")).value, Plain("port"));
    var entry := EntryOf(host);
    next, nextOrder := info, order;
    assert before + FilterMap(portList[..0], entry) == before;
    for k := 0 to |portList|
      invariant next == info + MapOf(FilterMap(portList[..k], entry))
      invariant nextOrder == KeyOrder(before + FilterMap(portList[..k], entry))
    {
      FilterMapStep(portList, k, entry);
      var done := FilterMap(portList[..k], entry);
      var port := portList[k];
      var portId := Get(port, "portid");
      var serviceName := ServiceNameOf(port);
      var script := Find(port, Plain("script"));
      if script.Some? && Get(script.value, "id") == Some("http-default-accounts") {
        var serviceInfo := ReadScript(script.value, ip, hostname, portId, serviceName);
        var key := EntryKey(ip, portId);
        assert entry(port) == Some((key, serviceInfo));
        MapOfSnoc(done, (key, serviceInfo));
        UnionUpdate(info, MapOf(done), key, serviceInfo);
        OrderStep(before, done, (key, serviceInfo));
        if key !in next {
          nextOrder := nextOrder + [key];
        }
        next := next[key := serviceInfo];
      } else {
        assert entry(port) == None;
        assert FilterMap(portList[..k + 1], entry) == done + [];
        assert FilterMap(portList[..k + 1], entry) == done;
      }
    }
    FilterMapWhole(portList, entry);
  }

  /** `extract_information_from_xml`, for a report whose hosts all have
      `<ports>`, with the order in which the returned dictionary yields its
      keys. */
  method ExtractInformation(root: Option<Element>) returns (info: map<string, ServiceInfo>, order: seq<string>)
    requires root.Some? ==> AllHostsHavePorts(root.value)
    ensures info == Extracted(root)
    ensures order == ExtractedOrder(root)
    ensures root.None? ==> info == map[]
  {
    info, order := map[], [];
    if root.None? {
      return;
    }
    var hosts := FindAll(root.value, Plain("host"));
    var perHost := host => if host in hosts then HostEntries(host) else [];
    for h := 0 to |hosts|
      invariant info == MapOf(ConcatMap(hosts[..h], perHost))
      invariant order == KeyOrder(ConcatMap(hosts[..h], perHost))
    {
      ConcatMapStep(hosts, h, perHost);
      MapOfAppend(ConcatMap(hosts[..h], perHost), perHost(hosts[h]));
      assert hosts[h] in hosts;
      info, order := AddHostPorts(info, order, hosts[h], ConcatMap(hosts[..h], perHost));
    }
    ConcatMapWhole(hosts, perHost);
  }

  /** Keys are `ip:portid` of qualifying ports, and a later entry with the
      same key overwrites an earlier one. */
  lemma ExtractedLastWins(root: Element, i: nat)
    requires AllHostsHavePorts(root)
    requires i < |Entries(root)|
    requires forall j :: i < j < |Entries(root)| ==> Entries(root)[j].0 != Entries(root)[i].0
    ensures Entries(root)[i].0 in Extracted(Some(root))
    ensures Extracted(Some(root))[Entries(root)[i].0] == Entries(root)[i].1
  {
    MapOfLastWins(Entries(root), i);
  }

  /** The entries of a host come from its qualifying ports. */
  lemma HostEntriesFrom(host: Element, kv: (string, ServiceInfo))
    requires Find(host, Plain("ports")).Some?
    ensures kv in HostEntries(host) <==>
              exists port :: port in FindAll(Find(host, Plain("ports")).value, Plain("port"))
                && Qualifies(port) && PortEntry(host, port) == Some(kv)
  {
    var portList := FindAll(Find(host, Plain("ports")).value, Plain("port"));
    FilterMapHas(portList, EntryOf(host), kv);
    forall port | PortEntry(host, port).Some? ensures Qualifies(port) {
    }
  }

  /** A qualifying port's entry is keyed by its host's address and its
      `portid`, each `None` when the attribute is missing. */
  lemma PortEntryKey(host: Element, port: Element)
    requires Qualifies(port)
    ensures PortEntry(host, port).Some?
    ensures PortEntry(host, port).value.0 == PyStr(IpOf(host)) + ":" + PyStr(Get(port, "portid"))
    ensures PortEntry(host, port).value.1.port == Get(port, "portid")
  {
    ScriptInfoSpec(Find(port, Plain("script")).value, IpOf(host), HostnameOf(host),
                   Get(port, "portid"), ServiceNameOf(port));
  }
}
