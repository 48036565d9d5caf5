/** `extractDefaultCreds2.py`: the default credentials nmap's
    `http-default-accounts` script found, read from the XML report into a
    dictionary keyed `ip:portid`. Missing data becomes `""` here, except
    where the script passes an attribute's absence (Python None) through. */
module DefaultCreds2 {
  import opened Text
  import opened Xml
  import opened Seqs
  import opened Assoc

  datatype Credential = Credential(username: string, password: string)

  /** A `service_info` dictionary; `None` for attributes `get` did not find. */
  datatype ServiceInfo = ServiceInfo(
    cpe: string, path: string, credentials: seq<Credential>,
    ip: Option<string>, hostname: Option<string>, port: string, service: Option<string>)

  // =====================================================================
  // parse_credentials

  predicate IsUsernameElem(e: Element) {
    HasTag(e, "elem") && AttrIs(e, "key", "username")
  }

  predicate IsPasswordElem(e: Element) {
    HasTag(e, "elem") && AttrIs(e, "key", "password")
  }

  /** One child of a credential table. */
  function CredStep(c: Credential, e: Element): Credential {
    if IsUsernameElem(e) then c.(username := TextOr(e))
    else if IsPasswordElem(e) then c.(password := TextOr(e))
    else c
  }

  function CredentialOf(cred: Element): Credential {
    FoldL(cred.children, Credential("", ""), CredStep)
  }

  function Credentials(table: Element): (r: seq<Credential>)
    ensures |r| == |FindAll(table, Plain("table"))|
  {
    var creds := FindAll(table, Plain("table"));
    seq(|creds|, i requires 0 <= i < |creds| => CredentialOf(creds[i]))
  }

  /** The inner loop of `parse_credentials`. */
  method ReadCredential(cred: Element) returns (c: Credential)
    ensures c == CredentialOf(cred)
  {
    c := Credential("", "");
    for k := 0 to |cred.children|
      invariant c == FoldL(cred.children[..k], Credential("", ""), CredStep)
    {
      FoldLStep(cred.children, k, Credential("", ""), CredStep);
      var elem := cred.children[k];
      if HasTag(elem, "elem") {
        if Get(elem, "key") == Some("username") {
          c := c.(username := TextOr(elem));
        } else if Get(elem, "key") == Some("password") {
          c := c.(password := TextOr(elem));
        }
      }
    }
    FoldLWhole(cred.children, Credential("", ""), CredStep);
  }

  /** `parse_credentials`. */
  method ParseCredentials(table: Element) returns (credentials: seq<Credential>)
    ensures credentials == Credentials(table)
  {
    var creds := FindAll(table, Plain("table"));
    credentials := [];
    for k := 0 to |creds|
      invariant |credentials| == k
      invariant forall i :: 0 <= i < k ==> credentials[i] == CredentialOf(creds[i])
    {
      var c := ReadCredential(creds[k]);
      credentials := credentials + [c];
    }
  }

  lemma {:induction false} CredFold(xs: seq<Element>, c: Credential)
    ensures FoldL(xs, c, CredStep).username ==
              match LastWhere(xs, IsUsernameElem) case Some(e) => TextOr(e) case None => c.username
    ensures FoldL(xs, c, CredStep).password ==
              match LastWhere(xs, IsPasswordElem) case Some(e) => TextOr(e) case None => c.password
  {
    if xs != [] {
      CredFold(xs[..|xs| - 1], c);
    }
  }

  /** One credential per child `<table>`, in order: its username and
      password are the texts of the last `elem` children keyed so, `""`
      when there is none or its text is empty. */
  lemma CredentialsSpec(table: Element, i: nat)
    requires i < |FindAll(table, Plain("table"))|
    ensures var cred := FindAll(table, Plain("table"))[i];
      && Credentials(table)[i].username ==
           (match LastWhere(cred.children, IsUsernameElem) case Some(e) => TextOr(e) case None => "")
      && Credentials(table)[i].password ==
           (match LastWhere(cred.children, IsPasswordElem) case Some(e) => TextOr(e) case None => "")
  {
    CredFold(FindAll(table, Plain("table"))[i].children, Credential("", ""));
  }

  // =====================================================================
  // parse_script

  predicate IsPathElem(e: Element) {
    HasTag(e, "elem") && AttrIs(e, "key", "path")
  }

  predicate IsCredentialsTable(e: Element) {
    HasTag(e, "table") && AttrIs(e, "key", "credentials")
  }

  predicate IsKeyedTable(t: Element) {
    HasTruthyAttr(t, "key")
  }

  /** One child of a script table. */
  function ElemStep(si: ServiceInfo, e: Element): ServiceInfo {
    if IsPathElem(e) then si.(path := TextOr(e))
    else if IsCredentialsTable(e) then si.(credentials := Credentials(e))
    else si
  }

  /** One table of the script: its key names the service, then its
      children are read. */
  function TableStep(si: ServiceInfo, table: Element): ServiceInfo {
    var keyed := if IsKeyedTable(table) then si.(service := Get(table, "key")) else si;
    FoldL(table.children, keyed, ElemStep)
  }

  function InitialInfo(ip: Option<string>, hostname: Option<string>, portId: string, serviceName: Option<string>): ServiceInfo {
    ServiceInfo("", "", [], ip, hostname, portId, serviceName)
  }

  function ScriptInfo(script: Element, ip: Option<string>, hostname: Option<string>, portId: string,
                      serviceName: Option<string>): ServiceInfo
  {
    FoldL(FindAll(script, Plain("table")), InitialInfo(ip, hostname, portId, serviceName), TableStep)
  }

  /** The loop over one table's children. */
  method ReadTable(si: ServiceInfo, table: Element) returns (next: ServiceInfo)
    ensures next == TableStep(si, table)
  {
    next := si;
    if Get(table, "key").Some? && Get(table, "key").value != "" {
      next := next.(service := Get(table, "key"));
    }
    var start := next;
    for k := 0 to |table.children|
      invariant next == FoldL(table.children[..k], start, ElemStep)
    {
      FoldLStep(table.children, k, start, ElemStep);
      var elem := table.children[k];
      if HasTag(elem, "elem") && Get(elem, "key") == Some("path") {
        next := next.(path := TextOr(elem));
      } else if HasTag(elem, "table") && Get(elem, "key") == Some("credentials") {
        var credentials := ParseCredentials(elem);
        next := next.(credentials := credentials);
      }
    }
    FoldLWhole(table.children, start, ElemStep);
  }

  /** `parse_script`. */
  method ParseScript(script: Element, ip: Option<string>, hostname: Option<string>, portId: string,
                     serviceName: Option<string>) returns (si: ServiceInfo)
    ensures si == ScriptInfo(script, ip, hostname, portId, serviceName)
  {
    var tables := FindAll(script, Plain("table"));
    var start := InitialInfo(ip, hostname, portId, serviceName);
    si := start;
    for k := 0 to |tables|
      invariant si == FoldL(tables[..k], start, TableStep)
    {
      FoldLStep(tables, k, start, TableStep);
      si := ReadTable(si, tables[k]);
    }
    FoldLWhole(tables, start, TableStep);
  }

  function Children(e: Element): seq<Element> {
    e.children
  }

  lemma {:induction false} ElemFold(xs: seq<Element>, si: ServiceInfo)
    ensures var r := FoldL(xs, si, ElemStep);
      && r.path == (match LastWhere(xs, IsPathElem) case Some(e) => TextOr(e) case None => si.path)
      && r.credentials == (match LastWhere(xs, IsCredentialsTable) case Some(e) => Credentials(e) case None => si.credentials)
      && r.(path := si.path, credentials := si.credentials) == si
  {
    if xs != [] {
      ElemFold(xs[..|xs| - 1], si);
    }
  }

  lemma {:induction false} TableFold(tables: seq<Element>, si: ServiceInfo)
    ensures var r := FoldL(tables, si, TableStep);
      var elems := ConcatMap(tables, Children);
      && r.service == (match LastWhere(tables, IsKeyedTable) case Some(t) => Get(t, "key") case None => si.service)
      && r.path == (match LastWhere(elems, IsPathElem) case Some(e) => TextOr(e) case None => si.path)
      && r.credentials == (match LastWhere(elems, IsCredentialsTable) case Some(e) => Credentials(e) case None => si.credentials)
      && r.(path := si.path, credentials := si.credentials, service := si.service) == si
  {
    if tables != [] {
      var init, last := tables[..|tables| - 1], tables[|tables| - 1];
      TableFold(init, si);
      var before := FoldL(init, si, TableStep);
      var keyed := if IsKeyedTable(last) then before.(service := Get(last, "key")) else before;
      ElemFold(last.children, keyed);
      LastWhereAppend(ConcatMap(init, Children), last.children, IsPathElem);
      LastWhereAppend(ConcatMap(init, Children), last.children, IsCredentialsTable);
    }
  }

  /** What `parse_script` returns: the service is the key of the last keyed
      table (the `<service>` name when none is keyed), the path the text of
      the last `path` elem, the credentials those of the last `credentials`
      table, across all tables in order; the rest is as given. */
  lemma ScriptInfoSpec(script: Element, ip: Option<string>, hostname: Option<string>, portId: string,
                       serviceName: Option<string>)
    ensures var r := ScriptInfo(script, ip, hostname, portId, serviceName);
      var tables := FindAll(script, Plain("table"));
      var elems := ConcatMap(tables, Children);
      && r.service == (match LastWhere(tables, IsKeyedTable) case Some(t) => Get(t, "key") case None => serviceName)
      && r.path == (match LastWhere(elems, IsPathElem) case Some(e) => TextOr(e) case None => "")
      && r.credentials == (match LastWhere(elems, IsCredentialsTable) case Some(e) => Credentials(e) case None => [])
      && r.cpe == "" && r.ip == ip && r.hostname == hostname && r.port == portId
  {
    TableFold(FindAll(script, Plain("table")), InitialInfo(ip, hostname, portId, serviceName));
  }

  // =====================================================================
  // extract_information_from_xml

  /** `address.get("addr")`, or `""` without an `<address>`. */
  function IpOf(host: Element): Option<string> {
    match Find(host, Plain("address"))
    case Some(a) => Get(a, "addr")
    case None => Some("")
  }

  /** The `name` of the first `<hostname>` in `<hostnames>`, or `""`. */
  function HostnameOf(host: Element): Option<string> {
    match Find(host, Plain("hostnames"))
    case Some(hs) => (match Find(hs, Plain("hostname")) case Some(h) => Get(h, "name") case None => Some(""))
    case None => Some("")
  }

  function ServiceNameOf(port: Element): Option<string> {
    match Find(port, Plain("service"))
    case Some(s) => Get(s, "name")
    case None => Some("")
  }

  /** Whether the port's first `<script>` is `http-default-accounts`. */
  predicate Qualifies(port: Element) {
    var s := Find(port, Plain("script"));
    s.Some? && AttrIs(s.value, "id", "http-default-accounts")
  }

  function EntryKey(ip: Option<string>, portId: string): string {
    PyStr(ip) + ":" + portId
  }

  /** The entry one port adds, if it qualifies. */
  function PortEntry(host: Element, port: Element): Option<(string, ServiceInfo)> {
    if Qualifies(port) then
      var portId := Get(port, "portid").GetOr("");
      Some((EntryKey(IpOf(host), portId),
            ScriptInfo(Find(port, Plain("script")).value, IpOf(host), HostnameOf(host), portId, ServiceNameOf(port))))
    else None
  }

  /** `PortEntry` for the ports of one host. */
  function EntryOf(host: Element): Element -> Option<(string, ServiceInfo)> {
    p => PortEntry(host, p)
  }

  /** The entries of a host, in port order; none without `<ports>`. */
  function HostEntries(host: Element): seq<(string, ServiceInfo)> {
    match Find(host, Plain("ports"))
    case None => []
    case Some(ports) => FilterMap(FindAll(ports, Plain("port")), EntryOf(host))
  }

  /** Every assignment `info[key] = service_info`, in order. */
  function Entries(root: Element): seq<(string, ServiceInfo)> {
    ConcatMap(FindAll(root, Plain("host")), HostEntries)
  }

  function Extracted(root: Option<Element>): map<string, ServiceInfo> {
    if root.None? then map[] else MapOf(Entries(root.value))
  }

  /** The key order `info.items()` yields after the assignments. */
  function ExtractedOrder(root: Option<Element>): seq<string> {
    if root.None? then [] else KeyOrder(Entries(root.value))
  }

  /** The port loop of one host, assigning into `info`. `order` is the
      order of `info`'s keys, which the assignments `before` built. */
  method AddHostPorts(info: map<string, ServiceInfo>, order: seq<string>, host: Element, ports: Element,
                      ghost before: seq<(string, ServiceInfo)>)
    returns (next: map<string, ServiceInfo>, nextOrder: seq<string>)
    requires Find(host, Plain("ports")) == Some(ports)
    requires info == MapOf(before) && order == KeyOrder(before)
    ensures next == info + MapOf(HostEntries(host))
    ensures nextOrder == KeyOrder(before + HostEntries(host))
  {
    var ip := IpOf(host);
    var hostname := HostnameOf(host);
    var portList := FindAll(ports, Plain("port"));
    var entry := EntryOf(host);
    next, nextOrder := info, order;
    assert before + FilterMap(portList[..0], entry) == before;
    for k := 0 to |portList|
      invariant next == info + MapOf(FilterMap(portList[..k], entry))
      invariant nextOrder == KeyOrder(before + FilterMap(portList[..k], entry))
    {
      FilterMapStep(portList, k, entry);
      var done := FilterMap(portList[..k], entry);
      assert before + done == before + FilterMap(portList[..k], entry);
      var port := portList[k];
      var portId := Get(port, "portid").GetOr("");
      var serviceName := ServiceNameOf(port);
      var script := Find(port, Plain("script"));
      if script.Some? && Get(script.value, "id") == Some("http-default-accounts") {
        var serviceInfo := ParseScript(script.value, ip, hostname, portId, serviceName);
        var key := EntryKey(ip, portId);
        assert entry(port) == Some((key, serviceInfo));
        MapOfSnoc(done, (key, serviceInfo));
        UnionUpdate(info, MapOf(done), key, serviceInfo);
        OrderStep(before, done, (key, serviceInfo));
        if key !in next {
          nextOrder := nextOrder + [key];
        }
        next := next[key := serviceInfo];
      } else {
        assert entry(port) == None;
        assert FilterMap(portList[..k + 1], entry) == done + [];
        assert FilterMap(portList[..k + 1], entry) == done;
      }
    }
    FilterMapWhole(portList, entry);
  }

  /** `extract_information_from_xml`, with the order in which the returned
      dictionary yields its keys. */
  method ExtractInformation(root: Option<Element>) returns (info: map<string, ServiceInfo>, order: seq<string>)
    ensures info == Extracted(root)
    ensures order == ExtractedOrder(root)
    ensures root.None? ==> info == map[]
  {
    info, order := map[], [];
    if root.None? {
      return;
    }
    var hosts := FindAll(root.value, Plain("host"));
    for h := 0 to |hosts|
      invariant info == MapOf(ConcatMap(hosts[..h], HostEntries))
      invariant order == KeyOrder(ConcatMap(hosts[..h], HostEntries))
    {
      ConcatMapStep(hosts, h, HostEntries);
      MapOfAppend(ConcatMap(hosts[..h], HostEntries), HostEntries(hosts[h]));
      var ports := Find(hosts[h], Plain("ports"));
      if ports.None? {
        assert MapOf(HostEntries(hosts[h])) == map[];
        assert ConcatMap(hosts[..h], HostEntries) + HostEntries(hosts[h]) == ConcatMap(hosts[..h], HostEntries);
        continue;
      }
      info, order := AddHostPorts(info, order, hosts[h], ports.value, ConcatMap(hosts[..h], HostEntries));
    }
    ConcatMapWhole(hosts, HostEntries);
  }

  /** The entries of a host come from its qualifying ports; a host without
      `<ports>` has none. */
  lemma HostEntriesFrom(host: Element, kv: (string, ServiceInfo))
    ensures kv in HostEntries(host) <==>
              Find(host, Plain("ports")).Some?
              && exists port :: port in FindAll(Find(host, Plain("ports")).value, Plain("port"))
                   && Qualifies(port) && PortEntry(host, port) == Some(kv)
  {
    if Find(host, Plain("ports")).Some? {
      var portList := FindAll(Find(host, Plain("ports")).value, Plain("port"));
      FilterMapHas(portList, EntryOf(host), kv);
      forall port | PortEntry(host, port).Some? ensures Qualifies(port) {
      }
    }
  }

  /** Every entry comes from one of the hosts, in host order. */
  lemma EntriesFrom(root: Element, kv: (string, ServiceInfo))
    ensures kv in Entries(root) <==> exists host :: host in FindAll(root, Plain("host")) && kv in HostEntries(host)
  {
    var hosts := FindAll(root, Plain("host"));
    ConcatMapMembers(hosts, HostEntries, kv);
    if exists host :: host in hosts && kv in HostEntries(host) {
      var host :| host in hosts && kv in HostEntries(host);
      var i :| 0 <= i < |hosts| && hosts[i] == host;
    }
  }

  /** Keys are `ip:portid`, and a later entry with the same key overwrites
      an earlier one: the dictionary holds, for each key, the last entry. */
  lemma ExtractedLastWins(root: Element, i: nat)
    requires i < |Entries(root)|
    requires forall j :: i < j < |Entries(root)| ==> Entries(root)[j].0 != Entries(root)[i].0
    ensures Entries(root)[i].0 in Extracted(Some(root))
    ensures Extracted(Some(root))[Entries(root)[i].0] == Entries(root)[i].1
  {
    MapOfLastWins(Entries(root), i);
  }

  /** Every key of the dictionary is assigned by some entry. */
  lemma ExtractedKeys(root: Element, key: string)
    ensures key in Extracted(Some(root)) <==> exists i :: 0 <= i < |Entries(root)| && Entries(root)[i].0 == key
  {
    MapOfKeys(Entries(root), key);
  }

  /** A port's entry is keyed by its host's address and its `portid`. */
  lemma PortEntryKey(host: Element, port: Element)
    requires Qualifies(port)
    ensures PortEntry(host, port).Some?
    ensures PortEntry(host, port).value.0 == PyStr(IpOf(host)) + ":" + Get(port, "portid").GetOr("")
    ensures PortEntry(host, port).value.1.ip == IpOf(host)
  {
    ScriptInfoSpec(Find(port, Plain("script")).value, IpOf(host), HostnameOf(host),
                   Get(port, "portid").GetOr(""), ServiceNameOf(port));
  }
}
