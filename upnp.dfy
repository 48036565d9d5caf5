/** The parsing and selection logic of the UPnP scanner (`upnp.py`): the SSDP
    response scan, base-URL derivation, device-description and SCPD
    extraction, SOAP request construction, the Internet-gateway service
    gate, and the name under which malformed descriptors are stored. */
module Upnp {
  import opened Text
  import opened Xml
  import opened Seqs

  // =====================================================================
  // SSDP responses (section 1.3.3 of the UPnP Device Architecture 1.1)

  /** The address a datagram came from. */
  datatype Responder = Responder(ip: string, port: int)

  datatype SsdpResponse = SsdpResponse(raw: string, sender: Responder)

  predicate IsLocationLine(line: string) {
    StartsWith(Lower(line), "location:")
  }

  /** A LOCATION line's first colon is the one that ends the header name. */
  lemma LocationColon(line: string)
    requires IsLocationLine(line)
    ensures SplitOnce(line, ":") == (line[..8], Some(line[9..]))
  {
    var low := Lower(line);
    assert low[..9] == "location:";
    forall j | 0 <= j < 8 ensures line[j] != ':' {
      assert low[j] == "location:"[j];
    }
    assert low[8] == ':';
    IndexOfChar(line, ':', 8);
    SplitOnceAt(line, ":", 8);
  }

  /** `line.split(":", 1)[1].strip()` on a LOCATION line. */
  function LocationValue(line: string): string
    requires IsLocationLine(line)
  {
    LocationColon(line);
    Strip(SplitOnce(line, ":").1.value)
  }

  /** The location is everything after `location:`, stripped. */
  lemma LocationValueIsRest(line: string)
    requires IsLocationLine(line)
    ensures |line| >= 9 && LocationValue(line) == Strip(line[9..])
  {
    LocationColon(line);
  }

  /** The value of the first LOCATION line, if any. */
  function FirstLocation(lines: seq<string>): Option<string> {
    if lines == [] then None
    else if IsLocationLine(lines[0]) then Some(LocationValue(lines[0]))
    else FirstLocation(lines[1..])
  }

  function ResponseLocation(raw: string): Option<string> {
    FirstLocation(Split(raw, "\r\n"))
  }

  /** A response that adds `loc` to the device map: its LOCATION value is
      `loc` and is not empty. */
  predicate Announces(r: SsdpResponse, loc: string) {
    ResponseLocation(r.raw) == Some(loc) && loc != ""
  }

  /** The location → responder map after the given responses. */
  function SsdpDevices(rs: seq<SsdpResponse>): map<string, Responder> {
    if rs == [] then map[]
    else
      var devices := SsdpDevices(rs[..|rs| - 1]);
      var r := rs[|rs| - 1];
      match ResponseLocation(r.raw)
      case Some(loc) => if loc != "" then devices[loc := r.sender] else devices
      case None => devices
  }

  /** The location a response adds to the map, if any. */
  function AnnouncedLocation(r: SsdpResponse): Option<string> {
    match ResponseLocation(r.raw)
    case Some(loc) => if loc != "" then Some(loc) else None
    case None => None
  }

  /** The order in which `devices.items()` yields the locations: a
      dictionary keeps the order of first insertion. */
  function SsdpOrder(rs: seq<SsdpResponse>): seq<string> {
    Dedupe(FilterMap(rs, AnnouncedLocation))
  }

  /** A location has been announced exactly when it is in the map. */
  lemma AnnouncedIsKey(rs: seq<SsdpResponse>, loc: string)
    ensures loc in FilterMap(rs, AnnouncedLocation) <==> loc in SsdpDevices(rs)
  {
    FilterMapMembers(rs, AnnouncedLocation, loc);
    SsdpDevicesKeys(rs, loc);
    assert forall i :: 0 <= i < |rs| ==> (AnnouncedLocation(rs[i]) == Some(loc) <==> Announces(rs[i], loc));
  }

  /** `parse_ssdp_responses`, with the order in which the returned
      dictionary yields its locations. */
  method ParseSsdpResponses(responses: seq<SsdpResponse>) returns (devices: map<string, Responder>, order: seq<string>)
    ensures devices == SsdpDevices(responses)
    ensures order == SsdpOrder(responses)
  {
    devices, order := map[], [];
    for i := 0 to |responses|
      invariant devices == SsdpDevices(responses[..i])
      invariant order == SsdpOrder(responses[..i])
    {
      var resp := responses[i];
      FilterMapStep(responses, i, AnnouncedLocation);
      AnnouncedIsKey(responses[..i], ResponseLocation(resp.raw).GetOr(""));
      var location := ScanLocation(Split(resp.raw, "\r\n"));
      if location.Some? && location.value != "" {
        DedupeSnoc(FilterMap(responses[..i], AnnouncedLocation), location.value);
        if location.value !in devices {
          order := order + [location.value];
        }
        devices := devices[location.value := resp.sender];
      } else {
        assert FilterMap(responses[..i + 1], AnnouncedLocation) == FilterMap(responses[..i], AnnouncedLocation) + [];
        assert FilterMap(responses[..i + 1], AnnouncedLocation) == FilterMap(responses[..i], AnnouncedLocation);
      }
      assert responses[..i + 1][..i] == responses[..i];
    }
    assert responses[..|responses|] == responses;
  }

  /** The scan visits every location of the map once, and no other, in the
      order of each location's first announcement. */
  lemma SsdpOrderSpec(rs: seq<SsdpResponse>)
    ensures Distinct(SsdpOrder(rs))
    ensures forall loc :: loc in SsdpOrder(rs) <==> loc in SsdpDevices(rs)
    ensures forall loc :: loc in SsdpOrder(rs) <==> loc in FilterMap(rs, AnnouncedLocation)
    ensures forall i, j :: 0 <= i < j < |SsdpOrder(rs)| ==>
              FirstIndex(FilterMap(rs, AnnouncedLocation), SsdpOrder(rs)[i])
              < FirstIndex(FilterMap(rs, AnnouncedLocation), SsdpOrder(rs)[j])
  {
    DedupeSpec(FilterMap(rs, AnnouncedLocation));
    forall loc ensures loc in SsdpOrder(rs) <==> loc in SsdpDevices(rs) {
      AnnouncedIsKey(rs, loc);
    }
  }

  /** The inner loop of `parse_ssdp_responses`: the first LOCATION line's
      value. */
  method ScanLocation(lines: seq<string>) returns (location: Option<string>)
    ensures location == FirstLocation(lines)
  {
    location := None;
    var j := 0;
    while j < |lines|
      invariant 0 <= j <= |lines|
      invariant FirstLocation(lines[j..]) == FirstLocation(lines)
    {
      assert lines[j..][0] == lines[j];
      if StartsWith(Lower(lines[j]), "location:") {
        LocationColon(lines[j]);
        location := Some(Strip(SplitOnce(lines[j], ":").1.value));
        return;
      }
      assert lines[j..][1..] == lines[j + 1..];
      j := j + 1;
    }
  }

  /** Only the first LOCATION line of a response counts. */
  lemma {:induction false} FirstLocationSpec(lines: seq<string>)
    ensures FirstLocation(lines).None? <==> forall k :: 0 <= k < |lines| ==> !IsLocationLine(lines[k])
    ensures FirstLocation(lines).Some? ==>
              exists k :: 0 <= k < |lines| && IsLocationLine(lines[k])
                          && FirstLocation(lines).value == LocationValue(lines[k])
                          && forall j :: 0 <= j < k ==> !IsLocationLine(lines[j])
  {
    if lines == [] {
      return;
    }
    if IsLocationLine(lines[0]) {
      assert FirstLocation(lines) == Some(LocationValue(lines[0]));
      return;
    }
    var rest := lines[1..];
    FirstLocationSpec(rest);
    assert FirstLocation(lines) == FirstLocation(rest);
    assert forall k :: 1 <= k < |lines| ==> lines[k] == rest[k - 1];
    if FirstLocation(rest).None? {
      forall k | 0 <= k < |lines| ensures !IsLocationLine(lines[k]) {
        if k > 0 {
          assert !IsLocationLine(rest[k - 1]);
        }
      }
    } else {
      var k :| 0 <= k < |rest| && IsLocationLine(rest[k])
               && FirstLocation(rest).value == LocationValue(rest[k])
               && forall j :: 0 <= j < k ==> !IsLocationLine(rest[j]);
      forall j | 0 <= j < k + 1 ensures !IsLocationLine(lines[j]) {
        if j > 0 {
          assert !IsLocationLine(rest[j - 1]);
        }
      }
      assert IsLocationLine(lines[k + 1]) && FirstLocation(lines).value == LocationValue(lines[k + 1]);
    }
  }

  /** A location is in the map exactly when some response announces it. */
  lemma {:induction false} SsdpDevicesKeys(rs: seq<SsdpResponse>, loc: string)
    ensures loc in SsdpDevices(rs) <==> exists i :: 0 <= i < |rs| && Announces(rs[i], loc)
  {
    if rs != [] {
      var init := rs[..|rs| - 1];
      SsdpDevicesKeys(init, loc);
      if exists i :: 0 <= i < |init| && Announces(init[i], loc) {
        var i :| 0 <= i < |init| && Announces(init[i], loc);
        assert rs[i] == init[i];
      }
      if exists i :: 0 <= i < |rs| && Announces(rs[i], loc) {
        var i :| 0 <= i < |rs| && Announces(rs[i], loc);
        if i < |init| {
          assert init[i] == rs[i];
        }
      }
    }
  }

  /** A later response for the same location overwrites an earlier one: the
      map holds the sender of the last response announcing it. */
  lemma {:induction false} SsdpDevicesLastWins(rs: seq<SsdpResponse>, i: nat, loc: string)
    requires i < |rs| && Announces(rs[i], loc)
    requires forall j :: i < j < |rs| ==> !Announces(rs[j], loc)
    ensures loc in SsdpDevices(rs) && SsdpDevices(rs)[loc] == rs[i].sender
  {
    var init := rs[..|rs| - 1];
    if i < |rs| - 1 {
      assert !Announces(rs[|rs| - 1], loc);
      forall j | i < j < |init| ensures !Announces(init[j], loc) {
        assert init[j] == rs[j];
      }
      assert init[i] == rs[i];
      SsdpDevicesLastWins(init, i, loc);
    }
  }

  /** A response without a LOCATION line, or with an empty one, changes
      nothing wherever it appears. */
  lemma {:induction false} SsdpSilentResponse(a: seq<SsdpResponse>, r: SsdpResponse, b: seq<SsdpResponse>)
    requires ResponseLocation(r.raw).None? || ResponseLocation(r.raw) == Some("")
    ensures SsdpDevices(a + [r] + b) == SsdpDevices(a + b)
    decreases |b|
  {
    if b == [] {
      assert a + [r] + b == a + [r];
      assert (a + [r])[..|a|] == a;
      assert a + b == a;
    } else {
      var b' := b[..|b| - 1];
      SsdpSilentResponse(a, r, b');
      assert (a + [r] + b)[..|a + [r] + b| - 1] == a + [r] + b';
      assert (a + b)[..|a + b| - 1] == a + b';
      assert (a + [r] + b)[|a + [r] + b| - 1] == b[|b| - 1];
      assert (a + b)[|a + b| - 1] == b[|b| - 1];
    }
  }

  // =====================================================================
  // URLs: `urllib.parse.urlsplit` as far as scheme and netloc go

  predicate IsAsciiAlpha(c: char) {
    ('a' <= c <= 'z') || ('A' <= c <= 'Z')
  }

  /** `urllib.parse.scheme_chars`. */
  predicate IsSchemeChar(c: char) {
    IsAsciiAlpha(c) || ('0' <= c <= '9') || c == '+' || c == '-' || c == '.'
  }

  /** The characters urlsplit strips from the front: C0 controls and space. */
  predicate IsC0OrSpace(c: char) {
    c as int <= 0x20
  }

  /** `urllib.parse._UNSAFE_URL_BYTES_TO_REMOVE`. */
  const UnsafeUrlChars: set<char> := {'\t', '\r', '\n'}

  predicate IsUnsafeUrlChar(c: char) {
    c in UnsafeUrlChars
  }

  predicate IsNetlocDelimiter(c: char) {
    c == '/' || c == '?' || c == '#'
  }

  function LStripC0(s: string): (r: string)
    ensures r == [] || !IsC0OrSpace(r[0])
  {
    if s != [] && IsC0OrSpace(s[0]) then LStripC0(s[1..]) else s
  }

  /** Removes every tab, carriage return and line feed and keeps every
      other character, in order. */
  function RemoveUnsafe(s: string): (r: string)
    ensures forall i :: 0 <= i < |r| ==> !IsUnsafeUrlChar(r[i])
    ensures forall c :: c in r <==> c in s && !IsUnsafeUrlChar(c)
  {
    forall c ensures c in DropChars(s, UnsafeUrlChars) <==> c in s && c !in UnsafeUrlChars {
      DropCharsMembers(s, UnsafeUrlChars, c);
    }
    DropChars(s, UnsafeUrlChars)
  }

  /** The removal goes character by character: text is cleaned piece by
      piece, and a single character is dropped exactly when it is a tab,
      carriage return or line feed, so every other character stays, in
      order. */
  lemma RemoveUnsafeInOrder(a: string, b: string, c: char)
    ensures RemoveUnsafe(a + b) == RemoveUnsafe(a) + RemoveUnsafe(b)
    ensures RemoveUnsafe([c]) == if IsUnsafeUrlChar(c) then [] else [c]
  {
    DropCharsAppend(a, b, UnsafeUrlChars);
    DropCharsOne(c, UnsafeUrlChars);
  }

  /** The scheme (lower-cased) and the rest when the text before the first
      colon is a scheme, otherwise `""` and the whole URL. */
  function SplitScheme(url: string): (string, string) {
    match IndexOf(url, ":")
    case Some(i) =>
      IndexOfOccurs(url, ":");
      if i > 0 && IsAsciiAlpha(url[0]) && (forall k :: 0 <= k < i ==> IsSchemeChar(url[k]))
      then (Lower(url[..i]), url[i + 1..])
      else ("", url)
    case None => ("", url)
  }

  /** Index of the first `/`, `?` or `#` at or after `from`, else the length. */
  function NetlocEnd(s: string, from: nat): (e: nat)
    requires from <= |s|
    ensures from <= e <= |s|
    ensures forall k :: from <= k < e ==> !IsNetlocDelimiter(s[k])
    ensures e < |s| ==> IsNetlocDelimiter(s[e])
    decreases |s| - from
  {
    if from == |s| || IsNetlocDelimiter(s[from]) then from else NetlocEnd(s, from + 1)
  }

  datatype UrlParts = UrlParts(scheme: string, netloc: string)

  /** What urllib takes from Python's own libraries: `nfkc` stands for
      `unicodedata.normalize('NFKC', ·)`, `isIpv6` for "`ipaddress.ip_address`
      accepts the text and gives an IPv6 address", and `join` for the URL
      `urljoin` resolves once neither argument makes urlsplit raise. */
  datatype UrlLib = UrlLib(nfkc: string -> string, isIpv6: string -> bool, join: (string, string) -> string)

  /** The class `[a-fA-F0-9]`. */
  predicate IsHexLetter(c: char) {
    ('0' <= c <= '9') || ('a' <= c <= 'f') || ('A' <= c <= 'F')
  }

  /** Index of the first non-hex character at or after `from`. */
  function HexRunEnd(s: string, from: nat): (e: nat)
    requires from <= |s|
    ensures from <= e <= |s|
    ensures forall k :: from <= k < e ==> IsHexLetter(s[k])
    ensures e < |s| ==> !IsHexLetter(s[e])
    decreases |s| - from
  {
    if from < |s| && IsHexLetter(s[from]) then HexRunEnd(s, from + 1) else from
  }

  /** A match of `\Av[a-fA-F0-9]+\..+\Z`: `v`, hex digits, a dot and at least
      one more character, none of them a line feed. */
  predicate IsIpvFuture(host: string) {
    |host| > 0 && host[0] == 'v' &&
    var e := HexRunEnd(host, 1);
    e > 1 && e + 1 < |host| && host[e] == '.' && '\n' !in host[e + 1..]
  }

  /** `netloc.partition('[')[2].partition(']')[0]`. */
  function BracketedHost(netloc: string): string {
    SplitOnce(SplitOnce(netloc, "[").1.GetOr(""), "]").0
  }

  /** `_check_bracketed_host` passes: an IPvFuture literal when the host
      starts with `v`, otherwise an IPv6 address (an IPv4 one raises). */
  predicate BracketedHostOk(host: string, lib: UrlLib) {
    if StartsWith(host, "v") then IsIpvFuture(host) else lib.isIpv6(host)
  }

  predicate IsAsciiText(s: string) {
    forall k :: 0 <= k < |s| ==> s[k] as int < 0x80
  }

  /** `_checknetloc` passes: the netloc is empty or ASCII, or NFKC leaves it
      (less `@`, `:`, `#` and `?`) as it is, or the normalised text contains
      none of `/?#@:`. */
  predicate NetlocNormalizes(netloc: string, lib: UrlLib) {
    netloc == "" || IsAsciiText(netloc) ||
    var n := DropChars(netloc, {'@', ':', '#', '?'});
    var n2 := lib.nfkc(n);
    n == n2 || ('/' !in n2 && '?' !in n2 && '#' !in n2 && '@' !in n2 && ':' !in n2)
  }

  /** The netloc passes every check urlsplit makes: brackets come in pairs
      (else "Invalid IPv6 URL"), the bracketed host is valid, and NFKC
      introduces no delimiter. */
  predicate NetlocAccepted(netloc: string, lib: UrlLib) {
    && Contains(netloc, "[") == Contains(netloc, "]")
    && (Contains(netloc, "[") ==> BracketedHostOk(BracketedHost(netloc), lib))
    && NetlocNormalizes(netloc, lib)
  }

  /** Scheme and netloc of `urlsplit(url)`; None where it raises ValueError. */
  function UrlSplit(url: string, lib: UrlLib): Option<UrlParts> {
    var u := RemoveUnsafe(LStripC0(url));
    var (scheme, rest) := SplitScheme(u);
    if StartsWith(rest, "//") then
      var netloc := rest[2..NetlocEnd(rest, 2)];
      if NetlocAccepted(netloc, lib) then Some(UrlParts(scheme, netloc)) else None
    else Some(UrlParts(scheme, ""))
  }

  /** `urljoin(base, url)`: either text alone when the other is empty;
      otherwise both are split first, so it raises wherever urlsplit does. */
  function UrlJoin(base: string, url: string, lib: UrlLib): Option<string> {
    if base == "" then Some(url)
    else if url == "" then Some(base)
    else if UrlSplit(base, lib).None? || UrlSplit(url, lib).None? then None
    else Some(lib.join(base, url))
  }

  /** `derive_base_url`: the stripped `<URLBase>` when it is absolute, joined
      with the location when it is relative, and `scheme://netloc` of the
      location when it is empty. None where urlparse or urljoin raises. */
  function DeriveBaseUrl(location: string, urlBaseTag: string, lib: UrlLib): Option<string> {
    var tag := Strip(urlBaseTag);
    if tag != "" then
      if StartsWith(Lower(tag), "http") then Some(tag) else UrlJoin(location, tag, lib)
    else
      match UrlSplit(location, lib)
      case None => None
      case Some(p) => Some(p.scheme + "://" + p.netloc)
  }

  lemma RemoveUnsafeNone(s: string)
    requires forall i :: 0 <= i < |s| ==> !IsUnsafeUrlChar(s[i])
    ensures RemoveUnsafe(s) == s
  {
    DropCharsNone(s, UnsafeUrlChars);
  }

  lemma {:induction false} NetlocEndAt(s: string, from: nat, e: nat)
    requires from <= e <= |s|
    requires forall k :: from <= k < e ==> !IsNetlocDelimiter(s[k])
    requires e < |s| ==> IsNetlocDelimiter(s[e])
    ensures NetlocEnd(s, from) == e
    decreases e - from
  {
    if from < e {
      NetlocEndAt(s, from + 1, e);
    }
  }

  predicate SafeUrlText(s: string) {
    forall k :: 0 <= k < |s| ==> !IsUnsafeUrlChar(s[k])
  }

  lemma SafeConcat(a: string, b: string)
    requires SafeUrlText(a) && SafeUrlText(b)
    ensures SafeUrlText(a + b)
  {
    forall k | 0 <= k < |a + b| ensures !IsUnsafeUrlChar((a + b)[k]) {
      if k >= |a| {
        assert (a + b)[k] == b[k - |a|];
      }
    }
  }

  lemma SchemeSplit(scheme: string, after: string)
    requires scheme != [] && IsAsciiAlpha(scheme[0])
    requires forall k :: 0 <= k < |scheme| ==> IsSchemeChar(scheme[k])
    ensures SplitScheme(scheme + ":" + after) == (Lower(scheme), after)
  {
    var url := scheme + ":" + after;
    forall k | 0 <= k < |scheme| ensures url[k] != ':' {
      assert url[k] == scheme[k];
    }
    assert url[|scheme|] == ':';
    IndexOfChar(url, ':', |scheme|);
    assert url[..|scheme|] == scheme;
    assert url[|scheme| + 1..] == after;
  }

  lemma NetlocSplit(host: string, rest: string)
    requires forall k :: 0 <= k < |host| ==> !IsNetlocDelimiter(host[k])
    requires rest == [] || IsNetlocDelimiter(rest[0])
    ensures var after := "//" + host + rest;
      StartsWith(after, "//") && NetlocEnd(after, 2) == 2 + |host| && after[2..2 + |host|] == host
  {
    var after := "//" + host + rest;
    forall k | 2 <= k < 2 + |host| ensures !IsNetlocDelimiter(after[k]) {
      assert after[k] == host[k - 2];
    }
    if 2 + |host| < |after| {
      assert after[2 + |host|] == rest[0];
    }
    NetlocEndAt(after, 2, 2 + |host|);
    assert after[2..2 + |host|] == host;
    assert after[..2] == "//";
  }

  /** The fallback base of a `scheme://host/path` location is
      `scheme://host`, the scheme lower-cased, when urlparse accepts the host
      (paired brackets around a valid IPv6 or IPvFuture literal, and no
      delimiter introduced by NFKC); otherwise urlparse raises. */
  lemma LocationFallback(scheme: string, host: string, rest: string, lib: UrlLib)
    requires scheme != [] && IsAsciiAlpha(scheme[0])
    requires forall k :: 0 <= k < |scheme| ==> IsSchemeChar(scheme[k])
    requires forall k :: 0 <= k < |host| ==> !IsNetlocDelimiter(host[k])
    requires rest == [] || IsNetlocDelimiter(rest[0])
    requires SafeUrlText(scheme) && SafeUrlText(host) && SafeUrlText(rest)
    ensures DeriveBaseUrl(scheme + "://" + host + rest, "", lib)
            == if NetlocAccepted(host, lib) then Some(Lower(scheme) + "://" + host) else None
  {
    var after := "//" + host + rest;
    var loc := scheme + ":" + after;
    assert loc == scheme + "://" + host + rest;
    SafeConcat("//", host);
    SafeConcat("//" + host, rest);
    SafeConcat(scheme, ":");
    SafeConcat(scheme + ":", after);
    assert loc[0] == scheme[0];
    assert LStripC0(loc) == loc;
    RemoveUnsafeNone(loc);
    SchemeSplit(scheme, after);
    NetlocSplit(host, rest);
    assert Strip("") == "";
  }


  /** The case `_checknetloc` exists for: a host such as U+2100, which NFKC
      expands to `a/c`, makes urlparse raise, so no fallback base exists. */
  lemma NfkcExpansionRaises(lib: UrlLib)
    requires lib.nfkc("\U{2100}") == "a/c"
    ensures DeriveBaseUrl("http://\U{2100}/x", "", lib) == None
  {
    var host := "\U{2100}";
    assert !NetlocNormalizes(host, lib) by {
      DropCharsNone(host, {'@', ':', '#', '?'});
      assert host[0] as int >= 0x80;
      assert "a/c"[1] == '/';
    }
    assert "http" + "://" + host + "/x" == "http://\U{2100}/x";
    LocationFallback("http", host, "/x", lib);
  }

  // =====================================================================
  // Device description

  datatype Icon = Icon(mimetype: string, width: string, height: string, depth: string, url: string)

  datatype Service = Service(
    serviceType: string, serviceId: string, controlURL: string, eventSubURL: string, scpdUrl: string)

  /** The record `parse_device_description` returns: `fields` holds the
      eight text entries keyed by their tag. */
  datatype DeviceInfo = DeviceInfo(
    fields: map<string, string>, iconList: seq<Icon>, services: seq<Service>, resolvedBase: string)

  /** None from `parse_device_description` (the XML did not parse), an
      exception from urlsplit, or the record. */
  datatype DescOutcome = Malformed | Raises | Described(info: DeviceInfo)

  const DeviceTags: seq<string> := [
    "deviceType", "friendlyName", "manufacturer", "modelName", "UDN",
    "modelNumber", "serialNumber", "presentationURL"]

  function EmptyFields(): (m: map<string, string>)
    ensures m.Keys == set t | t in DeviceTags
  {
    map t | t in DeviceTags :: ""
  }

  function DefaultInfo(base: string): DeviceInfo {
    DeviceInfo(EmptyFields(), [], [], base)
  }

  /** The `<URLBase>` child's text, or `""`. */
  function UrlBaseText(root: Element): string {
    TruthyText(Find(root, AnyNs("URLBase"))).GetOr("")
  }

  /** One of the eight fields: the stripped text of the first element below
      the device with that tag, or `""` when it is missing or has no text. */
  function TagValue(device: Element, tag: string): string {
    match TruthyText(FindBelow(device, AnyNs(tag)))
    case Some(t) => Strip(t)
    case None => ""
  }

  function IconOf(icon: Element): Icon {
    Icon(FieldText(icon, AnyNs("mimetype")), FieldText(icon, AnyNs("width")),
         FieldText(icon, AnyNs("height")), FieldText(icon, AnyNs("depth")),
         FieldText(icon, AnyNs("url")))
  }

  function ServiceOf(service: Element): Service {
    Service(FieldText(service, AnyNs("serviceType")), FieldText(service, AnyNs("serviceId")),
            FieldText(service, AnyNs("controlURL")), FieldText(service, AnyNs("eventSubURL")),
            FieldText(service, AnyNs("SCPDURL")))
  }

  function Icons(elems: seq<Element>): (r: seq<Icon>)
    ensures |r| == |elems|
  {
    if elems == [] then [] else Icons(elems[..|elems| - 1]) + [IconOf(elems[|elems| - 1])]
  }

  lemma IconsStep(elems: seq<Element>, k: nat)
    requires k < |elems|
    ensures Icons(elems[..k + 1]) == Icons(elems[..k]) + [IconOf(elems[k])]
  {
    var prefix := elems[..k + 1];
    assert |prefix| == k + 1 && prefix[..k] == elems[..k] && prefix[k] == elems[k];
    assert Icons(prefix) == Icons(prefix[..k]) + [IconOf(prefix[k])];
  }

  function Services(elems: seq<Element>): (r: seq<Service>)
    ensures |r| == |elems|
  {
    if elems == [] then [] else Services(elems[..|elems| - 1]) + [ServiceOf(elems[|elems| - 1])]
  }

  lemma ServicesStep(elems: seq<Element>, k: nat)
    requires k < |elems|
    ensures Services(elems[..k + 1]) == Services(elems[..k]) + [ServiceOf(elems[k])]
  {
    var prefix := elems[..k + 1];
    assert |prefix| == k + 1 && prefix[..k] == elems[..k] && prefix[k] == elems[k];
    assert Services(prefix) == Services(prefix[..k]) + [ServiceOf(prefix[k])];
  }

  /** The `<icon>` children of the first `<iconList>` below the device. */
  function IconElems(device: Element): seq<Element> {
    match FindBelow(device, AnyNs("iconList"))
    case None => []
    case Some(l) => FindAll(l, AnyNs("icon"))
  }

  function ServiceElems(device: Element): seq<Element> {
    match FindBelow(device, AnyNs("serviceList"))
    case None => []
    case Some(l) => FindAll(l, AnyNs("service"))
  }

  /** The eight text fields of a `<device>` element. */
  function DeviceFields(device: Element): (m: map<string, string>)
    ensures m.Keys == set t | t in DeviceTags
  {
    map t | t in DeviceTags :: TagValue(device, t)
  }

  /** What is read from a `<device>` element that has children. */
  function DeviceRecord(device: Element, base: string): DeviceInfo {
    DeviceInfo(DeviceFields(device), Icons(IconElems(device)), Services(ServiceElems(device)), base)
  }

  /** The result of `parse_device_description`; `parse` stands for
      `ET.fromstring` (None for a parse error). `Raises` is the ValueError
      of urlparse or urljoin, which the function does not catch. */
  function DeviceDescription(xmlData: string, location: string,
                             parse: string -> Option<Element>, lib: UrlLib): DescOutcome
  {
    match parse(xmlData)
    case None => Malformed
    case Some(root) =>
      match DeriveBaseUrl(location, UrlBaseText(root), lib)
      case None => Raises
      case Some(base) =>
        var device := FindBelow(root, AnyNs("device"));
        if device.None? || !Truthy(device.value) then Described(DefaultInfo(base))
        else Described(DeviceRecord(device.value, base))
  }

  /** `fields` after the loop over the first `k` device tags. */
  ghost predicate FieldsAfter(fields: map<string, string>, device: Element, k: nat)
    requires k <= |DeviceTags|
  {
    && fields.Keys == set t | t in DeviceTags
    && forall t :: t in fields ==> fields[t] == (if t in DeviceTags[..k] then TagValue(device, t) else "")
  }

  lemma FieldsStep(fields: map<string, string>, device: Element, k: nat)
    requires k < |DeviceTags| && FieldsAfter(fields, device, k)
    ensures var tag := DeviceTags[k];
      FieldsAfter(if TruthyText(FindBelow(device, AnyNs(tag))).Some?
                  then fields[tag := Strip(TruthyText(FindBelow(device, AnyNs(tag))).value)]
                  else fields, device, k + 1)
  {
    assert DeviceTags[..k + 1] == DeviceTags[..k] + [DeviceTags[k]];
  }

  lemma FieldsDone(fields: map<string, string>, device: Element)
    requires FieldsAfter(fields, device, |DeviceTags|)
    ensures fields == DeviceFields(device)
  {
    assert DeviceTags[..|DeviceTags|] == DeviceTags;
  }

  /** The eight text fields of a device with children. */
  method ReadDeviceFields(device: Element) returns (fields: map<string, string>)
    ensures fields == DeviceFields(device)
  {
    fields := EmptyFields();
    for k := 0 to |DeviceTags|
      invariant FieldsAfter(fields, device, k)
    {
      FieldsStep(fields, device, k);
      var tag := DeviceTags[k];
      var elem := FindBelow(device, AnyNs(tag));
      if elem.Some? && elem.value.text.Some? && elem.value.text.value != "" {
        fields := fields[tag := Strip(elem.value.text.value)];
      }
    }
    FieldsDone(fields, device);
  }

  method ReadIcons(device: Element) returns (iconList: seq<Icon>)
    ensures iconList == Icons(IconElems(device))
  {
    iconList := [];
    var iconListElem := FindBelow(device, AnyNs("iconList"));
    if iconListElem.Some? {
      iconList := ReadIconList(FindAll(iconListElem.value, AnyNs("icon")));
    }
  }

  /** The loop over the `<icon>` elements. */
  method ReadIconList(icons: seq<Element>) returns (iconList: seq<Icon>)
    ensures iconList == Icons(icons)
  {
    iconList := [];
    for k := 0 to |icons|
      invariant iconList == Icons(icons[..k])
    {
      IconsStep(icons, k);
      iconList := iconList + [IconOf(icons[k])];
    }
    assert icons[..|icons|] == icons;
  }

  method ReadServices(device: Element) returns (services: seq<Service>)
    ensures services == Services(ServiceElems(device))
  {
    services := [];
    var serviceListElem := FindBelow(device, AnyNs("serviceList"));
    if serviceListElem.Some? {
      services := ReadServiceList(FindAll(serviceListElem.value, AnyNs("service")));
    }
  }

  /** The loop over the `<service>` elements. */
  method ReadServiceList(elems: seq<Element>) returns (services: seq<Service>)
    ensures services == Services(elems)
  {
    services := [];
    for k := 0 to |elems|
      invariant services == Services(elems[..k])
    {
      ServicesStep(elems, k);
      services := services + [ServiceOf(elems[k])];
    }
    assert elems[..|elems|] == elems;
  }

  /** `parse_device_description`. */
  method ParseDeviceDescription(xmlData: string, location: string,
                                parse: string -> Option<Element>, lib: UrlLib)
    returns (r: DescOutcome)
    ensures r == DeviceDescription(xmlData, location, parse, lib)
  {
    var doc := parse(xmlData);
    if doc.None? {
      return Malformed;
    }
    var root := doc.value;
    var urlBaseElem := Find(root, AnyNs("URLBase"));
    var urlBaseTag := if urlBaseElem.Some? && urlBaseElem.value.text.Some? && urlBaseElem.value.text.value != ""
                      then urlBaseElem.value.text.value else "";
    var base := DeriveBaseUrl(location, urlBaseTag, lib);
    if base.None? {
      return Raises;
    }
    var deviceElem := FindBelow(root, AnyNs("device"));
    if deviceElem.None? || !Truthy(deviceElem.value) {
      return Described(DeviceInfo(EmptyFields(), [], [], base.value));
    }
    var fields := ReadDeviceFields(deviceElem.value);
    var iconList := ReadIcons(deviceElem.value);
    var services := ReadServices(deviceElem.value);
    r := Described(DeviceInfo(fields, iconList, services, base.value));
  }

  /** A description whose `<URLBase>` is absolute (starts with `http` in any
      case once stripped) is described with that base, stripped and
      verbatim; the location and urllib play no part at all. */
  lemma AbsoluteUrlBase(xmlData: string, location: string, location': string,
                        parse: string -> Option<Element>, lib: UrlLib, lib': UrlLib)
    requires parse(xmlData).Some?
    requires StartsWith(Lower(Strip(UrlBaseText(parse(xmlData).value))), "http")
    ensures DeviceDescription(xmlData, location, parse, lib).Described?
    ensures DeviceDescription(xmlData, location, parse, lib).info.resolvedBase
            == Strip(UrlBaseText(parse(xmlData).value))
    ensures DeviceDescription(xmlData, location, parse, lib) == DeviceDescription(xmlData, location', parse, lib')
  {
    var root := parse(xmlData).value;
    var tag := Strip(UrlBaseText(root));
    assert |Lower(tag)| == |tag|;
    assert DeriveBaseUrl(location, UrlBaseText(root), lib) == Some(tag);
    assert DeriveBaseUrl(location', UrlBaseText(root), lib') == Some(tag);
    var device := FindBelow(root, AnyNs("device"));
    var described := if device.None? || !Truthy(device.value) then Described(DefaultInfo(tag))
                     else Described(DeviceRecord(device.value, tag));
    assert DeviceDescription(xmlData, location, parse, lib) == described;
    assert DeviceDescription(xmlData, location', parse, lib') == described;
  }

  /** Every parsed description carries a resolved base, and only a parse
      error yields None. */
  lemma DescriptionHasBase(xmlData: string, location: string,
                           parse: string -> Option<Element>, lib: UrlLib)
    ensures DeviceDescription(xmlData, location, parse, lib).Malformed? <==> parse(xmlData).None?
    ensures parse(xmlData).Some? && DeriveBaseUrl(location, UrlBaseText(parse(xmlData).value), lib).Some? ==>
              DeviceDescription(xmlData, location, parse, lib)
              == Described(DeviceDescription(xmlData, location, parse, lib).info)
              && DeviceDescription(xmlData, location, parse, lib).info.resolvedBase
                 == DeriveBaseUrl(location, UrlBaseText(parse(xmlData).value), lib).value
    ensures DeviceDescription(xmlData, location, parse, lib).Described? ==>
              DeviceDescription(xmlData, location, parse, lib).info.fields.Keys == set t | t in DeviceTags
  {
    if parse(xmlData).Some? {
      var root := parse(xmlData).value;
      var base := DeriveBaseUrl(location, UrlBaseText(root), lib);
      if base.Some? {
        var device := FindBelow(root, AnyNs("device"));
        if device.None? || !Truthy(device.value) {
          assert DeviceDescription(xmlData, location, parse, lib) == Described(DefaultInfo(base.value));
        } else {
          assert DeviceDescription(xmlData, location, parse, lib) == Described(DeviceRecord(device.value, base.value));
        }
      }
    }
  }

  /** Reading a childless `<device>` yields the all-default record, so the
      truthiness test that skips such a device changes nothing. */
  lemma ChildlessDeviceIsDefault(device: Element, base: string)
    requires !Truthy(device)
    ensures DeviceRecord(device, base) == DefaultInfo(base)
  {
    NoChildrenNoDescendants(device);
    assert IconElems(device) == [] && ServiceElems(device) == [];
    forall t | t in DeviceTags ensures TagValue(device, t) == "" {
    }
  }

  /** The icons are read in document order, one record per `<icon>`, each
      field the stripped text of its child or `""`. */
  lemma {:induction false} IconsInOrder(elems: seq<Element>, i: nat)
    requires i < |elems|
    ensures Icons(elems)[i] == IconOf(elems[i])
    ensures Strip(Icons(elems)[i].url) == Icons(elems)[i].url
  {
    if i < |elems| - 1 {
      IconsInOrder(elems[..|elems| - 1], i);
    }
    StripIdempotent(FindText(elems[i], AnyNs("url"), ""));
  }

  lemma {:induction false} ServicesInOrder(elems: seq<Element>, i: nat)
    requires i < |elems|
    ensures Services(elems)[i] == ServiceOf(elems[i])
    ensures Find(elems[i], AnyNs("controlURL")).None? ==> Services(elems)[i].controlURL == ""
  {
    if i < |elems| - 1 {
      ServicesInOrder(elems[..|elems| - 1], i);
    }
    assert Strip("") == "";
  }

  // =====================================================================
  // Service description (SCPD)

  datatype Argument = Argument(name: string, direction: string, relatedStateVariable: string)

  datatype Action = Action(name: string, arguments: seq<Argument>)

  /** The action name as `parse_scpd` computes it: None where it raises,
      which is when `<name>` is present but has no text. */
  function ActionNameAsWritten(action: Element): Option<string> {
    match Find(action, AnyNs("name"))
    case None => Some("UnnamedAction")
    case Some(n) => if n.text.None? then None else Some(Strip(n.text.value))
  }

  /** The action name with a text-less `<name/>` treated like a missing one. */
  function ActionName(action: Element): string {
    match Find(action, AnyNs("name"))
    case None => "UnnamedAction"
    case Some(n) => if n.text.None? then "UnnamedAction" else Strip(n.text.value)
  }

  /** `<action><name/></action>` makes the code as written raise. */
  lemma NamelessActionRaises()
    ensures ActionNameAsWritten(Element(None, "action", map[], None, [Element(None, "name", map[], None, [])])).None?
  {
  }

  /** The corrected name agrees with the code wherever the code returns, and
      labels the failing case `UnnamedAction`. */
  lemma ActionNameAgrees(action: Element)
    ensures ActionNameAsWritten(action).Some? ==> ActionName(action) == ActionNameAsWritten(action).value
    ensures ActionNameAsWritten(action).None? ==> ActionName(action) == "UnnamedAction"
    ensures ActionName(action) == "UnnamedAction" || Strip(ActionName(action)) == ActionName(action)
  {
    if Find(action, AnyNs("name")).Some? && Find(action, AnyNs("name")).value.text.Some? {
      StripIdempotent(Find(action, AnyNs("name")).value.text.value);
    }
  }

  function ArgumentOf(arg: Element): Argument {
    Argument(FieldText(arg, AnyNs("name")), FieldText(arg, AnyNs("direction")),
             FieldText(arg, AnyNs("relatedStateVariable")))
  }

  function Arguments(elems: seq<Element>): (r: seq<Argument>)
    ensures |r| == |elems|
  {
    if elems == [] then [] else Arguments(elems[..|elems| - 1]) + [ArgumentOf(elems[|elems| - 1])]
  }

  lemma ArgumentsStep(elems: seq<Element>, k: nat)
    requires k < |elems|
    ensures Arguments(elems[..k + 1]) == Arguments(elems[..k]) + [ArgumentOf(elems[k])]
  {
    var prefix := elems[..k + 1];
    assert |prefix| == k + 1 && prefix[..k] == elems[..k] && prefix[k] == elems[k];
    assert Arguments(prefix) == Arguments(prefix[..k]) + [ArgumentOf(prefix[k])];
  }

  function ArgumentElems(action: Element): seq<Element> {
    match Find(action, AnyNs("argumentList"))
    case None => []
    case Some(l) => FindAll(l, AnyNs("argument"))
  }

  function ActionOf(action: Element): Action {
    Action(ActionName(action), Arguments(ArgumentElems(action)))
  }

  function Actions(elems: seq<Element>): (r: seq<Action>)
    ensures |r| == |elems|
  {
    if elems == [] then [] else Actions(elems[..|elems| - 1]) + [ActionOf(elems[|elems| - 1])]
  }

  /** The `<action>` children of the first `<actionList>` in the document,
      or nothing when the input is empty or does not parse. */
  function ActionElems(scpdXml: string, parse: string -> Option<Element>): seq<Element> {
    if scpdXml == "" then []
    else
      match parse(scpdXml)
      case None => []
      case Some(root) =>
        match FindBelow(root, AnyNs("actionList"))
        case None => []
        case Some(l) => FindAll(l, AnyNs("action"))
  }

  function ScpdActions(scpdXml: string, parse: string -> Option<Element>): seq<Action> {
    Actions(ActionElems(scpdXml, parse))
  }

  /** The arguments of one action, in document order. */
  method ReadArguments(actionElem: Element) returns (argList: seq<Argument>)
    ensures argList == Arguments(ArgumentElems(actionElem))
  {
    argList := [];
    var argumentListElem := Find(actionElem, AnyNs("argumentList"));
    if argumentListElem.Some? {
      argList := ReadArgumentList(FindAll(argumentListElem.value, AnyNs("argument")));
    }
  }

  /** The loop over the `<argument>` elements. */
  method ReadArgumentList(args: seq<Element>) returns (argList: seq<Argument>)
    ensures argList == Arguments(args)
  {
    argList := [];
    for m := 0 to |args|
      invariant argList == Arguments(args[..m])
    {
      ArgumentsStep(args, m);
      argList := argList + [ArgumentOf(args[m])];
    }
    assert args[..|args|] == args;
  }

  /** The actions of an `<actionList>`, in document order. */
  method ReadActions(elems: seq<Element>) returns (actions: seq<Action>)
    ensures actions == Actions(elems)
  {
    actions := [];
    for k := 0 to |elems|
      invariant actions == Actions(elems[..k])
    {
      var name := ActionName(elems[k]);
      var argList := ReadArguments(elems[k]);
      actions := actions + [Action(name, argList)];
      assert elems[..k + 1][..k] == elems[..k];
    }
    assert elems[..|elems|] == elems;
  }

  /** `parse_scpd`, with the corrected action name. */
  method ParseScpd(scpdXml: string, parse: string -> Option<Element>) returns (actions: seq<Action>)
    ensures actions == ScpdActions(scpdXml, parse)
  {
    actions := [];
    if scpdXml == "" {
      return;
    }
    var doc := parse(scpdXml);
    if doc.None? {
      return;
    }
    var actionList := FindBelow(doc.value, AnyNs("actionList"));
    if actionList.Some? {
      actions := ReadActions(FindAll(actionList.value, AnyNs("action")));
    }
  }

  /** Empty input, a parse error or a missing `<actionList>` give no actions;
      otherwise there is one action per `<action>`, in document order. */
  lemma {:induction false} ScpdActionsInOrder(scpdXml: string, parse: string -> Option<Element>, i: nat)
    ensures |ScpdActions(scpdXml, parse)| == |ActionElems(scpdXml, parse)|
    ensures scpdXml == "" || parse(scpdXml).None? ==> ScpdActions(scpdXml, parse) == []
    ensures i < |ActionElems(scpdXml, parse)| ==>
              ScpdActions(scpdXml, parse)[i] == ActionOf(ActionElems(scpdXml, parse)[i])
  {
    if i < |ActionElems(scpdXml, parse)| {
      ActionsAt(ActionElems(scpdXml, parse), i);
    }
  }

  lemma {:induction false} ActionsAt(elems: seq<Element>, i: nat)
    requires i < |elems|
    ensures Actions(elems)[i] == ActionOf(elems[i])
  {
    if i < |elems| - 1 {
      ActionsAt(elems[..|elems| - 1], i);
    }
  }

  /** Every argument field is stripped text. */
  lemma {:induction false} ArgumentsStripped(elems: seq<Element>, i: nat)
    requires i < |elems|
    ensures Arguments(elems)[i] == ArgumentOf(elems[i])
    ensures var a := Arguments(elems)[i];
      Strip(a.name) == a.name && Strip(a.direction) == a.direction
      && Strip(a.relatedStateVariable) == a.relatedStateVariable
  {
    if i < |elems| - 1 {
      ArgumentsStripped(elems[..|elems| - 1], i);
    }
    StripIdempotent(FindText(elems[i], AnyNs("name"), ""));
    StripIdempotent(FindText(elems[i], AnyNs("direction"), ""));
    StripIdempotent(FindText(elems[i], AnyNs("relatedStateVariable"), ""));
  }

  // =====================================================================
  // SOAP 1.1 requests

  /** The `SOAPAction` header value. */
  function SoapActionHeader(serviceType: string, action: string): string {
    serviceType + "#" + action
  }

  const SoapContentType: string := "text/xml; charset=utf-8"

  const SoapEnvelopeNs: string := "http://schemas.xmlsoap.org/soap/envelope/"
  const SoapEncodingNs: string := "http://schemas.xmlsoap.org/soap/encoding/"

  function SoapEnvelopeLines(action: string, serviceType: string, body: string): seq<string> {
    [ "<?xml version=\"1.0\"?>",
      "<s:Envelope",
      "    xmlns:s=\"" + SoapEnvelopeNs + "\"",
      "    s:encodingStyle=\"" + SoapEncodingNs + "\">",
      "  <s:Body>",
      "    <u:" + action + " xmlns:u=\"" + serviceType + "\">",
      "      " + body,
      "    </u:" + action + ">",
      "  </s:Body>",
      "</s:Envelope>" ]
  }

  /** The envelope text: the template lines, each ended by a newline. */
  function SoapEnvelope(action: string, serviceType: string, body: string): string {
    Join(SoapEnvelopeLines(action, serviceType, body) + [""], "\n")
  }

  datatype SoapRequest = SoapRequest(url: string, data: string, headers: map<string, string>)

  function BuildSoapRequest(controlUrl: string, serviceType: string, action: string, body: string): SoapRequest {
    SoapRequest(controlUrl, SoapEnvelope(action, serviceType, body),
                map["Content-Type" := SoapContentType, "SOAPAction" := SoapActionHeader(serviceType, action)])
  }

  /** What `requests.post` produced: a transport error, or a status and text. */
  datatype HttpOutcome = TransportError | HttpResponse(status: int, text: string)

  /** `soap_call`; `post` stands for the HTTP exchange. */
  function SoapCall(controlUrl: string, serviceType: string, action: string, body: string,
                    post: SoapRequest -> HttpOutcome): Option<string>
  {
    match post(BuildSoapRequest(controlUrl, serviceType, action, body))
    case HttpResponse(status, text) => if status == 200 then Some(text) else None
    case TransportError => None
  }

  /** The service type and the action are recovered from the header by
      splitting at the first `#`, since service-type URNs contain none. */
  lemma SoapActionRoundTrip(serviceType: string, action: string)
    requires forall i :: 0 <= i < |serviceType| ==> serviceType[i] != '#'
    ensures SplitOnce(SoapActionHeader(serviceType, action), "#") == (serviceType, Some(action))
  {
    var h := SoapActionHeader(serviceType, action);
    assert h[|serviceType|] == '#';
    forall j | 0 <= j < |serviceType| ensures h[j] != '#' {
      assert h[j] == serviceType[j];
    }
    IndexOfChar(h, '#', |serviceType|);
    SplitOnceAt(h, "#", |serviceType|);
    assert h[..|serviceType|] == serviceType;
    assert h[|serviceType| + 1..] == action;
  }

  predicate NoNewline(s: string) {
    '\n' !in s
  }

  lemma EnvelopeLinesNoNewline(action: string, serviceType: string, body: string)
    requires NoNewline(action) && NoNewline(serviceType) && NoNewline(body)
    ensures forall i :: 0 <= i < |SoapEnvelopeLines(action, serviceType, body)| ==>
              NoNewline(SoapEnvelopeLines(action, serviceType, body)[i])
  {
    var ls := SoapEnvelopeLines(action, serviceType, body);
    NamespacesNoNewline();
    forall i | 0 <= i < |ls| ensures NoNewline(ls[i]) {
      if i == 2 {
        NoNewlineConcat("    xmlns:s=\"", SoapEnvelopeNs);
        NoNewlineConcat("    xmlns:s=\"" + SoapEnvelopeNs, "\"");
      } else if i == 3 {
        NoNewlineConcat("    s:encodingStyle=\"", SoapEncodingNs);
        NoNewlineConcat("    s:encodingStyle=\"" + SoapEncodingNs, "\">");
      } else if i == 5 {
        NoNewlineConcat("    <u:", action);
        NoNewlineConcat("    <u:" + action, " xmlns:u=\"");
        NoNewlineConcat("    <u:" + action + " xmlns:u=\"", serviceType);
        NoNewlineConcat("    <u:" + action + " xmlns:u=\"" + serviceType, "\">");
      } else if i == 6 {
        NoNewlineConcat("      ", body);
      } else if i == 7 {
        NoNewlineConcat("    </u:", action);
        NoNewlineConcat("    </u:" + action, ">");
      }
    }
  }

  lemma NamespacesNoNewline()
    ensures NoNewline(SoapEnvelopeNs) && NoNewline(SoapEncodingNs)
  {
    EnvelopeNsNoNewline();
  }

  lemma EnvelopeNsNoNewline()
    ensures NoNewline(SoapEnvelopeNs)
  {
  }

  lemma NoNewlineConcat(a: string, b: string)
    requires NoNewline(a) && NoNewline(b)
    ensures NoNewline(a + b)
  {
    assert forall c :: c in a + b ==> c in a || c in b;
  }

  /** Splitting the envelope at newlines gives back the template lines (and
      the empty text after the final newline), so the body is a line of its
      own when it has no newline. */
  lemma SoapEnvelopeLinesRoundTrip(action: string, serviceType: string, body: string)
    requires NoNewline(action) && NoNewline(serviceType) && NoNewline(body)
    ensures Split(SoapEnvelope(action, serviceType, body), "\n")
            == SoapEnvelopeLines(action, serviceType, body) + [""]
  {
    var lines := SoapEnvelopeLines(action, serviceType, body);
    EnvelopeLinesNoNewline(action, serviceType, body);
    var parts := lines + [""];
    forall i | 0 <= i < |parts| - 1 ensures IndexOf(parts[i] + "\n", "\n") == Some(|parts[i]|) {
      assert parts[i] == lines[i];
      NotContainsChar(parts[i], '\n');
      SingleCharSepFirst(parts[i], '\n');
    }
    NotContainsChar("", '\n');
    JoinSplit(parts, "\n");
  }

  // =====================================================================
  // Internet gateway helpers

  /** The gate of both helpers: a WAN IP or WAN PPP connection service. */
  predicate IsIgdService(serviceType: string) {
    Contains(serviceType, "WANIPConnection") || Contains(serviceType, "WANPPPConnection")
  }

  /** The control URL, joined to `base + "/"` when it is not absolute; None
      where urljoin raises. */
  function ControlTarget(controlUrl: string, base: string, lib: UrlLib): Option<string> {
    if StartsWith(Lower(controlUrl), "http") then Some(controlUrl) else UrlJoin(base + "/", controlUrl, lib)
  }

  /** What a helper reports. `ExternalIp(None)` is a response without an
      address; in `PortMapping` each field is None when the element is
      missing and otherwise holds the element's text. */
  datatype SoapReport =
    | Skipped
    | UrlRaises
    | NoAnswer
    | BadResponse
    | ExternalIp(ip: Option<string>)
    | PortMapping(externalPort: Option<Option<string>>, internalClient: Option<Option<string>>)

  const PortMappingBody: string := "<NewPortMappingIndex>0</NewPortMappingIndex>"

  function ElementText(e: Option<Element>): Option<Option<string>> {
    if e.Some? then Some(e.value.text) else None
  }

  /** `attempt_get_external_ip`. */
  function AttemptGetExternalIp(service: Service, base: string, lib: UrlLib,
                                post: SoapRequest -> HttpOutcome, parse: string -> Option<Element>): SoapReport
  {
    if !IsIgdService(service.serviceType) then Skipped
    else
      match ControlTarget(service.controlURL, base, lib)
      case None => UrlRaises
      case Some(url) =>
      match SoapCall(url, service.serviceType, "GetExternalIPAddress", "", post)
      case None => NoAnswer
      case Some(text) =>
        if text == "" then NoAnswer
        else
          match parse(text)
          case None => BadResponse
          case Some(root) => ExternalIp(TruthyText(FindBelow(root, AnyNs("NewExternalIPAddress"))))
  }

  /** `attempt_get_port_mapping`. */
  function AttemptGetPortMapping(service: Service, base: string, lib: UrlLib,
                                 post: SoapRequest -> HttpOutcome, parse: string -> Option<Element>): SoapReport
  {
    if !IsIgdService(service.serviceType) then Skipped
    else
      match ControlTarget(service.controlURL, base, lib)
      case None => UrlRaises
      case Some(url) =>
      match SoapCall(url, service.serviceType, "GetGenericPortMappingEntry", PortMappingBody, post)
      case None => NoAnswer
      case Some(text) =>
        if text == "" then NoAnswer
        else
          match parse(text)
          case None => BadResponse
          case Some(root) =>
            PortMapping(ElementText(FindBelow(root, AnyNs("NewExternalPort"))),
                        ElementText(FindBelow(root, AnyNs("NewInternalClient"))))
  }

  /** A service that is not a WAN connection is skipped without any request:
      the report does not depend on the HTTP exchange at all. */
  lemma NonIgdServiceSkipped(service: Service, base: string, lib: UrlLib,
                             post1: SoapRequest -> HttpOutcome, post2: SoapRequest -> HttpOutcome,
                             parse: string -> Option<Element>)
    requires !IsIgdService(service.serviceType)
    ensures AttemptGetExternalIp(service, base, lib, post1, parse) == Skipped
    ensures AttemptGetPortMapping(service, base, lib, post2, parse) == Skipped
  {
  }

  /** urljoin raises for a relative, non-empty control URL when it or
      `base + "/"` fails urlsplit. */
  predicate ControlJoinRaises(controlUrl: string, base: string, lib: UrlLib) {
    && !StartsWith(Lower(controlUrl), "http") && controlUrl != ""
    && (UrlSplit(base + "/", lib).None? || UrlSplit(controlUrl, lib).None?)
  }

  /** The one request a WAN helper posts for `action`: to the control URL
      when it starts with `http` in any case, to `base + "/"` when it is
      empty, and otherwise to its resolution against `base + "/"`; carrying
      the envelope for `action` and the headers `Content-Type` and
      `SOAPAction: serviceType#action`. */
  predicate IsControlRequest(req: SoapRequest, service: Service, base: string, lib: UrlLib,
                             action: string, body: string)
  {
    var c := service.controlURL;
    && req.url == (if StartsWith(Lower(c), "http") then c
                   else if c == "" then base + "/"
                   else lib.join(base + "/", c))
    && req.data == SoapEnvelope(action, service.serviceType, body)
    && req.headers == map["Content-Type" := "text/xml; charset=utf-8",
                          "SOAPAction" := service.serviceType + "#" + action]
  }

  /** `attempt_get_external_ip` on a WAN service: urljoin raises, or the one
      request is posted; a transport error, a status other than 200 or an
      empty text gives no answer, text that does not parse a parse error,
      and otherwise the report carries the non-empty text of the first
      `NewExternalIPAddress` element, if any. */
  lemma ExternalIpReport(service: Service, base: string, lib: UrlLib, req: SoapRequest,
                         post: SoapRequest -> HttpOutcome, parse: string -> Option<Element>)
    requires IsIgdService(service.serviceType)
    requires IsControlRequest(req, service, base, lib, "GetExternalIPAddress", "")
    ensures var o := post(req);
      AttemptGetExternalIp(service, base, lib, post, parse)
      == if ControlJoinRaises(service.controlURL, base, lib) then UrlRaises
         else if !(o.HttpResponse? && o.status == 200 && o.text != "") then NoAnswer
         else if parse(o.text).None? then BadResponse
         else ExternalIp(TruthyText(FindBelow(parse(o.text).value, AnyNs("NewExternalIPAddress"))))
  {
    SentRequest(service, base, lib, req, "GetExternalIPAddress", "");
  }

  /** `attempt_get_port_mapping` on a WAN service, alike: the report carries,
      for each of `NewExternalPort` and `NewInternalClient`, whether the
      element is present and its text. */
  lemma PortMappingReport(service: Service, base: string, lib: UrlLib, req: SoapRequest,
                          post: SoapRequest -> HttpOutcome, parse: string -> Option<Element>)
    requires IsIgdService(service.serviceType)
    requires IsControlRequest(req, service, base, lib, "GetGenericPortMappingEntry",
                              "<NewPortMappingIndex>0</NewPortMappingIndex>")
    ensures var o := post(req);
      AttemptGetPortMapping(service, base, lib, post, parse)
      == if ControlJoinRaises(service.controlURL, base, lib) then UrlRaises
         else if !(o.HttpResponse? && o.status == 200 && o.text != "") then NoAnswer
         else if parse(o.text).None? then BadResponse
         else
           var root := parse(o.text).value;
           var port := FindBelow(root, AnyNs("NewExternalPort"));
           var client := FindBelow(root, AnyNs("NewInternalClient"));
           PortMapping(if port.Some? then Some(port.value.text) else None,
                       if client.Some? then Some(client.value.text) else None)
  {
    SentRequest(service, base, lib, req, "GetGenericPortMappingEntry", PortMappingBody);
  }

  /** The control target and the request built for it. */
  lemma SentRequest(service: Service, base: string, lib: UrlLib, req: SoapRequest, action: string, body: string)
    requires IsControlRequest(req, service, base, lib, action, body)
    ensures ControlTarget(service.controlURL, base, lib).None? <==> ControlJoinRaises(service.controlURL, base, lib)
    ensures ControlTarget(service.controlURL, base, lib).Some? ==>
              BuildSoapRequest(ControlTarget(service.controlURL, base, lib).value, service.serviceType, action, body) == req
  {
    var c := service.controlURL;
    if !StartsWith(Lower(c), "http") && c == "" {
      assert ControlTarget(c, base, lib) == Some(base + "/");
    }
  }

  // =====================================================================
  // Malformed descriptors

  function SafeLocation(location: string): (r: string)
    ensures |r| == |location|
    ensures forall i :: 0 <= i < |r| ==> r[i] != ':' && r[i] != '/'
    ensures forall i :: 0 <= i < |r| ==>
              r[i] == (if location[i] == ':' || location[i] == '/' then '_' else location[i])
  {
    ReplaceChar(ReplaceChar(location, ':', '_'), '/', '_')
  }

  /** The name under which `store_malformed_xml` writes a descriptor that did
      not parse; `timestamp` is the `%Y%m%d_%H%M%S` rendering of the clock. */
  function MalformedFileName(location: string, timestamp: string): string {
    "malformed_" + SafeLocation(location) + "_" + timestamp + ".xml"
  }

  /** The location can be read back from the name, up to the replaced
      characters. */
  lemma MalformedFileNameShape(location: string, timestamp: string)
    ensures var f := MalformedFileName(location, timestamp);
      StartsWith(f, "malformed_") && f[10..10 + |location|] == SafeLocation(location)
      && f[10 + |location|] == '_' && f[|f| - 4..] == ".xml"
  {
  }
}
