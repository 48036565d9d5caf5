# Recon script cores, modelled in Dafny

This project models the parsing, normalising and selection logic of a set of
reconnaissance scripts:

- `upnp.py`: the UPnP discovery and descriptor tool.
- `rtsp.py`: the RTSP DESCRIBE scanner.
- `ad_dns_enum.py`: the Active Directory SRV enumerator.
- `dhcp_enum.py`: the DHCP probe.
- `extractDefaultCreds.py` and `extractDefaultCreds2.py`: two extractors of default credentials from Nmap XML reports.
- `nessus_parser.py`: the Nessus report query tool.
- `msf_common_runner.rb`: the Metasploit module runner.
- `getAESKey.py`: the NT-hash AES key helper.

The Dafny model also proves properties of that logic. Sockets, HTTP, packet
capture, DNS resolution, XML tokenizing, regular expressions, URL resolution, Unicode
normalisation, IP address parsing and HMAC-SHA1 are not modelled. Their results enter the model as parameters or
inputs: a function from request to response, an already parsed element
tree, a search predicate, a digest function.

Modules, one file each:

| file | module | models |
|---|---|---|
| `text.dfy` | `Text` | Python `str` operations: `strip`, `split`, `split(sep, 1)`, `split()`, `splitlines`, `join`, `lower`/`upper`, `str(int)` |
| `codec.dfy` | `Codec` | UTF-8, UTF-16LE, base64 (RFC 4648 section 4), `bytes.hex` and `binascii.unhexlify` |
| `ordering.dfy` | `Ordering` | Python string order, `sorted(set(...))`, stable `list.sort(key=...)` |
| `seqs.dfy` | `Seqs` | filter/map loops, concatenating loops, the `seen`-set dedupe idiom, folds |
| `assoc.dfy` | `Assoc` | a dictionary built by assignments in order (last write wins) |
| `xml.dfy` | `Xml` | ElementTree elements with `find`, `findall`, `findtext`, `get`, `.//` and `{*}` |
| `upnp.dfy` | `Upnp` | `upnp.py` |
| `rtsp.dfy` | `Rtsp` | `rtsp.py` |
| `ad_dns.dfy` | `AdDns` | `ad_dns_enum.py` |
| `dhcp.dfy` | `Dhcp` | `dhcp_enum.py` |
| `default_creds.dfy` | `DefaultCreds` | `extractDefaultCreds.py` |
| `default_creds2.dfy` | `DefaultCreds2` | `extractDefaultCreds2.py` |
| `nessus.dfy` | `Nessus` | `nessus_parser.py` |
| `msf_runner.dfy` | `MsfRunner` | `msf_common_runner.rb` |
| `aes_key.dfy` | `AesKey` | `getAESKey.py` |

Where the source changes state step by step, the model is a method with a
loop. Its `ensures` ties the result to a specification function, and lemmas
state what that function promises. Examples: the SSDP scan, the descriptor
and SCPD readers, the header loop, the SDP loop, the DHCP reply loops, the
credential walks, the findings loop and the Metasploit command sequence.
The Metasploit console is a class whose `log` field receives every
`run_single` command. The SRV normaliser updates an `array` of records in
place. The resolver is a class whose `nameservers` field is reassigned.

Where the source and its documentation disagree, the model follows the
code:

- A repeated SSDP `LOCATION` keeps the last responder, not the first (`upnp.py:121`).
- `derive_base_url` joins a relative `<URLBase>` with the location. It does not ignore it (`upnp.py:184-185`).

## Model

| member | source | states |
|---|---|---|
| Upnp.ScanLocation | tools/extra/scripts/upnp.py:116-119 | The inner loop returns the value of the first line whose lower case starts with `location:`, or None when there is none |
| Upnp.FirstLocationSpec | tools/extra/scripts/upnp.py:116-119 | The location is None exactly when no line is a LOCATION line; otherwise it comes from the first such line and is the text after `location:`, stripped |
| Upnp.LocationValueIsRest | tools/extra/scripts/upnp.py:118 | `line.split(":", 1)[1].strip()` on a LOCATION line is everything after the nine characters `location:`, stripped |
| Upnp.LocationColon | tools/extra/scripts/upnp.py:117-118 | On a LOCATION line the first colon is the one ending the header name |
| Upnp.ParseSsdpResponses | tools/extra/scripts/upnp.py:101-122 | The response loop builds exactly the map `SsdpDevices` (location → responder) and the dictionary's key order `SsdpOrder` |
| Upnp.SsdpOrderSpec | tools/extra/scripts/upnp.py:116-122 | The key order lists each announced location once, holds exactly the map's keys, and orders them by first announcement |
| Upnp.AnnouncedIsKey | tools/extra/scripts/upnp.py:120-121 | A location is announced by some response exactly when it is a key of the map |
| Upnp.SsdpDevicesKeys | tools/extra/scripts/upnp.py:120-121 | A location is a key exactly when some response has it as its non-empty LOCATION value |
| Upnp.SsdpDevicesLastWins | tools/extra/scripts/upnp.py:121 | For a location, the map holds the sender of the last response announcing it |
| Upnp.SsdpSilentResponse | tools/extra/scripts/upnp.py:120 | A response with no LOCATION line, or an empty one, leaves the map unchanged wherever it appears in the list |
| Upnp.AbsoluteUrlBase | tools/extra/scripts/upnp.py:178-182 | A description whose `<URLBase>` starts with `http` in any case once stripped is described with that text, stripped and verbatim, as its resolved base, and the location and urllib do not affect the result |
| Upnp.LocationFallback | tools/extra/scripts/upnp.py:186-190 | With no `<URLBase>`, a `scheme://host/rest` location gives `scheme://host` with the scheme lower-cased when urlparse accepts the host (paired brackets around a valid IPv6 or IPvFuture literal, no delimiter introduced by NFKC), and raises otherwise |
| Upnp.NfkcExpansionRaises | tools/extra/scripts/upnp.py:188 | A host such as U+2100, which NFKC expands to `a/c`, makes urlparse raise, so there is no fallback base |
| Upnp.HexRunEnd | tools/extra/scripts/upnp.py:188 | The hex run of an IPvFuture literal ends at the first character outside `[a-fA-F0-9]` |
| Upnp.RemoveUnsafe | tools/extra/scripts/upnp.py:188 | urlsplit's removal of tab, CR and LF leaves none of them, and a character survives exactly when it occurred and is none of them |
| Upnp.RemoveUnsafeInOrder | tools/extra/scripts/upnp.py:188 | The removal distributes over concatenation and drops a single character exactly when it is a tab, CR or LF, so every other character is kept, in order |
| Upnp.NetlocEnd | tools/extra/scripts/upnp.py:188-189 | The netloc ends at the first `/`, `?` or `#` after `//`, or at the end of the text |
| Upnp.ParseDeviceDescription | tools/extra/scripts/upnp.py:193-273 | The method computes `DeviceDescription`: `Malformed` for a parse error, `Raises` where urlparse or urljoin raises, the default record for a missing or childless `<device>`, otherwise the eight fields, icons and services |
| Upnp.DescriptionHasBase | tools/extra/scripts/upnp.py:217-236 | Only a parse error gives `Malformed`, and wherever `derive_base_url` returns, the record carries the base it computes |
| Upnp.ChildlessDeviceIsDefault | tools/extra/scripts/upnp.py:234-236 | A `<device>` without children reads as the all-default record, so the truthiness test that skips it loses nothing |
| Upnp.DeviceFields | tools/extra/scripts/upnp.py:239-245 | The field map has exactly the eight device tags as keys |
| Upnp.ReadDeviceFields | tools/extra/scripts/upnp.py:239-245 | The tag loop stores, for each tag, the stripped text of the first matching element below the device when that text is non-empty, and `""` otherwise |
| Upnp.ReadIcons | tools/extra/scripts/upnp.py:248-258 | The icons are the records of the `<icon>` children of the first `<iconList>`, none when it is missing |
| Upnp.ReadIconList | tools/extra/scripts/upnp.py:250-258 | The icon loop appends one record per `<icon>`, in order |
| Upnp.IconsInOrder | tools/extra/scripts/upnp.py:250-258 | The i-th icon record is read from the i-th `<icon>` element, and its fields are stripped text |
| Upnp.ReadServices | tools/extra/scripts/upnp.py:261-271 | The services are the records of the `<service>` children of the first `<serviceList>` |
| Upnp.ReadServiceList | tools/extra/scripts/upnp.py:263-271 | The service loop appends one record per `<service>`, in order |
| Upnp.ServicesInOrder | tools/extra/scripts/upnp.py:263-271 | The i-th service record is read from the i-th `<service>`, and a missing `controlURL` reads as `""` |
| Upnp.NamelessActionRaises | tools/extra/scripts/upnp.py:337-338 | As written, an action whose `<name/>` has no text raises AttributeError |
| Upnp.ActionNameAgrees | tools/extra/scripts/upnp.py:337-338 | The corrected name agrees with the code wherever the code returns, is `UnnamedAction` where it raises, and is otherwise stripped |
| Upnp.ReadArguments | tools/extra/scripts/upnp.py:340-350 | The arguments are those of the `<argument>` children of the first `<argumentList>`, none when it is missing |
| Upnp.ReadArgumentList | tools/extra/scripts/upnp.py:342-350 | The argument loop appends one record per `<argument>`, in order |
| Upnp.ArgumentsStripped | tools/extra/scripts/upnp.py:343-349 | The i-th argument comes from the i-th element, and its name, direction and related state variable are stripped text |
| Upnp.ReadActions | tools/extra/scripts/upnp.py:336-354 | The action loop produces one action per `<action>`, in order |
| Upnp.ActionsAt | tools/extra/scripts/upnp.py:336-354 | The i-th action of the list is read from the i-th `<action>` element |
| Upnp.ParseScpd | tools/extra/scripts/upnp.py:324-355 | The method computes `ScpdActions`, the action list (with the corrected action name of the upnp.py:338 finding) |
| Upnp.ScpdActionsInOrder | tools/extra/scripts/upnp.py:324-336 | Empty input or a parse error gives `[]`; otherwise there is one action per `<action>` of the first `<actionList>`, in document order (with the corrected action name of the upnp.py:338 finding) |
| Upnp.SoapActionRoundTrip | tools/extra/scripts/upnp.py:373 | Splitting the `SOAPAction` header at its first `#` gives back the service type and the action name |
| Upnp.EnvelopeLinesNoNewline | tools/extra/scripts/upnp.py:374-384 | With newline-free action, service type and body, no template line holds a newline |
| Upnp.SoapEnvelopeLinesRoundTrip | tools/extra/scripts/upnp.py:374-384 | Splitting the envelope at newlines gives back the template lines, so the body is a line of its own |
| Upnp.NonIgdServiceSkipped | tools/extra/scripts/upnp.py:412-413 | A service type naming neither WANIPConnection nor WANPPPConnection is skipped, whatever the HTTP exchange would answer |
| Upnp.ExternalIpReport | tools/extra/scripts/upnp.py:358-431 | For a WAN service: urljoin raises for a relative, non-empty control URL that urlsplit rejects (or whose base it rejects); otherwise the report depends only on `post` of the one request, whose URL is the control URL when it starts with `http`, `base + "/"` when it is empty and the join otherwise, with the envelope and `SOAPAction: serviceType#GetExternalIPAddress`. A transport error, a status other than 200 or an empty text gives no answer, unparsable text a parse error, and otherwise the non-empty `NewExternalIPAddress` text, if any |
| Upnp.PortMappingReport | tools/extra/scripts/upnp.py:358-469 | The same for GetGenericPortMappingEntry with index 0; a parsed answer reports, for `NewExternalPort` and `NewInternalClient` each, whether the element is present and its text |
| Upnp.SentRequest | tools/extra/scripts/upnp.py:373-391 | The control target is missing exactly where urljoin raises, and otherwise the request built for it has the URL, envelope and headers described above |
| Upnp.SafeLocation | tools/extra/scripts/upnp.py:135 | Every `:` and `/` of the location becomes `_`, and nothing else changes |
| Upnp.MalformedFileNameShape | tools/extra/scripts/upnp.py:134-136 | The file name is `malformed_`, the sanitised location, `_`, the timestamp and `.xml` |
| Text.ReplaceCharSplitJoin | tools/extra/scripts/upnp.py:135 | `s.replace(a, b)` is `b.join(s.split(a))`: the text is cut at every `a` and `b` is put in each cut |
| Text.DropCharsAppend | tools/extra/scripts/upnp.py:188 | Deleting characters distributes over concatenation |
| Text.DropCharsOne | tools/extra/scripts/upnp.py:188 | A single character is deleted exactly when it is in the set |
| Text.DropCharsMembers | tools/extra/scripts/upnp.py:188 | A character survives exactly when it occurred and is not deleted |
| Text.DropCharsNone | tools/extra/scripts/upnp.py:188 | Text without any of the characters is left as it is |
| Rtsp.BasicAuthHeaderDecodes | tools/extra/scripts/rtsp.py:48-58 | The header is `Authorization: Basic ` followed by text that base64-decodes to the UTF-8 bytes of `username:password`, which decode back to that text |
| Rtsp.BasicAuthCredentials | tools/extra/scripts/rtsp.py:56 | A server splitting the decoded text at its first colon recovers both credentials when the username has no colon |
| Rtsp.AuthLineIff | tools/extra/scripts/rtsp.py:94-102 | The credentials line is sent exactly when both username and password are non-empty; it is the header built from them and comes right before the closing empty line |
| Rtsp.DescribeRequestEnds | tools/extra/scripts/rtsp.py:94-103 | The request starts with `DESCRIBE rtsp://ip:port/path RTSP/1.0` and CRLF, and ends with `\r\n\r\n` |
| Rtsp.DescribeLinesNoCr | tools/extra/scripts/rtsp.py:94-102 | With CR-free address and path, no request line holds a CR |
| Rtsp.DescribeRequestSplits | tools/extra/scripts/rtsp.py:103 | Splitting the request at CRLF gives back its lines, followed by the empty text after the final CRLF |
| Rtsp.StatusCodeOfStatusLine | tools/extra/scripts/rtsp.py:153-155 | `RTSP/d.d <code> <reason>` yields its code |
| Rtsp.StatusCodeAfterVersion | tools/extra/scripts/rtsp.py:153 | After `RTSP/d.d` the code is read by the `\s+(\d+)\s+` part alone |
| Rtsp.CodeAfterVersionOf | tools/extra/scripts/rtsp.py:153-155 | A single space, the decimal code, a space and a reason read back as that code |
| Rtsp.StatusCodeNeedsReasonSeparator | tools/extra/scripts/rtsp.py:153 | `RTSP/1.0 200` with nothing after the code does not match, so no code is set |
| Rtsp.DigitRun | tools/extra/scripts/rtsp.py:153 | The `\d+` run is the longest prefix of digits |
| Rtsp.ReadHeaders | tools/extra/scripts/rtsp.py:158-161 | The header loop builds exactly `HeaderMap`, the header dictionary |
| Rtsp.HeaderMapOfLine | tools/extra/scripts/rtsp.py:159-161 | A line without a colon adds nothing; any other line maps its stripped name to its stripped value, split at the first colon |
| Rtsp.HeaderMapAppend | tools/extra/scripts/rtsp.py:158-161 | Later lines override earlier ones, so a repeated header keeps its last value |
| Rtsp.ParseDescribeResponse | tools/extra/scripts/rtsp.py:133-164 | The method computes `Describe`, the response dictionary |
| Rtsp.DescribeSplit | tools/extra/scripts/rtsp.py:135-163 | There is an error exactly for a socket failure or an empty response, and then nothing else is set. Otherwise there is a status line and a body: `""` without a blank line, else the text after the first `\r\n\r\n` |
| Rtsp.DescribeErrorGiven | tools/extra/scripts/rtsp.py:136-140 | Reported errors are never empty, so the scanner's `if response["error"]` sees every one |
| Rtsp.ReadTrack | tools/extra/scripts/rtsp.py:184-198 | One SDP line gives `TrackOf` that line: a track or none |
| Rtsp.ParseSdp | tools/extra/scripts/rtsp.py:167-199 | The SDP loop keeps, in line order, the track of every line that gives one |
| Rtsp.TrackOfMediaLine | tools/extra/scripts/rtsp.py:185-197 | An `m=` line of at least four fields gives media after `m=`, port, protocol, and the remaining fields joined by single spaces |
| Rtsp.MediaLineShape | tools/extra/scripts/rtsp.py:184-186 | An `m=` line built from fields is already stripped, starts with `m=` in lower case, and splits back into its fields |
| Rtsp.ScanRtspTarget | tools/extra/scripts/rtsp.py:202-267 | The scanner computes the summary of the DESCRIBE exchange for the request it builds |
| Rtsp.SummaryTracks | tools/extra/scripts/rtsp.py:247-255 | Tracks are reported only for a 200 response without error; an error leaves no tracks and the message `Error: ` followed by it |
| Rtsp.SummaryMessages | tools/extra/scripts/rtsp.py:252-265 | 200 with and without tracks, 401 and a missing code each get their own message; any other code is readable back from `Unexpected status code ` |
| AdDns.CommaListMembers | tools/extra/scripts/ad_dns_enum.py:115-121 | The items are exactly the non-blank pieces between commas, stripped |
| AdDns.CommaListItems | tools/extra/scripts/ad_dns_enum.py:269-270 | Each parsed item is non-empty, stripped and comma-free |
| AdDns.CommaListOfJoin | tools/extra/scripts/ad_dns_enum.py:269-270 | Parsing items joined by commas gives them back |
| AdDns.Resolver.constructor | tools/extra/scripts/ad_dns_enum.py:110 | A new resolver starts with the system nameservers |
| AdDns.GetResolver | tools/extra/scripts/ad_dns_enum.py:101-122 | The resolver gets timeouts 3 and 5; its nameservers are the parsed comma list when the option is a non-empty string, and the system's otherwise |
| AdDns.Prefixes | tools/extra/scripts/ad_dns_enum.py:269-272 | Without `-S`, or with an empty one, the 20 built-in prefixes are queried; with a non-empty `-S` the queried prefixes are exactly its comma list (`CommaList`); every queried prefix is a list item |
| AdDns.DefaultPrefixesAreItems | tools/extra/scripts/ad_dns_enum.py:32-59 | Every built-in prefix is a list item, so giving the built-in list with `-S` queries the same names |
| AdDns.DomainCheck | tools/extra/scripts/ad_dns_enum.py:94-95 | A domain passes exactly when it splits at a first dot into a label and the rest, any `first.rest` passes, and a refused domain gets the parser's message |
| AdDns.QueryNameSpec | tools/extra/scripts/ad_dns_enum.py:190 | The query name is lower case: the lower-cased prefix, a dot, and the lower-cased domain |
| AdDns.SrvTarget | tools/extra/scripts/ad_dns_enum.py:153 | The target is the name without all of its trailing dots |
| Text.RStripChar | tools/extra/scripts/ad_dns_enum.py:153 | `rstrip(c)` removes exactly the trailing run of `c`: the result is a prefix not ending in `c`, and every removed character is `c` |
| AdDns.QuerySrv | tools/extra/scripts/ad_dns_enum.py:146-155 | One record per answer, in order, named by the query |
| AdDns.SrvRecordsSpec | tools/extra/scripts/ad_dns_enum.py:147-154 | The i-th record is built from the i-th answer |
| AdDns.AddressedRecords | tools/extra/scripts/ad_dns_enum.py:190-194 | The records of one prefix each get the addresses of their target |
| AdDns.EnumerateServices | tools/extra/scripts/ad_dns_enum.py:182-195 | The prefix loop appends the records of every prefix, in prefix order |
| AdDns.EnumeratedMembers | tools/extra/scripts/ad_dns_enum.py:188-195 | A record is produced exactly when it is built from an answer to the query of some prefix, with that query's name, the trimmed target and the target's addresses |
| AdDns.NormalizeSpec | tools/extra/scripts/ad_dns_enum.py:206-209 | A normalised record is lower case, its addresses are exactly the lower-cased inputs, distinct and sorted, and priority, weight and port are unchanged |
| AdDns.NormalizeRecords | tools/extra/scripts/ad_dns_enum.py:206-209 | The first loop replaces every record of the array by its normalised form, in place |
| AdDns.DedupeRecords | tools/extra/scripts/ad_dns_enum.py:212-221 | The second loop keeps the first record of each key (the key is the whole normalised record) |
| AdDns.LessKeyIsStrictTotal | tools/extra/scripts/ad_dns_enum.py:224 | Tuple order on (service, target, port) is a strict total order |
| AdDns.NormalizeSortUnique | tools/extra/scripts/ad_dns_enum.py:198-225 | The array is normalised in place and the result is the deduplicated, stably sorted list |
| AdDns.NormalizedUniqueSpec | tools/extra/scripts/ad_dns_enum.py:206-224 | Every result record is normalised, the results are exactly the normalised inputs, each once, and they are ordered by (service, target, port) |
| AdDns.NormalizedUniqueMembers | tools/extra/scripts/ad_dns_enum.py:224 | Sorting neither adds nor drops a record of the deduplicated list |
| AdDns.NormalizedUniqueStable | tools/extra/scripts/ad_dns_enum.py:224 | Records with equal sort keys keep the order of their first occurrences |
| Dhcp.DhcpOption | tools/extra/scripts/dhcp_enum.py:32-37 | None exactly when no tuple has the key; otherwise the value of the first tuple with it, with bare words skipped |
| Dhcp.DhcpOptionFirstWins | tools/extra/scripts/dhcp_enum.py:34-36 | Once a tuple with the key is found, later options do not change the answer |
| Dhcp.ReadListFields | tools/extra/scripts/dhcp_enum.py:68-73 | The field loop computes `ListFieldsOf`, the optional-field list |
| Dhcp.ListFieldsSpec | tools/extra/scripts/dhcp_enum.py:68-73 | A field is stored exactly when the reply carries it with a truthy value, and then as that value made a list |
| Dhcp.CollectOffers | tools/extra/scripts/dhcp_enum.py:59-75 | The offer loop keeps, in order, the offer of every reply that gives one |
| Dhcp.CollectNaks | tools/extra/scripts/dhcp_enum.py:99-104 | The same for NAKs |
| Dhcp.CollectAcks | tools/extra/scripts/dhcp_enum.py:129-142 | The same for ACKs |
| Dhcp.SelectionByMessageType | tools/extra/scripts/dhcp_enum.py:61 | Offers come exactly from replies of message type 2, NAKs from type 6 and ACKs from type 5 |
| Dhcp.InformAcks | tools/extra/scripts/dhcp_enum.py:106-142 | No ACK is reported when the interface address is `0.0.0.0`; otherwise the ACKs of the replies |
| Dhcp.ProbeAll | tools/extra/scripts/dhcp_enum.py:229-233 | The probe loop concatenates the NAK lists of the offers in offer order |
| Dhcp.ProbedOnlyWithServerId | tools/extra/scripts/dhcp_enum.py:231-233 | A NAK is reported exactly when it answers the probe of some offer with a truthy server id |
| Dhcp.JsonAsWrittenVsIntended | tools/extra/scripts/dhcp_enum.py:243-252 | The code as written and the intended `args.json_output` agree exactly when no file name is given; with one, the former raises AttributeError where the latter writes the report to that file |
| DefaultCreds2.ReadCredential | tools/extra/scripts/extractDefaultCreds2.py:42-48 | The loop over a credential table's children computes its credential |
| DefaultCreds2.ParseCredentials | tools/extra/scripts/extractDefaultCreds2.py:30-50 | One credential per child `<table>`, in order |
| DefaultCreds2.CredentialsSpec | tools/extra/scripts/extractDefaultCreds2.py:41-49 | Username and password are the texts of the last `elem` children keyed so, `""` when missing or empty |
| DefaultCreds2.ReadTable | tools/extra/scripts/extractDefaultCreds2.py:78-84 | The loop over one table's children computes the table step |
| DefaultCreds2.ParseScript | tools/extra/scripts/extractDefaultCreds2.py:53-86 | The table loop computes `ScriptInfo`, the script record |
| DefaultCreds2.ScriptInfoSpec | tools/extra/scripts/extractDefaultCreds2.py:67-84 | The service is the key of the last keyed table, or the `<service>` name when none is keyed. The path is the text of the last `path` elem, `""` if none. The credentials are those of the last `credentials` table. The rest is as given |
| DefaultCreds2.AddHostPorts | tools/extra/scripts/extractDefaultCreds2.py:116-124 | The port loop assigns each qualifying port's entry into the dictionary, in order, and appends each new key to the key order |
| DefaultCreds2.ExtractInformation | tools/extra/scripts/extractDefaultCreds2.py:89-126 | The host loop computes the dictionary `Extracted` and its key order `ExtractedOrder` (first assignment of each key), `{}` for a missing root |
| DefaultCreds2.HostEntriesFrom | tools/extra/scripts/extractDefaultCreds2.py:112-124 | A host's entries come exactly from its qualifying ports; a host without `<ports>` has none |
| DefaultCreds2.EntriesFrom | tools/extra/scripts/extractDefaultCreds2.py:103-124 | Every entry comes from one of the hosts |
| DefaultCreds2.ExtractedLastWins | tools/extra/scripts/extractDefaultCreds2.py:124 | For each key the dictionary holds the last entry assigned to it |
| DefaultCreds2.ExtractedKeys | tools/extra/scripts/extractDefaultCreds2.py:124 | A key is present exactly when some entry assigns it |
| DefaultCreds2.PortEntryKey | tools/extra/scripts/extractDefaultCreds2.py:117-124 | A qualifying port's entry is keyed `ip:portid`, with `""` for a missing `portid` |
| DefaultCreds.CredentialOfSpec | tools/extra/scripts/extractDefaultCreds.py:80-86 | Fields are the texts (possibly None) of the last children keyed username and password, whatever their tag; `""` when there is none |
| DefaultCreds.CredentialsOfSpec | tools/extra/scripts/extractDefaultCreds.py:79-87 | Only `<table>` children of a credentials table give credentials, one each, in order |
| DefaultCreds.AppendCredentials | tools/extra/scripts/extractDefaultCreds.py:79-87 | The loop appends the credentials of the table to those already collected |
| DefaultCreds.ReadTable | tools/extra/scripts/extractDefaultCreds.py:72-87 | The loop over one table's children computes the table step |
| DefaultCreds.ReadScript | tools/extra/scripts/extractDefaultCreds.py:62-87 | The table loop computes `ScriptInfo`, the script record |
| DefaultCreds.ScriptInfoSpec | tools/extra/scripts/extractDefaultCreds.py:62-87 | The service is the key of the last keyed table, or the `<service>` name when none is keyed. The path is the raw text (maybe None) of the last `path` elem. The credentials of every credentials table are concatenated |
| DefaultCreds.AddHostPorts | tools/extra/scripts/extractDefaultCreds.py:53-88 | The port loop assigns each qualifying port's entry, in order, and appends each new key to the key order |
| DefaultCreds.ExtractInformation | tools/extra/scripts/extractDefaultCreds.py:36-90 | For a report whose hosts all have `<ports>`, the host loop computes the dictionary `Extracted` and its key order `ExtractedOrder` (first assignment of each key), `{}` for a missing root |
| DefaultCreds.HostEntriesFrom | tools/extra/scripts/extractDefaultCreds.py:53-88 | A host's entries come exactly from its qualifying ports |
| DefaultCreds.ExtractedLastWins | tools/extra/scripts/extractDefaultCreds.py:88 | For each key the dictionary holds the last entry assigned to it |
| DefaultCreds.PortEntryKey | tools/extra/scripts/extractDefaultCreds.py:54-88 | A qualifying port's entry is keyed `ip:portid`, where a missing `portid` renders as `None` |
| Nessus.Hosts | tools/extra/scripts/nessus_parser.py:69-71 | One record per `ReportHost` anywhere below the root, the i-th read from the i-th element in document order |
| Nessus.HostOf | tools/extra/scripts/nessus_parser.py:76-83 | A host record has the element's `name` attribute and one item per `ReportItem` child, in order |
| Nessus.PyIntOfIntToString | tools/extra/scripts/nessus_parser.py:94 | `int(str(n)) == n` |
| Nessus.OpenPortsQuery | tools/extra/scripts/nessus_parser.py:79-90 | The host loop with its early return computes `OpenPortsOf`, the open-ports report |
| Nessus.FirstNamed | tools/extra/scripts/nessus_parser.py:81-82 | The search returns the first host, from the given index, whose name is the target, and None exactly when there is none |
| Nessus.OpenPortsFirstHost | tools/extra/scripts/nessus_parser.py:81-90 | `IP not found` exactly when no host has the name; otherwise the report of the first host with it |
| Nessus.OpenPortsIgnoresLaterHosts | tools/extra/scripts/nessus_parser.py:89 | Hosts after the first match never change the answer |
| Nessus.PortsReportOutcome | tools/extra/scripts/nessus_parser.py:83-88 | `No open ports` exactly for a host without items; the command fails exactly when some port is missing or not an integer |
| Nessus.PortsReportSpec | tools/extra/scripts/nessus_parser.py:83-86 | The printed ports are the host's distinct port values, in nondecreasing numeric order |
| Nessus.SortedNamesSpec | tools/extra/scripts/nessus_parser.py:101-102 | `sorted` of the name set fails exactly when a missing name meets a present one; otherwise each name is listed once, in increasing order |
| Nessus.SortUniqueByMembers | tools/extra/scripts/nessus_parser.py:95-101 | The sorted output depends only on the elements added, so a sequence stands for the set |
| Nessus.MatchingNamesMembers | tools/extra/scripts/nessus_parser.py:95-100 | A name is collected exactly when its host has an item whose port text equals `str(port)` |
| Nessus.HostIfPortMembers | tools/extra/scripts/nessus_parser.py:96-100 | One host adds its name exactly when one of its items matches the port |
| Nessus.NamesOfMatchingHosts | tools/extra/scripts/nessus_parser.py:95-102 | A name is printed exactly when it is the printed name of a host with an item on the port |
| Nessus.IpsWithPortSpec | tools/extra/scripts/nessus_parser.py:93-102 | The listed IPs are, once each and in increasing order, the names of the hosts with an item on the port |
| Nessus.PortMatchIsNumeric | tools/extra/scripts/nessus_parser.py:99 | A matching port text reads back as the port number |
| Nessus.PyIntOfDigits | tools/extra/scripts/nessus_parser.py:85 | `int()` of a non-empty run of ASCII digits is its decimal value |
| Nessus.PaddedPortDoesNotMatch | tools/extra/scripts/nessus_parser.py:94-99 | For any port above 0, the zero-padded text reads as that port yet does not match it, because the comparison is textual |
| Nessus.ListIpPortsSpec | tools/extra/scripts/nessus_parser.py:105-112 | Each `name:port` pair is listed once, in increasing order, and exactly the pairs of some host and item are listed |
| Nessus.FindingsQuery | tools/extra/scripts/nessus_parser.py:115-143 | The host and item loops with their `continue` filters, then sorting, compute `Findings` |
| Nessus.SeverityRoundTrip | tools/extra/scripts/nessus_parser.py:120-140 | A severity name filtered on prints back as that name; the printed name differs from the value exactly for `0`..`3` |
| Nessus.FindingsSpec | tools/extra/scripts/nessus_parser.py:129-143 | Each finding line is printed once, in increasing order, exactly when some item passing both filters renders to it, a missing plugin name counting as `""` |
| Nessus.HostFindingsMembers | tools/extra/scripts/nessus_parser.py:129-141 | One host contributes exactly the lines of its items that pass the filters |
| Nessus.FilteredSeverityShown | tools/extra/scripts/nessus_parser.py:136-137 | With a severity filter, every printed finding's item has the filter's level |
| MsfRunner.DropTrailingEmpty | tools/extra/msf/msf_common_runner.rb:25 | Ruby's `split` result is a prefix of the pieces with no empty last piece, and every dropped piece is empty |
| MsfRunner.ModuleNameIsSegment | tools/extra/msf/msf_common_runner.rb:25 | The module name holds no `/` |
| MsfRunner.ModuleNameOfJoin | tools/extra/msf/msf_common_runner.rb:25 | The name of a path built from segments is its last segment, with or without a trailing `/` |
| MsfRunner.SplitSegments | tools/extra/msf/msf_common_runner.rb:25 | Splitting slash-free segments joined by `/` gives them back |
| MsfRunner.GroupByPort | tools/extra/msf/msf_common_runner.rb:57-66 | The nested loops build exactly the grouping of the selected (port, address) pairs |
| MsfRunner.GroupedSpec | tools/extra/msf/msf_common_runner.rb:57-66 | Ports are kept in first-seen order, each port's list holds every address selected on it, in order with repeats, and nothing else is keyed |
| MsfRunner.OrderedPortsGrouped | tools/extra/msf/msf_common_runner.rb:57-68 | The ports iterated are the selected ports without repeats, in first-seen order, and each maps to its addresses |
| MsfRunner.AddressesOnMembers | tools/extra/msf/msf_common_runner.rb:63-64 | An address is in a port's list exactly when the pair was selected |
| MsfRunner.HostPairsMembers | tools/extra/msf/msf_common_runner.rb:58-64 | One host contributes exactly its address paired with the ports of its selected services |
| MsfRunner.GroupsSelectExactly | tools/extra/msf/msf_common_runner.rb:60-64 | A (port, address) pair is selected exactly when the service matches the protocol, is open, and matches a lower-cased filter name or a filter port |
| MsfRunner.Console.RunSingle | tools/extra/msf/msf_common_runner.rb:42 | `run_single` appends its command to the console log |
| MsfRunner.Console.constructor | tools/extra/msf/msf_common_runner.rb:41 | A console starts with an empty command log |
| MsfRunner.Console.RunSet | tools/extra/msf/msf_common_runner.rb:43-47 | `set` is sent for an option exactly when a value is given |
| MsfRunner.Console.RunSetup | tools/extra/msf/msf_common_runner.rb:41-49 | The setup appends `use`, the given `set` commands and `spool` to the log |
| MsfRunner.Console.RunGroup | tools/extra/msf/msf_common_runner.rb:69-83 | A port's group appends `set RHOSTS`, optionally `set RPORT`, and `run` |
| MsfRunner.Console.RunGroups | tools/extra/msf/msf_common_runner.rb:68-84 | The port loop appends the commands of every group in first-seen port order |
| MsfRunner.Console.RunTargets | tools/extra/msf/msf_common_runner.rb:57-84 | The selection and the port loop together append the group commands of the selected pairs |
| MsfRunner.Console.RunModule | tools/extra/msf/msf_common_runner.rb:8-95 | The log grows by exactly `RunCommands`, the command sequence |
| MsfRunner.RunCommandsFrame | tools/extra/msf/msf_common_runner.rb:19-22 | Without a module path nothing is sent. With one, `use` comes first, and `spool off` then `back` come last whatever happened in the loop |
| MsfRunner.SetsInOrder | tools/extra/msf/msf_common_runner.rb:43-47 | The `set` commands are those of the given options, in the order THREADS, USER_FILE, PASS_FILE, USERNAME, PASSWORD |
| MsfRunner.SetupOrder | tools/extra/msf/msf_common_runner.rb:25-49 | The setup is `use`, the sets, then `spool` to `MSF_<module name>.tee` in `/root/DATA/OUTPUT/TEE` |
| MsfRunner.GroupCommandsSpec | tools/extra/msf/msf_common_runner.rb:69-83 | RHOSTS is the port's addresses without repeats in first-seen order, joined by spaces; RPORT is set exactly when the module has that option; the group ends with `run` |
| AesKey.ValidateSpec | tools/extra/scripts/getAESKey.py:45-51 | A hash is accepted exactly when it is 32 hexadecimal digits, and its value is then 16 bytes; a wrong length is reported before any bad character |
| AesKey.UnhexSpec | tools/extra/scripts/getAESKey.py:17 | `unhexlify` succeeds exactly on even-length hexadecimal text, with half as many bytes, whose hex is the lower-cased input |
| AesKey.HexOfUnhexlify | tools/extra/scripts/getAESKey.py:17 | `unhexlify` followed by `hex` lower-cases the digits |
| AesKey.IdentitySpec | tools/extra/scripts/getAESKey.py:23 | The identity decodes back to the upper-cased name followed by the unchanged domain, and is the name's bytes followed by the domain's |
| AesKey.DeriveSpec | tools/extra/scripts/getAESKey.py:29-34 | For an accepted hash both keys are lower-case hex of the HMAC digest keyed with its 16 bytes: aes128 is the first 16 bytes, aes256 the whole 20-byte digest, 40 digits beginning with aes128 |
| AesKey.DeriveAcceptsShortKey | tools/extra/scripts/getAESKey.py:15-19 | `derive_aes_keys` alone accepts a hash that `validate_nt_hash` rejects |
| AesKey.RunSpec | tools/extra/scripts/getAESKey.py:60-91 | Keys are printed exactly when there are three arguments and the first is 32 hexadecimal digits; they are then the derived keys, and the derivation's own error cannot be reached |
| Text.StripSpec | tools/extra/scripts/upnp.py:118 | `strip()` is the infix between the leading and the trailing white space and begins and ends with neither |
| Text.StripIdempotent | tools/extra/scripts/upnp.py:338 | Stripping twice strips nothing more |
| Text.SplitJoin | tools/extra/scripts/upnp.py:113 | Joining the pieces of `split(sep)` with `sep` gives back the text |
| Text.SplitPiecesFree | tools/extra/scripts/rtsp.py:149 | No piece of a split holds the separator |
| Text.JoinSplit | tools/extra/scripts/rtsp.py:103 | Splitting a join gives back its parts when none holds the separator |
| Text.SplitOnce | tools/extra/scripts/rtsp.py:144-146 | `split(sep, 1)` is the text before the first separator and, when there is one, the text after it |
| Text.SplitOnceAt | tools/extra/scripts/rtsp.py:160 | `split(sep, 1)` cuts at the first occurrence |
| Text.FieldsAreFields | tools/extra/scripts/rtsp.py:186 | Every field of `split()` is a non-empty run without white space |
| Text.FieldsOfJoin | tools/extra/scripts/rtsp.py:186-192 | `split()` of fields joined by single spaces gives back the fields |
| Text.LinesNoBreak | tools/extra/scripts/rtsp.py:183 | No line of `splitlines()` holds a line break |
| Text.LinesOfJoin | tools/extra/scripts/rtsp.py:183 | `splitlines()` of lines joined by `\n` gives them back when the last is non-empty |
| Text.LowerIsLower | tools/extra/scripts/ad_dns_enum.py:207-208 | `lower()` gives lower-case text and is idempotent |
| Text.IndexOfSpec | tools/extra/scripts/rtsp.py:144 | `find` returns the first occurrence, and None means there is none |
| Text.ContainsIff | tools/extra/scripts/upnp.py:412 | Substring `in` holds exactly when the text occurs at some index |
| Text.IntToStringInjective | tools/extra/scripts/nessus_parser.py:94 | Distinct integers render as distinct strings |
| Text.DigitsValueOfNatToString | tools/extra/scripts/nessus_parser.py:85 | Reading the digits of `str(n)` gives `n` back |
| Codec.Base64RoundTrip | tools/extra/scripts/rtsp.py:57 | Decoding the base64 of bytes gives them back |
| Codec.Base64Length | tools/extra/scripts/rtsp.py:57 | Base64 has four characters per started group of three bytes |
| Codec.Base64Alphabet | tools/extra/scripts/rtsp.py:57 | Base64 uses only the alphabet of section 4 of RFC 4648 and `=` |
| Codec.Utf8RoundTrip | tools/extra/scripts/rtsp.py:57 | Decoding the UTF-8 encoding of a string gives it back |
| Codec.Utf8Append | tools/extra/scripts/rtsp.py:56-57 | UTF-8 encoding distributes over concatenation |
| Codec.Utf16LeRoundTrip | tools/extra/scripts/getAESKey.py:23 | Decoding the UTF-16LE encoding of a string gives it back |
| Codec.Utf16LeAppend | tools/extra/scripts/getAESKey.py:23 | UTF-16LE encoding distributes over concatenation |
| Codec.Utf16LeLength | tools/extra/scripts/getAESKey.py:23 | Characters of the Basic Multilingual Plane take two bytes each |
| Codec.UnhexlifyDefined | tools/extra/scripts/getAESKey.py:17 | `unhexlify` succeeds exactly on even-length hexadecimal text, giving half as many bytes |
| Codec.HexRoundTrip | tools/extra/scripts/getAESKey.py:34 | `unhexlify(b.hex()) == b` |
| Codec.HexPrefix | tools/extra/scripts/getAESKey.py:29-34 | The hex of a prefix is the prefix of the hex, two digits per byte |
| Ordering.LessStrIsStrictTotal | tools/extra/scripts/nessus_parser.py:111 | Python's string `<` is a strict total order |
| Ordering.SortUniqueSpec | tools/extra/scripts/nessus_parser.py:111 | `sorted(set(xs))` is strictly increasing and holds exactly the elements of `xs` |
| Ordering.StrictlyIncreasingUnique | tools/extra/scripts/nessus_parser.py:142 | A strictly increasing sequence is determined by its elements |
| Ordering.StableSortBySpec | tools/extra/scripts/ad_dns_enum.py:224 | `list.sort(key=...)` orders by key, permutes, and keeps the relative order of equal keys |
| Seqs.FilterMapMembers | tools/extra/scripts/dhcp_enum.py:60-74 | A filter loop's results are exactly the results of the elements that yield one |
| Seqs.ConcatMapMembers | tools/extra/scripts/dhcp_enum.py:230-233 | A concatenating loop's elements are exactly those of some element's results |
| Seqs.DedupeSpec | tools/extra/msf/msf_common_runner.rb:69 | `uniq` and the `seen`-set idiom leave no repeats, drop no element, and keep first occurrences in order |
| Seqs.DedupeSnoc | tools/extra/scripts/upnp.py:121 | One more element is kept exactly when it has not been seen |
| Seqs.LastWhereSpec | tools/extra/scripts/extractDefaultCreds2.py:77-84 | The last element satisfying a test: it satisfies it and none after it does |
| Seqs.FoldLAppend | tools/extra/scripts/extractDefaultCreds.py:62-87 | Folding over a concatenation folds the second part from the result of the first, so a loop can be resumed where it stopped |
| Assoc.MapOfKeys | tools/extra/scripts/upnp.py:121 | A key of a dictionary built by assignments is present exactly when some assignment sets it |
| Assoc.MapOfLastWins | tools/extra/scripts/upnp.py:121 | Its value is that of the last assignment |
| Assoc.MapOfAppend | tools/extra/scripts/extractDefaultCreds2.py:103-124 | The dictionary of two runs of assignments is the first one updated by the second |
| Assoc.KeysOfMembers | tools/extra/scripts/upnp.py:121 | A key is assigned by some assignment exactly when the dictionary has it |
| Assoc.KeyOrderSnoc | tools/extra/scripts/upnp.py:121 | Assigning a new key appends it to the key order; assigning an existing key leaves the order alone |
| Assoc.KeyOrderSpec | tools/extra/scripts/extractDefaultCreds2.py:124 | The key order of a dictionary built by assignments lists each key once, holds exactly its keys, and orders them by first assignment |
| Xml.FirstMatchSpec | tools/extra/scripts/upnp.py:227 | `find` returns the first matching child, and None when no child matches |
| Xml.AllMatchesSpec | tools/extra/scripts/upnp.py:250 | `findall` returns exactly the matching children |
| Xml.FirstOfAll | tools/extra/scripts/upnp.py:337 | `find` returns the first element `findall` returns |
| Xml.NoChildrenNoDescendants | tools/extra/scripts/upnp.py:235 | A falsy (childless) element has nothing below it |

## Left out

- Sockets, HTTP and packet I/O are not modelled: `send_msearch`, `fetch_device_description`, `fetch_scpd`, the socket exchange in `send_rtsp_describe`, `sendp` and `sniff`, and `requests.post`. Their results are inputs or function parameters, and a SOAP exchange is a function from request to outcome.
- Timing, timeouts and the receive loop of `send_rtsp_describe` are out. The received text is one input, decoded as UTF-8; invalid bytes (`errors="replace"`) are not modelled.
- Concurrency in `rtsp.py` (the spinner thread and the thread pool) is out. Scanning is one function per target.
- `mdns_enum.py` and `nessus_cli.py` are not part of this model.
- The XML tokenizer is out. A parse is a function from text to an optional element tree.
- Regular expressions are out. The `findings` regex is a search predicate parameter; the RTSP status-line pattern and the IPvFuture pattern of urlsplit are written out by hand.
- What urllib draws from other libraries is a parameter (`UrlLib`): the URL `urljoin` resolves, NFKC normalisation (`unicodedata`) and the IPv6 test of `ipaddress.ip_address`. urlsplit itself is modelled for the scheme and netloc it returns and for each ValueError it raises (unpaired brackets, an invalid bracketed host, a netloc that NFKC changes to contain `/?#@:`); path, query, fragment and params are not modelled. `urljoin` raises where urlsplit raises on either argument, and that is modelled too.
- The `urljoin` of `fetch_scpd` (`upnp.py:290`) is out with the rest of `fetch_scpd`, which is HTTP I/O.
- Rtsp.DigitRun: `\d` is read as the ASCII digits `0`-`9`. Python's `\d` on `str` also matches every other Unicode decimal digit (category Nd), so a status line written with such digits has a code in Python and none in the model.
- Rtsp.StatusCode: for the same reason `int(match.group(1))` is modelled on ASCII digits only. The `\s` runs follow Python's full white-space set.
- HMAC-SHA1 is a parameter returning 20 bytes.
- DNS resolution is out. The SRV lookup and `resolve_host` are function parameters.
- DHCPv6 (`send_solicit_and_sniff_v6`) and `print_summary` are out. They are packet decoding and printing.
- File writes are out: `store_malformed_xml` writing the file, `os.path.abspath`, and the CSV and JSON writers. The clock is out too; the timestamp is a parameter.
- The tee-directory check and `mkdir` become the `teeDirReady` parameter.
- Printing and logging are out. Outcomes are values; messages printed to stderr are datatype constructors.
- `cmd_live_hosts` is out. It only prints each host's name.
- The Metasploit framework and database objects are out. Hosts and services are input records, and a module's option names are an input set.
- Text.LowerChar: upper and lower case are mapped for ASCII letters only. Python and Ruby also map other Unicode letters.
- Nessus.PyInt: `int()` is modelled for ASCII digits and white space only. It does not accept underscores or non-ASCII digits.
- Nessus.PortsReport: ports with the same numeric value but different text (`80` and `080`) keep first-seen order. Python's set order there is unspecified.
- Codec.Utf16LeEncode: lone surrogates cannot occur in the model's strings. Python raises on them.
- DefaultCreds.ExtractInformation: requires every host to have `<ports>`. The source raises on a host without one, and the model does not describe that exception.

## Findings

| source | as written | input that shows it | evidently intended | confidence | as-written member | corrected member |
|---|---|---|---|---|---|---|
| tools/extra/scripts/upnp.py:338 | `action_name_elem.text.strip()` is called whenever `<name>` exists | `<action><name/></action>`: the text is None and `.strip()` raises AttributeError. `parse_scpd` is called at `upnp.py:541` with no handler, so the error leaves `enumerate_upnp_devices` and `main`. Only `upnp.py:593-594` catches it: it prints `[ERROR] Unexpected exception` and exits 1, so every remaining service and device is skipped | a text-less name is labelled `UnnamedAction` like a missing one | not executed | Upnp.NamelessActionRaises | Upnp.ActionNameAgrees |
| tools/extra/scripts/dhcp_enum.py:250 | `open(args.json-output, "w")` | any `-j out.json`: `args.json` does not exist, so AttributeError is raised after the summary is printed and nothing is written | `open(args.json_output, "w")` | not executed | Dhcp.JsonAsWrittenVsIntended | Dhcp.SaveJson |
