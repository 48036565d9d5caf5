/** `ad_dns_enum.py`: SRV enumeration for a domain, then normalisation of the
    records to lowercase, sorted, duplicate-free output. The DNS lookups are
    parameters: `lookupSrv` gives the SRV answers for a name (empty when
    there is none or the query fails), `resolveHost` the A then AAAA
    addresses of a host. */
module AdDns {
  import opened Text
  import opened Ordering
  import opened Seqs

  // =====================================================================
  // Comma-separated lists (`-s` and `-S`)

  /** One piece of a comma list: stripped, and dropped when that leaves
      nothing. */
  function CommaItem(piece: string): Option<string> {
    var item := Strip(piece);
    if item == "" then None else Some(item)
  }

  /** `[x.strip() for x in s.split(",") if x.strip()]`. */
  function CommaList(s: string): seq<string> {
    FilterMap(Split(s, ","), CommaItem)
  }

  /** An item as it can appear in a parsed comma list. */
  predicate IsListItem(item: string) {
    IsListItemStripped(item) && ',' !in item
  }

  /** The items are exactly the non-blank pieces between the commas,
      stripped. */
  lemma CommaListMembers(s: string, item: string)
    ensures item in CommaList(s) ==> exists i :: 0 <= i < |Split(s, ",")| && Strip(Split(s, ",")[i]) == item
    ensures item in CommaList(s) ==> item != ""
    ensures forall i :: 0 <= i < |Split(s, ",")| && Strip(Split(s, ",")[i]) != "" ==>
              Strip(Split(s, ",")[i]) in CommaList(s)
  {
    var pieces := Split(s, ",");
    FilterMapMembers(pieces, CommaItem, item);
    forall i | 0 <= i < |pieces| && Strip(pieces[i]) != "" ensures Strip(pieces[i]) in CommaList(s) {
      FilterMapMembers(pieces, CommaItem, Strip(pieces[i]));
      assert CommaItem(pieces[i]) == Some(Strip(pieces[i]));
    }
  }

  /** Each item is non-empty, stripped and free of commas. */
  lemma CommaListItems(s: string, item: string)
    requires item in CommaList(s)
    ensures IsListItem(item)
  {
    var pieces := Split(s, ",");
    FilterMapMembers(pieces, CommaItem, item);
    var i :| 0 <= i < |pieces| && CommaItem(pieces[i]) == Some(item);
    CommaItemShape(pieces[i]);
    SplitPiecesFree(s, ",");
    ContainsChar(pieces[i], ',');
    StripSubset(pieces[i], ',');
  }

  lemma CommaItemShape(piece: string)
    ensures CommaItem(piece).Some? ==> CommaItem(piece).value == Strip(piece) && IsListItemStripped(Strip(piece))
  {
    StripIdempotent(piece);
  }

  predicate IsListItemStripped(item: string) {
    item != "" && Strip(item) == item
  }

  /** Joining items with commas and parsing the result gives them back. */
  lemma CommaListOfJoin(items: seq<string>)
    requires items != [] && forall i :: 0 <= i < |items| ==> IsListItem(items[i])
    ensures CommaList(Join(items, ",")) == items
  {
    forall i | 0 <= i < |items| ensures IndexOf(items[i] + ",", ",") == Some(|items[i]|) && !Contains(items[i], ",") {
      SepFirst(items[i], ",");
    }
    JoinSplit(items, ",");
    FilterMapIdentity(items, CommaItem);
  }

  // =====================================================================
  // Resolver set-up

  /** The resolver settings the script chooses. */
  class Resolver {
    var nameservers: seq<string>
    var timeout: int
    var lifetime: int

    /** A resolver with the system's nameservers and its own defaults. */
    constructor(systemNameservers: seq<string>)
      ensures nameservers == systemNameservers
    {
      nameservers := systemNameservers;
      timeout := 0;
      lifetime := 0;
    }
  }

  /** `get_resolver`: timeouts of 3 and 5 seconds, and the given servers in
      place of the system's when the option is a non-empty string. */
  method GetResolver(dnsServers: Option<string>, systemNameservers: seq<string>) returns (resolver: Resolver)
    ensures fresh(resolver)
    ensures resolver.timeout == 3 && resolver.lifetime == 5
    ensures resolver.nameservers ==
              if dnsServers.Some? && dnsServers.value != "" then CommaList(dnsServers.value) else systemNameservers
  {
    resolver := new Resolver(systemNameservers);
    resolver.timeout := 3;
    resolver.lifetime := 5;
    if dnsServers.Some? && dnsServers.value != "" {
      resolver.nameservers := [];
      var pieces := Split(dnsServers.value, ",");
      for k := 0 to |pieces|
        invariant resolver.timeout == 3 && resolver.lifetime == 5
        invariant resolver.nameservers == FilterMap(pieces[..k], CommaItem)
      {
        FilterMapStep(pieces, k, CommaItem);
        var ip := Strip(pieces[k]);
        if ip == "" {
          assert CommaItem(pieces[k]) == None;
          assert FilterMap(pieces[..k + 1], CommaItem) == FilterMap(pieces[..k], CommaItem) + [];
          assert FilterMap(pieces[..k + 1], CommaItem) == FilterMap(pieces[..k], CommaItem);
          continue;
        }
        assert CommaItem(pieces[k]) == Some(ip);
        resolver.nameservers := resolver.nameservers + [ip];
      }
      FilterMapWhole(pieces, CommaItem);
    }
  }

  // =====================================================================
  // Prefixes and names

  const AdSrvPrefixes: seq<string> := [
    "_ldap._tcp", "_ldap._tcp.dc._msdcs", "_ldap._tcp.pdc._msdcs",
    "_kerberos._tcp", "_kerberos._tcp.dc._msdcs", "_kerberos._udp",
    "_kerberos-master._tcp", "_kerberos-master._tcp.dc._msdcs",
    "_kpasswd._tcp", "_kpasswd._udp", "_gc._tcp", "_gc._tcp.dc._msdcs"]

  const GeneralSrvPrefixes: seq<string> := [
    "_http._tcp", "_https._tcp", "_ssh._tcp", "_ftp._tcp",
    "_sip._tcp", "_sip._udp", "_printers._tcp", "_ipp._tcp"]

  const DefaultPrefixes: seq<string> := AdSrvPrefixes + GeneralSrvPrefixes

  /** The prefixes `main` queries: the `-S` list when given and non-empty,
      the built-in list otherwise. */
  function Prefixes(services: Option<string>): (r: seq<string>)
    ensures services.None? || services.value == "" ==> r == DefaultPrefixes && |r| == 20
    ensures services.Some? && services.value != "" ==> r == CommaList(services.value)
    ensures forall p :: p in r ==> IsListItem(p)
  {
    if services.Some? && services.value != "" then
      var r := CommaList(services.value);
      forall p | p in r ensures IsListItem(p) {
        CommaListItems(services.value, p);
      }
      r
    else
      DefaultPrefixesAreItems();
      DefaultPrefixes
  }

  lemma DefaultPrefixesAreItems()
    ensures forall p :: p in DefaultPrefixes ==> IsListItem(p)
  {
    forall i | 0 <= i < |DefaultPrefixes| ensures IsListItem(DefaultPrefixes[i]) {
      var n := |AdSrvPrefixes|;
      if i < 6 {
        AdPrefixIsItem(i);
      } else if i < n {
        AdPrefixIsItemHigh(i);
      } else if i < n + 4 {
        GeneralPrefixIsItem(i - n);
      } else {
        GeneralPrefixIsItemHigh(i - n);
      }
    }
  }

  /** A prefix of the `_service._proto...` shape is a list item. */
  lemma ShapeIsItem(p: string)
    requires p != [] && p[0] == '_' && 'a' <= p[|p| - 1] <= 'z' && ',' !in p
    ensures IsListItem(p)
  {
    StripTrimmed(p);
  }

  lemma AdPrefixIsItem(i: nat)
    requires i < 6
    ensures IsListItem(AdSrvPrefixes[i])
  {
    ShapeIsItem(AdSrvPrefixes[i]);
  }

  lemma AdPrefixIsItemHigh(i: nat)
    requires 6 <= i < |AdSrvPrefixes|
    ensures IsListItem(AdSrvPrefixes[i])
  {
    ShapeIsItem(AdSrvPrefixes[i]);
  }

  lemma GeneralPrefixIsItem(i: nat)
    requires i < 4
    ensures IsListItem(GeneralSrvPrefixes[i])
  {
    ShapeIsItem(GeneralSrvPrefixes[i]);
  }

  lemma GeneralPrefixIsItemHigh(i: nat)
    requires 4 <= i < |GeneralSrvPrefixes|
    ensures IsListItem(GeneralSrvPrefixes[i])
  {
    ShapeIsItem(GeneralSrvPrefixes[i]);
  }

  /** `parse_args`' check: the domain must contain a dot; the message is the
      one the parser exits with. */
  function DomainError(domain: string): Option<string> {
    if '.' !in domain then Some(DomainMessage) else None
  }

  const DomainMessage: string := "Invalid domain format; expected a DNS-style domain (e.g., example.com)"

  /** A domain passes exactly when it splits at a first dot into a label and
      the rest, so every `first.rest` passes whatever its parts; a
      single-label name is refused with the parser's message. */
  lemma DomainCheck(domain: string, first: string, rest: string)
    ensures DomainError(first + "." + rest) == None
    ensures DomainError(domain) == None <==> SplitOnce(domain, ".").1.Some?
    ensures DomainError(domain) != None ==> DomainError(domain) == Some(DomainMessage)
  {
    assert (first + "." + rest)[|first|] == '.';
    ContainsChar(domain, '.');
  }

  /** The SRV name queried for a prefix: `f"{prefix}.{domain}".lower()`. */
  function QueryName(prefix: string, domain: string): string {
    Lower(prefix + "." + domain)
  }

  /** The query name is lowercase, and is the lowercased prefix and domain
      around one dot. */
  lemma QueryNameSpec(prefix: string, domain: string)
    ensures IsLower(QueryName(prefix, domain))
    ensures QueryName(prefix, domain) == Lower(prefix) + "." + Lower(domain)
    ensures |QueryName(prefix, domain)| == |prefix| + 1 + |domain|
  {
    LowerIsLower(prefix + "." + domain);
    var q := QueryName(prefix, domain);
    var r := Lower(prefix) + "." + Lower(domain);
    assert |q| == |r|;
    forall i | 0 <= i < |q| ensures q[i] == r[i] {
      if i < |prefix| {
      } else if i == |prefix| {
      } else {
        assert (prefix + "." + domain)[i] == domain[i - |prefix| - 1];
      }
    }
  }

  // =====================================================================
  // SRV records

  /** One SRV answer as the resolver returns it. */
  datatype SrvAnswer = SrvAnswer(priority: int, weight: int, port: int, target: string)

  /** A record dictionary: `ips` is empty until `enumerate_services`
      resolves the target. */
  datatype SrvRecord = SrvRecord(
    service: string, priority: int, weight: int, port: int, target: string, ips: seq<string>)

  /** `str(r.target).rstrip('.')`. */
  function SrvTarget(name: string): (r: string)
    ensures r == [] || r[|r| - 1] != '.'
    ensures exists dots :: name == r + dots && forall i :: 0 <= i < |dots| ==> dots[i] == '.'
  {
    var r := RStripChar(name, '.');
    assert name == r + name[|r|..];
    r
  }

  function RecordOf(fqdn: string, a: SrvAnswer): SrvRecord {
    SrvRecord(fqdn, a.priority, a.weight, a.port, SrvTarget(a.target), [])
  }

  function SrvRecords(fqdn: string, answers: seq<SrvAnswer>): seq<SrvRecord> {
    if answers == [] then []
    else SrvRecords(fqdn, answers[..|answers| - 1]) + [RecordOf(fqdn, answers[|answers| - 1])]
  }

  lemma {:induction false} SrvRecordsSpec(fqdn: string, answers: seq<SrvAnswer>)
    ensures |SrvRecords(fqdn, answers)| == |answers|
    ensures forall i :: 0 <= i < |answers| ==> SrvRecords(fqdn, answers)[i] == RecordOf(fqdn, answers[i])
  {
    if answers != [] {
      SrvRecordsSpec(fqdn, answers[..|answers| - 1]);
    }
  }

  /** `query_srv`: one record per answer, in order, named by the query and
      with the trailing dots of the target removed. */
  method QuerySrv(fqdn: string, lookupSrv: string -> seq<SrvAnswer>) returns (records: seq<SrvRecord>)
    ensures |records| == |lookupSrv(fqdn)|
    ensures forall i :: 0 <= i < |records| ==> records[i] == RecordOf(fqdn, lookupSrv(fqdn)[i])
  {
    var answers := lookupSrv(fqdn);
    records := [];
    for k := 0 to |answers|
      invariant |records| == k
      invariant forall i :: 0 <= i < k ==> records[i] == RecordOf(fqdn, answers[i])
    {
      records := records + [RecordOf(fqdn, answers[k])];
    }
  }

  /** The records found under one prefix, each with its addresses. */
  function PrefixRecords(domain: string, prefix: string,
                         lookupSrv: string -> seq<SrvAnswer>, resolveHost: string -> seq<string>): seq<SrvRecord>
  {
    var fqdn := QueryName(prefix, domain);
    var answers := lookupSrv(fqdn);
    seq(|answers|, i requires 0 <= i < |answers| =>
      RecordOf(fqdn, answers[i]).(ips := resolveHost(SrvTarget(answers[i].target))))
  }

  function Enumerated(domain: string, prefixes: seq<string>,
                      lookupSrv: string -> seq<SrvAnswer>, resolveHost: string -> seq<string>): seq<SrvRecord>
  {
    ConcatMap(prefixes, p => PrefixRecords(domain, p, lookupSrv, resolveHost))
  }

  /** `enumerate_services`. */
  method EnumerateServices(domain: string, prefixes: seq<string>,
                           lookupSrv: string -> seq<SrvAnswer>, resolveHost: string -> seq<string>)
    returns (records: seq<SrvRecord>)
    ensures records == Enumerated(domain, prefixes, lookupSrv, resolveHost)
  {
    var perPrefix := p => PrefixRecords(domain, p, lookupSrv, resolveHost);
    records := [];
    for k := 0 to |prefixes|
      invariant records == ConcatMap(prefixes[..k], perPrefix)
    {
      ConcatMapStep(prefixes, k, perPrefix);
      var found := AddressedRecords(domain, prefixes[k], lookupSrv, resolveHost);
      records := records + found;
    }
    ConcatMapWhole(prefixes, perPrefix);
  }

  /** The body of the `enumerate_services` loop for one prefix. */
  method AddressedRecords(domain: string, prefix: string,
                          lookupSrv: string -> seq<SrvAnswer>, resolveHost: string -> seq<string>)
    returns (found: seq<SrvRecord>)
    ensures found == PrefixRecords(domain, prefix, lookupSrv, resolveHost)
  {
    var fqdn := QueryName(prefix, domain);
    var srvRecs := QuerySrv(fqdn, lookupSrv);
    found := [];
    for j := 0 to |srvRecs|
      invariant |found| == j
      invariant forall i :: 0 <= i < j ==> found[i] == srvRecs[i].(ips := resolveHost(srvRecs[i].target))
    {
      found := found + [srvRecs[j].(ips := resolveHost(srvRecs[j].target))];
    }
  }

  /** Every record comes from an answer to the query for one of the
      prefixes, carries that query's name and the answer's target without
      trailing dots, and has the target's addresses; every answer gives one. */
  lemma EnumeratedMembers(domain: string, prefixes: seq<string>,
                          lookupSrv: string -> seq<SrvAnswer>, resolveHost: string -> seq<string>, rec: SrvRecord)
    ensures rec in Enumerated(domain, prefixes, lookupSrv, resolveHost) <==>
              exists k, a :: 0 <= k < |prefixes| && a in lookupSrv(QueryName(prefixes[k], domain))
                && rec == SrvRecord(QueryName(prefixes[k], domain), a.priority, a.weight, a.port,
                                    SrvTarget(a.target), resolveHost(SrvTarget(a.target)))
  {
    var perPrefix := p => PrefixRecords(domain, p, lookupSrv, resolveHost);
    ConcatMapMembers(prefixes, perPrefix, rec);
    if rec in Enumerated(domain, prefixes, lookupSrv, resolveHost) {
      var k :| 0 <= k < |prefixes| && rec in perPrefix(prefixes[k]);
      var answers := lookupSrv(QueryName(prefixes[k], domain));
      var i :| 0 <= i < |answers| && perPrefix(prefixes[k])[i] == rec;
      assert answers[i] in answers;
    }
    if exists k, a :: 0 <= k < |prefixes| && a in lookupSrv(QueryName(prefixes[k], domain))
         && rec == SrvRecord(QueryName(prefixes[k], domain), a.priority, a.weight, a.port,
                             SrvTarget(a.target), resolveHost(SrvTarget(a.target))) {
      var k, a :| 0 <= k < |prefixes| && a in lookupSrv(QueryName(prefixes[k], domain))
         && rec == SrvRecord(QueryName(prefixes[k], domain), a.priority, a.weight, a.port,
                             SrvTarget(a.target), resolveHost(SrvTarget(a.target)));
      var answers := lookupSrv(QueryName(prefixes[k], domain));
      var i :| 0 <= i < |answers| && answers[i] == a;
      assert perPrefix(prefixes[k])[i] == rec;
    }
  }

  // =====================================================================
  // normalize_sort_unique

  /** One record after the first loop: service and target lowercased, the
      addresses lowercased, without repeats and sorted. */
  function Normalize(rec: SrvRecord): SrvRecord {
    rec.(service := Lower(rec.service), target := Lower(rec.target),
         ips := SortUnique(seq(|rec.ips|, i requires 0 <= i < |rec.ips| => Lower(rec.ips[i])), LessStr))
  }

  predicate IsNormal(rec: SrvRecord) {
    && IsLower(rec.service) && IsLower(rec.target)
    && StrictlyIncreasing(rec.ips, LessStr)
    && forall i :: 0 <= i < |rec.ips| ==> IsLower(rec.ips[i])
  }

  /** A normalised record is lowercase with sorted, distinct addresses,
      which are the lowercased addresses of the original; nothing else
      changes. */
  lemma NormalizeSpec(rec: SrvRecord)
    ensures IsNormal(Normalize(rec))
    ensures forall ip :: ip in Normalize(rec).ips <==> exists j :: 0 <= j < |rec.ips| && ip == Lower(rec.ips[j])
    ensures Normalize(rec).priority == rec.priority && Normalize(rec).weight == rec.weight
    ensures Normalize(rec).port == rec.port
  {
    var lowered := seq(|rec.ips|, i requires 0 <= i < |rec.ips| => Lower(rec.ips[i]));
    LessStrIsStrictTotal();
    SortUniqueSpec(lowered, LessStr);
    LowerIsLower(rec.service);
    LowerIsLower(rec.target);
    var ips := Normalize(rec).ips;
    forall i | 0 <= i < |ips| ensures IsLower(ips[i]) {
      assert ips[i] in lowered;
      var j :| 0 <= j < |lowered| && lowered[j] == ips[i];
      LowerIsLower(rec.ips[j]);
    }
    forall ip ensures ip in ips <==> exists j :: 0 <= j < |rec.ips| && ip == Lower(rec.ips[j]) {
      if ip in ips {
        var j :| 0 <= j < |lowered| && lowered[j] == ip;
      }
      if exists j :: 0 <= j < |rec.ips| && ip == Lower(rec.ips[j]) {
        var j :| 0 <= j < |rec.ips| && ip == Lower(rec.ips[j]);
        assert lowered[j] == ip;
      }
    }
  }

  /** The first loop, updating each record of the list in place. */
  method NormalizeRecords(records: array<SrvRecord>)
    modifies records
    ensures forall i :: 0 <= i < records.Length ==> records[i] == Normalize(old(records[i]))
  {
    for k := 0 to records.Length
      invariant forall i :: 0 <= i < k ==> records[i] == Normalize(old(records[i]))
      invariant forall i :: k <= i < records.Length ==> records[i] == old(records[i])
    {
      var rec := records[k];
      records[k] := rec.(service := Lower(rec.service), target := Lower(rec.target),
                         ips := SortUnique(seq(|rec.ips|, i requires 0 <= i < |rec.ips| => Lower(rec.ips[i])), LessStr));
    }
  }

  /** The second loop: a record is kept unless one with the same
      (service, priority, weight, port, target, ips) key came before. The
      key is every field of a normalised record, so it is the record. */
  method DedupeRecords(records: seq<SrvRecord>) returns (unique: seq<SrvRecord>)
    ensures unique == Dedupe(records)
  {
    var seen: set<SrvRecord> := {};
    unique := [];
    for k := 0 to |records|
      invariant unique == Dedupe(records[..k])
      invariant forall r :: r in seen <==> r in records[..k]
    {
      DedupeStep(records, k);
      var key := records[k];
      if key !in seen {
        seen := seen + {key};
        unique := unique + [key];
      }
    }
    DedupeWhole(records);
  }

  /** The sort key `(service, target, port)`. */
  function SortKey(rec: SrvRecord): (string, string, int) {
    (rec.service, rec.target, rec.port)
  }

  /** Python's `<` on such tuples: lexicographic, field by field. */
  predicate LessKey(a: (string, string, int), b: (string, string, int)) {
    || LessStr(a.0, b.0)
    || (a.0 == b.0 && LessStr(a.1, b.1))
    || (a.0 == b.0 && a.1 == b.1 && a.2 < b.2)
  }

  lemma LessKeyIsStrictTotal()
    ensures StrictTotalOrder(LessKey)
  {
    LessStrIsStrictTotal();
  }

  /** The records after the first loop. */
  function NormalizedAll(records: seq<SrvRecord>): (r: seq<SrvRecord>)
    ensures |r| == |records| && forall i :: 0 <= i < |records| ==> r[i] == Normalize(records[i])
  {
    seq(|records|, i requires 0 <= i < |records| => Normalize(records[i]))
  }

  /** `normalize_sort_unique`'s result, from the records as given. */
  function NormalizedUnique(records: seq<SrvRecord>): seq<SrvRecord> {
    StableSortBy(Dedupe(NormalizedAll(records)), SortKey, LessKey)
  }

  /** `normalize_sort_unique`: the list is normalised in place, then
      deduplicated, then sorted stably by key. */
  method NormalizeSortUnique(records: array<SrvRecord>) returns (unique: seq<SrvRecord>)
    modifies records
    ensures forall i :: 0 <= i < records.Length ==> records[i] == Normalize(old(records[i]))
    ensures unique == NormalizedUnique(old(records[..]))
  {
    NormalizeRecords(records);
    assert records[..] == NormalizedAll(old(records[..]));
    unique := DedupeRecords(records[..]);
    unique := StableSortBy(unique, SortKey, LessKey);
  }

  /** The result holds the same records as the deduplicated list. */
  lemma NormalizedUniqueMembers(records: seq<SrvRecord>)
    ensures var d := Dedupe(NormalizedAll(records));
      && multiset(NormalizedUnique(records)) == multiset(d)
      && forall x :: x in NormalizedUnique(records) <==> x in d
  {
    var d := Dedupe(NormalizedAll(records));
    var r := NormalizedUnique(records);
    LessKeyIsStrictTotal();
    StableSortBySpec(d, SortKey, LessKey);
    forall x ensures x in r <==> x in d {
      assert x in r <==> x in multiset(r);
      assert x in d <==> x in multiset(d);
    }
  }

  /** What the result guarantees: every record is normalised; the records
      are exactly the normalised inputs, each once; and they are ordered by
      (service, target, port). */
  lemma NormalizedUniqueSpec(records: seq<SrvRecord>)
    ensures var r := NormalizedUnique(records);
      && (forall i :: 0 <= i < |r| ==> IsNormal(r[i]))
      && (forall x :: x in r <==> exists i :: 0 <= i < |records| && x == Normalize(records[i]))
      && Distinct(r)
      && SortedBy(r, SortKey, LessKey)
  {
    var normal := NormalizedAll(records);
    var d := Dedupe(normal);
    var r := NormalizedUnique(records);
    assert forall x :: x in r <==> x in normal by {
      DedupeSpec(normal);
      NormalizedUniqueMembers(records);
    }
    assert forall i :: 0 <= i < |r| ==> IsNormal(r[i]) by {
      forall i | 0 <= i < |r| ensures IsNormal(r[i]) {
        assert r[i] in normal;
        var j :| 0 <= j < |normal| && normal[j] == r[i];
        NormalizeSpec(records[j]);
      }
    }
    forall x ensures x in r <==> exists i :: 0 <= i < |records| && x == Normalize(records[i]) {
      if x in normal {
        var j :| 0 <= j < |normal| && normal[j] == x;
      }
      if exists i :: 0 <= i < |records| && x == Normalize(records[i]) {
        var i :| 0 <= i < |records| && x == Normalize(records[i]);
        assert normal[i] == x;
      }
    }
    assert Distinct(r) by {
      DedupeSpec(normal);
      NormalizedUniqueMembers(records);
      DistinctMultiset(d);
      DistinctMultiset(r);
    }
    assert SortedBy(r, SortKey, LessKey) by {
      LessKeyIsStrictTotal();
      StableSortBySpec(d, SortKey, LessKey);
    }
  }

  /** Records with equal (service, target, port) keep the order of their
      first occurrences in the normalised input. */
  lemma NormalizedUniqueStable(records: seq<SrvRecord>, key: (string, string, int))
    ensures WithKey(NormalizedUnique(records), SortKey, key) == WithKey(Dedupe(NormalizedAll(records)), SortKey, key)
  {
    LessKeyIsStrictTotal();
    StableSortBySpec(Dedupe(NormalizedAll(records)), SortKey, LessKey);
  }
}
