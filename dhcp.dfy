/** `dhcp_enum.py`: the DHCPv4 option lookup, the selection of offers, NAKs
    and ACKs among sniffed replies, the normalisation of their optional
    fields, and the bogus-request probe loop of `main`. The packets on the
    wire are inputs: `replies` is what a sniff returns, `probeReplies(sid)`
    what the sniff after a request naming server `sid` returns. */
module Dhcp {
  import opened Text
  import opened Seqs

  /** An option value as scapy decodes it. */
  datatype OptValue = Int(i: int) | Str(s: string) | List(items: seq<OptValue>)

  /** An entry of a DHCP options list: a `(key, value, ...)` tuple, or a bare
      word such as `"end"` or `"pad"`. */
  datatype OptEntry = Tuple(key: string, value: OptValue, more: seq<OptValue>) | Word(word: string)

  /** A sniffed reply: whether it has a DHCP layer, its options, and the
      BOOTP `yiaddr`. */
  datatype Packet = Packet(hasDhcp: bool, options: seq<OptEntry>, yiaddr: string)

  /** Python truthiness of a value: non-zero, non-empty. */
  predicate Truthy(v: OptValue) {
    match v
    case Int(i) => i != 0
    case Str(s) => s != ""
    case List(items) => items != []
  }

  predicate HasKey(e: OptEntry, key: string) {
    e.Tuple? && e.key == key
  }

  /** `dhcp_option`: the value of the first tuple with the key; bare words
      are skipped. */
  function DhcpOption(opts: seq<OptEntry>, key: string): (r: Option<OptValue>)
    ensures r.None? <==> forall i :: 0 <= i < |opts| ==> !HasKey(opts[i], key)
    ensures r.Some? ==> exists k :: 0 <= k < |opts| && HasKey(opts[k], key) && opts[k].value == r.value
                          && forall i :: 0 <= i < k ==> !HasKey(opts[i], key)
  {
    if opts == [] then None
    else if HasKey(opts[0], key) then Some(opts[0].value)
    else
      var r := DhcpOption(opts[1..], key);
      assert forall i :: 1 <= i < |opts| ==> opts[i] == opts[1..][i - 1];
      if r.Some? then
        var k :| 0 <= k < |opts[1..]| && HasKey(opts[1..][k], key) && opts[1..][k].value == r.value
                 && forall i :: 0 <= i < k ==> !HasKey(opts[1..][i], key);
        assert HasKey(opts[k + 1], key) && opts[k + 1].value == r.value;
        r
      else r
  }

  /** Options before the first tuple with the key do not change the answer,
      and neither does anything after it. */
  lemma DhcpOptionFirstWins(a: seq<OptEntry>, b: seq<OptEntry>, key: string)
    requires DhcpOption(a, key).Some?
    ensures DhcpOption(a + b, key) == DhcpOption(a, key)
  {
    var ab := a + b;
    var k :| 0 <= k < |a| && HasKey(a[k], key) && a[k].value == DhcpOption(a, key).value
             && forall i :: 0 <= i < k ==> !HasKey(a[i], key);
    assert ab[k] == a[k];
    forall i | 0 <= i < k ensures !HasKey(ab[i], key) {
      assert ab[i] == a[i];
    }
    var j :| 0 <= j < |ab| && HasKey(ab[j], key) && ab[j].value == DhcpOption(ab, key).value
             && forall i :: 0 <= i < j ==> !HasKey(ab[i], key);
    assert !(j < k) && !(k < j);
  }

  // =====================================================================
  // Optional fields

  /** The optional fields copied into offers and ACKs, in order. */
  const ListFields: seq<string> :=
    ["subnet_mask", "router", "name_server", "name_servers", "domain", "ntp_server", "ntp_servers"]

  /** A list is kept as it is; anything else becomes a one-element list. */
  function AsList(v: OptValue): seq<OptValue> {
    if v.List? then v.items else [v]
  }

  /** The entry a field contributes: present only when its value is truthy. */
  function FieldEntry(opts: seq<OptEntry>, field: string): Option<(string, seq<OptValue>)> {
    match DhcpOption(opts, field)
    case Some(v) => if Truthy(v) then Some((field, AsList(v))) else None
    case None => None
  }

  /** The optional fields of a reply, in the order of `ListFields`. */
  function ListFieldsOf(opts: seq<OptEntry>): seq<(string, seq<OptValue>)> {
    FilterMap(ListFields, f => FieldEntry(opts, f))
  }

  /** The field loop shared by the offer and ACK readers. */
  method ReadListFields(opts: seq<OptEntry>) returns (fields: seq<(string, seq<OptValue>)>)
    ensures fields == ListFieldsOf(opts)
  {
    var entry := f => FieldEntry(opts, f);
    fields := [];
    for k := 0 to |ListFields|
      invariant fields == FilterMap(ListFields[..k], entry)
    {
      FilterMapStep(ListFields, k, entry);
      var f := ListFields[k];
      var v := DhcpOption(opts, f);
      if v.Some? && Truthy(v.value) {
        var items := v.value;
        if !items.List? {
          items := List([items]);
        }
        fields := fields + [(f, items.items)];
      } else {
        assert entry(f) == None;
        assert FilterMap(ListFields[..k + 1], entry) == FilterMap(ListFields[..k], entry) + [];
        assert FilterMap(ListFields[..k + 1], entry) == FilterMap(ListFields[..k], entry);
      }
    }
    FilterMapWhole(ListFields, entry);
  }

  /** A field is stored exactly when the reply carries it with a truthy
      value, and then as that value made a list. */
  lemma ListFieldsSpec(opts: seq<OptEntry>, field: string, items: seq<OptValue>)
    ensures (field, items) in ListFieldsOf(opts) <==>
              field in ListFields && DhcpOption(opts, field).Some? && Truthy(DhcpOption(opts, field).value)
              && items == AsList(DhcpOption(opts, field).value)
  {
    var entry := f => FieldEntry(opts, f);
    FilterMapMembers(ListFields, entry, (field, items));
    if field in ListFields && DhcpOption(opts, field).Some? && Truthy(DhcpOption(opts, field).value)
       && items == AsList(DhcpOption(opts, field).value) {
      var i :| 0 <= i < |ListFields| && ListFields[i] == field;
      assert entry(ListFields[i]) == Some((field, items));
    }
  }

  // =====================================================================
  // Offers, NAKs and ACKs

  /** An offer dictionary: `server_id` and `lease_time` are None when the
      option is missing; `fields` holds the optional fields in insertion
      order. */
  datatype Offer = Offer(serverId: Option<OptValue>, yourIp: string, leaseTime: Option<OptValue>,
                         fields: seq<(string, seq<OptValue>)>)

  datatype Nak = Nak(serverId: Option<OptValue>)

  datatype Ack = Ack(serverId: Option<OptValue>, fields: seq<(string, seq<OptValue>)>)

  /** Whether a reply is a DHCP message of the given type (option 53,
      section 9.6 of RFC 2132: 2 OFFER, 5 ACK, 6 NAK). */
  predicate IsMessageType(p: Packet, t: int) {
    p.hasDhcp && DhcpOption(p.options, "message-type") == Some(Int(t))
  }

  function OfferOf(p: Packet): Option<Offer> {
    if IsMessageType(p, 2) then
      Some(Offer(DhcpOption(p.options, "server_id"), p.yiaddr, DhcpOption(p.options, "lease_time"),
                 ListFieldsOf(p.options)))
    else None
  }

  function NakOf(p: Packet): Option<Nak> {
    if IsMessageType(p, 6) then Some(Nak(DhcpOption(p.options, "server_id"))) else None
  }

  function AckOf(p: Packet): Option<Ack> {
    if IsMessageType(p, 5) then Some(Ack(DhcpOption(p.options, "server_id"), ListFieldsOf(p.options)))
    else None
  }

  /** The reply loop of `send_discover_and_sniff`. */
  method CollectOffers(replies: seq<Packet>) returns (offers: seq<Offer>)
    ensures offers == FilterMap(replies, OfferOf)
  {
    offers := [];
    for k := 0 to |replies|
      invariant offers == FilterMap(replies[..k], OfferOf)
    {
      FilterMapStep(replies, k, OfferOf);
      var p := replies[k];
      if p.hasDhcp && DhcpOption(p.options, "message-type") == Some(Int(2)) {
        var opts := p.options;
        var fields := ReadListFields(opts);
        var o := Offer(DhcpOption(opts, "server_id"), p.yiaddr, DhcpOption(opts, "lease_time"), fields);
        offers := offers + [o];
      } else {
        assert OfferOf(p) == None;
        assert FilterMap(replies[..k + 1], OfferOf) == FilterMap(replies[..k], OfferOf) + [];
        assert FilterMap(replies[..k + 1], OfferOf) == FilterMap(replies[..k], OfferOf);
      }
    }
    FilterMapWhole(replies, OfferOf);
  }

  /** The reply loop of `send_request_probe_and_sniff`. */
  method CollectNaks(replies: seq<Packet>) returns (naks: seq<Nak>)
    ensures naks == FilterMap(replies, NakOf)
  {
    naks := [];
    for k := 0 to |replies|
      invariant naks == FilterMap(replies[..k], NakOf)
    {
      FilterMapStep(replies, k, NakOf);
      var p := replies[k];
      if p.hasDhcp && DhcpOption(p.options, "message-type") == Some(Int(6)) {
        naks := naks + [Nak(DhcpOption(p.options, "server_id"))];
      } else {
        assert NakOf(p) == None;
        assert FilterMap(replies[..k + 1], NakOf) == FilterMap(replies[..k], NakOf) + [];
        assert FilterMap(replies[..k + 1], NakOf) == FilterMap(replies[..k], NakOf);
      }
    }
    FilterMapWhole(replies, NakOf);
  }

  /** The reply loop of `send_inform_and_sniff`. */
  method CollectAcks(replies: seq<Packet>) returns (acks: seq<Ack>)
    ensures acks == FilterMap(replies, AckOf)
  {
    acks := [];
    for k := 0 to |replies|
      invariant acks == FilterMap(replies[..k], AckOf)
    {
      FilterMapStep(replies, k, AckOf);
      var p := replies[k];
      if p.hasDhcp && DhcpOption(p.options, "message-type") == Some(Int(5)) {
        var fields := ReadListFields(p.options);
        acks := acks + [Ack(DhcpOption(p.options, "server_id"), fields)];
      } else {
        assert AckOf(p) == None;
        assert FilterMap(replies[..k + 1], AckOf) == FilterMap(replies[..k], AckOf) + [];
        assert FilterMap(replies[..k + 1], AckOf) == FilterMap(replies[..k], AckOf);
      }
    }
    FilterMapWhole(replies, AckOf);
  }

  /** Only replies of the right message type count, each once and in the
      order sniffed. */
  lemma SelectionByMessageType(replies: seq<Packet>)
    ensures forall o :: o in FilterMap(replies, OfferOf) <==>
              exists i :: 0 <= i < |replies| && IsMessageType(replies[i], 2) && OfferOf(replies[i]) == Some(o)
    ensures forall n :: n in FilterMap(replies, NakOf) <==>
              exists i :: 0 <= i < |replies| && IsMessageType(replies[i], 6) && NakOf(replies[i]) == Some(n)
    ensures forall a :: a in FilterMap(replies, AckOf) <==>
              exists i :: 0 <= i < |replies| && IsMessageType(replies[i], 5) && AckOf(replies[i]) == Some(a)
  {
    forall o ensures o in FilterMap(replies, OfferOf) <==>
              exists i :: 0 <= i < |replies| && IsMessageType(replies[i], 2) && OfferOf(replies[i]) == Some(o) {
      FilterMapMembers(replies, OfferOf, o);
    }
    forall n ensures n in FilterMap(replies, NakOf) <==>
              exists i :: 0 <= i < |replies| && IsMessageType(replies[i], 6) && NakOf(replies[i]) == Some(n) {
      FilterMapMembers(replies, NakOf, n);
    }
    forall a ensures a in FilterMap(replies, AckOf) <==>
              exists i :: 0 <= i < |replies| && IsMessageType(replies[i], 5) && AckOf(replies[i]) == Some(a) {
      FilterMapMembers(replies, AckOf, a);
    }
  }

  /** `send_inform_and_sniff`: nothing is sent, and nothing reported, when
      the interface has no address yet. */
  method InformAcks(clientIp: string, replies: seq<Packet>) returns (acks: seq<Ack>)
    ensures clientIp == "0.0.0.0" ==> acks == []
    ensures clientIp != "0.0.0.0" ==> acks == FilterMap(replies, AckOf)
  {
    if clientIp == "0.0.0.0" {
      return [];
    }
    acks := CollectAcks(replies);
  }

  // =====================================================================
  // The probe loop of main

  /** The NAKs a probe at one offer's server yields: none when the offer has
      no truthy `server_id`. */
  function ProbeNaks(o: Offer, probeReplies: OptValue -> seq<Packet>): seq<Nak> {
    if o.serverId.Some? && Truthy(o.serverId.value) then FilterMap(probeReplies(o.serverId.value), NakOf)
    else []
  }

  /** `naks += send_request_probe_and_sniff(...)` over the offers. */
  method ProbeAll(offers: seq<Offer>, probeReplies: OptValue -> seq<Packet>) returns (naks: seq<Nak>)
    ensures naks == ConcatMap(offers, o => ProbeNaks(o, probeReplies))
  {
    var perOffer := o => ProbeNaks(o, probeReplies);
    naks := [];
    for k := 0 to |offers|
      invariant naks == ConcatMap(offers[..k], perOffer)
    {
      ConcatMapStep(offers, k, perOffer);
      var sid := offers[k].serverId;
      if sid.Some? && Truthy(sid.value) {
        var found := CollectNaks(probeReplies(sid.value));
        naks := naks + found;
      } else {
        assert perOffer(offers[k]) == [];
        assert ConcatMap(offers[..k + 1], perOffer) == ConcatMap(offers[..k], perOffer) + [];
        assert ConcatMap(offers[..k + 1], perOffer) == ConcatMap(offers[..k], perOffer);
      }
    }
    ConcatMapWhole(offers, perOffer);
  }

  /** Every NAK answers a probe sent for an offer with a truthy server id. */
  lemma ProbedOnlyWithServerId(offers: seq<Offer>, probeReplies: OptValue -> seq<Packet>, n: Nak)
    ensures n in ConcatMap(offers, o => ProbeNaks(o, probeReplies)) <==>
              exists k :: 0 <= k < |offers| && offers[k].serverId.Some? && Truthy(offers[k].serverId.value)
                && n in FilterMap(probeReplies(offers[k].serverId.value), NakOf)
  {
    ConcatMapMembers(offers, o => ProbeNaks(o, probeReplies), n);
  }

  // =====================================================================
  // Saving the report

  /** What happens at the end of `main` with the `-j` option. */
  datatype SaveOutcome = NotRequested | Written(path: string) | RaisesAttributeError

  /** As written, the file name is `args.json-output`: the attribute
      `json` of the argument namespace minus a variable `output`. The
      namespace has no `json` attribute, so this raises whenever `-j` is
      given, after the summary was printed and before anything is written. */
  function SaveJsonAsWritten(jsonOutput: Option<string>): SaveOutcome {
    if jsonOutput.Some? && jsonOutput.value != "" then RaisesAttributeError else NotRequested
  }

  /** The evident intent: write to `args.json_output`. */
  function SaveJson(jsonOutput: Option<string>): SaveOutcome {
    if jsonOutput.Some? && jsonOutput.value != "" then Written(jsonOutput.value) else NotRequested
  }

  /** The code as written and the intended one agree exactly when no file
      name is given; with one, the former raises where the latter writes the
      report to that file. */
  lemma JsonAsWrittenVsIntended(jsonOutput: Option<string>)
    ensures SaveJsonAsWritten(jsonOutput) == SaveJson(jsonOutput) <==> jsonOutput.None? || jsonOutput.value == ""
    ensures jsonOutput.Some? && jsonOutput.value != "" ==>
              SaveJsonAsWritten(jsonOutput) == RaisesAttributeError && SaveJson(jsonOutput) == Written(jsonOutput.value)
  {
  }
}
