/**
 * Packet ingestion, filtering and flow aggregation (`pcapviz/parser.py`).
 *
 * A captured packet is given by the layers the decoder found in it; decoding builds a
 * row, the filter options decide whether the row is kept, the ingestion loop stops after a
 * maximum number of kept rows, and the flow table groups kept rows by a direction-agnostic
 * 5-tuple. Timestamps are integers (nanoseconds since the epoch).
 */
module Parser {
  import opened Wrappers
  import opened Lex
  import opened Frames

  // ---------------------------------------------------------------- raw packets

  /** A network-layer header: scapy's `IP` (field `ttl`) or `IPv6` (field `hlim`). */
  datatype L3Header = L3Header(
    version: int,
    src: string,
    dst: string,
    ttl: Option<int>,
    hlim: Option<int>,
    name: Option<string>)

  datatype TcpHeader = TcpHeader(sport: int, dport: int, flags: string)

  datatype UdpHeader = UdpHeader(sport: int, dport: int)

  /** One packet of the capture: the layers present, its wire length and its capture time. */
  datatype RawPacket = RawPacket(
    ip: Option<L3Header>,
    ipv6: Option<L3Header>,
    tcp: Option<TcpHeader>,
    udp: Option<UdpHeader>,
    wireLength: nat,
    time: int)

  // ---------------------------------------------------------------- records and keys

  /** A row of the packets table. */
  datatype PacketRecord = PacketRecord(
    timestamp: int,
    srcIp: string,
    dstIp: string,
    srcPort: Option<int>,
    dstPort: Option<int>,
    protocol: string,
    length: nat,
    ipVersion: int,
    ttl: int,
    tcpFlags: Option<string>)

  /** Identifier of a flow, a 5-tuple. */
  datatype FlowKey = FlowKey(
    srcIp: string,
    dstIp: string,
    srcPort: Option<int>,
    dstPort: Option<int>,
    protocol: string)
  {
    function Left(): (string, Option<int>) { (srcIp, srcPort) }

    function Right(): (string, Option<int>) { (dstIp, dstPort) }

    /** The same conversation seen from the other endpoint. */
    function Mirror(): (m: FlowKey)
      ensures m.Left() == Right() && m.Right() == Left() && m.protocol == protocol
    {
      FlowKey(dstIp, srcIp, dstPort, srcPort, protocol)
    }

    /** The direction-agnostic key: the smaller `(ip, port)` endpoint becomes the source. */
    function Normalized(): (r: FlowKey)
      ensures r.protocol == protocol
      ensures r == this || r == Mirror()
      ensures EndpointLe(r.Left(), r.Right())
      ensures EndpointLe(Left(), Right()) ==> r == this
    {
      if EndpointLe(Left(), Right()) then this
      else
        EndpointLeTotal(Left(), Right());
        Mirror()
    }
  }

  /** Mirroring is an involution, and a key is its own mirror exactly when its endpoints agree. */
  lemma MirrorInvolution(k: FlowKey)
    ensures k.Mirror().Mirror() == k
    ensures k.Mirror() == k <==> k.Left() == k.Right()
  {
  }

  lemma NormalizedIdempotent(k: FlowKey)
    ensures k.Normalized().Normalized() == k.Normalized()
  {
  }

  lemma NormalizedMirror(k: FlowKey)
    ensures k.Mirror().Normalized() == k.Normalized()
  {
    var l, r := k.Left(), k.Right();
    if EndpointLe(l, r) && EndpointLe(r, l) {
      EndpointLeAntisymmetric(l, r);
      assert k.Mirror() == k;
    } else if !EndpointLe(l, r) {
      EndpointLeTotal(l, r);
    }
  }

  /** Two keys name the same flow exactly when they are equal or mirror images. */
  lemma SameFlow(k1: FlowKey, k2: FlowKey)
    ensures k1.Normalized() == k2.Normalized() <==> k1 == k2 || k1 == k2.Mirror()
  {
    if k1 == k2.Mirror() {
      NormalizedMirror(k2);
      assert k2.Mirror().Mirror() == k2;
    }
  }

  // ---------------------------------------------------------------- filters

  /** `FilterOptions`: every field is optional; an absent field imposes nothing. */
  datatype FilterOptions = FilterOptions(
    includeIps: Option<seq<string>>,
    excludeIps: Option<seq<string>>,
    protocols: Option<seq<string>>,
    srcPorts: Option<seq<int>>,
    dstPorts: Option<seq<int>>,
    timeStart: Option<int>,
    timeEnd: Option<int>)

  const NoFilters: FilterOptions := FilterOptions(None, None, None, None, None, None, None)

  /** `_pass_filters`: the guards in the order the source checks them. */
  predicate PassFilters(row: PacketRecord, opts: Option<FilterOptions>) {
    match opts
    case None => true
    case Some(o) =>
      var ts, src, dst, proto, sp, dp :=
        row.timestamp, row.srcIp, row.dstIp, row.protocol, row.srcPort, row.dstPort;
      if o.timeStart.Some? && ts < o.timeStart.value then false
      else if o.timeEnd.Some? && ts > o.timeEnd.value then false
      else if o.includeIps.Some? && src !in o.includeIps.value && dst !in o.includeIps.value then false
      else if o.excludeIps.Some? && (src in o.excludeIps.value || dst in o.excludeIps.value) then false
      else if o.protocols.Some? && proto !in o.protocols.value then false
      else if o.srcPorts.Some? && sp.Some? && sp.value !in o.srcPorts.value then false
      else if o.dstPorts.Some? && dp.Some? && dp.value !in o.dstPorts.value then false
      else true
  }

  /** One configurable criterion of the filter. */
  datatype Criterion = TimeStart | TimeEnd | IncludeIps | ExcludeIps | Protocols | SrcPorts | DstPorts

  /** The options with every field but the one for `c` left unset. */
  function Only(o: FilterOptions, c: Criterion): FilterOptions {
    match c
    case TimeStart => NoFilters.(timeStart := o.timeStart)
    case TimeEnd => NoFilters.(timeEnd := o.timeEnd)
    case IncludeIps => NoFilters.(includeIps := o.includeIps)
    case ExcludeIps => NoFilters.(excludeIps := o.excludeIps)
    case Protocols => NoFilters.(protocols := o.protocols)
    case SrcPorts => NoFilters.(srcPorts := o.srcPorts)
    case DstPorts => NoFilters.(dstPorts := o.dstPorts)
  }

  /** What each criterion demands when it is the only one configured. */
  lemma CriterionMeaning(row: PacketRecord, o: FilterOptions)
    ensures PassFilters(row, Some(Only(o, TimeStart)))
      <==> o.timeStart.None? || o.timeStart.value <= row.timestamp
    ensures PassFilters(row, Some(Only(o, TimeEnd)))
      <==> o.timeEnd.None? || row.timestamp <= o.timeEnd.value
    ensures PassFilters(row, Some(Only(o, IncludeIps)))
      <==> o.includeIps.None? || row.srcIp in o.includeIps.value || row.dstIp in o.includeIps.value
    ensures PassFilters(row, Some(Only(o, ExcludeIps)))
      <==> o.excludeIps.None? || (row.srcIp !in o.excludeIps.value && row.dstIp !in o.excludeIps.value)
    ensures PassFilters(row, Some(Only(o, Protocols)))
      <==> o.protocols.None? || row.protocol in o.protocols.value
    ensures PassFilters(row, Some(Only(o, SrcPorts)))
      <==> o.srcPorts.None? || row.srcPort.None? || row.srcPort.value in o.srcPorts.value
    ensures PassFilters(row, Some(Only(o, DstPorts)))
      <==> o.dstPorts.None? || row.dstPort.None? || row.dstPort.value in o.dstPorts.value
  {
  }

  /** A row passes exactly when it passes every configured criterion taken alone. */
  lemma FilterIsConjunction(row: PacketRecord, o: FilterOptions)
    ensures PassFilters(row, Some(o)) <==> forall c: Criterion :: PassFilters(row, Some(Only(o, c)))
  {
    CriterionMeaning(row, o);
    if PassFilters(row, Some(o)) {
      forall c: Criterion
        ensures PassFilters(row, Some(Only(o, c)))
      {
      }
    } else if !PassFilters(row, Some(Only(o, TimeStart))) {
    } else if !PassFilters(row, Some(Only(o, TimeEnd))) {
    } else if !PassFilters(row, Some(Only(o, IncludeIps))) {
    } else if !PassFilters(row, Some(Only(o, ExcludeIps))) {
    } else if !PassFilters(row, Some(Only(o, Protocols))) {
    } else if !PassFilters(row, Some(Only(o, SrcPorts))) {
    } else {
      assert !PassFilters(row, Some(Only(o, DstPorts)));
    }
  }

  /** Absent options, or options with nothing configured, keep every row. */
  lemma NoOptionsKeepAll(row: PacketRecord)
    ensures PassFilters(row, None)
    ensures PassFilters(row, Some(NoFilters))
  {
  }

  /** A configured but empty include list rejects every row. */
  lemma EmptyIncludeRejectsAll(row: PacketRecord, o: FilterOptions)
    requires o.includeIps == Some([])
    ensures !PassFilters(row, Some(o))
  {
  }

  // ---------------------------------------------------------------- decoding

  predicate IsLowerAscii(c: char) { 'a' <= c <= 'z' }

  function UpperChar(c: char): char {
    if IsLowerAscii(c) then (c as int - 32) as char else c
  }

  /**
   * `str.upper()` restricted to ASCII letters: no lower-case letter is left, each one is
   * replaced by its upper-case counterpart, and every other character is kept.
   */
  function Upper(s: string): (r: string)
    ensures |r| == |s|
    ensures forall i :: 0 <= i < |r| ==> !IsLowerAscii(r[i])
    ensures forall i :: 0 <= i < |s| && IsLowerAscii(s[i]) ==> r[i] as int + 32 == s[i] as int
    ensures forall i :: 0 <= i < |s| && !IsLowerAscii(s[i]) ==> r[i] == s[i]
  {
    seq(|s|, i requires 0 <= i < |s| => UpperChar(s[i]))
  }

  /** Upper-casing twice is upper-casing once. */
  lemma UpperIdempotent(s: string)
    ensures Upper(Upper(s)) == Upper(s)
  {
  }

  /** The labels scapy's network layers produce: `IP` stays, `IPv6` becomes `IPV6`. */
  lemma UpperLayerNames()
    ensures Upper("IP") == "IP"
    ensures Upper("IPv6") == "IPV6"
    ensures Upper("OTHER") == "OTHER"
  {
  }

  /**
   * The row built for one packet by the body of `_iter_packets`, or `None` when the packet
   * has neither an IPv4 nor an IPv6 layer (it is skipped).
   */
  function Decode(p: RawPacket): Option<PacketRecord> {
    var l3 := if p.ip.Some? then p.ip else p.ipv6;
    match l3
    case None => None
    case Some(h) =>
      var ipVersion := if h.version == 4 then 4 else 6;
      var ttl := if h.ttl.Some? then h.ttl.value else h.hlim.GetOr(0);
      var length := p.wireLength;
      if p.tcp.Some? then
        Some(PacketRecord(p.time, h.src, h.dst, Some(p.tcp.value.sport), Some(p.tcp.value.dport),
                          "TCP", length, ipVersion, ttl, Some(p.tcp.value.flags)))
      else if p.udp.Some? then
        Some(PacketRecord(p.time, h.src, h.dst, Some(p.udp.value.sport), Some(p.udp.value.dport),
                          "UDP", length, ipVersion, ttl, None))
      else
        Some(PacketRecord(p.time, h.src, h.dst, None, None,
                          Upper(h.name.GetOr("OTHER")), length, ipVersion, ttl, None))
  }

  /** How a decoded row is classified. */
  lemma DecodeClassification(p: RawPacket)
    ensures Decode(p).None? <==> p.ip.None? && p.ipv6.None?
    ensures Decode(p).Some? ==> var r := Decode(p).value;
      && (r.srcPort.Some? <==> r.dstPort.Some?)
      && (r.srcPort.Some? <==> p.tcp.Some? || p.udp.Some?)
      && (r.tcpFlags.Some? <==> p.tcp.Some?)
      && (p.tcp.Some? ==> r.protocol == "TCP" && r.srcPort == Some(p.tcp.value.sport)
                          && r.dstPort == Some(p.tcp.value.dport))
      && (p.tcp.None? && p.udp.Some? ==> r.protocol == "UDP" && r.srcPort == Some(p.udp.value.sport)
                                         && r.dstPort == Some(p.udp.value.dport))
      && (p.tcp.None? && p.udp.None? ==>
            var h := if p.ip.Some? then p.ip.value else p.ipv6.value;
            r.protocol == Upper(h.name.GetOr("OTHER")))
      && (r.ipVersion == 4 || r.ipVersion == 6)
      && r.length == p.wireLength && r.timestamp == p.time
  {
  }

  // ---------------------------------------------------------------- ingestion

  /** The records a single packet contributes when the loop is not cut off. */
  function Admit(p: RawPacket, filters: Option<FilterOptions>): seq<PacketRecord> {
    match Decode(p)
    case None => []
    case Some(r) => if PassFilters(r, filters) then [r] else []
  }

  /** Every decodable, filter-passing packet's record, in capture order. */
  function Accepted(capture: seq<RawPacket>, filters: Option<FilterOptions>): seq<PacketRecord> {
    if capture == [] then [] else Admit(capture[0], filters) + Accepted(capture[1..], filters)
  }

  /** Number of records the cutoff lets through: at most `max` (none when `max <= 0`). */
  function Cutoff(available: nat, maxPackets: Option<int>): (n: nat)
    ensures n <= available
    ensures maxPackets.None? ==> n == available
    ensures maxPackets.Some? ==> n <= Max0(maxPackets.value)
    ensures maxPackets.Some? && Max0(maxPackets.value) <= available ==> n == Max0(maxPackets.value)
    ensures maxPackets.Some? && available <= Max0(maxPackets.value) ==> n == available
  {
    match maxPackets
    case None => available
    case Some(m) => if Max0(m) < available then Max0(m) else available
  }

  function Max0(m: int): nat { if m < 0 then 0 else m }

  /** What `_iter_packets` yields. */
  function Ingest(capture: seq<RawPacket>, maxPackets: Option<int>, filters: Option<FilterOptions>): seq<PacketRecord> {
    var all := Accepted(capture, filters);
    all[..Cutoff(|all|, maxPackets)]
  }

  lemma AcceptedSingleton(p: RawPacket, filters: Option<FilterOptions>)
    ensures Accepted([p], filters) == Admit(p, filters)
  {
    assert [p][1..] == [];
  }

  lemma {:induction false} AcceptedConcat(a: seq<RawPacket>, b: seq<RawPacket>, filters: Option<FilterOptions>)
    ensures Accepted(a + b, filters) == Accepted(a, filters) + Accepted(b, filters)
  {
    if a == [] {
      assert a + b == b;
    } else {
      assert (a + b)[0] == a[0] && (a + b)[1..] == a[1..] + b;
      calc {
        Accepted(a + b, filters);
        Admit(a[0], filters) + Accepted(a[1..] + b, filters);
        { AcceptedConcat(a[1..], b, filters); }
        Admit(a[0], filters) + (Accepted(a[1..], filters) + Accepted(b, filters));
        (Admit(a[0], filters) + Accepted(a[1..], filters)) + Accepted(b, filters);
      }
    }
  }

  /** Every yielded record passes the filter and was decoded from a packet of the capture. */
  lemma {:induction false} AcceptedSound(capture: seq<RawPacket>, filters: Option<FilterOptions>)
    ensures forall r :: r in Accepted(capture, filters) ==>
      PassFilters(r, filters) && exists p :: p in capture && Decode(p) == Some(r)
  {
    if capture != [] {
      AcceptedSound(capture[1..], filters);
      forall r | r in Accepted(capture, filters)
        ensures PassFilters(r, filters) && exists p :: p in capture && Decode(p) == Some(r)
      {
        if r in Admit(capture[0], filters) {
          assert Decode(capture[0]) == Some(r);
        } else {
          var p :| p in capture[1..] && Decode(p) == Some(r);
          assert p in capture;
        }
      }
    }
  }

  /** A packet without an IP layer is skipped and does not change what is yielded. */
  lemma NonIpSkipped(a: seq<RawPacket>, p: RawPacket, b: seq<RawPacket>, filters: Option<FilterOptions>)
    requires p.ip.None? && p.ipv6.None?
    ensures Accepted(a + [p] + b, filters) == Accepted(a + b, filters)
  {
    AcceptedConcat(a + [p], b, filters);
    AcceptedConcat(a, [p], filters);
    AcceptedConcat(a, b, filters);
    AcceptedSingleton(p, filters);
    DecodeClassification(p);
  }

  /** A packet that decodes and passes is kept in place. */
  lemma PassingKept(a: seq<RawPacket>, p: RawPacket, b: seq<RawPacket>, filters: Option<FilterOptions>)
    requires Decode(p).Some? && PassFilters(Decode(p).value, filters)
    ensures Accepted(a + [p] + b, filters) == Accepted(a, filters) + [Decode(p).value] + Accepted(b, filters)
  {
    AcceptedConcat(a + [p], b, filters);
    AcceptedConcat(a, [p], filters);
    AcceptedSingleton(p, filters);
  }

  /**
   * The cutoff: without a limit everything accepted is yielded; with one, exactly the first
   * `max` accepted records (all of them when fewer are accepted, none when `max <= 0`).
   */
  lemma IngestIsPrefix(capture: seq<RawPacket>, maxPackets: Option<int>, filters: Option<FilterOptions>)
    ensures var out, all := Ingest(capture, maxPackets, filters), Accepted(capture, filters);
      && out <= all
      && (maxPackets.None? ==> out == all)
      && (maxPackets.Some? ==> |out| == if Max0(maxPackets.value) < |all| then Max0(maxPackets.value) else |all|)
  {
  }

  /** One more packet of the capture contributes what it admits. */
  lemma AcceptedStep(capture: seq<RawPacket>, i: nat, filters: Option<FilterOptions>)
    requires i < |capture|
    ensures Accepted(capture[..i + 1], filters) == Accepted(capture[..i], filters) + Admit(capture[i], filters)
  {
    AcceptedConcat(capture[..i], [capture[i]], filters);
    assert capture[..i + 1] == capture[..i] + [capture[i]];
    AcceptedSingleton(capture[i], filters);
  }

  /** What a prefix accepts is a prefix of what the whole capture accepts. */
  lemma AcceptedPrefix(capture: seq<RawPacket>, i: nat, filters: Option<FilterOptions>)
    requires i <= |capture|
    ensures Accepted(capture[..i], filters) <= Accepted(capture, filters)
  {
    AcceptedConcat(capture[..i], capture[i..], filters);
    assert capture[..i] + capture[i..] == capture;
  }

  /**
   * `_iter_packets`: one pass over the capture with a running count of yielded records,
   * a cutoff check at the top of each iteration, and `continue` for skipped packets.
   */
  method IterPackets(capture: seq<RawPacket>, maxPackets: Option<int>, filters: Option<FilterOptions>)
    returns (rows: seq<PacketRecord>)
    ensures rows == Ingest(capture, maxPackets, filters)
    ensures maxPackets.Some? ==> |rows| <= Max0(maxPackets.value)
  {
    rows := [];
    var count := 0;
    var i := 0;
    while i < |capture|
      invariant 0 <= i <= |capture|
      invariant rows == Accepted(capture[..i], filters)
      invariant count == |rows|
      invariant maxPackets.Some? ==> count <= Max0(maxPackets.value)
    {
      if maxPackets.Some? && count >= maxPackets.value {
        AcceptedPrefix(capture, i, filters);
        break;
      }
      var pkt := capture[i];
      AcceptedStep(capture, i, filters);
      i := i + 1;
      var decoded := Decode(pkt);
      if decoded.None? {
        continue;
      }
      var row := decoded.value;
      if !PassFilters(row, filters) {
        continue;
      }
      rows := rows + [row];
      count := count + 1;
    }
    if i == |capture| {
      assert capture[..i] == capture;
    }
  }

  // ---------------------------------------------------------------- flows

  /** The normalized flow key of a row (`keyify`). */
  function FlowKeyOf(r: PacketRecord): FlowKey {
    FlowKey(r.srcIp, r.dstIp, r.srcPort, r.dstPort, r.protocol).Normalized()
  }

  function Length(r: PacketRecord): int { r.length }

  /** Earliest timestamp of a non-empty group. */
  function MinTime(g: seq<PacketRecord>): int
    requires g != []
  {
    if |g| == 1 then g[0].timestamp else Min(MinTime(g[..|g| - 1]), g[|g| - 1].timestamp)
  }

  /** Latest timestamp of a non-empty group. */
  function MaxTime(g: seq<PacketRecord>): int
    requires g != []
  {
    if |g| == 1 then g[0].timestamp else Max(MaxTime(g[..|g| - 1]), g[|g| - 1].timestamp)
  }

  /** `min` and `max` of the timestamp column: bounds that some row attains. */
  lemma {:induction false} TimeBounds(g: seq<PacketRecord>)
    requires g != []
    ensures forall r :: r in g ==> MinTime(g) <= r.timestamp <= MaxTime(g)
    ensures exists r :: r in g && r.timestamp == MinTime(g)
    ensures exists r :: r in g && r.timestamp == MaxTime(g)
  {
    if |g| > 1 {
      var init := g[..|g| - 1];
      assert g == init + [g[|g| - 1]];
      TimeBounds(init);
      var last := g[|g| - 1];
      var a :| a in init && a.timestamp == MinTime(init);
      var b :| b in init && b.timestamp == MaxTime(init);
      assert MinTime(g) == Min(a.timestamp, last.timestamp);
      assert MaxTime(g) == Max(b.timestamp, last.timestamp);
      assert a in g && last in g && b in g;
    } else {
      assert g[0] in g;
    }
  }

  /** The `agg` columns of one flow: count, byte sum, first and last timestamp. */
  datatype FlowAcc = FlowAcc(packets: nat, bytes: int, startTime: int, endTime: int)

  /** A row of the flows table (the key columns are the map key). */
  datatype FlowRecord = FlowRecord(packets: nat, bytes: int, startTime: int, endTime: int, durationNs: int)

  function Accumulate(g: seq<PacketRecord>): FlowAcc
    requires g != []
  {
    FlowAcc(|g|, SumOf(g, Length), MinTime(g), MaxTime(g))
  }

  /** Adds the `duration_s` column, clipped below at 0. */
  function Finish(a: FlowAcc): FlowRecord {
    FlowRecord(a.packets, a.bytes, a.startTime, a.endTime, Max(0, a.endTime - a.startTime))
  }

  /** `groupby(key).agg(...)`: one accumulator per distinct key. */
  function GroupAcc<K(==,!new)>(rows: seq<PacketRecord>, key: PacketRecord -> K): map<K, FlowAcc> {
    map k | k in KeySet(rows, key) :: Accumulate(Where(rows, key, k))
  }

  /** The grouped flows of `parse_pcap`, keyed by normalized flow key. */
  function AccTable(rows: seq<PacketRecord>): map<FlowKey, FlowAcc> {
    GroupAcc(rows, FlowKeyOf)
  }

  /** The flows table of `parse_pcap`. */
  function FlowTable(rows: seq<PacketRecord>): map<FlowKey, FlowRecord> {
    FinishAll(AccTable(rows))
  }

  /** The final `agg` columns of every group. */
  function FinishAll(acc: map<FlowKey, FlowAcc>): map<FlowKey, FlowRecord> {
    map k | k in acc :: Finish(acc[k])
  }

  /** How one more row changes the grouped table. */
  function Step(a: FlowAcc, r: PacketRecord): FlowAcc {
    FlowAcc(a.packets + 1, a.bytes + r.length, Min(a.startTime, r.timestamp), Max(a.endTime, r.timestamp))
  }

  function Start(r: PacketRecord): FlowAcc {
    FlowAcc(1, r.length, r.timestamp, r.timestamp)
  }

  lemma AccumulateSnoc(g: seq<PacketRecord>, r: PacketRecord)
    ensures Accumulate(g + [r]) == if g == [] then Start(r) else Step(Accumulate(g), r)
  {
    SumOfConcat(g, [r], Length);
    assert (g + [r])[..|g|] == g;
    if g == [] {
      assert g + [r] == [r];
    }
  }

  lemma GroupAccSnocKeys<K(!new)>(s: seq<PacketRecord>, r: PacketRecord, key: PacketRecord -> K)
    ensures GroupAcc(s + [r], key).Keys == GroupAcc(s, key).Keys + {key(r)}
  {
    KeySetConcat(s, [r], key);
    SingletonGroup(r, key, key(r));
  }

  lemma GroupAccSnocAt<K(!new)>(s: seq<PacketRecord>, r: PacketRecord, key: PacketRecord -> K, j: K)
    requires j in GroupAcc(s, key) || j == key(r)
    ensures j in GroupAcc(s + [r], key)
    ensures var t := GroupAcc(s, key);
      GroupAcc(s + [r], key)[j] == if j != key(r) then t[j] else if j in t then Step(t[j], r) else Start(r)
  {
    GroupAccSnocKeys(s, r, key);
    var g := Where(s, key, j);
    assert Where(s + [r], key, j) == g + Where([r], key, j) by {
      WhereConcat(s, [r], key, j);
    }
    WhereSingleton(r, key, j);
    if j == key(r) {
      KeySetWhere(s, key, j);
      AccumulateSnoc(g, r);
    } else {
      assert g + [] == g;
    }
  }

  lemma GroupAccSnoc<K(!new)>(s: seq<PacketRecord>, r: PacketRecord, key: PacketRecord -> K)
    ensures var k, t := key(r), GroupAcc(s, key);
      GroupAcc(s + [r], key) == t[k := if k in t then Step(t[k], r) else Start(r)]
  {
    var k, t, t' := key(r), GroupAcc(s, key), GroupAcc(s + [r], key);
    var u := t[k := if k in t then Step(t[k], r) else Start(r)];
    GroupAccSnocKeys(s, r, key);
    forall j | j in t'
      ensures t'[j] == u[j]
    {
      GroupAccSnocAt(s, r, key, j);
    }
  }

  /** How the grouped table of a prefix grows by the next row. */
  lemma AccTableStep(rows: seq<PacketRecord>, i: nat)
    requires i < |rows|
    ensures var k, t := FlowKeyOf(rows[i]), AccTable(rows[..i]);
      AccTable(rows[..i + 1]) == t[k := if k in t then Step(t[k], rows[i]) else Start(rows[i])]
  {
    GroupAccSnoc(rows[..i], rows[i], FlowKeyOf);
    assert rows[..i + 1] == rows[..i] + [rows[i]];
  }

  /** The aggregation of `parse_pcap`: one pass filling a map from flow key to accumulator. */
  method AggregateFlows(rows: seq<PacketRecord>) returns (flows: map<FlowKey, FlowRecord>)
    ensures flows == FlowTable(rows)
  {
    var acc: map<FlowKey, FlowAcc> := map[];
    for i := 0 to |rows|
      invariant acc == AccTable(rows[..i])
    {
      var r := rows[i];
      var k := FlowKeyOf(r);
      AccTableStep(rows, i);
      if k in acc {
        acc := acc[k := Step(acc[k], r)];
      } else {
        acc := acc[k := Start(r)];
      }
    }
    assert rows[..|rows|] == rows;
    flows := FinishAll(acc);
  }

  /** `parse_pcap`: the packets table and the flows table of one capture. */
  method ParsePcap(capture: seq<RawPacket>, maxPackets: Option<int>, filters: Option<FilterOptions>)
    returns (packets: seq<PacketRecord>, flows: map<FlowKey, FlowRecord>)
    ensures packets == Ingest(capture, maxPackets, filters)
    ensures flows == FlowTable(packets)
    ensures packets == [] ==> flows == map[]
  {
    packets := IterPackets(capture, maxPackets, filters);
    if packets == [] {
      flows := map[];
      return;
    }
    flows := AggregateFlows(packets);
  }

  // ---------------------------------------------------------------- flow properties

  function FlowBytes(flows: map<FlowKey, FlowRecord>): map<FlowKey, int> {
    map k | k in flows :: flows[k].bytes
  }

  function FlowPackets(flows: map<FlowKey, FlowRecord>): map<FlowKey, int> {
    map k | k in flows :: flows[k].packets
  }

  /** The flows table has one entry per distinct normalized key of the packets table. */
  lemma FlowKeys(rows: seq<PacketRecord>, k: FlowKey)
    ensures k in FlowTable(rows) <==> exists r :: r in rows && FlowKeyOf(r) == k
  {
    assert FlowTable(rows).Keys == KeySet(rows, FlowKeyOf);
    KeySetMembers(rows, FlowKeyOf, k);
  }

  /**
   * Each entry summarizes exactly the rows with its key: their count and byte sum, and a
   * time span that every one of them falls in, from the first to the last of them.
   */
  lemma FlowEntry(rows: seq<PacketRecord>, k: FlowKey)
    requires k in FlowTable(rows)
    ensures var f, g := FlowTable(rows)[k], Where(rows, FlowKeyOf, k);
      && f.packets == |g| && f.bytes == SumOf(g, Length)
      && f.startTime <= f.endTime && f.durationNs == f.endTime - f.startTime
      && (forall r :: r in g ==> f.startTime <= r.timestamp <= f.endTime)
      && (exists r :: r in g && r.timestamp == f.startTime)
      && (exists r :: r in g && r.timestamp == f.endTime)
  {
    TimeBounds(Where(rows, FlowKeyOf, k));
  }

  /** Two rows of the same conversation in opposite directions land in the same flow. */
  lemma MirroredRowsShareFlow(a: PacketRecord, b: PacketRecord)
    requires a.protocol == b.protocol
    requires a.srcIp == b.dstIp && a.dstIp == b.srcIp && a.srcPort == b.dstPort && a.dstPort == b.srcPort
    ensures FlowKeyOf(a) == FlowKeyOf(b)
  {
    var kb := FlowKey(b.srcIp, b.dstIp, b.srcPort, b.dstPort, b.protocol);
    NormalizedMirror(kb);
    assert FlowKey(a.srcIp, a.dstIp, a.srcPort, a.dstPort, a.protocol) == kb.Mirror();
  }

  lemma FlowBytesGrouped(rows: seq<PacketRecord>)
    ensures FlowBytes(FlowTable(rows)) == GroupSum(rows, FlowKeyOf, Length)
  {
  }

  lemma FlowPacketsGrouped(rows: seq<PacketRecord>)
    ensures FlowPackets(FlowTable(rows)) == GroupSum(rows, FlowKeyOf, One)
  {
    forall k | k in KeySet(rows, FlowKeyOf)
      ensures |Where(rows, FlowKeyOf, k)| == SumOf(Where(rows, FlowKeyOf, k), One)
    {
      SumOfOne(Where(rows, FlowKeyOf, k));
    }
  }

  /** Flow totals conserve the packets table: bytes sum to the total length, packets to the row count. */
  lemma FlowConservation(rows: seq<PacketRecord>)
    ensures MapTotal(FlowBytes(FlowTable(rows))) == SumOf(rows, Length)
    ensures MapTotal(FlowPackets(FlowTable(rows))) == |rows|
  {
    FlowBytesGrouped(rows);
    GroupSumTotal(rows, FlowKeyOf, Length);
    FlowPacketsGrouped(rows);
    GroupSumTotal(rows, FlowKeyOf, One);
    SumOfOne(rows);
  }
}
