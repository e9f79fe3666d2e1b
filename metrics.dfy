/**
 * The analytics over the packets table (`pcapviz/metrics.py`): top talkers, top destination
 * ports per protocol, the protocol breakdown, throughput over fixed-width time buckets and
 * the directed conversation matrix. Every one returns an empty result on an empty table.
 */
module Metrics {
  import opened Wrappers
  import opened Frames
  import opened Aggregate
  import opened Parser

  function SrcIp(r: PacketRecord): string { r.srcIp }

  function DstIp(r: PacketRecord): string { r.dstIp }

  function Protocol(r: PacketRecord): string { r.protocol }

  // ---------------------------------------------------------------- top talkers

  /** Every address seen as a source or a destination. */
  function Endpoints(rows: seq<PacketRecord>): set<string> {
    KeySet(rows, SrcIp) + KeySet(rows, DstIp)
  }

  /** The union index of the two grouped series, each address once. */
  function TalkerIps(rows: seq<PacketRecord>): seq<string> {
    Distinct(KeyList(rows, SrcIp) + KeyList(rows, DstIp))
  }

  /** `by_src.add(by_dst, fill_value=0)`, byte column. */
  function TalkerBytes(rows: seq<PacketRecord>): map<string, int> {
    AddFill(GroupSum(rows, SrcIp, Length), GroupSum(rows, DstIp, Length))
  }

  /** `by_src.add(by_dst, fill_value=0)`, packet column. */
  function TalkerPackets(rows: seq<PacketRecord>): map<string, int> {
    AddFill(GroupSum(rows, SrcIp, One), GroupSum(rows, DstIp, One))
  }

  function Talkers(rows: seq<PacketRecord>): seq<Tally<string>> {
    Tallies(TalkerIps(rows), TalkerBytes(rows), TalkerPackets(rows))
  }

  /** `compute_top_talkers`: the talkers by bytes, largest first, then `head(n)`. */
  function TopTalkers(rows: seq<PacketRecord>, n: int): seq<Tally<string>> {
    if rows == [] then [] else Head(SortDesc(Talkers(rows), TallyBytes), n)
  }

  lemma EndpointsMembers(rows: seq<PacketRecord>, ip: string)
    ensures ip in Endpoints(rows) <==> exists r :: r in rows && (r.srcIp == ip || r.dstIp == ip)
  {
    KeySetMembers(rows, SrcIp, ip);
    KeySetMembers(rows, DstIp, ip);
  }

  lemma TalkerIpsAre(rows: seq<PacketRecord>)
    ensures NoDup(TalkerIps(rows))
    ensures forall ip :: ip in TalkerIps(rows) <==> ip in Endpoints(rows)
  {
  }

  /** The talker index lists each address once, so its length is the number of addresses. */
  lemma AddressCount(rows: seq<PacketRecord>)
    ensures |TalkerIps(rows)| == |Endpoints(rows)|
  {
    var ips := TalkerIps(rows);
    TalkerIpsAre(rows);
    NoDupCardinality(ips);
    assert (set ip | ip in ips) == Endpoints(rows);
  }

  /** The byte and packet totals of one address, as the two grouped series add them. */
  lemma TalkerTotals(rows: seq<PacketRecord>, ip: string)
    ensures MapGet(TalkerBytes(rows), ip)
      == SumOf(Where(rows, SrcIp, ip), Length) + SumOf(Where(rows, DstIp, ip), Length)
    ensures MapGet(TalkerPackets(rows), ip) == |Where(rows, SrcIp, ip)| + |Where(rows, DstIp, ip)|
  {
    AddFillGet(GroupSum(rows, SrcIp, Length), GroupSum(rows, DstIp, Length), ip);
    AddFillGet(GroupSum(rows, SrcIp, One), GroupSum(rows, DstIp, One), ip);
    GroupSumGet(rows, SrcIp, Length, ip);
    GroupSumGet(rows, DstIp, Length, ip);
    GroupCount(rows, SrcIp, ip);
    GroupCount(rows, DstIp, ip);
  }

  /** The sorted talker table: its rows are the talkers, each address once. */
  lemma SortedTalkers(rows: seq<PacketRecord>)
    ensures var s := SortDesc(Talkers(rows), TallyBytes);
      && IsDesc(s, TallyBytes) && NoDup(s) && |s| == |TalkerIps(rows)|
      && KeyedBy(s, TalkerBytes(rows), TalkerPackets(rows))
      && forall t :: t in s <==> t in Talkers(rows)
  {
    var all := Talkers(rows);
    var s := SortDesc(all, TallyBytes);
    TalkerIpsAre(rows);
    forall i, j | 0 <= i < j < |all| ensures all[i] != all[j] {
      assert all[i].key == TalkerIps(rows)[i] && all[j].key == TalkerIps(rows)[j];
    }
    NoDupPermutation(all, s);
    KeyedByPermutation(all, s, TalkerBytes(rows), TalkerPackets(rows));
    forall t ensures t in s <==> t in all {
      assert t in s <==> t in multiset(s);
      assert t in all <==> t in multiset(all);
    }
  }

  /** One talker row: an endpoint with its sent-plus-received totals. */
  lemma TalkerRow(rows: seq<PacketRecord>, t: Tally<string>)
    requires t in Talkers(rows)
    ensures t.key in Endpoints(rows)
    ensures t.bytes == SumOf(Where(rows, SrcIp, t.key), Length) + SumOf(Where(rows, DstIp, t.key), Length)
    ensures t.packets == |Where(rows, SrcIp, t.key)| + |Where(rows, DstIp, t.key)|
  {
    TalkerIpsAre(rows);
    var i :| 0 <= i < |Talkers(rows)| && Talkers(rows)[i] == t;
    assert t.key == TalkerIps(rows)[i];
    TalkerTotals(rows, t.key);
  }

  /** The reported rows are talker rows. */
  lemma TopTalkersMembers(rows: seq<PacketRecord>, n: int)
    ensures forall t :: t in TopTalkers(rows, n) ==> t in Talkers(rows)
  {
    if rows != [] {
      var s := SortDesc(Talkers(rows), TallyBytes);
      forall t | t in TopTalkers(rows, n) ensures t in Talkers(rows) {
        assert t in s;
        assert t in multiset(s);
      }
    }
  }

  /**
   * Each reported address's bytes are what it sent plus what it received, and its packets
   * the analogous count (a packet to itself counts on both sides).
   */
  lemma TopTalkersSentPlusReceived(rows: seq<PacketRecord>, n: int)
    ensures forall t :: t in TopTalkers(rows, n) ==>
      && t.key in Endpoints(rows)
      && t.bytes == SumOf(Where(rows, SrcIp, t.key), Length) + SumOf(Where(rows, DstIp, t.key), Length)
      && t.packets == |Where(rows, SrcIp, t.key)| + |Where(rows, DstIp, t.key)|
  {
    TopTalkersMembers(rows, n);
    forall t | t in TopTalkers(rows, n)
      ensures t.key in Endpoints(rows)
      ensures t.bytes == SumOf(Where(rows, SrcIp, t.key), Length) + SumOf(Where(rows, DstIp, t.key), Length)
      ensures t.packets == |Where(rows, SrcIp, t.key)| + |Where(rows, DstIp, t.key)|
    {
      TalkerRow(rows, t);
    }
  }

  /**
   * The report is sorted by bytes, lists each address once, keeps `head(n)` of the
   * addresses (`min(n, #addresses)` rows for `n >= 0`), and every address left out has no
   * more bytes than any reported one.
   */
  lemma TopTalkersRanking(rows: seq<PacketRecord>, n: int)
    ensures var r := TopTalkers(rows, n);
      && IsDesc(r, TallyBytes)
      && NoDup(Keys(r))
      && |r| == HeadLength(|TalkerIps(rows)|, n)
      && forall t, u :: t in r && u in Talkers(rows) && u !in r ==> u.bytes <= t.bytes
  {
    if rows != [] {
      var s := SortDesc(Talkers(rows), TallyBytes);
      var r := Head(s, n);
      SortedTalkers(rows);
      HeadDominates(s, TallyBytes, n);
      HeadDesc(s, TallyBytes, n);
      assert NoDup(r);
      DistinctKeys(r, TalkerBytes(rows), TalkerPackets(rows));
    }
  }

  lemma TalkerBytesTotal(rows: seq<PacketRecord>)
    ensures MapTotal(TalkerBytes(rows)) == 2 * SumOf(rows, Length)
  {
    AddFillTotal(GroupSum(rows, SrcIp, Length), GroupSum(rows, DstIp, Length));
    GroupSumTotal(rows, SrcIp, Length);
    GroupSumTotal(rows, DstIp, Length);
  }

  lemma TalkerPacketsTotal(rows: seq<PacketRecord>)
    ensures MapTotal(TalkerPackets(rows)) == 2 * |rows|
  {
    AddFillTotal(GroupSum(rows, SrcIp, One), GroupSum(rows, DstIp, One));
    GroupSumTotal(rows, SrcIp, One);
    GroupSumTotal(rows, DstIp, One);
    SumOfOne(rows);
  }

  /** The talker table counts every packet twice, once for its sender and once for its receiver. */
  lemma TalkersSum(rows: seq<PacketRecord>)
    ensures SumOf(Talkers(rows), TallyBytes) == 2 * SumOf(rows, Length)
    ensures SumOf(Talkers(rows), TallyPackets) == 2 * |rows|
  {
    var ips := TalkerIps(rows);
    TalkerIpsAre(rows);
    TalliesSum(ips, TalkerBytes(rows), TalkerPackets(rows));
    ListTotalIsMapTotal(TalkerBytes(rows), ips);
    ListTotalIsMapTotal(TalkerPackets(rows), ips);
    TalkerBytesTotal(rows);
    TalkerPacketsTotal(rows);
  }

  /**
   * With `n` at least the number of addresses, the report counts every packet twice, once
   * for its sender and once for its receiver.
   */
  lemma TopTalkersTotals(rows: seq<PacketRecord>, n: int)
    requires n >= |TalkerIps(rows)|
    ensures SumOf(TopTalkers(rows, n), TallyBytes) == 2 * SumOf(rows, Length)
    ensures SumOf(TopTalkers(rows, n), TallyPackets) == 2 * |rows|
  {
    if rows != [] {
      var all := Talkers(rows);
      var s := SortDesc(all, TallyBytes);
      assert Head(s, n) == s;
      SortDescSum(all, TallyBytes, TallyBytes);
      SortDescSum(all, TallyBytes, TallyPackets);
      TalkersSum(rows);
    }
  }

  // ---------------------------------------------------------------- top ports

  function HasDstPort(r: PacketRecord): bool { r.dstPort.Some? }

  /** The `(protocol, dst_port)` group key, read on rows that have a destination port. */
  function PortKey(r: PacketRecord): (string, int) { (r.protocol, r.dstPort.GetOr(0)) }

  /** The `(protocol, dst_port)` pair of any row, port possibly absent. */
  function PortOf(r: PacketRecord): (string, Option<int>) { (r.protocol, r.dstPort) }

  function TallyProtocol(t: Tally<(string, int)>): string { t.key.0 }

  /** `df[df["dst_port"].notna()]`. */
  function PortRows(rows: seq<PacketRecord>): seq<PacketRecord> {
    Where(rows, HasDstPort, true)
  }

  /** The per-(protocol, port) aggregate, sorted by bytes. */
  function PortTallies(rows: seq<PacketRecord>): seq<Tally<(string, int)>> {
    SortedAgg(PortRows(rows), PortKey, Length)
  }

  /** `compute_top_ports`: `groupby("protocol").head(n)` of the sorted aggregate. */
  function TopPorts(rows: seq<PacketRecord>, n: int): seq<Tally<(string, int)>> {
    if rows == [] then [] else GroupHead(PortTallies(rows), TallyProtocol, n)
  }

  /** A port group of the filtered rows is the set of rows with that protocol and that port. */
  lemma {:induction false} PortGroup(rows: seq<PacketRecord>, p: string, port: int)
    ensures Where(PortRows(rows), PortKey, (p, port)) == Where(rows, PortOf, (p, Some(port)))
  {
    if rows != [] {
      PortGroup(rows[1..], p, port);
      var r := rows[0];
      WhereConcat(Where([r], HasDstPort, true), PortRows(rows[1..]), PortKey, (p, port));
      WhereSingleton(r, HasDstPort, true);
      if HasDstPort(r) {
        WhereSingleton(r, PortKey, (p, port));
      }
    }
  }

  lemma PortTalliesAre(rows: seq<PacketRecord>)
    ensures var s := PortTallies(rows);
      && IsDesc(s, TallyBytes) && NoDup(Keys(s))
      && (forall t :: t in s ==>
            && t.bytes == SumOf(Where(rows, PortOf, (t.key.0, Some(t.key.1))), Length)
            && t.packets == |Where(rows, PortOf, (t.key.0, Some(t.key.1)))| > 0)
  {
    var s := PortTallies(rows);
    SortedAggRows(PortRows(rows), PortKey, Length);
    forall t | t in s
      ensures t.bytes == SumOf(Where(rows, PortOf, (t.key.0, Some(t.key.1))), Length)
      ensures t.packets == |Where(rows, PortOf, (t.key.0, Some(t.key.1)))| > 0
    {
      PortGroup(rows, t.key.0, t.key.1);
    }
  }

  /** A port is listed exactly where some row of that protocol has that destination port. */
  lemma PortTalliesComplete(rows: seq<PacketRecord>, p: string, port: int)
    ensures (p, port) in Keys(PortTallies(rows)) <==> exists r :: r in rows && r.protocol == p && r.dstPort == Some(port)
  {
    var df := PortRows(rows);
    SortedAggRows(df, PortKey, Length);
    KeySetMembers(rows, PortOf, (p, Some(port)));
    KeySetWhere(rows, PortOf, (p, Some(port)));
    PortGroup(rows, p, port);
    KeySetWhere(df, PortKey, (p, port));
    KeySetMembers(df, PortKey, (p, port));
  }

  /**
   * Top ports: every reported row is a `(protocol, port)` group of rows carrying that
   * destination port, with its byte sum and row count; rows are sorted by bytes; each
   * protocol keeps `head(n)` of its groups, and those outrank the groups it drops.
   */
  lemma TopPortsRanking(rows: seq<PacketRecord>, n: int)
    ensures var r, s := TopPorts(rows, n), PortTallies(rows);
      && IsDesc(r, TallyBytes)
      && (forall t :: t in r ==> t in s)
      && (forall t :: t in r ==>
            && t.bytes == SumOf(Where(rows, PortOf, (t.key.0, Some(t.key.1))), Length)
            && t.packets == |Where(rows, PortOf, (t.key.0, Some(t.key.1)))| > 0)
      && (forall t, u :: t in r && u in s && u !in r && t.key.0 == u.key.0 ==> u.bytes <= t.bytes)
  {
    if rows != [] {
      var s := PortTallies(rows);
      PortTalliesAre(rows);
      GroupHeadFromDesc(s, TallyProtocol, n, 0, TallyBytes);
      GroupHeadFromMembers(s, TallyProtocol, n, 0);
      GroupHeadDominates(s, TallyProtocol, n, TallyBytes);
    }
  }

  /** Each protocol appears in `min(n, #ports)` rows for `n >= 0` (all but the last `-n` otherwise). */
  lemma TopPortsPerProtocol(rows: seq<PacketRecord>, n: int, p: string)
    ensures var c := |Where(PortTallies(rows), TallyProtocol, p)|;
      && (n >= 0 ==> |Where(TopPorts(rows, n), TallyProtocol, p)| == Min(n, c))
      && (n < 0 ==> |Where(TopPorts(rows, n), TallyProtocol, p)| == Max(0, c + n))
  {
    GroupHeadCount(PortTallies(rows), TallyProtocol, n, p);
  }

  // ---------------------------------------------------------------- protocol breakdown

  /** `compute_protocol_breakdown`: bytes and packets per protocol, largest first. */
  function ProtocolBreakdown(rows: seq<PacketRecord>): seq<Tally<string>> {
    if rows == [] then [] else SortedAgg(rows, Protocol, Length)
  }

  /**
   * One row per protocol present, each with that protocol's byte sum and row count, sorted by
   * bytes.
   */
  lemma ProtocolBreakdownRows(rows: seq<PacketRecord>)
    ensures var r := ProtocolBreakdown(rows);
      && IsDesc(r, TallyBytes) && NoDup(Keys(r))
      && (forall p :: p in Keys(r) <==> exists x :: x in rows && Protocol(x) == p)
      && (forall t :: t in r ==>
            t.bytes == SumOf(Where(rows, Protocol, t.key), Length) && t.packets == |Where(rows, Protocol, t.key)| > 0)
  {
    if rows != [] {
      assert ProtocolBreakdown(rows) == SortedAgg(rows, Protocol, Length);
      SortedAggDistinct(rows, Protocol, Length);
      SortedAggKeys(rows, Protocol, Length);
      SortedAggValues(rows, Protocol, Length);
    } else {
      assert ProtocolBreakdown(rows) == [];
    }
  }

  /** The breakdown's columns sum to the total length and to the number of rows. */
  lemma ProtocolBreakdownTotals(rows: seq<PacketRecord>)
    ensures SumOf(ProtocolBreakdown(rows), TallyBytes) == SumOf(rows, Length)
    ensures SumOf(ProtocolBreakdown(rows), TallyPackets) == |rows|
  {
    if rows != [] {
      SortedAggTotals(rows, Protocol, Length);
    }
  }

  // ---------------------------------------------------------------- throughput

  /** One resampled bin: its left edge, the byte sum and the packet count of its rows. */
  datatype Bucket = Bucket(start: int, bytes: int, packets: int)

  function BucketBytes(b: Bucket): int { b.bytes }

  function BucketPackets(b: Bucket): int { b.packets }

  predicate InWindow(r: PacketRecord, start: int, width: int) {
    start <= r.timestamp < start + width
  }

  /** Total length of the rows whose timestamp lies in `[start, start + width)`. */
  function WindowBytes(rows: seq<PacketRecord>, start: int, width: int): int {
    if rows == [] then 0
    else (if InWindow(rows[0], start, width) then rows[0].length else 0) + WindowBytes(rows[1..], start, width)
  }

  /** Number of rows whose timestamp lies in `[start, start + width)`. */
  function WindowPackets(rows: seq<PacketRecord>, start: int, width: int): int {
    if rows == [] then 0
    else (if InWindow(rows[0], start, width) then 1 else 0) + WindowPackets(rows[1..], start, width)
  }

  /** `count` consecutive bins of the given width, the first one being bin number `b`. */
  function BucketsFrom(rows: seq<PacketRecord>, width: int, b: int, count: nat): seq<Bucket>
    decreases count
  {
    if count == 0 then []
    else [Bucket(b * width, WindowBytes(rows, b * width, width), WindowPackets(rows, b * width, width))] + BucketsFrom(rows, width, b + 1, count - 1)
  }

  /** With a positive width, bin `b` is exactly the timestamps whose floor division by the width is `b`. */
  lemma FloorWindow(t: int, width: int, b: int)
    requires width > 0
    ensures b * width <= t < b * width + width <==> t / width == b
  {
    var q, rem := t / width, t % width;
    assert t == q * width + rem && 0 <= rem < width;
    if q < b {
      assert q * width <= (b - 1) * width by { MulLe(q, b - 1, width); }
    } else if q > b {
      assert (b + 1) * width <= q * width by { MulLe(b + 1, q, width); }
    }
  }

  lemma MulLe(a: int, b: int, width: int)
    requires a <= b && width > 0
    ensures a * width <= b * width
  {
    assert b * width - a * width == (b - a) * width;
  }

  lemma DivMonotone(a: int, b: int, width: int)
    requires a <= b && width > 0
    ensures a / width <= b / width
  {
    FloorWindow(a, width, a / width);
    FloorWindow(b, width, b / width);
    if a / width > b / width {
      MulLe(b / width + 1, a / width, width);
    }
  }

  /**
   * `compute_throughput` with the resample rule given as a bin width: no bins for an empty
   * table, an error for a width that is not positive, and otherwise every bin from the one
   * holding the earliest row to the one holding the latest, empty bins included.
   */
  function Throughput(rows: seq<PacketRecord>, width: int): Result<seq<Bucket>, string> {
    if rows == [] then Ok([])
    else if width <= 0 then Err("invalid resample rule")
    else
      TimeBounds(rows);
      assert rows[0] in rows;
      DivMonotone(MinTime(rows), MaxTime(rows), width);
      var lo, hi := MinTime(rows) / width, MaxTime(rows) / width;
      Ok(BucketsFrom(rows, width, lo, hi - lo + 1))
  }

  lemma {:induction false} BucketsGrid(rows: seq<PacketRecord>, width: int, b: int, count: nat)
    ensures var bs := BucketsFrom(rows, width, b, count);
      && |bs| == count
      && forall j :: 0 <= j < count ==>
        bs[j] == Bucket((b + j) * width, WindowBytes(rows, (b + j) * width, width), WindowPackets(rows, (b + j) * width, width))
    decreases count
  {
    if count > 0 {
      BucketsGrid(rows, width, b + 1, count - 1);
      var bs := BucketsFrom(rows, width, b, count);
      forall j | 0 < j < count ensures bs[j].start == (b + j) * width {
        assert b + 1 + (j - 1) == b + j;
      }
    }
  }

  lemma {:induction false} BucketsNoRows(width: int, b: int, count: nat)
    ensures SumOf(BucketsFrom([], width, b, count), BucketBytes) == 0
    ensures SumOf(BucketsFrom([], width, b, count), BucketPackets) == 0
    decreases count
  {
    if count > 0 {
      BucketsNoRows(width, b + 1, count - 1);
    }
  }

  /** Adding one row adds its length (and one packet) to the bins exactly when one of them holds it. */
  lemma {:induction false} BucketsCons(r: PacketRecord, rest: seq<PacketRecord>, width: int, b: int, count: nat)
    requires width > 0
    ensures SumOf(BucketsFrom([r] + rest, width, b, count), BucketBytes)
      == SumOf(BucketsFrom(rest, width, b, count), BucketBytes) + (if b <= r.timestamp / width < b + count then r.length else 0)
    ensures SumOf(BucketsFrom([r] + rest, width, b, count), BucketPackets)
      == SumOf(BucketsFrom(rest, width, b, count), BucketPackets) + (if b <= r.timestamp / width < b + count then 1 else 0)
    decreases count
  {
    if count > 0 {
      BucketsCons(r, rest, width, b + 1, count - 1);
      FloorWindow(r.timestamp, width, b);
      assert ([r] + rest)[0] == r && ([r] + rest)[1..] == rest;
    }
  }

  lemma {:induction false} BucketsConserve(rows: seq<PacketRecord>, width: int, b: int, count: nat)
    requires width > 0
    requires forall r :: r in rows ==> b <= r.timestamp / width < b + count
    ensures SumOf(BucketsFrom(rows, width, b, count), BucketBytes) == SumOf(rows, Length)
    ensures SumOf(BucketsFrom(rows, width, b, count), BucketPackets) == |rows|
  {
    if rows == [] {
      BucketsNoRows(width, b, count);
    } else {
      assert rows == [rows[0]] + rows[1..];
      assert rows[0] in rows;
      BucketsConserve(rows[1..], width, b, count);
      BucketsCons(rows[0], rows[1..], width, b, count);
    }
  }

  /** The rule is validated only when there are rows to resample. */
  lemma ThroughputErrors(rows: seq<PacketRecord>, width: int)
    ensures rows == [] ==> Throughput(rows, width) == Ok([])
    ensures Throughput(rows, width).Err? <==> rows != [] && width <= 0
  {
  }

  /**
   * The bins are consecutive multiples of the width starting at the bin of the earliest row,
   * each one holding the rows of its window.
   */
  lemma ThroughputGrid(rows: seq<PacketRecord>, width: int)
    requires rows != [] && width > 0
    ensures Throughput(rows, width).Ok?
    ensures var bs, lo := Throughput(rows, width).value, MinTime(rows) / width;
      && |bs| == MaxTime(rows) / width - lo + 1
      && (forall j :: 0 <= j < |bs| ==>
            && bs[j].start == (lo + j) * width
            && bs[j].bytes == WindowBytes(rows, bs[j].start, width)
            && bs[j].packets == WindowPackets(rows, bs[j].start, width))
      && (forall j :: 0 <= j < |bs| - 1 ==> bs[j + 1].start == bs[j].start + width)
  {
    BinRange(rows, width);
    var lo, hi := MinTime(rows) / width, MaxTime(rows) / width;
    var bs := Throughput(rows, width).value;
    BucketsGrid(rows, width, lo, hi - lo + 1);
    forall j | 0 <= j < |bs| - 1 ensures bs[j + 1].start == bs[j].start + width {
      assert (lo + j + 1) * width == (lo + j) * width + width;
    }
  }

  /** The first bin holds the earliest row, the last bin the latest, and every row lies in some bin. */
  lemma ThroughputCovers(rows: seq<PacketRecord>, width: int)
    requires rows != [] && width > 0
    ensures Throughput(rows, width).Ok?
    ensures var bs := Throughput(rows, width).value;
      && |bs| >= 1
      && InSpan(MinTime(rows), bs[0].start, width)
      && InSpan(MaxTime(rows), bs[|bs| - 1].start, width)
      && (forall r :: r in rows ==> exists j :: 0 <= j < |bs| && InWindow(r, bs[j].start, width))
  {
    ThroughputGrid(rows, width);
    BinRange(rows, width);
    var lo, hi := MinTime(rows) / width, MaxTime(rows) / width;
    var bs := Throughput(rows, width).value;
    FloorWindow(MinTime(rows), width, lo);
    FloorWindow(MaxTime(rows), width, hi);
    assert bs[0].start == lo * width;
    assert bs[|bs| - 1].start == hi * width;
    forall r | r in rows ensures exists j :: 0 <= j < |bs| && InWindow(r, bs[j].start, width) {
      var q := r.timestamp / width;
      FloorWindow(r.timestamp, width, q);
      assert bs[q - lo].start == q * width;
    }
  }

  predicate InSpan(t: int, start: int, width: int) { start <= t < start + width }

  /** Every row falls between the first and the last bin number. */
  lemma BinRange(rows: seq<PacketRecord>, width: int)
    requires rows != [] && width > 0
    ensures MinTime(rows) / width <= MaxTime(rows) / width
    ensures forall r :: r in rows ==> MinTime(rows) / width <= r.timestamp / width <= MaxTime(rows) / width
  {
    TimeBounds(rows);
    assert rows[0] in rows;
    forall r | r in rows ensures MinTime(rows) / width <= r.timestamp / width <= MaxTime(rows) / width {
      DivMonotone(MinTime(rows), r.timestamp, width);
      DivMonotone(r.timestamp, MaxTime(rows), width);
    }
  }

  /** The bins' columns sum to the total length and to the number of rows. */
  lemma ThroughputTotals(rows: seq<PacketRecord>, width: int)
    requires Throughput(rows, width).Ok?
    ensures SumOf(Throughput(rows, width).value, BucketBytes) == SumOf(rows, Length)
    ensures SumOf(Throughput(rows, width).value, BucketPackets) == |rows|
  {
    if rows != [] {
      BinRange(rows, width);
      var lo, hi := MinTime(rows) / width, MaxTime(rows) / width;
      BucketsConserve(rows, width, lo, hi - lo + 1);
    }
  }

  // ---------------------------------------------------------------- conversation matrix

  /** A pivot table: row labels, column labels and a cell for every (row, column) pair. */
  datatype Pivot = Pivot(index: set<string>, columns: set<string>, cells: map<(string, string), int>)

  function Pair(r: PacketRecord): (string, string) { (r.srcIp, r.dstIp) }

  function Product(a: set<string>, b: set<string>): set<(string, string)> {
    set s, d | s in a && d in b :: (s, d)
  }

  /** `compute_conversation_matrix`: summed lengths per (source, destination), 0 where none. */
  function ConversationMatrix(rows: seq<PacketRecord>): Pivot {
    if rows == [] then Pivot({}, {}, map[])
    else
      var index, columns := KeySet(rows, SrcIp), KeySet(rows, DstIp);
      Pivot(index, columns, Pad(GroupSum(rows, Pair, Length), Product(index, columns)))
  }

  lemma PairKeys(rows: seq<PacketRecord>, s: string, d: string)
    requires (s, d) in KeySet(rows, Pair)
    ensures s in KeySet(rows, SrcIp) && d in KeySet(rows, DstIp)
  {
    KeySetMembers(rows, Pair, (s, d));
    var r :| r in rows && Pair(r) == (s, d);
    KeySetMembers(rows, SrcIp, s);
    KeySetMembers(rows, DstIp, d);
  }

  /**
   * The matrix has a row per source address and a column per destination address, and cell
   * `(s, d)` is the total length of the rows sent from `s` to `d` (0 when there are none), so
   * `(s, d)` and `(d, s)` are independent.
   */
  lemma ConversationCells(rows: seq<PacketRecord>)
    ensures var m := ConversationMatrix(rows);
      && (forall s :: s in m.index <==> exists r :: r in rows && r.srcIp == s)
      && (forall d :: d in m.columns <==> exists r :: r in rows && r.dstIp == d)
      && m.cells.Keys == Product(m.index, m.columns)
      && forall s, d :: (s, d) in m.cells ==> m.cells[(s, d)] == SumOf(Where(rows, Pair, (s, d)), Length)
  {
    var m := ConversationMatrix(rows);
    forall s ensures s in m.index <==> exists r :: r in rows && r.srcIp == s {
      KeySetMembers(rows, SrcIp, s);
    }
    forall d ensures d in m.columns <==> exists r :: r in rows && r.dstIp == d {
      KeySetMembers(rows, DstIp, d);
    }
    if rows != [] {
      forall k | k in KeySet(rows, Pair) ensures k in Product(m.index, m.columns) {
        PairKeys(rows, k.0, k.1);
      }
      forall s, d | (s, d) in m.cells ensures m.cells[(s, d)] == SumOf(Where(rows, Pair, (s, d)), Length) {
        GroupSumGet(rows, Pair, Length, (s, d));
      }
    }
  }

  /** All cells together sum to the total length. */
  lemma ConversationTotal(rows: seq<PacketRecord>)
    ensures MapTotal(ConversationMatrix(rows).cells) == SumOf(rows, Length)
  {
    if rows != [] {
      var index, columns := KeySet(rows, SrcIp), KeySet(rows, DstIp);
      PadTotal(GroupSum(rows, Pair, Length), Product(index, columns));
      GroupSumTotal(rows, Pair, Length);
    }
  }

  /** Every analytic gives an empty result on an empty table. */
  lemma EmptyTable(n: int, width: int)
    ensures TopTalkers([], n) == [] && TopPorts([], n) == [] && ProtocolBreakdown([]) == []
    ensures Throughput([], width) == Ok([])
    ensures ConversationMatrix([]) == Pivot({}, {}, map[])
  {
  }
}
