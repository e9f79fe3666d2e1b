/**
 * `build_host_graph`: the directed conversation graph between hosts, with per-host outgoing
 * totals and one edge per ordered (source, destination) pair carrying its bytes, packets and
 * per-protocol bytes; and the dominant-protocol colour rule the graph is drawn with.
 */
module Graph {
  import opened Lex
  import opened Frames
  import opened Aggregate
  import opened Parser

  /** The `(src_ip, dst_ip, protocol)` group key. */
  type GroupKey = (string, string, string)

  function RowKey(r: PacketRecord): GroupKey { (r.srcIp, r.dstIp, r.protocol) }

  function RowPair(r: PacketRecord): (string, string) { (r.srcIp, r.dstIp) }

  function PairOf(k: GroupKey): (string, string) { (k.0, k.1) }

  function TallySrc(t: Tally<GroupKey>): string { t.key.0 }

  function TallyDst(t: Tally<GroupKey>): string { t.key.1 }

  function TallyPair(t: Tally<GroupKey>): (string, string) { (t.key.0, t.key.1) }

  function GroupProtocol(t: Tally<GroupKey>): string { t.key.2 }

  /** The per-(source, destination, protocol) byte sums and packet counts. */
  function Groups(rows: seq<PacketRecord>): seq<Tally<GroupKey>> {
    Agg(rows, RowKey, Length)
  }

  /** The groups whose byte sum reaches the threshold (`agg[agg["bytes"] >= min_bytes]`). */
  function Kept(gs: seq<Tally<GroupKey>>, minBytes: int): seq<Tally<GroupKey>> {
    if gs == [] then []
    else (if gs[0].bytes >= minBytes then [gs[0]] else []) + Kept(gs[1..], minBytes)
  }

  // ---------------------------------------------------------------- graph values

  datatype NodeAttrs = NodeAttrs(totalBytes: int, totalPackets: int)

  /** `protocol_bytes` is a dictionary; it is kept here as its entries in insertion order. */
  datatype EdgeAttrs = EdgeAttrs(bytes: int, packets: int, protocolBytes: seq<(string, int)>)

  datatype HostGraph = HostGraph(nodes: map<string, NodeAttrs>, edges: map<(string, string), EdgeAttrs>)

  function Weight(e: (string, int)): int { e.1 }

  /** Entries ordered by strictly increasing protocol name. */
  predicate Ascending(pb: seq<(string, int)>) {
    forall i, j :: 0 <= i < j < |pb| ==> StrLt(pb[i].0, pb[j].0)
  }

  /**
   * `d[name] = value` on a dictionary whose entries are in ascending name order, the order the
   * sorted group-by hands the protocols of one pair over in.
   */
  function Put(pb: seq<(string, int)>, e: (string, int)): seq<(string, int)> {
    if pb == [] then [e]
    else if pb[0].0 == e.0 then [e] + pb[1..]
    else if StrLe(e.0, pb[0].0) then [e] + pb
    else [pb[0]] + Put(pb[1..], e)
  }

  /** `{protocol: bytes for each row of df}` for the groups of one (source, destination) pair. */
  function ProtocolWeights(df: seq<Tally<GroupKey>>): seq<(string, int)> {
    if df == [] then []
    else
      var last := df[|df| - 1];
      Put(ProtocolWeights(df[..|df| - 1]), (GroupProtocol(last), last.bytes))
  }

  /** Nodes: every address that is an endpoint of a kept group. */
  function Endpoints(s: seq<Tally<GroupKey>>): set<string> {
    KeySet(s, TallySrc) + KeySet(s, TallyDst)
  }

  /** Per endpoint, the column `w` summed over the groups it is the source of. */
  function NodeTable(s: seq<Tally<GroupKey>>, w: Tally<GroupKey> -> int): map<string, int> {
    map ip | ip in Endpoints(s) :: SumOf(Where(s, TallySrc, ip), w)
  }

  function HostNodes(s: seq<Tally<GroupKey>>): map<string, NodeAttrs> {
    map ip | ip in Endpoints(s) :: NodeAttrs(SumOf(Where(s, TallySrc, ip), TallyBytes), SumOf(Where(s, TallySrc, ip), TallyPackets))
  }

  /** The edge made from the groups of one pair. */
  function EdgeOf(df: seq<Tally<GroupKey>>): EdgeAttrs {
    EdgeAttrs(SumOf(df, TallyBytes), SumOf(df, TallyPackets), ProtocolWeights(df))
  }

  function HostEdges(s: seq<Tally<GroupKey>>): map<(string, string), EdgeAttrs> {
    map pr | pr in KeySet(s, TallyPair) :: EdgeOf(Where(s, TallyPair, pr))
  }

  /** The graph drawn from a list of kept groups. */
  function GraphOf(kept: seq<Tally<GroupKey>>): HostGraph {
    HostGraph(HostNodes(kept), HostEdges(kept))
  }

  /** The graph `build_host_graph` returns. */
  function HostGraphOf(rows: seq<PacketRecord>, minBytes: int): HostGraph {
    if rows == [] then HostGraph(map[], map[]) else GraphOf(Kept(Groups(rows), minBytes))
  }

  // ---------------------------------------------------------------- building it

  lemma NodeTableGet(s: seq<Tally<GroupKey>>, w: Tally<GroupKey> -> int, ip: string)
    ensures MapGet(NodeTable(s, w), ip) == SumOf(Where(s, TallySrc, ip), w)
  {
    KeySetWhere(s, TallySrc, ip);
  }

  lemma EndpointsSnoc(s: seq<Tally<GroupKey>>, t: Tally<GroupKey>)
    ensures Endpoints(s + [t]) == Endpoints(s) + {t.key.0, t.key.1}
  {
    KeySetConcat(s, [t], TallySrc);
    KeySetConcat(s, [t], TallyDst);
    SingletonGroup(t, TallySrc, t.key.0);
    SingletonGroup(t, TallyDst, t.key.1);
  }

  /** One more group adds its column value to its source's entry and to no other. */
  lemma NodeTableSnocAt(s: seq<Tally<GroupKey>>, t: Tally<GroupKey>, w: Tally<GroupKey> -> int, ip: string)
    ensures MapGet(NodeTable(s + [t], w), ip) == MapGet(NodeTable(s, w), ip) + (if ip == t.key.0 then w(t) else 0)
  {
    NodeTableGet(s + [t], w, ip);
    NodeTableGet(s, w, ip);
    WhereConcat(s, [t], TallySrc, ip);
    WhereSingleton(t, TallySrc, ip);
    SumOfConcat(Where(s, TallySrc, ip), Where([t], TallySrc, ip), w);
  }

  /** `d[src] = d.get(src, 0) + v` followed by `d[dst] = d.get(dst, 0)`. */
  function AddOutgoing(d: map<string, int>, src: string, dst: string, v: int): map<string, int> {
    var m := d[src := MapGet(d, src) + v];
    m[dst := MapGet(m, dst)]
  }

  lemma AddOutgoingAt(d: map<string, int>, src: string, dst: string, v: int, ip: string)
    ensures ip in AddOutgoing(d, src, dst, v) <==> ip in d || ip == src || ip == dst
    ensures MapGet(AddOutgoing(d, src, dst, v), ip) == MapGet(d, ip) + (if ip == src then v else 0)
  {
  }

  /** Folding one more group into a node dictionary. */
  lemma NodeTableSnoc(s: seq<Tally<GroupKey>>, t: Tally<GroupKey>, w: Tally<GroupKey> -> int)
    ensures NodeTable(s + [t], w) == AddOutgoing(NodeTable(s, w), t.key.0, t.key.1, w(t))
  {
    var after := NodeTable(s + [t], w);
    var m := AddOutgoing(NodeTable(s, w), t.key.0, t.key.1, w(t));
    EndpointsSnoc(s, t);
    forall ip ensures ip in after <==> ip in m {
      AddOutgoingAt(NodeTable(s, w), t.key.0, t.key.1, w(t), ip);
    }
    forall ip | ip in after ensures after[ip] == m[ip] {
      NodeTableSnocAt(s, t, w, ip);
      AddOutgoingAt(NodeTable(s, w), t.key.0, t.key.1, w(t), ip);
    }
    MapsEqual(after, m);
  }

  lemma NodeTableStep(agg: seq<Tally<GroupKey>>, i: nat, w: Tally<GroupKey> -> int)
    requires i < |agg|
    ensures NodeTable(agg[..i + 1], w) == AddOutgoing(NodeTable(agg[..i], w), agg[i].key.0, agg[i].key.1, w(agg[i]))
  {
    assert agg[..i + 1] == agg[..i] + [agg[i]];
    NodeTableSnoc(agg[..i], agg[i], w);
  }

  /** The node loop's dictionaries give each endpoint its outgoing totals. */
  lemma NodesFromTables(s: seq<Tally<GroupKey>>, nodeBytes: map<string, int>, nodePackets: map<string, int>)
    requires nodeBytes == NodeTable(s, TallyBytes) && nodePackets == NodeTable(s, TallyPackets)
    ensures (map ip | ip in Endpoints(s) :: NodeAttrs(MapGet(nodeBytes, ip), MapGet(nodePackets, ip))) == HostNodes(s)
  {
    forall ip | ip in Endpoints(s)
      ensures MapGet(nodeBytes, ip) == SumOf(Where(s, TallySrc, ip), TallyBytes)
      ensures MapGet(nodePackets, ip) == SumOf(Where(s, TallySrc, ip), TallyPackets)
    {
      NodeTableGet(s, TallyBytes, ip);
      NodeTableGet(s, TallyPackets, ip);
    }
  }

  /** Visiting the listed pairs once each builds the edge map. */
  /** The edges of the listed pairs. */
  function EdgesOver(s: seq<Tally<GroupKey>>, prs: seq<(string, string)>): map<(string, string), EdgeAttrs> {
    map pr | pr in prs :: EdgeOf(Where(s, TallyPair, pr))
  }

  lemma EdgesOverStep(s: seq<Tally<GroupKey>>, prs: seq<(string, string)>, i: nat)
    requires i < |prs|
    ensures EdgesOver(s, prs[..i + 1]) == EdgesOver(s, prs[..i])[prs[i] := EdgeOf(Where(s, TallyPair, prs[i]))]
  {
    assert prs[..i + 1] == prs[..i] + [prs[i]];
  }

  lemma EdgesFromPairs(s: seq<Tally<GroupKey>>)
    ensures EdgesOver(s, KeyList(s, TallyPair)) == HostEdges(s)
  {
  }

  /**
   * The two dictionary updates a group makes, as the loop body performs them: the source
   * gains `v`, the destination gains an entry. `AddOutgoing` is their specification.
   */
  method Credit(d: map<string, int>, src: string, dst: string, v: int) returns (d': map<string, int>)
    ensures d' == AddOutgoing(d, src, dst, v)
  {
    d' := d[src := MapGet(d, src) + v];
    d' := d'[dst := MapGet(d', dst)];
  }

  /**
   * The first loop of `build_host_graph`: each kept group adds its bytes and packets to its
   * source's totals and makes sure its destination has an entry.
   */
  method NodeTotals(agg: seq<Tally<GroupKey>>) returns (nodeBytes: map<string, int>, nodePackets: map<string, int>)
    ensures nodeBytes == NodeTable(agg, TallyBytes)
    ensures nodePackets == NodeTable(agg, TallyPackets)
  {
    nodeBytes, nodePackets := map[], map[];
    for i := 0 to |agg|
      invariant nodeBytes == NodeTable(agg[..i], TallyBytes)
      invariant nodePackets == NodeTable(agg[..i], TallyPackets)
    {
      var src, dst := agg[i].key.0, agg[i].key.1;
      NodeTableStep(agg, i, TallyBytes);
      NodeTableStep(agg, i, TallyPackets);
      nodeBytes := Credit(nodeBytes, src, dst, agg[i].bytes);
      nodePackets := Credit(nodePackets, src, dst, agg[i].packets);
    }
    assert agg[..|agg|] == agg;
  }

  /** The second loop: one node per address, carrying its totals (0 when it has none). */
  method AddNodes(ips: set<string>, nodeBytes: map<string, int>, nodePackets: map<string, int>) returns (nodes: map<string, NodeAttrs>)
    ensures nodes == map ip | ip in ips :: NodeAttrs(MapGet(nodeBytes, ip), MapGet(nodePackets, ip))
  {
    var todo := ips;
    nodes := map[];
    while todo != {}
      invariant todo <= ips
      invariant nodes == map ip | ip in ips - todo :: NodeAttrs(MapGet(nodeBytes, ip), MapGet(nodePackets, ip))
      decreases |todo|
    {
      var ip :| ip in todo;
      nodes := nodes[ip := NodeAttrs(MapGet(nodeBytes, ip), MapGet(nodePackets, ip))];
      todo := todo - {ip};
    }
  }

  /** The third loop: one edge per (source, destination) pair of the kept groups. */
  method AddEdges(agg: seq<Tally<GroupKey>>) returns (edges: map<(string, string), EdgeAttrs>)
    ensures edges == HostEdges(agg)
  {
    var pairs := KeyList(agg, TallyPair);
    edges := map[];
    for i := 0 to |pairs|
      invariant edges == EdgesOver(agg, pairs[..i])
    {
      var df := Where(agg, TallyPair, pairs[i]);
      var totalBytes, totalPackets := SumOf(df, TallyBytes), SumOf(df, TallyPackets);
      EdgesOverStep(agg, pairs, i);
      edges := edges[pairs[i] := EdgeAttrs(totalBytes, totalPackets, ProtocolWeights(df))];
    }
    assert pairs[..|pairs|] == pairs;
    EdgesFromPairs(agg);
  }

  /**
   * `build_host_graph`: aggregate per (source, destination, protocol), drop the groups below
   * the threshold, total each source's outgoing bytes and packets, add every endpoint as a
   * node, and add one edge per pair with that pair's totals and per-protocol bytes.
   */
  method BuildHostGraph(rows: seq<PacketRecord>, minBytes: int) returns (g: HostGraph)
    ensures g == HostGraphOf(rows, minBytes)
  {
    if rows == [] {
      return HostGraph(map[], map[]);
    }
    var agg := Kept(Groups(rows), minBytes);
    var nodeBytes, nodePackets := NodeTotals(agg);
    var nodes := AddNodes(Endpoints(agg), nodeBytes, nodePackets);
    NodesFromTables(agg, nodeBytes, nodePackets);
    var edges := AddEdges(agg);
    g := HostGraph(nodes, edges);
    assert g == GraphOf(agg);
  }

  // ---------------------------------------------------------------- kept groups

  lemma {:induction false} KeptMembers(gs: seq<Tally<GroupKey>>, minBytes: int)
    ensures forall t :: t in Kept(gs, minBytes) ==> t in gs && t.bytes >= minBytes
    ensures forall t :: t in gs && t.bytes >= minBytes ==> t in Kept(gs, minBytes)
  {
    if gs != [] {
      KeptMembers(gs[1..], minBytes);
    }
  }

  lemma {:induction false} KeptNoDup(gs: seq<Tally<GroupKey>>, minBytes: int)
    requires NoDup(gs)
    ensures NoDup(Kept(gs, minBytes))
  {
    if gs != [] {
      assert NoDup(gs[1..]) by {
        forall i, j | 0 <= i < j < |gs[1..]| ensures gs[1..][i] != gs[1..][j] {
          assert gs[1..][i] == gs[i + 1] && gs[1..][j] == gs[j + 1];
        }
      }
      KeptNoDup(gs[1..], minBytes);
      KeptMembers(gs[1..], minBytes);
      var rest := Kept(gs[1..], minBytes);
      if gs[0].bytes >= minBytes {
        assert gs[0] !in gs[1..];
        assert gs[0] !in rest;
        forall i, j | 0 <= i < j < |[gs[0]] + rest| ensures ([gs[0]] + rest)[i] != ([gs[0]] + rest)[j] {
          if i > 0 {
            assert ([gs[0]] + rest)[i] == rest[i - 1];
          }
          assert ([gs[0]] + rest)[j] == rest[j - 1];
        }
      }
    }
  }

  lemma {:induction false} KeptAll(gs: seq<Tally<GroupKey>>, minBytes: int)
    requires forall t :: t in gs ==> t.bytes >= minBytes
    ensures Kept(gs, minBytes) == gs
  {
    if gs != [] {
      assert gs[0] in gs;
      KeptAll(gs[1..], minBytes);
    }
  }

  /** The kept groups: distinct, each the one aggregated row of its key, each at or above the threshold. */
  lemma KeptFacts(rows: seq<PacketRecord>, minBytes: int)
    ensures var kept := Kept(Groups(rows), minBytes);
      && NoDup(kept)
      && (forall a, b :: a in kept && b in kept && a.key == b.key ==> a == b)
      && (forall t :: t in kept ==> t in Groups(rows) && t.bytes >= minBytes)
  {
    var gs := Groups(rows);
    AggRows(rows, RowKey, Length);
    KeptNoDup(gs, minBytes);
    KeptMembers(gs, minBytes);
  }

  /** Within one pair's groups no protocol occurs twice. */
  lemma EdgeGroupFacts(kept: seq<Tally<GroupKey>>, pr: (string, string))
    requires NoDup(kept)
    requires forall a, b :: a in kept && b in kept && a.key == b.key ==> a == b
    ensures var df := Where(kept, TallyPair, pr);
      && NoDup(df)
      && forall a, b :: a in df && b in df && GroupProtocol(a) == GroupProtocol(b) ==> a == b
  {
    WhereNoDup(kept, TallyPair, pr);
    WhereSound(kept, TallyPair, pr);
  }

  // ---------------------------------------------------------------- protocol weights

  lemma {:induction false} PutMembers(pb: seq<(string, int)>, e: (string, int))
    requires Ascending(pb)
    ensures e in Put(pb, e)
    ensures forall x :: x in Put(pb, e) ==> x == e || x in pb
    ensures forall x :: x in pb && x.0 != e.0 ==> x in Put(pb, e)
  {
    if pb != [] && pb[0].0 != e.0 && !StrLe(e.0, pb[0].0) {
      PutMembers(pb[1..], e);
    }
  }

  lemma ConsAscending(x: (string, int), t: seq<(string, int)>)
    requires Ascending(t)
    requires forall y :: y in t ==> StrLt(x.0, y.0)
    ensures Ascending([x] + t)
  {
    var r := [x] + t;
    forall i, j | 0 <= i < j < |r| ensures StrLt(r[i].0, r[j].0) {
      assert r[j] == t[j - 1];
      if i > 0 {
        assert r[i] == t[i - 1];
      } else {
        assert t[j - 1] in t;
      }
    }
  }

  lemma AscendingTail(pb: seq<(string, int)>)
    requires Ascending(pb) && pb != []
    ensures Ascending(pb[1..])
    ensures forall y :: y in pb[1..] ==> StrLt(pb[0].0, y.0)
  {
    forall i, j | 0 <= i < j < |pb[1..]| ensures StrLt(pb[1..][i].0, pb[1..][j].0) {
      assert pb[1..][i] == pb[i + 1] && pb[1..][j] == pb[j + 1];
    }
    forall y | y in pb[1..] ensures StrLt(pb[0].0, y.0) {
      var k :| 0 <= k < |pb[1..]| && pb[1..][k] == y;
      assert pb[1..][k] == pb[k + 1];
    }
  }

  lemma {:induction false} PutAscending(pb: seq<(string, int)>, e: (string, int))
    requires Ascending(pb)
    ensures Ascending(Put(pb, e))
  {
    if pb != [] {
      AscendingTail(pb);
      if pb[0].0 == e.0 {
        ConsAscending(e, pb[1..]);
      } else if StrLe(e.0, pb[0].0) {
        forall y | y in pb ensures StrLt(e.0, y.0) {
          if y != pb[0] {
            StrLtLeTransitive(e.0, pb[0].0, y.0);
          }
        }
        ConsAscending(e, pb);
      } else {
        StrLeTotal(e.0, pb[0].0);
        PutAscending(pb[1..], e);
        PutMembers(pb[1..], e);
        ConsAscending(pb[0], Put(pb[1..], e));
      }
    }
  }

  lemma {:induction false} PutSum(pb: seq<(string, int)>, e: (string, int))
    requires forall x :: x in pb ==> x.0 != e.0
    ensures SumOf(Put(pb, e), Weight) == SumOf(pb, Weight) + e.1
  {
    if pb != [] {
      assert pb[0] in pb;
      if !StrLe(e.0, pb[0].0) {
        assert forall x :: x in pb[1..] ==> x in pb;
        PutSum(pb[1..], e);
        assert ([pb[0]] + Put(pb[1..], e))[1..] == Put(pb[1..], e);
      }
    }
  }

  /** The groups of one pair without their last one still have distinct protocols. */
  lemma DistinctProtocolsInit(df: seq<Tally<GroupKey>>)
    requires df != [] && NoDup(df)
    requires forall a, b :: a in df && b in df && GroupProtocol(a) == GroupProtocol(b) ==> a == b
    ensures var init := df[..|df| - 1];
      && df == init + [df[|df| - 1]]
      && NoDup(init)
      && (forall a, b :: a in init && b in init && GroupProtocol(a) == GroupProtocol(b) ==> a == b)
      && forall t :: t in init ==> t in df && GroupProtocol(t) != GroupProtocol(df[|df| - 1])
  {
    var init := df[..|df| - 1];
    assert df == init + [df[|df| - 1]];
    forall i, j | 0 <= i < j < |init| ensures init[i] != init[j] {
      assert init[i] == df[i] && init[j] == df[j];
    }
    assert df[|df| - 1] !in init;
  }

  /**
   * The per-protocol dictionary of one pair: in ascending protocol order, one entry
   * `(protocol, bytes)` per group and nothing else.
   */
  lemma {:induction false} ProtocolWeightsSpec(df: seq<Tally<GroupKey>>)
    requires NoDup(df)
    requires forall a, b :: a in df && b in df && GroupProtocol(a) == GroupProtocol(b) ==> a == b
    ensures Ascending(ProtocolWeights(df))
    ensures forall t :: t in df ==> (GroupProtocol(t), t.bytes) in ProtocolWeights(df)
    ensures forall x :: x in ProtocolWeights(df) ==> exists t :: t in df && x == (GroupProtocol(t), t.bytes)
  {
    if df != [] {
      var init, last := df[..|df| - 1], df[|df| - 1];
      DistinctProtocolsInit(df);
      ProtocolWeightsSpec(init);
      var pw := ProtocolWeights(init);
      var e := (GroupProtocol(last), last.bytes);
      PutAscending(pw, e);
      PutMembers(pw, e);
    }
  }

  /** The dictionary's values sum to the groups' bytes. */
  lemma {:induction false} ProtocolWeightsSum(df: seq<Tally<GroupKey>>)
    requires NoDup(df)
    requires forall a, b :: a in df && b in df && GroupProtocol(a) == GroupProtocol(b) ==> a == b
    ensures SumOf(ProtocolWeights(df), Weight) == SumOf(df, TallyBytes)
  {
    if df != [] {
      var init, last := df[..|df| - 1], df[|df| - 1];
      DistinctProtocolsInit(df);
      ProtocolWeightsSpec(init);
      ProtocolWeightsSum(init);
      var pw := ProtocolWeights(init);
      var e := (GroupProtocol(last), last.bytes);
      assert forall x :: x in pw ==> x.0 != e.0;
      PutSum(pw, e);
      SumOfConcat(init, [last], TallyBytes);
    }
  }

  // ---------------------------------------------------------------- graph properties

  /** No records, no graph; and a graph has nodes exactly when it has edges. */
  lemma EmptyGraph(rows: seq<PacketRecord>, minBytes: int)
    ensures rows == [] ==> HostGraphOf(rows, minBytes) == HostGraph(map[], map[])
    ensures HostGraphOf(rows, minBytes).nodes == map[] <==> HostGraphOf(rows, minBytes).edges == map[]
  {
    var g := HostGraphOf(rows, minBytes);
    if rows != [] {
      var kept := Kept(Groups(rows), minBytes);
      if kept != [] {
        var t := kept[0];
        KeySetMembers(kept, TallySrc, t.key.0);
        KeySetMembers(kept, TallyPair, (t.key.0, t.key.1));
        assert t.key.0 in g.nodes && (t.key.0, t.key.1) in g.edges;
      }
    }
  }

  /**
   * Every edge lists, in ascending protocol order, exactly the surviving groups of its pair,
   * each at or above the threshold, and its bytes are the sum of those entries.
   */
  lemma EdgeProtocols(rows: seq<PacketRecord>, minBytes: int, pr: (string, string))
    requires pr in HostGraphOf(rows, minBytes).edges
    ensures var e := HostGraphOf(rows, minBytes).edges[pr];
      && Ascending(e.protocolBytes)
      && e.protocolBytes != []
      && e.bytes == SumOf(e.protocolBytes, Weight)
      && (forall x :: x in e.protocolBytes ==> x.1 >= minBytes)
      && (forall x :: x in e.protocolBytes ==>
            exists t :: t in Groups(rows) && TallyPair(t) == pr && t.bytes >= minBytes && x == (GroupProtocol(t), t.bytes))
      && (forall t :: t in Groups(rows) && TallyPair(t) == pr && t.bytes >= minBytes ==>
            (GroupProtocol(t), t.bytes) in e.protocolBytes)
  {
    var kept := Kept(Groups(rows), minBytes);
    var df := Where(kept, TallyPair, pr);
    KeptFacts(rows, minBytes);
    KeptMembers(Groups(rows), minBytes);
    EdgeGroupFacts(kept, pr);
    ProtocolWeightsSpec(df);
    ProtocolWeightsSum(df);
    WhereSound(kept, TallyPair, pr);
    KeySetWhere(kept, TallyPair, pr);
    assert df[0] in df;
    forall t | t in Groups(rows) && TallyPair(t) == pr && t.bytes >= minBytes
      ensures (GroupProtocol(t), t.bytes) in ProtocolWeights(df)
    {
      WhereMember(kept, TallyPair, pr, t);
    }
  }

  /** The bytes of the edges leaving `ip`. */
  ghost function OutEdgeBytes(g: HostGraph, ip: string): map<(string, string), int> {
    map pr | pr in g.edges && pr.0 == ip :: g.edges[pr].bytes
  }

  ghost function OutEdgePackets(g: HostGraph, ip: string): map<(string, string), int> {
    map pr | pr in g.edges && pr.0 == ip :: g.edges[pr].packets
  }

  /** The total of a node's outgoing edges. */
  ghost function OutBytes(g: HostGraph, ip: string): int {
    MapTotal(OutEdgeBytes(g, ip))
  }

  ghost function OutPackets(g: HostGraph, ip: string): int {
    MapTotal(OutEdgePackets(g, ip))
  }

  function PairSrc(pr: (string, string)): string { pr.0 }

  /** A node's outgoing groups, grouped by pair, are its outgoing edges. */
  lemma OutgoingPairs(kept: seq<Tally<GroupKey>>, ip: string, pr: (string, string))
    ensures pr in KeySet(Where(kept, TallySrc, ip), TallyPair) <==> pr in KeySet(kept, TallyPair) && pr.0 == ip
    ensures pr.0 == ip ==> Where(Where(kept, TallySrc, ip), TallyPair, pr) == Where(kept, TallyPair, pr)
  {
    var out := Where(kept, TallySrc, ip);
    KeySetWhere(out, TallyPair, pr);
    KeySetWhere(kept, TallyPair, pr);
    if pr.0 == ip {
      WhereWhere(kept, TallyPair, TallySrc, PairSrc, pr);
    } else {
      WhereDisjoint(kept, TallyPair, TallySrc, PairSrc, ip, pr);
    }
  }

  /** The pairs of a node's outgoing edges are the pairs of the groups it sends. */
  lemma OutEdgeKeys(kept: seq<Tally<GroupKey>>, ip: string)
    ensures OutEdgeBytes(GraphOf(kept), ip).Keys == KeySet(Where(kept, TallySrc, ip), TallyPair)
    ensures OutEdgePackets(GraphOf(kept), ip).Keys == KeySet(Where(kept, TallySrc, ip), TallyPair)
  {
    forall pr ensures pr in OutEdgeBytes(GraphOf(kept), ip) <==> pr in KeySet(Where(kept, TallySrc, ip), TallyPair) {
      OutgoingPairs(kept, ip, pr);
    }
  }

  lemma OutEdgeValue(kept: seq<Tally<GroupKey>>, ip: string, pr: (string, string))
    requires pr in KeySet(Where(kept, TallySrc, ip), TallyPair)
    ensures pr in GraphOf(kept).edges && pr.0 == ip
    ensures GraphOf(kept).edges[pr].bytes == SumOf(Where(Where(kept, TallySrc, ip), TallyPair, pr), TallyBytes)
    ensures GraphOf(kept).edges[pr].packets == SumOf(Where(Where(kept, TallySrc, ip), TallyPair, pr), TallyPackets)
  {
    OutgoingPairs(kept, ip, pr);
  }

  lemma OutBytesOf(kept: seq<Tally<GroupKey>>, ip: string)
    ensures OutEdgeBytes(GraphOf(kept), ip) == GroupSum(Where(kept, TallySrc, ip), TallyPair, TallyBytes)
  {
    var ob, gb := OutEdgeBytes(GraphOf(kept), ip), GroupSum(Where(kept, TallySrc, ip), TallyPair, TallyBytes);
    OutEdgeKeys(kept, ip);
    forall pr | pr in ob ensures ob[pr] == gb[pr] {
      OutEdgeValue(kept, ip, pr);
    }
    MapsEqual(ob, gb);
  }

  lemma OutPacketsOf(kept: seq<Tally<GroupKey>>, ip: string)
    ensures OutEdgePackets(GraphOf(kept), ip) == GroupSum(Where(kept, TallySrc, ip), TallyPair, TallyPackets)
  {
    var op, gp := OutEdgePackets(GraphOf(kept), ip), GroupSum(Where(kept, TallySrc, ip), TallyPair, TallyPackets);
    OutEdgeKeys(kept, ip);
    forall pr | pr in op ensures op[pr] == gp[pr] {
      OutEdgeValue(kept, ip, pr);
    }
    MapsEqual(op, gp);
  }

  lemma NodeTotalsOf(kept: seq<Tally<GroupKey>>, ip: string)
    requires ip in GraphOf(kept).nodes
    ensures var g := GraphOf(kept);
      && g.nodes[ip].totalBytes == OutBytes(g, ip)
      && g.nodes[ip].totalPackets == OutPackets(g, ip)
  {
    OutBytesOf(kept, ip);
    OutPacketsOf(kept, ip);
    GroupSumTotal(Where(kept, TallySrc, ip), TallyPair, TallyBytes);
    GroupSumTotal(Where(kept, TallySrc, ip), TallyPair, TallyPackets);
  }

  /**
   * A node's totals are those of its outgoing edges only, so an address that is only ever a
   * destination has 0 bytes and 0 packets.
   */
  lemma NodeTotalsOutgoing(rows: seq<PacketRecord>, minBytes: int, ip: string)
    requires ip in HostGraphOf(rows, minBytes).nodes
    ensures var g := HostGraphOf(rows, minBytes);
      && g.nodes[ip].totalBytes == OutBytes(g, ip)
      && g.nodes[ip].totalPackets == OutPackets(g, ip)
      && ((forall pr :: pr in g.edges ==> pr.0 != ip) ==> g.nodes[ip] == NodeAttrs(0, 0))
  {
    var g := HostGraphOf(rows, minBytes);
    NodeTotalsOf(Kept(Groups(rows), minBytes), ip);
    if forall pr :: pr in g.edges ==> pr.0 != ip {
      assert OutEdgeBytes(g, ip) == map[];
      assert OutEdgePackets(g, ip) == map[];
    }
  }

  lemma NodesAreEndpointsOf(kept: seq<Tally<GroupKey>>, ip: string)
    ensures var g := GraphOf(kept);
      ip in g.nodes <==> exists pr :: pr in g.edges && (pr.0 == ip || pr.1 == ip)
  {
    var g := GraphOf(kept);
    KeySetMembers(kept, TallySrc, ip);
    KeySetMembers(kept, TallyDst, ip);
    if ip in g.nodes {
      var t :| t in kept && (TallySrc(t) == ip || TallyDst(t) == ip);
      KeySetMembers(kept, TallyPair, TallyPair(t));
      assert TallyPair(t) in g.edges;
    }
    if exists pr :: pr in g.edges && (pr.0 == ip || pr.1 == ip) {
      var pr :| pr in g.edges && (pr.0 == ip || pr.1 == ip);
      KeySetMembers(kept, TallyPair, pr);
      var t :| t in kept && TallyPair(t) == pr;
      assert TallySrc(t) == ip || TallyDst(t) == ip;
    }
  }

  /** The nodes are exactly the endpoints of the edges: no node is isolated. */
  lemma NodesAreEndpoints(rows: seq<PacketRecord>, minBytes: int, ip: string)
    ensures var g := HostGraphOf(rows, minBytes);
      ip in g.nodes <==> exists pr :: pr in g.edges && (pr.0 == ip || pr.1 == ip)
  {
    if rows != [] {
      NodesAreEndpointsOf(Kept(Groups(rows), minBytes), ip);
    }
  }

  ghost function NodeBytes(g: HostGraph): map<string, int> {
    map ip | ip in g.nodes :: g.nodes[ip].totalBytes
  }

  ghost function EdgeBytes(g: HostGraph): map<(string, string), int> {
    map pr | pr in g.edges :: g.edges[pr].bytes
  }

  ghost function NodePackets(g: HostGraph): map<string, int> {
    map ip | ip in g.nodes :: g.nodes[ip].totalPackets
  }

  ghost function EdgePackets(g: HostGraph): map<(string, string), int> {
    map pr | pr in g.edges :: g.edges[pr].packets
  }

  /** Per endpoint, the column `w` over the groups it sends. */
  function SourceColumn(kept: seq<Tally<GroupKey>>, w: Tally<GroupKey> -> int): map<string, int> {
    map ip | ip in Endpoints(kept) :: SumOf(Where(kept, TallySrc, ip), w)
  }

  lemma NodeColumn(kept: seq<Tally<GroupKey>>, w: Tally<GroupKey> -> int)
    ensures MapTotal(SourceColumn(kept, w)) == SumOf(kept, w)
  {
    var m := GroupSum(kept, TallySrc, w);
    var column, padded := SourceColumn(kept, w), Pad(m, Endpoints(kept));
    assert column.Keys == padded.Keys;
    forall ip | ip in column ensures column[ip] == padded[ip] {
      GroupSumGet(kept, TallySrc, w, ip);
    }
    assert column == padded;
    PadTotal(m, Endpoints(kept));
    GroupSumTotal(kept, TallySrc, w);
  }

  lemma BytesBalanceOf(kept: seq<Tally<GroupKey>>)
    ensures MapTotal(NodeBytes(GraphOf(kept))) == MapTotal(EdgeBytes(GraphOf(kept)))
  {
    var g := GraphOf(kept);
    assert NodeBytes(g) == SourceColumn(kept, TallyBytes);
    assert EdgeBytes(g) == GroupSum(kept, TallyPair, TallyBytes);
    NodeColumn(kept, TallyBytes);
    GroupSumTotal(kept, TallyPair, TallyBytes);
  }

  lemma PacketsBalanceOf(kept: seq<Tally<GroupKey>>)
    ensures MapTotal(NodePackets(GraphOf(kept))) == MapTotal(EdgePackets(GraphOf(kept)))
  {
    var g := GraphOf(kept);
    assert NodePackets(g) == SourceColumn(kept, TallyPackets);
    assert EdgePackets(g) == GroupSum(kept, TallyPair, TallyPackets);
    NodeColumn(kept, TallyPackets);
    GroupSumTotal(kept, TallyPair, TallyPackets);
  }

  /** What leaves the nodes is what the edges carry, in bytes and in packets. */
  lemma TrafficBalance(rows: seq<PacketRecord>, minBytes: int)
    ensures MapTotal(NodeBytes(HostGraphOf(rows, minBytes))) == MapTotal(EdgeBytes(HostGraphOf(rows, minBytes)))
    ensures MapTotal(NodePackets(HostGraphOf(rows, minBytes))) == MapTotal(EdgePackets(HostGraphOf(rows, minBytes)))
  {
    var g := HostGraphOf(rows, minBytes);
    if rows == [] {
      assert NodeBytes(g) == map[] && EdgeBytes(g) == map[];
      assert NodePackets(g) == map[] && EdgePackets(g) == map[];
    } else {
      BytesBalanceOf(Kept(Groups(rows), minBytes));
      PacketsBalanceOf(Kept(Groups(rows), minBytes));
    }
  }

  /** Raising the threshold never adds an edge or a node. */
  lemma ThresholdMonotone(rows: seq<PacketRecord>, low: int, high: int)
    requires low <= high
    ensures HostGraphOf(rows, high).edges.Keys <= HostGraphOf(rows, low).edges.Keys
    ensures HostGraphOf(rows, high).nodes.Keys <= HostGraphOf(rows, low).nodes.Keys
  {
    if rows != [] {
      var gs := Groups(rows);
      var lo, hi := Kept(gs, low), Kept(gs, high);
      KeptMembers(gs, low);
      KeptMembers(gs, high);
      forall pr | pr in KeySet(hi, TallyPair) ensures pr in KeySet(lo, TallyPair) {
        KeySetMembers(hi, TallyPair, pr);
        KeySetMembers(lo, TallyPair, pr);
      }
      forall ip | ip in Endpoints(hi) ensures ip in Endpoints(lo) {
        KeySetMembers(hi, TallySrc, ip);
        KeySetMembers(lo, TallySrc, ip);
        KeySetMembers(hi, TallyDst, ip);
        KeySetMembers(lo, TallyDst, ip);
      }
    }
  }

  /** Every group's byte sum is a sum of lengths, so none is negative. */
  lemma GroupsNonNegative(rows: seq<PacketRecord>)
    ensures forall t :: t in Groups(rows) ==> t.bytes >= 0
  {
    AggRows(rows, RowKey, Length);
    forall t | t in Groups(rows) ensures t.bytes >= 0 {
      SumOfNonNegative(Where(rows, RowKey, t.key), Length);
    }
  }

  /** A pair has a group exactly when some record goes from its source to its destination. */
  lemma GroupPairs(rows: seq<PacketRecord>, pr: (string, string))
    ensures pr in KeySet(Groups(rows), TallyPair) <==> exists r :: r in rows && RowPair(r) == pr
  {
    var gs := Groups(rows);
    KeySetMembers(gs, TallyPair, pr);
    if exists r :: r in rows && RowPair(r) == pr {
      var r :| r in rows && RowPair(r) == pr;
      AggKeys(rows, RowKey, Length, RowKey(r));
      var t :| t in gs && t.key == RowKey(r);
      assert TallyPair(t) == pr;
    }
    if pr in KeySet(gs, TallyPair) {
      var t :| t in gs && TallyPair(t) == pr;
      AggKeys(rows, RowKey, Length, t.key);
      var r :| r in rows && RowKey(r) == t.key;
      assert RowPair(r) == pr;
    }
  }

  /**
   * With no threshold, there is an edge from `s` to `d` exactly when some record goes from
   * `s` to `d`, and it carries the summed length and the number of those records.
   */
  lemma ZeroThreshold(rows: seq<PacketRecord>, minBytes: int, pr: (string, string))
    requires minBytes <= 0
    ensures var g := HostGraphOf(rows, minBytes);
      && (pr in g.edges <==> exists r :: r in rows && RowPair(r) == pr)
      && (pr in g.edges ==>
            && g.edges[pr].bytes == SumOf(Where(rows, RowPair, pr), Length)
            && g.edges[pr].packets == |Where(rows, RowPair, pr)|)
  {
    if rows != [] {
      GroupsNonNegative(rows);
      KeptAll(Groups(rows), minBytes);
      GroupPairs(rows, pr);
      RefineAgg(rows, RowKey, RowPair, PairOf, TallyPair, Length, pr);
    }
  }

  // ---------------------------------------------------------------- edge colour

  /**
   * Index of the entry `max(pbytes, key=pbytes.get)` returns: a largest value, and the first
   * one in insertion order among equal values.
   */
  function FirstMax(pb: seq<(string, int)>): (i: nat)
    requires pb != []
    ensures i < |pb|
    ensures forall j :: 0 <= j < |pb| ==> pb[j].1 <= pb[i].1
    ensures forall j :: 0 <= j < i ==> pb[j].1 < pb[i].1
  {
    if |pb| == 1 then 0
    else
      var i := FirstMax(pb[..|pb| - 1]);
      if pb[|pb| - 1].1 > pb[i].1 then |pb| - 1 else i
  }

  /** The dominant protocol of an edge, `"OTHER"` when it has no protocol entries. */
  function Dominant(pb: seq<(string, int)>): string {
    if pb == [] then "OTHER" else pb[FirstMax(pb)].0
  }

  /** `proto_color.get(name, grey)`: colours by protocol name, grey for any other name. */
  function Colour(name: string): string {
    if name == "TCP" then "#1f77b4"
    else if name == "UDP" then "#ff7f0e"
    else if name == "OTHER" then "#7f7f7f"
    else "#7f7f7f"
  }

  function EdgeColour(pb: seq<(string, int)>): string {
    Colour(Dominant(pb))
  }

  /** Blue exactly for TCP, orange exactly for UDP, grey for everything else. */
  lemma ColourRule(pb: seq<(string, int)>)
    ensures EdgeColour(pb) == "#1f77b4" <==> Dominant(pb) == "TCP"
    ensures EdgeColour(pb) == "#ff7f0e" <==> Dominant(pb) == "UDP"
    ensures Dominant(pb) != "TCP" && Dominant(pb) != "UDP" ==> EdgeColour(pb) == "#7f7f7f"
    ensures pb == [] ==> EdgeColour(pb) == "#7f7f7f"
  {
  }

  /**
   * On an edge's entries, which come in ascending protocol order, the dominant protocol is
   * one carrying the most bytes, and the alphabetically least of those.
   */
  lemma DominantOfAscending(pb: seq<(string, int)>)
    requires Ascending(pb) && pb != []
    ensures exists i :: 0 <= i < |pb| && pb[i].0 == Dominant(pb) && forall j :: 0 <= j < |pb| ==> pb[j].1 <= pb[i].1
    ensures forall j :: 0 <= j < |pb| && pb[j].1 == pb[FirstMax(pb)].1 ==> StrLe(Dominant(pb), pb[j].0)
  {
    var i := FirstMax(pb);
    assert pb[i].0 == Dominant(pb);
    forall j | 0 <= j < |pb| && pb[j].1 == pb[i].1 ensures StrLe(Dominant(pb), pb[j].0) {
      if j == i {
        StrLeReflexive(pb[i].0);
      }
    }
  }

  /** Every edge of the graph is coloured by a most-bytes protocol, ties to the least name. */
  lemma EdgeDominant(rows: seq<PacketRecord>, minBytes: int, pr: (string, string))
    requires pr in HostGraphOf(rows, minBytes).edges
    ensures var pb := HostGraphOf(rows, minBytes).edges[pr].protocolBytes;
      && (exists i :: 0 <= i < |pb| && pb[i].0 == Dominant(pb) && forall j :: 0 <= j < |pb| ==> pb[j].1 <= pb[i].1)
      && forall j :: 0 <= j < |pb| && pb[j].1 == pb[FirstMax(pb)].1 ==> StrLe(Dominant(pb), pb[j].0)
  {
    EdgeProtocols(rows, minBytes, pr);
    DominantOfAscending(HostGraphOf(rows, minBytes).edges[pr].protocolBytes);
  }
}
