# pcapviz core in Dafny

pcapviz reads a packet capture and turns it into tables and a graph.
- Packets table: one row per IPv4/IPv6 packet that passes the optional filters.
- Flows table: packets grouped by a direction-agnostic 5-tuple.
- Analytics: top talkers, top destination ports per protocol, the protocol breakdown,
  throughput over time, and the source × destination conversation matrix.
- Host graph: a directed graph over hosts. Nodes carry the bytes and packets an address sent.
  Each edge carries its pair's totals and a per-protocol byte map. The drawing colours every
  edge by its dominant protocol.

This project models that core and proves properties of it. It has seven modules.

| file | module | contents |
|---|---|---|
| `wrappers.dfy` | `Wrappers` | `Option` and `Result` |
| `lex.dfy` | `Lex` | Python's `<=` on strings and on `(ip, port)` tuples, with order lemmas |
| `frames.dfy` | `Frames` | the pandas operations the core uses, written once over sequences of rows (see below) |
| `aggregate.dfy` | `Aggregate` | the `agg(bytes=sum, packets=count)` table (`Tally` rows) and its sorted and `groupby().head(n)` forms |
| `parser.dfy` | `Parser` | `parser.py` |
| `metrics.dfy` | `Metrics` | `metrics.py` |
| `graph.dfy` | `Graph` | `graph.py` |

The pandas operations in `Frames` are: `groupby` key sets, column sums, `where`,
`add(fill_value=0)`, `sort_values(ascending=False)`, `head(n)` and padding with zeros.

A table is a `seq` of row values. A grouped column (`groupby(k)[c].sum()`) is a `map`.
`MapTotal` is the order-independent sum of a map's values.

Some of the source is imperative and is modelled as `method`s with loops. Each one is proved
equal to a specification function, and the properties are lemmas about that function.
- `_iter_packets` is `Parser.IterPackets`: a `while` loop with the cutoff `break` and the two
  `continue`s. Its specification is `Parser.Ingest`.
- The flow aggregation is `Parser.AggregateFlows`: a `for` loop that updates a map.
- `build_host_graph` is `Graph.BuildHostGraph`, built from three loops:
  - `Graph.NodeTotals` makes the two dictionary updates of every kept group;
  - `Graph.AddNodes` is the `add_node` loop over the endpoint set;
  - `Graph.AddEdges` is the `add_edge` loop over the pairs.

  Its specification is `Graph.HostGraphOf`. The networkx `DiGraph` is modelled as a node map
  and an edge map.

The rest of the core computes values and is modelled as functions.

Timestamps are integers in nanoseconds since the epoch. A captured packet is a `RawPacket`: the
layers the decoder found, the wire length and the capture time.

## Model

| member | source | states |
|---|---|---|
| Lex.EndpointLeTotal | src/pcapviz/parser.py:22-24 | any two `(ip, port)` endpoints are ordered one way or the other |
| Lex.EndpointLeAntisymmetric | src/pcapviz/parser.py:22-24 | endpoints ordered both ways are equal |
| Parser.MirrorInvolution | src/pcapviz/parser.py:26-32 | mirroring twice gives the key back, and a key is its own mirror exactly when its two endpoints are equal |
| Parser.FlowKey.Normalized | src/pcapviz/parser.py:20-32 | the result is the key itself or its mirror, keeps the protocol, has its smaller endpoint first, and is the key itself when that is already so |
| Parser.NormalizedIdempotent | src/pcapviz/parser.py:20-32 | normalizing twice is normalizing once |
| Parser.NormalizedMirror | src/pcapviz/parser.py:20-32 | a key and its mirror normalize to the same key |
| Parser.SameFlow | src/pcapviz/parser.py:10-32 | two keys normalize alike exactly when they are equal or mirror images (the flow is bidirectional) |
| Parser.CriterionMeaning | src/pcapviz/parser.py:57-73 | each filter criterion, set alone, demands exactly its condition; ports are checked only when present |
| Parser.FilterIsConjunction | src/pcapviz/parser.py:46-75 | a row passes exactly when it passes every configured criterion taken alone |
| Parser.NoOptionsKeepAll | src/pcapviz/parser.py:35-48 | with no options, or options with no field set, every row passes |
| Parser.EmptyIncludeRejectsAll | src/pcapviz/parser.py:62-63 | an empty include list rejects every row |
| Parser.Upper | src/pcapviz/parser.py:115 | upper-casing keeps the length, leaves no lower-case letter, turns each lower-case letter into its capital and keeps every other character |
| Parser.UpperIdempotent | src/pcapviz/parser.py:115 | upper-casing an upper-cased label changes nothing |
| Parser.UpperLayerNames | src/pcapviz/parser.py:115 | the network-layer names give the labels `IP` and `IPV6`, and the default `OTHER` stays `OTHER` |
| Parser.DecodeClassification | src/pcapviz/parser.py:89-131 | a packet without IP/IPv6 is skipped; TCP wins over UDP; ports are both present exactly for TCP/UDP; flags only for TCP; other packets are named by their upper-cased network-layer name; the version is 4 or 6; length and time are copied |
| Parser.Cutoff | src/pcapviz/parser.py:86-87 | with no maximum everything passes; otherwise at most `max` records (none when `max <= 0`), exactly `max` when that many are available, and all of them when fewer are |
| Parser.AcceptedSound | src/pcapviz/parser.py:89-136 | every yielded record passes the filters and was decoded from a packet of the capture |
| Parser.NonIpSkipped | src/pcapviz/parser.py:89-91 | a packet with no IP layer leaves the yielded records unchanged wherever it sits |
| Parser.PassingKept | src/pcapviz/parser.py:133-137 | a decodable packet that passes is yielded in its place |
| Parser.IngestIsPrefix | src/pcapviz/parser.py:83-137 | the yield is a prefix of all accepted records: all of them without a maximum, and otherwise the first `min(max(0, max), accepted)` |
| Parser.IterPackets | src/pcapviz/parser.py:78-137 | the loop with its cutoff, skips and counter yields exactly `Ingest`, and no more than `max` records |
| Parser.TimeBounds | src/pcapviz/parser.py:208-209 | the `min`/`max` timestamps bound every row of the group and are attained by rows of it |
| Parser.AggregateFlows | src/pcapviz/parser.py:202-211 | the map-filling loop computes exactly the flows table `FlowTable` |
| Parser.ParsePcap | src/pcapviz/parser.py:140-213 | the packets table is the ingested records, the flows table is their grouping, and no packets give no flows |
| Parser.FlowKeys | src/pcapviz/parser.py:186-210 | a key has a flow exactly when some packet row normalizes to it |
| Parser.FlowEntry | src/pcapviz/parser.py:205-211 | a flow's packets and bytes are its rows' count and length sum; start and end bound its rows and are attained; the clipped duration is end minus start |
| Parser.MirroredRowsShareFlow | src/pcapviz/parser.py:186-203 | the two directions of one conversation land in the same flow |
| Parser.FlowBytesGrouped | src/pcapviz/parser.py:203-207 | the flows' byte column is the length sum grouped by flow key |
| Parser.FlowPacketsGrouped | src/pcapviz/parser.py:203-206 | the flows' packet column is the row count grouped by flow key |
| Parser.FlowConservation | src/pcapviz/parser.py:205-207 | flow bytes add up to the total packet length, and flow packets to the number of packets |
| Frames.SortDesc | src/pcapviz/metrics.py:17 | `sort_values(ascending=False)` gives a permutation of the rows in descending order |
| Frames.SortDescSum | src/pcapviz/metrics.py:17 | sorting keeps every column's total |
| Frames.AddFillTotal | src/pcapviz/metrics.py:17 | `add(fill_value=0)` adds the two series' totals |
| Frames.GroupSumTotal | src/pcapviz/metrics.py:11-16 | a grouped sum adds up to the column total |
| Aggregate.AggRows | src/pcapviz/metrics.py:43-44 | `agg(bytes=sum, packets=count)` has one row per distinct key present, each with its group's length sum and its non-zero row count |
| Aggregate.AggTotals | src/pcapviz/metrics.py:43-44 | the aggregate keeps the byte total and the row count |
| Frames.Head | src/pcapviz/metrics.py:18 | `head(n)` is a prefix of the table with `min(n, rows)` rows, or all but the last `-n` rows (none if fewer) when `n < 0` |
| Aggregate.HeadDominates | src/pcapviz/metrics.py:18 | on a descending table, every row `head(n)` keeps outranks every row it drops |
| Aggregate.GroupHeadDominates | src/pcapviz/metrics.py:34 | on a descending table, what `groupby(g).head(n)` keeps of each group outranks what it drops of that group |
| Aggregate.GroupHeadCount | src/pcapviz/metrics.py:34 | `groupby(g).head(n)` keeps `min(n, size)` rows of each group, or all but the last `-n` when `n < 0` |
| Metrics.EndpointsMembers | src/pcapviz/metrics.py:11-17 | an address is an endpoint exactly when it is the source or destination of some row |
| Metrics.TalkerIpsAre | src/pcapviz/metrics.py:17 | the index of the added series holds each endpoint exactly once |
| Metrics.AddressCount | src/pcapviz/metrics.py:17 | the added series has exactly one row per endpoint address |
| Metrics.TalkerTotals | src/pcapviz/metrics.py:11-17 | an address's added bytes are its sent plus received lengths, and its packets the two counts |
| Metrics.SortedTalkers | src/pcapviz/metrics.py:17 | the sorted talkers are descending, one row per address, each with its added totals |
| Metrics.TalkerRow | src/pcapviz/metrics.py:11-17 | each talker row is an endpoint with its sent-plus-received bytes and packets |
| Metrics.TopTalkersSentPlusReceived | src/pcapviz/metrics.py:6-18 | every reported address is an endpoint whose bytes and packets are what it sent plus what it received |
| Metrics.TopTalkersRanking | src/pcapviz/metrics.py:17-18 | the report is descending by bytes, lists each address once, has `head(n)`'s length, and outranks every unreported address |
| Metrics.TalkersSum | src/pcapviz/metrics.py:11-17 | the talker table counts each packet's bytes and each packet twice, once at either end |
| Metrics.TopTalkersTotals | src/pcapviz/metrics.py:6-18 | with `n` at least the number of addresses, the report totals twice the bytes and twice the packets |
| Metrics.PortGroup | src/pcapviz/metrics.py:27-30 | a `(protocol, port)` group of the port-bearing rows is that pair's rows of the whole table |
| Metrics.PortTalliesAre | src/pcapviz/metrics.py:26-33 | the port aggregate is descending, one row per pair, each with that pair's bytes and non-zero count |
| Metrics.PortTalliesComplete | src/pcapviz/metrics.py:27-30 | a pair has a row exactly when some row has that protocol and destination port |
| Metrics.TopPortsRanking | src/pcapviz/metrics.py:21-34 | the report is descending rows of the aggregate with their pair's totals, and within a protocol every kept port outranks every dropped one |
| Metrics.TopPortsPerProtocol | src/pcapviz/metrics.py:34 | each protocol keeps `min(n, #ports)` rows, or all but the last `-n` when `n < 0` |
| Metrics.ProtocolBreakdownRows | src/pcapviz/metrics.py:37-47 | one row per protocol present, descending by bytes, each with that protocol's length sum and non-zero count |
| Metrics.ProtocolBreakdownTotals | src/pcapviz/metrics.py:42-47 | the breakdown adds up to the total length and the number of rows |
| Metrics.FloorWindow | src/pcapviz/metrics.py:56 | with a positive width, bin `b` holds exactly the timestamps whose floor division by the width is `b` |
| Metrics.BucketsGrid | src/pcapviz/metrics.py:56-58 | the bins are consecutive, each `width` wide with its window's byte sum and row count |
| Metrics.ThroughputErrors | src/pcapviz/metrics.py:50-58 | an empty table gives no bins; otherwise the result is an error exactly when the width is not positive |
| Metrics.ThroughputGrid | src/pcapviz/metrics.py:55-60 | the bins run from the earliest row's bin to the latest's, empty bins included, each with its window's bytes and packets, `width` apart |
| Metrics.ThroughputCovers | src/pcapviz/metrics.py:55-59 | the first bin holds the earliest timestamp, the last bin holds the latest, and every row falls in some bin |
| Metrics.ThroughputTotals | src/pcapviz/metrics.py:56-58 | the bins add up to the total length and the number of rows |
| Metrics.ConversationCells | src/pcapviz/metrics.py:63-70 | the index is the sources, the columns the destinations, every cell of the product is present, and a cell is its pair's length sum (0 when the pair never talks) |
| Metrics.ConversationTotal | src/pcapviz/metrics.py:67-69 | the matrix adds up to the total length |
| Metrics.EmptyTable | src/pcapviz/metrics.py:6-66 | each analytic returns an empty result on an empty table |
| Graph.KeptMembers | src/pcapviz/graph.py:24 | the threshold keeps exactly the groups with at least `min_bytes` bytes |
| Graph.KeptFacts | src/pcapviz/graph.py:20-24 | the kept groups are groups of the table, above the threshold, with distinct keys |
| Graph.GroupPairs | src/pcapviz/graph.py:20-22 | a pair has a group exactly when some row goes from that source to that destination |
| Graph.NodeTableSnoc | src/pcapviz/graph.py:33-36 | one more group credits its bytes to its source and gives its destination an entry |
| Graph.Credit | src/pcapviz/graph.py:33-36 | the two dictionary updates of one group are that credit |
| Graph.NodeTotals | src/pcapviz/graph.py:26-36 | the loop computes each endpoint's outgoing byte and packet sums over the kept groups |
| Graph.AddNodes | src/pcapviz/graph.py:38-39 | one node per endpoint, with its totals, or 0 where the dictionary has none |
| Graph.AddEdges | src/pcapviz/graph.py:42-47 | one edge per pair of the kept groups, with its byte and packet sums and its per-protocol bytes |
| Graph.BuildHostGraph | src/pcapviz/graph.py:10-49 | the imperative build gives exactly `HostGraphOf`: empty for an empty table, otherwise the graph of the kept groups |
| Graph.PutMembers | src/pcapviz/graph.py:46 | adding an entry to the protocol map keeps it, replaces the entry of the same name, and keeps every other entry |
| Graph.PutAscending | src/pcapviz/graph.py:46 | the protocol map stays in ascending name order |
| Graph.ProtocolWeightsSpec | src/pcapviz/graph.py:46 | the protocol map is in ascending name order and holds exactly each group's `(protocol, bytes)` |
| Graph.ProtocolWeightsSum | src/pcapviz/graph.py:44-46 | the protocol map adds up to the pair's byte sum |
| Graph.EmptyGraph | src/pcapviz/graph.py:16-18 | an empty table gives the empty graph, and a graph has nodes exactly when it has edges |
| Graph.EdgeProtocols | src/pcapviz/graph.py:42-47 | an edge's protocol map is ascending and non-empty, and adds up to the edge's bytes; its entries are at or above the threshold and are exactly the surviving groups of the pair |
| Graph.NodeTotalsOutgoing | src/pcapviz/graph.py:26-39 | a node's totals are the sums over its outgoing edges, and `(0, 0)` for a node with none |
| Graph.NodesAreEndpoints | src/pcapviz/graph.py:38-47 | an address is a node exactly when it is an end of some edge |
| Graph.TrafficBalance | src/pcapviz/graph.py:26-47 | the node totals add up to the edge totals, in bytes and in packets |
| Graph.ThresholdMonotone | src/pcapviz/graph.py:24 | raising `min_bytes` never adds an edge or a node |
| Graph.ZeroThreshold | src/pcapviz/graph.py:20-47 | with `min_bytes <= 0`, there is an edge exactly for each pair that talks, carrying that pair's length sum and packet count |
| Graph.FirstMax | src/pcapviz/graph.py:65 | `max(..., key=...)` picks an entry of maximal bytes, the first one among equals |
| Graph.ColourRule | src/pcapviz/graph.py:61-66 | TCP-dominated edges are blue, UDP-dominated ones orange, everything else and the empty map grey |
| Graph.DominantOfAscending | src/pcapviz/graph.py:64-65 | on a protocol map, the dominant protocol has maximal bytes and is the alphabetically least among the maximal ones |
| Graph.EdgeDominant | src/pcapviz/graph.py:63-66 | every edge of the built graph has such a dominant protocol |

## Left out

- Decoding of the capture file (scapy's `PcapReader` and layer parsing) is left out. A packet arrives already split into the layers found in it.
- Timestamps are integer nanoseconds, not float seconds or pandas `datetime64`. `duration_s` is therefore kept in nanoseconds (`durationNs`), clipped at 0.
- `compute_throughput` takes the resample rule as a bin width in nanoseconds. Rule-string parsing is left out, and a width that is not positive stands for a rule pandas rejects, which becomes an `Err`.
- Metrics.ThroughputGrid: bins are aligned to multiples of the width from the epoch. pandas aligns them to midnight of the first day. The two agree when the width divides a day (`1S`, `100ms`, …).
- `compute_top_ports` drops rows without a destination port. The NaN-to-float coercion of pandas, and the cast back, are left out.
- `sort_values` uses an unstable sort. The model picks one descending order, and the lemmas fix no order among equal byte counts.
- Top talkers' `add` returns a float column. Its values are exact integers and are modelled as such.
- Parser.Upper changes ASCII letters only. Python's Unicode upper-casing is left out, since layer names are ASCII.
- Other IP packets (neither TCP nor UDP) are labelled with the upper-cased name of their network layer, so `IP` or `IPV6`. They are never labelled `OTHER`. `OTHER` appears only as the fallback when a layer has no name.
- The `src_port`/`dst_port` columns of the packets and flows tables are optional integers. pandas stores a missing port as NaN and turns the whole column into floats. That coercion is left out. It can also change how pandas compares and groups flow keys without ports, because NaN is not equal to itself. The model compares and groups missing ports as one ordinary value.
- Default arguments are left out: `n=10` for the top talkers and top ports, `rule="1S"` for throughput, `min_bytes=0` for the graph, and `max_packets=None` and `filters=None` for parsing. Every model function takes these values explicitly.
- The networkx `DiGraph` is two maps, nodes and edges.
- The per-edge `protocol_bytes` dict is an association list in ascending protocol order. That is pandas' sorted group order, so "first maximal entry" follows it.
- `to_pyvis_html` rendering, its labels, layout options and credit footer are left out (HTML output). So are `export_graphml` (file output), the CLI and the Streamlit app (I/O). Only the dominant protocol and its colour are modelled.
- `normalized` compares a row's two `(ip, port)` endpoints. Python would raise `TypeError` for a missing port against a present one at equal addresses. `Lex.PortLe` instead puts a missing port first. A decoded row has both ports or neither, so that case never arises.
- Filter options for time are compared as integers, like the timestamps. Timezone conversion is left out.
