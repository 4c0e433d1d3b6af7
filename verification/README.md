# TCP flow analyser — a verified Dafny model

This project models the TCP flow analyser of `src/hello/main.go`. The analyser
reads a packet capture one packet at a time and counts every packet it reads.
For each packet with a TCP layer it adds the payload length to a running byte
count for that flow. A flow is keyed by its directed 4-tuple (source IP,
destination IP, source port, destination port). When a TCP packet brings the
packet count to a multiple of `batchSize`, it extracts the `topN` heaviest flows
and hands that ranking to a CSV writer. The model has five modules:

- `Flows` (flows.dfy) holds the data types `TCPTuple`, `TCPFlow` and `Event`.
  It also specifies the flow table after a sequence of packets (`Aggregate`)
  and the batch trigger (`Fires`, `Firings`).
- `TopN` (top_n.dfy) is `getTopTCPFlows` as an imperative method. It copies the
  map entries into a sequence, sorts an array in place by byte count (largest
  first) and truncates. `IsTopN` says what a top-n ranking is.
- `Export` (export.dfy) is the record layout of `writeCSV`: the header, one
  record per flow, and `%d` decimal text. Each part has a parser, and the
  model proves that writing and then parsing gives back the input.
- `Analyzer` (analyzer.dfy) is the main loop. The class `FlowAnalyzer` holds the
  map and the packet counter and updates them in place. `Analyze` runs the loop
  over a finite capture.
- `Scenarios` (scenarios.dfy) holds worked examples on small captures.

Three facts about `main.go` shape the model:

- The packet counter counts every packet read, TCP or not (line 51). The
  batch check runs only inside the TCP branch (lines 55, 68). So when a
  non-TCP packet lands on a batch boundary, that extraction is skipped.
- The sort has no tie-break and is not stable (lines 84-86). So `IsTopN` leaves
  open how flows with equal byte counts are ordered, and which of them are kept
  when a tie straddles the cut. `TopN.TopNBytesDetermined` proves that the byte
  column is the same for every valid ranking; `Scenarios.TieAtCutExample` shows
  two valid rankings that keep different tied flows.
- Each export runs as a detached goroutine (line 71), so exports are not
  serialized. The model hands the rankings to the writer one after another, in
  dispatch order.

## Model

| member | source | states |
|---|---|---|
| Flows.AddPayload | src/hello/main.go:64-66 | A TCP packet adds exactly its payload length to its own flow's count. An absent flow starts from 0. Every other flow keeps its count. No flow is removed. |
| Flows.Apply | src/hello/main.go:55-66 | One packet raises every flow's count (absent flows reading as 0) by exactly what that packet carries for it. No flow is removed. A packet without a TCP layer leaves the table unchanged. |
| Flows.Aggregate | src/hello/main.go:42-66 | The table built from the empty map by processing the packets in order never holds a negative count. |
| Flows.AggregateIsSum | src/hello/main.go:42-66 | After any sequence of packets, the table's keys are exactly the tuples of the TCP packets. Each count equals the sum of that flow's payload lengths, defined independently by `SumFor`. |
| Flows.AggregateMonotone | src/hello/main.go:57-66 | Processing more packets never removes a flow and never lowers a count. |
| Flows.AggregateOrderIndependent | src/hello/main.go:64-66 | The final table does not depend on the order in which two stretches of traffic are processed. |
| Flows.NoRemainderIffMultiple | src/hello/main.go:68 | For a positive batch size, the remainder test is zero exactly when the counter is a whole multiple k * batchSize. This holds for every integer, so it holds under Go's truncating `%` as well as Dafny's Euclidean one. |
| Flows.Fires | src/hello/main.go:55-71 | A packet triggers an extraction exactly when it has a TCP layer and the counter, after counting it, equals k * batchSize for some integer k. The contract states this without `%`. |
| Flows.Firings | src/hello/main.go:51-72 | Every firing point is the position of a packet of the capture. |
| Flows.FiringsExact | src/hello/main.go:51-72 | An extraction runs exactly at the TCP packets whose position in the capture is a multiple of the batch size. Every packet counts toward that position, TCP or not. Firing points are strictly increasing. |
| Flows.NoTcpNoExtraction | src/hello/main.go:51-73 | A capture with no TCP packets never triggers an extraction and leaves the table empty. |
| TopN.SortByBytesDesc | src/hello/main.go:84-86 | The in-place sort leaves the array non-increasing by byte count. The array is a permutation of its old contents. |
| TopN.PermutedCopy | src/hello/main.go:79-86 | Reordering a full copy of the map's entries keeps every entry and adds none. No flow appears twice. |
| TopN.PrefixIsTopN | src/hello/main.go:88-91 | Cutting the sorted entries to their first n gives a top-n ranking. |
| TopN.GetTopTCPFlows | src/hello/main.go:77-94 | The result has length min(n, number of flows). It is sorted non-increasing by bytes, and every pair is an entry of the map. No flow appears twice. Every flow left out has at most as many bytes as every flow kept. |
| TopN.TuplesCard | src/hello/main.go:79-81 | A ranking names at most as many flows as it has entries. It names exactly as many if and only if no flow repeats. |
| TopN.AboveRankIsListed | src/hello/main.go:84-91 | A flow with more bytes than rank i of a ranking is listed above rank i. |
| TopN.RankNotAbove | src/hello/main.go:84-91 | For two rankings of the same table, the count at rank i of one is at most the count at rank i of the other. |
| TopN.TopNBytesDetermined | src/hello/main.go:84-91 | Any two top-n rankings of the same table have the same length and the same byte count at every rank. Which tied flows make the cut, and their order, may differ. |
| Export.FormatInt | src/hello/main.go:119-121 | `%d` text of 0 is exactly "0". Text of a positive integer is all digits with no leading zero. A negative integer gets a minus sign, then digits with no leading zero. |
| Export.NatDigits | src/hello/main.go:119-121 | Decimal text is non-empty and all digits. The text of 0 is exactly "0"; any other number's text starts with a nonzero digit. |
| Export.NatDigitsValue | src/hello/main.go:119-121 | The digits of n denote n. |
| Export.FormatIntRoundTrip | src/hello/main.go:119-121 | Every integer printed with `%d` parses back to itself, including negative ones. |
| Export.FormatRow | src/hello/main.go:116-122 | A flow's record has as many fields as the header. The first two fields are the source and destination addresses as they are. The last three read back as the source port, the destination port and the byte count. |
| Export.RowRoundTrip | src/hello/main.go:116-122 | Every flow's record parses back to exactly that flow: addresses, ports and byte count. |
| Export.RowsRoundTrip | src/hello/main.go:115-122 | A sequence of flow records parses back to the flows, in order. |
| Export.WriteCSV | src/hello/main.go:107-127 | The writer receives the five-column header of line 108 first. Then it receives one record per flow, in ranking order. The whole report parses back to exactly the ranking that was exported. |
| Analyzer.FlowAnalyzer.constructor | src/hello/main.go:41-43 | The map starts empty, the counter starts at 0, and no packet has been processed. |
| Analyzer.FlowAnalyzer.HandlePacket | src/hello/main.go:45-73 | The counter goes up by one for every packet. Only a TCP packet changes the table, as `Apply` says. A ranking is produced exactly when the packet is TCP and the new count is a multiple of the batch size. That ranking is a top-n ranking of the updated table. The table always equals `Aggregate` of the packets so far. |
| Analyzer.Analyze | src/hello/main.go:34-75 | After a whole capture, the table is `Aggregate` of all packets, and the counter is the packet count. There is one ranking per firing point, a top-n ranking of the table right after that packet. Each report read back gives its ranking. |
| Analyzer.AnalyzeConfigured | src/hello/main.go:15-20 | With the configured batch size 10000 and top 10, the run gives the same table, counter, rankings and reports as `Analyze`, and no ranking holds more than 10 flows. |
| Scenarios.TwoFlowTotals | src/hello/main.go:57-66 | If flow A carries 100, 200 and 50 bytes and flow B carries 500, the table is {A: 350, B: 500}. |
| Scenarios.TwoFlowRanking | src/hello/main.go:77-94 | The top-2 ranking of {A: 350, B: 500} is always [(B, 500), (A, 350)]. |
| Scenarios.TieAtCutExample | src/hello/main.go:84-91 | With flows A and B both at 5 bytes and n = 1, both [(A, 5)] and [(B, 5)] are valid rankings. |
| Scenarios.BatchOfThreeExample | src/hello/main.go:51-72 | With batch size 3, five TCP packets trigger exactly one extraction, on the third packet. |
| Scenarios.NonTcpBoundaryExample | src/hello/main.go:51-72 | A non-TCP packet that makes the count a multiple of the batch size triggers no extraction. That boundary is skipped. |

## Left out

- Capture and decoding are not modelled: opening the pcap file, `ReadPacketData`, `gopacket.NewPacket`, the TCP layer lookup, and turning addresses into text (lines 35-39, 46, 53-62). These are calls into gopacket/pcap. The model takes their output as a finite sequence of `Event`s. Each event is either a TCP packet with its tuple and payload length, or a non-TCP packet.
- The `log.Fatal` exits are not modelled: a failed open, and any read error including end of file (lines 36-38, 47-49). They end the process. The Go loop never ends normally. `Analyze` instead stops at the end of the given sequence.
- The `sync.Mutex` and the detached `go writeCSV(...)` goroutine are not modelled (lines 41, 64-66, 71). Both exist for concurrency. The model runs updates and extractions one after another. It does not capture which export's content ends up in the output file when several goroutines write it at once.
- The file work of `writeCSV` is not modelled (lines 96-105, 109-112, 123-126): file creation, CSV quoting, `Flush` and the logged write errors. `WriteCSV` returns the records handed to the writer, without the early return on a failed write.
- Go's `int` is 64 bits, but the model uses unbounded integers for byte counts and the packet counter. An overflow would need more than 2^63 bytes or packets.
- Map iteration order is not fixed: the model picks each next key arbitrarily. Nothing proved depends on that order.
- FlowAnalyzer.constructor and Analyze require `batchSize > 0`, and they and GetTopTCPFlows require `n >= 0`. In Go, `batchSize == 0` panics on the modulo and `n < 0` panics in `make`. A negative `batchSize` is accepted by Go (its `%` truncates, so extraction fires at multiples of |batchSize|) but is excluded by the model. The configured values are 10000 and 10.
- The three Elasticsearch client programs under `src/test/` are network clients and output formatting. They are not part of this model.
