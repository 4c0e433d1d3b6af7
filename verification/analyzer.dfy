/**
 The main loop of the analyser as a sequential process over the decoded
 packets of a capture. A `FlowAnalyzer` holds the state the loop updates in
 place: the flow table and the packet counter. Each packet bumps the
 counter; a packet with a TCP layer adds its payload length to its flow,
 and when the counter is then a multiple of the batch size, a top-N
 ranking is extracted and handed to the report writer.
 */
module Analyzer {
  import opened Wrappers
  import opened Flows
  import opened TopN
  import opened Export

  /** Packets between two extractions, as configured. */
  const DefaultBatchSize := 10000
  /** Flows kept in each ranking, as configured. */
  const DefaultTopN := 10

  class FlowAnalyzer {
    var tcpFlows: FlowTable
    var packetCount: int
    const batchSize: int
    const topN: int
    /** The packets handled so far, in order. */
    ghost var processed: seq<Event>

    /** The table and the counter are always those of the packets handled so far. */
    ghost predicate Valid()
      reads this
    {
      && batchSize > 0
      && topN >= 0
      && tcpFlows == Aggregate(processed)
      && packetCount == |processed|
    }

    constructor (batchSize: int, topN: int)
      requires batchSize > 0 && topN >= 0
      ensures Valid() && processed == []
      ensures tcpFlows == map[] && packetCount == 0
      ensures this.batchSize == batchSize && this.topN == topN
    {
      this.batchSize := batchSize;
      this.topN := topN;
      tcpFlows := map[];
      packetCount := 0;
      processed := [];
    }

    /**
     One iteration of the main loop. The counter counts every packet; only
     a TCP packet updates the table, and only a TCP packet can trigger an
     extraction. A returned ranking is what the loop hands to `writeCSV`.
     */
    method HandlePacket(e: Event) returns (report: Option<seq<TCPFlow>>)
      requires Valid()
      modifies this
      ensures Valid() && processed == old(processed) + [e]
      ensures packetCount == old(packetCount) + 1
      ensures tcpFlows == Apply(old(tcpFlows), e)
      ensures report.Some? <==> Fires(packetCount, e, batchSize)
      ensures report.Some? ==> IsTopN(tcpFlows, topN, report.value)
    {
      AggregateSnoc(processed, e);
      packetCount := packetCount + 1;
      processed := processed + [e];
      report := None;
      if e.Tcp? {
        var tuple := e.tuple;
        tcpFlows := tcpFlows[tuple := Lookup(tcpFlows, tuple) + e.payloadLen];
        if packetCount % batchSize == 0 {
          var topFlows := GetTopTCPFlows(tcpFlows, topN);
          report := Some(topFlows);
        }
      }
    }
  }

  /** `reports[k]` is a top-n ranking of the table as it stood right after packet `points[k]`. */
  ghost predicate RankedAt(events: seq<Event>, points: seq<nat>, topN: int, reports: seq<seq<TCPFlow>>)
  {
    && |reports| == |points|
    && forall k :: 0 <= k < |points| ==>
      points[k] < |events| && IsTopN(Aggregate(events[..points[k] + 1]), topN, reports[k])
  }

  lemma RankedAtExtend(events: seq<Event>, points: seq<nat>, topN: int, reports: seq<seq<TCPFlow>>, i: nat, r: seq<TCPFlow>)
    requires RankedAt(events, points, topN, reports)
    requires i < |events| && IsTopN(Aggregate(events[..i + 1]), topN, r)
    ensures RankedAt(events, points + [i], topN, reports + [r])
  {
  }

  lemma FiringsStep(events: seq<Event>, i: nat, batchSize: int)
    requires batchSize > 0 && i < |events|
    ensures Firings(events[..i + 1], batchSize) ==
      Firings(events[..i], batchSize) + (if Fires(i + 1, events[i], batchSize) then [i] else [])
  {
    assert events[..i + 1][..i] == events[..i];
  }

  /** Each written file reads back as the ranking it was written from. */
  ghost predicate WrittenAs(files: seq<seq<seq<string>>>, reports: seq<seq<TCPFlow>>)
  {
    |files| == |reports| && forall k :: 0 <= k < |files| ==> ParseTable(files[k]) == Some(reports[k])
  }

  lemma WrittenAsExtend(files: seq<seq<seq<string>>>, reports: seq<seq<TCPFlow>>, file: seq<seq<string>>, r: seq<TCPFlow>)
    requires WrittenAs(files, reports) && ParseTable(file) == Some(r)
    ensures WrittenAs(files + [file], reports + [r])
  {
  }

  /**
   The whole run over a finite capture: the final table holds every flow's
   exact total, the counter is the number of packets, one ranking is
   extracted at each firing point, of the table as it stood right after
   that packet, and each report written reads back as its ranking.
   */
  method Analyze(events: seq<Event>, batchSize: int, topN: int)
    returns (tcpFlows: FlowTable, packetCount: int, reports: seq<seq<TCPFlow>>, files: seq<seq<seq<string>>>)
    requires batchSize > 0 && topN >= 0
    ensures tcpFlows == Aggregate(events) && packetCount == |events|
    ensures RankedAt(events, Firings(events, batchSize), topN, reports)
    ensures WrittenAs(files, reports)
  {
    var analyzer := new FlowAnalyzer(batchSize, topN);
    reports, files := [], [];
    for i := 0 to |events|
      invariant analyzer.Valid() && analyzer.processed == events[..i]
      invariant analyzer.batchSize == batchSize && analyzer.topN == topN
      invariant RankedAt(events, Firings(events[..i], batchSize), topN, reports)
      invariant WrittenAs(files, reports)
    {
      ghost var before := Firings(events[..i], batchSize);
      var report := analyzer.HandlePacket(events[i]);
      FiringsStep(events, i, batchSize);
      assert analyzer.processed == events[..i + 1];
      if report.Some? {
        RankedAtExtend(events, before, topN, reports, i, report.value);
        var file := WriteCSV(report.value);
        WrittenAsExtend(files, reports, file, report.value);
        reports, files := reports + [report.value], files + [file];
      }
    }
    assert events[..|events|] == events;
    tcpFlows, packetCount := analyzer.tcpFlows, analyzer.packetCount;
  }

  /** The run as the program configures it: an extraction every 10000 packets, keeping the top 10 flows. */
  method AnalyzeConfigured(events: seq<Event>)
    returns (tcpFlows: FlowTable, packetCount: int, reports: seq<seq<TCPFlow>>, files: seq<seq<seq<string>>>)
    ensures tcpFlows == Aggregate(events) && packetCount == |events|
    ensures RankedAt(events, Firings(events, DefaultBatchSize), DefaultTopN, reports)
    ensures forall k :: 0 <= k < |reports| ==> |reports[k]| <= DefaultTopN
    ensures WrittenAs(files, reports)
  {
    tcpFlows, packetCount, reports, files := Analyze(events, DefaultBatchSize, DefaultTopN);
  }
}
