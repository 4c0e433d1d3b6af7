/**
 The flow table of the TCP analyser: the 4-tuple that identifies a flow, the
 ranked (tuple, bytes) pair, the decoded packet events the capture yields, and
 the specification of what the main loop does with them — the per-packet
 update of the byte counters and the batch trigger that decides when a top-N
 extraction runs.
 */
module Flows {

  /** TCP port numbers are unsigned 16-bit values. */
  newtype uint16 = x: int | 0 <= x < 0x1_0000

  /** Identity of a directed TCP flow; the two directions of a conversation are different keys. */
  datatype TCPTuple = TCPTuple(srcIP: string, dstIP: string, srcPort: uint16, dstPort: uint16)

  /** One entry of a ranking: a flow and its cumulative payload byte count. */
  datatype TCPFlow = TCPFlow(tuple: TCPTuple, bytes: int)

  /**
   A packet as the decoder hands it to the main loop: either it has a TCP
   layer, with the flow it belongs to and the length of its payload, or it
   does not.
   */
  datatype Event = Tcp(tuple: TCPTuple, payloadLen: nat) | NonTcp

  type FlowTable = map<TCPTuple, int>

  /** Reading a Go map at an absent key gives the zero value. */
  function Lookup(m: FlowTable, t: TCPTuple): int
  {
    if t in m then m[t] else 0
  }

  /**
   One TCP packet's contribution to the table: its payload length is added
   to its flow's count, an absent flow counting from zero.
   */
  function AddPayload(m: FlowTable, t: TCPTuple, len: nat): (r: FlowTable)
    ensures r.Keys == m.Keys + {t}
    ensures t in m ==> r[t] == m[t] + len
    ensures t !in m ==> r[t] == len
    ensures forall u :: u in m && u != t ==> r[u] == m[u]
  {
    m[t := Lookup(m, t) + len]
  }

  /** The payload a single event carries for flow `t`. */
  function Contribution(e: Event, t: TCPTuple): nat
  {
    if e.Tcp? && e.tuple == t then e.payloadLen else 0
  }

  /**
   The effect of one decoded packet on the table: every flow's count (absent
   flows reading as 0) grows by exactly what the packet carries for it, no
   flow disappears, and a packet without a TCP layer changes nothing.
   */
  function Apply(m: FlowTable, e: Event): (r: FlowTable)
    ensures forall t :: Lookup(r, t) == Lookup(m, t) + Contribution(e, t)
    ensures m.Keys <= r.Keys
    ensures e.NonTcp? ==> r == m
  {
    match e
    case Tcp(t, len) => AddPayload(m, t, len)
    case NonTcp => m
  }

  /**
   The table after the main loop has processed `events` in order, starting
   from the empty map. No count is ever negative, since payload lengths are not.
   */
  function Aggregate(events: seq<Event>): (r: FlowTable)
    ensures forall t :: t in r ==> r[t] >= 0
  {
    if events == [] then map[] else Apply(Aggregate(events[..|events| - 1]), events[|events| - 1])
  }

  /** Processing one more event applies it to the table built so far. */
  lemma AggregateSnoc(events: seq<Event>, e: Event)
    ensures Aggregate(events + [e]) == Apply(Aggregate(events), e)
  {
    assert (events + [e])[..|events|] == events;
  }

  /** Reference definition of a flow's total: the sum of the payload lengths of its TCP events. */
  function SumFor(events: seq<Event>, t: TCPTuple): nat
  {
    if events == [] then 0 else Contribution(events[0], t) + SumFor(events[1..], t)
  }

  /** Whether some TCP event of `events` belongs to flow `t`. */
  ghost predicate Seen(events: seq<Event>, t: TCPTuple)
  {
    exists i :: 0 <= i < |events| && events[i].Tcp? && events[i].tuple == t
  }

  lemma {:induction false} SumForAppend(a: seq<Event>, b: seq<Event>, t: TCPTuple)
    ensures SumFor(a + b, t) == SumFor(a, t) + SumFor(b, t)
  {
    if a == [] {
      assert a + b == b;
    } else {
      assert (a + b)[1..] == a[1..] + b;
      SumForAppend(a[1..], b, t);
    }
  }

  /**
   The table after any sequence of events holds exactly the flows that some
   TCP event named, and each flow's count is the sum of its payload lengths.
   */
  lemma {:induction false} AggregateIsSum(events: seq<Event>)
    ensures forall t :: t in Aggregate(events) <==> Seen(events, t)
    ensures forall t :: t in Aggregate(events) ==> Aggregate(events)[t] == SumFor(events, t)
  {
    if events != [] {
      var n := |events| - 1;
      var prefix, e := events[..n], events[n];
      assert events == prefix + [e];
      AggregateIsSum(prefix);
      forall t
        ensures t in Aggregate(events) <==> Seen(events, t)
        ensures t in Aggregate(events) ==> Aggregate(events)[t] == SumFor(events, t)
      {
        SumForAppend(prefix, [e], t);
        assert SumFor([e], t) == Contribution(e, t) by {
          assert [e][1..] == [];
        }
        if Seen(events, t) {
          var i :| 0 <= i < |events| && events[i].Tcp? && events[i].tuple == t;
          if i < n {
            assert prefix[i] == events[i];
          }
        }
        if Seen(prefix, t) {
          var i :| 0 <= i < |prefix| && prefix[i].Tcp? && prefix[i].tuple == t;
          assert events[i] == prefix[i];
        }
        if !Seen(prefix, t) {
          assert SumFor(prefix, t) == 0 by { NotSeenSumsToZero(prefix, t); }
        }
      }
    }
  }

  lemma {:induction false} NotSeenSumsToZero(events: seq<Event>, t: TCPTuple)
    requires !Seen(events, t)
    ensures SumFor(events, t) == 0
  {
    if events != [] {
      forall i | 0 <= i < |events[1..]| && events[1..][i].Tcp?
        ensures events[1..][i].tuple != t
      {
        assert events[1..][i] == events[i + 1];
      }
      NotSeenSumsToZero(events[1..], t);
    }
  }

  /**
   Entries are never removed and counts never decrease: processing more
   events only adds flows and grows their totals.
   */
  lemma AggregateMonotone(events: seq<Event>, more: seq<Event>)
    ensures Aggregate(events).Keys <= Aggregate(events + more).Keys
    ensures forall t :: t in Aggregate(events) ==> Aggregate(events)[t] <= Aggregate(events + more)[t]
  {
    AggregateIsSum(events);
    AggregateIsSum(events + more);
    forall t | t in Aggregate(events)
      ensures t in Aggregate(events + more)
      ensures Aggregate(events)[t] <= Aggregate(events + more)[t]
    {
      var i :| 0 <= i < |events| && events[i].Tcp? && events[i].tuple == t;
      assert (events + more)[i] == events[i];
      SumForAppend(events, more, t);
    }
  }

  /**
   The totals do not depend on the order in which two stretches of traffic
   are processed.
   */
  lemma AggregateOrderIndependent(a: seq<Event>, b: seq<Event>)
    ensures Aggregate(a + b) == Aggregate(b + a)
  {
    AggregateIsSum(a + b);
    AggregateIsSum(b + a);
    forall t
      ensures t in Aggregate(a + b) <==> t in Aggregate(b + a)
      ensures t in Aggregate(a + b) ==> Aggregate(a + b)[t] == Aggregate(b + a)[t]
    {
      if Seen(a + b, t) {
        var i :| 0 <= i < |a + b| && (a + b)[i].Tcp? && (a + b)[i].tuple == t;
        if i < |a| {
          assert (b + a)[|b| + i] == a[i];
        } else {
          assert (b + a)[i - |a|] == b[i - |a|];
        }
      }
      if Seen(b + a, t) {
        var i :| 0 <= i < |b + a| && (b + a)[i].Tcp? && (b + a)[i].tuple == t;
        if i < |b| {
          assert (a + b)[|a| + i] == b[i];
        } else {
          assert (a + b)[i - |b|] == a[i - |b|];
        }
      }
      SumForAppend(a, b, t);
      SumForAppend(b, a, t);
    }
  }

  /** A positive multiple of `b` is at least `b`, a negative one at most `-b`. */
  lemma MultipleBounds(d: int, b: int)
    requires b > 0
    ensures d >= 1 ==> d * b >= b
    ensures d <= -1 ==> d * b <= -b
  {
  }

  /** A multiple of `b` leaves no remainder. */
  lemma MultipleHasNoRemainder(k: int, b: int)
    requires b > 0
    ensures (k * b) % b == 0
  {
    var q, r := (k * b) / b, (k * b) % b;
    assert (k - q) * b == r;
    MultipleBounds(k - q, b);
  }

  /**
   The remainder test detects exactly the multiples of `b`. For a positive
   divisor, a zero remainder means the same under Dafny's Euclidean `%` as
   under Go's truncating `%`: the dividend is a whole multiple of `b`.
   */
  lemma NoRemainderIffMultiple(c: int, b: int)
    requires b > 0
    ensures c % b == 0 <==> exists k :: c == k * b
  {
    if c % b == 0 {
      assert c == (c / b) * b;
    }
    if exists k :: c == k * b {
      var k :| c == k * b;
      MultipleHasNoRemainder(k, b);
    }
  }

  /**
   The batch check in the TCP branch: `count` is the packet counter after
   it was incremented for event `e`. A packet triggers an extraction exactly
   when it has a TCP layer and the counter is a whole multiple of the batch
   size; non-TCP packets never trigger.
   */
  predicate Fires(count: int, e: Event, batchSize: int)
    requires batchSize > 0
    ensures Fires(count, e, batchSize) <==> e.Tcp? && exists k :: count == k * batchSize
  {
    NoRemainderIffMultiple(count, batchSize);
    e.Tcp? && count % batchSize == 0
  }

  /**
   The indices (0-based) of the events at which an extraction runs, in
   order. The counter after the event at index i is i + 1, because every
   packet read is counted.
   */
  function Firings(events: seq<Event>, batchSize: int): (r: seq<nat>)
    requires batchSize > 0
    ensures forall k :: 0 <= k < |r| ==> r[k] < |events|
  {
    if events == [] then []
    else
      var n := |events| - 1;
      Firings(events[..n], batchSize) + (if Fires(n + 1, events[n], batchSize) then [n] else [])
  }

  /**
   An extraction runs at exactly the TCP events whose position in the
   capture (counting every packet) is a multiple of the batch size, and the
   firing points come in increasing order.
   */
  lemma {:induction false} FiringsExact(events: seq<Event>, batchSize: int)
    requires batchSize > 0
    ensures forall i :: i in Firings(events, batchSize) <==>
      0 <= i < |events| && events[i].Tcp? && (i + 1) % batchSize == 0
    ensures forall j, k :: 0 <= j < k < |Firings(events, batchSize)| ==>
      Firings(events, batchSize)[j] < Firings(events, batchSize)[k]
  {
    if events != [] {
      var n := |events| - 1;
      var before := Firings(events[..n], batchSize);
      FiringsExact(events[..n], batchSize);
      forall i | 0 <= i < n
        ensures events[..n][i] == events[i]
      {
      }
      forall j | 0 <= j < |before|
        ensures before[j] < n
      {
        assert before[j] in before;
      }
    }
  }

  /** A capture without TCP packets never triggers an extraction and leaves the table empty. */
  lemma {:induction false} NoTcpNoExtraction(events: seq<Event>, batchSize: int)
    requires batchSize > 0
    requires forall i :: 0 <= i < |events| ==> events[i] == NonTcp
    ensures Firings(events, batchSize) == []
    ensures Aggregate(events) == map[]
  {
    if events != [] {
      var n := |events| - 1;
      assert forall i :: 0 <= i < n ==> events[..n][i] == events[i];
      NoTcpNoExtraction(events[..n], batchSize);
    }
  }
}
