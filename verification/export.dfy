/**
 The layout of the report file (`writeCSV`): a fixed five-column header,
 then one record per ranked flow, in ranking order. Each record holds the
 two addresses as text and the two ports and the byte count in `%d`
 decimal. The file itself, the CSV quoting and the writer's errors are not
 part of this module; it decides only which fields are handed to the writer.
 */
module Export {
  import opened Wrappers
  import opened Flows

  /** The header record: five columns, the addresses first, then the ports, then the byte total. */
  const Header: seq<string> := ["Source IP", "Destination IP", "Source Port", "Destination Port", "Total Bytes"]

  predicate IsDigit(c: char)
  {
    '0' <= c <= '9'
  }

  predicate AllDigits(s: string)
  {
    forall i :: 0 <= i < |s| ==> IsDigit(s[i])
  }

  function DigitChar(d: nat): (c: char)
    requires d < 10
    ensures IsDigit(c)
  {
    ('0' as int + d) as char
  }

  /** The decimal digits of n, most significant first, as `%d` prints a non-negative integer. */
  function NatDigits(n: nat): (s: string)
    ensures |s| > 0 && AllDigits(s)
    ensures s[0] == '0' <==> n == 0
    ensures n == 0 ==> s == "0"
  {
    if n < 10 then [DigitChar(n)] else NatDigits(n / 10) + [DigitChar(n % 10)]
  }

  /** The number a string of decimal digits denotes. */
  function DigitsValue(s: string): nat
    requires AllDigits(s)
  {
    if s == [] then 0 else DigitsValue(s[..|s| - 1]) * 10 + (s[|s| - 1] as int - '0' as int)
  }

  /** Go's `%d` formatting of an integer: a minus sign when negative, then the digits of the magnitude. */
  function FormatInt(i: int): (s: string)
    ensures i >= 0 ==> |s| > 0 && AllDigits(s) && (s[0] == '0' <==> i == 0)
    ensures i < 0 ==> |s| > 1 && s[0] == '-' && AllDigits(s[1..]) && s[1] != '0'
    ensures i == 0 ==> s == "0"
  {
    if i < 0 then "-" + NatDigits(-i) else NatDigits(i)
  }

  /** Reads back a decimal integer with an optional leading minus sign. */
  function ParseInt(s: string): Option<int>
  {
    if |s| > 1 && s[0] == '-' && AllDigits(s[1..]) then Some(0 - DigitsValue(s[1..]) as int)
    else if |s| > 0 && AllDigits(s) then Some(DigitsValue(s))
    else None
  }

  lemma {:induction false} NatDigitsValue(n: nat)
    ensures DigitsValue(NatDigits(n)) == n
  {
    if n >= 10 {
      var s := NatDigits(n);
      assert s[..|s| - 1] == NatDigits(n / 10);
      NatDigitsValue(n / 10);
    }
  }

  /** Every integer printed with `%d` reads back as itself. */
  lemma FormatIntRoundTrip(i: int)
    ensures ParseInt(FormatInt(i)) == Some(i)
  {
    if i < 0 {
      var s := FormatInt(i);
      assert s[1..] == NatDigits(-i);
      NatDigitsValue(-i);
    } else {
      NatDigitsValue(i);
    }
  }

  /** The record written for one ranked flow: addresses as they are, ports and bytes in decimal. */
  function FormatRow(f: TCPFlow): (row: seq<string>)
    ensures |row| == |Header|
    ensures row[0] == f.tuple.srcIP && row[1] == f.tuple.dstIP
    ensures ParseInt(row[2]) == Some(f.tuple.srcPort as int)
    ensures ParseInt(row[3]) == Some(f.tuple.dstPort as int)
    ensures ParseInt(row[4]) == Some(f.bytes)
  {
    FormatIntRoundTrip(f.tuple.srcPort as int);
    FormatIntRoundTrip(f.tuple.dstPort as int);
    FormatIntRoundTrip(f.bytes);
    [f.tuple.srcIP, f.tuple.dstIP, FormatInt(f.tuple.srcPort as int), FormatInt(f.tuple.dstPort as int), FormatInt(f.bytes)]
  }

  /** Reads one record back into a flow; a port outside 0..65535 or a non-numeric field is rejected. */
  function ParseRow(row: seq<string>): Option<TCPFlow>
  {
    if |row| != |Header| then None
    else
      match (ParseInt(row[2]), ParseInt(row[3]), ParseInt(row[4]))
      case (Some(sp), Some(dp), Some(b)) =>
        if 0 <= sp < 0x1_0000 && 0 <= dp < 0x1_0000
        then Some(TCPFlow(TCPTuple(row[0], row[1], sp as uint16, dp as uint16), b))
        else None
      case _ => None
  }

  /** A flow's record reads back as that flow. */
  lemma RowRoundTrip(f: TCPFlow)
    ensures ParseRow(FormatRow(f)) == Some(f)
  {
  }

  function ParseRows(rows: seq<seq<string>>): Option<seq<TCPFlow>>
  {
    if rows == [] then Some([])
    else
      match (ParseRow(rows[0]), ParseRows(rows[1..]))
      case (Some(f), Some(fs)) => Some([f] + fs)
      case _ => None
  }

  /** Reads a whole report back: the header, then one flow per record. */
  function ParseTable(table: seq<seq<string>>): Option<seq<TCPFlow>>
  {
    if table == [] || table[0] != Header then None else ParseRows(table[1..])
  }

  lemma {:induction false} RowsRoundTrip(rows: seq<seq<string>>, flows: seq<TCPFlow>)
    requires |rows| == |flows|
    requires forall i :: 0 <= i < |rows| ==> rows[i] == FormatRow(flows[i])
    ensures ParseRows(rows) == Some(flows)
  {
    if rows != [] {
      RowRoundTrip(flows[0]);
      RowsRoundTrip(rows[1..], flows[1..]);
      assert flows == [flows[0]] + flows[1..];
    }
  }

  /**
   `writeCSV` without the file: the records handed to the CSV writer, in
   order. The header comes first, then one record per flow in ranking
   order, so that the report reads back as exactly the ranking exported.
   */
  method WriteCSV(topFlows: seq<TCPFlow>) returns (table: seq<seq<string>>)
    ensures |table| == |topFlows| + 1 && table[0] == Header
    ensures forall i :: 0 <= i < |topFlows| ==> table[i + 1] == FormatRow(topFlows[i])
    ensures ParseTable(table) == Some(topFlows)
  {
    table := [Header];
    for i := 0 to |topFlows|
      invariant |table| == i + 1 && table[0] == Header
      invariant forall k :: 0 <= k < i ==> table[k + 1] == FormatRow(topFlows[k])
    {
      table := table + [FormatRow(topFlows[i])];
    }
    RowsRoundTrip(table[1..], topFlows);
  }
}
