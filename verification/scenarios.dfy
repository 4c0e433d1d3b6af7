/**
 Worked scenarios of the analyser on small captures, stated against the
 model's definitions.
 */
module Scenarios {
  import opened Flows
  import opened TopN

  const A := TCPTuple("10.0.0.1", "10.0.0.2", 40000, 80)
  const B := TCPTuple("10.0.0.3", "10.0.0.2", 40001, 443)

  /** Flow A carries 100, 200 and 50 bytes and flow B 500: the table holds 350 and 500. */
  lemma TwoFlowTotals()
    ensures Aggregate([Tcp(A, 100), Tcp(B, 500), Tcp(A, 200), Tcp(A, 50)]) == map[A := 350, B := 500]
  {
    var events := [Tcp(A, 100), Tcp(B, 500), Tcp(A, 200), Tcp(A, 50)];
    assert events[..1] == [Tcp(A, 100)] && [Tcp(A, 100)][..0] == [];
    assert Aggregate(events[..1]) == map[A := 100];
    assert events[..2][..1] == events[..1];
    assert Aggregate(events[..2]) == map[A := 100, B := 500];
    assert events[..3][..2] == events[..2];
    assert Aggregate(events[..3]) == map[A := 300, B := 500];
  }

  /** The top-2 ranking of that table is B then A, whatever order the map is walked in. */
  lemma TwoFlowRanking(r: seq<TCPFlow>)
    requires IsTopN(map[A := 350, B := 500], 2, r)
    ensures r == [TCPFlow(B, 500), TCPFlow(A, 350)]
  {
    var m := map[A := 350, B := 500];
    assert |m| == 2 by {
      assert m.Keys == {A, B};
    }
    assert r[0].tuple in m && r[1].tuple in m && r[0].tuple != r[1].tuple;
  }

  /**
   With a batch size of 3, five TCP packets trigger exactly one extraction,
   on the third packet.
   */
  lemma BatchOfThreeExample()
    ensures Firings([Tcp(A, 1), Tcp(A, 1), Tcp(B, 1), Tcp(B, 1), Tcp(A, 1)], 3) == [2]
  {
    var events := [Tcp(A, 1), Tcp(A, 1), Tcp(B, 1), Tcp(B, 1), Tcp(A, 1)];
    assert events[..1][..0] == [];
    assert events[..2][..1] == events[..1];
    assert events[..3][..2] == events[..2];
    assert events[..4][..3] == events[..3];
    assert Firings(events[..1], 3) == [];
    assert Firings(events[..2], 3) == [];
    assert Firings(events[..3], 3) == [2];
    assert Firings(events[..4], 3) == [2];
  }

  /**
   Every packet is counted, TCP or not, and the batch check runs only for a
   TCP packet: when the packet that makes the counter a multiple of the
   batch size has no TCP layer, that batch boundary passes without an
   extraction.
   */
  lemma NonTcpBoundaryExample()
    ensures Firings([Tcp(A, 1), Tcp(A, 1), NonTcp, Tcp(B, 1), Tcp(B, 1), Tcp(A, 1)], 3) == [5]
  {
    var events := [Tcp(A, 1), Tcp(A, 1), NonTcp, Tcp(B, 1), Tcp(B, 1), Tcp(A, 1)];
    assert events[..1][..0] == [];
    assert events[..2][..1] == events[..1];
    assert events[..3][..2] == events[..2];
    assert events[..4][..3] == events[..3];
    assert events[..5][..4] == events[..4];
    assert Firings(events[..1], 3) == [];
    assert Firings(events[..2], 3) == [];
    assert Firings(events[..3], 3) == [];
    assert Firings(events[..4], 3) == [];
    assert Firings(events[..5], 3) == [];
  }

  /**
   With two flows tied at the cut, either one may be kept: the ranking's
   byte column is fixed, but which tied flows make the cut is not.
   */
  lemma TieAtCutExample()
    ensures IsTopN(map[A := 5, B := 5], 1, [TCPFlow(A, 5)])
    ensures IsTopN(map[A := 5, B := 5], 1, [TCPFlow(B, 5)])
  {
    var m := map[A := 5, B := 5];
    assert m.Keys == {A, B};
    assert |m| == 2;
  }
}
