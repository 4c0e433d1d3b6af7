/**
 Top-N extraction (`getTopTCPFlows`): every entry of the flow table is
 copied into a slice, the slice is sorted in place by byte count, largest
 first, and cut to its first n entries. The sort has no tie-break, so the
 specification leaves the order of equal byte counts open.
 */
module TopN {
  import opened Flows

  function Min(a: int, b: int): int
  {
    if a <= b then a else b
  }

  /** Non-increasing by byte count. */
  predicate SortedByBytesDesc(s: seq<TCPFlow>)
  {
    forall i, j :: 0 <= i < j < |s| ==> s[i].bytes >= s[j].bytes
  }

  /** The flows a ranking names. */
  function Tuples(s: seq<TCPFlow>): set<TCPTuple>
  {
    set f | f in s :: f.tuple
  }

  predicate DistinctTuples(s: seq<TCPFlow>)
  {
    forall i, j :: 0 <= i < j < |s| ==> s[i].tuple != s[j].tuple
  }

  /** Every pair of `s` is an entry of the table. */
  predicate EntriesOf(m: FlowTable, s: seq<TCPFlow>)
  {
    forall i :: 0 <= i < |s| ==> s[i].tuple in m && m[s[i].tuple] == s[i].bytes
  }

  /**
   What a top-n ranking of table `m` is: min(n, |m|) distinct entries of the
   table, sorted by byte count with the largest first, such that no flow left
   out carries more bytes than any flow kept.
   */
  predicate IsTopN(m: FlowTable, n: int, r: seq<TCPFlow>)
  {
    && |r| == Min(n, |m|)
    && SortedByBytesDesc(r)
    && EntriesOf(m, r)
    && DistinctTuples(r)
    && forall t :: t in m && t !in Tuples(r) ==> forall i :: 0 <= i < |r| ==> m[t] <= r[i].bytes
  }

  /** A sequence names at most as many flows as it has entries, and exactly as many when no flow repeats. */
  lemma {:induction false} TuplesCard(s: seq<TCPFlow>)
    ensures |Tuples(s)| <= |s|
    ensures |Tuples(s)| == |s| <==> DistinctTuples(s)
  {
    if s != [] {
      var n := |s| - 1;
      var init, last := s[..n], s[n];
      assert s == init + [last];
      assert Tuples(s) == Tuples(init) + {last.tuple};
      TuplesCard(init);
      if DistinctTuples(s) {
        assert DistinctTuples(init) by {
          forall i, j | 0 <= i < j < |init|
            ensures init[i].tuple != init[j].tuple
          {
            assert init[i] == s[i] && init[j] == s[j];
          }
        }
      }
      if last.tuple !in Tuples(init) && |Tuples(s)| == |s| {
        forall i, j | 0 <= i < j < |s|
          ensures s[i].tuple != s[j].tuple
        {
          if j == n {
            assert init[i] in init;
          } else {
            assert s[i] == init[i] && s[j] == init[j];
          }
        }
      }
    }
  }

  /** Reordering a complete, exact copy of the table keeps it complete and exact, and free of repeated flows. */
  lemma PermutedCopy(m: FlowTable, s: seq<TCPFlow>, s': seq<TCPFlow>)
    requires multiset(s) == multiset(s')
    requires EntriesOf(m, s) && Tuples(s) == m.Keys && |s| == |m|
    ensures EntriesOf(m, s') && Tuples(s') == m.Keys && |s'| == |m|
    ensures DistinctTuples(s')
  {
    assert |s'| == |multiset(s')| == |multiset(s)| == |s|;
    forall i | 0 <= i < |s'|
      ensures s'[i].tuple in m && m[s'[i].tuple] == s'[i].bytes
    {
      assert s'[i] in multiset(s');
      var j :| 0 <= j < |s| && s[j] == s'[i];
    }
    forall f
      ensures f in s <==> f in s'
    {
      assert f in s <==> f in multiset(s);
      assert f in s' <==> f in multiset(s');
    }
    assert Tuples(s') == Tuples(s);
    assert |Tuples(s')| == |m.Keys| == |s'|;
    TuplesCard(s');
  }

  /** Cutting a sorted, complete, exact copy of the table to its first n entries gives a top-n ranking. */
  lemma PrefixIsTopN(m: FlowTable, n: int, s: seq<TCPFlow>)
    requires n >= 0
    requires EntriesOf(m, s) && Tuples(s) == m.Keys && |s| == |m|
    requires DistinctTuples(s) && SortedByBytesDesc(s)
    ensures IsTopN(m, n, s[..Min(n, |s|)])
  {
    var r := s[..Min(n, |s|)];
    forall t | t in m && t !in Tuples(r)
      ensures forall i :: 0 <= i < |r| ==> m[t] <= r[i].bytes
    {
      assert t in Tuples(s);
      var f :| f in s && f.tuple == t;
      var k :| 0 <= k < |s| && s[k] == f;
      assert f !in r;
    }
  }

  method Swap(a: array<TCPFlow>, i: int, j: int)
    requires 0 <= i < a.Length && 0 <= j < a.Length
    modifies a
    ensures a[i] == old(a[j]) && a[j] == old(a[i])
    ensures forall k :: 0 <= k < a.Length && k != i && k != j ==> a[k] == old(a[k])
    ensures multiset(a[..]) == multiset(old(a[..]))
  {
    a[i], a[j] := a[j], a[i];
  }

  /**
   The in-place sort of the slice, largest byte count first. Any order among
   equal byte counts is allowed, as with an unstable sort.
   */
  method SortByBytesDesc(a: array<TCPFlow>)
    modifies a
    ensures SortedByBytesDesc(a[..])
    ensures multiset(a[..]) == multiset(old(a[..]))
  {
    var i := 0;
    while i < a.Length
      invariant 0 <= i <= a.Length
      invariant forall p, q :: 0 <= p < q < i ==> a[p].bytes >= a[q].bytes
      invariant multiset(a[..]) == multiset(old(a[..]))
    {
      var j := i;
      while j > 0 && a[j - 1].bytes < a[j].bytes
        invariant 0 <= j <= i
        invariant forall p, q :: 0 <= p < q <= i && q != j ==> a[p].bytes >= a[q].bytes
        invariant multiset(a[..]) == multiset(old(a[..]))
      {
        Swap(a, j - 1, j);
        j := j - 1;
      }
      i := i + 1;
    }
  }

  /**
   `getTopTCPFlows`: collect the table's entries (in whatever order the map
   is walked), sort them by byte count descending, keep the first n.
   */
  method GetTopTCPFlows(tcpFlows: FlowTable, n: int) returns (top: seq<TCPFlow>)
    requires n >= 0
    ensures IsTopN(tcpFlows, n, top)
  {
    var all: seq<TCPFlow> := [];
    var rest := tcpFlows.Keys;
    while rest != {}
      invariant rest <= tcpFlows.Keys
      invariant Tuples(all) == tcpFlows.Keys - rest
      invariant |all| + |rest| == |tcpFlows.Keys|
      invariant EntriesOf(tcpFlows, all)
      decreases |rest|
    {
      var t :| t in rest;
      var entry := TCPFlow(t, tcpFlows[t]);
      assert Tuples(all + [entry]) == Tuples(all) + {t};
      all := all + [entry];
      rest := rest - {t};
    }
    assert |tcpFlows.Keys| == |tcpFlows|;

    var a := new TCPFlow[|all|](i requires 0 <= i < |all| => all[i]);
    assert a[..] == all;
    SortByBytesDesc(a);
    var sorted := a[..];
    TuplesCard(all);
    PermutedCopy(tcpFlows, all, sorted);

    top := sorted;
    if |top| > n {
      top := top[..n];
    }
    PrefixIsTopN(tcpFlows, n, sorted);
  }

  /**
   Two top-n rankings of the same table may order tied flows differently,
   but they agree on the byte count at every rank.
   */
  lemma TopNBytesDetermined(m: FlowTable, n: int, r1: seq<TCPFlow>, r2: seq<TCPFlow>)
    requires IsTopN(m, n, r1) && IsTopN(m, n, r2)
    ensures |r1| == |r2|
    ensures forall i :: 0 <= i < |r1| ==> r1[i].bytes == r2[i].bytes
  {
    forall i | 0 <= i < |r1|
      ensures r1[i].bytes == r2[i].bytes
    {
      RankNotAbove(m, n, r1, r2, i);
      RankNotAbove(m, n, r2, r1, i);
    }
  }

  lemma SubsetCard(a: set<TCPTuple>, b: set<TCPTuple>)
    requires a <= b
    ensures |a| <= |b|
  {
    assert b == a + (b - a);
  }

  /** A flow of the table that carries more bytes than rank i of a ranking is listed above rank i. */
  lemma AboveRankIsListed(m: FlowTable, n: int, r: seq<TCPFlow>, i: int, t: TCPTuple)
    requires IsTopN(m, n, r) && 0 <= i < |r|
    requires t in m && m[t] > r[i].bytes
    ensures t in Tuples(r[..i])
  {
    assert t in Tuples(r);
    var g :| g in r && g.tuple == t;
    var j :| 0 <= j < |r| && r[j] == g;
    assert r[..i][j] == g;
  }

  /**
   The byte count at rank i of one ranking is at most that of another: the
   i + 1 flows that rank at or above i in the first all carry more than the
   second's rank-i flow would, so all would have to fit above rank i there.
   */
  lemma RankNotAbove(m: FlowTable, n: int, r1: seq<TCPFlow>, r2: seq<TCPFlow>, i: int)
    requires IsTopN(m, n, r1) && IsTopN(m, n, r2)
    requires 0 <= i < |r1|
    ensures r1[i].bytes <= r2[i].bytes
  {
    if r1[i].bytes > r2[i].bytes {
      var upper, lower := r1[..i + 1], r2[..i];
      HeadIsHeavy(m, n, r1, i);
      TuplesCard(upper);
      TuplesCard(lower);
      forall t | t in Tuples(upper)
        ensures t in Tuples(lower)
      {
        AboveRankIsListed(m, n, r2, i, t);
      }
      SubsetCard(Tuples(upper), Tuples(lower));
      assert false;
    }
  }

  /** The first i + 1 entries of a ranking are distinct flows of the table, each with at least rank i's count. */
  lemma HeadIsHeavy(m: FlowTable, n: int, r: seq<TCPFlow>, i: int)
    requires IsTopN(m, n, r) && 0 <= i < |r|
    ensures DistinctTuples(r[..i + 1])
    ensures forall t :: t in Tuples(r[..i + 1]) ==> t in m && m[t] >= r[i].bytes
  {
    var upper := r[..i + 1];
    forall t | t in Tuples(upper)
      ensures t in m && m[t] >= r[i].bytes
    {
      var f :| f in upper && f.tuple == t;
      var k :| 0 <= k <= i && upper[k] == f;
      assert r[k] == f;
    }
  }
}
