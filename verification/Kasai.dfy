/** Longest common prefixes of neighbouring suffixes (cmd/tiedepth): Kasai's algorithm carries the
    length from one text position to the next and so compares each character once. */
module Kasai {
  import opened Suffixes

  /** How many characters suffixes a and b have in common. */
  function Lcp(t: seq<int>, a: int, b: int): (h: nat)
    requires 0 <= a <= |t| && 0 <= b <= |t|
    ensures a + h <= |t| && b + h <= |t|
    decreases |t| - a
  {
    if a < |t| && b < |t| && t[a] == t[b] then 1 + Lcp(t, a + 1, b + 1) else 0
  }

  /** Lcp is the common prefix length: the next characters differ or a suffix has ended, and any
      common stretch is no longer. */
  lemma {:induction false} LcpIsMaximal(t: seq<int>, a: int, b: int, k: nat)
    requires 0 <= a <= a + k <= |t| && 0 <= b <= b + k <= |t|
    ensures k <= Lcp(t, a, b) <==> t[a..a + k] == t[b..b + k]
    decreases k
  {
    if k > 0 {
      var x, y := t[a..a + k], t[b..b + k];
      assert x[0] == t[a] && y[0] == t[b];
      assert x == [t[a]] + t[a + 1..a + k] && y == [t[b]] + t[b + 1..b + k];
      if t[a] == t[b] {
        LcpIsMaximal(t, a + 1, b + 1, k - 1);
        if x == y {
          assert t[a + 1..a + k] == x[1..] == y[1..] == t[b + 1..b + k];
        }
      }
    }
  }

  lemma {:induction false} LcpSymmetric(t: seq<int>, a: int, b: int)
    requires 0 <= a <= |t| && 0 <= b <= |t|
    ensures Lcp(t, a, b) == Lcp(t, b, a)
    decreases |t| - a
  {
    if a < |t| && b < |t| && t[a] == t[b] {
      LcpSymmetric(t, a + 1, b + 1);
    }
  }

  /** A suffix between two others shares at least as much with the greater one as the smaller does. */
  lemma {:induction false} LcpBetween(t: seq<int>, a: int, b: int, c: int)
    requires 0 <= a <= |t| && 0 <= b <= |t| && 0 <= c <= |t|
    requires Leq(t, a, b) && Less(t, b, c)
    ensures Lcp(t, b, c) >= Lcp(t, a, c)
    decreases |t| - a
  {
    if a != b && Lcp(t, a, c) > 0 {
      LcpBetween(t, a + 1, b + 1, c + 1);
    }
  }

  /** Scanning on from a stretch known to be common finds the rest. */
  lemma {:induction false} LcpSkip(t: seq<int>, a: int, b: int, h: nat)
    requires 0 <= a <= |t| && 0 <= b <= |t| && h <= Lcp(t, a, b)
    ensures Lcp(t, a, b) == h + Lcp(t, a + h, b + h)
    decreases h
  {
    if h > 0 {
      LcpSkip(t, a + 1, b + 1, h - 1);
    }
  }

  /** rank is the inverse of the suffix array sa. */
  ghost predicate Inverse(t: seq<int>, sa: seq<int>, rank: seq<int>) {
    && IsSuffixArray(t, sa) && |rank| == |t|
    && forall p :: 0 <= p < |t| ==> 0 <= rank[p] < |t| && sa[rank[p]] == p
  }

  lemma RankOrder(t: seq<int>, sa: seq<int>, rank: seq<int>, p: int, q: int)
    requires Inverse(t, sa, rank) && 0 <= p < |t| && 0 <= q < |t|
    ensures rank[p] < rank[q] <==> Less(t, p, q)
  {
    hide Less;
    LeqTotal(t, p, q);
    if rank[p] < rank[q] {
      assert Less(t, sa[rank[p]], sa[rank[q]]);
    } else if rank[q] < rank[p] {
      assert Less(t, sa[rank[q]], sa[rank[p]]);
      LeqTotal(t, q, p);
    } else {
      LessIrreflexive(t, p);
    }
  }

  /** The suffix just before suffix i in the order. */
  ghost function Before(t: seq<int>, sa: seq<int>, rank: seq<int>, i: int): (j: int)
    requires Inverse(t, sa, rank) && 0 <= i < |t| && rank[i] > 0
    ensures 0 <= j < |t|
  {
    sa[rank[i] - 1]
  }

  /** The heart of the algorithm: position i shares h > 1 characters with its predecessor, so position
      i + 1 has a predecessor and shares at least h - 1 with it. */
  lemma CarriesOver(t: seq<int>, sa: seq<int>, rank: seq<int>, i: int, h: nat)
    requires Inverse(t, sa, rank) && 0 <= i < |t| && rank[i] > 0
    requires h > 1 && h <= Lcp(t, i, Before(t, sa, rank, i))
    ensures i + 1 < |t| && rank[i + 1] > 0 && h - 1 <= Lcp(t, i + 1, Before(t, sa, rank, i + 1))
  {
    hide Less;
    var j := Before(t, sa, rank, i);
    LcpSkip(t, i, j, 1);
    assert Less(t, j, i);
    assert Less(t, j + 1, i + 1) by { UnfoldLess(t, j, i); }
    RankOrder(t, sa, rank, j + 1, i + 1);
    var b := Before(t, sa, rank, i + 1);
    assert rank[j + 1] <= rank[i + 1] - 1;
    assert sa[rank[j + 1]] == j + 1;
    assert Leq(t, j + 1, b);
    assert Less(t, b, i + 1);
    LcpBetween(t, j + 1, b, i + 1);
    LcpSymmetric(t, b, i + 1);
    LcpSymmetric(t, j + 1, i + 1);
  }

  lemma UnfoldLess(t: seq<int>, a: int, b: int)
    requires 0 <= a < |t| && 0 <= b < |t| && t[a] == t[b] && Less(t, a, b)
    ensures Less(t, a + 1, b + 1)
  {
  }

  /** The table of ranks. */
  method Invert(text: seq<byte>, sa: array<int>) returns (rank: array<int>)
    requires IsSuffixArray(text, sa[..])
    ensures fresh(rank) && Inverse(text, sa[..], rank[..])
  {
    hide Less;
    SuffixArrayIsPermutation(text, sa[..]);
    var n := sa.Length;
    rank := new int[n];
    var i := 0;
    while i < n
      invariant 0 <= i <= n
      invariant forall k :: 0 <= k < i ==> rank[sa[k]] == k
    {
      assert forall k :: 0 <= k < i ==> sa[..][k] != sa[..][i];
      rank[sa[i]] := i;
      i := i + 1;
    }
    forall p | 0 <= p < n ensures 0 <= rank[p] < n && sa[rank[p]] == p {
      assert p in sa[..];
      var k :| 0 <= k < n && sa[..][k] == p;
    }
  }

  /** kasaiLCP: lcp[k] is the common prefix length of the neighbours sa[k - 1] and sa[k].  At most
      |text| comparisons of characters succeed over the whole run. */
  method KasaiLcp(text: seq<byte>, sa: array<int>) returns (lcp: array<int>, ghost matches: nat)
    requires IsSuffixArray(text, sa[..])
    ensures fresh(lcp) && lcp.Length == |text|
    ensures forall k :: 1 <= k < |text| ==> lcp[k] == Lcp(text, sa[k - 1], sa[k])
    ensures |text| > 0 ==> lcp[0] == 0
    ensures matches <= |text|
  {
    hide Less, Lcp, IsSuffixArray;
    var n := |text|;
    assert sa.Length == n && InText(text, sa[..]) by { SuffixArrayShape(text, sa[..]); }
    var rank := Invert(text, sa);
    ghost var s, rk := sa[..], rank[..];
    lcp := new int[n](i => 0);
    matches := 0;
    var h := 0;
    var i := 0;
    while i < n
      invariant 0 <= i <= n && 0 <= h && i + h <= n && rank[..] == rk
      invariant matches <= h + i
      invariant h > 0 ==> i < n && rk[i] > 0 && h <= Lcp(text, i, Before(text, s, rk, i))
      invariant forall p :: 0 <= p < i && rk[p] > 0 ==> lcp[rk[p]] == Lcp(text, p, Before(text, s, rk, p))
      invariant n > 0 ==> lcp[0] == 0
    {
      RanksDistinct(text, s, rk, i);
      if rank[i] > 0 {
        var j := sa[rank[i] - 1];
        assert j == Before(text, s, rk, i);
        ghost var h0 := h;
        h := ExtendMatch(text, i, j, h);
        matches := matches + (h - h0);
        lcp[rank[i]] := h;
        if h > 0 {
          if h > 1 {
            CarriesOver(text, s, rk, i, h);
          }
          h := h - 1;
        }
      } else {
        h := 0;
      }
      i := i + 1;
    }
    forall k | 1 <= k < n ensures lcp[k] == Lcp(text, sa[k - 1], sa[k]) {
      RankOfEntry(text, s, rk, k);
      LcpSymmetric(text, s[k], s[k - 1]);
    }
  }

  /** The inner loop: extend a common stretch of length h to the full one. */
  method ExtendMatch(text: seq<byte>, i: int, j: int, h0: nat) returns (h: nat)
    requires 0 <= i < |text| && 0 <= j < |text| && (h0 > 0 ==> h0 <= Lcp(text, i, j))
    ensures h0 <= h == Lcp(text, i, j)
  {
    h := h0;
    LcpSkip(text, i, j, h);
    while i + h < |text| && j + h < |text| && text[i + h] == text[j + h]
      invariant h0 <= h && i + h <= |text| && j + h <= |text|
      invariant Lcp(text, i, j) == h + Lcp(text, i + h, j + h)
      decreases |text| - h
    {
      h := h + 1;
    }
  }

  lemma SuffixArrayShape(t: seq<int>, sa: seq<int>)
    requires IsSuffixArray(t, sa)
    ensures |sa| == |t| && InText(t, sa)
  {
  }

  lemma RanksDistinct(t: seq<int>, sa: seq<int>, rank: seq<int>, i: int)
    requires Inverse(t, sa, rank) && 0 <= i < |t|
    ensures 0 <= rank[i] < |t|
    ensures forall p :: 0 <= p < |t| && p != i ==> rank[p] != rank[i]
  {
  }

  lemma RankOfEntry(t: seq<int>, sa: seq<int>, rank: seq<int>, k: int)
    requires Inverse(t, sa, rank) && 0 <= k < |t|
    ensures |sa| == |t| && 0 <= sa[k] < |t| && rank[sa[k]] == k
  {
    hide Less;
    SuffixArrayIsPermutation(t, sa);
    var r := rank[sa[k]];
    assert sa[r] == sa[k];
  }
}
