/** The order on suffixes that every suffix array in the repository is held to, and what a suffix
    array is.  A text is a sequence of integers: bytes at the top level, substring names inside the
    recursion of the induced-sorting algorithm.  A suffix is named by the index at which it starts. */
module Suffixes {

  type byte = b: int | 0 <= b < 256

  /** Suffix a is smaller than suffix b: the text is read as if a sentinel smaller than every
      character followed it, so of two suffixes that agree the shorter is smaller. */
  predicate Less(t: seq<int>, a: int, b: int)
    requires 0 <= a <= |t| && 0 <= b <= |t|
    decreases |t| - a
  {
    b < |t| && (a == |t| || t[a] < t[b] || (t[a] == t[b] && Less(t, a + 1, b + 1)))
  }

  predicate Leq(t: seq<int>, a: int, b: int)
    requires 0 <= a <= |t| && 0 <= b <= |t|
  {
    a == b || Less(t, a, b)
  }

  // ----- Less is a strict total order -----

  lemma {:induction false} LessIrreflexive(t: seq<int>, a: int)
    requires 0 <= a <= |t|
    ensures !Less(t, a, a)
    decreases |t| - a
  {
    if a < |t| {
      LessIrreflexive(t, a + 1);
    }
  }

  lemma {:induction false} LessTotal(t: seq<int>, a: int, b: int)
    requires 0 <= a <= |t| && 0 <= b <= |t| && a != b
    ensures Less(t, a, b) <==> !Less(t, b, a)
    decreases |t| - a
  {
    if a < |t| && b < |t| && t[a] == t[b] {
      LessTotal(t, a + 1, b + 1);
    }
  }

  lemma {:induction false} LessTransitive(t: seq<int>, a: int, b: int, c: int)
    requires 0 <= a <= |t| && 0 <= b <= |t| && 0 <= c <= |t|
    requires Less(t, a, b) && Less(t, b, c)
    ensures Less(t, a, c)
    decreases |t| - a
  {
    if a < |t| && t[a] == t[b] == t[c] {
      LessTransitive(t, a + 1, b + 1, c + 1);
    }
  }

  lemma LeqTransitive(t: seq<int>, a: int, b: int, c: int)
    requires 0 <= a <= |t| && 0 <= b <= |t| && 0 <= c <= |t|
    requires Leq(t, a, b) && Leq(t, b, c)
    ensures Leq(t, a, c)
  {
    hide Less;
    if a != b && b != c {
      LessTransitive(t, a, b, c);
    }
  }

  lemma LeqTotal(t: seq<int>, a: int, b: int)
    requires 0 <= a <= |t| && 0 <= b <= |t|
    ensures Leq(t, a, b) || Leq(t, b, a)
    ensures Leq(t, a, b) && Leq(t, b, a) ==> a == b
    ensures !Less(t, a, b) <==> Leq(t, b, a)
  {
    hide Less;
    if a != b {
      LessTotal(t, a, b);
    } else {
      LessIrreflexive(t, a);
    }
  }

  // ----- Sorted lists of positions -----

  predicate InText(t: seq<int>, ps: seq<int>) {
    forall i :: 0 <= i < |ps| ==> 0 <= ps[i] < |t|
  }

  predicate Sorted(t: seq<int>, ps: seq<int>)
    requires InText(t, ps)
  {
    forall i, j :: 0 <= i < j < |ps| ==> Leq(t, ps[i], ps[j])
  }

  lemma SortedAt(t: seq<int>, ps: seq<int>, i: int, j: int)
    requires InText(t, ps) && Sorted(t, ps) && 0 <= i <= j < |ps|
    ensures Leq(t, ps[i], ps[j])
  {
  }

  lemma SortedSlices(t: seq<int>, ps: seq<int>, k: nat)
    requires InText(t, ps) && Sorted(t, ps) && k <= |ps|
    ensures InText(t, ps[..k]) && Sorted(t, ps[..k])
    ensures InText(t, ps[k..]) && Sorted(t, ps[k..])
  {
  }

  lemma InTextPermutation(t: seq<int>, xs: seq<int>, ys: seq<int>)
    requires InText(t, xs) && multiset(xs) == multiset(ys)
    ensures InText(t, ys)
  {
    forall i | 0 <= i < |ys| ensures 0 <= ys[i] < |t| {
      assert ys[i] in multiset(xs);
    }
  }

  lemma SmallestFirst(t: seq<int>, xs: seq<int>, ys: seq<int>)
    requires InText(t, xs) && InText(t, ys) && xs != [] && ys != []
    requires Sorted(t, xs) && Sorted(t, ys) && multiset(xs) == multiset(ys)
    ensures xs[0] == ys[0]
  {
    hide Less, Leq;
    var x, y := xs[0], ys[0];
    assert x in multiset(ys) && y in multiset(xs);
    var i :| 0 <= i < |ys| && ys[i] == x;
    var j :| 0 <= j < |xs| && xs[j] == y;
    LeqTotal(t, x, y);
    SortedAt(t, ys, 0, i);
    SortedAt(t, xs, 0, j);
  }

  lemma TailMultiset(xs: seq<int>)
    requires xs != []
    ensures multiset(xs[1..]) == multiset(xs) - multiset{xs[0]}
  {
    assert xs == [xs[0]] + xs[1..];
  }

  /** A sorted arrangement is unique: two sorted lists holding the same positions are equal. */
  lemma {:induction false} SortedUnique(t: seq<int>, xs: seq<int>, ys: seq<int>)
    requires InText(t, xs) && InText(t, ys)
    requires Sorted(t, xs) && Sorted(t, ys) && multiset(xs) == multiset(ys)
    ensures xs == ys
    decreases |xs|
  {
    hide Less, Leq, Sorted, InText;
    assert |multiset(xs)| == |xs| && |multiset(ys)| == |ys|;
    if xs != [] {
      SmallestFirst(t, xs, ys);
      TailMultiset(xs);
      TailMultiset(ys);
      SortedSlices(t, xs, 1);
      SortedSlices(t, ys, 1);
      SortedUnique(t, xs[1..], ys[1..]);
      assert xs == [xs[0]] + xs[1..] && ys == [ys[0]] + ys[1..];
    }
  }

  // ----- Suffix arrays -----

  /** sa lists every position of t exactly once, in strictly increasing suffix order. */
  predicate IsSuffixArray(t: seq<int>, sa: seq<int>) {
    && |sa| == |t|
    && InText(t, sa)
    && (forall p :: 0 <= p < |t| ==> p in sa)
    && (forall i, j :: 0 <= i < j < |sa| ==> Less(t, sa[i], sa[j]))
  }

  function Iota(n: nat): (ps: seq<int>)
    ensures |ps| == n && forall i :: 0 <= i < n ==> ps[i] == i
  {
    seq(n, i => i)
  }

  lemma {:induction false} IotaMultiplicity(n: nat, p: int)
    ensures multiset(Iota(n))[p] == if 0 <= p < n then 1 else 0
    decreases n
  {
    if n > 0 {
      assert Iota(n) == Iota(n - 1) + [n - 1];
      IotaMultiplicity(n - 1, p);
    }
  }

  /** An element occurring at two places has multiplicity at least two. */
  lemma TwiceMultiplicity(s: seq<int>, i: int, j: int)
    requires 0 <= i < j < |s| && s[i] == s[j]
    ensures multiset(s)[s[i]] >= 2
  {
    assert s == s[..j] + [s[j]] + s[j + 1..];
    assert s[i] == s[..j][i];
    assert multiset(s[..j])[s[i]] >= 1;
  }

  /** A sorted rearrangement of 0 .. |t|-1 is a suffix array. */
  lemma SortedIotaIsSuffixArray(t: seq<int>, sa: seq<int>)
    requires multiset(sa) == multiset(Iota(|t|))
    requires InText(t, sa) && Sorted(t, sa)
    ensures IsSuffixArray(t, sa)
  {
    hide Less;
    assert |sa| == |multiset(sa)| == |Iota(|t|)| == |t|;
    forall p | 0 <= p < |t| ensures p in sa {
      assert Iota(|t|)[p] in multiset(sa);
    }
    forall i, j | 0 <= i < j < |sa| ensures Less(t, sa[i], sa[j]) {
      if sa[i] == sa[j] {
        TwiceMultiplicity(sa, i, j);
        IotaMultiplicity(|t|, sa[i]);
      }
      assert Leq(t, sa[i], sa[j]);
    }
  }

  lemma {:induction false} DistinctMultiset(s: seq<int>, p: int)
    requires forall i, j :: 0 <= i < j < |s| ==> s[i] != s[j]
    ensures multiset(s)[p] == if p in s then 1 else 0
  {
    if s != [] {
      var k := |s| - 1;
      assert s == s[..k] + [s[k]];
      DistinctMultiset(s[..k], p);
    }
  }

  lemma SuffixArrayIsPermutation(t: seq<int>, sa: seq<int>)
    requires IsSuffixArray(t, sa)
    ensures multiset(sa) == multiset(Iota(|t|))
    ensures Sorted(t, sa)
    ensures forall i, j :: 0 <= i < j < |sa| ==> sa[i] != sa[j]
  {
    hide Less;
    forall i, j | 0 <= i < j < |sa| ensures sa[i] != sa[j] {
      LessIrreflexive(t, sa[i]);
    }
    forall p ensures multiset(sa)[p] == multiset(Iota(|t|))[p] {
      DistinctMultiset(sa, p);
      IotaMultiplicity(|t|, p);
    }
  }

  /** The suffix array of a text is unique, so any two algorithms that produce one agree. */
  lemma SuffixArrayUnique(t: seq<int>, xs: seq<int>, ys: seq<int>)
    requires IsSuffixArray(t, xs) && IsSuffixArray(t, ys)
    ensures xs == ys
  {
    SuffixArrayIsPermutation(t, xs);
    SuffixArrayIsPermutation(t, ys);
    SortedUnique(t, xs, ys);
  }
}
