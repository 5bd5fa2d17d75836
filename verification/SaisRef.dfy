/** The plain reference suffix array of internal/gpu/sa_vectors.go: a comparison insertion sort. */
module SaisRef {
  import opened Suffixes
  import opened Sorting

  /** The reference comparison: scan both suffixes until they differ or one of them ends. */
  method SuffixIsLess(text: seq<byte>, a: int, b: int) returns (less: bool)
    requires 0 <= a < |text| && 0 <= b < |text|
    ensures less == Less(text, a, b)
  {
    var n := |text|;
    var i, j := a, b;
    while i < n && j < n
      invariant a <= i <= n && b <= j <= n
      invariant Less(text, a, b) == Less(text, i, j)
    {
      if text[i] != text[j] {
        return text[i] < text[j];
      }
      i, j := i + 1, j + 1;
    }
    return i == n && j < n;
  }

  /** saisRef sorts 0 .. n-1 in place and leaves the suffix array of text. */
  method BuildReference(text: seq<byte>) returns (sa: array<int>)
    ensures fresh(sa) && IsSuffixArray(text, sa[..])
  {
    hide Less;
    var n := |text|;
    sa := new int[n](i => i);
    assert sa[..] == Iota(n);
    var i := 1;
    while i < n
      invariant n > 0 ==> 1 <= i <= n
      invariant InText(text, sa[..]) && multiset(sa[..]) == multiset(Iota(n))
      invariant n > 0 ==> Sorted(text, sa[..i])
    {
      InsertAt(text, sa, i);
      InTextPermutation(text, Iota(n), sa[..]);
      i := i + 1;
    }
    assert n > 0 ==> sa[..i] == sa[..];
    SortedIotaIsSuffixArray(text, sa[..]);
  }

  /** One round of the outer loop: sink sa[i] into the sorted prefix sa[..i] by neighbour swaps. */
  method InsertAt(text: seq<byte>, sa: array<int>, i: nat)
    requires i < sa.Length && InText(text, sa[..]) && Sorted(text, sa[..i])
    modifies sa
    ensures multiset(sa[..]) == multiset(old(sa[..]))
    ensures InText(text, sa[..]) && Sorted(text, sa[..i + 1])
  {
    hide Less, Sorted;
    SinkStart(text, sa[..], i);
    var j := i;
    var less := false;
    if j > 0 {
      less := SuffixIsLess(text, sa[j], sa[j - 1]);
    }
    while j > 0 && less
      invariant 0 <= j <= i
      invariant multiset(sa[..]) == multiset(old(sa[..]))
      invariant InText(text, sa[..]) && Sinking(text, sa[..], j, i)
      invariant j > 0 ==> less == Less(text, sa[j], sa[j - 1])
    {
      ghost var before := sa[..];
      sa[j], sa[j - 1] := sa[j - 1], sa[j];
      SinkStep(text, before, j, i, sa[..]);
      j := j - 1;
      if j > 0 {
        less := SuffixIsLess(text, sa[j], sa[j - 1]);
      }
    }
    if j > 0 {
      LeqTotal(text, sa[j], sa[j - 1]);
    }
    SinkDone(text, sa[..], j, i);
  }
}
