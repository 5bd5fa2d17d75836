/** The merge stage of the descriptor suffix array: radix-sort the records by key, then write the
    positions of each group of equal keys in suffix order. */
module V114Merge {
  import opened Suffixes
  import opened Sorting
  import opened CountingSort
  import opened V114Keys
  import opened V114Records
  import opened V114Emit

  // ----- Sorting the records by key -----

  function Digit0(r: Run): int { r.key % 0x100 }
  function Digit1(r: Run): int { r.key / 0x100 % 0x100 }
  function Digit2(r: Run): int { r.key / 0x10000 % 0x100 }
  function LowByte(r: Run): int { r.key % 0x100 }
  function LowBytes(r: Run): int { r.key % 0x10000 }
  function KeyOf(r: Run): int { r.key }
  function NoKey(r: Run): int { 0 }

  ghost predicate KeysFit(runs: seq<Run>) {
    forall i :: 0 <= i < |runs| ==> runs[i].key < 0x1000000
  }

  /** r is s sorted by key, stably: records with one key keep their order. */
  ghost predicate SortedStably(s: seq<Run>, r: seq<Run>) {
    && multiset(r) == multiset(s)
    && SortedBy(r, KeyOf)
    && forall key :: Bucket(r, KeyOf, key) == Bucket(s, KeyOf, key)
  }

  ghost predicate IsHistogram<T(!new)>(s: seq<T>, f: T -> int, counts: seq<int>) {
    && |counts| == RADIX
    && forall d :: 0 <= d < RADIX ==> counts[d] == |Bucket(s, f, d)|
  }

  lemma HistogramSnoc<T(!new)>(s: seq<T>, i: nat, f: T -> int, counts: seq<int>)
    requires i < |s| && IsHistogram(s[..i], f, counts) && 0 <= f(s[i]) < RADIX
    ensures IsHistogram(s[..i + 1], f, counts[f(s[i]) := counts[f(s[i])] + 1])
  {
    var counts' := counts[f(s[i]) := counts[f(s[i])] + 1];
    forall d | 0 <= d < RADIX ensures counts'[d] == |Bucket(s[..i + 1], f, d)| {
      BucketSnoc(s, i, f, d);
    }
  }

  /** The three histograms, taken in one scan of the unsorted records. */
  method CountDigits(runs: array<Run>) returns (counts0: array<int>, counts1: array<int>, counts2: array<int>)
    ensures fresh(counts0) && fresh(counts1) && fresh(counts2)
    ensures counts0 != counts1 && counts0 != counts2 && counts1 != counts2
    ensures IsHistogram(runs[..], Digit0, counts0[..])
    ensures IsHistogram(runs[..], Digit1, counts1[..])
    ensures IsHistogram(runs[..], Digit2, counts2[..])
  {
    hide IsHistogram, Bucket;
    counts0, counts1, counts2 := new int[RADIX](i => 0), new int[RADIX](i => 0), new int[RADIX](i => 0);
    EmptyHistogram(counts0[..], Digit0);
    EmptyHistogram(counts1[..], Digit1);
    EmptyHistogram(counts2[..], Digit2);
    assert runs[..0] == [];
    var i := 0;
    while i < runs.Length
      invariant 0 <= i <= runs.Length
      invariant IsHistogram(runs[..i], Digit0, counts0[..])
      invariant IsHistogram(runs[..i], Digit1, counts1[..])
      invariant IsHistogram(runs[..i], Digit2, counts2[..])
    {
      CountOne(runs, i, Digit0, counts0);
      CountOne(runs, i, Digit1, counts1);
      CountOne(runs, i, Digit2, counts2);
      i := i + 1;
    }
    assert runs[..i] == runs[..];
  }

  lemma EmptyHistogram<T(!new)>(counts: seq<int>, f: T -> int)
    requires |counts| == RADIX && forall d :: 0 <= d < RADIX ==> counts[d] == 0
    ensures IsHistogram([], f, counts)
  {
  }

  method CountOne<T(!new)>(runs: array<T>, i: nat, digit: T -> int, counts: array<int>)
    requires i < runs.Length && 0 <= digit(runs[i]) < RADIX
    requires IsHistogram(runs[..i], digit, counts[..]) && counts as object != runs
    modifies counts
    ensures IsHistogram(runs[..i + 1], digit, counts[..])
  {
    hide Bucket;
    HistogramSnoc(runs[..], i, digit, counts[..]);
    assert runs[..][..i] == runs[..i] && runs[..][..i + 1] == runs[..i + 1];
    counts[digit(runs[i])] := counts[digit(runs[i])] + 1;
  }

  /** From counts to bucket beginnings. */
  method PrefixSums<T(!new)>(counts: array<int>, ghost s: seq<T>, ghost f: T -> int)
    requires IsHistogram(s, f, counts[..])
    modifies counts
    ensures counts.Length == RADIX && forall d :: 0 <= d < RADIX ==> counts[d] == Start(s, f, d)
  {
    hide Bucket;
    var sum := 0;
    var i := 0;
    while i < RADIX
      invariant 0 <= i <= RADIX && sum == Start(s, f, i)
      invariant forall d :: 0 <= d < i ==> counts[d] == Start(s, f, d)
      invariant forall d :: i <= d < RADIX ==> counts[d] == |Bucket(s, f, d)|
    {
      var c := counts[i];
      counts[i] := sum;
      sum := sum + c;
      i := i + 1;
    }
  }

  /** One byte pass from src to dst; counts holds the digit's histogram. */
  method RadixPass<T(!new)>(src: array<T>, dst: array<T>, digit: T -> int, counts: array<int>)
    requires src != dst && src.Length == dst.Length && counts as object != src && counts as object != dst
    requires DigitsBelow(src[..], digit, RADIX) && IsHistogram(src[..], digit, counts[..])
    modifies dst, counts
    ensures dst[..] == Pass(src[..], digit)
  {
    hide Bucket, Scattered, IsHistogram, Buckets;
    ghost var s := src[..];
    PrefixSums(counts, s, digit);
    ScatterStart(s, digit, dst[..], counts[..]);
    var i := 0;
    while i < src.Length
      invariant 0 <= i <= src.Length && src[..] == s
      invariant Scattered(s, digit, i, dst[..], counts[..])
    {
      ScatterStep(s, digit, i, dst[..], counts[..]);
      var r := src[i];
      ghost var d0, c0 := dst[..], counts[..];
      dst[counts[digit(r)]] := r;
      counts[digit(r)] := counts[digit(r)] + 1;
      assert dst[..] == d0[c0[digit(r)] := r] && counts[..] == c0[digit(r) := c0[digit(r)] + 1];
      i := i + 1;
    }
    ScatterDone(s, digit, dst[..], counts[..]);
  }

  /** radixSortRunsByStoredKey: three passes, ping-ponging between two buffers. */
  method RadixSortRunsByStoredKey(v: V114Scratch)
    requires KeysFit(v.runs)
    modifies v
    ensures v.arena == old(v.arena) && SortedStably(old(v.runs), v.runs)
  {
    hide Bucket, IsHistogram, SortedStably;
    ghost var s := v.runs;
    var n := |v.runs|;
    if n <= 1 {
      SortedStablyShort(s);
      return;
    }
    var runs := new Run[n](i requires 0 <= i < n reads v => if i < |v.runs| then v.runs[i] else Run(0, 0));
    var tmp := new Run[n](i => Run(0, 0));
    assert runs[..] == s;
    var counts0, counts1, counts2 := CountDigits(runs);
    RadixPass(runs, tmp, Digit0, counts0);
    HistogramAfterPass(s, Digit0, Digit1, counts1[..]);
    RadixPass(tmp, runs, Digit1, counts1);
    HistogramAfterPass(s, Digit0, Digit2, counts2[..]);
    HistogramAfterPass(Pass(s, Digit0), Digit1, Digit2, counts2[..]);
    RadixPass(runs, tmp, Digit2, counts2);
    v.runs := tmp[..];
    ThreePassesSort(s);
  }

  lemma SortedStablyShort(s: seq<Run>)
    requires |s| <= 1
    ensures SortedStably(s, s)
  {
  }

  lemma HistogramAfterPass(s: seq<Run>, f: Run -> int, g: Run -> int, counts: seq<int>)
    requires DigitsBelow(s, f, RADIX) && IsHistogram(s, g, counts)
    ensures IsHistogram(Pass(s, f), g, counts)
  {
    hide Bucket;
    BucketsPermutation(s, f, RADIX);
    forall d | 0 <= d < RADIX ensures counts[d] == |Bucket(Pass(s, f), g, d)| {
      BucketSize(s, Pass(s, f), g, d);
    }
  }

  /** Sorting by the lowest byte, then the middle one, then the highest one sorts by the key. */
  lemma ThreePassesSort(s: seq<Run>)
    requires KeysFit(s)
    ensures SortedStably(s, Pass(Pass(Pass(s, Digit0), Digit1), Digit2))
  {
    hide Bucket, Buckets;
    var s1 := Pass(s, Digit0);
    var s2 := Pass(s1, Digit1);
    var s3 := Pass(s2, Digit2);
    BucketsPermutation(s, Digit0, RADIX);
    BucketsPermutation(s1, Digit1, RADIX);
    BucketsPermutation(s2, Digit2, RADIX);
    ThreePassesSorted(s, s1, s2, s3);
    forall key ensures Bucket(s3, KeyOf, key) == Bucket(s, KeyOf, key) {
      ThreePassesStable(s, key);
    }
  }

  lemma ThreePassesSorted(s: seq<Run>, s1: seq<Run>, s2: seq<Run>, s3: seq<Run>)
    requires KeysFit(s)
    requires s1 == Pass(s, Digit0) && s2 == Pass(s1, Digit1) && s3 == Pass(s2, Digit2)
    requires multiset(s1) == multiset(s) && multiset(s2) == multiset(s) && multiset(s3) == multiset(s)
    ensures SortedBy(s3, KeyOf)
  {
    hide Bucket, Buckets;
    assert SortedBy(s, NoKey);
    PassSorts(s, Digit0, NoKey, LowByte, 1, RADIX);
    forall r | r in s1 ensures 0 <= LowByte(r) < 0x100 && LowBytes(r) == Digit1(r) * 0x100 + LowByte(r) {
      KeyBytes(r.key);
    }
    PassSorts(s1, Digit1, LowByte, LowBytes, 0x100, RADIX);
    forall r | r in s2 ensures 0 <= LowBytes(r) < 0x10000 && KeyOf(r) == Digit2(r) * 0x10000 + LowBytes(r) {
      assert r in multiset(s);
      KeyBytes(r.key);
    }
    PassSorts(s2, Digit2, LowBytes, KeyOf, 0x10000, RADIX);
  }

  lemma KeyBytes(key: nat)
    ensures key % 0x10000 == key / 0x100 % 0x100 * 0x100 + key % 0x100
    ensures key < 0x1000000 ==> key == key / 0x10000 % 0x100 * 0x10000 + key % 0x10000
  {
  }

  lemma ThreePassesStable(s: seq<Run>, key: int)
    requires KeysFit(s)
    ensures Bucket(Pass(Pass(Pass(s, Digit0), Digit1), Digit2), KeyOf, key) == Bucket(s, KeyOf, key)
  {
    hide Bucket, Buckets;
    if key >= 0 {
      PassStable(s, Digit0, KeyOf, key, key % 0x100, RADIX);
      PassStable(Pass(s, Digit0), Digit1, KeyOf, key, key / 0x100 % 0x100, RADIX);
      PassStable(Pass(Pass(s, Digit0), Digit1), Digit2, KeyOf, key, key / 0x10000 % 0x100, RADIX);
    } else {
      NegativeBucket(s, key);
      NegativeBucket(Pass(Pass(Pass(s, Digit0), Digit1), Digit2), key);
    }
  }

  lemma {:induction false} NegativeBucket(s: seq<Run>, key: int)
    requires key < 0
    ensures Bucket(s, KeyOf, key) == []
  {
    if s != [] {
      NegativeBucket(s[..|s| - 1], key);
    }
  }

  // ----- Merging two sorted lists -----

  /** l entries of left and r entries of right have been merged into w. */
  ghost predicate Merging(t: seq<int>, left: seq<int>, right: seq<int>, l: nat, r: nat, w: seq<int>) {
    && InText(t, left) && InText(t, right) && InText(t, w)
    && Sorted(t, left) && Sorted(t, right) && Sorted(t, w)
    && l <= |left| && r <= |right|
    && multiset(w) == multiset(left[..l]) + multiset(right[..r])
    && (forall i, k :: 0 <= i < |w| && l <= k < |left| ==> Leq(t, w[i], left[k]))
    && (forall i, k :: 0 <= i < |w| && r <= k < |right| ==> Leq(t, w[i], right[k]))
  }

  lemma MergeStart(t: seq<int>, left: seq<int>, right: seq<int>)
    requires InText(t, left) && InText(t, right) && Sorted(t, left) && Sorted(t, right)
    ensures Merging(t, left, right, 0, 0, [])
  {
    assert left[..0] == [] && right[..0] == [];
  }

  lemma MergeBounds(t: seq<int>, left: seq<int>, right: seq<int>, l: nat, r: nat, w: seq<int>)
    requires Merging(t, left, right, l, r, w)
    ensures l <= |left| && r <= |right| && |w| == l + r
    ensures l < |left| ==> 0 <= left[l] < |t|
    ensures r < |right| ==> 0 <= right[r] < |t|
  {
    assert |multiset(w)| == |left[..l]| + |right[..r]|;
  }

  lemma MergeLeft(t: seq<int>, left: seq<int>, right: seq<int>, l: nat, r: nat, w: seq<int>)
    requires Merging(t, left, right, l, r, w) && l < |left|
    requires r < |right| ==> Leq(t, left[l], right[r])
    ensures Merging(t, left, right, l + 1, r, w + [left[l]])
  {
    hide Less;
    var w' := w + [left[l]];
    assert left[..l + 1] == left[..l] + [left[l]];
    forall i, k | 0 <= i < |w'| && r <= k < |right| ensures Leq(t, w'[i], right[k]) {
      if i == |w| && r < k {
        LeqTransitive(t, left[l], right[r], right[k]);
      }
    }
  }

  lemma MergeRight(t: seq<int>, left: seq<int>, right: seq<int>, l: nat, r: nat, w: seq<int>)
    requires Merging(t, left, right, l, r, w) && r < |right|
    requires l < |left| ==> Leq(t, right[r], left[l])
    ensures Merging(t, left, right, l, r + 1, w + [right[r]])
  {
    hide Less;
    var w' := w + [right[r]];
    assert right[..r + 1] == right[..r] + [right[r]];
    forall i, k | 0 <= i < |w'| && l <= k < |left| ensures Leq(t, w'[i], left[k]) {
      if i == |w| && l < k {
        LeqTransitive(t, right[r], left[l], left[k]);
      }
    }
  }

  /** Once one list is exhausted the rest of the other follows. */
  lemma MergeFinish(t: seq<int>, left: seq<int>, right: seq<int>, l: nat, r: nat, w: seq<int>)
    requires Merging(t, left, right, l, r, w) && (l == |left| || r == |right|)
    ensures InText(t, left + right) && w + left[l..] + right[r..] == SortPositions(t, left + right)
    decreases |left| - l + |right| - r
  {
    hide Less, SortPositions, Merging;
    if l < |left| {
      MergeBounds(t, left, right, l, r, w);
      MergeLeft(t, left, right, l, r, w);
      MergeFinish(t, left, right, l + 1, r, w + [left[l]]);
      assert left[l..] == [left[l]] + left[l + 1..];
      assert w + [left[l]] + left[l + 1..] == w + left[l..];
    } else if r < |right| {
      MergeBounds(t, left, right, l, r, w);
      MergeRight(t, left, right, l, r, w);
      MergeFinish(t, left, right, l, r + 1, w + [right[r]]);
      assert left[l..] == [];
      assert w + [right[r]] + left[l..] + right[r + 1..] == w + left[l..] + right[r..];
    } else {
      MergeBounds(t, left, right, l, r, w);
      MergeDone(t, left, right, w);
      assert w + left[l..] + right[r..] == w;
    }
  }

  lemma MergeDone(t: seq<int>, left: seq<int>, right: seq<int>, w: seq<int>)
    requires Merging(t, left, right, |left|, |right|, w)
    ensures InText(t, left + right) && w == SortPositions(t, left + right)
  {
    hide Less, SortPositions;
    assert left[..|left|] == left && right[..|right|] == right;
    SortedIsSortPositions(t, left + right, w);
  }

  // ----- Groups of equal keys -----

  /** suffixLessAfterKey. */
  predicate SuffixLessAfterKey(v: View, a: int, b: int)
    requires v.Valid() && 0 <= a < v.logicalLen && 0 <= b < v.logicalLen
  {
    var cmp := CompareAfterKey(v, a, b);
    if cmp != 0 then cmp < 0 else a < b
  }

  /** All of ps are positions of suffixes with the given stored key. */
  ghost predicate KeyGroup(v: View, ps: seq<int>, key: int)
    requires v.Valid()
  {
    InText(v.Text(), ps) && forall i :: 0 <= i < |ps| ==> StoredKey(v, ps[i]) == key
  }

  /** Within a group of equal keys the abbreviated comparison is the suffix order. */
  lemma LessAfterKey(v: View, a: int, b: int)
    requires v.Valid() && 0 <= a < v.logicalLen && 0 <= b < v.logicalLen
    requires StoredKey(v, a) == StoredKey(v, b)
    ensures SuffixLessAfterKey(v, a, b) <==> Less(v.Text(), a, b)
    ensures !SuffixLessAfterKey(v, a, b) <==> Leq(v.Text(), b, a)
  {
    hide Less, CompareAfterKey, StoredKey;
    CompareAfterKeySign(v, a, b);
    LeqTotal(v.Text(), a, b);
    LeqTotal(v.Text(), b, a);
    LessIrreflexive(v.Text(), a);
  }

  lemma KeyGroupPermutation(v: View, xs: seq<int>, ys: seq<int>, key: int)
    requires v.Valid() && KeyGroup(v, xs, key) && multiset(xs) == multiset(ys)
    ensures KeyGroup(v, ys, key)
  {
    hide StoredKey;
    InTextPermutation(v.Text(), xs, ys);
    forall i | 0 <= i < |ys| ensures StoredKey(v, ys[i]) == key {
      assert ys[i] in multiset(xs);
      var k :| 0 <= k < |xs| && xs[k] == ys[i];
    }
  }

  lemma KeyGroupSlice(v: View, ps: seq<int>, key: int, i: nat, j: nat)
    requires v.Valid() && KeyGroup(v, ps, key) && i <= j <= |ps|
    ensures KeyGroup(v, ps[i..j], key)
  {
  }

  /** mergeSortedPositionsAfterKey: merge src[leftBegin..leftEnd] and src[leftEnd..rightEnd] into dst. */
  method MergeSortedPositionsAfterKey(view: View, src: array<int>, leftBegin: nat, leftEnd: nat, rightEnd: nat,
                                      dst: array<int>, dstBegin: nat, ghost key: int)
    requires view.Valid() && src != dst && leftBegin <= leftEnd <= rightEnd <= src.Length
    requires dstBegin + (rightEnd - leftBegin) <= dst.Length
    requires KeyGroup(view, src[leftBegin..leftEnd], key) && KeyGroup(view, src[leftEnd..rightEnd], key)
    requires Sorted(view.Text(), src[leftBegin..leftEnd]) && Sorted(view.Text(), src[leftEnd..rightEnd])
    modifies dst
    ensures InText(view.Text(), src[leftBegin..rightEnd])
    ensures dst[..dstBegin + (rightEnd - leftBegin)]
         == old(dst[..dstBegin]) + SortPositions(view.Text(), src[leftBegin..rightEnd])
  {
    hide Less, Sorted, Merging, SortPositions, StoredKey, SuffixLessAfterKey;
    ghost var s, before := src[..], dst[..dstBegin];
    assert src[leftBegin..leftEnd] == s[leftBegin..leftEnd] && src[leftEnd..rightEnd] == s[leftEnd..rightEnd];
    var left, right, out;
    ghost var w;
    left, right, out, w := MergeWhileBoth(view, src, leftBegin, leftEnd, rightEnd, dst, dstBegin, key);
    out := CopyRest(src, left, leftEnd, dst, out);
    out := CopyRest(src, right, rightEnd, dst, out);
    assert src[..] == s;
    MergedSlices(view.Text(), s, leftBegin, leftEnd, rightEnd, left, right, before, w);
    assert src[leftBegin..rightEnd] == s[leftBegin..rightEnd];
    assert src[left..leftEnd] == s[left..leftEnd] && src[right..rightEnd] == s[right..rightEnd];
  }

  /** MergeFinish for two adjacent stretches of one list. */
  lemma MergedSlices(t: seq<int>, s: seq<int>, leftBegin: nat, leftEnd: nat, rightEnd: nat, left: nat, right: nat,
                     before: seq<int>, w: seq<int>)
    requires leftBegin <= left <= leftEnd <= right <= rightEnd <= |s| && (left == leftEnd || right == rightEnd)
    requires Merging(t, s[leftBegin..leftEnd], s[leftEnd..rightEnd], left - leftBegin, right - leftEnd, w)
    ensures InText(t, s[leftBegin..rightEnd])
    ensures before + w + s[left..leftEnd] + s[right..rightEnd] == before + SortPositions(t, s[leftBegin..rightEnd])
  {
    hide Less, Sorted, Merging, SortPositions;
    var l, r := s[leftBegin..leftEnd], s[leftEnd..rightEnd];
    MergeFinish(t, l, r, left - leftBegin, right - leftEnd, w);
    assert l[left - leftBegin..] == s[left..leftEnd] && r[right - leftEnd..] == s[right..rightEnd];
    assert l + r == s[leftBegin..rightEnd];
    ConcatAssociative(before, w, s[left..leftEnd], s[right..rightEnd]);
  }

  lemma ConcatAssociative(a: seq<int>, b: seq<int>, c: seq<int>, d: seq<int>)
    ensures a + b + c + d == a + (b + c + d)
  {
  }

  /** The merge loop proper: it ends when one of the lists is exhausted. */
  method MergeWhileBoth(view: View, src: array<int>, leftBegin: nat, leftEnd: nat, rightEnd: nat,
                        dst: array<int>, dstBegin: nat, ghost key: int)
    returns (left: nat, right: nat, out: nat, ghost w: seq<int>)
    requires view.Valid() && src != dst && leftBegin <= leftEnd <= rightEnd <= src.Length
    requires dstBegin + (rightEnd - leftBegin) <= dst.Length
    requires KeyGroup(view, src[leftBegin..leftEnd], key) && KeyGroup(view, src[leftEnd..rightEnd], key)
    requires Sorted(view.Text(), src[leftBegin..leftEnd]) && Sorted(view.Text(), src[leftEnd..rightEnd])
    modifies dst
    ensures leftBegin <= left <= leftEnd <= right <= rightEnd && (left == leftEnd || right == rightEnd)
    ensures out == dstBegin + (left - leftBegin) + (right - leftEnd) && dst[..out] == old(dst[..dstBegin]) + w
    ensures Merging(view.Text(), src[leftBegin..leftEnd], src[leftEnd..rightEnd], left - leftBegin, right - leftEnd, w)
  {
    hide Less, Sorted, Merging, StoredKey, SuffixLessAfterKey;
    ghost var t, l, r := view.Text(), src[leftBegin..leftEnd], src[leftEnd..rightEnd];
    ghost var before := dst[..dstBegin];
    w := [];
    left, right, out := leftBegin, leftEnd, dstBegin;
    MergeStart(t, l, r);
    while left < leftEnd && right < rightEnd
      invariant leftBegin <= left <= leftEnd <= right <= rightEnd
      invariant out == dstBegin + (left - leftBegin) + (right - leftEnd) && out == dstBegin + |w|
      invariant dst[..out] == before + w
      invariant Merging(t, l, r, left - leftBegin, right - leftEnd, w)
    {
      var lpos, rpos := src[left], src[right];
      assert lpos == l[left - leftBegin] && rpos == r[right - leftEnd];
      LessAfterKey(view, lpos, rpos);
      if SuffixLessAfterKey(view, lpos, rpos) {
        dst[out] := lpos;
        MergeLeft(t, l, r, left - leftBegin, right - leftEnd, w);
        w := w + [lpos];
        left := left + 1;
      } else {
        dst[out] := rpos;
        MergeRight(t, l, r, left - leftBegin, right - leftEnd, w);
        w := w + [rpos];
        right := right + 1;
      }
      out := out + 1;
    }
  }

  /** Copy src[from..to] to dst at out. */
  method CopyRest(src: array<int>, from: nat, to: nat, dst: array<int>, out0: nat) returns (out: nat)
    requires src != dst && from <= to <= src.Length && out0 + (to - from) <= dst.Length
    modifies dst
    ensures out == out0 + (to - from) && dst[..out] == old(dst[..out0]) + src[from..to]
  {
    ghost var before := dst[..out0];
    var i := from;
    out := out0;
    while i < to
      invariant from <= i <= to && out == out0 + (i - from)
      invariant dst[..out] == before + src[from..i]
    {
      dst[out] := src[i];
      i := i + 1;
      out := out + 1;
    }
  }

  // ----- Writing one group of equal keys -----

  /** Sound records that all carry the given key. */
  ghost predicate Group(v: View, arena: seq<int>, runs: seq<Run>, key: int)
    requires v.Valid()
  {
    RunsOk(v, arena, runs) && forall i :: 0 <= i < |runs| ==> runs[i].key == key
  }

  lemma {:induction false} GroupKeys(v: View, arena: seq<int>, runs: seq<Run>, key: int)
    requires v.Valid() && Group(v, arena, runs, key)
    ensures KeyGroup(v, Expand(v, arena, runs), key)
    decreases |runs|
  {
    hide StoredKey, Less;
    if runs != [] {
      var k := |runs| - 1;
      assert RunOk(v, arena, runs[k]);
      GroupKeys(v, arena, runs[..k], key);
    }
  }

  /** fusedRunPos. */
  function FusedRunPos(arena: seq<int>, r: Run, rel: nat): int
    requires InArena(arena, r) && rel < r.Count()
    ensures FusedRunPos(arena, r, rel) == Positions(arena, r)[rel]
  {
    if r.IsLiteral() then r.Begin() else arena[r.Begin() + rel]
  }

  lemma {:induction false} ExpandLiterals(v: View, arena: seq<int>, runs: seq<Run>)
    requires v.Valid() && RunsOk(v, arena, runs)
    requires forall i :: 0 <= i < |runs| ==> runs[i].IsLiteral()
    ensures |Expand(v, arena, runs)| == |runs|
    ensures forall i :: 0 <= i < |runs| ==> Expand(v, arena, runs)[i] == runs[i].Begin()
    decreases |runs|
  {
    hide RunOk;
    if runs != [] {
      var k := |runs| - 1;
      assert RunOk(v, arena, runs[k]);
      ExpandLiterals(v, arena, runs[..k]);
    }
  }

  /** tryWriteLiteralGroup: up to 32 literals are insertion-sorted on the stack. */
  method TryWriteLiteralGroup(view: View, ghost arena: seq<int>, runs: seq<Run>, sa: array<int>, outPos0: nat, ghost key: int)
    returns (outPos: nat, handled: bool)
    requires view.Valid() && Group(view, arena, runs, key)
    requires outPos0 + |Expand(view, arena, runs)| <= sa.Length
    modifies sa
    ensures handled <==> 0 < |runs| <= 32 && forall i :: 0 <= i < |runs| ==> runs[i].IsLiteral()
    ensures handled ==> outPos == outPos0 + |Expand(view, arena, runs)|
    ensures handled ==>
              sa[..outPos] == old(sa[..outPos0]) + SortPositions(view.Text(), Expand(view, arena, runs))
    ensures !handled ==> outPos == outPos0 && sa[..] == old(sa[..])
  {
    hide Less, SortPositions, StoredKey, RunOk, Expand, Group, RunsOk;
    var count := |runs|;
    if count == 0 || count > 32 {
      return outPos0, false;
    }
    var positions := new int[count];
    var i := 0;
    while i < count
      invariant 0 <= i <= count && sa[..] == old(sa[..])
      invariant forall k :: 0 <= k < i ==> runs[k].IsLiteral() && positions[k] == runs[k].Begin()
    {
      if !runs[i].IsLiteral() {
        return outPos0, false;
      }
      positions[i] := runs[i].Begin();
      i := i + 1;
    }
    assert RunsOk(view, arena, runs) by { GroupRunsOk(view, arena, runs, key); }
    ExpandLiterals(view, arena, runs);
    GroupKeys(view, arena, runs, key);
    assert positions[..] == Expand(view, arena, runs);
    SortPositionsAfterKey(view, positions, key);
    outPos := CopyRest(positions, 0, count, sa, outPos0);
    assert positions[0..count] == positions[..];
    handled := true;
  }

  lemma GroupRunsOk(v: View, arena: seq<int>, runs: seq<Run>, key: int)
    requires v.Valid() && Group(v, arena, runs, key)
    ensures RunsOk(v, arena, runs)
  {
  }

  /** The insertion sort of tryWriteLiteralGroup. */
  method SortPositionsAfterKey(view: View, positions: array<int>, ghost key: int)
    requires view.Valid() && KeyGroup(view, positions[..], key)
    modifies positions
    ensures positions[..] == SortPositions(view.Text(), old(positions[..]))
  {
    hide Less, SortPositions, StoredKey;
    ghost var s0 := positions[..];
    var i := 1;
    while i < positions.Length
      invariant positions.Length > 0 ==> 1 <= i <= positions.Length
      invariant multiset(positions[..]) == multiset(s0) && KeyGroup(view, positions[..], key)
      invariant positions.Length > 0 ==> Sorted(view.Text(), positions[..i])
    {
      SinkAfterKey(view, positions, i, key);
      i := i + 1;
    }
    assert positions.Length > 0 ==> positions[..i] == positions[..];
    SortedIsSortPositions(view.Text(), s0, positions[..]);
  }

  method SinkAfterKey(view: View, positions: array<int>, i: nat, ghost key: int)
    requires view.Valid() && i < positions.Length && KeyGroup(view, positions[..], key)
    requires Sorted(view.Text(), positions[..i])
    modifies positions
    ensures multiset(positions[..]) == multiset(old(positions[..])) && KeyGroup(view, positions[..], key)
    ensures Sorted(view.Text(), positions[..i + 1])
  {
    hide Less, Sorted, SuffixLessAfterKey, StoredKey, Gap, KeyGroup;
    ghost var t, s0 := view.Text(), positions[..];
    assert InText(t, s0) by { KeyGroupAt(view, s0, key, i); }
    GapStart(t, s0, i);
    var pos := positions[i];
    var j := i;
    ghost var s := positions[..];
    assert s == s[i := pos];
    GapKeys(view, s0, s, j, i, key);
    while j > 0 && SuffixLessAfterKey(view, pos, positions[j - 1])
      invariant 0 <= j <= i && s == positions[..][j := pos]
      invariant Gap(t, s0, s, j, i)
      invariant 0 <= pos < |t| && (j > 0 ==> 0 <= positions[j - 1] < |t|)
      invariant j > 0 ==> StoredKey(view, pos) == StoredKey(view, positions[j - 1])
    {
      LessAfterKey(view, pos, positions[j - 1]);
      ghost var before := s;
      positions[j] := positions[j - 1];
      s := positions[..][j - 1 := pos];
      assert s == before[j := before[j - 1]][j - 1 := before[j]];
      GapStep(t, s0, before, j, i, s);
      j := j - 1;
      GapKeys(view, s0, s, j, i, key);
    }
    if j > 0 {
      LessAfterKey(view, pos, positions[j - 1]);
    }
    positions[j] := pos;
    assert positions[..] == s;
    GapDone(t, s0, s, j, i);
    KeyGroupPermutation(view, s0, s, key);
  }

  lemma KeyGroupAt(view: View, ps: seq<int>, key: int, i: nat)
    requires view.Valid() && KeyGroup(view, ps, key) && i < |ps|
    ensures InText(view.Text(), ps) && StoredKey(view, ps[i]) == key
  {
  }

  lemma GapKeys(view: View, s0: seq<int>, s: seq<int>, j: nat, i: nat, key: int)
    requires view.Valid() && KeyGroup(view, s0, key) && Gap(view.Text(), s0, s, j, i)
    ensures |s| == |s0| && 0 <= s[j] < view.logicalLen && (j > 0 ==> 0 <= s[j - 1] < view.logicalLen)
    ensures j > 0 ==> StoredKey(view, s[j]) == StoredKey(view, s[j - 1])
  {
    hide StoredKey, Less;
    KeyGroupPermutation(view, s0, s, key);
  }

  /** tryWriteTwoRuns: exactly two records are merged straight into sa. */
  method TryWriteTwoRuns(view: View, arena: seq<int>, runs: seq<Run>, sa: array<int>, outPos0: nat, ghost key: int)
    returns (outPos: nat, handled: bool)
    requires view.Valid() && Group(view, arena, runs, key)
    requires outPos0 + |Expand(view, arena, runs)| <= sa.Length
    modifies sa
    ensures handled <==> |runs| == 2
    ensures handled ==> outPos == outPos0 + |Expand(view, arena, runs)|
    ensures handled ==>
              sa[..outPos] == old(sa[..outPos0]) + SortPositions(view.Text(), Expand(view, arena, runs))
    ensures !handled ==> outPos == outPos0 && sa[..] == old(sa[..])
  {
    hide Less, SortPositions, StoredKey, Expand, Merging, Positions, Sorted;
    if |runs| != 2 {
      return outPos0, false;
    }
    var left, right := runs[0], runs[1];
    TwoRuns(view, arena, runs, key);
    ghost var l, r, before := Positions(arena, left), Positions(arena, right), sa[..outPos0];
    var leftRel, rightRel;
    ghost var w;
    leftRel, rightRel, outPos, w := MergeRunsWhileBoth(view, arena, left, right, sa, outPos0, key);
    ConcatAssociative(before, w, l[leftRel..], r[rightRel..]);
    MergeFinish(view.Text(), l, r, leftRel, rightRel, w);
    outPos := CopyRun(arena, left, leftRel, sa, outPos);
    outPos := CopyRun(arena, right, rightRel, sa, outPos);
    handled := true;
  }

  lemma TwoRuns(view: View, arena: seq<int>, runs: seq<Run>, key: int)
    requires view.Valid() && Group(view, arena, runs, key) && |runs| == 2
    ensures InArena(arena, runs[0]) && InArena(arena, runs[1])
    ensures Expand(view, arena, runs) == Positions(arena, runs[0]) + Positions(arena, runs[1])
    ensures KeyGroup(view, Positions(arena, runs[0]), key) && Sorted(view.Text(), Positions(arena, runs[0]))
    ensures KeyGroup(view, Positions(arena, runs[1]), key) && Sorted(view.Text(), Positions(arena, runs[1]))
  {
    hide StoredKey, Less, Expand;
    assert RunOk(view, arena, runs[0]) && RunOk(view, arena, runs[1]);
    ExpandSingle(view, arena, runs[0]);
    ExpandSingle(view, arena, runs[1]);
    ExpandConcat(view, arena, [runs[0]], [runs[1]]);
    assert runs == [runs[0]] + [runs[1]];
  }

  /** The merge loop of tryWriteTwoRuns. */
  method MergeRunsWhileBoth(view: View, arena: seq<int>, left: Run, right: Run, sa: array<int>, outPos0: nat, ghost key: int)
    returns (leftRel: nat, rightRel: nat, outPos: nat, ghost w: seq<int>)
    requires view.Valid() && InArena(arena, left) && InArena(arena, right)
    requires KeyGroup(view, Positions(arena, left), key) && Sorted(view.Text(), Positions(arena, left))
    requires KeyGroup(view, Positions(arena, right), key) && Sorted(view.Text(), Positions(arena, right))
    requires outPos0 + left.Count() + right.Count() <= sa.Length
    modifies sa
    ensures leftRel <= left.Count() && rightRel <= right.Count()
    ensures leftRel == left.Count() || rightRel == right.Count()
    ensures outPos == outPos0 + leftRel + rightRel && sa[..outPos] == old(sa[..outPos0]) + w
    ensures Merging(view.Text(), Positions(arena, left), Positions(arena, right), leftRel, rightRel, w)
  {
    hide Less, Sorted, Merging, StoredKey, SuffixLessAfterKey, Positions;
    ghost var t, l, r := view.Text(), Positions(arena, left), Positions(arena, right);
    ghost var before := sa[..outPos0];
    w := [];
    leftRel, rightRel, outPos := 0, 0, outPos0;
    MergeStart(t, l, r);
    while leftRel < left.Count() && rightRel < right.Count()
      invariant leftRel <= left.Count() && rightRel <= right.Count()
      invariant outPos == outPos0 + leftRel + rightRel && outPos == outPos0 + |w|
      invariant sa[..outPos] == before + w
      invariant Merging(t, l, r, leftRel, rightRel, w)
    {
      var lpos, rpos := FusedRunPos(arena, left, leftRel), FusedRunPos(arena, right, rightRel);
      LessAfterKey(view, lpos, rpos);
      if SuffixLessAfterKey(view, lpos, rpos) {
        sa[outPos] := lpos;
        MergeLeft(t, l, r, leftRel, rightRel, w);
        w := w + [lpos];
        leftRel := leftRel + 1;
      } else {
        sa[outPos] := rpos;
        MergeRight(t, l, r, leftRel, rightRel, w);
        w := w + [rpos];
        rightRel := rightRel + 1;
      }
      outPos := outPos + 1;
    }
  }

  /** Copy the positions of r from rel0 on. */
  method CopyRun(arena: seq<int>, r: Run, rel0: nat, sa: array<int>, outPos0: nat) returns (outPos: nat)
    requires InArena(arena, r) && rel0 <= r.Count() && outPos0 + (r.Count() - rel0) <= sa.Length
    modifies sa
    ensures outPos == outPos0 + (r.Count() - rel0)
    ensures sa[..outPos] == old(sa[..outPos0]) + Positions(arena, r)[rel0..]
  {
    hide Positions;
    ghost var ps, before := Positions(arena, r), sa[..outPos0];
    var rel := rel0;
    outPos := outPos0;
    while rel < r.Count()
      invariant rel0 <= rel <= r.Count() && outPos == outPos0 + (rel - rel0)
      invariant sa[..outPos] == before + ps[rel0..rel]
    {
      sa[outPos] := FusedRunPos(arena, r, rel);
      rel := rel + 1;
      outPos := outPos + 1;
    }
    assert ps[rel0..rel] == ps[rel0..];
  }

  // ----- The k-way merge -----

  function Sum(lens: seq<nat>): nat {
    if lens == [] then 0 else Sum(lens[..|lens| - 1]) + lens[|lens| - 1]
  }

  /** s is cut into consecutive sorted blocks of the given lengths. */
  ghost predicate Blocks(t: seq<int>, s: seq<int>, lens: seq<nat>)
    decreases |lens|
  {
    if lens == [] then s == []
    else
      var k := |lens| - 1;
      && lens[k] <= |s| && InText(t, s)
      && Sorted(t, s[|s| - lens[k]..])
      && Blocks(t, s[..|s| - lens[k]], lens[..k])
  }

  lemma BlocksSnoc(t: seq<int>, s: seq<int>, lens: seq<nat>, block: seq<int>)
    requires Blocks(t, s, lens) && InText(t, s) && InText(t, block) && Sorted(t, block)
    ensures Blocks(t, s + block, lens + [|block|])
  {
    hide Less, Sorted;
    var s', lens' := s + block, lens + [|block|];
    assert s'[|s'| - |block|..] == block && s'[..|s'| - |block|] == s;
    assert lens'[..|lens|] == lens;
  }

  lemma {:induction false} BlocksSum(t: seq<int>, s: seq<int>, lens: seq<nat>)
    requires Blocks(t, s, lens)
    ensures |s| == Sum(lens) && InText(t, s)
    decreases |lens|
  {
    hide Less, Sorted;
    if lens != [] {
      var k := |lens| - 1;
      BlocksSum(t, s[..|s| - lens[k]], lens[..k]);
    }
  }

  /** The block at index i, and the blocks before it. */
  lemma {:induction false} BlockAt(t: seq<int>, s: seq<int>, lens: seq<nat>, i: nat)
    requires Blocks(t, s, lens) && i < |lens| && InText(t, s)
    ensures Sum(lens[..i]) + lens[i] == Sum(lens[..i + 1]) <= |s|
    ensures Sorted(t, s[Sum(lens[..i])..Sum(lens[..i + 1])])
    decreases |lens|
  {
    hide Less, Sorted;
    var k := |lens| - 1;
    assert lens[..i + 1][..i] == lens[..i];
    BlocksSum(t, s, lens);
    assert lens[..k + 1] == lens;
    if i < k {
      var s' := s[..|s| - lens[k]];
      BlockAt(t, s', lens[..k], i);
      assert lens[..k][..i] == lens[..i] && lens[..k][..i + 1] == lens[..i + 1];
      assert s'[Sum(lens[..i])..Sum(lens[..i + 1])] == s[Sum(lens[..i])..Sum(lens[..i + 1])];
    } else {
      assert s[Sum(lens[..i])..Sum(lens[..i + 1])] == s[|s| - lens[k]..];
    }
  }

  /** A round of pairwise merges after i blocks: dst holds a rearrangement of what was read, cut into
      sorted blocks of lengths next. */
  ghost predicate Merged(view: View, s: seq<int>, d: seq<int>, next: seq<nat>, key: int)
    requires view.Valid()
  {
    && KeyGroup(view, d, key)
    && multiset(d) == multiset(s)
    && Blocks(view.Text(), d, next)
  }

  /** The output grows by one sorted rearrangement of the next stretch of the input. */
  lemma MergedSnoc(view: View, s: seq<int>, d: seq<int>, next: seq<nat>, key: int, x: seq<int>, block: seq<int>)
    requires view.Valid() && Merged(view, s, d, next, key)
    requires KeyGroup(view, x, key) && multiset(block) == multiset(x)
    requires InText(view.Text(), block) && Sorted(view.Text(), block)
    ensures Merged(view, s + x, d + block, next + [|x|], key)
  {
    hide Less, Sorted, Blocks, StoredKey;
    KeyGroupPermutation(view, x, block, key);
    BlocksSnoc(view.Text(), d, next, block);
    assert |multiset(block)| == |block| && |multiset(x)| == |x|;
  }

  lemma ArraySlice(a: array<int>, n: nat, i: nat, j: nat)
    requires i <= j <= n <= a.Length
    ensures a[..n][i..j] == a[i..j]
  {
  }

  lemma SliceJoin(s: seq<int>, i: nat, j: nat)
    requires i <= j <= |s|
    ensures s[..i] + s[i..j] == s[..j]
  {
  }

  lemma SliceMiddle(s: seq<int>, i: nat, j: nat, k: nat)
    requires i <= j <= k <= |s|
    ensures s[i..j] + s[j..k] == s[i..k]
  {
  }

  /** One round of mergeEqualKeyRuns. */
  method MergeRound(view: View, src: array<int>, dst: array<int>, n: nat, runLens: seq<nat>, ghost key: int)
    returns (nextLens: seq<nat>)
    requires view.Valid() && src != dst && n <= src.Length && n <= dst.Length
    requires KeyGroup(view, src[..n], key) && Blocks(view.Text(), src[..n], runLens)
    modifies dst
    ensures Merged(view, src[..n], dst[..n], nextLens, key)
    ensures |nextLens| == (|runLens| + 1) / 2
  {
    hide Less, Sorted, Blocks, StoredKey, KeyGroup, Merged, Sum;
    ghost var s := src[..n];
    nextLens := [];
    var base, i := 0, 0;
    MergedStart(view, s, key);
    BlocksBounds(view, s, runLens, 0);
    assert dst[..0] == [] == s[..0];
    while i < |runLens|
      invariant i % 2 == 0 || i == |runLens|
      invariant 0 <= i <= |runLens| && |nextLens| == (i + 1) / 2
      invariant base == Sum(runLens[..i]) <= n == |s|
      invariant Merged(view, s[..base], dst[..base], nextLens, key)
    {
      var leftLen := runLens[i];
      ghost var d := dst[..base];
      BlocksBounds(view, s, runLens, i);
      BlockOf(view, s, runLens, i, key);
      if i + 1 == |runLens| {
        ghost var block := s[base..base + leftLen];
        ArraySlice(src, n, base, base + leftLen);
        var end := CopyRest(src, base, base + leftLen, dst, base);
        MergedSnoc(view, s[..base], d, nextLens, key, block, block);
        SliceJoin(s, base, base + leftLen);
        nextLens := nextLens + [leftLen];
        base := base + leftLen;
        i := i + 1;
      } else {
        var rightLen := runLens[i + 1];
        BlocksBounds(view, s, runLens, i + 1);
        BlockOf(view, s, runLens, i + 1, key);
        MergeBlocks(view, src, dst, n, base, leftLen, rightLen, nextLens, key);
        nextLens := nextLens + [leftLen + rightLen];
        base := base + leftLen + rightLen;
        i := i + 2;
      }
    }
    BlocksBounds(view, s, runLens, i);
    assert runLens[..i] == runLens && s[..base] == s;
  }

  /** Merge the two blocks at base. */
  method MergeBlocks(view: View, src: array<int>, dst: array<int>, n: nat, base: nat, leftLen: nat, rightLen: nat,
                     ghost nextLens: seq<nat>, ghost key: int)
    requires view.Valid() && src != dst && base + leftLen + rightLen <= n <= src.Length && n <= dst.Length
    requires var s := src[..n];
             && KeyGroup(view, s[base..base + leftLen], key) && Sorted(view.Text(), s[base..base + leftLen])
             && KeyGroup(view, s[base + leftLen..base + leftLen + rightLen], key)
             && Sorted(view.Text(), s[base + leftLen..base + leftLen + rightLen])
             && Merged(view, s[..base], dst[..base], nextLens, key)
    modifies dst
    ensures var end := base + leftLen + rightLen;
            Merged(view, src[..n][..end], dst[..end], nextLens + [leftLen + rightLen], key)
  {
    hide Less, Leq, Sorted, Blocks, StoredKey, KeyGroup, Merged, SortPositions, InText;
    ghost var s, d := src[..n], dst[..base];
    var mid, end := base + leftLen, base + leftLen + rightLen;
    ghost var x := s[base..end];
    ArraySlice(src, n, base, mid);
    ArraySlice(src, n, mid, end);
    ArraySlice(src, n, base, end);
    MergeSortedPositionsAfterKey(view, src, base, mid, end, dst, base, key);
    KeyGroupConcat(view, s[base..mid], s[mid..end], key);
    SliceMiddle(s, base, mid, end);
    SliceJoin(s, base, end);
    SortPositionsSorted(view.Text(), x);
    MergedSnoc(view, s[..base], d, nextLens, key, x, SortPositions(view.Text(), x));
  }

  lemma KeyGroupConcat(view: View, a: seq<int>, b: seq<int>, key: int)
    requires view.Valid() && KeyGroup(view, a, key) && KeyGroup(view, b, key)
    ensures KeyGroup(view, a + b, key) && InText(view.Text(), a + b)
  {
  }

  lemma MergedStart(view: View, s: seq<int>, key: int)
    requires view.Valid()
    ensures Merged(view, [], [], [], key)
  {
  }

  lemma BlocksBounds(view: View, s: seq<int>, lens: seq<nat>, i: nat)
    requires view.Valid() && Blocks(view.Text(), s, lens) && i <= |lens|
    ensures Sum(lens) == |s| && Sum([]) == 0
    ensures Sum(lens[..i]) <= |s|
    ensures lens[..0] == []
    ensures i < |lens| ==> Sum(lens[..i]) + lens[i] == Sum(lens[..i + 1]) <= |s|
  {
    hide Less, Sorted, Blocks;
    BlocksSum(view.Text(), s, lens);
    if i < |lens| {
      BlockAt(view.Text(), s, lens, i);
    } else {
      assert lens[..i] == lens;
    }
  }

  lemma BlockOf(view: View, s: seq<int>, lens: seq<nat>, i: nat, key: int)
    requires view.Valid() && Blocks(view.Text(), s, lens) && i < |lens| && KeyGroup(view, s, key)
    requires Sum(lens[..i]) + lens[i] == Sum(lens[..i + 1]) <= |s|
    ensures var block := s[Sum(lens[..i])..Sum(lens[..i + 1])];
            KeyGroup(view, block, key) && Sorted(view.Text(), block) && InText(view.Text(), block)
  {
    hide Less, Sorted, Blocks, StoredKey;
    BlockAt(view.Text(), s, lens, i);
    KeyGroupSlice(view, s, key, Sum(lens[..i]), Sum(lens[..i + 1]));
  }

  /** mergeEqualKeyRuns: rounds of pairwise merges between the two buffers until one block is left;
      the result ends in groupPos, whichever buffer the last round wrote. */
  method MergeEqualKeyRuns(view: View, groupPos: array<int>, mergePos: array<int>, n: nat, runLens0: seq<nat>, ghost key: int)
    requires view.Valid() && groupPos != mergePos && n <= groupPos.Length && n <= mergePos.Length
    requires KeyGroup(view, groupPos[..n], key) && Blocks(view.Text(), groupPos[..n], runLens0)
    modifies groupPos, mergePos
    ensures groupPos[..n] == SortPositions(view.Text(), old(groupPos[..n]))
  {
    hide Less, Sorted, StoredKey, KeyGroup, Merged, SortPositions;
    ghost var s := groupPos[..n];
    MergedReflexive(view, s, runLens0, key);
    var runLens := runLens0;
    if |runLens| <= 1 {
      OneBlock(view, s, s, runLens, key);
      return;
    }
    var src, dst := groupPos, mergePos;
    var fromGroupPos := true;
    while |runLens| > 1
      invariant (src == groupPos && dst == mergePos && fromGroupPos) || (src == mergePos && dst == groupPos && !fromGroupPos)
      invariant |runLens| >= 1 && Merged(view, s, src[..n], runLens, key)
      decreases |runLens|
    {
      MergedParts(view, s, src[..n], runLens, key);
      var nextLens := MergeRound(view, src, dst, n, runLens, key);
      MergedTransitive(view, s, src[..n], dst[..n], nextLens, key);
      runLens := nextLens;
      src, dst := dst, src;
      fromGroupPos := !fromGroupPos;
    }
    OneBlock(view, s, src[..n], runLens, key);
    if !fromGroupPos {
      var end := CopyRest(src, 0, n, groupPos, 0);
      assert src[0..n] == src[..n];
    }
  }

  lemma MergedReflexive(view: View, s: seq<int>, lens: seq<nat>, key: int)
    requires view.Valid() && KeyGroup(view, s, key) && Blocks(view.Text(), s, lens)
    ensures Merged(view, s, s, lens, key)
    ensures InText(view.Text(), s)
  {
  }

  lemma MergedParts(view: View, s: seq<int>, d: seq<int>, lens: seq<nat>, key: int)
    requires view.Valid() && Merged(view, s, d, lens, key)
    ensures KeyGroup(view, d, key) && Blocks(view.Text(), d, lens) && multiset(d) == multiset(s)
  {
  }

  lemma MergedTransitive(view: View, s: seq<int>, d: seq<int>, d': seq<int>, lens: seq<nat>, key: int)
    requires view.Valid() && multiset(d) == multiset(s) && Merged(view, d, d', lens, key)
    ensures Merged(view, s, d', lens, key)
  {
  }

  lemma OneBlock(view: View, s: seq<int>, d: seq<int>, lens: seq<nat>, key: int)
    requires view.Valid() && Merged(view, s, d, lens, key) && |lens| <= 1 && InText(view.Text(), s)
    ensures d == SortPositions(view.Text(), s)
  {
    hide Less, StoredKey, SortPositions;
    if |lens| == 1 {
      assert Blocks(view.Text(), d[..|d| - lens[0]], lens[..0]);
      assert lens[..0] == [];
      assert d[|d| - lens[0]..] == d;
    }
    assert Sorted(view.Text(), d);
    SortedIsSortPositions(view.Text(), s, d);
  }

  // ----- Writing the suffix array -----

  /** The records before k have been written: sa[..outPos] is their positions, sorted. */
  ghost predicate Written(view: View, arena: seq<int>, runs: seq<Run>, k: nat, out: seq<int>)
    requires view.Valid()
  {
    && RunsOk(view, arena, runs) && k <= |runs| && RunsOk(view, arena, runs[..k])
    && out == SortPositions(view.Text(), Expand(view, arena, runs[..k]))
  }

  /** The positions of records with keys below key are smaller suffixes than a group with that key. */
  lemma {:induction false} KeysBelow(view: View, arena: seq<int>, runs: seq<Run>, key: int, p: int)
    requires view.Valid() && RunsOk(view, arena, runs)
    requires forall i :: 0 <= i < |runs| ==> runs[i].key < key
    requires p in Expand(view, arena, runs)
    ensures 0 <= p < view.logicalLen && StoredKey(view, p) < key
    decreases |runs|
  {
    hide StoredKey, Less;
    if runs != [] {
      var k := |runs| - 1;
      assert RunOk(view, arena, runs[k]);
      if p in Positions(arena, runs[k]) {
        var i :| 0 <= i < runs[k].Count() && Positions(arena, runs[k])[i] == p;
      } else {
        KeysBelow(view, arena, runs[..k], key, p);
      }
    }
  }

  /** Writing the group k .. end, all of whose keys exceed the keys written before. */
  lemma WriteGroup(view: View, arena: seq<int>, runs: seq<Run>, k: nat, end: nat, out: seq<int>)
    requires view.Valid() && Written(view, arena, runs, k, out) && k < end <= |runs|
    requires SortedBy(runs, KeyOf) && Group(view, arena, runs[k..end], runs[k].key)
    requires k > 0 ==> runs[k - 1].key != runs[k].key
    ensures Written(view, arena, runs, end, out + SortPositions(view.Text(), Expand(view, arena, runs[k..end])))
  {
    hide Less, SortPositions, StoredKey, RunOk, Expand;
    var t, key := view.Text(), runs[k].key;
    var a, b := Expand(view, arena, runs[..k]), Expand(view, arena, runs[k..end]);
    assert runs[..end] == runs[..k] + runs[k..end];
    ExpandConcat(view, arena, runs[..k], runs[k..end]);
    var x, y := SortPositions(t, a), SortPositions(t, b);
    SortPositionsSorted(t, a);
    SortPositionsSorted(t, b);
    GroupKeys(view, arena, runs[k..end], key);
    forall i, j | 0 <= i < |x| && 0 <= j < |y| ensures Leq(t, x[i], y[j]) {
      assert x[i] in multiset(a) && y[j] in multiset(b);
      assert forall m :: 0 <= m < k ==> KeyOf(runs[m]) <= KeyOf(runs[k - 1]) <= KeyOf(runs[k]);
      KeysBelow(view, arena, runs[..k], key, x[i]);
      KeyGroupPermutation(view, b, y, key);
      SmallerKeySmallerSuffix(view, x[i], y[j]);
    }
    SortedIsSortPositions(t, Expand(view, arena, runs[..end]), x + y);
  }

  /** The end of the group of equal keys that begins at groupStart. */
  method FindRunGroup(runs: seq<Run>, groupStart: nat) returns (groupEnd: nat)
    requires groupStart < |runs|
    ensures groupStart < groupEnd <= |runs|
    ensures forall i :: groupStart <= i < groupEnd ==> runs[i].key == runs[groupStart].key
    ensures groupEnd < |runs| ==> runs[groupEnd - 1].key != runs[groupEnd].key
  {
    groupEnd := groupStart + 1;
    while groupEnd < |runs| && runs[groupEnd].key == runs[groupStart].key
      invariant groupStart < groupEnd <= |runs|
      invariant forall i :: groupStart <= i < groupEnd ==> runs[i].key == runs[groupStart].key
    {
      groupEnd := groupEnd + 1;
    }
  }

  /** The fallback for any other group: expand all positions and merge the runs bottom-up. */
  method WriteByMerging(view: View, arena: seq<int>, runs: seq<Run>, sa: array<int>, saLen: nat, outPos0: nat, ghost key: int)
    returns (outPos: nat, ok: bool)
    requires view.Valid() && Group(view, arena, runs, key)
    requires outPos0 <= saLen <= sa.Length
    modifies sa
    ensures ok <==> outPos0 + |Expand(view, arena, runs)| <= saLen
    ensures ok ==> outPos == outPos0 + |Expand(view, arena, runs)|
    ensures ok ==> sa[..outPos] == old(sa[..outPos0]) + SortPositions(view.Text(), Expand(view, arena, runs))
  {
    hide Less, SortPositions, StoredKey, RunOk, Expand, Blocks, Sorted;
    var positions, runLens := ExpandGroup(view, arena, runs, key);
    var n := |positions|;
    GroupKeys(view, arena, runs, key);
    var groupPos := new int[n](i requires 0 <= i < n => positions[i]);
    var mergePos := new int[n];
    assert groupPos[..n] == positions;
    MergeEqualKeyRuns(view, groupPos, mergePos, n, runLens, key);
    if outPos0 + n > saLen {
      return outPos0, false;
    }
    outPos := CopyRest(groupPos, 0, n, sa, outPos0);
    assert groupPos[0..n] == groupPos[..n];
    ok := true;
  }

  /** The positions of a group, record after record, and the lengths of the records. */
  method ExpandGroup(view: View, arena: seq<int>, runs: seq<Run>, ghost key: int) returns (positions: seq<int>, runLens: seq<nat>)
    requires view.Valid() && Group(view, arena, runs, key)
    ensures positions == Expand(view, arena, runs)
    ensures Blocks(view.Text(), positions, runLens)
  {
    hide Less, StoredKey, Expand, Blocks, Sorted, Positions;
    positions, runLens := [], [];
    EmptyExpansion(view, arena);
    assert runs[..0] == [];
    var i := 0;
    while i < |runs|
      invariant 0 <= i <= |runs| && RunsOk(view, arena, runs[..i])
      invariant positions == Expand(view, arena, runs[..i])
      invariant Blocks(view.Text(), positions, runLens)
    {
      assert RunOk(view, arena, runs[i]);
      var count := runs[i].Count();
      ghost var before := positions;
      var rel := 0;
      while rel < count
        invariant 0 <= rel <= count
        invariant positions == before + Positions(arena, runs[i])[..rel]
      {
        positions := positions + [FusedRunPos(arena, runs[i], rel)];
        rel := rel + 1;
      }
      assert Positions(arena, runs[i])[..rel] == Positions(arena, runs[i]);
      ExpandSingle(view, arena, runs[i]);
      ExpandConcat(view, arena, runs[..i], [runs[i]]);
      assert runs[..i + 1] == runs[..i] + [runs[i]];
      BlocksSnoc(view.Text(), before, runLens, Positions(arena, runs[i]));
      runLens := runLens + [count];
      i := i + 1;
    }
    assert runs[..i] == runs;
  }

  lemma EmptyExpansion(view: View, arena: seq<int>)
    requires view.Valid()
    ensures RunsOk(view, arena, []) && Expand(view, arena, []) == [] && Blocks(view.Text(), [], [])
  {
  }

  /** Write one group of records with equal keys at outPos0.  Declines only when sa is too short. */
  method WriteRunGroup(view: View, arena: seq<int>, group: seq<Run>, sa: array<int>, saLen: nat, outPos0: nat, ghost key: int)
    returns (outPos: nat, ok: bool)
    requires view.Valid() && Group(view, arena, group, key) && group != []
    requires outPos0 + |Expand(view, arena, group)| <= saLen <= sa.Length
    modifies sa
    ensures ok && outPos == outPos0 + |Expand(view, arena, group)|
    ensures sa[..outPos] == old(sa[..outPos0]) + SortPositions(view.Text(), Expand(view, arena, group))
  {
    hide Less, SortPositions, StoredKey, Expand;
    if |group| == 1 {
      var r0 := group[0];
      assert RunOk(view, arena, r0) && group == [r0];
      ExpandSingle(view, arena, r0);
      SortedIsSortPositions(view.Text(), Positions(arena, r0), Positions(arena, r0));
      outPos, ok := WriteSingleRun(arena, r0, sa, saLen, outPos0);
    } else {
      var handled;
      outPos, handled := TryWriteLiteralGroup(view, arena, group, sa, outPos0, key);
      if !handled {
        outPos, handled := TryWriteTwoRuns(view, arena, group, sa, outPos, key);
        if !handled {
          assert sa[..outPos0] == old(sa[..outPos0]);
          outPos, ok := WriteByMerging(view, arena, group, sa, saLen, outPos, key);
          return;
        }
        assert old(sa[..])[..outPos0] == old(sa[..outPos0]);
      }
      ok := true;
    }
  }

  /** A single record: a literal, or a stretch of the arena copied in bulk. */
  method WriteSingleRun(arena: seq<int>, r0: Run, sa: array<int>, saLen: nat, outPos0: nat) returns (outPos: nat, ok: bool)
    requires InArena(arena, r0) && outPos0 <= saLen <= sa.Length
    modifies sa
    ensures ok <==> outPos0 + r0.Count() <= saLen
    ensures ok ==> outPos == outPos0 + r0.Count() && sa[..outPos] == old(sa[..outPos0]) + Positions(arena, r0)
  {
    outPos := outPos0;
    if r0.IsLiteral() {
      if outPos >= saLen {
        return outPos, false;
      }
      assert r0.packed == r0.Begin();
      sa[outPos] := r0.packed;
      outPos := outPos + 1;
    } else {
      if outPos + r0.Count() > saLen {
        return outPos, false;
      }
      outPos := CopyRun(arena, r0, 0, sa, outPos);
      assert Positions(arena, r0)[0..] == Positions(arena, r0);
    }
    ok := true;
  }

  /** writeFusedRunsToSA: all positions the records stand for, in suffix order.  Succeeds exactly when
      they fill sa. */
  method WriteFusedRunsToSA(view: View, v: V114Scratch, sa: array<int>, saLen: nat) returns (ok: bool)
    requires view.Valid() && RunsOk(view, v.arena, v.runs) && KeysFit(v.runs)
    requires |Expand(view, v.arena, v.runs)| <= saLen <= sa.Length
    modifies v, sa
    ensures ok <==> |Expand(view, old(v.arena), old(v.runs))| == saLen
    ensures sa[..|Expand(view, old(v.arena), old(v.runs))|]
         == SortPositions(view.Text(), Expand(view, old(v.arena), old(v.runs)))
  {
    hide Less, SortPositions, StoredKey, RunOk, Expand, SortedStably, KeysFit;
    ghost var runs0, arena := v.runs, v.arena;
    RadixSortRunsByStoredKey(v);
    var runs := v.runs;
    SortedRuns(view, arena, runs0, runs);
    var n := |runs|;
    var groupStart, outPos := 0, 0;
    WrittenStart(view, arena, runs);
    assert sa[..0] == [];
    while groupStart < n
      invariant 0 <= groupStart <= n && 0 <= outPos <= saLen && v.arena == arena
      invariant Written(view, arena, runs, groupStart, sa[..outPos])
      invariant 0 < groupStart < n ==> runs[groupStart - 1].key != runs[groupStart].key
    {
      var groupEnd := FindRunGroup(runs, groupStart);
      ghost var out := sa[..outPos];
      ghost var group := runs[groupStart..groupEnd];
      GroupFits(view, arena, runs, groupStart, groupEnd, out);
      WriteGroup(view, arena, runs, groupStart, groupEnd, out);
      outPos, ok := WriteRunGroup(view, v.arena, runs[groupStart..groupEnd], sa, saLen, outPos, runs[groupStart].key);
      if !ok {
        return;
      }
      groupStart := groupEnd;
    }
    AllWritten(view, arena, runs0, runs, sa[..outPos]);
    ok := outPos == saLen;
  }

  lemma SortedRuns(view: View, arena: seq<int>, runs0: seq<Run>, runs: seq<Run>)
    requires view.Valid() && RunsOk(view, arena, runs0) && SortedStably(runs0, runs)
    ensures RunsOk(view, arena, runs) && SortedBy(runs, KeyOf)
    ensures multiset(Expand(view, arena, runs)) == multiset(Expand(view, arena, runs0))
    ensures |Expand(view, arena, runs)| == |Expand(view, arena, runs0)|
  {
    hide RunOk, Expand;
    RunsOkPermutation(view, arena, runs0, runs);
    ExpandPermutation(view, arena, runs0, runs);
    var a, b := Expand(view, arena, runs), Expand(view, arena, runs0);
    assert |multiset(a)| == |a| && |multiset(b)| == |b|;
  }

  lemma WrittenStart(view: View, arena: seq<int>, runs: seq<Run>)
    requires view.Valid() && RunsOk(view, arena, runs)
    ensures Written(view, arena, runs, 0, [])
  {
    EmptyExpansion(view, arena);
    assert runs[..0] == [];
  }

  /** A maximal stretch of equal keys is a group, and its positions still fit. */
  lemma GroupFits(view: View, arena: seq<int>, runs: seq<Run>, k: nat, end: nat, out: seq<int>)
    requires view.Valid() && Written(view, arena, runs, k, out) && k < end <= |runs|
    requires forall i :: k <= i < end ==> runs[i].key == runs[k].key
    ensures Group(view, arena, runs[k..end], runs[k].key)
    ensures |out| + |Expand(view, arena, runs[k..end])| <= |Expand(view, arena, runs)|
  {
    hide Less, SortPositions, RunOk, Expand;
    RunsOkSlices(view, arena, runs, end);
    RunsOkSlices(view, arena, runs[..end], k);
    assert runs[..end][..k] == runs[..k] && runs[..end][k..] == runs[k..end];
  }

  lemma AllWritten(view: View, arena: seq<int>, runs0: seq<Run>, runs: seq<Run>, out: seq<int>)
    requires view.Valid() && Written(view, arena, runs, |runs|, out) && RunsOk(view, arena, runs0)
    requires multiset(Expand(view, arena, runs)) == multiset(Expand(view, arena, runs0))
    ensures out == SortPositions(view.Text(), Expand(view, arena, runs0))
  {
    hide Less, SortPositions, RunOk, Expand;
    assert runs[..|runs|] == runs;
    SortPositionsPermutation(view.Text(), Expand(view, arena, runs), Expand(view, arena, runs0));
  }
}
