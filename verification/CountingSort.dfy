/** Stable bucket passes: what one counting-sort pass computes, why it is a permutation, why it is
    stable, and how passes over the digits of a key compose into a sort by the key.  The descriptor
    suffix array and the prefix-doubling kernel both rest on it. */
module CountingSort {

  const RADIX: nat := 256

  /** The elements of s with digit d, in the order of s. */
  ghost function Bucket<T(!new)>(s: seq<T>, f: T -> int, d: int): (r: seq<T>)
    ensures |r| <= |s|
  {
    if s == [] then []
    else
      var k := |s| - 1;
      Bucket(s[..k], f, d) + if f(s[k]) == d then [s[k]] else []
  }

  /** Buckets 0, 1, ..., n - 1 one after the other. */
  ghost function Buckets<T(!new)>(s: seq<T>, f: T -> int, n: nat): seq<T> {
    if n == 0 then [] else Buckets(s, f, n - 1) + Bucket(s, f, n - 1)
  }

  /** The outcome of one stable counting-sort pass over a byte-sized digit. */
  ghost function Pass<T(!new)>(s: seq<T>, f: T -> int): seq<T> {
    Buckets(s, f, RADIX)
  }

  ghost predicate DigitsBelow<T(!new)>(s: seq<T>, f: T -> int, n: nat) {
    forall i :: 0 <= i < |s| ==> 0 <= f(s[i]) < n
  }

  ghost predicate SortedBy<T(!new)>(s: seq<T>, g: T -> int) {
    forall i, j :: 0 <= i < j < |s| ==> g(s[i]) <= g(s[j])
  }

  // ----- Buckets -----

  lemma {:induction false} BucketConcat<T(!new)>(a: seq<T>, b: seq<T>, f: T -> int, d: int)
    ensures Bucket(a + b, f, d) == Bucket(a, f, d) + Bucket(b, f, d)
    decreases |b|
  {
    if b == [] {
      assert a + b == a;
    } else {
      var k := |b| - 1;
      BucketConcat(a, b[..k], f, d);
      assert (a + b)[..|a + b| - 1] == a + b[..k];
      assert (a + b)[|a + b| - 1] == b[k];
    }
  }

  lemma BucketSnoc<T(!new)>(s: seq<T>, i: nat, f: T -> int, d: int)
    requires i < |s|
    ensures Bucket(s[..i + 1], f, d) == Bucket(s[..i], f, d) + if f(s[i]) == d then [s[i]] else []
  {
    assert s[..i + 1][..i] == s[..i];
  }

  lemma {:induction false} BucketMultiset<T(!new)>(s: seq<T>, f: T -> int, d: int, x: T)
    ensures multiset(Bucket(s, f, d))[x] == if f(x) == d then multiset(s)[x] else 0
    decreases |s|
  {
    if s != [] {
      var k := |s| - 1;
      BucketMultiset(s[..k], f, d, x);
      assert s == s[..k] + [s[k]];
    }
  }

  /** How many elements carry a digit does not depend on the order, so a histogram taken before a
      pass is valid after it. */
  lemma BucketSize<T(!new)>(s: seq<T>, s': seq<T>, f: T -> int, d: int)
    requires multiset(s) == multiset(s')
    ensures |Bucket(s, f, d)| == |Bucket(s', f, d)|
  {
    forall x ensures multiset(Bucket(s, f, d))[x] == multiset(Bucket(s', f, d))[x] {
      BucketMultiset(s, f, d, x);
      BucketMultiset(s', f, d, x);
    }
    assert multiset(Bucket(s, f, d)) == multiset(Bucket(s', f, d));
    assert |multiset(Bucket(s, f, d))| == |Bucket(s, f, d)|;
    assert |multiset(Bucket(s', f, d))| == |Bucket(s', f, d)|;
  }

  lemma {:induction false} BucketsMultiset<T(!new)>(s: seq<T>, f: T -> int, n: nat, x: T)
    ensures multiset(Buckets(s, f, n))[x] == if 0 <= f(x) < n then multiset(s)[x] else 0
    decreases n
  {
    hide Bucket;
    if n > 0 {
      BucketsMultiset(s, f, n - 1, x);
      BucketMultiset(s, f, n - 1, x);
    }
  }

  /** A pass rearranges. */
  lemma BucketsPermutation<T(!new)>(s: seq<T>, f: T -> int, n: nat)
    requires DigitsBelow(s, f, n)
    ensures multiset(Buckets(s, f, n)) == multiset(s)
    ensures |Buckets(s, f, n)| == |s|
  {
    forall x ensures multiset(Buckets(s, f, n))[x] == multiset(s)[x] {
      BucketsMultiset(s, f, n, x);
      if x in s {
        var i :| 0 <= i < |s| && s[i] == x;
      }
    }
    assert |multiset(Buckets(s, f, n))| == |Buckets(s, f, n)| && |multiset(s)| == |s|;
  }

  lemma {:induction false} BucketsMonotone<T(!new)>(s: seq<T>, f: T -> int, m: nat, n: nat)
    requires m <= n
    ensures |Buckets(s, f, m)| <= |Buckets(s, f, n)|
    ensures Buckets(s, f, m) <= Buckets(s, f, n)
    decreases n
  {
    if m < n {
      BucketsMonotone(s, f, m, n - 1);
    }
  }

  // ----- A pass is stable and sorts by one more digit -----

  lemma {:induction false} BucketElements<T(!new)>(s: seq<T>, f: T -> int, d: int, i: nat)
    requires i < |Bucket(s, f, d)|
    ensures f(Bucket(s, f, d)[i]) == d && Bucket(s, f, d)[i] in s
    decreases |s|
  {
    var k := |s| - 1;
    if i < |Bucket(s[..k], f, d)| {
      BucketElements(s[..k], f, d, i);
    }
  }

  lemma {:induction false} BucketSorted<T(!new)>(s: seq<T>, f: T -> int, d: int, g: T -> int)
    requires SortedBy(s, g)
    ensures SortedBy(Bucket(s, f, d), g)
    decreases |s|
  {
    if s != [] {
      var k := |s| - 1;
      BucketSorted(s[..k], f, d, g);
      var r := Bucket(s[..k], f, d);
      forall i | 0 <= i < |r| ensures g(r[i]) <= g(s[k]) {
        BucketElements(s[..k], f, d, i);
        var m :| 0 <= m < k && s[..k][m] == r[i];
        assert s[m] == r[i];
      }
    }
  }

  /** The elements of Buckets(s, f, n) have digits below n and come from s. */
  lemma BucketsElements<T(!new)>(s: seq<T>, f: T -> int, n: nat, i: nat)
    requires i < |Buckets(s, f, n)|
    ensures 0 <= f(Buckets(s, f, n)[i]) < n && Buckets(s, f, n)[i] in s
  {
    var x := Buckets(s, f, n)[i];
    assert x in multiset(Buckets(s, f, n));
    BucketsMultiset(s, f, n, x);
    assert x in multiset(s);
  }

  /** One pass of a least-significant-digit-first sort: a list sorted by lo, rearranged stably by the
      digit f, is sorted by f * m + lo. */
  lemma {:induction false} PassSorts<T(!new)>(s: seq<T>, f: T -> int, lo: T -> int, hi: T -> int, m: nat, n: nat)
    requires SortedBy(s, lo)
    requires forall x :: x in s ==> 0 <= lo(x) < m && hi(x) == f(x) * m + lo(x)
    ensures SortedBy(Buckets(s, f, n), hi)
    decreases n
  {
    hide Bucket;
    if n > 0 {
      PassSorts(s, f, lo, hi, m, n - 1);
      BucketSorted(s, f, n - 1, lo);
      var a, b := Buckets(s, f, n - 1), Bucket(s, f, n - 1);
      forall i, j | 0 <= i < |a| && 0 <= j < |b| ensures hi(a[i]) <= hi(b[j]) {
        BucketsElements(s, f, n - 1, i);
        BucketElements(s, f, n - 1, j);
        DigitDecides(f(a[i]), n - 1, m, lo(a[i]), lo(b[j]));
      }
      assert SortedBy(b, hi) by {
        SameDigitSorted(s, f, lo, hi, m, n - 1);
      }
      SortedConcat(a, b, hi);
    }
  }

  lemma SameDigitSorted<T(!new)>(s: seq<T>, f: T -> int, lo: T -> int, hi: T -> int, m: nat, d: int)
    requires SortedBy(Bucket(s, f, d), lo)
    requires forall x :: x in s ==> 0 <= lo(x) < m && hi(x) == f(x) * m + lo(x)
    ensures SortedBy(Bucket(s, f, d), hi)
  {
    hide Bucket;
    var b := Bucket(s, f, d);
    forall i, j | 0 <= i < j < |b| ensures hi(b[i]) <= hi(b[j]) {
      BucketElements(s, f, d, i);
      BucketElements(s, f, d, j);
    }
  }

  lemma SortedConcat<T(!new)>(a: seq<T>, b: seq<T>, g: T -> int)
    requires SortedBy(a, g) && SortedBy(b, g)
    requires forall i, j :: 0 <= i < |a| && 0 <= j < |b| ==> g(a[i]) <= g(b[j])
    ensures SortedBy(a + b, g)
  {
  }

  lemma DigitDecides(d: int, e: int, m: nat, x: int, y: int)
    requires d < e && 0 <= x < m && 0 <= y < m
    ensures d * m + x < e * m + y
  {
    assert (d + 1) * m <= e * m;
  }

  lemma {:induction false} BucketOfBucket<T(!new)>(s: seq<T>, f: T -> int, d: int, g: T -> int, k: int, e: int)
    requires forall x :: g(x) == k ==> f(x) == e
    ensures Bucket(Bucket(s, f, d), g, k) == if d == e then Bucket(s, g, k) else []
    decreases |s|
  {
    if s != [] {
      var l := |s| - 1;
      BucketOfBucket(s[..l], f, d, g, k, e);
      BucketConcat(Bucket(s[..l], f, d), if f(s[l]) == d then [s[l]] else [], g, k);
      assert [s[l]][..0] == [];
    }
  }

  /** Stability: elements whose digit is determined by k keep their order through a pass. */
  lemma {:induction false} PassStable<T(!new)>(s: seq<T>, f: T -> int, g: T -> int, k: int, e: int, n: nat)
    requires forall x :: g(x) == k ==> f(x) == e
    ensures Bucket(Buckets(s, f, n), g, k) == if 0 <= e < n then Bucket(s, g, k) else []
    decreases n
  {
    hide Bucket;
    if n > 0 {
      PassStable(s, f, g, k, e, n - 1);
      BucketConcat(Buckets(s, f, n - 1), Bucket(s, f, n - 1), g, k);
      BucketOfBucket(s, f, n - 1, g, k, e);
    }
  }

  // ----- Scattering into place -----

  /** Where bucket d begins. */
  ghost function Start<T(!new)>(s: seq<T>, f: T -> int, d: nat): nat {
    |Buckets(s, f, d)|
  }

  /** Digit d after the first i elements were scattered: its elements so far stand at the beginning
      of its bucket, and next is the first free slot. */
  ghost predicate ScatteredAt<T(!new)>(s: seq<T>, f: T -> int, i: nat, dst: seq<T>, d: nat, next: int)
    requires i <= |s|
  {
    && next == Start(s, f, d) + |Bucket(s[..i], f, d)|
    && next <= Start(s, f, d + 1) <= |dst|
    && dst[Start(s, f, d)..next] == Bucket(s[..i], f, d)
  }

  ghost predicate Scattered<T(!new)>(s: seq<T>, f: T -> int, i: nat, dst: seq<T>, next: seq<int>)
    requires i <= |s|
  {
    && |next| == RADIX && |dst| == |s|
    && DigitsBelow(s, f, RADIX)
    && forall d :: 0 <= d < RADIX ==> ScatteredAt(s, f, i, dst, d, next[d])
  }

  lemma {:induction false} BucketPrefix<T(!new)>(s: seq<T>, f: T -> int, d: int, i: nat)
    requires i <= |s|
    ensures |Bucket(s[..i], f, d)| <= |Bucket(s, f, d)|
  {
    BucketConcat(s[..i], s[i..], f, d);
    assert s == s[..i] + s[i..];
  }

  lemma StartBounds<T(!new)>(s: seq<T>, f: T -> int, d: nat)
    requires d < RADIX && DigitsBelow(s, f, RADIX)
    ensures Start(s, f, d + 1) == Start(s, f, d) + |Bucket(s, f, d)| <= |s|
  {
    BucketsMonotone(s, f, d + 1, RADIX);
    BucketsPermutation(s, f, RADIX);
  }

  lemma ScatterStart<T(!new)>(s: seq<T>, f: T -> int, dst: seq<T>, next: seq<int>)
    requires DigitsBelow(s, f, RADIX) && |dst| == |s| && |next| == RADIX
    requires forall d :: 0 <= d < RADIX ==> next[d] == Start(s, f, d)
    ensures Scattered(s, f, 0, dst, next)
  {
    forall d | 0 <= d < RADIX ensures ScatteredAt(s, f, 0, dst, d, next[d]) {
      StartBounds(s, f, d);
    }
  }

  /** The slot the next element goes to is inside its own bucket. */
  lemma ScatterSlot<T(!new)>(s: seq<T>, f: T -> int, i: nat, dst: seq<T>, next: seq<int>)
    requires i < |s| && Scattered(s, f, i, dst, next)
    ensures 0 <= f(s[i]) < RADIX
    ensures Start(s, f, f(s[i])) <= next[f(s[i])] < Start(s, f, f(s[i]) + 1) <= |dst|
  {
    var d := f(s[i]);
    assert ScatteredAt(s, f, i, dst, d, next[d]);
    BucketSnoc(s, i, f, d);
    BucketPrefix(s, f, d, i + 1);
  }

  /** Buckets do not overlap. */
  lemma StartsDisjoint<T(!new)>(s: seq<T>, f: T -> int, c: nat, d: nat)
    requires c < d
    ensures Start(s, f, c + 1) <= Start(s, f, d)
  {
    BucketsMonotone(s, f, c + 1, d);
  }

  lemma ScatterStepAt<T(!new)>(s: seq<T>, f: T -> int, i: nat, dst: seq<T>, next: seq<int>, d: nat)
    requires i < |s| && Scattered(s, f, i, dst, next) && d < RADIX
    requires 0 <= f(s[i]) < RADIX && 0 <= next[f(s[i])] < |dst|
    ensures var e := f(s[i]);
            ScatteredAt(s, f, i + 1, dst[next[e] := s[i]], d, next[e := next[e] + 1][d])
  {
    var e := f(s[i]);
    assert ScatteredAt(s, f, i, dst, d, next[d]);
    ScatterSlot(s, f, i, dst, next);
    BucketSnoc(s, i, f, d);
    if d < e {
      StartsDisjoint(s, f, d, e);
    } else if e < d {
      StartsDisjoint(s, f, e, d);
    }
  }

  /** Writing the next element to its bucket's first free slot. */
  lemma ScatterStep<T(!new)>(s: seq<T>, f: T -> int, i: nat, dst: seq<T>, next: seq<int>)
    requires i < |s| && Scattered(s, f, i, dst, next)
    ensures 0 <= f(s[i]) < RADIX && 0 <= next[f(s[i])] < |dst|
    ensures var e := f(s[i]);
            Scattered(s, f, i + 1, dst[next[e] := s[i]], next[e := next[e] + 1])
  {
    hide ScatteredAt;
    ScatterSlot(s, f, i, dst, next);
    var e := f(s[i]);
    var dst', next' := dst[next[e] := s[i]], next[e := next[e] + 1];
    forall d | 0 <= d < RADIX ensures ScatteredAt(s, f, i + 1, dst', d, next'[d]) {
      ScatterStepAt(s, f, i, dst, next, d);
    }
  }

  /** When everything is scattered the destination is the outcome of the pass. */
  lemma ScatterDone<T(!new)>(s: seq<T>, f: T -> int, dst: seq<T>, next: seq<int>)
    requires Scattered(s, f, |s|, dst, next)
    ensures dst == Pass(s, f)
  {
    ScatteredPrefix(s, f, dst, next, RADIX);
    BucketsPermutation(s, f, RADIX);
    assert dst[..|s|] == dst;
  }

  lemma {:induction false} ScatteredPrefix<T(!new)>(s: seq<T>, f: T -> int, dst: seq<T>, next: seq<int>, n: nat)
    requires Scattered(s, f, |s|, dst, next) && n <= RADIX
    ensures |Buckets(s, f, n)| <= |dst| && dst[..|Buckets(s, f, n)|] == Buckets(s, f, n)
    decreases n
  {
    if n > 0 {
      ScatteredPrefix(s, f, dst, next, n - 1);
      assert ScatteredAt(s, f, |s|, dst, n - 1, next[n - 1]);
      assert s[..|s|] == s;
      StartBounds(s, f, n - 1);
      var a := Start(s, f, n - 1);
      assert dst[..next[n - 1]] == dst[..a] + dst[a..next[n - 1]];
    }
  }

  // ----- The slot of each element, for passes whose writes happen in any order -----

  /** Where a pass puts element i: behind the smaller digits and the earlier elements of its own. */
  ghost function Slot<T(!new)>(s: seq<T>, f: T -> int, i: nat): int
    requires i < |s| && 0 <= f(s[i])
  {
    Start(s, f, f(s[i])) + |Bucket(s[..i], f, f(s[i]))|
  }

  lemma SlotBounds<T(!new)>(s: seq<T>, f: T -> int, i: nat)
    requires i < |s| && DigitsBelow(s, f, RADIX)
    ensures Start(s, f, f(s[i])) <= Slot(s, f, i) < Start(s, f, f(s[i]) + 1) <= |s|
  {
    hide Bucket, Buckets;
    var d := f(s[i]);
    BucketSnoc(s, i, f, d);
    BucketPrefix(s, f, d, i + 1);
    StartBounds(s, f, d);
  }

  /** No two elements share a slot. */
  lemma SlotsDistinct<T(!new)>(s: seq<T>, f: T -> int, i: nat, j: nat)
    requires i < j < |s| && DigitsBelow(s, f, RADIX)
    ensures Slot(s, f, i) != Slot(s, f, j)
  {
    hide Bucket, Buckets;
    SlotBounds(s, f, i);
    SlotBounds(s, f, j);
    if f(s[i]) < f(s[j]) {
      StartsDisjoint(s, f, f(s[i]), f(s[j]));
    } else if f(s[j]) < f(s[i]) {
      StartsDisjoint(s, f, f(s[j]), f(s[i]));
    } else {
      BucketSnoc(s, i, f, f(s[i]));
      assert s[..j][..i + 1] == s[..i + 1];
      BucketPrefix(s[..j], f, f(s[i]), i + 1);
    }
  }

  /** Every slot is some element's slot. */
  lemma {:induction false} BucketIndex<T(!new)>(s: seq<T>, f: T -> int, d: int, m: nat) returns (i: nat)
    requires m < |Bucket(s, f, d)|
    ensures i < |s| && f(s[i]) == d && |Bucket(s[..i], f, d)| == m && Bucket(s, f, d)[m] == s[i]
    decreases |s|
  {
    var k := |s| - 1;
    if m < |Bucket(s[..k], f, d)| {
      i := BucketIndex(s[..k], f, d, m);
      assert s[..k][..i] == s[..i];
    } else {
      i := k;
    }
  }

  lemma {:induction false} BucketsIndex<T(!new)>(s: seq<T>, f: T -> int, n: nat, m: nat) returns (i: nat)
    requires m < |Buckets(s, f, n)|
    ensures i < |s| && 0 <= f(s[i]) && Slot(s, f, i) == m && Buckets(s, f, n)[m] == s[i]
    decreases n
  {
    hide Bucket;
    if m < |Buckets(s, f, n - 1)| {
      i := BucketsIndex(s, f, n - 1, m);
    } else {
      i := BucketIndex(s, f, n - 1, m - |Buckets(s, f, n - 1)|);
    }
  }

  /** A destination that holds every element at its slot is the outcome of the pass, in whatever
      order the elements were written. */
  lemma SlotsArePass<T(!new)>(s: seq<T>, f: T -> int, dst: seq<T>)
    requires DigitsBelow(s, f, RADIX) && |dst| == |s|
    requires forall i :: 0 <= i < |s| ==> 0 <= Slot(s, f, i) < |dst| && dst[Slot(s, f, i)] == s[i]
    ensures dst == Pass(s, f)
  {
    hide Bucket, Buckets, Slot;
    BucketsPermutation(s, f, RADIX);
    forall m | 0 <= m < |dst| ensures dst[m] == Pass(s, f)[m] {
      var i := BucketsIndex(s, f, RADIX, m);
    }
  }

  /** The elements with digit d, counted as a set of places. */
  lemma {:induction false} BucketPlaces<T(!new)>(s: seq<T>, f: T -> int, d: int)
    ensures |Bucket(s, f, d)| == |Places(s, f, d)|
    decreases |s|
  {
    if s == [] {
      assert Places(s, f, d) == {};
    } else {
      var k := |s| - 1;
      BucketPlaces(s[..k], f, d);
      assert Places(s, f, d) == Places(s[..k], f, d) + if f(s[k]) == d then {k} else {};
    }
  }

  ghost function Places<T(!new)>(s: seq<T>, f: T -> int, d: int): set<int> {
    set i | 0 <= i < |s| && f(s[i]) == d
  }
}
