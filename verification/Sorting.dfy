/** Sorting positions by the suffixes they name: the sorted arrangement as a function, and the
    states of the insertion sorts and of the heap sort that the repository runs in place. */
module Sorting {
  import opened Suffixes

  // ----- The sorted arrangement -----

  ghost function Insert(t: seq<int>, p: int, ps: seq<int>): (r: seq<int>)
    requires 0 <= p < |t| && InText(t, ps)
    ensures multiset(r) == multiset(ps) + multiset{p} && InText(t, r)
  {
    if ps == [] || Leq(t, p, ps[0]) then [p] + ps
    else
      assert ps == [ps[0]] + ps[1..];
      [ps[0]] + Insert(t, p, ps[1..])
  }

  /** The positions ps in increasing suffix order. */
  ghost function SortPositions(t: seq<int>, ps: seq<int>): (r: seq<int>)
    requires InText(t, ps)
    ensures multiset(r) == multiset(ps) && InText(t, r) && |r| == |ps|
  {
    if ps == [] then []
    else
      assert ps == [ps[0]] + ps[1..];
      var r := Insert(t, ps[0], SortPositions(t, ps[1..]));
      assert |multiset(r)| == |multiset(ps)|;
      r
  }

  lemma {:induction false} InsertSorted(t: seq<int>, p: int, ps: seq<int>)
    requires 0 <= p < |t| && InText(t, ps) && Sorted(t, ps)
    ensures Sorted(t, Insert(t, p, ps))
    decreases |ps|
  {
    hide Less;
    var r := Insert(t, p, ps);
    if ps == [] {
    } else if Leq(t, p, ps[0]) {
      forall j | 0 <= j < |ps| ensures Leq(t, p, ps[j]) {
        LeqTransitive(t, p, ps[0], ps[j]);
      }
    } else {
      InsertSorted(t, p, ps[1..]);
      LeqTotal(t, p, ps[0]);
      var rest := Insert(t, p, ps[1..]);
      forall j | 0 <= j < |rest| ensures Leq(t, ps[0], rest[j]) {
        assert rest[j] in multiset(ps[1..]) + multiset{p};
      }
    }
  }

  lemma {:induction false} SortPositionsSorted(t: seq<int>, ps: seq<int>)
    requires InText(t, ps)
    ensures Sorted(t, SortPositions(t, ps))
    decreases |ps|
  {
    if ps != [] {
      SortPositionsSorted(t, ps[1..]);
      InsertSorted(t, ps[0], SortPositions(t, ps[1..]));
    }
  }

  /** Any sorted list of the same positions is the sorted arrangement. */
  lemma SortedIsSortPositions(t: seq<int>, ps: seq<int>, r: seq<int>)
    requires InText(t, ps) && InText(t, r) && Sorted(t, r) && multiset(r) == multiset(ps)
    ensures r == SortPositions(t, ps)
  {
    hide Less, SortPositions;
    SortPositionsSorted(t, ps);
    SortedUnique(t, r, SortPositions(t, ps));
  }

  lemma SortPositionsPermutation(t: seq<int>, ps: seq<int>, qs: seq<int>)
    requires InText(t, ps) && InText(t, qs) && multiset(ps) == multiset(qs)
    ensures SortPositions(t, ps) == SortPositions(t, qs)
  {
    hide Less, SortPositions;
    SortPositionsSorted(t, ps);
    SortedIsSortPositions(t, qs, SortPositions(t, ps));
  }

  // ----- Insertion sort: one element sinking into a sorted prefix -----

  /** s[..i + 1] is sorted but for the entry at j, which is no greater than anything after it. */
  ghost predicate Sinking(t: seq<int>, s: seq<int>, j: int, i: int)
    requires 0 <= j <= i < |s| && InText(t, s)
  {
    && (forall x, y :: 0 <= x < y <= i && x != j && y != j ==> Leq(t, s[x], s[y]))
    && (forall y :: j <= y <= i ==> Leq(t, s[j], s[y]))
  }

  lemma SinkStart(t: seq<int>, s: seq<int>, i: int)
    requires 0 <= i < |s| && InText(t, s) && Sorted(t, s[..i])
    ensures Sinking(t, s, i, i)
  {
    forall x, y | 0 <= x < y < i ensures Leq(t, s[x], s[y]) {
      SortedAt(t, s[..i], x, y);
    }
  }

  lemma SinkStep(t: seq<int>, s: seq<int>, j: int, i: int, s': seq<int>)
    requires 0 < j <= i < |s| && InText(t, s) && Sinking(t, s, j, i)
    requires Leq(t, s[j], s[j - 1])
    requires s' == s[j := s[j - 1]][j - 1 := s[j]]
    ensures multiset(s') == multiset(s)
    ensures InText(t, s') && Sinking(t, s', j - 1, i)
  {
    hide Less, Leq;
    assert Leq(t, s[j], s[j]);
    assert s'[j - 1] == s[j] && s'[j] == s[j - 1];
    assert forall x :: 0 <= x < |s| && x != j && x != j - 1 ==> s'[x] == s[x];
  }

  lemma SinkDone(t: seq<int>, s: seq<int>, j: int, i: int)
    requires 0 <= j <= i < |s| && InText(t, s) && Sinking(t, s, j, i)
    requires j > 0 ==> Leq(t, s[j - 1], s[j])
    ensures Sorted(t, s[..i + 1])
  {
    hide Less;
    forall x, y | 0 <= x < y <= i ensures Leq(t, s[x], s[y]) {
      if y == j && x < j - 1 {
        LeqTransitive(t, s[x], s[j - 1], s[j]);
      }
    }
  }

  // The same, for the insertion sorts that move entries up over a gap: s is the array with the
  // sinking element written at the gap j, s0 the array before the round.

  ghost predicate Gap(t: seq<int>, s0: seq<int>, s: seq<int>, j: int, i: int) {
    && 0 <= j <= i < |s| == |s0|
    && InText(t, s)
    && multiset(s) == multiset(s0)
    && Sinking(t, s, j, i)
  }

  lemma GapAt(t: seq<int>, s0: seq<int>, s: seq<int>, j: int, i: int)
    requires Gap(t, s0, s, j, i)
    ensures |s| == |s0| && 0 <= s[j] < |t| && (j > 0 ==> 0 <= s[j - 1] < |t|)
  {
  }

  lemma GapStart(t: seq<int>, s0: seq<int>, i: int)
    requires 0 <= i < |s0| && InText(t, s0) && Sorted(t, s0[..i])
    ensures Gap(t, s0, s0, i, i)
  {
    SinkStart(t, s0, i);
  }

  lemma GapStep(t: seq<int>, s0: seq<int>, s: seq<int>, j: int, i: int, s': seq<int>)
    requires Gap(t, s0, s, j, i) && 0 < j && Leq(t, s[j], s[j - 1])
    requires s' == s[j := s[j - 1]][j - 1 := s[j]]
    ensures Gap(t, s0, s', j - 1, i)
  {
    hide Less, Leq, Sinking;
    SinkStep(t, s, j, i, s');
  }

  lemma GapDone(t: seq<int>, s0: seq<int>, s: seq<int>, j: int, i: int)
    requires Gap(t, s0, s, j, i) && (j > 0 ==> Leq(t, s[j - 1], s[j]))
    ensures |s| == |s0| && InText(t, s) && multiset(s) == multiset(s0) && Sorted(t, s[..i + 1])
  {
    SinkDone(t, s, j, i);
  }

  // ----- Heap sort: a binary heap with its greatest suffix at index 0 -----

  ghost predicate HeapAt(t: seq<int>, s: seq<int>, k: int)
    requires 0 < k < |s| && InText(t, s)
  {
    Leq(t, s[k], s[(k - 1) / 2])
  }

  /** No entry of s[..n] is greater than its parent, for the parents from root on. */
  ghost predicate Heap(t: seq<int>, s: seq<int>, root: int, n: int)
    requires 0 <= root && 0 <= n <= |s| && InText(t, s)
  {
    forall k :: 0 < k < n && root <= (k - 1) / 2 ==> HeapAt(t, s, k)
  }

  /** The heap order holds from root on but for the children of r, which do not exceed r's parent. */
  ghost predicate Sifting(t: seq<int>, s: seq<int>, root: int, r: int, n: int)
    requires 0 <= root <= r < n <= |s| && InText(t, s)
  {
    && (forall k :: 0 < k < n && root <= (k - 1) / 2 != r ==> HeapAt(t, s, k))
    && (r > root ==> root <= (r - 1) / 2)
    && (r > root && 2 * r + 1 < n ==> Leq(t, s[2 * r + 1], s[(r - 1) / 2]))
    && (r > root && 2 * r + 2 < n ==> Leq(t, s[2 * r + 2], s[(r - 1) / 2]))
  }

  lemma Exchange(t: seq<int>, s: seq<int>, i: int, j: int, s': seq<int>)
    requires 0 <= i < |s| && 0 <= j < |s| && i != j && InText(t, s)
    requires s' == s[i := s[j]][j := s[i]]
    ensures |s'| == |s| && s'[i] == s[j] && s'[j] == s[i]
    ensures forall x :: 0 <= x < |s| && x != i && x != j ==> s'[x] == s[x]
    ensures multiset(s') == multiset(s) && InText(t, s')
  {
  }

  /** r exchanges its entry with its greatest child c. */
  lemma SiftStep(t: seq<int>, s: seq<int>, root: int, r: int, n: int, c: int, s': seq<int>)
    requires 0 <= root <= r < n <= |s| && InText(t, s) && Sifting(t, s, root, r, n)
    requires r < c < n && (c == 2 * r + 1 || c == 2 * r + 2)
    requires Leq(t, s[r], s[c])
    requires 2 * r + 1 < n ==> Leq(t, s[2 * r + 1], s[c])
    requires 2 * r + 2 < n ==> Leq(t, s[2 * r + 2], s[c])
    requires s' == s[r := s[c]][c := s[r]]
    ensures multiset(s') == multiset(s) && InText(t, s') && Sifting(t, s', root, c, n)
  {
    hide Less, Leq, HeapAt, Sifting;
    Exchange(t, s, r, c, s');
    assert Sifting(t, s', root, c, n) by {
      SiftStepOrder(t, s, root, r, n, c, s');
    }
  }

  lemma SiftStepOrder(t: seq<int>, s: seq<int>, root: int, r: int, n: int, c: int, s': seq<int>)
    requires 0 <= root <= r < n <= |s| && InText(t, s) && Sifting(t, s, root, r, n)
    requires r < c < n && (c == 2 * r + 1 || c == 2 * r + 2)
    requires Leq(t, s[r], s[c])
    requires 2 * r + 1 < n ==> Leq(t, s[2 * r + 1], s[c])
    requires 2 * r + 2 < n ==> Leq(t, s[2 * r + 2], s[c])
    requires |s'| == |s| && InText(t, s') && s'[r] == s[c] && s'[c] == s[r]
    requires forall x :: 0 <= x < |s| && x != r && x != c ==> s'[x] == s[x]
    ensures Sifting(t, s', root, c, n)
  {
    hide Less, Leq;
    assert (c - 1) / 2 == r;
    forall k | 0 < k < n && root <= (k - 1) / 2 != c ensures HeapAt(t, s', k) {
      SiftStepAt(t, s, root, r, n, c, s', k);
    }
    if 2 * c + 1 < n {
      assert HeapAt(t, s, 2 * c + 1);
    }
    if 2 * c + 2 < n {
      assert HeapAt(t, s, 2 * c + 2);
    }
  }

  lemma SiftStepAt(t: seq<int>, s: seq<int>, root: int, r: int, n: int, c: int, s': seq<int>, k: int)
    requires 0 <= root <= r < n <= |s| && InText(t, s) && Sifting(t, s, root, r, n)
    requires r < c < n && (c - 1) / 2 == r
    requires Leq(t, s[r], s[c])
    requires 2 * r + 1 < n ==> Leq(t, s[2 * r + 1], s[c])
    requires 2 * r + 2 < n ==> Leq(t, s[2 * r + 2], s[c])
    requires |s'| == |s| && InText(t, s') && s'[r] == s[c] && s'[c] == s[r]
    requires forall x :: 0 <= x < |s| && x != r && x != c ==> s'[x] == s[x]
    requires 0 < k < n && root <= (k - 1) / 2 != c
    ensures HeapAt(t, s', k)
  {
    hide Less, Leq;
    if (k - 1) / 2 == r {
      assert k == 2 * r + 1 || k == 2 * r + 2;
    } else {
      assert HeapAt(t, s, k);
    }
  }

  lemma SiftDone(t: seq<int>, s: seq<int>, root: int, r: int, n: int)
    requires 0 <= root <= r < n <= |s| && InText(t, s) && Sifting(t, s, root, r, n)
    requires 2 * r + 1 < n ==> Leq(t, s[2 * r + 1], s[r])
    requires 2 * r + 2 < n ==> Leq(t, s[2 * r + 2], s[r])
    ensures Heap(t, s, root, n)
  {
    hide Less, Leq;
    forall k | 0 < k < n && root <= (k - 1) / 2 ensures HeapAt(t, s, k) {
      if (k - 1) / 2 == r {
        assert k == 2 * r + 1 || k == 2 * r + 2;
      }
    }
  }

  /** The entry at index 0 of a heap is a greatest one. */
  lemma {:induction false} HeapMaximum(t: seq<int>, s: seq<int>, n: int, k: int)
    requires 0 <= k < n <= |s| && InText(t, s) && Heap(t, s, 0, n)
    ensures Leq(t, s[k], s[0])
    decreases k
  {
    hide Less;
    if k > 0 {
      assert HeapAt(t, s, k);
      HeapMaximum(t, s, n, (k - 1) / 2);
      LeqTransitive(t, s[k], s[(k - 1) / 2], s[0]);
    }
  }

  /** Heap sort between two rounds: a heap of i entries, none greater than any of the sorted rest. */
  ghost predicate HeapSorting(t: seq<int>, s: seq<int>, i: int)
    requires 0 <= i <= |s| && InText(t, s)
  {
    && (forall x, y :: 0 <= x < |s| && i <= y < |s| && x < y ==> Leq(t, s[x], s[y]))
  }

  /** Moving the maximum behind the heap extends the sorted rest. */
  lemma HeapSortStep(t: seq<int>, s: seq<int>, i: int, s': seq<int>)
    requires 0 < i < |s| && InText(t, s) && Heap(t, s, 0, i + 1) && HeapSorting(t, s, i + 1)
    requires s' == s[0 := s[i]][i := s[0]]
    ensures multiset(s') == multiset(s) && InText(t, s')
    ensures HeapSorting(t, s', i) && Heap(t, s', 1, i)
  {
    hide Less, Leq;
    forall x, y | 0 <= x < |s| && i <= y < |s| && x < y ensures Leq(t, s'[x], s'[y]) {
      if y == i {
        HeapMaximum(t, s, i + 1, x);
        HeapMaximum(t, s, i + 1, i);
      }
    }
    forall k | 0 < k < i && 1 <= (k - 1) / 2 ensures HeapAt(t, s', k) {
      assert HeapAt(t, s, k);
    }
  }

  /** Rearranging the heap part does not disturb the order against the rest. */
  lemma HeapSortRearranged(t: seq<int>, s: seq<int>, i: int, s': seq<int>)
    requires 0 <= i <= |s| == |s'| && InText(t, s) && HeapSorting(t, s, i)
    requires s'[i..] == s[i..] && multiset(s'[..i]) == multiset(s[..i]) && InText(t, s')
    ensures HeapSorting(t, s', i)
  {
    hide Less, Leq;
    forall x, y | 0 <= x < |s| && i <= y < |s| && x < y ensures Leq(t, s'[x], s'[y]) {
      assert s'[y] == s'[i..][y - i] == s[i..][y - i] == s[y];
      if x < i {
        assert s'[..i][x] in multiset(s[..i]);
        var x' :| 0 <= x' < i && s[..i][x'] == s'[..i][x];
      } else {
        assert s'[x] == s'[i..][x - i] == s[i..][x - i] == s[x];
      }
    }
  }
}
