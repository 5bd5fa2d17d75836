/** The emit stage of the descriptor suffix array: sort the column-255 suffixes of a template run,
    then induce columns 254 .. 0 in place, emitting the records of each column. */
module V114Emit {
  import opened Suffixes
  import opened Sorting
  import opened V114Keys
  import opened V114Records

  const MAX_GROUP_RUN: nat := ARENA_INDEX_COUNT / 256
  const SHORT_RUN_MAX: nat := 25

  /** The growing lists of v114Scratch. */
  class V114Scratch {
    var arena: seq<int>
    var runs: seq<Run>

    constructor ()
      ensures arena == [] && runs == []
    {
      arena, runs := [], [];
    }

    function State(): Emitted
      reads this
    {
      Emitted(arena, runs)
    }
  }

  // ----- Sorting the column-255 suffixes -----

  /** sortSuffixOrderSmall: insertion sort by the full suffix comparison. */
  method SortSuffixOrderSmall(view: View, order: array<int>)
    requires view.Valid() && InText(view.Text(), order[..])
    modifies order
    ensures order[..] == SortPositions(view.Text(), old(order[..]))
  {
    hide Less, SortPositions;
    var i := 1;
    while i < order.Length
      invariant order.Length > 0 ==> 1 <= i <= order.Length
      invariant multiset(order[..]) == multiset(old(order[..])) && InText(view.Text(), order[..])
      invariant order.Length > 0 ==> Sorted(view.Text(), order[..i])
    {
      SinkInto(view, order, i);
      i := i + 1;
    }
    assert order.Length > 0 ==> order[..i] == order[..];
    SortedIsSortPositions(view.Text(), old(order[..]), order[..]);
  }

  /** One round of the outer loop: entries greater than pos move up, pos fills the gap. */
  method SinkInto(view: View, order: array<int>, i: nat)
    requires view.Valid() && i < order.Length && InText(view.Text(), order[..])
    requires Sorted(view.Text(), order[..i])
    modifies order
    ensures multiset(order[..]) == multiset(old(order[..]))
    ensures InText(view.Text(), order[..]) && Sorted(view.Text(), order[..i + 1])
  {
    hide Less, Sorted, CompareWhole, Gap;
    ghost var t, s0 := view.Text(), order[..];
    GapStart(t, s0, i);
    var pos := order[i];
    var j := i;
    ghost var s := order[..];
    assert s == s[i := pos];
    GapAt(t, s0, s, j, i);
    while j > 0 && CompareWhole(view, pos, order[j - 1]) < 0
      invariant 0 <= j <= i && s == order[..][j := pos]
      invariant Gap(t, s0, s, j, i)
      invariant 0 <= pos < |t| && (j > 0 ==> 0 <= order[j - 1] < |t|)
    {
      CompareWholeSign(view, pos, order[j - 1]);
      ghost var before := s;
      order[j] := order[j - 1];
      s := order[..][j - 1 := pos];
      assert s == before[j := before[j - 1]][j - 1 := before[j]];
      GapStep(t, s0, before, j, i, s);
      j := j - 1;
      GapAt(t, s0, s, j, i);
    }
    if j > 0 {
      CompareWholeSign(view, pos, order[j - 1]);
    }
    order[j] := pos;
    assert order[..] == s;
    GapDone(t, s0, s, j, i);
  }

  /** heapSortSuffixOrder, used for long runs. */
  method HeapSortSuffixOrder(view: View, order: array<int>)
    requires view.Valid() && InText(view.Text(), order[..])
    modifies order
    ensures order[..] == SortPositions(view.Text(), old(order[..]))
  {
    hide Less, SortPositions, Heap;
    BuildHeap(view, order);
    ghost var t := view.Text();
    var i := order.Length - 1;
    while i > 0
      invariant order.Length > 0 ==> 0 <= i < order.Length
      invariant multiset(order[..]) == multiset(old(order[..])) && InText(t, order[..])
      invariant order.Length > 0 ==> Heap(t, order[..], 0, i + 1) && HeapSorting(t, order[..], i + 1)
    {
      PopMaximum(view, order, i);
      i := i - 1;
    }
    SortedIsSortPositions(t, old(order[..]), order[..]);
  }

  method BuildHeap(view: View, order: array<int>)
    requires view.Valid() && InText(view.Text(), order[..])
    modifies order
    ensures multiset(order[..]) == multiset(old(order[..])) && InText(view.Text(), order[..])
    ensures Heap(view.Text(), order[..], 0, order.Length)
  {
    hide Less, HeapAt;
    var n := order.Length;
    var i := n / 2 - 1;
    while i >= 0
      invariant -1 <= i < n
      invariant multiset(order[..]) == multiset(old(order[..])) && InText(view.Text(), order[..])
      invariant Heap(view.Text(), order[..], i + 1, n)
    {
      SiftDown(view, order, i, n);
      i := i - 1;
    }
  }

  /** One round of heap sort: the maximum goes behind the heap, whose order is then restored. */
  method PopMaximum(view: View, order: array<int>, i: nat)
    requires view.Valid() && 0 < i < order.Length && InText(view.Text(), order[..])
    requires Heap(view.Text(), order[..], 0, i + 1) && HeapSorting(view.Text(), order[..], i + 1)
    modifies order
    ensures multiset(order[..]) == multiset(old(order[..])) && InText(view.Text(), order[..])
    ensures Heap(view.Text(), order[..], 0, i) && HeapSorting(view.Text(), order[..], i)
  {
    hide Less, Heap, HeapSorting;
    ghost var t := view.Text();
    ghost var before := order[..];
    order[0], order[i] := order[i], order[0];
    ghost var mid := order[..];
    HeapSortStep(t, before, i, mid);
    SiftDown(view, order, 0, i);
    HeapSortRearranged(t, mid, i, order[..]);
  }

  /** siftDownSuffix. */
  method SiftDown(view: View, order: array<int>, root0: nat, n: nat)
    requires view.Valid() && root0 <= n <= order.Length && InText(view.Text(), order[..])
    requires Heap(view.Text(), order[..], root0 + 1, n)
    modifies order
    ensures InText(view.Text(), order[..]) && multiset(order[..]) == multiset(old(order[..]))
    ensures order[n..] == old(order[n..]) && multiset(order[..n]) == multiset(old(order[..n]))
    ensures Heap(view.Text(), order[..], root0, n)
  {
    hide Less, Leq, HeapAt;
    ghost var t := view.Text();
    if root0 == n {
      return;
    }
    var root := root0;
    while true
      invariant root0 <= root < n
      invariant InText(t, order[..]) && multiset(order[..]) == multiset(old(order[..]))
      invariant order[n..] == old(order[n..])
      invariant Sifting(t, order[..], root0, root, n)
      decreases n - root
    {
      var child := 2 * root + 1;
      if child >= n {
        break;
      }
      child := GreaterChild(view, order, root, n);
      if CompareWhole(view, order[root], order[child]) >= 0 {
        StopSifting(view, order[..], root, child, n);
        break;
      }
      ghost var before := order[..];
      GoOnSifting(view, before, root, child);
      order[root], order[child] := order[child], order[root];
      SiftStep(t, before, root0, root, n, child, order[..]);
      assert order[n..] == before[n..];
      root := child;
    }
    SiftDone(t, order[..], root0, root, n);
    SplitMultiset(order[..], old(order[..]), n);
  }

  lemma SplitMultiset(s: seq<int>, s': seq<int>, n: nat)
    requires multiset(s) == multiset(s') && n <= |s| && n <= |s'| && s[n..] == s'[n..]
    ensures multiset(s[..n]) == multiset(s'[..n])
  {
    assert s == s[..n] + s[n..] && s' == s'[..n] + s'[n..];
    assert multiset(s) == multiset(s[..n]) + multiset(s[n..]);
    assert multiset(s') == multiset(s'[..n]) + multiset(s'[n..]);
    assert multiset(s[..n]) == multiset(s) - multiset(s[n..]);
  }

  method GreaterChild(view: View, order: array<int>, root: nat, n: nat) returns (child: nat)
    requires view.Valid() && InText(view.Text(), order[..]) && 2 * root + 1 < n <= order.Length
    ensures child == 2 * root + 1 || child == 2 * root + 2
    ensures child < n
    ensures Leq(view.Text(), order[2 * root + 1], order[child])
    ensures 2 * root + 2 < n ==> Leq(view.Text(), order[2 * root + 2], order[child])
  {
    hide Less, CompareWhole;
    child := 2 * root + 1;
    if child + 1 < n {
      CompareWholeSign(view, order[child], order[child + 1]);
      if CompareWhole(view, order[child], order[child + 1]) < 0 {
        child := child + 1;
      }
    }
  }

  lemma StopSifting(view: View, s: seq<int>, root: nat, child: nat, n: nat)
    requires view.Valid() && InText(view.Text(), s) && root < child < n <= |s|
    requires CompareWhole(view, s[root], s[child]) >= 0
    requires 2 * root + 1 < n
    requires Leq(view.Text(), s[2 * root + 1], s[child])
    requires 2 * root + 2 < n ==> Leq(view.Text(), s[2 * root + 2], s[child])
    ensures Leq(view.Text(), s[2 * root + 1], s[root])
    ensures 2 * root + 2 < n ==> Leq(view.Text(), s[2 * root + 2], s[root])
  {
    hide Less, CompareWhole;
    CompareWholeSign(view, s[root], s[child]);
    LeqTransitive(view.Text(), s[2 * root + 1], s[child], s[root]);
    if 2 * root + 2 < n {
      LeqTransitive(view.Text(), s[2 * root + 2], s[child], s[root]);
    }
  }

  lemma GoOnSifting(view: View, s: seq<int>, root: nat, child: nat)
    requires view.Valid() && InText(view.Text(), s) && root < child < |s|
    requires CompareWhole(view, s[root], s[child]) < 0
    ensures Leq(view.Text(), s[root], s[child])
  {
    CompareWholeSign(view, s[root], s[child]);
  }

  // ----- Inducing a column from the next one -----

  /** Every position one lower. */
  ghost function Decremented(ps: seq<int>): seq<int> {
    seq(|ps|, i requires 0 <= i < |ps| => ps[i] - 1)
  }

  lemma {:induction false} DecrementedMultiset(ps: seq<int>, p: int)
    ensures multiset(Decremented(ps))[p] == multiset(ps)[p + 1]
  {
    if ps != [] {
      var k := |ps| - 1;
      assert ps == ps[..k] + [ps[k]];
      assert Decremented(ps) == Decremented(ps[..k]) + [ps[k] - 1];
      DecrementedMultiset(ps[..k], p);
    }
  }

  /** A sorted rearrangement of the decremented column is the column before it. */
  lemma InducedColumn(view: View, start: nat, count: nat, rel: nat, order: seq<int>)
    requires view.Valid() && GroupsInText(view, start, count) && 0 < rel < 256
    requires InText(view.Text(), order) && Sorted(view.Text(), order)
    requires multiset(order) == multiset(Decremented(ColumnOrder(view, start, count, rel)))
    ensures order == ColumnOrder(view, start, count, rel - 1)
  {
    hide Less, SortPositions, Sorted;
    var column, previous := Column(start, count, rel), Column(start, count, rel - 1);
    ColumnInText(view, start, count, rel);
    ColumnInText(view, start, count, rel - 1);
    assert previous == Decremented(column);
    var sorted := ColumnOrder(view, start, count, rel);
    forall p ensures multiset(order)[p] == multiset(previous)[p] {
      DecrementedMultiset(column, p);
      DecrementedMultiset(sorted, p);
    }
    SortedIsSortPositions(view.Text(), previous, order);
  }

  /** In a column after the first, every position has a predecessor in the text. */
  lemma ColumnOrderPositive(view: View, start: nat, count: nat, rel: nat)
    requires view.Valid() && GroupsInText(view, start, count) && 0 < rel < 256
    ensures Sorted(view.Text(), ColumnOrder(view, start, count, rel))
    ensures forall i :: 0 <= i < count ==> ColumnOrder(view, start, count, rel)[i] > 0
  {
    hide Less, SortPositions, Sorted;
    ColumnInText(view, start, count, rel);
    var column, order := Column(start, count, rel), ColumnOrder(view, start, count, rel);
    SortPositionsSorted(view.Text(), column);
    forall i | 0 <= i < count ensures order[i] > 0 {
      assert order[i] in multiset(column);
    }
  }

  /** The induction step: the first byte decides, and on equal first bytes the order of the
      successors carries over. */
  lemma FirstByteDecides(view: View, p: int, q: int)
    requires view.Valid() && 0 <= p < view.logicalLen - 1 && 0 <= q < view.logicalLen - 1
    requires Leq(view.Text(), p + 1, q + 1)
    ensures view.data[p] > view.data[q] ==> Leq(view.Text(), q, p)
    ensures view.data[p] <= view.data[q] ==> Leq(view.Text(), p, q)
  {
  }

  /** Deriving a key from the next position's key and one new byte is loading it. */
  lemma DerivedKey(view: View, pos: int)
    requires view.Valid() && 0 <= pos < view.logicalLen - 1
    ensures view.At(pos) + LoadKey(view, pos + 1) % 0x10000 * 0x100 == LoadKey(view, pos)
    ensures LoadKey(view, pos) % 0x100 == view.data[pos]
  {
    var a, b, c, d := view.At(pos), view.At(pos + 1), view.At(pos + 2), view.At(pos + 3);
    assert LoadKey(view, pos + 1) == (b + 0x100 * c) + 0x10000 * d;
    assert LoadKey(view, pos + 1) % 0x10000 == b + 0x100 * c;
    assert LoadKey(view, pos) == a + 0x100 * (b + 0x100 * c);
  }

  /** The fused step after i entries: they are decremented, re-keyed and sorted; the rest is as before. */
  ghost predicate Induced(view: View, order: seq<int>, keys: seq<int>, order0: seq<int>, i: nat)
    requires view.Valid()
  {
    && |order| == |keys| == |order0| && i <= |order0|
    && InText(view.Text(), order0) && Sorted(view.Text(), order0)
    && (forall k :: 0 <= k < |order0| ==> order0[k] > 0)
    && InText(view.Text(), order)
    && Sorted(view.Text(), order[..i])
    && multiset(order[..i]) == multiset(Decremented(order0[..i]))
    && order[i..] == order0[i..]
    && (forall k :: 0 <= k < |order| ==> keys[k] == LoadKey(view, order[k]))
  }

  /** Every position placed so far has its successor no greater than the next successor. */
  lemma PlacedSuccessors(view: View, order0: seq<int>, i: nat, placed: seq<int>, k: nat)
    requires view.Valid() && i < |order0| && InText(view.Text(), order0) && Sorted(view.Text(), order0)
    requires multiset(placed) == multiset(Decremented(order0[..i + 1])) && k < |placed|
    ensures 0 <= placed[k] + 1 < view.logicalLen && Leq(view.Text(), placed[k] + 1, order0[i])
  {
    hide Less;
    assert placed[k] in multiset(Decremented(order0[..i + 1]));
    var m :| 0 <= m < i + 1 && Decremented(order0[..i + 1])[m] == placed[k];
    assert order0[m] == placed[k] + 1;
    SortedAt(view.Text(), order0, m, i);
  }

  lemma DecrementedSnoc(order0: seq<int>, i: nat)
    requires i < |order0|
    ensures Decremented(order0[..i + 1]) == Decremented(order0[..i]) + [order0[i] - 1]
  {
  }

  /** The inner state of placing entry i: s is order with pos written at the gap j. */
  ghost predicate Placing(view: View, s: seq<int>, order0: seq<int>, j: nat, i: nat)
    requires view.Valid()
  {
    && |s| == |order0| && j <= i < |s| && InText(view.Text(), s)
    && s[j] == order0[i] - 1
    && Sinking(view.Text(), s, j, i)
    && multiset(s[..i + 1]) == multiset(Decremented(order0[..i + 1]))
    && s[i + 1..] == order0[i + 1..]
  }

  lemma PlacingStart(view: View, order: seq<int>, keys: seq<int>, order0: seq<int>, i: nat)
    requires view.Valid() && i < |order0| && Induced(view, order, keys, order0, i)
    ensures Placing(view, order[i := order[i] - 1], order0, i, i)
    ensures order[i] == order0[i] && order[i] > 0
  {
    hide Less, LoadKey, Sorted, Sinking;
    assert order[i] == order[i..][0] == order0[i..][0] == order0[i];
    var s := order[i := order[i] - 1];
    assert s[..i] == order[..i];
    SinkStart(view.Text(), s, i);
    assert s[..i + 1] == s[..i] + [s[i]];
    DecrementedSnoc(order0, i);
    assert s[i + 1..] == order[i..][1..] == order0[i..][1..] == order0[i + 1..];
  }

  lemma PlacingStep(view: View, s: seq<int>, order0: seq<int>, j: nat, i: nat, s': seq<int>)
    requires view.Valid() && 0 < j && Placing(view, s, order0, j, i)
    requires InText(view.Text(), order0) && Sorted(view.Text(), order0)
    requires view.data[s[j - 1]] > view.data[s[j]]
    requires s' == s[j := s[j - 1]][j - 1 := s[j]]
    ensures Placing(view, s', order0, j - 1, i)
  {
    hide Less, Sorted, Sinking;
    PlacedSuccessors(view, order0, i, s[..i + 1], j - 1);
    FirstByteDecides(view, s[j - 1], s[j]);
    SinkStep(view.Text(), s, j, i, s');
    assert s'[..i + 1] == s[..i + 1][j := s[..i + 1][j - 1]][j - 1 := s[..i + 1][j]];
    assert s'[i + 1..] == s[i + 1..];
  }

  lemma PlacingDone(view: View, s: seq<int>, order0: seq<int>, j: nat, i: nat)
    requires view.Valid() && Placing(view, s, order0, j, i)
    requires InText(view.Text(), order0) && Sorted(view.Text(), order0)
    requires j > 0 ==> view.data[s[j - 1]] <= view.data[s[j]]
    ensures Sorted(view.Text(), s[..i + 1])
  {
    hide Less, Sorted, Sinking;
    if j > 0 {
      PlacedSuccessors(view, order0, i, s[..i + 1], j - 1);
      FirstByteDecides(view, s[j - 1], s[j]);
    }
    SinkDone(view.Text(), s, j, i);
  }

  /** The byte behind the key of the entry before the gap. */
  lemma PlacedByte(view: View, s: seq<int>, order0: seq<int>, j: nat, i: nat)
    requires view.Valid() && 0 < j && Placing(view, s, order0, j, i)
    requires InText(view.Text(), order0) && Sorted(view.Text(), order0)
    ensures LoadKey(view, s[j - 1]) % 0x100 == view.data[s[j - 1]]
  {
    hide Less, Sorted, Sinking, LoadKey;
    PlacedSuccessors(view, order0, i, s[..i + 1], j - 1);
    DerivedKey(view, s[j - 1]);
  }

  lemma PlacingInduced(view: View, s: seq<int>, keys: seq<int>, order0: seq<int>, j: nat, i: nat)
    requires view.Valid() && Placing(view, s, order0, j, i)
    requires Sorted(view.Text(), s[..i + 1])
    requires InText(view.Text(), order0) && Sorted(view.Text(), order0)
    requires forall k :: 0 <= k < |order0| ==> order0[k] > 0
    requires |keys| == |s| && forall k :: 0 <= k < |s| ==> keys[k] == LoadKey(view, s[k])
    ensures Induced(view, s, keys, order0, i + 1)
  {
    hide Less, Sorted, Sinking, LoadKey;
  }

  /** One round of the fused step: decrement and re-key entry i, and move it down past every entry
      with a greater first byte. */
  method InduceEntry(view: View, order: array<int>, keys: array<int>, i: nat, ghost order0: seq<int>)
    requires view.Valid() && order != keys && order.Length == keys.Length && i < order.Length
    requires Induced(view, order[..], keys[..], order0, i)
    modifies order, keys
    ensures Induced(view, order[..], keys[..], order0, i + 1)
  {
    hide Less, LoadKey, Sorted, Placing, Decremented;
    PlacingStart(view, order[..], keys[..], order0, i);
    var pos := order[i] - 1;
    var b := view.At(pos);
    var nk := b + keys[i] % 0x10000 * 0x100;
    DerivedKey(view, pos);
    var j := i;
    ghost var s := order[..][i := pos];
    while j > 0 && keys[j - 1] % 0x100 > b
      invariant 0 <= j <= i && s == order[..][j := pos] && Placing(view, s, order0, j, i)
      invariant InText(view.Text(), s)
      invariant forall k :: 0 <= k < |s| && k != j ==> keys[k] == LoadKey(view, s[k])
    {
      PlacedByte(view, s, order0, j, i);
      ghost var before := s;
      order[j] := order[j - 1];
      keys[j] := keys[j - 1];
      s := order[..][j - 1 := pos];
      assert s == before[j := before[j - 1]][j - 1 := before[j]];
      PlacingStep(view, before, order0, j, i, s);
      assert InText(view.Text(), s) by { Exchange(view.Text(), before, j, j - 1, s); }
      j := j - 1;
    }
    if j > 0 {
      PlacedByte(view, s, order0, j, i);
    }
    order[j] := pos;
    keys[j] := nk;
    assert order[..] == s;
    PlacingDone(view, s, order0, j, i);
    PlacingInduced(view, s, keys[..], order0, j, i);
  }

  lemma InducedStart(view: View, order0: seq<int>, keys: seq<int>)
    requires view.Valid() && KeysOf(view, order0, keys) && Sorted(view.Text(), order0)
    requires forall k :: 0 <= k < |order0| ==> order0[k] > 0
    ensures Induced(view, order0, keys, order0, 0)
  {
    hide Less, LoadKey;
    assert order0[..0] == [] && Decremented(order0[..0]) == [];
  }

  /** The fused decrement, key derivation and stable first-byte re-sort: from one sorted column of the
      run to the one before it, keys[i] being the key at order[i] throughout. */
  method InduceColumn(view: View, order: array<int>, keys: array<int>, ghost start: nat, ghost rel: nat)
    requires view.Valid() && order != keys && order.Length == keys.Length > 0 && 0 < rel < 256
    requires GroupsInText(view, start, order.Length)
    requires order[..] == ColumnOrder(view, start, order.Length, rel)
    requires KeysOf(view, order[..], keys[..])
    modifies order, keys
    ensures order[..] == ColumnOrder(view, start, order.Length, rel - 1)
    ensures KeysOf(view, order[..], keys[..])
  {
    hide Less, LoadKey, Sorted, ColumnOrder, Decremented;
    ghost var order0 := order[..];
    ColumnOrderPositive(view, start, order.Length, rel);
    InducedStart(view, order0, keys[..]);
    var i := 0;
    while i < order.Length
      invariant 0 <= i <= order.Length
      invariant Induced(view, order[..], keys[..], order0, i)
    {
      InduceEntry(view, order, keys, i, order0);
      i := i + 1;
    }
    assert order[..i] == order[..] && order0[..i] == order0;
    InducedColumn(view, start, order.Length, rel, order[..]);
  }

  ghost predicate KeysOf(view: View, order: seq<int>, keys: seq<int>)
    requires view.Valid()
  {
    && InText(view.Text(), order) && |keys| == |order|
    && forall k :: 0 <= k < |order| ==> keys[k] == LoadKey(view, order[k])
  }

  // ----- Emitting records -----

  /** appendOrderGroup: append the record of order[first..first + count]; false, and nothing changed,
      when count is zero or the arena is full. */
  method AppendOrderGroup(v: V114Scratch, key: nat, order: array<int>, first: nat, count: nat) returns (ok: bool)
    requires first + count <= order.Length && (count > 0 ==> order[first] >= 0)
    modifies v
    ensures ok <==> count == 1 || (count > 1 && |old(v.arena)| + count <= ARENA_INDEX_COUNT)
    ensures ok ==> v.State() == AppendGroup(old(v.State()), key, order[first..first + count])
    ensures !ok ==> v.State() == old(v.State())
  {
    if count == 0 {
      return false;
    }
    var orderedKey := RadixOrderKey(key);
    if count == 1 {
      v.runs := v.runs + [Run(orderedKey, order[first])];
      return true;
    }
    var begin := |v.arena|;
    if begin > ARENA_INDEX_COUNT || count > ARENA_INDEX_COUNT - begin {
      return false;
    }
    v.arena := v.arena + order[first..first + count];
    v.runs := v.runs + [Run(orderedKey, count * COUNT_UNIT + begin)];
    return true;
  }

  /** emitLiteralRecords. */
  method EmitLiteralRecords(view: View, start: nat, count: nat, v: V114Scratch)
    requires view.Valid() && start + count <= view.logicalLen
    modifies v
    ensures v.State() == EmitLiterals(view, old(v.State()), start, count)
  {
    hide LoadKey, RadixOrderKey;
    var rel := 0;
    while rel < count
      invariant 0 <= rel <= count
      invariant v.State() == EmitLiterals(view, old(v.State()), start, rel)
    {
      var pos := start + rel;
      v.runs := v.runs + [Run(RadixOrderKey(LoadKey(view, pos)), pos)];
      rel := rel + 1;
    }
  }

  /** The end of the stretch of equal keys that begins at groupStart. */
  method FindGroupEnd(view: View, order: array<int>, keys: array<int>, groupStart: nat) returns (groupEnd: nat)
    requires view.Valid() && groupStart < order.Length && KeysOf(view, order[..], keys[..])
    ensures groupStart < groupEnd <= order.Length
    ensures InText(view.Text(), order[groupStart..])
    ensures groupEnd - groupStart == LeadingEqual(view, order[groupStart..])
  {
    hide LoadKey, LeadingEqual;
    ghost var rest := order[groupStart..];
    var key := keys[groupStart];
    groupEnd := groupStart + 1;
    while groupEnd < order.Length && keys[groupEnd] == key
      invariant groupStart < groupEnd <= order.Length
      invariant forall k :: groupStart <= k < groupEnd ==> keys[k] == key
    {
      groupEnd := groupEnd + 1;
    }
    forall k | 0 <= k < |rest| ensures rest[k] == order[..][groupStart + k] && LoadKey(view, rest[k]) == keys[groupStart + k] {
    }
  }

  /** The records of the current column.  Declines exactly when they would overfill the arena. */
  method EmitColumn(view: View, order: array<int>, keys: array<int>, v: V114Scratch) returns (ok: bool)
    requires view.Valid() && KeysOf(view, order[..], keys[..]) && |v.arena| <= ARENA_INDEX_COUNT
    modifies v
    ensures ok <==> |EmitOrder(view, old(v.State()), order[..]).arena| <= ARENA_INDEX_COUNT
    ensures ok ==> v.State() == EmitOrder(view, old(v.State()), order[..])
  {
    hide LoadKey, RadixOrderKey, LeadingEqual, AppendGroup, EmitOrder, Less;
    ghost var whole := EmitOrder(view, v.State(), order[..]);
    var groupStart := 0;
    assert order[0..] == order[..];
    while groupStart < order.Length
      invariant 0 <= groupStart <= order.Length && InText(view.Text(), order[groupStart..])
      invariant |v.arena| <= ARENA_INDEX_COUNT
      invariant whole == EmitOrder(view, v.State(), order[groupStart..])
    {
      var groupEnd := FindGroupEnd(view, order, keys, groupStart);
      ghost var rest, group, e := order[groupStart..], order[groupStart..groupEnd], v.State();
      GroupOfRest(view, e, order[..], groupStart, groupEnd);
      ok := AppendOrderGroup(v, keys[groupStart], order, groupStart, groupEnd - groupStart);
      if !ok {
        return;
      }
      assert v.State() == AppendGroup(e, LoadKey(view, rest[0]), group);
      groupStart := groupEnd;
    }
    EmitNothing(view, v.State(), order[groupStart..]);
    ok := true;
  }

  lemma EmitNothing(view: View, e: Emitted, rest: seq<int>)
    requires view.Valid() && rest == []
    ensures EmitOrder(view, e, rest) == e
  {
  }

  /** What emitting the rest of a column does first, and how much arena it needs at least. */
  lemma GroupOfRest(view: View, e: Emitted, order: seq<int>, first: nat, end: nat)
    requires view.Valid() && first < end <= |order| && InText(view.Text(), order)
    requires InText(view.Text(), order[first..])
    requires end - first == LeadingEqual(view, order[first..])
    ensures InText(view.Text(), order[end..])
    ensures EmitOrder(view, e, order[first..])
         == EmitOrder(view, AppendGroup(e, LoadKey(view, order[first]), order[first..end]), order[end..])
    ensures end - first > 1 ==> |EmitOrder(view, e, order[first..]).arena| >= |e.arena| + (end - first)
    ensures |AppendGroup(e, LoadKey(view, order[first]), order[first..end]).arena|
         == |e.arena| + if end - first > 1 then end - first else 0
  {
    hide LoadKey, RadixOrderKey, LeadingEqual;
    var rest := order[first..];
    assert rest[..end - first] == order[first..end] && rest[end - first..] == order[end..];
    EmitOrderGrows(view, AppendGroup(e, LoadKey(view, rest[0]), order[first..end]), order[end..]);
  }

  // ----- Template runs -----

  /** emitFullGroupRunGeneric: three groups or more. */
  method EmitFullGroupRunGeneric(view: View, startGroup: nat, groupCount: nat, v: V114Scratch) returns (ok: bool)
    requires view.Valid() && GroupsInText(view, startGroup, groupCount)
    requires 3 <= groupCount && |v.arena| <= ARENA_INDEX_COUNT
    modifies v
    ensures ok <==> |EmitRun(view, old(v.State()), startGroup, groupCount).arena| <= ARENA_INDEX_COUNT
    ensures ok ==> v.State() == EmitRun(view, old(v.State()), startGroup, groupCount)
  {
    hide Less, LoadKey, ColumnOrder, EmitOrder, KeysOf;
    ghost var whole := EmitRun(view, v.State(), startGroup, groupCount);
    var order, keys := SortLastColumn(view, startGroup, groupCount);
    var rel := 255;
    while rel >= 0
      invariant -1 <= rel <= 255
      invariant rel >= 0 ==> order[..] == ColumnOrder(view, startGroup, groupCount, rel)
      invariant rel >= 0 ==> KeysOf(view, order[..], keys[..])
      invariant |v.arena| <= ARENA_INDEX_COUNT
      invariant whole == if rel >= 0 then EmitColumns(view, v.State(), startGroup, groupCount, rel) else v.State()
    {
      ghost var e := v.State();
      ok := EmitColumn(view, order, keys, v);
      if !ok {
        ColumnNeedsArena(view, e, startGroup, groupCount, rel);
        return;
      }
      if rel > 0 {
        InduceColumn(view, order, keys, startGroup, rel);
      }
      rel := rel - 1;
    }
    ok := true;
  }

  /** The rest of the run needs at least the arena its first column needs. */
  lemma ColumnNeedsArena(view: View, e: Emitted, start: nat, count: nat, rel: nat)
    requires view.Valid() && GroupsInText(view, start, count) && rel < 256
    ensures |EmitColumns(view, e, start, count, rel).arena|
         >= |EmitOrder(view, e, ColumnOrder(view, start, count, rel)).arena|
  {
    hide ColumnOrder, EmitOrder;
    var e' := EmitOrder(view, e, ColumnOrder(view, start, count, rel));
    if rel > 0 {
      EmitColumnsGrows(view, e', start, count, rel - 1);
    }
  }

  /** The column-255 positions of a run, sorted outright, with their keys. */
  method SortLastColumn(view: View, startGroup: nat, groupCount: nat) returns (order: array<int>, keys: array<int>)
    requires view.Valid() && GroupsInText(view, startGroup, groupCount)
    ensures fresh(order) && fresh(keys) && order != keys && order.Length == keys.Length == groupCount
    ensures order[..] == ColumnOrder(view, startGroup, groupCount, 255)
    ensures KeysOf(view, order[..], keys[..])
  {
    hide Less, LoadKey, SortPositions;
    var base := startGroup * 256;
    order := new int[groupCount](chunk => base + chunk * 256 + 255);
    assert order[..] == Column(startGroup, groupCount, 255);
    ColumnInText(view, startGroup, groupCount, 255);
    if groupCount <= SHORT_RUN_MAX {
      SortSuffixOrderSmall(view, order);
    } else {
      HeapSortSuffixOrder(view, order);
    }
    keys := new int[groupCount];
    var i := 0;
    while i < groupCount
      invariant 0 <= i <= groupCount
      invariant order[..] == ColumnOrder(view, startGroup, groupCount, 255)
      invariant forall k :: 0 <= k < i ==> keys[k] == LoadKey(view, order[..][k])
    {
      assert order[i] == order[..][i];
      keys[i] := LoadKey(view, order[i]);
      i := i + 1;
    }
  }

  /** emitFullGroupRunTwo: the specialization for two groups.  It emits the very records the generic
      loop would. */
  method EmitFullGroupRunTwo(view: View, startGroup: nat, v: V114Scratch) returns (ok: bool)
    requires view.Valid() && GroupsInText(view, startGroup, 2) && |v.arena| <= ARENA_INDEX_COUNT
    modifies v
    ensures ok <==> |EmitRun(view, old(v.State()), startGroup, 2).arena| <= ARENA_INDEX_COUNT
    ensures ok ==> v.State() == EmitRun(view, old(v.State()), startGroup, 2)
  {
    hide Less, LoadKey, ColumnOrder, EmitOrder, CompareWhole;
    ghost var whole := EmitRun(view, v.State(), startGroup, 2);
    var base := startGroup * 256;
    var order0, order1 := base + 255, base + 511;
    var swap := CompareWhole(view, order1, order0) < 0;
    LastColumnOfTwo(view, startGroup);
    if swap {
      order0, order1 := order1, order0;
    }
    var rel := 255;
    while rel >= 0
      invariant -1 <= rel <= 255
      invariant rel >= 0 ==> [order0, order1] == ColumnOrder(view, startGroup, 2, rel)
      invariant |v.arena| <= ARENA_INDEX_COUNT
      invariant whole == if rel >= 0 then EmitColumns(view, v.State(), startGroup, 2, rel) else v.State()
    {
      ghost var e := v.State();
      ok := EmitPair(view, order0, order1, v);
      if !ok {
        ColumnNeedsArena(view, e, startGroup, 2, rel);
        return;
      }
      if rel > 0 {
        ColumnOrderPositive(view, startGroup, 2, rel);
        assert order0 == [order0, order1][0] && order1 == [order0, order1][1];
        InducePair(view, startGroup, rel, order0, order1);
        order0, order1 := order0 - 1, order1 - 1;
        if view.At(order0) > view.At(order1) {
          order0, order1 := order1, order0;
        }
      }
      rel := rel - 1;
    }
    ok := true;
  }

  lemma PairMultiset(a: int, b: int)
    ensures multiset([a, b]) == multiset([b, a]) == multiset{a, b}
  {
    assert [a, b] == [a] + [b] && [b, a] == [b] + [a];
  }

  lemma LastColumnOfTwo(view: View, startGroup: nat)
    requires view.Valid() && GroupsInText(view, startGroup, 2)
    ensures var p, q := startGroup * 256 + 255, startGroup * 256 + 511;
            (if CompareWhole(view, q, p) < 0 then [q, p] else [p, q]) == ColumnOrder(view, startGroup, 2, 255)
  {
    hide Less, SortPositions, CompareWhole;
    var p, q := startGroup * 256 + 255, startGroup * 256 + 511;
    ColumnInText(view, startGroup, 2, 255);
    assert Column(startGroup, 2, 255) == [p, q];
    CompareWholeSign(view, q, p);
    PairMultiset(p, q);
    SortedIsSortPositions(view.Text(), [p, q], if CompareWhole(view, q, p) < 0 then [q, p] else [p, q]);
  }

  /** The induction step for two groups. */
  lemma InducePair(view: View, startGroup: nat, rel: nat, order0: int, order1: int)
    requires view.Valid() && GroupsInText(view, startGroup, 2) && 0 < rel < 256
    requires [order0, order1] == ColumnOrder(view, startGroup, 2, rel)
    ensures 0 < order0 < view.logicalLen && 0 < order1 < view.logicalLen
    ensures var p, q := order0 - 1, order1 - 1;
            (if view.At(p) > view.At(q) then [q, p] else [p, q]) == ColumnOrder(view, startGroup, 2, rel - 1)
  {
    hide Less, ColumnOrder, Sorted, LoadKey, Decremented, InText;
    PairOrder(view, startGroup, rel, order0, order1);
    var p, q := order0 - 1, order1 - 1;
    SortedPair(view, p, q);
    assert Decremented([order0, order1]) == [p, q] by { DecrementedPair(order0, order1); }
    InducedColumn(view, startGroup, 2, rel, if view.At(p) > view.At(q) then [q, p] else [p, q]);
  }

  lemma DecrementedPair(a: int, b: int)
    ensures Decremented([a, b]) == [a - 1, b - 1]
  {
  }

  lemma PairOrder(view: View, startGroup: nat, rel: nat, order0: int, order1: int)
    requires view.Valid() && GroupsInText(view, startGroup, 2) && 0 < rel < 256
    requires [order0, order1] == ColumnOrder(view, startGroup, 2, rel)
    ensures 0 < order0 < view.logicalLen && 0 < order1 < view.logicalLen && Leq(view.Text(), order0, order1)
  {
    hide Less, ColumnOrder, Sorted, LoadKey;
    var order := ColumnOrder(view, startGroup, 2, rel);
    ColumnOrderPositive(view, startGroup, 2, rel);
    assert order0 == order[0] && order1 == order[1];
    SortedAt(view.Text(), order, 0, 1);
  }

  lemma SortedPair(view: View, p: int, q: int)
    requires view.Valid() && 0 <= p < view.logicalLen - 1 && 0 <= q < view.logicalLen - 1
    requires Leq(view.Text(), p + 1, q + 1)
    ensures var induced := if view.At(p) > view.At(q) then [q, p] else [p, q];
            && InText(view.Text(), induced) && Sorted(view.Text(), induced)
            && multiset(induced) == multiset([p, q])
  {
    hide Less;
    FirstByteDecides(view, p, q);
    PairMultiset(p, q);
  }

  /** The inlined appends of the two-group loop. */
  method EmitPair(view: View, order0: int, order1: int, v: V114Scratch) returns (ok: bool)
    requires view.Valid() && InText(view.Text(), [order0, order1]) && |v.arena| <= ARENA_INDEX_COUNT
    modifies v
    ensures ok <==> |EmitOrder(view, old(v.State()), [order0, order1]).arena| <= ARENA_INDEX_COUNT
    ensures ok ==> v.State() == EmitOrder(view, old(v.State()), [order0, order1])
  {
    hide Less, LoadKey, RadixOrderKey, EmitOrder;
    EmitPairRecords(view, v.State(), order0, order1);
    assert order0 == [order0, order1][0] && order1 == [order0, order1][1];
    var key0, key1 := LoadKey(view, order0), LoadKey(view, order1);
    if key0 == key1 {
      var begin := |v.arena|;
      if begin > ARENA_INDEX_COUNT || 2 > ARENA_INDEX_COUNT - begin {
        return false;
      }
      v.arena := v.arena + [order0, order1];
      v.runs := v.runs + [Run(RadixOrderKey(key0), 2 * COUNT_UNIT + begin)];
    } else {
      v.runs := v.runs + [Run(RadixOrderKey(key0), order0), Run(RadixOrderKey(key1), order1)];
    }
    ok := true;
  }

  lemma EmitPairRecords(view: View, e: Emitted, order0: int, order1: int)
    requires view.Valid() && InText(view.Text(), [order0, order1])
    ensures 0 <= order0 < view.logicalLen && 0 <= order1 < view.logicalLen
    ensures var key0, key1 := LoadKey(view, order0), LoadKey(view, order1);
            EmitOrder(view, e, [order0, order1]) ==
              if key0 == key1
              then Emitted(e.arena + [order0, order1], e.runs + [Run(RadixOrderKey(key0), 2 * COUNT_UNIT + |e.arena|)])
              else Emitted(e.arena, e.runs + [Run(RadixOrderKey(key0), order0), Run(RadixOrderKey(key1), order1)])
  {
    hide Less, LoadKey, RadixOrderKey, LeadingEqual;
    var order := [order0, order1];
    assert order0 == order[0] && order1 == order[1];
    var key0, key1 := LoadKey(view, order0), LoadKey(view, order1);
    var c := LeadingEqual(view, order);
    if key0 == key1 {
      assert c == 2;
      assert order[..2] == order && order[2..] == [];
    } else {
      assert LoadKey(view, order[0]) != LoadKey(view, order[1]);
      assert c == 1;
      assert order[..1] == [order0] && order[1..] == [order1];
      var r0, r1 := Run(RadixOrderKey(key0), order0), Run(RadixOrderKey(key1), order1);
      var e1 := Emitted(e.arena, e.runs + [r0]);
      assert AppendGroup(e, key0, [order0]) == e1;
      EmitSingle(view, e1, order1);
      assert e.runs + [r0] + [r1] == e.runs + [r0, r1];
    }
  }

  lemma EmitSingle(view: View, e: Emitted, pos: int)
    requires view.Valid() && 0 <= pos < view.logicalLen
    ensures EmitOrder(view, e, [pos]) == Emitted(e.arena, e.runs + [Run(RadixOrderKey(LoadKey(view, pos)), pos)])
  {
    hide LoadKey, RadixOrderKey;
    assert LeadingEqual(view, [pos]) == 1;
    assert [pos][..1] == [pos] && [pos][1..] == [];
  }

  /** emitFullGroupRun: dispatch one template run of whole groups. */
  method EmitFullGroupRun(view: View, startGroup: nat, endGroup: nat, v: V114Scratch) returns (ok: bool)
    requires view.Valid() && startGroup <= endGroup && GroupsInText(view, startGroup, endGroup - startGroup)
    requires |v.arena| <= ARENA_INDEX_COUNT
    modifies v
    ensures ok <==> |EmitRun(view, old(v.State()), startGroup, endGroup - startGroup).arena| <= ARENA_INDEX_COUNT
    ensures ok ==> v.State() == EmitRun(view, old(v.State()), startGroup, endGroup - startGroup)
  {
    hide EmitColumns, EmitLiterals;
    var groupCount := endGroup - startGroup;
    if groupCount == 0 {
      return true;
    }
    if groupCount > MAX_GROUP_RUN {
      return false;
    }
    if groupCount == 1 {
      LiteralsKeepArena(view, v.State(), startGroup * 256, 256);
      EmitLiteralRecords(view, startGroup * 256, 256, v);
      return true;
    }
    if groupCount == 2 {
      ok := EmitFullGroupRunTwo(view, startGroup, v);
    } else {
      ok := EmitFullGroupRunGeneric(view, startGroup, groupCount, v);
    }
  }

  lemma {:induction false} LiteralsKeepArena(view: View, e: Emitted, from: nat, count: nat)
    requires view.Valid() && from + count <= view.logicalLen
    ensures EmitLiterals(view, e, from, count).arena == e.arena
    decreases count
  {
    if count > 0 {
      LiteralsKeepArena(view, e, from, count - 1);
    }
  }
}
