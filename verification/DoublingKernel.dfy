/** The GPU-resident suffix array kernel (sa_batch_main): prefix doubling by one workgroup, whose lanes
    run in any order between barriers. */
module DoublingKernel {
  import opened Suffixes
  import opened Bytes
  import opened PrefixOrder
  import opened CountingSort
  import opened KernelSort
  import Words = WolfKernel

  /** Ranks, shifted up by one, have to fit in three bytes: the passes a round makes at most. */
  const MAX_SUFFIXES: nat := 0xfffffe

  // ----- Ranks -----

  /** rank orders the suffixes by their first h characters. */
  ghost predicate RanksBy(t: seq<int>, rank: seq<int>, h: nat) {
    && |rank| == |t|
    && (forall a :: 0 <= a < |t| ==> rank[a] >= 0)
    && (forall a, b :: 0 <= a < |t| && 0 <= b < |t| ==> (rank[a] < rank[b] <==> LessUpTo(t, a, b, h)))
    && (forall a, b :: 0 <= a < |t| && 0 <= b < |t| ==> (rank[a] == rank[b] <==> SameUpTo(t, a, b, h)))
  }

  /** The two sort keys of a round together order the suffixes by twice as many characters. */
  lemma KeysDouble(t: seq<int>, rank: seq<int>, h: nat, a: int, b: int)
    requires RanksBy(t, rank, h) && h > 0 && 0 <= a < |t| && 0 <= b < |t|
    ensures var a1, a2, b1, b2 := SgKey(Keying(rank, h, 1), a), SgKey(Keying(rank, h, 0), a),
                                  SgKey(Keying(rank, h, 1), b), SgKey(Keying(rank, h, 0), b);
            && (LessUpTo(t, a, b, 2 * h) <==> a1 < b1 || (a1 == b1 && a2 < b2))
            && (SameUpTo(t, a, b, 2 * h) <==> a1 == b1 && a2 == b2)
  {
    hide LessUpTo, SameUpTo;
    Doubling(t, a, b, h, h);
    SecondKey(t, rank, h, a, b);
  }

  lemma SecondKey(t: seq<int>, rank: seq<int>, h: nat, a: int, b: int)
    requires RanksBy(t, rank, h) && h > 0 && 0 <= a < |t| && 0 <= b < |t|
    ensures var a2, b2 := SgKey(Keying(rank, h, 0), a), SgKey(Keying(rank, h, 0), b);
            && (LessUpTo(t, Capped(t, a + h), Capped(t, b + h), h) <==> a2 < b2)
            && (SameUpTo(t, Capped(t, a + h), Capped(t, b + h), h) <==> a2 == b2)
  {
    var n := |t|;
    if a + h < n && b + h < n {
      hide LessUpTo, SameUpTo;
    } else {
      hide RanksBy;
      assert a + h >= n ==> SgKey(Keying(rank, h, 0), a) == 0;
      assert b + h >= n ==> SgKey(Keying(rank, h, 0), b) == 0;
      if a + h < n {
        KeyPositive(t, rank, h, a);
      }
      if b + h < n {
        KeyPositive(t, rank, h, b);
      }
    }
  }

  lemma KeyPositive(t: seq<int>, rank: seq<int>, h: nat, a: int)
    requires RanksBy(t, rank, h) && 0 <= a && a + h < |t|
    ensures SgKey(Keying(rank, h, 0), a) > 0
  {
  }

  /** The first bytes rank the suffixes by one character. */
  lemma InitialRanks(t: seq<int>, rank: seq<int>)
    requires |rank| == |t| && forall a :: 0 <= a < |t| ==> rank[a] == t[a] >= 0
    ensures RanksBy(t, rank, 1)
  {
    forall a, b | 0 <= a < |t| && 0 <= b < |t|
      ensures rank[a] < rank[b] <==> LessUpTo(t, a, b, 1)
      ensures rank[a] == rank[b] <==> SameUpTo(t, a, b, 1)
    {
      assert !LessUpTo(t, a + 1, b + 1, 0) && SameUpTo(t, a + 1, b + 1, 0);
    }
  }

  // ----- One round: sort by the two keys -----

  /** sa holds each position once, ordered by the first k characters. */
  ghost predicate SortedUpTo(t: seq<int>, sa: seq<int>, k: nat) {
    && |sa| == |t| && InText(t, sa) && multiset(sa) == multiset(Iota(|t|))
    && forall i, j :: 0 <= i < j < |sa| ==> !LessUpTo(t, sa[j], sa[i], k)
  }

  ghost function Zero(): int -> int {
    s => 0
  }

  /** The pair of keys as the number the two sorts go by. */
  ghost function PairOf(rank: seq<int>, h: nat, p: nat): int -> int {
    PairKey(Keying(rank, h, 1), p, PairKey(Keying(rank, h, 0), p, Zero(), 1), Pow256(p))
  }

  ghost predicate KeysFit(rank: seq<int>, p: nat) {
    p <= 3 && forall a :: 0 <= a < |rank| ==> 0 <= rank[a] && rank[a] + 1 < Pow256(p)
  }

  lemma PairOfValue(rank: seq<int>, h: nat, p: nat, x: int)
    requires KeysFit(rank, p) && 0 <= x < |rank|
    ensures var k1, k2 := SgKey(Keying(rank, h, 1), x), SgKey(Keying(rank, h, 0), x);
            0 <= k1 < Pow256(p) && 0 <= k2 < Pow256(p) && PairOf(rank, h, p)(x) == k1 * Pow256(p) + k2
  {
    hide Pow256;
    var k1, k2 := SgKey(Keying(rank, h, 1), x), SgKey(Keying(rank, h, 0), x);
    assert 0 <= k1 < Pow256(p) && 0 <= k2 < Pow256(p);
    SmallModulus(k1, Pow256(p));
    SmallModulus(k2, Pow256(p));
    assert PairKey(Keying(rank, h, 0), p, Zero(), 1)(x) == k2 * 1 + 0;
  }

  lemma SmallModulus(x: int, m: int)
    requires 0 <= x < m
    ensures x % m == x
  {
  }

  lemma PairCompare(a1: int, a2: int, b1: int, b2: int, m: int)
    requires 0 <= a2 < m && 0 <= b2 < m && a1 * m + a2 <= b1 * m + b2
    ensures a1 < b1 || (a1 == b1 && a2 <= b2)
  {
    if b1 < a1 {
      FirstDecides(b1, a1, m);
    }
  }

  lemma FirstDecides(a: int, b: int, m: int)
    requires a < b && m > 0
    ensures (a + 1) * m <= b * m
  {
  }

  /** The two stable sorts leave the positions ordered by twice as many characters. */
  lemma TwoSortsDouble(t: seq<int>, sa: seq<int>, rank: seq<int>, h: nat, p: nat)
    requires |sa| == |t| && InText(t, sa) && multiset(sa) == multiset(Iota(|t|))
    requires RanksBy(t, rank, h) && h > 0 && KeysFit(rank, p)
    ensures SortedUpTo(t, Passes(Passes(sa, Keying(rank, h, 0), p), Keying(rank, h, 1), p), 2 * h)
  {
    hide LessUpTo, SameUpTo, Passes, Pow256, RanksBy;
    var k0, k1 := Keying(rank, h, 0), Keying(rank, h, 1);
    assert |rank| == |t| by { RanksLength(t, rank, h); }
    var sa1, sa2 := Passes(sa, k0, p), Passes(Passes(sa, k0, p), k1, p);
    var lo := PairKey(k0, p, Zero(), 1);
    assert SortedBy(sa, Zero());
    KeysNonNegative(t, rank, h, sa, p);
    PassesSort(sa, k0, p, Zero(), 1);
    LowKeys(t, rank, h, sa, p);
    forall x | x in sa1 ensures x in sa {
      assert x in multiset(sa1);
    }
    PassesSort(sa1, k1, p, lo, Pow256(p));
    InTextPermutation(t, sa, sa2);
    assert |multiset(sa2)| == |multiset(sa)|;
    forall i, j | 0 <= i < j < |sa2| ensures !LessUpTo(t, sa2[j], sa2[i], 2 * h) {
      var a, b := sa2[i], sa2[j];
      assert PairOf(rank, h, p)(a) <= PairOf(rank, h, p)(b);
      PairsOrdered(t, rank, h, p, a, b);
    }
  }

  lemma RanksLength(t: seq<int>, rank: seq<int>, h: nat)
    requires RanksBy(t, rank, h)
    ensures |rank| == |t|
  {
  }

  lemma KeysNonNegative(t: seq<int>, rank: seq<int>, h: nat, sa: seq<int>, p: nat)
    requires InText(t, sa) && |rank| == |t| && KeysFit(rank, p)
    ensures forall x :: x in sa ==> SgKey(Keying(rank, h, 0), x) >= 0 && SgKey(Keying(rank, h, 1), x) >= 0
  {
    hide Pow256;
  }

  lemma LowKeys(t: seq<int>, rank: seq<int>, h: nat, sa: seq<int>, p: nat)
    requires InText(t, sa) && |rank| == |t| && KeysFit(rank, p)
    ensures forall x :: x in sa ==> 0 <= PairKey(Keying(rank, h, 0), p, Zero(), 1)(x) < Pow256(p)
  {
    hide Pow256;
    forall x | x in sa ensures 0 <= PairKey(Keying(rank, h, 0), p, Zero(), 1)(x) < Pow256(p) {
      var k2 := SgKey(Keying(rank, h, 0), x);
      assert 0 <= k2 < Pow256(p);
      SmallModulus(k2, Pow256(p));
      assert PairKey(Keying(rank, h, 0), p, Zero(), 1)(x) == k2 * 1 + 0;
    }
  }

  lemma PairsOrdered(t: seq<int>, rank: seq<int>, h: nat, p: nat, a: int, b: int)
    requires RanksBy(t, rank, h) && h > 0 && KeysFit(rank, p) && 0 <= a < |t| && 0 <= b < |t|
    requires PairOf(rank, h, p)(a) <= PairOf(rank, h, p)(b)
    ensures !LessUpTo(t, b, a, 2 * h)
  {
    hide LessUpTo, SameUpTo, Pow256, PairOf, KeysFit, SgKey;
    RanksLength(t, rank, h);
    PairOfValue(rank, h, p, a);
    PairOfValue(rank, h, p, b);
    PairCompare(SgKey(Keying(rank, h, 1), a), SgKey(Keying(rank, h, 0), a),
                SgKey(Keying(rank, h, 1), b), SgKey(Keying(rank, h, 0), b), Pow256(p));
    KeysDouble(t, rank, h, b, a);
  }

  // ----- One round: rebuild the ranks -----

  /** Whether entry k opens a new group of suffixes that agree on k characters. */
  ghost function Change(t: seq<int>, sa: seq<int>, h: nat, k: int): int
    requires InText(t, sa) && 0 <= k < |sa|
  {
    if k == 0 || !SameUpTo(t, sa[k - 1], sa[k], h) then 1 else 0
  }

  /** The number of groups among the first k entries. */
  ghost function Groups(t: seq<int>, sa: seq<int>, h: nat, k: nat): (g: nat)
    requires InText(t, sa) && k <= |sa|
    ensures g <= k && (k > 0 ==> g >= 1)
  {
    if k == 0 then 0 else Groups(t, sa, h, k - 1) + Change(t, sa, h, k - 1)
  }

  /** Two entries are in one group exactly when they agree, and groups are numbered in order. */
  lemma {:induction false} GroupsOrder(t: seq<int>, sa: seq<int>, h: nat, i: nat, j: nat)
    requires SortedUpTo(t, sa, h) && i <= j < |sa|
    ensures Groups(t, sa, h, i + 1) <= Groups(t, sa, h, j + 1)
    ensures Groups(t, sa, h, i + 1) == Groups(t, sa, h, j + 1) <==> SameUpTo(t, sa[i], sa[j], h)
    decreases j - i
  {
    hide LessUpTo, SameUpTo;
    if i == j {
      SameReflexive(t, sa[i], h);
    } else {
      GroupsOrder(t, sa, h, i, j - 1);
      if i < j - 1 {
        UpToTransitive(t, sa[i], sa[j - 1], sa[j], h);
      } else {
        SameReflexive(t, sa[i], h);
      }
    }
  }

  /** Numbering the groups ranks the suffixes by h characters. */
  lemma GroupsRank(t: seq<int>, sa: seq<int>, h: nat, rank: seq<int>)
    requires SortedUpTo(t, sa, h) && |rank| == |t|
    requires forall k :: 0 <= k < |sa| ==> rank[sa[k]] == Groups(t, sa, h, k + 1)
    ensures RanksBy(t, rank, h)
    ensures forall a :: 0 <= a < |t| ==> 1 <= rank[a] <= Groups(t, sa, h, |sa|)
  {
    hide LessUpTo, SameUpTo, Groups;
    forall a | 0 <= a < |t| ensures 1 <= rank[a] <= Groups(t, sa, h, |sa|) {
      var k := EntryOf(t, sa, h, a);
      GroupsOrder(t, sa, h, k, |sa| - 1);
    }
    forall a, b | 0 <= a < |t| && 0 <= b < |t|
      ensures rank[a] < rank[b] <==> LessUpTo(t, a, b, h)
      ensures rank[a] == rank[b] <==> SameUpTo(t, a, b, h)
    {
      var i := EntryOf(t, sa, h, a);
      var j := EntryOf(t, sa, h, b);
      GroupsAgree(t, sa, h, i, j);
    }
  }

  lemma EntryOf(t: seq<int>, sa: seq<int>, h: nat, a: int) returns (k: nat)
    requires SortedUpTo(t, sa, h) && 0 <= a < |t|
    ensures k < |sa| && sa[k] == a
  {
    assert Iota(|t|)[a] in multiset(sa);
    k :| 0 <= k < |sa| && sa[k] == a;
  }

  lemma GroupsAgree(t: seq<int>, sa: seq<int>, h: nat, i: nat, j: nat)
    requires SortedUpTo(t, sa, h) && i < |sa| && j < |sa|
    ensures Groups(t, sa, h, i + 1) < Groups(t, sa, h, j + 1) <==> LessUpTo(t, sa[i], sa[j], h)
    ensures Groups(t, sa, h, i + 1) == Groups(t, sa, h, j + 1) <==> SameUpTo(t, sa[i], sa[j], h)
  {
    hide LessUpTo, SameUpTo, Groups;
    Trichotomy(t, sa[i], sa[j], h);
    Trichotomy(t, sa[j], sa[i], h);
    if i <= j {
      GroupsOrder(t, sa, h, i, j);
    } else {
      GroupsOrder(t, sa, h, j, i);
    }
  }

  /** As many groups as suffixes: all suffixes differ, and the order is final. */
  lemma AllDistinct(t: seq<int>, sa: seq<int>, h: nat)
    requires SortedUpTo(t, sa, h) && Groups(t, sa, h, |sa|) == |sa|
    ensures IsSuffixArray(t, sa)
  {
    hide LessUpTo, SameUpTo, Groups, Less;
    forall i, j | 0 <= i < j < |sa| ensures Leq(t, sa[i], sa[j]) {
      FewerGroups(t, sa, h, i + 1, |sa|);
      FewerGroups(t, sa, h, j + 1, |sa|);
      GroupsOrder(t, sa, h, i, j);
      Trichotomy(t, sa[i], sa[j], h);
      UpToIsLess(t, sa[i], sa[j], h);
    }
    SortedIotaIsSuffixArray(t, sa);
  }

  lemma {:induction false} FewerGroups(t: seq<int>, sa: seq<int>, h: nat, k: nat, n: nat)
    requires InText(t, sa) && k <= n <= |sa|
    ensures Groups(t, sa, h, n) <= Groups(t, sa, h, k) + (n - k)
    decreases n
  {
    if k < n {
      FewerGroups(t, sa, h, k, n - 1);
    }
  }

  lemma {:induction false} UpToIsLess(t: seq<int>, a: int, b: int, k: nat)
    requires 0 <= a <= |t| && 0 <= b <= |t| && LessUpTo(t, a, b, k)
    ensures Less(t, a, b)
    decreases k
  {
    if a < |t| && t[a] == t[b] {
      UpToIsLess(t, a + 1, b + 1, k - 1);
    }
  }

  /** Prefixes as long as the text: the order is final. */
  lemma LongPrefixes(t: seq<int>, sa: seq<int>, h: nat)
    requires SortedUpTo(t, sa, h) && h >= |t|
    ensures IsSuffixArray(t, sa)
  {
    hide LessUpTo, Less;
    forall i, j | 0 <= i < j < |sa| ensures Leq(t, sa[i], sa[j]) {
      LeqTotal(t, sa[j], sa[i]);
      if sa[i] != sa[j] {
        UpToWhole(t, sa[j], sa[i], h);
      }
    }
    SortedIotaIsSuffixArray(t, sa);
  }

  // ----- The lanes at work -----

  /** sg_byte: one byte of the packed text words. */
  function SgByte(words: seq<bv32>, i: nat): byte
    requires i / 4 < |words|
  {
    Words.ByteOf(words[i / 4], i % 4) as int
  }

  /** The text of n bytes packed in words. */
  ghost function PackedText(words: seq<bv32>, n: nat): seq<byte>
    requires n <= 4 * |words|
  {
    seq(n, i requires 0 <= i < n => SgByte(words, i))
  }

  method InitPhase(words: seq<bv32>, sa: array<int>, rank: array<int>)
    requires sa != rank && sa.Length == rank.Length <= 4 * |words|
    modifies sa, rank
    ensures sa[..] == Iota(sa.Length)
    ensures forall i :: 0 <= i < rank.Length ==> rank[i] == PackedText(words, sa.Length)[i]
  {
    var todo := Below(sa.Length);
    while todo != {}
      invariant forall i :: i in todo ==> i < sa.Length
      invariant forall i: nat :: i < sa.Length && i !in todo ==> sa[i] == i && rank[i] == SgByte(words, i)
    {
      var i :| i in todo;
      todo := todo - {i};
      sa[i] := i;
      rank[i] := SgByte(words, i);
    }
  }

  /** The lane's part of rebuilding the ranks: does entry i differ from the entry before it? */
  method ChangeFlag(sa: array<int>, k1: Keying, k2: Keying, i: nat, ghost t: seq<int>, ghost h: nat) returns (chg: int)
    requires i < sa.Length && RanksBy(t, k1.rank, h) && h > 0
    requires k1 == Keying(k1.rank, h, 1) && k2 == Keying(k1.rank, h, 0)
    requires InText(t, sa[..])
    ensures chg == Change(t, sa[..], 2 * h, i)
  {
    hide RanksBy, SameUpTo, LessUpTo, SgKey;
    chg := 0;
    if i == 0 {
      chg := 1;
    } else {
      var s, sp := sa[i], sa[i - 1];
      KeysDouble(t, k1.rank, h, sp, s);
      if SgKey(k1, s) != SgKey(k1, sp) || SgKey(k2, s) != SgKey(k2, sp) {
        chg := 1;
      }
    }
  }

  /** Each lane stores its flag, idle lanes zero. */
  method FlagPhase(sa: array<int>, rank: seq<int>, tile: nat, scan: array<int>, ghost t: seq<int>, h: nat)
    requires sa != scan && scan.Length == LANES && RanksBy(t, rank, h) && h > 0 && InText(t, sa[..])
    modifies scan
    ensures forall u :: 0 <= u < LANES ==>
              scan[u] == if tile * LANES + u < sa.Length then Change(t, sa[..], 2 * h, tile * LANES + u) else 0
  {
    hide RanksBy, Change, Below;
    ghost var s := sa[..];
    var todo := AllLanes();
    while todo != {}
      invariant todo <= AllLanes() && sa[..] == s
      invariant forall u: nat :: u < LANES && u !in todo ==>
                  scan[u] == if tile * LANES + u < sa.Length then Change(t, s, 2 * h, tile * LANES + u) else 0
    {
      var u :| u in todo;
      todo := todo - {u};
      var k := tile * LANES + u;
      var chg := 0;
      if k < sa.Length {
        chg := ChangeFlag(sa, Keying(rank, h, 1), Keying(rank, h, 0), k, t, h);
      }
      scan[u] := chg;
    }
  }

  /** x[i] + ... + x[j - 1]. */
  ghost function Sum(x: seq<int>, i: int, j: int): int
    requires 0 <= i <= j <= |x|
    decreases j
  {
    if i == j then 0 else Sum(x, i, j - 1) + x[j - 1]
  }

  lemma {:induction false} SumSplit(x: seq<int>, i: int, m: int, j: int)
    requires 0 <= i <= m <= j <= |x|
    ensures Sum(x, i, j) == Sum(x, i, m) + Sum(x, m, j)
    decreases j
  {
    if m < j {
      SumSplit(x, i, m, j - 1);
    }
  }

  function Back(t: int, d: int): int {
    if t + 1 >= d then t + 1 - d else 0
  }

  /** The Hillis-Steele inclusive scan over the 256 lanes.  In each step every lane first reads into a
      private variable, then, behind a barrier, writes. */
  method ScanPhases(scan: array<int>)
    requires scan.Length == LANES
    modifies scan
    ensures forall t :: 0 <= t < LANES ==> scan[t] == Sum(old(scan[..]), 0, t + 1)
  {
    ghost var x := scan[..];
    var private_ := new int[LANES];
    var d := 1;
    while d < LANES
      invariant d in {1, 2, 4, 8, 16, 32, 64, 128, 256}
      invariant forall t :: 0 <= t < LANES ==> scan[t] == Sum(x, Back(t, d), t + 1)
      decreases LANES - d
    {
      ReadPhase(scan, private_, d, x);
      StoreBackPhase(private_, scan);
      d := d * 2;
    }
  }

  method ReadPhase(scan: array<int>, private_: array<int>, d: nat, ghost x: seq<int>)
    requires scan.Length == private_.Length == LANES == |x| && scan != private_ && d > 0
    requires forall t :: 0 <= t < LANES ==> scan[t] == Sum(x, Back(t, d), t + 1)
    modifies private_
    ensures forall t :: 0 <= t < LANES ==> private_[t] == Sum(x, Back(t, 2 * d), t + 1)
  {
    hide Below, Sum;
    var todo := AllLanes();
    while todo != {}
      invariant todo <= AllLanes()
      invariant forall t: nat :: t < LANES && t !in todo ==> private_[t] == Sum(x, Back(t, 2 * d), t + 1)
    {
      var t :| t in todo;
      todo := todo - {t};
      var v := scan[t];
      if t >= d {
        v := v + scan[t - d];
        SumSplit(x, Back(t - d, d), t - d + 1, t + 1);
      }
      private_[t] := v;
    }
  }

  method StoreBackPhase(private_: array<int>, scan: array<int>)
    requires scan.Length == private_.Length == LANES && scan != private_
    modifies scan
    ensures forall t :: 0 <= t < LANES ==> scan[t] == private_[t]
  {
    hide Below;
    var todo := AllLanes();
    while todo != {}
      invariant todo <= AllLanes()
      invariant forall t: nat :: t < LANES && t !in todo ==> scan[t] == private_[t]
    {
      var t :| t in todo;
      todo := todo - {t};
      scan[t] := private_[t];
    }
  }

  /** The scanned flags of a tile count the groups up to each entry. */
  lemma {:induction false} ScannedGroups(t: seq<int>, sa: seq<int>, h: nat, lo: nat, x: seq<int>, u: nat)
    requires InText(t, sa) && u <= |x| && lo <= |sa|
    requires forall v :: 0 <= v < |x| ==> x[v] == if lo + v < |sa| then Change(t, sa, h, lo + v) else 0
    ensures var end := if lo + u <= |sa| then lo + u else |sa|;
            Groups(t, sa, h, lo) + Sum(x, 0, u) == Groups(t, sa, h, end)
    decreases u
  {
    hide Change;
    if u > 0 {
      ScannedGroups(t, sa, h, lo, x, u - 1);
    }
  }

  /** Each active lane stores the rank of its suffix. */
  method RankPhase(sa: array<int>, rank2: array<int>, tile: nat, scan: array<int>, scanBase: nat, ghost t: seq<int>, ghost h: nat)
    requires sa.Length == rank2.Length && sa != rank2 && rank2 != scan && scan.Length == LANES
    requires SortedUpTo(t, sa[..], h) && tile * LANES < sa.Length
    requires forall u :: 0 <= u < LANES && tile * LANES + u < sa.Length ==>
               scanBase + scan[u] == Groups(t, sa[..], h, tile * LANES + u + 1)
    requires forall i :: 0 <= i < tile * LANES ==> rank2[sa[i]] == Groups(t, sa[..], h, i + 1)
    modifies rank2
    ensures forall i :: 0 <= i < sa.Length && i < (tile + 1) * LANES ==> rank2[sa[i]] == Groups(t, sa[..], h, i + 1)
  {
    hide Below, Groups, LessUpTo;
    ghost var s := sa[..];
    EntriesDistinct(t, s, h);
    var todo := AllLanes();
    while todo != {}
      invariant todo <= AllLanes() && sa[..] == s
      invariant forall i :: 0 <= i < tile * LANES ==> rank2[s[i]] == Groups(t, s, h, i + 1)
      invariant forall i :: tile * LANES <= i < |s| && i < (tile + 1) * LANES && i - tile * LANES !in todo ==>
                  rank2[s[i]] == Groups(t, s, h, i + 1)
    {
      var u :| u in todo;
      todo := todo - {u};
      var k := tile * LANES + u;
      if k < sa.Length {
        rank2[sa[k]] := scanBase + scan[u];
      }
    }
  }

  lemma EntriesDistinct(t: seq<int>, sa: seq<int>, h: nat)
    requires SortedUpTo(t, sa, h)
    ensures forall i, j :: 0 <= i < j < |sa| ==> sa[i] != sa[j]
  {
    hide LessUpTo;
    forall i, j | 0 <= i < j < |sa| ensures sa[i] != sa[j] {
      if sa[i] == sa[j] {
        TwiceMultiplicity(sa, i, j);
        IotaMultiplicity(|t|, sa[i]);
      }
    }
  }

  /** Rebuild the ranks tile by tile; the running base counts the groups so far. */
  method RebuildRanks(sa: array<int>, rank: seq<int>, rank2: array<int>, h: nat, scan: array<int>, ghost t: seq<int>)
    returns (scanBase: nat)
    requires sa.Length == rank2.Length && sa != rank2 && scan != rank2 && scan != sa && scan.Length == LANES
    requires SortedUpTo(t, sa[..], 2 * h) && RanksBy(t, rank, h) && h > 0
    modifies rank2, scan
    ensures RanksBy(t, rank2[..], 2 * h)
    ensures scanBase == Groups(t, sa[..], 2 * h, sa.Length)
    ensures forall a :: 0 <= a < rank2.Length ==> 1 <= rank2[a] <= scanBase
  {
    hide SortedUpTo, RanksBy, Groups, Change, Sum;
    ghost var s := sa[..];
    SortedShape(t, s, 2 * h);
    var n := sa.Length;
    var nTiles := (n + LANES - 1) / LANES;
    scanBase := 0;
    var tile := 0;
    assert Groups(t, s, 2 * h, 0) == 0 by { NoGroups(t, s, 2 * h); }
    while tile < nTiles
      invariant 0 <= tile <= nTiles && sa[..] == s
      invariant scanBase == Groups(t, s, 2 * h, if tile * LANES <= n then tile * LANES else n)
      invariant forall i :: 0 <= i < n && i < tile * LANES ==> rank2[s[i]] == Groups(t, s, 2 * h, i + 1)
    {
      FlagPhase(sa, rank, tile, scan, t, h);
      ghost var x := scan[..];
      ScanPhases(scan);
      forall u | 0 <= u < LANES && tile * LANES + u < n
        ensures scanBase + scan[u] == Groups(t, s, 2 * h, tile * LANES + u + 1)
      {
        ScannedGroups(t, s, 2 * h, tile * LANES, x, u + 1);
      }
      ScannedGroups(t, s, 2 * h, tile * LANES, x, LANES);
      RankPhase(sa, rank2, tile, scan, scanBase, t, 2 * h);
      scanBase := scanBase + scan[LANES - 1];
      tile := tile + 1;
    }
    GroupsRank(t, s, 2 * h, rank2[..]);
  }

  lemma SortedShape(t: seq<int>, sa: seq<int>, h: nat)
    requires SortedUpTo(t, sa, h)
    ensures |sa| == |t| && InText(t, sa)
  {
  }

  lemma NoGroups(t: seq<int>, sa: seq<int>, h: nat)
    requires InText(t, sa)
    ensures Groups(t, sa, h, 0) == 0
  {
  }

  /** The number of byte passes for the current key range. */
  function PassesFor(maxRank: nat): nat {
    if maxRank + 1 >= 0x10000 then 3 else if maxRank + 1 >= 0x100 then 2 else 1
  }

  /** The chosen passes cover every key of the round, exactly as long as ranks stay below 2^24 - 1: the
      kernel has no fourth pass. */
  lemma PassesCover(rank: seq<int>, maxRank: nat)
    requires forall a :: 0 <= a < |rank| ==> 0 <= rank[a] <= maxRank
    ensures maxRank + 1 < 0x1000000 ==> KeysFit(rank, PassesFor(maxRank))
    ensures maxRank in rank && KeysFit(rank, PassesFor(maxRank)) ==> maxRank + 1 < 0x1000000
  {
    assert Pow256(1) == 256 * Pow256(0);
    assert Pow256(2) == 256 * Pow256(1);
    assert Pow256(3) == 256 * Pow256(2);
  }

  function Pow2(e: nat): (p: nat)
    ensures p > 0
  {
    if e == 0 then 1 else 2 * Pow2(e - 1)
  }

  /** ceilLog2 of cmd/tiedepth: the least l with 2^l >= n. */
  method CeilLog2(n: nat) returns (l: nat)
    ensures Pow2(l) >= n && (l > 0 ==> Pow2(l - 1) < n)
  {
    l := 0;
    while Pow2(l) < n
      invariant l > 0 ==> Pow2(l - 1) < n
      decreases n - Pow2(l)
    {
      l := l + 1;
    }
  }

  lemma {:induction false} Pow2Monotone(a: nat, b: nat)
    requires Pow2(a) < Pow2(b)
    ensures a < b
    decreases a
  {
    if a > 0 && b > 0 {
      Pow2Monotone(a - 1, b - 1);
    }
  }

  /** One doubling round: sort by the second key, then by the first, and rebuild the ranks. */
  method Round(sa: array<int>, sa2: array<int>, rank: array<int>, rank2: array<int>, scan: array<int>, w: Workgroup,
               h: nat, maxRank: nat, ghost t: seq<int>)
    returns (groups: nat)
    requires w.Valid() && sa.Length == sa2.Length == rank.Length == rank2.Length == |t| <= MAX_SUFFIXES
    requires scan.Length == LANES
    requires sa != sa2 && sa != rank && sa != rank2 && sa2 != rank && sa2 != rank2 && rank != rank2
    requires scan != sa && scan != sa2 && scan != rank && scan != rank2
    requires sa !in w.Arrays() && sa2 !in w.Arrays() && rank !in w.Arrays() && rank2 !in w.Arrays() && scan !in w.Arrays()
    requires InText(t, sa[..]) && multiset(sa[..]) == multiset(Iota(|t|))
    requires RanksBy(t, rank[..], h) && h > 0
    requires maxRank + 1 < 0x1000000 && forall a :: 0 <= a < rank.Length ==> 0 <= rank[a] <= maxRank
    modifies sa, sa2, rank, rank2, scan, w.Arrays()
    ensures SortedUpTo(t, sa[..], 2 * h) && RanksBy(t, rank[..], 2 * h)
    ensures groups == Groups(t, sa[..], 2 * h, |t|)
    ensures forall a :: 0 <= a < rank.Length ==> 0 <= rank[a] <= groups
  {
    hide SortedUpTo, RanksBy, Groups, Passes, PassesFor;
    ghost var s, r := sa[..], rank[..];
    var passes := PassesFor(maxRank);
    PassesCover(r, maxRank);
    SgSort(sa, sa2, Keying(rank[..], h, 0), passes, w);
    assert rank[..] == r;
    SgSort(sa, sa2, Keying(rank[..], h, 1), passes, w);
    assert rank[..] == r;
    TwoSortsDouble(t, s, r, h, passes);
    SortedShape(t, sa[..], 2 * h);
    groups := RebuildRanks(sa, rank[..], rank2, h, scan, t);
    CopyPhase(rank2, rank);
  }

  /** sa_batch_main for one hash: for every text and length, and any interleaving of the lanes, sa ends
      as the suffix array, after at most ceil(log2 n) rounds. */
  method SaBatchMain(words: seq<bv32>, n: nat, sa: array<int>, sa2: array<int>, rank: array<int>, rank2: array<int>,
                     scan: array<int>, w: Workgroup)
    returns (ghost rounds: nat)
    requires w.Valid() && sa.Length == sa2.Length == rank.Length == rank2.Length == n <= MAX_SUFFIXES && n <= 4 * |words|
    requires scan.Length == LANES
    requires sa != sa2 && sa != rank && sa != rank2 && sa2 != rank && sa2 != rank2 && rank != rank2
    requires scan != sa && scan != sa2 && scan != rank && scan != rank2
    requires sa !in w.Arrays() && sa2 !in w.Arrays() && rank !in w.Arrays() && rank2 !in w.Arrays() && scan !in w.Arrays()
    modifies sa, sa2, rank, rank2, scan, w.Arrays()
    ensures IsSuffixArray(PackedText(words, n), sa[..])
    ensures forall l :: Pow2(l) >= n ==> rounds <= l
  {
    hide SortedUpTo, RanksBy, Groups, IsSuffixArray;
    rounds := 0;
    ghost var t := PackedText(words, n);
    if n == 0 {
      EmptySuffixArray(t, sa[..]);
      return;
    }
    InitPhase(words, sa, rank);
    InitialRanks(t, rank[..]);
    var maxRank := 255;
    var h := 1;
    while h < n
      invariant h == Pow2(rounds) && (rounds > 0 ==> Pow2(rounds - 1) < n)
      invariant InText(t, sa[..]) && multiset(sa[..]) == multiset(Iota(n))
      invariant RanksBy(t, rank[..], h)
      invariant 0 <= maxRank <= MAX_SUFFIXES && forall a :: 0 <= a < rank.Length ==> 0 <= rank[a] <= maxRank
      invariant h > 1 ==> SortedUpTo(t, sa[..], h)
      decreases n - h
    {
      var groups := Round(sa, sa2, rank, rank2, scan, w, h, maxRank, t);
      assert InText(t, sa[..]) && multiset(sa[..]) == multiset(Iota(n)) by { SortedPermutes(t, sa[..], 2 * h); }
      maxRank := groups;
      rounds := rounds + 1;
      h := h * 2;
      if groups == n {
        AllDistinct(t, sa[..], h);
        RoundsBound(rounds, n);
        return;
      }
    }
    if h > 1 {
      LongPrefixes(t, sa[..], h);
    } else {
      SingleSuffix(t, sa[..]);
    }
    RoundsBound(rounds, n);
  }

  lemma SortedPermutes(t: seq<int>, sa: seq<int>, h: nat)
    requires SortedUpTo(t, sa, h)
    ensures InText(t, sa) && multiset(sa) == multiset(Iota(|t|))
  {
  }

  lemma EmptySuffixArray(t: seq<int>, sa: seq<int>)
    requires t == [] && sa == []
    ensures IsSuffixArray(t, sa)
  {
  }

  lemma SingleSuffix(t: seq<int>, sa: seq<int>)
    requires |t| == 1 && InText(t, sa) && multiset(sa) == multiset(Iota(1))
    ensures IsSuffixArray(t, sa)
  {
    assert |multiset(sa)| == |sa|;
    SortedIotaIsSuffixArray(t, sa);
  }

  lemma RoundsBound(rounds: nat, n: nat)
    requires rounds > 0 ==> Pow2(rounds - 1) < n
    ensures forall l :: Pow2(l) >= n ==> rounds <= l
  {
    forall l | Pow2(l) >= n ensures rounds <= l {
      if rounds > 0 {
        Pow2Monotone(rounds - 1, l);
      }
    }
  }
}
