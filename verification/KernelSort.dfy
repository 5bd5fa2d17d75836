/** The tile-stable radix sort of the GPU suffix-array kernel (sg_sort).  A workgroup of 256 lanes runs
    in phases separated by barriers; within a phase the lanes take their steps in any order, which is
    modelled by picking an arbitrary lane (or an arbitrary pending atomic addition) that is still to run. */
module KernelSort {
  import opened Bytes
  import opened CountingSort

  const LANES: nat := 256
  const NO_DIGIT: int := 0xffffffff

  /** The keys a sort goes by: sel 1 is the rank of the suffix itself, sel 0 the rank h further on,
      shifted up by one so that 0 stands for a suffix that has ended. */
  datatype Keying = Keying(rank: seq<int>, h: nat, sel: nat)

  /** sg_key. */
  function SgKey(k: Keying, s: int): int {
    if k.sel == 1 then (if 0 <= s < |k.rank| then k.rank[s] else 0)
    else if 0 <= s && s + k.h < |k.rank| then k.rank[s + k.h] + 1
    else 0
  }

  /** sg_digit: byte number pass of the key. */
  function SgDigit(k: Keying, pass: nat, s: int): int
    ensures 0 <= SgDigit(k, pass, s) < 256
  {
    SgKey(k, s) / Pow256(pass) % 256
  }

  ghost function DigitOf(k: Keying, pass: nat): int -> int {
    s => SgDigit(k, pass, s)
  }

  lemma DigitsFit(k: Keying, pass: nat, s: seq<int>)
    ensures DigitsBelow(s, DigitOf(k, pass), RADIX)
  {
  }

  /** The indices below n. */
  function Below(n: nat): (r: set<nat>)
    ensures forall t: nat :: t in r <==> t < n
  {
    if n == 0 then {} else Below(n - 1) + {n - 1}
  }

  function AllLanes(): set<nat> {
    Below(LANES)
  }

  /** The workgroup memory of the sort. */
  class Workgroup {
    const hist: array<int>
    const base: array<int>
    const run: array<int>
    const tileDigit: array<int>
    const tileHist: array<int>

    constructor ()
      ensures Valid() && fresh(hist) && fresh(base) && fresh(run) && fresh(tileDigit) && fresh(tileHist)
    {
      hist := new int[LANES];
      base := new int[LANES];
      run := new int[LANES];
      tileDigit := new int[LANES];
      tileHist := new int[LANES];
    }

    predicate Valid() {
      && hist.Length == base.Length == run.Length == tileDigit.Length == tileHist.Length == LANES
      && base != run && hist != base && hist != run && tileDigit != tileHist
      && tileDigit != base && tileDigit != run && tileHist != base && tileHist != run
      && tileDigit != hist && tileHist != hist
    }

    function Arrays(): set<object> {
      {hist, base, run, tileDigit, tileHist}
    }
  }

  // ----- Counting by atomic additions in any order -----

  /** counts is the histogram of s less the places still to be counted. */
  ghost predicate Counting(s: seq<int>, f: int -> int, todo: set<nat>, counts: seq<int>) {
    && |counts| == RADIX
    && forall d :: 0 <= d < RADIX ==> counts[d] == |Places(s, f, d) - todo|
  }

  lemma CountingStart(s: seq<int>, f: int -> int, todo: set<nat>, counts: seq<int>)
    requires |counts| == RADIX && forall d :: 0 <= d < RADIX ==> counts[d] == 0
    requires forall i: nat :: i < |s| ==> i in todo
    ensures Counting(s, f, todo, counts)
  {
    forall d | 0 <= d < RADIX ensures counts[d] == |Places(s, f, d) - todo| {
      assert Places(s, f, d) - todo == {};
    }
  }

  lemma CountingStep(s: seq<int>, f: int -> int, todo: set<nat>, counts: seq<int>, i: nat)
    requires Counting(s, f, todo, counts) && i in todo && i < |s| && 0 <= f(s[i]) < RADIX
    ensures Counting(s, f, todo - {i}, counts[f(s[i]) := counts[f(s[i])] + 1])
  {
    var counts' := counts[f(s[i]) := counts[f(s[i])] + 1];
    forall d | 0 <= d < RADIX ensures counts'[d] == |Places(s, f, d) - (todo - {i})| {
      if d == f(s[i]) {
        assert Places(s, f, d) - (todo - {i}) == (Places(s, f, d) - todo) + {i};
      } else {
        assert Places(s, f, d) - (todo - {i}) == Places(s, f, d) - todo;
      }
    }
  }

  /** A lane beyond the data counts nothing. */
  lemma CountingIdle(s: seq<int>, f: int -> int, todo: set<nat>, counts: seq<int>, i: nat)
    requires Counting(s, f, todo, counts) && i >= |s|
    ensures Counting(s, f, todo - {i}, counts)
  {
    forall d | 0 <= d < RADIX ensures counts[d] == |Places(s, f, d) - (todo - {i})| {
      assert Places(s, f, d) - (todo - {i}) == Places(s, f, d) - todo;
    }
  }

  lemma CountingDone(s: seq<int>, f: int -> int, counts: seq<int>)
    requires Counting(s, f, {}, counts)
    ensures forall d :: 0 <= d < RADIX ==> counts[d] == |Bucket(s, f, d)|
  {
    forall d | 0 <= d < RADIX ensures counts[d] == |Bucket(s, f, d)| {
      BucketPlaces(s, f, d);
      assert Places(s, f, d) - {} == Places(s, f, d);
    }
  }

  /** Every lane stores v in its own slot. */
  method StorePhase(a: array<int>, v: int)
    requires a.Length == LANES
    modifies a
    ensures forall d :: 0 <= d < LANES ==> a[d] == v
  {
    hide Below;
    var todo := AllLanes();
    while todo != {}
      invariant todo <= AllLanes()
      invariant forall d: nat :: d < LANES && d !in todo ==> a[d] == v
    {
      var t :| t in todo;
      todo := todo - {t};
      a[t] := v;
    }
  }

  /** The histogram phase: one atomic addition for every index, in any order. */
  method HistogramPhase(src: array<int>, k: Keying, pass: nat, hist: array<int>)
    requires hist.Length == LANES && hist != src
    requires forall d :: 0 <= d < LANES ==> hist[d] == 0
    modifies hist
    ensures forall d :: 0 <= d < LANES ==> hist[d] == |Bucket(src[..], DigitOf(k, pass), d)|
  {
    hide Counting, Bucket, SgDigit, Below;
    ghost var s, f := src[..], DigitOf(k, pass);
    var todo := Below(src.Length);
    CountingStart(s, f, todo, hist[..]);
    while todo != {}
      invariant forall i :: i in todo ==> i < src.Length
      invariant src[..] == s && Counting(s, f, todo, hist[..])
    {
      var i :| i in todo;
      CountingStep(s, f, todo, hist[..], i);
      ghost var before := hist[..];
      var d := SgDigit(k, pass, src[i]);
      hist[d] := hist[d] + 1;
      assert hist[..] == before[d := before[d] + 1];
      todo := todo - {i};
    }
    CountingDone(s, f, hist[..]);
  }

  /** Lane 0 turns the counts into bucket beginnings and resets the running offsets. */
  method BasePhase(hist: array<int>, base: array<int>, run: array<int>, ghost s: seq<int>, ghost f: int -> int)
    requires hist.Length == base.Length == run.Length == LANES && hist != base && hist != run && base != run
    requires forall d :: 0 <= d < LANES ==> hist[d] == |Bucket(s, f, d)|
    modifies base, run
    ensures forall d :: 0 <= d < LANES ==> base[d] == Start(s, f, d) && run[d] == 0
  {
    hide Bucket;
    var acc := 0;
    var d := 0;
    while d < LANES
      invariant 0 <= d <= LANES && acc == Start(s, f, d)
      invariant forall c :: 0 <= c < d ==> base[c] == Start(s, f, c) && run[c] == 0
    {
      base[d] := acc;
      acc := acc + hist[d];
      run[d] := 0;
      d := d + 1;
    }
  }

  // ----- One tile -----

  function TileEnd(n: nat, tile: nat): nat {
    if (tile + 1) * LANES <= n then (tile + 1) * LANES else n
  }

  /** Each active lane publishes its digit and counts it. */
  method DigitPhase(src: array<int>, k: Keying, pass: nat, tile: nat, tileDigit: array<int>, tileHist: array<int>)
    requires tileDigit.Length == tileHist.Length == LANES && tileDigit != tileHist
    requires src != tileDigit && src != tileHist && tile * LANES < src.Length
    requires forall d :: 0 <= d < LANES ==> tileHist[d] == 0 && tileDigit[d] == NO_DIGIT
    modifies tileDigit, tileHist
    ensures var seg := src[tile * LANES..TileEnd(src.Length, tile)];
            && (forall d :: 0 <= d < LANES ==> tileHist[d] == |Bucket(seg, DigitOf(k, pass), d)|)
            && (forall t :: 0 <= t < |seg| ==> tileDigit[t] == SgDigit(k, pass, seg[t]))
  {
    hide Counting, Bucket, SgDigit, Below;
    ghost var s, f := src[..], DigitOf(k, pass);
    ghost var seg := s[tile * LANES..TileEnd(src.Length, tile)];
    var todo := AllLanes();
    CountingStart(seg, f, todo, tileHist[..]);
    while todo != {}
      invariant todo <= AllLanes() && src[..] == s
      invariant Counting(seg, f, todo, tileHist[..])
      invariant forall t: nat :: t < |seg| && t !in todo ==> tileDigit[t] == SgDigit(k, pass, seg[t])
    {
      var t :| t in todo;
      var i := tile * LANES + t;
      if i < src.Length {
        assert src[i] == seg[t];
        CountingStep(seg, f, todo, tileHist[..], t);
        var d := SgDigit(k, pass, src[i]);
        tileDigit[t] := d;
        ghost var before := tileHist[..];
        tileHist[d] := tileHist[d] + 1;
        assert tileHist[..] == before[d := before[d] + 1];
      } else {
        CountingIdle(seg, f, todo, tileHist[..], t);
      }
      todo := todo - {t};
    }
    CountingDone(seg, f, tileHist[..]);
    assert seg == src[tile * LANES..TileEnd(src.Length, tile)];
  }

  /** How many earlier lanes of the tile carry digit d. */
  method RankInTile(tileDigit: array<int>, t: nat, d: int, ghost seg: seq<int>, ghost f: int -> int) returns (rank: nat)
    requires t < tileDigit.Length && t < |seg|
    requires forall u :: 0 <= u < |seg| && u < tileDigit.Length ==> tileDigit[u] == f(seg[u])
    ensures rank == |Bucket(seg[..t], f, d)|
  {
    hide Bucket;
    rank := 0;
    var tp := 0;
    assert |Bucket(seg[..0], f, d)| == 0;
    while tp < t
      invariant 0 <= tp <= t && rank == |Bucket(seg[..tp], f, d)|
    {
      BucketSnoc(seg, tp, f, d);
      if tileDigit[tp] == d {
        rank := rank + 1;
      }
      tp := tp + 1;
    }
  }

  /** The elements before lo, and those of the tile whose lanes have run, stand at their slots. */
  ghost predicate Placed(s: seq<int>, f: int -> int, dst: seq<int>, lo: nat, todo: set<nat>) {
    && |dst| == |s| && DigitsBelow(s, f, RADIX)
    && forall i: nat {:trigger Slot(s, f, i)} :: i < |s| && (i < lo || (i < lo + LANES && i - lo !in todo)) ==>
         0 <= Slot(s, f, i) < |dst| && dst[Slot(s, f, i)] == s[i]
  }

  lemma PlaceOne(s: seq<int>, f: int -> int, dst: seq<int>, lo: nat, todo: set<nat>, t: nat)
    requires Placed(s, f, dst, lo, todo) && t in todo && t < LANES && lo + t < |s|
    ensures 0 <= Slot(s, f, lo + t) < |dst|
    ensures Placed(s, f, dst[Slot(s, f, lo + t) := s[lo + t]], lo, todo - {t})
  {
    hide Bucket, Buckets, Slot;
    var j := lo + t;
    SlotBounds(s, f, j);
    var dst' := dst[Slot(s, f, j) := s[j]];
    forall i: nat {:trigger Slot(s, f, i)} | i < |s| && (i < lo || (i < lo + LANES && i - lo !in todo - {t}))
      ensures 0 <= Slot(s, f, i) < |dst'| && dst'[Slot(s, f, i)] == s[i]
    {
      if i < j {
        SlotsDistinct(s, f, i, j);
      } else if j < i {
        SlotsDistinct(s, f, j, i);
      }
    }
  }

  lemma PlaceIdle(s: seq<int>, f: int -> int, dst: seq<int>, lo: nat, todo: set<nat>, t: nat)
    requires Placed(s, f, dst, lo, todo) && lo + t >= |s|
    ensures Placed(s, f, dst, lo, todo - {t})
  {
    hide Slot;
  }

  /** The slot is computed from shared counts alone: base, run, and the digits of the earlier lanes. */
  lemma SlotInTile(s: seq<int>, f: int -> int, lo: nat, hi: nat, t: nat)
    requires lo <= lo + t < hi <= |s| && 0 <= f(s[lo + t])
    ensures Slot(s, f, lo + t)
         == Start(s, f, f(s[lo + t])) + |Bucket(s[..lo], f, f(s[lo + t]))| + |Bucket(s[lo..hi][..t], f, f(s[lo + t]))|
  {
    hide Bucket, Buckets;
    assert s[..lo + t] == s[..lo] + s[lo..hi][..t];
    BucketConcat(s[..lo], s[lo..hi][..t], f, f(s[lo + t]));
  }

  /** Each active lane writes its element to its slot. */
  method WritePhase(src: array<int>, dst: array<int>, k: Keying, pass: nat, tile: nat,
                    base: array<int>, run: array<int>, tileDigit: array<int>)
    requires base.Length == run.Length == tileDigit.Length == LANES && src.Length == dst.Length
    requires dst != src && dst != base && dst != run && dst != tileDigit && tile * LANES < src.Length
    requires var s, f, lo := src[..], DigitOf(k, pass), tile * LANES;
             && (forall d :: 0 <= d < LANES ==> base[d] == Start(s, f, d) && run[d] == |Bucket(s[..lo], f, d)|)
             && (forall t :: 0 <= t < TileEnd(src.Length, tile) - lo ==> tileDigit[t] == SgDigit(k, pass, s[lo + t]))
             && Placed(s, f, dst[..], lo, AllLanes())
    modifies dst
    ensures Placed(src[..], DigitOf(k, pass), dst[..], tile * LANES, {})
  {
    hide Below, Bucket, SgDigit, Placed, Slot, Start;
    ghost var s, f, lo, hi := src[..], DigitOf(k, pass), tile * LANES, TileEnd(src.Length, tile);
    ghost var seg := s[lo..hi];
    var todo := AllLanes();
    while todo != {}
      invariant todo <= AllLanes() && src[..] == s && dst.Length == |s|
      invariant Placed(s, f, dst[..], lo, todo)
    {
      var t :| t in todo;
      var i := tile * LANES + t;
      if i < src.Length {
        assert src[i] == s[lo + t] == seg[t];
        var d := SgDigit(k, pass, src[i]);
        var rank := RankInTile(tileDigit, t, d, seg, f);
        SlotInTile(s, f, lo, hi, t);
        assert f(s[lo + t]) == d;
        PlaceOne(s, f, dst[..], lo, todo, t);
        ghost var before := dst[..];
        dst[base[d] + run[d] + rank] := src[i];
        assert dst[..] == before[Slot(s, f, lo + t) := s[lo + t]];
      } else {
        PlaceIdle(s, f, dst[..], lo, todo, t);
      }
      todo := todo - {t};
    }
  }

  /** Each lane adds its digit's tile count to the running offset. */
  method AdvancePhase(run: array<int>, tileHist: array<int>, ghost s: seq<int>, ghost f: int -> int, ghost lo: nat, ghost hi: nat)
    requires run.Length == tileHist.Length == LANES && run != tileHist && lo <= hi <= |s|
    requires forall d :: 0 <= d < LANES ==> run[d] == |Bucket(s[..lo], f, d)| && tileHist[d] == |Bucket(s[lo..hi], f, d)|
    modifies run
    ensures forall d :: 0 <= d < LANES ==> run[d] == |Bucket(s[..hi], f, d)|
  {
    hide Bucket, Below;
    var todo := AllLanes();
    while todo != {}
      invariant todo <= AllLanes()
      invariant forall d: nat :: d < LANES && d in todo ==> run[d] == |Bucket(s[..lo], f, d)|
      invariant forall d: nat :: d < LANES && d !in todo ==> run[d] == |Bucket(s[..hi], f, d)|
    {
      var t :| t in todo;
      todo := todo - {t};
      BucketConcat(s[..lo], s[lo..hi], f, t);
      assert s[..hi] == s[..lo] + s[lo..hi];
      run[t] := run[t] + tileHist[t];
    }
  }

  /** The four phases of one tile. */
  method ScatterTile(src: array<int>, dst: array<int>, k: Keying, pass: nat, tile: nat, w: Workgroup)
    requires w.Valid() && src.Length == dst.Length && src != dst && src !in w.Arrays() && dst !in w.Arrays()
    requires tile * LANES < src.Length
    requires var s, f, lo := src[..], DigitOf(k, pass), tile * LANES;
             && (forall d :: 0 <= d < LANES ==> w.base[d] == Start(s, f, d) && w.run[d] == |Bucket(s[..lo], f, d)|)
             && Placed(s, f, dst[..], lo, AllLanes())
    modifies dst, w.run, w.tileDigit, w.tileHist
    ensures var s, f, hi := src[..], DigitOf(k, pass), TileEnd(src.Length, tile);
            && (forall d :: 0 <= d < LANES ==> w.base[d] == Start(s, f, d) && w.run[d] == |Bucket(s[..hi], f, d)|)
            && Placed(s, f, dst[..], tile * LANES, {})
  {
    hide Below, Bucket, SgDigit, Placed, Slot, Start;
    ghost var s, f, lo, hi := src[..], DigitOf(k, pass), tile * LANES, TileEnd(src.Length, tile);
    StorePhase(w.tileHist, 0);
    StorePhase(w.tileDigit, NO_DIGIT);
    DigitPhase(src, k, pass, tile, w.tileDigit, w.tileHist);
    assert src[..] == s && src[lo..hi] == s[lo..hi];
    WritePhase(src, dst, k, pass, tile, w.base, w.run, w.tileDigit);
    AdvancePhase(w.run, w.tileHist, s, f, lo, hi);
  }

  // ----- One pass, and the sort -----

  lemma PlacedNothing(s: seq<int>, f: int -> int, dst: seq<int>)
    requires |dst| == |s| && DigitsBelow(s, f, RADIX)
    ensures Placed(s, f, dst, 0, AllLanes())
  {
    hide Slot, Below;
    assert forall t: nat :: t < LANES ==> t in AllLanes();
  }

  lemma PlacedNextTile(s: seq<int>, f: int -> int, dst: seq<int>, lo: nat)
    requires Placed(s, f, dst, lo, {})
    ensures Placed(s, f, dst, lo + LANES, AllLanes())
  {
    hide Slot, Below;
    assert forall t: nat :: t < LANES ==> t in AllLanes();
  }

  lemma PlacedAll(s: seq<int>, f: int -> int, dst: seq<int>, lo: nat)
    requires Placed(s, f, dst, lo, AllLanes()) && lo >= |s|
    ensures dst == Pass(s, f)
  {
    hide Slot, Pass, Below;
    SlotsArePass(s, f, dst);
  }

  /** One byte pass over all tiles: for any interleaving of the lanes it is the stable counting sort. */
  method KernelPass(src: array<int>, dst: array<int>, k: Keying, pass: nat, w: Workgroup)
    requires w.Valid() && src.Length == dst.Length && src != dst && src !in w.Arrays() && dst !in w.Arrays()
    modifies dst, w.Arrays()
    ensures dst[..] == Pass(src[..], DigitOf(k, pass))
  {
    hide Below, Bucket, SgDigit, Placed, Slot, Start, Pass;
    ghost var s, f := src[..], DigitOf(k, pass);
    var n := src.Length;
    var nTiles := (n + LANES - 1) / LANES;
    DigitsFit(k, pass, s);
    StorePhase(w.hist, 0);
    HistogramPhase(src, k, pass, w.hist);
    BasePhase(w.hist, w.base, w.run, s, f);
    PlacedNothing(s, f, dst[..]);
    EmptyBuckets(s, f);
    var tile := 0;
    while tile < nTiles
      invariant 0 <= tile <= nTiles && src[..] == s
      invariant forall d :: 0 <= d < LANES ==> w.base[d] == Start(s, f, d)
      invariant tile * LANES <= n ==> forall d :: 0 <= d < LANES ==> w.run[d] == |Bucket(s[..tile * LANES], f, d)|
      invariant Placed(s, f, dst[..], tile * LANES, AllLanes())
    {
      ScatterTile(src, dst, k, pass, tile, w);
      PlacedNextTile(s, f, dst[..], tile * LANES);
      tile := tile + 1;
    }
    PlacedAll(s, f, dst[..], tile * LANES);
  }

  lemma EmptyBuckets(s: seq<int>, f: int -> int)
    ensures forall d :: 0 <= d < RADIX ==> |Bucket(s[..0], f, d)| == 0
  {
  }

  /** The outcome of the first p byte passes. */
  ghost function Passes(s: seq<int>, k: Keying, p: nat): seq<int> {
    if p == 0 then s else Pass(Passes(s, k, p - 1), DigitOf(k, p - 1))
  }

  /** Every lane copies its elements of each tile. */
  method CopyPhase(src: array<int>, dst: array<int>)
    requires src.Length == dst.Length && src != dst
    modifies dst
    ensures dst[..] == src[..]
  {
    var todo := Below(src.Length);
    while todo != {}
      invariant forall i :: i in todo ==> i < src.Length
      invariant forall i: nat :: i < src.Length && i !in todo ==> dst[i] == src[i]
    {
      var i :| i in todo;
      todo := todo - {i};
      dst[i] := src[i];
    }
  }

  /** sg_sort: passes ping-pong between sa and sa2; after an odd number the result is copied back. */
  method SgSort(sa: array<int>, sa2: array<int>, k: Keying, passes: nat, w: Workgroup)
    requires w.Valid() && sa.Length == sa2.Length && sa != sa2 && sa !in w.Arrays() && sa2 !in w.Arrays()
    modifies sa, sa2, w.Arrays()
    ensures sa[..] == Passes(old(sa[..]), k, passes)
  {
    hide Pass;
    ghost var s := sa[..];
    var pass := 0;
    while pass < passes
      invariant 0 <= pass <= passes
      invariant (if pass % 2 == 0 then sa[..] else sa2[..]) == Passes(s, k, pass)
    {
      if pass % 2 == 0 {
        KernelPass(sa, sa2, k, pass, w);
      } else {
        KernelPass(sa2, sa, k, pass, w);
      }
      pass := pass + 1;
    }
    if passes % 2 == 1 {
      CopyPhase(sa2, sa);
    }
  }

  // ----- What the sort achieves -----

  ghost function PairKey(k: Keying, p: nat, lo: int -> int, m: nat): int -> int {
    s => SgKey(k, s) % Pow256(p) * m + lo(s)
  }

  /** Stable sorting by p bytes of the key a list that is already sorted by lo. */
  lemma {:induction false} PassesSort(s: seq<int>, k: Keying, p: nat, lo: int -> int, m: nat)
    requires SortedBy(s, lo) && m > 0 && p <= 3
    requires forall x :: x in s ==> 0 <= lo(x) < m && SgKey(k, x) >= 0
    ensures multiset(Passes(s, k, p)) == multiset(s)
    ensures SortedBy(Passes(s, k, p), PairKey(k, p, lo, m))
    decreases p
  {
    hide Pass, SgKey, PairKey;
    if p > 0 {
      PassesSort(s, k, p - 1, lo, m);
      var s1 := Passes(s, k, p - 1);
      PassPermutes(s1, k, p - 1);
      OnePass(s, s1, k, p, lo, m);
    } else {
      NoPass(s, k, lo, m);
    }
  }

  lemma PassPermutes(s: seq<int>, k: Keying, p: nat)
    ensures multiset(Pass(s, DigitOf(k, p))) == multiset(s)
  {
    hide Buckets;
    DigitsFit(k, p, s);
    BucketsPermutation(s, DigitOf(k, p), RADIX);
  }

  lemma NoPass(s: seq<int>, k: Keying, lo: int -> int, m: nat)
    requires SortedBy(s, lo)
    ensures SortedBy(s, PairKey(k, 0, lo, m))
  {
    hide SgKey;
    forall x ensures PairKey(k, 0, lo, m)(x) == lo(x) {
      assert SgKey(k, x) % 1 == 0;
    }
  }

  lemma OnePass(s: seq<int>, s1: seq<int>, k: Keying, p: nat, lo: int -> int, m: nat)
    requires 0 < p <= 3 && m > 0 && multiset(s1) == multiset(s)
    requires SortedBy(s1, PairKey(k, p - 1, lo, m))
    requires forall x :: x in s ==> 0 <= lo(x) < m && SgKey(k, x) >= 0
    ensures SortedBy(Pass(s1, DigitOf(k, p - 1)), PairKey(k, p, lo, m))
  {
    hide SgKey, Pow256;
    var f, g, h := DigitOf(k, p - 1), PairKey(k, p - 1, lo, m), PairKey(k, p, lo, m);
    forall x | x in s1 ensures 0 <= g(x) < Pow256(p - 1) * m && h(x) == f(x) * (Pow256(p - 1) * m) + g(x) {
      assert x in multiset(s);
      SmallPowers(p - 1);
      DigitArithmetic(SgKey(k, x), Pow256(p - 1), m, lo(x));
    }
    PassSorts(s1, f, g, h, Pow256(p - 1) * m, RADIX);
  }

  lemma SmallPowers(p: nat)
    requires p <= 2
    ensures Pow256(p) == if p == 0 then 1 else if p == 1 then 256 else 0x10000
    ensures Pow256(p + 1) == 256 * Pow256(p)
  {
    assert Pow256(1) == 256 * Pow256(0);
    assert Pow256(2) == 256 * Pow256(1);
  }

  /** Splitting off one more byte of the key. */
  lemma DigitArithmetic(key: int, b: nat, m: nat, lo: int)
    requires key >= 0 && (b == 1 || b == 256 || b == 0x10000) && m > 0 && 0 <= lo < m
    ensures 0 <= key % b * m + lo < b * m
    ensures key % (256 * b) * m + lo == key / b % 256 * (b * m) + (key % b * m + lo)
  {
    var d, r := key / b % 256, key % b;
    DigitSplit(key, b);
    MultiplySplit(d, b, r, m, lo);
  }

  lemma DigitSplit(key: int, b: nat)
    requires key >= 0 && (b == 1 || b == 256 || b == 0x10000)
    ensures key % (256 * b) == key / b % 256 * b + key % b && 0 <= key % b < b
  {
    if b == 1 {
      SplitFirst(key);
    } else if b == 256 {
      SplitSecond(key);
    } else {
      SplitThird(key);
    }
  }

  lemma SplitFirst(key: int)
    ensures key % (256 * 1) == key / 1 % 256 * 1 + key % 1 && 0 <= key % 1 < 1
  {
  }

  lemma SplitSecond(key: int)
    ensures key % (256 * 256) == key / 256 % 256 * 256 + key % 256 && 0 <= key % 256 < 256
  {
  }

  lemma SplitThird(key: int)
    ensures key % (256 * 0x10000) == key / 0x10000 % 256 * 0x10000 + key % 0x10000 && 0 <= key % 0x10000 < 0x10000
  {
  }

  lemma MultiplySplit(d: int, b: int, r: int, m: int, lo: int)
    requires 0 <= r < b && 0 <= lo < m
    ensures (d * b + r) * m == d * (b * m) + r * m
    ensures 0 <= r * m + lo < b * m
  {
    assert (r + 1) * m <= b * m;
  }
}
