/** The four scans of induced sorting, in place. */
module SaisInduce {
  import opened Suffixes
  import opened SaisTypes
  import opened SaisPlan
  import opened SaisPlans
  import opened SaisBuckets
  import opened SaisScan

  /** The array holds the seeds' entries and nothing else. */
  ghost predicate SeedsOnly(m: Scan, p: Plan, sa: seq<int>) {
    && |sa| == |p.t|
    && (forall x :: x in p.seeds ==> 0 <= SeedAt(p, x) < |sa| && sa[SeedAt(p, x)] == Val(m, p.t, x, false))
    && (forall x :: 0 <= x < |sa| && sa[x] != 0 ==> Seeded1(p, x))
  }

  ghost predicate Seeded1(p: Plan, x: int) {
    exists q :: q in p.seeds && SeedAt(p, q) == x
  }

  /** The type of the position before a type-L position, and before a type-S position. */
  lemma SignL(t: seq<int>, k: int)
    requires 0 < k < |t| && !SType(t, k)
    ensures PredS(t, k) <==> t[k - 1] < t[k]
  {
    TypeStep(t, k - 1);
  }

  lemma SignS(t: seq<int>, k: int)
    requires 0 < k < |t| && SType(t, k)
    ensures PredS(t, k) <==> t[k - 1] <= t[k]
  {
    TypeStep(t, k - 1);
  }

  ghost predicate Upward(m: Scan, p: Plan, t: seq<int>) {
    && Ready(m, p) && p.t == t && (m.SubL? || m.FullL?)
    && |t| >= 2 && |t| - 1 in p.targets
    && forall k :: k in p.targets ==> !SType(t, k)
  }

  ghost predicate Downward(m: Scan, p: Plan, t: seq<int>) {
    && Ready(m, p) && p.t == t && (m.SubS? || m.FullS?)
    && forall k :: k in p.targets ==> SType(t, k)
  }

  // ----- Upward scans -----

  /** Placing the implicit sentinel's predecessor starts an upward scan. */
  lemma UpStart(m: Scan, p: Plan, t: seq<int>, sa: seq<int>, sa': seq<int>, buckets: seq<int>)
    requires Upward(m, p, t) && SeedsOnly(m, p, sa) && InAlphabet(t, |buckets|)
    requires forall c :: 0 <= c < |buckets| ==> buckets[c] == Min(t, c)
    requires 0 <= Min(t, t[|t| - 1]) < |sa|
    requires sa' == sa[Min(t, t[|t| - 1]) := Val(m, t, |t| - 1, false)]
    ensures Filled(m, p, sa', 0) && Clean(m, p, sa', 0)
    ensures Pointers(p, buckets, t[|t| - 1], Min(t, t[|t| - 1]) + 1, 0)
  {
    hide Keyed, Sides, Inductive, Seeded, PlacedAt, Placed, Val, Min, SType, Preds, Slot;
    var k := |t| - 1;
    SentinelFirst(p);
    forall q | InQueue(p, q) && Placed(p, q, 0) && (m.SubS? ==> Slot(p, q) < 0) ensures Holds(m, p, sa', 0, q) {
      SlotBounds(p, q);
      if q != k {
        SlotOrder(p, q, k);
        assert Slot(p, q) == SeedAt(p, q) by { SeedSlot(p, q); }
      }
    }
    forall x | 0 <= x < |sa'| && sa'[x] != 0 ensures Owned(p, 0, x) {
      if x == Slot(p, k) {
        assert InQueue(p, k) && Placed(p, k, 0) && Slot(p, k) == x;
      } else {
        assert Seeded1(p, x);
        var q :| q in p.seeds && SeedAt(p, q) == x;
        SeedSlot(p, q);
        assert InQueue(p, q) && Placed(p, q, 0) && Slot(p, q) == x;
      }
    }
  }

  lemma SeedSlot(p: Plan, q: int)
    requires q in p.seeds
    ensures Slot(p, q) == SeedAt(p, q)
  {
  }

  /** The bucket beginning is in the array, for the first write. */
  lemma SentinelSlot(m: Scan, p: Plan, t: seq<int>)
    requires Upward(m, p, t)
    ensures 0 <= Min(t, t[|t| - 1]) < |t|
  {
    hide Keyed, Sides, Inductive, Seeded, Min, SType, Preds;
    SentinelFirst(p);
  }

  /** Place the type-L position |t| - 1, which the absent entry for the sentinel would induce. */
  method PlaceSentinelPredecessor(t: seq<int>, sa: array<int>, s: Space, m: Scan, ghost p: Plan) returns (cB: int, b: int)
    requires Upward(m, p, t) && SeedsOnly(m, p, sa[..]) && sa != s.tmp
    requires CacheOk(t, s) && InAlphabet(t, s.textMax)
    modifies sa, s.tmp
    ensures CacheOk(t, s)
    ensures Filled(m, p, sa[..], 0) && Clean(m, p, sa[..], 0) && Pointers(p, s.Buckets(), cB, b, 0)
  {
    hide Ready, SType, Slot, Ptr, Filled, Clean, Min;
    BucketMin(t, s);
    var k := |t| - 1;
    var c0, c1 := t[k - 1], t[k];
    SignL(t, k);
    if c0 < c1 {
      k := -k;
    }
    cB := c1;
    b := s.tmp[s.Base() + cB];
    assert b == s.Buckets()[cB];
    SentinelSlot(m, p, t);
    ghost var before := sa[..];
    sa[b] := k;
    assert sa[..] == before[b := Val(m, t, |t| - 1, false)];
    UpStart(m, p, t, before, sa[..], s.Buckets());
    b := b + 1;
  }

  /** The processing of a work-queue entry j, common to the upward scans but for the entry left behind. */
  method PushL(t: seq<int>, sa: array<int>, s: Space, m: Scan, ghost p: Plan, i: int, j: int, left: int, cB0: int, b0: int)
    returns (cB: int, b: int)
    requires Upward(m, p, t) && sa != s.tmp && CacheOk(t, s) && InAlphabet(t, s.textMax) && 0 <= i < sa.Length
    requires Filled(m, p, sa[..], i) && Clean(m, p, sa[..], i) && Pointers(p, s.Buckets(), cB0, b0, i)
    requires InQueue(p, j) && Slot(p, j) == i && j - 1 in p.targets && left == Val(m, t, j, true)
    requires 0 < j <= |t| && (m.SubL? ==> j > 1)
    modifies sa, s.tmp
    ensures CacheOk(t, s)
    ensures Filled(m, p, sa[..], i + 1) && Clean(m, p, sa[..], i + 1) && Pointers(p, s.Buckets(), cB, b, i + 1)
  {
    hide Ready, SType, Slot, Ptr, Filled, Clean, Pointers, Placed;
    ReadySound(m, p);
    ghost var before := sa[..];
    sa[i] := left;
    var k := j - 1;
    TargetInText(m, p, t, k);
    var c1 := t[k];
    var v := k;
    if k > 0 {
      SignL(t, k);
      if t[k - 1] < c1 {
        v := -k;
      }
    }
    b := SwitchBucket(t, s, cB0, b0, c1, p, i);
    cB := c1;
    PointerMoves(p, s.Buckets(), c1, b, i, j);
    FilledLength(m, p, before, i);
    sa[b] := v;
    assert sa[..] == before[i := Val(m, t, j, true)][Slot(p, k) := Val(m, t, k, false)];
    Process(m, p, before, i, j, sa[..]);
    b := b + 1;
  }

  lemma TargetInText(m: Scan, p: Plan, t: seq<int>, k: int)
    requires Ready(m, p) && p.t == t && k in p.targets
    ensures 0 <= k < |t| && Ch(p, k) == t[k]
  {
    hide Keyed, Sides, Inductive, Seeded, Preds;
  }

  lemma FilledLength(m: Scan, p: Plan, sa: seq<int>, b: int)
    requires Filled(m, p, sa, b)
    ensures |sa| == |p.t|
  {
  }

  /** induceSubL: the type-L positions of the LMS-substrings, of which it leaves the leftmost ones. */
  method InduceSubL(t: seq<int>, sa: array<int>, s: Space, ghost p: Plan)
    requires Upward(SubL, p, t) && SeedsOnly(SubL, p, sa[..]) && sa != s.tmp && sa.Length == |t|
    requires CacheOk(t, s) && InAlphabet(t, s.textMax)
    modifies sa, s.tmp
    ensures CacheOk(t, s) && Filled(SubL, p, sa[..], |t|) && Clean(SubL, p, sa[..], |t|)
  {
    hide Ready, SType, Slot, Ptr, Filled, Clean, Pointers, Placed;
    var cB, b := PlaceSentinelPredecessor(t, sa, s, SubL, p);
    var i := 0;
    while i < sa.Length
      invariant 0 <= i <= sa.Length && CacheOk(t, s)
      invariant Filled(SubL, p, sa[..], i) && Clean(SubL, p, sa[..], i) && Pointers(p, s.Buckets(), cB, b, i)
    {
      ReadySound(SubL, p);
      ghost var before := sa[..];
      ghost var q := Look(SubL, p, before, i);
      var j := sa[i];
      if j == 0 {
        Pass(SubL, p, before, i, q, before);
        PointersKept(p, s.Buckets(), cB, b, i, i + 1);
      } else if j < 0 {
        sa[i] := -j;
        Pass(SubL, p, before, i, q, sa[..]);
        PointersKept(p, s.Buckets(), cB, b, i, i + 1);
      } else {
        cB, b := PushL(t, sa, s, SubL, p, i, j, 0, cB, b);
      }
      i := i + 1;
    }
  }

  /** induceL: all type-L positions, the leftmost ones negated for the last scan. */
  method InduceL(t: seq<int>, sa: array<int>, s: Space, ghost p: Plan)
    requires Upward(FullL, p, t) && SeedsOnly(FullL, p, sa[..]) && sa != s.tmp && sa.Length == |t|
    requires CacheOk(t, s) && InAlphabet(t, s.textMax)
    modifies sa, s.tmp
    ensures CacheOk(t, s) && Filled(FullL, p, sa[..], |t|) && Clean(FullL, p, sa[..], |t|)
  {
    hide Ready, SType, Slot, Ptr, Filled, Clean, Pointers, Placed;
    var cB, b := PlaceSentinelPredecessor(t, sa, s, FullL, p);
    var i := 0;
    while i < sa.Length
      invariant 0 <= i <= sa.Length && CacheOk(t, s)
      invariant Filled(FullL, p, sa[..], i) && Clean(FullL, p, sa[..], i) && Pointers(p, s.Buckets(), cB, b, i)
    {
      ReadySound(FullL, p);
      ghost var before := sa[..];
      ghost var q := Look(FullL, p, before, i);
      var j := sa[i];
      if j <= 0 {
        assert q != -1 ==> before == before[i := Val(FullL, t, q, true)];
        Pass(FullL, p, before, i, q, before);
        PointersKept(p, s.Buckets(), cB, b, i, i + 1);
      } else {
        cB, b := PushL(t, sa, s, FullL, p, i, j, j, cB, b);
      }
      i := i + 1;
    }
  }

  // ----- Downward scans -----

  /** Before a downward scan. */
  lemma DownStarts(m: Scan, p: Plan, t: seq<int>, sa: seq<int>, buckets: seq<int>)
    requires Downward(m, p, t) && 0 < |buckets|
    requires |sa| == |t| && forall x :: x in p.seeds ==> 0 <= SeedAt(p, x) < |sa| && sa[SeedAt(p, x)] == Val(m, t, x, false)
    requires m.SubS? ==> forall x :: 0 <= x < |sa| && sa[x] != 0 ==> Seeded1(p, x)
    requires forall c :: 0 <= c < |buckets| ==> buckets[c] == End(t, c)
    ensures Filled(m, p, sa, |t|) && Clean(m, p, sa, |t|) && Pointers(p, buckets, 0, buckets[0], |t|)
  {
    hide Keyed, Sides, Inductive, Seeded, PlacedAt, Placed, Val, Min, SType, Preds, Slot;
    DownStart(p);
    forall q | InQueue(p, q) && Placed(p, q, |t|) && (m.SubS? ==> Slot(p, q) < |t|) ensures Holds(m, p, sa, |t|, q) {
      SeedSlot(p, q);
    }
    if m.SubS? {
      forall x | 0 <= x < |sa| && sa[x] != 0 && x < |t| ensures Owned(p, |t|, x) {
        assert Seeded1(p, x);
        var q :| q in p.seeds && SeedAt(p, q) == x;
        SeedSlot(p, q);
        assert InQueue(p, q) && Placed(p, q, |t|) && Slot(p, q) == x;
      }
    }
  }

  /** The processing of a work-queue entry j in a downward scan, which leaves an entry behind. */
  method PushS(t: seq<int>, sa: array<int>, s: Space, m: Scan, ghost p: Plan, i: int, j: int, left: int, cB0: int, b0: int)
    returns (cB: int, b: int)
    requires Downward(m, p, t) && sa != s.tmp && CacheOk(t, s) && InAlphabet(t, s.textMax) && 0 <= i < sa.Length
    requires Filled(m, p, sa[..], i + 1) && Clean(m, p, sa[..], i + 1) && Pointers(p, s.Buckets(), cB0, b0, i + 1)
    requires InQueue(p, j) && Slot(p, j) == i && j - 1 in p.targets && left == Val(m, t, j, true)
    requires 0 < j <= |t| && (m.SubS? ==> j > 1)
    modifies sa, s.tmp
    ensures CacheOk(t, s)
    ensures Filled(m, p, sa[..], i) && Clean(m, p, sa[..], i) && Pointers(p, s.Buckets(), cB, b, i)
    ensures sa[i + 1..] == old(sa[i + 1..]) && sa[i] == left
  {
    hide Ready, SType, Slot, Ptr, Filled, Clean, Pointers, Placed;
    ReadySound(m, p);
    ghost var before := sa[..];
    sa[i] := left;
    var k := j - 1;
    TargetInText(m, p, t, k);
    var c1 := t[k];
    var v := k;
    if k > 0 {
      SignS(t, k);
      if m.SubS? {
        if t[k - 1] > c1 {
          v := -k;
        }
      } else if t[k - 1] <= c1 {
        v := -k;
      }
    }
    b := SwitchBucket(t, s, cB0, b0, c1, p, i + 1);
    cB := c1;
    PtrIsSlot(p, i + 1, j);
    PointerMoves(p, s.Buckets(), c1, b, i + 1, j);
    FilledLength(m, p, before, i + 1);
    b := b - 1;
    sa[b] := v;
    assert sa[..] == before[i := Val(m, t, j, true)][Slot(p, k) := Val(m, t, k, false)];
    Process(m, p, before, i + 1, j, sa[..]);
  }

  /** induceS: all type-S positions; in the end no entry is negative any more. */
  method InduceS(t: seq<int>, sa: array<int>, s: Space, ghost p: Plan)
    requires Downward(FullS, p, t) && sa != s.tmp && sa.Length == |t|
    requires forall x :: x in p.seeds ==> 0 <= SeedAt(p, x) < sa.Length && sa[SeedAt(p, x)] == Val(FullS, t, x, false)
    requires forall i :: 0 <= i < |t| ==> Reached(p, i)
    requires CacheOk(t, s) && InAlphabet(t, s.textMax)
    modifies sa, s.tmp
    ensures CacheOk(t, s) && Filled(FullS, p, sa[..], 0)
  {
    hide Ready, SType, Slot, Ptr, Filled, Clean, Pointers, Placed, End;
    BucketMax(t, s);
    var cB := 0;
    var b := s.tmp[s.Base() + cB];
    assert b == s.Buckets()[0];
    DownStarts(FullS, p, t, sa[..], s.Buckets());
    var i := sa.Length - 1;
    while i >= 0
      invariant -1 <= i < sa.Length && CacheOk(t, s)
      invariant Filled(FullS, p, sa[..], i + 1) && Clean(FullS, p, sa[..], i + 1) && Pointers(p, s.Buckets(), cB, b, i + 1)
    {
      ReadySound(FullS, p);
      ghost var before := sa[..];
      assert Reached(p, i);
      ghost var q := Look(FullS, p, before, i + 1);
      var j := sa[i];
      if j >= 0 {
        assert before == before[i := Val(FullS, t, q, true)];
        Pass(FullS, p, before, i + 1, q, before);
        PointersKept(p, s.Buckets(), cB, b, i + 1, i);
      } else {
        cB, b := PushS(t, sa, s, FullS, p, i, -j, -j, cB, b);
      }
      i := i - 1;
    }
  }

  /** Slot i belongs to some queue element. */
  ghost predicate Reached(p: Plan, i: int) {
    exists q :: InQueue(p, q) && Slot(p, q) == i
  }

  /** The packed part of the array: the LMS positions passed so far, in the order of their slots. */
  ghost predicate Packed(p: Plan, t: seq<int>, up: seq<int>, b: int) {
    && (forall k :: 0 <= k < |up| ==> up[k] in p.targets && 0 <= up[k] <= |t| && Lms(t, up[k]) && Slot(p, up[k]) >= b + k)
    && (forall k, l :: 0 <= k < l < |up| ==> Slot(p, up[k]) < Slot(p, up[l]))
    && (forall q :: q in p.targets && 0 <= q <= |t| && Lms(t, q) && Slot(p, q) >= b ==> q in up)
  }

  /** The part above the scan: zeros, then the packed positions. */
  ghost predicate Upper(p: Plan, t: seq<int>, sa: seq<int>, b: int, top: int) {
    && 0 <= b <= top <= |sa|
    && (forall x :: b <= x < top ==> sa[x] == 0)
    && Packed(p, t, sa[top..], b)
  }

  lemma UpperStart(p: Plan, t: seq<int>, sa: seq<int>)
    requires Sound(p) && |sa| == |p.t| && p.t == t
    ensures Upper(p, t, sa, |sa|, |sa|)
  {
    hide Keyed, Sides, Inductive, Seeded, Slot, Lms;
    forall q | q in p.targets && Slot(p, q) >= |sa| ensures false {
      SlotBounds(p, q);
    }
  }

  /** What lies at or above the bound does not matter to the work queue below it. */
  lemma LowerPart(p: Plan, sa: seq<int>, sa': seq<int>, b: int)
    requires Filled(SubS, p, sa, b) && Clean(SubS, p, sa, b) && !p.up
    requires 0 <= b <= |sa| == |sa'| && sa'[..b] == sa[..b]
    ensures Filled(SubS, p, sa', b) && Clean(SubS, p, sa', b)
  {
    hide Slot, Placed, Val;
    forall q | InQueue(p, q) && Placed(p, q, b) && Slot(p, q) < b ensures Holds(SubS, p, sa', b, q) {
      assert Holds(SubS, p, sa, b, q);
      assert sa'[..b][Slot(p, q)] == sa[..b][Slot(p, q)];
    }
    forall x | 0 <= x < |sa'| && sa'[x] != 0 && x < b ensures Owned(p, b, x) {
      assert sa'[..b][x] == sa[..b][x];
    }
  }

  /** A slot that holds no LMS position leaves the packed list as it is. */
  lemma PackedPast(p: Plan, t: seq<int>, up: seq<int>, b: int)
    requires Packed(p, t, up, b)
    requires forall q :: q in p.targets && 0 <= q <= |t| && Lms(t, q) ==> Slot(p, q) != b - 1
    ensures Packed(p, t, up, b - 1)
  {
    hide Slot, Lms;
  }

  /** An LMS position at the slot goes to the front of the packed list. */
  lemma PackedFront(p: Plan, t: seq<int>, up: seq<int>, b: int, q: int)
    requires Sound(p) && p.t == t && Packed(p, t, up, b) && q in p.targets && 0 <= q <= |t| && Lms(t, q) && Slot(p, q) == b - 1
    ensures Packed(p, t, [q] + up, b - 1)
  {
    hide Keyed, Sides, Inductive, Seeded, Slot, Lms;
    var up' := [q] + up;
    forall x | x in p.targets && 0 <= x <= |t| && Lms(t, x) && Slot(p, x) >= b - 1 ensures x in up' {
      if Slot(p, x) == b - 1 {
        SlotOrder(p, x, q);
        assert up'[0] == x;
      } else {
        assert x in up;
      }
    }
  }

  lemma UpperPast(p: Plan, t: seq<int>, sa: seq<int>, sa': seq<int>, b: int, top: int)
    requires 0 < b && Upper(p, t, sa, b, top) && |sa'| == |sa| && sa'[b..] == sa[b..] && sa'[b - 1] == 0
    requires forall q :: q in p.targets && 0 <= q <= |t| && Lms(t, q) ==> Slot(p, q) != b - 1
    ensures Upper(p, t, sa', b - 1, top)
  {
    hide Slot, Lms, Packed;
    PackedPast(p, t, sa[top..], b);
    assert sa'[top..] == sa'[b..][top - b..] == sa[b..][top - b..] == sa[top..];
    forall x | b - 1 <= x < top ensures sa'[x] == 0 {
      if x >= b {
        assert sa'[x] == sa'[b..][x - b] == sa[b..][x - b] == sa[x];
      }
    }
  }

  lemma UpperFront(p: Plan, t: seq<int>, sa: seq<int>, sa': seq<int>, b: int, top: int, q: int)
    requires Sound(p) && p.t == t
    requires 0 < b && Upper(p, t, sa, b, top) && q in p.targets && 0 <= q <= |t| && Lms(t, q) && Slot(p, q) == b - 1
    requires sa' == sa[b - 1 := 0][top - 1 := q]
    ensures Upper(p, t, sa', b - 1, top - 1)
  {
    hide Keyed, Sides, Inductive, Seeded, Slot, Lms, Packed;
    PackedFront(p, t, sa[top..], b, q);
    assert sa'[top - 1..] == [q] + sa[top..];
  }

  /** What the entry at the slot says about q. */
  lemma SubSEntry(p: Plan, t: seq<int>, q: int)
    requires Downward(SubS, p, t) && InQueue(p, q) && 0 < q < |t|
    ensures var v := Val(SubS, t, q, false);
            && (v > 0 <==> q - 1 in p.targets) && (v > 0 ==> v == q)
            && (v < 0 <==> Lms(t, q)) && (v < 0 ==> v == -q)
  {
    hide Sound, Less;
  }

  /** One step of induceSubS. */
  method StepSubS(t: seq<int>, sa: array<int>, s: Space, ghost p: Plan, i: int, top0: int, cB0: int, b0: int)
    returns (top: int, cB: int, b: int)
    requires Downward(SubS, p, t) && sa != s.tmp && CacheOk(t, s) && InAlphabet(t, s.textMax) && 0 <= i < sa.Length == |t|
    requires Filled(SubS, p, sa[..], i + 1) && Clean(SubS, p, sa[..], i + 1) && Pointers(p, s.Buckets(), cB0, b0, i + 1)
    requires Upper(p, t, sa[..], i + 1, top0)
    requires LmsAreTargets(p, t)
    modifies sa, s.tmp
    ensures CacheOk(t, s)
    ensures Filled(SubS, p, sa[..], i) && Clean(SubS, p, sa[..], i) && Pointers(p, s.Buckets(), cB, b, i)
    ensures Upper(p, t, sa[..], i, top)
  {
    hide Ready, SType, Lms, Slot, Ptr, Filled, Clean, Pointers, Placed, Packed, Val, PredS;
    ReadySound(SubS, p);
    ghost var before := sa[..];
    ghost var q := Look(SubS, p, before, i + 1);
    if q != -1 {
      SubSEntry(p, t, q);
      OnlyLms(p, t, i + 1, q);
    }
    top, cB, b := top0, cB0, b0;
    var j := sa[i];
    if j == 0 {
      assert q != -1 ==> before == before[i := Val(SubS, t, q, true)] by { ScannedSubS(t, q); }
      Pass(SubS, p, before, i + 1, q, before);
      PointersKept(p, s.Buckets(), cB, b, i + 1, i);
      UpperPast(p, t, before, before, i + 1, top);
      return;
    }
    ScannedSubS(t, q);
    if j < 0 {
      sa[i] := 0;
      ghost var mid := sa[..];
      Pass(SubS, p, before, i + 1, q, mid);
      PointersKept(p, s.Buckets(), cB, b, i + 1, i);
      top := top - 1;
      sa[top] := -j;
      LowerPart(p, mid, sa[..], i);
      UpperFront(p, t, before, sa[..], i + 1, top + 1, q);
    } else {
      cB, b := PushS(t, sa, s, SubS, p, i, j, 0, cB, b);
      assert sa[..][i + 1..] == before[i + 1..];
      UpperPast(p, t, before, sa[..], i + 1, top);
    }
  }

  lemma ScannedSubS(t: seq<int>, q: int)
    ensures Val(SubS, t, q, true) == 0
  {
  }

  ghost predicate LmsAreTargets(p: Plan, t: seq<int>) {
    forall q :: InQueue(p, q) && 0 <= q <= |t| && Lms(t, q) ==> q in p.targets
  }

  /** If the element at the slot is no LMS position, no LMS position has that slot. */
  lemma OnlyLms(p: Plan, t: seq<int>, b: int, q: int)
    requires Sound(p) && InQueue(p, q) && Slot(p, q) == Here(p, b) && 0 <= q < |t|
    ensures !Lms(t, q) ==> forall x :: x in p.targets && 0 <= x <= |t| && Lms(t, x) ==> Slot(p, x) != Here(p, b)
  {
    hide Keyed, Sides, Inductive, Seeded, Slot, Lms;
    forall x | x in p.targets && 0 <= x <= |t| && Lms(t, x) && Slot(p, x) == Here(p, b) ensures x == q {
      SlotOrder(p, x, q);
    }
  }

  /** induceSubS: the type-S positions of the LMS-substrings, of which it leaves the LMS positions,
      packed at the top of the array in the order of their substrings. */
  method InduceSubS(t: seq<int>, sa: array<int>, s: Space, ghost p: Plan) returns (ghost top: int)
    requires Downward(SubS, p, t) && sa != s.tmp && sa.Length == |t|
    requires forall x :: x in p.seeds ==> 0 <= SeedAt(p, x) < sa.Length && sa[SeedAt(p, x)] == Val(SubS, t, x, false)
    requires forall x :: 0 <= x < sa.Length && sa[x] != 0 ==> Seeded1(p, x)
    requires LmsAreTargets(p, t)
    requires CacheOk(t, s) && InAlphabet(t, s.textMax)
    modifies sa, s.tmp
    ensures CacheOk(t, s) && Upper(p, t, sa[..], 0, top)
  {
    hide Ready, SType, Lms, Slot, Ptr, Filled, Clean, Pointers, Placed, Packed, End, Val;
    BucketMax(t, s);
    var cB := 0;
    var b := s.tmp[s.Base() + cB];
    assert b == s.Buckets()[0];
    DownStarts(SubS, p, t, sa[..], s.Buckets());
    ReadySound(SubS, p);
    UpperStart(p, t, sa[..]);
    var top_ := sa.Length;
    var i := sa.Length - 1;
    while i >= 0
      invariant -1 <= i < sa.Length && CacheOk(t, s)
      invariant Filled(SubS, p, sa[..], i + 1) && Clean(SubS, p, sa[..], i + 1) && Pointers(p, s.Buckets(), cB, b, i + 1)
      invariant Upper(p, t, sa[..], i + 1, top_)
    {
      top_, cB, b := StepSubS(t, sa, s, p, i, top_, cB, b);
      i := i - 1;
    }
    top := top_;
  }
}
