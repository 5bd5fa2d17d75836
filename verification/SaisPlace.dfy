/** Putting the LMS positions into the ends of their buckets: in text order before the first round
    (placeLMS), in suffix order before the second (expand). */
module SaisPlace {
  import opened Suffixes
  import opened SaisTypes
  import opened SaisOrder
  import opened SaisPlan
  import opened SaisPlans
  import opened SaisBuckets
  import opened SaisScan
  import opened SaisInduce

  // ----- placeLMS -----

  /** Filling a bucket from its end while walking the text backwards sorts equal characters by position. */
  lemma PlaceOrder(t: seq<int>, from: int, x: int)
    requires x in LmsSeeds(t, from)
    ensures SeedsAbove(t, KeyN(t), from, x) == SeedsAt(t, x, At(t, x))
  {
    hide KeyN, Less;
    forall y | y in LmsSeeds(t, -1) && At(t, y) == At(t, x) ensures At(KeyN(t), y) > At(KeyN(t), x) <==> y > x {
      KeyNOrder(t, x, y);
    }
  }

  ghost function PlaceSlot(t: seq<int>, x: int): int {
    Min(t, At(t, x) + 1) - 1 - |SeedsAt(t, x, At(t, x))|
  }

  lemma PlaceSlotIsTop(t: seq<int>, from: int, x: int)
    requires x in LmsSeeds(t, from)
    ensures TopSlot(t, KeyN(t), from, x) == PlaceSlot(t, x)
  {
    PlaceOrder(t, from, x);
  }

  lemma PlaceSlots(t: seq<int>, x: int, y: int)
    requires x in LmsSeeds(t, -1) && y in LmsSeeds(t, -1)
    ensures 0 <= PlaceSlot(t, x) < |t|
    ensures PlaceSlot(t, x) == PlaceSlot(t, y) <==> x == y
  {
    hide Sound, KeyN, TopSlot, PlaceSlot, Less;
    var p := UpPlan(t, KeyN(t), -1);
    KeyNUp(t);
    UpPlanSound(t, KeyN(t), -1);
    PlaceSlotIsTop(t, -1, x);
    PlaceSlotIsTop(t, -1, y);
    SeedSlot(p, x);
    SeedSlot(p, y);
    SlotBounds(p, x);
    SlotOrder(p, x, y);
  }

  /** The array while placeLMS has placed the LMS positions greater than f. */
  ghost predicate PlacedAbove(t: seq<int>, sa: seq<int>, f: int) {
    && |sa| == |t|
    && (forall x :: x in LmsSeeds(t, f) ==> 0 <= PlaceSlot(t, x) < |sa| && sa[PlaceSlot(t, x)] == x)
    && (forall i :: 0 <= i < |sa| && sa[i] != 0 ==> PlacedFrom(t, f, i))
  }

  ghost predicate PlacedFrom(t: seq<int>, f: int, i: int) {
    exists q :: q in LmsSeeds(t, f) && PlaceSlot(t, q) == i
  }

  ghost predicate BucketsAbove(t: seq<int>, buckets: seq<int>, f: int) {
    forall c :: 0 <= c < |buckets| ==> buckets[c] == End(t, c) - |SeedsAt(t, f, c)|
  }

  lemma PlaceOne(t: seq<int>, sa: seq<int>, buckets: seq<int>, x: int, sa': seq<int>, buckets': seq<int>)
    requires 0 < x < |t| && Lms(t, x) && PlacedAbove(t, sa, x) && BucketsAbove(t, buckets, x) && InAlphabet(t, |buckets|)
    requires buckets' == buckets[t[x] := buckets[t[x]] - 1]
    requires sa' == if 0 <= PlaceSlot(t, x) < |sa| then sa[PlaceSlot(t, x) := x] else sa
    ensures buckets[t[x]] - 1 == PlaceSlot(t, x) && 0 <= PlaceSlot(t, x) < |sa|
    ensures PlacedAbove(t, sa', x - 1) && BucketsAbove(t, buckets', x - 1)
  {
    hide Less, PlaceSlot, Min, PlacedAbove, BucketsAbove;
    assert buckets[t[x]] - 1 == PlaceSlot(t, x) by { PlaceSlotValue(t, buckets, x); }
    PlaceSlots(t, x, x);
    assert |sa| == |t| by { PlacedLength(t, sa, x); }
    assert PlacedAbove(t, sa', x - 1) by { PlaceEntry(t, sa, x); }
    assert BucketsAbove(t, buckets', x - 1) by { PlaceBucket(t, buckets, x); }
  }

  lemma PlacedLength(t: seq<int>, sa: seq<int>, x: int)
    requires PlacedAbove(t, sa, x)
    ensures |sa| == |t|
  {
  }

  lemma PlaceEntry(t: seq<int>, sa: seq<int>, x: int)
    requires 0 < x < |t| && Lms(t, x) && PlacedAbove(t, sa, x) && 0 <= PlaceSlot(t, x) < |sa|
    ensures PlacedAbove(t, sa[PlaceSlot(t, x) := x], x - 1)
  {
    hide Less, PlaceSlot, Lms;
    var sa' := sa[PlaceSlot(t, x) := x];
    forall y | y in LmsSeeds(t, x - 1) ensures 0 <= PlaceSlot(t, y) < |sa'| && sa'[PlaceSlot(t, y)] == y {
      PlaceSlots(t, x, y);
    }
    forall i | 0 <= i < |sa'| && sa'[i] != 0 ensures PlacedFrom(t, x - 1, i) {
      if i == PlaceSlot(t, x) {
        assert x in LmsSeeds(t, x - 1);
      } else {
        assert PlacedFrom(t, x, i);
      }
    }
  }

  lemma PlaceBucket(t: seq<int>, buckets: seq<int>, x: int)
    requires 0 < x < |t| && Lms(t, x) && BucketsAbove(t, buckets, x) && InAlphabet(t, |buckets|)
    ensures BucketsAbove(t, buckets[t[x] := buckets[t[x]] - 1], x - 1)
  {
    hide Less, Lms, End;
    forall c ensures |SeedsAt(t, x - 1, c)| == |SeedsAt(t, x, c)| + if t[x] == c then 1 else 0 {
      assert SeedsAt(t, x - 1, c) == SeedsAt(t, x, c) + if t[x] == c then {x} else {};
    }
  }

  lemma PlaceSlotValue(t: seq<int>, buckets: seq<int>, x: int)
    requires 0 <= x < |t| && BucketsAbove(t, buckets, x) && InAlphabet(t, |buckets|)
    ensures buckets[t[x]] - 1 == PlaceSlot(t, x)
  {
  }

  lemma PlaceNone(t: seq<int>, f: int)
    requires 0 <= f <= |t| && (f == |t| || !Lms(t, f))
    ensures LmsSeeds(t, f - 1) == LmsSeeds(t, f)
    ensures forall c :: SeedsAt(t, f - 1, c) == SeedsAt(t, f, c)
  {
  }

  lemma PlaceKept(t: seq<int>, sa: seq<int>, buckets: seq<int>, f: int)
    requires 0 <= f <= |t| && (f == |t| || !Lms(t, f)) && PlacedAbove(t, sa, f) && BucketsAbove(t, buckets, f)
    ensures PlacedAbove(t, sa, f - 1) && BucketsAbove(t, buckets, f - 1)
  {
    hide Less, PlaceSlot, End, SeedsAt;
    PlaceNone(t, f);
    forall i | 0 <= i < |sa| && sa[i] != 0 ensures PlacedFrom(t, f - 1, i) {
      assert PlacedFrom(t, f, i);
    }
  }

  lemma PlaceStart(t: seq<int>, sa: seq<int>, buckets: seq<int>)
    requires |sa| == |t| && forall i :: 0 <= i < |sa| ==> sa[i] == 0
    requires forall c :: 0 <= c < |buckets| ==> buckets[c] == End(t, c)
    ensures PlacedAbove(t, sa, |t|) && BucketsAbove(t, buckets, |t|)
  {
    hide Less, PlaceSlot, End;
    assert LmsSeeds(t, |t|) == {};
    forall c ensures SeedsAt(t, |t|, c) == {} {
    }
  }

  /** lastB is the slot of the first of the LMS positions from f on. */
  ghost predicate LastIs(t: seq<int>, f: int, lastB: int) {
    0 <= f <= |t| && |LmsFrom(t, f)| > 0 && lastB == PlaceSlot(t, LmsFrom(t, f)[0])
  }

  lemma AllLms(t: seq<int>)
    requires |t| >= 1
    ensures LmsList(t) == LmsFrom(t, 1) && LmsSeeds(t, 0) == LmsSeeds(t, -1)
  {
    hide Less;
    assert !Lms(t, 0);
    LmsFromStep(t, 0);
  }

  lemma FirstIsLeast(t: seq<int>, x: int)
    requires |LmsList(t)| > 0 && x in LmsSeeds(t, -1)
    ensures LmsList(t)[0] in LmsSeeds(t, -1) && x >= LmsList(t)[0]
  {
    hide Lms, LmsFrom;
    LmsListProperties(t);
    var k :| 0 <= k < |LmsList(t)| && LmsList(t)[k] == x;
  }

  lemma WithoutFirst(t: seq<int>, sa: seq<int>, lastB: int)
    requires PlacedAbove(t, sa, 0) && LastIs(t, 1, lastB) && 0 <= lastB < |sa| && |t| >= 2
    ensures SeedsOnly(SubL, UpPlan(t, KeyN(t), LmsList(t)[0]), sa[lastB := 0])
  {
    hide Less, Lms, LmsFrom, PlaceSlot, KeyN, TopSlot;
    AllLms(t);
    LmsListProperties(t);
    var first := LmsList(t)[0];
    var sa' := sa[lastB := 0];
    var p := UpPlan(t, KeyN(t), first);
    forall x | x in p.seeds ensures 0 <= SeedAt(p, x) < |sa'| && sa'[SeedAt(p, x)] == Val(SubL, t, x, false) {
      PlaceSlotIsTop(t, first, x);
      PlaceSlots(t, x, first);
      SeedVal(t, x);
    }
    forall i | 0 <= i < |sa'| && sa'[i] != 0 ensures Seeded1(p, i) {
      assert PlacedFrom(t, 0, i);
      var q :| q in LmsSeeds(t, 0) && PlaceSlot(t, q) == i;
      FirstIsLeast(t, q);
      PlaceSlotIsTop(t, first, q);
      assert q in p.seeds && SeedAt(p, q) == i;
    }
  }

  /** The entry of a seed is its position. */
  lemma SeedVal(t: seq<int>, x: int)
    requires 0 <= x < |t| && Lms(t, x)
    ensures Val(SubL, t, x, false) == x && Val(FullL, t, x, false) == x
  {
  }

  lemma OneSeed(t: seq<int>, sa: seq<int>)
    requires PlacedAbove(t, sa, 0) && |LmsList(t)| <= 1 && |t| >= 2
    ensures SeedsOnly(FullL, UpPlan(t, KeyLess(t), -1), sa)
  {
    hide Less, Lms, LmsFrom, KeyLess, KeyN, Min;
    AllLms(t);
    var p := UpPlan(t, KeyLess(t), -1);
    forall x | x in p.seeds ensures SeedAt(p, x) == PlaceSlot(t, x) && Val(FullL, t, x, false) == x {
      OnlySeed(t, x);
      SeedVal(t, x);
    }
    forall i | 0 <= i < |sa| && sa[i] != 0 ensures Seeded1(p, i) {
      assert PlacedFrom(t, 0, i);
      var q :| q in LmsSeeds(t, 0) && PlaceSlot(t, q) == i;
      assert q in p.seeds && SeedAt(p, q) == i;
    }
  }

  lemma OnlySeed(t: seq<int>, x: int)
    requires |LmsList(t)| <= 1 && x in LmsSeeds(t, -1)
    ensures TopSlot(t, KeyLess(t), -1, x) == PlaceSlot(t, x)
  {
    hide Lms, LmsFrom, KeyLess, Min;
    LmsListProperties(t);
    assert forall y :: y in LmsSeeds(t, -1) ==> y in LmsList(t);
    assert SeedsAbove(t, KeyLess(t), -1, x) == {};
    assert SeedsAt(t, x, At(t, x)) == {};
  }

  /** placeLMS.  The first LMS position does not end a substring and is taken out again, unless it is
      the only one. */
  method PlaceLms(t: seq<int>, sa: array<int>, s: Space) returns (numLms: nat)
    requires |t| >= 2 && sa.Length == |t| && sa != s.tmp && forall i :: 0 <= i < sa.Length ==> sa[i] == 0
    requires CacheOk(t, s) && InAlphabet(t, s.textMax)
    modifies sa, s.tmp
    ensures CacheOk(t, s)
    ensures numLms == |LmsList(t)|
    ensures numLms <= 1 ==> SeedsOnly(FullL, UpPlan(t, KeyLess(t), -1), sa[..])
    ensures numLms > 1 ==> SeedsOnly(SubL, UpPlan(t, KeyN(t), LmsList(t)[0]), sa[..])
  {
    hide Less, Lms, SType, LmsFrom, PlaceSlot, End, PlacedAbove, BucketsAbove, SeedsOnly, KeyN, KeyLess, UpPlan;
    BucketMax(t, s);
    PlaceStart(t, sa[..], s.Buckets());
    LmsFromStep(t, |t|);
    numLms := 0;
    var lastB := -1;
    var c0, isTypeS := 0, false;
    var i := |t| - 1;
    while i >= 0
      invariant -1 <= i < |t| && CacheOk(t, s)
      invariant IteratorAt(t, i + 1, c0, isTypeS)
      invariant PlacedAbove(t, sa[..], i + 1) && BucketsAbove(t, s.Buckets(), i + 1)
      invariant numLms == |LmsFrom(t, if i + 2 <= |t| then i + 2 else |t|)|
      invariant numLms > 0 ==> 0 <= lastB < sa.Length && LastIs(t, i + 2, lastB)
    {
      IteratorStep(t, i, c0, isTypeS);
      LmsFromStep(t, i + 1);
      var c1 := c0;
      c0 := t[i];
      if c0 < c1 {
        isTypeS := true;
        PlaceKept(t, sa[..], s.Buckets(), i + 1);
      } else if c0 > c1 && isTypeS {
        isTypeS := false;
        lastB := PlaceHere(t, sa, s, i, c1);
        numLms := numLms + 1;
      } else {
        PlaceKept(t, sa[..], s.Buckets(), i + 1);
      }
      i := i - 1;
    }
    AllLms(t);
    if numLms > 1 {
      ghost var before := sa[..];
      sa[lastB] := 0;
      assert sa[..] == before[lastB := 0];
      WithoutFirst(t, before, lastB);
    } else {
      OneSeed(t, sa[..]);
    }
  }

  /** Bucket the LMS position i + 1, whose character is c1. */
  method PlaceHere(t: seq<int>, sa: array<int>, s: Space, i: int, c1: int) returns (b: int)
    requires 0 <= i && i + 1 < |t| && Lms(t, i + 1) && c1 == t[i + 1]
    requires sa != s.tmp && CacheOk(t, s) && InAlphabet(t, s.textMax)
    requires PlacedAbove(t, sa[..], i + 1) && BucketsAbove(t, s.Buckets(), i + 1)
    modifies sa, s.tmp
    ensures CacheOk(t, s) && PlacedAbove(t, sa[..], i) && BucketsAbove(t, s.Buckets(), i)
    ensures 0 <= b < sa.Length && LastIs(t, i + 1, b)
  {
    hide Less, Lms, LmsFrom, PlaceSlot, End, PlacedAbove, BucketsAbove, CharsAt;
    ghost var sa0, b0 := sa[..], s.Buckets();
    b := s.tmp[s.Base() + c1] - 1;
    assert b == b0[c1] - 1;
    PlaceOne(t, sa0, b0, i + 1, if 0 <= PlaceSlot(t, i + 1) < |sa0| then sa0[PlaceSlot(t, i + 1) := i + 1] else sa0,
             b0[c1 := b0[c1] - 1]);
    s.tmp[s.Base() + c1] := b;
    assert s.Buckets() == b0[c1 := b0[c1] - 1];
    sa[b] := i + 1;
    assert sa[..] == sa0[b := i + 1];
    LmsFromStep(t, i + 1);
  }

  // ----- expand -----

  /** ls lists the LMS positions in suffix order. */
  ghost predicate SortedLms(t: seq<int>, ls: seq<int>) {
    && (forall k :: 0 <= k < |ls| ==> ls[k] in LmsSeeds(t, -1))
    && (forall x :: x in LmsSeeds(t, -1) ==> x in ls)
    && (forall k, l :: 0 <= k < l < |ls| ==> At(KeyLess(t), ls[k]) < At(KeyLess(t), ls[l]))
  }

  /** The LMS positions from ls[x] on with character c, and how many they are. */
  ghost function RestSet(t: seq<int>, ls: seq<int>, x: nat, c: int): set<int>
    decreases |ls| - x
  {
    if x >= |ls| then {} else RestSet(t, ls, x + 1, c) + if At(t, ls[x]) == c then {ls[x]} else {}
  }

  ghost function Rest(t: seq<int>, ls: seq<int>, x: nat, c: int): nat
    decreases |ls| - x
  {
    if x >= |ls| then 0 else Rest(t, ls, x + 1, c) + if At(t, ls[x]) == c then 1 else 0
  }

  lemma {:induction false} RestSetIs(t: seq<int>, ls: seq<int>, x: nat, c: int, y: int)
    ensures y in RestSet(t, ls, x, c) <==> At(t, y) == c && exists k :: x <= k < |ls| && ls[k] == y
    decreases |ls| - x
  {
    if x < |ls| {
      RestSetIs(t, ls, x + 1, c, y);
    }
  }

  ghost function ExpandSlot(t: seq<int>, q: int): int {
    TopSlot(t, KeyLess(t), -1, q)
  }

  lemma {:induction false} RestSize(t: seq<int>, ls: seq<int>, x: nat, c: int)
    requires forall k, l :: 0 <= k < l < |ls| ==> ls[k] != ls[l]
    ensures |RestSet(t, ls, x, c)| == Rest(t, ls, x, c)
    decreases |ls| - x
  {
    if x < |ls| {
      RestSize(t, ls, x + 1, c);
      RestSetIs(t, ls, x + 1, c, ls[x]);
    }
  }

  /** The slot of the x-th LMS position counts the later ones of its bucket. */
  lemma ExpandSlotCounts(t: seq<int>, ls: seq<int>, x: nat)
    requires SortedLms(t, ls) && x < |ls|
    ensures ExpandSlot(t, ls[x]) == End(t, At(t, ls[x])) - 1 - Rest(t, ls, x + 1, At(t, ls[x]))
  {
    hide Less, KeyLess, Min, LmsSeeds;
    var c := At(t, ls[x]);
    assert forall k, l :: 0 <= k < l < |ls| ==> ls[k] != ls[l] by { SortedDistinct(t, ls); }
    RestSize(t, ls, x + 1, c);
    forall y ensures y in SeedsAbove(t, KeyLess(t), -1, ls[x]) <==> y in RestSet(t, ls, x + 1, c) {
      LaterSeed(t, ls, x, y);
    }
    assert SeedsAbove(t, KeyLess(t), -1, ls[x]) == RestSet(t, ls, x + 1, c);
  }

  lemma SortedDistinct(t: seq<int>, ls: seq<int>)
    requires SortedLms(t, ls)
    ensures forall k, l :: 0 <= k < l < |ls| ==> ls[k] != ls[l]
  {
    hide KeyLess, LmsSeeds;
    forall k, l | 0 <= k < l < |ls| ensures ls[k] != ls[l] {
      assert At(KeyLess(t), ls[k]) < At(KeyLess(t), ls[l]);
    }
  }

  lemma LaterSeed(t: seq<int>, ls: seq<int>, x: nat, y: int)
    requires SortedLms(t, ls) && x < |ls|
    ensures y in SeedsAbove(t, KeyLess(t), -1, ls[x]) <==> y in RestSet(t, ls, x + 1, At(t, ls[x]))
  {
    hide Less, KeyLess, LmsSeeds;
    RestSetIs(t, ls, x + 1, At(t, ls[x]), y);
    if y in LmsSeeds(t, -1) {
      var k :| 0 <= k < |ls| && ls[k] == y;
    }
  }

  /** Slots increase along the list, so the x-th slot is at x or beyond. */
  lemma ExpandSlotOrder(t: seq<int>, ls: seq<int>, x: nat, y: nat)
    requires SortedLms(t, ls) && x < y < |ls|
    ensures ExpandSlot(t, ls[x]) < ExpandSlot(t, ls[y])
  {
    hide Sound, KeyLess, TopSlot, Less;
    var p := UpPlan(t, KeyLess(t), -1);
    KeyLessBoth(t);
    UpPlanSound(t, KeyLess(t), -1);
    SeedSlot(p, ls[x]);
    SeedSlot(p, ls[y]);
    SlotOrder(p, ls[x], ls[y]);
  }

  lemma {:induction false} ExpandSlotBounds(t: seq<int>, ls: seq<int>, x: nat)
    requires SortedLms(t, ls) && x < |ls|
    ensures x <= ExpandSlot(t, ls[x]) < |t|
    decreases x
  {
    hide Sound, KeyLess, TopSlot, Less, ExpandSlot;
    var p := UpPlan(t, KeyLess(t), -1);
    KeyLessBoth(t);
    UpPlanSound(t, KeyLess(t), -1);
    ExpandSlotIsSlot(t, ls[x]);
    SlotBounds(p, ls[x]);
    if x > 0 {
      ExpandSlotBounds(t, ls, x - 1);
      ExpandSlotOrder(t, ls, x - 1, x);
    }
  }

  lemma ExpandSlotIsSlot(t: seq<int>, q: int)
    requires q in LmsSeeds(t, -1)
    ensures ExpandSlot(t, q) == Slot(UpPlan(t, KeyLess(t), -1), q)
  {
  }

  ghost predicate BucketsFrom(t: seq<int>, ls: seq<int>, buckets: seq<int>, x: nat) {
    forall c :: 0 <= c < |buckets| ==> buckets[c] == End(t, c) - Rest(t, ls, x, c)
  }

  /** expand under way: the entries from the x-th on stand at their slots above i, the rest is zero
      there, and the unread front of the list is untouched. */
  ghost predicate Expanding(t: seq<int>, ls: seq<int>, sa: seq<int>, x: int, i: int) {
    && |sa| == |t| && 0 <= x <= |ls| <= |sa| && -1 <= i
    && (forall k :: 0 <= k < x && k <= i ==> sa[k] == ls[k])
    && (forall k :: x <= k < |ls| ==> i < ExpandSlot(t, ls[k]) < |sa| && sa[ExpandSlot(t, ls[k])] == ls[k])
    && (forall j :: i < j < |sa| && sa[j] != 0 ==> ExpandedFrom(t, ls, x, j))
  }

  ghost predicate ExpandedFrom(t: seq<int>, ls: seq<int>, x: int, j: int) {
    exists k :: x <= k < |ls| && 0 <= k && ExpandSlot(t, ls[k]) == j
  }

  lemma ExpandZero(t: seq<int>, ls: seq<int>, sa: seq<int>, x: int, i: int)
    requires Expanding(t, ls, sa, x, i) && 0 <= i < |sa|
    requires x > 0 ==> x - 1 < i
    ensures Expanding(t, ls, sa[i := 0], x, i - 1)
  {
    hide ExpandSlot;
    forall j | i - 1 < j < |sa| && sa[i := 0][j] != 0 ensures ExpandedFrom(t, ls, x, j) {
      assert sa[j] != 0;
    }
  }

  lemma ExpandPut(t: seq<int>, ls: seq<int>, sa: seq<int>, x: int, i: int)
    requires Expanding(t, ls, sa, x, i) && 0 < x && 0 <= i < |sa| && ExpandSlot(t, ls[x - 1]) == i && x - 1 <= i
    ensures Expanding(t, ls, sa[i := ls[x - 1]], x - 1, i - 1)
  {
    hide ExpandSlot;
    var sa' := sa[i := ls[x - 1]];
    forall j | i - 1 < j < |sa'| && sa'[j] != 0 ensures ExpandedFrom(t, ls, x - 1, j) {
      if j != i {
        assert ExpandedFrom(t, ls, x, j);
      }
    }
  }

  lemma BucketsStep(t: seq<int>, ls: seq<int>, buckets: seq<int>, x: nat, buckets': seq<int>)
    requires SortedLms(t, ls) && InAlphabet(t, |buckets|) && BucketsFrom(t, ls, buckets, x) && 0 < x <= |ls|
    requires 0 <= At(t, ls[x - 1]) < |buckets| ==> buckets' == buckets[At(t, ls[x - 1]) := buckets[At(t, ls[x - 1])] - 1]
    ensures 0 <= ls[x - 1] < |t| && 0 <= At(t, ls[x - 1]) < |buckets|
    ensures buckets'[At(t, ls[x - 1])] == ExpandSlot(t, ls[x - 1]) && BucketsFrom(t, ls, buckets', x - 1)
  {
    hide Less, KeyLess, Min, ExpandSlot, End, SortedLms, Rest;
    SortedInText(t, ls, x - 1);
    ExpandSlotCounts(t, ls, x - 1);
    forall d | 0 <= d < |buckets| ensures buckets'[d] == End(t, d) - Rest(t, ls, x - 1, d) {
      RestStep(t, ls, x, d);
    }
  }

  lemma RestStep(t: seq<int>, ls: seq<int>, x: int, d: int)
    requires 0 < x <= |ls|
    ensures Rest(t, ls, x - 1, d) == Rest(t, ls, x, d) + if At(t, ls[x - 1]) == d then 1 else 0
  {
  }

  /** Take the x-th list entry's slot off its bucket. */
  method NextSlot(t: seq<int>, s: Space, ghost ls: seq<int>, x: nat, saX: int) returns (b: int)
    requires SortedLms(t, ls) && InAlphabet(t, s.textMax) && CacheOk(t, s) && x < |ls| && saX == ls[x]
    requires BucketsFrom(t, ls, s.Buckets(), x + 1)
    modifies s.tmp
    ensures CacheOk(t, s) && BucketsFrom(t, ls, s.Buckets(), x) && b == ExpandSlot(t, ls[x])
  {
    hide Less, KeyLess, Min, ExpandSlot, End, BucketsFrom, CharsAt;
    ghost var b0 := s.Buckets();
    SortedInText(t, ls, x);
    BucketsStep(t, ls, b0, x + 1, b0[t[saX] := b0[t[saX]] - 1]);
    var c := t[saX];
    b := s.tmp[s.Base() + c] - 1;
    assert b == b0[c] - 1;
    s.tmp[s.Base() + c] := b;
    assert s.Buckets() == b0[c := b0[c] - 1];
  }

  lemma SortedInText(t: seq<int>, ls: seq<int>, x: nat)
    requires SortedLms(t, ls) && x < |ls|
    ensures 0 <= ls[x] < |t|
  {
    hide Less;
  }

  lemma BucketsFromStart(t: seq<int>, ls: seq<int>, buckets: seq<int>)
    requires forall c :: 0 <= c < |buckets| ==> buckets[c] == End(t, c)
    ensures BucketsFrom(t, ls, buckets, |ls|)
  {
  }

  /** expand: spread the sorted LMS positions from the front of the array to the ends of their buckets,
      in place. */
  method Expand(t: seq<int>, s: Space, sa: array<int>, numLms: nat, ghost ls: seq<int>)
    requires sa.Length == |t| && sa != s.tmp && CacheOk(t, s) && InAlphabet(t, s.textMax)
    requires 0 < numLms == |ls| <= |t| && SortedLms(t, ls) && sa[..numLms] == ls
    modifies sa, s.tmp
    ensures CacheOk(t, s) && SeedsOnly(FullL, UpPlan(t, KeyLess(t), -1), sa[..])
  {
    hide Less, KeyLess, ExpandSlot, End, BucketsFrom, SortedLms, Expanding, SeedsOnly, UpPlan;
    BucketMax(t, s);
    BucketsFromStart(t, ls, s.Buckets());
    var x := numLms - 1;
    var saX := sa[x];
    assert saX == sa[..numLms][x];
    var b := NextSlot(t, s, ls, x, saX);
    ExpandSlotBounds(t, ls, x);
    assert Expanding(t, ls, sa[..], numLms, |t| - 1) by { ExpandStart(t, ls, sa[..]); }
    ghost var pending := true;
    var i := sa.Length - 1;
    while i >= 0
      invariant -1 <= i < sa.Length && 0 <= x < |ls| && CacheOk(t, s)
      invariant saX == ls[x] && b == ExpandSlot(t, ls[x]) && x <= b && BucketsFrom(t, ls, s.Buckets(), x)
      invariant Expanding(t, ls, sa[..], if pending then x + 1 else 0, i)
      invariant if pending then b <= i else x == 0 && b > i
    {
      ghost var before := sa[..];
      if i != b {
        sa[i] := 0;
        assert sa[..] == before[i := 0];
        ExpandZero(t, ls, before, if pending then x + 1 else 0, i);
      } else {
        sa[i] := saX;
        assert sa[..] == before[i := ls[x]];
        ExpandPut(t, ls, before, x + 1, i);
        if x > 0 {
          x := x - 1;
          ExpandSlotOrder(t, ls, x, x + 1);
          ExpandSlotBounds(t, ls, x);
          UnreadEntry(t, ls, sa[..], x, i - 1);
          saX := sa[x];
          b := NextSlot(t, s, ls, x, saX);
        } else {
          pending := false;
        }
      }
      i := i - 1;
    }
    ExpandDone(t, ls, sa[..]);
  }

  lemma ExpandStart(t: seq<int>, ls: seq<int>, sa: seq<int>)
    requires |ls| <= |sa| == |t| && sa[..|ls|] == ls
    ensures Expanding(t, ls, sa, |ls|, |t| - 1)
  {
    forall k | 0 <= k < |ls| ensures sa[k] == ls[k] {
      assert sa[..|ls|][k] == ls[k];
    }
  }

  lemma UnreadEntry(t: seq<int>, ls: seq<int>, sa: seq<int>, x: int, i: int)
    requires Expanding(t, ls, sa, x + 1, i) && 0 <= x <= i < |sa|
    ensures sa[x] == ls[x]
  {
  }

  lemma ExpandDone(t: seq<int>, ls: seq<int>, sa: seq<int>)
    requires SortedLms(t, ls) && Expanding(t, ls, sa, 0, -1)
    ensures SeedsOnly(FullL, UpPlan(t, KeyLess(t), -1), sa)
  {
    hide Less, KeyLess, TopSlot;
    var p := UpPlan(t, KeyLess(t), -1);
    forall x | x in p.seeds ensures 0 <= SeedAt(p, x) < |sa| && sa[SeedAt(p, x)] == Val(FullL, t, x, false) {
      var k :| 0 <= k < |ls| && ls[k] == x;
      SeedVal(t, x);
    }
    forall j | 0 <= j < |sa| && sa[j] != 0 ensures Seeded1(p, j) {
      assert ExpandedFrom(t, ls, 0, j);
      var k :| 0 <= k < |ls| && ExpandSlot(t, ls[k]) == j;
      assert ls[k] in p.seeds && SeedAt(p, ls[k]) == j;
    }
  }
}
