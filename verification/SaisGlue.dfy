/** What one phase of the induced sort leaves is what the next one needs. */
module SaisGlue {
  import opened Suffixes
  import opened SaisTypes
  import opened SaisOrder
  import opened SaisPlan
  import opened SaisPlans
  import opened SaisBuckets
  import opened SaisScan
  import opened SaisInduce
  import opened SaisPlace
  import opened SaisReduce
  import opened SaisAssign

  // ----- First round -----

  ghost function First(t: seq<int>): int {
    if |LmsList(t)| > 0 then LmsList(t)[0] else -1
  }

  ghost function SubUp(t: seq<int>): Plan {
    UpPlan(t, KeyN(t), First(t))
  }

  ghost function SubDown(t: seq<int>): Plan {
    DownPlan(t, KeyF(t), First(t), SubUp(t))
  }

  lemma FirstLms(t: seq<int>)
    requires |LmsList(t)| > 0
    ensures 0 < First(t) < |t| - 1 && From(t, First(t)) && Lms(t, First(t))
    ensures forall p :: 0 <= p < |t| && Lms(t, p) ==> First(t) <= p
  {
    hide Less, LmsFrom, Lms;
    LmsListProperties(t);
    forall p | 0 <= p < |t| && Lms(t, p) ensures First(t) <= p {
      var k :| 0 <= k < |LmsList(t)| && LmsList(t)[k] == p;
    }
  }

  lemma LastIsTypeL(t: seq<int>)
    requires |t| > 0
    ensures !SType(t, |t| - 1)
  {
  }

  lemma SubUpReady(t: seq<int>)
    requires |t| >= 2 && |LmsList(t)| > 0
    ensures Upward(SubL, SubUp(t), t) && Sound(SubUp(t))
  {
    hide Less, Lms, LmsFrom, KeyN, UpKeys, Sound, TopSlot, Ready;
    FirstLms(t);
    KeyNUp(t);
    UpReady(SubL, t, KeyN(t), First(t));
    ReadySound(SubL, SubUp(t));
    LastIsTypeL(t);
  }

  lemma SubDownReady(t: seq<int>)
    requires |t| >= 2 && |LmsList(t)| > 0
    ensures Downward(SubS, SubDown(t), t) && Sound(SubDown(t)) && LmsAreTargets(SubDown(t), t)
  {
    hide Less, LmsFrom, KeyN, KeyF, UpKeys, DownKeys, Sound, Slot, TopSlot, Ready;
    FirstLms(t);
    KeyNUp(t);
    KeyFDown(t);
    forall x, y | 0 <= x < |t| && 0 <= y < |t| && !SType(t, x) && !SType(t, y)
      ensures At(KeyN(t), x) < At(KeyN(t), y) <==> At(KeyF(t), x) < At(KeyF(t), y)
    {
      KeysAgreeOnL(t, x, y);
    }
    DownPlanSound(t, KeyN(t), KeyF(t), First(t));
    DownReady(SubS, t, KeyF(t), First(t), SubUp(t));
    ReadySound(SubS, SubDown(t));
  }

  /** What an upward scan leaves at a type-L position's slot. */
  lemma ScannedUp(m: Scan, p: Plan, sa: seq<int>, q: int)
    requires Sound(p) && p.up && (m.SubL? || m.FullL?) && Filled(m, p, sa, |p.t|) && InQueue(p, q)
    ensures 0 <= Slot(p, q) < |sa| == |p.t| && sa[Slot(p, q)] == Val(m, p.t, q, true)
  {
    hide Keyed, Sides, Inductive, Seeded, Slot, Placed, Val;
    AllPlaced(p, q);
    SlotBounds(p, q);
    assert Holds(m, p, sa, |p.t|, q);
  }

  lemma SeedsOfSubS(t: seq<int>, q: int)
    requires 0 <= q < |t|
    ensures !SType(t, q) ==> Val(SubL, t, q, true) == Val(SubS, t, q, false)
    ensures !SType(t, q) ==> Val(FullL, t, q, true) == Val(FullS, t, q, false)
    ensures Lms(t, q) ==> Val(SubL, t, q, true) == 0
  {
    hide Less;
  }

  /** The leftmost type-L positions are exactly what the second scan starts from. */
  lemma SubGlue(t: seq<int>, sa: seq<int>)
    requires |t| >= 2 && |LmsList(t)| > 0
    requires Filled(SubL, SubUp(t), sa, |t|) && Clean(SubL, SubUp(t), sa, |t|)
    ensures forall x :: x in SubDown(t).seeds ==>
              0 <= SeedAt(SubDown(t), x) < |sa| && sa[SeedAt(SubDown(t), x)] == Val(SubS, t, x, false)
    ensures forall x :: 0 <= x < |sa| && sa[x] != 0 ==> Seeded1(SubDown(t), x)
  {
    hide Less, LmsFrom, Lms, SType, KeyN, KeyF, Sound, Slot, TopSlot, Ready, Val, Placed;
    SubUpReady(t);
    var up, p := SubUp(t), SubDown(t);
    forall x | x in p.seeds ensures 0 <= SeedAt(p, x) < |sa| && sa[SeedAt(p, x)] == Val(SubS, t, x, false) {
      ScannedUp(SubL, up, sa, x);
      SeedsOfSubS(t, x);
    }
    forall x | 0 <= x < |sa| && sa[x] != 0 ensures Seeded1(p, x) {
      assert Owned(up, |t|, x);
      var q :| InQueue(up, q) && Placed(up, q, |t|) && Slot(up, q) == x;
      ScannedUp(SubL, up, sa, q);
      SeedsOfSubS(t, q);
      assert q in p.seeds && SeedAt(p, q) == x;
    }
  }

  lemma SubDownTarget(t: seq<int>, q: int)
    requires |LmsList(t)| > 0
    ensures 0 <= q < |t| && Lms(t, q) ==> q in SubDown(t).targets
    ensures q in SubDown(t).targets ==> 0 <= q < |t|
  {
    hide Less, LmsFrom;
    FirstLms(t);
  }

  /** The packed list of the second scan names every LMS position, in substring order. */
  lemma SubResult(t: seq<int>, sa: seq<int>, top: int)
    requires |t| >= 2 && |LmsList(t)| > 0 && |sa| == |t| && Upper(SubDown(t), t, sa, 0, top)
    ensures 0 <= top <= |t| && top == |t| - |LmsList(t)| && SubSorted(t, sa[top..]) && forall x :: 0 <= x < top ==> sa[x] == 0
  {
    hide Less, LmsFrom, Lms, SType, KeyN, KeyF, Sound, Slot, FLt, SubDown, SubSorted;
    var p, ls := SubDown(t), sa[top..];
    SubDownReady(t);
    assert Packed(p, t, ls, 0);
    forall k | 0 <= k < |ls| ensures 0 < ls[k] < |t| && Lms(t, ls[k]) {
      LmsPositive(t, ls[k]);
      SubDownTarget(t, ls[k]);
    }
    forall q | 0 <= q < |t| && Lms(t, q) ensures q in ls {
      SubDownTarget(t, q);
      SlotBounds(p, q);
    }
    forall k, l | 0 <= k < l < |ls| ensures FLt(t, ls[k], ls[l]) && ls[k] != ls[l] {
      SubDownOrder(t, ls[k], ls[l]);
    }
    SubSortedFrom(t, ls);
    SameLength(t, ls);
  }

  lemma SubSortedFrom(t: seq<int>, ls: seq<int>)
    requires forall k :: 0 <= k < |ls| ==> 0 < ls[k] < |t| && Lms(t, ls[k])
    requires forall q :: 0 <= q < |t| && Lms(t, q) ==> q in ls
    requires forall k, l :: 0 <= k < l < |ls| ==> FLt(t, ls[k], ls[l]) && ls[k] != ls[l]
    ensures SubSorted(t, ls)
  {
    hide Less, Lms, FLt;
  }

  lemma LmsPositive(t: seq<int>, q: int)
    requires 0 <= q <= |t| && Lms(t, q)
    ensures q > 0
  {
    hide Less;
  }

  lemma SubDownOrder(t: seq<int>, x: int, y: int)
    requires |t| >= 2 && |LmsList(t)| > 0 && 0 <= x <= |t| && 0 <= y <= |t|
    requires x in SubDown(t).targets && y in SubDown(t).targets && Slot(SubDown(t), x) < Slot(SubDown(t), y)
    ensures FLt(t, x, y) && x != y
  {
    hide Less, LmsFrom, Lms, SType, KeyF, Sound, Slot, FLt;
    var p := SubDown(t);
    SubDownReady(t);
    SlotOrder(p, x, y);
    KeyFOrder(t, x, y);
  }

  /** A list of the LMS positions without repetition is as long as the list in text order. */
  lemma SameLength(t: seq<int>, ls: seq<int>)
    requires forall k :: 0 <= k < |ls| ==> 0 < ls[k] < |t| && Lms(t, ls[k])
    requires forall q :: 0 <= q < |t| && Lms(t, q) ==> q in ls
    requires forall k, l :: 0 <= k < l < |ls| ==> ls[k] != ls[l]
    ensures |ls| == |LmsList(t)|
  {
    hide Less, LmsFrom, Lms;
    LmsListProperties(t);
    var list := LmsList(t);
    forall q ensures multiset(ls)[q] == multiset(list)[q] {
      DistinctMultiset(ls, q);
      DistinctMultiset(list, q);
    }
    assert multiset(ls) == multiset(list);
    assert |multiset(ls)| == |multiset(list)|;
  }

  // ----- Sorted LMS suffixes, from the recursion or from distinct names -----

  lemma {:induction false} NamesBounded(t: seq<int>, ls: seq<int>, k: nat)
    requires SubSorted(t, ls) && k < |ls|
    ensures NameAt(t, ls, k) <= NameAt(t, ls, |ls| - 1)
  {
    hide Less, Lms, FLt, SubSorted, NameAt, FSame;
    if k < |ls| - 1 {
      NamesOrder(t, ls, k, |ls| - 1);
    }
  }

  /** The reduced text is over the alphabet of identifiers. */
  lemma ReducedInAlphabet(t: seq<int>, ls: seq<int>, maxId: nat)
    requires SubSorted(t, ls) && |ls| > 0 && maxId == NameAt(t, ls, |ls| - 1)
    ensures InAlphabet(Reduced(t, ls), maxId)
  {
    hide Less, Lms, LmsFrom, FLt, SubSorted, NameAt;
    var r := Reduced(t, ls);
    AllListed(t, ls);
    forall x | 0 <= x < |r| ensures 0 <= r[x] < maxId {
      NamesBounded(t, ls, Index(ls, LmsList(t)[x]));
    }
  }

  lemma SeedIsLms(t: seq<int>, q: int)
    ensures q in LmsSeeds(t, -1) <==> 0 <= q < |t| && Lms(t, q)
  {
    hide Less, Lms;
  }

  /** The suffix array of the reduced text sorts the LMS suffixes. */
  lemma RecursionSorts(t: seq<int>, ls: seq<int>, dst: seq<int>)
    requires SubSorted(t, ls) && IsSuffixArray(Reduced(t, ls), dst)
    ensures SortedLms(t, Lifted(t, dst))
  {
    hide Less, Lms, LmsFrom, SubSorted, KeyLess, Reduced, LmsSeeds;
    var r, out := Reduced(t, ls), Lifted(t, dst);
    SuffixArrayIsPermutation(r, dst);
    LmsListProperties(t);
    forall k | 0 <= k < |out| ensures out[k] in LmsSeeds(t, -1) {
      SeedIsLms(t, out[k]);
    }
    forall q | q in LmsSeeds(t, -1) ensures q in out {
      SeedIsLms(t, q);
      var x :| 0 <= x < |LmsList(t)| && LmsList(t)[x] == q;
      assert x in dst;
      var k :| 0 <= k < |dst| && dst[k] == x;
      assert out[k] == q;
    }
    forall k, l | 0 <= k < l < |out| ensures At(KeyLess(t), out[k]) < At(KeyLess(t), out[l]) {
      ReducedOrder(t, ls, dst[k], dst[l]);
      KeyLessOrder(t, out[k], out[l]);
    }
  }

  lemma {:induction false} NamesSpread(t: seq<int>, ls: seq<int>, k: nat, l: nat)
    requires SubSorted(t, ls) && k <= l < |ls|
    ensures NameAt(t, ls, l) <= NameAt(t, ls, k) + (l - k)
    decreases l
  {
    hide Less, Lms, FLt, FSame, SubSorted;
    if k < l {
      NamesSpread(t, ls, k, l - 1);
    }
  }

  /** With as many identifiers as substrings, substring order is suffix order. */
  lemma DistinctNamesSort(t: seq<int>, ls: seq<int>)
    requires SubSorted(t, ls) && |ls| > 0 && NameAt(t, ls, |ls| - 1) == |ls|
    ensures SortedLms(t, ls)
  {
    hide Less, Lms, LmsFrom, FLt, FSame, SubSorted, KeyLess, NameAt, LmsSeeds;
    forall k | 0 <= k < |ls| ensures ls[k] in LmsSeeds(t, -1) {
      SubSortedAt(t, ls, k, k);
      SeedIsLms(t, ls[k]);
    }
    forall q | q in LmsSeeds(t, -1) ensures q in ls {
      SeedIsLms(t, q);
      Complete(t, ls, q);
    }
    forall k, l | 0 <= k < l < |ls| ensures At(KeyLess(t), ls[k]) < At(KeyLess(t), ls[l]) {
      SubSortedAt(t, ls, k, l);
      NamesSpread(t, ls, l, |ls| - 1);
      NamesOrder(t, ls, k, l);
      FLtIsLess(t, ls[k], ls[l]);
      KeyLessOrder(t, ls[k], ls[l]);
    }
  }

  lemma Complete(t: seq<int>, ls: seq<int>, q: int)
    requires SubSorted(t, ls) && 0 <= q < |t| && Lms(t, q)
    ensures q in ls
  {
    hide Less, Lms, FLt;
  }

  // ----- Second round -----

  ghost function FullUp(t: seq<int>): Plan {
    UpPlan(t, KeyLess(t), -1)
  }

  ghost function FullDown(t: seq<int>): Plan {
    DownPlan(t, KeyLess(t), -1, FullUp(t))
  }

  lemma FullUpReady(t: seq<int>)
    requires |t| >= 2
    ensures Upward(FullL, FullUp(t), t) && Sound(FullUp(t))
  {
    hide Less, Lms, LmsFrom, KeyLess, UpKeys, Sound, TopSlot, Ready;
    KeyLessBoth(t);
    UpReady(FullL, t, KeyLess(t), -1);
    ReadySound(FullL, FullUp(t));
    LastIsTypeL(t);
  }

  lemma FullDownReady(t: seq<int>)
    requires |t| >= 2
    ensures Downward(FullS, FullDown(t), t) && Sound(FullDown(t))
    ensures forall q :: InQueue(FullDown(t), q) <==> 0 <= q < |t|
  {
    hide Less, LmsFrom, KeyLess, UpKeys, DownKeys, Sound, Slot, TopSlot, Ready;
    KeyLessBoth(t);
    DownPlanSound(t, KeyLess(t), KeyLess(t), -1);
    DownReady(FullS, t, KeyLess(t), -1, FullUp(t));
    ReadySound(FullS, FullDown(t));
  }

  /** The type-L suffixes in place, with their signs, are what the last scan starts from. */
  lemma FullGlue(t: seq<int>, sa: seq<int>)
    requires |t| >= 2 && Filled(FullL, FullUp(t), sa, |t|)
    ensures forall x :: x in FullDown(t).seeds ==>
              0 <= SeedAt(FullDown(t), x) < |sa| && sa[SeedAt(FullDown(t), x)] == Val(FullS, t, x, false)
  {
    hide Less, LmsFrom, Lms, SType, KeyLess, Sound, Slot, TopSlot, Ready, Val, Placed;
    FullUpReady(t);
    var up, p := FullUp(t), FullDown(t);
    forall x | x in p.seeds ensures 0 <= SeedAt(p, x) < |sa| && sa[SeedAt(p, x)] == Val(FullS, t, x, false) {
      ScannedUp(FullL, up, sa, x);
      SeedsOfSubS(t, x);
    }
  }

  ghost function Slots(p: Plan, k: nat): set<int> {
    if k == 0 then {} else Slots(p, k - 1) + {Slot(p, k - 1)}
  }

  lemma {:induction false} SlotsCount(p: Plan, k: nat)
    requires Sound(p) && k <= |p.t| && forall q :: 0 <= q < k ==> InQueue(p, q)
    ensures |Slots(p, k)| == k
    ensures forall x :: x in Slots(p, k) <==> exists q :: 0 <= q < k && InQueue(p, q) && Slot(p, q) == x
    decreases k
  {
    hide Sound, Slot;
    if k > 0 {
      SlotsCount(p, k - 1);
      if Slot(p, k - 1) in Slots(p, k - 1) {
        var q :| 0 <= q < k - 1 && InQueue(p, q) && Slot(p, q) == Slot(p, k - 1);
        SlotOrder(p, q, k - 1);
      }
      forall x ensures x in Slots(p, k) <==> exists q :: 0 <= q < k && InQueue(p, q) && Slot(p, q) == x {
        if x == Slot(p, k - 1) {
          assert InQueue(p, k - 1) && Slot(p, k - 1) == x;
        }
      }
    }
  }

  ghost function Indices(n: nat): (r: set<int>)
    ensures |r| == n && forall i :: i in r <==> 0 <= i < n
  {
    if n == 0 then {} else Indices(n - 1) + {n - 1}
  }

  lemma EqualBySize(a: set<int>, b: set<int>)
    requires a <= b && |a| == |b|
    ensures a == b
  {
    assert b == a + (b - a);
    assert |b - a| == 0;
  }

  /** Every slot belongs to some position. */
  lemma AllReached(t: seq<int>)
    requires |t| >= 2
    ensures forall i :: 0 <= i < |t| ==> Reached(FullDown(t), i)
  {
    hide Less, LmsFrom, Sound, Slot, FullDown, Slots, Downward, Indices;
    FullDownReady(t);
    var p := FullDown(t);
    assert p.t == t by { FullDownText(t); }
    SlotsCount(p, |t|);
    forall x | x in Slots(p, |t|) ensures x in Indices(|t|) {
      var q :| 0 <= q < |t| && InQueue(p, q) && Slot(p, q) == x;
      SlotBounds(p, q);
    }
    EqualBySize(Slots(p, |t|), Indices(|t|));
    forall i | 0 <= i < |t| ensures Reached(p, i) {
      assert i in Slots(p, |t|);
    }
  }

  lemma FullDownText(t: seq<int>)
    ensures FullDown(t).t == t && FullDown(t).key == KeyLess(t) && !FullDown(t).up
  {
  }

  /** After the last scan the array is the suffix array. */
  lemma FinalArray(t: seq<int>, sa: seq<int>)
    requires |t| >= 2 && Filled(FullS, FullDown(t), sa, 0)
    ensures IsSuffixArray(t, sa)
  {
    hide Less, LmsFrom, Sound, Slot, FullDown, Downward, KeyLess, Placed;
    FullDownReady(t);
    FullDownText(t);
    AllReached(t);
    forall i | 0 <= i < |t| ensures FinalAt(t, sa, i) {
      FinalEntry(t, sa, i);
    }
    forall p | 0 <= p < |t| ensures p in sa {
      FinalSlot(t, sa, p);
    }
    forall i, j | 0 <= i < j < |t| ensures 0 <= sa[i] < |t| && 0 <= sa[j] < |t| && Less(t, sa[i], sa[j]) {
      assert FinalAt(t, sa, i) && FinalAt(t, sa, j);
      SlotOrder(FullDown(t), sa[i], sa[j]);
      KeyLessOrder(t, sa[i], sa[j]);
    }
    FinalParts(t, sa);
  }

  lemma FinalParts(t: seq<int>, sa: seq<int>)
    requires |t| >= 2 && forall i :: 0 <= i < |t| ==> FinalAt(t, sa, i)
    requires forall p :: 0 <= p < |t| ==> p in sa
    requires forall i, j :: 0 <= i < j < |t| && i < |sa| && j < |sa| && 0 <= sa[i] <= |t| && 0 <= sa[j] <= |t| ==> Less(t, sa[i], sa[j])
    ensures IsSuffixArray(t, sa)
  {
    hide Less, Slot, FullDown;
    assert FinalAt(t, sa, 0);
    forall i | 0 <= i < |t| ensures 0 <= sa[i] < |t| {
      assert FinalAt(t, sa, i);
    }
  }

  ghost predicate FinalAt(t: seq<int>, sa: seq<int>, i: int) {
    |sa| == |t| && 0 <= i < |t| && 0 <= sa[i] < |t| && InQueue(FullDown(t), sa[i]) && Slot(FullDown(t), sa[i]) == i
  }

  lemma FinalSlot(t: seq<int>, sa: seq<int>, q: int)
    requires |t| >= 2 && Filled(FullS, FullDown(t), sa, 0) && 0 <= q < |t|
    ensures 0 <= Slot(FullDown(t), q) < |t| == |sa| && sa[Slot(FullDown(t), q)] == q
  {
    hide Less, LmsFrom, Sound, Slot, FullDown, Downward, KeyLess, Placed;
    var p := FullDown(t);
    FullDownReady(t);
    FullDownText(t);
    AllPlaced(p, q);
    SlotBounds(p, q);
    assert Holds(FullS, p, sa, 0, q);
  }

  lemma FinalEntry(t: seq<int>, sa: seq<int>, i: int)
    requires |t| >= 2 && Filled(FullS, FullDown(t), sa, 0) && 0 <= i < |t| && Reached(FullDown(t), i)
    ensures FinalAt(t, sa, i)
  {
    hide Less, LmsFrom, Slot, FullDown, Downward, KeyLess, Filled;
    FullDownReady(t);
    var q :| InQueue(FullDown(t), q) && Slot(FullDown(t), q) == i;
    FinalSlot(t, sa, q);
  }
}
