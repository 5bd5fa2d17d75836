/** The four plans of induced sorting: type-L positions placed upwards behind the LMS positions, then
    type-S positions placed downwards before the type-L ones, once for the LMS-substrings to the right
    of the first LMS position and once for all suffixes. */
module SaisPlans {
  import opened Suffixes
  import opened SaisTypes
  import opened SaisOrder
  import opened SaisPlan

  ghost function LTargets(t: seq<int>, from: int): set<int> {
    set k | 0 <= k < |t| && !SType(t, k) && k > from
  }

  ghost function LmsSeeds(t: seq<int>, from: int): set<int> {
    set k | 0 <= k < |t| && Lms(t, k) && k > from
  }

  ghost function STargets(t: seq<int>, from: int): set<int> {
    set k | 0 <= k < |t| && SType(t, k) && k >= from
  }

  // ----- What the scans need of the keys -----

  function At(s: seq<int>, i: int): int {
    if 0 <= i < |s| then s[i] else -1
  }

  ghost predicate KeysByChar(t: seq<int>, key: seq<int>) {
    && |key| == |t| + 1
    && (forall x, y :: 0 <= x <= |t| && 0 <= y <= |t| && x != y ==> At(key, x) != At(key, y))
    && (forall x, y :: 0 <= x < |t| && 0 <= y < |t| && At(t, x) < At(t, y) ==> At(key, x) < At(key, y))
    && (forall x, y :: 0 <= x < |t| && 0 <= y < |t| && At(t, x) == At(t, y) && !SType(t, x) && SType(t, y) ==>
          At(key, x) < At(key, y))
  }

  predicate DecidedAt(key: seq<int>, x: int, y: int) {
    At(key, x) < At(key, y) <==> At(key, x + 1) < At(key, y + 1)
  }

  ghost predicate UpKeys(t: seq<int>, key: seq<int>) {
    && KeysByChar(t, key)
    && (forall x :: 0 <= x < |t| ==> At(key, |t|) < At(key, x))
    && (forall x :: 0 <= x < |t| && !SType(t, x) ==> At(key, x + 1) < At(key, x))
    && (forall x, y {:trigger DecidedAt(key, x, y)} ::
          0 <= x < |t| && 0 <= y < |t| && At(t, x) == At(t, y) && !SType(t, x) && !SType(t, y) ==> DecidedAt(key, x, y))
  }

  ghost predicate DownKeys(t: seq<int>, key: seq<int>) {
    && KeysByChar(t, key)
    && (forall x :: 0 <= x < |t| && SType(t, x) ==> At(key, x + 1) > At(key, x))
    && (forall x, y {:trigger DecidedAt(key, x, y)} ::
          0 <= x < |t| && 0 <= y < |t| && At(t, x) == At(t, y) && SType(t, x) && SType(t, y) ==> DecidedAt(key, x, y))
  }

  ghost function KeyN(t: seq<int>): seq<int> { Ranks(NRel(t), |t|) }
  ghost function KeyF(t: seq<int>): seq<int> { Ranks(FRel(t), |t|) }
  ghost function KeyLess(t: seq<int>): seq<int> { Ranks(LessRel(t), |t|) }

  lemma KeyNOrder(t: seq<int>, i: int, j: int)
    requires 0 <= i <= |t| && 0 <= j <= |t|
    ensures At(KeyN(t), i) < At(KeyN(t), j) <==> NLt(t, i, j)
  {
    hide NLt, StrictOrder, Ranks;
    OrdersStrict(t);
    RanksOrder(NRel(t), |t|, i, j);
  }

  lemma KeyFOrder(t: seq<int>, i: int, j: int)
    requires 0 <= i <= |t| && 0 <= j <= |t|
    ensures At(KeyF(t), i) < At(KeyF(t), j) <==> FLt(t, i, j)
  {
    hide FLt, StrictOrder, Ranks;
    OrdersStrict(t);
    RanksOrder(FRel(t), |t|, i, j);
  }

  lemma KeyLessOrder(t: seq<int>, i: int, j: int)
    requires 0 <= i <= |t| && 0 <= j <= |t|
    ensures At(KeyLess(t), i) < At(KeyLess(t), j) <==> Less(t, i, j)
  {
    hide Less, StrictOrder, Ranks;
    OrdersStrict(t);
    RanksOrder(LessRel(t), |t|, i, j);
  }

  lemma KeyNUp(t: seq<int>)
    ensures UpKeys(t, KeyN(t))
  {
    hide KeyN, SType, KeysByChar;
    var key := KeyN(t);
    KeyNByChar(t);
    forall x | 0 <= x < |t|
      ensures At(key, |t|) < At(key, x)
      ensures !SType(t, x) ==> At(key, x + 1) < At(key, x)
    {
      KeyNOrder(t, |t|, x);
      KeyNOrder(t, x + 1, x);
      if !SType(t, x) {
        NSuccessorSmaller(t, x);
      }
    }
    forall x, y | 0 <= x < |t| && 0 <= y < |t| && At(t, x) == At(t, y) && !SType(t, x) && !SType(t, y)
      ensures DecidedAt(key, x, y)
    {
      KeyNOrder(t, x, y);
      KeyNOrder(t, x + 1, y + 1);
    }
  }

  lemma KeyNByChar(t: seq<int>)
    ensures KeysByChar(t, KeyN(t))
  {
    hide KeyN, SType;
    var key := KeyN(t);
    KeyLengths(t);
    forall x, y | 0 <= x <= |t| && 0 <= y <= |t| ensures x != y ==> At(key, x) != At(key, y) {
      KeyNOrder(t, x, y);
      KeyNOrder(t, y, x);
      NTotal(t, x, y);
    }
    forall x, y | 0 <= x < |t| && 0 <= y < |t|
      ensures At(t, x) < At(t, y) ==> At(key, x) < At(key, y)
      ensures At(t, x) == At(t, y) && !SType(t, x) && SType(t, y) ==> At(key, x) < At(key, y)
    {
      KeyNOrder(t, x, y);
    }
  }

  lemma KeyLengths(t: seq<int>)
    ensures |KeyN(t)| == |t| + 1 && |KeyF(t)| == |t| + 1 && |KeyLess(t)| == |t| + 1
  {
  }

  lemma KeyFDown(t: seq<int>)
    ensures DownKeys(t, KeyF(t))
  {
    hide KeyF, SType, KeysByChar;
    var key := KeyF(t);
    KeyFByChar(t);
    forall x | 0 <= x < |t| && SType(t, x) ensures At(key, x + 1) > At(key, x) {
      FSuccessorGreater(t, x);
      KeyFOrder(t, x, x + 1);
    }
    forall x, y | 0 <= x < |t| && 0 <= y < |t| && At(t, x) == At(t, y) && SType(t, x) && SType(t, y)
      ensures DecidedAt(key, x, y)
    {
      KeyFOrder(t, x, y);
      KeyFOrder(t, x + 1, y + 1);
    }
  }

  lemma KeyFByChar(t: seq<int>)
    ensures KeysByChar(t, KeyF(t))
  {
    hide KeyF, SType;
    var key := KeyF(t);
    KeyLengths(t);
    forall x, y | 0 <= x <= |t| && 0 <= y <= |t| ensures x != y ==> At(key, x) != At(key, y) {
      KeyFOrder(t, x, y);
      KeyFOrder(t, y, x);
      FTotal(t, x, y);
    }
    forall x, y | 0 <= x < |t| && 0 <= y < |t|
      ensures At(t, x) < At(t, y) ==> At(key, x) < At(key, y)
      ensures At(t, x) == At(t, y) && !SType(t, x) && SType(t, y) ==> At(key, x) < At(key, y)
    {
      KeyFOrder(t, x, y);
    }
  }

  lemma KeyLessBoth(t: seq<int>)
    ensures UpKeys(t, KeyLess(t)) && DownKeys(t, KeyLess(t))
  {
    hide KeyLess, SType, KeysByChar;
    var key := KeyLess(t);
    KeyLessByChar(t);
    forall x | 0 <= x < |t|
      ensures At(key, |t|) < At(key, x)
      ensures !SType(t, x) ==> At(key, x + 1) < At(key, x)
      ensures SType(t, x) ==> At(key, x + 1) > At(key, x)
    {
      KeyLessOrder(t, |t|, x);
      LessSuccessor(t, x);
    }
    forall x, y | 0 <= x < |t| && 0 <= y < |t| && At(t, x) == At(t, y) ensures DecidedAt(key, x, y) {
      KeyLessOrder(t, x, y);
      KeyLessOrder(t, x + 1, y + 1);
    }
  }

  lemma KeyLessByChar(t: seq<int>)
    ensures KeysByChar(t, KeyLess(t))
  {
    hide KeyLess, SType, Less;
    var key := KeyLess(t);
    KeyLengths(t);
    forall x, y | 0 <= x <= |t| && 0 <= y <= |t| ensures x != y ==> At(key, x) != At(key, y) {
      KeyLessOrder(t, x, y);
      KeyLessOrder(t, y, x);
      LeqTotal(t, x, y);
    }
    forall x, y | 0 <= x < |t| && 0 <= y < |t|
      ensures At(t, x) < At(t, y) ==> At(key, x) < At(key, y)
      ensures At(t, x) == At(t, y) && !SType(t, x) && SType(t, y) ==> At(key, x) < At(key, y)
    {
      KeyLessOrder(t, x, y);
      FirstCharDecides(t, x, y);
      if At(t, x) == At(t, y) && !SType(t, x) && SType(t, y) {
        LBeforeS(t, x, y);
      }
    }
  }

  lemma FirstCharDecides(t: seq<int>, x: int, y: int)
    requires 0 <= x < |t| && 0 <= y < |t|
    ensures t[x] < t[y] ==> Less(t, x, y)
  {
  }

  lemma LessSuccessor(t: seq<int>, x: int)
    requires 0 <= x < |t|
    ensures !SType(t, x) ==> At(KeyLess(t), x + 1) < At(KeyLess(t), x)
    ensures SType(t, x) ==> At(KeyLess(t), x + 1) > At(KeyLess(t), x)
  {
    hide KeyLess, Less;
    KeyLessOrder(t, x + 1, x);
    KeyLessOrder(t, x, x + 1);
    LessTotal(t, x, x + 1);
  }

  /** Both orders of the first round agree on type-L positions. */
  lemma KeysAgreeOnL(t: seq<int>, x: int, y: int)
    requires 0 <= x < |t| && 0 <= y < |t| && !SType(t, x) && !SType(t, y)
    ensures At(KeyN(t), x) < At(KeyN(t), y) <==> At(KeyF(t), x) < At(KeyF(t), y)
  {
    hide KeyN, KeyF, SType;
    KeyNOrder(t, x, y);
    KeyFOrder(t, x, y);
  }

  // ----- Seeds at the bucket ends -----

  ghost function SeedsAbove(t: seq<int>, key: seq<int>, from: int, x: int): set<int> {
    set y | y in LmsSeeds(t, from) && At(t, y) == At(t, x) && At(key, y) > At(key, x)
  }

  ghost function SeedsAt(t: seq<int>, from: int, c: int): set<int> {
    set y | y in LmsSeeds(t, from) && At(t, y) == c
  }

  /** The slot of an LMS position sorted into the end of its bucket. */
  ghost function TopSlot(t: seq<int>, key: seq<int>, from: int, x: int): int {
    Min(t, At(t, x) + 1) - 1 - |SeedsAbove(t, key, from, x)|
  }

  ghost function UpPlan(t: seq<int>, key: seq<int>, from: int): Plan {
    Plan(t, key, LTargets(t, from), LmsSeeds(t, from),
         map x | x in LmsSeeds(t, from) :: TopSlot(t, key, from, x), true)
  }

  ghost function DownPlan(t: seq<int>, key: seq<int>, from: int, up: Plan): Plan {
    Plan(t, key, STargets(t, from), LTargets(t, from), map x | x in LTargets(t, from) :: Slot(up, x), false)
  }

  /** from is below every position, or the first LMS position. */
  ghost predicate From(t: seq<int>, from: int) {
    from == -1 || (0 <= from < |t| && Lms(t, from))
  }

  lemma UpPlanSound(t: seq<int>, key: seq<int>, from: int)
    requires UpKeys(t, key) && From(t, from)
    ensures Sound(UpPlan(t, key, from))
  {
    hide Sound, Min, Less;
    var p := UpPlan(t, key, from);
    assert Shape(p) by { UpShape(t, key, from); }
    assert Keyed(p) by { UpKeyed(t, key, from); }
    assert Sides(p) by { UpSides(t, key, from); }
    assert Inductive(p) by { UpInductive(t, key, from); }
    assert Seeded(p) by { UpSeeded(t, key, from); }
    SoundParts(p);
  }

  lemma SoundParts(p: Plan)
    requires Shape(p) && Keyed(p) && Sides(p) && Inductive(p) && Seeded(p)
    ensures Sound(p)
  {
  }

  lemma UpShape(t: seq<int>, key: seq<int>, from: int)
    requires UpKeys(t, key) && From(t, from)
    ensures Shape(UpPlan(t, key, from))
  {
    hide TopSlot;
  }

  lemma UpKeyed(t: seq<int>, key: seq<int>, from: int)
    requires UpKeys(t, key) && From(t, from)
    ensures Keyed(UpPlan(t, key, from))
  {
    hide TopSlot, Less;
    KeyedByChar(t, key, UpPlan(t, key, from));
  }

  lemma KeyedByChar(t: seq<int>, key: seq<int>, p: Plan)
    requires KeysByChar(t, key) && p.t == t && p.key == key
    requires forall x :: InQueue(p, x) ==> 0 <= x < |t|
    ensures Keyed(p)
  {
    hide SType;
    forall x, y | InQueue(p, x) && InQueue(p, y)
      ensures x != y ==> Key(p, x) != Key(p, y)
      ensures Ch(p, x) < Ch(p, y) ==> Key(p, x) < Key(p, y)
    {
      assert At(key, x) == Key(p, x) && At(key, y) == Key(p, y);
      assert At(t, x) == Ch(p, x) && At(t, y) == Ch(p, y);
    }
  }

  lemma UpSides(t: seq<int>, key: seq<int>, from: int)
    requires UpKeys(t, key) && From(t, from)
    ensures Sides(UpPlan(t, key, from))
  {
    hide TopSlot, Less;
  }

  lemma UpInductive(t: seq<int>, key: seq<int>, from: int)
    requires UpKeys(t, key) && From(t, from)
    ensures Inductive(UpPlan(t, key, from))
  {
    hide TopSlot, Less;
    var p := UpPlan(t, key, from);
    forall x | x in p.targets ensures Follows(p, x) {
      assert At(key, x + 1) < At(key, x);
      if x + 1 < |t| {
        assert if SType(t, x + 1) then x + 1 in LmsSeeds(t, from) else x + 1 in LTargets(t, from);
      }
    }
    forall x, y | x in p.targets && y in p.targets && Ch(p, x) == Ch(p, y) ensures Decided(p, x, y) {
      assert DecidedAt(key, x, y);
    }
    forall x | InQueue(p, x) ensures Key(p, |p.t|) < Key(p, x) {
      assert At(key, |t|) < At(key, x);
    }
  }

  lemma UpSeeded(t: seq<int>, key: seq<int>, from: int)
    requires UpKeys(t, key) && From(t, from)
    ensures Seeded(UpPlan(t, key, from))
  {
    hide Less, Min, SType, LmsSeeds, LTargets;
    var p := UpPlan(t, key, from);
    forall x | x in p.seeds ensures SeedFits(p, x) {
      UpSeedFits(t, key, from, x);
    }
    forall x, y | x in p.seeds && y in p.seeds && Ch(p, x) == Ch(p, y)
      ensures Key(p, x) < Key(p, y) <==> SeedAt(p, x) < SeedAt(p, y)
    {
      UpSeedOrder(t, key, from, x, y);
    }
  }

  lemma UpSeedFits(t: seq<int>, key: seq<int>, from: int, x: int)
    requires x in LmsSeeds(t, from)
    ensures SeedFits(UpPlan(t, key, from), x)
  {
    hide Less, Min;
    var p := UpPlan(t, key, from);
    var c := At(t, x);
    MinStep(t, c);
    SubsetSize(SeedsAbove(t, key, from, x) + {x}, SeedsAt(t, from, c));
    assert TargetsAt(p, c) !! SeedsAt(t, from, c);
    assert |TargetsAt(p, c) + SeedsAt(t, from, c)| == |TargetsAt(p, c)| + |SeedsAt(t, from, c)|;
    SubsetSize(TargetsAt(p, c) + SeedsAt(t, from, c), CharsAt(t, c));
  }

  lemma UpSeedOrder(t: seq<int>, key: seq<int>, from: int, x: int, y: int)
    requires UpKeys(t, key) && x in LmsSeeds(t, from) && y in LmsSeeds(t, from) && At(t, x) == At(t, y)
    ensures At(key, x) < At(key, y) <==> TopSlot(t, key, from, x) < TopSlot(t, key, from, y)
  {
    hide Less, Min, SType, LmsSeeds, SeedsAbove, TopSlot;
    if At(key, x) < At(key, y) {
      FewerAbove(t, key, from, x, y);
    } else if At(key, y) < At(key, x) {
      FewerAbove(t, key, from, y, x);
    } else {
      SeedsOfText(t, from, x, y);
    }
  }

  lemma SeedsOfText(t: seq<int>, from: int, x: int, y: int)
    requires x in LmsSeeds(t, from) && y in LmsSeeds(t, from)
    ensures 0 <= x < |t| && 0 <= y < |t|
  {
    hide Less, Lms;
  }

  lemma FewerAbove(t: seq<int>, key: seq<int>, from: int, x: int, y: int)
    requires x in LmsSeeds(t, from) && y in LmsSeeds(t, from) && At(t, x) == At(t, y) && At(key, x) < At(key, y)
    ensures TopSlot(t, key, from, x) < TopSlot(t, key, from, y)
  {
    hide LmsSeeds, Min;
    SubsetSize(SeedsAbove(t, key, from, y) + {y}, SeedsAbove(t, key, from, x));
  }

  lemma DownPlanSound(t: seq<int>, upKey: seq<int>, key: seq<int>, from: int)
    requires UpKeys(t, upKey) && DownKeys(t, key) && From(t, from)
    requires forall x, y :: 0 <= x < |t| && 0 <= y < |t| && !SType(t, x) && !SType(t, y) ==>
               (At(upKey, x) < At(upKey, y) <==> At(key, x) < At(key, y))
    ensures Sound(DownPlan(t, key, from, UpPlan(t, upKey, from)))
  {
    hide Sound, Min, Less;
    var up := UpPlan(t, upKey, from);
    var p := DownPlan(t, key, from, up);
    UpPlanSound(t, upKey, from);
    assert Shape(p) && Keyed(p) && Sides(p) by { DownKeyed(t, key, from, up); }
    assert Inductive(p) by { DownInductive(t, key, from, up); }
    assert Seeded(p) by {
      assert |upKey| == |t| + 1 == |key|;
      DownSeeded(t, upKey, key, from);
    }
    SoundParts(p);
  }

  lemma DownKeyed(t: seq<int>, key: seq<int>, from: int, up: Plan)
    requires DownKeys(t, key) && From(t, from)
    ensures var p := DownPlan(t, key, from, up); Shape(p) && Keyed(p) && Sides(p)
  {
    hide Slot, Less;
    KeyedByChar(t, key, DownPlan(t, key, from, up));
  }

  lemma DownFollows(t: seq<int>, key: seq<int>, from: int, up: Plan, x: int)
    requires DownKeys(t, key) && From(t, from) && x in STargets(t, from)
    ensures Follows(DownPlan(t, key, from, up), x)
  {
    hide Less, Slot;
    var p := DownPlan(t, key, from, up);
    TypeStep(t, x);
    assert At(key, x + 1) > At(key, x);
    assert Key(p, x) == At(key, x) && Key(p, x + 1) == At(key, x + 1);
    if SType(t, x + 1) {
      assert x + 1 in p.targets;
    } else {
      assert x + 1 in p.seeds;
    }
  }

  lemma DownInductive(t: seq<int>, key: seq<int>, from: int, up: Plan)
    requires DownKeys(t, key) && From(t, from)
    ensures Inductive(DownPlan(t, key, from, up))
  {
    hide Slot, Less;
    var p := DownPlan(t, key, from, up);
    forall x | x in p.targets ensures Follows(p, x) {
      DownFollows(t, key, from, up, x);
    }
    forall x, y | x in p.targets && y in p.targets && Ch(p, x) == Ch(p, y) ensures Decided(p, x, y) {
      assert DecidedAt(key, x, y);
    }
  }

  lemma DownSeeded(t: seq<int>, upKey: seq<int>, key: seq<int>, from: int)
    requires Sound(UpPlan(t, upKey, from)) && |key| == |t| + 1 == |upKey|
    requires forall x, y :: 0 <= x < |t| && 0 <= y < |t| && !SType(t, x) && !SType(t, y) ==>
               (At(upKey, x) < At(upKey, y) <==> At(key, x) < At(key, y))
    ensures Seeded(DownPlan(t, key, from, UpPlan(t, upKey, from)))
  {
    hide Sound, Min, Less, Slot;
    var up := UpPlan(t, upKey, from);
    var p := DownPlan(t, key, from, up);
    forall x | x in p.seeds ensures SeedFits(p, x) {
      DownSeedFits(t, key, from, up, x);
    }
    forall x, y | x in p.seeds && y in p.seeds && Ch(p, x) == Ch(p, y)
      ensures Key(p, x) < Key(p, y) <==> SeedAt(p, x) < SeedAt(p, y)
    {
      SlotOrder(up, x, y);
    }
  }

  lemma DownSeedFits(t: seq<int>, key: seq<int>, from: int, up: Plan, x: int)
    requires Sound(up) && up.t == t && up.up && up.targets == LTargets(t, from) && x in LTargets(t, from)
    ensures SeedFits(DownPlan(t, key, from, up), x)
  {
    hide Sound, Min, Less, Slot;
    var p := DownPlan(t, key, from, up);
    var c := At(t, x);
    SlotBounds(up, x);
    MinStep(t, c);
    assert TargetsAt(p, c) !! TargetsAt(up, c);
    assert |TargetsAt(p, c) + TargetsAt(up, c)| == |TargetsAt(p, c)| + |TargetsAt(up, c)|;
    SubsetSize(TargetsAt(p, c) + TargetsAt(up, c), CharsAt(t, c));
  }
}
