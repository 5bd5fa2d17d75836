/** The induction at the heart of the four scans of internal/astrobwt/sais.go, stated once.  A scan walks
    the array in one direction; seeds stand in it from the beginning, and processing an entry x places
    the target x - 1 at the next free slot of its character's bucket.  The theorem is that every entry
    lands on the slot its rank assigns to it, whatever order (given by integer keys) the plan is for:
    the suffix order, or the order of LMS-substrings. */
module SaisPlan {
  import opened Suffixes

  // ----- Buckets -----

  ghost function CharsBelow(t: seq<int>, c: int): set<int> {
    set p | 0 <= p < |t| && t[p] < c
  }

  ghost function CharsAt(t: seq<int>, c: int): set<int> {
    set p | 0 <= p < |t| && t[p] == c
  }

  /** Where the bucket of character c begins; it ends where the next one begins. */
  ghost function Min(t: seq<int>, c: int): nat {
    |CharsBelow(t, c)|
  }

  lemma MinStep(t: seq<int>, c: int)
    ensures Min(t, c + 1) == Min(t, c) + |CharsAt(t, c)|
  {
    assert CharsBelow(t, c + 1) == CharsBelow(t, c) + CharsAt(t, c);
  }

  lemma SubsetSize<T>(a: set<T>, b: set<T>)
    requires a <= b
    ensures |a| <= |b|
  {
    assert b == a + (b - a);
  }

  lemma MinMonotone(t: seq<int>, c: int, d: int)
    requires c <= d
    ensures Min(t, c) <= Min(t, d) <= |t|
  {
    SubsetSize(CharsBelow(t, c), CharsBelow(t, d));
    CharsBelowSize(t, d);
  }

  lemma {:induction false} CharsBelowSize(t: seq<int>, c: int)
    ensures |CharsBelow(t, c)| <= |t|
  {
    if t == [] {
      assert CharsBelow(t, c) == {};
    } else {
      var k := |t| - 1;
      CharsBelowSize(t[..k], c);
      assert CharsBelow(t, c) == CharsBelow(t[..k], c) + if t[k] < c then {k} else {};
    }
  }

  // ----- Plans -----

  /** key orders positions (key[|t|] is the sentinel's); up tells the direction of the scan. */
  datatype Plan = Plan(t: seq<int>, key: seq<int>, targets: set<int>, seeds: set<int>, seedSlot: map<int, int>, up: bool)

  predicate InQueue(p: Plan, x: int) {
    x in p.targets || x in p.seeds
  }

  /** The character at x, and the key of x. */
  function Ch(p: Plan, x: int): int {
    if 0 <= x < |p.t| then p.t[x] else -1
  }

  function Key(p: Plan, x: int): int {
    if 0 <= x < |p.key| then p.key[x] else -1
  }

  ghost predicate Shape(p: Plan) {
    && |p.key| == |p.t| + 1
    && (forall x :: x in p.targets ==> 0 <= x < |p.t|)
    && (forall x :: x in p.seeds ==> 0 <= x < |p.t|)
    && p.targets !! p.seeds
  }

  /** Keys are distinct and respect first characters. */
  ghost predicate Keyed(p: Plan) {
    && (forall x, y :: InQueue(p, x) && InQueue(p, y) && x != y ==> Key(p, x) != Key(p, y))
    && (forall x, y :: InQueue(p, x) && InQueue(p, y) && Ch(p, x) < Ch(p, y) ==> Key(p, x) < Key(p, y))
  }

  /** Within a bucket the targets stand on the side the scan comes from. */
  ghost predicate Sides(p: Plan) {
    forall x, y :: x in p.targets && y in p.seeds && Ch(p, x) == Ch(p, y) ==>
      if p.up then Key(p, x) < Key(p, y) else Key(p, y) < Key(p, x)
  }

  /** A target's successor is processed before the target is reached. */
  ghost predicate Follows(p: Plan, x: int) {
    && ((p.up && x + 1 == |p.t|) || InQueue(p, x + 1))
    && if p.up then Key(p, x + 1) < Key(p, x) else Key(p, x + 1) > Key(p, x)
  }

  /** The successors decide the order of two targets in one bucket. */
  predicate Decided(p: Plan, x: int, y: int) {
    Key(p, x) < Key(p, y) <==> Key(p, x + 1) < Key(p, y + 1)
  }

  ghost predicate Inductive(p: Plan) {
    && (forall x {:trigger Follows(p, x)} :: x in p.targets ==> Follows(p, x))
    && (forall x, y {:trigger Decided(p, x, y)} ::
          x in p.targets && y in p.targets && Ch(p, x) == Ch(p, y) ==> Decided(p, x, y))
    && (p.up ==> forall x :: InQueue(p, x) ==> Key(p, |p.t|) < Key(p, x))
  }

  ghost function TargetsAt(p: Plan, c: int): set<int> {
    set x | x in p.targets && Ch(p, x) == c
  }

  /** The seeds stand in their buckets in order, leaving room for the targets. */
  ghost predicate Seeded(p: Plan) {
    && (forall x :: x in p.seeds ==> SeedFits(p, x))
    && (forall x, y :: x in p.seeds && y in p.seeds && Ch(p, x) == Ch(p, y) ==>
          (Key(p, x) < Key(p, y) <==> SeedAt(p, x) < SeedAt(p, y)))
  }

  function SeedAt(p: Plan, x: int): int {
    if x in p.seedSlot then p.seedSlot[x] else -1
  }

  ghost predicate SeedFits(p: Plan, x: int) {
    var c := Ch(p, x);
    if p.up then Min(p.t, c) + |TargetsAt(p, c)| <= SeedAt(p, x) < Min(p.t, c + 1)
    else Min(p.t, c) <= SeedAt(p, x) < Min(p.t, c + 1) - |TargetsAt(p, c)|
  }

  ghost predicate Sound(p: Plan) {
    Shape(p) && Keyed(p) && Sides(p) && Inductive(p) && Seeded(p)
  }

  ghost function Smaller(p: Plan, q: int): set<int> {
    set x | x in p.targets && Ch(p, x) == Ch(p, q) && Key(p, x) < Key(p, q)
  }

  ghost function Greater(p: Plan, q: int): set<int> {
    set x | x in p.targets && Ch(p, x) == Ch(p, q) && Key(p, x) > Key(p, q)
  }

  /** The slot of a queue element: given for a seed, by rank within the bucket for a target. */
  ghost function Slot(p: Plan, q: int): int {
    if q in p.seeds then SeedAt(p, q)
    else if p.up then Min(p.t, Ch(p, q)) + |Smaller(p, q)|
    else Min(p.t, Ch(p, q) + 1) - 1 - |Greater(p, q)|
  }

  lemma SlotBounds(p: Plan, q: int)
    requires Sound(p) && InQueue(p, q)
    ensures 0 <= Min(p.t, Ch(p, q)) <= Slot(p, q) < Min(p.t, Ch(p, q) + 1) <= |p.t|
    ensures q in p.targets && p.up ==> Slot(p, q) < Min(p.t, Ch(p, q)) + |TargetsAt(p, Ch(p, q))|
    ensures q in p.targets && !p.up ==> Slot(p, q) >= Min(p.t, Ch(p, q) + 1) - |TargetsAt(p, Ch(p, q))|
  {
    hide Keyed, Sides, Inductive, Min;
    var c := Ch(p, q);
    MinMonotone(p.t, c + 1, c + 1);
    MinMonotone(p.t, c, c);
    if q in p.seeds {
      assert SeedFits(p, q);
    } else {
      MinStep(p.t, c);
      SubsetSize(TargetsAt(p, c), CharsAt(p.t, c));
      var rest := if p.up then Smaller(p, q) else Greater(p, q);
      SubsetSize(rest + {q}, TargetsAt(p, c));
    }
  }

  /** Slots follow the keys. */
  lemma SlotMonotone(p: Plan, x: int, y: int)
    requires Sound(p) && InQueue(p, x) && InQueue(p, y) && Key(p, x) < Key(p, y)
    ensures Slot(p, x) < Slot(p, y)
  {
    hide Inductive, Min;
    SlotBounds(p, x);
    SlotBounds(p, y);
    if Ch(p, x) != Ch(p, y) {
      MinMonotone(p.t, Ch(p, x) + 1, Ch(p, y));
    } else if x in p.seeds || y in p.seeds {
      SlotsWithSeed(p, x, y);
    } else if p.up {
      SubsetSize(Smaller(p, x) + {x}, Smaller(p, y));
    } else {
      SubsetSize(Greater(p, y) + {y}, Greater(p, x));
    }
  }

  lemma SlotsWithSeed(p: Plan, x: int, y: int)
    requires Sound(p) && InQueue(p, x) && InQueue(p, y) && Key(p, x) < Key(p, y) && Ch(p, x) == Ch(p, y)
    requires x in p.seeds || y in p.seeds
    ensures Slot(p, x) < Slot(p, y)
  {
    hide Inductive, Min, Keyed;
    SlotBounds(p, x);
    SlotBounds(p, y);
    if x in p.seeds {
      assert SeedFits(p, x);
    }
    if y in p.seeds {
      assert SeedFits(p, y);
    }
  }

  lemma SlotOrder(p: Plan, x: int, y: int)
    requires Sound(p) && InQueue(p, x) && InQueue(p, y)
    ensures Slot(p, x) < Slot(p, y) <==> Key(p, x) < Key(p, y)
    ensures Slot(p, x) == Slot(p, y) <==> x == y
  {
    hide Inductive, Sides, Seeded, Slot;
    if Key(p, x) < Key(p, y) {
      SlotMonotone(p, x, y);
    } else if Key(p, y) < Key(p, x) {
      SlotMonotone(p, y, x);
    }
  }

  // ----- Progress of a scan -----
  // The scan has processed the slots below b going up, the slots from b on going down.

  /** x has been processed: it is the sentinel of an upward scan, or its slot has been passed. */
  ghost predicate Processed(p: Plan, x: int, b: int)
  {
    || (p.up && x == |p.t|)
    || (InQueue(p, x) && if p.up then Slot(p, x) < b else Slot(p, x) >= b)
  }

  ghost predicate Placed(p: Plan, q: int, b: int)
  {
    q in p.seeds || (q in p.targets && Processed(p, q + 1, b))
  }

  /** The targets of one bucket that have been placed. */
  ghost function PlacedAt(p: Plan, c: int, b: int): set<int>
  {
    set x | x in p.targets && Ch(p, x) == c && Processed(p, x + 1, b)
  }

  /** The next free slot going up; one past it going down. */
  ghost function Ptr(p: Plan, c: int, b: int): int
  {
    if p.up then Min(p.t, c) + |PlacedAt(p, c, b)| else Min(p.t, c + 1) - |PlacedAt(p, c, b)|
  }

  /** The slot processed next, and the bound after it. */
  function Here(p: Plan, b: int): int {
    if p.up then b else b - 1
  }

  function After(p: Plan, b: int): int {
    if p.up then b + 1 else b - 1
  }

  /** What the scan reaches has been placed. */
  lemma Arrive(p: Plan, b: int, q: int)
    requires Sound(p) && InQueue(p, q) && Slot(p, q) == Here(p, b)
    ensures Placed(p, q, b)
  {
    hide Keyed, Sides, Seeded, Slot;
    if q in p.targets {
      assert Follows(p, q);
      if InQueue(p, q + 1) {
        SlotMonotoneStep(p, q);
      }
    }
  }

  lemma SlotMonotoneStep(p: Plan, x: int)
    requires Sound(p) && x in p.targets && InQueue(p, x + 1)
    ensures if p.up then Slot(p, x + 1) < Slot(p, x) else Slot(p, x + 1) > Slot(p, x)
  {
    hide Keyed, Sides, Seeded, Slot;
    assert Follows(p, x);
    if p.up {
      SlotMonotone(p, x + 1, x);
    } else {
      SlotMonotone(p, x, x + 1);
    }
  }

  /** Processing one slot processes the queue element there and no other. */
  lemma ProcessedStep(p: Plan, b: int, x: int)
    requires Sound(p)
    ensures Processed(p, x, After(p, b)) <==> Processed(p, x, b) || (InQueue(p, x) && Slot(p, x) == Here(p, b))
  {
    hide Sound, Slot;
  }

  /** A slot that holds no queue element with a target before it places nothing. */
  lemma StepNone(p: Plan, b: int)
    requires Sound(p)
    requires forall q :: InQueue(p, q) && Slot(p, q) == Here(p, b) ==> q - 1 !in p.targets
    ensures forall c :: PlacedAt(p, c, After(p, b)) == PlacedAt(p, c, b)
    ensures forall q :: Placed(p, q, After(p, b)) <==> Placed(p, q, b)
  {
    hide Sound, Slot, Processed;
    forall x | x in p.targets ensures Processed(p, x + 1, After(p, b)) <==> Processed(p, x + 1, b) {
      ProcessedStep(p, b, x + 1);
    }
  }

  /** Processing q places exactly the target before it. */
  lemma StepOne(p: Plan, b: int, q: int)
    requires Sound(p) && InQueue(p, q) && Slot(p, q) == Here(p, b) && q - 1 in p.targets
    ensures q - 1 !in PlacedAt(p, Ch(p, q - 1), b) && !Placed(p, q - 1, b)
    ensures forall c :: PlacedAt(p, c, After(p, b)) == PlacedAt(p, c, b) + if c == Ch(p, q - 1) then {q - 1} else {}
    ensures forall x :: Placed(p, x, After(p, b)) <==> Placed(p, x, b) || x == q - 1
  {
    hide Keyed, Sides, Inductive, Seeded, Slot, Processed;
    assert !Processed(p, q, b) by { NotYet(p, b, q); }
    forall x | x in p.targets
      ensures Processed(p, x + 1, After(p, b)) <==> Processed(p, x + 1, b) || x == q - 1
    {
      ProcessedStep(p, b, x + 1);
      if InQueue(p, x + 1) {
        SlotOrder(p, x + 1, q);
      }
    }
  }

  lemma NotYet(p: Plan, b: int, q: int)
    requires Sound(p) && InQueue(p, q) && Slot(p, q) == Here(p, b)
    ensures !Processed(p, q, b)
  {
    hide Keyed, Sides, Inductive, Seeded, Slot;
  }

  /** The bucket pointer is at the target's own slot, which the scan has still to reach. */
  lemma PtrIsSlot(p: Plan, b: int, q: int)
    requires Sound(p) && InQueue(p, q) && Slot(p, q) == Here(p, b) && q - 1 in p.targets
    ensures p.up ==> Slot(p, q - 1) == Ptr(p, Ch(p, q - 1), b) && Slot(p, q - 1) > Here(p, b)
    ensures !p.up ==> Slot(p, q - 1) == Ptr(p, Ch(p, q - 1), b) - 1 && Slot(p, q - 1) < Here(p, b)
    ensures 0 <= Slot(p, q - 1) < |p.t|
  {
    hide Keyed, Sides, Seeded, Processed;
    var k := q - 1;
    SlotBounds(p, k);
    SlotMonotoneStep(p, k);
    forall x | x in p.targets && Ch(p, x) == Ch(p, k)
      ensures Processed(p, x + 1, b) <==> if p.up then Key(p, x) < Key(p, k) else Key(p, x) > Key(p, k)
    {
      ProcessedBefore(p, b, q, x);
    }
    if p.up {
      assert PlacedAt(p, Ch(p, k), b) == Smaller(p, k);
    } else {
      assert PlacedAt(p, Ch(p, k), b) == Greater(p, k);
    }
  }

  lemma ProcessedBefore(p: Plan, b: int, q: int, x: int)
    requires Sound(p) && InQueue(p, q) && Slot(p, q) == Here(p, b) && q - 1 in p.targets
    requires x in p.targets && Ch(p, x) == Ch(p, q - 1)
    ensures Processed(p, x + 1, b) <==> if p.up then Key(p, x) < Key(p, q - 1) else Key(p, x) > Key(p, q - 1)
  {
    hide Keyed, Sides, Seeded, Slot;
    assert Follows(p, x);
    assert Decided(p, x, q - 1) && Decided(p, q - 1, x);
    if InQueue(p, x + 1) {
      SlotOrder(p, x + 1, q);
      SlotOrder(p, q, x + 1);
    }
  }

  lemma SentinelBefore(p: Plan, x: int)
    requires Sound(p) && p.up && |p.t| - 1 in p.targets
    requires x in p.targets && Ch(p, x) == Ch(p, |p.t| - 1)
    ensures Key(p, x) >= Key(p, |p.t| - 1)
  {
    hide Keyed, Sides, Seeded;
    assert Follows(p, x);
    assert Decided(p, x, |p.t| - 1);
  }

  /** The sentinel's predecessor opens its bucket, before an upward scan starts. */
  lemma SentinelFirst(p: Plan)
    requires Sound(p) && p.up && |p.t| - 1 in p.targets
    ensures Slot(p, |p.t| - 1) == Min(p.t, Ch(p, |p.t| - 1)) < |p.t|
    ensures forall c :: PlacedAt(p, c, 0) == if c == Ch(p, |p.t| - 1) then {|p.t| - 1} else {}
    ensures forall x :: Placed(p, x, 0) <==> x in p.seeds || x == |p.t| - 1
  {
    hide Keyed, Sides, Seeded;
    var k := |p.t| - 1;
    SlotBounds(p, k);
    forall x | x in p.targets && Ch(p, x) == Ch(p, k) ensures Key(p, x) >= Key(p, k) {
      SentinelBefore(p, x);
    }
    assert Smaller(p, k) == {};
    forall x | x in p.targets ensures Processed(p, x + 1, 0) <==> x == k {
      if InQueue(p, x + 1) {
        SlotBounds(p, x + 1);
      }
    }
  }

  /** Before a downward scan nothing has been placed. */
  lemma DownStart(p: Plan)
    requires Sound(p) && !p.up
    ensures forall c :: PlacedAt(p, c, |p.t|) == {}
    ensures forall x :: Placed(p, x, |p.t|) <==> x in p.seeds
  {
    hide Keyed, Sides, Seeded, Inductive, Slot;
    forall x | x in p.targets ensures !Processed(p, x + 1, |p.t|) {
      if InQueue(p, x + 1) {
        SlotBounds(p, x + 1);
      }
    }
  }

  /** After the scan everything has been placed. */
  lemma AllPlaced(p: Plan, q: int)
    requires Sound(p) && InQueue(p, q)
    ensures Placed(p, q, if p.up then |p.t| else 0)
  {
    hide Keyed, Sides, Seeded, Slot;
    if q in p.targets {
      assert Follows(p, q);
      if InQueue(p, q + 1) {
        SlotBounds(p, q + 1);
      }
    }
  }
}
