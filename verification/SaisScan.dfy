/** One step of each scan: what the array holds while a scan is under way, with the sign of an entry
    serving as the work queue, and why processing one slot keeps that description true. */
module SaisScan {
  import opened Suffixes
  import opened SaisTypes
  import opened SaisPlan
  import opened SaisPlans
  import opened SaisBuckets

  datatype Scan = SubL | FullL | SubS | FullS

  predicate PredS(t: seq<int>, q: int) {
    0 < q <= |t| && SType(t, q - 1)
  }

  /** The entry for position q before and after the scan has passed it. */
  function Val(m: Scan, t: seq<int>, q: int, scanned: bool): int {
    match m
    case SubL => if PredS(t, q) then (if scanned then q else -q) else (if scanned then 0 else q)
    case FullL => if PredS(t, q) then -q else q
    case SubS => if scanned then 0 else if PredS(t, q) then q else if 0 <= q <= |t| && SType(t, q) then -q else 0
    case FullS => if scanned then q else if PredS(t, q) then -q else q
  }

  /** A queue element is to be processed exactly when the position before it is a target. */
  ghost predicate Preds(p: Plan) {
    forall q :: InQueue(p, q) ==> (q - 1 in p.targets <==> 0 < q && PredS(p.t, q) == !p.up)
  }

  ghost predicate Ready(m: Scan, p: Plan) {
    && Sound(p) && Preds(p)
    && p.up == (m.SubL? || m.FullL?)
    && ((m.SubL? || m.SubS?) ==> forall q :: InQueue(p, q) ==> q > 0 && (q - 1 in p.targets ==> q > 1))
  }

  lemma ReadySound(m: Scan, p: Plan)
    requires Ready(m, p)
    ensures Sound(p) && p.up == (m.SubL? || m.FullL?)
  {
  }

  lemma UpReady(m: Scan, t: seq<int>, key: seq<int>, from: int)
    requires m.SubL? || m.FullL?
    requires UpKeys(t, key) && From(t, from) && (m.SubL? ==> from >= 0)
    ensures Ready(m, UpPlan(t, key, from))
  {
    hide Sound, Less, TopSlot;
    UpPlanSound(t, key, from);
  }

  lemma DownReady(m: Scan, t: seq<int>, key: seq<int>, from: int, up: Plan)
    requires (m.SubS? || m.FullS?) && From(t, from) && (m.SubS? ==> from > 0)
    requires Sound(DownPlan(t, key, from, up))
    ensures Ready(m, DownPlan(t, key, from, up))
  {
    hide Sound, Less, Slot;
  }

  predicate Unscanned(p: Plan, x: int, b: int) {
    if p.up then x >= b else x < b
  }

  /** The array holds q's entry at q's slot. */
  ghost predicate Holds(m: Scan, p: Plan, sa: seq<int>, b: int, q: int) {
    0 <= Slot(p, q) < |sa| && sa[Slot(p, q)] == Val(m, p.t, q, !Unscanned(p, Slot(p, q), b))
  }

  /** Every placed element stands at its slot (the second scan of the first round packs what it has
      passed elsewhere). */
  ghost predicate Filled(m: Scan, p: Plan, sa: seq<int>, b: int) {
    && |sa| == |p.t|
    && forall q {:trigger Holds(m, p, sa, b, q)} ::
         InQueue(p, q) && Placed(p, q, b) && (m.SubS? ==> Slot(p, q) < b) ==> Holds(m, p, sa, b, q)
  }

  ghost predicate Owned(p: Plan, b: int, x: int) {
    exists q :: InQueue(p, q) && Placed(p, q, b) && Slot(p, q) == x
  }

  /** Every other slot is empty. */
  ghost predicate Clean(m: Scan, p: Plan, sa: seq<int>, b: int) {
    m.FullS? || forall x :: 0 <= x < |sa| && sa[x] != 0 && (m.SubS? ==> x < b) ==> Owned(p, b, x)
  }

  /** The bucket table with one entry held in a variable. */
  ghost predicate Pointers(p: Plan, buckets: seq<int>, cB: int, bv: int, b: int) {
    && 0 <= cB < |buckets|
    && forall c :: 0 <= c < |buckets| ==> (if c == cB then bv else buckets[c]) == Ptr(p, c, b)
  }

  // ----- Looking at a slot -----

  /** The scan finds a queue element's entry at the slot, or nothing. */
  lemma Look(m: Scan, p: Plan, sa: seq<int>, b: int) returns (q: int)
    requires Ready(m, p) && Filled(m, p, sa, b) && Clean(m, p, sa, b) && 0 <= Here(p, b) < |sa|
    requires m.FullS? ==> exists q :: InQueue(p, q) && Slot(p, q) == Here(p, b)
    ensures q == -1 ==> sa[Here(p, b)] == 0 && !m.FullS? && forall x :: InQueue(p, x) ==> Slot(p, x) != Here(p, b)
    ensures q != -1 ==> InQueue(p, q) && 0 <= q < |p.t| && Slot(p, q) == Here(p, b) && sa[Here(p, b)] == Val(m, p.t, q, false)
    ensures q != -1 ==> (q - 1 in p.targets <==> 0 < q && PredS(p.t, q) == !p.up)
    ensures q != -1 && (m.SubL? || m.SubS?) ==> q > 0 && (q - 1 in p.targets ==> q > 1)
  {
    hide Keyed, Sides, Inductive, Seeded, Slot, Placed, Val, PredS;
    if x :| InQueue(p, x) && Slot(p, x) == Here(p, b) {
      q := x;
      Arrive(p, b, q);
      assert Holds(m, p, sa, b, q);
    } else {
      q := -1;
      if sa[Here(p, b)] != 0 {
        assert Owned(p, b, Here(p, b));
      }
    }
  }

  // ----- Passing a slot without placing anything -----

  /** A slot with no element to process is passed; its entry changes as Val says. */
  lemma Pass(m: Scan, p: Plan, sa: seq<int>, b: int, q: int, sa': seq<int>)
    requires Ready(m, p) && Filled(m, p, sa, b) && Clean(m, p, sa, b) && 0 <= Here(p, b) < |sa|
    requires q == -1 ==> forall x :: InQueue(p, x) ==> Slot(p, x) != Here(p, b)
    requires q != -1 ==> InQueue(p, q) && Slot(p, q) == Here(p, b) && q - 1 !in p.targets
    requires q == -1 ==> sa' == sa
    requires q != -1 ==> sa' == sa[Here(p, b) := Val(m, p.t, q, true)]
    ensures Filled(m, p, sa', After(p, b)) && Clean(m, p, sa', After(p, b))
    ensures forall c :: Ptr(p, c, After(p, b)) == Ptr(p, c, b)
  {
    hide Keyed, Sides, Inductive, Seeded, Slot, Placed, PlacedAt, Val, PredS, Min, Preds;
    var b' := After(p, b);
    assert forall x :: InQueue(p, x) && Slot(p, x) == Here(p, b) ==> x - 1 !in p.targets by {
      OnlyOne(p, b, q);
    }
    StepNone(p, b);
    forall x | InQueue(p, x) && Placed(p, x, b') && (m.SubS? ==> Slot(p, x) < b') ensures Holds(m, p, sa', b', x) {
      assert Holds(m, p, sa, b, x);
      if Slot(p, x) == Here(p, b) {
        SlotOrder(p, x, q);
      }
    }
    if !m.FullS? {
      forall x | 0 <= x < |sa'| && sa'[x] != 0 && (m.SubS? ==> x < b') ensures Owned(p, b', x) {
        if x == Here(p, b) && q != -1 {
          Arrive(p, b, q);
          assert InQueue(p, q) && Placed(p, q, b') && Slot(p, q) == x;
        } else {
          assert Owned(p, b, x);
        }
      }
    }
  }

  lemma OnlyOne(p: Plan, b: int, q: int)
    requires Sound(p)
    requires q == -1 ==> forall x :: InQueue(p, x) ==> Slot(p, x) != Here(p, b)
    requires q != -1 ==> InQueue(p, q) && Slot(p, q) == Here(p, b) && q - 1 !in p.targets
    ensures forall x :: InQueue(p, x) && Slot(p, x) == Here(p, b) ==> x - 1 !in p.targets
  {
    hide Sound, Slot;
    forall x | InQueue(p, x) && Slot(p, x) == Here(p, b) ensures x - 1 !in p.targets {
      SlotOrder(p, x, q);
    }
  }

  // ----- Processing an element -----

  /** Processing q writes the entry of q - 1 at the bucket pointer and advances the pointer. */
  lemma Process(m: Scan, p: Plan, sa: seq<int>, b: int, q: int, sa': seq<int>)
    requires Ready(m, p) && Filled(m, p, sa, b) && Clean(m, p, sa, b) && 0 <= Here(p, b) < |sa|
    requires InQueue(p, q) && Slot(p, q) == Here(p, b) && q - 1 in p.targets
    requires 0 <= Slot(p, q - 1) < |sa|
    requires sa' == sa[Here(p, b) := Val(m, p.t, q, true)][Slot(p, q - 1) := Val(m, p.t, q - 1, false)]
    ensures Filled(m, p, sa', After(p, b)) && Clean(m, p, sa', After(p, b))
  {
    hide Keyed, Sides, Inductive, Seeded, Slot, Placed, PlacedAt, Val, PredS, Min, Preds;
    var b', k := After(p, b), q - 1;
    StepOne(p, b, q);
    PtrIsSlot(p, b, q);
    forall x | InQueue(p, x) && Placed(p, x, b') && (m.SubS? ==> Slot(p, x) < b') ensures Holds(m, p, sa', b', x) {
      SlotOrder(p, x, q);
      SlotOrder(p, x, k);
      if x != k {
        assert Holds(m, p, sa, b, x);
      }
    }
    if !m.FullS? {
      Arrive(p, b, q);
      forall x | 0 <= x < |sa'| && sa'[x] != 0 && (m.SubS? ==> x < b') ensures Owned(p, b', x) {
        if x == Here(p, b) {
          assert InQueue(p, q) && Placed(p, q, b') && Slot(p, q) == x;
        } else if x == Slot(p, k) {
          assert InQueue(p, k) && Placed(p, k, b') && Slot(p, k) == x;
        } else {
          assert Owned(p, b, x);
        }
      }
    }
  }

  /** The pointer read for the element's character is its slot, and moves by one. */
  lemma PointerMoves(p: Plan, buckets: seq<int>, c: int, bv: int, b: int, q: int)
    requires Sound(p) && InQueue(p, q) && Slot(p, q) == Here(p, b) && q - 1 in p.targets
    requires Pointers(p, buckets, c, bv, b) && c == Ch(p, q - 1)
    ensures 0 <= Slot(p, q - 1) < |p.t|
    ensures p.up ==> bv == Slot(p, q - 1) && Pointers(p, buckets, c, bv + 1, After(p, b))
    ensures !p.up ==> bv - 1 == Slot(p, q - 1) && Pointers(p, buckets, c, bv - 1, After(p, b))
  {
    hide Keyed, Sides, Inductive, Seeded, Slot, Placed, PlacedAt, Min;
    StepOne(p, b, q);
    PtrIsSlot(p, b, q);
    var k := q - 1;
    assert |PlacedAt(p, c, b) + {k}| == |PlacedAt(p, c, b)| + 1;
  }

  lemma PointersKept(p: Plan, buckets: seq<int>, c: int, bv: int, b: int, b': int)
    requires Pointers(p, buckets, c, bv, b) && forall d :: Ptr(p, d, b') == Ptr(p, d, b)
    ensures Pointers(p, buckets, c, bv, b')
  {
    hide Ptr;
  }

  /** Store the cached bucket pointer and load the one for character c1. */
  method SwitchBucket(t: seq<int>, s: Space, cB: int, bv: int, c1: int, ghost p: Plan, ghost b: int) returns (bv': int)
    requires CacheOk(t, s) && Pointers(p, s.Buckets(), cB, bv, b) && 0 <= c1 < s.textMax
    modifies s.tmp
    ensures CacheOk(t, s) && Pointers(p, s.Buckets(), c1, bv', b)
  {
    hide Ptr, CharsAt;
    bv' := bv;
    if cB != c1 {
      ghost var before := s.Buckets();
      s.tmp[s.Base() + cB] := bv;
      assert s.Buckets() == before[cB := bv];
      bv' := s.tmp[s.Base() + c1];
      assert bv' == s.Buckets()[c1];
    }
  }
}
