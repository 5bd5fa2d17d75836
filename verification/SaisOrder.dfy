/** The orders the scans of induced sorting work in.  NLt compares a run of type-L characters up to and
    including the type-S character behind it; FLt compares a whole LMS-substring from its first
    character.  Ties are broken by position, which is the order placeLMS leaves equal entries in. */
module SaisOrder {
  import opened Suffixes
  import opened SaisTypes

  predicate NLt(t: seq<int>, i: int, j: int)
    requires 0 <= i <= |t| && 0 <= j <= |t|
    decreases |t| - i
  {
    && j < |t|
    && (i == |t| || t[i] < t[j] ||
        (t[i] == t[j] &&
         if SType(t, i) != SType(t, j) then !SType(t, i)
         else if SType(t, i) then i < j
         else NLt(t, i + 1, j + 1)))
  }

  predicate FLt(t: seq<int>, i: int, j: int)
    requires 0 <= i <= |t| && 0 <= j <= |t|
    decreases |t| - i
  {
    && j < |t|
    && (i == |t| || t[i] < t[j] ||
        (t[i] == t[j] &&
         if SType(t, i) != SType(t, j) then !SType(t, i)
         else if SType(t, i) then FLt(t, i + 1, j + 1)
         else NLt(t, i + 1, j + 1)))
  }

  // ----- Strict total orders, and ranks -----

  /** rel is a strict total order on 0 .. n. */
  ghost predicate StrictOrder(rel: (int, int) -> bool, n: nat) {
    && (forall i :: 0 <= i <= n ==> !rel(i, i))
    && (forall i, j :: 0 <= i <= n && 0 <= j <= n && i != j ==> rel(i, j) || rel(j, i))
    && (forall i, j, k :: 0 <= i <= n && 0 <= j <= n && 0 <= k <= n && rel(i, j) && rel(j, k) ==> rel(i, k))
  }

  ghost function Predecessors(rel: (int, int) -> bool, n: nat, i: int): set<int> {
    set q | 0 <= q <= n && rel(q, i)
  }

  /** Every position's rank under rel. */
  ghost function Ranks(rel: (int, int) -> bool, n: nat): (key: seq<int>)
    ensures |key| == n + 1
  {
    seq(n + 1, i => |Predecessors(rel, n, i)|)
  }

  lemma RanksOrder(rel: (int, int) -> bool, n: nat, i: int, j: int)
    requires StrictOrder(rel, n) && 0 <= i <= n && 0 <= j <= n
    ensures Ranks(rel, n)[i] < Ranks(rel, n)[j] <==> rel(i, j)
  {
    if rel(i, j) {
      FewerPredecessors(rel, n, i, j);
    } else if i != j {
      FewerPredecessors(rel, n, j, i);
    }
  }

  lemma FewerPredecessors(rel: (int, int) -> bool, n: nat, i: int, j: int)
    requires StrictOrder(rel, n) && 0 <= i <= n && 0 <= j <= n && rel(i, j)
    ensures |Predecessors(rel, n, i)| < |Predecessors(rel, n, j)|
  {
    var a, b := Predecessors(rel, n, i) + {i}, Predecessors(rel, n, j);
    assert a <= b;
    assert b == a + (b - a);
  }

  ghost function LessRel(t: seq<int>): (int, int) -> bool {
    (i, j) => 0 <= i <= |t| && 0 <= j <= |t| && Less(t, i, j)
  }

  ghost function NRel(t: seq<int>): (int, int) -> bool {
    (i, j) => 0 <= i <= |t| && 0 <= j <= |t| && NLt(t, i, j)
  }

  ghost function FRel(t: seq<int>): (int, int) -> bool {
    (i, j) => 0 <= i <= |t| && 0 <= j <= |t| && FLt(t, i, j)
  }

  lemma {:induction false} NTotal(t: seq<int>, i: int, j: int)
    requires 0 <= i <= |t| && 0 <= j <= |t|
    ensures i == j ==> !NLt(t, i, j)
    ensures i != j ==> (NLt(t, i, j) <==> !NLt(t, j, i))
    decreases |t| - i
  {
    hide SType;
    if i < |t| && j < |t| && t[i] == t[j] && !SType(t, i) && !SType(t, j) {
      NTotal(t, i + 1, j + 1);
    }
  }

  lemma {:induction false} NTransitive(t: seq<int>, i: int, j: int, k: int)
    requires 0 <= i <= |t| && 0 <= j <= |t| && 0 <= k <= |t| && NLt(t, i, j) && NLt(t, j, k)
    ensures NLt(t, i, k)
    decreases |t| - i
  {
    hide SType;
    if i < |t| && t[i] == t[j] == t[k] && !SType(t, i) && !SType(t, j) && !SType(t, k) {
      NTransitive(t, i + 1, j + 1, k + 1);
    }
  }

  lemma {:induction false} FTotal(t: seq<int>, i: int, j: int)
    requires 0 <= i <= |t| && 0 <= j <= |t|
    ensures i == j ==> !FLt(t, i, j)
    ensures i != j ==> (FLt(t, i, j) <==> !FLt(t, j, i))
    decreases |t| - i
  {
    hide SType, NLt;
    if i < |t| && j < |t| && t[i] == t[j] && SType(t, i) == SType(t, j) {
      if SType(t, i) {
        FTotal(t, i + 1, j + 1);
      } else {
        NTotal(t, i + 1, j + 1);
      }
    }
  }

  lemma {:induction false} FTransitive(t: seq<int>, i: int, j: int, k: int)
    requires 0 <= i <= |t| && 0 <= j <= |t| && 0 <= k <= |t| && FLt(t, i, j) && FLt(t, j, k)
    ensures FLt(t, i, k)
    decreases |t| - i
  {
    hide SType, NLt;
    if i < |t| && t[i] == t[j] == t[k] && SType(t, i) == SType(t, j) == SType(t, k) {
      if SType(t, i) {
        FTransitive(t, i + 1, j + 1, k + 1);
      } else {
        NTransitive(t, i + 1, j + 1, k + 1);
      }
    }
  }

  lemma OrdersStrict(t: seq<int>)
    ensures StrictOrder(LessRel(t), |t|) && StrictOrder(NRel(t), |t|) && StrictOrder(FRel(t), |t|)
  {
    LessStrict(t);
    NStrict(t);
    FStrict(t);
  }

  lemma LessStrict(t: seq<int>)
    ensures StrictOrder(LessRel(t), |t|)
  {
    hide Less;
    forall i, j | 0 <= i <= |t| && 0 <= j <= |t|
      ensures (i == j ==> !Less(t, i, j)) && (i != j ==> Less(t, i, j) || Less(t, j, i))
    {
      LeqTotal(t, i, j);
      LessIrreflexive(t, i);
    }
    forall i, j, k | 0 <= i <= |t| && 0 <= j <= |t| && 0 <= k <= |t| && LessRel(t)(i, j) && LessRel(t)(j, k)
      ensures LessRel(t)(i, k)
    {
      LessTransitive(t, i, j, k);
    }
  }

  lemma NStrict(t: seq<int>)
    ensures StrictOrder(NRel(t), |t|)
  {
    hide NLt;
    forall i, j | 0 <= i <= |t| && 0 <= j <= |t|
      ensures (i == j ==> !NLt(t, i, j)) && (i != j ==> NLt(t, i, j) || NLt(t, j, i))
    {
      NTotal(t, i, j);
    }
    forall i, j, k | 0 <= i <= |t| && 0 <= j <= |t| && 0 <= k <= |t| && NRel(t)(i, j) && NRel(t)(j, k)
      ensures NRel(t)(i, k)
    {
      NTransitive(t, i, j, k);
    }
  }

  lemma FStrict(t: seq<int>)
    ensures StrictOrder(FRel(t), |t|)
  {
    hide FLt;
    forall i, j | 0 <= i <= |t| && 0 <= j <= |t|
      ensures (i == j ==> !FLt(t, i, j)) && (i != j ==> FLt(t, i, j) || FLt(t, j, i))
    {
      FTotal(t, i, j);
    }
    forall i, j, k | 0 <= i <= |t| && 0 <= j <= |t| && 0 <= k <= |t| && FRel(t)(i, j) && FRel(t)(j, k)
      ensures FRel(t)(i, k)
    {
      FTransitive(t, i, j, k);
    }
  }

  // ----- Successors -----

  /** A type-L position is greater than its successor in the order of the first scan. */
  lemma {:induction false} NSuccessorSmaller(t: seq<int>, x: int)
    requires 0 <= x < |t| && !SType(t, x)
    ensures NLt(t, x + 1, x)
    decreases |t| - x
  {
    TypeStep(t, x);
    if x + 1 < |t| && t[x] == t[x + 1] {
      NSuccessorSmaller(t, x + 1);
    }
  }

  /** A type-S position is smaller than its successor in the order of the second scan. */
  lemma {:induction false} FSuccessorGreater(t: seq<int>, x: int)
    requires 0 <= x < |t| && SType(t, x)
    ensures x + 1 < |t| && FLt(t, x, x + 1)
    decreases |t| - x
  {
    TypeStep(t, x);
    if t[x] == t[x + 1] {
      FSuccessorGreater(t, x + 1);
    }
  }

  // ----- Equal LMS-substrings -----

  predicate NSame(t: seq<int>, i: int, j: int)
    requires 0 <= i <= |t| && 0 <= j <= |t|
    decreases |t| - i
  {
    if i == |t| || j == |t| then i == j
    else t[i] == t[j] && SType(t, i) == SType(t, j) && (SType(t, i) || NSame(t, i + 1, j + 1))
  }

  /** The LMS-substrings from i and from j are equal, character by character and type by type. */
  predicate FSame(t: seq<int>, i: int, j: int)
    requires 0 <= i <= |t| && 0 <= j <= |t|
    decreases |t| - i
  {
    if i == |t| || j == |t| then i == j
    else t[i] == t[j] && SType(t, i) == SType(t, j) && if SType(t, i) then FSame(t, i + 1, j + 1) else NSame(t, i + 1, j + 1)
  }

  /** Where the comparison from i ends: at the first type-S position from i on. */
  function EndN(t: seq<int>, i: int): (e: int)
    requires 0 <= i <= |t|
    ensures i <= e <= |t| && SType(t, e)
    decreases |t| - i
  {
    if i == |t| || SType(t, i) then i else EndN(t, i + 1)
  }

  /** The end of the LMS-substring from i: the next LMS position, or the sentinel. */
  function EndF(t: seq<int>, i: int): (e: int)
    requires 0 <= i < |t|
    ensures i < e <= |t| && SType(t, e)
    decreases |t| - i
  {
    if SType(t, i) && i + 1 < |t| then EndF(t, i + 1) else EndN(t, i + 1)
  }

  lemma {:induction false} NSameOrder(t: seq<int>, i: int, j: int, k: int)
    requires 0 <= i <= |t| && 0 <= j <= |t| && 0 <= k <= |t|
    requires NLt(t, i, j) && NLt(t, j, k) && NSame(t, i, k)
    ensures NSame(t, i, j)
    decreases |t| - i
  {
    hide SType;
    if i < |t| && j < |t| && !SType(t, i) && t[i] == t[j] {
      NSameOrder(t, i + 1, j + 1, k + 1);
    }
  }

  /** Equal substrings stand together in the order. */
  lemma {:induction false} FSameOrder(t: seq<int>, i: int, j: int, k: int)
    requires 0 <= i <= |t| && 0 <= j <= |t| && 0 <= k <= |t|
    requires FLt(t, i, j) && FLt(t, j, k) && FSame(t, i, k)
    ensures FSame(t, i, j)
    decreases |t| - i
  {
    hide SType, NLt, NSame;
    if i < |t| && j < |t| && t[i] == t[j] {
      if SType(t, i) {
        FSameOrder(t, i + 1, j + 1, k + 1);
      } else {
        NSameOrder(t, i + 1, j + 1, k + 1);
      }
    }
  }

  lemma {:induction false} NSameEquivalence(t: seq<int>, i: int, j: int, k: int)
    requires 0 <= i <= |t| && 0 <= j <= |t| && 0 <= k <= |t|
    ensures NSame(t, i, j) ==> NSame(t, j, i)
    ensures NSame(t, i, j) && NSame(t, j, k) ==> NSame(t, i, k)
    decreases |t| - i
  {
    hide SType;
    if i < |t| && j < |t| && k < |t| {
      NSameEquivalence(t, i + 1, j + 1, k + 1);
    } else if i < |t| && j < |t| {
      NSameEquivalence(t, i + 1, j + 1, j + 1);
    }
  }

  lemma {:induction false} FSameEquivalence(t: seq<int>, i: int, j: int, k: int)
    requires 0 <= i <= |t| && 0 <= j <= |t| && 0 <= k <= |t|
    ensures FSame(t, i, j) ==> FSame(t, j, i)
    ensures FSame(t, i, j) && FSame(t, j, k) ==> FSame(t, i, k)
    decreases |t| - i
  {
    hide SType, NSame;
    if i < |t| && j < |t| {
      var k' := if k < |t| then k + 1 else j + 1;
      FSameEquivalence(t, i + 1, j + 1, k');
      NSameEquivalence(t, i + 1, j + 1, k');
    }
  }

  /** A difference decides the suffixes as it decides the substrings. */
  lemma {:induction false} NLtIsLess(t: seq<int>, i: int, j: int)
    requires 0 <= i <= |t| && 0 <= j <= |t| && NLt(t, i, j) && !NSame(t, i, j)
    ensures Less(t, i, j)
    decreases |t| - i
  {
    if i < |t| && t[i] == t[j] {
      if SType(t, i) != SType(t, j) {
        LBeforeS(t, i, j);
      } else {
        NLtIsLess(t, i + 1, j + 1);
      }
    }
  }

  lemma {:induction false} FLtIsLess(t: seq<int>, i: int, j: int)
    requires 0 <= i <= |t| && 0 <= j <= |t| && FLt(t, i, j) && !FSame(t, i, j)
    ensures Less(t, i, j)
    decreases |t| - i
  {
    hide NLt, NSame;
    if i < |t| && t[i] == t[j] {
      if SType(t, i) != SType(t, j) {
        LBeforeS(t, i, j);
      } else if SType(t, i) {
        FLtIsLess(t, i + 1, j + 1);
      } else {
        NLtIsLess(t, i + 1, j + 1);
      }
    }
  }

  /** Behind equal substrings the suffixes from their ends decide. */
  lemma {:induction false} NSameDefers(t: seq<int>, i: int, j: int)
    requires 0 <= i <= |t| && 0 <= j <= |t| && NSame(t, i, j)
    ensures Less(t, i, j) <==> Less(t, EndN(t, i), EndN(t, j))
    ensures EndN(t, i) - i == EndN(t, j) - j
    decreases |t| - i
  {
    if i < |t| && j < |t| && !SType(t, i) {
      NSameDefers(t, i + 1, j + 1);
    }
  }

  lemma {:induction false} FSameDefers(t: seq<int>, i: int, j: int)
    requires 0 <= i < |t| && 0 <= j < |t| && FSame(t, i, j)
    ensures Less(t, i, j) <==> Less(t, EndF(t, i), EndF(t, j))
    ensures EndF(t, i) - i == EndF(t, j) - j
    decreases |t| - i
  {
    hide NSame;
    TypeStep(t, i);
    TypeStep(t, j);
    if SType(t, i) {
      FSameDefers(t, i + 1, j + 1);
    } else {
      NSameDefers(t, i + 1, j + 1);
    }
  }
}
