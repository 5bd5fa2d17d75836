/** Suffix types for induced sorting (internal/astrobwt/sais.go): a position is of type S when its
    suffix is smaller than the next one, of type L otherwise, and a leftmost S position starts an
    LMS-substring. */
module SaisTypes {
  import opened Suffixes

  /** The sentinel behind the text is of type S. */
  predicate SType(t: seq<int>, i: int)
    requires 0 <= i <= |t|
  {
    i == |t| || Less(t, i, i + 1)
  }

  /** A type-S position behind a type-L position. */
  predicate Lms(t: seq<int>, i: int)
    requires 0 <= i <= |t|
  {
    0 < i && SType(t, i) && !SType(t, i - 1)
  }

  /** The backward scan decides types from neighbouring characters alone. */
  lemma TypeStep(t: seq<int>, i: int)
    requires 0 <= i < |t|
    ensures i + 1 == |t| ==> !SType(t, i)
    ensures i + 1 < |t| && t[i] < t[i + 1] ==> SType(t, i)
    ensures i + 1 < |t| && t[i] > t[i + 1] ==> !SType(t, i)
    ensures i + 1 < |t| && t[i] == t[i + 1] ==> SType(t, i) == SType(t, i + 1)
  {
  }

  /** Of two suffixes with the same first character the type-L one is smaller. */
  lemma {:induction false} LBeforeS(t: seq<int>, i: int, j: int)
    requires 0 <= i < |t| && 0 <= j < |t| && t[i] == t[j] && !SType(t, i) && SType(t, j)
    ensures Less(t, i, j)
    decreases |t| - i
  {
    TypeStep(t, i);
    TypeStep(t, j);
    assert j + 1 < |t|;
    if i + 1 < |t| && t[i + 1] == t[i] && t[j + 1] == t[j] {
      LBeforeS(t, i + 1, j + 1);
    }
  }

  /** The LMS positions from i on, the sentinel excluded, in increasing order. */
  function LmsFrom(t: seq<int>, i: nat): (r: seq<int>)
    requires i <= |t|
    ensures forall k :: 0 <= k < |r| ==> i <= r[k] < |t|
    decreases |t| - i
  {
    if i == |t| then [] else (if Lms(t, i) then [i] else []) + LmsFrom(t, i + 1)
  }

  ghost predicate Increasing(r: seq<int>) {
    forall k, l :: 0 <= k < l < |r| ==> r[k] < r[l]
  }

  lemma {:induction false} LmsFromElements(t: seq<int>, i: nat)
    requires i <= |t|
    ensures forall k :: 0 <= k < |LmsFrom(t, i)| ==> Lms(t, LmsFrom(t, i)[k])
    ensures Increasing(LmsFrom(t, i))
    decreases |t| - i
  {
    hide Lms;
    if i < |t| {
      LmsFromElements(t, i + 1);
      var rest := LmsFrom(t, i + 1);
      assert LmsFrom(t, i) == if Lms(t, i) then [i] + rest else rest;
    }
  }

  lemma {:induction false} LmsFromComplete(t: seq<int>, i: nat, p: int)
    requires i <= p < |t| && Lms(t, p)
    ensures p in LmsFrom(t, i)
    decreases |t| - i
  {
    hide Lms;
    if p > i {
      LmsFromComplete(t, i + 1, p);
    }
  }

  /** LMS positions are at least two apart and the last position is of type L, so the list is shorter
      than half of what is left of the text. */
  lemma {:induction false} LmsFromShort(t: seq<int>, i: nat)
    requires 0 < i <= |t|
    ensures 2 * |LmsFrom(t, i)| <= |t| - i
    decreases |t| - i
  {
    if i < |t| {
      LmsFromShort(t, i + 1);
      if Lms(t, i) {
        TypeStep(t, i);
        assert !Lms(t, i + 1);
        LmsFromShort(t, i + 2);
        assert LmsFrom(t, i + 1) == LmsFrom(t, i + 2);
      }
    }
  }

  /** The LMS positions of the text. */
  function LmsList(t: seq<int>): (r: seq<int>)
    ensures forall k :: 0 <= k < |r| ==> 0 <= r[k] < |t|
  {
    LmsFrom(t, 0)
  }

  /** The bound the in-place layout needs: twice the number of LMS positions is below the length. */
  lemma LmsListProperties(t: seq<int>)
    ensures forall k :: 0 <= k < |LmsList(t)| ==> 0 < LmsList(t)[k] < |t| - 1 && Lms(t, LmsList(t)[k])
    ensures Increasing(LmsList(t))
    ensures forall p :: 0 <= p < |t| && Lms(t, p) ==> p in LmsList(t)
    ensures |t| > 0 ==> 2 * |LmsList(t)| < |t|
  {
    hide LmsFrom, Less;
    LmsFromElements(t, 0);
    forall p | 0 <= p < |t| && Lms(t, p) ensures p in LmsList(t) {
      LmsFromComplete(t, 0, p);
    }
    forall k | 0 <= k < |LmsList(t)| ensures 0 < LmsList(t)[k] < |t| - 1 {
      TypeStep(t, LmsList(t)[k]);
    }
    if |t| > 0 {
      assert !Lms(t, 0);
      assert LmsFrom(t, 0) == LmsFrom(t, 1) by { SkipNonLms(t, 0); }
      LmsFromShort(t, 1);
    }
  }

  lemma SkipNonLms(t: seq<int>, i: nat)
    requires i < |t| && !Lms(t, i)
    ensures LmsFrom(t, i) == LmsFrom(t, i + 1)
  {
  }

  lemma LmsFromStep(t: seq<int>, f: int)
    requires 0 <= f <= |t|
    ensures f == |t| ==> LmsFrom(t, f) == []
    ensures f < |t| && Lms(t, f) ==> LmsFrom(t, f) == [f] + LmsFrom(t, f + 1)
    ensures f < |t| && !Lms(t, f) ==> LmsFrom(t, f) == LmsFrom(t, f + 1)
  {
    hide Lms;
  }

  /** The state of the LMS-substring iterator after position i: the character there and whether the
      position is of type S, with the last position's L type as its beginning. */
  ghost predicate IteratorAt(t: seq<int>, i: int, c0: int, isTypeS: bool) {
    && 0 <= i <= |t|
    && (i < |t| ==> c0 == t[i] && isTypeS == SType(t, i))
    && (i == |t| ==> c0 == 0 && !isTypeS)
  }

  /** One step of the iterator: it fires at i exactly when i + 1 is an LMS position. */
  lemma IteratorStep(t: seq<int>, i: int, c1: int, isTypeS: bool)
    requires 0 <= i < |t| && t[i] >= 0 && IteratorAt(t, i + 1, c1, isTypeS)
    ensures var c0 := t[i];
            && (c0 > c1 && isTypeS <==> i + 1 < |t| && Lms(t, i + 1))
            && IteratorAt(t, i, c0, if c0 < c1 then true else if c0 > c1 && isTypeS then false else isTypeS)
  {
    TypeStep(t, i);
  }
}
