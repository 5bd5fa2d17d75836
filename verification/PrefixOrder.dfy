/** Suffix order on the first k characters, which prefix doubling refines until it is the whole order. */
module PrefixOrder {
  import opened Suffixes

  /** Suffix a is smaller than suffix b within their first k characters, a sentinel below every
      character standing behind the text. */
  predicate LessUpTo(t: seq<int>, a: int, b: int, k: nat)
    requires 0 <= a <= |t| && 0 <= b <= |t|
    decreases k
  {
    && k > 0 && b < |t|
    && (a == |t| || t[a] < t[b] || (t[a] == t[b] && LessUpTo(t, a + 1, b + 1, k - 1)))
  }

  /** Suffixes a and b agree on their first k characters, or have both ended. */
  predicate SameUpTo(t: seq<int>, a: int, b: int, k: nat)
    requires 0 <= a <= |t| && 0 <= b <= |t|
    decreases k
  {
    || k == 0
    || (a == |t| && b == |t|)
    || (a < |t| && b < |t| && t[a] == t[b] && SameUpTo(t, a + 1, b + 1, k - 1))
  }

  /** Exactly one of smaller, same and greater holds. */
  lemma {:induction false} Trichotomy(t: seq<int>, a: int, b: int, k: nat)
    requires 0 <= a <= |t| && 0 <= b <= |t|
    ensures SameUpTo(t, a, b, k) <==> !LessUpTo(t, a, b, k) && !LessUpTo(t, b, a, k)
    ensures !(LessUpTo(t, a, b, k) && LessUpTo(t, b, a, k))
    decreases k
  {
    if k > 0 && a < |t| && b < |t| && t[a] == t[b] {
      Trichotomy(t, a + 1, b + 1, k - 1);
    }
  }

  lemma {:induction false} SameReflexive(t: seq<int>, a: int, k: nat)
    requires 0 <= a <= |t|
    ensures SameUpTo(t, a, a, k)
    decreases k
  {
    if k > 0 && a < |t| {
      SameReflexive(t, a + 1, k - 1);
    }
  }

  /** Neither order has gaps: being no greater is transitive, strictly if one of the steps is strict. */
  lemma {:induction false} UpToTransitive(t: seq<int>, a: int, b: int, c: int, k: nat)
    requires 0 <= a <= |t| && 0 <= b <= |t| && 0 <= c <= |t|
    requires !LessUpTo(t, b, a, k) && !LessUpTo(t, c, b, k)
    ensures !LessUpTo(t, c, a, k)
    ensures SameUpTo(t, a, c, k) <==> SameUpTo(t, a, b, k) && SameUpTo(t, b, c, k)
    decreases k
  {
    if k > 0 && a < |t| && b < |t| && c < |t| && t[a] == t[b] == t[c] {
      UpToTransitive(t, a + 1, b + 1, c + 1, k - 1);
    }
  }

  /** Once the prefixes are as long as the suffixes, the order is the suffix order. */
  lemma {:induction false} UpToWhole(t: seq<int>, a: int, b: int, k: nat)
    requires 0 <= a <= |t| && 0 <= b <= |t|
    requires k > |t| - a || k > |t| - b
    ensures LessUpTo(t, a, b, k) <==> Less(t, a, b)
    decreases k
  {
    if a < |t| && b < |t| && t[a] == t[b] {
      UpToWhole(t, a + 1, b + 1, k - 1);
    }
  }

  function Capped(t: seq<int>, i: int): int {
    if i <= |t| then i else |t|
  }

  /** Comparing h + g characters is comparing h and then the g behind them. */
  lemma {:induction false} Doubling(t: seq<int>, a: int, b: int, h: nat, g: nat)
    requires 0 <= a <= |t| && 0 <= b <= |t|
    ensures LessUpTo(t, a, b, h + g) <==>
            LessUpTo(t, a, b, h) || (SameUpTo(t, a, b, h) && LessUpTo(t, Capped(t, a + h), Capped(t, b + h), g))
    ensures SameUpTo(t, a, b, h + g) <==>
            SameUpTo(t, a, b, h) && SameUpTo(t, Capped(t, a + h), Capped(t, b + h), g)
    decreases h
  {
    if h > 0 && a < |t| && b < |t| && t[a] == t[b] {
      Doubling(t, a + 1, b + 1, h - 1, g);
    } else if h > 0 && a == |t| && b == |t| {
      SameReflexive(t, |t|, g);
      assert !LessUpTo(t, |t|, |t|, g);
    }
  }
}
