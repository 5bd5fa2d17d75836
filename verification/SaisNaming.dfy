/** Naming the LMS-substrings: their lengths or packed characters, dense identifiers in substring order,
    and the reduced text on which the algorithm calls itself. */
module SaisNaming {
  import opened Suffixes
  import opened SaisTypes
  import opened SaisOrder
  import opened SaisBuckets

  const WORD: int := 0x1_0000_0000

  function ToInt32(u: int): int {
    if u >= 0x8000_0000 then u - WORD else u
  }

  function ToUint32(x: int): int {
    if x < 0 then x + WORD else x
  }

  // ----- LMS-substrings -----

  function NextLms(t: seq<int>, i: int): (e: int)
    requires 0 < i <= |t|
    ensures i <= e <= |t|
    decreases |t| - i
  {
    if i == |t| || Lms(t, i) then i else NextLms(t, i + 1)
  }

  lemma {:induction false} EndNIsNext(t: seq<int>, i: int)
    requires 0 < i <= |t| && !SType(t, i - 1)
    ensures EndN(t, i) == NextLms(t, i)
    decreases |t| - i
  {
    if i < |t| && !SType(t, i) {
      EndNIsNext(t, i + 1);
    }
  }

  /** An LMS-substring ends at the next LMS position. */
  lemma {:induction false} EndFIsNext(t: seq<int>, i: int)
    requires 0 <= i < |t|
    ensures EndF(t, i) == NextLms(t, i + 1)
    decreases |t| - i
  {
    TypeStep(t, i);
    if SType(t, i) {
      assert !Lms(t, i + 1);
      EndFIsNext(t, i + 1);
    } else {
      EndNIsNext(t, i + 1);
    }
  }

  /** A complete LMS-substring has at least three characters and ends in a descent. */
  lemma {:induction false} SubstringShape(t: seq<int>, a: int)
    requires 0 <= a < |t| && EndF(t, a) < |t|
    ensures !SType(t, EndF(t, a) - 1)
    ensures SType(t, a) ==> EndF(t, a) - a >= 2
    decreases |t| - a
  {
    TypeStep(t, a);
    if SType(t, a) {
      SubstringShape(t, a + 1);
    } else {
      EndNDescends(t, a + 1);
    }
  }

  lemma {:induction false} EndNDescends(t: seq<int>, i: int)
    requires 0 < i <= |t| && !SType(t, i - 1)
    ensures EndN(t, i) > 0 && !SType(t, EndN(t, i) - 1)
    decreases |t| - i
  {
    if i < |t| && !SType(t, i) {
      EndNDescends(t, i + 1);
    }
  }

  /** A type-S position cannot carry the greatest character. */
  lemma {:induction false} TypeSNotGreatest(t: seq<int>, i: int, textMax: nat)
    requires 0 <= i < |t| && SType(t, i) && InAlphabet(t, textMax)
    ensures t[i] < textMax - 1
    decreases |t| - i
  {
    TypeStep(t, i);
    if t[i] == t[i + 1] {
      TypeSNotGreatest(t, i + 1, textMax);
    }
  }

  // ----- Equal characters are equal substrings -----

  ghost predicate SameStretch(t: seq<int>, a: int, b: int, len: int) {
    && 0 <= a && 0 <= b && 0 <= len && a + len < |t| && b + len < |t|
    && forall d :: 0 <= d <= len ==> SameAt(t, a, b, d)
  }

  predicate SameAt(t: seq<int>, a: int, b: int, d: int) {
    0 <= a + d < |t| && 0 <= b + d < |t| && t[a + d] == t[b + d]
  }

  lemma StretchTail(t: seq<int>, a: int, b: int, len: int)
    requires SameStretch(t, a, b, len) && len > 0
    ensures SameStretch(t, a + 1, b + 1, len - 1)
  {
    var a', b' := a + 1, b + 1;
    forall d | 0 <= d <= len - 1 ensures SameAt(t, a', b', d) {
      assert SameAt(t, a, b, d + 1);
    }
  }

  ghost predicate SameTypes(t: seq<int>, a: int, b: int, len: int) {
    forall d :: 0 <= d <= len ==> SameTypeAt(t, a, b, d)
  }

  lemma TypesTail(t: seq<int>, a: int, b: int, len: int)
    requires SameTypes(t, a, b, len) && len > 0
    ensures SameTypes(t, a + 1, b + 1, len - 1)
  {
    hide SType;
    var a', b' := a + 1, b + 1;
    forall d | 0 <= d <= len - 1 ensures SameTypeAt(t, a', b', d) {
      assert SameTypeAt(t, a, b, d + 1);
    }
  }

  predicate SameTypeAt(t: seq<int>, a: int, b: int, d: int) {
    0 <= a + d < |t| && 0 <= b + d < |t| && SType(t, a + d) == SType(t, b + d)
  }

  /** From the final descent backwards, equal characters have equal types. */
  lemma {:induction false} TypesFromEnd(t: seq<int>, a: int, b: int, len: int, d: int)
    requires SameStretch(t, a, b, len) && 0 <= d < len
    requires !SType(t, a + len - 1) && !SType(t, b + len - 1)
    ensures SameTypeAt(t, a, b, d)
    decreases len - d
  {
    hide Less;
    if d < len - 1 {
      TypesFromEnd(t, a, b, len, d + 1);
      assert SameAt(t, a, b, d) && SameAt(t, a, b, d + 1);
      TypeStep(t, a + d);
      TypeStep(t, b + d);
    }
  }

  lemma {:induction false} NSameFrom(t: seq<int>, a: int, b: int, len: int)
    requires SameStretch(t, a, b, len)
    requires SameTypes(t, a, b, len)
    requires EndN(t, a) == a + len
    ensures NSame(t, a, b)
    decreases len
  {
    hide SType;
    assert SameAt(t, a, b, 0) && SameTypeAt(t, a, b, 0);
    if !SType(t, a) {
      StretchTail(t, a, b, len);
      TypesTail(t, a, b, len);
      NSameFrom(t, a + 1, b + 1, len - 1);
    }
  }

  lemma {:induction false} FSameFrom(t: seq<int>, a: int, b: int, len: int)
    requires SameStretch(t, a, b, len)
    requires SameTypes(t, a, b, len)
    requires EndF(t, a) == a + len
    ensures FSame(t, a, b)
    decreases len
  {
    hide SType, NSame;
    assert SameAt(t, a, b, 0) && SameTypeAt(t, a, b, 0);
    StretchTail(t, a, b, len);
    TypesTail(t, a, b, len);
    if SType(t, a) {
      FSameFrom(t, a + 1, b + 1, len - 1);
    } else {
      NSameFrom(t, a + 1, b + 1, len - 1);
    }
  }

  lemma EndsMatch(t: seq<int>, a: int, b: int, len: int)
    requires 0 <= a < |t| && 0 <= b < |t| && EndF(t, a) == a + len < |t| && EndF(t, b) == b + len < |t|
    ensures SameTypeAt(t, a, b, len)
  {
  }

  /** Two complete LMS-substrings of one length are equal when their characters are. */
  lemma EqualCharsFSame(t: seq<int>, a: int, b: int)
    requires 0 <= a < |t| && 0 <= b < |t| && SType(t, a) && SType(t, b)
    requires EndF(t, a) < |t| && EndF(t, b) < |t| && EndF(t, a) - a == EndF(t, b) - b
    requires SameStretch(t, a, b, EndF(t, a) - a)
    ensures FSame(t, a, b)
  {
    hide Less, FSame, SType, EndF, SameStretch;
    var len := EndF(t, a) - a;
    SubstringShape(t, a);
    SubstringShape(t, b);
    forall d | 0 <= d <= len ensures SameTypeAt(t, a, b, d) {
      if d < len {
        TypesFromEnd(t, a, b, len, d);
      } else {
        EndsMatch(t, a, b, len);
      }
    }
    FSameFrom(t, a, b, len);
  }

  lemma {:induction false} NSameChars(t: seq<int>, a: int, b: int, d: int)
    requires 0 <= a <= |t| && 0 <= b <= |t| && NSame(t, a, b) && a != b && 0 <= d <= EndN(t, a) - a && EndN(t, a) < |t|
    ensures SameAt(t, a, b, d)
    decreases d
  {
    hide SType;
    if d > 0 {
      NSameChars(t, a + 1, b + 1, d - 1);
    }
  }

  /** Equal LMS-substrings have equal characters. */
  lemma {:induction false} FSameChars(t: seq<int>, a: int, b: int, d: int)
    requires 0 <= a < |t| && 0 <= b < |t| && FSame(t, a, b) && a != b && 0 <= d <= EndF(t, a) - a && EndF(t, a) < |t|
    ensures SameAt(t, a, b, d)
    decreases d
  {
    hide SType, NSame;
    if d > 0 {
      if SType(t, a) {
        assert a + 1 < |t| && b + 1 < |t| by { FSameInside(t, a, b); }
        FSameChars(t, a + 1, b + 1, d - 1);
      } else {
        NSameChars(t, a + 1, b + 1, d - 1);
      }
    }
  }

  lemma FSameInside(t: seq<int>, a: int, b: int)
    requires 0 <= a < |t| && 0 <= b < |t| && FSame(t, a, b) && SType(t, a)
    ensures a + 1 < |t| && b + 1 < |t| && SType(t, b)
  {
    TypeStep(t, a);
    TypeStep(t, b);
  }

  lemma {:induction false} NFinalDiffers(t: seq<int>, i: int, j: int)
    requires 0 <= i <= |t| && 0 <= j <= |t| && i != j && EndN(t, i) == |t|
    ensures !NSame(t, i, j)
    decreases |t| - i
  {
    hide SType;
    if i < |t| && j < |t| {
      NFinalDiffers(t, i + 1, j + 1);
    }
  }

  /** The LMS-substring that reaches the sentinel equals no other. */
  lemma {:induction false} FinalDiffers(t: seq<int>, a: int, b: int)
    requires 0 <= a < |t| && 0 <= b < |t| && a != b && EndF(t, a) == |t|
    ensures !FSame(t, a, b)
    decreases |t| - a
  {
    hide NSame;
    TypeStep(t, a);
    if SType(t, a) && b + 1 < |t| {
      FinalDiffers(t, a + 1, b + 1);
    } else if !SType(t, a) {
      NFinalDiffers(t, a + 1, b + 1);
    }
  }

  /** Only one LMS-substring reaches the sentinel. */
  lemma FinalUnique(t: seq<int>, a: int, b: int)
    requires 0 <= a < b < |t| && Lms(t, b)
    ensures EndF(t, a) < |t|
  {
    hide Less;
    EndFIsNext(t, a);
    NextLmsLeast(t, a + 1, b);
  }

  lemma {:induction false} NextLmsLeast(t: seq<int>, i: int, b: int)
    requires 0 < i <= b < |t| && Lms(t, b)
    ensures NextLms(t, i) <= b
    decreases b - i
  {
    if i < b {
      NextLmsLeast(t, i + 1, b);
    }
  }

  // ----- Codes -----

  /** A character incremented as a byte. */
  function Inc(x: int): (y: int)
    ensures 0 <= y < 256
  {
    (x + 1) % 256
  }

  /** The characters from k to e packed into a word, each incremented as a byte, the last one on top. */
  function Cx(t: seq<int>, k: int, e: int): (x: int)
    requires 0 <= k <= e < |t|
    ensures 0 <= x < WORD
    decreases e - k
  {
    if k == e then Inc(t[e]) else (Cx(t, k + 1, e) * 256 + Inc(t[k])) % WORD
  }

  /** What length_8_32 records for the LMS-substring at j: zero for the final one, else its length, or,
      if the length is at most four and the inverted packing cannot be mistaken for a length, that. */
  function Code(t: seq<int>, j: int, bytes: bool): int
    requires 0 <= j < |t|
  {
    var e := EndF(t, j);
    if e == |t| then 0
    else if bytes && e + 1 - j <= 4 && WORD - 1 - Cx(t, j, e) >= |t| then ToInt32(WORD - 1 - Cx(t, j, e))
    else e + 1 - j
  }

  lemma {:induction false} CxSmall(t: seq<int>, k: int, e: int, bound: int)
    requires 0 <= k <= e < |t| && e - k <= 3 && bound == (if e == k then 0x100 else if e == k + 1 then 0x10000 else if e == k + 2 then 0x1000000 else WORD)
    ensures Cx(t, k, e) < bound
    ensures k < e ==> Cx(t, k, e) == Cx(t, k + 1, e) * 256 + Inc(t[k])
    decreases e - k
  {
    hide Inc;
    if k < e {
      CxSmall(t, k + 1, e, bound / 256);
    }
  }

  /** A three- or four-character packing. */
  lemma CxValue(t: seq<int>, a: int, e: int)
    requires 0 <= a && (e == a + 2 || e == a + 3) && e < |t|
    ensures Cx(t, a, e) == Inc(t[a]) + 256 * Inc(t[a + 1]) + 0x10000 * Inc(t[a + 2])
                           + 0x1000000 * (if e == a + 3 then Inc(t[a + 3]) else 0)
  {
    hide Inc, Cx;
    CxSmall(t, e - 1, e, 0x10000);
    CxSmall(t, e - 2, e, 0x1000000);
    assert Cx(t, e, e) == Inc(t[e]) by { CxLast(t, e); }
    if e == a + 3 {
      CxSmall(t, e - 3, e, WORD);
    }
  }

  lemma CxLast(t: seq<int>, e: int)
    requires 0 <= e < |t|
    ensures Cx(t, e, e) == Inc(t[e])
  {
  }

  lemma IncInjective(x: int, y: int)
    requires 0 <= x < 256 && 0 <= y < 256 && Inc(x) == Inc(y)
    ensures x == y
  {
  }

  lemma IncPositive(x: int)
    requires 0 <= x < 255
    ensures Inc(x) > 0
  {
  }

  lemma DigitsUnique(a0: int, a1: int, a2: int, a3: int, b0: int, b1: int, b2: int, b3: int)
    requires 0 <= a0 < 256 && 0 <= a1 < 256 && 0 <= a2 < 256 && 0 <= a3 < 256
    requires 0 <= b0 < 256 && 0 <= b1 < 256 && 0 <= b2 < 256 && 0 <= b3 < 256
    requires a0 + 256 * a1 + 0x10000 * a2 + 0x1000000 * a3 == b0 + 256 * b1 + 0x10000 * b2 + 0x1000000 * b3
    ensures a0 == b0 && a1 == b1 && a2 == b2 && a3 == b3
  {
  }

  /** Equal packings are packings of equal characters: an LMS-substring ends below 0xff, so the byte on
      top is not zero and fixes the length. */
  lemma CxInjective(t: seq<int>, a: int, e: int, b: int, f: int)
    requires 0 <= a && (e == a + 2 || e == a + 3) && e < |t| && InAlphabet(t, 256)
    requires 0 <= b && (f == b + 2 || f == b + 3) && f < |t|
    requires t[e] < 255 && t[f] < 255 && Cx(t, a, e) == Cx(t, b, f)
    ensures e - a == f - b && SameStretch(t, a, b, e - a)
  {
    hide Inc, Cx;
    CxValue(t, a, e);
    CxValue(t, b, f);
    IncPositive(t[e]);
    IncPositive(t[f]);
    DigitsUnique(Inc(t[a]), Inc(t[a + 1]), Inc(t[a + 2]), if e == a + 3 then Inc(t[a + 3]) else 0,
                 Inc(t[b]), Inc(t[b + 1]), Inc(t[b + 2]), if f == b + 3 then Inc(t[b + 3]) else 0);
    assert e - a == f - b;
    forall d | 0 <= d <= e - a ensures SameAt(t, a, b, d) {
      assert d == 0 || d == 1 || d == 2 || d == 3;
      IncInjective(t[a + d], t[b + d]);
    }
  }

  predicate Plain(t: seq<int>, code: int) {
    ToUint32(code) < |t|
  }

  /** Reading a code back: it is zero for the final substring, a length below |t|, or a packing. */
  lemma CodeKinds(t: seq<int>, j: int, bytes: bool)
    requires 0 <= j < |t| && Lms(t, j) && |t| < 0x8000_0000 && (bytes ==> InAlphabet(t, 256))
    ensures Code(t, j, bytes) != -1
    ensures EndF(t, j) == |t| ==> Code(t, j, bytes) == 0 && Plain(t, 0)
    ensures EndF(t, j) < |t| ==> EndF(t, j) - j >= 2
    ensures EndF(t, j) < |t| && Plain(t, Code(t, j, bytes)) ==> Code(t, j, bytes) == EndF(t, j) + 1 - j
    ensures !Plain(t, Code(t, j, bytes)) ==>
              var e := EndF(t, j);
              && e < |t| && (e == j + 2 || e == j + 3) && bytes && InAlphabet(t, 256) && t[e] < 255
              && Code(t, j, bytes) == ToInt32(WORD - 1 - Cx(t, j, e))
  {
    hide Less, EndF, Cx;
    var e := EndF(t, j);
    if e < |t| {
      SubstringShape(t, j);
      if bytes && e + 1 - j <= 4 {
        TypeSNotGreatest(t, e, 256);
        CxPositive(t, j, e);
      }
    }
  }

  lemma CxPositive(t: seq<int>, a: int, e: int)
    requires 0 <= a && (e == a + 2 || e == a + 3) && e < |t| && InAlphabet(t, 256) && t[e] < 255
    ensures Cx(t, a, e) > 0
  {
    hide Inc, Cx;
    CxValue(t, a, e);
    IncPositive(t[e]);
  }

  /** The comparison assignID makes decides exactly whether the substrings are equal. */
  lemma CodesDecide(t: seq<int>, a: int, b: int, bytes: bool)
    requires 0 <= a < |t| && 0 <= b < |t| && Lms(t, a) && Lms(t, b) && a != b
    requires |t| < 0x8000_0000 && (bytes ==> InAlphabet(t, 256))
    ensures Code(t, a, bytes) != Code(t, b, bytes) ==> !FSame(t, a, b)
    ensures Code(t, a, bytes) == Code(t, b, bytes) && !Plain(t, Code(t, a, bytes)) ==> FSame(t, a, b)
    ensures Code(t, a, bytes) == Code(t, b, bytes) && Plain(t, Code(t, a, bytes)) ==>
              var n := Code(t, a, bytes);
              && n >= 3 && a + n <= |t| && b + n <= |t|
              && (FSame(t, a, b) <==> SameStretch(t, a, b, n - 1))
  {
    hide Less, EndF, Cx, FSame, SType, Code;
    CodeKinds(t, a, bytes);
    CodeKinds(t, b, bytes);
    if EndF(t, a) == |t| || EndF(t, b) == |t| {
      OneFinal(t, a, b);
      FSameEquivalence(t, a, b, a);
      FSameEquivalence(t, b, a, b);
    } else {
      CodesDecideInside(t, a, b, bytes);
    }
  }

  lemma OneFinal(t: seq<int>, a: int, b: int)
    requires 0 <= a < |t| && 0 <= b < |t| && Lms(t, a) && Lms(t, b) && a != b
    requires EndF(t, a) == |t| || EndF(t, b) == |t|
    ensures EndF(t, a) == |t| ==> EndF(t, b) < |t| && !FSame(t, a, b)
    ensures EndF(t, b) == |t| ==> EndF(t, a) < |t| && !FSame(t, b, a)
  {
    hide Less, EndF, FSame, SType;
    if EndF(t, a) == |t| {
      FinalDiffers(t, a, b);
    }
    if EndF(t, b) == |t| {
      FinalDiffers(t, b, a);
    }
    if EndF(t, a) == |t| && EndF(t, b) == |t| {
      if a < b {
        FinalUnique(t, a, b);
      } else {
        FinalUnique(t, b, a);
      }
    }
  }

  lemma CodesDecideInside(t: seq<int>, a: int, b: int, bytes: bool)
    requires 0 <= a < |t| && 0 <= b < |t| && Lms(t, a) && Lms(t, b) && a != b
    requires |t| < 0x8000_0000 && (bytes ==> InAlphabet(t, 256)) && EndF(t, a) < |t| && EndF(t, b) < |t|
    ensures Code(t, a, bytes) != Code(t, b, bytes) ==> !FSame(t, a, b)
    ensures Code(t, a, bytes) == Code(t, b, bytes) && !Plain(t, Code(t, a, bytes)) ==> FSame(t, a, b)
    ensures Code(t, a, bytes) == Code(t, b, bytes) && Plain(t, Code(t, a, bytes)) ==>
              (FSame(t, a, b) <==> SameStretch(t, a, b, Code(t, a, bytes) - 1))
  {
    hide Less, EndF, Cx, FSame, SType;
    CodeKinds(t, a, bytes);
    CodeKinds(t, b, bytes);
    var e, f := EndF(t, a), EndF(t, b);
    if FSame(t, a, b) {
      FSameDefers(t, a, b);
      forall d | 0 <= d <= e - a ensures SameAt(t, a, b, d) {
        FSameChars(t, a, b, d);
      }
      SameCodes(t, a, b, bytes);
    } else if e - a == f - b && SameStretch(t, a, b, e - a) {
      EqualCharsFSame(t, a, b);
    } else if Code(t, a, bytes) == Code(t, b, bytes) && !Plain(t, Code(t, a, bytes)) {
      assert ToUint32(ToInt32(WORD - 1 - Cx(t, a, e))) == WORD - 1 - Cx(t, a, e);
      CxInjective(t, a, e, b, f);
    }
  }

  lemma {:induction false} SameCx(t: seq<int>, a: int, b: int, len: int)
    requires SameStretch(t, a, b, len)
    ensures Cx(t, a, a + len) == Cx(t, b, b + len)
    decreases len
  {
    assert SameAt(t, a, b, 0);
    if len > 0 {
      StretchTail(t, a, b, len);
      SameCx(t, a + 1, b + 1, len - 1);
    }
  }

  lemma SameCodes(t: seq<int>, a: int, b: int, bytes: bool)
    requires 0 <= a < |t| && 0 <= b < |t| && EndF(t, a) < |t| && EndF(t, b) < |t|
    requires EndF(t, a) - a == EndF(t, b) - b && SameStretch(t, a, b, EndF(t, a) - a)
    ensures Code(t, a, bytes) == Code(t, b, bytes)
  {
    SameCx(t, a, b, EndF(t, a) - a);
  }
}
