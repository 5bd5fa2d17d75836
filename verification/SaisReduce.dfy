/** From sorted LMS-substrings to the reduced text and back: length, assignID, map and unmap, all inside
    the one array, and the theorem that the reduced text orders the LMS suffixes. */
module SaisReduce {
  import opened Suffixes
  import opened SaisTypes
  import opened SaisOrder
  import opened SaisBuckets
  import opened SaisNaming

  // ----- The sorted substrings and their names -----

  /** ls lists the LMS positions once each, in the order of their substrings. */
  ghost predicate SubSorted(t: seq<int>, ls: seq<int>) {
    && (forall k :: 0 <= k < |ls| ==> 0 < ls[k] < |t| && Lms(t, ls[k]))
    && (forall p :: 0 <= p < |t| && Lms(t, p) ==> p in ls)
    && (forall k, l :: 0 <= k < l < |ls| ==> 0 <= ls[k] <= |t| && 0 <= ls[l] <= |t| && FLt(t, ls[k], ls[l]))
  }

  lemma SubSortedAt(t: seq<int>, ls: seq<int>, k: nat, l: nat)
    requires SubSorted(t, ls) && k < |ls| && l < |ls|
    ensures 0 < ls[k] < |t| && Lms(t, ls[k]) && 0 < ls[l] < |t| && Lms(t, ls[l])
    ensures k < l ==> FLt(t, ls[k], ls[l]) && ls[k] != ls[l]
  {
    hide Less, Lms, FLt;
    if k < l {
      FTotal(t, ls[k], ls[l]);
    }
  }

  /** The identifier of the k-th substring: one more than the number of changes before it. */
  ghost function NameAt(t: seq<int>, ls: seq<int>, k: nat): (id: nat)
    requires SubSorted(t, ls) && k < |ls|
    ensures 1 <= id <= k + 1
  {
    if k == 0 then 1
    else
      SubSortedAt(t, ls, k - 1, k);
      NameAt(t, ls, k - 1) + if FSame(t, ls[k - 1], ls[k]) then 0 else 1
  }

  /** Identifiers respect string order and equality. */
  lemma {:induction false} NamesOrder(t: seq<int>, ls: seq<int>, k: nat, l: nat)
    requires SubSorted(t, ls) && k < l < |ls|
    ensures 0 < ls[k] < |t| && 0 < ls[l] < |t|
    ensures NameAt(t, ls, k) <= NameAt(t, ls, l)
    ensures NameAt(t, ls, k) == NameAt(t, ls, l) <==> FSame(t, ls[k], ls[l])
    decreases l - k
  {
    hide Less, Lms, FLt, FSame, SubSorted;
    SubSortedAt(t, ls, k, l);
    if k < l - 1 {
      NamesOrder(t, ls, k, l - 1);
      SubSortedAt(t, ls, k, l - 1);
      SubSortedAt(t, ls, l - 1, l);
      FSameEquivalence(t, ls[k], ls[l - 1], ls[l]);
      if FSame(t, ls[k], ls[l]) {
        FSameOrder(t, ls[k], ls[l - 1], ls[l]);
        FSameEquivalence(t, ls[k], ls[l - 1], ls[l]);
        FSameEquivalence(t, ls[l - 1], ls[k], ls[l]);
      }
    }
  }

  ghost function Index(ls: seq<int>, j: int): (k: nat)
    requires j in ls
    ensures k < |ls| && ls[k] == j
  {
    if ls[0] == j then 0 else Index(ls[1..], j) + 1
  }

  ghost function Name(t: seq<int>, ls: seq<int>, j: int): (id: nat)
    requires SubSorted(t, ls) && j in ls
    ensures 1 <= id <= |ls|
  {
    NameAt(t, ls, Index(ls, j))
  }

  lemma NameOfEntry(t: seq<int>, ls: seq<int>, k: nat)
    requires SubSorted(t, ls) && k < |ls|
    ensures Name(t, ls, ls[k]) == NameAt(t, ls, k)
  {
    hide Less, Lms, FLt, SubSorted, NameAt;
    var i := Index(ls, ls[k]);
    if i < k {
      SubSortedAt(t, ls, i, k);
    } else if k < i {
      SubSortedAt(t, ls, k, i);
    }
  }

  /** A smaller identifier means a smaller suffix; equal identifiers mean equal substrings. */
  lemma NamesDecide(t: seq<int>, ls: seq<int>, a: int, b: int)
    requires SubSorted(t, ls) && a in ls && b in ls
    ensures 0 < a < |t| && 0 < b < |t|
    ensures Name(t, ls, a) < Name(t, ls, b) ==> Less(t, a, b)
    ensures a != b && Name(t, ls, a) == Name(t, ls, b) ==> FSame(t, a, b)
  {
    hide Less, Lms, FLt, FSame, SubSorted, NameAt;
    var k, l := Index(ls, a), Index(ls, b);
    SubSortedAt(t, ls, k, l);
    if k < l {
      NamesOrder(t, ls, k, l);
      if !FSame(t, a, b) {
        FLtIsLess(t, a, b);
      }
    } else if l < k {
      NamesOrder(t, ls, l, k);
      FSameEquivalence(t, b, a, b);
    }
  }

  /** The reduced text: the identifiers of the LMS-substrings in text order, counted from zero. */
  ghost function Reduced(t: seq<int>, ls: seq<int>): (r: seq<int>)
    requires SubSorted(t, ls)
    ensures |r| == |LmsList(t)|
  {
    AllListed(t, ls);
    seq(|LmsList(t)|, x requires 0 <= x < |LmsList(t)| => Name(t, ls, LmsList(t)[x]) - 1)
  }

  lemma AllListed(t: seq<int>, ls: seq<int>)
    requires SubSorted(t, ls)
    ensures forall x :: 0 <= x < |LmsList(t)| ==> LmsList(t)[x] in ls
  {
    hide Less, Lms, LmsFrom, FLt;
    LmsListProperties(t);
  }

  ghost function LmsOr(t: seq<int>, x: int): int {
    if 0 <= x < |LmsList(t)| then LmsList(t)[x] else |t|
  }

  /** The substring at one LMS position ends at the next. */
  lemma NextInList(t: seq<int>, x: nat)
    requires x < |LmsList(t)|
    ensures 0 <= LmsList(t)[x] < |t| && EndF(t, LmsList(t)[x]) == LmsOr(t, x + 1)
  {
    hide Less, Lms, LmsFrom;
    LmsListProperties(t);
    var j := LmsList(t)[x];
    EndFIsNext(t, j);
    var e := NextLms(t, j + 1);
    NextLmsIs(t, j + 1);
    if e < |t| {
      var y :| 0 <= y < |LmsList(t)| && LmsList(t)[y] == e;
      if x + 1 < y {
        NextLmsLeast(t, j + 1, LmsList(t)[x + 1]);
      }
    } else if x + 1 < |LmsList(t)| {
      NextLmsLeast(t, j + 1, LmsList(t)[x + 1]);
    }
  }

  lemma {:induction false} NextLmsIs(t: seq<int>, i: int)
    requires 0 < i <= |t|
    ensures NextLms(t, i) < |t| ==> Lms(t, NextLms(t, i))
    decreases |t| - i
  {
    if i < |t| && !Lms(t, i) {
      NextLmsIs(t, i + 1);
    }
  }

  /** Suffixes of the reduced text are ordered as the LMS suffixes they stand for. */
  lemma {:induction false} ReducedOrder(t: seq<int>, ls: seq<int>, x: nat, y: nat)
    requires SubSorted(t, ls) && x <= |LmsList(t)| && y <= |LmsList(t)|
    ensures 0 <= LmsOr(t, x) <= |t| && 0 <= LmsOr(t, y) <= |t|
    ensures Less(Reduced(t, ls), x, y) <==> Less(t, LmsOr(t, x), LmsOr(t, y))
    decreases |LmsList(t)| - x
  {
    hide Lms, LmsFrom, FLt, FSame, SubSorted, NameAt;
    var m, r := |LmsList(t)|, Reduced(t, ls);
    if x == y {
      LessIrreflexive(r, x);
      LessIrreflexive(t, LmsOr(t, x));
    } else if x < m && y < m {
      var a, b := LmsList(t)[x], LmsList(t)[y];
      AllListed(t, ls);
      NamesDecide(t, ls, a, b);
      NamesDecide(t, ls, b, a);
      LmsDistinct(t, x, y);
      LeqTotal(t, a, b);
      if r[x] == r[y] {
        ReducedOrder(t, ls, x + 1, y + 1);
        FSameDefers(t, a, b);
        NextInList(t, x);
        NextInList(t, y);
      }
    }
  }

  lemma LmsDistinct(t: seq<int>, x: nat, y: nat)
    requires x < |LmsList(t)| && y < |LmsList(t)| && x != y
    ensures LmsList(t)[x] != LmsList(t)[y]
  {
    hide Less, Lms, LmsFrom;
    LmsListProperties(t);
  }

  // ----- The lower half of the array, indexed by half positions -----

  /** The LMS position that shares slot x of the lower half, or -1: adjacent positions are never both LMS. */
  ghost function LmsAt(t: seq<int>, x: int): int {
    if 0 <= x && 2 * x < |t| && Lms(t, 2 * x) then 2 * x
    else if 0 <= x && 2 * x + 1 < |t| && Lms(t, 2 * x + 1) then 2 * x + 1
    else -1
  }

  lemma LmsAtOwn(t: seq<int>, j: int)
    requires 0 <= j < |t| && Lms(t, j)
    ensures LmsAt(t, j / 2) == j
  {
    hide Less;
    if j % 2 == 1 {
      assert !Lms(t, j - 1);
    }
  }

  /** The lower half holds a code for every LMS position from f on. */
  ghost predicate Coded(t: seq<int>, sa: seq<int>, top: int, f: int, bytes: bool) {
    && 0 <= top <= |sa| == |t|
    && forall x :: 0 <= x < top ==>
         sa[x] == if LmsAt(t, x) >= f && 0 <= LmsAt(t, x) < |t| then Code(t, LmsAt(t, x), bytes) else 0
  }

  /** The slots of the lower half lie below the packed list. */
  lemma HalfBelowTop(t: seq<int>, j: int)
    requires 0 <= j < |t| && Lms(t, j)
    ensures j / 2 < |t| - |LmsList(t)| && |t| / 2 < |t| - |LmsList(t)|
  {
    hide Less, LmsFrom;
    LmsListProperties(t);
    TypeStep(t, j);
  }

  lemma CodedStep(t: seq<int>, sa: seq<int>, top: int, j: int, bytes: bool)
    requires 0 <= j < |t| && Lms(t, j) && Coded(t, sa, top, j + 1, bytes) && j / 2 < top
    ensures Coded(t, sa[j / 2 := Code(t, j, bytes)], top, j, bytes)
  {
    hide Less, Lms, Code;
    LmsAtOwn(t, j);
    forall x | 0 <= x < top && x != j / 2 ensures LmsAt(t, x) != j {
      LmsAtHalf(t, x);
    }
  }

  lemma LmsAtHalf(t: seq<int>, x: int)
    ensures LmsAt(t, x) != -1 ==> 0 <= x && LmsAt(t, x) / 2 == x && 0 <= LmsAt(t, x) < |t| && Lms(t, LmsAt(t, x))
  {
    hide Less;
  }

  lemma CodedKept(t: seq<int>, sa: seq<int>, top: int, f: int, bytes: bool)
    requires Coded(t, sa, top, f + 1, bytes) && (0 <= f < |t| ==> !Lms(t, f))
    ensures Coded(t, sa, top, f, bytes)
  {
    hide Less, Lms, Code;
    forall x ensures LmsAt(t, x) == f ==> !(0 <= f < |t|) {
      LmsAtHalf(t, x);
    }
  }

  /** The running values of length_8_32 before position i: end is one past the next LMS position, zero
      if there is none, and cx packs the characters behind position i + 1 up to it. */
  ghost predicate Running(t: seq<int>, i: int, end: int, cx: int) {
    && -1 <= i < |t| && 0 <= cx < WORD
    && var n := if i + 2 <= |t| then NextLms(t, i + 2) else |t|;
       if end == 0 then n == |t| else n < |t| && end == n + 1 && cx == Cx(t, i + 2, n)
  }

  lemma RunningStep(t: seq<int>, i: int, end: int, cx: int, cx': int)
    requires 0 <= i < |t| && Running(t, i, end, cx) && 0 <= cx' < WORD
    requires end != 0 && i + 1 < |t| ==> cx' == (cx * 256 + Inc(t[i + 1])) % WORD
    ensures !(i + 1 < |t| && Lms(t, i + 1)) ==> Running(t, i - 1, end, cx')
    ensures i + 1 < |t| && Lms(t, i + 1) ==> Running(t, i - 1, i + 2, Inc(t[i + 1]))
    ensures i + 1 < |t| ==> EndF(t, i + 1) == (if end == 0 then |t| else end - 1)
    ensures i + 1 < |t| && end != 0 ==> end - 1 < |t| && i + 1 <= end - 1 && cx' == Cx(t, i + 1, end - 1)
  {
    hide Less, Lms, Inc, EndF;
    if i + 1 < |t| {
      EndFIsNext(t, i + 1);
    }
  }

  /** length_8_32: record the code of every LMS-substring in the lower half. */
  method Length(t: seq<int>, sa: array<int>, numLms: nat, bytes: bool)
    requires |t| >= 2 && sa.Length == |t| && numLms == |LmsList(t)| && forall i :: 0 <= i < |t| ==> t[i] >= 0
    requires forall x :: 0 <= x < |t| - numLms ==> sa[x] == 0
    modifies sa
    ensures Coded(t, sa[..], |t| - numLms, 0, bytes)
    ensures sa[|t| - numLms..] == old(sa[|t| - numLms..])
  {
    hide Less, Lms, LmsFrom, SType, Coded, Running, Code, Inc, EndF;
    LmsListProperties(t);
    ghost var top := |t| - numLms;
    ghost var list := sa[top..];
    NothingCoded(t, sa[..], top, bytes);
    var end, cx := 0, 0;
    RunningStart(t);
    var c0, isTypeS := 0, false;
    var i := |t| - 1;
    while i >= 0
      invariant -1 <= i < |t| && IteratorAt(t, i + 1, c0, isTypeS) && Running(t, i, end, cx)
      invariant Coded(t, sa[..], top, i + 2, bytes) && sa[top..] == list
    {
      IteratorStep(t, i, c0, isTypeS);
      ghost var cx0, end0 := cx, end;
      var c1 := c0;
      c0 := t[i];
      if i + 1 < |t| {
        IteratorCharacter(t, i + 1, c1, isTypeS);
      }
      assert Running(t, i, end, cx) && 0 <= cx < WORD by { RunningBounds(t, i, end, cx); }
      cx := (cx * 256 + Inc(c1)) % WORD;
      RunningStep(t, i, end0, cx0, cx);
      if c0 < c1 {
        isTypeS := true;
        CodedKept(t, sa[..], top, i + 1, bytes);
      } else if c0 > c1 && isTypeS {
        isTypeS := false;
        var j := i + 1;
        HalfBelowTop(t, j);
        var code := 0;
        if end != 0 {
          code := end - j;
          if bytes && code <= 4 && WORD - 1 - cx >= |t| {
            code := ToInt32(WORD - 1 - cx);
          }
        }
        assert code == Code(t, j, bytes) by { CodeIs(t, j, bytes, end, cx, code); }
        ghost var before := sa[..];
        sa[j / 2] := code;
        assert sa[..] == before[j / 2 := code];
        CodedStep(t, before, top, j, bytes);
        end := j + 1;
        cx := Inc(c1);
      } else {
        CodedKept(t, sa[..], top, i + 1, bytes);
      }
      i := i - 1;
    }
    CodedKept(t, sa[..], top, 0, bytes);
  }

  lemma IteratorCharacter(t: seq<int>, i: int, c0: int, isTypeS: bool)
    requires 0 <= i < |t| && IteratorAt(t, i, c0, isTypeS)
    ensures c0 == t[i]
  {
  }

  lemma RunningBounds(t: seq<int>, i: int, end: int, cx: int)
    requires Running(t, i, end, cx)
    ensures 0 <= cx < WORD
  {
  }

  lemma RunningStart(t: seq<int>)
    requires |t| >= 1
    ensures Running(t, |t| - 1, 0, 0)
  {
  }

  lemma NothingCoded(t: seq<int>, sa: seq<int>, top: int, bytes: bool)
    requires 0 <= top <= |sa| == |t| && forall x :: 0 <= x < top ==> sa[x] == 0
    ensures Coded(t, sa, top, |t| + 1, bytes)
  {
    hide Less, Code;
  }

  lemma CodeIs(t: seq<int>, j: int, bytes: bool, end: int, cx: int, code: int)
    requires 0 <= j < |t| && EndF(t, j) == (if end == 0 then |t| else end - 1)
    requires end != 0 ==> j <= end - 1 < |t| && cx == Cx(t, j, end - 1)
    requires code == if end == 0 then 0
                     else if bytes && end - j <= 4 && WORD - 1 - cx >= |t| then ToInt32(WORD - 1 - cx)
                     else end - j
    ensures code == Code(t, j, bytes)
  {
    hide EndF, Cx;
  }
}
