/** assignID, map and unmap of the in-place induced sort (internal/astrobwt/sais.go): the lower half of the
    array turns from codes into identifiers, the identifiers are packed into the reduced text, and the
    suffix array of the reduced text is turned back into LMS positions. */
module SaisAssign {
  import opened Suffixes
  import opened SaisTypes
  import opened SaisOrder
  import opened SaisBuckets
  import opened SaisNaming
  import opened SaisReduce

  // ----- assignID -----

  /** The entry of LMS position j while the first x substrings of the sorted list have been named. */
  ghost function EntryAt(t: seq<int>, ls: seq<int>, j: int, x: int, bytes: bool): int {
    if !SubSorted(t, ls) || j !in ls || !(0 <= j < |t|) then 0
    else if Index(ls, j) < x then Name(t, ls, j) else Code(t, j, bytes)
  }

  ghost predicate Assigning(t: seq<int>, ls: seq<int>, sa: seq<int>, x: int, bytes: bool) {
    && |sa| == |t| && |ls| <= |t|
    && forall y :: 0 <= y < |t| - |ls| ==> sa[y] == EntryAt(t, ls, LmsAt(t, y), x, bytes)
  }

  lemma AssigningStart(t: seq<int>, ls: seq<int>, sa: seq<int>, bytes: bool)
    requires SubSorted(t, ls) && |ls| <= |t| && Coded(t, sa, |t| - |ls|, 0, bytes)
    ensures Assigning(t, ls, sa, 0, bytes)
  {
    hide Less, Lms, Code;
    forall y | 0 <= y < |t| - |ls| ensures sa[y] == EntryAt(t, ls, LmsAt(t, y), 0, bytes) {
      LmsAtHalf(t, y);
    }
  }

  lemma IndexOfEntry(t: seq<int>, ls: seq<int>, k: nat)
    requires SubSorted(t, ls) && k < |ls|
    ensures Index(ls, ls[k]) == k
  {
    hide Less, Lms, FLt, SubSorted;
    var i := Index(ls, ls[k]);
    if i < k {
      SubSortedAt(t, ls, i, k);
    } else if k < i {
      SubSortedAt(t, ls, k, i);
    }
  }

  lemma AssigningStep(t: seq<int>, ls: seq<int>, sa: seq<int>, x: nat, bytes: bool)
    requires SubSorted(t, ls) && x < |ls| <= |t| && Assigning(t, ls, sa, x, bytes)
    requires 0 <= ls[x] / 2 < |t| - |ls|
    ensures sa[ls[x] / 2] == Code(t, ls[x], bytes)
    ensures Assigning(t, ls, sa[ls[x] / 2 := NameAt(t, ls, x)], x + 1, bytes)
  {
    hide Less, Lms, Code, FLt, NameAt, SubSorted;
    var j := ls[x];
    SubSortedAt(t, ls, x, x);
    LmsAtOwn(t, j);
    IndexOfEntry(t, ls, x);
    NameOfEntry(t, ls, x);
    var sa' := sa[j / 2 := NameAt(t, ls, x)];
    forall y | 0 <= y < |t| - |ls| ensures sa'[y] == EntryAt(t, ls, LmsAt(t, y), x + 1, bytes) {
      LmsAtHalf(t, y);
      if y != j / 2 && LmsAt(t, y) in ls {
        assert Index(ls, LmsAt(t, y)) != x;
      }
    }
  }

  /** What the loop of assignID remembers: the last identifier and a substring that carries it. */
  ghost predicate Remembers(t: seq<int>, ls: seq<int>, x: int, id: int, lastLen: int, lastPos: int, bytes: bool) {
    && SubSorted(t, ls) && 0 <= x <= |ls|
    && (x == 0 ==> id == 0 && lastLen == -1)
    && (x > 0 ==> id == NameAt(t, ls, x - 1) && 0 <= lastPos < |t| && Lms(t, lastPos)
                  && lastLen == Code(t, lastPos, bytes) && lastPos in ls[..x] && 0 <= ls[x - 1] <= |t|
                  && FSame(t, lastPos, ls[x - 1]))
  }

  lemma RememberNew(t: seq<int>, ls: seq<int>, x: nat, id: int, lastLen: int, lastPos: int, bytes: bool)
    requires Remembers(t, ls, x, id, lastLen, lastPos, bytes) && x < |ls| && 0 <= ls[x] < |t|
    requires x > 0 ==> !FSame(t, lastPos, ls[x])
    ensures Remembers(t, ls, x + 1, id + 1, Code(t, ls[x], bytes), ls[x], bytes)
  {
    hide Less, Lms, Code, FLt, FSame, SubSorted;
    SubSortedAt(t, ls, x, x);
    FSameReflexive(t, ls[x]);
    assert ls[..x + 1][x] == ls[x];
    if x > 0 {
      SubSortedAt(t, ls, x - 1, x);
      FSameEquivalence(t, lastPos, ls[x - 1], ls[x]);
    }
  }

  lemma RememberSame(t: seq<int>, ls: seq<int>, x: nat, id: int, lastLen: int, lastPos: int, bytes: bool)
    requires Remembers(t, ls, x, id, lastLen, lastPos, bytes) && 0 < x < |ls| && 0 <= ls[x] < |t|
    requires FSame(t, lastPos, ls[x])
    ensures Remembers(t, ls, x + 1, id, lastLen, lastPos, bytes) && NameAt(t, ls, x) == id
  {
    hide Less, Lms, Code, FLt, FSame, SubSorted;
    SubSortedAt(t, ls, x - 1, x);
    FSameEquivalence(t, lastPos, ls[x - 1], ls[x]);
    FSameEquivalence(t, ls[x - 1], lastPos, ls[x]);
    var k :| 0 <= k < x && ls[..x][k] == lastPos;
    assert ls[..x + 1][k] == lastPos;
  }

  lemma {:induction false} FSameReflexive(t: seq<int>, i: int)
    requires 0 <= i <= |t|
    ensures FSame(t, i, i)
    decreases |t| - i
  {
    hide Less, NSame;
    if i < |t| {
      FSameReflexive(t, i + 1);
      NSameReflexive(t, i + 1);
    }
  }

  lemma {:induction false} NSameReflexive(t: seq<int>, i: int)
    requires 0 <= i <= |t|
    ensures NSame(t, i, i)
    decreases |t| - i
  {
    hide Less;
    if i < |t| {
      NSameReflexive(t, i + 1);
    }
  }

  /** The last substring named is another one than the next in the list. */
  lemma LastDiffers(t: seq<int>, ls: seq<int>, x: nat, lastPos: int)
    requires SubSorted(t, ls) && x < |ls| && lastPos in ls[..x]
    ensures lastPos != ls[x]
  {
    hide Less, Lms, FLt, SubSorted;
    var k :| 0 <= k < x && ls[..x][k] == lastPos;
    SubSortedAt(t, ls, k, x);
  }

  /** The comparison of two stretches of n characters. */
  method SameText(t: seq<int>, this_: int, last: int, n: int) returns (same: bool)
    requires n > 0 && 0 <= this_ && 0 <= last && this_ + n <= |t| && last + n <= |t|
    ensures same <==> SameStretch(t, last, this_, n - 1)
  {
    var i := 0;
    while i < n
      invariant 0 <= i <= n && forall d :: 0 <= d < i ==> SameAt(t, last, this_, d)
    {
      if t[this_ + i] != t[last + i] {
        assert !SameAt(t, last, this_, i);
        return false;
      }
      i := i + 1;
    }
    return true;
  }

  /** Two substrings with one code: the code is all of the text, or the text is compared. */
  method SameSubstring(t: seq<int>, j: int, lastPos: int, n: int, bytes: bool) returns (same: bool)
    requires 0 <= lastPos < |t| && 0 <= j < |t| && Lms(t, lastPos) && Lms(t, j) && lastPos != j
    requires |t| < 0x8000_0000 && (bytes ==> InAlphabet(t, 256))
    requires n == Code(t, lastPos, bytes) == Code(t, j, bytes)
    ensures same <==> FSame(t, lastPos, j)
  {
    hide Less, Lms, SType, Code, EndF, FSame, Plain, SameStretch;
    CodesDecide(t, lastPos, j, bytes);
    PlainIs(t, n);
    same := true;
    if ToUint32(n) < |t| {
      same := SameText(t, j, lastPos, n);
    }
  }

  /** assignID: dense identifiers in the order of the substrings, equal exactly for equal substrings. */
  method AssignId(t: seq<int>, sa: array<int>, numLms: nat, bytes: bool, ghost ls: seq<int>) returns (maxId: nat)
    requires |t| < 0x8000_0000 && (bytes ==> InAlphabet(t, 256))
    requires sa.Length == |t| && numLms == |ls| == |LmsList(t)| <= |t| && SubSorted(t, ls) && sa[|t| - numLms..] == ls
    requires Coded(t, sa[..], |t| - numLms, 0, bytes)
    modifies sa
    ensures Assigning(t, ls, sa[..], numLms, bytes) && sa[|t| - numLms..] == ls
    ensures maxId == if numLms == 0 then 0 else NameAt(t, ls, numLms - 1)
  {
    hide Less, Lms, LmsFrom, SType, Code, EndF, FLt, FSame, Plain, SubSorted, NameAt, Coded, Assigning, SameStretch, Remembers;
    AssigningStart(t, ls, sa[..], bytes);
    RememberStart(t, ls, bytes);
    ghost var top := |t| - numLms;
    var id, lastLen, lastPos := 0, -1, 0;
    var x := 0;
    while x < numLms
      invariant 0 <= x <= numLms && Remembers(t, ls, x, id, lastLen, lastPos, bytes)
      invariant Assigning(t, ls, sa[..], x, bytes) && sa[top..] == ls
    {
      var j := sa[|t| - numLms + x];
      assert j == sa[top..][x];
      SubSortedAt(t, ls, x, x);
      HalfBelowTop(t, j);
      AssigningStep(t, ls, sa[..], x, bytes);
      CodeKinds(t, j, bytes);
      Remembered(t, ls, x, id, lastLen, lastPos, bytes);
      var n := sa[j / 2];
      var same := n == lastLen;
      if same {
        same := SameSubstring(t, j, lastPos, n, bytes);
      } else if x > 0 {
        CodesDecide(t, lastPos, j, bytes);
      }
      if same {
        RememberSame(t, ls, x, id, lastLen, lastPos, bytes);
      } else {
        RememberNew(t, ls, x, id, lastLen, lastPos, bytes);
        id := id + 1;
        lastPos := j;
        lastLen := n;
      }
      RememberedId(t, ls, x + 1, id, lastLen, lastPos, bytes);
      ghost var before := sa[..];
      sa[j / 2] := id;
      assert sa[..] == before[j / 2 := NameAt(t, ls, x)];
      assert sa[top..] == ls;
      x := x + 1;
    }
    RememberedId(t, ls, x, id, lastLen, lastPos, bytes);
    maxId := id;
  }

  lemma RememberStart(t: seq<int>, ls: seq<int>, bytes: bool)
    requires SubSorted(t, ls)
    ensures Remembers(t, ls, 0, 0, -1, 0, bytes)
  {
  }

  lemma Remembered(t: seq<int>, ls: seq<int>, x: int, id: int, lastLen: int, lastPos: int, bytes: bool)
    requires Remembers(t, ls, x, id, lastLen, lastPos, bytes) && x < |ls|
    ensures x == 0 ==> lastLen == -1
    ensures x > 0 ==> 0 <= lastPos < |t| && Lms(t, lastPos) && lastLen == Code(t, lastPos, bytes) && lastPos != ls[x]
  {
    hide Less, Code, SubSorted;
    if x > 0 {
      LastDiffers(t, ls, x, lastPos);
    }
  }

  lemma RememberedId(t: seq<int>, ls: seq<int>, x: int, id: int, lastLen: int, lastPos: int, bytes: bool)
    requires Remembers(t, ls, x, id, lastLen, lastPos, bytes)
    ensures 0 <= x <= |ls| && SubSorted(t, ls) && id >= 0
    ensures id == if x == 0 then 0 else NameAt(t, ls, x - 1)
  {
    hide Less, Code, SubSorted;
  }

  lemma PlainIs(t: seq<int>, n: int)
    ensures Plain(t, n) <==> ToUint32(n) < |t|
  {
  }

  // ----- map -----

  /** The LMS positions from f on are the end of the list. */
  lemma {:induction false} LmsFromIsEnd(t: seq<int>, f: nat)
    requires f <= |t|
    ensures |LmsFrom(t, f)| <= |LmsList(t)| && LmsFrom(t, f) == LmsList(t)[|LmsList(t)| - |LmsFrom(t, f)|..]
    decreases f
  {
    hide Lms;
    if f > 0 {
      LmsFromIsEnd(t, f - 1);
      var m := |LmsList(t)|;
      var longer := LmsFrom(t, f - 1);
      assert longer == (if Lms(t, f - 1) then [f - 1] else []) + LmsFrom(t, f);
      if Lms(t, f - 1) {
        assert LmsFrom(t, f) == longer[1..] == LmsList(t)[m - |longer|..][1..];
      }
    }
  }

  function Clamp(t: seq<int>, f: nat): (r: nat)
    ensures r <= |t|
  {
    if f <= |t| then f else |t|
  }

  /** A slot of the lower half covers two positions, at most one of them LMS. */
  lemma SlotStep(t: seq<int>, i: nat)
    ensures LmsFrom(t, Clamp(t, 2 * i)) == (if LmsAt(t, i) == -1 then [] else [LmsAt(t, i)]) + LmsFrom(t, Clamp(t, 2 * i + 2))
  {
    hide Less, Lms;
    if 2 * i + 1 < |t| {
      assert LmsFrom(t, 2 * i) == (if Lms(t, 2 * i) then [2 * i] else []) + LmsFrom(t, 2 * i + 1);
      assert LmsFrom(t, 2 * i + 1) == (if Lms(t, 2 * i + 1) then [2 * i + 1] else []) + LmsFrom(t, 2 * i + 2);
      NotBothLms(t, 2 * i);
    } else if 2 * i + 1 == |t| {
      assert LmsFrom(t, 2 * i) == (if Lms(t, 2 * i) then [2 * i] else []) + LmsFrom(t, 2 * i + 1);
    }
  }

  lemma NotBothLms(t: seq<int>, i: nat)
    requires i + 1 < |t|
    ensures !(Lms(t, i) && Lms(t, i + 1))
  {
    hide Less;
  }

  /** map under way: identifiers of the positions from 2i on are packed at the top. */
  ghost predicate Mapping(t: seq<int>, ls: seq<int>, sa: seq<int>, i: nat, w: int, bytes: bool) {
    && SubSorted(t, ls) && |ls| == |LmsList(t)|
    && var c := |LmsFrom(t, Clamp(t, 2 * i))|;
       && c <= |ls| && c <= |sa| && w == |sa| - c && sa[w..] == Reduced(t, ls)[|ls| - c..]
       && Assigning(t, ls, sa, |ls|, bytes)
  }

  lemma MappingStart(t: seq<int>, ls: seq<int>, sa: seq<int>, bytes: bool)
    requires SubSorted(t, ls) && |ls| == |LmsList(t)| && Assigning(t, ls, sa, |ls|, bytes)
    ensures Mapping(t, ls, sa, |t| / 2 + 1, |t|, bytes)
  {
    hide Less, Lms, SubSorted, Assigning, Reduced;
    assert Clamp(t, 2 * (|t| / 2 + 1)) == |t|;
    assert LmsFrom(t, |t|) == [];
    assert |sa| == |t| by { AssigningLength(t, ls, sa, |ls|, bytes); }
  }

  lemma AssigningLength(t: seq<int>, ls: seq<int>, sa: seq<int>, x: int, bytes: bool)
    requires Assigning(t, ls, sa, x, bytes)
    ensures |sa| == |t| && |ls| <= |t|
  {
  }

  lemma MappingStep(t: seq<int>, ls: seq<int>, sa: seq<int>, i: nat, w: int, bytes: bool)
    requires Mapping(t, ls, sa, i + 1, w, bytes) && i < |t| - |ls| && |sa| == |t|
    ensures sa[i] <= 0 ==> Mapping(t, ls, sa, i, w, bytes)
    ensures sa[i] > 0 ==> |t| - |ls| < w <= |t| && Mapping(t, ls, sa[w - 1 := sa[i] - 1], i, w - 1, bytes)
  {
    hide Less, Lms, LmsFrom, SubSorted, Name, Assigning, LmsAt, Reduced, Clamp;
    SlotStep(t, i);
    LmsFromIsEnd(t, Clamp(t, 2 * i));
    var c := |LmsFrom(t, Clamp(t, 2 * i + 2))|;
    var m, r := |ls|, Reduced(t, ls);
    assert 2 * (i + 1) == 2 * i + 2;
    IdentifierAt(t, ls, sa, i, bytes);
    if LmsAt(t, i) != -1 {
      assert LmsList(t)[m - c - 1] == LmsFrom(t, Clamp(t, 2 * i))[0] == LmsAt(t, i);
      assert r[m - c - 1] == sa[i] - 1 by { ReducedAt(t, ls, m - c - 1); }
      GrowDown(sa, w, r, m - c, sa[i] - 1);
      AssigningTop(t, ls, sa, sa[w - 1 := sa[i] - 1], bytes);
    }
  }

  lemma ReducedAt(t: seq<int>, ls: seq<int>, x: nat)
    requires SubSorted(t, ls) && x < |LmsList(t)| && LmsList(t)[x] in ls
    ensures Reduced(t, ls)[x] == Name(t, ls, LmsList(t)[x]) - 1
  {
    hide Less, Lms, LmsFrom, SubSorted, Name;
  }

  lemma GrowDown(sa: seq<int>, w: nat, r: seq<int>, k: nat, x: int)
    requires 0 < w <= |sa| && 0 < k <= |r| && sa[w..] == r[k..] && r[k - 1] == x
    ensures sa[w - 1 := x][w - 1..] == r[k - 1..]
  {
    assert sa[w - 1 := x][w - 1..] == [x] + sa[w..];
  }

  lemma IdentifierAt(t: seq<int>, ls: seq<int>, sa: seq<int>, i: nat, bytes: bool)
    requires SubSorted(t, ls) && Assigning(t, ls, sa, |ls|, bytes) && i < |t| - |ls| && |sa| == |t|
    ensures LmsAt(t, i) == -1 ==> sa[i] == 0
    ensures LmsAt(t, i) != -1 ==> LmsAt(t, i) in ls && sa[i] == Name(t, ls, LmsAt(t, i)) > 0
  {
    hide Less, Lms, Code;
    LmsAtHalf(t, i);
  }

  lemma AssigningTop(t: seq<int>, ls: seq<int>, sa: seq<int>, sa': seq<int>, bytes: bool)
    requires Assigning(t, ls, sa, |ls|, bytes) && |sa'| == |sa|
    requires forall y :: 0 <= y < |t| - |ls| ==> sa'[y] == sa[y]
    ensures Assigning(t, ls, sa', |ls|, bytes)
  {
    hide EntryAt;
  }

  /** map: pack the identifiers into the reduced text; no identifier is overwritten before it is read. */
  method Map(t: seq<int>, sa: array<int>, numLms: nat, bytes: bool, ghost ls: seq<int>)
    requires sa.Length == |t| > 0 && numLms == |ls| == |LmsList(t)| <= |t| && SubSorted(t, ls)
    requires Assigning(t, ls, sa[..], numLms, bytes)
    modifies sa
    ensures sa[|t| - numLms..] == Reduced(t, ls)
  {
    hide Less, Lms, LmsFrom, SubSorted, Assigning, Mapping, Reduced;
    LmsListProperties(t);
    MappingStart(t, ls, sa[..], bytes);
    var w := sa.Length;
    var i := sa.Length / 2;
    while i >= 0
      invariant -1 <= i <= |t| / 2 && Mapping(t, ls, sa[..], i + 1, w, bytes)
    {
      MappingStep(t, ls, sa[..], i, w, bytes);
      var j := sa[i];
      if j > 0 {
        ghost var before := sa[..];
        w := w - 1;
        sa[w] := j - 1;
        assert sa[..] == before[w := before[i] - 1];
      }
      i := i - 1;
    }
    MappingEnd(t, ls, sa[..], w, bytes);
  }

  lemma MappingEnd(t: seq<int>, ls: seq<int>, sa: seq<int>, w: int, bytes: bool)
    requires Mapping(t, ls, sa, 0, w, bytes) && |sa| == |t| && |ls| <= |t|
    ensures sa[|t| - |ls|..] == Reduced(t, ls)
  {
    hide Less, LmsFrom, SubSorted, Assigning;
  }

  // ----- unmap -----

  /** unmap under way: the LMS positions from f on stand at the top, below it nothing has changed. */
  ghost predicate Unmapping(t: seq<int>, sa: seq<int>, low: seq<int>, f: nat, j: int) {
    && |sa| == |t| && |LmsList(t)| <= |t|
    && var top := |t| - |LmsList(t)|;
       && 0 <= j <= |LmsList(t)| && j == |LmsList(t)| - |LmsFrom(t, Clamp(t, f))|
       && sa[top + j..] == LmsFrom(t, Clamp(t, f)) && sa[..top] == low
  }

  lemma UnmappingStep(t: seq<int>, sa: seq<int>, low: seq<int>, f: nat, j: int)
    requires Unmapping(t, sa, low, f + 1, j) && f < |t|
    ensures !Lms(t, f) ==> Unmapping(t, sa, low, f, j)
    ensures Lms(t, f) ==> j > 0 && |t| - |LmsList(t)| >= 0
                          && Unmapping(t, sa[|t| - |LmsList(t)| + j - 1 := f], low, f, j - 1)
  {
    hide Less, Lms, LmsFrom;
    LmsFromStep(t, f);
    LmsFromIsEnd(t, f);
    if Lms(t, f) {
      var top := |t| - |LmsList(t)|;
      var sa' := sa[top + j - 1 := f];
      assert sa'[top + j - 1..] == [f] + sa[top + j..];
      assert sa'[..top] == sa[..top];
    }
  }

  lemma UnmappingStart(t: seq<int>, sa: seq<int>)
    requires |sa| == |t| && |LmsList(t)| <= |t|
    ensures Unmapping(t, sa, sa[..|t| - |LmsList(t)|], |t| + 1, |LmsList(t)|)
    ensures Unmapping(t, sa, sa[..|t| - |LmsList(t)|], |t|, |LmsList(t)|)
  {
    hide Less, Lms, LmsFrom;
    LmsFromStep(t, |t|);
  }

  lemma UnmappingEnd(t: seq<int>, sa: seq<int>, low: seq<int>, j: int)
    requires Unmapping(t, sa, low, 1, j) && |t| >= 1
    ensures sa[|t| - |LmsList(t)|..] == LmsList(t) && sa[..|t| - |LmsList(t)|] == low
  {
    hide Less, LmsFrom;
    FromOne(t);
  }

  /** The inverse map: the LMS positions in text order. */
  method FillUnmap(t: seq<int>, sa: array<int>, numLms: nat)
    requires |t| >= 2 && sa.Length == |t| && numLms == |LmsList(t)| <= |t| && forall i :: 0 <= i < |t| ==> t[i] >= 0
    modifies sa
    ensures sa[|t| - numLms..] == LmsList(t) && sa[..|t| - numLms] == old(sa[..|t| - numLms])
  {
    hide Less, Lms, LmsList, SType, Unmapping;
    UnmappingStart(t, sa[..]);
    assert sa[..][..|t| - numLms] == sa[..|t| - numLms];
    ghost var low := sa[..|t| - numLms];
    var j := numLms;
    var c0, isTypeS := 0, false;
    var i := |t| - 1;
    while i >= 0
      invariant -1 <= i < |t| && IteratorAt(t, i + 1, c0, isTypeS) && Unmapping(t, sa[..], low, i + 2, j)
    {
      IteratorStep(t, i, c0, isTypeS);
      if i + 1 < |t| {
        UnmappingStep(t, sa[..], low, i + 1, j);
      } else {
        UnmappingLast(t, sa[..], low, j);
      }
      var c1 := c0;
      c0 := t[i];
      if c0 < c1 {
        isTypeS := true;
      } else if c0 > c1 && isTypeS {
        isTypeS := false;
        UnmappingBounds(t, sa[..], low, i + 2, j);
        ghost var before := sa[..];
        j := j - 1;
        sa[|t| - numLms + j] := i + 1;
        assert sa[..] == before[|t| - numLms + j := i + 1];
      }
      i := i - 1;
    }
    UnmappingEnd(t, sa[..], low, j);
    assert sa[..][|t| - numLms..] == sa[|t| - numLms..];
    assert sa[..][..|t| - numLms] == sa[..|t| - numLms];
  }

  lemma UnmappingLast(t: seq<int>, sa: seq<int>, low: seq<int>, j: int)
    requires Unmapping(t, sa, low, |t| + 1, j)
    ensures Unmapping(t, sa, low, |t|, j)
  {
    hide Less, Lms, LmsFrom;
  }

  lemma UnmappingBounds(t: seq<int>, sa: seq<int>, low: seq<int>, f: nat, j: int)
    requires Unmapping(t, sa, low, f, j)
    ensures 0 <= j <= |LmsList(t)| <= |t| == |sa|
  {
    hide LmsFrom, Less;
  }

  lemma FromOne(t: seq<int>)
    requires |t| >= 1
    ensures LmsFrom(t, 1) == LmsList(t)
  {
    hide Less;
    SkipNonLms(t, 0);
  }

  /** The LMS positions an array of reduced positions stands for. */
  ghost function Lifted(t: seq<int>, r: seq<int>): (ls: seq<int>)
    ensures |ls| == |r|
  {
    seq(|r|, k requires 0 <= k < |r| => LmsOr(t, r[k]))
  }

  /** unmap: replace the reduced positions in front by the LMS positions they stand for. */
  method Unmap(t: seq<int>, sa: array<int>, numLms: nat, ghost r: seq<int>)
    requires |t| >= 2 && sa.Length == |t| && numLms == |LmsList(t)| <= |t| - |LmsList(t)| && forall i :: 0 <= i < |t| ==> t[i] >= 0
    requires sa[..numLms] == r && forall k :: 0 <= k < numLms ==> 0 <= r[k] < numLms
    modifies sa
    ensures sa[..numLms] == Lifted(t, r)
  {
    hide Less, Lms, LmsFrom, LmsList;
    FillUnmap(t, sa, numLms);
    ghost var top := |t| - numLms;
    ghost var list := LmsList(t);
    FrontKept(sa[..top], old(sa[..top]), numLms);
    assert sa[..numLms] == sa[..top][..numLms] && old(sa[..numLms]) == old(sa[..top])[..numLms];
    var i := 0;
    while i < numLms
      invariant 0 <= i <= numLms && sa[top..] == list
      invariant sa[..i] == Lifted(t, r)[..i] && sa[i..numLms] == r[i..]
    {
      assert sa[i] == sa[i..numLms][0] == r[i];
      assert sa[top + r[i]] == sa[top..][r[i]];
      ghost var before := sa[..];
      sa[i] := sa[|t| - numLms + sa[i]];
      assert sa[..i + 1] == before[..i] + [LmsOr(t, r[i])] && before[..i] == sa[..i];
      assert Lifted(t, r)[..i + 1] == Lifted(t, r)[..i] + [Lifted(t, r)[i]];
      assert sa[i + 1..numLms] == before[i..numLms][1..];
      assert sa[top..] == before[top..];
      i := i + 1;
    }
    assert Lifted(t, r)[..numLms] == Lifted(t, r);
  }

  lemma FrontKept(a: seq<int>, b: seq<int>, n: nat)
    requires a == b && n <= |a|
    ensures a[..n] == b[..n]
  {
  }
}
