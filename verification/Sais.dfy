/** The whole induced-sorting algorithm (internal/astrobwt/sais.go and the integer-alphabet copy its
    recursion uses in internal/astrobwt/sais2.go): for every text the array ends as the suffix array. */
module Sais {
  import opened Suffixes
  import opened SaisTypes
  import opened SaisPlan
  import opened SaisPlans
  import opened SaisBuckets
  import opened SaisScan
  import opened SaisInduce
  import opened SaisPlace
  import opened SaisReduce
  import opened SaisAssign
  import opened SaisGlue

  /** A call that shares the temporary space leaves it alone or marks the cached frequencies as lost. */
  predicate Marked(before: seq<int>, after: seq<int>) {
    after == before || (|after| > 0 && after[0] == -1)
  }

  ghost predicate CachePart(t: seq<int>, textMax: nat, tmp: seq<int>) {
    0 < textMax <= |tmp| && (tmp[0] >= 0 ==> forall c :: 0 <= c < textMax ==> tmp[c] == |CharsAt(t, c)|)
  }

  lemma CacheParts(t: seq<int>, s: Space)
    ensures CacheOk(t, s) <==> s.Valid() && (s.cached ==> CachePart(t, s.textMax, s.tmp[..]))
  {
    hide CharsAt;
  }

  lemma CacheSurvives(t: seq<int>, textMax: nat, before: seq<int>, after: seq<int>)
    requires Marked(before, after) && |before| == |after| && CachePart(t, textMax, before)
    ensures CachePart(t, textMax, after)
  {
    hide CharsAt;
  }

  /** Copy a slice out of an array, and back into it. */
  method CopyOut(sa: array<int>, from: nat, len: nat) returns (dst: array<int>)
    requires from + len <= sa.Length
    ensures fresh(dst) && dst.Length == len && dst[..] == sa[from..from + len]
  {
    dst := new int[len];
    var k := 0;
    while k < len
      invariant 0 <= k <= len && forall x :: 0 <= x < k ==> dst[x] == sa[from + x]
    {
      dst[k] := sa[from + k];
      k := k + 1;
    }
  }

  method CopyBack(src: array<int>, sa: array<int>, from: nat)
    requires src != sa && from + src.Length <= sa.Length
    modifies sa
    ensures sa[..from] == old(sa[..from])
    ensures sa[from..from + src.Length] == src[..]
  {
    var k := 0;
    while k < src.Length
      invariant 0 <= k <= src.Length
      invariant forall x :: 0 <= x < k ==> sa[from + x] == src[x]
      invariant forall x :: 0 <= x < from ==> sa[x] == old(sa[x])
    {
      sa[from + k] := src[k];
      k := k + 1;
    }
  }

  method Clear(a: array<int>)
    modifies a
    ensures forall k :: 0 <= k < a.Length ==> a[k] == 0
  {
    var i := 0;
    while i < a.Length
      invariant 0 <= i <= a.Length && forall k :: 0 <= k < i ==> a[k] == 0
    {
      a[i] := 0;
      i := i + 1;
    }
  }

  /** The temporary space of the recursive call: the caller's, the middle of the array if that is longer,
      or, if both are too short, a new one for this call and all deeper ones. */
  method ChooseSpace(oldTmp: array<int>, saTmp: array<int>, numLms: nat, maxId: nat)
    returns (tmp: array<int>, ghost allocations: nat)
    requires 0 < maxId < numLms
    ensures tmp == oldTmp || tmp == saTmp || fresh(tmp)
    ensures maxId <= tmp.Length && numLms / 2 <= tmp.Length
    ensures allocations <= 1 && (oldTmp.Length >= numLms ==> allocations == 0)
  {
    tmp, allocations := oldTmp, 0;
    if tmp.Length < saTmp.Length {
      tmp := saTmp;
    }
    if tmp.Length < numLms {
      var size := maxId;
      if size < numLms / 2 {
        size := numLms / 2;
      }
      tmp := new int[size];
      allocations := 1;
    }
  }

  /** The first round sorts the LMS-substrings into the top of the array. */
  method SortSubstrings(t: seq<int>, sa: array<int>, s: Space, numLms: nat)
    requires |t| >= 2 && sa.Length == |t| && sa != s.tmp && numLms == |LmsList(t)| > 1
    requires CacheOk(t, s) && InAlphabet(t, s.textMax) && SeedsOnly(SubL, SubUp(t), sa[..])
    modifies sa, s.tmp
    ensures CacheOk(t, s) && 2 * numLms < |t| && SubSorted(t, sa[|t| - numLms..])
    ensures forall x :: 0 <= x < |t| - numLms ==> sa[x] == 0
  {
    hide Less, LmsFrom, SubUp, SubDown, Upward, Downward, Filled, Clean, SeedsOnly, LmsAreTargets, Upper, SubSorted, Sound;
    LmsListProperties(t);
    SubUpReady(t);
    InduceSubL(t, sa, s, SubUp(t));
    SubDownReady(t);
    SubGlue(t, sa[..]);
    ghost var top := InduceSubS(t, sa, s, SubDown(t));
    SubResult(t, sa[..], top);
    assert sa[..][top..] == sa[top..];
  }

  /** recurse: choose temporary space, clear the destination, and sort the reduced text.  The allocations of
      all deeper calls are counted. */
  method Recurse(t: seq<int>, sa: array<int>, oldTmp: array<int>, numLms: nat, maxId: nat, ghost r: seq<int>)
    returns (ghost allocations: nat)
    requires sa.Length == |t| < 0x8000_0000 && sa != oldTmp && 0 < maxId < numLms && 2 * numLms < |t|
    requires sa[|t| - numLms..] == r && InAlphabet(r, maxId)
    modifies sa, oldTmp
    ensures Marked(old(oldTmp[..]), oldTmp[..]) && IsSuffixArray(r, sa[..numLms])
    ensures allocations <= 1 && (oldTmp.Length >= |t| / 2 ==> allocations == 0)
    decreases |t|, 0
  {
    hide Less, IsSuffixArray, InAlphabet;
    var text := sa[sa.Length - numLms..];
    var dst := CopyOut(sa, 0, numLms);
    var saTmp := CopyOut(sa, numLms, sa.Length - 2 * numLms);
    var tmp;
    tmp, allocations := ChooseSpace(oldTmp, saTmp, numLms, maxId);
    Clear(dst);
    ghost var deeper := Sort(text, maxId, dst, tmp, false);
    allocations := allocations + deeper;
    CopyBack(dst, sa, 0);
    CopyBack(saTmp, sa, numLms);
    assert sa[..numLms] == dst[..];
  }

  /** Between the two rounds: name the substrings, recurse if some are equal, and spread the sorted LMS
      positions over the bucket ends. */
  method SortLms(t: seq<int>, sa: array<int>, s: Space, numLms: nat, bytes: bool) returns (ghost allocations: nat)
    requires 2 <= |t| < 0x8000_0000 && sa.Length == |t| && sa != s.tmp && numLms == |LmsList(t)| > 1
    requires CacheOk(t, s) && InAlphabet(t, s.textMax) && (bytes ==> InAlphabet(t, 256))
    requires SeedsOnly(SubL, SubUp(t), sa[..])
    modifies sa, s.tmp
    ensures CacheOk(t, s) && SeedsOnly(FullL, FullUp(t), sa[..])
    ensures allocations <= 1 && (s.tmp.Length >= |t| / 2 ==> allocations == 0)
    decreases |t|, 1
  {
    hide Less, LmsFrom, LmsList, SubUp, SeedsOnly, SubSorted, CacheOk, Coded, Assigning, SortedLms, IsSuffixArray, NameAt, Reduced, Lifted;
    SortSubstrings(t, sa, s, numLms);
    ghost var ls := sa[|t| - numLms..];
    Length(t, sa, numLms, bytes);
    var maxId := AssignId(t, sa, numLms, bytes, ls);
    allocations := 0;
    ghost var sorted := ls;
    if maxId < numLms {
      Map(t, sa, numLms, bytes, ls);
      ReducedInAlphabet(t, ls, maxId);
      ghost var before := s.tmp[..];
      CacheParts(t, s);
      allocations := Recurse(t, sa, s.tmp, numLms, maxId, Reduced(t, ls));
      if s.cached {
        CacheSurvives(t, s.textMax, before, s.tmp[..]);
      }
      CacheParts(t, s);
      ghost var dst := sa[..numLms];
      RecursionSorts(t, ls, dst);
      SuffixArrayEntries(Reduced(t, ls), dst);
      Unmap(t, sa, numLms, dst);
      sorted := Lifted(t, dst);
    } else {
      CopyDown(t, sa, numLms);
      DistinctNamesSort(t, ls);
    }
    Expand(t, s, sa, numLms, sorted);
    FullUpIs(t);
  }

  lemma FullUpIs(t: seq<int>)
    ensures FullUp(t) == UpPlan(t, KeyLess(t), -1)
  {
  }

  lemma SuffixArrayEntries(r: seq<int>, dst: seq<int>)
    requires IsSuffixArray(r, dst)
    ensures |dst| == |r| && forall k :: 0 <= k < |dst| ==> 0 <= dst[k] < |r|
  {
    hide Less;
  }

  /** copy(sa, sa[len(sa)-numLMS:]): the two stretches do not overlap. */
  method CopyDown(t: seq<int>, sa: array<int>, numLms: nat)
    requires sa.Length == |t| && 2 * numLms < |t|
    modifies sa
    ensures sa[..numLms] == old(sa[|t| - numLms..])
  {
    var k := 0;
    while k < numLms
      invariant 0 <= k <= numLms
      invariant forall x :: 0 <= x < sa.Length ==> sa[x] == if x < k then old(sa[|t| - numLms + x]) else old(sa[x])
    {
      sa[k] := sa[sa.Length - numLms + k];
      k := k + 1;
    }
  }

  /** sais: the array becomes the suffix array of the text; one allocation of temporary space is enough
      for the whole stack of recursive calls, and none is made if the space given is half the text. */
  method Sort(t: seq<int>, textMax: nat, sa: array<int>, tmp: array<int>, bytes: bool) returns (ghost allocations: nat)
    requires sa.Length == |t| < 0x8000_0000 && sa != tmp && textMax <= tmp.Length && InAlphabet(t, textMax)
    requires bytes ==> InAlphabet(t, 256)
    requires forall i :: 0 <= i < sa.Length ==> sa[i] == 0
    modifies sa, tmp
    ensures IsSuffixArray(t, sa[..])
    ensures Marked(old(tmp[..]), tmp[..])
    ensures allocations <= 1 && (tmp.Length >= |t| / 2 ==> allocations == 0)
    decreases |t|, 2
  {
    hide Less, LmsFrom, SeedsOnly, SubSorted, CacheOk, FullUp, FullDown, SubUp, Upward, Downward, Filled, Clean, IsSuffixArray, LmsList, Sound;
    allocations := 0;
    if |t| <= 1 {
      if |t| == 1 {
        sa[0] := 0;
      }
      SmallTexts(t, sa[..]);
      return;
    }
    assert 0 <= t[0] < textMax;
    var s := Space(tmp, textMax, tmp.Length >= 2 * textMax);
    if s.cached {
      tmp[0] := -1;
    }
    CacheStart(t, s);
    var numLms := PlaceLms(t, sa, s);
    FullUpIs(t);
    if numLms > 1 {
      SubUpIs(t);
      allocations := SortLms(t, sa, s, numLms, bytes);
    }
    FullUpReady(t);
    InduceL(t, sa, s, FullUp(t));
    FullDownReady(t);
    FullGlue(t, sa[..]);
    AllReached(t);
    InduceS(t, sa, s, FullDown(t));
    FinalArray(t, sa[..]);
    tmp[0] := -1;
  }

  lemma SubUpIs(t: seq<int>)
    requires |LmsList(t)| > 1
    ensures SubUp(t) == UpPlan(t, KeyN(t), LmsList(t)[0])
  {
  }

  lemma SmallTexts(t: seq<int>, sa: seq<int>)
    requires |t| <= 1 && |sa| == |t| && (|t| == 1 ==> sa[0] == 0)
    ensures IsSuffixArray(t, sa)
  {
  }

  lemma CacheStart(t: seq<int>, s: Space)
    requires |t| > 0 && InAlphabet(t, s.textMax) && s.Base() + s.textMax <= s.tmp.Length
    requires s.cached ==> s.tmp.Length > 0 && s.tmp[0] == -1
    ensures CacheOk(t, s)
  {
    hide CharsAt;
    assert 0 <= t[0] < s.textMax;
  }

  /** text_32_0alloc (internal/astrobwt/scratch.go): clear the array and sort with a table of 512 entries;
      a text too long for an int32, or an array of another length, is refused. */
  method Text32(text: seq<int>, sa: array<int>) returns (ok: bool, ghost allocations: nat)
    requires InAlphabet(text, 256)
    modifies sa
    ensures ok <==> |text| < 0x8000_0000 && |text| == sa.Length
    ensures ok ==> IsSuffixArray(text, sa[..]) && allocations <= 1
    ensures !ok ==> sa[..] == old(sa[..])
  {
    hide Less, IsSuffixArray;
    allocations := 0;
    ok := |text| < 0x8000_0000 && |text| == sa.Length;
    if ok {
      Clear(sa);
      var memory := new int[512];
      allocations := Sort(text, 256, sa, memory, true);
    }
  }
}
