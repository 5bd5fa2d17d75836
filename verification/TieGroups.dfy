/** The tie-group statistic of cmd/tiedepth/main.go: the longest run of neighbours in the suffix array that
    share their first k characters is the largest set of suffixes that share them. */
module TieGroups {
  import opened Suffixes
  import opened Kasai
  import SaisPlan

  /** Both suffixes have k characters, and the same ones. */
  predicate Same(t: seq<int>, k: nat, a: int, b: int) {
    0 <= a && 0 <= b && a + k <= |t| && b + k <= |t| && t[a..a + k] == t[b..b + k]
  }

  /** sharePrefix. */
  method SharePrefix(t: seq<int>, a: int, b: int, k: nat) returns (same: bool)
    requires 0 <= a <= |t| && 0 <= b <= |t|
    ensures same <==> Same(t, k, a, b)
  {
    var i := 0;
    while i < k
      invariant 0 <= i <= k && Same(t, i, a, b)
    {
      if a + i >= |t| || b + i >= |t| {
        return false;
      }
      if t[a + i] != t[b + i] {
        assert t[a..a + i + 1][i] != t[b..b + i + 1][i];
        PrefixSame(t, k, i + 1, a, b);
        return false;
      }
      assert t[a..a + i + 1] == t[a..a + i] + [t[a + i]] && t[b..b + i + 1] == t[b..b + i] + [t[b + i]];
      i := i + 1;
    }
    return true;
  }

  lemma PrefixSame(t: seq<int>, k: nat, i: nat, a: int, b: int)
    requires i <= k
    ensures Same(t, k, a, b) ==> Same(t, i, a, b)
  {
    if Same(t, k, a, b) {
      assert t[a..a + k][..i] == t[a..a + i] && t[b..b + k][..i] == t[b..b + i];
    }
  }

  lemma SameIsLcp(t: seq<int>, k: nat, a: int, b: int)
    requires 0 <= a <= |t| && 0 <= b <= |t|
    ensures Same(t, k, a, b) <==> k <= Lcp(t, a, b)
  {
    hide Lcp;
    if a + k <= |t| && b + k <= |t| {
      LcpIsMaximal(t, a, b, k);
    }
  }

  /** What shares a prefix with both ends of a stretch of the array shares it throughout. */
  lemma SameBetween(t: seq<int>, k: nat, a: int, b: int, c: int)
    requires 0 <= a <= |t| && 0 <= b <= |t| && 0 <= c <= |t| && Less(t, a, b) && Less(t, b, c) && Same(t, k, a, c)
    ensures Same(t, k, a, b) && Same(t, k, b, c)
  {
    hide Less, Lcp;
    SameIsLcp(t, k, a, c);
    LcpBetween(t, a, b, c);
    SameIsLcp(t, k, b, c);
  }

  // ----- Runs -----

  /** The length of the run of ties that ends at index i. */
  function Run(t: seq<int>, sa: seq<int>, k: nat, i: nat): (r: nat)
    requires i < |sa|
    ensures 1 <= r <= i + 1
  {
    if i > 0 && Same(t, k, sa[i - 1], sa[i]) then Run(t, sa, k, i - 1) + 1 else 1
  }

  /** The run reaches back exactly as far as the prefix is shared. */
  lemma {:induction false} RunReaches(t: seq<int>, sa: seq<int>, k: nat, i: nat, j: nat)
    requires IsSuffixArray(t, sa) && i < j < |sa|
    ensures i > j - Run(t, sa, k, j) <==> Same(t, k, sa[i], sa[j])
    decreases j
  {
    hide Less, Same;
    assert 0 <= sa[i] < |t| && 0 <= sa[j] < |t| && 0 <= sa[j - 1] < |t|;
    if i < j - 1 {
      RunReaches(t, sa, k, i, j - 1);
      if Same(t, k, sa[i], sa[j]) {
        SameBetween(t, k, sa[i], sa[j - 1], sa[j]);
      }
      SameTransitive(t, k, sa[i], sa[j - 1], sa[j]);
    }
  }

  lemma SameTransitive(t: seq<int>, k: nat, a: int, b: int, c: int)
    ensures Same(t, k, a, b) && Same(t, k, b, c) ==> Same(t, k, a, c)
    ensures Same(t, k, a, b) ==> Same(t, k, b, a)
  {
  }

  // ----- Groups -----

  /** The suffixes that share their first k characters with suffix p. */
  ghost function Group(t: seq<int>, k: nat, p: int): set<int> {
    set q | 0 <= q < |t| && Same(t, k, p, q)
  }

  ghost function Stretch(sa: seq<int>, lo: nat, hi: nat): set<int>
    requires lo <= hi <= |sa|
  {
    if lo == hi then {} else Stretch(sa, lo, hi - 1) + {sa[hi - 1]}
  }

  lemma {:induction false} StretchSize(t: seq<int>, sa: seq<int>, lo: nat, hi: nat)
    requires IsSuffixArray(t, sa) && lo <= hi <= |sa|
    ensures |Stretch(sa, lo, hi)| == hi - lo
    ensures forall p :: p in Stretch(sa, lo, hi) <==> exists i :: lo <= i < hi && sa[i] == p
    decreases hi
  {
    hide Less;
    if lo < hi {
      StretchSize(t, sa, lo, hi - 1);
      SuffixArrayIsPermutation(t, sa);
    }
  }

  /** The last index of the group of p. */
  function Top(t: seq<int>, sa: seq<int>, k: nat, p: int, n: nat): (j: nat)
    requires n <= |sa| && exists i :: 0 <= i < n && Same(t, k, p, sa[i])
    ensures j < n && Same(t, k, p, sa[j]) && forall i :: j < i < n ==> !Same(t, k, p, sa[i])
  {
    if Same(t, k, p, sa[n - 1]) then n - 1 else Top(t, sa, k, p, n - 1)
  }

  /** A group is the run that ends at its last index. */
  lemma GroupIsRun(t: seq<int>, sa: seq<int>, k: nat, p: int) returns (j: nat)
    requires IsSuffixArray(t, sa) && 0 <= p < |t| && Same(t, k, p, p)
    ensures j < |sa| && |Group(t, k, p)| == Run(t, sa, k, j)
  {
    hide Less, Same, Run;
    assert p in sa;
    j := Top(t, sa, k, p, |sa|);
    var lo := j + 1 - Run(t, sa, k, j);
    StretchSize(t, sa, lo, j + 1);
    forall q ensures q in Group(t, k, p) <==> q in Stretch(sa, lo, j + 1) {
      if 0 <= q < |t| {
        assert q in sa;
        var i :| 0 <= i < |sa| && sa[i] == q;
        GroupAt(t, sa, k, p, j, i);
        SuffixArrayIsPermutation(t, sa);
      }
    }
    assert Group(t, k, p) == Stretch(sa, lo, j + 1);
  }

  lemma GroupAt(t: seq<int>, sa: seq<int>, k: nat, p: int, j: nat, i: nat)
    requires IsSuffixArray(t, sa) && j < |sa| && i < |sa| && Same(t, k, p, sa[j])
    requires forall m :: j < m < |sa| ==> !Same(t, k, p, sa[m])
    ensures Same(t, k, p, sa[i]) <==> j + 1 - Run(t, sa, k, j) <= i < j + 1
  {
    hide Less, Same, Run;
    SameTransitive(t, k, p, sa[j], sa[i]);
    SameTransitive(t, k, sa[j], p, sa[i]);
    SameTransitive(t, k, p, sa[j], p);
    SameTransitive(t, k, sa[i], sa[j], sa[i]);
    SameTransitive(t, k, sa[j], sa[i], sa[j]);
    if i < j {
      RunReaches(t, sa, k, i, j);
    }
  }

  /** maxGroupSize: no group is larger than the result, and unless it is 1 some group has that size. */
  method MaxGroupSize(t: seq<int>, sa: seq<int>, k: nat) returns (best: nat)
    requires IsSuffixArray(t, sa)
    ensures best >= 1 && forall p :: 0 <= p < |t| ==> |Group(t, k, p)| <= best
    ensures best > 1 ==> exists p :: 0 <= p < |t| && |Group(t, k, p)| == best
  {
    hide Less, Same;
    best := 1;
    var run, i := 1, 1;
    ghost var at := 0;
    while i < |sa|
      invariant 1 <= i && (i <= |sa| || i == 1)
      invariant |sa| > 0 ==> run == Run(t, sa, k, i - 1)
      invariant best >= 1 && forall j :: 0 <= j < i && j < |sa| ==> Run(t, sa, k, j) <= best
      invariant best > 1 ==> at < i && at < |sa| && Run(t, sa, k, at) == best
    {
      var same := SharePrefix(t, sa[i - 1], sa[i], k);
      if same {
        run := run + 1;
        if run > best {
          best := run;
          at := i;
        }
      } else {
        run := 1;
      }
      i := i + 1;
    }
    GroupsBounded(t, sa, k, best, at);
  }

  lemma GroupsBounded(t: seq<int>, sa: seq<int>, k: nat, best: nat, at: nat)
    requires IsSuffixArray(t, sa) && best >= 1
    requires forall j :: 0 <= j < |sa| ==> Run(t, sa, k, j) <= best
    requires best > 1 ==> at < |sa| && Run(t, sa, k, at) == best
    ensures forall p :: 0 <= p < |t| ==> |Group(t, k, p)| <= best
    ensures best > 1 ==> exists p :: 0 <= p < |t| && |Group(t, k, p)| == best
  {
    hide Less, Same, Run;
    forall p | 0 <= p < |t| ensures |Group(t, k, p)| <= best {
      if Same(t, k, p, p) {
        var j := GroupIsRun(t, sa, k, p);
      } else {
        NoGroup(t, k, p);
      }
    }
    if best > 1 {
      LargestRun(t, sa, k, best, at);
    }
  }

  lemma NoGroup(t: seq<int>, k: nat, p: int)
    requires 0 <= p && !Same(t, k, p, p)
    ensures Group(t, k, p) == {}
  {
  }

  lemma LongRunTies(t: seq<int>, sa: seq<int>, k: nat, i: nat)
    requires IsSuffixArray(t, sa) && i < |sa| && Run(t, sa, k, i) > 1
    ensures 0 <= sa[i] < |t| && Same(t, k, sa[i], sa[i])
  {
    hide Less;
  }

  /** The group a longest run belongs to has its length. */
  lemma LargestRun(t: seq<int>, sa: seq<int>, k: nat, best: nat, at: nat)
    requires IsSuffixArray(t, sa) && best > 1 && at < |sa| && Run(t, sa, k, at) == best
    requires forall j :: 0 <= j < |sa| ==> Run(t, sa, k, j) <= best
    ensures exists p :: 0 <= p < |t| && |Group(t, k, p)| == best
  {
    hide Less, Same, Run;
    var p := sa[at];
    LongRunTies(t, sa, k, at);
    var j := GroupIsRun(t, sa, k, p);
    var lo := at + 1 - best;
    StretchSize(t, sa, lo, at + 1);
    forall q | q in Stretch(sa, lo, at + 1) ensures q in Group(t, k, p) {
      var i :| lo <= i < at + 1 && sa[i] == q;
      if i < at {
        RunReaches(t, sa, k, i, at);
        SameTransitive(t, k, q, p, q);
      }
    }
    SaisPlan.SubsetSize(Stretch(sa, lo, at + 1), Group(t, k, p));
  }
}
