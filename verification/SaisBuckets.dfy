/** Character buckets for the induced-sorting scans: the frequency table, cached across scans behind a
    marker, and the bucket beginnings and ends computed from it. */
module SaisBuckets {
  import opened Suffixes
  import opened SaisPlan

  /** The caller's temporary space.  With room for two tables the first caches the frequencies, valid
      while tmp[0] >= 0; otherwise frequencies are recounted into the bucket table each time. */
  datatype Space = Space(tmp: array<int>, textMax: nat, cached: bool)
  {
    function Base(): nat {
      if cached then textMax else 0
    }

    predicate Valid() {
      0 < textMax && Base() + textMax <= tmp.Length
    }

    /** The bucket table. */
    function Buckets(): (r: seq<int>)
      requires Valid()
      reads tmp
      ensures |r| == textMax
    {
      tmp[Base()..Base() + textMax]
    }
  }

  predicate InAlphabet(t: seq<int>, textMax: nat) {
    forall i :: 0 <= i < |t| ==> 0 <= t[i] < textMax
  }

  /** The cache, when it is marked valid, holds the frequencies of the text. */
  ghost predicate CacheOk(t: seq<int>, s: Space)
    reads s.tmp
  {
    s.Valid() && (s.cached && s.tmp[0] >= 0 ==> forall c :: 0 <= c < s.textMax ==> s.tmp[c] == |CharsAt(t, c)|)
  }

  lemma CharsAtSnoc(t: seq<int>, i: nat, c: int)
    requires i < |t|
    ensures |CharsAt(t[..i + 1], c)| == |CharsAt(t[..i], c)| + if t[i] == c then 1 else 0
  {
    assert CharsAt(t[..i + 1], c) == CharsAt(t[..i], c) + if t[i] == c then {i} else {};
  }

  /** freq: count the characters, unless the cache holds the counts already. */
  method Freq(t: seq<int>, s: Space)
    requires CacheOk(t, s) && InAlphabet(t, s.textMax)
    modifies s.tmp
    ensures CacheOk(t, s)
    ensures forall c :: 0 <= c < s.textMax ==> s.tmp[c] == |CharsAt(t, c)|
  {
    hide CharsAt;
    if s.cached && s.tmp[0] >= 0 {
      return;
    }
    var c := 0;
    while c < s.textMax
      invariant 0 <= c <= s.textMax
      invariant forall d :: 0 <= d < c ==> s.tmp[d] == 0
    {
      s.tmp[c] := 0;
      c := c + 1;
    }
    forall d ensures |CharsAt(t[..0], d)| == 0 {
      NoChars(t, d);
    }
    var i := 0;
    while i < |t|
      invariant 0 <= i <= |t|
      invariant forall d :: 0 <= d < s.textMax ==> s.tmp[d] == |CharsAt(t[..i], d)|
    {
      forall d ensures |CharsAt(t[..i + 1], d)| == |CharsAt(t[..i], d)| + if t[i] == d then 1 else 0 {
        CharsAtSnoc(t, i, d);
      }
      s.tmp[t[i]] := s.tmp[t[i]] + 1;
      i := i + 1;
    }
    assert t[..i] == t;
  }

  lemma NoChars(t: seq<int>, d: int)
    ensures |CharsAt(t[..0], d)| == 0
  {
    assert CharsAt(t[..0], d) == {};
  }

  /** One past the last slot of the bucket of c. */
  ghost function End(t: seq<int>, c: int): nat {
    Min(t, c + 1)
  }

  lemma MinZero(t: seq<int>, textMax: nat)
    requires InAlphabet(t, textMax)
    ensures Min(t, 0) == 0
  {
    assert CharsBelow(t, 0) == {};
  }

  /** bucketMin: the beginning of every bucket. */
  method BucketMin(t: seq<int>, s: Space)
    requires CacheOk(t, s) && InAlphabet(t, s.textMax)
    modifies s.tmp
    ensures CacheOk(t, s)
    ensures forall c :: 0 <= c < s.textMax ==> s.Buckets()[c] == Min(t, c)
  {
    hide CharsAt, Min;
    Freq(t, s);
    MinZero(t, s.textMax);
    var total, i := 0, 0;
    while i < s.textMax
      invariant 0 <= i <= s.textMax && total == Min(t, i)
      invariant forall c :: 0 <= c < i ==> s.tmp[s.Base() + c] == Min(t, c)
      invariant forall c :: (if s.cached then 0 else i) <= c < s.textMax ==> s.tmp[c] == |CharsAt(t, c)|
    {
      MinStep(t, i);
      var n := s.tmp[i];
      s.tmp[s.Base() + i] := total;
      total := total + n;
      i := i + 1;
    }
    forall c | 0 <= c < s.textMax ensures s.Buckets()[c] == Min(t, c) {
      assert s.Buckets()[c] == s.tmp[s.Base() + c];
    }
  }

  /** bucketMax: the end of every bucket, one past its last slot. */
  method BucketMax(t: seq<int>, s: Space)
    requires CacheOk(t, s) && InAlphabet(t, s.textMax)
    modifies s.tmp
    ensures CacheOk(t, s)
    ensures forall c :: 0 <= c < s.textMax ==> s.Buckets()[c] == End(t, c)
  {
    hide CharsAt, Min;
    Freq(t, s);
    MinZero(t, s.textMax);
    var total, i := 0, 0;
    while i < s.textMax
      invariant 0 <= i <= s.textMax && total == Min(t, i)
      invariant forall c :: 0 <= c < i ==> s.tmp[s.Base() + c] == End(t, c)
      invariant forall c :: (if s.cached then 0 else i) <= c < s.textMax ==> s.tmp[c] == |CharsAt(t, c)|
    {
      MinStep(t, i);
      var n := s.tmp[i];
      total := total + n;
      s.tmp[s.Base() + i] := total;
      i := i + 1;
    }
    forall c | 0 <= c < s.textMax ensures s.Buckets()[c] == End(t, c) {
      assert s.Buckets()[c] == s.tmp[s.Base() + c];
    }
  }
}
