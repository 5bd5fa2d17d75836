/** Keys of the descriptor suffix array: the 24-bit prefix of a suffix, and how far it decides. */
module V114Keys {
  import opened Suffixes
  import opened Bytes

  const ARENA_INDEX_COUNT: nat := 0x20000

  /** What the emit and merge stages read: the data buffer, of which the first logicalLen bytes are the
      text and the four bytes behind the text are zero (buildSAv114 clears them). */
  datatype View = View(data: seq<byte>, logicalLen: nat)
  {
    ghost predicate Valid() {
      && logicalLen <= ARENA_INDEX_COUNT
      && logicalLen + 4 <= |data|
      && forall i :: logicalLen <= i < logicalLen + 4 ==> data[i] == 0
    }

    /** The byte at index i, padding included. */
    function At(i: int): int
      requires 0 <= i < |data|
    {
      data[i]
    }

    function Text(): seq<byte>
      requires logicalLen <= |data|
    {
      data[..logicalLen]
    }
  }

  /** The masked little-endian 32-bit load behind every key: bytes pos, pos+1 and pos+2, lowest first. */
  function LoadKey(v: View, pos: int): nat
    requires v.Valid() && 0 <= pos < v.logicalLen
  {
    v.At(pos) + 0x100 * v.At(pos + 1) + 0x10000 * v.At(pos + 2)
  }

  /** Exchange the lowest and the highest byte of a 24-bit key. */
  function RadixOrderKey(key: nat): nat {
    key % 0x100 * 0x10000 + key / 0x100 % 0x100 * 0x100 + key / 0x10000 % 0x100
  }

  /** The key a record stores for the suffix at pos. */
  function StoredKey(v: View, pos: int): nat
    requires v.Valid() && 0 <= pos < v.logicalLen
  {
    RadixOrderKey(LoadKey(v, pos))
  }

  lemma StoredKeyBytes(v: View, pos: int)
    requires v.Valid() && 0 <= pos < v.logicalLen
    ensures StoredKey(v, pos) == v.At(pos) * 0x10000 + v.At(pos + 1) * 0x100 + v.At(pos + 2)
    ensures 0 <= StoredKey(v, pos) < 0x1000000
  {
    var a, b, c := v.At(pos), v.At(pos + 1), v.At(pos + 2);
    var key := LoadKey(v, pos);
    assert key / 0x100 == b + 0x100 * c;
    assert key / 0x10000 == c;
  }

  /** Equal loaded keys, equal stored keys and equal padded first bytes are one and the same. */
  lemma SameKeys(v: View, a: int, b: int)
    requires v.Valid() && 0 <= a < v.logicalLen && 0 <= b < v.logicalLen
    ensures (LoadKey(v, a) == LoadKey(v, b)) <==> (StoredKey(v, a) == StoredKey(v, b))
    ensures StoredKey(v, a) == StoredKey(v, b) <==>
            v.At(a) == v.At(b) && v.At(a + 1) == v.At(b + 1) && v.At(a + 2) == v.At(b + 2)
  {
    hide LoadKey, StoredKey;
    StoredKeyBytes(v, a);
    StoredKeyBytes(v, b);
    assert LoadKey(v, a) == v.At(a) + 0x100 * v.At(a + 1) + 0x10000 * v.At(a + 2) by { LoadKeyBytes(v, a); }
    assert LoadKey(v, b) == v.At(b) + 0x100 * v.At(b + 1) + 0x10000 * v.At(b + 2) by { LoadKeyBytes(v, b); }
  }

  lemma LoadKeyBytes(v: View, pos: int)
    requires v.Valid() && 0 <= pos < v.logicalLen
    ensures LoadKey(v, pos) == v.At(pos) + 0x100 * v.At(pos + 1) + 0x10000 * v.At(pos + 2)
  {
  }

  /** The zero padding cannot mislead: where the first k padded bytes of two suffixes agree and the
      next one is smaller, the suffix order agrees. */
  lemma {:induction false} PaddedDifference(v: View, a: int, b: int, k: nat)
    requires v.Valid() && 0 <= a <= v.logicalLen && 0 <= b <= v.logicalLen
    requires a + k < v.logicalLen + 3 && b + k < v.logicalLen + 3
    requires v.data[a..a + k] == v.data[b..b + k]
    requires v.At(a + k) < v.At(b + k)
    ensures Less(v.Text(), a, b)
    decreases k
  {
    assert b + k < v.logicalLen;
    if k > 0 && a < v.logicalLen {
      assert v.data[a] == v.data[a..a + k][0] == v.data[b..b + k][0] == v.data[b];
      assert v.data[a + 1..a + k] == v.data[a..a + k][1..] == v.data[b..b + k][1..] == v.data[b + 1..b + k];
      PaddedDifference(v, a + 1, b + 1, k - 1);
    } else if k == 0 && a < v.logicalLen {
      assert v.Text()[a] < v.Text()[b];
    }
  }

  /** A smaller stored key means a smaller suffix, whatever the padding contributed. */
  lemma SmallerKeySmallerSuffix(v: View, a: int, b: int)
    requires v.Valid() && 0 <= a < v.logicalLen && 0 <= b < v.logicalLen
    requires StoredKey(v, a) < StoredKey(v, b)
    ensures Less(v.Text(), a, b)
  {
    hide Less, StoredKey;
    StoredKeyBytes(v, a);
    StoredKeyBytes(v, b);
    if v.At(a) != v.At(b) {
      PaddedDifference(v, a, b, 0);
    } else if v.At(a + 1) != v.At(b + 1) {
      PaddedDifference(v, a, b, 1);
    } else {
      PaddedDifference(v, a, b, 2);
    }
  }

  // ----- The two comparisons -----

  /** compareSuffixes of the emit stage. */
  function CompareWhole(v: View, a: int, b: int): int
    requires v.Valid() && 0 <= a < v.logicalLen && 0 <= b < v.logicalLen
  {
    if a == b then 0 else Compare(v.data[a..v.logicalLen], v.data[b..v.logicalLen])
  }

  lemma CompareWholeSign(v: View, a: int, b: int)
    requires v.Valid() && 0 <= a < v.logicalLen && 0 <= b < v.logicalLen
    ensures CompareWhole(v, a, b) < 0 <==> Less(v.Text(), a, b)
    ensures CompareWhole(v, a, b) > 0 <==> Less(v.Text(), b, a)
    ensures CompareWhole(v, a, b) >= 0 <==> Leq(v.Text(), b, a)
  {
    hide Less, Compare;
    LeqTotal(v.Text(), a, b);
    LeqTotal(v.Text(), b, a);
    assert v.data[a..v.logicalLen] == v.Text()[a..];
    assert v.data[b..v.logicalLen] == v.Text()[b..];
    CompareSuffixes(v.Text(), a, b);
  }

  function Sign(x: int, y: int): int {
    if x == y then 0 else if x < y then -1 else 1
  }

  /** compareSuffixesAfterKey: skip the three key bytes, compare eight bytes as one big-endian word
      when there are that many in common, then the rest, then the lengths. */
  function CompareAfterKey(v: View, a: int, b: int): int
    requires v.Valid() && 0 <= a < v.logicalLen && 0 <= b < v.logicalLen
  {
    if a == b then 0
    else
      var aLen, bLen := v.logicalLen - a, v.logicalLen - b;
      var commonWithKey := if bLen < aLen then bLen else aLen;
      if commonWithKey <= 3 then Sign(aLen, bLen)
      else
        var c := CompareCommon(v.data[a + 3..], v.data[b + 3..], commonWithKey - 3);
        if c != 0 then c else Sign(aLen, bLen)
  }

  /** The comparison of the common stretch, a whole big-endian word at first. */
  function CompareCommon(ap: seq<byte>, bp: seq<byte>, common: nat): int
    requires common <= |ap| && common <= |bp|
  {
    if common >= 8 then
      var av, bv := BigEndian(ap[..8]), BigEndian(bp[..8]);
      if av != bv then (if av < bv then -1 else 1)
      else Compare(ap[8..common], bp[8..common])
    else Compare(ap[..common], bp[..common])
  }

  lemma CompareCommonIsCompare(ap: seq<byte>, bp: seq<byte>, common: nat)
    requires common <= |ap| && common <= |bp|
    ensures CompareCommon(ap, bp, common) == Compare(ap[..common], bp[..common])
  {
    hide Compare, BigEndian;
    if common >= 8 {
      var a, b := ap[..common], bp[..common];
      assert a[..8] == ap[..8] && b[..8] == bp[..8];
      CompareBigEndian(a[..8], b[..8]);
      CompareSplit(a, b, 8);
    }
  }

  /** Suffixes that agree on their first c characters are ordered as what follows. */
  lemma {:induction false} SkipCommon(t: seq<int>, a: int, b: int, c: nat)
    requires 0 <= a <= a + c <= |t| && 0 <= b <= b + c <= |t|
    requires t[a..a + c] == t[b..b + c]
    ensures Less(t, a, b) <==> Less(t, a + c, b + c)
    decreases c
  {
    if c > 0 {
      assert t[a] == t[a..a + c][0] == t[b..b + c][0] == t[b];
      assert t[a + 1..a + c] == t[a..a + c][1..] == t[b..b + c][1..] == t[b + 1..b + c];
      SkipCommon(t, a + 1, b + 1, c - 1);
    }
  }

  /** Once one of the suffixes has ended, the lengths decide. */
  lemma EndedSuffixes(t: seq<int>, a: int, b: int, c: nat)
    requires 0 <= a <= a + c <= |t| && 0 <= b <= b + c <= |t| && a != b
    requires a + c == |t| || b + c == |t|
    ensures Less(t, a + c, b + c) <==> Sign(|t| - a, |t| - b) < 0
    ensures Less(t, b + c, a + c) <==> Sign(|t| - a, |t| - b) > 0
  {
  }

  /** Positions with equal keys agree on the text as far as both reach, up to three bytes. */
  lemma SameKeysSameText(v: View, a: int, b: int, c: nat)
    requires v.Valid() && 0 <= a < v.logicalLen && 0 <= b < v.logicalLen && c <= 3
    requires StoredKey(v, a) == StoredKey(v, b)
    requires a + c <= v.logicalLen && b + c <= v.logicalLen
    ensures v.Text()[a..a + c] == v.Text()[b..b + c]
  {
    hide StoredKey, LoadKey;
    SameKeys(v, a, b);
  }

  /** Given equal keys, the abbreviated comparison has the sign of the full suffix comparison:
      for suffixes shorter than the key, and for a zero byte in the text against the padding, too. */
  lemma CompareAfterKeySign(v: View, a: int, b: int)
    requires v.Valid() && 0 <= a < v.logicalLen && 0 <= b < v.logicalLen
    requires StoredKey(v, a) == StoredKey(v, b)
    ensures CompareAfterKey(v, a, b) < 0 <==> Less(v.Text(), a, b)
    ensures CompareAfterKey(v, a, b) > 0 <==> Less(v.Text(), b, a)
  {
    hide Less, Compare, BigEndian, StoredKey;
    if a == b {
      LessIrreflexive(v.Text(), a);
    } else {
      var t := v.Text();
      var n := |t|;
      var commonWithKey := if n - b < n - a then n - b else n - a;
      var k := if commonWithKey <= 3 then commonWithKey else 3;
      SameKeysSameText(v, a, b, k);
      SkipCommon(t, a, b, k);
      SkipCommon(t, b, a, k);
      if commonWithKey <= 3 {
        EndedSuffixes(t, a, b, commonWithKey);
      } else {
        CompareBehindKey(v, a, b, commonWithKey - 3);
      }
    }
  }

  lemma SliceOfText(v: View, p: int, c: nat)
    requires v.Valid() && 0 <= p && p + c <= v.logicalLen
    ensures v.data[p..][..c] == v.Text()[p..p + c]
  {
    forall i | 0 <= i < c ensures v.data[p..][..c][i] == v.Text()[p..p + c][i] {
    }
  }

  /** The part of the comparison behind the key, for a common stretch of the given length. */
  lemma CompareBehindKey(v: View, a: int, b: int, common: nat)
    requires v.Valid() && 0 <= a < v.logicalLen && 0 <= b < v.logicalLen && a != b && common > 0
    requires a + 3 + common <= v.logicalLen && b + 3 + common <= v.logicalLen
    requires a + 3 + common == v.logicalLen || b + 3 + common == v.logicalLen
    ensures CompareAfterKey(v, a, b) < 0 <==> Less(v.Text(), a + 3, b + 3)
    ensures CompareAfterKey(v, a, b) > 0 <==> Less(v.Text(), b + 3, a + 3)
  {
    hide Less, Compare, CompareCommon;
    var t := v.Text();
    var p, q := a + 3, b + 3;
    SliceOfText(v, p, common);
    SliceOfText(v, q, common);
    CompareCommonIsCompare(v.data[p..], v.data[q..], common);
    CompareStretches(t, p, q, common);
    EndedSuffixes(t, p, q, common);
    LeqTotal(t, p, q);
  }
}
