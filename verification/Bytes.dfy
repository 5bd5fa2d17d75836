/** Byte strings: the lexicographic comparison of Go's bytes.Compare and big-endian integers. */
module Bytes {
  import opened Suffixes

  /** bytes.Compare: -1, 0 or 1, a proper prefix comparing as smaller. */
  function Compare(a: seq<int>, b: seq<int>): int
    decreases |a|
  {
    if a == [] then (if b == [] then 0 else -1)
    else if b == [] || a[0] > b[0] then 1
    else if a[0] < b[0] then -1
    else Compare(a[1..], b[1..])
  }

  lemma {:induction false} CompareEqual(a: seq<int>, b: seq<int>)
    ensures Compare(a, b) == 0 <==> a == b
    decreases |a|
  {
    if a != [] && b != [] && a[0] == b[0] {
      CompareEqual(a[1..], b[1..]);
      assert a == [a[0]] + a[1..] && b == [b[0]] + b[1..];
    }
  }

  /** Comparing two stretches of one text decides the order of the suffixes they begin,
      unless the stretches are equal. */
  lemma {:induction false} CompareStretches(t: seq<int>, a: int, b: int, c: nat)
    requires 0 <= a <= a + c <= |t| && 0 <= b <= b + c <= |t|
    ensures var r := Compare(t[a..a + c], t[b..b + c]);
            && (r < 0 ==> Less(t, a, b))
            && (r > 0 ==> Less(t, b, a))
            && (r == 0 ==> (Less(t, a, b) <==> Less(t, a + c, b + c))
                           && (Less(t, b, a) <==> Less(t, b + c, a + c)))
    decreases c
  {
    if c > 0 {
      assert t[a..a + c][1..] == t[a + 1..a + 1 + (c - 1)];
      assert t[b..b + c][1..] == t[b + 1..b + 1 + (c - 1)];
      CompareStretches(t, a + 1, b + 1, c - 1);
    }
  }

  lemma {:induction false} CompareRange(a: seq<int>, b: seq<int>)
    ensures -1 <= Compare(a, b) <= 1
    decreases |a|
  {
    if a != [] && b != [] && a[0] == b[0] {
      CompareRange(a[1..], b[1..]);
    }
  }

  /** Comparing the first k characters and then the rest is comparing the whole. */
  lemma {:induction false} CompareSplit(a: seq<int>, b: seq<int>, k: nat)
    requires k <= |a| && k <= |b|
    ensures Compare(a, b) == if a[..k] == b[..k] then Compare(a[k..], b[k..]) else Compare(a[..k], b[..k])
    decreases k
  {
    if k > 0 {
      assert a[..k] == [a[0]] + a[1..][..k - 1] && b[..k] == [b[0]] + b[1..][..k - 1];
      assert a[..k][1..] == a[1..][..k - 1] && b[..k][1..] == b[1..][..k - 1];
      CompareSplit(a[1..], b[1..], k - 1);
      assert a[1..][k - 1..] == a[k..] && b[1..][k - 1..] == b[k..];
    }
  }

  /** bytes.Compare on two suffixes of one text is the suffix order. */
  lemma {:induction false} CompareSuffixes(t: seq<int>, a: int, b: int)
    requires 0 <= a <= |t| && 0 <= b <= |t|
    ensures Compare(t[a..], t[b..]) < 0 <==> Less(t, a, b)
    ensures Compare(t[a..], t[b..]) > 0 <==> Less(t, b, a)
    decreases |t| - a
  {
    if a < |t| && b < |t| {
      assert t[a..][1..] == t[a + 1..] && t[b..][1..] == t[b + 1..];
      CompareSuffixes(t, a + 1, b + 1);
    }
  }

  // ----- Big-endian integers -----

  /** The integer whose base-256 digits are s, most significant first. */
  function BigEndian(s: seq<byte>): nat {
    if s == [] then 0 else BigEndian(s[..|s| - 1]) * 256 + s[|s| - 1]
  }

  lemma CompareSingle(x: int, y: int)
    ensures Compare([x], [y]) == if x < y then -1 else if x > y then 1 else 0
  {
    assert [x][1..] == [] && [y][1..] == [];
  }

  /** Equally long byte strings compare as the big-endian integers they spell. */
  lemma {:induction false} CompareBigEndian(a: seq<byte>, b: seq<byte>)
    requires |a| == |b|
    ensures Compare(a, b) < 0 <==> BigEndian(a) < BigEndian(b)
    ensures Compare(a, b) > 0 <==> BigEndian(a) > BigEndian(b)
    ensures Compare(a, b) == 0 <==> a == b
    ensures -1 <= Compare(a, b) <= 1
    decreases |a|
  {
    hide Compare;
    CompareRange(a, b);
    CompareEqual(a, b);
    if a == [] {
      assert a == b;
    } else {
      var k := |a| - 1;
      CompareSplit(a, b, k);
      assert a[k..] == [a[k]] && b[k..] == [b[k]];
      CompareSingle(a[k], b[k]);
      CompareEqual(a[..k], b[..k]);
      CompareBigEndian(a[..k], b[..k]);
      assert a == a[..k] + [a[k]] && b == b[..k] + [b[k]];
    }
  }

  function Pow256(n: nat): (p: nat)
    ensures p > 0
  {
    if n == 0 then 1 else 256 * Pow256(n - 1)
  }

  function Zeros(n: nat): (z: seq<byte>)
    ensures |z| == n
  {
    seq(n, _ => 0)
  }
}
