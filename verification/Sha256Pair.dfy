/** Hashing two messages at once (internal/astrobwt/sha256mb.go): interleaving the blocks both messages have
    and padding each tail in place gives, for every pair of lengths, the hashes of section 5.1.1 and 6.2 of
    FIPS 180-4 of each message on its own. */
module Sha256Pair {
  import opened Suffixes
  import opened Bytes
  import opened Difficulty

  /** The eight words of the hash value; compress is the hash computation on one 64-byte block. */
  type Word32 = x: nat | x < 0x1_0000_0000

  type Hash8 = h: seq<Word32> | |h| == 8 witness [0, 0, 0, 0, 0, 0, 0, 0]

  type Compress = (Hash8, seq<byte>) -> Hash8

  const IV: Hash8 := [0x6a09e667, 0xbb67ae85, 0x3c6ef372, 0xa54ff53a, 0x510e527f, 0x9b05688c, 0x1f83d9ab, 0x5be0cd19]

  // ----- What the hash is -----

  function Fold(f: Compress, h: Hash8, blocks: seq<byte>): Hash8
    requires |blocks| % 64 == 0
    decreases |blocks|
  {
    if blocks == [] then h else f(Fold(f, h, blocks[..|blocks| - 64]), blocks[|blocks| - 64..])
  }

  /** The number of zero bytes between the one bit and the length. */
  function PadZeros(len: nat): (z: nat)
    ensures (len + 1 + z + 8) % 64 == 0 && z < 64
  {
    if len % 64 < 56 then 55 - len % 64 else 119 - len % 64
  }

  /** The padded message: a one bit, the fewest zeros, and the length in bits. */
  function Pad(p: seq<byte>): (r: seq<byte>)
    ensures |r| % 64 == 0
  {
    p + [0x80] + Zeros(PadZeros(|p|)) + FillBytes(8 * |p|, 8)
  }

  /** The fewest zeros that fill the last block, between a one bit and the length of the message in bits. */
  lemma PadMeaning(p: seq<byte>)
    requires |p| < 0x2000_0000_0000_0000
    ensures var r := Pad(p);
            && p <= r && |r| % 64 == 0 && |p| + 9 <= |r| < |p| + 9 + 64 && r[|p|] == 0x80
            && (forall i :: |p| < i < |r| - 8 ==> r[i] == 0) && BigEndian(r[|r| - 8..]) == 8 * |p|
  {
    hide FillBytes, BigEndian;
    var r := Pad(p);
    assert r[|r| - 8..] == FillBytes(8 * |p|, 8);
    EightBytes();
    FillBytesValue(8 * |p|, 8);
  }

  lemma EightBytes()
    ensures Pow256(4) == 0x1_0000_0000 && Pow256(8) == 0x1_0000_0000_0000_0000
  {
    assert Pow256(1) == 256 by { assert Pow256(0) == 1; }
    Doubles(1, 256);
    Doubles(2, 0x1_0000);
    Doubles(4, 0x1_0000_0000);
  }

  /** The initial hash value of section 5.3.3 of FIPS 180-4: thirty-two bits of the fractional parts of the
      square roots of the first eight primes. */
  lemma InitialValue()
    ensures RootBits(2, 1, IV[0]) && RootBits(3, 1, IV[1]) && RootBits(5, 2, IV[2]) && RootBits(7, 2, IV[3])
    ensures RootBits(11, 3, IV[4]) && RootBits(13, 3, IV[5]) && RootBits(17, 4, IV[6]) && RootBits(19, 4, IV[7])
  {
  }

  /** The square root of n is whole plus a fraction that starts with these bits. */
  predicate RootBits(n: nat, whole: nat, bits: nat) {
    var root := whole * 0x1_0000_0000 + bits;
    root * root <= n * 0x1_0000_0000_0000_0000 < (root + 1) * (root + 1)
  }

  /** Hashing one block is one computation. */
  lemma FoldOne(f: Compress, h: Hash8, block: seq<byte>)
    requires |block| == 64
    ensures Fold(f, h, block) == f(h, block)
  {
    assert block[..0] == [] && block[0..] == block;
  }

  /** Thirty-two bytes, four a word, the highest first. */
  ghost predicate IsDigest(out: seq<byte>, h: Hash8) {
    |out| == 32 && forall i :: 0 <= i < 8 ==> BigEndian(out[4 * i..4 * i + 4]) == h[i]
  }

  lemma {:induction false} WordsSpell(h: seq<Word32>, i: nat)
    requires i < |h|
    ensures |Words(h)| == 4 * |h| && BigEndian(Words(h)[4 * i..4 * i + 4]) == h[i]
    decreases |h|
  {
    hide FillBytes, BigEndian;
    var k := |h| - 1;
    var last := FillBytes(h[k], 4);
    if k > 0 {
      WordsSpell(h[..k], if i < k then i else 0);
    }
    if i < k {
      assert Words(h)[4 * i..4 * i + 4] == Words(h[..k])[4 * i..4 * i + 4];
    } else {
      assert Words(h)[4 * i..4 * i + 4] == last;
      EightBytes();
      FillBytesValue(h[k], 4);
    }
  }

  lemma WordsDigest(h: Hash8)
    ensures IsDigest(Words(h), h)
  {
    hide Words, BigEndian;
    forall i | 0 <= i < 8 ensures |Words(h)| == 32 && BigEndian(Words(h)[4 * i..4 * i + 4]) == h[i] {
      WordsSpell(h, i);
    }
    WordsSpell(h, 0);
  }

  function Words(h: seq<Word32>): seq<byte> {
    if h == [] then [] else Words(h[..|h| - 1]) + FillBytes(h[|h| - 1], 4)
  }

  function Sha256(f: Compress, p: seq<byte>): seq<byte> {
    Words(Fold(f, IV, Pad(p)))
  }

  /** Folding is done block by block, so it may be interrupted anywhere between blocks. */
  lemma {:induction false} FoldConcat(f: Compress, h: Hash8, a: seq<byte>, b: seq<byte>)
    requires |a| % 64 == 0 && |b| % 64 == 0
    ensures Fold(f, h, a + b) == Fold(f, Fold(f, h, a), b)
    decreases |b|
  {
    if b == [] {
      assert a + b == a;
    } else {
      var n := |b| - 64;
      assert (a + b)[..|a + b| - 64] == a + b[..n] && (a + b)[|a + b| - 64..] == b[n..];
      FoldConcat(f, h, a, b[..n]);
    }
  }

  // ----- The block loops -----

  lemma FoldNext(f: Compress, h: Hash8, p: seq<byte>, i: nat)
    requires 64 * i + 64 <= |p|
    ensures Fold(f, h, p[..64 * i + 64]) == f(Fold(f, h, p[..64 * i]), p[64 * i..64 * i + 64])
  {
    var q := p[..64 * i + 64];
    assert q[..|q| - 64] == p[..64 * i] && q[|q| - 64..] == p[64 * i..64 * i + 64];
  }

  /** sha256BlocksNI. */
  method BlocksNI(f: Compress, state: Hash8, p: seq<byte>, nblocks: nat) returns (h: Hash8)
    requires 64 * nblocks <= |p|
    ensures h == Fold(f, state, p[..64 * nblocks])
  {
    h := state;
    assert p[..0] == [];
    var i := 0;
    while i < nblocks
      invariant 0 <= i <= nblocks && h == Fold(f, state, p[..64 * i])
    {
      FoldNext(f, state, p, i);
      h := f(h, p[64 * i..64 * i + 64]);
      i := i + 1;
    }
  }

  /** sha256Blocks2NI: the two streams advance block by block together. */
  method Blocks2NI(f: Compress, state0: Hash8, p0: seq<byte>, state1: Hash8, p1: seq<byte>, nblocks: nat) returns (h0: Hash8, h1: Hash8)
    requires 64 * nblocks <= |p0| && 64 * nblocks <= |p1|
    ensures h0 == Fold(f, state0, p0[..64 * nblocks]) && h1 == Fold(f, state1, p1[..64 * nblocks])
  {
    h0, h1 := state0, state1;
    assert p0[..0] == [] && p1[..0] == [];
    var i := 0;
    while i < nblocks
      invariant 0 <= i <= nblocks && h0 == Fold(f, state0, p0[..64 * i]) && h1 == Fold(f, state1, p1[..64 * i])
    {
      FoldNext(f, state0, p0, i);
      FoldNext(f, state1, p1, i);
      h0, h1 := f(h0, p0[64 * i..64 * i + 64]), f(h1, p1[64 * i..64 * i + 64]);
      i := i + 1;
    }
  }

  // ----- The tail -----

  /** The tail buffer: the rest of the message, the one bit, and the length at the end of its last block. */
  method FillTail(p: seq<byte>, full: nat) returns (tail: array<byte>, tlen: nat)
    requires full <= |p| < full + 64 && full % 64 == 0
    ensures tail.Length == 128 && tlen <= 128 && tlen % 64 == 0
    ensures p[..full] + tail[..tlen] == Pad(p)
  {
    tail := new byte[128](_ => 0);
    var rem := |p| - full;
    var i := 0;
    while i < rem
      invariant 0 <= i <= rem && forall k :: 0 <= k < 128 ==> tail[k] == if k < i then p[full + k] else 0
    {
      tail[i] := p[full + i];
      i := i + 1;
    }
    tail[rem] := 0x80;
    tlen := 64;
    if rem >= 56 {
      tlen := 128;
    }
    var bits := FillBytes(8 * |p|, 8);
    i := 0;
    while i < 8
      invariant 0 <= i <= 8
      invariant forall k :: 0 <= k < 128 ==>
                  tail[k] == if k < rem then p[full + k] else if k == rem then 0x80
                             else if tlen - 8 <= k < tlen - 8 + i then bits[k - (tlen - 8)] else 0
    {
      tail[tlen - 8 + i] := bits[i];
      i := i + 1;
    }
    assert TailHolds(tail[..tlen], p[full..], bits);
    TailIsPad(p, full, tail[..tlen], bits);
  }

  /** The tail holds the rest of the message, the one bit, zeros, and the length in its last bytes. */
  predicate TailHolds(tail: seq<byte>, rest: seq<byte>, bits: seq<byte>) {
    && |bits| == 8 && |rest| + 9 <= |tail|
    && forall k :: 0 <= k < |tail| ==>
         tail[k] == if k < |rest| then rest[k] else if k == |rest| then 0x80
                    else if |tail| - 8 <= k then bits[k - (|tail| - 8)] else 0
  }

  lemma TailIsPad(p: seq<byte>, full: nat, tail: seq<byte>, bits: seq<byte>)
    requires full <= |p| < full + 64 && full % 64 == 0 && |tail| == if |p| - full >= 56 then 128 else 64
    requires bits == FillBytes(8 * |p|, 8) && TailHolds(tail, p[full..], bits)
    ensures p[..full] + tail == Pad(p)
  {
    hide FillBytes, Zeros, TailHolds, PadZeros;
    ZerosFit(|p|, full, |tail|);
    TailParts(p[full..], bits, tail, PadZeros(|p|));
    Regroup(p[..full], p[full..], Zeros(PadZeros(|p|)), bits);
    assert p == p[..full] + p[full..];
  }

  lemma TailParts(rest: seq<byte>, bits: seq<byte>, tail: seq<byte>, zeros: nat)
    requires TailHolds(tail, rest, bits) && |tail| == |rest| + 1 + zeros + 8
    ensures tail == rest + [0x80] + Zeros(zeros) + bits
  {
    assert tail[..|rest|] == rest;
    assert tail[|rest| + 1..|tail| - 8] == Zeros(zeros);
    assert tail[|tail| - 8..] == bits;
    assert tail == tail[..|rest|] + [tail[|rest|]] + tail[|rest| + 1..|tail| - 8] + tail[|tail| - 8..];
  }

  lemma ZerosFit(len: nat, full: nat, tlen: nat)
    requires full <= len < full + 64 && full % 64 == 0 && tlen == if len - full >= 56 then 128 else 64
    ensures len - full + 1 + PadZeros(len) + 8 == tlen
  {
    assert len % 64 == len - full;
  }

  lemma Regroup(a: seq<byte>, b: seq<byte>, c: seq<byte>, d: seq<byte>)
    ensures a + (b + [0x80] + c + d) == (a + b) + [0x80] + c + d
  {
  }

  /** The digest: every word in big-endian order. */
  method WriteDigest(h: Hash8) returns (out: seq<byte>)
    ensures out == Words(h)
  {
    hide FillBytes;
    out := [];
    var i := 0;
    assert h[..0] == [];
    while i < 8
      invariant 0 <= i <= 8 && out == Words(h[..i])
    {
      out := out + FillBytes(h[i], 4);
      assert h[..i + 1][..i] == h[..i] && h[..i + 1][i] == h[i];
      i := i + 1;
    }
    assert h[..8] == h;
  }

  /** sha256FinishNI: pad and hash the tail, and write the digest. */
  method FinishNI(f: Compress, state: Hash8, p: seq<byte>, full: nat, ghost h0: Hash8) returns (out: seq<byte>)
    requires full <= |p| < full + 64 && full % 64 == 0 && state == Fold(f, h0, p[..full])
    ensures out == Words(Fold(f, h0, Pad(p))) && IsDigest(out, Fold(f, h0, Pad(p)))
  {
    hide Pad, Fold, Words, IsDigest;
    var tail, tlen := FillTail(p, full);
    WholeBlocks(tail[..], tlen);
    assert tail[..][..tlen] == tail[..tlen];
    var h := BlocksNI(f, state, tail[..], tlen / 64);
    FoldConcat(f, h0, p[..full], tail[..tlen]);
    out := WriteDigest(h);
    WordsDigest(h);
  }

  lemma WholeBlocks(tail: seq<byte>, tlen: nat)
    requires tlen <= |tail| && tlen % 64 == 0
    ensures tail[..64 * (tlen / 64)] == tail[..tlen]
  {
  }

  /** sha256Sum256Pair, for every pair of messages, of equal or different and even of zero length. */
  method Sum256Pair(f: Compress, useShaNi: bool, a: seq<byte>, b: seq<byte>) returns (ha: seq<byte>, hb: seq<byte>)
    ensures ha == Sha256(f, a) && hb == Sha256(f, b)
    ensures IsDigest(ha, Fold(f, IV, Pad(a))) && IsDigest(hb, Fold(f, IV, Pad(b)))
  {
    hide Pad, Fold, Words, IsDigest;
    WordsDigest(Fold(f, IV, Pad(a)));
    WordsDigest(Fold(f, IV, Pad(b)));
    if !useShaNi {
      return Sha256(f, a), Sha256(f, b);
    }
    var st0, st1 := IV, IV;
    var fa, fb := |a| - |a| % 64, |b| - |b| % 64;
    var shared := (if fa < fb then fa else fb) / 64;
    NoBlocks(f, a);
    NoBlocks(f, b);
    if shared > 0 {
      st0, st1 := Blocks2NI(f, st0, a, st1, b, shared);
    }
    st0 := RestOfBlocks(f, st0, a, shared, fa);
    st1 := RestOfBlocks(f, st1, b, shared, fb);
    ha := FinishNI(f, st0, a, fa, IV);
    hb := FinishNI(f, st1, b, fb, IV);
  }

  lemma NoBlocks(f: Compress, p: seq<byte>)
    ensures Fold(f, IV, p[..0]) == IV
  {
  }

  lemma BlocksBetween(p: seq<byte>, shared: nat, full: nat, n: nat)
    requires 64 * shared <= full <= |p| && full % 64 == 0 && n == full / 64 - shared
    ensures 64 * shared + 64 * n == full
    ensures p[..64 * shared] + p[64 * shared..][..64 * n] == p[..full]
  {
  }

  /** The blocks of the longer message behind the shared ones. */
  method RestOfBlocks(f: Compress, state: Hash8, p: seq<byte>, shared: nat, full: nat) returns (h: Hash8)
    requires 64 * shared <= full <= |p| && full % 64 == 0 && state == Fold(f, IV, p[..64 * shared])
    ensures h == Fold(f, IV, p[..full])
  {
    hide Fold;
    h := state;
    var n := full / 64 - shared;
    if n > 0 {
      BlocksBetween(p, shared, full, n);
      h := BlocksNI(f, state, p[64 * shared..], n);
      FoldConcat(f, IV, p[..64 * shared], p[64 * shared..][..64 * n]);
    }
  }
}
