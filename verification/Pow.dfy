/** The hash (internal/astrobwt/pow.go): the stream and its suffix array.  Whichever
    algorithm runs, and whether or not the fast one declines, the bytes that are hashed in the end are the
    same. */
module Pow {
  import opened Suffixes
  import opened Difficulty
  import opened Sorting
  import opened V114Records
  import opened V114Emit
  import opened V114
  import opened HashScratch
  import Loop = WolfLoop
  import Streams = WolfStreams
  import opened WolfOps
  import Buckets = SaisBuckets
  import Sais

  /** The integers of a byte text. */
  lemma BytesInAlphabet(text: seq<byte>)
    ensures Buckets.InAlphabet(text, 256)
  {
  }

  /** text_32_0alloc on the first dataLen entries of the scratch arrays. */
  method SortWithSais(s: ScratchData, dataLen: nat) returns (ok: bool)
    requires s.Valid() && dataLen <= MAX_LENGTH
    modifies s.sa
    ensures ok && IsSuffixArray(s.data[..dataLen], s.sa[..dataLen])
  {
    hide Less, IsSuffixArray;
    var text, slice := s.data[..dataLen], new int[dataLen];
    BytesInAlphabet(text);
    ghost var allocations;
    ok, allocations := Sais.Text32(text, slice);
    Sais.CopyBack(slice, s.sa, 0);
    assert s.sa[..dataLen] == s.sa[0..0 + dataLen] == slice[..];
  }

  /** The suffix-array stage.  Without the v114 path, or when it declines, the induced sort runs. */
  method SuffixArrayStage(s: ScratchData, dataLen: nat, useV114: bool, littleEndian: bool) returns (fellBack: bool)
    requires s.Valid() && dataLen <= MAX_LENGTH
    modifies s, s.data, s.sa, s.flags, s.v114
    ensures s.data[..dataLen] == old(s.data[..dataLen])
    ensures IsSuffixArray(s.data[..dataLen], s.sa[..dataLen])
    ensures fellBack <==> useV114 && !(littleEndian && 0 < dataLen && old(s.nTemplates) != 0)
  {
    hide Less, IsSuffixArray;
    fellBack := false;
    if !useV114 {
      var ok := SortWithSais(s, dataLen);
      return;
    }
    var ok := BuildSAv114(s, dataLen, littleEndian);
    if !ok {
      fellBack := true;
      ok := SortWithSais(s, dataLen);
    }
  }

  // ----- The hashed bytes -----

  /** The little-endian bytes of a suffix array, as int32 words. */
  function WordBytes(sa: seq<int>): seq<byte>
    requires forall i :: 0 <= i < |sa| ==> 0 <= sa[i]
  {
    if sa == [] then [] else WordBytes(sa[..|sa| - 1]) + Reversed(FillBytes(sa[|sa| - 1], 4))
  }

  lemma LittleEndianOfWord(x: nat)
    requires x < 0x1_0000_0000
    ensures var w := Reversed(FillBytes(x, 4));
            w == [x % 256, x / 0x100 % 256, x / 0x10000 % 256, x / 0x1000000 % 256] && LittleEndian(w) == x
  {
    var a, b, c, d := x % 256, x / 0x100 % 256, x / 0x10000 % 256, x / 0x1000000 % 256;
    assert FillBytes(x, 4) == FillBytes(x / 256, 3) + [a];
    assert FillBytes(x / 256, 3) == FillBytes(x / 256 / 256, 2) + [x / 256 % 256];
    assert FillBytes(x / 256 / 256, 2) == FillBytes(x / 256 / 256 / 256, 1) + [x / 256 / 256 % 256];
    assert FillBytes(x / 256 / 256 / 256, 1) == FillBytes(x / 256 / 256 / 256 / 256, 0) + [x / 256 / 256 / 256 % 256];
    Quotients(x);
    hide FillBytes;
    assert Reversed(FillBytes(x, 4)) == [a, b, c, d];
    Spelled4(a, b, c, d);
  }

  lemma Quotients(x: nat)
    requires x < 0x1_0000_0000
    ensures x / 256 / 256 == x / 0x10000 && x / 256 / 256 / 256 == x / 0x1000000
    ensures x == x % 256 + 0x100 * (x / 0x100 % 256) + 0x10000 * (x / 0x10000 % 256) + 0x1000000 * (x / 0x1000000 % 256)
  {
  }

  lemma Spelled4(a: byte, b: byte, c: byte, d: byte)
    ensures LittleEndian([a, b, c, d]) == a + 0x100 * b + 0x10000 * c + 0x1000000 * d
  {
    assert [a, b, c, d][1..] == [b, c, d] && [b, c, d][1..] == [c, d] && [c, d][1..] == [d] && [d][1..] == [];
    assert LittleEndian([d]) == d && LittleEndian([c, d]) == c + 256 * d && LittleEndian([b, c, d]) == b + 256 * (c + 256 * d);
  }

  /** Four bytes an entry, the lowest first. */
  ghost predicate SpellsEntries(bytes: seq<byte>, sa: seq<int>) {
    |bytes| == 4 * |sa| && forall i :: 0 <= i < |sa| ==> LittleEndian(bytes[4 * i..4 * i + 4]) == sa[i]
  }

  lemma {:induction false} WordBytesSpell(sa: seq<int>)
    requires forall i :: 0 <= i < |sa| ==> 0 <= sa[i] < 0x1_0000_0000
    ensures SpellsEntries(WordBytes(sa), sa)
    decreases |sa|
  {
    hide FillBytes, LittleEndian, Reversed;
    if sa != [] {
      var k := |sa| - 1;
      var front, last := WordBytes(sa[..k]), Reversed(FillBytes(sa[k], 4));
      WordBytesSpell(sa[..k]);
      LittleEndianOfWord(sa[k]);
      forall i | 0 <= i < |sa| ensures LittleEndian(WordBytes(sa)[4 * i..4 * i + 4]) == sa[i] {
        if i < k {
          assert WordBytes(sa)[4 * i..4 * i + 4] == front[4 * i..4 * i + 4];
          assert sa[..k][i] == sa[i];
        } else {
          assert WordBytes(sa)[4 * i..4 * i + 4] == last;
        }
      }
    }
  }

  /** Different arrays are hashed as different bytes. */
  lemma DifferentBytes(a: seq<int>, b: seq<int>)
    requires forall i :: 0 <= i < |a| ==> 0 <= a[i] < 0x1_0000_0000
    requires forall i :: 0 <= i < |b| ==> 0 <= b[i] < 0x1_0000_0000
    ensures WordBytes(a) == WordBytes(b) ==> a == b
  {
    hide WordBytes, LittleEndian;
    WordBytesSpell(a);
    WordBytesSpell(b);
    if WordBytes(a) == WordBytes(b) {
      forall i | 0 <= i < |a| ensures a[i] == b[i] {
        assert a[i] == LittleEndian(WordBytes(a)[4 * i..4 * i + 4]);
      }
    }
  }

  /** The final SHA-256 input is determined by the text: two suffix arrays of one text, from whatever
      algorithms, spell the same bytes. */
  lemma SameBytes(text: seq<byte>, a: seq<int>, b: seq<int>)
    requires IsSuffixArray(text, a) && IsSuffixArray(text, b)
    ensures forall i :: 0 <= i < |a| ==> 0 <= a[i]
    ensures forall i :: 0 <= i < |b| ==> 0 <= b[i]
    ensures WordBytes(a) == WordBytes(b)
  {
    hide Less;
    SuffixArrayUnique(text, a, b);
  }

  // ----- Markers -----

  lemma MarkerSplits(f: nat, c: nat)
    requires f <= 300 && c <= 300
    ensures Streams.Marker(f, c) / 0x80 == Or(f, c / 0x80) && Streams.Marker(f, c) % 0x80 == c % 0x80
  {
    hide Or;
    OrSeven(f, c);
    OrBounds(f, c / 0x80);
    HighLow(Or(f, c / 0x80), c % 0x80);
  }

  lemma HighLow(high: nat, low: nat)
    requires high < 0x200 && low < 0x80
    ensures var x := (0x80 * high + low) % 0x10000;
            x / 0x80 == high && x % 0x80 == low
  {
    assert 0x80 * high + low < 0x10000;
  }

  /** A marker names the boundary behind its chunks exactly if their number fits in its seven bits. */
  lemma MarkerExact(f: nat, c: nat)
    requires f <= 300 && 0 < c <= 300
    ensures MarksBoundary(Streams.Marker(f, c), f + c) <==> c < 0x80
  {
    hide Or;
    MarkerSplits(f, c);
    OrBounds(f, c / 0x80);
    hide Streams.Marker;
    assert c == 0x80 * (c / 0x80) + c % 0x80;
  }

  // ----- From the stream to its suffix array -----

  /** The text whose suffix array is hashed: the part of the stream that is kept. */
  function HashText(k: Loop.Prims, bodies: Loop.Bodies, s0: Loop.St, n: nat): (t: seq<byte>)
    requires Loop.Whole(s0) && Loop.ProperBodies(bodies) && Loop.StopsAt(k, bodies, s0, n)
    ensures |t| == Loop.DataLen(Loop.After(k, bodies, s0, n), n) && 0 < |t| <= 70911
    ensures t <= Loop.Ints(Loop.Stream(k, bodies, s0, n))
  {
    Loop.DataLenBounds(k, bodies, s0, n);
    Loop.Ints(Loop.Stream(k, bodies, s0, n))[..Loop.DataLen(Loop.After(k, bodies, s0, n), n)]
  }

  /** astroBWTv3Stream.  Every hash ends with the suffix array of its text; on a
      little-endian host none takes the fallback. */
  method AstroBWTv3Stream(k: Loop.Prims, bodies: Loop.Bodies, input: seq<byte>, scratch: ScratchData, useV114: bool, littleEndian: bool)
    returns (dataLen: nat, fellBack: bool, ghost n: nat)
    requires Loop.ProperBodies(bodies) && scratch.Valid()
    modifies scratch, scratch.data, scratch.markers, scratch.sa, scratch.flags, scratch.v114
    ensures var s0 := Loop.Start(k, input);
            && Loop.StopsAt(k, bodies, s0, n)
            && dataLen == |HashText(k, bodies, s0, n)| <= MAX_LENGTH
            && scratch.data[..dataLen] == HashText(k, bodies, s0, n)
            && IsSuffixArray(HashText(k, bodies, s0, n), scratch.sa[..dataLen])
    ensures fellBack <==> useV114 && !littleEndian
  {
    hide Less, IsSuffixArray, Loop.Start, Loop.After, Loop.Stream, Loop.DataLen;
    var step := new bv8[256](_ => 0);
    var hash0, rc40 := Streams.Prologue(k, input, step);
    ghost var s0 := Loop.Start(k, input);
    var length;
    ghost var starts;
    length, n, starts := Streams.SwitchStream(k, bodies, step, hash0, rc40, scratch);
    Loop.DataLenBounds(k, bodies, s0, n);
    dataLen := length;
    assert scratch.data[..dataLen] == scratch.data[..n * 256][..dataLen] == HashText(k, bodies, s0, n);
    fellBack := SuffixArrayStage(scratch, dataLen, useV114, littleEndian);
  }

  /** Two computations of one hash, by whatever forms of the loop and of the suffix sort, hash the same
      bytes. */
  lemma SameHash(k: Loop.Prims, bodies: Loop.Bodies, s0: Loop.St, m: nat, n: nat, a: seq<int>, b: seq<int>)
    requires Loop.Whole(s0) && Loop.ProperBodies(bodies) && Loop.StopsAt(k, bodies, s0, m) && Loop.StopsAt(k, bodies, s0, n)
    requires IsSuffixArray(HashText(k, bodies, s0, m), a) && IsSuffixArray(HashText(k, bodies, s0, n), b)
    ensures forall i :: 0 <= i < |a| ==> 0 <= a[i]
    ensures forall i :: 0 <= i < |b| ==> 0 <= b[i]
    ensures WordBytes(a) == WordBytes(b)
  {
    hide Less, IsSuffixArray, Loop.StopsAt;
    Loop.StopsOnce(k, bodies, s0, m, n);
    SameBytes(HashText(k, bodies, s0, n), a, b);
  }

  // ----- The hash -----

  /** The suffix array of a text. */
  ghost function SuffixArrayOf(t: seq<byte>): (sa: seq<int>)
    ensures IsSuffixArray(t, sa) && forall i :: 0 <= i < |sa| ==> 0 <= sa[i]
  {
    SortPositionsSorted(t, Iota(|t|));
    SortedIotaIsSuffixArray(t, SortPositions(t, Iota(|t|)));
    SortPositions(t, Iota(|t|))
  }

  /** The hash: the digest of the suffix array of the stream of the input. */
  ghost function Sum(k: Loop.Prims, bodies: Loop.Bodies, input: seq<byte>): seq<byte>
    requires Loop.ProperBodies(bodies)
  {
    var s0 := Loop.Start(k, input);
    k.sha(WordBytes(SuffixArrayOf(HashText(k, bodies, s0, Loop.LastRound(k, bodies, s0)))))
  }

  /** The hashed bytes spell the entries of the suffix array of the text. */
  lemma SumSpells(k: Loop.Prims, bodies: Loop.Bodies, input: seq<byte>)
    requires Loop.ProperBodies(bodies)
    ensures exists sa, bytes ::
              IsSuffixArray(HashText(k, bodies, Loop.Start(k, input), Loop.LastRound(k, bodies, Loop.Start(k, input))), sa)
              && SpellsEntries(bytes, sa) && Sum(k, bodies, input) == k.sha(bytes)
  {
    var s0 := Loop.Start(k, input);
    var text := HashText(k, bodies, s0, Loop.LastRound(k, bodies, s0));
    hide Loop.Start, HashText, WordBytes, SuffixArrayOf, SpellsEntries;
    var sa := SuffixArrayOf(text);
    EntriesFit(text, sa);
    WordBytesSpell(sa);
    assert SpellsEntries(WordBytes(sa), sa);
  }

  lemma EntriesFit(t: seq<byte>, sa: seq<int>)
    requires IsSuffixArray(t, sa) && |t| <= 0x1_0000_0000
    ensures forall i :: 0 <= i < |sa| ==> 0 <= sa[i] < 0x1_0000_0000
  {
    hide Less;
  }

  /** Whoever finds the stopping round and sorts its text has the hash. */
  lemma HasSum(k: Loop.Prims, bodies: Loop.Bodies, input: seq<byte>, n: nat, sa: seq<int>)
    requires Loop.ProperBodies(bodies) && Loop.StopsAt(k, bodies, Loop.Start(k, input), n)
    requires IsSuffixArray(HashText(k, bodies, Loop.Start(k, input), n), sa)
    ensures forall i :: 0 <= i < |sa| ==> 0 <= sa[i]
    ensures k.sha(WordBytes(sa)) == Sum(k, bodies, input)
  {
    hide IsSuffixArray, Loop.Start, Loop.StopsAt, HashText, WordBytes, SuffixArrayOf;
    var s0 := Loop.Start(k, input);
    var m := Loop.LastRound(k, bodies, s0);
    SameHash(k, bodies, s0, m, n, SuffixArrayOf(HashText(k, bodies, s0, m)), sa);
  }

  /** astroBWTv3 on a little-endian host: the hash, with either algorithm. */
  method AstroBWTv3(k: Loop.Prims, bodies: Loop.Bodies, input: seq<byte>, scratch: ScratchData, useV114: bool) returns (hash: seq<byte>)
    requires Loop.ProperBodies(bodies) && scratch.Valid()
    modifies scratch, scratch.data, scratch.markers, scratch.sa, scratch.flags, scratch.v114
    ensures hash == Sum(k, bodies, input)
    ensures exists sa, bytes ::
              IsSuffixArray(HashText(k, bodies, Loop.Start(k, input), Loop.LastRound(k, bodies, Loop.Start(k, input))), sa)
              && SpellsEntries(bytes, sa) && hash == k.sha(bytes)
  {
    hide IsSuffixArray, Loop.Start, Loop.StopsAt, HashText, WordBytes, Sum, SpellsEntries;
    SumSpells(k, bodies, input);
    ghost var n;
    var dataLen, fellBack;
    dataLen, fellBack, n := AstroBWTv3Stream(k, bodies, input, scratch, useV114, true);
    HasSum(k, bodies, input, n, scratch.sa[..dataLen]);
    hash := k.sha(WordBytes(scratch.sa[..dataLen]));
  }
}
