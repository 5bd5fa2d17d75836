/** Hashing with the GPU's suffix-array kernel.  On the portable path (internal/gpu/pipeline.go,
    internal/gpu/sa_batch.go, internal/gpu/sa_session.go) the CPU makes the streams, uploads them four bytes
    to a word, and hashes the suffix arrays it reads back; the result is the hash the CPU computes alone.
    The front half of the fused path leaves its streams in the same layout; the kernel the code runs behind
    it is not part of this model. */
module GpuHash {
  import opened Suffixes
  import opened WolfOps
  import opened WolfLoop
  import opened WolfStreams
  import opened WolfKernel
  import opened KernelSort
  import opened DoublingKernel
  import HashScratch
  import Pow

  /** The kernel's reader of packed words sees the bytes the front half wrote. */
  lemma ReadsWhatWasWritten(words: seq<bv32>, written: seq<bv32>, n: nat)
    requires written <= words && n <= 4 * |written|
    ensures PackedText(words, n) == Ints(Unpacked(written))[..n]
  {
    hide ByteOf;
    forall i | 0 <= i < n ensures PackedText(words, n)[i] == Ints(Unpacked(written))[i] {
      assert words[i / 4] == written[i / 4];
    }
  }

  /** The front half's words, sorted by this kernel: the result is the suffix array of the very text of the
      CPU forms. */
  method GpuSuffixArray(k: Prims, table: seq<nat>, input: seq<byte>, out: array<bv32>, outBase: nat, w: Workgroup, ghost bodies: Bodies)
    returns (sa: array<int>, ghost n: nat)
    requires ProperBodies(bodies) && w.Valid()
    requires forall c :: 0 <= c < 256 ==> FlatAt(table, Codes(bodies[c]), c)
    requires outBase + MAX_LENGTH / 4 <= out.Length
    modifies out, w.Arrays()
    ensures var s0 := Start(k, input);
            StopsAt(k, bodies, s0, n) && IsSuffixArray(Pow.HashText(k, bodies, s0, n), sa[..])
  {
    hide IsSuffixArray, Start, StopsAt, After, Stream, DataLen, FlatAt, Codes, Unpacked;
    ghost var s0 := Start(k, input);
    var length;
    length, n := FrontHalf(k, table, input, out, outBase, bodies);
    ghost var written := out[outBase..outBase + n * 64];
    DataLenBounds(k, bodies, s0, n);
    StopsOnce(k, bodies, s0, n, n);
    var words := out[outBase..outBase + MAX_LENGTH / 4];
    assert words[..n * 64] == written;
    ReadsWhatWasWritten(words, written, length);
    sa := new int[length];
    var sa2, rank, rank2, scan := new int[length], new int[length], new int[length], new int[LANES];
    ghost var rounds := SaBatchMain(words, length, sa, sa2, rank, rank2, scan, w);
  }

  // ----- Upload -----

  /** The bytes and words of a text row. */
  const STRIDE: nat := MAX_LENGTH
  const ROW_WORDS: nat := MAX_LENGTH / 4

  /** Byte i of the uploaded row. */
  function UploadByte(data: seq<byte>, i: nat): bv8 {
    if i < |data| then AsBits(data[i]) else 0
  }

  /** Word w of the uploaded row; the last one is filled up with zeros. */
  function UploadWord(data: seq<byte>, w: nat): bv32 {
    PackWord(Wide(UploadByte(data, 4 * w)), Wide(UploadByte(data, 4 * w + 1)),
             Wide(UploadByte(data, 4 * w + 2)), Wide(UploadByte(data, 4 * w + 3)))
  }

  lemma UploadedWord(data: seq<byte>, w: nat, j: nat)
    requires j < 4
    ensures ByteOf(UploadWord(data, w), j) == UploadByte(data, 4 * w + j)
  {
    hide PackWord, ByteOf, Wide, UploadByte;
    PackedBytes(UploadByte(data, 4 * w), UploadByte(data, 4 * w + 1), UploadByte(data, 4 * w + 2), UploadByte(data, 4 * w + 3));
  }

  lemma UploadedByte(data: seq<byte>, i: nat)
    requires i < |data|
    ensures ByteOf(UploadWord(data, i / 4), i % 4) as int == data[i]
  {
    hide UploadWord, ByteOf, AsBits;
    UploadedWord(data, i / 4, i % 4);
    ByteThere(data[i]);
  }

  function AsBits(x: byte): bv8 {
    x as bv8
  }

  lemma BitsModulo(x: byte)
    ensures AsBits(x) as int == x % 256
  {
  }

  lemma ByteThere(x: byte)
    ensures AsBits(x) as int == x
  {
    hide AsBits;
    BitsModulo(x);
  }

  /** Upload one text to its row: whole words first, then the rest in a padded one.  What was in the row
      behind the text stays. */
  method Upload(text: array<bv32>, base: nat, data: seq<byte>)
    requires |data| <= STRIDE && base + ROW_WORDS <= text.Length
    modifies text
    ensures PackedText(text[base..base + ROW_WORDS], |data|) == data
    ensures forall x :: 0 <= x < text.Length && !(base <= x < base + ROW_WORDS) ==> text[x] == old(text[x])
  {
    hide UploadWord, ByteOf;
    var whole := |data| / 4;
    var w := 0;
    while w < whole
      invariant 0 <= w <= whole
      invariant forall x :: 0 <= x < w ==> text[base + x] == UploadWord(data, x)
      invariant forall x :: 0 <= x < text.Length && !(base <= x < base + w) ==> text[x] == old(text[x])
    {
      text[base + w] := UploadWord(data, w);
      w := w + 1;
    }
    if |data| % 4 > 0 {
      text[base + w] := UploadWord(data, w);
    }
    UploadedText(text[base..base + ROW_WORDS], data);
  }

  lemma UploadedText(words: seq<bv32>, data: seq<byte>)
    requires |data| <= 4 * |words|
    requires forall x :: 0 <= x < |words| && 4 * x < |data| ==> words[x] == UploadWord(data, x)
    ensures PackedText(words, |data|) == data
  {
    hide UploadWord, ByteOf;
    forall i | 0 <= i < |data| ensures PackedText(words, |data|)[i] == data[i] {
      UploadedByte(data, i);
    }
  }

  function Row(text: seq<bv32>, i: nat): (row: seq<bv32>)
    requires (i + 1) * ROW_WORDS <= |text|
    ensures |row| == ROW_WORDS
  {
    text[i * ROW_WORDS..(i + 1) * ROW_WORDS]
  }

  /** Row i reads as the text. */
  ghost predicate Holds(text: seq<bv32>, i: nat, data: seq<byte>) {
    (i + 1) * ROW_WORDS <= |text| && |data| <= STRIDE && PackedText(Row(text, i), |data|) == data
  }

  method UploadAll(text: array<bv32>, datas: seq<seq<byte>>)
    requires |datas| * ROW_WORDS <= text.Length && forall i :: 0 <= i < |datas| ==> |datas[i]| <= STRIDE
    modifies text
    ensures forall i :: 0 <= i < |datas| ==> Holds(text[..], i, datas[i])
  {
    hide PackedText, Holds;
    var i := 0;
    while i < |datas|
      invariant 0 <= i <= |datas|
      invariant forall k :: 0 <= k < i ==> Holds(text[..], k, datas[k])
    {
      assert (i + 1) * ROW_WORDS <= |datas| * ROW_WORDS;
      UploadRow(text, i, datas[i]);
      i := i + 1;
    }
  }

  method UploadRow(text: array<bv32>, i: nat, data: seq<byte>)
    requires |data| <= STRIDE && (i + 1) * ROW_WORDS <= text.Length
    modifies text
    ensures Holds(text[..], i, data)
    ensures forall k: nat, d :: k < i && old(Holds(text[..], k, d)) ==> Holds(text[..], k, d)
  {
    hide PackedText, Row;
    ghost var before := text[..];
    Upload(text, i * ROW_WORDS, data);
    assert Row(text[..], i) == text[i * ROW_WORDS..i * ROW_WORDS + ROW_WORDS] by { RowSlice(text[..], i); }
    forall k: nat, d | k < i && Holds(before, k, d) ensures Holds(text[..], k, d) {
      RowKept(before, text[..], k, i);
    }
  }

  lemma RowSlice(text: seq<bv32>, i: nat)
    requires (i + 1) * ROW_WORDS <= |text|
    ensures Row(text, i) == text[i * ROW_WORDS..i * ROW_WORDS + ROW_WORDS]
  {
  }

  lemma RowKept(before: seq<bv32>, after: seq<bv32>, k: nat, i: nat)
    requires k < i && |before| == |after| && (i + 1) * ROW_WORDS <= |before|
    requires forall x :: 0 <= x < |before| && !(i * ROW_WORDS <= x < i * ROW_WORDS + ROW_WORDS) ==> after[x] == before[x]
    ensures Row(after, k) == Row(before, k)
  {
    var lo, hi := k * ROW_WORDS, (k + 1) * ROW_WORDS;
    assert hi <= i * ROW_WORDS;
    SliceKept(before, after, lo, hi);
  }

  lemma SliceKept(before: seq<bv32>, after: seq<bv32>, lo: nat, hi: nat)
    requires lo <= hi <= |before| == |after| && forall x :: lo <= x < hi ==> after[x] == before[x]
    ensures after[lo..hi] == before[lo..hi]
  {
  }

  // ----- One dispatch -----

  /** One workgroup sorts one row. */
  method SortRow(words: seq<bv32>, n: nat) returns (sa: seq<int>)
    requires n <= 4 * |words| && n <= STRIDE
    ensures IsSuffixArray(PackedText(words, n), sa)
  {
    hide IsSuffixArray, PackedText;
    var w := new Workgroup();
    var row, sa2, rank, rank2, scan := new int[n], new int[n], new int[n], new int[n], new int[LANES];
    ghost var rounds := SaBatchMain(words, n, row, sa2, rank, rank2, scan, w);
    sa := row[..];
  }

  /** The workgroups of a dispatch, in any order. */
  method Dispatch(text: seq<bv32>, datas: seq<seq<byte>>) returns (sas: seq<seq<int>>)
    requires forall i :: 0 <= i < |datas| ==> Holds(text, i, datas[i])
    ensures |sas| == |datas| && forall i :: 0 <= i < |datas| ==> IsSuffixArray(datas[i], sas[i])
  {
    hide IsSuffixArray, PackedText, Row;
    sas := seq(|datas|, _ => []);
    var todo := Below(|datas|);
    while todo != {}
      invariant |sas| == |datas| && todo <= Below(|datas|)
      invariant forall i: nat :: i < |datas| && i !in todo ==> IsSuffixArray(datas[i], sas[i])
    {
      var i :| i in todo;
      todo := todo - {i};
      assert Holds(text, i, datas[i]);
      var sa := SortRow(Row(text, i), |datas[i]|);
      sas := sas[i := sa];
    }
  }

  // ----- Reading back -----

  function Concat(rows: seq<seq<int>>): seq<int> {
    if rows == [] then [] else Concat(rows[..|rows| - 1]) + rows[|rows| - 1]
  }

  lemma {:induction false} ConcatAt(rows: seq<seq<int>>, i: nat)
    requires i < |rows|
    ensures |Concat(rows[..i + 1])| == |Concat(rows[..i])| + |rows[i]| && |Concat(rows[..i + 1])| <= |Concat(rows)|
    ensures Concat(rows)[|Concat(rows[..i])|..|Concat(rows[..i + 1])|] == rows[i]
    decreases |rows|
  {
    var k := |rows| - 1;
    assert rows[..i + 1][..i] == rows[..i] && rows[..i + 1][i] == rows[i];
    if i < k {
      ConcatAt(rows[..k], i);
      assert rows[..k][..i + 1] == rows[..i + 1] && rows[..k][..i] == rows[..i];
    } else {
      assert rows[..i + 1] == rows;
    }
  }

  /** decodeSA: the rows come back to back and are told apart by their lengths. */
  method DecodeSA(words: seq<int>, lens: seq<nat>, ghost rows: seq<seq<int>>) returns (res: seq<seq<int>>)
    requires words == Concat(rows) && |lens| == |rows| && forall i :: 0 <= i < |rows| ==> lens[i] == |rows[i]|
    ensures res == rows
  {
    res := [];
    var base := 0;
    var i := 0;
    while i < |lens|
      invariant 0 <= i <= |lens| && base == |Concat(rows[..i])| && res == rows[..i]
    {
      ConcatAt(rows, i);
      var n := lens[i];
      res := res + [words[base..base + n]];
      base := base + n;
      i := i + 1;
    }
    assert rows[..|rows|] == rows;
  }

  /** SuffixArrayBatch: refused if the rows exceed the binding limit, or a text its row, or if the device
      reports an error; otherwise the suffix array of every text. */
  method SuffixArrayBatch(datas: seq<seq<byte>>, text: array<bv32>, limit: nat, error: bool) returns (ok: bool, sas: seq<seq<int>>)
    requires |datas| * ROW_WORDS <= text.Length
    modifies text
    ensures ok <==> |datas| == 0 || (!(limit > 0 && |datas| * STRIDE * 4 > limit) && !error
                                     && forall i :: 0 <= i < |datas| ==> |datas[i]| <= STRIDE)
    ensures ok ==> |sas| == |datas| && forall i :: 0 <= i < |datas| ==> IsSuffixArray(datas[i], sas[i])
  {
    hide IsSuffixArray, Holds, Concat;
    ok, sas := true, [];
    if |datas| == 0 {
      return;
    }
    if limit > 0 && |datas| * STRIDE * 4 > limit {
      return false, [];
    }
    var lens: seq<nat> := [];
    var i := 0;
    while i < |datas|
      invariant 0 <= i <= |datas| == |datas| && |lens| == i
      invariant forall k :: 0 <= k < i ==> lens[k] == |datas[k]| <= STRIDE
    {
      if |datas[i]| > STRIDE {
        return false, [];
      }
      lens := lens + [|datas[i]|];
      i := i + 1;
    }
    UploadAll(text, datas);
    if error {
      return false, [];
    }
    var rows := Dispatch(text[..], datas);
    RowLengths(datas, rows);
    var packed := Concat(rows);
    sas := DecodeSA(packed, lens, rows);
  }

  lemma RowLengths(datas: seq<seq<byte>>, rows: seq<seq<int>>)
    requires |rows| == |datas| && forall i :: 0 <= i < |datas| ==> IsSuffixArray(datas[i], rows[i])
    ensures forall i :: 0 <= i < |rows| ==> |rows[i]| == |datas[i]|
  {
  }

  // ----- The portable path -----

  /** HashBatch: the streams from the CPU, the suffix arrays from the GPU, the digests from the CPU.  Every
      result is the hash of its input; only the binding limit or a device error makes it fail. */
  method HashBatch(k: Prims, bodies: Bodies, inputs: seq<seq<byte>>, text: array<bv32>, limit: nat, error: bool)
    returns (ok: bool, out: seq<seq<byte>>)
    requires ProperBodies(bodies) && |inputs| * ROW_WORDS <= text.Length
    modifies text
    ensures ok <==> |inputs| == 0 || (!(limit > 0 && |inputs| * STRIDE * 4 > limit) && !error)
    ensures ok ==> |out| == |inputs| && forall i :: 0 <= i < |inputs| ==> out[i] == Pow.Sum(k, bodies, inputs[i])
  {
    hide IsSuffixArray, Start, StopsAt, Pow.Sum, Pow.HashText, Pow.WordBytes;
    var datas, ns := Streams(k, bodies, inputs);
    var sas;
    ok, sas := SuffixArrayBatch(datas, text, limit, error);
    out := [];
    if !ok {
      return;
    }
    var i := 0;
    while i < |sas|
      invariant 0 <= i <= |sas| && |out| == i && forall j :: 0 <= j < i ==> out[j] == Pow.Sum(k, bodies, inputs[j])
    {
      Pow.HasSum(k, bodies, inputs[i], ns[i], sas[i]);
      EntriesFit(Pow.HashText(k, bodies, Start(k, inputs[i]), ns[i]), sas[i]);
      var digest := FinalHash(k, sas[i]);
      out := out + [digest];
      i := i + 1;
    }
  }

  lemma EntriesFit(t: seq<byte>, sa: seq<int>)
    requires IsSuffixArray(t, sa) && |t| <= STRIDE
    ensures forall i :: 0 <= i < |sa| ==> 0 <= sa[i] < 0x1_0000_0000
  {
    Pow.EntriesFit(t, sa);
  }

  /** finalHash: every entry as four bytes, the lowest first. */
  method FinalHash(k: Prims, sa: seq<int>) returns (digest: seq<byte>)
    requires forall i :: 0 <= i < |sa| ==> 0 <= sa[i] < 0x1_0000_0000
    ensures digest == k.sha(Pow.WordBytes(sa))
    ensures exists bytes :: Pow.SpellsEntries(bytes, sa) && digest == k.sha(bytes)
  {
    hide Pow.SpellsEntries;
    var buf: seq<byte> := [];
    var i := 0;
    while i < |sa|
      invariant 0 <= i <= |sa| && buf == Pow.WordBytes(sa[..i])
    {
      var v := sa[i];
      Pow.LittleEndianOfWord(v);
      assert sa[..i + 1][..i] == sa[..i] && sa[..i + 1][i] == v;
      buf := buf + [v % 0x100, v / 0x100 % 0x100, v / 0x10000 % 0x100, v / 0x1000000 % 0x100];
      i := i + 1;
    }
    assert sa[..|sa|] == sa;
    Pow.WordBytesSpell(sa);
    digest := k.sha(buf);
  }

  /** OracleStream of every input, each with buffers of its own. */
  method Streams(k: Prims, bodies: Bodies, inputs: seq<seq<byte>>) returns (datas: seq<seq<byte>>, ghost ns: seq<nat>)
    requires ProperBodies(bodies)
    ensures |datas| == |ns| == |inputs|
    ensures forall i :: 0 <= i < |inputs| ==>
              StopsAt(k, bodies, Start(k, inputs[i]), ns[i])
              && datas[i] == Pow.HashText(k, bodies, Start(k, inputs[i]), ns[i]) && |datas[i]| <= STRIDE
  {
    hide IsSuffixArray, Start, StopsAt, Pow.HashText;
    datas, ns := [], [];
    var i := 0;
    while i < |inputs|
      invariant 0 <= i <= |inputs| && |datas| == |ns| == i
      invariant forall j :: 0 <= j < i ==>
                  StopsAt(k, bodies, Start(k, inputs[j]), ns[j])
                  && datas[j] == Pow.HashText(k, bodies, Start(k, inputs[j]), ns[j]) && |datas[j]| <= STRIDE
    {
      var scratch := new HashScratch.ScratchData();
      ghost var n;
      var dataLen, fellBack;
      dataLen, fellBack, n := Pow.AstroBWTv3Stream(k, bodies, inputs[i], scratch, false, true);
      datas := datas + [scratch.data[..dataLen]];
      ns := ns + [n];
      i := i + 1;
    }
  }
}
