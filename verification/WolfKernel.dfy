/** The GPU form of the hash front end's loop (internal/gpu/wgsl/fronthalf.wgsl): bytes in 32-bit words, the
    flattened operation table, and the stream written four bytes to a word. */
module WolfKernel {
  import opened Suffixes
  import opened WolfOps
  import opened WolfLoop
  import opened WolfStreams

  // ----- The uploaded table -----

  /** The table for the GPU: five words a case, the count and up to four codes. */
  ghost predicate Flat(t: seq<nat>, ops: seq<seq<nat>>) {
    && |ops| == 256 && |t| == 1280
    && forall c {:trigger ops[c]} :: 0 <= c < 256 ==> FlatAt(t, ops[c], c)
  }

  ghost predicate FlatAt(t: seq<nat>, codes: seq<nat>, c: nat) {
    && |t| == 1280 && c < 256 && |codes| <= 4
    && t[c * 5] == |codes| && forall n :: 0 <= n < |codes| ==> t[c * 5 + 1 + n] == codes[n]
  }

  /** WolfOpTable. */
  method WolfOpTable(ops: seq<seq<nat>>) returns (t: seq<nat>)
    requires |ops| == 256 && forall c :: 0 <= c < 256 ==> |ops[c]| <= 4
    ensures Flat(t, ops)
  {
    t := seq(1280, _ => 0);
    var c := 0;
    while c < 256
      invariant 0 <= c <= 256 && |t| == 1280 && forall d {:trigger ops[d]} :: 0 <= d < c ==> FlatAt(t, ops[d], d)
    {
      ghost var before := t;
      t := t[c * 5 := |ops[c]|];
      var n := 0;
      while n < |ops[c]|
        invariant 0 <= n <= |ops[c]| && |t| == 1280 && t[c * 5] == |ops[c]|
        invariant forall m :: 0 <= m < n ==> t[c * 5 + 1 + m] == ops[c][m]
        invariant forall x :: 0 <= x < c * 5 ==> t[x] == before[x]
      {
        t := t[c * 5 + 1 + n := ops[c][n]];
        n := n + 1;
      }
      forall d | 0 <= d < c ensures FlatAt(t, ops[d], d) {
        assert FlatAt(before, ops[d], d);
      }
      c := c + 1;
    }
  }

  // ----- Words that hold bytes -----

  function WideSeq(s: seq<bv8>): (r: seq<bv32>)
    ensures |r| == |s|
  {
    seq(|s|, i requires 0 <= i < |s| => Wide(s[i]))
  }

  function Narrow(w: bv32): bv8 {
    (w & 0xff) as bv8
  }

  function NarrowSeq(s: seq<bv32>): (r: seq<bv8>)
    ensures |r| == |s|
  {
    seq(|s|, i requires 0 <= i < |s| => Narrow(s[i]))
  }

  lemma NarrowWide(x: bv8)
    ensures Narrow(Wide(x)) == x
  {
  }

  lemma NarrowWideSeq(s: seq<bv8>, n: nat)
    requires n <= |s|
    ensures NarrowSeq(WideSeq(s)[..n]) == s[..n]
  {
    hide Narrow, Wide;
    forall i | 0 <= i < n ensures NarrowSeq(WideSeq(s)[..n])[i] == s[i] {
      NarrowWide(s[i]);
    }
  }

  function DiffWide(a: bv32, b: bv32): bv32 {
    (a - b) & 0xff
  }

  predicate Under32(d: bv32, bound: bv32) { d < bound }
  predicate UpTo32(d: bv32, bound: bv32) { d <= bound }

  lemma UnderWide(a: bv8, b: bv8)
    ensures Under32(DiffWide(Wide(a), Wide(b)), 0x10) <==> Under(a, b, 0x10)
    ensures Under32(DiffWide(Wide(a), Wide(b)), 0x20) <==> Under(a, b, 0x20)
    ensures Under32(DiffWide(Wide(a), Wide(b)), 0x30) <==> Under(a, b, 0x30)
    ensures UpTo32(DiffWide(Wide(a), Wide(b)), 0x40) <==> UpTo(a, b, 0x40)
  {
  }

  lemma LimitWide(x: bv8)
    ensures Wide(x) >= 0xf0 <==> x >= 0xf0
  {
  }

  function XorMasked(x: bv32, p: bv32): bv32 {
    (x ^ p) & 0xff
  }

  lemma XorMaskedWide(x: bv8, p: bv8)
    ensures XorMasked(Wide(x), Wide(p)) == Wide(Xor(x, p))
  {
  }

  function FoldMasked(x: bv32, a: bv32, b: bv32): bv32 {
    (x ^ a ^ b) & 0xff
  }

  lemma FoldMaskedWide(x: bv8, a: bv8, b: bv8)
    ensures FoldMasked(Wide(x), Wide(a), Wide(b)) == Wide(Xor(Xor(x, a), b))
  {
  }

  // ----- One byte -----

  /** fh_wolfApply: the codes of case c, looked up in the uploaded table, on a masked word. */
  method FhWolfApply(table: seq<nat>, c: nat, word0: bv32, wordP: bv32, ghost x0: bv8, ghost p: bv8, ghost body: seq<Stmt>) returns (x: bv32)
    requires ProperBody(body) && FlatAt(table, Codes(body), c) && word0 == Wide(x0) && wordP == Wide(p)
    ensures x == Wide(ApplyBody(body, x0, p))
  {
    hide Exec, ApplyByte, ApplyWide, Wide, Pack, ApplyBody;
    x := word0;
    BodyPrefix(body, 0, x0, p);
    var cnt := table[c * 5];
    var n := 0;
    while n < cnt
      invariant 0 <= n <= cnt == |body| && x == Wide(ApplyBody(body[..n], x0, p))
    {
      ghost var y := ApplyBody(body[..n], x0, p);
      var code := table[c * 5 + 1 + n];
      assert code == Codes(body)[n] == Pack(body[n]);
      CodeRunsStatement(body[n], y, p);
      WideRunsCode(code / 256, (code % 256) as bv8, y, p);
      x := ApplyWide(code / 256, Wide((code % 256) as bv8), x, wordP);
      BodyPrefix(body, n + 1, x0, p);
      n := n + 1;
    }
    assert body[..|body|] == body;
  }

  lemma BodyPrefix(body: seq<Stmt>, n: nat, x0: bv8, p: bv8)
    requires ProperBody(body) && n <= |body|
    ensures n == 0 ==> ApplyBody(body[..n], x0, p) == x0
    ensures n > 0 ==> ApplyBody(body[..n], x0, p) == Exec(body[n - 1], ApplyBody(body[..n - 1], x0, p), p)
  {
    hide Exec;
    if n > 0 {
      assert body[..n][..n - 1] == body[..n - 1] && body[..n][n - 1] == body[n - 1];
    }
  }

  /** The reversal of case 0 on words. */
  method FhSwap(step: array<bv32>, pos1: nat, pos2: nat, ghost s: seq<bv8>)
    requires step.Length == 256 == |s| && pos1 < pos2 < 256 && step[..] == WideSeq(s)
    modifies step
    ensures step[..] == WideSeq(Swap(s, pos1, pos2))
  {
    hide Wide, Rev32, Reverse8;
    assert step[..][pos1] == Wide(s[pos1]) && step[..][pos2] == Wide(s[pos2]);
    ReverseWide(s[pos1]);
    ReverseWide(s[pos2]);
    var a, b := Rev32(step[pos1]), Rev32(step[pos2]);
    step[pos2] := a;
    step[pos1] := b;
    assert step[..] == WideSeq(Swap(s, pos1, pos2));
  }

  /** The byte loop of one round. */
  method FhCase(k: Prims, table: seq<nat>, op: byte, step: array<bv32>, lhash0: nat, prev0: nat, pos1: nat, pos2: nat,
                ghost s: St, ghost body: seq<Stmt>)
    returns (lhash: nat, prev: nat)
    requires ProperBody(body) && FlatAt(table, Codes(body), op) && step.Length == 256 && pos1 <= pos2 < 256
    requires Whole(s) && step[..] == WideSeq(s.step) && s.lhash == lhash0 && s.prev == prev0
    modifies step
    ensures var s' := Work(k, op, body, s, pos1, pos2, pos2);
            step[..] == WideSeq(s'.step) && lhash == s'.lhash && prev == s'.prev && s'.rc4 == s.rc4
  {
    hide ApplyBody, Swap, WideSeq, NarrowSeq, Codes, FlatAt;
    lhash, prev := lhash0, prev0;
    var i := pos1;
    while i < pos2
      invariant pos1 <= i <= pos2
      invariant var t := Work(k, op, body, s, pos1, i, pos2);
                step[..] == WideSeq(t.step) && lhash == t.lhash && prev == t.prev && t.rc4 == s.rc4
    {
      ghost var t := Work(k, op, body, s, pos1, i, pos2);
      FhByte(table, op, step, i, pos2, t.step, body);
      ghost var worked := t.step[i := ApplyBody(body, t.step[i], t.step[pos2])];
      if op == 0 {
        FhSwap(step, pos1, pos2, worked);
      }
      if op == 253 {
        prev := k.sum(lhash, prev);
        NarrowWideSeq(worked, pos2);
        assert step[..pos2] == step[..][..pos2];
        lhash := k.xx(NarrowSeq(step[..pos2]));
      }
      i := i + 1;
    }
  }

  method FhByte(table: seq<nat>, op: byte, step: array<bv32>, i: nat, pos2: nat, ghost s: seq<bv8>, ghost body: seq<Stmt>)
    requires ProperBody(body) && FlatAt(table, Codes(body), op) && step.Length == 256 == |s| && i < pos2 < 256
    requires step[..] == WideSeq(s)
    modifies step
    ensures step[..] == WideSeq(s[i := ApplyBody(body, s[i], s[pos2])])
  {
    hide ApplyBody, Codes, FlatAt, Wide;
    assert step[..][i] == Wide(s[i]) && step[..][pos2] == Wide(s[pos2]);
    var x := FhWolfApply(table, op, step[i], step[pos2], s[i], s[pos2], body);
    step[i] := x;
    assert step[..] == WideSeq(s[i := ApplyBody(body, s[i], s[pos2])]);
  }

  // ----- The rest of a round -----

  /** fh_rc4_xor256. */
  method FhXor(k: Prims, step: array<bv32>, rc4: seq<bv8>, ghost s: seq<bv8>) returns (rc4': seq<bv8>)
    requires step.Length == 256 == |s| && step[..] == WideSeq(s)
    modifies step
    ensures step[..] == WideSeq(Encrypt(k, rc4, s)) && rc4' == k.advance(rc4)
  {
    hide Xor, XorMasked, Wide;
    assert forall j :: 0 <= j < 256 ==> step[j] == step[..][j] == Wide(s[j]);
    var n := 0;
    while n < 256
      invariant 0 <= n <= 256
      invariant forall j :: 0 <= j < 256 ==> step[j] == if j < n then Wide(Xor(s[j], k.key(rc4, j))) else Wide(s[j])
    {
      XorMaskedWide(s[n], k.key(rc4, n));
      step[n] := XorMasked(step[n], Wide(k.key(rc4, n)));
      n := n + 1;
    }
    assert step[..] == WideSeq(Encrypt(k, rc4, s));
    rc4' := k.advance(rc4);
  }

  /** The thresholds: here the difference is computed once, before the hashes. */
  method FhThresholds(k: Prims, step: array<bv32>, lhash0: nat, prev0: nat, rc40: seq<bv8>, tries: nat, pos1: nat, pos2: nat, ghost s: St)
    returns (lhash: nat, prev: nat, rc4: seq<bv8>)
    requires step.Length == 256 && pos1 <= pos2 < 256
    requires Whole(s) && step[..] == WideSeq(s.step) && s.lhash == lhash0 && s.prev == prev0 && s.rc4 == rc40
    modifies step
    ensures var s' := Thresholds(k, s, tries, pos1, pos2);
            step[..] == WideSeq(s'.step) && lhash == s'.lhash && prev == s'.prev && rc4 == s'.rc4
  {
    hide Encrypt, Under, UpTo, Under32, UpTo32, DiffWide, NarrowSeq, Wide;
    lhash, prev, rc4 := lhash0, prev0, rc40;
    assert step[..][pos1] == Wide(s.step[pos1]) && step[..][pos2] == Wide(s.step[pos2]);
    UnderWide(s.step[pos1], s.step[pos2]);
    NarrowWideSeq(s.step, pos2);
    assert step[..pos2] == step[..][..pos2];
    var diff := DiffWide(step[pos1], step[pos2]);
    if Under32(diff, 0x10) {
      prev := k.sum(lhash, prev);
      lhash := k.xx(NarrowSeq(step[..pos2]));
    }
    if Under32(diff, 0x20) {
      prev := k.sum(lhash, prev);
      lhash := k.fnv(NarrowSeq(step[..pos2]));
    }
    if Under32(diff, 0x30) {
      prev := k.sum(lhash, prev);
      lhash := k.sip(tries, prev, NarrowSeq(step[..pos2]));
    }
    if UpTo32(diff, 0x40) {
      rc4 := FhXor(k, step, rc4, s.step);
    }
  }

  method FhFold(step: array<bv32>, pos1: nat, pos2: nat, ghost s: seq<bv8>)
    requires step.Length == 256 == |s| && pos1 <= pos2 < 256 && step[..] == WideSeq(s)
    modifies step
    ensures step[..] == WideSeq(Last(s, pos1, pos2))
  {
    hide Wide, Xor, FoldMasked;
    assert step[..][pos1] == Wide(s[pos1]) && step[..][pos2] == Wide(s[pos2]) && step[..][255] == Wide(s[255]);
    FoldMaskedWide(s[255], s[pos1], s[pos2]);
    step[255] := FoldMasked(step[255], step[pos1], step[pos2]);
    assert step[..] == WideSeq(Last(s, pos1, pos2));
  }

  const TWO_TO_32: nat := 0x1_0000_0000

  /** The case and the range from the low half of the switch word, in 32-bit arithmetic. */
  method FhRange(rs: nat) returns (op: byte, pos1: byte, pos2: byte)
    requires rs < TWO_TO_32
    ensures op == SwitchByte(rs, 0)
    ensures pos1 == Low(SwitchByte(rs, 1), SwitchByte(rs, 2)) && pos2 == High(SwitchByte(rs, 1), SwitchByte(rs, 2))
  {
    WordBytesOf(rs);
    op := rs % 0x100;
    var p1, p2 := rs / 0x100 % 0x100, rs / 0x10000 % 0x100;
    RangeEnds(p1, p2);
    hide Low, High, SwitchByte;
    if p1 > p2 {
      var t := p1;
      p1 := p2;
      p2 := t;
    }
    SmallMod(p2 - p1, TWO_TO_32);
    if (p2 - p1) % TWO_TO_32 > 32 {
      SmallMod(p1 + (p2 - p1) % 0x20, TWO_TO_32);
      p2 := (p1 + (p2 - p1) % TWO_TO_32 % 0x20) % TWO_TO_32;
    }
    pos1, pos2 := p1, p2;
  }

  lemma LowWord(word: nat)
    ensures forall n :: 0 <= n < 3 ==> SwitchByte(word % TWO_TO_32, n) == SwitchByte(word, n)
  {
    WordBytesOf(word);
    WordBytesOf(word % TWO_TO_32);
    LowQuotients(word);
    hide SwitchByte;
  }

  lemma LowQuotients(word: nat)
    ensures var rs := word % TWO_TO_32;
            rs % 256 == word % 256 && rs / 256 % 256 == word / 256 % 256 && rs / 0x10000 % 256 == word / 0x10000 % 256
  {
    var q, rs := word / TWO_TO_32, word % TWO_TO_32;
    Above(0x1000000 * q, rs);
    Above(0x10000 * q, rs / 256);
    Above(0x100 * q, rs / 256 / 256);
    TwoBytes(word);
    TwoBytes(rs);
  }

  lemma Above(y: nat, r: nat)
    ensures (256 * y + r) / 256 == y + r / 256 && (256 * y + r) % 256 == r % 256
  {
  }

  lemma TwoBytes(x: nat)
    ensures x / 0x10000 == x / 256 / 256
  {
  }

  /** One round of the kernel. */
  method FhRound(k: Prims, table: seq<nat>, step: array<bv32>, lhash0: nat, prev0: nat, rc40: seq<bv8>, tries: nat,
                 ghost s: St, ghost bodies: Bodies)
    returns (lhash: nat, prev: nat, rc4: seq<bv8>)
    requires ProperBodies(bodies) && step.Length == 256
    requires forall c :: 0 <= c < 256 ==> FlatAt(table, Codes(bodies[c]), c)
    requires Whole(s) && step[..] == WideSeq(s.step) && s.lhash == lhash0 && s.prev == prev0 && s.rc4 == rc40
    modifies step
    ensures var s' := Round(k, bodies, s, tries);
            step[..] == WideSeq(s'.step) && lhash == s'.lhash && prev == s'.prev && rc4 == s'.rc4
  {
    hide Work, Thresholds, Last, WideSeq, NarrowSeq, Codes, FlatAt, SwitchByte, High;
    var word := k.mix(prev0, lhash0, tries);
    var op, pos1, pos2 := FhRange(word % TWO_TO_32);
    LowWord(word);
    rc4 := rc40;
    if op == 254 || op == 255 {
      NarrowWideSeq(s.step, 256);
      assert step[..256] == step[..] && s.step[..256] == s.step && WideSeq(s.step)[..256] == WideSeq(s.step);
      rc4 := k.rekey(NarrowSeq(step[..]));
    }
    ghost var s1 := Rekeyed(k, op, s);
    lhash, prev := FhCase(k, table, op, step, lhash0, prev0, pos1, pos2, s1, bodies[op]);
    ghost var s2 := Work(k, op, bodies[op], s1, pos1, pos2, pos2);
    lhash, prev, rc4 := FhThresholds(k, step, lhash, prev, rc4, tries, pos1, pos2, s2);
    FhFold(step, pos1, pos2, Thresholds(k, s2, tries, pos1, pos2).step);
  }

  // ----- The packed output -----

  function PackWord(a: bv32, b: bv32, c: bv32, d: bv32): bv32 {
    (a & 0xff) | ((b & 0xff) << 8) | ((c & 0xff) << 16) | ((d & 0xff) << 24)
  }

  /** Byte j of a word, least significant first. */
  function ByteOf(w: bv32, j: nat): bv8
    requires j < 4
  {
    if j == 0 then Narrow(w) else if j == 1 then Narrow(w >> 8) else if j == 2 then Narrow(w >> 16) else Narrow(w >> 24)
  }

  lemma PackedBytes(a: bv8, b: bv8, c: bv8, d: bv8)
    ensures var w := PackWord(Wide(a), Wide(b), Wide(c), Wide(d));
            ByteOf(w, 0) == a && ByteOf(w, 1) == b && ByteOf(w, 2) == c && ByteOf(w, 3) == d
  {
  }

  /** The bytes of a word, each at its place, are the word. */
  lemma WordOfBytes(w: bv32)
    ensures w == Wide(ByteOf(w, 0)) + 0x100 * Wide(ByteOf(w, 1)) + 0x10000 * Wide(ByteOf(w, 2)) + 0x1000000 * Wide(ByteOf(w, 3))
  {
  }

  /** The bytes a reader of the packed words sees. */
  function Unpacked(words: seq<bv32>): (r: seq<bv8>)
    ensures |r| == 4 * |words|
  {
    seq(4 * |words|, i requires 0 <= i < 4 * |words| => ByteOf(words[i / 4], i % 4))
  }

  /** Write a 256-byte chunk as 64 words behind the earlier ones. */
  method PackChunk(step: array<bv32>, out: array<bv32>, base: nat, tries: nat, ghost s: seq<bv8>)
    requires step.Length == 256 == |s| && step[..] == WideSeq(s) && step != out
    requires 0 < tries && base + tries * 64 <= out.Length
    modifies out
    ensures Unpacked(out[base..base + tries * 64]) == Unpacked(old(out[base..base + (tries - 1) * 64])) + s
    ensures forall x :: 0 <= x < out.Length && !(base + (tries - 1) * 64 <= x < base + tries * 64) ==> out[x] == old(out[x])
  {
    hide PackWord, ByteOf, Wide;
    assert forall j :: 0 <= j < 256 ==> step[j] == step[..][j] == Wide(s[j]);
    var wbase := base + (tries - 1) * 64;
    var w := 0;
    while w < 64
      invariant 0 <= w <= 64
      invariant forall x :: 0 <= x < out.Length && !(wbase <= x < wbase + w) ==> out[x] == old(out[x])
      invariant forall x {:trigger WordHolds(out[..], wbase, s, x)} :: 0 <= x < w ==> WordHolds(out[..], wbase, s, x)
    {
      var b := w * 4;
      PackedBytes(s[b], s[b + 1], s[b + 2], s[b + 3]);
      ghost var was := out[..];
      out[wbase + w] := PackWord(step[b], step[b + 1], step[b + 2], step[b + 3]);
      assert out[..] == was[wbase + w := PackWord(Wide(s[b]), Wide(s[b + 1]), Wide(s[b + 2]), Wide(s[b + 3]))];
      forall x | 0 <= x <= w ensures WordHolds(out[..], wbase, s, x) {
        assert x < w ==> WordHolds(was, wbase, s, x);
      }
      w := w + 1;
    }
    ghost var before, after := old(out[base..base + (tries - 1) * 64]), out[base..base + tries * 64];
    assert |before| == (tries - 1) * 64 && |after| == tries * 64;
    forall x | 0 <= x < |before| ensures after[x] == before[x] {
      assert after[x] == out[base + x];
    }
    forall x | 0 <= x < 64 ensures WordHolds(after, |before|, s, x) {
      assert WordHolds(out[..], wbase, s, x);
      assert after[|before| + x] == out[..][wbase + x];
    }
    ChunkUnpacked(before, after, s);
  }

  /** Word x behind from holds its four bytes of the chunk. */
  predicate WordHolds(words: seq<bv32>, from: nat, s: seq<bv8>, x: nat) {
    && |s| == 256 && x < 64 && from + x < |words|
    && var w := words[from + x];
       && ByteOf(w, 0) == s[4 * x] && ByteOf(w, 1) == s[4 * x + 1]
       && ByteOf(w, 2) == s[4 * x + 2] && ByteOf(w, 3) == s[4 * x + 3]
  }

  lemma ChunkUnpacked(before: seq<bv32>, after: seq<bv32>, s: seq<bv8>)
    requires |s| == 256 && |after| == |before| + 64
    requires forall x :: 0 <= x < |before| ==> after[x] == before[x]
    requires forall x {:trigger WordHolds(after, |before|, s, x)} :: 0 <= x < 64 ==> WordHolds(after, |before|, s, x)
    ensures Unpacked(after) == Unpacked(before) + s
  {
    hide ByteOf;
    forall i | 0 <= i < 4 * |after| ensures Unpacked(after)[i] == (Unpacked(before) + s)[i] {
      if i >= 4 * |before| {
        var j := i - 4 * |before|;
        assert i / 4 == |before| + j / 4 && i % 4 == j % 4;
        assert WordHolds(after, |before|, s, j / 4);
      }
    }
  }

  // ----- The loop -----

  /** The prologue: the key stream is stored byte by byte. */
  method FhPrologue(k: Prims, input: seq<byte>, step: array<bv32>) returns (hash: nat, rc4: seq<bv8>)
    requires step.Length == 256
    modifies step
    ensures var s := Start(k, input);
            step[..] == WideSeq(s.step) && hash == s.lhash == s.prev && rc4 == s.rc4
  {
    hide Encrypt, Wide, Narrow;
    var key := k.sha(input);
    var i := 0;
    while i < 256
      invariant 0 <= i <= 256 && forall j :: 0 <= j < i ==> step[j] == Wide(k.salsa(key, j))
    {
      step[i] := Wide(k.salsa(key, i));
      i := i + 1;
    }
    ghost var s := Expanded(k, input);
    assert step[..] == WideSeq(s);
    NarrowWhole(step[..], s);
    rc4 := k.rekey(NarrowSeq(step[..]));
    ghost var table := Encrypt(k, rc4, s);
    rc4 := FhXor(k, step, rc4, s);
    NarrowWhole(step[..], table);
    hash := k.fnv(NarrowSeq(step[..]));
  }

  lemma NarrowWhole(words: seq<bv32>, s: seq<bv8>)
    requires words == WideSeq(s)
    ensures NarrowSeq(words) == s
  {
    hide Narrow, Wide;
    NarrowWideSeq(s, |s|);
    assert words[..|s|] == words && s[..|s|] == s;
  }

  /** fronthalf_main for one input: the packed words hold the very stream of the CPU forms, and
      the length is theirs. */
  method FrontHalf(k: Prims, table: seq<nat>, input: seq<byte>, out: array<bv32>, outBase: nat, ghost bodies: Bodies)
    returns (outLen: int, ghost n: nat)
    requires ProperBodies(bodies)
    requires forall c :: 0 <= c < 256 ==> FlatAt(table, Codes(bodies[c]), c)
    requires outBase + MAX_LENGTH / 4 <= out.Length
    modifies out
    ensures var s0 := Start(k, input);
            && StopsAt(k, bodies, s0, n) && outBase + n * 64 <= out.Length
            && Unpacked(out[outBase..outBase + n * 64]) == Stream(k, bodies, s0, n)
            && outLen == DataLen(After(k, bodies, s0, n), n)
    ensures forall x :: 0 <= x < outBase ==> out[x] == old(out[x])
  {
    hide Start, Round, After, Stream, DataLen, WideSeq, Unpacked, FlatAt, Codes;
    var step := new bv32[256];
    var hash0, rc40 := FhPrologue(k, input, step);
    ghost var s0 := Start(k, input);
    ghost var s := s0;
    var lhash, prev, rc4, tries := hash0, hash0, rc40, 0;
    StartReached(k, bodies, s0);
    NothingUnpacked(out[outBase..outBase + tries * 64]);
    while true
      invariant 0 <= tries <= 276 && Whole(s0) && Whole(s) && outBase + (tries + 1) * 64 <= out.Length
      invariant step[..] == WideSeq(s.step) && lhash == s.lhash && prev == s.prev && rc4 == s.rc4
      invariant Reached(k, bodies, s0, s, Unpacked(out[outBase..outBase + tries * 64]), tries)
      invariant forall x :: 0 <= x < outBase ==> out[x] == old(out[x])
      decreases 277 - tries
    {
      ghost var before, data := s, Unpacked(out[outBase..outBase + tries * 64]);
      tries := tries + 1;
      lhash, prev, rc4 := FhRound(k, table, step, lhash, prev, rc4, tries, s, bodies);
      s := Round(k, bodies, s, tries);
      PackChunk(step, out, outBase, tries, s.step);
      NextRound(k, bodies, s0, before, data, tries - 1, s, Unpacked(out[outBase..outBase + tries * 64]));
      LastByte(step[..], s.step);
      if tries > 276 || (step[255] >= 0xf0 && tries > 260) {
        break;
      }
    }
    n := tries;
    outLen := FhLength(step, tries, s);
  }

  lemma LastByte(words: seq<bv32>, s: seq<bv8>)
    requires |s| == 256 && words == WideSeq(s)
    ensures words[255] >= 0xf0 <==> s[255] >= 0xf0
  {
    hide Wide;
    LimitWide(s[255]);
  }

  lemma NothingUnpacked(words: seq<bv32>)
    requires words == []
    ensures Unpacked(words) == []
  {
  }

  method FhLength(step: array<bv32>, tries: nat, ghost s: St) returns (outLen: int)
    requires step.Length == 256 && Whole(s) && step[..] == WideSeq(s.step)
    ensures outLen == DataLen(s, tries)
  {
    hide Wide, Narrow;
    assert step[..][253] == Wide(s.step[253]) && step[..][254] == Wide(s.step[254]);
    NarrowWide(s.step[253]);
    NarrowWide(s.step[254]);
    outLen := (tries - 4) * 256 + ((Narrow(step[253]) as int) * 256 + Narrow(step[254]) as int) % 0x400;
  }
}
