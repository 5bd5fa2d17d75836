/** The two CPU forms of the hash front end's loop: the switch of internal/astrobwt/pow.go, whose statements
    read and write the table in place, and the table-driven internal/astrobwt/wolftable.go. */
module WolfStreams {
  import opened Suffixes
  import opened WolfOps
  import opened WolfLoop
  import HashScratch

  ghost predicate ProperBody(body: seq<Stmt>) {
    forall j :: 0 <= j < |body| ==> Proper(body[j])
  }

  // ----- One byte -----

  /** The statements of a case body on step[i], each reading step[i] and step[pos2] afresh. */
  method RunStatements(body: seq<Stmt>, step: array<bv8>, i: nat, pos2: nat)
    requires ProperBody(body) && step.Length == 256 && i < pos2 < 256
    modifies step
    ensures step[..] == old(step[..])[i := ApplyBody(body, old(step[i]), old(step[pos2]))]
  {
    hide Exec;
    ghost var before := step[..];
    var n := 0;
    while n < |body|
      invariant 0 <= n <= |body|
      invariant step[..] == before[i := ApplyBody(body[..n], before[i], before[pos2])]
    {
      assert step[i] == step[..][i] && step[pos2] == step[..][pos2];
      step[i] := Exec(body[n], step[i], step[pos2]);
      assert body[..n + 1][..n] == body[..n] && body[..n + 1][n] == body[n];
      n := n + 1;
    }
    assert body[..|body|] == body;
  }

  /** wolfApplyByte: the packed codes on a byte held in a variable. */
  method WolfApplyByte(codes: seq<nat>, x0: bv8, p: bv8, ghost body: seq<Stmt>) returns (x: bv8)
    requires ProperBody(body) && codes == Codes(body)
    ensures x == ApplyBody(body, x0, p)
  {
    hide Exec, ApplyByte, Pack;
    x := x0;
    var n := 0;
    while n < |codes|
      invariant 0 <= n <= |codes| && x == ApplyBody(body[..n], x0, p)
    {
      CodeRunsStatement(body[n], x, p);
      x := ApplyByte(codes[n] / 256, (codes[n] % 256) as bv8, x, p);
      assert body[..n + 1][..n] == body[..n] && body[..n + 1][n] == body[n];
      n := n + 1;
    }
    assert body[..|body|] == body;
  }

  /** What the table compiler makes of a body. */
  function Codes(body: seq<Stmt>): (r: seq<nat>)
    ensures |r| == |body|
  {
    seq(|body|, i requires 0 <= i < |body| => Pack(body[i]))
  }

  // ----- The bytes of a round -----

  /** The reversal of case 0, with both entries read before either is written. */
  method SwapEnds(step: array<bv8>, pos1: nat, pos2: nat)
    requires step.Length == 256 && pos1 < pos2 < 256
    modifies step
    ensures step[..] == Swap(old(step[..]), pos1, pos2)
  {
    hide Reverse8;
    step[pos2], step[pos1] := Reverse8(step[pos1]), Reverse8(step[pos2]);
    assert step[..] == Swap(old(step[..]), pos1, pos2);
  }

  /** The loop of one case of the switch. */
  method SwitchCase(k: Prims, op: byte, body: seq<Stmt>, step: array<bv8>, lhash0: nat, prev0: nat, pos1: nat, pos2: nat, ghost rc4: seq<bv8>)
    returns (lhash: nat, prev: nat)
    requires ProperBody(body) && step.Length == 256 && pos1 <= pos2 < 256
    modifies step
    ensures St(step[..], lhash, prev, rc4) == Work(k, op, body, St(old(step[..]), lhash0, prev0, rc4), pos1, pos2, pos2)
  {
    hide ApplyBody, Swap;
    ghost var s := St(step[..], lhash0, prev0, rc4);
    lhash, prev := lhash0, prev0;
    var i := pos1;
    while i < pos2
      invariant pos1 <= i <= pos2
      invariant St(step[..], lhash, prev, rc4) == Work(k, op, body, s, pos1, i, pos2)
    {
      RunStatements(body, step, i, pos2);
      if op == 0 {
        SwapEnds(step, pos1, pos2);
      }
      if op == 253 {
        prev := k.sum(lhash, prev);
        lhash := k.xx(step[..pos2]);
        assert step[..pos2] == step[..][..pos2];
      }
      i := i + 1;
    }
  }

  /** The same loop in the table-driven form. */
  method TableCase(k: Prims, op: byte, codes: seq<nat>, step: array<bv8>, lhash0: nat, prev0: nat, pos1: nat, pos2: nat,
                   ghost rc4: seq<bv8>, ghost body: seq<Stmt>)
    returns (lhash: nat, prev: nat)
    requires ProperBody(body) && codes == Codes(body) && step.Length == 256 && pos1 <= pos2 < 256
    modifies step
    ensures St(step[..], lhash, prev, rc4) == Work(k, op, body, St(old(step[..]), lhash0, prev0, rc4), pos1, pos2, pos2)
  {
    hide ApplyBody, Swap;
    ghost var s := St(step[..], lhash0, prev0, rc4);
    lhash, prev := lhash0, prev0;
    var i := pos1;
    while i < pos2
      invariant pos1 <= i <= pos2
      invariant St(step[..], lhash, prev, rc4) == Work(k, op, body, s, pos1, i, pos2)
    {
      ghost var before := step[..];
      var x := WolfApplyByte(codes, step[i], step[pos2], body);
      step[i] := x;
      assert step[..] == before[i := ApplyBody(body, before[i], before[pos2])];
      if op == 0 {
        SwapEnds(step, pos1, pos2);
      }
      if op == 253 {
        prev := k.sum(lhash, prev);
        lhash := k.xx(step[..pos2]);
        assert step[..pos2] == step[..][..pos2];
      }
      i := i + 1;
    }
  }

  // ----- The rest of a round -----

  /** XORKeyStream over the table itself. */
  method XorKeyStream(k: Prims, step: array<bv8>, rc4: seq<bv8>) returns (rc4': seq<bv8>)
    requires step.Length == 256
    modifies step
    ensures step[..] == Encrypt(k, rc4, old(step[..])) && rc4' == k.advance(rc4)
  {
    hide Xor;
    var i := 0;
    while i < 256
      invariant 0 <= i <= 256
      invariant forall j :: 0 <= j < 256 ==> step[j] == if j < i then Xor(old(step[j]), k.key(rc4, j)) else old(step[j])
    {
      step[i] := Xor(step[i], k.key(rc4, i));
      i := i + 1;
    }
    assert step[..] == Encrypt(k, rc4, old(step[..]));
    rc4' := k.advance(rc4);
  }

  /** The threshold hashes and the cipher, each test reading the table again. */
  method RunThresholds(k: Prims, step: array<bv8>, lhash0: nat, prev0: nat, rc40: seq<bv8>, tries: nat, pos1: nat, pos2: nat)
    returns (lhash: nat, prev: nat, rc4: seq<bv8>)
    requires step.Length == 256 && pos1 <= pos2 < 256
    modifies step
    ensures St(step[..], lhash, prev, rc4) == Thresholds(k, St(old(step[..]), lhash0, prev0, rc40), tries, pos1, pos2)
  {
    hide Encrypt, Under, UpTo;
    lhash, prev, rc4 := lhash0, prev0, rc40;
    assert step[..pos2] == step[..][..pos2];
    if Under(step[pos1], step[pos2], 0x10) {
      prev := k.sum(lhash, prev);
      lhash := k.xx(step[..pos2]);
    }
    if Under(step[pos1], step[pos2], 0x20) {
      prev := k.sum(lhash, prev);
      lhash := k.fnv(step[..pos2]);
    }
    if Under(step[pos1], step[pos2], 0x30) {
      prev := k.sum(lhash, prev);
      lhash := k.sip(tries, prev, step[..pos2]);
    }
    if UpTo(step[pos1], step[pos2], 0x40) {
      rc4 := XorKeyStream(k, step, rc4);
    }
  }

  /** Copy the table to its place in the stream. */
  method CopyChunk(step: array<bv8>, data: array<byte>, tries: nat)
    requires step.Length == 256 && step as object != data && 0 < tries && tries * 256 <= data.Length
    modifies data
    ensures data[..(tries - 1) * 256] == old(data[..(tries - 1) * 256])
    ensures data[..tries * 256] == old(data[..(tries - 1) * 256]) + Ints(step[..])
  {
    var base := (tries - 1) * 256;
    var j := 0;
    while j < 256
      invariant 0 <= j <= 256 && forall x :: 0 <= x < base ==> data[x] == old(data[x])
      invariant forall x :: 0 <= x < j ==> data[base + x] == step[x] as int
    {
      data[base + j] := step[j] as int;
      j := j + 1;
    }
    assert data[..tries * 256] == data[..base] + data[base..base + 256];
  }

  // ----- The loops -----

  /** The prologue on a table of zeros. */
  method Prologue(k: Prims, input: seq<byte>, step: array<bv8>) returns (hash: nat, rc4: seq<bv8>)
    requires step.Length == 256 && forall i :: 0 <= i < 256 ==> step[i] == 0
    modifies step
    ensures St(step[..], hash, hash, rc4) == Start(k, input)
  {
    hide Xor, Encrypt;
    var key := k.sha(input);
    var i := 0;
    while i < 256
      invariant 0 <= i <= 256
      invariant forall j :: 0 <= j < 256 ==> step[j] == if j < i then k.salsa(key, j) else 0
    {
      XorZero(k.salsa(key, i));
      step[i] := Xor(step[i], k.salsa(key, i));
      i := i + 1;
    }
    assert step[..] == Expanded(k, input);
    rc4 := k.rekey(step[..]);
    rc4 := XorKeyStream(k, step, rc4);
    hash := k.fnv(step[..]);
  }

  lemma XorZero(x: bv8)
    ensures Xor(0, x) == x
  {
  }

  /** Where the loop stands after a number of rounds none of which was the last. */
  ghost predicate Reached(k: Prims, bodies: Bodies, s0: St, s: St, data: seq<bv8>, tries: nat)
    requires Whole(s0) && ProperBodies(bodies)
  {
    && s == After(k, bodies, s0, tries) && tries <= 276
    && data == Stream(k, bodies, s0, tries)
    && forall m :: 0 < m <= tries ==> !Stop(After(k, bodies, s0, m), m)
  }

  lemma NextRound(k: Prims, bodies: Bodies, s0: St, s: St, data: seq<bv8>, tries: nat, s': St, data': seq<bv8>)
    requires Whole(s0) && ProperBodies(bodies) && Whole(s) && Reached(k, bodies, s0, s, data, tries)
    requires s' == Round(k, bodies, s, tries + 1) && data' == data + s'.step
    ensures Whole(s') && data' == Stream(k, bodies, s0, tries + 1) && s' == After(k, bodies, s0, tries + 1)
    ensures if Stop(s', tries + 1) then StopsAt(k, bodies, s0, tries + 1)
            else Reached(k, bodies, s0, s', data', tries + 1)
  {
    hide Round;
  }

  /** The last steps of a round: fold the two ends into the last byte. */
  method FoldLast(step: array<bv8>, pos1: nat, pos2: nat)
    requires step.Length == 256 && pos1 <= pos2 < 256
    modifies step
    ensures step[..] == Last(old(step[..]), pos1, pos2)
  {
    hide Xor;
    step[255] := Xor(Xor(step[255], step[pos1]), step[pos2]);
  }

  /** The case and the range, in byte arithmetic: exchange the positions if they are in the wrong order, and
      cut a wrapped difference above 32 to its low five bits. */
  method ByteRange(word: nat) returns (op: byte, pos1: byte, pos2: byte)
    ensures op == SwitchByte(word, 0)
    ensures pos1 == Low(SwitchByte(word, 1), SwitchByte(word, 2)) && pos2 == High(SwitchByte(word, 1), SwitchByte(word, 2))
  {
    WordBytesOf(word);
    op, pos1, pos2 := word % 256, word / 0x100 % 256, word / 0x10000 % 256;
    RangeEnds(pos1, pos2);
    hide Low, High, SwitchByte;
    if pos1 > pos2 {
      pos1, pos2 := pos2, pos1;
    }
    SmallMod(pos2 - pos1, 256);
    if (pos2 - pos1) % 256 > 32 {
      SmallMod(pos1 + (pos2 - pos1) % 0x20, 256);
      pos2 := (pos1 + (pos2 - pos1) % 256 % 0x20) % 256;
    }
  }

  /** One round of the switch form. */
  method SwitchRound(k: Prims, bodies: Bodies, step: array<bv8>, lhash0: nat, prev0: nat, rc40: seq<bv8>, tries: nat)
    returns (lhash: nat, prev: nat, rc4: seq<bv8>, encrypted: bool)
    requires ProperBodies(bodies) && step.Length == 256
    modifies step
    ensures St(step[..], lhash, prev, rc4) == Round(k, bodies, St(old(step[..]), lhash0, prev0, rc40), tries)
    ensures encrypted <==> Encrypts(k, bodies, St(old(step[..]), lhash0, prev0, rc40), tries)
  {
    hide Work, Thresholds, Last, SwitchByte, High, UpTo;
    var word := k.mix(prev0, lhash0, tries);
    var op, pos1, pos2 := ByteRange(word);
    rc4 := rc40;
    if op == 254 || op == 255 {
      rc4 := k.rekey(step[..]);
    }
    lhash, prev := SwitchCase(k, op, bodies[op], step, lhash0, prev0, pos1, pos2, rc4);
    encrypted := UpTo(step[pos1], step[pos2], 0x40);
    lhash, prev, rc4 := RunThresholds(k, step, lhash, prev, rc4, tries, pos1, pos2);
    FoldLast(step, pos1, pos2);
  }

  /** One round of the table-driven form. */
  method TableRound(k: Prims, ops: seq<seq<nat>>, step: array<bv8>, lhash0: nat, prev0: nat, rc40: seq<bv8>, tries: nat, ghost bodies: Bodies)
    returns (lhash: nat, prev: nat, rc4: seq<bv8>)
    requires ProperBodies(bodies) && step.Length == 256
    requires |ops| == 256 && forall c :: 0 <= c < 256 ==> ops[c] == Codes(bodies[c])
    modifies step
    ensures St(step[..], lhash, prev, rc4) == Round(k, bodies, St(old(step[..]), lhash0, prev0, rc40), tries)
  {
    hide Work, Thresholds, Last, SwitchByte, High;
    var word := k.mix(prev0, lhash0, tries);
    var op, pos1, pos2 := ByteRange(word);
    rc4 := rc40;
    if op == 254 || op == 255 {
      rc4 := k.rekey(step[..]);
    }
    lhash, prev := TableCase(k, op, ops[op], step, lhash0, prev0, pos1, pos2, rc4, bodies[op]);
    lhash, prev, rc4 := RunThresholds(k, step, lhash, prev, rc4, tries, pos1, pos2);
    FoldLast(step, pos1, pos2);
  }

  // ----- Template markers -----

  /** Where the templates of the first |enc| chunks start: at chunk 0 and at every later chunk whose round
      ran the cipher. */
  ghost predicate Segments(enc: seq<bool>, starts: seq<nat>) {
    && |starts| > 0 && starts[0] == 0
    && (forall i, j :: 0 <= i < j < |starts| ==> starts[i] < starts[j])
    && (forall i :: 0 < i < |starts| ==> starts[i] < |enc|)
    && (forall c: nat :: 0 < c < |enc| ==> (c in starts <==> enc[c]))
  }

  /** The first template counts one chunk too many unless the first round ran the cipher. */
  function Extra(enc: seq<bool>, i: nat): nat {
    if i == 0 && (enc == [] || !enc[0]) then 1 else 0
  }

  /** A marker carries its template's first chunk and number of chunks. */
  ghost predicate Marked(markers: seq<HashScratch.uint16>, enc: seq<bool>, starts: seq<nat>, n: nat) {
    n < |starts| && n <= |markers|
    && forall i :: 0 <= i < n ==> starts[i] < starts[i + 1] && markers[i] == Marker(starts[i], starts[i + 1] - starts[i] + Extra(enc, i))
  }

  ghost predicate Marking(markers: seq<HashScratch.uint16>, enc: seq<bool>, starts: seq<nat>, idx: nat, first: nat, count: nat) {
    && Segments(enc, starts) && |starts| == idx + 1 && idx <= |enc| && (enc != [] ==> idx < |enc|)
    && first == starts[idx] <= |enc| && count == |enc| - first + Extra(enc, idx) && Marked(markers, enc, starts, idx)
  }

  /** All templates of a run, the last one reaching to its end. */
  ghost predicate Templates(markers: seq<HashScratch.uint16>, enc: seq<bool>, starts: seq<nat>) {
    var last := |starts| - 1;
    && Segments(enc, starts) && Marked(markers, enc, starts, last) && last < |markers| && starts[last] <= |enc|
    && markers[last] == Marker(starts[last], |enc| - starts[last] + Extra(enc, last))
  }

  /** The bookkeeping of one round. */
  method MarkRound(markers: array<HashScratch.uint16>, idx: nat, first: nat, count: nat, tries: nat, encrypted: bool,
                   ghost enc: seq<bool>, ghost starts: seq<nat>)
    returns (idx': nat, first': nat, count': nat, ghost starts': seq<nat>)
    requires markers.Length == 280 && tries == |enc| + 1 <= 277 && Marking(markers[..], enc, starts, idx, first, count)
    modifies markers
    ensures Marking(markers[..], enc + [encrypted], starts', idx', first', count')
  {
    hide Marker;
    idx', first', count', starts' := idx, first, count, starts;
    ghost var before := markers[..];
    if encrypted {
      markers[idx] := Marker(first, count);
      if tries > 1 {
        idx' := idx + 1;
        starts' := starts + [tries - 1];
      }
      first', count' := tries - 1, 1;
    } else {
      count' := count + 1;
    }
    SegmentsGrow(enc, starts, encrypted);
    MarksGrow(before, markers[..], enc, starts, idx, encrypted, count);
  }

  lemma SegmentsGrow(enc: seq<bool>, starts: seq<nat>, encrypted: bool)
    requires Segments(enc, starts)
    ensures Segments(enc + [encrypted], if encrypted && enc != [] then starts + [|enc|] else starts)
  {
    var enc' := enc + [encrypted];
    assert forall c: nat :: c < |enc| ==> enc'[c] == enc[c];
    assert |enc| > 0 ==> |enc| !in starts;
  }

  lemma MarksGrow(before: seq<HashScratch.uint16>, after: seq<HashScratch.uint16>, enc: seq<bool>, starts: seq<nat>, idx: nat,
                  encrypted: bool, count: nat)
    requires Segments(enc, starts) && |starts| == idx + 1 && Marked(before, enc, starts, idx) && idx < |before|
    requires count == |enc| - starts[idx] + Extra(enc, idx) && starts[idx] <= |enc| && (enc != [] ==> idx < |enc|)
    requires after == if encrypted then before[idx := Marker(starts[idx], count)] else before
    ensures if encrypted && enc != [] then Marked(after, enc + [encrypted], starts + [|enc|], idx + 1)
            else Marked(after, enc + [encrypted], starts, idx)
  {
    hide Marker;
    assert enc != [] ==> (enc + [encrypted])[0] == enc[0];
  }

  // ----- The stream of the switch form -----

  /** The loop of astroBWTv3Stream: the stream, its length, and the markers of its templates, whose count is
      never zero. */
  method SwitchStream(k: Prims, bodies: Bodies, step: array<bv8>, hash0: nat, rc40: seq<bv8>, scratch: HashScratch.ScratchData)
    returns (dataLen: int, ghost n: nat, ghost starts: seq<nat>)
    requires ProperBodies(bodies) && step.Length == 256 && scratch.Valid() && step as object != scratch.data
    modifies step, scratch`nTemplates, scratch.data, scratch.markers
    ensures scratch.Valid()
    ensures var s0 := St(old(step[..]), hash0, hash0, rc40);
            && StopsAt(k, bodies, s0, n) && n * 256 <= scratch.data.Length
            && scratch.data[..n * 256] == Ints(Stream(k, bodies, s0, n))
            && dataLen == DataLen(After(k, bodies, s0, n), n)
            && Templates(scratch.markers[..], Encrypted(k, bodies, s0, n), starts)
    ensures 1 <= scratch.nTemplates == |starts| <= 277
  {
    hide Round, After, Stream, DataLen, Ints, Encrypts, Marking, Templates, Marker;
    ghost var s0 := St(step[..], hash0, hash0, rc40);
    var lhash, prev, rc4, tries := hash0, hash0, rc40, 0;
    var templateIdx, chunkCount, firstChunk := 0, 1, 0;
    ghost var stream: seq<bv8> := [];
    n, starts := 0, [0];
    StartReached(k, bodies, s0);
    NoInts();
    NothingMarked(scratch.markers[..]);
    while true
      invariant 0 <= tries <= 276 && Whole(s0) && tries * 256 <= scratch.data.Length
      invariant Reached(k, bodies, s0, St(step[..], lhash, prev, rc4), stream, tries)
      invariant scratch.data[..tries * 256] == Ints(stream)
      invariant Marking(scratch.markers[..], Encrypted(k, bodies, s0, tries), starts, templateIdx, firstChunk, chunkCount)
      decreases 277 - tries
    {
      ghost var s, data := St(step[..], lhash, prev, rc4), stream;
      tries := tries + 1;
      var encrypted;
      lhash, prev, rc4, encrypted := SwitchRound(k, bodies, step, lhash, prev, rc4, tries);
      templateIdx, firstChunk, chunkCount, starts :=
        MarkRound(scratch.markers, templateIdx, firstChunk, chunkCount, tries, encrypted, Encrypted(k, bodies, s0, tries - 1), starts);
      CopyChunk(step, scratch.data, tries);
      IntsConcat(stream, step[..]);
      stream := stream + step[..];
      NextRound(k, bodies, s0, s, data, tries - 1, St(step[..], lhash, prev, rc4), stream);
      if tries > 260 + 16 || (step[255] >= 0xf0 && tries > 260) {
        break;
      }
    }
    n := tries;
    FlushMarker(scratch, templateIdx, firstChunk, chunkCount, Encrypted(k, bodies, s0, n), starts);
    dataLen := LengthOf(step, tries, After(k, bodies, s0, n));
  }

  lemma NothingMarked(markers: seq<HashScratch.uint16>)
    ensures Marking(markers, [], [0], 0, 0, 1)
  {
  }

  /** The marker of the last template, and their number. */
  method FlushMarker(scratch: HashScratch.ScratchData, idx: nat, first: nat, count: nat, ghost enc: seq<bool>, ghost starts: seq<nat>)
    requires scratch.Valid() && 0 < |enc| <= 277 && Marking(scratch.markers[..], enc, starts, idx, first, count)
    modifies scratch`nTemplates, scratch.markers
    ensures scratch.Valid() && 1 <= scratch.nTemplates == |starts| <= 277
    ensures Templates(scratch.markers[..], enc, starts)
  {
    hide Marker;
    scratch.markers[idx] := Marker(first, count);
    scratch.nTemplates := idx + 1;
  }

  lemma NoInts()
    ensures Ints([]) == []
  {
  }

  lemma IntsConcat(a: seq<bv8>, b: seq<bv8>)
    ensures Ints(a + b) == Ints(a) + Ints(b)
  {
  }

  /** A marker: the first chunk above seven bits of count, cut to sixteen bits. */
  function Marker(firstChunk: nat, chunkCount: nat): HashScratch.uint16 {
    Or(firstChunk * 0x80, chunkCount) % 0x10000
  }

  method LengthOf(step: array<bv8>, tries: nat, ghost s: St) returns (dataLen: int)
    requires step.Length == 256 && s.step == step[..]
    ensures dataLen == DataLen(s, tries)
  {
    dataLen := (tries - 4) * 256 + ((step[253] as int) * 256 + step[254] as int) % 0x400;
  }

  lemma StartReached(k: Prims, bodies: Bodies, s0: St)
    requires Whole(s0) && ProperBodies(bodies)
    ensures Reached(k, bodies, s0, s0, [], 0)
  {
  }

  /** WolfStreamInto: a buffer too short is refused, otherwise the stream is the same. */
  method WolfStreamInto(k: Prims, ops: seq<seq<nat>>, input: seq<byte>, out: array<byte>, ghost bodies: Bodies)
    returns (ok: bool, dataLen: int, ghost n: nat)
    requires ProperBodies(bodies)
    requires |ops| == 256 && forall c :: 0 <= c < 256 ==> ops[c] == Codes(bodies[c])
    modifies out
    ensures ok <==> out.Length >= MAX_LENGTH
    ensures ok ==>
              var s0 := Start(k, input);
              && StopsAt(k, bodies, s0, n) && n * 256 <= out.Length
              && out[..n * 256] == Ints(Stream(k, bodies, s0, n))
              && dataLen == DataLen(After(k, bodies, s0, n), n)
    ensures !ok ==> out[..] == old(out[..])
  {
    hide Start, Round, After, Stream, DataLen, Codes, Ints;
    ok, dataLen, n := out.Length >= MAX_LENGTH, 0, 0;
    if !ok {
      return;
    }
    var step := new bv8[256](_ => 0);
    var hash0, rc40 := Prologue(k, input, step);
    ghost var s0 := Start(k, input);
    var lhash, prev, rc4, tries := hash0, hash0, rc40, 0;
    ghost var stream: seq<bv8> := [];
    StartReached(k, bodies, s0);
    NoInts();
    while true
      invariant 0 <= tries <= 276 && Whole(s0) && tries * 256 <= out.Length
      invariant Reached(k, bodies, s0, St(step[..], lhash, prev, rc4), stream, tries) && out[..tries * 256] == Ints(stream)
      decreases 277 - tries
    {
      ghost var s, data := St(step[..], lhash, prev, rc4), stream;
      tries := tries + 1;
      lhash, prev, rc4 := TableRound(k, ops, step, lhash, prev, rc4, tries, bodies);
      CopyChunk(step, out, tries);
      IntsConcat(stream, step[..]);
      stream := stream + step[..];
      NextRound(k, bodies, s0, s, data, tries - 1, St(step[..], lhash, prev, rc4), stream);
      if tries > 260 + 16 || (step[255] >= 0xf0 && tries > 260) {
        break;
      }
    }
    n := tries;
    dataLen := LengthOf(step, tries, After(k, bodies, s0, n));
  }
}
