/** The device side of the native stream (internal/gpu/spirv_stream.go): one queue executed in order, and
    one set of text, length, archive, overflow and digest buffers that every group of commands shares. */
module SpirvDevice {
  import opened Suffixes
  import opened Difficulty

  const SLABS: nat := 4
  const SLAB_ROWS: nat := 512
  const ROWS: nat := 2048
  const STRIDE: nat := 70912

  datatype SlabResult = SlabResult(overflow: bool, rows: seq<seq<int>>)

  /** The computations whose internals do not matter here: the host's data stream for an input, the suffix
      sort of a text, the final hash of a sorted row, and what the n-th execution of the slab kernels makes
      of the texts it is given. */
  datatype Kernels = Kernels(stream: seq<byte> -> seq<byte>, sort: seq<byte> -> seq<int>, sha: seq<int> -> Word256,
                             slab: (nat, seq<seq<byte>>) -> SlabResult)

  /** The hash on the CPU. */
  function Sum(k: Kernels, input: seq<byte>): Word256 {
    k.sha(k.sort(k.stream(input)))
  }

  function Sums(k: Kernels, inputs: seq<seq<byte>>): (r: seq<Word256>)
    ensures |r| == |inputs| && forall i :: 0 <= i < |inputs| ==> r[i] == Sum(k, inputs[i])
  {
    seq(|inputs|, i requires 0 <= i < |inputs| => Sum(k, inputs[i]))
  }

  /** A slab without the overflow flag is sorted correctly; nothing is said about a flagged one. */
  ghost predicate Trusted(k: Kernels) {
    && (forall x: seq<byte> :: |k.stream(x)| <= STRIDE)
    && (forall x: seq<byte> :: |k.sort(x)| == |x|)
    && (forall id: nat, texts: seq<seq<byte>> :: !k.slab(id, texts).overflow ==>
          |k.slab(id, texts).rows| == |texts| && forall i :: 0 <= i < |texts| ==> k.slab(id, texts).rows[i] == k.sort(texts[i]))
  }

  // ----- Buffers and commands -----

  datatype Staging = Staging(digests: seq<Word256>, flags: seq<bool>)

  datatype Buffers = Buffers(upload: seq<seq<seq<byte>>>, text: seq<seq<byte>>, lens: seq<nat>, archive: seq<seq<int>>,
                             overflow: seq<bool>, digests: seq<Word256>, staging: seq<Staging>)

  predicate Shaped(d: Buffers) {
    && |d.upload| == 2 && |d.upload[0]| == ROWS && |d.upload[1]| == ROWS && |d.staging| == 2
    && |d.text| == ROWS && |d.lens| == ROWS && |d.archive| == ROWS && |d.digests| == ROWS && |d.overflow| == SLABS
  }

  datatype Command =
    | WriteLens(lens: seq<nat>)
    | CopyText(index: nat)
    | SortSlab(slab: nat, id: nat)
    | FinalSha
    | CopyOut(index: nat)

  function Cut<T>(row: seq<T>, n: nat): seq<T> {
    if n <= |row| then row[..n] else row
  }

  function SlabTexts(d: Buffers, slab: nat): (r: seq<seq<byte>>)
    requires Shaped(d) && slab < SLABS
    ensures |r| == SLAB_ROWS
  {
    seq(SLAB_ROWS, r requires 0 <= r < SLAB_ROWS => Cut(d.text[slab * SLAB_ROWS + r], d.lens[slab * SLAB_ROWS + r]))
  }

  function SlabArchive(d: Buffers, slab: nat, rows: seq<seq<int>>): (r: seq<seq<int>>)
    requires Shaped(d) && slab < SLABS
    ensures |r| == ROWS
  {
    seq(ROWS, i requires 0 <= i < ROWS =>
      if slab * SLAB_ROWS <= i < slab * SLAB_ROWS + SLAB_ROWS && i - slab * SLAB_ROWS < |rows| then rows[i - slab * SLAB_ROWS]
      else d.archive[i])
  }

  function RowDigest(k: Kernels, d: Buffers, i: nat): Word256
    requires Shaped(d) && i < ROWS
  {
    k.sha(Cut(d.archive[i], d.lens[i]))
  }

  function RowDigests(k: Kernels, d: Buffers): (r: seq<Word256>)
    requires Shaped(d)
    ensures |r| == ROWS
  {
    seq(ROWS, i requires 0 <= i < ROWS => RowDigest(k, d, i))
  }

  function Exec(k: Kernels, d: Buffers, c: Command): (d': Buffers)
    requires Shaped(d)
    ensures Shaped(d')
  {
    match c
    case WriteLens(lens) => if |lens| == ROWS then d.(lens := lens) else d
    case CopyText(index) => if index < 2 then d.(text := d.upload[index]) else d
    case SortSlab(slab, id) =>
      if slab >= SLABS then d
      else
        var result := k.slab(id, SlabTexts(d, slab));
        d.(archive := SlabArchive(d, slab, result.rows), overflow := d.overflow[slab := result.overflow])
    case FinalSha => d.(digests := RowDigests(k, d))
    case CopyOut(index) => if index < 2 then d.(staging := d.staging[index := Staging(d.digests, d.overflow)]) else d
  }

  function Run(k: Kernels, d: Buffers, cs: seq<Command>): (d': Buffers)
    requires Shaped(d)
    ensures Shaped(d')
    decreases |cs|
  {
    if cs == [] then d else Run(k, Exec(k, d, cs[0]), cs[1..])
  }

  lemma {:induction false} RunConcat(k: Kernels, d: Buffers, a: seq<Command>, b: seq<Command>)
    requires Shaped(d)
    ensures Run(k, d, a + b) == Run(k, Run(k, d, a), b)
    decreases |a|
  {
    hide Exec, Shaped;
    if a == [] {
      assert a + b == b;
    } else {
      assert (a + b)[0] == a[0] && (a + b)[1..] == a[1..] + b;
      RunConcat(k, Exec(k, d, a[0]), a[1..], b);
    }
  }

  /** Commands leave the upload buffers alone, and the staging buffers they do not name. */
  lemma {:induction false} RunKeeps(k: Kernels, d: Buffers, cs: seq<Command>, index: nat)
    requires Shaped(d) && index < 2
    ensures Run(k, d, cs).upload == d.upload
    ensures CopyOut(index) !in cs ==> Run(k, d, cs).staging[index] == d.staging[index]
    decreases |cs|
  {
    if cs != [] {
      RunKeeps(k, Exec(k, d, cs[0]), cs[1..], index);
    }
  }

  /** The host may rewrite an upload buffer that no queued command reads without changing what the queue
      will produce. */
  lemma {:induction false} UploadUnread(k: Kernels, d: Buffers, cs: seq<Command>, index: nat, rows: seq<seq<byte>>)
    requires Shaped(d) && index < 2 && |rows| == ROWS && CopyText(index) !in cs
    ensures Run(k, d.(upload := d.upload[index := rows]), cs)
         == Run(k, d, cs).(upload := Run(k, d, cs).upload[index := rows])
    decreases |cs|
  {
    if cs != [] {
      var c, e := cs[0], d.(upload := d.upload[index := rows]);
      assert c != CopyText(index);
      ExecUnread(k, d, c, index, rows);
      UploadUnread(k, Exec(k, d, c), cs[1..], index, rows);
    }
  }

  lemma ExecUnread(k: Kernels, d: Buffers, c: Command, index: nat, rows: seq<seq<byte>>)
    requires Shaped(d) && index < 2 && |rows| == ROWS && c != CopyText(index)
    ensures Exec(k, d.(upload := d.upload[index := rows]), c)
         == Exec(k, d, c).(upload := Exec(k, d, c).upload[index := rows])
  {
    var e := d.(upload := d.upload[index := rows]);
    if c.SortSlab? && c.slab < SLABS {
      assert SlabTexts(e, c.slab) == SlabTexts(d, c.slab);
      var r := k.slab(c.id, SlabTexts(d, c.slab));
      assert SlabArchive(e, c.slab, r.rows) == SlabArchive(d, c.slab, r.rows);
    } else if c.FinalSha? {
      assert Exec(k, e, c).digests == Exec(k, d, c).digests;
    }
  }

  // ----- One group -----

  /** The commands of one group up to the n-th slab; ids number the executions of the slab kernels. */
  function GroupTo(index: nat, ids: seq<nat>): (cs: seq<Command>)
    ensures |cs| == |ids| + 1 && cs[0] == CopyText(index)
    ensures forall c :: c in cs ==> c == CopyText(index) || c.SortSlab?
  {
    [CopyText(index)] + seq(|ids|, s requires 0 <= s < |ids| => SortSlab(s, ids[s]))
  }

  /** The commands of submitGroup, behind the lengths that prepare queues. */
  function Group(index: nat, ids: seq<nat>): seq<Command> {
    GroupTo(index, ids) + [FinalSha, CopyOut(index)]
  }

  /** Every digest outside the flagged slabs is the CPU hash of its input. */
  ghost predicate Good(k: Kernels, s: Staging, inputs: seq<seq<byte>>) {
    && |s.digests| == ROWS && |s.flags| == SLABS && |inputs| <= ROWS
    && forall i {:trigger GoodAt(k, s, inputs, i)} :: 0 <= i < |inputs| ==> GoodAt(k, s, inputs, i)
  }

  ghost predicate GoodAt(k: Kernels, s: Staging, inputs: seq<seq<byte>>, i: nat) {
    && i < |inputs| && i < |s.digests| && i / SLAB_ROWS < |s.flags|
    && (!s.flags[i / SLAB_ROWS] ==> s.digests[i] == Sum(k, inputs[i]))
  }

  /** The upload buffer carries the inputs' streams; what lies behind a stream is left over from earlier
      groups, and rows without an input have length zero. */
  ghost predicate Prepared(k: Kernels, rows: seq<seq<byte>>, lens: seq<nat>, inputs: seq<seq<byte>>) {
    && |rows| == ROWS && |lens| == ROWS && |inputs| <= ROWS
    && forall i :: 0 <= i < |inputs| ==> Carries(k, rows[i], lens[i], inputs[i])
  }

  predicate Carries(k: Kernels, row: seq<byte>, len: nat, input: seq<byte>) {
    len == |k.stream(input)| && len <= |row| && row[..len] == k.stream(input)
  }

  /** The first slabs are archived, correctly where their flags are clear. */
  ghost predicate Archived(k: Kernels, d: Buffers, inputs: seq<seq<byte>>, slabs: nat) {
    && Shaped(d) && |inputs| <= ROWS && slabs <= SLABS
    && forall i {:trigger ArchivedAt(k, d, inputs, i)} :: 0 <= i < |inputs| && i < slabs * SLAB_ROWS ==> ArchivedAt(k, d, inputs, i)
  }

  ghost predicate ArchivedAt(k: Kernels, d: Buffers, inputs: seq<seq<byte>>, i: nat)
    requires Shaped(d)
  {
    && i < |inputs| && i < ROWS
    && (!d.overflow[i / SLAB_ROWS] ==> d.archive[i] == k.sort(k.stream(inputs[i])))
  }

  lemma SortNext(k: Kernels, d: Buffers, inputs: seq<seq<byte>>, slab: nat, id: nat)
    requires Trusted(k) && Archived(k, d, inputs, slab) && slab < SLABS && Prepared(k, d.text, d.lens, inputs)
    ensures var d' := Exec(k, d, SortSlab(slab, id));
            && Archived(k, d', inputs, slab + 1) && d'.text == d.text && d'.lens == d.lens && d'.staging == d.staging
  {
    var texts := SlabTexts(d, slab);
    var result := k.slab(id, texts);
    var d' := Exec(k, d, SortSlab(slab, id));
    forall i | 0 <= i < |inputs| && i < (slab + 1) * SLAB_ROWS ensures ArchivedAt(k, d', inputs, i) {
      if i < slab * SLAB_ROWS {
        assert ArchivedAt(k, d, inputs, i);
        assert i / SLAB_ROWS < slab;
      } else if !result.overflow {
        var r := i - slab * SLAB_ROWS;
        assert Carries(k, d.text[i], d.lens[i], inputs[i]);
        assert slab * SLAB_ROWS + r == i && texts[r] == Cut(d.text[i], d.lens[i]) == k.stream(inputs[i]);
        assert result.rows[r] == k.sort(texts[r]);
      } else {
        assert i / SLAB_ROWS == slab;
      }
    }
  }

  /** The slabs of a group, in order. */
  lemma {:induction false} SlabsArchived(k: Kernels, d: Buffers, index: nat, ids: seq<nat>, inputs: seq<seq<byte>>)
    requires Trusted(k) && Shaped(d) && index < 2 && |ids| <= SLABS && Prepared(k, d.upload[index], d.lens, inputs)
    ensures var d' := Run(k, d, GroupTo(index, ids));
            && Archived(k, d', inputs, |ids|) && d'.text == d.upload[index] && d'.lens == d.lens && d'.staging == d.staging
    decreases |ids|
  {
    hide Exec, Trusted, Prepared;
    if ids == [] {
      assert GroupTo(index, ids) == [CopyText(index)];
      RunSingle(k, d, CopyText(index));
      TextCopied(k, d, index, inputs);
    } else {
      var n := |ids| - 1;
      SlabsArchived(k, d, index, ids[..n], inputs);
      assert GroupTo(index, ids) == GroupTo(index, ids[..n]) + [SortSlab(n, ids[n])];
      RunConcat(k, d, GroupTo(index, ids[..n]), [SortSlab(n, ids[n])]);
      var d' := Run(k, d, GroupTo(index, ids[..n]));
      RunSingle(k, d', SortSlab(n, ids[n]));
      SortNext(k, d', inputs, n, ids[n]);
    }
  }

  lemma RunSingle(k: Kernels, d: Buffers, c: Command)
    requires Shaped(d)
    ensures Run(k, d, [c]) == Exec(k, d, c)
  {
    hide Exec, Shaped;
    assert [c][1..] == [];
  }

  lemma TextCopied(k: Kernels, d: Buffers, index: nat, inputs: seq<seq<byte>>)
    requires Shaped(d) && index < 2 && Prepared(k, d.upload[index], d.lens, inputs)
    ensures var d' := Exec(k, d, CopyText(index));
            && Archived(k, d', inputs, 0) && d'.text == d.upload[index] && d'.lens == d.lens && d'.staging == d.staging
  {
  }

  lemma EndOfGroup(k: Kernels, d: Buffers, index: nat, inputs: seq<seq<byte>>)
    requires Trusted(k) && Archived(k, d, inputs, SLABS) && index < 2 && Prepared(k, d.text, d.lens, inputs)
    ensures var d' := Exec(k, Exec(k, d, FinalSha), CopyOut(index));
            Good(k, d'.staging[index], inputs) && d'.staging[1 - index] == d.staging[1 - index]
  {
    var d1 := Exec(k, d, FinalSha);
    var s := Exec(k, d1, CopyOut(index)).staging[index];
    forall i | 0 <= i < |inputs| ensures GoodAt(k, s, inputs, i) {
      assert ArchivedAt(k, d, inputs, i);
      assert Carries(k, d.text[i], d.lens[i], inputs[i]);
      if !s.flags[i / SLAB_ROWS] {
        assert |k.sort(k.stream(inputs[i]))| == d.lens[i];
        assert Cut(d.archive[i], d.lens[i]) == d.archive[i];
      }
    }
  }

  /** A whole group in order: whatever was in the shared buffers before, the group's staging buffer ends
      up good for its own inputs, and the other staging buffer is untouched. */
  lemma GroupIsGood(k: Kernels, d: Buffers, index: nat, ids: seq<nat>, inputs: seq<seq<byte>>)
    requires Trusted(k) && Shaped(d) && index < 2 && |ids| == SLABS && Prepared(k, d.upload[index], d.lens, inputs)
    ensures var d' := Run(k, d, Group(index, ids));
            Good(k, d'.staging[index], inputs) && d'.staging[1 - index] == d.staging[1 - index]
  {
    hide Exec, Run, Trusted, Prepared;
    SlabsArchived(k, d, index, ids, inputs);
    var d' := Run(k, d, GroupTo(index, ids));
    RunConcat(k, d, GroupTo(index, ids), [FinalSha, CopyOut(index)]);
    RunPair(k, d', FinalSha, CopyOut(index));
    EndOfGroup(k, d', index, inputs);
  }

  lemma RunPair(k: Kernels, d: Buffers, a: Command, b: Command)
    requires Shaped(d)
    ensures Run(k, d, [a, b]) == Exec(k, Exec(k, d, a), b)
  {
    hide Exec, Shaped;
    assert [a, b] == [a] + [b];
    RunConcat(k, d, [a], [b]);
    RunSingle(k, d, a);
    RunSingle(k, Exec(k, d, a), b);
  }
}
