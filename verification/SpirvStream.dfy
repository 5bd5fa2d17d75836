/** The native streamer (internal/gpu/spirv_stream.go): two upload and two staging buffers around one set of
    shared device buffers, with every call to the device free to fail. */
module SpirvStream {
  import opened Suffixes
  import opened Difficulty
  import opened SpirvDevice

  // ----- The device queue -----

  /** Every occurrence of c in the queue lies before the ticket. */
  ghost predicate Before(queue: seq<Command>, executed: nat, c: Command, ticket: nat) {
    forall p :: 0 <= p < |queue| && queue[p] == c ==> executed + p < ticket
  }

  lemma BeforeProgress(queue: seq<Command>, executed: nat, c: Command, ticket: nat, n: nat)
    requires Before(queue, executed, c, ticket) && n <= |queue|
    ensures Before(queue[n..], executed + n, c, ticket)
    ensures c !in queue ==> c !in queue[n..]
  {
    forall p | 0 <= p < |queue[n..]| && queue[n..][p] == c ensures executed + n + p < ticket {
      assert queue[n + p] == c;
    }
  }

  lemma BeforeDone(queue: seq<Command>, executed: nat, c: Command, ticket: nat)
    requires Before(queue, executed, c, ticket) && executed >= ticket
    ensures c !in queue
  {
  }

  lemma BeforeAppend(queue: seq<Command>, executed: nat, c: Command, ticket: nat, cs: seq<Command>)
    requires Before(queue, executed, c, ticket) && c !in cs
    ensures Before(queue + cs, executed, c, ticket)
  {
  }

  class Device {
    const kernels: Kernels
    var state: Buffers
    var queue: seq<Command>
    var executed: nat

    /** How many calls have failed so far. */
    var faults: nat

    constructor (kernels: Kernels, state: Buffers)
      requires Shaped(state)
      ensures Valid() && this.kernels == kernels && this.state == state && queue == [] && executed == 0
    {
      this.kernels, this.state := kernels, state;
      queue, executed, faults := [], 0, 0;
    }

    ghost predicate Valid()
      reads this`state
    {
      Shaped(state)
    }

    /** The buffers once the queue is empty. */
    ghost function Final(): Buffers
      requires Valid()
      reads this`state, this`queue
    {
      Run(kernels, state, queue)
    }

    /** How many commands have ever been queued: what a mapping requested now has to wait for. */
    function Ticket(): nat
      reads this`queue, this`executed
    {
      executed + |queue|
    }

    /** The device executes some commands, in order. */
    method Progress()
      requires Valid()
      modifies this`state, this`queue, this`executed
      ensures Valid() && Final() == old(Final()) && state.upload == old(state.upload)
      ensures old(executed) <= executed <= old(Ticket()) && queue == old(queue)[executed - old(executed)..]
    {
      hide Shaped, Exec;
      var n: nat := *;
      while n > 0 && |queue| > 0
        invariant Valid() && Final() == old(Final()) && state.upload == old(state.upload)
        invariant old(executed) <= executed <= old(Ticket()) && queue == old(queue)[executed - old(executed)..]
      {
        ExecUpload(kernels, state, queue[0]);
        state := Exec(kernels, state, queue[0]);
        queue := queue[1..];
        executed := executed + 1;
        n := n - 1;
      }
    }

    /** wait: poll until the mapping is resolved, or give up. */
    method Await(ticket: nat) returns (ok: bool)
      requires Valid()
      modifies this`state, this`queue, this`executed, this`faults
      ensures Valid() && Final() == old(Final()) && state.upload == old(state.upload)
      ensures old(executed) <= executed <= old(Ticket()) && queue == old(queue)[executed - old(executed)..]
      ensures ok ==> executed >= ticket
      ensures faults == old(faults) + if ok then 0 else 1
    {
      Progress();
      ok := false;
      if executed >= ticket {
        ok := *;
      }
      if !ok {
        faults := faults + 1;
      }
    }

    /** A call of the library that does nothing but may fail. */
    method Call() returns (ok: bool)
      modifies this`faults
      ensures faults == old(faults) + if ok then 0 else 1
    {
      ok := *;
      if !ok {
        faults := faults + 1;
      }
    }

    /** Queue commands, unless the library refuses them. */
    method Enqueue(cs: seq<Command>) returns (ok: bool)
      requires Valid()
      modifies this`queue, this`faults
      ensures queue == old(queue) + if ok then cs else []
      ensures Final() == if ok then Run(kernels, old(Final()), cs) else old(Final())
      ensures faults == old(faults) + if ok then 0 else 1
    {
      RunConcat(kernels, state, queue, cs);
      ok := Call();
      if ok {
        queue := queue + cs;
      } else {
        assert queue + [] == queue;
      }
    }

    /** The host fills a mapped upload buffer. */
    method WriteUpload(index: nat, rows: seq<seq<byte>>)
      requires Valid() && index < 2 && |rows| == ROWS && CopyText(index) !in queue
      modifies this`state
      ensures Valid() && state.upload == old(state.upload)[index := rows]
      ensures Final().staging == old(Final().staging)
    {
      UploadUnread(kernels, state, queue, index, rows);
      state := state.(upload := state.upload[index := rows]);
    }
  }

  lemma ExecUpload(k: Kernels, d: Buffers, c: Command)
    requires Shaped(d)
    ensures Shaped(Exec(k, d, c)) && Exec(k, d, c).upload == d.upload
  {
  }

  // ----- The streamer -----

  datatype Pending = NoMap | MapAt(ticket: nat)

  ghost predicate Wide(upload: seq<seq<seq<byte>>>) {
    && |upload| == 2 && |upload[0]| == ROWS && |upload[1]| == ROWS
    && forall x, i :: 0 <= x < 2 && 0 <= i < |upload[x]| ==> |upload[x][i]| == STRIDE
  }

  /** A mapped upload buffer is read by no queued command; an unmapped one whose mapping is pending is
      read only by commands the mapping waits for. */
  ghost predicate UploadSafe(mapped: bool, pending: Pending, queue: seq<Command>, executed: nat, index: nat) {
    && (mapped ==> pending == NoMap && CopyText(index) !in queue)
    && (pending.MapAt? ==> Before(queue, executed, CopyText(index), pending.ticket))
  }

  lemma UploadSafeProgress(mapped: bool, pending: Pending, queue: seq<Command>, executed: nat, index: nat, n: nat)
    requires UploadSafe(mapped, pending, queue, executed, index) && n <= |queue|
    ensures UploadSafe(mapped, pending, queue[n..], executed + n, index)
  {
    if pending.MapAt? {
      BeforeProgress(queue, executed, CopyText(index), pending.ticket, n);
    }
  }

  lemma UploadSafeAppend(mapped: bool, pending: Pending, queue: seq<Command>, executed: nat, index: nat, cs: seq<Command>)
    requires UploadSafe(mapped, pending, queue, executed, index) && CopyText(index) !in cs
    ensures UploadSafe(mapped, pending, queue + cs, executed, index)
  {
    if pending.MapAt? {
      BeforeAppend(queue, executed, CopyText(index), pending.ticket, cs);
    }
  }

  ghost predicate ResultSafe(pending: Pending, queue: seq<Command>, executed: nat, index: nat) {
    pending.MapAt? ==> Before(queue, executed, CopyOut(index), pending.ticket)
  }

  lemma ResultSafeProgress(pending: Pending, queue: seq<Command>, executed: nat, index: nat, n: nat)
    requires ResultSafe(pending, queue, executed, index) && n <= |queue|
    ensures ResultSafe(pending, queue[n..], executed + n, index)
  {
    if pending.MapAt? {
      BeforeProgress(queue, executed, CopyOut(index), pending.ticket, n);
    }
  }

  lemma ResultSafeAppend(pending: Pending, queue: seq<Command>, executed: nat, index: nat, cs: seq<Command>)
    requires ResultSafe(pending, queue, executed, index) && CopyOut(index) !in cs
    ensures ResultSafe(pending, queue + cs, executed, index)
  {
    if pending.MapAt? {
      BeforeAppend(queue, executed, CopyOut(index), pending.ticket, cs);
    }
  }

  /** One of the two double-buffered slots. */
  class Slot {
    const index: nat
    var uploadMapped: bool
    var uploadPending: Pending
    var resultPending: Pending
    var pendN: nat
    var pendInputs: array?<seq<byte>>

    constructor (index: nat)
      requires index < 2
      ensures this.index == index && uploadMapped && uploadPending == NoMap && resultPending == NoMap
    {
      this.index := index;
      uploadMapped, uploadPending, resultPending, pendN, pendInputs := true, NoMap, NoMap, 0, null;
    }

    ghost predicate Safe(dev: Device)
      reads this, dev`queue, dev`executed
    {
      && index < 2
      && UploadSafe(uploadMapped, uploadPending, dev.queue, dev.executed, index)
      && ResultSafe(resultPending, dev.queue, dev.executed, index)
    }

    /** The slot's staging buffer is going to hold the digests of this batch. */
    ghost predicate Carrying(dev: Device, batch: seq<seq<byte>>)
      requires dev.Valid() && index < 2
      reads this, dev`state, dev`queue
    {
      && Good(dev.kernels, dev.Final().staging[index], batch)
      && pendN == |batch| && pendInputs != null && pendInputs.Length == |batch|
    }

    /** Its upload buffer can never be mapped again. */
    predicate UploadLost()
      reads this
    {
      !uploadMapped && uploadPending == NoMap
    }

    /** Wait for the upload buffer's mapping. */
    method RemapUpload(dev: Device, other: Slot) returns (ok: bool)
      requires dev.Valid() && Safe(dev) && !uploadMapped
      requires other != this && other.Safe(dev)
      modifies this`uploadMapped, this`uploadPending, dev`state, dev`queue, dev`executed, dev`faults
      ensures dev.Valid() && Safe(dev) && other.Safe(dev)
      ensures dev.Final() == old(dev.Final()) && dev.state.upload == old(dev.state.upload) && dev.Ticket() == old(dev.Ticket())
      ensures ok <==> uploadMapped
      ensures !ok ==> UploadLost()
      ensures old(UploadLost()) ==> !ok
      ensures if ok then dev.faults == old(dev.faults) else old(UploadLost()) || dev.faults > old(dev.faults)
      ensures dev.faults >= old(dev.faults)
    {
      hide Shaped, Exec, Run, Before;
      var pending := uploadPending;
      uploadPending := NoMap;
      if pending == NoMap {
        return false;
      }
      ghost var queue0, executed0 := dev.queue, dev.executed;
      ok := dev.Await(pending.ticket);
      SafeProgress(index, uploadMapped, pending, resultPending, queue0, executed0, dev.executed - executed0);
      other.KeptProgress(dev, queue0, executed0);
      if ok {
        BeforeDone(dev.queue, dev.executed, CopyText(index), pending.ticket);
        uploadMapped := true;
      }
    }

    /** Progress of the device keeps a slot safe. */
    lemma KeptProgress(dev: Device, queue0: seq<Command>, executed0: nat)
      requires UploadSafe(uploadMapped, uploadPending, queue0, executed0, index)
      requires ResultSafe(resultPending, queue0, executed0, index) && index < 2
      requires executed0 <= dev.executed <= executed0 + |queue0| && dev.queue == queue0[dev.executed - executed0..]
      ensures Safe(dev)
    {
      SafeProgress(index, uploadMapped, uploadPending, resultPending, queue0, executed0, dev.executed - executed0);
    }

    /** So does queueing commands that do not touch it. */
    lemma KeptAppend(dev: Device, queue0: seq<Command>, cs: seq<Command>)
      requires UploadSafe(uploadMapped, uploadPending, queue0, dev.executed, index)
      requires ResultSafe(resultPending, queue0, dev.executed, index) && index < 2
      requires dev.queue == queue0 + cs
      requires CopyText(index) !in cs || UploadLost()
      requires CopyOut(index) !in cs || resultPending == NoMap
      ensures Safe(dev)
    {
      if !UploadLost() {
        UploadSafeAppend(uploadMapped, uploadPending, queue0, dev.executed, index, cs);
      }
      if resultPending != NoMap {
        ResultSafeAppend(resultPending, queue0, dev.executed, index, cs);
      }
    }

    /** Put the data streams into the mapped buffer. */
    method FillUpload(dev: Device, inputs: array<seq<byte>>) returns (lens: seq<nat>)
      requires dev.Valid() && Wide(dev.state.upload) && Safe(dev) && Trusted(dev.kernels)
      requires uploadMapped && 0 < inputs.Length <= ROWS
      modifies dev`state
      ensures dev.Valid() && Wide(dev.state.upload) && Safe(dev)
      ensures dev.Final().staging == old(dev.Final().staging)
      ensures Prepared(dev.kernels, dev.state.upload[index], lens, inputs[..])
    {
      hide Shaped, Exec, Run, UploadSafe, ResultSafe, Before, Carries, Trusted;
      assert CopyText(index) !in dev.queue by { MappedUnread(uploadPending, dev.queue, dev.executed, index); }
      var rows;
      rows, lens := WriteRows(dev.kernels, dev.state.upload[index], inputs);
      dev.WriteUpload(index, rows);
    }

    /** Queue the lengths of the rows, unless the queue refuses. */
    method QueueLengths(dev: Device, lens: seq<nat>, ghost inputs: seq<seq<byte>>, other: Slot) returns (ok: bool)
      requires dev.Valid() && Safe(dev) && other.Safe(dev) && UploadLost()
      requires Prepared(dev.kernels, dev.state.upload[index], lens, inputs)
      modifies dev`queue, dev`faults
      ensures Safe(dev) && other.Safe(dev) && dev.Final().staging == old(dev.Final().staging)
      ensures !ok ==> dev.Ticket() == old(dev.Ticket())
      ensures dev.faults == old(dev.faults) + if ok then 0 else 1
      ensures ok ==> Prepared(dev.kernels, dev.Final().upload[index], dev.Final().lens, inputs)
    {
      hide UploadSafe, ResultSafe, Before, Prepared, Shaped;
      ghost var queue0, final0 := dev.queue, dev.Final();
      RunKeeps(dev.kernels, dev.state, dev.queue, index);
      ok := dev.Enqueue([WriteLens(lens)]);
      LengthsWritten(dev.kernels, final0, index, lens, inputs);
      if ok {
        KeptAppend(dev, queue0, [WriteLens(lens)]);
        other.KeptAppend(dev, queue0, [WriteLens(lens)]);
      } else {
        assert queue0 + [] == queue0;
      }
    }

    /** prepare: wait for the upload buffer, let the CPU write the data streams into it, and queue the
        lengths. */
    method Prepare(dev: Device, inputs: array<seq<byte>>, other: Slot) returns (ok: bool, ghost lens: seq<nat>)
      requires dev.Valid() && Wide(dev.state.upload) && Safe(dev) && Trusted(dev.kernels)
      requires other != this && other.Safe(dev) && other.index == 1 - index
      modifies this`uploadMapped, this`uploadPending, this`pendN, this`pendInputs, dev`state, dev`queue, dev`executed, dev`faults
      ensures dev.Valid() && Wide(dev.state.upload) && Safe(dev) && other.Safe(dev)
      ensures dev.Final().staging == old(dev.Final().staging)
      ensures old(UploadLost()) ==> !ok && UploadLost()
      ensures !ok ==> dev.Ticket() == old(dev.Ticket())
      ensures !ok ==> !(0 < inputs.Length <= ROWS) || old(UploadLost()) || dev.faults > old(dev.faults)
      ensures dev.faults >= old(dev.faults)
      ensures ok ==> UploadLost() && pendN == inputs.Length && pendInputs == inputs
      ensures ok ==> Prepared(dev.kernels, dev.Final().upload[index], dev.Final().lens, inputs[..])
    {
      hide Shaped, Trusted, Exec, Run, Good, Prepared, UploadSafe, ResultSafe, Wide;
      ok, lens := false, [];
      if inputs.Length == 0 || inputs.Length > ROWS {
        return;
      }
      if !uploadMapped {
        ok := RemapUpload(dev, other);
        if !ok {
          return;
        }
      }
      ok := dev.Call();
      if !ok {
        return;
      }
      var lengths := FillUpload(dev, inputs);
      lens := lengths;
      ok := dev.Call();
      if !ok {
        return;
      }
      Unmapped(uploadPending, dev.queue, dev.executed, index);
      uploadMapped := false;
      ok := QueueLengths(dev, lengths, inputs[..], other);
      if ok {
        pendN := inputs.Length;
        pendInputs := inputs;
      }
    }

    /** Queue a command that names neither of the host-visible buffers of the other slot. */
    method QueueStep(dev: Device, cs: seq<Command>, ghost base: Buffers, ghost before: seq<Command>, other: Slot) returns (ok: bool)
      requires dev.Valid() && Shaped(base) && dev.Final() == Run(dev.kernels, base, before)
      requires Safe(dev) && other.Safe(dev) && other.index == 1 - index && UploadLost()
      requires forall c :: c in cs ==> c == CopyText(index) || c.SortSlab?
      modifies dev`queue, dev`faults
      ensures Safe(dev) && other.Safe(dev)
      ensures dev.Final().staging == old(dev.Final().staging)
      ensures ok ==> dev.Final() == Run(dev.kernels, base, before + cs)
      ensures dev.faults == old(dev.faults) + if ok then 0 else 1
    {
      hide UploadSafe, ResultSafe, Before, Shaped, Exec, Run;
      ghost var queue0, final0 := dev.queue, dev.Final();
      ok := dev.Enqueue(cs);
      RunConcat(dev.kernels, base, before, cs);
      RunKeepsBoth(dev.kernels, final0, cs);
      if ok {
        KeptAppend(dev, queue0, cs);
        other.KeptAppend(dev, queue0, cs);
      } else {
        assert queue0 + [] == queue0;
      }
    }

    /** The final hash and the copy to the host, and the mapping of the result. */
    method QueueResult(dev: Device, ghost base: Buffers, ghost before: seq<Command>, other: Slot) returns (ok: bool)
      requires dev.Valid() && Shaped(base) && dev.Final() == Run(dev.kernels, base, before)
      requires Safe(dev) && other.Safe(dev) && other.index == 1 - index && UploadLost()
      modifies this`resultPending, dev`queue, dev`faults
      ensures Safe(dev) && other.Safe(dev)
      ensures dev.Final().staging[1 - index] == old(dev.Final().staging[1 - index])
      ensures ok ==> resultPending.MapAt? && dev.Final() == Run(dev.kernels, base, before + [FinalSha, CopyOut(index)])
      ensures dev.faults == old(dev.faults) + if ok then 0 else 1
    {
      hide UploadSafe, ResultSafe, Before, Shaped, Exec, Run;
      ghost var cs := [FinalSha, CopyOut(index)];
      ghost var queue0, final0 := dev.queue, dev.Final();
      ok := dev.Enqueue([FinalSha, CopyOut(index)]);
      RunConcat(dev.kernels, base, before, cs);
      RunKeeps(dev.kernels, final0, cs, 1 - index);
      if !ok {
        assert queue0 + [] == queue0;
        return;
      }
      ok := dev.Call();
      resultPending := NoMap;
      KeptAppend(dev, queue0, cs);
      other.KeptAppend(dev, queue0, cs);
      if ok {
        resultPending := MapAt(dev.Ticket());
        assert ResultSafe(resultPending, dev.queue, dev.executed, index) by {
          AllBeforeResult(dev.queue, dev.executed, index);
        }
      }
    }

    /** submitGroup: copy the text, sort the slabs, hash, copy the digests out, and request both mappings. */
    method SubmitGroup(dev: Device, ghost inputs: seq<seq<byte>>, other: Slot) returns (ok: bool)
      requires dev.Valid() && Trusted(dev.kernels) && Safe(dev) && other.Safe(dev) && other.index == 1 - index && UploadLost()
      requires Prepared(dev.kernels, dev.Final().upload[index], dev.Final().lens, inputs)
      modifies this`uploadPending, this`resultPending, dev`queue, dev`faults
      ensures Safe(dev) && other.Safe(dev)
      ensures dev.Final().staging[1 - index] == old(dev.Final().staging[1 - index])
      ensures !ok ==> UploadLost()
      ensures dev.faults == old(dev.faults) + if ok then 0 else 1
      ensures ok ==> !UploadLost()
      ensures ok ==> resultPending.MapAt? && Good(dev.kernels, dev.Final().staging[index], inputs)
    {
      hide UploadSafe, ResultSafe, Before, Shaped, Exec, Run, Good, Prepared, Trusted, GroupTo, Group;
      ghost var base := dev.Final();
      RunNothing(dev.kernels, base);
      ok := QueueStep(dev, [CopyText(index)], base, [], other);
      if !ok {
        return;
      }
      ghost var ids: seq<nat> := [];
      GroupToStart(index);
      var slab := 0;
      while slab < SLABS
        invariant 0 <= slab <= SLABS && |ids| == slab
        invariant dev.faults == old(dev.faults)
        invariant dev.Valid() && Safe(dev) && other.Safe(dev) && UploadLost() && dev.Final().staging == base.staging
        invariant dev.Final() == Run(dev.kernels, base, GroupTo(index, ids))
      {
        var id := dev.Ticket();
        ok := QueueStep(dev, [SortSlab(slab, id)], base, GroupTo(index, ids), other);
        if !ok {
          return;
        }
        GroupToNext(index, ids, id);
        ids := ids + [id];
        slab := slab + 1;
      }
      ok := QueueResult(dev, base, GroupTo(index, ids), other);
      if !ok {
        return;
      }
      GroupIsWhole(index, ids);
      GroupIsGood(dev.kernels, base, index, ids, inputs);
      ok := dev.Call();
      if ok {
        uploadPending := MapAt(dev.Ticket());
        assert UploadSafe(uploadMapped, uploadPending, dev.queue, dev.executed, index) by {
          AllBeforeUpload(uploadMapped, dev.queue, dev.executed, index);
        }
      }
    }

    /** collect: wait for the group's result, take the digests, and hash the rows of flagged slabs on the
        CPU.  The mapping is given up before the wait: after a failure there is nothing left to wait for. */
    method Collect(dev: Device, other: Slot, ghost batch: seq<seq<byte>>) returns (ok: bool, out: seq<Word256>)
      requires dev.Valid() && Safe(dev) && other != this && other.Safe(dev)
      requires Carrying(dev, batch) && pendInputs[..] == batch
      modifies this`resultPending, this`pendInputs, dev`state, dev`queue, dev`executed, dev`faults
      ensures dev.Valid() && Safe(dev) && other.Safe(dev)
      ensures dev.Final() == old(dev.Final()) && dev.state.upload == old(dev.state.upload)
      ensures resultPending == NoMap
      ensures old(resultPending) == NoMap ==> !ok
      ensures !ok ==> old(resultPending) == NoMap || dev.faults > old(dev.faults)
      ensures dev.faults >= old(dev.faults)
      ensures !ok ==> Carrying(dev, batch) && pendInputs == old(pendInputs)
      ensures ok ==> out == Sums(dev.kernels, batch)
    {
      hide UploadSafe, ResultSafe, Before, Shaped, Exec, Run, Good;
      var pending := resultPending;
      resultPending := NoMap;
      NoResult(dev.queue, dev.executed, index);
      ok, out := false, [];
      if pending == NoMap {
        return;
      }
      ghost var queue0, executed0 := dev.queue, dev.executed;
      ok := dev.Await(pending.ticket);
      SafeProgress(index, uploadMapped, uploadPending, pending, queue0, executed0, dev.executed - executed0);
      KeptProgress(dev, queue0, executed0);
      other.KeptProgress(dev, queue0, executed0);
      if !ok {
        return;
      }
      assert CopyOut(index) !in dev.queue by { ResultArrived(pending, dev.queue, dev.executed, index); }
      RunKeeps(dev.kernels, dev.state, dev.queue, index);
      var n := pendN;
      StagingShape(dev.state);
      StagingShape(dev.Final());
      var staging := dev.state.staging[index];
      assert staging == dev.Final().staging[index];
      GoodShape(dev.kernels, staging, batch);
      out := staging.digests[..n];
      var fallback := FlaggedRows(staging.flags, n);
      ok := dev.Call();
      if !ok {
        return;
      }
      out := HashOnCpu(dev, pendInputs, out, fallback);
      DigestsGood(dev.kernels, staging, batch, out);
      pendInputs := null;
    }

    /** Hash the flagged rows on the CPU, each once, in whatever order the workers take them. */
    method HashOnCpu(dev: Device, inputs: array<seq<byte>>, digests: seq<Word256>, rows: set<nat>) returns (out: seq<Word256>)
      requires inputs.Length == |digests| && forall i :: i in rows ==> i < |digests|
      ensures |out| == |digests|
      ensures forall i :: 0 <= i < |out| ==> out[i] == if i in rows then Sum(dev.kernels, inputs[i]) else digests[i]
    {
      out := digests;
      var todo := rows;
      while todo != {}
        invariant todo <= rows && |out| == |digests|
        invariant forall i :: 0 <= i < |out| ==> out[i] == if i in rows - todo then Sum(dev.kernels, inputs[i]) else digests[i]
        decreases |todo|
      {
        var i :| i in todo;
        out := out[i := Sum(dev.kernels, inputs[i])];
        todo := todo - {i};
      }
    }
  }

  /** The streamer.  flying is what the batch in flight contained when it was submitted. */
  class SpirvFastStreamer {
    const dev: Device
    const slot0: Slot
    const slot1: Slot
    var cur: nat
    var have: bool
    ghost var flying: seq<seq<byte>>

    constructor (kernels: Kernels, state: Buffers)
      requires Trusted(kernels) && Shaped(state) && Wide(state.upload)
      ensures Valid() && !have && dev.kernels == kernels && fresh(dev) && fresh(slot0) && fresh(slot1)
    {
      dev := new Device(kernels, state);
      slot0 := new Slot(0);
      slot1 := new Slot(1);
      cur, have, flying := 0, false, [];
    }

    function At(i: int): Slot
    {
      if i == 0 then slot0 else slot1
    }

    ghost predicate Ready()
      reads this, dev, slot0, slot1
    {
      && slot0 != slot1 && slot0.index == 0 && slot1.index == 1 && cur < 2
      && dev.Valid() && Trusted(dev.kernels) && Wide(dev.state.upload)
      && slot0.Safe(dev) && slot1.Safe(dev)
    }

    ghost predicate Valid()
      reads this, dev, slot0, slot1
    {
      Ready() && !At(1 - cur).UploadLost() && (have ==> At(1 - cur).Carrying(dev, flying))
    }

    /** The buffers behind the batch in flight still hold what was submitted. */
    ghost predicate BuffersKept()
      requires Valid()
      reads this, dev, slot0, slot1, At(1 - cur).pendInputs
    {
      have ==> At(1 - cur).pendInputs[..] == flying
    }

    /** Nothing will ever come out of the streamer again: a mapping has been given up for good. */
    predicate Stuck()
      reads this, slot0, slot1
    {
      cur < 2 && (At(cur).UploadLost() || (have && At(1 - cur).resultPending == NoMap))
    }

    /** Submit: queue a batch and return the digests of the one before.  A failure keeps the batch in
        flight where it was; a failure after commands were queued is final. */
    method Submit(inputs: array<seq<byte>>) returns (ok: bool, some: bool, out: seq<Word256>)
      requires Valid() && BuffersKept()
      modifies this`cur, this`have, this`flying, dev, slot0, slot1
      ensures Valid()
      ensures ok ==> have && cur == 1 - old(cur) && flying == inputs[..] && At(1 - cur).pendInputs == inputs
      ensures ok ==> some == old(have) && (some ==> out == Sums(dev.kernels, old(flying)))
      ensures !ok ==> have == old(have) && cur == old(cur) && flying == old(flying)
      ensures !ok ==> At(1 - cur).pendInputs == old(At(1 - cur).pendInputs)
      ensures ok ==> !Stuck()
      ensures old(Stuck()) ==> !ok && Stuck()
      ensures !ok && dev.Ticket() != old(dev.Ticket()) ==> Stuck()
      ensures !ok ==> !(0 < inputs.Length <= ROWS) || old(Stuck()) || dev.faults > old(dev.faults)
      ensures dev.faults >= old(dev.faults)
    {
      hide Slot.Safe, Good, Wide, Trusted, Sums, Shaped, Run, Exec, Prepared;
      some, out := false, [];
      var index := cur;
      var slot, other := At(index), At(1 - index);
      ghost var lens;
      ok, lens := slot.Prepare(dev, inputs, other);
      if !ok {
        return;
      }
      ok := slot.SubmitGroup(dev, inputs[..], other);
      if !ok {
        return;
      }
      if have {
        ok, out := other.Collect(dev, slot, flying);
        if !ok {
          return;
        }
        some := true;
      }
      have := true;
      cur := 1 - index;
      flying := inputs[..];
    }

    /** Drain: the digests of the batch in flight, if there is one. */
    method Drain() returns (ok: bool, some: bool, out: seq<Word256>)
      requires Valid() && BuffersKept()
      modifies this`have, dev, slot0, slot1
      ensures Valid()
      ensures !old(have) ==> ok && !some && !have
      ensures ok && old(have) ==> some && !have && out == Sums(dev.kernels, old(flying))
      ensures !ok ==> have == old(have) && (old(Stuck()) || dev.faults > old(dev.faults))
      ensures dev.faults >= old(dev.faults)
    {
      hide Slot.Safe, Good, Wide, Trusted, Sums, Shaped, Run, Exec, Prepared;
      some, out := false, [];
      if !have {
        return true, false, [];
      }
      ok, out := At(1 - cur).Collect(dev, At(cur), flying);
      if ok {
        some := true;
        have := false;
      }
    }
  }

  /** The rows of flagged slabs that belong to the batch. */
  method FlaggedRows(flags: seq<bool>, n: nat) returns (rows: set<nat>)
    requires |flags| == SLABS && n <= ROWS
    ensures forall i: nat :: i in rows <==> i < n && flags[i / SLAB_ROWS]
  {
    rows := {};
    var slab := 0;
    while slab < SLABS
      invariant 0 <= slab <= SLABS
      invariant forall i: nat :: i in rows <==> i < n && i < slab * SLAB_ROWS && flags[i / SLAB_ROWS]
    {
      if flags[slab] {
        var i, end := slab * SLAB_ROWS, (slab + 1) * SLAB_ROWS;
        if n < end {
          end := n;
        }
        while i < end
          invariant slab * SLAB_ROWS <= i && (i <= end || i == slab * SLAB_ROWS)
          invariant forall j: nat :: j in rows <==> j < n && (j < slab * SLAB_ROWS || j < i) && flags[j / SLAB_ROWS]
        {
          rows := rows + {i};
          i := i + 1;
        }
      }
      slab := slab + 1;
    }
  }

  lemma GoodShape(k: Kernels, s: Staging, inputs: seq<seq<byte>>)
    requires Good(k, s, inputs)
    ensures |s.digests| == ROWS && |s.flags| == SLABS && |inputs| <= ROWS
  {
  }

  lemma DigestsGood(k: Kernels, s: Staging, inputs: seq<seq<byte>>, out: seq<Word256>)
    requires Good(k, s, inputs) && |out| == |inputs|
    requires forall i :: 0 <= i < |out| ==> i / SLAB_ROWS < |s.flags| && i < |s.digests|
                                            && out[i] == if s.flags[i / SLAB_ROWS] then Sum(k, inputs[i]) else s.digests[i]
    ensures out == Sums(k, inputs)
  {
    forall i | 0 <= i < |out| ensures out[i] == Sum(k, inputs[i]) {
      assert GoodAt(k, s, inputs, i);
    }
  }

  lemma LengthsWritten(k: Kernels, d: Buffers, index: nat, lens: seq<nat>, inputs: seq<seq<byte>>)
    requires Shaped(d) && index < 2 && Prepared(k, d.upload[index], lens, inputs)
    ensures var d' := Run(k, d, [WriteLens(lens)]);
            Prepared(k, d'.upload[index], d'.lens, inputs) && d'.staging == d.staging
  {
    RunSingle(k, d, WriteLens(lens));
  }

  lemma RunKeepsBoth(k: Kernels, d: Buffers, cs: seq<Command>)
    requires Shaped(d) && CopyOut(0) !in cs && CopyOut(1) !in cs
    ensures Run(k, d, cs).staging == d.staging
  {
    hide Run, Exec;
    RunKeeps(k, d, cs, 0);
    RunKeeps(k, d, cs, 1);
  }

  lemma AllBefore(queue: seq<Command>, executed: nat, c: Command)
    ensures Before(queue, executed, c, executed + |queue|)
  {
  }

  lemma AllBeforeResult(queue: seq<Command>, executed: nat, index: nat)
    ensures ResultSafe(MapAt(executed + |queue|), queue, executed, index)
  {
    AllBefore(queue, executed, CopyOut(index));
  }

  lemma RunNothing(k: Kernels, d: Buffers)
    requires Shaped(d)
    ensures Run(k, d, []) == d
  {
  }

  lemma StagingShape(d: Buffers)
    requires Shaped(d)
    ensures |d.staging| == 2
  {
  }

  lemma AllBeforeUpload(mapped: bool, queue: seq<Command>, executed: nat, index: nat)
    requires !mapped
    ensures UploadSafe(mapped, MapAt(executed + |queue|), queue, executed, index)
  {
    AllBefore(queue, executed, CopyText(index));
  }

  lemma NoResult(queue: seq<Command>, executed: nat, index: nat)
    ensures ResultSafe(NoMap, queue, executed, index)
  {
  }

  lemma ResultArrived(pending: Pending, queue: seq<Command>, executed: nat, index: nat)
    requires pending.MapAt? && ResultSafe(pending, queue, executed, index) && executed >= pending.ticket
    ensures CopyOut(index) !in queue
  {
  }

  lemma GroupToStart(index: nat)
    ensures GroupTo(index, []) == [] + [CopyText(index)]
  {
  }

  lemma GroupToNext(index: nat, ids: seq<nat>, id: nat)
    ensures GroupTo(index, ids + [id]) == GroupTo(index, ids) + [SortSlab(|ids|, id)]
  {
  }

  lemma GroupIsWhole(index: nat, ids: seq<nat>)
    ensures Group(index, ids) == GroupTo(index, ids) + [FinalSha, CopyOut(index)]
  {
  }

  /** The CPU writes every data stream over its row; in any order, as each row is its own. */
  method WriteRows(k: Kernels, rows0: seq<seq<byte>>, inputs: array<seq<byte>>) returns (rows: seq<seq<byte>>, lens: seq<nat>)
    requires Trusted(k) && |rows0| == ROWS && inputs.Length <= ROWS && forall i :: 0 <= i < ROWS ==> |rows0[i]| == STRIDE
    ensures |rows| == ROWS && forall i :: 0 <= i < ROWS ==> |rows[i]| == STRIDE
    ensures Prepared(k, rows, lens, inputs[..])
  {
    hide Carries, Trusted, Indices;
    rows, lens := rows0, seq(ROWS, _ => 0);
    var todo := Indices(inputs.Length);
    IndicesAre(inputs.Length);
    while todo != {}
      invariant forall i: nat :: i in todo ==> i < inputs.Length
      invariant |rows| == |lens| == ROWS && forall i :: 0 <= i < ROWS ==> |rows[i]| == STRIDE
      invariant forall i: nat :: i < inputs.Length && i !in todo ==> Carries(k, rows[i], lens[i], inputs[i])
      decreases |todo|
    {
      var i :| i in todo;
      var stream := k.stream(inputs[i]);
      RowCarries(k, rows[i], inputs[i]);
      rows := rows[i := stream + rows[i][|stream|..]];
      lens := lens[i := |stream|];
      todo := todo - {i};
    }
  }

  lemma IndicesAre(n: nat)
    ensures forall i: nat :: i in Indices(n) <==> i < n
  {
  }

  function Indices(n: nat): (r: set<nat>)
    ensures forall i :: i in r <==> 0 <= i < n
  {
    if n == 0 then {} else Indices(n - 1) + {n - 1}
  }

  /** A stream written over a row is carried by it, whatever the row held. */
  lemma RowCarries(k: Kernels, row: seq<byte>, input: seq<byte>)
    requires Trusted(k) && |row| == STRIDE
    ensures |k.stream(input)| <= |row|
    ensures var row' := k.stream(input) + row[|k.stream(input)|..];
            |row'| == STRIDE && Carries(k, row', |k.stream(input)|, input)
  {
  }

  lemma Unmapped(pending: Pending, queue: seq<Command>, executed: nat, index: nat)
    requires UploadSafe(true, pending, queue, executed, index)
    ensures pending == NoMap && UploadSafe(false, pending, queue, executed, index)
  {
  }

  lemma MappedUnread(pending: Pending, queue: seq<Command>, executed: nat, index: nat)
    requires UploadSafe(true, pending, queue, executed, index)
    ensures CopyText(index) !in queue
  {
  }

  lemma SafeProgress(index: nat, mapped: bool, pending: Pending, result: Pending, queue: seq<Command>, executed: nat, n: nat)
    requires UploadSafe(mapped, pending, queue, executed, index) && ResultSafe(result, queue, executed, index) && n <= |queue|
    ensures UploadSafe(mapped, pending, queue[n..], executed + n, index) && ResultSafe(result, queue[n..], executed + n, index)
  {
    UploadSafeProgress(mapped, pending, queue, executed, index, n);
    ResultSafeProgress(result, queue, executed, index, n);
  }
}
