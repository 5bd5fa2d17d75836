/** The WGSL streamer (internal/gpu/pipeline.go, internal/gpu/fused.go): two sessions that take turns, each
    handing out views of its mapped result buffer, and the front that selects this or the native path. */
module FusedStream {
  import opened Suffixes
  import opened Difficulty
  import opened SpirvDevice
  import opened SpirvStream

  // ----- The device -----

  /** One queued computation: the inputs were copied when it was submitted. */
  datatype Dispatch = Dispatch(session: nat, inputs: seq<seq<byte>>, id: nat)

  /** What the n-th computation leaves in a row of the result buffer; nothing is assumed about it. */
  type Compute = (nat, seq<seq<byte>>, nat) -> seq<int>

  function Rows(compute: Compute, id: nat, inputs: seq<seq<byte>>): (r: seq<seq<int>>)
    ensures |r| == |inputs| && forall i :: 0 <= i < |inputs| ==> r[i] == compute(id, inputs, i)
  {
    seq(|inputs|, i requires 0 <= i < |inputs| => compute(id, inputs, i))
  }

  /** What a session's result buffer holds once the queue is empty. */
  function Eventually(compute: Compute, staged: seq<seq<int>>, queue: seq<Dispatch>, session: nat): seq<seq<int>>
    decreases |queue|
  {
    if queue == [] then staged
    else
      var next := if queue[0].session == session then Rows(compute, queue[0].id, queue[0].inputs) else staged;
      Eventually(compute, next, queue[1..], session)
  }

  lemma {:induction false} EventuallySnoc(compute: Compute, staged: seq<seq<int>>, queue: seq<Dispatch>, d: Dispatch, session: nat)
    ensures Eventually(compute, staged, queue + [d], session)
         == if d.session == session then Rows(compute, d.id, d.inputs) else Eventually(compute, staged, queue, session)
    decreases |queue|
  {
    if queue == [] {
      assert queue + [d] == [d] && [d][1..] == [];
    } else {
      var q := queue + [d];
      assert q[0] == queue[0] && q[1..] == queue[1..] + [d];
      var next := if queue[0].session == session then Rows(compute, queue[0].id, queue[0].inputs) else staged;
      EventuallySnoc(compute, next, queue[1..], d, session);
    }
  }

  predicate Writes(queue: seq<Dispatch>, session: nat) {
    exists p :: 0 <= p < |queue| && queue[p].session == session
  }

  lemma {:induction false} EventuallyNow(compute: Compute, staged: seq<seq<int>>, queue: seq<Dispatch>, session: nat)
    requires !Writes(queue, session)
    ensures Eventually(compute, staged, queue, session) == staged
    decreases |queue|
  {
    if queue != [] {
      assert queue[0].session != session;
      forall p | 0 <= p < |queue[1..]| ensures queue[1..][p].session != session {
        assert queue[p + 1].session != session;
      }
      EventuallyNow(compute, staged, queue[1..], session);
    }
  }

  class Gpu {
    const compute: Compute
    const sha: seq<int> -> Word256
    var staged0: seq<seq<int>>
    var staged1: seq<seq<int>>
    var queue: seq<Dispatch>
    var submitted: nat

    /** Which result buffers the host holds mapped. */
    var held: set<nat>

    /** How many calls have failed so far. */
    var faults: nat

    constructor (compute: Compute, sha: seq<int> -> Word256)
      ensures Valid() && held == {} && queue == []
    {
      this.compute, this.sha := compute, sha;
      staged0, staged1, queue, submitted, held, faults := [], [], [], 0, {}, 0;
    }

    function Staged(session: nat): seq<seq<int>>
      reads this`staged0, this`staged1
    {
      if session == 0 then staged0 else staged1
    }

    ghost function Final(session: nat): seq<seq<int>>
      reads this`staged0, this`staged1, this`queue
    {
      Eventually(compute, Staged(session), queue, session)
    }

    /** No command is waiting to write a buffer the host holds mapped. */
    ghost predicate Valid()
      reads this`queue, this`held
    {
      && (forall s :: s in held ==> !Writes(queue, s))
      && (forall p :: 0 <= p < |queue| ==> queue[p].session < 2)
    }

    /** The device executes some computations, in order. */
    method Progress()
      requires Valid()
      modifies this`staged0, this`staged1, this`queue
      ensures Valid() && Final(0) == old(Final(0)) && Final(1) == old(Final(1))
      ensures exists n :: 0 <= n <= |old(queue)| && queue == old(queue)[n..]
    {
      var n: nat := *;
      ghost var done := 0;
      while n > 0 && |queue| > 0
        invariant Valid() && Final(0) == old(Final(0)) && Final(1) == old(Final(1))
        invariant 0 <= done <= |old(queue)| && queue == old(queue)[done..]
      {
        var d := queue[0];
        var rows := Rows(compute, d.id, d.inputs);
        forall s | s in held ensures !Writes(queue[1..], s) {
          assert !Writes(queue, s);
          assert forall p :: 0 <= p < |queue[1..]| ==> queue[1..][p] == queue[p + 1];
        }
        if d.session == 0 {
          staged0 := rows;
        } else {
          staged1 := rows;
        }
        queue := queue[1..];
        n := n - 1;
        done := done + 1;
      }
    }

    /** MapAsync and the polling loop: resolved once nothing queued writes the buffer, or given up. */
    method Map(session: nat) returns (ok: bool)
      requires Valid() && session < 2
      modifies this`staged0, this`staged1, this`queue, this`held, this`faults
      ensures Valid() && Final(0) == old(Final(0)) && Final(1) == old(Final(1))
      ensures held == old(held) + if ok then {session} else {}
      ensures ok ==> Staged(session) == Final(session)
      ensures faults == old(faults) + if ok then 0 else 1
    {
      Progress();
      ok := *;
      if !ok || exists p :: 0 <= p < |queue| && queue[p].session == session {
        faults := faults + 1;
        return false;
      }
      EventuallyNow(compute, Staged(session), queue, session);
      held := held + {session};
    }

    /** A call of the library that does nothing but may fail. */
    method Call() returns (ok: bool)
      modifies this`faults
      ensures faults == old(faults) + if ok then 0 else 1
    {
      ok := *;
      if !ok {
        faults := faults + 1;
      }
    }

    /** Submit a computation; an error may be reported whether or not it was queued.  The library forbids
        to submit a write to a mapped buffer. */
    method Enqueue(session: nat, inputs: seq<seq<byte>>) returns (ok: bool, id: nat)
      requires Valid() && session < 2 && session !in held
      modifies this`queue, this`submitted, this`faults
      ensures Valid() && Final(1 - session) == old(Final(1 - session))
      ensures ok ==> Final(session) == Rows(compute, id, inputs)
      ensures faults == old(faults) + if ok then 0 else 1
    {
      id := submitted;
      ok := Call();
      var queued: bool := *;
      submitted := submitted + 1;
      if ok || queued {
        var d := Dispatch(session, inputs, id);
        EventuallySnoc(compute, Staged(0), queue, d, 0);
        EventuallySnoc(compute, Staged(1), queue, d, 1);
        forall s | s in held ensures !Writes(queue + [d], s) {
          assert !Writes(queue, s);
        }
        queue := queue + [d];
      }
    }
  }

  // ----- A session -----

  /** A zero-copy view of a session's mapped results, good until the session's next submit. */
  datatype View = View(session: nat, generation: nat)

  class FusedSession {
    const index: nat
    const slab: nat
    var pendN: nat
    var saMapped: bool
    var generation: nat

    constructor (index: nat, slab: nat)
      requires index < 2
      ensures this.index == index && !saMapped
    {
      this.index, this.slab, pendN, saMapped, generation := index, slab, 0, false, 0;
    }

    ghost predicate Valid(gpu: Gpu)
      reads this, gpu`held
    {
      index < 2 && (saMapped <==> index in gpu.held)
    }

    predicate Alive(view: View)
      reads this
    {
      saMapped && view == View(index, generation)
    }

    /** submitCompute: views handed out before end here. */
    method SubmitCompute(gpu: Gpu, inputs: seq<seq<byte>>) returns (ok: bool, ghost id: nat)
      requires gpu.Valid() && Valid(gpu)
      modifies this, gpu`queue, gpu`submitted, gpu`held, gpu`faults
      ensures gpu.Valid() && Valid(gpu) && gpu.Final(1 - index) == old(gpu.Final(1 - index))
      ensures forall s :: s != index ==> (s in gpu.held <==> s in old(gpu.held))
      ensures ok ==> !saMapped && pendN == |inputs| && gpu.Final(index) == Rows(gpu.compute, id, inputs)
      ensures !ok ==> |inputs| > slab || gpu.faults > old(gpu.faults)
      ensures gpu.faults >= old(gpu.faults)
    {
      hide Eventually;
      ok, id := false, 0;
      if |inputs| > slab {
        return;
      }
      pendN := |inputs|;
      if saMapped {
        gpu.held := gpu.held - {index};
        saMapped := false;
        generation := generation + 1;
      }
      ok := gpu.Call();
      if !ok {
        return;
      }
      ok, id := gpu.Enqueue(index, inputs);
    }

    /** collect: map the results of the submission in flight; after an error the buffer is unmapped. */
    method Collect(gpu: Gpu) returns (ok: bool, view: View)
      requires gpu.Valid() && Valid(gpu) && !saMapped
      modifies this`saMapped, gpu`staged0, gpu`staged1, gpu`queue, gpu`held, gpu`faults
      ensures gpu.Valid() && Valid(gpu) && gpu.Final(0) == old(gpu.Final(0)) && gpu.Final(1) == old(gpu.Final(1))
      ensures forall s :: s != index ==> (s in gpu.held <==> s in old(gpu.held))
      ensures ok ==> Alive(view) && gpu.Staged(index) == gpu.Final(index)
      ensures !ok ==> !saMapped
      ensures gpu.faults == old(gpu.faults) + if ok then 0 else 1
    {
      hide Eventually;
      view := View(index, generation);
      ok := gpu.Map(index);
      if !ok {
        return;
      }
      ok := gpu.Call();
      if ok {
        saMapped := true;
      } else {
        gpu.held := gpu.held - {index};
      }
    }

    /** finalHashBatch: hash the rows behind a view that is still alive, in any order. */
    method FinalHashBatch(gpu: Gpu, view: View) returns (out: seq<Word256>)
      requires Alive(view) && pendN == |gpu.Staged(index)|
      ensures |out| == |gpu.Staged(index)| && forall i :: 0 <= i < |out| ==> out[i] == gpu.sha(gpu.Staged(index)[i])
      ensures out == Hashes(gpu.sha, gpu.Staged(index))
    {
      var rows := gpu.Staged(index)[..pendN];
      assert rows == gpu.Staged(index);
      out := seq(pendN, _ => gpu.sha([]));
      var todo := Indices(pendN);
      while todo != {}
        invariant |out| == pendN && todo <= Indices(pendN)
        invariant forall i: nat :: i < pendN && i !in todo ==> out[i] == gpu.sha(rows[i])
      {
        var i :| i in todo;
        todo := todo - {i};
        out := out[i := gpu.sha(rows[i])];
      }
      HashesAre(gpu.sha, rows, out);
    }
  }

  function HashOf(sha: seq<int> -> Word256, row: seq<int>): Word256 {
    sha(row)
  }

  function Hashes(sha: seq<int> -> Word256, rows: seq<seq<int>>): (r: seq<Word256>)
    ensures |r| == |rows| && forall i :: 0 <= i < |rows| ==> r[i] == sha(rows[i])
  {
    seq(|rows|, i requires 0 <= i < |rows| => HashOf(sha, rows[i]))
  }

  lemma HashesAre(sha: seq<int> -> Word256, rows: seq<seq<int>>, out: seq<Word256>)
    requires |out| == |rows| && forall i :: 0 <= i < |rows| ==> out[i] == sha(rows[i])
    ensures out == Hashes(sha, rows)
  {
  }

  /** The digests of one computation of the device on the inputs, each that of its own row. */
  ghost predicate OfDevice(gpu: Gpu, inputs: seq<seq<byte>>, digests: seq<Word256>) {
    |digests| == |inputs| && exists id: nat :: DigestsOf(gpu, id, inputs, digests)
  }

  ghost predicate DigestsOf(gpu: Gpu, id: nat, inputs: seq<seq<byte>>, digests: seq<Word256>) {
    |digests| == |inputs| && forall i :: 0 <= i < |inputs| ==> digests[i] == gpu.sha(gpu.compute(id, inputs, i))
  }

  lemma DeviceDigests(gpu: Gpu, id: nat, inputs: seq<seq<byte>>)
    ensures DigestsOf(gpu, id, inputs, Hashes(gpu.sha, Rows(gpu.compute, id, inputs)))
    ensures OfDevice(gpu, inputs, Hashes(gpu.sha, Rows(gpu.compute, id, inputs)))
  {
  }

  // ----- The streamer -----

  /** A batch that Submit accepted: what it contained then, and the digests computed from that. */
  datatype Accepted = Accepted(inputs: seq<seq<byte>>, digests: seq<Word256>)

  class FusedStreamer {
    const gpu: Gpu
    const pipe0: FusedSession
    const pipe1: FusedSession
    const fast: SpirvFastStreamer?
    var cur: nat
    var have: bool

    /** Every batch accepted so far, and how many of them have been returned. */
    ghost var accepted: seq<Accepted>
    ghost var returned: nat

    constructor (gpu: Gpu, slab: nat, fast: SpirvFastStreamer?)
      requires gpu.Valid() && gpu.held == {} && (fast != null ==> fast.Valid() && !fast.have)
      ensures Valid() && accepted == [] && returned == 0 && this.gpu == gpu && this.fast == fast
      ensures fresh(pipe0) && fresh(pipe1)
    {
      this.gpu, this.fast := gpu, fast;
      pipe0 := new FusedSession(0, slab);
      pipe1 := new FusedSession(1, slab);
      cur, have, accepted, returned := 0, false, [], 0;
    }

    function At(i: int): FusedSession {
      if i == 0 then pipe0 else pipe1
    }

    ghost predicate SessionsValid()
      reads gpu`queue, gpu`held, pipe0, pipe1
    {
      && pipe0 != pipe1 && pipe0.index == 0 && pipe1.index == 1
      && gpu.Valid() && pipe0.Valid(gpu) && pipe1.Valid(gpu)
    }

    function Repr(): set<object> {
      {this, gpu, pipe0, pipe1} + if fast == null then {} else {fast, fast.dev, fast.slot0, fast.slot1}
    }

    /** How many device calls have failed so far. */
    ghost function Faults(): nat
      reads Repr()
    {
      if fast != null then fast.dev.faults else gpu.faults
    }

    /** The native path has not given up a mapping for good. */
    predicate Healthy()
      reads Repr()
    {
      fast != null ==> !fast.Stuck()
    }

    /** The largest batch the streamer takes. */
    function Capacity(): nat {
      if fast != null then ROWS else if pipe0.slab < pipe1.slab then pipe0.slab else pipe1.slab
    }

    ghost predicate InFlight()
      reads this, fast
    {
      if fast != null then fast.have else have
    }

    ghost predicate Valid()
      reads Repr()
    {
      && |accepted| == returned + (if InFlight() then 1 else 0)
      && (if fast != null then
            && fast.Valid()
            && (fast.have ==> accepted[returned] == Accepted(fast.flying, Sums(fast.dev.kernels, fast.flying)))
          else
            && SessionsValid() && cur < 2
            && (have ==>
                  && !At(1 - cur).saMapped
                  && At(1 - cur).pendN == |accepted[returned].inputs| == |gpu.Final(1 - cur)|
                  && accepted[returned].digests == Hashes(gpu.sha, gpu.Final(1 - cur))))
    }

    /** The caller's buffers behind the batch in flight, which the native path still reads. */
    ghost function Behind(): array?<seq<byte>>
      requires fast != null
      reads fast, fast.slot0, fast.slot1
    {
      fast.At(1 - fast.cur).pendInputs
    }

    /** What the native path needs of its caller: the buffers of the batch in flight are left alone. */
    ghost predicate BuffersKept()
      requires Valid()
      reads Repr(), if fast == null then {} else {fast.At(1 - fast.cur).pendInputs}
    {
      fast != null ==> fast.BuffersKept()
    }

    /** The digests come from the batch: from the CPU's hash function on the native path, whose flagged
        rows are redone there, and otherwise from one computation on the device. */
    ghost predicate Computed(a: Accepted) {
      if fast != null then a.digests == Sums(fast.dev.kernels, a.inputs)
      else OfDevice(gpu, a.inputs, a.digests)
    }

    /** Submit: accept a batch and return the digests of the one accepted before; or fail, and neither
        accept nor lose anything. */
    method Submit(inputs: array<seq<byte>>) returns (ok: bool, some: bool, out: seq<Word256>)
      requires Valid() && BuffersKept() && inputs.Length > 0
      modifies Repr()
      ensures Valid()
      ensures !ok ==> accepted == old(accepted) && returned == old(returned) && InFlight() == old(InFlight())
      ensures ok ==> InFlight() && |accepted| == |old(accepted)| + 1 == returned + 1 && accepted[..|old(accepted)|] == old(accepted)
      ensures ok ==> accepted[|old(accepted)|].inputs == inputs[..] && Computed(accepted[|old(accepted)|])
      ensures ok ==> some == old(InFlight()) && returned == old(returned) + if some then 1 else 0
      ensures ok && some ==> out == old(accepted)[old(returned)].digests
      ensures fast != null ==> Behind() == if ok then inputs else old(Behind())
      ensures !ok ==> inputs.Length > Capacity() || Faults() > old(Faults()) || !old(Healthy())
      ensures (ok ==> Healthy()) && (!old(Healthy()) ==> !ok && !Healthy())
      ensures Faults() >= old(Faults())
    {
      if fast != null {
        ok, some, out := SubmitFast(inputs);
        return;
      }
      ok, some, out := SubmitSessions(inputs[..]);
    }

    method SubmitFast(inputs: array<seq<byte>>) returns (ok: bool, some: bool, out: seq<Word256>)
      requires Valid() && BuffersKept() && inputs.Length > 0 && fast != null
      modifies this`accepted, this`returned, fast, fast.dev, fast.slot0, fast.slot1
      ensures Valid()
      ensures !ok ==> accepted == old(accepted) && returned == old(returned) && fast.have == old(fast.have)
      ensures ok ==> fast.have && |accepted| == |old(accepted)| + 1 == returned + 1 && accepted[..|old(accepted)|] == old(accepted)
      ensures ok ==> accepted[|old(accepted)|].inputs == inputs[..] && Computed(accepted[|old(accepted)|])
      ensures ok ==> some == old(fast.have) && returned == old(returned) + if some then 1 else 0
      ensures ok && some ==> out == old(accepted)[old(returned)].digests
      ensures Behind() == if ok then inputs else old(Behind())
      ensures !ok ==> inputs.Length > ROWS || fast.dev.faults > old(fast.dev.faults) || old(fast.Stuck())
      ensures (ok ==> !fast.Stuck()) && (old(fast.Stuck()) ==> !ok && fast.Stuck())
      ensures fast.dev.faults >= old(fast.dev.faults)
    {
      hide SpirvFastStreamer.Ready, Slot.Carrying, SpirvFastStreamer.Stuck, Sums;
      ok, some, out := fast.Submit(inputs);
      if ok {
        accepted := accepted + [Accepted(fast.flying, Sums(fast.dev.kernels, fast.flying))];
        returned := returned + if some then 1 else 0;
      }
    }

    /** Collect the session in flight and hash its rows while the view is alive. */
    method CollectPrevious() returns (ok: bool, out: seq<Word256>)
      requires SessionsValid() && cur < 2 && !At(1 - cur).saMapped && At(1 - cur).pendN == |gpu.Final(1 - cur)|
      modifies At(1 - cur)`saMapped, gpu`staged0, gpu`staged1, gpu`queue, gpu`held, gpu`faults
      ensures SessionsValid() && gpu.Final(0) == old(gpu.Final(0)) && gpu.Final(1) == old(gpu.Final(1))
      ensures !ok ==> !At(1 - cur).saMapped
      ensures At(cur).saMapped == old(At(cur).saMapped)
      ensures gpu.faults == old(gpu.faults) + if ok then 0 else 1
      ensures ok ==> out == Hashes(gpu.sha, gpu.Final(1 - cur))
    {
      hide Eventually, Hashes, Rows, Gpu.Valid;
      out := [];
      var view;
      ok, view := At(1 - cur).Collect(gpu);
      if ok {
        out := At(1 - cur).FinalHashBatch(gpu, view);
      }
    }

    /** Collect the session in flight if there is one. */
    method CollectOwed() returns (ok: bool, out: seq<Word256>)
      requires SessionsValid() && cur < 2
      requires have ==> !At(1 - cur).saMapped && At(1 - cur).pendN == |gpu.Final(1 - cur)|
      modifies At(1 - cur)`saMapped, gpu`staged0, gpu`staged1, gpu`queue, gpu`held, gpu`faults
      ensures SessionsValid() && gpu.Final(0) == old(gpu.Final(0)) && gpu.Final(1) == old(gpu.Final(1))
      ensures !ok || !have ==> At(1 - cur).saMapped == old(At(1 - cur).saMapped)
      ensures At(cur).saMapped == old(At(cur).saMapped)
      ensures gpu.faults == old(gpu.faults) + if ok then 0 else 1
      ensures ok && have ==> out == Hashes(gpu.sha, gpu.Final(1 - cur))
    {
      hide Eventually, Hashes, Rows, Gpu.Valid, SessionsValid;
      ok, out := true, [];
      if have {
        ok, out := CollectPrevious();
      }
    }

    /** Start the computation of a batch on the current session. */
    method SubmitCurrent(inputs: seq<seq<byte>>) returns (ok: bool, ghost id: nat)
      requires SessionsValid() && cur < 2 && fast == null
      modifies At(cur), gpu`queue, gpu`submitted, gpu`held, gpu`faults
      ensures SessionsValid() && gpu.Final(1 - cur) == old(gpu.Final(1 - cur))
      ensures At(1 - cur).saMapped == old(At(1 - cur).saMapped) && At(1 - cur).pendN == old(At(1 - cur).pendN)
      ensures ok ==> !At(cur).saMapped && At(cur).pendN == |inputs| && gpu.Final(cur) == Rows(gpu.compute, id, inputs)
      ensures !ok ==> |inputs| > Capacity() || gpu.faults > old(gpu.faults)
      ensures gpu.faults >= old(gpu.faults)
    {
      hide Eventually, Rows, Gpu.Valid;
      ok, id := At(cur).SubmitCompute(gpu, inputs);
    }

    method SubmitSessions(inputs: seq<seq<byte>>) returns (ok: bool, some: bool, out: seq<Word256>)
      requires Valid() && fast == null
      modifies this, gpu, pipe0, pipe1
      ensures Valid()
      ensures !ok ==> accepted == old(accepted) && returned == old(returned) && have == old(have)
      ensures ok ==> have && |accepted| == |old(accepted)| + 1 == returned + 1 && accepted[..|old(accepted)|] == old(accepted)
      ensures ok ==> accepted[|old(accepted)|].inputs == inputs && Computed(accepted[|old(accepted)|])
      ensures ok ==> some == old(have) && returned == old(returned) + if some then 1 else 0
      ensures ok && some ==> out == old(accepted)[old(returned)].digests
      ensures !ok ==> |inputs| > Capacity() || gpu.faults > old(gpu.faults)
      ensures gpu.faults >= old(gpu.faults)
    {
      hide Eventually, Hashes, Rows, Gpu.Valid, SessionsValid, Computed, Capacity;
      some, out := false, [];
      ghost var id;
      ok, id := SubmitCurrent(inputs);
      if !ok {
        return;
      }
      ok, out := CollectOwed();
      if !ok {
        return;
      }
      some := have;
      WasComputed(inputs, id);
      TakeTurns(inputs, Hashes(gpu.sha, Rows(gpu.compute, id, inputs)));
    }

    /** The batch just submitted is the one in flight, and the other session is next. */
    method TakeTurns(ghost inputs: seq<seq<byte>>, ghost digests: seq<Word256>)
      requires SessionsValid() && cur < 2 && fast == null && |accepted| == returned + if have then 1 else 0
      requires !At(cur).saMapped && At(cur).pendN == |inputs| == |gpu.Final(cur)| && digests == Hashes(gpu.sha, gpu.Final(cur))
      modifies this
      ensures Valid() && have && returned == old(returned) + if old(have) then 1 else 0
      ensures accepted == old(accepted) + [Accepted(inputs, digests)]
    {
      hide Eventually, Hashes, Rows, Gpu.Valid, SessionsValid;
      accepted := accepted + [Accepted(inputs, digests)];
      returned := returned + if have then 1 else 0;
      have := true;
      cur := 1 - cur;
    }

    lemma WasComputed(inputs: seq<seq<byte>>, id: nat)
      requires fast == null
      ensures Computed(Accepted(inputs, Hashes(gpu.sha, Rows(gpu.compute, id, inputs))))
    {
      hide Hashes, Rows, OfDevice;
      DeviceDigests(gpu, id, inputs);
    }

    /** Drain: the digests of the last accepted batch, if they are still owed. */
    method Drain() returns (ok: bool, some: bool, out: seq<Word256>)
      requires Valid() && BuffersKept()
      modifies Repr()
      ensures Valid() && accepted == old(accepted)
      ensures !ok ==> returned == old(returned)
      ensures ok ==> some == old(InFlight()) && !InFlight() && returned == |accepted| == old(returned) + if some then 1 else 0
      ensures ok && some ==> out == accepted[old(returned)].digests
      ensures !ok ==> Faults() > old(Faults()) || !old(Healthy())
      ensures Faults() >= old(Faults())
    {
      if fast != null {
        ok, some, out := fast.Drain();
        returned := returned + if ok && some then 1 else 0;
        return;
      }
      ok, some, out := DrainSessions();
    }

    method DrainSessions() returns (ok: bool, some: bool, out: seq<Word256>)
      requires Valid() && fast == null
      modifies this`have, this`returned, gpu, pipe0, pipe1
      ensures Valid()
      ensures !ok ==> returned == old(returned)
      ensures ok ==> some == old(have) && !have && returned == |accepted| == old(returned) + if some then 1 else 0
      ensures ok && some ==> out == accepted[old(returned)].digests
      ensures !ok ==> gpu.faults > old(gpu.faults)
      ensures gpu.faults >= old(gpu.faults)
    {
      hide Eventually, Hashes, Rows, Gpu.Valid;
      ok, some, out := true, false, [];
      if !have {
        return;
      }
      ok, out := CollectPrevious();
      if !ok {
        return;
      }
      have := false;
      some := true;
      returned := returned + 1;
    }
  }

  // ----- Lists of batches -----

  /** HashBatchFusedStream on the native path: the digests of every batch, each in its place.  A list with an
      empty or an oversized batch is refused before anything is submitted, and so is every list while a batch
      of another caller is in flight. */
  method HashBatchNative(fast: SpirvFastStreamer, batches: seq<array<seq<byte>>>) returns (ok: bool, out: seq<seq<Word256>>)
    requires fast.Valid()
    modifies fast, fast.dev, fast.slot0, fast.slot1
    ensures fast.Valid()
    ensures ok ==> |out| == |batches| && forall i :: 0 <= i < |batches| ==> out[i] == Sums(fast.dev.kernels, batches[i][..])
    ensures forall i :: 0 <= i < |batches| ==> batches[i][..] == old(batches[i][..])
    ensures !ok ==> fast.dev.faults > old(fast.dev.faults) || old(fast.Stuck() || fast.have)
                    || exists i :: 0 <= i < |batches| && !(0 < batches[i].Length <= ROWS)
    ensures (|batches| > 0 && old(fast.have)) || (exists i :: 0 <= i < |batches| && !(0 < batches[i].Length <= ROWS)) ==>
              !ok && unchanged(fast, fast.dev, fast.slot0, fast.slot1)
  {
    hide SpirvFastStreamer.Ready, Slot.Carrying, Sums, SpirvFastStreamer.Valid;
    ok, out := true, [];
    if |batches| == 0 {
      return;
    }
    if fast.have || exists i :: 0 <= i < |batches| && !(0 < batches[i].Length <= ROWS) {
      return false, [];
    }
    ok, out := SubmitAll(fast, batches);
    if ok {
      var some, last;
      ok, some, last := fast.Drain();
      out := out + [last];
    }
  }

  /** Submit the batches in turn; the last one stays in flight. */
  method SubmitAll(fast: SpirvFastStreamer, batches: seq<array<seq<byte>>>) returns (ok: bool, out: seq<seq<Word256>>)
    requires fast.Valid() && !fast.have && |batches| > 0 && forall i :: 0 <= i < |batches| ==> 0 < batches[i].Length <= ROWS
    modifies fast, fast.dev, fast.slot0, fast.slot1
    ensures fast.Valid() && fast.dev.faults >= old(fast.dev.faults) && (ok && fast.Stuck() ==> old(fast.Stuck()))
    ensures ok ==> fast.have && fast.flying == batches[|batches| - 1][..] && fast.At(1 - fast.cur).pendInputs == batches[|batches| - 1]
    ensures ok ==> |out| == |batches| - 1 && forall i :: 0 <= i < |out| ==> out[i] == Sums(fast.dev.kernels, batches[i][..])
    ensures !ok ==> fast.dev.faults > old(fast.dev.faults) || old(fast.Stuck())
  {
    hide SpirvFastStreamer.Ready, Slot.Carrying, Sums;
    ok, out := true, [];
    var i := 0;
    while i < |batches|
      invariant 0 <= i <= |batches| && |out| == (if i == 0 then 0 else i - 1)
      invariant fast.Valid() && (fast.have <==> i > 0) && fast.dev.faults >= old(fast.dev.faults)
      invariant fast.Stuck() ==> old(fast.Stuck())
      invariant i > 0 ==> fast.flying == batches[i - 1][..] && fast.At(1 - fast.cur).pendInputs == batches[i - 1]
      invariant forall k :: 0 <= k < |out| ==> out[k] == Sums(fast.dev.kernels, batches[k][..])
    {
      var some, got;
      ok, some, got := fast.Submit(batches[i]);
      if !ok {
        return;
      }
      if i > 0 {
        out := out + [got];
      }
      i := i + 1;
    }
  }

  /** Two sessions, each with its own result buffer. */
  ghost predicate Paired(gpu: Gpu, a: FusedSession, b: FusedSession)
    reads gpu`queue, gpu`held, a, b
  {
    a != b && a.index + b.index == 1 && gpu.Valid() && a.Valid(gpu) && b.Valid(gpu)
  }

  function Pipe(pipe0: FusedSession, pipe1: FusedSession, i: nat): FusedSession {
    if i % 2 == 0 then pipe0 else pipe1
  }

  /** The session will give the rows of a computation of these inputs. */
  ghost predicate Computing(gpu: Gpu, pipe: FusedSession, inputs: seq<seq<byte>>)
    reads gpu`staged0, gpu`staged1, gpu`queue, pipe
  {
    && !pipe.saMapped && pipe.pendN == |inputs| == |gpu.Final(pipe.index)|
    && OfDevice(gpu, inputs, Hashes(gpu.sha, gpu.Final(pipe.index)))
  }

  /** Start a batch on one session; the other one goes on with its own. */
  method StartBatch(gpu: Gpu, cur: FusedSession, other: FusedSession, inputs: seq<seq<byte>>, ghost before: seq<seq<byte>>) returns (ok: bool)
    requires Paired(gpu, cur, other)
    modifies gpu, cur
    ensures Paired(gpu, cur, other) && Paired(gpu, other, cur) && gpu.faults >= old(gpu.faults)
    ensures ok ==> Computing(gpu, cur, inputs)
    ensures old(Computing(gpu, other, before)) ==> Computing(gpu, other, before)
    ensures !ok ==> |inputs| > cur.slab || gpu.faults > old(gpu.faults)
  {
    hide Eventually, Rows, Hashes, Gpu.Valid, OfDevice;
    ghost var id;
    ok, id := cur.SubmitCompute(gpu, inputs);
    if ok {
      DeviceDigests(gpu, id, inputs);
      assert |Rows(gpu.compute, id, inputs)| == |inputs|;
    }
  }

  /** Collect a batch and hash it; the other session goes on. */
  method FinishBatch(gpu: Gpu, done: FusedSession, other: FusedSession, ghost inputs: seq<seq<byte>>, ghost next: seq<seq<byte>>)
    returns (ok: bool, out: seq<Word256>)
    requires Paired(gpu, done, other) && Computing(gpu, done, inputs)
    modifies gpu, done
    ensures Paired(gpu, done, other) && Paired(gpu, other, done)
    ensures ok ==> OfDevice(gpu, inputs, out)
    ensures old(Computing(gpu, other, next)) ==> Computing(gpu, other, next)
    ensures gpu.faults == old(gpu.faults) + if ok then 0 else 1
  {
    hide Eventually, Rows, Hashes, Gpu.Valid, OfDevice;
    out := [];
    var view;
    ok, view := done.Collect(gpu);
    if ok {
      out := done.FinalHashBatch(gpu, view);
    }
  }

  /** Start batch i on its session, then finish the one before it on the other. */
  method PingPong(gpu: Gpu, pipe0: FusedSession, pipe1: FusedSession, batches: seq<seq<seq<byte>>>, i: nat)
    returns (ok: bool, got: seq<Word256>)
    requires Paired(gpu, pipe0, pipe1) && Paired(gpu, pipe1, pipe0) && i < |batches|
    requires i > 0 ==> Computing(gpu, Pipe(pipe0, pipe1, i - 1), batches[i - 1])
    modifies gpu, pipe0, pipe1
    ensures Paired(gpu, pipe0, pipe1) && Paired(gpu, pipe1, pipe0) && gpu.faults >= old(gpu.faults)
    ensures ok ==> Computing(gpu, Pipe(pipe0, pipe1, i), batches[i])
    ensures ok && i > 0 ==> OfDevice(gpu, batches[i - 1], got)
    ensures !ok ==> |batches[i]| > Pipe(pipe0, pipe1, i).slab || gpu.faults > old(gpu.faults)
  {
    hide Paired, Computing, OfDevice;
    var cur, other := Pipe(pipe0, pipe1, i), Pipe(pipe0, pipe1, i + 1);
    assert i > 0 ==> other == Pipe(pipe0, pipe1, i - 1);
    got := [];
    ok := StartBatch(gpu, cur, other, batches[i], if i > 0 then batches[i - 1] else []);
    if ok && i > 0 {
      ok, got := FinishBatch(gpu, other, cur, batches[i - 1], batches[i]);
    }
  }

  /** Run the batches through the sessions; the last one stays in flight. */
  method RunAll(gpu: Gpu, pipe0: FusedSession, pipe1: FusedSession, batches: seq<seq<seq<byte>>>)
    returns (ok: bool, out: seq<seq<Word256>>)
    requires Paired(gpu, pipe0, pipe1) && Paired(gpu, pipe1, pipe0) && |batches| > 0
    modifies gpu, pipe0, pipe1
    ensures Paired(gpu, pipe0, pipe1) && Paired(gpu, pipe1, pipe0) && gpu.faults >= old(gpu.faults)
    ensures ok ==> Computing(gpu, Pipe(pipe0, pipe1, |batches| - 1), batches[|batches| - 1])
    ensures ok ==> |out| == |batches| - 1 && forall k :: 0 <= k < |out| ==> OfDevice(gpu, batches[k], out[k])
    ensures !ok ==> gpu.faults > old(gpu.faults) || exists i :: 0 <= i < |batches| && |batches[i]| > Pipe(pipe0, pipe1, i).slab
  {
    hide Paired, Computing, OfDevice, Pipe;
    ok, out := true, [];
    var i := 0;
    while i < |batches|
      invariant 0 <= i <= |batches| && |out| == (if i == 0 then 0 else i - 1)
      invariant Paired(gpu, pipe0, pipe1) && Paired(gpu, pipe1, pipe0) && gpu.faults >= old(gpu.faults)
      invariant i > 0 ==> Computing(gpu, Pipe(pipe0, pipe1, i - 1), batches[i - 1])
      invariant forall k :: 0 <= k < |out| ==> OfDevice(gpu, batches[k], out[k])
    {
      var got;
      ok, got := PingPong(gpu, pipe0, pipe1, batches, i);
      if !ok {
        return;
      }
      if i > 0 {
        out := out + [got];
      }
      i := i + 1;
    }
  }

  /** HashBatchFusedStream on the two sessions: batch i + 1 is submitted to one before batch i is collected
      from the other.  The digests of every batch, each in its place. */
  method HashBatchSessions(gpu: Gpu, pipe0: FusedSession, pipe1: FusedSession, batches: seq<seq<seq<byte>>>)
    returns (ok: bool, out: seq<seq<Word256>>)
    requires Paired(gpu, pipe0, pipe1)
    modifies gpu, pipe0, pipe1
    ensures Paired(gpu, pipe0, pipe1)
    ensures ok ==> |out| == |batches| && forall i :: 0 <= i < |batches| ==> OfDevice(gpu, batches[i], out[i])
    ensures !ok ==> gpu.faults > old(gpu.faults)
                    || exists i :: 0 <= i < |batches| && (|batches[i]| == 0 || |batches[i]| > Pipe(pipe0, pipe1, i).slab)
    ensures (exists i :: 0 <= i < |batches| && |batches[i]| == 0) ==> !ok && unchanged(gpu, pipe0, pipe1)
  {
    assert Paired(gpu, pipe1, pipe0);
    hide Paired, Computing, OfDevice, Pipe;
    ok, out := true, [];
    if |batches| == 0 {
      return;
    }
    if exists i :: 0 <= i < |batches| && |batches[i]| == 0 {
      return false, [];
    }
    ok, out := RunAll(gpu, pipe0, pipe1, batches);
    if ok {
      var last;
      ok, last := FinishLast(gpu, pipe0, pipe1, |batches| - 1, batches[|batches| - 1]);
      out := out + [last];
    }
  }

  method FinishLast(gpu: Gpu, pipe0: FusedSession, pipe1: FusedSession, i: nat, ghost inputs: seq<seq<byte>>) returns (ok: bool, got: seq<Word256>)
    requires Paired(gpu, pipe0, pipe1) && Paired(gpu, pipe1, pipe0) && Computing(gpu, Pipe(pipe0, pipe1, i), inputs)
    modifies gpu, pipe0, pipe1
    ensures Paired(gpu, pipe0, pipe1) && (ok ==> OfDevice(gpu, inputs, got))
    ensures gpu.faults == old(gpu.faults) + if ok then 0 else 1
  {
    hide Paired, Computing, OfDevice;
    ok, got := FinishBatch(gpu, Pipe(pipe0, pipe1, i), Pipe(pipe0, pipe1, i + 1), inputs, []);
  }
}
