/** The streaming mining loop (cmd/go-gpu-miner/main.go): results arrive one iteration late, and every batch
    is still judged against the very job it was built for, whatever fails and whenever jobs are pushed. */
module MineLoop {
  import opened Suffixes
  import opened Bytes
  import opened Difficulty
  import opened MinerState
  import opened Gate
  import opened SpirvStream
  import opened FusedStream

  const MAX_HASH_ERRS: nat := 50
  const TWO_TO_32: nat := 0x1_0000_0000

  // ----- Filling a batch -----

  /** The nonce bytes of a blob. */
  function NonceOf(blob: seq<byte>): nat
    requires |blob| == MINIBLOCK_SIZE
  {
    BigEndian(blob[43..47])
  }

  ghost predicate Stamped(blob: seq<byte>, tmpl: seq<byte>, nonce: nat) {
    && |blob| == MINIBLOCK_SIZE == |tmpl| && nonce < TWO_TO_32
    && blob[..MINIBLOCK_SIZE - 12] == tmpl[..MINIBLOCK_SIZE - 12]
    && blob[43..47] == FillBytes(nonce, 4)
  }

  method RndFill(n: nat) returns (r: seq<byte>)
    ensures |r| == n
  {
    r := [];
    while |r| < n
      invariant |r| <= n
    {
      var b: byte := *;
      r := r + [b];
    }
  }

  /** fillBatch: copies of the template with fresh random bytes and successive nonces. */
  method FillBatch(blobs: array<seq<byte>>, tmpl: seq<byte>, nonce0: nat) returns (nonce: nat)
    requires |tmpl| == MINIBLOCK_SIZE && nonce0 < TWO_TO_32
    modifies blobs
    ensures forall i :: 0 <= i < blobs.Length ==> Stamped(blobs[i], tmpl, (nonce0 + i + 1) % TWO_TO_32)
    ensures forall i :: 0 <= i < blobs.Length ==> |blobs[i]| == 48 && blobs[i][..36] == tmpl[..36]
    ensures forall i :: 0 <= i < blobs.Length ==> BigEndian(blobs[i][43..47]) == (nonce0 + i + 1) % 0x1_0000_0000
    ensures nonce == (nonce0 + blobs.Length) % TWO_TO_32
  {
    hide FillBytes;
    nonce := nonce0;
    var i := 0;
    while i < blobs.Length
      invariant 0 <= i <= blobs.Length && nonce == (nonce0 + i) % TWO_TO_32
      invariant forall k :: 0 <= k < i ==> Stamped(blobs[k], tmpl, (nonce0 + k + 1) % TWO_TO_32)
    {
      var rnd := RndFill(12);
      nonce := (nonce + 1) % TWO_TO_32;
      blobs[i] := tmpl[..NONCE_FROM] + rnd[..7] + FillBytes(nonce, 4) + rnd[11..];
      assert Stamped(blobs[i], tmpl, nonce);
      assert nonce == (nonce0 + i + 1) % TWO_TO_32;
      i := i + 1;
    }
    forall k | 0 <= k < blobs.Length ensures BigEndian(blobs[k][43..47]) == (nonce0 + k + 1) % TWO_TO_32 {
      StampedNonce(blobs[k], tmpl, (nonce0 + k + 1) % TWO_TO_32);
    }
  }

  lemma StampedNonce(blob: seq<byte>, tmpl: seq<byte>, nonce: nat)
    requires Stamped(blob, tmpl, nonce)
    ensures NonceOf(blob) == nonce
  {
    hide FillBytes, BigEndian;
    assert Pow256(4) == TWO_TO_32 by { assert Pow256(2) == 65536; assert Pow256(3) == 16777216; }
    FillBytesValue(nonce, 4);
  }

  /** Within a batch, and over any run of fewer than 2^32 blobs, no blob repeats. */
  lemma BlobsDistinct(a: seq<byte>, b: seq<byte>, tmplA: seq<byte>, tmplB: seq<byte>, nonce0: nat, i: nat, j: nat)
    requires i < j && j - i < TWO_TO_32
    requires Stamped(a, tmplA, (nonce0 + i + 1) % TWO_TO_32) && Stamped(b, tmplB, (nonce0 + j + 1) % TWO_TO_32)
    ensures a != b
  {
    StampedNonce(a, tmplA, (nonce0 + i + 1) % TWO_TO_32);
    StampedNonce(b, tmplB, (nonce0 + j + 1) % TWO_TO_32);
  }

  // ----- No nonce twice -----

  /** Batch k carries the nonces behind starts[k], and every later batch those behind it. */
  ghost predicate Numbered(accepted: seq<Accepted>, starts: seq<nat>, used: nat) {
    && |starts| == |accepted|
    && (forall k :: 0 <= k < |accepted| ==> NumberedFrom(accepted[k].inputs, starts[k]) && starts[k] + |accepted[k].inputs| <= used)
    && (forall k, l :: 0 <= k < l < |accepted| ==> starts[k] + |accepted[k].inputs| <= starts[l])
  }

  ghost predicate NumberedFrom(blobs: seq<seq<byte>>, start: nat) {
    forall i :: 0 <= i < |blobs| ==> |blobs[i]| == MINIBLOCK_SIZE && NonceOf(blobs[i]) == (start + i + 1) % TWO_TO_32
  }

  lemma NumberedMore(accepted: seq<Accepted>, starts: seq<nat>, used: nat, next: Accepted, used': nat)
    requires Numbered(accepted, starts, used) && NumberedFrom(next.inputs, used) && used + |next.inputs| <= used'
    ensures Numbered(accepted + [next], starts + [used], used')
  {
    hide NumberedFrom;
  }

  lemma NumberedUp(accepted: seq<Accepted>, starts: seq<nat>, used: nat, used': nat)
    requires Numbered(accepted, starts, used) && used <= used'
    ensures Numbered(accepted, starts, used')
  {
    hide NumberedFrom;
  }

  /** All blobs of all batches are different. */
  ghost predicate AllDistinct(accepted: seq<Accepted>) {
    forall k, l, i, j :: 0 <= k < |accepted| && 0 <= l < |accepted| && 0 <= i < |accepted[k].inputs| && 0 <= j < |accepted[l].inputs| ==>
      accepted[k].inputs[i] == accepted[l].inputs[j] ==> k == l && i == j
  }

  lemma NumberedDistinct(accepted: seq<Accepted>, starts: seq<nat>, used: nat)
    requires Numbered(accepted, starts, used) && used <= TWO_TO_32
    ensures AllDistinct(accepted)
  {
    hide NonceOf;
    forall k, l, i, j | 0 <= k < |accepted| && 0 <= l < |accepted| && 0 <= i < |accepted[k].inputs| && 0 <= j < |accepted[l].inputs|
                        && accepted[k].inputs[i] == accepted[l].inputs[j]
      ensures k == l && i == j
    {
      var a, b := starts[k] + i + 1, starts[l] + j + 1;
      assert NumberedFrom(accepted[k].inputs, starts[k]) && NumberedFrom(accepted[l].inputs, starts[l]);
      assert a % TWO_TO_32 == b % TWO_TO_32;
      NoWrap(a, b);
    }
  }

  lemma NoWrap(a: nat, b: nat)
    requires 0 < a <= TWO_TO_32 && 0 < b <= TWO_TO_32 && a % TWO_TO_32 == b % TWO_TO_32
    ensures a == b
  {
  }

  lemma NextMultiple(n: nat, m: nat)
    ensures n * m + m == (n + 1) * m
  {
  }

  // ----- The loop -----

  datatype Outcome = Idle | Failed | Advanced

  /** One call of processBatch: the batch as it was then, and the digests it was given. */
  datatype Paired = Paired(inputs: seq<seq<byte>>, jobId: string, target: Word256, epoch: nat, pows: seq<Word256>)

  /** The digests are those of this batch, and the batch was built from the work its job id, target and
      epoch belong to. */
  ghost predicate PairedWell(p: Paired, a: Accepted, history: seq<Work>) {
    p.inputs == a.inputs && p.pows == a.digests && FromWork(p.inputs, p.jobId, p.target, p.epoch, history)
  }

  ghost predicate AllPaired(ps: seq<Paired>, accepted: seq<Accepted>, history: seq<Work>) {
    && |ps| <= |accepted|
    && forall k {:trigger PairedWell(ps[k], accepted[k], history)} :: 0 <= k < |ps| ==> PairedWell(ps[k], accepted[k], history)
  }

  // ----- What judging leaves in the books -----

  /** The counters of the environment that judging moves. */
  datatype Books = Books(total: nat, decided: nat, epoch: nat, log: seq<Queued>)

  ghost function BooksOf(env: MineEnv): Books
    reads env, env.st
  {
    Books(env.st.totalHashes, env.Decided(), env.st.epoch, env.log)
  }

  function Judged(ps: seq<Paired>): nat {
    if ps == [] then 0 else Judged(ps[..|ps| - 1]) + |ps[|ps| - 1].inputs|
  }

  function Offered(ps: seq<Paired>): nat {
    if ps == [] then 0
    else
      var p := ps[|ps| - 1];
      Offered(ps[..|ps| - 1]) + Candidates(p.pows, |p.pows|, p.target)
  }

  /** Every judged batch has been counted, its candidates have been decided at most once, exactly once while
      the job stays, and every share queued meanwhile is one of theirs. */
  ghost predicate Accounted(from: Books, to: Books, ps: seq<Paired>) {
    && to.total == from.total + Judged(ps) && from.epoch <= to.epoch
    && from.decided <= to.decided <= from.decided + Offered(ps)
    && (to.epoch == from.epoch ==> to.decided == from.decided + Offered(ps))
    && from.log <= to.log && forall k :: |from.log| <= k < |to.log| ==> OneOf(to.log[k], ps)
  }

  /** The share is of a blob of one of the batches, for its job. */
  ghost predicate OneOf(q: Queued, ps: seq<Paired>) {
    exists k :: 0 <= k < |ps| && q.epoch == ps[k].epoch && q.blob in ps[k].inputs
  }

  lemma AccountedLater(from: Books, to: Books, ps: seq<Paired>, epoch: nat)
    requires Accounted(from, to, ps) && to.epoch <= epoch
    ensures Accounted(from, to.(epoch := epoch), ps)
  {
    hide OneOf, Judged, Offered;
  }

  lemma AccountedMore(from: Books, mid: Books, to: Books, ps: seq<Paired>, p: Paired)
    requires Accounted(from, mid, ps) && to.total == mid.total + |p.inputs|
    requires mid.decided <= to.decided <= mid.decided + Candidates(p.pows, |p.pows|, p.target)
    requires to.epoch == p.epoch ==> to.decided == mid.decided + Candidates(p.pows, |p.pows|, p.target)
    requires mid.epoch <= to.epoch && from.epoch <= p.epoch <= to.epoch
    requires mid.log <= to.log && forall k :: |mid.log| <= k < |to.log| ==> to.log[k].epoch == p.epoch && to.log[k].blob in p.inputs
    ensures Accounted(from, to, ps + [p])
  {
    hide Candidates;
    var ps' := ps + [p];
    assert ps'[..|ps'| - 1] == ps;
    forall k | |from.log| <= k < |to.log| ensures OneOf(to.log[k], ps') {
      if k < |mid.log| {
        assert OneOf(mid.log[k], ps);
        var n :| 0 <= n < |ps| && mid.log[k].epoch == ps[n].epoch && mid.log[k].blob in ps[n].inputs;
        assert ps'[n] == ps[n];
      } else {
        assert ps'[|ps|] == p;
      }
    }
  }

  /** One batch with these contents has been accepted. */
  ghost predicate TookOne(before: seq<Accepted>, after: seq<Accepted>, inputs: seq<seq<byte>>) {
    |after| == |before| + 1 && before <= after && after[|before|].inputs == inputs
  }

  lemma AllPairedGrows(ps: seq<Paired>, accepted: seq<Accepted>, accepted': seq<Accepted>, history: seq<Work>, history': seq<Work>)
    requires AllPaired(ps, accepted, history) && accepted <= accepted' && history <= history'
    ensures AllPaired(ps, accepted', history')
  {
    hide FromWork;
    forall k | 0 <= k < |ps| ensures PairedWell(ps[k], accepted'[k], history') {
      assert PairedWell(ps[k], accepted[k], history);
      FromWorkGrows(ps[k].inputs, ps[k].jobId, ps[k].target, ps[k].epoch, history, history');
    }
  }

  lemma AllPairedSnoc(ps: seq<Paired>, p: Paired, accepted: seq<Accepted>, history: seq<Work>)
    requires AllPaired(ps, accepted, history) && |ps| < |accepted| && PairedWell(p, accepted[|ps|], history)
    ensures AllPaired(ps + [p], accepted, history)
  {
    hide FromWork;
    var ps' := ps + [p];
    forall k | 0 <= k < |ps'| ensures PairedWell(ps'[k], accepted[k], history) {
      if k < |ps| {
        assert PairedWell(ps[k], accepted[k], history);
      }
    }
  }

  lemma StampedFromWork(blobs: seq<seq<byte>>, tmpl: seq<byte>, nonce0: nat, work: Work, epoch: nat, history: seq<Work>)
    requires forall i :: 0 <= i < |blobs| ==> Stamped(blobs[i], tmpl, (nonce0 + i + 1) % TWO_TO_32)
    requires 0 < epoch <= |history| && history[epoch - 1] == work && tmpl == work.blob
    ensures FromWork(blobs, work.jobId, work.target, epoch, history)
  {
    hide FillBytes;
  }

  /** The batch whose results are still owed is exactly the streamer's batch in flight, and its buffer is
      the one the loop is not about to fill. */
  ghost predicate Pending(history: seq<Work>, streamer: FusedStreamer, prev: BatchCtx, havePrev: bool, other: array<seq<byte>>)
    requires streamer.Valid()
    reads streamer.Repr(), prev.blobs
  {
    && (havePrev <==> streamer.InFlight())
    && (havePrev ==>
          && prev.blobs == other
          && prev.blobs[..] == streamer.accepted[streamer.returned].inputs
          && prev.blobs.Length == |streamer.accepted[streamer.returned].digests|
          && FromWork(prev.blobs[..], prev.jobId, prev.target, prev.epoch, history)
          && (streamer.fast != null ==> streamer.Behind() == prev.blobs))
  }

  /** A batch in flight leaves its buffer as it was submitted, as the native path needs. */
  lemma PendingKept(history: seq<Work>, streamer: FusedStreamer, prev: BatchCtx, havePrev: bool, other: array<seq<byte>>)
    requires streamer.Valid() && Pending(history, streamer, prev, havePrev, other)
    ensures streamer.BuffersKept()
  {
    hide FromWork, SpirvFastStreamer.Ready, Slot.Carrying;
  }

  lemma PendingGrows(history: seq<Work>, history': seq<Work>, streamer: FusedStreamer, prev: BatchCtx, havePrev: bool, other: array<seq<byte>>)
    requires streamer.Valid() && Pending(history, streamer, prev, havePrev, other) && history <= history'
    ensures Pending(history', streamer, prev, havePrev, other)
  {
    hide FromWork, FusedStreamer.Valid;
    if havePrev {
      FromWorkGrows(prev.blobs[..], prev.jobId, prev.target, prev.epoch, history, history');
    }
  }

  /** The epoch counts the history, and a batch is of one of its epochs. */
  lemma EpochsGrow(env: MineEnv, before: nat, history: seq<Work>, b: BatchCtx)
    requires env.Valid() && before == |history| && history <= env.st.history
    requires FromWork(b.blobs[..], b.jobId, b.target, b.epoch, history)
    ensures before <= env.st.epoch && b.epoch <= env.st.epoch
  {
    hide BuiltFrom;
  }

  /** The epoch counts the history. */
  lemma EpochIsHistory(env: MineEnv)
    requires env.Valid()
    ensures env.st.epoch == |env.st.history|
  {
  }

  /** Judge a batch whose digests came back. */
  method Judge(env: MineEnv, pows: seq<Word256>, prev: BatchCtx, ghost paired: seq<Paired>, ghost accepted: seq<Accepted>,
               ghost books: Books)
    returns (ghost paired': seq<Paired>)
    requires env.Valid() && |pows| == prev.blobs.Length && Accounted(books, BooksOf(env), paired) && books.epoch <= prev.epoch
    requires FromWork(prev.blobs[..], prev.jobId, prev.target, prev.epoch, env.st.history)
    requires AllPaired(paired, accepted, env.st.history) && |paired| < |accepted|
    requires accepted[|paired|] == Accepted.Accepted(prev.blobs[..], pows)
    modifies env, env.st
    ensures env.Valid() && old(env.st.history) <= env.st.history
    ensures AllPaired(paired', accepted, env.st.history) && |paired'| == |paired| + 1
    ensures Accounted(books, BooksOf(env), paired')
  {
    hide Meets, FromWork, AllPaired, Candidates, MineEnv.Valid, State.Valid, Accounted, MineEnv.Decided;
    ghost var p := Paired(prev.blobs[..], prev.jobId, prev.target, prev.epoch, pows);
    paired' := paired + [p];
    AllPairedSnoc(paired, paired'[|paired|], accepted, env.st.history);
    ghost var mid := BooksOf(env);
    EpochIsHistory(env);
    env.ProcessBatch(pows, prev);
    EpochsGrow(env, mid.epoch, old(env.st.history), prev);
    AccountedMore(books, mid, BooksOf(env), paired, p);
    AllPairedGrows(paired', accepted, accepted, old(env.st.history), env.st.history);
  }

  /** The other goroutines move on, and the loop takes the current job. */
  method TakeJob(env: MineEnv) returns (tmpl: seq<byte>, jobId: string, target: Word256, epoch: nat)
    requires env.Valid()
    modifies env`mailbox, env`taken, env`linkUp, env.st`blob, env.st`jobId, env.st`target, env.st`epoch, env.st`height,
             env.st`diff, env.st`blocks, env.st`miniBlocks, env.st`rejected, env.st`history
    ensures env.Valid() && old(env.st.history) <= env.st.history
    ensures old(BooksOf(env)).epoch <= env.st.epoch == epoch && BooksOf(env) == old(BooksOf(env)).(epoch := epoch)
    ensures epoch > 0 ==> epoch <= |env.st.history| && env.st.history[epoch - 1] == Work(tmpl, jobId, target)
    ensures |tmpl| == MINIBLOCK_SIZE
    ensures epoch == 0 <==> env.st.history == []
  {
    hide Meets, Earned, Shares;
    EpochIsHistory(env);
    ghost var pushes := env.AnyOthers();
    EpochIsHistory(env);
    tmpl, jobId, target, epoch := env.st.CurrentJob();
  }

  /** One round: build a batch in the free buffer, submit it, and judge the one before. */
  method Round(env: MineEnv, streamer: FusedStreamer, blobs: array<seq<byte>>, other: array<seq<byte>>,
               prev0: BatchCtx, havePrev0: bool, nonce0: nat, ghost paired0: seq<Paired>, ghost books: Books)
    returns (outcome: Outcome, prev: BatchCtx, havePrev: bool, nonce: nat, ghost paired: seq<Paired>)
    requires env.Valid() && streamer.Valid() && blobs != other && blobs.Length > 0 && nonce0 < TWO_TO_32
    requires Pending(env.st.history, streamer, prev0, havePrev0, other)
    requires AllPaired(paired0, streamer.accepted, env.st.history) && |paired0| == streamer.returned
    requires env !in streamer.Repr() && env.st !in streamer.Repr()
    requires Accounted(books, BooksOf(env), paired0) && (havePrev0 ==> books.epoch <= prev0.epoch)
    modifies env, env.st, streamer.Repr(), blobs
    ensures Accounted(books, BooksOf(env), paired) && (havePrev ==> books.epoch <= prev.epoch)
    ensures nonce == if outcome == Idle then nonce0 else (nonce0 + blobs.Length) % TWO_TO_32
    ensures outcome == Advanced ==>
              forall i :: 0 <= i < blobs.Length ==> |blobs[i]| == MINIBLOCK_SIZE && NonceOf(blobs[i]) == (nonce0 + i + 1) % TWO_TO_32
    ensures env.Valid() && streamer.Valid() && old(env.st.history) <= env.st.history && nonce < TWO_TO_32
    ensures Pending(env.st.history, streamer, prev, havePrev, if outcome == Advanced then blobs else other)
    ensures AllPaired(paired, streamer.accepted, env.st.history) && |paired| == streamer.returned
    ensures outcome == Idle ==> env.st.history == []
    ensures outcome != Advanced ==> streamer.accepted == old(streamer.accepted)
    ensures outcome == Advanced ==> TookOne(old(streamer.accepted), streamer.accepted, blobs[..])
    ensures outcome == Failed ==> blobs.Length > streamer.Capacity() || streamer.Faults() > old(streamer.Faults()) || !old(streamer.Healthy())
    ensures outcome != Failed && old(streamer.Healthy()) ==> streamer.Healthy()
    ensures streamer.Faults() >= old(streamer.Faults())
  {
    hide Meets, FromWork, AllPaired, Stamped, MineEnv.Valid, State.Valid, FusedStreamer.Valid, Accounted, BooksOf;
    outcome, prev, havePrev, nonce, paired := Idle, prev0, havePrev0, nonce0, paired0;
    var tmpl, jobId, target, epoch := TakeJob(env);
    AccountedLater(books, old(BooksOf(env)), paired, epoch);
    StartsBefore(books, BooksOf(env), paired);
    AllPairedGrows(paired, streamer.accepted, streamer.accepted, old(env.st.history), env.st.history);
    PendingGrows(old(env.st.history), env.st.history, streamer, prev, havePrev, other);
    if epoch == 0 {
      return;
    }
    nonce := FillBatch(blobs, tmpl, nonce0);
    StampedFromWork(blobs[..], tmpl, nonce0, Work(tmpl, jobId, target), epoch, env.st.history);
    var ok;
    ok, paired := Exchange(env, streamer, BatchCtx(blobs, jobId, target, epoch), prev, havePrev, other, paired, books);
    outcome := if ok then Advanced else Failed;
    if ok {
      prev, havePrev := BatchCtx(blobs, jobId, target, epoch), true;
    }
  }

  lemma StartsBefore(from: Books, to: Books, ps: seq<Paired>)
    requires Accounted(from, to, ps)
    ensures from.epoch <= to.epoch
  {
    hide OneOf;
  }

  /** Submit a batch and judge the one whose digests come back. */
  method Exchange(env: MineEnv, streamer: FusedStreamer, next: BatchCtx, prev: BatchCtx, havePrev: bool,
                  other: array<seq<byte>>, ghost paired0: seq<Paired>, ghost books: Books)
    returns (ok: bool, ghost paired: seq<Paired>)
    requires env.Valid() && streamer.Valid() && next.blobs.Length > 0
    requires FromWork(next.blobs[..], next.jobId, next.target, next.epoch, env.st.history)
    requires Pending(env.st.history, streamer, prev, havePrev, other)
    requires AllPaired(paired0, streamer.accepted, env.st.history) && |paired0| == streamer.returned
    requires env !in streamer.Repr() && env.st !in streamer.Repr()
    requires Accounted(books, BooksOf(env), paired0) && (havePrev ==> books.epoch <= prev.epoch)
    modifies env, env.st, streamer.Repr()
    ensures Accounted(books, BooksOf(env), paired)
    ensures env.Valid() && streamer.Valid() && old(env.st.history) <= env.st.history
    ensures ok ==> Pending(env.st.history, streamer, next, true, next.blobs)
    ensures !ok ==> Pending(env.st.history, streamer, prev, havePrev, other)
    ensures AllPaired(paired, streamer.accepted, env.st.history) && |paired| == streamer.returned
    ensures !ok ==> streamer.accepted == old(streamer.accepted)
    ensures ok ==> TookOne(old(streamer.accepted), streamer.accepted, next.blobs[..])
    ensures !ok ==> next.blobs.Length > streamer.Capacity() || streamer.Faults() > old(streamer.Faults()) || !old(streamer.Healthy())
    ensures ok ==> streamer.Healthy()
    ensures streamer.Faults() >= old(streamer.Faults())
  {
    hide Meets, FromWork, AllPaired, MineEnv.Valid, State.Valid, FusedStreamer.Valid, Accounted, BooksOf;
    paired := paired0;
    PendingKept(env.st.history, streamer, prev, havePrev, other);
    ghost var accepted0 := streamer.accepted;
    var some, pows;
    ok, some, pows := streamer.Submit(next.blobs);
    if !ok {
      return;
    }
    AllPairedGrows(paired, accepted0, streamer.accepted, env.st.history, env.st.history);
    ghost var history0 := env.st.history;
    if some && havePrev {
      paired := Judge(env, pows, prev, paired, streamer.accepted, books);
    }
    FromWorkGrows(next.blobs[..], next.jobId, next.target, next.epoch, history0, env.st.history);
  }

  /** mineLoopStream, stopped after any number of rounds.  Every batch whose digests came back was judged
      once, in order, with its own digests and its own job; and no buffer in flight was filled.  Unless a
      device call failed, the loop does not abort, every accepted batch has been judged, and with a job
      from the beginning every round has accepted one. */
  method MineLoopStream(env: MineEnv, streamer: FusedStreamer, batchSize: nat, rounds: nat)
    returns (aborted: bool, ghost paired: seq<Paired>)
    requires env.Valid() && streamer.Valid() && streamer.accepted == [] && batchSize > 0
    requires env !in streamer.Repr() && env.st !in streamer.Repr()
    modifies env, env.st, streamer.Repr()
    ensures env.Valid() && streamer.Valid() && old(env.st.history) <= env.st.history
    ensures AllPaired(paired, streamer.accepted, env.st.history) && |paired| == streamer.returned
    ensures streamer.Faults() == old(streamer.Faults()) && old(streamer.Healthy()) && batchSize <= streamer.Capacity() ==>
              && !aborted && streamer.returned == |streamer.accepted|
              && (old(env.st.history) != [] ==> |streamer.accepted| == rounds)
    ensures Accounted(old(BooksOf(env)), BooksOf(env), paired)
    ensures rounds * batchSize <= TWO_TO_32 ==> AllDistinct(streamer.accepted)
  {
    hide Meets, FromWork, AllPaired, Stamped, MineEnv.Valid, State.Valid, FusedStreamer.Valid, Pending, Accounted, BooksOf;
    paired := [];
    var blobs, other := new seq<byte>[batchSize], new seq<byte>[batchSize];
    var prev, havePrev := BatchCtx(other, "", seq(32, _ => 0), 0), false;
    NothingOwed(env.st.history, streamer, prev, other);
    NothingPaired(streamer.accepted, env.st.history);
    ghost var books := BooksOf(env);
    NothingAccounted(books);
    aborted, prev, havePrev, other, paired := MineRounds(env, streamer, blobs, other, rounds, prev, books);
    if aborted {
      return;
    }
    PendingMeans(env.st.history, streamer, prev, havePrev, other);
    if havePrev {
      paired := Finish(env, streamer, prev, other, paired, books);
    }
  }

  /** The loop itself, up to the last round or the last tolerated failure. */
  method MineRounds(env: MineEnv, streamer: FusedStreamer, blobs0: array<seq<byte>>, other0: array<seq<byte>>, rounds: nat,
                    prev0: BatchCtx, ghost books: Books)
    returns (aborted: bool, prev: BatchCtx, havePrev: bool, other: array<seq<byte>>, ghost paired: seq<Paired>)
    requires env.Valid() && streamer.Valid() && streamer.accepted == []
    requires blobs0 != other0 && blobs0.Length == other0.Length > 0
    requires env !in streamer.Repr() && env.st !in streamer.Repr() && blobs0 !in streamer.Repr() && other0 !in streamer.Repr()
    requires Pending(env.st.history, streamer, prev0, false, other0) && streamer.returned == 0
    requires AllPaired([], streamer.accepted, env.st.history) && Accounted(books, BooksOf(env), [])
    modifies env, env.st, streamer.Repr(), blobs0, other0
    ensures env.Valid() && streamer.Valid() && old(env.st.history) <= env.st.history && (other == blobs0 || other == other0)
    ensures Pending(env.st.history, streamer, prev, havePrev, other)
    ensures AllPaired(paired, streamer.accepted, env.st.history) && |paired| == streamer.returned
    ensures Accounted(books, BooksOf(env), paired) && (havePrev ==> books.epoch <= prev.epoch)
    ensures streamer.Faults() >= old(streamer.Faults())
    ensures streamer.Faults() == old(streamer.Faults()) && old(streamer.Healthy()) && blobs0.Length <= streamer.Capacity() ==>
              !aborted && streamer.Healthy() && (old(env.st.history) != [] ==> |streamer.accepted| == rounds)
    ensures rounds * blobs0.Length <= TWO_TO_32 ==> AllDistinct(streamer.accepted)
  {
    hide Meets, FromWork, AllPaired, Stamped, MineEnv.Valid, State.Valid, FusedStreamer.Valid, Pending, Accounted, BooksOf,
         Numbered, NumberedFrom, AllDistinct, NonceOf;
    var blobs, nonce, errs, left := blobs0, 0, 0, rounds;
    aborted, prev, havePrev, other, paired := false, prev0, false, other0, [];
    ghost var starts: seq<nat>, used: nat := [], 0;
    NothingNumbered(streamer.accepted);
    while left > 0 && !aborted
      invariant env.Valid() && streamer.Valid() && old(env.st.history) <= env.st.history && 0 <= left <= rounds
      invariant (blobs == blobs0 && other == other0) || (blobs == other0 && other == blobs0)
      invariant Pending(env.st.history, streamer, prev, havePrev, other)
      invariant AllPaired(paired, streamer.accepted, env.st.history) && |paired| == streamer.returned
      invariant Accounted(books, BooksOf(env), paired) && (havePrev ==> books.epoch <= prev.epoch)
      invariant streamer.Faults() >= old(streamer.Faults())
      invariant streamer.Faults() == old(streamer.Faults()) && old(streamer.Healthy()) && blobs0.Length <= streamer.Capacity() ==>
                  !aborted && errs == 0 && streamer.Healthy() && (old(env.st.history) != [] ==> |streamer.accepted| == rounds - left)
      invariant Numbered(streamer.accepted, starts, used) && nonce == used % TWO_TO_32 && used <= (rounds - left) * blobs0.Length
    {
      NextMultiple(rounds - left, blobs0.Length);
      left := left - 1;
      var outcome;
      ghost var accepted0 := streamer.accepted;
      outcome, prev, havePrev, nonce, paired := Round(env, streamer, blobs, other, prev, havePrev, nonce, paired, books);
      Renumbered(accepted0, streamer.accepted, starts, used, blobs[..], outcome);
      ModuloAgain(used, blobs.Length);
      starts := if outcome == Advanced then starts + [used] else starts;
      used := used + if outcome == Idle then 0 else blobs.Length;
      match outcome {
        case Idle =>
        case Failed =>
          errs := errs + 1;
          aborted := errs >= MAX_HASH_ERRS;
        case Advanced =>
          errs := 0;
          blobs, other := other, blobs;
      }
    }
    Multiples(left, rounds, blobs0.Length);
    if rounds * blobs0.Length <= TWO_TO_32 {
      NumberedDistinct(streamer.accepted, starts, used);
    }
  }

  /** Drain the streamer and judge the last batch, if its digests still come. */
  method Finish(env: MineEnv, streamer: FusedStreamer, prev: BatchCtx, ghost other: array<seq<byte>>, ghost paired0: seq<Paired>, ghost books: Books)
    returns (ghost paired: seq<Paired>)
    requires env.Valid() && streamer.Valid() && Pending(env.st.history, streamer, prev, true, other)
    requires AllPaired(paired0, streamer.accepted, env.st.history) && |paired0| == streamer.returned
    requires env !in streamer.Repr() && env.st !in streamer.Repr()
    requires Accounted(books, BooksOf(env), paired0) && books.epoch <= prev.epoch
    modifies env, env.st, streamer.Repr()
    ensures Accounted(books, BooksOf(env), paired)
    ensures env.Valid() && streamer.Valid() && old(env.st.history) <= env.st.history
    ensures AllPaired(paired, streamer.accepted, env.st.history) && |paired| == streamer.returned
    ensures streamer.accepted == old(streamer.accepted) && streamer.Faults() >= old(streamer.Faults())
    ensures streamer.Faults() == old(streamer.Faults()) && old(streamer.Healthy()) ==> streamer.returned == |streamer.accepted|
  {
    hide Meets, FromWork, AllPaired, MineEnv.Valid, State.Valid, FusedStreamer.Valid, Accounted, BooksOf;
    paired := paired0;
    PendingKept(env.st.history, streamer, prev, true, other);
    var ok, some, pows := streamer.Drain();
    if ok && some {
      paired := Judge(env, pows, prev, paired, streamer.accepted, books);
    }
  }

  /** With nothing in flight, everything accepted has been returned. */
  lemma PendingMeans(history: seq<Work>, streamer: FusedStreamer, prev: BatchCtx, havePrev: bool, other: array<seq<byte>>)
    requires streamer.Valid() && Pending(history, streamer, prev, havePrev, other)
    ensures !havePrev ==> streamer.returned == |streamer.accepted|
  {
    hide FromWork, SpirvFastStreamer.Valid;
  }

  lemma NothingOwed(history: seq<Work>, streamer: FusedStreamer, prev: BatchCtx, other: array<seq<byte>>)
    requires streamer.Valid() && streamer.accepted == []
    ensures Pending(history, streamer, prev, false, other) && streamer.returned == 0
  {
    hide SpirvFastStreamer.Valid;
  }

  lemma NothingPaired(accepted: seq<Accepted>, history: seq<Work>)
    ensures AllPaired([], accepted, history)
  {
  }

  lemma NothingAccounted(books: Books)
    ensures Accounted(books, books, [])
  {
  }

  lemma NothingNumbered(accepted: seq<Accepted>)
    requires accepted == []
    ensures Numbered(accepted, [], 0)
  {
  }

  lemma Multiples(left: nat, rounds: nat, m: nat)
    requires left <= rounds
    ensures (rounds - left) * m <= rounds * m
  {
  }

  /** The starts after one more round. */
  lemma Renumbered(before: seq<Accepted>, after: seq<Accepted>, starts: seq<nat>, used: nat, blobs: seq<seq<byte>>, outcome: Outcome)
    requires Numbered(before, starts, used)
    requires if outcome == Advanced then TookOne(before, after, blobs) else after == before
    requires outcome == Advanced ==>
               forall i :: 0 <= i < |blobs| ==> |blobs[i]| == MINIBLOCK_SIZE && NonceOf(blobs[i]) == (used % TWO_TO_32 + i + 1) % TWO_TO_32
    ensures Numbered(after, if outcome == Advanced then starts + [used] else starts, used + if outcome == Idle then 0 else |blobs|)
  {
    hide Numbered, NonceOf;
    if outcome == Advanced {
      forall i | 0 <= i < |blobs| ensures NonceOf(blobs[i]) == (used + i + 1) % TWO_TO_32 {
        ModuloAgain(used, i + 1);
      }
      NumberedMore(before, starts, used, after[|before|], used + |blobs|);
      assert after == before + [after[|before|]];
    } else {
      NumberedUp(before, starts, used, used + if outcome == Idle then 0 else |blobs|);
    }
  }

  lemma ModuloAgain(a: nat, b: nat)
    ensures (a % TWO_TO_32 + b) % TWO_TO_32 == (a + b) % TWO_TO_32
  {
  }
}
