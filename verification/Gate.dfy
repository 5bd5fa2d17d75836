/** The CPU gate between the GPU's digests and the submit mailbox (cmd/go-gpu-miner/main.go): whatever the
    GPU returns and however job pushes, the mailbox reader and the daemon link interleave with it, only
    shares that the CPU reproduces and that were fresh at the gate are queued. */
module Gate {
  import opened Suffixes
  import opened Difficulty
  import opened MinerState

  // ----- Shares -----

  datatype Share = Share(jobId: string, blob: string)

  function HexChar(d: int): char
    requires 0 <= d < 16
  {
    if d < 10 then '0' + d as char else 'a' + (d - 10) as char
  }

  function HexEncode(b: seq<byte>): (s: string)
    ensures |s| == 2 * |b|
  {
    seq(2 * |b|, i requires 0 <= i < 2 * |b| => if i % 2 == 0 then HexChar(b[i / 2] / 16) else HexChar(b[i / 2] % 16))
  }

  lemma HexCharDigit(d: int)
    requires 0 <= d < 16
    ensures HexDigit(HexChar(d)) == d
  {
  }

  /** The daemon decodes the blob that was hashed. */
  lemma HexRoundTrip(b: seq<byte>)
    ensures IsHex(HexEncode(b)) && HexDecode(HexEncode(b)) == b
  {
    hide HexChar, HexDigit;
    var s := HexEncode(b);
    forall i | 0 <= i < |s| ensures HexDigit(s[i]) >= 0 {
      HexCharDigit(b[i / 2] / 16);
      HexCharDigit(b[i / 2] % 16);
    }
    forall k | 0 <= k < |b| ensures HexDecode(s)[k] == b[k] {
      HexCharDigit(b[k] / 16);
      HexCharDigit(b[k] % 16);
      assert s[2 * k] == HexChar(b[k] / 16) && s[2 * k + 1] == HexChar(b[k] % 16);
    }
  }

  lemma EncodeLower(b: seq<byte>, k: nat)
    requires k < |b|
    ensures HexEncode(b)[2 * k] == LOWER[b[k] / 16] && HexEncode(b)[2 * k + 1] == LOWER[b[k] % 16]
  {
    hide HexChar;
    LowerChar(b[k] / 16);
    LowerChar(b[k] % 16);
  }

  /** The share spells the blob in lower-case digits. */
  lemma EncodeSpells(b: seq<byte>)
    ensures Spells(HexEncode(b), b)
    ensures forall k :: 0 <= k < |b| ==> HexEncode(b)[2 * k] == LOWER[b[k] / 16] && HexEncode(b)[2 * k + 1] == LOWER[b[k] % 16]
  {
    hide HexEncode, Spells, IsHex, HexDecode;
    HexRoundTrip(b);
    SpellsDecodes(HexEncode(b), b);
    forall k | 0 <= k < |b| ensures HexEncode(b)[2 * k] == LOWER[b[k] / 16] && HexEncode(b)[2 * k + 1] == LOWER[b[k] % 16] {
      EncodeLower(b, k);
    }
  }

  lemma LowerChar(d: int)
    requires 0 <= d < 16
    ensures HexChar(d) == LOWER[d]
  {
    assert d == 0 || d == 1 || d == 2 || d == 3 || d == 4 || d == 5 || d == 6 || d == 7
           || d == 8 || d == 9 || d == 10 || d == 11 || d == 12 || d == 13 || d == 14 || d == 15;
  }

  // ----- The decision -----

  datatype GateOutcome = GateSubmit | GateStale | GateMiscompute

  /** classify: freshness before the re-hash, which is not evaluated for a stale batch. */
  function Classify(epochNow: nat, epochBuilt: nat, rehashOk: () -> bool): (o: GateOutcome)
    ensures o == GateSubmit <==> epochNow == epochBuilt && rehashOk()
    ensures o == GateStale <==> epochNow != epochBuilt
  {
    if epochNow != epochBuilt then GateStale
    else if !rehashOk() then GateMiscompute
    else GateSubmit
  }

  /** A batch with the job it was built for. */
  datatype BatchCtx = BatchCtx(blobs: array<seq<byte>>, jobId: string, target: Word256, epoch: nat)

  /** A queued share with what it was checked against: the job state when the gate loaded its epoch, the
      pushes between that and the send, and the epoch at the send. */
  datatype Queued = Queued(share: Share, blob: seq<byte>, target: Word256, epoch: nat, atGate: Snapshot, pushes: seq<Job>, sentEpoch: nat)

  const NONCE_FROM: nat := 36

  /** The blob is the work's template outside its last twelve bytes. */
  predicate BuiltFrom(blob: seq<byte>, work: Work) {
    |blob| == MINIBLOCK_SIZE == |work.blob| && blob[..MINIBLOCK_SIZE - 12] == work.blob[..MINIBLOCK_SIZE - 12]
  }

  /** A batch built from the work of its epoch. */
  ghost predicate FromWork(blobs: seq<seq<byte>>, jobId: string, target: Word256, epoch: nat, history: seq<Work>) {
    && 0 < epoch <= |history|
    && jobId == history[epoch - 1].jobId && target == history[epoch - 1].target
    && forall i :: 0 <= i < |blobs| ==> BuiltFrom(blobs[i], history[epoch - 1])
  }

  /** The CPU reproduces a hash that meets the target installed with the share's job id, and the share's
      epoch was live at the gate. */
  predicate Earned(sum: seq<byte> -> Word256, history: seq<Work>, q: Queued) {
    && q.atGate.epoch == q.epoch && 0 < q.epoch <= |history|
    && q.share.jobId == history[q.epoch - 1].jobId
    && q.target == history[q.epoch - 1].target
    && Meets(sum(q.blob), q.target)
    && BuiltFrom(q.blob, history[q.epoch - 1])
    && q.share.blob == HexEncode(q.blob)
  }

  /** The record of the send is that of a run of pushes from the gate. */
  predicate Sent(q: Queued) {
    q.sentEpoch == Run(q.atGate, q.pushes).epoch
  }

  /** A share is fresh when it is queued exactly if no push between the gate and the send changed the work. */
  lemma FreshWhenSent(sum: seq<byte> -> Word256, history: seq<Work>, q: Queued)
    requires Earned(sum, history, q) && Sent(q)
    ensures q.sentEpoch == q.epoch <==> Quiet(q.atGate, q.pushes)
    ensures q.sentEpoch >= q.epoch
  {
    hide Meets, BuiltFrom, HexEncode, Run;
    EpochStays(q.atGate, q.pushes);
    EpochMonotone(q.atGate, q.pushes);
  }

  /** What another goroutine does: push a job, take a share from the mailbox, or lose or regain the link. */
  datatype Act = Push(job: Job) | Take | Flip

  function Pushes(acts: seq<Act>): seq<Job> {
    if acts == [] then []
    else Pushes(acts[..|acts| - 1]) + if acts[|acts| - 1].Push? then [acts[|acts| - 1].job] else []
  }

  function Shares(log: seq<Queued>): (s: seq<Share>)
    ensures |s| == |log| && forall i :: 0 <= i < |log| ==> s[i] == log[i].share
  {
    seq(|log|, i requires 0 <= i < |log| => log[i].share)
  }

  /** How many of the digests meet the target. */
  function Candidates(pows: seq<Word256>, n: nat, target: Word256): (c: nat)
    requires n <= |pows|
    ensures c <= n
  {
    if n == 0 then 0 else Candidates(pows, n - 1, target) + if Meets(pows[n - 1], target) then 1 else 0
  }

  class MineEnv {
    const st: State
    const capacity: nat
    const sum: seq<byte> -> Word256

    var mailbox: seq<Share>
    var linkUp: bool

    /** Every share ever queued, the shares the reader has taken, the shares given up because the miner
        was stopped, and the CPU hashes spent. */
    ghost var log: seq<Queued>
    ghost var taken: seq<Share>
    ghost var cancelled: nat
    ghost var rehashes: nat

    constructor (st: State, capacity: nat, sum: seq<byte> -> Word256)
      requires st.Valid()
      ensures Valid() && this.st == st && this.sum == sum && log == []
    {
      this.st, this.capacity, this.sum := st, capacity, sum;
      mailbox, linkUp := [], false;
      log, taken, cancelled, rehashes := [], [], 0, 0;
    }

    ghost predicate Valid()
      reads this`mailbox, this`log, this`taken, st`blob, st`jobId, st`target, st`epoch, st`history,
            st`height, st`diff, st`blocks, st`miniBlocks, st`rejected
    {
      && st.Valid() && |mailbox| <= capacity
      && (forall k :: 0 <= k < |log| ==> Earned(sum, st.history, log[k]) && Sent(log[k]))
      && Shares(log) == taken + mailbox
    }

    /** Candidates decided so far, and those that cost a CPU hash. */
    ghost function Decided(): nat
      reads this`cancelled, st`submitted, st`stale, st`miscompute, st`gateStale
    {
      st.submitted + st.stale + st.miscompute + st.gateStale + cancelled
    }

    ghost function PastGate(): nat
      reads this`cancelled, st`submitted, st`stale
    {
      st.submitted + st.stale + cancelled
    }

    /** A newly pushed job, the mailbox reader, or a change of the daemon link. */
    method OtherStep(act: Act)
      requires Valid()
      modifies this`mailbox, this`taken, this`linkUp, st`blob, st`jobId, st`target, st`epoch, st`height, st`diff,
               st`blocks, st`miniBlocks, st`rejected, st`history
      ensures Valid() && old(st.history) <= st.history && |mailbox| <= old(|mailbox|)
      ensures st.Value() == if act.Push? then Apply(old(st.Value()), act.job) else old(st.Value())
    {
      hide Meets, BuiltFrom, Shares, HexEncode, Sent;
      match act {
        case Push(j) =>
          var changed, refused, error := st.SetJob(j);
          EarnedStays(sum, old(st.history), st.history, log);
        case Take =>
          if |mailbox| > 0 {
            assert taken + mailbox == taken + [mailbox[0]] + mailbox[1..];
            taken := taken + [mailbox[0]];
            mailbox := mailbox[1..];
          }
        case Flip =>
          linkUp := !linkUp;
      }
    }

    /** What the other goroutines do between two steps of the mining loop.  Only the mining loop sends, so
        the mailbox gets no fuller. */
    method Others(acts: seq<Act>)
      requires Valid()
      modifies this`mailbox, this`taken, this`linkUp, st`blob, st`jobId, st`target, st`epoch, st`height, st`diff,
               st`blocks, st`miniBlocks, st`rejected, st`history
      ensures Valid() && old(st.history) <= st.history && |mailbox| <= old(|mailbox|)
      ensures st.Value() == Run(old(st.Value()), Pushes(acts))
    {
      hide Valid, Apply;
      var i := 0;
      while i < |acts|
        invariant 0 <= i <= |acts| && Valid() && old(st.history) <= st.history && |mailbox| <= old(|mailbox|)
        invariant st.Value() == Run(old(st.Value()), Pushes(acts[..i]))
      {
        assert acts[..i + 1][..i] == acts[..i] && acts[..i + 1][i] == acts[i];
        PushedNext(old(st.Value()), acts[..i], acts[i]);
        OtherStep(acts[i]);
        i := i + 1;
      }
      assert acts[..|acts|] == acts;
    }

    /** Anything the other goroutines may do; the result says which jobs were pushed. */
    method AnyOthers() returns (ghost pushes: seq<Job>)
      requires Valid()
      modifies this`mailbox, this`taken, this`linkUp, st`blob, st`jobId, st`target, st`epoch, st`height, st`diff,
               st`blocks, st`miniBlocks, st`rejected, st`history
      ensures Valid() && old(st.history) <= st.history && |mailbox| <= old(|mailbox|)
      ensures st.Value() == Run(old(st.Value()), pushes)
    {
      var acts: seq<Act> := *;
      Others(acts);
      pushes := Pushes(acts);
    }

    /** Put a share into the mailbox, which has room. */
    method Enqueue(ghost q: Queued, share: Share)
      requires Valid() && |mailbox| < capacity && Earned(sum, st.history, q) && q.share == share
      requires Run(q.atGate, q.pushes) == st.Value() && q.sentEpoch == st.epoch
      modifies this`mailbox, this`log, st`submitted
      ensures Valid() && log == old(log) + [q] && st.submitted == old(st.submitted) + 1 && |mailbox| == old(|mailbox|) + 1
    {
      hide Meets, BuiltFrom, HexEncode, Earned, Sound, Run;
      mailbox := mailbox + [share];
      log := log + [q];
      st.submitted := st.submitted + 1;
      assert Shares(log) == Shares(old(log)) + [share];
      assert taken + mailbox == taken + old(mailbox) + [share];
    }

    /** submitShare: the share is queued, counted as stale, or given up because the miner stops; exactly
        one of the three.  With room it is queued, even if the job changed since the gate. */
    method SubmitShare(blob: seq<byte>, jobId: string, epoch: nat, ghost q: Queued) returns (ghost pushes: seq<Job>)
      requires Valid() && Earned(sum, st.history, q) && q.blob == blob && q.share.jobId == jobId && q.epoch == epoch
      requires Run(q.atGate, q.pushes) == st.Value()
      modifies this`mailbox, this`taken, this`linkUp, this`log, this`cancelled,
               st`blob, st`jobId, st`target, st`epoch, st`height, st`diff,
               st`blocks, st`miniBlocks, st`rejected, st`history, st`submitted, st`stale
      ensures Valid() && old(st.history) <= st.history && st.Value() == Run(old(st.Value()), pushes)
      ensures log == old(log) + if st.submitted > old(st.submitted) then [Late(q, pushes, st.epoch)] else []
      ensures st.submitted >= old(st.submitted) && st.stale >= old(st.stale) && cancelled >= old(cancelled)
      ensures PastGate() == old(PastGate()) + 1
      ensures old(|mailbox|) < capacity ==> st.submitted == old(st.submitted) + 1
      ensures |mailbox| <= old(|mailbox|) + st.submitted - old(st.submitted)
      ensures st.stale > old(st.stale) ==> st.epoch != epoch || !linkUp
    {
      hide Meets, BuiltFrom, HexEncode, Earned, Sound, Shares, Valid, Run, State.Valid, State.Value;
      assert q.share == Share(jobId, HexEncode(blob)) by { ShareOf(sum, st.history, q); }
      var sub := Share(jobId, HexEncode(blob));
      pushes := AnyOthers();
      if |mailbox| < capacity {
        EarnedLate(sum, old(st.history), st.history, q, pushes, st.epoch);
        Enqueue(Late(q, pushes, st.epoch), sub);
        return;
      }
      var ticks: nat := *;
      while ticks > 0
        invariant Valid() && old(st.history) <= st.history && log == old(log) && |mailbox| <= old(|mailbox|)
        invariant st.Value() == Run(old(st.Value()), pushes)
        invariant st.submitted == old(st.submitted) && st.stale == old(st.stale) && cancelled == old(cancelled)
      {
        pushes := More(old(st.Value()), pushes);
        if * {
          if |mailbox| < capacity {
            EarnedLate(sum, old(st.history), st.history, q, pushes, st.epoch);
            Enqueue(Late(q, pushes, st.epoch), sub);
            return;
          }
        } else {
          if st.epoch != epoch {
            st.stale := st.stale + 1;
            return;
          }
          pushes := More(old(st.Value()), pushes);
          if !linkUp {
            st.stale := st.stale + 1;
            return;
          }
        }
        ticks := ticks - 1;
      }
      cancelled := cancelled + 1;
    }

    /** The other goroutines go on. */
    method More(ghost start: Snapshot, ghost before: seq<Job>) returns (ghost pushes: seq<Job>)
      requires Valid() && st.Value() == Run(start, before)
      modifies this`mailbox, this`taken, this`linkUp, st`blob, st`jobId, st`target, st`epoch, st`height, st`diff,
               st`blocks, st`miniBlocks, st`rejected, st`history
      ensures Valid() && old(st.history) <= st.history && |mailbox| <= old(|mailbox|)
      ensures st.Value() == Run(start, pushes)
    {
      hide Valid, Run;
      ghost var next := AnyOthers();
      RunConcat(start, before, next);
      pushes := before + next;
    }

    /** A candidate that was fresh when the gate loaded the epoch: during the CPU hash the other goroutines
        do what they like, and before the share is queued they may do more.  It is fresh when it is queued
        exactly if none of the jobs pushed meanwhile changed the work. */
    method SubmitCandidate(b: BatchCtx, i: nat, during: seq<Act>) returns (ghost pushes: seq<Job>)
      requires Valid() && i < b.blobs.Length && Meets(sum(b.blobs[i]), b.target) && st.epoch == b.epoch
      requires FromWork(b.blobs[..], b.jobId, b.target, b.epoch, st.history)
      modifies this`mailbox, this`taken, this`linkUp, this`log, this`cancelled,
               st`blob, st`jobId, st`target, st`epoch, st`height, st`diff,
               st`blocks, st`miniBlocks, st`rejected, st`history, st`submitted, st`stale
      ensures Valid() && old(st.history) <= st.history && PastGate() == old(PastGate()) + 1
      ensures Pushes(during) <= pushes && st.Value() == Run(old(st.Value()), pushes)
      ensures Added(old(log), log, b.blobs[..], b.epoch, st.submitted - old(st.submitted))
      ensures |log| > |old(log)| ==>
                var q := log[|old(log)|];
                && q.blob == b.blobs[i] && q.share == Share(b.jobId, HexEncode(b.blobs[i]))
                && q.atGate == old(st.Value()) && q.pushes == pushes && q.sentEpoch == st.epoch
                && (q.sentEpoch == b.epoch <==> Quiet(old(st.Value()), pushes))
      ensures |log| == |old(log)| + st.submitted - old(st.submitted) && st.stale >= old(st.stale) && cancelled >= old(cancelled)
      ensures old(|mailbox|) < capacity ==> st.submitted == old(st.submitted) + 1
      ensures |mailbox| <= old(|mailbox|) + st.submitted - old(st.submitted)
      ensures st.stale > old(st.stale) ==> st.epoch != b.epoch || !linkUp
    {
      hide Meets, BuiltFrom, HexEncode, Earned, Sound, Shares, FromWork, Valid, Run, Quiet;
      var blob := b.blobs[i];
      assert blob == b.blobs[..][i];
      ghost var q := Queued(Share(b.jobId, HexEncode(blob)), blob, b.target, b.epoch, st.Value(), [], 0);
      EarnedAtGate(sum, st.history, st.history, b.blobs[..], b.jobId, b.target, b.epoch, i, st.Value());
      Others(during);
      EarnedLate(sum, old(st.history), st.history, q, Pushes(during), 0);
      q := Late(q, Pushes(during), 0);
      assert q.pushes == Pushes(during);
      ghost var later := SubmitShare(blob, b.jobId, b.epoch, q);
      pushes := Pushes(during) + later;
      RunConcat(old(st.Value()), Pushes(during), later);
      EpochStays(old(st.Value()), pushes);
    }

    /** Freshness at the gate is not freshness at the send: whatever changing job is pushed during the CPU
        hash, the share is queued all the same if there is room, with an epoch that is no longer the live
        one. */
    method StaleShare(b: BatchCtx, i: nat, j: Job)
      requires Valid() && i < b.blobs.Length && Meets(sum(b.blobs[i]), b.target) && st.epoch == b.epoch
      requires FromWork(b.blobs[..], b.jobId, b.target, b.epoch, st.history)
      requires |mailbox| < capacity && Changes(st.Value(), j)
      modifies this`mailbox, this`taken, this`linkUp, this`log, this`cancelled,
               st`blob, st`jobId, st`target, st`epoch, st`height, st`diff,
               st`blocks, st`miniBlocks, st`rejected, st`history, st`submitted, st`stale
      ensures Valid() && |log| == |old(log)| + 1
      ensures log[|old(log)|].epoch == b.epoch < log[|old(log)|].sentEpoch
    {
      hide Meets, BuiltFrom, HexEncode, Earned, Sound, Shares, FromWork, Valid, Run, Changes;
      assert [Push(j)][..0] == [] && Pushes([Push(j)]) == [j];
      ghost var pushes := SubmitCandidate(b, i, [Push(j)]);
      assert pushes[..0] == [] && pushes[0] == j;
      RunOne(old(st.Value()), j);
      EpochMonotone(old(st.Value()), pushes);
    }

    /** One digest that meets the target, at the gate. */
    method DecideCandidate(pow: Word256, b: BatchCtx, i: nat) returns (rotated: bool)
      requires Valid() && i < b.blobs.Length && Meets(pow, b.target)
      requires FromWork(b.blobs[..], b.jobId, b.target, b.epoch, st.history)
      modifies this`mailbox, this`taken, this`linkUp, this`log, this`cancelled, this`rehashes,
               st`blob, st`jobId, st`target, st`epoch, st`height, st`diff,
               st`blocks, st`miniBlocks, st`rejected, st`history, st`submitted, st`stale, st`gateStale, st`miscompute
      ensures Valid() && old(st.history) <= st.history
      ensures Decided() == old(Decided()) + 1
      ensures st.gateStale == old(st.gateStale) + if rotated then 1 else 0
      ensures rehashes == old(rehashes) + if rotated then 0 else 1
      ensures rotated ==> st.epoch != b.epoch
      ensures st.miscompute == old(st.miscompute) + if !rotated && sum(b.blobs[i]) != pow then 1 else 0
      ensures PastGate() == old(PastGate()) + if !rotated && sum(b.blobs[i]) == pow then 1 else 0
      ensures !rotated && sum(b.blobs[i]) == pow && old(|mailbox|) < capacity ==> st.submitted == old(st.submitted) + 1
      ensures old(st.submitted) <= st.submitted <= old(st.submitted) + 1
      ensures |mailbox| <= old(|mailbox|) + st.submitted - old(st.submitted)
      ensures st.stale > old(st.stale) ==> st.epoch != b.epoch || !linkUp
      ensures Added(old(log), log, b.blobs[..], b.epoch, st.submitted - old(st.submitted))
    {
      hide Meets, BuiltFrom, HexEncode, Earned, Sound, Shares, FromWork, Valid, Run, Quiet, State.Valid, State.Value;
      ghost var before := AnyOthers();
      var blob := b.blobs[i];
      var outcome := Classify(st.epoch, b.epoch, () => sum(blob) == pow);
      rotated := false;
      match outcome {
        case GateStale =>
          st.gateStale := st.gateStale + 1;
          rotated := true;
        case GateMiscompute =>
          rehashes := rehashes + 1;
          ghost var during := AnyOthers();
          st.miscompute := st.miscompute + 1;
        case GateSubmit =>
          rehashes := rehashes + 1;
          FromWorkGrows(b.blobs[..], b.jobId, b.target, b.epoch, old(st.history), st.history);
          var during: seq<Act> := *;
          ghost var pushes := SubmitCandidate(b, i, during);
      }
    }

    /** One digest of a batch: nothing happens unless it meets the target. */
    method OneDigest(pows: seq<Word256>, b: BatchCtx, i: nat) returns (rotated: bool)
      requires Valid() && i < |pows| == b.blobs.Length && FromWork(b.blobs[..], b.jobId, b.target, b.epoch, st.history)
      modifies this`mailbox, this`taken, this`linkUp, this`log, this`cancelled, this`rehashes,
               st`blob, st`jobId, st`target, st`epoch, st`height, st`diff,
               st`blocks, st`miniBlocks, st`rejected, st`history, st`submitted, st`stale, st`gateStale, st`miscompute
      ensures Valid() && old(st.history) <= st.history
      ensures Decided() == old(Decided()) + if Meets(pows[i], b.target) then 1 else 0
      ensures st.gateStale == old(st.gateStale) + if rotated then 1 else 0
      ensures rehashes - old(rehashes) == (Decided() - old(Decided())) - (st.gateStale - old(st.gateStale))
      ensures rotated ==> st.epoch != b.epoch
      ensures Reproduced(sum, pows, b.blobs[..]) ==> st.miscompute == old(st.miscompute)
      ensures Added(old(log), log, b.blobs[..], b.epoch, st.submitted - old(st.submitted))
      ensures 0 <= st.submitted - old(st.submitted) <= Decided() - old(Decided())
      ensures |mailbox| <= old(|mailbox|) + st.submitted - old(st.submitted)
      ensures Reproduced(sum, pows, b.blobs[..]) && !rotated && (Meets(pows[i], b.target) ==> old(|mailbox|) < capacity) ==>
                st.submitted - old(st.submitted) == Decided() - old(Decided())
    {
      hide Meets, BuiltFrom, HexEncode, Earned, Sound, Shares, FromWork, Added, Valid, Reproduced, Decided, Run;
      rotated := false;
      AddedNothing(log, b.blobs[..], b.epoch);
      var meets := MeetsTarget(pows[i], b.target);
      if meets {
        ReproducedAt(sum, pows, b.blobs[..], i);
        assert b.blobs[..][i] == b.blobs[i];
        rotated := DecideCandidate(pows[i], b, i);
      }
    }

    /** processBatch: every digest that meets the target is decided at most once, exactly once if the job
        did not change meanwhile, and only shares of this batch are queued. */
    method ProcessBatch(pows: seq<Word256>, b: BatchCtx)
      requires Valid() && |pows| == b.blobs.Length && FromWork(b.blobs[..], b.jobId, b.target, b.epoch, st.history)
      modifies this`mailbox, this`taken, this`linkUp, this`log, this`cancelled, this`rehashes,
               st`blob, st`jobId, st`target, st`epoch, st`height, st`diff,
               st`blocks, st`miniBlocks, st`rejected, st`history, st`submitted, st`stale,
               st`totalHashes, st`gateStale, st`miscompute
      ensures Valid() && old(st.history) <= st.history
      ensures st.totalHashes == old(st.totalHashes) + b.blobs.Length
      ensures old(Decided()) <= Decided() <= old(Decided()) + Candidates(pows, |pows|, b.target)
      ensures st.epoch == b.epoch ==> Decided() == old(Decided()) + Candidates(pows, |pows|, b.target)
      ensures rehashes - old(rehashes) == (Decided() - old(Decided())) - (st.gateStale - old(st.gateStale))
      ensures Added(old(log), log, b.blobs[..], b.epoch, st.submitted - old(st.submitted))
      ensures Reproduced(sum, pows, b.blobs[..]) ==> st.miscompute == old(st.miscompute)
      ensures Reproduced(sum, pows, b.blobs[..]) && st.epoch == b.epoch
              && old(|mailbox|) + Candidates(pows, |pows|, b.target) <= capacity ==>
                st.submitted == old(st.submitted) + Candidates(pows, |pows|, b.target)
    {
      hide Meets, BuiltFrom, HexEncode, Earned, Sound, Shares, FromWork, Added, Valid, Reproduced, Candidates, Decided, Run;
      st.totalHashes := st.totalHashes + b.blobs.Length;

      ghost var before := AnyOthers();
      AddedNothing(log, b.blobs[..], b.epoch);
      NoCandidates(pows, b.target);
      if st.epoch != b.epoch {
        return;
      }
      var i := 0;
      while i < b.blobs.Length
        invariant 0 <= i <= b.blobs.Length && Valid() && old(st.history) <= st.history
        invariant st.totalHashes == old(st.totalHashes) + b.blobs.Length
        invariant Decided() == old(Decided()) + Candidates(pows, i, b.target)
        invariant rehashes - old(rehashes) == Decided() - old(Decided()) && st.gateStale == old(st.gateStale)
        invariant Added(old(log), log, b.blobs[..], b.epoch, st.submitted - old(st.submitted))
        invariant Reproduced(sum, pows, b.blobs[..]) ==> st.miscompute == old(st.miscompute)
        invariant st.submitted - old(st.submitted) <= Decided() - old(Decided())
        invariant |mailbox| <= old(|mailbox|) + st.submitted - old(st.submitted)
        invariant Reproduced(sum, pows, b.blobs[..]) && old(|mailbox|) + Candidates(pows, |pows|, b.target) <= capacity ==>
                    st.submitted == old(st.submitted) + Candidates(pows, i, b.target)
      {
        CandidatesGrow(pows, i, b.target);
        ghost var log0, submitted0 := log, st.submitted;
        FromWorkGrows(b.blobs[..], b.jobId, b.target, b.epoch, old(st.history), st.history);
        var rotated := OneDigest(pows, b, i);
        AddedMore(old(log), log0, log, b.blobs[..], b.epoch, submitted0 - old(st.submitted), st.submitted - submitted0);
        if rotated {
          return;
        }
        i := i + 1;
      }
    }
  }

  /** Every digest is the one the CPU computes. */
  ghost predicate Reproduced(sum: seq<byte> -> Word256, pows: seq<Word256>, blobs: seq<seq<byte>>) {
    |pows| == |blobs| && forall i :: 0 <= i < |pows| ==> pows[i] == sum(blobs[i])
  }

  lemma ReproducedAt(sum: seq<byte> -> Word256, pows: seq<Word256>, blobs: seq<seq<byte>>, i: nat)
    requires i < |pows| && i < |blobs|
    ensures Reproduced(sum, pows, blobs) ==> pows[i] == sum(blobs[i])
  {
  }

  /** n shares of the batch were queued. */
  ghost predicate Added(before: seq<Queued>, after: seq<Queued>, blobs: seq<seq<byte>>, epoch: nat, n: int) {
    && before <= after && |after| - |before| == n
    && forall k :: |before| <= k < |after| ==> after[k].epoch == epoch && after[k].blob in blobs
  }

  lemma AddedNothing(log: seq<Queued>, blobs: seq<seq<byte>>, epoch: nat)
    ensures Added(log, log, blobs, epoch, 0)
  {
  }

  lemma AddedMore(a: seq<Queued>, b: seq<Queued>, c: seq<Queued>, blobs: seq<seq<byte>>, epoch: nat, m: int, n: int)
    requires Added(a, b, blobs, epoch, m) && Added(b, c, blobs, epoch, n)
    ensures Added(a, c, blobs, epoch, m + n)
  {
  }

  lemma FromWorkGrows(blobs: seq<seq<byte>>, jobId: string, target: Word256, epoch: nat, before: seq<Work>, after: seq<Work>)
    requires FromWork(blobs, jobId, target, epoch, before) && before <= after
    ensures FromWork(blobs, jobId, target, epoch, after)
  {
    hide BuiltFrom;
  }

  lemma EarnedStays(sum: seq<byte> -> Word256, before: seq<Work>, after: seq<Work>, log: seq<Queued>)
    requires before <= after && forall k :: 0 <= k < |log| ==> Earned(sum, before, log[k])
    ensures forall k :: 0 <= k < |log| ==> Earned(sum, after, log[k])
  {
    hide Meets, BuiltFrom, HexEncode;
  }

  /** The same share after more pushes. */
  function Late(q: Queued, more: seq<Job>, epoch: nat): Queued {
    q.(pushes := q.pushes + more, sentEpoch := epoch)
  }

  lemma EarnedLate(sum: seq<byte> -> Word256, before: seq<Work>, after: seq<Work>, q: Queued, more: seq<Job>, epoch: nat)
    requires before <= after && Earned(sum, before, q)
    ensures Earned(sum, after, Late(q, more, epoch))
    ensures Run(q.atGate, q.pushes + more) == Run(Run(q.atGate, q.pushes), more)
  {
    hide Meets, BuiltFrom, HexEncode;
    RunConcat(q.atGate, q.pushes, more);
  }

  lemma PushedNext(s: Snapshot, acts: seq<Act>, act: Act)
    ensures Run(s, Pushes(acts + [act])) == if act.Push? then Apply(Run(s, Pushes(acts)), act.job) else Run(s, Pushes(acts))
  {
    hide Apply;
    assert (acts + [act])[..|acts|] == acts;
    if act.Push? {
      var js := Pushes(acts);
      assert (js + [act.job])[..|js|] == js;
    } else {
      assert Pushes(acts + [act]) == Pushes(acts);
    }
  }

  lemma ShareOf(sum: seq<byte> -> Word256, history: seq<Work>, q: Queued)
    requires Earned(sum, history, q)
    ensures q.share == Share(q.share.jobId, HexEncode(q.blob))
  {
    hide Meets, BuiltFrom, HexEncode;
  }

  /** A share that passes the gate is earned. */
  lemma EarnedAtGate(sum: seq<byte> -> Word256, before: seq<Work>, after: seq<Work>, blobs: seq<seq<byte>>, jobId: string,
                     target: Word256, epoch: nat, i: nat, atGate: Snapshot)
    requires before <= after && FromWork(blobs, jobId, target, epoch, before) && i < |blobs|
    requires atGate.epoch == epoch && Meets(sum(blobs[i]), target)
    ensures Earned(sum, after, Queued(Share(jobId, HexEncode(blobs[i])), blobs[i], target, epoch, atGate, [], 0))
    ensures 0 < epoch <= |after| && jobId == after[epoch - 1].jobId && target == after[epoch - 1].target
    ensures |blobs[i]| == 48 == |after[epoch - 1].blob| && blobs[i][..36] == after[epoch - 1].blob[..36]
  {
    hide Meets, HexEncode;
  }

  lemma NoCandidates(pows: seq<Word256>, target: Word256)
    ensures Candidates(pows, 0, target) == 0
  {
  }

  lemma {:induction false} CandidatesGrow(pows: seq<Word256>, n: nat, target: Word256)
    requires n < |pows|
    ensures Candidates(pows, n + 1, target) == Candidates(pows, n, target) + if Meets(pows[n], target) then 1 else 0
    ensures Candidates(pows, n + 1, target) <= Candidates(pows, |pows|, target)
    decreases |pows| - n
  {
    hide Meets;
    if n + 1 < |pows| {
      CandidatesGrow(pows, n + 1, target);
    }
  }
}
