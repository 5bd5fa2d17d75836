/** The shared job state (internal/miner/state.go): what a pushed job may change, and what stays true over
    every sequence of pushes, malformed ones included. */
module MinerState {
  import opened Suffixes
  import opened Bytes
  import opened Difficulty

  const MINIBLOCK_SIZE: nat := 48

  type uint64 = n: nat | n < 0x1_0000000000000000

  datatype Job = Job(blob: string, jobId: string, difficulty: uint64, height: nat, blocks: nat, miniBlocks: nat, rejected: nat)

  datatype Error = BadBlob | BadVersion | BadDiff

  datatype Checked = Accepted(blob: seq<byte>) | Refused(error: Error)

  // ----- Validation -----

  function HexDigit(c: char): int {
    if '0' <= c <= '9' then c as int - '0' as int
    else if 'a' <= c <= 'f' then c as int - 'a' as int + 10
    else if 'A' <= c <= 'F' then c as int - 'A' as int + 10
    else -1
  }

  predicate IsHex(s: string) {
    |s| % 2 == 0 && forall i :: 0 <= i < |s| ==> HexDigit(s[i]) >= 0
  }

  function HexDecode(s: string): (r: seq<byte>)
    requires IsHex(s)
    ensures |r| == |s| / 2
  {
    seq(|s| / 2, i requires 0 <= i < |s| / 2 => HexDigit(s[2 * i]) * 16 + HexDigit(s[2 * i + 1]))
  }

  /** The checks of SetJob, in their order: the length comes before decoding. */
  function Validate(j: Job): (c: Checked)
    ensures c.Accepted? ==> |c.blob| == MINIBLOCK_SIZE && c.blob[0] % 16 == 1 && j.difficulty > 0
  {
    if |j.blob| != MINIBLOCK_SIZE * 2 then Refused(BadBlob)
    else if !IsHex(j.blob) then Refused(BadBlob)
    else
      var blob := HexDecode(j.blob);
      if blob[0] % 16 != 1 then Refused(BadVersion)
      else if j.difficulty == 0 then Refused(BadDiff)
      else Accepted(blob)
  }

  // ----- What is accepted -----

  const LOWER: string := "0123456789abcdef"
  const UPPER: string := "0123456789ABCDEF"

  /** The character is the hex digit d, in either case. */
  predicate IsDigit(c: char, d: int) {
    0 <= d < 16 && (c == LOWER[d] || c == UPPER[d])
  }

  /** Two hex digits a byte, the upper half first. */
  ghost predicate Spells(s: string, b: seq<byte>) {
    |s| == 2 * |b| && forall k :: 0 <= k < |b| ==> SpellsByte(s[2 * k], s[2 * k + 1], b[k])
  }

  predicate SpellsByte(hi: char, lo: char, b: byte) {
    IsDigit(hi, b / 16) && IsDigit(lo, b % 16)
  }

  lemma DigitValue(c: char, d: int)
    ensures IsDigit(c, d) <==> 0 <= d == HexDigit(c)
    ensures -1 <= HexDigit(c) < 16
  {
    var h := HexDigit(c);
    if h >= 0 {
      assert LOWER[h] == c || UPPER[h] == c by { DigitChars(c); }
    }
    if 0 <= d < 16 {
      CharDigits(d);
    }
  }

  lemma CharDigits(d: nat)
    requires d < 16
    ensures HexDigit(LOWER[d]) == d && HexDigit(UPPER[d]) == d
  {
    assert d == 0 || d == 1 || d == 2 || d == 3 || d == 4 || d == 5 || d == 6 || d == 7
           || d == 8 || d == 9 || d == 10 || d == 11 || d == 12 || d == 13 || d == 14 || d == 15;
  }

  lemma DigitChars(c: char)
    requires HexDigit(c) >= 0
    ensures var h := HexDigit(c);
            h < 16 && (LOWER[h] == c || UPPER[h] == c)
  {
    var h := HexDigit(c);
    assert h == 0 || h == 1 || h == 2 || h == 3 || h == 4 || h == 5 || h == 6 || h == 7
           || h == 8 || h == 9 || h == 10 || h == 11 || h == 12 || h == 13 || h == 14 || h == 15;
  }

  /** Decoding finds exactly the bytes a string spells. */
  lemma SpellsDecodes(s: string, b: seq<byte>)
    ensures Spells(s, b) <==> IsHex(s) && HexDecode(s) == b
  {
    hide HexDigit, IsDigit;
    if Spells(s, b) {
      forall i | 0 <= i < |s| ensures HexDigit(s[i]) >= 0 {
        assert SpellsByte(s[2 * (i / 2)], s[2 * (i / 2) + 1], b[i / 2]);
        DigitValue(s[i], b[i / 2] / 16);
        DigitValue(s[i], b[i / 2] % 16);
      }
      forall k | 0 <= k < |b| ensures HexDecode(s)[k] == b[k] {
        assert SpellsByte(s[2 * k], s[2 * k + 1], b[k]);
        DigitValue(s[2 * k], b[k] / 16);
        DigitValue(s[2 * k + 1], b[k] % 16);
      }
    }
    if IsHex(s) && HexDecode(s) == b {
      forall k | 0 <= k < |b| ensures SpellsByte(s[2 * k], s[2 * k + 1], b[k]) {
        var hi, lo := HexDigit(s[2 * k]), HexDigit(s[2 * k + 1]);
        DigitValue(s[2 * k], hi);
        DigitValue(s[2 * k + 1], lo);
        assert b[k] == hi * 16 + lo && b[k] / 16 == hi && b[k] % 16 == lo;
      }
    }
  }

  /** A job whose blob spells 48 bytes is accepted with these bytes exactly if their version nibble is 1 and
      its difficulty is not zero; which error it gets otherwise. */
  lemma ValidateExact(j: Job, b: seq<byte>)
    requires |b| == 48 && Spells(j.blob, b)
    ensures b[0] % 16 == 1 && j.difficulty > 0 ==> Validate(j) == Accepted(b)
    ensures Validate(j) == Refused(BadVersion) <==> b[0] % 16 != 1
    ensures Validate(j) == Refused(BadDiff) <==> b[0] % 16 == 1 && j.difficulty == 0
    ensures Validate(j) != Refused(BadBlob)
  {
    hide IsHex, HexDecode;
    SpellsDecodes(j.blob, b);
  }

  /** The blob is at fault exactly if it spells no 48 bytes. */
  lemma BadBlobExact(j: Job)
    ensures Validate(j) == Refused(BadBlob) <==> forall b: seq<byte> :: |b| == 48 ==> !Spells(j.blob, b)
  {
    hide Spells;
    if Validate(j) == Refused(BadBlob) {
      forall b: seq<byte> | |b| == 48 ensures !Spells(j.blob, b) {
        if Spells(j.blob, b) {
          ValidateExact(j, b);
        }
      }
    } else {
      SpellsDecodes(j.blob, HexDecode(j.blob));
    }
  }

  // ----- The state as a value -----

  /** The work a job installs. */
  datatype Work = Work(blob: seq<byte>, jobId: string, target: Word256)

  datatype Mirror = Mirror(height: nat, diff: nat, blocks: nat, miniBlocks: nat, rejected: nat)

  datatype Snapshot = Snapshot(work: Work, epoch: nat, mirror: Mirror)

  const FRESH: Snapshot := Snapshot(Work(Zeros(MINIBLOCK_SIZE), "", Zeros(32)), 0, Mirror(0, 0, 0, 0, 0))

  /** The job carries other work than what is installed. */
  predicate Changes(s: Snapshot, j: Job) {
    Validate(j).Accepted? && !(Validate(j).blob == s.work.blob && j.jobId == s.work.jobId)
  }

  function WorkOf(j: Job): Work
    requires Validate(j).Accepted?
  {
    Work(Validate(j).blob, j.jobId, Target(j.difficulty))
  }

  function Apply(s: Snapshot, j: Job): Snapshot {
    if !Validate(j).Accepted? then s
    else
      var mirror := Mirror(j.height, j.difficulty, j.blocks, j.miniBlocks, j.rejected);
      if Changes(s, j) then Snapshot(WorkOf(j), s.epoch + 1, mirror)
      else s.(mirror := mirror)
  }

  /** An accepted job shows in every mirrored counter, and its bytes and job id are the installed ones
      afterwards; target and epoch move exactly if these were others before. */
  lemma AcceptedShows(s: Snapshot, j: Job, b: seq<byte>)
    requires |b| == 48 && Spells(j.blob, b) && b[0] % 16 == 1 && j.difficulty > 0
    ensures var s' := Apply(s, j);
            && s'.work.blob == b && s'.work.jobId == j.jobId
            && s'.mirror.height == j.height && s'.mirror.diff == j.difficulty && s'.mirror.blocks == j.blocks
            && s'.mirror.miniBlocks == j.miniBlocks && s'.mirror.rejected == j.rejected
            && (if s.work.blob == b && s.work.jobId == j.jobId then s'.work.target == s.work.target && s'.epoch == s.epoch
                else s'.work.target == Target(j.difficulty) && s'.epoch == s.epoch + 1)
  {
    hide Target, Spells;
    ValidateExact(j, b);
  }

  /** A sequence of pushes, the last one applied last. */
  function Run(s: Snapshot, js: seq<Job>): Snapshot {
    if js == [] then s else Apply(Run(s, js[..|js| - 1]), js[|js| - 1])
  }

  // ----- What holds over every run -----

  /** Before any job the state is as zeroed; from the first accepted one on it carries that job's kind of
      work. */
  predicate Sound(s: Snapshot) {
    && |s.work.blob| == MINIBLOCK_SIZE
    && (s.epoch == 0 ==> s == FRESH)
    && (s.epoch > 0 ==> s.work.blob[0] % 16 == 1)
  }

  lemma ApplySound(s: Snapshot, j: Job)
    requires Sound(s)
    ensures Sound(Apply(s, j))
    ensures s.epoch == 0 && Validate(j).Accepted? ==> Changes(s, j)
  {
  }

  lemma {:induction false} RunSound(js: seq<Job>)
    ensures Sound(Run(FRESH, js))
    decreases |js|
  {
    if js != [] {
      RunSound(js[..|js| - 1]);
    }
  }

  /** The epoch is live exactly when some job has been accepted: the zeroed blob has no valid version, so
      the first accepted job always counts as a change. */
  lemma {:induction false} EpochLive(js: seq<Job>)
    ensures Run(FRESH, js).epoch > 0 <==> exists i :: 0 <= i < |js| && Validate(js[i]).Accepted?
    decreases |js|
  {
    if js != [] {
      var k := |js| - 1;
      EpochLive(js[..k]);
      RunSound(js[..k]);
      if Run(FRESH, js[..k]).epoch > 0 {
        var i :| 0 <= i < k && Validate(js[..k][i]).Accepted?;
        assert Validate(js[i]).Accepted?;
      } else {
        assert forall i :: 0 <= i < k ==> js[..k][i] == js[i];
      }
    }
  }

  /** Pushes never take the epoch back, and an unchanged epoch means unchanged work. */
  lemma {:induction false} EpochMonotone(s: Snapshot, js: seq<Job>)
    ensures Run(s, js).epoch >= s.epoch
    ensures Run(s, js).epoch == s.epoch ==> Run(s, js).work == s.work
    decreases |js|
  {
    if js != [] {
      EpochMonotone(s, js[..|js| - 1]);
    }
  }

  lemma {:induction false} RunConcat(s: Snapshot, a: seq<Job>, b: seq<Job>)
    ensures Run(s, a + b) == Run(Run(s, a), b)
    decreases |b|
  {
    if b == [] {
      assert a + b == a;
    } else {
      assert (a + b)[..|a + b| - 1] == a + b[..|b| - 1];
      RunConcat(s, a, b[..|b| - 1]);
    }
  }

  lemma RunOne(s: Snapshot, j: Job)
    ensures Run(s, [j]) == Apply(s, j) && Run(s, []) == s
  {
    assert [j][..0] == [];
  }

  /** None of the pushes changes the work. */
  ghost predicate Quiet(s: Snapshot, js: seq<Job>) {
    forall k :: 0 <= k < |js| ==> !Changes(Run(s, js[..k]), js[k])
  }

  /** The epoch stays exactly if no push changes the work. */
  lemma {:induction false} EpochStays(s: Snapshot, js: seq<Job>)
    ensures Run(s, js).epoch == s.epoch <==> Quiet(s, js)
    decreases |js|
  {
    if js != [] {
      var k := |js| - 1;
      EpochStays(s, js[..k]);
      EpochMonotone(s, js[..k]);
      QuietFront(s, js);
      LastPush(s, js);
      hide Changes, Run, Quiet;
    } else {
      hide Changes;
    }
  }

  lemma QuietFront(s: Snapshot, js: seq<Job>)
    requires js != []
    ensures var k := |js| - 1;
            Quiet(s, js) <==> Quiet(s, js[..k]) && !Changes(Run(s, js[..k]), js[k])
  {
    hide Changes, Run;
    var k := |js| - 1;
    assert forall i :: 0 <= i < k ==> js[..k][..i] == js[..i] && js[..k][i] == js[i];
  }

  lemma LastPush(s: Snapshot, js: seq<Job>)
    requires js != []
    ensures var s' := Run(s, js[..|js| - 1]);
            Run(s, js).epoch == s'.epoch + if Changes(s', js[|js| - 1]) then 1 else 0
  {
  }

  /** The last push that installed work, or -1. */
  function Installer(s: Snapshot, js: seq<Job>): (i: int)
    ensures -1 <= i < |js|
    ensures i >= 0 ==> Validate(js[i]).Accepted?
  {
    if js == [] then -1
    else
      var k := |js| - 1;
      if Changes(Run(s, js[..k]), js[k]) then k else Installer(s, js[..k])
  }

  /** The last push that was accepted, or -1. */
  function LastAccepted(js: seq<Job>): (i: int)
    ensures -1 <= i < |js|
    ensures i >= 0 ==> Validate(js[i]).Accepted?
  {
    if js == [] then -1
    else if Validate(js[|js| - 1]).Accepted? then |js| - 1
    else LastAccepted(js[..|js| - 1])
  }

  /** Blob, job id and target always come from one job, the last that changed the work, while the mirrored
      counters come from the last accepted one. */
  lemma {:induction false} WorkFromOneJob(js: seq<Job>)
    ensures var i, l, s := Installer(FRESH, js), LastAccepted(js), Run(FRESH, js);
            && (i >= 0 <==> s.epoch > 0) && (i >= 0 <==> l >= 0)
            && (i >= 0 ==> s.work == WorkOf(js[i]) && s.mirror.diff == js[l].difficulty
                           && Validate(js[l]).blob == s.work.blob && js[l].jobId == s.work.jobId)
    decreases |js|
  {
    if js != [] {
      WorkFromOneJob(js[..|js| - 1]);
      RunSound(js[..|js| - 1]);
    }
  }

  /** The target belongs to the displayed difficulty exactly when the last accepted job has the difficulty
      of the job that installed the work: a repeated job with another one changes only the display. */
  lemma TargetFollowsDifficulty(js: seq<Job>)
    requires Run(FRESH, js).epoch > 0
    ensures var i, l, s := Installer(FRESH, js), LastAccepted(js), Run(FRESH, js);
            && i >= 0 && l >= 0
            && (s.work.target == Target(s.mirror.diff) <==> js[i].difficulty == js[l].difficulty)
  {
    hide Target;
    WorkFromOneJob(js);
    TargetInjective(js[Installer(FRESH, js)].difficulty, js[LastAccepted(js)].difficulty);
  }

  function SampleBlob(): string {
    "01" + seq(94, _ => '0')
  }

  /** The same work pushed twice, at difficulty 1 and then 2: the target stays that of difficulty 1. */
  lemma MirrorDrifts()
    ensures var js := [Job(SampleBlob(), "job", 1, 0, 0, 0, 0), Job(SampleBlob(), "job", 2, 0, 0, 0, 0)];
            var s := Run(FRESH, js);
            s.epoch == 1 && s.mirror.diff == 2 && s.work.target == Target(1) && s.work.target != Target(2)
  {
    var a, b := Job(SampleBlob(), "job", 1, 0, 0, 0, 0), Job(SampleBlob(), "job", 2, 0, 0, 0, 0);
    var js := [a, b];
    SampleAccepted(a);
    SampleAccepted(b);
    assert js[..1] == [a] && [a][..0] == [];
    assert Run(FRESH, [a]) == Apply(Run(FRESH, []), a);
    assert Run(FRESH, js) == Apply(Run(FRESH, [a]), b);
    TargetInjective(1, 2);
  }

  lemma SampleAccepted(j: Job)
    requires j.blob == SampleBlob() && j.difficulty > 0
    ensures Validate(j).Accepted? && Validate(j).blob[0] == 1
  {
    assert IsHex(j.blob);
    assert j.blob[0] == '0' && j.blob[1] == '1';
  }

  // ----- The state as an object -----

  class State {
    var blob: seq<byte>
    var jobId: string
    var target: Word256
    var epoch: nat
    var height: nat
    var diff: nat
    var blocks: nat
    var miniBlocks: nat
    var rejected: nat
    var totalHashes: nat
    var submitted: nat
    var stale: nat
    var miscompute: nat
    var gateStale: nat

    /** The work installed at each epoch so far. */
    ghost var history: seq<Work>

    function Value(): Snapshot
      reads this`blob, this`jobId, this`target, this`epoch,
            this`height, this`diff, this`blocks, this`miniBlocks, this`rejected
    {
      Snapshot(Work(blob, jobId, target), epoch, Mirror(height, diff, blocks, miniBlocks, rejected))
    }

    ghost predicate Valid()
      reads this`blob, this`jobId, this`target, this`epoch, this`history,
            this`height, this`diff, this`blocks, this`miniBlocks, this`rejected
    {
      && Sound(Value()) && epoch == |history|
      && (epoch > 0 ==> history[epoch - 1] == Work(blob, jobId, target))
      && (forall i :: 0 <= i < |history| ==> |history[i].blob| == MINIBLOCK_SIZE)
    }

    constructor ()
      ensures Valid() && Value() == FRESH && history == []
      ensures totalHashes == submitted == stale == miscompute == gateStale == 0
    {
      blob, jobId, target, epoch := Zeros(MINIBLOCK_SIZE), "", Zeros(32), 0;
      height, diff, blocks, miniBlocks, rejected := 0, 0, 0, 0, 0;
      totalHashes, submitted, stale, miscompute, gateStale := 0, 0, 0, 0, 0;
      history := [];
    }

    /** SetJob: an error leaves the state as it was; otherwise the counters are mirrored, and the epoch
        moves exactly when blob or job id changed. */
    method SetJob(j: Job) returns (changed: bool, refused: bool, error: Error)
      requires Valid()
      modifies this`blob, this`jobId, this`target, this`epoch, this`height, this`diff, this`blocks,
               this`miniBlocks, this`rejected, this`history
      ensures Valid() && Value() == Apply(old(Value()), j)
      ensures refused <==> Validate(j).Refused?
      ensures refused ==> error == Validate(j).error
      ensures changed <==> Changes(old(Value()), j)
      ensures history == old(history) + if changed then [WorkOf(j)] else []
      ensures refused ==> unchanged(this)
      ensures forall b: seq<byte> :: |b| == 48 && Spells(j.blob, b) && b[0] % 16 == 1 && j.difficulty > 0 ==>
                && !refused && blob == b && jobId == j.jobId
                && height == j.height && diff == j.difficulty && blocks == j.blocks && miniBlocks == j.miniBlocks
                && rejected == j.rejected
                && (changed <==> old(blob) != b || old(jobId) != j.jobId)
                && (if changed then target == Target(j.difficulty) && epoch == old(epoch) + 1
                    else target == old(target) && epoch == old(epoch))
    {
      hide Target, Spells, Sound, Apply;
      ghost var s := Value();
      changed, refused, error := Install(j);
      forall b: seq<byte> | |b| == 48 && Spells(j.blob, b) && b[0] % 16 == 1 && j.difficulty > 0
        ensures !refused && (changed <==> s.work.blob != b || s.work.jobId != j.jobId)
      {
        ValidateExact(j, b);
      }
      forall b: seq<byte> | |b| == 48 && Spells(j.blob, b) && b[0] % 16 == 1 && j.difficulty > 0
        ensures Value().work.blob == b && Value().work.jobId == j.jobId
        ensures Value().mirror == Mirror(j.height, j.difficulty, j.blocks, j.miniBlocks, j.rejected)
        ensures if s.work.blob == b && s.work.jobId == j.jobId then target == s.work.target && epoch == s.epoch
                else target == Target(j.difficulty) && epoch == s.epoch + 1
      {
        AcceptedShows(s, j, b);
      }
    }

    /** The checks and the stores of SetJob. */
    method Install(j: Job) returns (changed: bool, refused: bool, error: Error)
      requires Valid()
      modifies this`blob, this`jobId, this`target, this`epoch, this`height, this`diff, this`blocks,
               this`miniBlocks, this`rejected, this`history
      ensures Valid() && Value() == Apply(old(Value()), j)
      ensures refused <==> Validate(j).Refused?
      ensures refused ==> error == Validate(j).error
      ensures changed <==> Changes(old(Value()), j)
      ensures history == old(history) + if changed then [WorkOf(j)] else []
      ensures refused ==> unchanged(this)
    {
      hide Target, HexDecode, IsHex, Zeros, Sound, Spells;
      ApplySound(Value(), j);
      changed, refused, error := false, true, BadBlob;
      if |j.blob| != MINIBLOCK_SIZE * 2 {
        return;
      }
      if !IsHex(j.blob) {
        return;
      }
      var decoded := HexDecode(j.blob);
      if decoded[0] % 16 != 1 {
        error := BadVersion;
        return;
      }
      if j.difficulty == 0 {
        error := BadDiff;
        return;
      }
      refused := false;
      height, diff, blocks, miniBlocks, rejected := j.height, j.difficulty, j.blocks, j.miniBlocks, j.rejected;
      if decoded == blob && j.jobId == jobId {
        return;
      }
      blob, jobId := decoded, j.jobId;
      target := ComputeTarget(j.difficulty);
      epoch := epoch + 1;
      history := history + [Work(blob, jobId, target)];
      changed := true;
    }

    /** Job: blob, job id, target and epoch of one moment. */
    method CurrentJob() returns (b: seq<byte>, id: string, t: Word256, e: nat)
      requires Valid()
      ensures b == blob && id == jobId && t == target && e == epoch
      ensures e > 0 ==> history[e - 1] == Work(b, id, t)
    {
      b, id, t, e := blob, jobId, target, epoch;
    }
  }
}
