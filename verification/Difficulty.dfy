/** Difficulty arithmetic (internal/miner/difficulty.go): the byte-wise check a hash has to pass is
    exactly the inequality between integers that the difficulty stands for. */
module Difficulty {
  import opened Suffixes
  import opened Bytes

  const TWO_TO_256: nat := 0x1_0000000000000000_0000000000000000_0000000000000000_0000000000000000

  type Word256 = s: seq<byte> | |s| == 32 witness seq(32, _ => 0)

  lemma {:induction false} Pow256Sum(m: nat, n: nat)
    ensures Pow256(m + n) == Pow256(m) * Pow256(n)
    decreases m
  {
    if m > 0 {
      Pow256Sum(m - 1, n);
      assert Pow256(m + n) == 256 * (Pow256(m - 1) * Pow256(n));
    }
  }

  lemma Pow256Of32()
    ensures Pow256(32) == TWO_TO_256
  {
    assert Pow256(1) == 256 by { assert Pow256(0) == 1; }
    Doubles(1, 256);
    Doubles(2, 0x1_0000);
    Doubles(4, 0x1_0000_0000);
    Doubles(8, 0x1_0000000000000000);
    Doubles(16, 0x1_0000000000000000_0000000000000000);
  }

  lemma Doubles(n: nat, x: nat)
    requires Pow256(n) == x
    ensures Pow256(2 * n) == x * x
  {
    Pow256Sum(n, n);
  }

  // ----- Bytes and integers -----

  /** The low n bytes of q, most significant first. */
  function FillBytes(q: nat, n: nat): (s: seq<byte>)
    ensures |s| == n
  {
    if n == 0 then [] else FillBytes(q / 256, n - 1) + [q % 256]
  }

  lemma {:induction false} FillBytesValue(q: nat, n: nat)
    requires q < Pow256(n)
    ensures BigEndian(FillBytes(q, n)) == q
    decreases n
  {
    if n > 0 {
      FillBytesValue(q / 256, n - 1);
      BigEndianSnoc(FillBytes(q / 256, n - 1), q % 256);
    }
  }

  lemma BigEndianSnoc(s: seq<byte>, b: byte)
    ensures BigEndian(s + [b]) == BigEndian(s) * 256 + b
  {
    assert (s + [b])[..|s|] == s;
  }

  function LittleEndian(s: seq<byte>): nat {
    if s == [] then 0 else s[0] + 256 * LittleEndian(s[1..])
  }

  function Reversed(s: seq<byte>): (r: seq<byte>)
    ensures |r| == |s| && forall i :: 0 <= i < |s| ==> r[i] == s[|s| - 1 - i]
  {
    seq(|s|, i requires 0 <= i < |s| => s[|s| - 1 - i])
  }

  lemma {:induction false} LittleEndianReversed(s: seq<byte>)
    ensures LittleEndian(s) == BigEndian(Reversed(s))
    decreases |s|
  {
    if s != [] {
      LittleEndianReversed(s[1..]);
      assert Reversed(s) == Reversed(s[1..]) + [s[0]];
      BigEndianSnoc(Reversed(s[1..]), s[0]);
    }
  }

  lemma {:induction false} BigEndianBound(s: seq<byte>)
    ensures BigEndian(s) < Pow256(|s|)
    decreases |s|
  {
    if s != [] {
      BigEndianBound(s[..|s| - 1]);
    }
  }

  // ----- The check -----

  /** What the check decides: the hash, read as a little-endian integer, is at most the target, read as a
      big-endian one. */
  predicate Meets(pow: seq<byte>, target: seq<byte>) {
    LittleEndian(pow) <= BigEndian(target)
  }

  /** MeetsTarget: compare byte by byte from the most significant end, stopping at the first difference. */
  method MeetsTarget(pow: Word256, target: Word256) returns (ok: bool)
    ensures ok <==> Meets(pow, target)
  {
    ghost var r := Reversed(pow);
    LittleEndianReversed(pow);
    CompareBigEndian(r, target);
    var i := 0;
    while i < 32
      invariant 0 <= i <= 32 && r[..i] == target[..i]
    {
      var p, t := pow[31 - i], target[i];
      if p != t {
        CompareAtDifference(r, target, i);
      }
      if p < t {
        return true;
      }
      if p > t {
        return false;
      }
      assert r[..i + 1] == r[..i] + [p] && target[..i + 1] == target[..i] + [t];
      i := i + 1;
    }
    assert r[..32] == r && target[..32] == target;
    return true;
  }

  lemma CompareAtDifference(a: seq<byte>, b: seq<byte>, i: nat)
    requires i < |a| && i < |b| && a[..i] == b[..i] && a[i] != b[i]
    ensures Compare(a, b) < 0 <==> a[i] < b[i]
  {
    CompareSplit(a, b, i);
    assert a[i..][0] == a[i] && b[i..][0] == b[i];
  }

  // ----- The target -----

  /** The target bytes of a difficulty. */
  function Target(diff: nat): (t: Word256) {
    if diff == 0 then seq(32, _ => 0)
    else if diff == 1 then seq(32, _ => 0xff)
    else FillBytes(TWO_TO_256 / diff, 32)
  }

  /** ComputeTarget. */
  method ComputeTarget(diff: nat) returns (target: Word256)
    ensures target == Target(diff)
  {
    target := seq(32, _ => 0);
    if diff == 0 {
      return;
    }
    if diff == 1 {
      var i := 0;
      while i < 32
        invariant 0 <= i <= 32 && forall k :: 0 <= k < i ==> target[k] == 0xff
      {
        target := target[i := 0xff];
        i := i + 1;
      }
      assert target == Target(1);
      return;
    }
    target := FillBytes(TWO_TO_256 / diff, 32);
  }

  lemma {:induction false} AllOnes(n: nat)
    ensures BigEndian(seq(n, _ => 0xff)) == Pow256(n) - 1
    decreases n
  {
    if n > 0 {
      AllOnes(n - 1);
      assert seq(n, _ => 0xff) == seq(n - 1, _ => 0xff) + [0xff];
      BigEndianSnoc(seq(n - 1, _ => 0xff), 0xff);
    }
  }

  lemma DivisionBound(x: nat, n: nat, d: nat)
    requires d > 0
    ensures x <= n / d <==> x * d <= n
  {
    var q := n / d;
    assert n == q * d + n % d;
    if x <= q {
      assert x * d <= q * d;
    } else {
      assert x * d >= (q + 1) * d == q * d + d;
    }
  }

  lemma QuotientFits(d: nat)
    requires d >= 2
    ensures TWO_TO_256 / d < TWO_TO_256
  {
    DivisionBound(TWO_TO_256, TWO_TO_256, d);
  }

  /** For every difficulty a job may carry, passing the check means hash * difficulty <= 2^256. */
  lemma MeetsTargetArithmetic(pow: Word256, diff: nat)
    requires diff >= 1
    ensures Meets(pow, Target(diff)) <==> LittleEndian(pow) * diff <= TWO_TO_256
  {
    Pow256Of32();
    LittleEndianReversed(pow);
    BigEndianBound(Reversed(pow));
    if diff == 1 {
      AllOnes(32);
    } else {
      QuotientFits(diff);
      FillBytesValue(TWO_TO_256 / diff, 32);
      DivisionBound(LittleEndian(pow), TWO_TO_256, diff);
    }
  }

  lemma {:induction false} ZeroValue(s: seq<byte>)
    ensures LittleEndian(s) == 0 <==> forall i :: 0 <= i < |s| ==> s[i] == 0
    decreases |s|
  {
    if s != [] {
      ZeroValue(s[1..]);
      assert s == [s[0]] + s[1..];
    }
  }

  lemma {:induction false} BigEndianZero(n: nat)
    ensures BigEndian(seq(n, _ => 0)) == 0
    decreases n
  {
    if n > 0 {
      BigEndianZero(n - 1);
      assert seq(n, _ => 0) == seq(n - 1, _ => 0) + [0];
      BigEndianSnoc(seq(n - 1, _ => 0), 0);
    }
  }

  /** Difficulty zero, which no installed job has, is not unmeetable: the all-zero hash still passes,
      and only that one. */
  lemma ZeroDifficulty(pow: Word256)
    ensures Meets(pow, Target(0)) <==> forall i :: 0 <= i < 32 ==> pow[i] == 0
  {
    BigEndianZero(32);
    ZeroValue(pow);
  }

  lemma ProductGrows(x: nat, a: nat, b: nat)
    requires a <= b
    ensures x * a <= x * b
  {
  }

  /** Quotients of 2^256 by different 64-bit numbers differ. */
  lemma QuotientsDiffer(a: nat, b: nat)
    requires 0 < a < b < 0x1_0000000000000000
    ensures TWO_TO_256 / b < TWO_TO_256 / a
  {
    var q := TWO_TO_256 / b;
    DivisionBound(0x1_0000000000000000, TWO_TO_256, b);
    DivisionBound(q, TWO_TO_256, b);
    assert (q + 1) * a <= q * b by {
      assert q * b >= q * (a + 1) == q * a + q;
    }
    DivisionBound(q + 1, TWO_TO_256, a);
  }

  /** A difficulty, as a job carries it, is determined by its target. */
  lemma TargetInjective(a: nat, b: nat)
    requires 0 < a < 0x1_0000000000000000 && 0 < b < 0x1_0000000000000000
    ensures Target(a) == Target(b) <==> a == b
  {
    if a < b {
      TargetsDiffer(a, b);
    } else if b < a {
      TargetsDiffer(b, a);
    }
  }

  lemma TargetsDiffer(a: nat, b: nat)
    requires 0 < a < b < 0x1_0000000000000000
    ensures BigEndian(Target(b)) < BigEndian(Target(a))
  {
    Pow256Of32();
    QuotientsDiffer(a, b);
    QuotientFits(b);
    FillBytesValue(TWO_TO_256 / b, 32);
    if a == 1 {
      AllOnes(32);
      DivisionBound(TWO_TO_256 - 1, TWO_TO_256, b);
    } else {
      QuotientFits(a);
      FillBytesValue(TWO_TO_256 / a, 32);
    }
  }

  /** A harder job accepts no hash an easier one rejects. */
  lemma HarderIsStricter(pow: Word256, easy: nat, hard: nat)
    requires 1 <= easy <= hard && Meets(pow, Target(hard))
    ensures Meets(pow, Target(easy))
  {
    hide Meets, Target, LittleEndian;
    MeetsTargetArithmetic(pow, easy);
    MeetsTargetArithmetic(pow, hard);
    ProductGrows(LittleEndian(pow), easy, hard);
  }
}
