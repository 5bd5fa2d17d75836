/** The data stream of the hash front end, as a function of its state: what one round does, when the loop
    stops, and how long the stream is.  The three implementations are proved against it. */
module WolfLoop {
  import opened Suffixes
  import opened WolfOps

  /** What a round does with the 64-bit hashes and the stream cipher is left open: mix gives the switch
      word, sum is the 64-bit addition, and a cipher is a state that yields a key stream; salsa is the key
      stream under a key with a zero counter, sha the digest of the input. */
  datatype Prims = Prims(mix: (nat, nat, nat) -> nat, sum: (nat, nat) -> nat,
                         xx: seq<bv8> -> nat, fnv: seq<bv8> -> nat, sip: (nat, nat, seq<bv8>) -> nat,
                         rekey: seq<bv8> -> seq<bv8>, key: (seq<bv8>, nat) -> bv8, advance: seq<bv8> -> seq<bv8>,
                         sha: seq<byte> -> seq<byte>, salsa: (seq<byte>, nat) -> bv8)

  datatype St = St(step: seq<bv8>, lhash: nat, prev: nat, rc4: seq<bv8>)

  predicate Whole(s: St) {
    |s.step| == 256
  }

  /** Room for the longest stream: the loop runs at most 277 rounds of 256 bytes. */
  const MAX_LENGTH: nat := 277 * 256

  /** The integers of a byte string. */
  function Ints(s: seq<bv8>): (r: seq<byte>)
    ensures |r| == |s| && forall i :: 0 <= i < |s| ==> r[i] == s[i] as int
  {
    seq(|s|, i requires 0 <= i < |s| => s[i] as int)
  }

  type Bodies = b: seq<seq<Stmt>> | |b| == 256 witness seq(256, _ => [])

  predicate ProperBodies(bodies: Bodies) {
    forall c, k :: 0 <= c < 256 && 0 <= k < |bodies[c]| ==> Proper(bodies[c][k])
  }

  // ----- The bytes a round works on -----

  /** Byte n of the switch word: the case, and the two ends of the range. */
  function SwitchByte(word: nat, n: nat): byte {
    if n == 0 then word % 256 else SwitchByte(word / 256, n - 1)
  }

  /** A round works from the smaller of two positions. */
  function Low(a: byte, b: byte): (p: byte)
    ensures p <= a && p <= b && (p == a || p == b)
  {
    if a > b then b else a
  }

  /** It works up to the larger one if that is at most 32 away; otherwise the distance is reduced modulo 32. */
  function High(a: byte, b: byte): (p: byte)
    ensures Low(a, b) <= p <= Low(a, b) + 32
    ensures -32 <= a - b <= 32 ==> p >= a && p >= b && (p == a || p == b)
    ensures a - b > 32 ==> p - b < 32 && exists m: nat :: a - b == 32 * m + (p - b)
    ensures b - a > 32 ==> p - a < 32 && exists m: nat :: b - a == 32 * m + (p - a)
  {
    var lo, hi := Low(a, b), if a > b then a else b;
    var d := hi - lo;
    assert d == 32 * (d / 32) + d % 32;
    if d > 32 then lo + d % 32 else hi
  }

  function ApplyBody(body: seq<Stmt>, x: bv8, p: bv8): bv8
    requires forall k :: 0 <= k < |body| ==> Proper(body[k])
  {
    if body == [] then x else Exec(body[|body| - 1], ApplyBody(body[..|body| - 1], x, p), p)
  }

  /** A body runs its statements from the first to the last. */
  lemma {:induction false} BodyInOrder(a: seq<Stmt>, b: seq<Stmt>, x: bv8, p: bv8)
    requires forall k :: 0 <= k < |a| ==> Proper(a[k])
    requires forall k :: 0 <= k < |b| ==> Proper(b[k])
    ensures ApplyBody([], x, p) == x && (|a| == 1 ==> ApplyBody(a, x, p) == Exec(a[0], x, p))
    ensures ApplyBody(a + b, x, p) == ApplyBody(b, ApplyBody(a, x, p), p)
    decreases |b|
  {
    hide Exec;
    if b == [] {
      assert a + b == a;
    } else {
      var k := |b| - 1;
      assert (a + b)[..|a + b| - 1] == a + b[..k];
      BodyInOrder(a, b[..k], x, p);
    }
  }

  /** The in-loop reversal of case 0: the ends change places, each reversed. */
  function Swap(step: seq<bv8>, pos1: nat, pos2: nat): (r: seq<bv8>)
    requires pos1 < |step| && pos2 < |step|
    ensures |r| == |step| && r[pos1] == Reverse8(step[pos2]) && r[pos2] == Reverse8(step[pos1])
    ensures forall i :: 0 <= i < |step| && i != pos1 && i != pos2 ==> r[i] == step[i]
  {
    step[pos2 := Reverse8(step[pos1])][pos1 := Reverse8(step[pos2])]
  }

  /** One byte of a round: the case's statements, then what cases 0 and 253 do besides. */
  function One(k: Prims, c: byte, body: seq<Stmt>, s: St, i: nat, pos1: nat, pos2: nat): (s': St)
    requires Whole(s) && pos1 <= i < pos2 < 256 && forall j :: 0 <= j < |body| ==> Proper(body[j])
    ensures Whole(s')
  {
    var worked := s.step[i := ApplyBody(body, s.step[i], s.step[pos2])];
    var step := if c == 0 then Swap(worked, pos1, pos2) else worked;
    if c == 253 then s.(step := step, prev := k.sum(s.lhash, s.prev), lhash := k.xx(step[..pos2]))
    else s.(step := step)
  }

  /** The bytes from pos1 to i. */
  function Work(k: Prims, c: byte, body: seq<Stmt>, s: St, pos1: nat, i: nat, pos2: nat): (s': St)
    requires Whole(s) && pos1 <= i <= pos2 < 256 && forall j :: 0 <= j < |body| ==> Proper(body[j])
    ensures Whole(s')
    decreases i
  {
    if i == pos1 then s else One(k, c, body, Work(k, c, body, s, pos1, i - 1, pos2), i - 1, pos1, pos2)
  }

  /** Outside case 0 a round does the body to every byte of its range, with the entry at pos2 as it was, and
      nothing to the others; in case 253 the last hash is that of the finished table. */
  lemma {:induction false} WorkDone(k: Prims, c: byte, body: seq<Stmt>, s: St, pos1: nat, i: nat, pos2: nat)
    requires Whole(s) && pos1 <= i <= pos2 < 256 && c != 0 && forall j :: 0 <= j < |body| ==> Proper(body[j])
    ensures var s' := Work(k, c, body, s, pos1, i, pos2);
            && (forall j :: 0 <= j < 256 ==>
                  s'.step[j] == if pos1 <= j < i then ApplyBody(body, s.step[j], s.step[pos2]) else s.step[j])
            && s'.rc4 == s.rc4 && (c != 253 ==> s'.lhash == s.lhash && s'.prev == s.prev)
            && (c == 253 && i > pos1 ==>
                  var u := Work(k, c, body, s, pos1, i - 1, pos2);
                  s'.lhash == k.xx(s'.step[..pos2]) && s'.prev == k.sum(u.lhash, u.prev))
    decreases i
  {
    hide ApplyBody;
    if i > pos1 {
      WorkDone(k, c, body, s, pos1, i - 1, pos2);
    }
  }

  /** Case 0 stays between the ends of its range. */
  lemma {:induction false} SwapWorkStays(k: Prims, body: seq<Stmt>, s: St, pos1: nat, i: nat, pos2: nat)
    requires Whole(s) && pos1 <= i <= pos2 < 256 && forall j :: 0 <= j < |body| ==> Proper(body[j])
    ensures var s' := Work(k, 0, body, s, pos1, i, pos2);
            && (forall j :: 0 <= j < 256 && !(pos1 <= j <= pos2) ==> s'.step[j] == s.step[j])
            && (forall j :: i <= j < pos2 && j != pos1 ==> s'.step[j] == s.step[j])
            && (forall j :: pos1 < j < i ==> s'.step[j] == ApplyBody(body, s.step[j], Work(k, 0, body, s, pos1, j, pos2).step[pos2]))
            && s'.rc4 == s.rc4 && s'.lhash == s.lhash && s'.prev == s.prev
    decreases i
  {
    hide ApplyBody, Reverse8;
    if i > pos1 {
      SwapWorkStays(k, body, s, pos1, i - 1, pos2);
    }
  }

  /** After every byte of case 0 the ends have changed places, each reversed. */
  lemma SwapWorkSwaps(k: Prims, body: seq<Stmt>, s: St, pos1: nat, i: nat, pos2: nat)
    requires Whole(s) && pos1 < i <= pos2 < 256 && forall j :: 0 <= j < |body| ==> Proper(body[j])
    ensures var u, s' := Work(k, 0, body, s, pos1, i - 1, pos2), Work(k, 0, body, s, pos1, i, pos2);
            && s'.step[pos1] == Reverse8(u.step[pos2])
            && s'.step[pos2] == Reverse8(if i == pos1 + 1 then ApplyBody(body, u.step[pos1], u.step[pos2]) else u.step[pos1])
  {
    hide ApplyBody, Reverse8;
  }

  // ----- The rest of a round -----

  function Encrypt(k: Prims, rc4: seq<bv8>, step: seq<bv8>): (r: seq<bv8>)
    ensures |r| == |step|
  {
    seq(|step|, i requires 0 <= i < |step| => Xor(step[i], k.key(rc4, i)))
  }

  /** The threshold hashes and the cipher. */
  function Thresholds(k: Prims, s: St, tries: nat, pos1: nat, pos2: nat): (s': St)
    requires Whole(s) && pos1 <= pos2 < 256
    ensures Whole(s')
  {
    var a, b := s.step[pos1], s.step[pos2];
    var s1 := if Under(a, b, 0x10) then s.(prev := k.sum(s.lhash, s.prev), lhash := k.xx(s.step[..pos2])) else s;
    var s2 := if Under(a, b, 0x20) then s1.(prev := k.sum(s1.lhash, s1.prev), lhash := k.fnv(s.step[..pos2])) else s1;
    var s3 := if Under(a, b, 0x30) then
                var prev := k.sum(s2.lhash, s2.prev);
                s2.(prev := prev, lhash := k.sip(tries, prev, s.step[..pos2]))
              else s2;
    if UpTo(a, b, 0x40) then s3.(step := Encrypt(k, s3.rc4, s3.step), rc4 := k.advance(s3.rc4)) else s3
  }

  /** Encrypting twice with one key stream restores the table, and each entry is met by its own key byte. */
  lemma EncryptsEntries(k: Prims, rc4: seq<bv8>, step: seq<bv8>)
    ensures Encrypt(k, rc4, Encrypt(k, rc4, step)) == step
    ensures forall i :: 0 <= i < |step| ==> Xor(Encrypt(k, rc4, step)[i], step[i]) == k.key(rc4, i)
  {
    hide Xor;
    var e := Encrypt(k, rc4, step);
    forall i | 0 <= i < |step| ensures Xor(e[i], step[i]) == k.key(rc4, i) && Encrypt(k, rc4, e)[i] == step[i] {
      XorBack(step[i], k.key(rc4, i));
    }
  }

  lemma XorBack(x: bv8, y: bv8)
    ensures Xor(Xor(x, y), x) == y && Xor(Xor(x, y), y) == x
  {
  }

  /** What happens depends on the wrapped difference of the two ends: below 16 three hashes, below 32 two,
      below 48 one, and up to 64 the cipher, always in this order; above 64 nothing. */
  lemma ThresholdBands(k: Prims, s: St, tries: nat, pos1: nat, pos2: nat)
    requires Whole(s) && pos1 <= pos2 < 256
    ensures var d, s', text := s.step[pos1] - s.step[pos2], Thresholds(k, s, tries, pos1, pos2), s.step[..pos2];
            var p1 := k.sum(s.lhash, s.prev);
            var p2 := k.sum(k.xx(text), p1);
            var p3 := k.sum(k.fnv(text), p2);
            var q2 := k.sum(k.fnv(text), p1);
            && (d > 64 ==> s' == s)
            && (d <= 64 ==> s'.step == Encrypt(k, s.rc4, s.step) && s'.rc4 == k.advance(s.rc4))
            && (48 <= d <= 64 ==> s'.lhash == s.lhash && s'.prev == s.prev)
            && (32 <= d < 48 ==> s'.prev == p1 && s'.lhash == k.sip(tries, p1, text))
            && (16 <= d < 32 ==> s'.prev == q2 && s'.lhash == k.sip(tries, q2, text))
            && (d < 16 ==> s'.prev == p3 && s'.lhash == k.sip(tries, p3, text))
  {
    hide Encrypt;
  }

  function Last(step: seq<bv8>, pos1: nat, pos2: nat): (r: seq<bv8>)
    requires |step| == 256 && pos1 <= pos2 < 256
    ensures |r| == 256
  {
    step[255 := Xor(Xor(step[255], step[pos1]), step[pos2])]
  }

  /** Only the last entry changes, by the difference of the ends. */
  lemma LastFolds(step: seq<bv8>, pos1: nat, pos2: nat)
    requires |step| == 256 && pos1 <= pos2 < 256
    ensures var r := Last(step, pos1, pos2);
            r[..255] == step[..255] && Xor(r[255], step[255]) == Xor(step[pos1], step[pos2])
  {
    hide Xor;
    XorFolds(step[255], step[pos1], step[pos2]);
  }

  lemma XorFolds(x: bv8, a: bv8, b: bv8)
    ensures Xor(Xor(Xor(x, a), b), x) == Xor(a, b)
  {
  }

  function Rekeyed(k: Prims, c: byte, s: St): St {
    if c == 254 || c == 255 then s.(rc4 := k.rekey(s.step)) else s
  }

  function Round(k: Prims, bodies: Bodies, s: St, tries: nat): (s': St)
    requires Whole(s) && ProperBodies(bodies)
    ensures Whole(s')
  {
    var word := k.mix(s.prev, s.lhash, tries);
    var op, a, b := SwitchByte(word, 0), SwitchByte(word, 1), SwitchByte(word, 2);
    var pos1, pos2 := Low(a, b), High(a, b);
    var s1 := Work(k, op, bodies[op], Rekeyed(k, op, s), pos1, pos2, pos2);
    var s2 := Thresholds(k, s1, tries, pos1, pos2);
    s2.(step := Last(s2.step, pos1, pos2))
  }

  /** The state right before the thresholds. */
  function Worked(k: Prims, bodies: Bodies, s: St, tries: nat): (s': St)
    requires Whole(s) && ProperBodies(bodies)
    ensures Whole(s')
  {
    var word := k.mix(s.prev, s.lhash, tries);
    var op, a, b := SwitchByte(word, 0), SwitchByte(word, 1), SwitchByte(word, 2);
    Work(k, op, bodies[op], Rekeyed(k, op, s), Low(a, b), High(a, b), High(a, b))
  }

  /** The round runs the cipher over the table: its ends differ by at most 64 afterwards. */
  predicate Encrypts(k: Prims, bodies: Bodies, s: St, tries: nat)
    requires Whole(s) && ProperBodies(bodies)
  {
    var word, w := k.mix(s.prev, s.lhash, tries), Worked(k, bodies, s, tries);
    var a, b := SwitchByte(word, 1), SwitchByte(word, 2);
    UpTo(w.step[Low(a, b)], w.step[High(a, b)], 0x40)
  }

  /** In which of the first n rounds the cipher runs. */
  function Encrypted(k: Prims, bodies: Bodies, s: St, n: nat): (r: seq<bool>)
    requires Whole(s) && ProperBodies(bodies)
    ensures |r| == n
  {
    if n == 0 then [] else Encrypted(k, bodies, s, n - 1) + [Encrypts(k, bodies, After(k, bodies, s, n - 1), n)]
  }

  lemma {:induction false} EncryptedAt(k: Prims, bodies: Bodies, s: St, n: nat, t: nat)
    requires Whole(s) && ProperBodies(bodies) && t < n
    ensures Encrypted(k, bodies, s, n)[t] <==> Encrypts(k, bodies, After(k, bodies, s, t), t + 1)
    decreases n
  {
    hide Encrypts, After;
    if t < n - 1 {
      EncryptedAt(k, bodies, s, n - 1, t);
    }
  }

  /** A round of a case other than 0, 253, 254 and 255 whose ends differ by more than 64 afterwards: the bytes
      of its range have run the body of its case, the last byte is folded, and nothing else has changed. */
  lemma PlainRound(k: Prims, bodies: Bodies, s: St, tries: nat)
    requires Whole(s) && ProperBodies(bodies)
    ensures var word, w, s' := k.mix(s.prev, s.lhash, tries), Worked(k, bodies, s, tries), Round(k, bodies, s, tries);
            var op, a, b := SwitchByte(word, 0), SwitchByte(word, 1), SwitchByte(word, 2);
            var lo, end := Low(a, b), High(a, b);
            0 < op < 253 && w.step[lo] - w.step[end] > 64 ==>
              && (forall j :: 0 <= j < 256 ==>
                    w.step[j] == if lo <= j < end then ApplyBody(bodies[op], s.step[j], s.step[end]) else s.step[j])
              && s'.step[..255] == w.step[..255] && Xor(s'.step[255], w.step[255]) == Xor(w.step[lo], w.step[end])
              && s'.lhash == s.lhash && s'.prev == s.prev && s'.rc4 == s.rc4
  {
    hide *;
    PlainWork(k, bodies, s, tries);
    PlainEnd(k, bodies, s, tries);
  }

  /** The range in one formula. */
  lemma RangeEnds(a: byte, b: byte)
    ensures var lo, hi := if a < b then a else b, if a < b then b else a;
            Low(a, b) == lo && High(a, b) == if hi - lo <= 32 then hi else lo + (hi - lo) % 32
  {
  }

  lemma PlainWork(k: Prims, bodies: Bodies, s: St, tries: nat)
    requires Whole(s) && ProperBodies(bodies)
    ensures var word, w := k.mix(s.prev, s.lhash, tries), Worked(k, bodies, s, tries);
            var op, a, b := SwitchByte(word, 0), SwitchByte(word, 1), SwitchByte(word, 2);
            0 < op < 253 ==>
              && (forall j :: 0 <= j < 256 ==>
                    w.step[j] == if Low(a, b) <= j < High(a, b) then ApplyBody(bodies[op], s.step[j], s.step[High(a, b)]) else s.step[j])
              && w.lhash == s.lhash && w.prev == s.prev && w.rc4 == s.rc4
  {
    hide ApplyBody, Work, SwitchByte;
    var word := k.mix(s.prev, s.lhash, tries);
    var op, a, b := SwitchByte(word, 0), SwitchByte(word, 1), SwitchByte(word, 2);
    if 0 < op < 253 {
      WorkDone(k, op, bodies[op], s, Low(a, b), High(a, b), High(a, b));
    }
  }

  lemma PlainEnd(k: Prims, bodies: Bodies, s: St, tries: nat)
    requires Whole(s) && ProperBodies(bodies)
    ensures var word, w, s' := k.mix(s.prev, s.lhash, tries), Worked(k, bodies, s, tries), Round(k, bodies, s, tries);
            var lo, end := Low(SwitchByte(word, 1), SwitchByte(word, 2)), High(SwitchByte(word, 1), SwitchByte(word, 2));
            w.step[lo] - w.step[end] > 64 ==>
              && s'.step[..255] == w.step[..255] && Xor(s'.step[255], w.step[255]) == Xor(w.step[lo], w.step[end])
              && s'.lhash == w.lhash && s'.prev == w.prev && s'.rc4 == w.rc4
  {
    hide Xor, Work, Thresholds, Last, SwitchByte;
    var word, w := k.mix(s.prev, s.lhash, tries), Worked(k, bodies, s, tries);
    var lo, end := Low(SwitchByte(word, 1), SwitchByte(word, 2)), High(SwitchByte(word, 1), SwitchByte(word, 2));
    ThresholdBands(k, w, tries, lo, end);
    LastFolds(w.step, lo, end);
  }

  lemma SmallMod(x: nat, m: nat)
    requires x < m
    ensures x % m == x
  {
  }

  lemma WordBytesOf(word: nat)
    ensures SwitchByte(word, 0) == word % 256 && SwitchByte(word, 1) == word / 256 % 256
    ensures SwitchByte(word, 2) == word / 0x10000 % 256
  {
    assert SwitchByte(word, 1) == SwitchByte(word / 256, 0);
    assert SwitchByte(word, 2) == SwitchByte(word / 256, 1) == SwitchByte(word / 256 / 256, 0);
    assert word / 256 / 256 == word / 0x10000;
  }

  /** Cases 254 and 255, and no others, key the cipher with the table as it stands. */
  lemma RekeyCases(k: Prims, c: byte, s: St)
    ensures Rekeyed(k, c, s) == St(s.step, s.lhash, s.prev, if c < 254 then s.rc4 else k.rekey(s.step))
  {
  }

  // ----- The loop -----

  /** The table the input is expanded to, before it is encrypted with itself as the key. */
  function Expanded(k: Prims, input: seq<byte>): (step: seq<bv8>)
    ensures |step| == 256
  {
    seq(256, i requires 0 <= i < 256 => k.salsa(k.sha(input), i))
  }

  /** The state before the first round. */
  function Start(k: Prims, input: seq<byte>): (s: St)
    ensures Whole(s)
  {
    var step := Expanded(k, input);
    var rc4 := k.rekey(step);
    var table := Encrypt(k, rc4, step);
    St(table, k.fnv(table), k.fnv(table), k.advance(rc4))
  }

  /** Both hashes start as that of the table, which decrypts to the key stream of the input's digest under
      the key it was encrypted with. */
  lemma StartMeaning(k: Prims, input: seq<byte>)
    ensures var s, e := Start(k, input), seq(256, i requires 0 <= i < 256 => k.salsa(k.sha(input), i));
            && s.lhash == s.prev == k.fnv(s.step) && Encrypt(k, k.rekey(e), s.step) == e && s.rc4 == k.advance(k.rekey(e))
  {
    hide Encrypt;
    EncryptsEntries(k, k.rekey(Expanded(k, input)), Expanded(k, input));
  }

  predicate Stop(s: St, tries: nat)
    requires Whole(s)
  {
    tries > 260 + 16 || (s.step[255] >= 0xf0 && tries > 260)
  }

  /** From the 261st to the 276th round the loop stops exactly if the last entry's upper half is all ones;
      before it never does, afterwards always. */
  lemma StopMeaning(s: St, tries: nat)
    requires Whole(s)
    ensures tries <= 260 ==> !Stop(s, tries)
    ensures 261 <= tries <= 276 ==> (Stop(s, tries) <==> s.step[255] >> 4 == 15)
    ensures tries >= 277 ==> Stop(s, tries)
  {
  }

  /** The state after n rounds. */
  function After(k: Prims, bodies: Bodies, s: St, n: nat): (s': St)
    requires Whole(s) && ProperBodies(bodies)
    ensures Whole(s')
  {
    if n == 0 then s else Round(k, bodies, After(k, bodies, s, n - 1), n)
  }

  /** The chunks the first n rounds append to the stream. */
  function Stream(k: Prims, bodies: Bodies, s: St, n: nat): (r: seq<bv8>)
    requires Whole(s) && ProperBodies(bodies)
    ensures |r| == 256 * n
  {
    if n == 0 then [] else Stream(k, bodies, s, n - 1) + After(k, bodies, s, n).step
  }

  /** Chunk m of the stream is the table after round m. */
  lemma {:induction false} StreamChunks(k: Prims, bodies: Bodies, s: St, n: nat, m: nat)
    requires Whole(s) && ProperBodies(bodies) && 0 < m <= n
    ensures Stream(k, bodies, s, n)[256 * (m - 1)..256 * m] == After(k, bodies, s, m).step
    decreases n
  {
    hide Round;
    if m < n {
      StreamChunks(k, bodies, s, n - 1, m);
    }
  }

  /** n is the round the loop stops in. */
  ghost predicate StopsAt(k: Prims, bodies: Bodies, s: St, n: nat)
    requires Whole(s) && ProperBodies(bodies)
  {
    n > 0 && Stop(After(k, bodies, s, n), n) && forall m :: 0 < m < n ==> !Stop(After(k, bodies, s, m), m)
  }

  /** Exactly one round is the last, and it is between the 261st and the 277th. */
  lemma StopsOnce(k: Prims, bodies: Bodies, s: St, m: nat, n: nat)
    requires Whole(s) && ProperBodies(bodies) && StopsAt(k, bodies, s, n)
    ensures 261 <= n <= 277
    ensures StopsAt(k, bodies, s, m) ==> m == n
  {
    hide After;
    assert Stop(After(k, bodies, s, 277), 277);
  }

  /** The round the loop stops in. */
  function LastRound(k: Prims, bodies: Bodies, s: St): (n: nat)
    requires Whole(s) && ProperBodies(bodies)
    ensures StopsAt(k, bodies, s, n)
  {
    FirstStop(k, bodies, s, 1)
  }

  function FirstStop(k: Prims, bodies: Bodies, s: St, m: nat): (n: nat)
    requires Whole(s) && ProperBodies(bodies) && 0 < m <= 277
    requires forall i :: 0 < i < m ==> !Stop(After(k, bodies, s, i), i)
    ensures StopsAt(k, bodies, s, n)
    decreases 277 - m
  {
    if Stop(After(k, bodies, s, m), m) then m else FirstStop(k, bodies, s, m + 1)
  }

  /** The length drawn from the last state. */
  function DataLen(s: St, tries: nat): int
    requires Whole(s)
  {
    (tries - 4) * 256 + ((s.step[253] as int) * 256 + s.step[254] as int) % 0x400
  }

  /** Entry 254 and the low two bits of entry 253 spell what is added to four chunks less than were written. */
  lemma DataLenMeaning(s: St, tries: nat)
    requires Whole(s)
    ensures DataLen(s, tries) == 256 * (tries - 4) + 256 * (s.step[253] as int % 4) + s.step[254] as int
  {
    LowTenBits(s.step[253] as int, s.step[254] as int);
  }

  lemma LowTenBits(a: int, b: int)
    requires 0 <= b < 256
    ensures (a * 256 + b) % 0x400 == 256 * (a % 4) + b
  {
    assert a == 4 * (a / 4) + a % 4;
    var r := 256 * (a % 4) + b;
    assert a * 256 + b == 0x400 * (a / 4) + r && 0 <= r < 0x400;
  }

  /** The stream length: never beyond what the rounds of this very run have written, at most 70911, and
      never so short that the descriptor suffix array would decline. */
  lemma DataLenBounds(k: Prims, bodies: Bodies, s: St, n: nat)
    requires Whole(s) && ProperBodies(bodies) && StopsAt(k, bodies, s, n)
    ensures var len := DataLen(After(k, bodies, s, n), n);
            0 < len <= 70911 && len <= |Stream(k, bodies, s, n)| && 65792 <= len <= 0x20000
  {
    hide After, Stream;
    StopsOnce(k, bodies, s, n, n);
  }
}
