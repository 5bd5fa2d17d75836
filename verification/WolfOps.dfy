/** The thirteen byte operations of the hash front end, in the three forms the repository has: statements on
    a table entry (internal/astrobwt/pow.go), packed codes run on a byte (internal/astrobwt/wolftable.go),
    and the same codes run on masked 32-bit words (internal/gpu/wgsl/fronthalf.wgsl). */
module WolfOps {

  /** A statement of a case body; x is the byte worked on, p the byte at pos2. */
  datatype Stmt =
    | RotlK(k: nat)      // x = rotl8(x, k)
    | XorRotlK(k: nat)   // x ^= rotl8(x, k)
    | Shl | Shr          // x <<= x & 3, x >>= x & 3
    | XorP | AndP        // x ^= p, x &= p
    | Not | XorPop | Rev // x = ^x, x ^= popcount(x), x = reverse(x)
    | RotlX              // x = rotl8(x, x)
    | Add | Mul          // x += x, x *= x
    | Sub97              // x -= x ^ 97

  predicate Proper(s: Stmt) {
    (s.RotlK? || s.XorRotlK?) ==> s.k < 256
  }

  // ----- Bytes -----

  /** bits.RotateLeft8. */
  function Rotl8(x: bv8, r: bv8): bv8 {
    var k := r & 7;
    (x << k) | (x >> (8 - k))
  }

  function Bit(x: bv8, i: bv8): bv8
    requires i < 8
  {
    (x >> i) & 1
  }

  function PopCount8(x: bv8): bv8 {
    Bit(x, 0) + Bit(x, 1) + Bit(x, 2) + Bit(x, 3) + Bit(x, 4) + Bit(x, 5) + Bit(x, 6) + Bit(x, 7)
  }

  function Reverse8(x: bv8): bv8 {
    (Bit(x, 0) << 7) | (Bit(x, 1) << 6) | (Bit(x, 2) << 5) | (Bit(x, 3) << 4)
    | (Bit(x, 4) << 3) | (Bit(x, 5) << 2) | (Bit(x, 6) << 1) | Bit(x, 7)
  }

  /** The wrapped difference of two bytes is below a bound, or at most the bound. */
  predicate Under(a: bv8, b: bv8, bound: bv8) { a - b < bound }
  predicate UpTo(a: bv8, b: bv8, bound: bv8) { a - b <= bound }

  function ShiftLeft(x: bv8): bv8 { x << (x & 3) }
  function ShiftRight(x: bv8): bv8 { x >> (x & 3) }
  function Xor(x: bv8, p: bv8): bv8 { x ^ p }
  function And(x: bv8, p: bv8): bv8 { x & p }
  function Flip(x: bv8): bv8 { !x }
  function Double(x: bv8): bv8 { x + x }
  function Square(x: bv8): bv8 { x * x }
  function Minus97(x: bv8): bv8 { x - (x ^ 97) }

  /** What a statement makes of the byte x. */
  function Exec(s: Stmt, x: bv8, p: bv8): bv8
    requires Proper(s)
  {
    match s
    case RotlK(k) => Rotl8(x, k as bv8)
    case XorRotlK(k) => Xor(x, Rotl8(x, k as bv8))
    case Shl => ShiftLeft(x)
    case Shr => ShiftRight(x)
    case XorP => Xor(x, p)
    case AndP => And(x, p)
    case Not => Flip(x)
    case XorPop => Xor(x, PopCount8(x))
    case Rev => Reverse8(x)
    case RotlX => Rotl8(x, x)
    case Add => Double(x)
    case Mul => Square(x)
    case Sub97 => Minus97(x)
  }

  // ----- What the operations do, bit by bit -----

  /** A left rotation moves bit i to place i + r. */
  lemma RotationMovesBits(x: bv8, r: bv8, i: bv8)
    requires i < 8
    ensures Bit(Rotl8(x, r), (i + r) & 7) == Bit(x, i)
  {
  }

  lemma ReverseMovesBits(x: bv8, i: bv8)
    requires i < 8
    ensures Bit(Reverse8(x), 7 - i) == Bit(x, i)
  {
  }

  /** Clearing the lowest one bit takes one from the count. */
  lemma PopCountCounts(x: bv8)
    ensures PopCount8(0) == 0
    ensures x != 0 ==> PopCount8(x) == PopCount8(x & (x - 1)) + 1
  {
  }

  /** The shifts multiply and divide by two to the power of the low two bits. */
  lemma ShiftsScale(x: bv8)
    ensures ShiftLeft(x) == if x & 3 == 0 then x else if x & 3 == 1 then x + x else if x & 3 == 2 then x * 4 else x * 8
    ensures ShiftRight(x) == if x & 3 == 0 then x else if x & 3 == 1 then x / 2 else if x & 3 == 2 then x / 4 else x / 8
  {
  }

  /** Exclusive or takes the common bits from the union, which has them once and the sum twice. */
  lemma LogicAdds(x: bv8, p: bv8)
    ensures Xor(x, p) == (x | p) - And(x, p) && And(x, p) == x + p - (x | p)
  {
  }

  lemma ArithmeticUndone(x: bv8)
    ensures Flip(x) + x == 255 && Double(x) - x == x
    ensures Minus97(x) + Xor(x, 97) == x
  {
  }

  lemma SquareSteps(x: bv8)
    ensures Square(0) == 0 && Square(x + 1) - Square(x) == x + x + 1
  {
  }

  // ----- Packed codes -----

  function OpId(s: Stmt): nat {
    match s
    case RotlK(_) => 1
    case XorRotlK(_) => 2
    case Shl => 3
    case Shr => 4
    case XorP => 5
    case AndP => 6
    case Not => 7
    case XorPop => 8
    case Rev => 9
    case RotlX => 10
    case Add => 11
    case Mul => 12
    case Sub97 => 13
  }

  function Param(s: Stmt): nat {
    if s.RotlK? || s.XorRotlK? then s.k else 0
  }

  /** pack: the operation in the high byte, its parameter in the low one. */
  function Pack(s: Stmt): nat {
    OpId(s) * 256 + Param(s)
  }

  /** One step of wolfApplyByte. */
  function ApplyByte(op: nat, param: bv8, x: bv8, p: bv8): bv8 {
    if op == 1 then Rotl8(x, param)
    else if op == 2 then Xor(x, Rotl8(x, param))
    else if op == 3 then ShiftLeft(x)
    else if op == 4 then ShiftRight(x)
    else if op == 5 then Xor(x, p)
    else if op == 6 then And(x, p)
    else if op == 7 then Flip(x)
    else if op == 8 then Xor(x, PopCount8(x))
    else if op == 9 then Reverse8(x)
    else if op == 10 then Rotl8(x, x)
    else if op == 11 then Double(x)
    else if op == 12 then Square(x)
    else if op == 13 then Minus97(x)
    else x
  }

  /** A packed statement unpacks to its operation and parameter, and runs as the statement does. */
  lemma CodeRunsStatement(s: Stmt, x: bv8, p: bv8)
    requires Proper(s)
    ensures Pack(s) / 256 == OpId(s) && Pack(s) % 256 == Param(s) < 256
    ensures ApplyByte(Pack(s) / 256, (Pack(s) % 256) as bv8, x, p) == Exec(s, x, p)
  {
    hide Rotl8, PopCount8, Reverse8, ShiftLeft, ShiftRight, Xor, And, Flip, Double, Square, Minus97;
    assert Pack(s) / 256 == OpId(s) && Pack(s) % 256 == Param(s);
  }

  // ----- Integers -----

  /** Bitwise or; the second operand may be negative, in two's complement. */
  function Or(a: nat, b: int): int {
    if a == 0 then b else 2 * Or(a / 2, b / 2) + if a % 2 == 1 || b % 2 == 1 then 1 else 0
  }

  lemma OrDouble(a: nat, b: int)
    ensures Or(2 * a, b) == 2 * Or(a, b / 2) + b % 2
  {
  }

  lemma OrDoubles(a: nat, b: int)
    ensures Or(4 * a, b) == 4 * Or(a, b / 4) + b % 4
  {
    hide Or;
    OrDouble(2 * a, b);
    OrDouble(a, b / 2);
    assert b / 2 / 2 == b / 4;
  }

  lemma {:induction false} OrZero(a: nat)
    ensures Or(a, 0) == a
    decreases a
  {
    if a > 0 {
      OrZero(a / 2);
    }
  }

  lemma OrSeven(a: nat, b: nat)
    ensures Or(0x80 * a, b) == 0x80 * Or(a, b / 0x80) + b % 0x80
  {
    hide Or;
    var b1, b2, b3 := b / 4, b / 4 / 4, b / 4 / 4 / 4;
    OrDoubles(32 * a, b);
    OrDoubles(8 * a, b1);
    OrDoubles(2 * a, b2);
    OrDouble(a, b3);
    SevenBits(b);
  }

  lemma SevenBits(b: nat)
    ensures var b1, b2, b3 := b / 4, b / 4 / 4, b / 4 / 4 / 4;
            b3 / 2 == b / 0x80 && b % 0x80 == 64 * (b3 % 2) + 16 * (b2 % 4) + 4 * (b1 % 4) + b % 4
  {
    var b1, b2, b3 := b / 4, b / 4 / 4, b / 4 / 4 / 4;
    var low := 64 * (b3 % 2) + 16 * (b2 % 4) + 4 * (b1 % 4) + b % 4;
    assert b == 0x80 * (b3 / 2) + low && 0 <= low < 0x80;
  }

  lemma {:induction false} OrBounds(a: nat, b: nat)
    ensures a <= Or(a, b) <= a + b && b <= Or(a, b)
    decreases a
  {
    if a > 0 {
      OrBounds(a / 2, b / 2);
    }
  }

  // ----- Masked words -----

  /** A byte in a 32-bit word. */
  function Wide(x: bv8): bv32 {
    x as bv32
  }

  function Rotl32(x: bv32, r: bv32): bv32 {
    var k := r & 7;
    ((x << k) | (x >> (8 - k))) & 0xff
  }

  /** countOneBits of a masked word. */
  function Bit32(x: bv32, i: bv32): bv32
    requires i < 32
  {
    (x >> i) & 1
  }

  function CountOneBits(x: bv32): bv32 {
    Bit32(x, 0) + Bit32(x, 1) + Bit32(x, 2) + Bit32(x, 3) + Bit32(x, 4) + Bit32(x, 5) + Bit32(x, 6) + Bit32(x, 7)
    + Bit32(x, 8) + Bit32(x, 9) + Bit32(x, 10) + Bit32(x, 11) + Bit32(x, 12) + Bit32(x, 13) + Bit32(x, 14) + Bit32(x, 15)
    + Bit32(x, 16) + Bit32(x, 17) + Bit32(x, 18) + Bit32(x, 19) + Bit32(x, 20) + Bit32(x, 21) + Bit32(x, 22) + Bit32(x, 23)
    + Bit32(x, 24) + Bit32(x, 25) + Bit32(x, 26) + Bit32(x, 27) + Bit32(x, 28) + Bit32(x, 29) + Bit32(x, 30) + Bit32(x, 31)
  }

  /** reverseBits: swap halves, bytes, nibbles, pairs and neighbours. */
  function ReverseBits(x: bv32): bv32 {
    var a := (x << 16) | (x >> 16);
    var b := ((a & 0x00ff00ff) << 8) | ((a >> 8) & 0x00ff00ff);
    var c := ((b & 0x0f0f0f0f) << 4) | ((b >> 4) & 0x0f0f0f0f);
    var d := ((c & 0x33333333) << 2) | ((c >> 2) & 0x33333333);
    ((d & 0x55555555) << 1) | ((d >> 1) & 0x55555555)
  }

  function Rev32(x: bv32): bv32 {
    (ReverseBits(x & 0xff) >> 24) & 0xff
  }

  function ShiftLeft32(x: bv32): bv32 { (x << (x & 3)) & 0xff }
  function ShiftRight32(x: bv32): bv32 { x >> (x & 3) }
  function Xor32(x: bv32, p: bv32): bv32 { x ^ p }
  function And32(x: bv32, p: bv32): bv32 { x & p }
  function Flip32(x: bv32): bv32 { (!x) & 0xff }
  function PopCount32(x: bv32): bv32 { CountOneBits(x & 0xff) }
  function Double32(x: bv32): bv32 { (x + x) & 0xff }
  function Square32(x: bv32): bv32 { (x * x) & 0xff }
  function Minus97Of32(x: bv32): bv32 { (x - (x ^ 97)) & 0xff }

  /** One step of fh_wolfApply. */
  function ApplyWide(op: nat, param: bv32, x: bv32, p: bv32): bv32 {
    if op == 1 then Rotl32(x, param)
    else if op == 2 then Xor32(x, Rotl32(x, param))
    else if op == 3 then ShiftLeft32(x)
    else if op == 4 then ShiftRight32(x)
    else if op == 5 then Xor32(x, p)
    else if op == 6 then And32(x, p)
    else if op == 7 then Flip32(x)
    else if op == 8 then Xor32(x, PopCount32(x))
    else if op == 9 then Rev32(x)
    else if op == 10 then Rotl32(x, x)
    else if op == 11 then Double32(x)
    else if op == 12 then Square32(x)
    else if op == 13 then Minus97Of32(x)
    else x
  }

  lemma RotlWide(x: bv8, r: bv8)
    ensures Rotl32(Wide(x), Wide(r)) == Wide(Rotl8(x, r))
  {
  }

  lemma ReverseWide(x: bv8)
    ensures Rev32(Wide(x)) == Wide(Reverse8(x))
  {
  }

  lemma PopCountWide(x: bv8)
    ensures PopCount32(Wide(x)) == Wide(PopCount8(x))
  {
  }

  lemma ShiftsWide(x: bv8)
    ensures ShiftLeft32(Wide(x)) == Wide(ShiftLeft(x))
    ensures ShiftRight32(Wide(x)) == Wide(ShiftRight(x))
  {
  }

  lemma LogicWide(x: bv8, p: bv8)
    ensures Xor32(Wide(x), Wide(p)) == Wide(Xor(x, p))
    ensures And32(Wide(x), Wide(p)) == Wide(And(x, p))
    ensures Flip32(Wide(x)) == Wide(Flip(x))
  {
  }

  lemma ArithmeticWide(x: bv8)
    ensures Double32(Wide(x)) == Wide(Double(x))
    ensures Minus97Of32(Wide(x)) == Wide(Minus97(x))
  {
  }

  lemma SquareWide(x: bv8)
    ensures Square32(Wide(x)) == Wide(Square(x))
  {
  }

  /** The masked word form computes the byte form. */
  lemma WideRunsCode(op: nat, param: bv8, x: bv8, p: bv8)
    ensures ApplyWide(op, Wide(param), Wide(x), Wide(p)) == Wide(ApplyByte(op, param, x, p))
  {
    hide Rotl8, Rotl32, PopCount8, PopCount32, Reverse8, Rev32, Wide, ShiftLeft, ShiftRight, Xor, And, Flip, Double, Square,
         Minus97, ShiftLeft32, ShiftRight32, Xor32, And32, Flip32, Double32, Square32, Minus97Of32;
    RotlWide(x, param);
    LogicWide(x, Rotl8(x, param));
    ShiftsWide(x);
    LogicWide(x, p);
    PopCountWide(x);
    LogicWide(x, PopCount8(x));
    ReverseWide(x);
    RotlWide(x, x);
    ArithmeticWide(x);
    SquareWide(x);
  }
}
