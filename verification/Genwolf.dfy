/** The table compiler (cmd/genwolf/main.go): it turns the statements of a case body into packed codes.  For
    every statement it classifies, it is decided exactly when the code does to a byte what the statement
    does; bodies of such statements keep their meaning. */
module Genwolf {
  import opened WolfOps
  import opened WolfLoop
  import opened WolfStreams

  // ----- Statements of the parsed source -----

  datatype BinOp = XorOp | AndOp | OrOp | AndNotOp | ShlOp | ShrOp | AddOp | SubOp | MulOp

  /** Byte expressions over x, the entry worked on, and p, the entry at pos2.  Literals keep their spelling. */
  datatype Expr =
    | X | P | Lit(text: string)
    | Invert(e: Expr) | Bin(op: BinOp, l: Expr, r: Expr) | Paren(e: Expr)
    | OnesCount(e: Expr) | ReverseOf(e: Expr) | RotateLeft(e: Expr, count: Count)

  /** Expressions of type int, for rotation counts. */
  datatype Count = Number(text: string) | Negated(c: Count) | Positive(c: Count) | Grouped(c: Count) | IntOf(e: Expr) | Total(a: Count, b: Count)

  /** A plain assignment or one with an operator. */
  datatype Token = Assign | With(op: BinOp)

  /** How a nested statement runs its body: once, if two values are equal, or a number of times. */
  datatype Nesting = Block | IfEqual(l: Expr, r: Expr) | Times(n: nat)

  datatype GoStmt =
    | Update(tok: Token, rhs: Expr) // an assignment to step_3[i]
    | Respelled(tok: Token, rhs: Expr) // the same with another spelling of the left side, as (step_3[i])
    | Nested(how: Nesting, inner: seq<GoStmt>) // a block, an if or a loop
    | Bump(up: bool)                // step_3[i]++ or step_3[i]--
    | SwapBoth                      // the two-sided assignment of case 0
    | PairAssign(first: Expr)       // any other one that assigns to step_3[i]
    | HashUpdate                    // lhash or prev_lhash, case 253
    | OtherStmt                     // anything that leaves the two entries alone

  // ----- Literals -----

  function DigitOf(c: char): nat {
    if '0' <= c <= '9' then c as int - '0' as int
    else if 'a' <= c <= 'f' then c as int - 'a' as int + 10
    else if 'A' <= c <= 'F' then c as int - 'A' as int + 10
    else 0
  }

  function InBase(t: string, base: nat): nat {
    if t == [] then 0
    else if t[|t| - 1] == '_' then InBase(t[..|t| - 1], base)
    else InBase(t[..|t| - 1], base) * base + DigitOf(t[|t| - 1])
  }

  /** What an integer literal of the language stands for: a leading zero makes it octal. */
  function LiteralValue(t: string): nat {
    if |t| >= 2 && t[0] == '0' then
      if t[1] in "xX" then InBase(t[2..], 16)
      else if t[1] in "bB" then InBase(t[2..], 2)
      else if t[1] in "oO" then InBase(t[2..], 8)
      else InBase(t[1..], 8)
    else InBase(t, 10)
  }

  datatype Maybe = None | Some(value: int)

  /** strconv.Atoi on a printed count: an optional sign and decimal digits, within 64 bits. */
  function Atoi(c: Count): Maybe {
    match c
    case Number(t) => if IsDecimal(t) && InBase(t, 10) < 0x8000000000000000 then Some(InBase(t, 10)) else None
    case Positive(Number(t)) => if IsDecimal(t) && InBase(t, 10) < 0x8000000000000000 then Some(InBase(t, 10)) else None
    case Negated(Number(t)) => if IsDecimal(t) && InBase(t, 10) <= 0x8000000000000000 then Some(-(InBase(t, 10) as int)) else None
    case _ => None
  }

  predicate IsDecimal(t: string) {
    t != [] && forall i :: 0 <= i < |t| ==> '0' <= t[i] <= '9'
  }

  // ----- What statements mean -----

  function Low8(k: int): bv8 {
    (k % 256) as bv8
  }

  function Combine(op: BinOp, a: bv8, b: bv8): bv8 {
    match op
    case XorOp => a ^ b
    case AndOp => a & b
    case OrOp => a | b
    case AndNotOp => a & !b
    case ShlOp => if b < 8 then a << b else 0
    case ShrOp => if b < 8 then a >> b else 0
    case AddOp => a + b
    case SubOp => a - b
    case MulOp => a * b
  }

  /** Exclusive or and conjunction split a union. */
  lemma UnionSplits(a: bv8, b: bv8)
    ensures Combine(XorOp, a, b) | Combine(AndOp, a, b) == Combine(OrOp, a, b)
    ensures Combine(XorOp, a, b) & Combine(AndOp, a, b) == 0
  {
  }

  /** Conjunction is the largest part of both, and the complement leaves the rest. */
  lemma ConjunctionSplits(a: bv8, b: bv8)
    ensures Combine(AndNotOp, a, b) | Combine(AndOp, a, b) == a && Combine(AndNotOp, a, b) & b == 0
    ensures Combine(AndOp, a, b) | b == b
  {
  }

  lemma SumMeaning(a: bv8, b: bv8)
    ensures Combine(AddOp, a, b) - b == a && Combine(SubOp, a, b) + b == a
  {
  }

  lemma ProductMeaning(a: bv8, b: bv8)
    ensures Combine(MulOp, a, 0) == 0 && Combine(MulOp, a, b + 1) == Combine(MulOp, a, b) + a
  {
  }

  lemma ShlMeaning(a: bv8, b: bv8)
    ensures Combine(ShlOp, a, 0) == a
    ensures b < 255 ==> Combine(ShlOp, a, b + 1) == Combine(ShlOp, a, b) << 1
  {
  }

  lemma ShrMeaning(a: bv8, b: bv8)
    ensures Combine(ShrOp, a, 0) == a
    ensures b < 255 ==> Combine(ShrOp, a, b + 1) == Combine(ShrOp, a, b) >> 1
  {
  }

  /** The byte operators of the source language, by what undoes or repeats them. */
  lemma OperatorMeaning(a: bv8, b: bv8)
    ensures Combine(XorOp, a, b) | Combine(AndOp, a, b) == Combine(OrOp, a, b)
    ensures Combine(AndNotOp, a, b) | Combine(AndOp, a, b) == a && Combine(AndNotOp, a, b) & b == 0 && Combine(AndOp, a, b) | b == b
    ensures Combine(AddOp, a, b) - b == a && Combine(SubOp, a, b) + b == a
    ensures Combine(MulOp, a, 0) == 0 && Combine(MulOp, a, b + 1) == Combine(MulOp, a, b) + a
    ensures Combine(ShlOp, a, 0) == a == Combine(ShrOp, a, 0)
    ensures b < 255 ==> Combine(ShlOp, a, b + 1) == Combine(ShlOp, a, b) << 1 && Combine(ShrOp, a, b + 1) == Combine(ShrOp, a, b) >> 1
  {
    hide Combine;
    UnionSplits(a, b);
    ConjunctionSplits(a, b);
    SumMeaning(a, b);
    ProductMeaning(a, b);
    ShlMeaning(a, b);
    ShrMeaning(a, b);
  }

  /** Byte arithmetic of the source language: it wraps, and a shift by eight or more leaves nothing. */
  function Eval(e: Expr, x: bv8, p: bv8): bv8 {
    match e
    case X => x
    case P => p
    case Lit(t) => Low8(LiteralValue(t))
    case Invert(a) => Flip(Eval(a, x, p))
    case Paren(a) => Eval(a, x, p)
    case OnesCount(a) => PopCount8(Eval(a, x, p))
    case ReverseOf(a) => Reverse8(Eval(a, x, p))
    case RotateLeft(a, n) => Rotl8(Eval(a, x, p), CountByte(n, x, p))
    case Bin(op, l, r) => Combine(op, Eval(l, x, p), Eval(r, x, p))
  }

  /** The low byte of a count; a rotation looks at no more. */
  function CountByte(c: Count, x: bv8, p: bv8): bv8 {
    match c
    case Number(t) => Low8(LiteralValue(t))
    case Negated(a) => 0 - CountByte(a, x, p)
    case Positive(a) => CountByte(a, x, p)
    case Grouped(a) => CountByte(a, x, p)
    case IntOf(e) => Eval(e, x, p)
    case Total(a, b) => CountByte(a, x, p) + CountByte(b, x, p)
  }

  /** An assignment of y to the entry x. */
  function Store(tok: Token, x: bv8, y: bv8): bv8 {
    if tok.With? then Combine(tok.op, x, y) else y
  }

  /** What a statement makes of the entry worked on. */
  function RunStmt(s: GoStmt, x: bv8, p: bv8): bv8
    decreases s, 0
  {
    match s
    case Update(tok, rhs) => Store(tok, x, Eval(rhs, x, p))
    case Respelled(tok, rhs) => Store(tok, x, Eval(rhs, x, p))
    case Nested(Block, inner) => RunAll(inner, x, p)
    case Nested(IfEqual(l, r), inner) => if Eval(l, x, p) == Eval(r, x, p) then RunAll(inner, x, p) else x
    case Nested(Times(n), inner) => RunTimes(inner, n, x, p)
    case Bump(up) => if up then x + 1 else x - 1
    case PairAssign(first) => Eval(first, x, p)
    case _ => x
  }

  function RunAll(ss: seq<GoStmt>, x: bv8, p: bv8): bv8
    decreases ss, 0
  {
    if ss == [] then x else RunStmt(ss[|ss| - 1], RunAll(ss[..|ss| - 1], x, p), p)
  }

  function RunTimes(ss: seq<GoStmt>, n: nat, x: bv8, p: bv8): bv8
    decreases ss, n + 1
  {
    if n == 0 then x else RunAll(ss, RunTimes(ss, n - 1, x, p), p)
  }

  // ----- Classification -----

  /** pack. */
  function PackInt(op: nat, param: int): int {
    Or(op * 256, param)
  }

  const MASK3: Expr := Paren(Bin(AndOp, X, Lit("3")))

  /** The right-hand sides the compiler knows; a rotation comes with its count as Atoi reads it and as the
      language does. */
  datatype Shape = Fixed(f: Stmt) | Rotation(k: int, g: bv8) | XorRotation(k: int, g: bv8) | Unknown

  predicate Plain(f: Stmt) {
    f.Not? || f.XorP? || f.AndP? || f.XorPop? || f.Rev? || f.RotlX? || f.Shl? || f.Shr?
  }

  function ShapeOf(rhs: Expr): (shape: Shape)
    ensures shape.Fixed? ==> Plain(shape.f)
  {
    if rhs == Invert(X) then Fixed(Not)
    else if rhs == Bin(XorOp, X, P) then Fixed(XorP)
    else if rhs == Bin(AndOp, X, P) then Fixed(AndP)
    else if rhs == Bin(XorOp, X, OnesCount(X)) then Fixed(XorPop)
    else if rhs == ReverseOf(X) then Fixed(Rev)
    else if rhs == RotateLeft(X, IntOf(X)) then Fixed(RotlX)
    else if rhs == Bin(ShlOp, X, MASK3) then Fixed(Shl)
    else if rhs == Bin(ShrOp, X, MASK3) then Fixed(Shr)
    else if rhs.RotateLeft? && rhs.e == X && Atoi(rhs.count).Some? then
      Rotation(Atoi(rhs.count).value, CountByte(rhs.count, 0, 0))
    else if rhs.Bin? && rhs.op == XorOp && rhs.l == X && rhs.r.RotateLeft? && rhs.r.e == X && Atoi(rhs.r.count).Some? then
      XorRotation(Atoi(rhs.r.count).value, CountByte(rhs.r.count, 0, 0))
    else Unknown
  }

  datatype Class = Code(code: int) | Skipped | Special | Unclassified

  /** classifyStmt.  Three tokens decide alone; with any other one only the right-hand side does.  Statements
      that are no assignment, or not to step_3[i] in this spelling, are skipped. */
  function ClassifyStmt(s: GoStmt): Class {
    match s
    case OtherStmt => Skipped
    case Respelled(_, _) => Skipped
    case Nested(_, _) => Skipped
    case Bump(_) => Skipped
    case SwapBoth => Special
    case PairAssign(_) => Special
    case HashUpdate => Skipped
    case Update(With(AddOp), _) => Code(PackInt(11, 0))
    case Update(With(MulOp), _) => Code(PackInt(12, 0))
    case Update(With(SubOp), _) => Code(PackInt(13, 0))
    case Update(_, rhs) =>
      match ShapeOf(rhs)
      case Fixed(f) => Code(PackInt(OpId(f), 0))
      case Rotation(k, _) => Code(PackInt(1, k))
      case XorRotation(k, _) => Code(PackInt(2, k))
      case Unknown => Unclassified
  }

  /** What the table makes of a byte.  A negative code never reaches it. */
  function RunCode(code: int, x: bv8, p: bv8): bv8 {
    if code < 0 then x else ApplyByte(code / 256, Low8(code), x, p)
  }

  function Effect(c: Class, x: bv8, p: bv8): bv8 {
    if c.Code? then RunCode(c.code, x, p) else x
  }

  /** The table's entries have sixteen bits: a larger one is not accepted by the language. */
  predicate Fits(c: Class) {
    c.Code? ==> c.code < 0x10000
  }

  /** The statement is compiled to something that does what it does. */
  ghost predicate Agrees(s: GoStmt) {
    var c := ClassifyStmt(s);
    Fits(c) && forall x, p :: RunStmt(s, x, p) == Effect(c, x, p)
  }

  // ----- When compiling is right -----

  /** The rotation's code still names the rotation. */
  predicate Kept(shape: Shape) {
    match shape
    case Rotation(k, _) => 0 <= k < 512
    case XorRotation(k, _) => 0 <= k < 256 || 512 <= k < 768
    case _ => true
  }

  /** The rotation's code is dropped, or names an operation the interpreter does not have. */
  predicate Idle(shape: Shape) {
    match shape
    case Rotation(k, _) => k < 0 || 14 * 256 <= k < 0x10000
    case XorRotation(k, _) => k < 0 || 12 * 256 <= k < 0x10000
    case _ => false
  }

  function Turn(k: int): bv8 {
    Low8(k) & 7
  }

  function LowBit(x: bv8): bv8 {
    x & (0 - x)
  }

  /** A token that decides nothing by itself. */
  predicate ByShape(tok: Token) {
    tok != With(AddOp) && tok != With(SubOp) && tok != With(MulOp)
  }

  /** With such a token. */
  predicate ShapeAccurate(tok: Token, shape: Shape) {
    match shape
    case Fixed(f) => tok == Assign || (tok == With(AndOp) && f == AndP)
    case Rotation(k, g) =>
      if tok == Assign then (Kept(shape) && Turn(k) == g & 7) || (Idle(shape) && g & 7 == 0)
      else (tok == With(AndOp) || tok == With(OrOp)) && g & 7 == 0 && (Idle(shape) || (Kept(shape) && Turn(k) == 0))
    case XorRotation(k, g) =>
      if tok == Assign then Kept(shape) && Turn(k) == g & 7
      else if tok == With(AndOp) then Kept(shape) && Turn(k) == 0 && g & 7 == 0
      else Idle(shape) && g & 7 == 0
    case Unknown => false
  }

  /** With one of the other three, y being the value of the right-hand side. */
  predicate CompoundAccurate(op: BinOp, x: bv8, y: bv8) {
    if op == AddOp then y == x
    else if op == SubOp then y == x ^ 97
    else LowBit(x) * (y - x) == 0
  }

  /** The body of a nested statement leaves the entry alone where it runs. */
  ghost predicate DoesNothing(how: Nesting, inner: seq<GoStmt>) {
    if how.Block? then forall x, p :: RunAll(inner, x, p) == x
    else if how.IfEqual? then forall x, p :: Eval(how.l, x, p) == Eval(how.r, x, p) ==> RunAll(inner, x, p) == x
    else forall x, p :: RunTimes(inner, how.n, x, p) == x
  }

  /** When a statement is compiled right, by its token, its right-hand side and the spelling of its count. */
  ghost predicate Accurate(s: GoStmt) {
    match s
    case Update(tok, rhs) =>
      if ByShape(tok) then ShapeAccurate(tok, ShapeOf(rhs)) else forall x, p :: CompoundAccurate(tok.op, x, Eval(rhs, x, p))
    case Respelled(tok, rhs) => forall x, p :: Store(tok, x, Eval(rhs, x, p)) == x
    case Nested(how, inner) => DoesNothing(how, inner)
    case Bump(_) => false
    case PairAssign(first) => forall x, p :: Eval(first, x, p) == x
    case _ => true
  }

  // ----- Codes -----

  /** The parameter stays in the low byte; above it the operation meets what does not fit. */
  lemma PackSplits(op: nat, param: int)
    ensures PackInt(op, param) == Or(op, param / 256) * 256 + param % 256
  {
    hide Or;
    OrDoubles(op * 64, param);
    OrDoubles(op * 16, param / 4);
    OrDoubles(op * 4, param / 16);
    OrDoubles(op, param / 64);
    QuarterQuotient(param);
    QuarterQuotient(param / 4);
    QuarterQuotient(param / 16);
  }

  lemma QuarterQuotient(b: int)
    ensures b == 4 * (b / 4) + b % 4 && b / 4 / 4 == b / 16 && b / 4 / 16 == b / 64 && b / 4 / 64 == b / 256
  {
  }

  /** The operation a rotation by k is compiled to; zero stands for none. */
  function OpOf(op: nat, k: int): (r: int)
    requires op == 1 || op == 2
  {
    var h := k / 256;
    if k < 0 then 0
    else if op == 1 then if h % 2 == 0 then h + 1 else h
    else if h / 2 % 2 == 0 then h + 2 else h
  }

  lemma RotationCode(op: nat, k: int, x: bv8, p: bv8)
    requires op == 1 || op == 2
    ensures OpOf(op, k) >= 0
    ensures RunCode(PackInt(op, k), x, p) == ApplyByte(OpOf(op, k), Low8(k), x, p)
    ensures PackInt(op, k) < 0x10000 <==> k < 0x10000
  {
    hide ApplyByte, PackInt, OpOf;
    CodeParts(op, k);
    if k < 0 {
      NoOperation(0, Low8(k), x, p);
    }
  }

  lemma CodeParts(op: nat, k: int)
    requires op == 1 || op == 2
    ensures var c, r := PackInt(op, k), OpOf(op, k);
            && c % 256 == k % 256 && (c < 0 <==> k < 0) && (c < 0x10000 <==> k < 0x10000)
            && (if k < 0 then r == 0 else r > 0 && c / 256 == r)
  {
    hide PackInt, Or;
    var h := k / 256;
    SmallOr(op, h);
    PackSplits(op, k);
    OpBound(op, h);
    Bytewise(Or(op, h), k % 256);
    Bytewise(h, k % 256);
  }

  lemma Bytewise(high: int, low: int)
    requires 0 <= low < 256
    ensures var n := high * 256 + low;
            n / 256 == high && n % 256 == low && (n < 0 <==> high < 0) && (n < 0x10000 <==> high < 256)
  {
  }

  lemma OpBound(op: nat, h: int)
    requires op == 1 || op == 2
    ensures var o := if op == 1 then h + 1 - h % 2 else h + 2 - 2 * (h / 2 % 2);
            (o < 0 <==> h < 0) && (o < 256 <==> h < 256) && (h >= 0 ==> o == OpOf(op, h * 256))
  {
  }

  lemma SmallOr(op: nat, h: int)
    requires op == 1 || op == 2
    ensures Or(op, h) == if op == 1 then h + 1 - h % 2 else h + 2 - 2 * (h / 2 % 2)
  {
    OrDouble(0, h);
    OrDouble(1, h);
    OrDouble(0, h / 2);
  }

  lemma NoOperation(op: nat, k: bv8, x: bv8, p: bv8)
    requires op == 0 || op >= 14
    ensures ApplyByte(op, k, x, p) == x
  {
  }

  // ----- Deciding by a few bytes -----

  function Turned(mixed: bool, x: bv8, g: bv8): bv8 {
    if mixed then Xor(x, Rotl8(x, g)) else Rotl8(x, g)
  }

  /** The statement with a rotation by g and the operation with parameter k do the same to a byte. */
  predicate Same(tok: Token, mixed: bool, op: nat, k: bv8, g: bv8, x: bv8, p: bv8) {
    Store(tok, x, Turned(mixed, x, g)) == ApplyByte(op, k, x, p)
  }

  predicate Absent(op: nat) { op == 0 || op >= 14 }

  predicate RotationFits(tok: Token, op: nat, k: bv8, g: bv8) {
    if tok == Assign then (op == 1 && k & 7 == g & 7) || (Absent(op) && g & 7 == 0)
    else (tok == With(AndOp) || tok == With(OrOp)) && g & 7 == 0 && (Absent(op) || (op == 1 && k & 7 == 0))
  }

  /** The statement and the operation do the same to a few bytes. */
  predicate SameOnFew(tok: Token, mixed: bool, op: nat, k: bv8, g: bv8) {
    && Same(tok, mixed, op, k, g, 0, 1) && Same(tok, mixed, op, k, g, 1, 0) && Same(tok, mixed, op, k, g, 2, 0)
    && Same(tok, mixed, op, k, g, 3, 0) && Same(tok, mixed, op, k, g, 128, 0)
    && Same(tok, mixed, op, k, g, 255, 0) && Same(tok, mixed, op, k, g, 255, 255)
  }

  lemma AssignDecided(op: nat, k: bv8, g: bv8)
    requires (Absent(op) || op % 2 == 1) && SameOnFew(Assign, false, op, k, g)
    ensures RotationFits(Assign, op, k, g)
  {
  }

  lemma RotationDecided(op2: BinOp, op: nat, k: bv8, g: bv8)
    requires ByShape(With(op2)) && (Absent(op) || op % 2 == 1) && SameOnFew(With(op2), false, op, k, g)
    ensures RotationFits(With(op2), op, k, g)
  {
  }

  lemma Turns(x: bv8, k: bv8, g: bv8)
    ensures k & 7 == g & 7 ==> Rotl8(x, k) == Rotl8(x, g)
    ensures g & 7 == 0 ==> Rotl8(x, g) == x
  {
  }

  lemma RotationRight(tok: Token, op: nat, k: bv8, g: bv8, x: bv8, p: bv8)
    requires ByShape(tok) && RotationFits(tok, op, k, g)
    ensures Same(tok, false, op, k, g, x, p)
  {
    hide Rotl8, Xor;
    Turns(x, k, g);
    Turns(x, g, k);
    if Absent(op) {
      NoOperation(op, k, x, p);
    }
  }

  predicate MixedFits(tok: Token, op: nat, k: bv8, g: bv8) {
    if tok == Assign then op == 2 && k & 7 == g & 7
    else if tok == With(AndOp) then op == 2 && k & 7 == 0 && g & 7 == 0
    else Absent(op) && g & 7 == 0
  }

  lemma MixedAssignDecided(op: nat, k: bv8, g: bv8)
    requires (Absent(op) || op in {2, 3, 6, 7, 10, 11}) && SameOnFew(Assign, true, op, k, g)
    ensures MixedFits(Assign, op, k, g)
  {
  }

  lemma MixedDecided(op2: BinOp, op: nat, k: bv8, g: bv8)
    requires ByShape(With(op2)) && (Absent(op) || op in {2, 3, 6, 7, 10, 11}) && SameOnFew(With(op2), true, op, k, g)
    ensures MixedFits(With(op2), op, k, g)
  {
  }

  lemma MixedRight(tok: Token, op: nat, k: bv8, g: bv8, x: bv8, p: bv8)
    requires ByShape(tok) && MixedFits(tok, op, k, g)
    ensures Same(tok, true, op, k, g, x, p)
  {
    hide Rotl8, Xor;
    Turns(x, k, g);
    Turns(x, g, k);
    Cancels(x);
    if Absent(op) {
      NoOperation(op, k, x, p);
    }
  }

  lemma Cancels(x: bv8)
    ensures Xor(x, x) == 0
  {
  }

  predicate FixedFits(tok: Token, f: Stmt) {
    tok == Assign || (tok == With(AndOp) && f == AndP)
  }

  predicate FixedSameOnFew(tok: Token, f: Stmt)
    requires Proper(f)
  {
    && Store(tok, 0, Exec(f, 0, 1)) == Exec(f, 0, 1) && Store(tok, 1, Exec(f, 1, 0)) == Exec(f, 1, 0)
    && Store(tok, 1, Exec(f, 1, 1)) == Exec(f, 1, 1) && Store(tok, 2, Exec(f, 2, 0)) == Exec(f, 2, 0)
    && Store(tok, 0, Exec(f, 0, 0)) == Exec(f, 0, 0) && Store(tok, 5, Exec(f, 5, 0)) == Exec(f, 5, 0)
  }

  lemma FixedDecided(tok: Token, f: Stmt)
    requires ByShape(tok) && Plain(f)
    requires FixedSameOnFew(tok, f)
    ensures FixedFits(tok, f)
  {
  }

  lemma FixedRight(tok: Token, f: Stmt, x: bv8, p: bv8)
    requires ByShape(tok) && Plain(f) && FixedFits(tok, f)
    ensures Store(tok, x, Exec(f, x, p)) == Exec(f, x, p)
  {
  }

  // ----- Every statement -----

  lemma FixedCode(f: Stmt, x: bv8, p: bv8)
    requires !f.RotlK? && !f.XorRotlK?
    ensures PackInt(OpId(f), 0) == OpId(f) * 256 && RunCode(PackInt(OpId(f), 0), x, p) == Exec(f, x, p)
  {
    hide Rotl8, PopCount8, Reverse8, ShiftLeft, ShiftRight, Xor, And, Flip, Double, Square, Minus97, Or;
    OrZero(OpId(f) * 256);
  }

  lemma ByteForms(x: bv8, p: bv8)
    ensures Combine(ShlOp, x, Combine(AndOp, x, 3)) == ShiftLeft(x)
    ensures Combine(ShrOp, x, Combine(AndOp, x, 3)) == ShiftRight(x)
    ensures Combine(XorOp, x, p) == Xor(x, p) && Combine(AndOp, x, p) == And(x, p)
  {
  }

  lemma LiteralThree()
    ensures LiteralValue("3") == 3 && Low8(3) == 3
  {
    assert InBase("3", 10) == InBase("3"[..0], 10) * 10 + 3;
  }

  lemma EvalMask(x: bv8, p: bv8)
    ensures Eval(MASK3, x, p) == Combine(AndOp, x, 3)
  {
    hide Combine, LiteralValue, Low8;
    LiteralThree();
    assert Eval(Lit("3"), x, p) == Low8(LiteralValue("3"));
    assert Eval(Bin(AndOp, X, Lit("3")), x, p) == Combine(AndOp, x, Eval(Lit("3"), x, p));
  }

  lemma EvalShifts(x: bv8, p: bv8)
    ensures Eval(Bin(ShlOp, X, MASK3), x, p) == ShiftLeft(x)
    ensures Eval(Bin(ShrOp, X, MASK3), x, p) == ShiftRight(x)
  {
    hide Combine, ShiftLeft, ShiftRight;
    EvalMask(x, p);
    ByteForms(x, p);
    assert Eval(Bin(ShlOp, X, MASK3), x, p) == Combine(ShlOp, x, Eval(MASK3, x, p));
  }

  lemma EvalCalls(x: bv8, p: bv8)
    ensures Eval(Bin(XorOp, X, OnesCount(X)), x, p) == Xor(x, PopCount8(x))
    ensures Eval(RotateLeft(X, IntOf(X)), x, p) == Rotl8(x, x) && Eval(ReverseOf(X), x, p) == Reverse8(x)
  {
    hide Rotl8, PopCount8, Reverse8, Xor, Combine, Low8;
    ByteForms(x, PopCount8(x));
    assert Eval(OnesCount(X), x, p) == PopCount8(x);
    assert CountByte(IntOf(X), x, p) == x;
  }

  lemma EvalLogic(x: bv8, p: bv8)
    ensures Eval(Invert(X), x, p) == Flip(x)
    ensures Eval(Bin(XorOp, X, P), x, p) == Xor(x, p) && Eval(Bin(AndOp, X, P), x, p) == And(x, p)
  {
    hide Flip, Xor, And, Combine;
    ByteForms(x, p);
  }

  /** The right-hand side an operation stands for. */
  predicate Spells(f: Stmt, rhs: Expr) {
    match f
    case Not => rhs == Invert(X)
    case XorP => rhs == Bin(XorOp, X, P)
    case AndP => rhs == Bin(AndOp, X, P)
    case XorPop => rhs == Bin(XorOp, X, OnesCount(X))
    case Rev => rhs == ReverseOf(X)
    case RotlX => rhs == RotateLeft(X, IntOf(X))
    case Shl => rhs == Bin(ShlOp, X, MASK3)
    case Shr => rhs == Bin(ShrOp, X, MASK3)
    case _ => false
  }

  lemma FixedSpells(rhs: Expr)
    requires ShapeOf(rhs).Fixed?
    ensures Spells(ShapeOf(rhs).f, rhs)
  {
    hide Atoi;
  }

  lemma SpellsMeans(f: Stmt, rhs: Expr, x: bv8, p: bv8)
    requires Spells(f, rhs)
    ensures Eval(rhs, x, p) == Exec(f, x, p)
  {
    hide Rotl8, PopCount8, Reverse8, ShiftLeft, ShiftRight, Xor, And, Flip, Eval, Double, Square, Minus97;
    match f {
      case Shl => EvalShifts(x, p);
      case Shr => EvalShifts(x, p);
      case Not => EvalLogic(x, p);
      case XorP => EvalLogic(x, p);
      case AndP => EvalLogic(x, p);
      case _ => EvalCalls(x, p);
    }
  }

  lemma FixedMeans(rhs: Expr, x: bv8, p: bv8)
    requires ShapeOf(rhs).Fixed?
    ensures Eval(rhs, x, p) == Exec(ShapeOf(rhs).f, x, p)
  {
    hide Eval, Exec, ShapeOf, Spells;
    FixedSpells(rhs);
    SpellsMeans(ShapeOf(rhs).f, rhs, x, p);
  }

  lemma CountConstant(c: Count, x: bv8, p: bv8)
    requires Atoi(c).Some?
    ensures CountByte(c, x, p) == CountByte(c, 0, 0)
  {
  }

  lemma RotationMeans(rhs: Expr, x: bv8, p: bv8)
    requires ShapeOf(rhs).Rotation? || ShapeOf(rhs).XorRotation?
    ensures Eval(rhs, x, p) == Turned(ShapeOf(rhs).XorRotation?, x, ShapeOf(rhs).g)
  {
    hide Rotl8, Xor, Atoi, CountByte, PopCount8, Reverse8, Combine, Low8;
    if rhs.RotateLeft? {
      CountConstant(rhs.count, x, p);
    } else {
      CountConstant(rhs.r.count, x, p);
      ByteForms(x, Rotl8(x, ShapeOf(rhs).g));
      assert Eval(rhs.r, x, p) == Rotl8(x, ShapeOf(rhs).g);
    }
  }

  lemma ShapeExact(tok: Token, rhs: Expr)
    requires ByShape(tok) && !ShapeOf(rhs).Unknown?
    ensures Agrees(Update(tok, rhs)) <==> ShapeAccurate(tok, ShapeOf(rhs))
  {
    hide Exec, Eval, ShapeOf, Store, RunCode, PackInt;
    var s := Update(tok, rhs);
    match ShapeOf(rhs) {
      case Fixed(f) =>
        FixedExact(tok, rhs);
      case Rotation(k, g) =>
        RotationExact(tok, rhs);
      case XorRotation(k, g) =>
        RotationExact(tok, rhs);
    }
  }

  lemma FixedExact(tok: Token, rhs: Expr)
    requires ByShape(tok) && ShapeOf(rhs).Fixed?
    ensures Agrees(Update(tok, rhs)) <==> FixedFits(tok, ShapeOf(rhs).f)
  {
    hide Exec, Eval, ShapeOf, Store, RunCode, PackInt;
    var s, f := Update(tok, rhs), ShapeOf(rhs).f;
    var c := ClassifyStmt(s);
    assert c == Code(PackInt(OpId(f), 0));
    forall x, p ensures RunStmt(s, x, p) == Store(tok, x, Exec(f, x, p)) && Effect(c, x, p) == Exec(f, x, p) {
      FixedMeans(rhs, x, p);
      FixedCode(f, x, p);
    }
    FixedMeans(rhs, 0, 0);
    FixedCode(f, 0, 0);
    if FixedFits(tok, f) {
      forall x, p ensures RunStmt(s, x, p) == Effect(c, x, p) {
        FixedRight(tok, f, x, p);
      }
    } else if Agrees(s) {
      FixedOnFew(tok, f, s, c);
      FixedDecided(tok, f);
    }
  }

  lemma FixedOnFew(tok: Token, f: Stmt, s: GoStmt, c: Class)
    requires Plain(f)
    requires forall x, p :: RunStmt(s, x, p) == Store(tok, x, Exec(f, x, p)) && Effect(c, x, p) == Exec(f, x, p)
    requires forall x, p :: RunStmt(s, x, p) == Effect(c, x, p)
    ensures FixedSameOnFew(tok, f)
  {
    hide Exec, Store, RunStmt, Effect;
    assert RunStmt(s, 0, 1) == Effect(c, 0, 1);
    assert RunStmt(s, 0, 0) == Effect(c, 0, 0);
    assert RunStmt(s, 1, 0) == Effect(c, 1, 0);
    assert RunStmt(s, 1, 1) == Effect(c, 1, 1);
    assert RunStmt(s, 2, 0) == Effect(c, 2, 0);
    assert RunStmt(s, 5, 0) == Effect(c, 5, 0);
  }

  /** The code and the operation, parameter and turn behind a rotation. */
  lemma RotationAt(tok: Token, rhs: Expr, x: bv8, p: bv8)
    requires ByShape(tok) && (ShapeOf(rhs).Rotation? || ShapeOf(rhs).XorRotation?)
    ensures var s, shape := Update(tok, rhs), ShapeOf(rhs);
            var op, mixed := if shape.Rotation? then 1 else 2, shape.XorRotation?;
            && OpOf(op, shape.k) >= 0 && (Fits(ClassifyStmt(s)) <==> shape.k < 0x10000)
            && (RunStmt(s, x, p) == Effect(ClassifyStmt(s), x, p)
                <==> Same(tok, mixed, OpOf(op, shape.k), Low8(shape.k), shape.g, x, p))
  {
    hide Eval, ShapeOf, Store, RunCode, PackInt, ApplyByte, Low8, Turned;
    var s, shape := Update(tok, rhs), ShapeOf(rhs);
    var op := if shape.Rotation? then 1 else 2;
    assert ClassifyStmt(s) == Code(PackInt(op, shape.k));
    RotationMeans(rhs, x, p);
    RotationCode(op, shape.k, x, p);
  }

  lemma RotationExact(tok: Token, rhs: Expr)
    requires ByShape(tok) && (ShapeOf(rhs).Rotation? || ShapeOf(rhs).XorRotation?)
    ensures Agrees(Update(tok, rhs)) <==> ShapeAccurate(tok, ShapeOf(rhs))
  {
    hide Eval, ShapeOf, Same, Low8, RunStmt, Effect, ClassifyStmt, OpOf, Fits;
    var s, shape := Update(tok, rhs), ShapeOf(rhs);
    var op, mixed := if shape.Rotation? then 1 else 2, shape.XorRotation?;
    RotationAt(tok, rhs, 0, 0);
    var r, k8 := OpOf(op, shape.k), Low8(shape.k);
    forall x, p ensures RunStmt(s, x, p) == Effect(ClassifyStmt(s), x, p) <==> Same(tok, mixed, r, k8, shape.g, x, p) {
      RotationAt(tok, rhs, x, p);
    }
    OpKinds(op, shape.k);
    SameExact(tok, mixed, r, k8, shape.g);
  }

  /** The operations a rotation's code may end up as. */
  lemma OpKinds(op: nat, k: int)
    requires op == 1 || op == 2
    ensures var r := OpOf(op, k);
            && (op == 1 ==> r == 0 || r % 2 == 1) && (op == 2 ==> r == 0 || r / 2 % 2 == 1)
            && (op == 1 ==> (r == 1 <==> Kept(Rotation(k, 0))) && (k < 0x10000 ==> (Absent(r) <==> Idle(Rotation(k, 0)))))
            && (op == 2 ==> (r == 2 <==> Kept(XorRotation(k, 0))) && (k < 0x10000 ==> (Absent(r) <==> Idle(XorRotation(k, 0)))))
  {
  }

  lemma SameExact(tok: Token, mixed: bool, op: nat, k: bv8, g: bv8)
    requires ByShape(tok) && (Absent(op) || if mixed then op in {2, 3, 6, 7, 10, 11} else op % 2 == 1)
    ensures (forall x, p :: Same(tok, mixed, op, k, g, x, p)) <==>
            if mixed then MixedFits(tok, op, k, g) else RotationFits(tok, op, k, g)
  {
    hide Same, RotationFits, MixedFits;
    if forall x, p :: Same(tok, mixed, op, k, g, x, p) {
      assert SameOnFew(tok, mixed, op, k, g);
      if mixed && tok == Assign {
        MixedAssignDecided(op, k, g);
      } else if mixed {
        MixedDecided(tok.op, op, k, g);
      } else if tok == Assign {
        AssignDecided(op, k, g);
      } else {
        RotationDecided(tok.op, op, k, g);
      }
    }
    if mixed && MixedFits(tok, op, k, g) {
      forall x, p ensures Same(tok, mixed, op, k, g, x, p) {
        MixedRight(tok, op, k, g, x, p);
      }
    }
    if !mixed && RotationFits(tok, op, k, g) {
      forall x, p ensures Same(tok, mixed, op, k, g, x, p) {
        RotationRight(tok, op, k, g, x, p);
      }
    }
  }

  lemma Sums(x: bv8, y: bv8)
    ensures Combine(AddOp, x, y) == Double(x) <==> CompoundAccurate(AddOp, x, y)
    ensures Combine(SubOp, x, y) == Minus97(x) <==> CompoundAccurate(SubOp, x, y)
  {
  }

  lemma Products(x: bv8, y: bv8)
    ensures Combine(MulOp, x, y) == Square(x) <==> CompoundAccurate(MulOp, x, y)
  {
  }

  lemma CompoundAt(rhs: Expr, op: BinOp, x: bv8, p: bv8)
    requires !ByShape(With(op))
    ensures var s := Update(With(op), rhs);
            && Fits(ClassifyStmt(s))
            && (RunStmt(s, x, p) == Effect(ClassifyStmt(s), x, p) <==> CompoundAccurate(op, x, Eval(rhs, x, p)))
  {
    hide Eval, Combine, Double, Square, Minus97, RunCode, PackInt, CompoundAccurate;
    var f := if op == AddOp then Add else if op == MulOp then Mul else Sub97;
    FixedCode(f, x, p);
    Sums(x, Eval(rhs, x, p));
    Products(x, Eval(rhs, x, p));
  }

  lemma CompoundExact(rhs: Expr, op: BinOp)
    requires !ByShape(With(op))
    ensures Agrees(Update(With(op), rhs)) <==> Accurate(Update(With(op), rhs))
  {
    hide Eval, RunStmt, Effect, Fits, ClassifyStmt, CompoundAccurate;
    var s := Update(With(op), rhs);
    CompoundAt(rhs, op, 0, 0);
    forall x, p ensures RunStmt(s, x, p) == Effect(ClassifyStmt(s), x, p) <==> CompoundAccurate(op, x, Eval(rhs, x, p)) {
      CompoundAt(rhs, op, x, p);
    }
  }

  lemma NestedAt(how: Nesting, inner: seq<GoStmt>, x: bv8, p: bv8)
    ensures how.Block? ==> RunStmt(Nested(how, inner), x, p) == RunAll(inner, x, p)
    ensures how.IfEqual? ==>
              RunStmt(Nested(how, inner), x, p) == if Eval(how.l, x, p) == Eval(how.r, x, p) then RunAll(inner, x, p) else x
    ensures how.Times? ==> RunStmt(Nested(how, inner), x, p) == RunTimes(inner, how.n, x, p)
    ensures Effect(ClassifyStmt(Nested(how, inner)), x, p) == x
  {
  }

  lemma NestedExact(how: Nesting, inner: seq<GoStmt>)
    ensures Agrees(Nested(how, inner)) <==> DoesNothing(how, inner)
  {
    var s := Nested(how, inner);
    assert Fits(ClassifyStmt(s));
    hide RunAll, RunTimes, Eval, Effect, RunStmt, ClassifyStmt;
    forall x, p
      ensures how.Block? ==> RunStmt(s, x, p) == RunAll(inner, x, p)
      ensures how.IfEqual? ==> RunStmt(s, x, p) == if Eval(how.l, x, p) == Eval(how.r, x, p) then RunAll(inner, x, p) else x
      ensures how.Times? ==> RunStmt(s, x, p) == RunTimes(inner, how.n, x, p)
      ensures Effect(ClassifyStmt(s), x, p) == x
    {
      NestedAt(how, inner, x, p);
    }
  }

  /** The source form of an operation is compiled to its code; rotation counts as the compiler reads them. */
  lemma Recognizes(f: Stmt, rhs: Expr)
    requires Spells(f, rhs)
    ensures ClassifyStmt(Update(Assign, rhs)) == Code(Pack(f)) && Agrees(Update(Assign, rhs))
  {
    hide Atoi;
    FixedShape(f, rhs);
    FixedCode(f, 0, 0);
    hide ShapeOf;
    ShapeExact(Assign, rhs);
  }

  lemma FixedShape(f: Stmt, rhs: Expr)
    requires Spells(f, rhs)
    ensures ShapeOf(rhs) == Fixed(f)
  {
    hide Atoi;
  }

  /** So are the compound assignments the source uses. */
  lemma RecognizesCompound()
    ensures ClassifyStmt(Update(With(AddOp), X)) == Code(Pack(Add)) && Agrees(Update(With(AddOp), X))
    ensures ClassifyStmt(Update(With(MulOp), X)) == Code(Pack(Mul)) && Agrees(Update(With(MulOp), X))
  {
    hide Agrees, PackInt;
    PackedZero();
    CompoundExact(X, AddOp);
    CompoundExact(X, MulOp);
  }

  lemma RecognizesSubtraction()
    ensures var s := Update(With(SubOp), Paren(Bin(XorOp, X, Lit("97"))));
            ClassifyStmt(s) == Code(Pack(Sub97)) && Agrees(s)
  {
    hide Agrees, PackInt, LiteralValue, Low8;
    PackedZero();
    var rhs := Paren(Bin(XorOp, X, Lit("97")));
    CompoundExact(rhs, SubOp);
    LiteralNinetySeven();
    forall x, p ensures CompoundAccurate(SubOp, x, Eval(rhs, x, p)) {
      assert Eval(Bin(XorOp, X, Lit("97")), x, p) == Combine(XorOp, x, Eval(Lit("97"), x, p));
    }
  }

  lemma PackedZero()
    ensures PackInt(11, 0) == Pack(Add) && PackInt(12, 0) == Pack(Mul) && PackInt(13, 0) == Pack(Sub97)
  {
    hide Or;
    OrZero(11 * 256);
    OrZero(12 * 256);
    OrZero(13 * 256);
  }

  lemma LiteralNinetySeven()
    ensures LiteralValue("97") == 97 && Low8(97) == 97
  {
    hide InBase;
    assert "97" == ['9', '7'];
    TwoDigits('9', '7', 10);
    assert LiteralValue("97") == InBase("97", 10) == 97;
  }

  /** A rotation by a canonical count below 256 is compiled to the rotation with that parameter. */
  lemma RecognizesRotations(t: string)
    requires IsDecimal(t) && InBase(t, 10) < 256
    ensures ClassifyStmt(Update(Assign, RotateLeft(X, Number(t)))) == Code(Pack(RotlK(InBase(t, 10))))
    ensures ClassifyStmt(Update(Assign, Bin(XorOp, X, RotateLeft(X, Number(t))))) == Code(Pack(XorRotlK(InBase(t, 10))))
  {
    hide InBase, PackInt, Low8, LiteralValue, Eval;
    KeptCode(1, InBase(t, 10));
    KeptCode(2, InBase(t, 10));
    assert Atoi(Number(t)) == Some(InBase(t, 10));
  }

  /** The compiler gives up exactly on an assignment whose token it does not look at and whose right-hand side
      is none of these forms. */
  lemma GivesUpExactly(s: GoStmt)
    ensures ClassifyStmt(s).Unclassified? <==>
            && s.Update? && ByShape(s.tok) && (forall f :: !Spells(f, s.rhs))
            && !(s.rhs.RotateLeft? && s.rhs.e == X && Atoi(s.rhs.count).Some?)
            && !(s.rhs.Bin? && s.rhs.op == XorOp && s.rhs.l == X && s.rhs.r.RotateLeft? && s.rhs.r.e == X && Atoi(s.rhs.r.count).Some?)
  {
    hide Atoi, PackInt;
    if s.Update? && ByShape(s.tok) {
      if f :| Spells(f, s.rhs) {
        FixedShape(f, s.rhs);
      } else if ShapeOf(s.rhs).Fixed? {
        FixedSpells(s.rhs);
      }
    }
  }

  lemma BumpsDropped(up: bool)
    ensures !Agrees(Bump(up))
  {
    assert RunStmt(Bump(up), 0, 0) != Effect(Skipped, 0, 0);
  }

  /** A statement the compiler accepts is compiled right exactly under the stated condition. */
  lemma ClassifyExact(s: GoStmt)
    requires !ClassifyStmt(s).Unclassified?
    ensures Agrees(s) <==> Accurate(s)
  {
    hide Eval, ShapeOf, ShapeAccurate, Effect, PackInt;
    match s {
      case Update(tok, rhs) =>
        if ByShape(tok) {
          hide Agrees;
          ShapeExact(tok, rhs);
        } else {
          CompoundExact(rhs, tok.op);
        }
      case Bump(up) =>
        BumpsDropped(up);
      case Respelled(tok, rhs) =>
        NoCode(ClassifyStmt(s));
        assert forall x, p :: RunStmt(s, x, p) == Store(tok, x, Eval(rhs, x, p));
      case Nested(how, inner) =>
        NestedExact(how, inner);
      case PairAssign(first) =>
        NoCode(ClassifyStmt(s));
        assert forall x, p :: RunStmt(s, x, p) == Eval(first, x, p);
      case _ =>
        NoCode(ClassifyStmt(s));
    }
  }

  lemma NoCode(c: Class)
    requires !c.Code?
    ensures Fits(c) && forall x, p :: Effect(c, x, p) == x
  {
  }

  // ----- Counts -----

  /** Without a sign or a leading zero Atoi reads what the language reads; then a plain rotation is right for
      every count below 512, and for whole turns the interpreter does not know as an operation. */
  lemma CanonicalCounts(t: string)
    requires IsDecimal(t) && (|t| == 1 || t[0] != '0') && InBase(t, 10) < 0x8000000000000000
    ensures var n := InBase(t, 10);
            && ShapeOf(RotateLeft(X, Number(t))) == Rotation(n, Low8(n))
            && (Agrees(Update(Assign, RotateLeft(X, Number(t)))) <==> n < 512 || (14 * 256 <= n < 0x10000 && Turn(n) == 0))
  {
    hide InBase, Eval, Low8, Agrees, LiteralValue, ShapeOf;
    NumberShape(t);
    assert LiteralValue(t) == InBase(t, 10) by { NoLeadingZero(t); }
    ShapeExact(Assign, RotateLeft(X, Number(t)));
  }

  lemma NoLeadingZero(t: string)
    requires IsDecimal(t) && (|t| == 1 || t[0] != '0')
    ensures LiteralValue(t) == InBase(t, 10)
  {
    hide InBase;
  }

  lemma NumberShape(t: string)
    requires IsDecimal(t) && InBase(t, 10) < 0x8000000000000000
    ensures ShapeOf(RotateLeft(X, Number(t))) == Rotation(InBase(t, 10), Low8(LiteralValue(t)))
  {
    hide InBase, Eval, Low8, LiteralValue;
    assert Atoi(Number(t)) == Some(InBase(t, 10));
  }

  // ----- Statements that are compiled wrongly -----

  /** x += p is compiled as x += x. */
  lemma TokenAloneIsNotEnough()
    ensures ClassifyStmt(Update(With(AddOp), P)) == Code(PackInt(OpId(Add), 0)) && !Agrees(Update(With(AddOp), P))
  {
    NotDoubled();
    assert ClassifyStmt(Update(With(AddOp), P)) == Code(PackInt(OpId(Add), 0)) by { hide PackInt; }
    hide *;
    CompoundExact(P, AddOp);
  }

  lemma NotDoubled()
    ensures !Accurate(Update(With(AddOp), P)) && !ByShape(With(AddOp))
  {
    hide ShapeAccurate;
    assert !CompoundAccurate(AddOp, 1, Eval(P, 1, 0));
  }

  /** x ^= x ^ p is compiled as x = x ^ p. */
  lemma OtherTokensAreIgnored()
    ensures var s := Update(With(XorOp), Bin(XorOp, X, P));
            ClassifyStmt(s) == Code(PackInt(OpId(XorP), 0)) && !Agrees(s)
  {
    ShapeExact(With(XorOp), Bin(XorOp, X, P));
  }

  lemma NextDigit(t: string, c: char, base: nat)
    requires c != '_'
    ensures InBase(t + [c], base) == InBase(t, base) * base + DigitOf(c)
  {
    assert (t + [c])[..|t|] == t;
  }

  lemma TwoDigits(a: char, b: char, base: nat)
    requires a != '_' && b != '_'
    ensures InBase([a], base) == DigitOf(a) && InBase([a, b], base) == DigitOf(a) * base + DigitOf(b)
  {
    assert InBase([], base) == 0;
    hide InBase;
    assert [a] == [] + [a] && [a, b] == [a] + [b];
    NextDigit([], a, base);
    NextDigit([a], b, base);
  }

  lemma SmallBytes()
    ensures Low8(1) == 1 && Low8(8) == 8 && Turn(10) == 2
  {
  }

  lemma WholeTurns()
    ensures Turn(512) == 0 && Turn(-1) == 7
  {
  }

  /** A rotation by 010, which is eight, is compiled as one by ten. */
  lemma OctalIsMisread()
    ensures ShapeOf(RotateLeft(X, Number("010"))) == Rotation(10, 8) && !Agrees(Update(Assign, RotateLeft(X, Number("010"))))
  {
    hide InBase, Agrees, Turn, Low8, ShapeOf;
    assert "010" == ['0', '1'] + ['0'] && "010"[1..] == ['1'] + ['0'];
    TwoDigits('0', '1', 10);
    NextDigit(['0', '1'], '0', 10);
    TwoDigits('1', '0', 8);
    assert InBase("010", 10) == 10 && LiteralValue("010") == 8;
    hide LiteralValue;
    SmallBytes();
    NumberShape("010");
    ShapeExact(Assign, RotateLeft(X, Number("010")));
  }

  /** A rotation by -1 is dropped. */
  lemma NegativeCountIsDropped()
    ensures var s := Update(Assign, RotateLeft(X, Negated(Number("1"))));
            ClassifyStmt(s).Code? && ClassifyStmt(s).code < 0 && !Agrees(s)
  {
    hide ShapeOf, PackInt, Agrees, Turn;
    WholeTurns();
    MinusOneShape();
    WidePacks();
    ShapeExact(Assign, RotateLeft(X, Negated(Number("1"))));
  }

  lemma MinusOneShape()
    ensures ShapeOf(RotateLeft(X, Negated(Number("1")))) == Rotation(-1, 255)
  {
    hide InBase, Eval, Low8;
    TwoDigits('1', '0', 10);
    SmallBytes();
    assert LiteralValue("1") == 1 && Atoi(Negated(Number("1"))) == Some(-1);
  }

  lemma WidePacks()
    ensures PackInt(1, -1) == -1 && PackInt(1, 512) == 768 == PackInt(3, 0)
  {
    hide Or;
    PackSplits(1, -1);
    SmallOr(1, -1);
    PackSplits(1, 512);
    SmallOr(1, 2);
    PackSplits(3, 0);
    OrZero(3);
  }

  /** A rotation by 512 is compiled as a shift. */
  lemma WideCountIsAnotherOperation()
    ensures var s := Update(Assign, RotateLeft(X, Number("512")));
            ClassifyStmt(s) == Code(PackInt(OpId(Shl), 0)) && !Agrees(s)
  {
    hide InBase, PackInt, Agrees, Turn;
    assert "512" == ['5', '1'] + ['2'];
    TwoDigits('5', '1', 10);
    NextDigit(['5', '1'], '2', 10);
    assert InBase("512", 10) == 512;
    hide ShapeOf, ShapeAccurate;
    WidePacks();
    CanonicalCounts("512");
  }

  /** { x = p } is dropped. */
  lemma NestedIsDropped()
    ensures var s := Nested(Block, [Update(Assign, P)]);
            ClassifyStmt(s) == Skipped && !Agrees(s) && !Accurate(s)
  {
    var s := Nested(Block, [Update(Assign, P)]);
    var inner := [Update(Assign, P)];
    assert inner[..0] == [] && RunAll(inner[..0], 0, 1) == 0;
    assert RunAll(inner, 0, 1) == RunStmt(inner[0], 0, 1) == 1;
    assert RunStmt(s, 0, 1) == 1;
    ClassifyExact(s);
  }

  /** (x) = p is dropped. */
  lemma RespelledIsDropped()
    ensures ClassifyStmt(Respelled(Assign, P)) == Skipped && !Agrees(Respelled(Assign, P))
  {
    var s := Respelled(Assign, P);
    assert RunStmt(s, 0, 1) == 1;
    assert Effect(ClassifyStmt(s), 0, 1) == 0;
  }

  // ----- Whole bodies -----

  /** A statement of a case of the switch. */
  datatype CaseStmt = Loop(inner: seq<GoStmt>) | NewCipherCall | Straight

  datatype Tag = NoTag | SwapTag | RekeyTag

  function Inner(body: seq<CaseStmt>): seq<GoStmt> {
    if body == [] then []
    else
      var s := body[|body| - 1];
      Inner(body[..|body| - 1]) + if s.Loop? then s.inner else []
  }

  predicate TwoSided(ss: seq<GoStmt>) {
    exists i :: 0 <= i < |ss| && (ss[i] == SwapBoth || ss[i].PairAssign?)
  }

  function TagAfter(tag: Tag, s: CaseStmt): Tag {
    match s
    case Loop(inner) => if TwoSided(inner) then SwapTag else tag
    case NewCipherCall => RekeyTag
    case Straight => tag
  }

  /** The tag of the last statement that has one. */
  function TagOf(body: seq<CaseStmt>): Tag {
    if body == [] then NoTag else TagAfter(TagOf(body[..|body| - 1]), body[|body| - 1])
  }

  /** The tag is that of the last statement that has one. */
  lemma {:induction false} TagIsLast(body: seq<CaseStmt>, i: nat)
    requires i < |body| && (body[i].NewCipherCall? || (body[i].Loop? && TwoSided(body[i].inner)))
    requires forall k :: i < k < |body| ==> body[k].Straight? || (body[k].Loop? && !TwoSided(body[k].inner))
    ensures TagOf(body) == if body[i].Loop? then SwapTag else RekeyTag
    decreases |body|
  {
    hide TwoSided;
    if i < |body| - 1 {
      TagIsLast(body[..|body| - 1], i);
    }
  }

  lemma {:induction false} NoTagAtAll(body: seq<CaseStmt>)
    requires forall k :: 0 <= k < |body| ==> body[k].Straight? || (body[k].Loop? && !TwoSided(body[k].inner))
    ensures TagOf(body) == NoTag
    decreases |body|
  {
    hide TwoSided;
    if body != [] {
      NoTagAtAll(body[..|body| - 1]);
    }
  }

  predicate Known(ss: seq<GoStmt>) {
    forall i :: 0 <= i < |ss| ==> !ClassifyStmt(ss[i]).Unclassified?
  }

  lemma KnownConcat(a: seq<GoStmt>, b: seq<GoStmt>)
    ensures Known(a + b) <==> Known(a) && Known(b)
  {
    hide ClassifyStmt;
    assert forall i :: 0 <= i < |a| ==> (a + b)[i] == a[i];
    assert forall i :: 0 <= i < |b| ==> (a + b)[|a| + i] == b[i];
  }

  function CodesOf(ss: seq<GoStmt>): seq<int> {
    if ss == [] then []
    else
      var c := ClassifyStmt(ss[|ss| - 1]);
      CodesOf(ss[..|ss| - 1]) + if c.Code? && c.code >= 0 then [c.code] else []
  }

  lemma {:induction false} CodesConcat(a: seq<GoStmt>, b: seq<GoStmt>)
    ensures CodesOf(a + b) == CodesOf(a) + CodesOf(b)
    decreases |b|
  {
    hide ClassifyStmt;
    if b == [] {
      assert a + b == a;
    } else {
      var k := |b| - 1;
      assert (a + b)[..|a + b| - 1] == a + b[..k];
      CodesConcat(a, b[..k]);
    }
  }

  /** classifyCase: the codes of the statements of its loops in order, and its tag; a statement the compiler
      does not know ends it. */
  method ClassifyCase(body: seq<CaseStmt>) returns (ok: bool, ops: seq<int>, tag: Tag)
    ensures ok <==> Known(Inner(body))
    ensures ok ==> ops == CodesOf(Inner(body)) && tag == TagOf(body)
  {
    hide ClassifyStmt;
    ops, tag, ok := [], NoTag, true;
    var i := 0;
    while i < |body|
      invariant 0 <= i <= |body| && (ok <==> Known(Inner(body[..i])))
      invariant ok ==> ops == CodesOf(Inner(body[..i])) && tag == TagOf(body[..i])
    {
      assert body[..i + 1][..i] == body[..i] && body[..i + 1][i] == body[i];
      KnownConcat(Inner(body[..i]), if body[i].Loop? then body[i].inner else []);
      match body[i] {
        case Loop(inner) =>
          CodesConcat(Inner(body[..i]), inner);
          var fine, codes, swap := ClassifyLoop(inner);
          ok, ops, tag := ok && fine, ops + codes, if swap then SwapTag else tag;
        case NewCipherCall =>
          tag := RekeyTag;
          assert Inner(body[..i + 1]) == Inner(body[..i]);
        case Straight =>
          assert Inner(body[..i + 1]) == Inner(body[..i]);
      }
      i := i + 1;
    }
    assert body[..|body|] == body;
  }

  /** What one more statement adds. */
  lemma NextStmt(ss: seq<GoStmt>, i: nat)
    requires i < |ss|
    ensures Known(ss[..i + 1]) <==> Known(ss[..i]) && !ClassifyStmt(ss[i]).Unclassified?
    ensures TwoSided(ss[..i + 1]) <==> TwoSided(ss[..i]) || ClassifyStmt(ss[i]).Special?
    ensures CodesOf(ss[..i + 1])
         == CodesOf(ss[..i]) + if ClassifyStmt(ss[i]).Code? && ClassifyStmt(ss[i]).code >= 0 then [ClassifyStmt(ss[i]).code] else []
  {
    hide PackInt, ShapeOf;
    assert ss[..i + 1] == ss[..i] + [ss[i]];
    assert ss[..i + 1][..i] == ss[..i] && ss[..i + 1][i] == ss[i];
    assert ClassifyStmt(ss[i]).Special? <==> ss[i] == SwapBoth || ss[i].PairAssign?;
    hide ClassifyStmt;
    assert forall k :: 0 <= k < i ==> ss[..i][k] == ss[..i + 1][k];
  }

  method ClassifyLoop(ss: seq<GoStmt>) returns (ok: bool, ops: seq<int>, swap: bool)
    ensures ok <==> Known(ss)
    ensures ok ==> ops == CodesOf(ss) && (swap <==> TwoSided(ss))
  {
    hide ClassifyStmt, CodesOf, TwoSided;
    assert CodesOf(ss[..0]) == [] && !TwoSided(ss[..0]) by { NoStmts(ss[..0]); }
    ops, swap := [], false;
    var i := 0;
    while i < |ss|
      invariant 0 <= i <= |ss| && Known(ss[..i]) && ops == CodesOf(ss[..i]) && (swap <==> TwoSided(ss[..i]))
    {
      NextStmt(ss, i);
      match ClassifyStmt(ss[i]) {
        case Unclassified =>
          return false, ops, swap;
        case Code(code) =>
          if code >= 0 {
            ops := ops + [code];
          }
        case Special =>
          swap := true;
        case Skipped =>
      }
      i := i + 1;
    }
    assert ss[..|ss|] == ss;
    ok := true;
  }

  lemma NoStmts(ss: seq<GoStmt>)
    requires ss == []
    ensures CodesOf(ss) == [] && !TwoSided(ss)
  {
  }

  /** The interpreter on a list of codes. */
  function RunCodes(codes: seq<int>, x: bv8, p: bv8): bv8 {
    if codes == [] then x else RunCode(codes[|codes| - 1], RunCodes(codes[..|codes| - 1], x, p), p)
  }

  /** The table has entries for the body, and they do to every byte what the source does. */
  ghost predicate BodyAgrees(ss: seq<GoStmt>) {
    && (forall i :: 0 <= i < |CodesOf(ss)| ==> 0 <= CodesOf(ss)[i] < 0x10000)
    && forall x, p :: RunCodes(CodesOf(ss), x, p) == RunAll(ss, x, p)
  }

  /** Bodies of accurate statements keep their meaning. */
  lemma {:induction false} CompilerPreservesMeaning(ss: seq<GoStmt>)
    requires Known(ss) && forall i :: 0 <= i < |ss| ==> Accurate(ss[i])
    ensures BodyAgrees(ss)
    decreases |ss|
  {
    hide ClassifyStmt, RunStmt, Accurate, RunCode;
    if ss != [] {
      var k := |ss| - 1;
      var s := ss[k];
      CompilerPreservesMeaning(ss[..k]);
      ClassifyExact(s);
      forall x, p ensures RunCodes(CodesOf(ss), x, p) == RunAll(ss, x, p) {
        OneMore(ss, x, p);
      }
    }
  }

  lemma OneMore(ss: seq<GoStmt>, x: bv8, p: bv8)
    requires ss != []
    ensures RunCodes(CodesOf(ss), x, p)
         == Effect(ClassifyStmt(ss[|ss| - 1]), RunCodes(CodesOf(ss[..|ss| - 1]), x, p), p)
  {
    hide ClassifyStmt, ApplyByte;
    var c, front := ClassifyStmt(ss[|ss| - 1]), CodesOf(ss[..|ss| - 1]);
    if c.Code? && c.code >= 0 {
      assert CodesOf(ss) == front + [c.code];
      assert (front + [c.code])[..|front|] == front;
    } else {
      assert CodesOf(ss) == front;
    }
  }

  /** Over a set of statements the compiler keeps the meaning of every body exactly when each of them is
      accurate. */
  lemma CompilerExact(allowed: set<GoStmt>)
    requires forall s :: s in allowed ==> !ClassifyStmt(s).Unclassified?
    ensures (forall ss: seq<GoStmt> :: (forall i :: 0 <= i < |ss| ==> ss[i] in allowed) ==> BodyAgrees(ss))
        <==> (forall s :: s in allowed ==> Accurate(s))
  {
    hide ClassifyStmt, Accurate, BodyAgrees;
    if forall s :: s in allowed ==> Accurate(s) {
      forall ss: seq<GoStmt> | forall i :: 0 <= i < |ss| ==> ss[i] in allowed ensures BodyAgrees(ss) {
        CompilerPreservesMeaning(ss);
      }
    }
    forall s | s in allowed && BodyAgrees([s]) ensures Accurate(s) {
      SingleBody(s);
      ClassifyExact(s);
    }
    if forall ss: seq<GoStmt> :: (forall i :: 0 <= i < |ss| ==> ss[i] in allowed) ==> BodyAgrees(ss) {
      forall s | s in allowed ensures Accurate(s) {
        assert BodyAgrees([s]);
      }
    }
  }

  lemma SingleBody(s: GoStmt)
    requires BodyAgrees([s])
    ensures Agrees(s)
  {
    hide ClassifyStmt, RunStmt, RunCode;
    var c := ClassifyStmt(s);
    assert [s][..0] == [];
    var codes := CodesOf([s]);
    assert CodesOf([s][..0]) == [];
    assert c.Code? && c.code >= 0 ==> codes[0] == c.code;
    hide CodesOf;
    forall x, p ensures RunStmt(s, x, p) == Effect(c, x, p) {
      SingleRun(s, x, p);
    }
  }

  lemma SingleRun(s: GoStmt, x: bv8, p: bv8)
    ensures RunAll([s], x, p) == RunStmt(s, x, p)
    ensures RunCodes(CodesOf([s]), x, p) == Effect(ClassifyStmt(s), x, p)
  {
    hide ClassifyStmt, RunStmt, Effect;
    assert [s][..0] == [];
    OneMore([s], x, p);
    assert RunCodes(CodesOf([]), x, p) == x == RunAll([], x, p);
  }

  lemma TwoBumps(x: bv8, p: bv8)
    ensures RunAll([Bump(true), Bump(false)], x, p) == x
  {
    var ss := [Bump(true), Bump(false)];
    assert ss[..1] == [Bump(true)] && [Bump(true)][..0] == [];
    assert RunAll([], x, p) == x;
    assert RunAll([Bump(true)], x, p) == RunStmt(Bump(true), x, p);
    assert RunAll(ss, x, p) == RunStmt(Bump(false), RunAll([Bump(true)], x, p), p);
    hide RunAll;
    BumpRuns(x, p);
  }

  lemma BumpRuns(x: bv8, p: bv8)
    ensures RunStmt(Bump(false), RunStmt(Bump(true), x, p), p) == x
  {
    assert RunStmt(Bump(true), x, p) == x + 1;
  }

  /** Statement by statement is the right measure: two wrongs can cancel in a body. */
  lemma WrongsCancel()
    ensures var ss := [Bump(true), Bump(false)];
            BodyAgrees(ss) && !Accurate(ss[0]) && !Accurate(ss[1])
  {
    var ss := [Bump(true), Bump(false)];
    assert ss[..1] == [Bump(true)] && [Bump(true)][..0] == [];
    assert CodesOf([Bump(true)]) == [] && CodesOf(ss) == [];
    hide RunAll, CodesOf;
    forall x, p ensures RunCodes(CodesOf(ss), x, p) == RunAll(ss, x, p) {
      TwoBumps(x, p);
    }
  }

  // ----- The table the streams run on -----

  /** The operation a code of the interpreter names. */
  function StmtOf(code: int): (s: Stmt)
    requires 256 <= code < 14 * 256
    ensures Proper(s)
  {
    match code / 256
    case 1 => RotlK(code % 256)
    case 2 => XorRotlK(code % 256)
    case 3 => Shl
    case 4 => Shr
    case 5 => XorP
    case 6 => AndP
    case 7 => Not
    case 8 => XorPop
    case 9 => Rev
    case 10 => RotlX
    case 11 => Add
    case 12 => Mul
    case _ => Sub97
  }

  lemma PackedStmt(code: int)
    requires 256 <= code < 14 * 256 && (code < 768 || code % 256 == 0)
    ensures Pack(StmtOf(code)) == code
  {
  }

  lemma AccurateCode(s: GoStmt)
    requires ClassifyStmt(s).Code? && 0 <= ClassifyStmt(s).code < 14 * 256 && Accurate(s)
    ensures 256 <= ClassifyStmt(s).code && Pack(StmtOf(ClassifyStmt(s).code)) == ClassifyStmt(s).code
  {
    hide PackInt, ShapeOf, Eval, CompoundAccurate, Pack, StmtOf, RunCode, Exec;
    var tok, rhs, code := s.tok, s.rhs, ClassifyStmt(s).code;
    if !ByShape(tok) {
      FixedCode(Add, 0, 0);
      FixedCode(Mul, 0, 0);
      FixedCode(Sub97, 0, 0);
    } else {
      match ShapeOf(rhs) {
        case Fixed(f) =>
          FixedCode(f, 0, 0);
        case Rotation(k, g) =>
          KeptCode(1, k);
        case XorRotation(k, g) =>
          KeptCode(2, k);
      }
    }
    assert 256 <= code && (code < 768 || code % 256 == 0);
    PackedStmt(code);
  }

  lemma KeptCode(op: nat, k: int)
    requires op == 1 || op == 2
    ensures var c := PackInt(op, k);
            && (k < 0 ==> c < 0)
            && (op == 1 && Kept(Rotation(k, 0)) ==> c == 256 + k % 256)
            && (op == 2 && Kept(XorRotation(k, 0)) ==> c == 512 + k % 256)
            && (op == 1 && Idle(Rotation(k, 0)) && k >= 0 ==> c >= 14 * 256)
            && (op == 2 && Idle(XorRotation(k, 0)) && k >= 0 ==> c >= 14 * 256)
  {
    hide PackInt, Or;
    PackSplits(op, k);
    SmallOr(op, k / 256);
  }

  function BodyOf(codes: seq<int>): (body: seq<Stmt>)
    requires forall i :: 0 <= i < |codes| ==> 256 <= codes[i] < 14 * 256
    ensures |body| == |codes| && ProperBody(body)
  {
    seq(|codes|, i requires 0 <= i < |codes| => StmtOf(codes[i]))
  }

  lemma {:induction false} BodyRuns(codes: seq<int>, x: bv8, p: bv8)
    requires forall i :: 0 <= i < |codes| ==> 256 <= codes[i] < 14 * 256 && Pack(StmtOf(codes[i])) == codes[i]
    ensures Codes(BodyOf(codes)) == codes && ApplyBody(BodyOf(codes), x, p) == RunCodes(codes, x, p)
    decreases |codes|
  {
    hide StmtOf, Pack, Exec, ApplyByte;
    if codes != [] {
      var k := |codes| - 1;
      BodyRuns(codes[..k], x, p);
      assert BodyOf(codes)[..k] == BodyOf(codes[..k]);
      CodeRunsStatement(StmtOf(codes[k]), RunCodes(codes[..k], x, p), p);
    }
  }

  /** What the streams need of the table: as long as no idle code is in it, it is the table of a case body
      over the thirteen operations that does what the source does. */
  lemma TableOfBody(ss: seq<GoStmt>)
    requires Known(ss) && forall i :: 0 <= i < |ss| ==> Accurate(ss[i])
    requires forall i :: 0 <= i < |CodesOf(ss)| ==> CodesOf(ss)[i] < 14 * 256
    ensures forall i :: 0 <= i < |CodesOf(ss)| ==> 256 <= CodesOf(ss)[i]
    ensures CodesOf(ss) == Codes(BodyOf(CodesOf(ss)))
    ensures forall x, p :: ApplyBody(BodyOf(CodesOf(ss)), x, p) == RunAll(ss, x, p)
  {
    hide Pack, StmtOf, ApplyBody, RunCodes, RunAll, Accurate;
    AccurateCodes(ss);
    CompilerPreservesMeaning(ss);
    BodyRuns(CodesOf(ss), 0, 0);
    forall x, p ensures ApplyBody(BodyOf(CodesOf(ss)), x, p) == RunAll(ss, x, p) {
      BodyRuns(CodesOf(ss), x, p);
    }
  }

  lemma {:induction false} AccurateCodes(ss: seq<GoStmt>)
    requires forall i :: 0 <= i < |ss| ==> Accurate(ss[i])
    requires forall i :: 0 <= i < |CodesOf(ss)| ==> CodesOf(ss)[i] < 14 * 256
    ensures forall i :: 0 <= i < |CodesOf(ss)| ==> 256 <= CodesOf(ss)[i] && Pack(StmtOf(CodesOf(ss)[i])) == CodesOf(ss)[i]
    decreases |ss|
  {
    hide Pack, StmtOf, Accurate, ClassifyStmt;
    if ss != [] {
      var s, front := ss[|ss| - 1], CodesOf(ss[..|ss| - 1]);
      assert front <= CodesOf(ss);
      assert forall i :: 0 <= i < |front| ==> front[i] == CodesOf(ss)[i];
      AccurateCodes(ss[..|ss| - 1]);
      if ClassifyStmt(s).Code? && ClassifyStmt(s).code >= 0 {
        assert CodesOf(ss) == front + [ClassifyStmt(s).code] && CodesOf(ss)[|front|] == ClassifyStmt(s).code;
        AccurateCode(s);
      }
    }
  }
}
