/** Evaluation of the same formulas as 32-bit C `int` expressions, and the comparison. */
module CInt {
  import opened Wrappers
  import opened Formula

  const INT_MIN: int := -0x8000_0000
  const INT_MAX: int := 0x7FFF_FFFF

  predicate InRange(n: int) {
    INT_MIN <= n <= INT_MAX
  }

  /** Bit `k` of the infinite two's-complement representation. */
  function BitAt(n: int, k: nat): nat
    decreases k
  {
    if k == 0 then n % 2 else BitAt(n / 2, k - 1)
  }

  /** The value of two's-complement bits, least significant first. */
  function TwosComplement(bits: seq<nat>): int {
    if bits == [] then 0
    else if |bits| == 1 then 0 - bits[0]
    else bits[0] + 2 * TwosComplement(bits[1..])
  }

  function Bits(n: int, width: nat): (r: seq<nat>)
    ensures |r| == width && forall k :: 0 <= k < width ==> r[k] < 2
    decreases width
  {
    if width == 0 then [] else [n % 2] + Bits(n / 2, width - 1)
  }

  function CombineBits(op: BinaryOp, x: seq<nat>, y: seq<nat>): seq<nat>
    requires op in {BitAnd, BitOr, BitXor} && |x| == |y|
    requires forall k :: 0 <= k < |x| ==> x[k] < 2 && y[k] < 2
  {
    seq(|x|, k requires 0 <= k < |x| => OneBit(op, x[k], y[k]))
  }

  // ------------------------------------------------ C arithmetic on int

  /** `q` is the algebraic quotient `a / b` with any fractional part discarded
      (ISO/IEC 9899:1999, section 6.5.5). */
  predicate DiscardsFraction(a: int, b: int, q: int) {
    Abs(q) * Abs(b) <= Abs(a) < Abs(q) * Abs(b) + Abs(b) && (q == 0 || (q > 0 <==> ((a < 0) == (b < 0))))
  }

  lemma QuotientUnique(m: nat, d: nat, k: nat, k': nat)
    requires k * d <= m < k * d + d && k' * d <= m < k' * d + d
    ensures k == k'
  {
    if k < k' { SmallerMultiple(d, k, k'); }
    if k' < k { SmallerMultiple(d, k', k); }
  }

  lemma Distributes(a: nat, b: nat, d: nat)
    ensures (a + b) * d == a * d + b * d && b * d >= 0
  {
  }

  lemma SmallerMultiple(d: nat, k: nat, k': nat)
    requires k < k'
    ensures k * d + d <= k' * d
  {
    Distributes(k + 1, k' - k - 1, d);
    Distributes(k, 1, d);
  }

  lemma DiscardsUnique(a: int, b: int, q: int, q': int)
    requires b != 0 && DiscardsFraction(a, b, q) && DiscardsFraction(a, b, q')
    ensures q == q'
  {
    QuotientUnique(Abs(a), Abs(b), Abs(q), Abs(q'));
  }

  /** The evaluator's quotient is the C quotient. */
  lemma TruncatedDiscards(a: int, b: int)
    requires b != 0
    ensures DiscardsFraction(a, b, TruncatedQuotient(a, b))
  {
    var m, d := Abs(a), Abs(b);
    assert m == m / d * d + m % d;
  }

  ghost function CQuotient(a: int, b: int): int
    requires b != 0
  {
    TruncatedDiscards(a, b);
    var q :| DiscardsFraction(a, b, q);
    q
  }

  lemma QuotientsAgree(a: int, b: int)
    requires b != 0
    ensures CQuotient(a, b) == TruncatedQuotient(a, b)
  {
    TruncatedDiscards(a, b);
    DiscardsUnique(a, b, CQuotient(a, b), TruncatedQuotient(a, b));
  }

  function Fits(n: int): Option<int> {
    if InRange(n) then Some(n) else None
  }

  /** `None`: undefined behaviour (section 6.5, 6.5.5, 6.5.7), among it overflow and shifts of
      or by a negative value. */
  ghost function CBinary(op: BinaryOp, a: int, b: int): Option<int> {
    match op
    case Add => Fits(a + b)
    case Sub => Fits(a - b)
    case Mul => Fits(a * b)
    case Div => if b == 0 then None else Fits(CQuotient(a, b))
    case Mod => if b == 0 || !InRange(CQuotient(a, b)) then None else Some(a - CQuotient(a, b) * b)
    case Shl => if 0 <= b < 32 && a >= 0 then Fits(a * Pow2(b)) else None
    case Shr => if 0 <= b < 32 && a >= 0 then Some(a / Pow2(b)) else None
    case BitAnd => Some(TwosComplement(CombineBits(BitAnd, Bits(a, 32), Bits(b, 32))))
    case BitOr => Some(TwosComplement(CombineBits(BitOr, Bits(a, 32), Bits(b, 32))))
    case BitXor => Some(TwosComplement(CombineBits(BitXor, Bits(a, 32), Bits(b, 32))))
    case Eq => Some(Truth(a == b))
    case Ne => Some(Truth(a != b))
    case Lt => Some(Truth(a < b))
    case Le => Some(Truth(a <= b))
    case Gt => Some(Truth(a > b))
    case Ge => Some(Truth(a >= b))
    case LogAnd => Some(Truth(a != 0 && b != 0))
    case LogOr => Some(Truth(a != 0 || b != 0))
  }

  function CUnary(op: UnaryOp, v: int): Option<int> {
    match op
    case Plus => Some(v)
    case Minus => Fits(-v)
    case BitNot => Some(TwosComplement(Flip(Bits(v, 32))))
    case LogNot => Some(Truth(v == 0))
  }

  function Flip(bits: seq<nat>): seq<nat>
    requires forall k :: 0 <= k < |bits| ==> bits[k] < 2
  {
    seq(|bits|, k requires 0 <= k < |bits| => 1 - bits[k])
  }

  /** The `int` values of all leaves at run time. */
  datatype World = World(param: Index -> int, constant: string -> int, leaf: nat -> int)

  ghost predicate IntWorld(w: World) {
    && (forall i :: InRange(w.param(i)))
    && (forall name :: InRange(w.constant(name)))
    && (forall leaf :: InRange(w.leaf(leaf)))
  }

  /** The value of the expression as C `int`; `None` if an evaluated node is undefined or has
      another type: suffixed or too large literals, strings, characters beyond 127. */
  ghost function CEval(e: Expr, w: World): Option<int> {
    match e
    case Paren(inner) => CEval(inner, w)
    case Number(text) =>
      if StripSuffix(text) != text || IntegerValue(text).None? then None else Fits(IntegerValue(text).value)
    case Quoted(single, parsed) =>
      if single && parsed.Some? && |parsed.value| == 1 && parsed.value[0] as int < 128 then Some(parsed.value[0] as int)
      else None
    case Bool(b) => Some(Truth(b))
    case Param(i) => Some(w.param(i))
    case Name(name) => Some(if name == "true" then 1 else if name == "false" then 0 else w.constant(name))
    case Unary(op, arg) =>
      var v := CEval(arg, w);
      if v.None? then None else CUnary(op, v.value)
    case Binary(op, l, r) =>
      var left := CEval(l, w);
      if left.None? then None
      else if op == LogAnd && left.value == 0 then Some(0)
      else if op == LogOr && left.value != 0 then Some(1)
      else
        var right := CEval(r, w);
        if right.None? then None else CBinary(op, left.value, right.value)
    case Opaque(leaf, _) => Some(w.leaf(leaf))
  }

  // ------------------------------------------------ integer operations agree

  /** `(a/b)*b + a%b == a`, the remainder is smaller than the divisor and takes the sign of
      the dividend. */
  lemma DivisionIdentity(a: int, b: int)
    requires b != 0
    ensures ApplyBinary(Div, a, b).Some? && ApplyBinary(Mod, a, b).Some?
    ensures var q, r := ApplyBinary(Div, a, b).value, ApplyBinary(Mod, a, b).value;
            q * b + r == a && Abs(r) < Abs(b) && (r == 0 || (r < 0 <==> a < 0))
  {
    TruncatedDiscards(a, b);
    var q := TruncatedQuotient(a, b);
    SignedProduct(a, b, q);
  }

  lemma SignedProduct(a: int, b: int, q: int)
    requires b != 0 && (q == 0 || (q > 0 <==> ((a < 0) == (b < 0))))
    ensures q * b == if a < 0 then -(Abs(q) * Abs(b)) else Abs(q) * Abs(b)
  {
  }

  // ------------------------------------------------ bitwise operations agree

  /** Every bit of the result is the operation on the bits of the operands. */
  lemma {:induction false} BitwiseBits(op: BinaryOp, a: int, b: int, k: nat)
    requires op in {BitAnd, BitOr, BitXor}
    ensures BitAt(a, k) < 2 && BitAt(b, k) < 2
    ensures BitAt(Bitwise(op, a, b), k) == OneBit(op, BitAt(a, k), BitAt(b, k))
    decreases k
  {
    var r := Bitwise(op, a, b);
    if -1 <= a <= 0 && -1 <= b <= 0 {
      ConstantBits(a, k);
      ConstantBits(b, k);
      ConstantBits(r, k);
    } else if k > 0 {
      BitwiseBits(op, a / 2, b / 2, k - 1);
      assert r / 2 == Bitwise(op, a / 2, b / 2);
    }
  }

  lemma {:induction false} ConstantBits(n: int, k: nat)
    requires -1 <= n <= 0
    ensures BitAt(n, k) == n % 2
    decreases k
  {
    if k > 0 { ConstantBits(n / 2, k - 1); }
  }

  /** No two integers have the same bits, so the bits determine `&`, `|` and `^`. */
  lemma {:induction false} BitsDetermine(a: int, b: int)
    requires forall k: nat :: BitAt(a, k) == BitAt(b, k)
    ensures a == b
    decreases Abs(a) + Abs(b)
  {
    assert BitAt(a, 0) == BitAt(b, 0);
    if !(-1 <= a <= 0 && -1 <= b <= 0) {
      forall k: nat ensures BitAt(a / 2, k) == BitAt(b / 2, k) {
        assert BitAt(a, k + 1) == BitAt(b, k + 1);
      }
      BitsDetermine(a / 2, b / 2);
    }
  }

  predicate Within(n: int, width: nat)
    requires width > 0
  {
    0 - Pow2(width - 1) <= n < Pow2(width - 1)
  }

  /** A number within `width` bits is the value of its bits. */
  lemma {:induction false} BitsOfNumber(n: int, width: nat)
    requires width > 0 && Within(n, width)
    ensures TwosComplement(Bits(n, width)) == n
    decreases width
  {
    var bits := Bits(n, width);
    assert bits[1..] == Bits(n / 2, width - 1);
    if width == 1 {
      assert Pow2(0) == 1;
    } else {
      BitsOfNumber(n / 2, width - 1);
    }
  }

  /** One binary digit of the unbounded operation, also where its recursion stops. */
  lemma BitwiseStep(op: BinaryOp, a: int, b: int)
    requires op in {BitAnd, BitOr, BitXor}
    ensures Bitwise(op, a, b) % 2 == OneBit(op, a % 2, b % 2)
    ensures Bitwise(op, a, b) / 2 == Bitwise(op, a / 2, b / 2)
  {
  }

  lemma CombineCons(op: BinaryOp, x: nat, xs: seq<nat>, y: nat, ys: seq<nat>)
    requires op in {BitAnd, BitOr, BitXor} && |xs| == |ys| && x < 2 && y < 2
    requires forall k :: 0 <= k < |xs| ==> xs[k] < 2 && ys[k] < 2
    ensures CombineBits(op, [x] + xs, [y] + ys) == [OneBit(op, x, y)] + CombineBits(op, xs, ys)
  {
  }

  lemma {:induction false} CombineIsBitwise(op: BinaryOp, a: int, b: int, width: nat)
    requires op in {BitAnd, BitOr, BitXor}
    ensures CombineBits(op, Bits(a, width), Bits(b, width)) == Bits(Bitwise(op, a, b), width)
    decreases width
  {
    hide Bitwise, CombineBits;
    if width > 0 {
      CombineIsBitwise(op, a / 2, b / 2, width - 1);
      BitwiseStep(op, a, b);
      CombineCons(op, a % 2, Bits(a / 2, width - 1), b % 2, Bits(b / 2, width - 1));
    } else {
      NoBits(op);
    }
  }

  lemma NoBits(op: BinaryOp)
    requires op in {BitAnd, BitOr, BitXor}
    ensures CombineBits(op, [], []) == []
  {
  }

  lemma {:induction false} BitwiseWithin(op: BinaryOp, a: int, b: int, width: nat)
    requires op in {BitAnd, BitOr, BitXor} && width > 0 && Within(a, width) && Within(b, width)
    ensures Within(Bitwise(op, a, b), width)
    decreases width
  {
    if width > 1 {
      BitwiseWithin(op, a / 2, b / 2, width - 1);
    }
  }

  lemma {:induction false} FlipIsComplement(n: int, width: nat)
    ensures Flip(Bits(n, width)) == Bits(-n - 1, width)
    decreases width
  {
    if width > 0 {
      FlipIsComplement(n / 2, width - 1);
      assert (-n - 1) / 2 == -(n / 2) - 1 && (-n - 1) % 2 == 1 - n % 2;
      assert Flip(Bits(n, width)) == [1 - n % 2] + Flip(Bits(n / 2, width - 1));
    }
  }

  lemma Range32()
    ensures forall n :: InRange(n) <==> Within(n, 32)
  {
    assert Pow2(4) == 16 && Pow2(8) == 256;
    assert Pow2(12) == 4096 && Pow2(16) == 65536;
    assert Pow2(20) == 0x10_0000 && Pow2(24) == 0x100_0000;
    assert Pow2(28) == 0x1000_0000 && Pow2(31) == 0x8000_0000;
  }

  lemma BitwiseAgrees(op: BinaryOp, a: int, b: int)
    requires op in {BitAnd, BitOr, BitXor} && InRange(a) && InRange(b)
    ensures TwosComplement(CombineBits(op, Bits(a, 32), Bits(b, 32))) == Bitwise(op, a, b)
    ensures InRange(Bitwise(op, a, b))
  {
    Range32();
    CombineIsBitwise(op, a, b, 32);
    BitwiseWithin(op, a, b, 32);
    BitsOfNumber(Bitwise(op, a, b), 32);
  }

  lemma ComplementAgrees(v: int)
    requires InRange(v)
    ensures TwosComplement(Flip(Bits(v, 32))) == -v - 1 && InRange(-v - 1)
  {
    hide Bits, Flip;
    Range32();
    FlipIsComplement(v, 32);
    BitsOfNumber(-v - 1, 32);
  }

  // ------------------------------------------------ the evaluator against C

  /** What the evaluator knows is true of the world. */
  ghost predicate KnowsPartOf(env: Env, w: World) {
    && (forall i :: i in env.params ==> env.params[i] == Int(w.param(i)))
    && (forall name :: name in env.constants ==> env.constants[name] == Int(w.constant(name)))
    && env.leaves == map[]
  }

  /** Every leaf that C evaluates is known; an opaque leaf never is. */
  ghost predicate EvaluatedLeavesKnown(e: Expr, env: Env, w: World) {
    match e
    case Paren(inner) => EvaluatedLeavesKnown(inner, env, w)
    case Param(i) => i in env.params
    case Name(name) => name in {"true", "false"} || name in env.constants
    case Unary(_, arg) => EvaluatedLeavesKnown(arg, env, w)
    case Binary(op, l, r) =>
      && EvaluatedLeavesKnown(l, env, w)
      && var left := CEval(l, w);
         ((op == LogAnd && left == Some(0)) || (op == LogOr && left.Some? && left.value != 0) || EvaluatedLeavesKnown(r, env, w))
    case Opaque(_, _) => false
    case _ => true
  }

  lemma UnaryAgrees(op: UnaryOp, v: int)
    requires InRange(v) && CUnary(op, v).Some?
    ensures CUnary(op, v).value == ApplyUnary(op, v) && InRange(ApplyUnary(op, v))
  {
    if op.BitNot? { ComplementAgrees(v); }
  }

  lemma BinaryAgrees(op: BinaryOp, a: int, b: int)
    requires InRange(a) && InRange(b) && CBinary(op, a, b).Some?
    ensures ApplyBinary(op, a, b) == CBinary(op, a, b) && InRange(CBinary(op, a, b).value)
  {
    match op
    case Div => QuotientsAgree(a, b);
    case Mod =>
      QuotientsAgree(a, b);
      DivisionIdentity(a, b);
    case Shr => ShiftShrinks(a, b);
    case BitAnd => BitwiseAgrees(op, a, b);
    case BitOr => BitwiseAgrees(op, a, b);
    case BitXor => BitwiseAgrees(op, a, b);
    case _ =>
  }

  lemma ShiftShrinks(a: int, b: int)
    requires a >= 0 && b >= 0
    ensures 0 <= a / Pow2(b) <= a
  {
    QuotientBound(a, Pow2(b), a / Pow2(b));
  }

  lemma QuotientBound(a: int, d: int, q: int)
    requires a >= 0 && d > 0 && q == a / d
    ensures 0 <= q <= a
  {
    var r := a % d;
    assert 0 <= r && a == q * d + r;
    if q < 0 { Product(-q, d); } else { Product(q, d - 1); }
  }

  lemma Product(x: int, y: int)
    requires x >= 0 && y >= 0
    ensures x * y >= 0 && (y >= 1 ==> x * y >= x)
  {
    if y >= 1 { assert x * y == x + x * (y - 1); }
  }

  lemma {:induction false} CEvalInRange(e: Expr, w: World)
    requires IntWorld(w) && CEval(e, w).Some?
    ensures InRange(CEval(e, w).value)
  {
    match e
    case Paren(inner) => CEvalInRange(inner, w);
    case Unary(op, arg) =>
      CEvalInRange(arg, w);
      UnaryAgrees(op, CEval(arg, w).value);
    case Binary(op, l, r) =>
      CEvalInRange(l, w);
      if CEval(e, w) != Some(0) && CEval(e, w) != Some(1) {
        CEvalInRange(r, w);
        BinaryAgrees(op, CEval(l, w).value, CEval(r, w).value);
      }
    case _ =>
  }

  /** Where C defines the value, the evaluator finds exactly it if the evaluated leaves are
      known, and nothing otherwise. */
  lemma {:induction false} EvalAgreesWithC(e: Expr, env: Env, w: World)
    requires IntWorld(w) && KnowsPartOf(env, w) && CEval(e, w).Some?
    ensures Eval(e, env) == if EvaluatedLeavesKnown(e, env, w) then Some(Int(CEval(e, w).value)) else None
  {
    match e
    case Paren(inner) => EvalAgreesWithC(inner, env, w);
    case Unary(op, arg) =>
      EvalAgreesWithC(arg, env, w);
      CEvalInRange(arg, w);
      UnaryAgrees(op, CEval(arg, w).value);
    case Binary(op, l, r) =>
      EvalAgreesWithC(l, env, w);
      var left := CEval(l, w);
      if !(op == LogAnd && left == Some(0)) && !(op == LogOr && left.Some? && left.value != 0) {
        EvalAgreesWithC(r, env, w);
        CEvalInRange(l, w);
        CEvalInRange(r, w);
        BinaryAgrees(op, left.value, CEval(r, w).value);
      }
    case _ =>
  }

  /** Soundness and completeness against C: whenever 32-bit `int` evaluation is defined at
      every evaluated node, `evaluate_formula` returns that value or unknown, and unknown
      exactly for an unknown evaluated leaf or for INT_MIN, which the magnitude test drops. */
  lemma EvaluateAgreesWithC(e: Expr, params: map<Index, Value>, constants: map<string, Value>, w: World)
    requires IntWorld(w) && KnowsPartOf(Env(params, constants, map[]), w) && CEval(e, w).Some?
    ensures Evaluate(e, params, constants) ==
            if EvaluatedLeavesKnown(e, Env(params, constants, map[]), w) && CEval(e, w).value != INT_MIN
            then Some(Int(CEval(e, w).value)) else None
  {
    EvalAgreesWithC(e, Env(params, constants, map[]), w);
    CEvalInRange(e, w);
  }
}
