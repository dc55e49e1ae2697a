/** The formula language: syntax after parsing, evaluation with unknowns, substitution. */
module Formula {
  import opened Wrappers

  /** The number of a `$N` placeholder: a positive decimal. */
  type Index = i: int | i >= 1 witness 1

  datatype UnaryOp = Plus | Minus | BitNot | LogNot

  datatype BinaryOp =
    | Add | Sub | Mul | Div | Mod | Shl | Shr | BitAnd | BitOr | BitXor
    | Eq | Ne | Lt | Le | Gt | Ge | LogAnd | LogOr

  /** `Quoted` is a character or string literal with the text Python's literal parser gives
      for it, `None` if it rejects it. `Opaque` is a field, subscript, pointer or conditional
      expression: `leaf` names it, `inside` is its text with the expressions in it. */
  datatype Expr =
    | Paren(e: Expr)
    | Number(text: string)
    | Quoted(single: bool, parsed: Option<string>)
    | Bool(b: bool)
    | Param(index: Index)
    | Name(name: string)
    | Unary(uop: UnaryOp, arg: Expr)
    | Binary(bop: BinaryOp, left: Expr, right: Expr)
    | Opaque(leaf: nat, inside: Inside)

  /** Other text, an expression, and so on: `tab[$1]` is `tab`, `[`, `$1`, `]`. */
  datatype Inside = End(text: string) | Part(text: string, part: Expr, rest: Inside)

  datatype Value = Int(n: int) | Str(s: string)

  // ------------------------------------------------ literals

  predicate IsSuffixChar(c: char) {
    c in {'u', 'U', 'l', 'L'}
  }

  function StripSuffix(text: string): string {
    if text != [] && IsSuffixChar(text[|text| - 1]) then StripSuffix(text[..|text| - 1]) else text
  }

  function DigitValue(c: char): nat {
    if '0' <= c <= '9' then (c - '0') as nat
    else if 'a' <= c <= 'f' then (c - 'a') as nat + 10
    else if 'A' <= c <= 'F' then (c - 'A') as nat + 10
    else 99
  }

  predicate AllDigits(base: nat, s: string) {
    forall i :: 0 <= i < |s| ==> DigitValue(s[i]) < base
  }

  /** `int(s, base)` on digits. */
  function Positional(base: nat, s: string): nat {
    if s == [] then 0 else Positional(base, s[..|s| - 1]) * base + DigitValue(s[|s| - 1])
  }

  /** The integer branch of `_literal_value`. */
  function IntegerValue(text: string): Option<int> {
    BodyValue(StripSuffix(text))
  }

  function BodyValue(body: string): Option<int> {
    if |body| > 2 && body[0] == '0' && body[1] in {'x', 'X'} && AllDigits(16, body[2..]) then
      Some(Positional(16, body[2..]))
    else if |body| > 2 && body[0] == '0' && body[1] in {'b', 'B'} && AllDigits(2, body[2..]) then
      Some(Positional(2, body[2..]))
    else if |body| > 0 && body[0] == '0' && AllDigits(8, body) then Some(Positional(8, body))
    else if |body| > 0 && '1' <= body[0] <= '9' && (forall i :: 0 <= i < |body| ==> '0' <= body[i] <= '9') then
      Some(Positional(10, body))
    else None
  }

  /** `_literal_value` */
  function LiteralValue(e: Expr): Option<Value> {
    match e
    case Number(text) =>
      var v := IntegerValue(text);
      if v.Some? then Some(Int(v.value)) else None
    case Quoted(single, Some(s)) => if single && |s| == 1 then Some(Int(s[0] as int)) else Some(Str(s))
    case _ => None
  }

  // ------------------------------------------------ integer operations as Python has them

  function Abs(n: int): nat {
    if n < 0 then -n else n
  }

  function Pow2(k: nat): (r: nat)
    ensures r > 0
  {
    if k == 0 then 1 else 2 * Pow2(k - 1)
  }

  function Truth(b: bool): int {
    if b then 1 else 0
  }

  /** One bit of `&`, `|` or `^`. */
  function OneBit(op: BinaryOp, x: nat, y: nat): (r: nat)
    requires op in {BitAnd, BitOr, BitXor} && x < 2 && y < 2
    ensures r < 2
  {
    match op
    case BitAnd => if x == 1 && y == 1 then 1 else 0
    case BitOr => if x == 1 || y == 1 then 1 else 0
    case BitXor => if x != y then 1 else 0
  }

  /** `&`, `|`, `^` on unbounded two's-complement integers. */
  function Bitwise(op: BinaryOp, a: int, b: int): int
    requires op in {BitAnd, BitOr, BitXor}
    decreases Abs(a) + Abs(b)
  {
    if -1 <= a <= 0 && -1 <= b <= 0 then 0 - OneBit(op, a % 2, b % 2)
    else 2 * Bitwise(op, a / 2, b / 2) + OneBit(op, a % 2, b % 2)
  }

  /** `quotient = abs(left) // abs(right)`, negated if the signs differ. */
  function TruncatedQuotient(a: int, b: int): int
    requires b != 0
  {
    var quotient := Abs(a) / Abs(b);
    if (a < 0) != (b < 0) then -quotient else quotient
  }

  function ApplyUnary(op: UnaryOp, v: int): int {
    match op
    case Plus => v
    case Minus => -v
    case BitNot => -v - 1
    case LogNot => Truth(v == 0)
  }

  /** The arithmetic branches; `None` for a zero divisor or a negative shift count. */
  function ApplyBinary(op: BinaryOp, a: int, b: int): Option<int> {
    match op
    case Add => Some(a + b)
    case Sub => Some(a - b)
    case Mul => Some(a * b)
    case Div => if b == 0 then None else Some(TruncatedQuotient(a, b))
    case Mod => if b == 0 then None else Some(a - TruncatedQuotient(a, b) * b)
    case Shl => if b >= 0 then Some(a * Pow2(b)) else None
    case Shr => if b >= 0 then Some(a / Pow2(b)) else None
    case BitAnd => Some(Bitwise(BitAnd, a, b))
    case BitOr => Some(Bitwise(BitOr, a, b))
    case BitXor => Some(Bitwise(BitXor, a, b))
    case Eq => Some(Truth(a == b))
    case Ne => Some(Truth(a != b))
    case Lt => Some(Truth(a < b))
    case Le => Some(Truth(a <= b))
    case Gt => Some(Truth(a > b))
    case Ge => Some(Truth(a >= b))
    case LogAnd => Some(Truth(a != 0 && b != 0))
    case LogOr => Some(Truth(a != 0 || b != 0))
  }

  // ------------------------------------------------ evaluation

  /** What is known about the leaves. The evaluator itself runs with `leaves == map[]`:
      opaque leaves are never evaluated. */
  datatype Env = Env(params: map<Index, Value>, constants: map<string, Value>, leaves: map<nat, Value>)

  function Lookup<K>(m: map<K, Value>, k: K): Option<Value> {
    if k in m then Some(m[k]) else None
  }

  predicate IsInt(v: Option<Value>) {
    v.Some? && v.value.Int?
  }

  /** The inner `evaluate`. */
  function Eval(e: Expr, env: Env): Option<Value> {
    match e
    case Paren(inner) => Eval(inner, env)
    case Number(_) => LiteralValue(e)
    case Quoted(_, _) => LiteralValue(e)
    case Bool(b) => Some(Int(Truth(b)))
    case Param(i) => Lookup(env.params, i)
    case Name(name) =>
      if name == "true" then Some(Int(1))
      else if name == "false" then Some(Int(0))
      else Lookup(env.constants, name)
    case Unary(op, arg) =>
      var v := Eval(arg, env);
      if IsInt(v) then Some(Int(ApplyUnary(op, v.value.n))) else None
    case Binary(op, l, r) =>
      var left := Eval(l, env);
      if op == LogAnd && left == Some(Int(0)) then Some(Int(0))
      else if op == LogOr && IsInt(left) && left != Some(Int(0)) then Some(Int(1))
      else
        var right := Eval(r, env);
        if IsInt(left) && IsInt(right) then
          var v := ApplyBinary(op, left.value.n, right.value.n);
          if v.Some? then Some(Int(v.value)) else None
        else None
    case Opaque(leaf, _) => Lookup(env.leaves, leaf)
  }

  const MAGNITUDE: int := 0x7FFF_FFFF

  /** The final magnitude test. */
  function CutOff(v: Option<Value>): Option<Value> {
    if IsInt(v) && Abs(v.value.n) > MAGNITUDE then None else v
  }

  /** `evaluate_formula` */
  function Evaluate(e: Expr, params: map<Index, Value>, constants: map<string, Value>): Option<Value> {
    CutOff(Eval(e, Env(params, constants, map[])))
  }

  // ------------------------------------------------ unknowns

  ghost predicate Extends<K(!new)>(m: map<K, Value>, m': map<K, Value>) {
    forall k :: k in m ==> k in m' && m'[k] == m[k]
  }

  ghost predicate EnvExtends(env: Env, env': Env) {
    Extends(env.params, env'.params) && Extends(env.constants, env'.constants) && Extends(env.leaves, env'.leaves)
  }

  /** A known value stays the same under every extension of what is known, also when opaque
      leaves get values. */
  lemma {:induction false} KnownIsStable(e: Expr, env: Env, env': Env)
    requires EnvExtends(env, env')
    ensures Eval(e, env).Some? ==> Eval(e, env') == Eval(e, env)
  {
    match e
    case Paren(inner) => KnownIsStable(inner, env, env');
    case Unary(_, arg) => KnownIsStable(arg, env, env');
    case Binary(_, l, r) =>
      KnownIsStable(l, env, env');
      KnownIsStable(r, env, env');
    case _ =>
  }

  /** Same for `evaluate_formula`: a known result is independent of every unknown parameter
      and constant and of the value of every opaque leaf. */
  lemma KnownResultIsIndependent(e: Expr, params: map<Index, Value>, constants: map<string, Value>, env: Env)
    requires Extends(params, env.params) && Extends(constants, env.constants)
    ensures Evaluate(e, params, constants).Some? ==> CutOff(Eval(e, env)) == Evaluate(e, params, constants)
  {
    KnownIsStable(e, Env(params, constants, map[]), env);
  }

  /** An opaque leaf may well occur in an exact value: `0 && leaf` is 0. */
  lemma OpaqueCanBeExact(leaf: nat, inside: Inside)
    ensures Evaluate(Binary(LogAnd, Number("0"), Opaque(leaf, inside)), map[], map[]) == Some(Int(0))
  {
    assert StripSuffix("0") == "0" && "0"[..0] == "";
    assert Positional(8, "0") == Positional(8, "0"[..0]) * 8 + 0;
    assert Eval(Number("0"), Env(map[], map[], map[])) == Some(Int(0));
  }

  // ------------------------------------------------ leaves and operators on their own

  /** A character literal is its code, any other quoted text is a string; what the literal parser rejects is unknown. */
  lemma QuotedEvaluates(single: bool, parsed: Option<string>, params: map<Index, Value>, constants: map<string, Value>)
    ensures var v := Evaluate(Quoted(single, parsed), params, constants);
      && (forall c: char :: single && parsed == Some([c]) ==> v == Some(Int(c as int)))
      && (forall s :: parsed == Some(s) && !(single && |s| == 1) ==> v == Some(Str(s)))
      && (parsed.None? ==> v == None)
  {
  }

  /** Comparisons are 1 where they hold and 0 where they do not, on all integers, and so are the logical operators. */
  lemma ComparisonsAre(a: int, b: int)
    ensures ApplyBinary(Eq, a, b) == Some(if a == b then 1 else 0) && ApplyBinary(Ne, a, b) == Some(if a == b then 0 else 1)
    ensures ApplyBinary(Lt, a, b) == Some(if a < b then 1 else 0) && ApplyBinary(Ge, a, b) == Some(if a < b then 0 else 1)
    ensures ApplyBinary(Gt, a, b) == Some(if b < a then 1 else 0) && ApplyBinary(Le, a, b) == Some(if b < a then 0 else 1)
    ensures ApplyBinary(LogAnd, a, b) == Some(if a == 0 || b == 0 then 0 else 1)
    ensures ApplyBinary(LogOr, a, b) == Some(if a == 0 && b == 0 then 0 else 1)
    ensures ApplyUnary(LogNot, a) == (if a == 0 then 1 else 0) && ApplyUnary(BitNot, a) == -1 - a
    ensures Evaluate(Bool(true), map[], map[]) == Some(Int(1)) && Evaluate(Bool(false), map[], map[]) == Some(Int(0))
  {
  }

  /** Shifting left doubles once for each position; shifting right halves as often and rounds down, also below zero. */
  lemma {:induction false} ShiftsAre(a: int, b: nat)
    ensures ApplyBinary(Shl, a, 0) == ApplyBinary(Shr, a, 0) == Some(a)
    ensures ApplyBinary(Shl, a, b).Some? && ApplyBinary(Shl, a, b + 1) == Some(2 * ApplyBinary(Shl, a, b).value)
    ensures ApplyBinary(Shr, a, b).Some?
    ensures var q := ApplyBinary(Shr, a, b).value; q * Pow2(b) <= a < (q + 1) * Pow2(b)
  {
    DoubledProduct(a, Pow2(b));
    FloorDivision(a, Pow2(b));
  }

  lemma DoubledProduct(a: int, n: int)
    ensures a * (2 * n) == 2 * (a * n)
  {
  }

  lemma FloorDivision(a: int, n: nat)
    requires n > 0
    ensures a / n * n <= a < (a / n + 1) * n
  {
    assert a == a / n * n + a % n;
    assert (a / n + 1) * n == a / n * n + n;
  }
}
