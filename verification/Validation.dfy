/** Validation of model formulas, and what a validated formula can still fail on. */
module Validation {
  import opened Wrappers
  import opened Formula
  import opened IntegerLiterals
  import opened Substitution

  /** What the caller of `validate_formula` allows. */
  datatype Scope = Scope(parameterCount: nat, visible: set<string>, allowOpaque: bool)

  /** Every leaf of `e` is in scope and every literal has a value. */
  predicate InScope(e: Expr, scope: Scope) {
    match e
    case Paren(inner) => InScope(inner, scope)
    case Number(_) => LiteralValue(e).Some?
    case Quoted(_, _) => LiteralValue(e).Some?
    case Bool(_) => true
    case Param(i) => i <= scope.parameterCount
    case Name(name) => name in scope.visible || name in {"true", "false"}
    case Unary(_, arg) => InScope(arg, scope)
    case Binary(_, l, r) => InScope(l, scope) && InScope(r, scope)
    case Opaque(_, _) => scope.allowOpaque
  }

  /** All literals below an expression, in source order. */
  function LiteralsBelow(e: Expr): seq<Expr> {
    match e
    case Paren(inner) => LiteralsBelow(inner)
    case Number(_) => [e]
    case Quoted(_, _) => [e]
    case Unary(_, arg) => LiteralsBelow(arg)
    case Binary(_, l, r) => LiteralsBelow(l) + LiteralsBelow(r)
    case Opaque(_, inside) => LiteralsInside(inside)
    case _ => []
  }

  function LiteralsInside(inside: Inside): seq<Expr> {
    match inside
    case End(_) => []
    case Part(_, part, rest) => LiteralsBelow(part) + LiteralsInside(rest)
  }

  /** Those with a value: what an opaque node contributes. */
  function ValuedLiterals(literals: seq<Expr>): seq<Expr> {
    if literals == [] then []
    else (if LiteralValue(literals[0]).Some? then [literals[0]] else []) + ValuedLiterals(literals[1..])
  }

  /** The literal leaves in source order, those inside opaque nodes included. */
  function Literals(e: Expr): seq<Expr> {
    match e
    case Paren(inner) => Literals(inner)
    case Number(_) => [e]
    case Quoted(_, _) => [e]
    case Unary(_, arg) => Literals(arg)
    case Binary(_, l, r) => Literals(l) + Literals(r)
    case Opaque(_, inside) => ValuedLiterals(LiteralsInside(inside))
    case _ => []
  }

  /** `_validate_node`: appends to `literals`; `ok` is false where `FormulaError` is raised. */
  method ValidateNode(e: Expr, scope: Scope, literals0: seq<Expr>) returns (ok: bool, literals: seq<Expr>)
    ensures ok <==> InScope(e, scope)
    ensures ok ==> literals == literals0 + Literals(e)
    ensures e.Number? ==> (ok <==> exists n: nat :: SpellsNumber(e.text, n))
  {
    hide SpellsNumber;
    literals := literals0;
    match e
    case Paren(inner) => ok, literals := ValidateNode(inner, scope, literals);
    case Number(text) =>
      HasValueIffSpelled(text);
      ok := LiteralValue(e).Some?;
      if ok { literals := literals + [e]; }
    case Quoted(_, _) =>
      ok := LiteralValue(e).Some?;
      if ok { literals := literals + [e]; }
    case Bool(_) => ok := true;
    case Param(i) => ok := i <= scope.parameterCount;
    case Name(name) => ok := name in scope.visible || name in {"true", "false"};
    case Unary(_, arg) => ok, literals := ValidateNode(arg, scope, literals);
    case Binary(_, l, r) =>
      ok, literals := ValidateNode(l, scope, literals);
      if ok { ok, literals := ValidateNode(r, scope, literals); }
    case Opaque(_, inside) =>
      ok := scope.allowOpaque;
      if ok { literals := CollectValued(LiteralsInside(inside), literals); }
  }

  method CollectValued(below: seq<Expr>, literals0: seq<Expr>) returns (literals: seq<Expr>)
    ensures literals == literals0 + ValuedLiterals(below)
  {
    literals := literals0;
    for k := 0 to |below|
      invariant literals + ValuedLiterals(below[k..]) == literals0 + ValuedLiterals(below)
    {
      assert below[k..][1..] == below[k + 1..];
      if LiteralValue(below[k]).Some? {
        literals := literals + [below[k]];
      }
    }
  }

  /** What the evidence offers: spellings that occur in it and integer values spelled in it. */
  datatype Evidence = Evidence(spellings: set<Expr>, values: set<int>, allowBooleans: bool)

  /** A literal is 0 or 1 where those are allowed, occurs literally, or has a value that the
      evidence spells in some base. */
  predicate Grounded(l: Expr, evidence: Evidence) {
    || (evidence.allowBooleans && l in {Number("0"), Number("1")})
    || l in evidence.spellings
    || (IsInt(LiteralValue(l)) && LiteralValue(l).value.n in evidence.values)
  }

  /** A number literal is grounded if 0 or 1 is allowed and it is that, if it occurs as it stands, or if the number that
      it spells occurs in some spelling. */
  lemma NumberGroundedIff(text: string, evidence: Evidence)
    ensures Grounded(Number(text), evidence) <==>
      || (evidence.allowBooleans && (text == "0" || text == "1"))
      || Number(text) in evidence.spellings
      || exists n: nat :: n in evidence.values && SpellsNumber(text, n)
  {
    hide SpellsNumber, IntegerValue;
    EverySpelling(text, 0);
    if IntegerValue(text).Some? {
      EverySpelling(text, IntegerValue(text).value);
    }
    forall n: nat | SpellsNumber(text, n) ensures IntegerValue(text) == Some(n) {
      EverySpelling(text, n);
    }
  }

  /** A quoted literal is grounded if it occurs as it stands, and a character also if its code occurs in some spelling. */
  lemma QuotedGroundedIff(single: bool, parsed: Option<string>, evidence: Evidence)
    ensures Grounded(Quoted(single, parsed), evidence) <==>
      || Quoted(single, parsed) in evidence.spellings
      || exists c: char :: single && parsed == Some([c]) && c as int in evidence.values
  {
    if single && parsed.Some? && |parsed.value| == 1 {
      assert parsed.value == [parsed.value[0]];
    }
  }

  /** `validate_formula` */
  method ValidateFormula(e: Expr, scope: Scope, evidence: Evidence) returns (ok: bool, literals: seq<Expr>)
    ensures ok <==> InScope(e, scope) && forall l :: l in Literals(e) ==> Grounded(l, evidence)
    ensures ok ==> literals == Literals(e)
  {
    hide InScope, Literals, Grounded;
    ok, literals := ValidateNode(e, scope, []);
    if ok {
      assert [] + Literals(e) == Literals(e);
      for k := 0 to |literals|
        invariant forall l :: l in literals[..k] ==> Grounded(l, evidence)
      {
        if !Grounded(literals[k], evidence) {
          return false, literals;
        }
      }
      assert literals[..|literals|] == literals;
    }
  }

  /** Substitution keeps formulas valid: if the formula fits the callee and every actual
      fits the caller, the result fits the caller. */
  lemma {:induction false} SubstKeepsScope(e: Expr, callee: Scope, caller: Scope, actuals: map<Index, Expr>)
    requires InScope(e, callee) && callee.visible <= caller.visible && (callee.allowOpaque ==> caller.allowOpaque)
    requires forall i: Index :: i <= callee.parameterCount ==> i in actuals && InScope(actuals[i], caller)
    ensures InScope(Subst(e, actuals), caller)
  {
    match e
    case Paren(inner) => SubstKeepsScope(inner, callee, caller, actuals);
    case Unary(_, arg) => SubstKeepsScope(arg, callee, caller, actuals);
    case Binary(_, l, r) =>
      SubstKeepsScope(l, callee, caller, actuals);
      SubstKeepsScope(r, callee, caller, actuals);
    case _ =>
  }

  lemma {:induction false} ValuedIn(below: seq<Expr>, l: Expr)
    ensures l in ValuedLiterals(below) <==> l in below && LiteralValue(l).Some?
  {
    if below != [] {
      ValuedIn(below[1..], l);
      assert l in below <==> l == below[0] || l in below[1..];
    }
  }

  /** A literal with a value below an expression is one of its literals. */
  lemma {:induction false} BelowIsLiteral(e: Expr, l: Expr)
    requires l in LiteralsBelow(e) && LiteralValue(l).Some?
    ensures l in Literals(e)
  {
    match e
    case Paren(inner) => BelowIsLiteral(inner, l);
    case Unary(_, arg) => BelowIsLiteral(arg, l);
    case Binary(_, a, b) =>
      if l in LiteralsBelow(a) {
        BelowIsLiteral(a, l);
      } else {
        BelowIsLiteral(b, l);
      }
    case Opaque(_, inside) => ValuedIn(LiteralsInside(inside), l);
    case _ =>
  }

  lemma {:induction false} SubstBelow(e: Expr, actuals: map<Index, Expr>, l: Expr)
    requires l in LiteralsBelow(Subst(e, actuals))
    ensures l in LiteralsBelow(e) || exists i :: i in actuals && l in LiteralsBelow(actuals[i])
  {
    match e
    case Paren(inner) => SubstBelow(inner, actuals, l);
    case Unary(_, arg) => SubstBelow(arg, actuals, l);
    case Binary(_, a, b) =>
      if l in LiteralsBelow(Subst(a, actuals)) {
        SubstBelow(a, actuals, l);
      } else {
        SubstBelow(b, actuals, l);
      }
    case Opaque(_, inside) => SubstInsideBelow(inside, actuals, l);
    case _ =>
  }

  lemma {:induction false} SubstInsideBelow(inside: Inside, actuals: map<Index, Expr>, l: Expr)
    requires l in LiteralsInside(SubstInside(inside, actuals))
    ensures l in LiteralsInside(inside) || exists i :: i in actuals && l in LiteralsBelow(actuals[i])
  {
    if inside.Part? {
      if l in LiteralsBelow(Subst(inside.part, actuals)) {
        SubstBelow(inside.part, actuals, l);
      } else {
        SubstInsideBelow(inside.rest, actuals, l);
      }
    }
  }

  /** Substitution invents no literals: each one comes from the formula or from an actual,
      so evidence for those is evidence for the result. */
  lemma {:induction false} SubstKeepsLiterals(e: Expr, actuals: map<Index, Expr>, l: Expr)
    requires l in Literals(Subst(e, actuals))
    ensures l in Literals(e) || exists i :: i in actuals && l in Literals(actuals[i])
  {
    match e
    case Paren(inner) => SubstKeepsLiterals(inner, actuals, l);
    case Unary(_, arg) => SubstKeepsLiterals(arg, actuals, l);
    case Binary(_, a, b) =>
      if l in Literals(Subst(a, actuals)) {
        SubstKeepsLiterals(a, actuals, l);
      } else {
        SubstKeepsLiterals(b, actuals, l);
      }
    case Opaque(_, inside) =>
      ValuedIn(LiteralsInside(SubstInside(inside, actuals)), l);
      SubstInsideBelow(inside, actuals, l);
      ValuedIn(LiteralsInside(inside), l);
      forall i | i in actuals && l in LiteralsBelow(actuals[i]) ensures l in Literals(actuals[i]) {
        BelowIsLiteral(actuals[i], l);
      }
    case _ =>
  }

  // ------------------------------------------------ when a validated formula is unknown

  /** No opaque node and no string. */
  predicate Arithmetic(e: Expr) {
    match e
    case Paren(inner) => Arithmetic(inner)
    case Quoted(_, _) => IsInt(LiteralValue(e))
    case Unary(_, arg) => Arithmetic(arg)
    case Binary(_, l, r) => Arithmetic(l) && Arithmetic(r)
    case Opaque(_, _) => false
    case _ => true
  }

  ghost predicate AllLeavesKnown(scope: Scope, env: Env) {
    && (forall i: Index :: i <= scope.parameterCount ==> i in env.params && env.params[i].Int?)
    && (forall name :: name in scope.visible ==> name in env.constants && env.constants[name].Int?)
  }

  /** An evaluated node divides by zero or shifts by a negative count. */
  predicate Faults(e: Expr, env: Env) {
    match e
    case Paren(inner) => Faults(inner, env)
    case Unary(_, arg) => Faults(arg, env)
    case Binary(op, l, r) =>
      || Faults(l, env)
      || (!ShortCircuits(op, Eval(l, env)) && (Faults(r, env) || FaultsHere(op, Eval(r, env))))
    case _ => false
  }

  predicate ShortCircuits(op: BinaryOp, left: Option<Value>) {
    IsInt(left) && ((op == LogAnd && left.value.n == 0) || (op == LogOr && left.value.n != 0))
  }

  predicate FaultsHere(op: BinaryOp, right: Option<Value>) {
    IsInt(right) && ((op in {Div, Mod} && right.value.n == 0) || (op in {Shl, Shr} && right.value.n < 0))
  }

  lemma {:induction false} UnknownIffFaults(e: Expr, scope: Scope, env: Env)
    requires InScope(e, scope) && Arithmetic(e) && AllLeavesKnown(scope, env)
    ensures if Faults(e, env) then Eval(e, env) == None else IsInt(Eval(e, env))
  {
    match e
    case Paren(inner) => UnknownIffFaults(inner, scope, env);
    case Unary(_, arg) => UnknownIffFaults(arg, scope, env);
    case Binary(op, l, r) =>
      UnknownIffFaults(l, scope, env);
      UnknownIffFaults(r, scope, env);
    case _ =>
  }

  /** A validated formula without opaque nodes and strings, all of whose leaves are known
      integers, is unknown exactly through a zero divisor, a negative shift count, or the
      final magnitude test. */
  lemma ValidatedUnknownOnlyByFault(e: Expr, scope: Scope, params: map<Index, Value>, constants: map<string, Value>)
    requires InScope(e, scope) && Arithmetic(e) && AllLeavesKnown(scope, Env(params, constants, map[]))
    ensures var env := Env(params, constants, map[]);
            Evaluate(e, params, constants) == None <==>
              Faults(e, env) || (IsInt(Eval(e, env)) && Abs(Eval(e, env).value.n) > MAGNITUDE)
  {
    UnknownIffFaults(e, scope, Env(params, constants, map[]));
  }
}
