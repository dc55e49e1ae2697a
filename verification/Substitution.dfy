/** Placeholders: substitution on the text, on the syntax, and in the value. */
module Substitution {
  import opened Formula

  // ------------------------------------------------ on the syntax

  /** `substitute_placeholders` on the parsed formula: every known `$N` becomes the
      parenthesised actual, all at once. */
  function Subst(e: Expr, actuals: map<Index, Expr>): Expr {
    match e
    case Paren(inner) => Paren(Subst(inner, actuals))
    case Param(i) => if i in actuals then Paren(actuals[i]) else e
    case Unary(op, arg) => Unary(op, Subst(arg, actuals))
    case Binary(op, l, r) => Binary(op, Subst(l, actuals), Subst(r, actuals))
    case Opaque(leaf, inside) => Opaque(leaf, SubstInside(inside, actuals))
    case _ => e
  }

  function SubstInside(inside: Inside, actuals: map<Index, Expr>): Inside {
    match inside
    case End(_) => inside
    case Part(text, part, rest) => Part(text, Subst(part, actuals), SubstInside(rest, actuals))
  }

  // ------------------------------------------------ on the text

  /** What the scanner for literals and placeholders sees. */
  datatype Token = Placeholder(index: Index) | Literal(literal: Expr) | Other(text: string)

  function UnaryText(op: UnaryOp): string {
    match op
    case Plus => "+"
    case Minus => "-"
    case BitNot => "~"
    case LogNot => "!"
  }

  function BinaryText(op: BinaryOp): string {
    match op
    case Add => "+" case Sub => "-" case Mul => "*" case Div => "/" case Mod => "%"
    case Shl => "<<" case Shr => ">>" case BitAnd => "&" case BitOr => "|" case BitXor => "^"
    case Eq => "==" case Ne => "!=" case Lt => "<" case Le => "<=" case Gt => ">" case Ge => ">="
    case LogAnd => "&&" case LogOr => "||"
  }

  function Text(e: Expr): seq<Token> {
    match e
    case Paren(inner) => [Other("(")] + Text(inner) + [Other(")")]
    case Number(text) => [Other(text)]
    case Quoted(_, _) => [Literal(e)]
    case Bool(b) => [Other(if b then "true" else "false")]
    case Param(i) => [Placeholder(i)]
    case Name(name) => [Other(name)]
    case Unary(op, arg) => [Other(UnaryText(op))] + Text(arg)
    case Binary(op, l, r) => Text(l) + [Other(BinaryText(op))] + Text(r)
    case Opaque(_, inside) => InsideText(inside)
  }

  function InsideText(inside: Inside): seq<Token> {
    match inside
    case End(text) => [Other(text)]
    case Part(text, part, rest) => [Other(text)] + Text(part) + InsideText(rest)
  }

  function Texts(actuals: map<Index, Expr>): map<Index, seq<Token>> {
    map i | i in actuals :: Text(actuals[i])
  }

  /** `_LITERAL_OR_PLACEHOLDER.sub`: one left-to-right pass that leaves literals alone. */
  function SubstText(tokens: seq<Token>, actuals: map<Index, seq<Token>>): seq<Token> {
    if tokens == [] then []
    else
      (match tokens[0]
       case Placeholder(i) => if i in actuals then [Other("(")] + actuals[i] + [Other(")")] else [tokens[0]]
       case _ => [tokens[0]])
      + SubstText(tokens[1..], actuals)
  }

  lemma {:induction false} SubstTextConcat(a: seq<Token>, b: seq<Token>, actuals: map<Index, seq<Token>>)
    ensures SubstText(a + b, actuals) == SubstText(a, actuals) + SubstText(b, actuals)
  {
    if a == [] {
      assert a + b == b;
    } else {
      assert (a + b)[1..] == a[1..] + b;
      SubstTextConcat(a[1..], b, actuals);
    }
  }

  lemma SubstOther(t: Token, actuals: map<Index, seq<Token>>)
    requires !t.Placeholder?
    ensures SubstText([t], actuals) == [t]
  {
    assert [t][1..] == [];
  }

  lemma SubstInfix(a: seq<Token>, t: Token, b: seq<Token>, actuals: map<Index, seq<Token>>)
    requires !t.Placeholder?
    ensures SubstText(a + [t] + b, actuals) == SubstText(a, actuals) + [t] + SubstText(b, actuals)
  {
    SubstTextConcat(a + [t], b, actuals);
    SubstTextConcat(a, [t], actuals);
    SubstOther(t, actuals);
  }

  /** Anywhere in the text, a placeholder with an actual becomes that actual in parentheses, in which nothing is replaced
      any more; every other token stays. */
  lemma SubstTextAt(before: seq<Token>, t: Token, after: seq<Token>, actuals: map<Index, seq<Token>>)
    ensures SubstText(before + [t] + after, actuals) ==
      SubstText(before, actuals)
      + (if t.Placeholder? && t.index in actuals then [Other("(")] + actuals[t.index] + [Other(")")] else [t])
      + SubstText(after, actuals)
    ensures SubstText([], actuals) == []
  {
    SubstTextConcat(before + [t], after, actuals);
    SubstTextConcat(before, [t], actuals);
    assert [t][1..] == [];
  }

  /** Substituting in the text is substituting in the syntax. */
  lemma {:induction false} SubstTextIsSubst(e: Expr, actuals: map<Index, Expr>)
    ensures SubstText(Text(e), Texts(actuals)) == Text(Subst(e, actuals))
  {
    var texts := Texts(actuals);
    match e
    case Paren(inner) =>
      SubstTextIsSubst(inner, actuals);
      SubstTextConcat([Other("(")] + Text(inner), [Other(")")], texts);
      SubstTextConcat([Other("(")], Text(inner), texts);
      SubstOther(Other("("), texts);
      SubstOther(Other(")"), texts);
    case Param(i) =>
      assert Text(e)[1..] == [];
    case Unary(op, arg) =>
      SubstTextIsSubst(arg, actuals);
      SubstTextConcat([Other(UnaryText(op))], Text(arg), texts);
      SubstOther(Other(UnaryText(op)), texts);
    case Binary(op, l, r) =>
      SubstTextIsSubst(l, actuals);
      SubstTextIsSubst(r, actuals);
      SubstInfix(Text(l), Other(BinaryText(op)), Text(r), texts);
    case Opaque(_, inside) =>
      SubstInsideText(inside, actuals);
    case _ =>
      assert Subst(e, actuals) == e && |Text(e)| == 1;
      SubstOther(Text(e)[0], texts);
      assert Text(e) == [Text(e)[0]];
  }

  lemma {:induction false} SubstInsideText(inside: Inside, actuals: map<Index, Expr>)
    ensures SubstText(InsideText(inside), Texts(actuals)) == InsideText(SubstInside(inside, actuals))
  {
    var texts := Texts(actuals);
    SubstOther(Other(inside.text), texts);
    if inside.Part? {
      SubstTextIsSubst(inside.part, actuals);
      SubstInsideText(inside.rest, actuals);
      SubstTextConcat([Other(inside.text)] + Text(inside.part), InsideText(inside.rest), texts);
      SubstTextConcat([Other(inside.text)], Text(inside.part), texts);
    }
  }

  // ------------------------------------------------ placeholder_indices

  /** Distinct placeholders in order of first occurrence: `dict.fromkeys`. */
  method PlaceholderIndices(tokens: seq<Token>) returns (indices: seq<Index>)
    ensures forall a, b :: 0 <= a < b < |indices| ==> indices[a] != indices[b]
    ensures forall i: Index :: i in indices <==> Placeholder(i) in tokens
    ensures forall a, b, p :: 0 <= a < b < |indices| && 0 <= p < |tokens| && tokens[p] == Placeholder(indices[b]) ==>
              Placeholder(indices[a]) in tokens[..p]
  {
    indices := [];
    for k := 0 to |tokens|
      invariant forall a, b :: 0 <= a < b < |indices| ==> indices[a] != indices[b]
      invariant forall i: Index :: i in indices <==> Placeholder(i) in tokens[..k]
      invariant forall a, b, p :: 0 <= a < b < |indices| && 0 <= p < k && tokens[p] == Placeholder(indices[b]) ==>
                  Placeholder(indices[a]) in tokens[..p]
    {
      assert tokens[..k + 1] == tokens[..k] + [tokens[k]];
      match tokens[k]
      case Placeholder(i) =>
        if i !in indices {
          forall p | 0 <= p < k ensures tokens[p] != Placeholder(i) { assert tokens[p] in tokens[..k]; }
          indices := indices + [i];
        }
      case _ =>
    }
    assert tokens[..|tokens|] == tokens;
  }

  ghost predicate Mentions(e: Expr, i: Index) {
    Placeholder(i) in Text(e)
  }

  /** A formula depends on the parameters that `placeholder_indices` lists and on no others. */
  lemma {:induction false} DependsOnMentioned(e: Expr, env: Env, env': Env)
    requires env'.constants == env.constants && env'.leaves == env.leaves
    requires forall i: Index :: Mentions(e, i) ==> Lookup(env'.params, i) == Lookup(env.params, i)
    ensures Eval(e, env') == Eval(e, env)
  {
    match e
    case Paren(inner) =>
      assert forall i: Index :: Mentions(inner, i) ==> Mentions(e, i);
      DependsOnMentioned(inner, env, env');
    case Param(i) => assert Mentions(e, i);
    case Unary(_, arg) =>
      assert forall i: Index :: Mentions(arg, i) ==> Mentions(e, i);
      DependsOnMentioned(arg, env, env');
    case Binary(_, l, r) =>
      assert forall i: Index :: Mentions(l, i) || Mentions(r, i) ==> Mentions(e, i);
      DependsOnMentioned(l, env, env');
      DependsOnMentioned(r, env, env');
    case _ =>
  }

  // ------------------------------------------------ the substitution lemma

  /** The parameters of the callee: actuals evaluated in the caller, the rest as they are. */
  ghost function Bound(actuals: map<Index, Expr>, env: Env): map<Index, Value> {
    map i: Index | i in actuals.Keys + env.params.Keys &&
                 (if i in actuals then Eval(actuals[i], env).Some? else i in env.params) ::
      if i in actuals then Eval(actuals[i], env).value else env.params[i]
  }

  /** Evaluating the substituted formula is evaluating the formula with the values of the
      actuals. */
  lemma {:induction false} SubstitutionLemma(e: Expr, actuals: map<Index, Expr>, env: Env)
    ensures Eval(Subst(e, actuals), env) == Eval(e, env.(params := Bound(actuals, env)))
  {
    match e
    case Paren(inner) => SubstitutionLemma(inner, actuals, env);
    case Unary(_, arg) => SubstitutionLemma(arg, actuals, env);
    case Binary(_, l, r) =>
      SubstitutionLemma(l, actuals, env);
      SubstitutionLemma(r, actuals, env);
    case _ =>
  }

  /** Two hops as one: the actuals of the first with the second substituted into them. */
  function Compose(first: map<Index, Expr>, second: map<Index, Expr>): map<Index, Expr> {
    map i | i in first.Keys + second.Keys :: if i in first then Subst(first[i], second) else second[i]
  }

  lemma {:induction false} SubstComposes(e: Expr, first: map<Index, Expr>, second: map<Index, Expr>)
    ensures Subst(Subst(e, first), second) == Subst(e, Compose(first, second))
  {
    match e
    case Paren(inner) => SubstComposes(inner, first, second);
    case Unary(_, arg) => SubstComposes(arg, first, second);
    case Binary(_, l, r) =>
      SubstComposes(l, first, second);
      SubstComposes(r, first, second);
    case Opaque(_, inside) => SubstComposesInside(inside, first, second);
    case _ =>
  }

  lemma {:induction false} SubstComposesInside(inside: Inside, first: map<Index, Expr>, second: map<Index, Expr>)
    ensures SubstInside(SubstInside(inside, first), second) == SubstInside(inside, Compose(first, second))
  {
    if inside.Part? {
      SubstComposes(inside.part, first, second);
      SubstComposesInside(inside.rest, first, second);
    }
  }

  /** The values that `evaluate_formula` gives for the actuals, one hop earlier. */
  ghost function HopValues(actuals: map<Index, Expr>, params: map<Index, Value>, constants: map<string, Value>): map<Index, Value> {
    map i | i in actuals && Evaluate(actuals[i], params, constants).Some? ::
      Evaluate(actuals[i], params, constants).value
  }

  /** Evaluating hop by hop, with the magnitude test at each hop, gives a known result only
      if evaluating the composed formula gives the same one. */
  lemma HopByHop(e: Expr, actuals: map<Index, Expr>, params: map<Index, Value>, constants: map<string, Value>)
    ensures var hop := Evaluate(e, HopValues(actuals, params, constants), constants);
            hop.Some? ==> Evaluate(Subst(e, actuals), params, constants) == hop
  {
    var env := Env(params, constants, map[]);
    SubstitutionLemma(e, actuals, env);
    KnownIsStable(e, Env(HopValues(actuals, params, constants), constants, map[]), env.(params := Bound(actuals, env)));
  }

  /** Parameter values after a chain of calls; `hops[0]` holds the actuals of the innermost. */
  ghost function HopChain(hops: seq<map<Index, Expr>>, params: map<Index, Value>, constants: map<string, Value>): map<Index, Value> {
    if hops == [] then params else HopValues(hops[0], HopChain(hops[1..], params, constants), constants)
  }

  function SubstChain(e: Expr, hops: seq<map<Index, Expr>>): Expr
    decreases |hops|
  {
    if hops == [] then e else SubstChain(Subst(e, hops[0]), hops[1..])
  }

  /** A whole route: whatever the hop-by-hop evaluation finds, the one composed formula
      evaluates to in the outermost caller. */
  lemma {:induction false} RouteByHops(e: Expr, hops: seq<map<Index, Expr>>, params: map<Index, Value>, constants: map<string, Value>)
    ensures var hop := Evaluate(e, HopChain(hops, params, constants), constants);
            hop.Some? ==> Evaluate(SubstChain(e, hops), params, constants) == hop
    decreases |hops|
  {
    if hops != [] {
      HopByHop(e, hops[0], HopChain(hops[1..], params, constants), constants);
      RouteByHops(Subst(e, hops[0]), hops[1..], params, constants);
    }
  }
}
