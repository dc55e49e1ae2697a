/** What validation looks at, leaf by leaf, and the literals it collects. */
module FormulaLeaves {
  import opened Formula
  import opened IntegerLiterals
  import S = Substitution
  import opened Validation

  /** The leaves of the syntax tree; an opaque expression is one leaf. */
  predicate IsLeaf(l: Expr, e: Expr) {
    match e
    case Paren(inner) => IsLeaf(l, inner)
    case Unary(_, arg) => IsLeaf(l, arg)
    case Binary(_, left, right) => IsLeaf(l, left) || IsLeaf(l, right)
    case _ => l == e
  }

  /** Numbers that spell a value, quoted text that the literal parser takes, parameters that exist, visible names, and opaque
      expressions where they are allowed. */
  ghost predicate Admitted(l: Expr, scope: Scope) {
    match l
    case Number(text) => exists n: nat :: SpellsNumber(text, n)
    case Quoted(_, parsed) => parsed.Some?
    case Param(i) => i <= scope.parameterCount
    case Name(name) => name in scope.visible || name == "true" || name == "false"
    case Opaque(_, _) => scope.allowOpaque
    case _ => true
  }

  lemma LeafInScope(l: Expr, scope: Scope)
    requires l.Number? || l.Quoted? || l.Bool? || l.Param? || l.Name? || l.Opaque?
    ensures InScope(l, scope) <==> Admitted(l, scope)
  {
    hide SpellsNumber, IntegerValue;
    if l.Number? {
      HasValueIffSpelled(l.text);
    }
  }

  /** A formula is accepted exactly if all its leaves are admitted. */
  lemma {:induction false} InScopeIff(e: Expr, scope: Scope)
    ensures InScope(e, scope) <==> forall l :: IsLeaf(l, e) ==> Admitted(l, scope)
  {
    hide Admitted;
    match e
    case Paren(inner) => InScopeIff(inner, scope);
    case Unary(_, arg) => InScopeIff(arg, scope);
    case Binary(_, left, right) =>
      InScopeIff(left, scope);
      InScopeIff(right, scope);
    case _ => LeafInScope(e, scope);
  }

  // ------------------------------------------------ the literals

  predicate IsLiteral(l: Expr) {
    l.Number? || l.Quoted?
  }

  /** A literal occurs in the text of an expression, also inside opaque ones. */
  predicate Occurs(l: Expr, e: Expr) {
    match e
    case Paren(inner) => Occurs(l, inner)
    case Unary(_, arg) => Occurs(l, arg)
    case Binary(_, left, right) => Occurs(l, left) || Occurs(l, right)
    case Opaque(_, inside) => OccursInside(l, inside)
    case _ => l == e
  }

  predicate OccursInside(l: Expr, inside: Inside) {
    match inside
    case End(_) => false
    case Part(_, part, rest) => Occurs(l, part) || OccursInside(l, rest)
  }

  lemma {:induction false} BelowIff(e: Expr, l: Expr)
    ensures l in LiteralsBelow(e) <==> IsLiteral(l) && Occurs(l, e)
  {
    match e
    case Paren(inner) => BelowIff(inner, l);
    case Unary(_, arg) => BelowIff(arg, l);
    case Binary(_, left, right) =>
      BelowIff(left, l);
      BelowIff(right, l);
    case Opaque(_, inside) => InsideIff(inside, l);
    case _ =>
  }

  lemma {:induction false} InsideIff(inside: Inside, l: Expr)
    ensures l in LiteralsInside(inside) <==> IsLiteral(l) && OccursInside(l, inside)
  {
    if inside.Part? {
      BelowIff(inside.part, l);
      InsideIff(inside.rest, l);
    }
  }

  /** The number or quoted text has a value. */
  ghost predicate HasValue(l: Expr) {
    (l.Number? && exists n: nat :: SpellsNumber(l.text, n)) || (l.Quoted? && l.parsed.Some?)
  }

  lemma HasValueIff(l: Expr)
    ensures LiteralValue(l).Some? <==> HasValue(l)
  {
    hide SpellsNumber, IntegerValue;
    if l.Number? {
      HasValueIffSpelled(l.text);
    }
  }

  /** Collected are the literal leaves, and the literals with a value inside opaque leaves. */
  ghost predicate Collected(l: Expr, e: Expr) {
    || (IsLiteral(l) && IsLeaf(l, e))
    || (HasValue(l) && exists o :: IsLeaf(o, e) && o.Opaque? && OccursInside(l, o.inside))
  }

  lemma OpaqueCollects(leaf: nat, inside: Inside, l: Expr)
    ensures l in Literals(Opaque(leaf, inside)) <==> Collected(l, Opaque(leaf, inside))
  {
    hide HasValue, OccursInside;
    ValuedIn(LiteralsInside(inside), l);
    InsideIff(inside, l);
    HasValueIff(l);
    assert HasValue(l) ==> IsLiteral(l) by { ValuesAreLiterals(l); }
    assert IsLeaf(Opaque(leaf, inside), Opaque(leaf, inside));
  }

  lemma ValuesAreLiterals(l: Expr)
    ensures HasValue(l) ==> IsLiteral(l)
  {
  }

  lemma {:induction false} LiteralsAre(e: Expr, l: Expr)
    ensures l in Literals(e) <==> Collected(l, e)
  {
    hide HasValue, OccursInside;
    match e
    case Paren(inner) => LiteralsAre(inner, l);
    case Unary(_, arg) => LiteralsAre(arg, l);
    case Binary(_, left, right) =>
      LiteralsAre(left, l);
      LiteralsAre(right, l);
    case Opaque(leaf, inside) => OpaqueCollects(leaf, inside, l);
    case _ =>
  }

  // ------------------------------------------------ in source order

  /** The token that a literal is in the text. */
  function TokenOf(l: Expr): S.Token {
    if l.Number? then S.Other(l.text) else S.Literal(l)
  }

  /** The literals stand in the text at `at`, one behind the other. */
  ghost predicate StandIn(literals: seq<Expr>, tokens: seq<S.Token>, at: seq<nat>) {
    && |at| == |literals|
    && (forall n :: 0 <= n < |at| ==> at[n] < |tokens| && tokens[at[n]] == TokenOf(literals[n]))
    && (forall m, n :: 0 <= m < n < |at| ==> at[m] < at[n])
  }

  function Moved(at: seq<nat>, offset: nat): (r: seq<nat>)
    ensures |r| == |at| && forall n :: 0 <= n < |at| ==> r[n] == at[n] + offset
  {
    seq(|at|, n requires 0 <= n < |at| => at[n] + offset)
  }

  lemma StandBehind(before: seq<S.Token>, literals: seq<Expr>, tokens: seq<S.Token>, after: seq<S.Token>, at: seq<nat>)
    requires StandIn(literals, tokens, at)
    ensures StandIn(literals, before + tokens + after, Moved(at, |before|))
  {
    hide TokenOf;
  }

  lemma StandBoth(a: seq<Expr>, s: seq<S.Token>, at: seq<nat>, b: seq<Expr>, t: seq<S.Token>, bt: seq<nat>)
    requires StandIn(a, s, at) && StandIn(b, t, bt)
    ensures StandIn(a + b, s + t, at + Moved(bt, |s|))
  {
    hide TokenOf;
  }

  lemma StandNowhere(tokens: seq<S.Token>)
    ensures StandIn([], tokens, [])
  {
  }

  lemma {:induction false} BelowStand(e: Expr) returns (at: seq<nat>)
    ensures StandIn(LiteralsBelow(e), S.Text(e), at)
  {
    hide StandIn;
    at := [];
    StandNowhere(S.Text(e));
    match e
    case Paren(inner) =>
      var inside := BelowStand(inner);
      StandBehind([S.Other("(")], LiteralsBelow(inner), S.Text(inner), [S.Other(")")], inside);
      at := Moved(inside, 1);
    case Unary(op, arg) =>
      var inside := BelowStand(arg);
      StandBehind([S.Other(S.UnaryText(op))], LiteralsBelow(arg), S.Text(arg), [], inside);
      assert [S.Other(S.UnaryText(op))] + S.Text(arg) + [] == S.Text(e);
      at := Moved(inside, 1);
    case Binary(op, left, right) =>
      var a := BelowStand(left);
      var b := BelowStand(right);
      at := BinaryStand(op, LiteralsBelow(left), S.Text(left), a, LiteralsBelow(right), S.Text(right), b);
    case Opaque(_, inside) => at := InsideStand(inside);
    case Number(_) => at := OneStands(e);
    case Quoted(_, _) => at := OneStands(e);
    case _ =>
  }

  lemma OneStands(e: Expr) returns (at: seq<nat>)
    requires IsLiteral(e)
    ensures StandIn([e], S.Text(e), at)
  {
    at := [0];
  }

  lemma BinaryStand(op: BinaryOp, a: seq<Expr>, s: seq<S.Token>, at: seq<nat>, b: seq<Expr>, t: seq<S.Token>, bt: seq<nat>)
    returns (r: seq<nat>)
    requires StandIn(a, s, at) && StandIn(b, t, bt)
    ensures StandIn(a + b, s + [S.Other(S.BinaryText(op))] + t, r)
  {
    hide StandIn;
    var o := [S.Other(S.BinaryText(op))];
    StandBehind([], a, s, o, at);
    assert [] + s + o == s + o;
    StandBoth(a, s + o, Moved(at, 0), b, t, bt);
    r := Moved(at, 0) + Moved(bt, |s + o|);
  }

  lemma {:induction false} InsideStand(inside: Inside) returns (at: seq<nat>)
    ensures StandIn(LiteralsInside(inside), S.InsideText(inside), at)
  {
    hide StandIn;
    match inside
    case End(_) =>
      at := [];
      StandNowhere(S.InsideText(inside));
    case Part(text, part, rest) =>
      var a := BelowStand(part);
      var b := InsideStand(rest);
      StandBehind([S.Other(text)], LiteralsBelow(part), S.Text(part), [], a);
      assert [S.Other(text)] + S.Text(part) + [] == [S.Other(text)] + S.Text(part);
      StandBoth(LiteralsBelow(part), [S.Other(text)] + S.Text(part), Moved(a, 1), LiteralsInside(rest), S.InsideText(rest), b);
      at := Moved(a, 1) + Moved(b, |[S.Other(text)] + S.Text(part)|);
  }

  lemma {:induction false} ValuedStand(literals: seq<Expr>, tokens: seq<S.Token>, at: seq<nat>) returns (r: seq<nat>)
    requires StandIn(literals, tokens, at)
    ensures StandIn(ValuedLiterals(literals), tokens, r)
    ensures forall n :: 0 <= n < |r| ==> at != [] && r[n] >= at[0]
  {
    hide LiteralValue, StandIn;
    r := [];
    if literals == [] {
      StandNowhere(tokens);
    } else {
      FirstStands(literals, tokens, at);
      r := ValuedStand(literals[1..], tokens, at[1..]);
      var rest := ValuedLiterals(literals[1..]);
      if LiteralValue(literals[0]).Some? {
        StandAfter(literals[0], rest, tokens, at[0], r);
        r := [at[0]] + r;
      } else {
        assert [] + rest == rest;
      }
    }
  }

  lemma FirstStands(literals: seq<Expr>, tokens: seq<S.Token>, at: seq<nat>)
    requires literals != [] && StandIn(literals, tokens, at)
    ensures |at| == |literals| && StandIn(literals[1..], tokens, at[1..])
    ensures at[0] < |tokens| && tokens[at[0]] == TokenOf(literals[0])
    ensures |at| > 1 ==> at[1] > at[0]
  {
    hide TokenOf;
  }

  lemma StandAfter(first: Expr, rest: seq<Expr>, tokens: seq<S.Token>, n: nat, at: seq<nat>)
    requires StandIn(rest, tokens, at) && n < |tokens| && tokens[n] == TokenOf(first)
    requires forall m :: 0 <= m < |at| ==> n < at[m]
    ensures StandIn([first] + rest, tokens, [n] + at)
  {
    hide TokenOf;
  }

  /** The literals are collected in the order of the text. */
  lemma {:induction false} LiteralsStand(e: Expr) returns (at: seq<nat>)
    ensures StandIn(Literals(e), S.Text(e), at)
  {
    hide StandIn;
    at := [];
    StandNowhere(S.Text(e));
    match e
    case Paren(inner) =>
      var inside := LiteralsStand(inner);
      StandBehind([S.Other("(")], Literals(inner), S.Text(inner), [S.Other(")")], inside);
      at := Moved(inside, 1);
    case Unary(op, arg) =>
      var inside := LiteralsStand(arg);
      StandBehind([S.Other(S.UnaryText(op))], Literals(arg), S.Text(arg), [], inside);
      assert [S.Other(S.UnaryText(op))] + S.Text(arg) + [] == S.Text(e);
      at := Moved(inside, 1);
    case Binary(op, left, right) =>
      var a := LiteralsStand(left);
      var b := LiteralsStand(right);
      at := BinaryStand(op, Literals(left), S.Text(left), a, Literals(right), S.Text(right), b);
    case Opaque(_, inside) =>
      var all := InsideStand(inside);
      at := ValuedStand(LiteralsInside(inside), S.InsideText(inside), all);
    case Number(_) => at := OneStands(e);
    case Quoted(_, _) => at := OneStands(e);
    case _ =>
  }
}
