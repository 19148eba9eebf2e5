/**
 calculator-plus: the second, separately written evaluator. Its errors carry no
 information and both / and % refuse a zero right operand.
 */
module CalculatorPlus {
  import opened Wrappers
  import opened CalculatorGrammar
  import opened CalculatorPlugin
  import opened CalculatorValues

  ghost predicate Agrees<N>(r: Option<N>, end: nat, spec: Parsed<N>) {
    match spec
    case Bad(_) => r == None
    case Value(v, next) => r == Some(v) && end == next
  }

  method ParseExprPlus<N>(a: Arithmetic<N>, t: seq<char>, c: Cursor) returns (r: Option<N>)
    requires c.pos <= |t|
    modifies c
    ensures c.pos <= |t| && Agrees(r, c.pos, ParseExpr(Plus, a, t, old(c.pos)))
    decreases |t| - c.pos, EXPR
  {
    var first := ParseTermPlus(a, t, c);
    if first.None? { return None; }
    var left := first.value;
    while c.pos < |t| && (t[c.pos] == '+' || t[c.pos] == '-')
      invariant old(c.pos) < c.pos <= |t|
      invariant ParseExpr(Plus, a, t, old(c.pos)) == ExprTail(Plus, a, t, c.pos, left)
      decreases |t| - c.pos
    {
      var op := t[c.pos];
      c.pos := c.pos + 1;
      var right := ParseTermPlus(a, t, c);
      if right.None? { return None; }
      left := if op == '+' then a.add(left, right.value) else a.sub(left, right.value);
    }
    return Some(left);
  }

  method ParseTermPlus<N>(a: Arithmetic<N>, t: seq<char>, c: Cursor) returns (r: Option<N>)
    requires c.pos <= |t|
    modifies c
    ensures c.pos <= |t| && Agrees(r, c.pos, ParseTerm(Plus, a, t, old(c.pos)))
    decreases |t| - c.pos, TERM
  {
    var first := ParseFactorPlus(a, t, c);
    if first.None? { return None; }
    var left := first.value;
    while c.pos < |t| && (t[c.pos] == '*' || t[c.pos] == '/' || t[c.pos] == '%')
      invariant old(c.pos) < c.pos <= |t|
      invariant ParseTerm(Plus, a, t, old(c.pos)) == TermTail(Plus, a, t, c.pos, left)
      decreases |t| - c.pos
    {
      var op := t[c.pos];
      c.pos := c.pos + 1;
      var factor := ParseFactorPlus(a, t, c);
      if factor.None? { return None; }
      var right := factor.value;
      if op == '*' {
        left := a.mul(left, right);
      } else if op == '/' && !a.isZero(right) {
        left := a.div(left, right);
      } else if op == '%' && !a.isZero(right) {
        left := a.rem(left, right);
      } else {
        return None;
      }
    }
    return Some(left);
  }

  method ParseFactorPlus<N>(a: Arithmetic<N>, t: seq<char>, c: Cursor) returns (r: Option<N>)
    requires c.pos <= |t|
    modifies c
    ensures c.pos <= |t| && Agrees(r, c.pos, ParseFactor(Plus, a, t, old(c.pos)))
    decreases |t| - c.pos, FACTOR
  {
    var base := ParseUnaryPlus(a, t, c);
    if base.None? { return None; }
    if c.pos < |t| && t[c.pos] == '^' {
      c.pos := c.pos + 1;
      var exp := ParseFactorPlus(a, t, c);
      return if exp.None? then None else Some(a.pow(base.value, exp.value));
    }
    return base;
  }

  method ParseUnaryPlus<N>(a: Arithmetic<N>, t: seq<char>, c: Cursor) returns (r: Option<N>)
    requires c.pos <= |t|
    modifies c
    ensures c.pos <= |t| && Agrees(r, c.pos, ParseUnary(Plus, a, t, old(c.pos)))
    decreases |t| - c.pos, UNARY
  {
    if c.pos < |t| && t[c.pos] == '-' {
      c.pos := c.pos + 1;
      var arg := ParseUnaryPlus(a, t, c);
      return if arg.None? then None else Some(a.neg(arg.value));
    }
    r := ParseAtomPlus(a, t, c);
  }

  method ParseAtomPlus<N>(a: Arithmetic<N>, t: seq<char>, c: Cursor) returns (r: Option<N>)
    requires c.pos <= |t|
    modifies c
    ensures c.pos <= |t| && Agrees(r, c.pos, ParseAtom(Plus, a, t, old(c.pos)))
    decreases |t| - c.pos, ATOM
  {
    if c.pos < |t| && t[c.pos] == '(' {
      c.pos := c.pos + 1;
      var v := ParseExprPlus(a, t, c);
      if v.None? || c.pos >= |t| || t[c.pos] != ')' { return None; }
      c.pos := c.pos + 1;
      return v;
    }
    var start := c.pos;
    while c.pos < |t| && ('0' <= t[c.pos] <= '9' || t[c.pos] == '.')
      invariant start <= c.pos <= |t|
      invariant NumberEnd(t, start) == NumberEnd(t, c.pos)
      decreases |t| - c.pos
    {
      c.pos := c.pos + 1;
    }
    if start == c.pos { return None; }
    return a.parse(t[start..c.pos]);
  }

  /** calculator-plus answers v exactly when calculator-plugin does without taking a remainder by zero. */
  method EvaluateText<N>(a: Arithmetic<N>, input: string) returns (r: Option<N>)
    ensures forall v :: r == Some(v) <==>
            && Evaluate(Plugin, a, input) == Ok(v)
            && exists e :: IsTreeOf(e, input) && NoZeroRemainder(a, e)
    ensures forall v :: r == Some(v) <==> IsWorth(Plus, a, input, v)
  {
    forall v {
      PlusRefinesPlugin(a, input, v);
    }
    forall v {
      EvaluateExactly(Plus, a, input, v);
    }
    if input == "" { return None; }
    var tokens := Strip(input);
    var c := new Cursor();
    r := ParseExprPlus(a, tokens, c);
    if r.Some? && (c.pos != |tokens| || a.isNan(r.value) || a.isInfinite(r.value)) { r := None; }
  }
}
