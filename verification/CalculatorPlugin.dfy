/**
 calculator-plugin: the recursive-descent evaluator over a mutable cursor, each
 procedure proved to read exactly what the grammar's reading function says.
 */
module CalculatorPlugin {
  import opened Wrappers
  import opened CalculatorGrammar
  import opened CalculatorValues

  class Cursor {
    var pos: nat

    constructor ()
      ensures pos == 0
    {
      pos := 0;
    }
  }

  /** `r` and the final cursor are what reading from the old cursor yields. */
  ghost predicate Reads<N>(r: Result<N, CalcError>, end: nat, spec: Parsed<N>) {
    match spec
    case Bad(e) => r == Err(e)
    case Value(v, next) => r == Ok(v) && end == next
  }

  method Expr<N>(a: Arithmetic<N>, t: seq<char>, c: Cursor) returns (r: Result<N, CalcError>)
    requires c.pos <= |t|
    modifies c
    ensures c.pos <= |t| && Reads(r, c.pos, ParseExpr(Plugin, a, t, old(c.pos)))
    decreases |t| - c.pos, EXPR
  {
    var first := Term(a, t, c);
    if first.Err? { return first; }
    var left := first.value;
    while c.pos < |t| && (t[c.pos] == '+' || t[c.pos] == '-')
      invariant old(c.pos) < c.pos <= |t|
      invariant ParseExpr(Plugin, a, t, old(c.pos)) == ExprTail(Plugin, a, t, c.pos, left)
      decreases |t| - c.pos
    {
      var op := t[c.pos];
      c.pos := c.pos + 1;
      var right := Term(a, t, c);
      if right.Err? { return right; }
      left := if op == '+' then a.add(left, right.value) else a.sub(left, right.value);
    }
    return Ok(left);
  }

  method Term<N>(a: Arithmetic<N>, t: seq<char>, c: Cursor) returns (r: Result<N, CalcError>)
    requires c.pos <= |t|
    modifies c
    ensures c.pos <= |t| && Reads(r, c.pos, ParseTerm(Plugin, a, t, old(c.pos)))
    decreases |t| - c.pos, TERM
  {
    var first := Factor(a, t, c);
    if first.Err? { return first; }
    var left := first.value;
    while c.pos < |t| && (t[c.pos] == '*' || t[c.pos] == '/' || t[c.pos] == '%')
      invariant old(c.pos) < c.pos <= |t|
      invariant ParseTerm(Plugin, a, t, old(c.pos)) == TermTail(Plugin, a, t, c.pos, left)
      decreases |t| - c.pos
    {
      var op := t[c.pos];
      c.pos := c.pos + 1;
      var right := Factor(a, t, c);
      if right.Err? { return right; }
      var v := Operate(a, op, left, right.value);
      if v.Err? { return v; }
      left := v.value;
    }
    return Ok(left);
  }

  /** The three operators of a term. */
  method Operate<N>(a: Arithmetic<N>, op: char, x: N, y: N) returns (r: Result<N, CalcError>)
    requires IsMultiplicative(op)
    ensures r == Apply(Plugin, a, op, x, y)
  {
    match op {
      case '*' => return Ok(a.mul(x, y));
      case '/' =>
        if a.isZero(y) { return Err(DivisionByZero); }
        return Ok(a.div(x, y));
      case _ => return Ok(a.rem(x, y));
    }
  }

  method Factor<N>(a: Arithmetic<N>, t: seq<char>, c: Cursor) returns (r: Result<N, CalcError>)
    requires c.pos <= |t|
    modifies c
    ensures c.pos <= |t| && Reads(r, c.pos, ParseFactor(Plugin, a, t, old(c.pos)))
    decreases |t| - c.pos, FACTOR
  {
    var base := Unary(a, t, c);
    if base.Err? { return base; }
    if c.pos < |t| && t[c.pos] == '^' {
      c.pos := c.pos + 1;
      var exp := Factor(a, t, c);
      if exp.Err? { return exp; }
      return Ok(a.pow(base.value, exp.value));
    }
    return base;
  }

  method Unary<N>(a: Arithmetic<N>, t: seq<char>, c: Cursor) returns (r: Result<N, CalcError>)
    requires c.pos <= |t|
    modifies c
    ensures c.pos <= |t| && Reads(r, c.pos, ParseUnary(Plugin, a, t, old(c.pos)))
    decreases |t| - c.pos, UNARY
  {
    if c.pos < |t| && t[c.pos] == '-' {
      c.pos := c.pos + 1;
      var arg := Unary(a, t, c);
      if arg.Err? { return arg; }
      return Ok(a.neg(arg.value));
    }
    r := Atom(a, t, c);
  }

  method Atom<N>(a: Arithmetic<N>, t: seq<char>, c: Cursor) returns (r: Result<N, CalcError>)
    requires c.pos <= |t|
    modifies c
    ensures c.pos <= |t| && Reads(r, c.pos, ParseAtom(Plugin, a, t, old(c.pos)))
    decreases |t| - c.pos, ATOM
  {
    if c.pos < |t| && t[c.pos] == '(' {
      c.pos := c.pos + 1;
      var v := Expr(a, t, c);
      if v.Err? { return v; }
      if c.pos >= |t| || t[c.pos] != ')' { return Err(MissingParenthesis); }
      c.pos := c.pos + 1;
      return v;
    }
    var start := c.pos;
    while c.pos < |t| && ('0' <= t[c.pos] <= '9' || t[c.pos] == '.')
      invariant start <= c.pos <= |t|
      invariant NumberEnd(t, start) == NumberEnd(t, c.pos)
      decreases |t| - c.pos
    {
      c.pos := c.pos + 1;
    }
    if start == c.pos { return Err(ExpectedNumber(start + 1)); }
    match a.parse(t[start..c.pos])
    case Some(v) => return Ok(v);
    case None => return Err(BadNumber(t[start..c.pos]));
  }

  method EvaluateText<N>(a: Arithmetic<N>, input: string) returns (r: Result<N, CalcError>)
    ensures r == Evaluate(Plugin, a, input)
    ensures forall v :: r == Ok(v) <==> IsWorth(Plugin, a, input, v)
    ensures r.Err? ==> InputFault(Plugin, a, input, r.error)
  {
    forall v {
      EvaluateExactly(Plugin, a, input, v);
    }
    if Evaluate(Plugin, a, input).Err? { ErrorsAreTrue(Plugin, a, input); }
    var tokens := Strip(input);
    var c := new Cursor();
    r := Expr(a, tokens, c);
    if r.Err? { return; }
    if c.pos != |tokens| { return Err(UnexpectedCharacter(c.pos + 1)); }
    if a.isNan(r.value) || a.isInfinite(r.value) { return Err(NotFinite); }
  }
}
