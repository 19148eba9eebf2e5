/**
 What the calculators' texts are worth, said without their parsers: a tree has a value exactly if its
 numerals can be read and nothing in it is divided by zero, and then the value is the obvious one.
 */
module CalculatorValues {
  import opened CalculatorGrammar
  import opened Text
  import opened Wrappers

  /** Every numeral of the tree can be read. */
  predicate Readable<N>(a: Arithmetic<N>, e: Tree) {
    match e
    case Number(s) => a.parse(s).Some?
    case Group(x) => Readable(a, x)
    case Neg(x) => Readable(a, x)
    case Bin(_, l, r) => Readable(a, l) && Readable(a, r)
  }

  /** The value the operators give, with no regard to zeros. */
  function Worth<N>(a: Arithmetic<N>, e: Tree): N
    requires Readable(a, e)
  {
    match e
    case Number(s) => a.parse(s).value
    case Group(x) => Worth(a, x)
    case Neg(x) => a.neg(Worth(a, x))
    case Bin(op, l, r) =>
      var x, y := Worth(a, l), Worth(a, r);
      if op == '+' then a.add(x, y)
      else if op == '-' then a.sub(x, y)
      else if op == '*' then a.mul(x, y)
      else if op == '/' then a.div(x, y)
      else if op == '^' then a.pow(x, y)
      else a.rem(x, y)
  }

  /** The operators that refuse a zero on their right. */
  predicate Refuses(d: Dialect, op: char) { op == '/' || (op == '%' && d == Plus) }

  /** No operand on the right of a refusing operator is zero. */
  predicate Divisible<N>(d: Dialect, a: Arithmetic<N>, e: Tree)
    requires Readable(a, e)
  {
    match e
    case Number(_) => true
    case Group(x) => Divisible(d, a, x)
    case Neg(x) => Divisible(d, a, x)
    case Bin(op, l, r) =>
      Divisible(d, a, l) && Divisible(d, a, r) && (Refuses(d, op) ==> !a.isZero(Worth(a, r)))
  }

  lemma OperatorIsKnown(e: Tree, level: nat)
    requires e.Bin? && Fits(e, level)
    ensures e.op in "+-*/%^" && Fits(e.left, EXPR) && Fits(e.right, EXPR)
  {
    FitsWiden(e.left, UNARY, EXPR);
    FitsWiden(e.left, TERM, EXPR);
    FitsWiden(e.right, FACTOR, EXPR);
    FitsWiden(e.right, TERM, EXPR);
  }

  /** A tree means something exactly if it is readable and divisible, and then it means its worth. */
  lemma {:induction false} MeaningExactly<N>(d: Dialect, a: Arithmetic<N>, e: Tree, level: nat)
    requires Fits(e, level)
    ensures Meaning(d, a, e).Ok? <==> Readable(a, e) && Divisible(d, a, e)
    ensures Meaning(d, a, e).Ok? ==> Meaning(d, a, e).value == Worth(a, e)
    decreases e
  {
    match e
    case Number(_) =>
    case Group(x) => MeaningExactly(d, a, x, EXPR);
    case Neg(x) => MeaningExactly(d, a, x, UNARY);
    case Bin(op, l, r) =>
      OperatorIsKnown(e, level);
      MeaningExactly(d, a, l, EXPR);
      MeaningExactly(d, a, r, EXPR);
  }

  ghost predicate Within(part: Tree, e: Tree) {
    || part == e
    || match e
       case Number(_) => false
       case Group(x) => Within(part, x)
       case Neg(x) => Within(part, x)
       case Bin(_, l, r) => Within(part, l) || Within(part, r)
  }

  /** Some operand on the right of `op` in the tree has a value, and it is zero. */
  ghost predicate HasZeroRight<N>(d: Dialect, a: Arithmetic<N>, e: Tree, op: char) {
    exists l, r :: Within(Bin(op, l, r), e) && Readable(a, r) && Divisible(d, a, r) && a.isZero(Worth(a, r))
  }

  ghost predicate HasFault<N>(d: Dialect, a: Arithmetic<N>, e: Tree, fault: CalcError) {
    match fault
    case DivisionByZero => HasZeroRight(d, a, e, '/')
    case RemainderByZero => d == Plus && HasZeroRight(d, a, e, '%')
    case BadNumber(s) => Within(Number(s), e) && a.parse(s) == None
    case _ => false
  }

  lemma FaultOfPart<N>(d: Dialect, a: Arithmetic<N>, e: Tree, x: Tree, fault: CalcError)
    requires HasFault(d, a, x, fault) && (forall part :: Within(part, x) ==> Within(part, e))
    ensures HasFault(d, a, e, fault)
  {
    if fault == DivisionByZero || fault == RemainderByZero {
      var op := if fault == DivisionByZero then '/' else '%';
      var l, r :| Within(Bin(op, l, r), x) && Readable(a, r) && Divisible(d, a, r) && a.isZero(Worth(a, r));
      assert Within(Bin(op, l, r), e);
    }
  }

  /** An error names a fault that is in the tree. */
  lemma {:induction false} FaultIsThere<N>(d: Dialect, a: Arithmetic<N>, e: Tree, level: nat)
    requires Fits(e, level) && Meaning(d, a, e).Err?
    ensures HasFault(d, a, e, Meaning(d, a, e).error)
    decreases e
  {
    match e
    case Number(_) =>
    case Group(x) =>
      FaultIsThere(d, a, x, EXPR);
      FaultOfPart(d, a, e, x, Meaning(d, a, x).error);
    case Neg(x) =>
      FaultIsThere(d, a, x, UNARY);
      FaultOfPart(d, a, e, x, Meaning(d, a, x).error);
    case Bin(op, l, r) =>
      OperatorIsKnown(e, level);
      if Meaning(d, a, l).Err? {
        FaultIsThere(d, a, l, EXPR);
        FaultOfPart(d, a, e, l, Meaning(d, a, l).error);
      } else if Meaning(d, a, r).Err? {
        FaultIsThere(d, a, r, EXPR);
        FaultOfPart(d, a, e, r, Meaning(d, a, r).error);
      } else {
        MeaningExactly(d, a, r, EXPR);
        assert Within(Bin(op, l, r), e);
      }
  }

  // ---------------------------------------------------------------- whole inputs

  /** The text has the value v: it is the text of a readable, divisible tree worth v, and v is finite. */
  ghost predicate IsWorth<N>(d: Dialect, a: Arithmetic<N>, input: string, v: N) {
    && !a.isNan(v) && !a.isInfinite(v)
    && exists e :: IsTreeOf(e, input) && Readable(a, e) && Divisible(d, a, e) && Worth(a, e) == v
  }

  lemma EvaluateExactly<N>(d: Dialect, a: Arithmetic<N>, input: string, v: N)
    ensures Evaluate(d, a, input) == Ok(v) <==> IsWorth(d, a, input, v)
  {
    EvaluateIff(d, a, input, v);
    if e :| IsTreeOf(e, input) && Meaning(d, a, e) == Ok(v) { MeaningExactly(d, a, e, EXPR); }
    if e :| IsTreeOf(e, input) && Readable(a, e) && Divisible(d, a, e) && Worth(a, e) == v {
      MeaningExactly(d, a, e, EXPR);
    }
  }

  // ---------------------------------------------------------------- what an error says about the text

  /** The part of the text from i on starts with the text of a tree that fits the level and has the given value. */
  ghost predicate StandsAt<N>(d: Dialect, a: Arithmetic<N>, t: seq<char>, i: nat, e: Tree, level: nat) {
    Fits(e, level) && At(t, i, Show(e)) && Readable(a, e) && Divisible(d, a, e)
  }

  ghost predicate ZeroFollows<N>(d: Dialect, a: Arithmetic<N>, t: seq<char>, op: char) {
    exists i: nat, e :: i < |t| && t[i] == op && StandsAt(d, a, t, i + 1, e, FACTOR) && a.isZero(Worth(a, e))
  }

  predicate Closes(t: seq<char>, end: nat) { end < |t| && t[end] == ')' }

  /** A whole expression after an opening parenthesis is not followed by a closing one. */
  ghost predicate LeftOpen<N>(d: Dialect, a: Arithmetic<N>, t: seq<char>) {
    exists i: nat, e :: i < |t| && t[i] == '(' && StandsAt(d, a, t, i + 1, e, EXPR) && !Closes(t, i + 1 + |Show(e)|)
  }

  ghost predicate UnreadableRun<N>(a: Arithmetic<N>, t: seq<char>, s: string) {
    IsLexeme(s) && a.parse(s) == None &&
    exists i: nat :: At(t, i, s) && (i + |s| < |t| ==> !IsNumberChar(t[i + |s|]))
  }

  /** The error of a reading says something true of the text, stripped of white space. Positions count from 1. */
  ghost predicate TextFault<N>(d: Dialect, a: Arithmetic<N>, t: seq<char>, fault: CalcError) {
    match fault
    case ExpectedNumber(k) =>
      && 1 <= k <= |t| + 1
      && (k <= |t| ==> !IsNumberChar(t[k - 1]) && t[k - 1] != '(' && t[k - 1] != '-')
    case BadNumber(s) => UnreadableRun(a, t, s)
    case MissingParenthesis => LeftOpen(d, a, t)
    case DivisionByZero => ZeroFollows(d, a, t, '/')
    case RemainderByZero => d == Plus && ZeroFollows(d, a, t, '%')
    case _ => false
  }

  lemma TreeStands<N>(d: Dialect, a: Arithmetic<N>, t: seq<char>, i: nat, next: nat, e: Tree, level: nat, v: N)
    requires i <= next <= |t| && Fits(e, level) && Show(e) == t[i..next] && Meaning(d, a, e) == Ok(v)
    ensures StandsAt(d, a, t, i, e, level) && Worth(a, e) == v && i + |Show(e)| == next
  {
    MeaningExactly(d, a, e, level);
  }

  lemma {:induction false} AtomFault<N>(d: Dialect, a: Arithmetic<N>, t: seq<char>, pos: nat)
    requires pos <= |t| && ParseAtom(d, a, t, pos).Bad? && (pos < |t| ==> t[pos] != '-')
    ensures TextFault(d, a, t, ParseAtom(d, a, t, pos).e)
    decreases |t| - pos, ATOM
  {
    if pos < |t| && t[pos] == '(' {
      var inner := ParseExpr(d, a, t, pos + 1);
      if inner.Bad? {
        ExprFault(d, a, t, pos + 1);
      } else {
        var e := ExprTree(d, a, t, pos + 1);
        TreeStands(d, a, t, pos + 1, inner.next, e, EXPR, inner.v);
        assert LeftOpen(d, a, t);
      }
    } else {
      var end := NumberEnd(t, pos);
      if end != pos {
        assert At(t, pos, t[pos..end]);
        assert UnreadableRun(a, t, t[pos..end]);
      }
    }
  }

  lemma {:induction false} UnaryFault<N>(d: Dialect, a: Arithmetic<N>, t: seq<char>, pos: nat)
    requires pos <= |t| && ParseUnary(d, a, t, pos).Bad?
    ensures TextFault(d, a, t, ParseUnary(d, a, t, pos).e)
    decreases |t| - pos, UNARY
  {
    if pos < |t| && t[pos] == '-' { UnaryFault(d, a, t, pos + 1); } else { AtomFault(d, a, t, pos); }
  }

  lemma {:induction false} FactorFault<N>(d: Dialect, a: Arithmetic<N>, t: seq<char>, pos: nat)
    requires pos <= |t| && ParseFactor(d, a, t, pos).Bad?
    ensures TextFault(d, a, t, ParseFactor(d, a, t, pos).e)
    decreases |t| - pos, FACTOR
  {
    var base := ParseUnary(d, a, t, pos);
    if base.Bad? { UnaryFault(d, a, t, pos); } else { FactorFault(d, a, t, base.next + 1); }
  }

  /** An operator refused its right operand. */
  lemma RefusalFault<N>(d: Dialect, a: Arithmetic<N>, t: seq<char>, pos: nat, left: N)
    requires pos < |t| && IsMultiplicative(t[pos])
    requires var right := ParseFactor(d, a, t, pos + 1); right.Value? && Apply(d, a, t[pos], left, right.v).Err?
    ensures TextFault(d, a, t, Apply(d, a, t[pos], left, ParseFactor(d, a, t, pos + 1).v).error)
  {
    var right := ParseFactor(d, a, t, pos + 1);
    var e := FactorTree(d, a, t, pos + 1);
    TreeStands(d, a, t, pos + 1, right.next, e, FACTOR, right.v);
    assert ZeroFollows(d, a, t, t[pos]);
  }

  lemma {:induction false} TermTailFault<N>(d: Dialect, a: Arithmetic<N>, t: seq<char>, pos: nat, left: N)
    requires pos <= |t| && TermTail(d, a, t, pos, left).Bad?
    ensures TextFault(d, a, t, TermTail(d, a, t, pos, left).e)
    decreases |t| - pos, TERM
  {
    var right := ParseFactor(d, a, t, pos + 1);
    if right.Bad? {
      FactorFault(d, a, t, pos + 1);
    } else if Apply(d, a, t[pos], left, right.v).Err? {
      RefusalFault(d, a, t, pos, left);
    } else {
      TermTailFault(d, a, t, right.next, Apply(d, a, t[pos], left, right.v).value);
    }
  }

  lemma {:induction false} TermFault<N>(d: Dialect, a: Arithmetic<N>, t: seq<char>, pos: nat)
    requires pos <= |t| && ParseTerm(d, a, t, pos).Bad?
    ensures TextFault(d, a, t, ParseTerm(d, a, t, pos).e)
    decreases |t| - pos, TERM
  {
    var first := ParseFactor(d, a, t, pos);
    if first.Bad? { FactorFault(d, a, t, pos); } else { TermTailFault(d, a, t, first.next, first.v); }
  }

  lemma {:induction false} ExprTailFault<N>(d: Dialect, a: Arithmetic<N>, t: seq<char>, pos: nat, left: N)
    requires pos <= |t| && ExprTail(d, a, t, pos, left).Bad?
    ensures TextFault(d, a, t, ExprTail(d, a, t, pos, left).e)
    decreases |t| - pos, EXPR
  {
    var right := ParseTerm(d, a, t, pos + 1);
    if right.Bad? {
      TermFault(d, a, t, pos + 1);
    } else {
      ExprTailFault(d, a, t, right.next, Apply(d, a, t[pos], left, right.v).value);
    }
  }

  lemma {:induction false} ExprFault<N>(d: Dialect, a: Arithmetic<N>, t: seq<char>, pos: nat)
    requires pos <= |t| && ParseExpr(d, a, t, pos).Bad?
    ensures TextFault(d, a, t, ParseExpr(d, a, t, pos).e)
    decreases |t| - pos, EXPR
  {
    var first := ParseTerm(d, a, t, pos);
    if first.Bad? { TermFault(d, a, t, pos); } else { ExprTailFault(d, a, t, first.next, first.v); }
  }

  ghost predicate InputFault<N>(d: Dialect, a: Arithmetic<N>, input: string, fault: CalcError) {
    var t := Strip(input);
    match fault
    case UnexpectedCharacter(k) =>
      1 <= k <= |t| && exists e :: Fits(e, EXPR) && Show(e) == t[..k - 1] && Readable(a, e) && Divisible(d, a, e)
    case NotFinite =>
      exists e :: IsTreeOf(e, input) && Readable(a, e) && Divisible(d, a, e) &&
        (a.isNan(Worth(a, e)) || a.isInfinite(Worth(a, e)))
    case _ => TextFault(d, a, t, fault)
  }

  /** Every refusal of an input is for the reason it names. */
  lemma ErrorsAreTrue<N>(d: Dialect, a: Arithmetic<N>, input: string)
    requires Evaluate(d, a, input).Err?
    ensures InputFault(d, a, input, Evaluate(d, a, input).error)
  {
    var t := Strip(input);
    var r := ParseExpr(d, a, t, 0);
    if r.Bad? {
      ExprFault(d, a, t, 0);
    } else {
      var e := ExprTree(d, a, t, 0);
      assert t[0..r.next] == t[..r.next] && t[..|t|] == t;
      MeaningExactly(d, a, e, EXPR);
    }
  }

  // ---------------------------------------------------------------- precedence in figures

  function Rank(op: char): nat { if op == '+' || op == '-' then 1 else if op == '^' then 3 else 2 }

  /** How three operands group: by rank, and among equals to the left, except for ^. */
  function Grouped(x: Tree, p: char, y: Tree, q: char, z: Tree): Tree {
    if Rank(p) < Rank(q) || (p == '^' && q == '^') then Bin(p, x, Bin(q, y, z)) else Bin(q, Bin(p, x, y), z)
  }

  predicate IsOperator(op: char) { op == '^' || IsMultiplicative(op) || IsAdditive(op) }

  lemma NumeralFits(x: string, level: nat)
    requires IsLexeme(x)
    ensures Fits(Number(x), level) && Show(Number(x)) == x
  {
  }

  /** One operator between parts that fit closely enough. */
  lemma OperationFits(l: Tree, op: char, r: Tree, lRank: nat, rRank: nat)
    requires IsOperator(op) && Fits(l, UNARY + lRank) && Fits(r, UNARY + rRank)
    requires if op == '^' then lRank == 0 && rRank <= 1 else lRank <= if Rank(op) == 1 then 3 else 2
    requires op != '^' ==> rRank <= if Rank(op) == 1 then 2 else 1
    ensures Fits(Bin(op, l, r), if op == '^' then FACTOR else if Rank(op) == 2 then TERM else EXPR)
    ensures Fits(Bin(op, l, r), EXPR) && Show(Bin(op, l, r)) == Show(l) + [op] + Show(r)
  {
    FitsWiden(l, UNARY + lRank, if Rank(op) == 1 then EXPR else TERM);
    FitsWiden(r, UNARY + rRank, if Rank(op) == 1 then TERM else FACTOR);
  }

  lemma ThreeOperands(x: string, p: char, y: string, q: char, z: string)
    requires IsLexeme(x) && IsLexeme(y) && IsLexeme(z) && IsOperator(p) && IsOperator(q)
    ensures var e := Grouped(Number(x), p, Number(y), q, Number(z));
      Fits(e, EXPR) && Show(e) == x + [p] + y + [q] + z
  {
    NumeralFits(x, UNARY);
    NumeralFits(y, UNARY);
    NumeralFits(z, UNARY);
    if Rank(p) < Rank(q) || (p == '^' && q == '^') {
      OperationFits(Number(y), q, Number(z), 0, 0);
      OperationFits(Number(x), p, Bin(q, Number(y), Number(z)), 0, if q == '^' then 1 else 2);
      assert x + [p] + (y + [q] + z) == x + [p] + y + [q] + z;
    } else {
      OperationFits(Number(x), p, Number(y), 0, 0);
      var inner := if p == '^' then 1 else if Rank(p) == 2 then 2 else 3;
      OperationFits(Bin(p, Number(x), Number(y)), q, Number(z), inner, 0);
    }
  }

  /** A minus in front takes the numeral alone, before any operator, even ^. */
  lemma MinusTakesOne(x: string, op: char, y: string)
    requires IsLexeme(x) && IsLexeme(y) && IsOperator(op)
    ensures var e := Bin(op, Neg(Number(x)), Number(y)); Fits(e, EXPR) && Show(e) == "-" + x + [op] + y
  {
    NumeralFits(x, UNARY);
    NumeralFits(y, UNARY);
    OperationFits(Neg(Number(x)), op, Number(y), 0, 0);
  }
}
