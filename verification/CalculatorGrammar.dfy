/**
 The arithmetic language both calculator plugins evaluate: an independent grammar
 (syntax trees with explicit parentheses, their text and their meaning), the
 left-to-right reading of a token buffer that the parsers carry out, and the
 theorems connecting the two in both directions.

 Floating point is abstracted to an `Arithmetic`: any number type with any
 operations and any partial number parser.
 */
module CalculatorGrammar {
  import opened Text
  import opened Wrappers

  datatype Arithmetic<!N> = Arithmetic(
    add: (N, N) -> N, sub: (N, N) -> N, mul: (N, N) -> N, div: (N, N) -> N,
    rem: (N, N) -> N, pow: (N, N) -> N, neg: N -> N,
    isZero: N -> bool, isNan: N -> bool, isInfinite: N -> bool,
    parse: string -> Option<N>)

  /** The two implementations differ in one rule only: what a zero right operand of % does. */
  datatype Dialect = Plugin | Plus

  datatype CalcError =
    | DivisionByZero
    | RemainderByZero
    | MissingParenthesis
    | ExpectedNumber(at: nat)
    | BadNumber(lexeme: string)
    | UnexpectedCharacter(at: nat)
    | NotFinite

  // ---------------------------------------------------------------- trees

  datatype Tree =
    | Number(lexeme: string)
    | Group(inner: Tree)
    | Neg(arg: Tree)
    | Bin(op: char, left: Tree, right: Tree)

  const ATOM := 1
  const UNARY := 2
  const FACTOR := 3
  const TERM := 4
  const EXPR := 5

  predicate IsNumberChar(c: char) { '0' <= c <= '9' || c == '.' }
  predicate IsAdditive(c: char) { c == '+' || c == '-' }
  predicate IsMultiplicative(c: char) { c == '*' || c == '/' || c == '%' }

  predicate IsLexeme(s: string) {
    s != [] && forall i | 0 <= i < |s| :: IsNumberChar(s[i])
  }

  /** `e` may stand, without further parentheses, where the grammar asks for `level`. */
  predicate Fits(e: Tree, level: nat) {
    match e
    case Number(s) => IsLexeme(s)
    case Group(x) => Fits(x, EXPR)
    case Neg(x) => level >= UNARY && Fits(x, UNARY)
    case Bin(op, l, r) =>
      if op == '^' then level >= FACTOR && Fits(l, UNARY) && Fits(r, FACTOR)
      else if IsMultiplicative(op) then level >= TERM && Fits(l, TERM) && Fits(r, FACTOR)
      else IsAdditive(op) && level >= EXPR && Fits(l, EXPR) && Fits(r, TERM)
  }

  function Show(e: Tree): string {
    match e
    case Number(s) => s
    case Group(x) => "(" + Show(x) + ")"
    case Neg(x) => "-" + Show(x)
    case Bin(op, l, r) => Show(l) + [op] + Show(r)
  }

  lemma FitsWiden(e: Tree, lo: nat, hi: nat)
    requires lo <= hi
    ensures Fits(e, lo) ==> Fits(e, hi)
  {
  }

  function Apply<N>(d: Dialect, a: Arithmetic<N>, op: char, x: N, y: N): Result<N, CalcError> {
    match op
    case '+' => Ok(a.add(x, y))
    case '-' => Ok(a.sub(x, y))
    case '*' => Ok(a.mul(x, y))
    case '/' => if a.isZero(y) then Err(DivisionByZero) else Ok(a.div(x, y))
    case '^' => Ok(a.pow(x, y))
    case _ => if d.Plus? && a.isZero(y) then Err(RemainderByZero) else Ok(a.rem(x, y))
  }

  /** Both operands, left first; the first error wins. */
  function Combine<N>(d: Dialect, a: Arithmetic<N>, op: char, x: Result<N, CalcError>, y: Result<N, CalcError>)
    : Result<N, CalcError>
  {
    match x
    case Err(er) => Err(er)
    case Ok(u) =>
      match y
      case Err(er) => Err(er)
      case Ok(v) => Apply(d, a, op, u, v)
  }

  function Meaning<N>(d: Dialect, a: Arithmetic<N>, e: Tree): Result<N, CalcError> {
    match e
    case Number(s) => (match a.parse(s) case Some(v) => Ok(v) case None => Err(BadNumber(s)))
    case Group(x) => Meaning(d, a, x)
    case Neg(x) => (match Meaning(d, a, x) case Ok(v) => Ok(a.neg(v)) case Err(er) => Err(er))
    case Bin(op, l, r) => Combine(d, a, op, Meaning(d, a, l), Meaning(d, a, r))
  }

  /** No operand of % in `e` is a zero on the right. */
  predicate NoZeroRemainder<N>(a: Arithmetic<N>, e: Tree) {
    match e
    case Number(_) => true
    case Group(x) => NoZeroRemainder(a, x)
    case Neg(x) => NoZeroRemainder(a, x)
    case Bin(op, l, r) =>
      && NoZeroRemainder(a, l)
      && NoZeroRemainder(a, r)
      && (op == '%' ==> match Meaning(Plugin, a, r) case Ok(y) => !a.isZero(y) case Err(_) => true)
  }

  // ---------------------------------------------------------------- reading a token buffer

  datatype Parsed<+N> = Value(v: N, next: nat) | Bad(e: CalcError)

  function NumberEnd(t: seq<char>, pos: nat): (end: nat)
    requires pos <= |t|
    ensures pos <= end <= |t|
    ensures forall i | pos <= i < end :: IsNumberChar(t[i])
    ensures end < |t| ==> !IsNumberChar(t[end])
    decreases |t| - pos
  {
    if pos < |t| && IsNumberChar(t[pos]) then NumberEnd(t, pos + 1) else pos
  }

  function ParseExpr<N>(d: Dialect, a: Arithmetic<N>, t: seq<char>, pos: nat): (r: Parsed<N>)
    requires pos <= |t|
    ensures r.Value? ==> pos < r.next <= |t|
    decreases |t| - pos, EXPR
  {
    match ParseTerm(d, a, t, pos)
    case Bad(e) => Bad(e)
    case Value(v, next) => ExprTail(d, a, t, next, v)
  }

  function ExprTail<N>(d: Dialect, a: Arithmetic<N>, t: seq<char>, pos: nat, left: N): (r: Parsed<N>)
    requires pos <= |t|
    ensures r.Value? ==> pos <= r.next <= |t|
    decreases |t| - pos, EXPR
  {
    if pos < |t| && IsAdditive(t[pos]) then
      match ParseTerm(d, a, t, pos + 1)
      case Bad(e) => Bad(e)
      case Value(right, next) =>
        match Apply(d, a, t[pos], left, right)
        case Err(e) => Bad(e)
        case Ok(v) => ExprTail(d, a, t, next, v)
    else
      Value(left, pos)
  }

  function ParseTerm<N>(d: Dialect, a: Arithmetic<N>, t: seq<char>, pos: nat): (r: Parsed<N>)
    requires pos <= |t|
    ensures r.Value? ==> pos < r.next <= |t|
    decreases |t| - pos, TERM
  {
    match ParseFactor(d, a, t, pos)
    case Bad(e) => Bad(e)
    case Value(v, next) => TermTail(d, a, t, next, v)
  }

  function TermTail<N>(d: Dialect, a: Arithmetic<N>, t: seq<char>, pos: nat, left: N): (r: Parsed<N>)
    requires pos <= |t|
    ensures r.Value? ==> pos <= r.next <= |t|
    decreases |t| - pos, TERM
  {
    if pos < |t| && IsMultiplicative(t[pos]) then
      match ParseFactor(d, a, t, pos + 1)
      case Bad(e) => Bad(e)
      case Value(right, next) =>
        match Apply(d, a, t[pos], left, right)
        case Err(e) => Bad(e)
        case Ok(v) => TermTail(d, a, t, next, v)
    else
      Value(left, pos)
  }

  function ParseFactor<N>(d: Dialect, a: Arithmetic<N>, t: seq<char>, pos: nat): (r: Parsed<N>)
    requires pos <= |t|
    ensures r.Value? ==> pos < r.next <= |t|
    decreases |t| - pos, FACTOR
  {
    match ParseUnary(d, a, t, pos)
    case Bad(e) => Bad(e)
    case Value(base, next) =>
      if next < |t| && t[next] == '^' then
        match ParseFactor(d, a, t, next + 1)
        case Bad(e) => Bad(e)
        case Value(exp, end) => Value(a.pow(base, exp), end)
      else
        Value(base, next)
  }

  function ParseUnary<N>(d: Dialect, a: Arithmetic<N>, t: seq<char>, pos: nat): (r: Parsed<N>)
    requires pos <= |t|
    ensures r.Value? ==> pos < r.next <= |t|
    decreases |t| - pos, UNARY
  {
    if pos < |t| && t[pos] == '-' then
      match ParseUnary(d, a, t, pos + 1)
      case Bad(e) => Bad(e)
      case Value(v, next) => Value(a.neg(v), next)
    else
      ParseAtom(d, a, t, pos)
  }

  function ParseAtom<N>(d: Dialect, a: Arithmetic<N>, t: seq<char>, pos: nat): (r: Parsed<N>)
    requires pos <= |t|
    ensures r.Value? ==> pos < r.next <= |t|
    decreases |t| - pos, ATOM
  {
    if pos < |t| && t[pos] == '(' then
      match ParseExpr(d, a, t, pos + 1)
      case Bad(e) => Bad(e)
      case Value(v, next) =>
        if next < |t| && t[next] == ')' then Value(v, next + 1) else Bad(MissingParenthesis)
    else
      var end := NumberEnd(t, pos);
      if end == pos then Bad(ExpectedNumber(pos + 1))
      else match a.parse(t[pos..end])
        case Some(v) => Value(v, end)
        case None => Bad(BadNumber(t[pos..end]))
  }

  // ---------------------------------------------------------------- whole inputs

  function Strip(input: string): string {
    if input == [] then []
    else if IsWhitespace(input[0]) then Strip(input[1..])
    else [input[0]] + Strip(input[1..])
  }

  predicate IsFinite<N>(a: Arithmetic<N>, v: N) { !a.isNan(v) && !a.isInfinite(v) }

  function Evaluate<N>(d: Dialect, a: Arithmetic<N>, input: string): Result<N, CalcError> {
    var t := Strip(input);
    match ParseExpr(d, a, t, 0)
    case Bad(e) => Err(e)
    case Value(v, next) =>
      if next != |t| then Err(UnexpectedCharacter(next + 1))
      else if !IsFinite(a, v) then Err(NotFinite)
      else Ok(v)
  }

  // ---------------------------------------------------------------- from trees to parses

  ghost predicate At(t: seq<char>, pos: nat, s: string) {
    pos + |s| <= |t| && forall i {:trigger s[i]} | 0 <= i < |s| :: t[pos + i] == s[i]
  }

  lemma AtSplit(t: seq<char>, pos: nat, s1: string, s2: string)
    requires At(t, pos, s1 + s2)
    ensures At(t, pos, s1) && At(t, pos + |s1|, s2)
  {
    forall i | 0 <= i < |s1| ensures t[pos + i] == s1[i] {
      assert (s1 + s2)[i] == s1[i];
    }
    forall i | 0 <= i < |s2| ensures t[pos + |s1| + i] == s2[i] {
      assert (s1 + s2)[|s1| + i] == s2[i];
    }
  }

  lemma BinaryAt(t: seq<char>, pos: nat, e: Tree)
    requires e.Bin? && At(t, pos, Show(e))
    ensures At(t, pos, Show(e.left)) && pos + |Show(e.left)| < |t|
    ensures t[pos + |Show(e.left)|] == e.op
    ensures At(t, pos + |Show(e.left)| + 1, Show(e.right))
    ensures pos + |Show(e.left)| + 1 + |Show(e.right)| == pos + |Show(e)|
  {
    var mid := pos + |Show(e.left)|;
    AtSplit(t, pos, Show(e.left) + [e.op], Show(e.right));
    AtSplit(t, pos, Show(e.left), [e.op]);
    assert t[mid + 0] == [e.op][0];
  }

  lemma GroupAt(t: seq<char>, pos: nat, x: Tree)
    requires At(t, pos, Show(Group(x)))
    ensures pos + 1 + |Show(x)| < |t| && t[pos] == '(' && t[pos + 1 + |Show(x)|] == ')'
    ensures At(t, pos + 1, Show(x))
  {
    var close := pos + 1 + |Show(x)|;
    AtSplit(t, pos, "(" + Show(x), ")");
    AtSplit(t, pos, "(", Show(x));
    assert t[pos + 0] == "("[0];
    assert t[close + 0] == ")"[0];
  }

  lemma Joined(t: seq<char>, start: nat, pos: nat, next: nat)
    requires start <= pos < next <= |t|
    ensures t[start..pos] + [t[pos]] + t[pos + 1..next] == t[start..next]
  {
  }

  /** What may not follow a construct of the given level without being taken into it. */
  predicate Stops(t: seq<char>, pos: nat, level: nat) {
    pos < |t| ==>
      && !IsNumberChar(t[pos])
      && (level >= FACTOR ==> t[pos] != '^')
      && (level >= TERM ==> !IsMultiplicative(t[pos]))
      && (level >= EXPR ==> !IsAdditive(t[pos]))
  }

  function Finish<N>(m: Result<N, CalcError>, end: nat): Parsed<N> {
    match m case Ok(v) => Value(v, end) case Err(e) => Bad(e)
  }

  lemma NumberEndsAt(t: seq<char>, pos: nat, s: string)
    requires IsLexeme(s) && At(t, pos, s) && Stops(t, pos + |s|, ATOM)
    ensures NumberEnd(t, pos) == pos + |s| && t[pos..pos + |s|] == s
  {
    var end := NumberEnd(t, pos);
    forall i | pos <= i < pos + |s| ensures IsNumberChar(t[i]) {
      assert t[pos + (i - pos)] == s[i - pos];
    }
  }

  /** The grammar rules, read off a tree that fits a level. */
  lemma FitsRules(e: Tree, level: nat)
    requires Fits(e, level) && level <= EXPR
    ensures e.Bin? && IsAdditive(e.op) ==> level == EXPR && Fits(e.left, EXPR) && Fits(e.right, TERM)
    ensures e.Bin? && IsMultiplicative(e.op) ==> Fits(e.left, TERM) && Fits(e.right, FACTOR)
    ensures e.Bin? && e.op == '^' ==> Fits(e.left, UNARY) && Fits(e.right, FACTOR)
    ensures level == EXPR && !(e.Bin? && IsAdditive(e.op)) ==> Fits(e, TERM)
    ensures level == TERM && !(e.Bin? && IsMultiplicative(e.op)) ==> Fits(e, FACTOR)
    ensures level == FACTOR ==> if e.Bin? then e.op == '^' else Fits(e, UNARY)
  {
  }

  lemma {:induction false} AtomReads<N>(d: Dialect, a: Arithmetic<N>, t: seq<char>, pos: nat, e: Tree)
    requires Fits(e, ATOM) && At(t, pos, Show(e)) && Stops(t, pos + |Show(e)|, ATOM)
    ensures ParseAtom(d, a, t, pos) == Finish(Meaning(d, a, e), pos + |Show(e)|)
    decreases e, ATOM
  {
    match e
    case Number(s) =>
      NumberEndsAt(t, pos, s);
      assert t[pos + 0] == s[0];
    case Group(x) =>
      GroupAt(t, pos, x);
      ExprReads(d, a, t, pos + 1, x);
  }

  lemma {:induction false} UnaryReads<N>(d: Dialect, a: Arithmetic<N>, t: seq<char>, pos: nat, e: Tree)
    requires Fits(e, UNARY) && At(t, pos, Show(e)) && Stops(t, pos + |Show(e)|, UNARY)
    ensures ParseUnary(d, a, t, pos) == Finish(Meaning(d, a, e), pos + |Show(e)|)
    decreases e, UNARY
  {
    if e.Neg? {
      AtSplit(t, pos, "-", Show(e.arg));
      assert t[pos + 0] == "-"[0];
      UnaryReads(d, a, t, pos + 1, e.arg);
    } else {
      assert t[pos + 0] == Show(e)[0] && (e.Number? || e.Group?);
      AtomReads(d, a, t, pos, e);
    }
  }

  lemma {:induction false} FactorReads<N>(d: Dialect, a: Arithmetic<N>, t: seq<char>, pos: nat, e: Tree)
    requires Fits(e, FACTOR) && At(t, pos, Show(e)) && Stops(t, pos + |Show(e)|, FACTOR)
    ensures ParseFactor(d, a, t, pos) == Finish(Meaning(d, a, e), pos + |Show(e)|)
    decreases e, FACTOR
  {
    FitsRules(e, FACTOR);
    if e.Bin? {
      BinaryAt(t, pos, e);
      var mid, x := pos + |Show(e.left)|, Meaning(d, a, e.left);
      assert ParseUnary(d, a, t, pos) == Finish(x, mid) by {
        UnaryReads(d, a, t, pos, e.left);
      }
      PowerReads(d, a, t, pos, mid, x, e.right);
    } else {
      UnaryReads(d, a, t, pos, e);
    }
  }

  lemma {:induction false} PowerReads<N>(d: Dialect, a: Arithmetic<N>, t: seq<char>, pos: nat, mid: nat,
                                         x: Result<N, CalcError>, r: Tree)
    requires pos <= mid < |t| && t[mid] == '^' && ParseUnary(d, a, t, pos) == Finish(x, mid)
    requires Fits(r, FACTOR) && At(t, mid + 1, Show(r)) && Stops(t, mid + 1 + |Show(r)|, FACTOR)
    ensures ParseFactor(d, a, t, pos) == Finish(Combine(d, a, '^', x, Meaning(d, a, r)), mid + 1 + |Show(r)|)
    decreases r, EXPR
  {
    FactorReads(d, a, t, mid + 1, r);
  }

  function ResumeTerm<N>(d: Dialect, a: Arithmetic<N>, t: seq<char>, pos: nat, x: Result<N, CalcError>): Parsed<N>
    requires pos <= |t|
  {
    match x case Ok(v) => TermTail(d, a, t, pos, v) case Err(er) => Bad(er)
  }

  /** A term is read completely and the reader is left in its loop, with the term's value in hand. */
  lemma {:induction false} TermReads<N>(d: Dialect, a: Arithmetic<N>, t: seq<char>, pos: nat, e: Tree)
    requires Fits(e, TERM) && At(t, pos, Show(e)) && Stops(t, pos + |Show(e)|, FACTOR)
    ensures ParseTerm(d, a, t, pos) == ResumeTerm(d, a, t, pos + |Show(e)|, Meaning(d, a, e))
    decreases e, TERM
  {
    FitsRules(e, TERM);
    if e.Bin? && IsMultiplicative(e.op) {
      BinaryAt(t, pos, e);
      var mid, x := pos + |Show(e.left)|, Meaning(d, a, e.left);
      assert ResumeTerm(d, a, t, mid, x) == ResumeTerm(d, a, t, pos + |Show(e)|, Meaning(d, a, e)) by {
        TermTailReads(d, a, t, mid, e.op, x, e.right);
      }
      assert ParseTerm(d, a, t, pos) == ResumeTerm(d, a, t, mid, x) by {
        TermReads(d, a, t, pos, e.left);
      }
    } else {
      FactorReads(d, a, t, pos, e);
    }
  }

  lemma {:induction false} TermTailReads<N>(d: Dialect, a: Arithmetic<N>, t: seq<char>, mid: nat,
                                            op: char, x: Result<N, CalcError>, r: Tree)
    requires mid < |t| && t[mid] == op && IsMultiplicative(op)
    requires Fits(r, FACTOR) && At(t, mid + 1, Show(r)) && Stops(t, mid + 1 + |Show(r)|, FACTOR)
    ensures ResumeTerm(d, a, t, mid, x) ==
            ResumeTerm(d, a, t, mid + 1 + |Show(r)|, Combine(d, a, op, x, Meaning(d, a, r)))
    decreases r, EXPR
  {
    FactorReads(d, a, t, mid + 1, r);
  }

  function ResumeExpr<N>(d: Dialect, a: Arithmetic<N>, t: seq<char>, pos: nat, x: Result<N, CalcError>): Parsed<N>
    requires pos <= |t|
  {
    match x case Ok(v) => ExprTail(d, a, t, pos, v) case Err(er) => Bad(er)
  }

  lemma {:induction false} ExprReads<N>(d: Dialect, a: Arithmetic<N>, t: seq<char>, pos: nat, e: Tree)
    requires Fits(e, EXPR) && At(t, pos, Show(e)) && Stops(t, pos + |Show(e)|, TERM)
    ensures ParseExpr(d, a, t, pos) == ResumeExpr(d, a, t, pos + |Show(e)|, Meaning(d, a, e))
    decreases e, EXPR
  {
    FitsRules(e, EXPR);
    if e.Bin? && IsAdditive(e.op) {
      BinaryAt(t, pos, e);
      var mid, x := pos + |Show(e.left)|, Meaning(d, a, e.left);
      assert ResumeExpr(d, a, t, mid, x) == ResumeExpr(d, a, t, pos + |Show(e)|, Meaning(d, a, e)) by {
        ExprTailReads(d, a, t, mid, e.op, x, e.right);
      }
      assert ParseExpr(d, a, t, pos) == ResumeExpr(d, a, t, mid, x) by {
        ExprReads(d, a, t, pos, e.left);
      }
    } else {
      TermReads(d, a, t, pos, e);
    }
  }

  lemma {:induction false} ExprTailReads<N>(d: Dialect, a: Arithmetic<N>, t: seq<char>, mid: nat,
                                            op: char, x: Result<N, CalcError>, r: Tree)
    requires mid < |t| && t[mid] == op && IsAdditive(op)
    requires Fits(r, TERM) && At(t, mid + 1, Show(r)) && Stops(t, mid + 1 + |Show(r)|, TERM)
    ensures ResumeExpr(d, a, t, mid, x) ==
            ResumeExpr(d, a, t, mid + 1 + |Show(r)|, Combine(d, a, op, x, Meaning(d, a, r)))
    decreases r, EXPR
  {
    TermReads(d, a, t, mid + 1, r);
  }

  // ---------------------------------------------------------------- from parses to trees

  lemma {:induction false} AtomTree<N>(d: Dialect, a: Arithmetic<N>, t: seq<char>, pos: nat) returns (e: Tree)
    requires pos <= |t| && ParseAtom(d, a, t, pos).Value?
    ensures Fits(e, ATOM) && Show(e) == t[pos..ParseAtom(d, a, t, pos).next]
    ensures Meaning(d, a, e) == Ok(ParseAtom(d, a, t, pos).v)
    decreases |t| - pos, ATOM
  {
    if pos < |t| && t[pos] == '(' {
      var x := ExprTree(d, a, t, pos + 1);
      var next := ParseExpr(d, a, t, pos + 1).next;
      Joined(t, pos, next, next + 1);
      Joined(t, pos, pos, next);
      e := Group(x);
    } else {
      e := Number(t[pos..NumberEnd(t, pos)]);
    }
  }

  lemma {:induction false} UnaryTree<N>(d: Dialect, a: Arithmetic<N>, t: seq<char>, pos: nat) returns (e: Tree)
    requires pos <= |t| && ParseUnary(d, a, t, pos).Value?
    ensures Fits(e, UNARY) && Show(e) == t[pos..ParseUnary(d, a, t, pos).next]
    ensures Meaning(d, a, e) == Ok(ParseUnary(d, a, t, pos).v)
    decreases |t| - pos, UNARY
  {
    if pos < |t| && t[pos] == '-' {
      var x := UnaryTree(d, a, t, pos + 1);
      e := Neg(x);
    } else {
      e := AtomTree(d, a, t, pos);
      FitsWiden(e, ATOM, UNARY);
    }
  }

  lemma {:induction false} FactorTree<N>(d: Dialect, a: Arithmetic<N>, t: seq<char>, pos: nat) returns (e: Tree)
    requires pos <= |t| && ParseFactor(d, a, t, pos).Value?
    ensures Fits(e, FACTOR) && Show(e) == t[pos..ParseFactor(d, a, t, pos).next]
    ensures Meaning(d, a, e) == Ok(ParseFactor(d, a, t, pos).v)
    decreases |t| - pos, FACTOR
  {
    e := UnaryTree(d, a, t, pos);
    var next := ParseUnary(d, a, t, pos).next;
    if next < |t| && t[next] == '^' {
      var exp := FactorTree(d, a, t, next + 1);
      Joined(t, pos, next, ParseFactor(d, a, t, next + 1).next);
      e := Bin('^', e, exp);
    } else {
      FitsWiden(e, UNARY, FACTOR);
    }
  }

  lemma {:induction false} TermTailTree<N>(d: Dialect, a: Arithmetic<N>, t: seq<char>, start: nat, pos: nat, left: N,
      l: Tree)
    returns (e: Tree)
    requires start <= pos <= |t| && TermTail(d, a, t, pos, left).Value?
    requires Fits(l, TERM) && Show(l) == t[start..pos] && Meaning(d, a, l) == Ok(left)
    ensures Fits(e, TERM) && Show(e) == t[start..TermTail(d, a, t, pos, left).next]
    ensures Meaning(d, a, e) == Ok(TermTail(d, a, t, pos, left).v)
    decreases |t| - pos, TERM
  {
    e := l;
    if pos < |t| && IsMultiplicative(t[pos]) {
      var r := FactorTree(d, a, t, pos + 1);
      var Value(right, next) := ParseFactor(d, a, t, pos + 1);
      var v := Apply(d, a, t[pos], left, right).value;
      Joined(t, start, pos, next);
      e := TermTailTree(d, a, t, start, next, v, Bin(t[pos], l, r));
    }
  }

  lemma {:induction false} TermTree<N>(d: Dialect, a: Arithmetic<N>, t: seq<char>, pos: nat) returns (e: Tree)
    requires pos <= |t| && ParseTerm(d, a, t, pos).Value?
    ensures Fits(e, TERM) && Show(e) == t[pos..ParseTerm(d, a, t, pos).next]
    ensures Meaning(d, a, e) == Ok(ParseTerm(d, a, t, pos).v)
    decreases |t| - pos, TERM
  {
    var l := FactorTree(d, a, t, pos);
    FitsWiden(l, FACTOR, TERM);
    var Value(left, next) := ParseFactor(d, a, t, pos);
    e := TermTailTree(d, a, t, pos, next, left, l);
  }

  lemma {:induction false} ExprTailTree<N>(d: Dialect, a: Arithmetic<N>, t: seq<char>, start: nat, pos: nat, left: N,
      l: Tree)
    returns (e: Tree)
    requires start <= pos <= |t| && ExprTail(d, a, t, pos, left).Value?
    requires Fits(l, EXPR) && Show(l) == t[start..pos] && Meaning(d, a, l) == Ok(left)
    ensures Fits(e, EXPR) && Show(e) == t[start..ExprTail(d, a, t, pos, left).next]
    ensures Meaning(d, a, e) == Ok(ExprTail(d, a, t, pos, left).v)
    decreases |t| - pos, EXPR
  {
    e := l;
    if pos < |t| && IsAdditive(t[pos]) {
      var r := TermTree(d, a, t, pos + 1);
      var Value(right, next) := ParseTerm(d, a, t, pos + 1);
      var v := Apply(d, a, t[pos], left, right).value;
      Joined(t, start, pos, next);
      e := ExprTailTree(d, a, t, start, next, v, Bin(t[pos], l, r));
    }
  }

  lemma {:induction false} ExprTree<N>(d: Dialect, a: Arithmetic<N>, t: seq<char>, pos: nat) returns (e: Tree)
    requires pos <= |t| && ParseExpr(d, a, t, pos).Value?
    ensures Fits(e, EXPR) && Show(e) == t[pos..ParseExpr(d, a, t, pos).next]
    ensures Meaning(d, a, e) == Ok(ParseExpr(d, a, t, pos).v)
    decreases |t| - pos, EXPR
  {
    var l := TermTree(d, a, t, pos);
    FitsWiden(l, TERM, EXPR);
    var Value(left, next) := ParseTerm(d, a, t, pos);
    e := ExprTailTree(d, a, t, pos, next, left, l);
  }

  // ---------------------------------------------------------------- theorems

  /** `e` is a syntax tree of `input`, white space dropped. */
  ghost predicate IsTreeOf(e: Tree, input: string) {
    Fits(e, EXPR) && Show(e) == Strip(input)
  }

  lemma {:induction false} EvaluatesTree<N>(d: Dialect, a: Arithmetic<N>, input: string, e: Tree)
    requires IsTreeOf(e, input)
    ensures Evaluate(d, a, input) ==
            match Meaning(d, a, e)
            case Ok(v) => if IsFinite(a, v) then Ok(v) else Err(NotFinite)
            case Err(er) => Err(er)
  {
    var t := Strip(input);
    ExprReads(d, a, t, 0, e);
  }

  /** Evaluation succeeds with v exactly when the input is the text of a tree that means the finite v. */
  lemma EvaluateIff<N>(d: Dialect, a: Arithmetic<N>, input: string, v: N)
    ensures Evaluate(d, a, input) == Ok(v) <==>
            IsFinite(a, v) && exists e :: IsTreeOf(e, input) && Meaning(d, a, e) == Ok(v)
  {
    var t := Strip(input);
    if Evaluate(d, a, input) == Ok(v) {
      var e := ExprTree(d, a, t, 0);
      assert t[0..|t|] == t;
      assert IsTreeOf(e, input);
    }
    if IsFinite(a, v) && exists e :: IsTreeOf(e, input) && Meaning(d, a, e) == Ok(v) {
      var e :| IsTreeOf(e, input) && Meaning(d, a, e) == Ok(v);
      EvaluatesTree(d, a, input, e);
    }
  }

  // ---- one reading only: evaluate over the arithmetic whose numbers are syntax

  datatype Ast = Num(lexeme: string) | Negate(arg: Ast) | Binary(op: char, left: Ast, right: Ast)

  function Erase(e: Tree): Ast {
    match e
    case Number(s) => Num(s)
    case Group(x) => Erase(x)
    case Neg(x) => Negate(Erase(x))
    case Bin(op, l, r) => Binary(op, Erase(l), Erase(r))
  }

  const SYNTAX: Arithmetic<Ast> := Arithmetic(
    (x, y) => Binary('+', x, y), (x, y) => Binary('-', x, y), (x, y) => Binary('*', x, y),
    (x, y) => Binary('/', x, y), (x, y) => Binary('%', x, y), (x, y) => Binary('^', x, y),
    x => Negate(x), x => false, x => false, x => false, s => Some(Num(s)))

  lemma SyntaxMeansItself(e: Tree, level: nat)
    requires Fits(e, level)
    ensures Meaning(Plugin, SYNTAX, e) == Ok(Erase(e))
  {
  }

  /** The grammar is unambiguous: one text has one structure. */
  lemma Unambiguous(e1: Tree, e2: Tree)
    requires Fits(e1, EXPR) && Fits(e2, EXPR) && Show(e1) == Show(e2)
    ensures Erase(e1) == Erase(e2)
  {
    var t := Show(e1);
    ExprReads(Plugin, SYNTAX, t, 0, e1);
    ExprReads(Plugin, SYNTAX, t, 0, e2);
    SyntaxMeansItself(e1, EXPR);
    SyntaxMeansItself(e2, EXPR);
  }

  // ---- the printer

  predicate Printable(x: Ast) {
    match x
    case Num(s) => IsLexeme(s)
    case Negate(y) => Printable(y)
    case Binary(op, l, r) =>
      (op == '^' || IsMultiplicative(op) || IsAdditive(op)) && Printable(l) && Printable(r)
  }

  /** Adds a pair of parentheses exactly where the structure does not fit its place. */
  function Parenthesise(x: Ast, level: nat): (e: Tree)
    requires Printable(x) && ATOM <= level
    ensures Fits(e, level) && Erase(e) == x
  {
    match x
    case Num(s) => Number(s)
    case Negate(y) =>
      var e := Neg(Parenthesise(y, UNARY));
      if level >= UNARY then e else Group(e)
    case Binary(op, l, r) =>
      if op == '^' then
        var e := Bin(op, Parenthesise(l, UNARY), Parenthesise(r, FACTOR));
        if level >= FACTOR then e else Group(e)
      else if IsMultiplicative(op) then
        var e := Bin(op, Parenthesise(l, TERM), Parenthesise(r, FACTOR));
        if level >= TERM then e else Group(e)
      else
        var e := Bin(op, Parenthesise(l, EXPR), Parenthesise(r, TERM));
        if level >= EXPR then e else Group(e)
  }

  function Print(x: Ast): string
    requires Printable(x)
  {
    Show(Parenthesise(x, EXPR))
  }

  function AstMeaning<N>(d: Dialect, a: Arithmetic<N>, x: Ast): Result<N, CalcError> {
    match x
    case Num(s) => (match a.parse(s) case Some(v) => Ok(v) case None => Err(BadNumber(s)))
    case Negate(y) => (match AstMeaning(d, a, y) case Ok(v) => Ok(a.neg(v)) case Err(er) => Err(er))
    case Binary(op, l, r) => Combine(d, a, op, AstMeaning(d, a, l), AstMeaning(d, a, r))
  }

  lemma ParenthesesMeanNothing<N>(d: Dialect, a: Arithmetic<N>, e: Tree)
    ensures Meaning(d, a, e) == AstMeaning(d, a, Erase(e))
  {
  }

  lemma StripKeepsText(s: string)
    requires forall i | 0 <= i < |s| :: !IsWhitespace(s[i])
    ensures Strip(s) == s
  {
  }

  lemma {:induction false} ShowHasNoWhitespace(e: Tree, level: nat)
    requires Fits(e, level)
    ensures forall i | 0 <= i < |Show(e)| :: !IsWhitespace(Show(e)[i])
    decreases e
  {
    match e
    case Number(s) =>
    case Group(x) => ShowHasNoWhitespace(x, EXPR);
    case Neg(x) => ShowHasNoWhitespace(x, UNARY);
    case Bin(op, l, r) =>
      FitsWiden(l, UNARY, EXPR);
      FitsWiden(l, TERM, EXPR);
      FitsWiden(r, FACTOR, TERM);
      ShowHasNoWhitespace(l, EXPR);
      ShowHasNoWhitespace(r, TERM);
  }

  /** Evaluating the printed text of a structure yields the structure's own meaning. */
  lemma EvaluateInvertsPrint<N>(d: Dialect, a: Arithmetic<N>, x: Ast)
    requires Printable(x)
    ensures Evaluate(d, a, Print(x)) ==
            match AstMeaning(d, a, x)
            case Ok(v) => if IsFinite(a, v) then Ok(v) else Err(NotFinite)
            case Err(er) => Err(er)
  {
    var e := Parenthesise(x, EXPR);
    ShowHasNoWhitespace(e, EXPR);
    StripKeepsText(Show(e));
    EvaluatesTree(d, a, Print(x), e);
    ParenthesesMeanNothing(d, a, e);
  }

  /** No text with the same structure is shorter: every printed pair of parentheses is needed. */
  lemma {:induction false} PrintIsShortest(e: Tree, level: nat)
    requires ATOM <= level && Fits(e, level)
    ensures Printable(Erase(e))
    ensures |Show(Parenthesise(Erase(e), level))| <= |Show(e)|
    decreases e
  {
    match e
    case Number(_) =>
    case Group(x) =>
      PrintIsShortest(x, EXPR);
      OnePairIsEnough(Erase(x), level);
    case Neg(x) => PrintIsShortest(x, UNARY);
    case Bin(op, l, r) =>
      if op == '^' {
        PrintIsShortest(l, UNARY);
        PrintIsShortest(r, FACTOR);
      } else if IsMultiplicative(op) {
        PrintIsShortest(l, TERM);
        PrintIsShortest(r, FACTOR);
      } else {
        PrintIsShortest(l, EXPR);
        PrintIsShortest(r, TERM);
      }
  }

  lemma OnePairIsEnough(x: Ast, level: nat)
    requires Printable(x) && ATOM <= level
    ensures |Show(Parenthesise(x, level))| <= |Show(Parenthesise(x, EXPR))| + 2
  {
  }

  lemma {:induction false} StripAppend(s: string, t: string)
    ensures Strip(s + t) == Strip(s) + Strip(t)
    decreases |s|
  {
    if s == [] {
      assert s + t == t;
    } else {
      assert (s + t)[1..] == s[1..] + t;
      StripAppend(s[1..], t);
    }
  }

  /** White space does not separate: two numbers with only that between them are read as one. */
  lemma SpacesJoinNumbers<N>(d: Dialect, a: Arithmetic<N>, x: string, c: char, y: string)
    requires IsLexeme(x) && IsLexeme(y) && IsWhitespace(c)
    ensures Evaluate(d, a, x + [c] + y) ==
            match a.parse(x + y)
            case Some(v) => if IsFinite(a, v) then Ok(v) else Err(NotFinite)
            case None => Err(BadNumber(x + y))
  {
    assert Strip(x + [c] + y) == x + y by {
      StripAppend(x + [c], y);
      StripAppend(x, [c]);
      StripKeepsText(x);
      StripKeepsText(y);
      assert Strip([c]) == [] && x + [] == x;
    }
    assert IsTreeOf(Number(x + y), x + [c] + y);
    EvaluatesTree(d, a, x + [c] + y, Number(x + y));
  }

  // ---- the two dialects

  lemma DialectsDifferOnlyOnZeroRemainder<N>(a: Arithmetic<N>, e: Tree, level: nat, v: N)
    requires Fits(e, level)
    ensures Meaning(Plus, a, e) == Ok(v) <==> Meaning(Plugin, a, e) == Ok(v) && NoZeroRemainder(a, e)
  {
    match e
    case Number(_) =>
    case Group(x) => DialectsDifferOnlyOnZeroRemainder(a, x, EXPR, v);
    case Neg(x) =>
      forall u { DialectsDifferOnlyOnZeroRemainder(a, x, UNARY, u); }
    case Bin(op, l, r) =>
      FitsWiden(l, UNARY, EXPR);
      FitsWiden(l, TERM, EXPR);
      FitsWiden(r, FACTOR, TERM);
      forall u { DialectsDifferOnlyOnZeroRemainder(a, l, EXPR, u); }
      forall u { DialectsDifferOnlyOnZeroRemainder(a, r, TERM, u); }
  }

  /** calculator-plus yields v exactly when calculator-plugin does and no remainder by zero is taken. */
  lemma PlusRefinesPlugin<N>(a: Arithmetic<N>, input: string, v: N)
    ensures Evaluate(Plus, a, input) == Ok(v) <==>
            && Evaluate(Plugin, a, input) == Ok(v)
            && exists e :: IsTreeOf(e, input) && NoZeroRemainder(a, e)
  {
    if Evaluate(Plus, a, input) == Ok(v) {
      EvaluateIff(Plus, a, input, v);
      var e :| IsTreeOf(e, input) && Meaning(Plus, a, e) == Ok(v);
      DialectsDifferOnlyOnZeroRemainder(a, e, EXPR, v);
      EvaluatesTree(Plugin, a, input, e);
    }
    if Evaluate(Plugin, a, input) == Ok(v) && exists e :: IsTreeOf(e, input) && NoZeroRemainder(a, e) {
      var e :| IsTreeOf(e, input) && NoZeroRemainder(a, e);
      EvaluatesTree(Plugin, a, input, e);
      DialectsDifferOnlyOnZeroRemainder(a, e, EXPR, v);
      EvaluatesTree(Plus, a, input, e);
    }
  }

  const REMAINDER := Bin('%', Number("1"), Number("0"))
  const NAN_TO_THE_ZERO := Bin('^', Group(REMAINDER), Number("0"))

  lemma NanToTheZeroText()
    ensures IsTreeOf(NAN_TO_THE_ZERO, "(1%0)^0")
  {
    assert Show(REMAINDER) == "1%0";
    assert Show(Group(REMAINDER)) == "(1%0)";
    assert Fits(REMAINDER, EXPR) && Fits(Group(REMAINDER), UNARY);
    StripKeepsText("(1%0)^0");
  }

  /** A concrete split: where NaN ^ 0 is finite, as in IEEE 754, only the plugin answers "(1%0)^0". */
  lemma OnlyPluginAnswers<N>(a: Arithmetic<N>, one: N, zero: N)
    requires a.parse("1") == Some(one) && a.parse("0") == Some(zero) && a.isZero(zero)
    requires IsFinite(a, a.pow(a.rem(one, zero), zero))
    ensures Evaluate(Plugin, a, "(1%0)^0") == Ok(a.pow(a.rem(one, zero), zero))
    ensures Evaluate(Plus, a, "(1%0)^0") == Err(RemainderByZero)
  {
    NanToTheZeroText();
    assert Meaning(Plugin, a, REMAINDER) == Ok(a.rem(one, zero));
    assert Meaning(Plus, a, REMAINDER) == Err(RemainderByZero);
    EvaluatesTree(Plugin, a, "(1%0)^0", NAN_TO_THE_ZERO);
    EvaluatesTree(Plus, a, "(1%0)^0", NAN_TO_THE_ZERO);
  }
}
