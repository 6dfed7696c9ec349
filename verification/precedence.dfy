/** Operator precedence and associativity of the grammar, stated against an
    independent reference: arithmetic on syntax trees. The trees cover the
    name-free fragment of the language without `!`, sqrt and pow: numbers,
    unary minus and plus, round and curly brackets, and the operators
    + - * / %. Their spelling as input is fixed by the grammar layering, and
    their value is the usual one: * / % bind tighter than + and -, and every
    chain folds from the left. */
module Precedence {
  import opened Failures
  import opened Tokens
  import opened TokenStream
  import opened SymbolTable
  import opened Numeric
  import opened Grammar

  datatype Factor = Lit(x: real) | Neg(f: Factor) | Pos(f: Factor) | Group(e: Sum, curly: bool)
  datatype Product = Product(first: Factor, rest: MulSteps)
  datatype MulSteps =
    | MulEnd
    | Times(f: Factor, next: MulSteps)
    | Over(f: Factor, next: MulSteps)
    | Rem(f: Factor, next: MulSteps)
  datatype Sum = Sum(first: Product, rest: AddSteps)
  datatype AddSteps = AddEnd | Plus(p: Product, next: AddSteps) | Minus(p: Product, next: AddSteps)

  function Opener(curly: bool): char { if curly then '{' else '(' }

  function Closer(curly: bool): char { if curly then '}' else ')' }

  // ---------------------------------------------------------------------
  // Spelling as input

  function FactorItems(f: Factor): seq<Item>
    decreases f
  {
    match f
    case Lit(x) => [Literal(x)]
    case Neg(g) => [Char('-')] + FactorItems(g)
    case Pos(g) => [Char('+')] + FactorItems(g)
    case Group(e, curly) => [Char(Opener(curly))] + SumItems(e) + [Char(Closer(curly))]
  }

  function ProductItems(p: Product): seq<Item>
    decreases p
  {
    FactorItems(p.first) + MulItems(p.rest)
  }

  function MulItems(m: MulSteps): seq<Item>
    decreases m
  {
    match m
    case MulEnd => []
    case Times(f, n) => [Char('*')] + FactorItems(f) + MulItems(n)
    case Over(f, n) => [Char('/')] + FactorItems(f) + MulItems(n)
    case Rem(f, n) => [Char('%')] + FactorItems(f) + MulItems(n)
  }

  function SumItems(e: Sum): seq<Item>
    decreases e
  {
    ProductItems(e.first) + AddItems(e.rest)
  }

  function AddItems(a: AddSteps): seq<Item>
    decreases a
  {
    match a
    case AddEnd => []
    case Plus(p, n) => [Char('+')] + ProductItems(p) + AddItems(n)
    case Minus(p, n) => [Char('-')] + ProductItems(p) + AddItems(n)
  }

  // ---------------------------------------------------------------------
  // Reference values

  function FactorValue(f: Factor): Result<real>
    decreases f
  {
    match f
    case Lit(x) => Ok(x)
    case Neg(g) => (match FactorValue(g) case Ok(v) => Ok(Negate(v)) case Err(e) => Err(e))
    case Pos(g) => FactorValue(g)
    case Group(e, _) => SumValue(e)
  }

  function ProductValue(p: Product): Result<real>
    decreases p
  {
    match FactorValue(p.first)
    case Err(e) => Err(e)
    case Ok(v) => MulFold(v, p.rest)
  }

  /** Multiplications, divisions and remainders applied to the accumulator
      from left to right. A zero divisor is an error; the remainder takes
      integer operands and the accumulator is checked first. */
  function MulFold(acc: real, m: MulSteps): Result<real>
    decreases m
  {
    match m
    case MulEnd => Ok(acc)
    case Times(f, n) =>
      (match FactorValue(f) case Err(e) => Err(e) case Ok(v) => MulFold(Mul(acc, v), n))
    case Over(f, n) =>
      (match FactorValue(f)
       case Err(e) => Err(e)
       case Ok(v) => if v == 0.0 then Err(DivideByZero) else MulFold(Div(acc, v), n))
    case Rem(f, n) =>
      (match Narrow(acc)
       case Err(e) => Err(e)
       case Ok(i) =>
         match FactorValue(f)
         case Err(e) => Err(e)
         case Ok(v) =>
           match Narrow(v)
           case Err(e) => Err(e)
           case Ok(j) => if j == 0 then Err(DivideByZero) else MulFold(TruncRem(i, j) as real, n))
  }

  function SumValue(e: Sum): Result<real>
    decreases e
  {
    match ProductValue(e.first)
    case Err(err) => Err(err)
    case Ok(v) => AddFold(v, e.rest)
  }

  /** Additions and subtractions applied to the accumulator from left to right. */
  function AddFold(acc: real, a: AddSteps): Result<real>
    decreases a
  {
    match a
    case AddEnd => Ok(acc)
    case Plus(p, n) =>
      (match ProductValue(p) case Err(e) => Err(e) case Ok(v) => AddFold(Add(acc, v), n))
    case Minus(p, n) =>
      (match ProductValue(p) case Err(e) => Err(e) case Ok(v) => AddFold(Sub(acc, v), n))
  }

  // ---------------------------------------------------------------------
  // Spelling as tokens

  function FactorToks(f: Factor): seq<Lexeme>
    decreases f
  {
    match f
    case Lit(x) => [Ok(Number(x))]
    case Neg(g) => [Ok(Sym('-'))] + FactorToks(g)
    case Pos(g) => [Ok(Sym('+'))] + FactorToks(g)
    case Group(e, curly) => [Ok(Sym(Opener(curly)))] + SumToks(e) + [Ok(Sym(Closer(curly)))]
  }

  function ProductToks(p: Product): seq<Lexeme>
    decreases p
  {
    FactorToks(p.first) + MulToks(p.rest)
  }

  function MulToks(m: MulSteps): seq<Lexeme>
    decreases m
  {
    match m
    case MulEnd => []
    case Times(f, n) => [Ok(Sym('*'))] + FactorToks(f) + MulToks(n)
    case Over(f, n) => [Ok(Sym('/'))] + FactorToks(f) + MulToks(n)
    case Rem(f, n) => [Ok(Sym('%'))] + FactorToks(f) + MulToks(n)
  }

  function SumToks(e: Sum): seq<Lexeme>
    decreases e
  {
    ProductToks(e.first) + AddToks(e.rest)
  }

  function AddToks(a: AddSteps): seq<Lexeme>
    decreases a
  {
    match a
    case AddEnd => []
    case Plus(p, n) => [Ok(Sym('+'))] + ProductToks(p) + AddToks(n)
    case Minus(p, n) => [Ok(Sym('-'))] + ProductToks(p) + AddToks(n)
  }

  // ---------------------------------------------------------------------
  // The characters of a fragment read as its tokens

  lemma {:induction false} LexFactor(f: Factor, tail: seq<Item>)
    ensures Lex(FactorItems(f) + tail) == FactorToks(f) + Lex(tail)
    decreases f, 1
  {
    match f
    case Lit(x) =>
      assert FactorItems(f) + tail == [Literal(x)] + tail;
      ReadLiteral(x, tail);
    case Neg(g) =>
      Regroup3([Char('-')], FactorItems(g), tail);
      ReadSymbol('-', FactorItems(g) + tail);
      LexFactor(g, tail);
      Regroup3([Ok(Sym('-'))], FactorToks(g), Lex(tail));
    case Pos(g) =>
      Regroup3([Char('+')], FactorItems(g), tail);
      ReadSymbol('+', FactorItems(g) + tail);
      LexFactor(g, tail);
      Regroup3([Ok(Sym('+'))], FactorToks(g), Lex(tail));
    case Group(e, curly) =>
      var close := Closer(curly);
      LexSum(e, [Char(close)] + tail);
      ReadSymbol(close, tail);
      LexOp(Opener(curly), SumItems(e), [Char(close)], tail, SumToks(e), [Ok(Sym(close))]);
  }

  lemma {:induction false} LexMul(m: MulSteps, tail: seq<Item>)
    ensures Lex(MulItems(m) + tail) == MulToks(m) + Lex(tail)
    decreases m
  {
    match m
    case MulEnd => assert MulItems(m) + tail == tail;
    case Times(f, n) =>
      LexFactor(f, MulItems(n) + tail);
      LexMul(n, tail);
      LexOp('*', FactorItems(f), MulItems(n), tail, FactorToks(f), MulToks(n));
    case Over(f, n) =>
      LexFactor(f, MulItems(n) + tail);
      LexMul(n, tail);
      LexOp('/', FactorItems(f), MulItems(n), tail, FactorToks(f), MulToks(n));
    case Rem(f, n) =>
      LexFactor(f, MulItems(n) + tail);
      LexMul(n, tail);
      LexOp('%', FactorItems(f), MulItems(n), tail, FactorToks(f), MulToks(n));
  }

  /** An operator, an operand and the steps after it, read one after the
      other. */
  lemma LexOp(c: char, x: seq<Item>, y: seq<Item>, tail: seq<Item>, xt: seq<Lexeme>, yt: seq<Lexeme>)
    requires c in SymbolChars
    requires Lex(x + (y + tail)) == xt + Lex(y + tail)
    requires Lex(y + tail) == yt + Lex(tail)
    ensures Lex([Char(c)] + x + y + tail) == [Ok(Sym(c))] + xt + yt + Lex(tail)
  {
    var u := x + (y + tail);
    ReadSymbol(c, u);
    Regroup([Char(c)], x, y, tail);
    Regroup([Ok(Sym(c))], xt, yt, Lex(tail));
  }

  lemma Regroup3<T>(a: seq<T>, b: seq<T>, c: seq<T>)
    ensures a + b + c == a + (b + c)
  {
  }

  lemma Regroup<T>(a: seq<T>, b: seq<T>, c: seq<T>, d: seq<T>)
    ensures a + b + c + d == a + (b + (c + d))
  {
  }

  lemma {:induction false} LexProduct(p: Product, tail: seq<Item>)
    ensures Lex(ProductItems(p) + tail) == ProductToks(p) + Lex(tail)
    decreases p, 2
  {
    Regroup3(FactorItems(p.first), MulItems(p.rest), tail);
    LexFactor(p.first, MulItems(p.rest) + tail);
    LexMul(p.rest, tail);
    Regroup3(FactorToks(p.first), MulToks(p.rest), Lex(tail));
  }

  lemma {:induction false} LexAdd(a: AddSteps, tail: seq<Item>)
    ensures Lex(AddItems(a) + tail) == AddToks(a) + Lex(tail)
    decreases a
  {
    match a
    case AddEnd => assert AddItems(a) + tail == tail;
    case Plus(p, n) =>
      LexProduct(p, AddItems(n) + tail);
      LexAdd(n, tail);
      LexOp('+', ProductItems(p), AddItems(n), tail, ProductToks(p), AddToks(n));
    case Minus(p, n) =>
      LexProduct(p, AddItems(n) + tail);
      LexAdd(n, tail);
      LexOp('-', ProductItems(p), AddItems(n), tail, ProductToks(p), AddToks(n));
  }

  /** The characters of a fragment are read as its tokens, whatever follows. */
  lemma {:induction false} LexSum(e: Sum, tail: seq<Item>)
    ensures Lex(SumItems(e) + tail) == SumToks(e) + Lex(tail)
    decreases e, 3
  {
    Regroup3(ProductItems(e.first), AddItems(e.rest), tail);
    LexProduct(e.first, AddItems(e.rest) + tail);
    LexAdd(e.rest, tail);
    Regroup3(ProductToks(e.first), AddToks(e.rest), Lex(tail));
  }

  // ---------------------------------------------------------------------
  // The evaluator computes the reference values

  /** What the evaluator yields for a fragment value when the token after the
      expression is `t`: a token that can only start an operand turns a
      success into the operand-expected error. */
  function Ending(v: Result<real>, t: Token): Result<real> {
    if v.Ok? && StartsOperand(t) then Err(OperandExpected) else v
  }

  /** The token the rest of the input begins with may follow a complete
      operand: it is not `!`, which would apply to the last operand. */
  predicate Follows(tail: seq<Lexeme>) {
    |tail| > 0 && tail[0].Ok? && Kind(tail[0].value) != '!'
  }

  /** The stream after the fragment when evaluation succeeds: the token
      after it has been read and put back. */
  function After(tail: seq<Lexeme>): Stream
    requires Follows(tail)
  {
    Stream(tail[1..], Some(tail[0].value))
  }

  /** `r` is what evaluating a fragment worth `v` gives when the tokens
      `tail` follow it: the table is untouched, the value is `v`, and on
      success the token after the fragment has been read and put back. */
  ghost predicate Yields(r: Eval, env: Env, v: Result<real>, tail: seq<Lexeme>) {
    && Follows(tail)
    && r.env == env
    && r.result == v
    && (v.Ok? ==> r.ts == After(tail))
  }

  /** The first token of a sequence that begins with a known one. */
  lemma Split<T>(a: seq<T>, b: seq<T>)
    requires |a| == 1
    ensures (a + b)[0] == a[0] && (a + b)[1..] == b
  {
  }

  // One step of each production, over arbitrary operand tokens.

  /** primary() on unary `-` negates the primary after it; on unary `+` it
      is that primary. */
  lemma SignStep(c: char, toks: seq<Lexeme>, tail: seq<Lexeme>, v: Result<real>, env: Env, root: real -> real)
    requires c == '-' || c == '+'
    requires Yields(Primary(Stream(toks + tail, None), env, root), env, v, tail)
    ensures Yields(Primary(Stream([Ok(Sym(c))] + toks + tail, None), env, root), env,
                   if v.Ok? && c == '-' then Ok(Negate(v.value)) else v, tail)
  {
    Regroup3([Ok(Sym(c))], toks, tail);
    Split([Ok(Sym(c))], toks + tail);
  }

  /** primary() on an opening bracket: the expression inside, then the
      matching closer, which is not followed by `!`. */
  lemma GroupStep(curly: bool, toks: seq<Lexeme>, tail: seq<Lexeme>, v: Result<real>, env: Env, root: real -> real)
    requires Follows(tail)
    requires Yields(Expression(Stream(toks + ([Ok(Sym(Closer(curly)))] + tail), None), env, root), env, v,
                    [Ok(Sym(Closer(curly)))] + tail)
    ensures Yields(Primary(Stream([Ok(Sym(Opener(curly)))] + toks + [Ok(Sym(Closer(curly)))] + tail, None), env, root),
                   env, v, tail)
  {
    var open, close := Sym(Opener(curly)), Sym(Closer(curly));
    Regroup([Ok(open)], toks, [Ok(close)], tail);
    Split([Ok(open)], toks + ([Ok(close)] + tail));
    Split([Ok(close)], tail);
  }

  /** One round of the loop of term() after it has read `*` or `/`. */
  lemma MulStep(acc: real, c: char, toks: seq<Lexeme>, rest: seq<Lexeme>, tail: seq<Lexeme>, out: Result<real>,
                env: Env, root: real -> real)
    requires c == '*' || c == '/'
    requires Follows(tail)
    requires var right := Primary(Stream(toks + rest, None), env, root);
             && Yields(right, env, right.result, rest)
             && (right.result.Err? ==> out == right.result)
             && (right.result.Ok? && c == '/' && right.result.value == 0.0 ==> out == Err(DivideByZero))
             && (right.result.Ok? && c == '*' ==>
                   Yields(TermTail(Mul(acc, right.result.value), After(rest), env, root), env, out, tail))
             && (right.result.Ok? && c == '/' && right.result.value != 0.0 ==>
                   Yields(TermTail(Div(acc, right.result.value), After(rest), env, root), env, out, tail))
    ensures Yields(TermTail(acc, Stream(toks + rest, Some(Sym(c))), env, root), env, out, tail)
  {
  }

  /** One round of the loop of term() after it has read `%`: the
      accumulator is narrowed before the right operand is read. */
  lemma RemStep(acc: real, toks: seq<Lexeme>, rest: seq<Lexeme>, tail: seq<Lexeme>, out: Result<real>,
                env: Env, root: real -> real)
    requires Follows(tail)
    requires Narrow(acc).Err? ==> out == Err(NarrowingError)
    requires var right := Primary(Stream(toks + rest, None), env, root);
             Narrow(acc).Ok? ==>
               && Yields(right, env, right.result, rest)
               && (right.result.Err? ==> out == right.result)
               && (right.result.Ok? && Narrow(right.result.value).Err? ==> out == Err(NarrowingError))
               && (right.result.Ok? && Narrow(right.result.value) == Ok(0) ==> out == Err(DivideByZero))
               && (right.result.Ok? && Narrow(right.result.value).Ok? && Narrow(right.result.value) != Ok(0) ==>
                     Yields(TermTail(TruncRem(Narrow(acc).value, Narrow(right.result.value).value) as real,
                                     After(rest), env, root), env, out, tail))
    ensures Yields(TermTail(acc, Stream(toks + rest, Some(Sym('%'))), env, root), env, out, tail)
  {
  }

  /** term(): the first primary, then the loop. */
  lemma TermStep(toks: seq<Lexeme>, rest: seq<Lexeme>, tail: seq<Lexeme>, out: Result<real>, env: Env, root: real -> real)
    requires Follows(tail)
    requires var left := Primary(Stream(toks + rest, None), env, root);
             && Yields(left, env, left.result, rest)
             && (left.result.Err? ==> out == left.result)
             && (left.result.Ok? ==> Yields(TermTail(left.result.value, After(rest), env, root), env, out, tail))
    ensures Yields(Term(Stream(toks + rest, None), env, root), env, out, tail)
  {
  }

  /** One round of the loop of expression() after it has read `+` or `-`. */
  lemma AddStep(acc: real, c: char, toks: seq<Lexeme>, rest: seq<Lexeme>, tail: seq<Lexeme>, out: Result<real>,
                env: Env, root: real -> real)
    requires c == '+' || c == '-'
    requires Follows(tail)
    requires var right := Term(Stream(toks + rest, None), env, root);
             && Yields(right, env, right.result, rest)
             && (right.result.Err? ==> out == right.result)
             && (right.result.Ok? ==>
                   Yields(ExpressionTail(if c == '+' then Add(acc, right.result.value) else Sub(acc, right.result.value),
                                         After(rest), env, root), env, out, tail))
    ensures Yields(ExpressionTail(acc, Stream(toks + rest, Some(Sym(c))), env, root), env, out, tail)
  {
  }

  /** expression(): the first term, then the loop. */
  lemma ExpressionStep(toks: seq<Lexeme>, rest: seq<Lexeme>, tail: seq<Lexeme>, out: Result<real>,
                       env: Env, root: real -> real)
    requires Follows(tail)
    requires var left := Term(Stream(toks + rest, None), env, root);
             && Yields(left, env, left.result, rest)
             && (left.result.Err? ==> out == left.result)
             && (left.result.Ok? ==> Yields(ExpressionTail(left.result.value, After(rest), env, root), env, out, tail))
    ensures Yields(Expression(Stream(toks + rest, None), env, root), env, out, tail)
  {
  }

  // The fragment, production by production.

  lemma {:induction false} FactorEval(f: Factor, tail: seq<Lexeme>, env: Env, root: real -> real)
    requires Follows(tail)
    ensures Yields(Primary(Stream(FactorToks(f) + tail, None), env, root), env, FactorValue(f), tail)
    decreases f, 0
  {
    match f
    case Lit(x) =>
      Split([Ok(Number(x))], tail);
    case Neg(g) =>
      FactorEval(g, tail, env, root);
      SignStep('-', FactorToks(g), tail, FactorValue(g), env, root);
    case Pos(g) =>
      FactorEval(g, tail, env, root);
      SignStep('+', FactorToks(g), tail, FactorValue(g), env, root);
    case Group(e, curly) =>
      var close := [Ok(Sym(Closer(curly)))] + tail;
      Split([Ok(Sym(Closer(curly)))], tail);
      SumEval(e, close, env, root);
      GroupStep(curly, SumToks(e), tail, SumValue(e), env, root);
  }

  /** The steps after the first factor of a product, folded into `acc`. */
  lemma {:induction false} MulEval(acc: real, m: MulSteps, tail: seq<Lexeme>, env: Env, root: real -> real)
    requires Follows(tail) && EndsTerm(tail[0].value)
    ensures Follows(MulToks(m) + tail)
    ensures Yields(TermTail(acc, After(MulToks(m) + tail), env, root), env, MulFold(acc, m), tail)
    decreases m, 1
  {
    MulFollows(m, tail);
    match m
    case MulEnd =>
      assert MulToks(m) + tail == tail;
    case Times(f, n) =>
      MulFirst('*', f, n, tail);
      TimesEval(acc, f, n, tail, env, root);
    case Over(f, n) =>
      MulFirst('/', f, n, tail);
      OverEval(acc, f, n, tail, env, root);
    case Rem(f, n) =>
      MulFirst('%', f, n, tail);
      RemEval(acc, f, n, tail, env, root);
  }

  lemma {:induction false} TimesEval(acc: real, f: Factor, n: MulSteps, tail: seq<Lexeme>, env: Env, root: real -> real)
    requires Follows(tail) && EndsTerm(tail[0].value)
    ensures Yields(TermTail(acc, Stream(FactorToks(f) + (MulToks(n) + tail), Some(Sym('*'))), env, root), env,
                   MulFold(acc, Times(f, n)), tail)
    decreases Times(f, n), 0
  {
    var rest := MulToks(n) + tail;
    MulFollows(n, tail);
    FactorEval(f, rest, env, root);
    var v := FactorValue(f);
    if v.Ok? {
      MulEval(Mul(acc, v.value), n, tail, env, root);
    }
    MulStep(acc, '*', FactorToks(f), rest, tail, MulFold(acc, Times(f, n)), env, root);
  }

  lemma {:induction false} OverEval(acc: real, f: Factor, n: MulSteps, tail: seq<Lexeme>, env: Env, root: real -> real)
    requires Follows(tail) && EndsTerm(tail[0].value)
    ensures Yields(TermTail(acc, Stream(FactorToks(f) + (MulToks(n) + tail), Some(Sym('/'))), env, root), env,
                   MulFold(acc, Over(f, n)), tail)
    decreases Over(f, n), 0
  {
    var rest := MulToks(n) + tail;
    MulFollows(n, tail);
    FactorEval(f, rest, env, root);
    var v := FactorValue(f);
    if v.Ok? && v.value != 0.0 {
      MulEval(Div(acc, v.value), n, tail, env, root);
    }
    MulStep(acc, '/', FactorToks(f), rest, tail, MulFold(acc, Over(f, n)), env, root);
  }

  lemma {:induction false} RemEval(acc: real, f: Factor, n: MulSteps, tail: seq<Lexeme>, env: Env, root: real -> real)
    requires Follows(tail) && EndsTerm(tail[0].value)
    ensures Yields(TermTail(acc, Stream(FactorToks(f) + (MulToks(n) + tail), Some(Sym('%'))), env, root), env,
                   MulFold(acc, Rem(f, n)), tail)
    decreases Rem(f, n), 0
  {
    var rest := MulToks(n) + tail;
    MulFollows(n, tail);
    FactorEval(f, rest, env, root);
    var v := FactorValue(f);
    if Narrow(acc).Ok? && v.Ok? && Narrow(v.value).Ok? && Narrow(v.value) != Ok(0) {
      MulEval(TruncRem(Narrow(acc).value, Narrow(v.value).value) as real, n, tail, env, root);
    }
    RemStep(acc, FactorToks(f), rest, tail, MulFold(acc, Rem(f, n)), env, root);
  }

  /** An operator followed by an operand and more steps: the operator, then
      the rest. */
  lemma MulFirst(c: char, f: Factor, n: MulSteps, tail: seq<Lexeme>)
    requires c == '*' || c == '/' || c == '%'
    ensures var s := [Ok(Sym(c))] + FactorToks(f) + MulToks(n) + tail;
            && Follows(s)
            && After(s) == Stream(FactorToks(f) + (MulToks(n) + tail), Some(Sym(c)))
  {
    Regroup([Ok(Sym(c))], FactorToks(f), MulToks(n), tail);
    Split([Ok(Sym(c))], FactorToks(f) + (MulToks(n) + tail));
  }

  /** The steps of a product followed by the rest begin with an operator or
      with the token after the fragment, so a complete operand may precede
      them. */
  lemma MulFollows(m: MulSteps, tail: seq<Lexeme>)
    requires Follows(tail)
    ensures Follows(MulToks(m) + tail)
  {
    match m
    case MulEnd => assert MulToks(m) + tail == tail;
    case Times(g, k) => Split([Ok(Sym('*'))], FactorToks(g) + MulToks(k) + tail);
    case Over(g, k) => Split([Ok(Sym('/'))], FactorToks(g) + MulToks(k) + tail);
    case Rem(g, k) => Split([Ok(Sym('%'))], FactorToks(g) + MulToks(k) + tail);
  }

  lemma {:induction false} ProductEval(p: Product, tail: seq<Lexeme>, env: Env, root: real -> real)
    requires Follows(tail) && EndsTerm(tail[0].value)
    ensures Yields(Term(Stream(ProductToks(p) + tail, None), env, root), env, ProductValue(p), tail)
    decreases p, 2
  {
    var rest := MulToks(p.rest) + tail;
    Regroup3(FactorToks(p.first), MulToks(p.rest), tail);
    MulFollows(p.rest, tail);
    FactorEval(p.first, rest, env, root);
    var v := FactorValue(p.first);
    if v.Ok? {
      MulEval(v.value, p.rest, tail, env, root);
    }
    TermStep(FactorToks(p.first), rest, tail, ProductValue(p), env, root);
  }

  /** The steps after the first product of a sum, folded into `acc`. */
  lemma {:induction false} AddEval(acc: real, a: AddSteps, tail: seq<Lexeme>, env: Env, root: real -> real)
    requires Follows(tail) && EndsTerm(tail[0].value) && Kind(tail[0].value) != '+' && Kind(tail[0].value) != '-'
    ensures Follows(AddToks(a) + tail)
    ensures Yields(ExpressionTail(acc, After(AddToks(a) + tail), env, root), env,
                   Ending(AddFold(acc, a), tail[0].value), tail)
    decreases a, 1
  {
    AddFollows(a, tail);
    match a
    case AddEnd =>
      assert AddToks(a) + tail == tail;
    case Plus(p, n) =>
      AddFirst('+', p, n, tail);
      PlusEval(acc, p, n, tail, env, root);
    case Minus(p, n) =>
      AddFirst('-', p, n, tail);
      MinusEval(acc, p, n, tail, env, root);
  }

  lemma {:induction false} PlusEval(acc: real, p: Product, n: AddSteps, tail: seq<Lexeme>, env: Env, root: real -> real)
    requires Follows(tail) && EndsTerm(tail[0].value) && Kind(tail[0].value) != '+' && Kind(tail[0].value) != '-'
    ensures Yields(ExpressionTail(acc, Stream(ProductToks(p) + (AddToks(n) + tail), Some(Sym('+'))), env, root), env,
                   Ending(AddFold(acc, Plus(p, n)), tail[0].value), tail)
    decreases Plus(p, n), 0
  {
    var rest := AddToks(n) + tail;
    AddFollows(n, tail);
    ProductEval(p, rest, env, root);
    var v := ProductValue(p);
    if v.Ok? {
      AddEval(Add(acc, v.value), n, tail, env, root);
    }
    AddStep(acc, '+', ProductToks(p), rest, tail, Ending(AddFold(acc, Plus(p, n)), tail[0].value), env, root);
  }

  lemma {:induction false} MinusEval(acc: real, p: Product, n: AddSteps, tail: seq<Lexeme>, env: Env, root: real -> real)
    requires Follows(tail) && EndsTerm(tail[0].value) && Kind(tail[0].value) != '+' && Kind(tail[0].value) != '-'
    ensures Yields(ExpressionTail(acc, Stream(ProductToks(p) + (AddToks(n) + tail), Some(Sym('-'))), env, root), env,
                   Ending(AddFold(acc, Minus(p, n)), tail[0].value), tail)
    decreases Minus(p, n), 0
  {
    var rest := AddToks(n) + tail;
    AddFollows(n, tail);
    ProductEval(p, rest, env, root);
    var v := ProductValue(p);
    if v.Ok? {
      AddEval(Sub(acc, v.value), n, tail, env, root);
    }
    AddStep(acc, '-', ProductToks(p), rest, tail, Ending(AddFold(acc, Minus(p, n)), tail[0].value), env, root);
  }

  lemma AddFirst(c: char, p: Product, n: AddSteps, tail: seq<Lexeme>)
    requires c == '+' || c == '-'
    ensures var s := [Ok(Sym(c))] + ProductToks(p) + AddToks(n) + tail;
            && Follows(s)
            && After(s) == Stream(ProductToks(p) + (AddToks(n) + tail), Some(Sym(c)))
  {
    Regroup([Ok(Sym(c))], ProductToks(p), AddToks(n), tail);
    Split([Ok(Sym(c))], ProductToks(p) + (AddToks(n) + tail));
  }

  /** The steps of a sum followed by the rest begin with a token that ends a
      term. */
  lemma AddFollows(a: AddSteps, tail: seq<Lexeme>)
    requires Follows(tail) && EndsTerm(tail[0].value)
    ensures Follows(AddToks(a) + tail) && EndsTerm((AddToks(a) + tail)[0].value)
  {
    match a
    case AddEnd => assert AddToks(a) + tail == tail;
    case Plus(q, k) => Split([Ok(Sym('+'))], ProductToks(q) + AddToks(k) + tail);
    case Minus(q, k) => Split([Ok(Sym('-'))], ProductToks(q) + AddToks(k) + tail);
  }

  /** The precedence theorem: evaluating the spelling of a fragment
      expression gives the reference value, leaves the table alone, and
      stops at the token after it, which is put back. That token must not
      continue the expression; if it can only start an operand, the
      expression is rejected instead. */
  lemma {:induction false} SumEval(e: Sum, tail: seq<Lexeme>, env: Env, root: real -> real)
    requires Follows(tail) && EndsTerm(tail[0].value) && Kind(tail[0].value) != '+' && Kind(tail[0].value) != '-'
    ensures Yields(Expression(Stream(SumToks(e) + tail, None), env, root), env,
                   Ending(SumValue(e), tail[0].value), tail)
    decreases e, 2
  {
    var rest := AddToks(e.rest) + tail;
    Regroup3(ProductToks(e.first), AddToks(e.rest), tail);
    AddFollows(e.rest, tail);
    ProductEval(e.first, rest, env, root);
    var v := ProductValue(e.first);
    if v.Ok? {
      AddEval(v.value, e.rest, tail, env, root);
    }
    ExpressionStep(ProductToks(e.first), rest, tail, Ending(SumValue(e), tail[0].value), env, root);
  }
}
