/** The recursive-descent grammar of grammar.cpp, which evaluates while it
    parses. Each production reads tokens from the stream, reads and writes the
    symbol table, and yields a value or an error. Parsing and evaluation are
    interleaved: an assignment takes effect as soon as its right-hand side has
    been evaluated, and an error later in the statement does not undo it.

    The host square root is a parameter `root`, consulted only on arguments
    that are not negative. */
module Grammar {
  import opened Failures
  import opened Tokens
  import opened TokenStream
  import opened Numeric
  import opened SymbolTable

  /** The outcome of a production together with the stream and the table as
      they stand afterwards. On an error the table keeps every change made
      before the error was raised. */
  datatype Eval = Eval(result: Result<real>, ts: Stream, env: Env)

  /** The changes a production without declarations can make to the table:
      the same names in the same order with the same mutability, and the
      constants' values untouched. */
  ghost predicate Keeps(env: Env, env': Env) {
    && |env'| == |env|
    && forall i :: 0 <= i < |env| ==>
         && env'[i].name == env[i].name
         && env'[i].mutable == env[i].mutable
         && (!env[i].mutable ==> env'[i].value == env[i].value)
  }

  /** The token kinds that can only begin a new operand; expression() rejects
      them where an operator or the end of the expression belongs. */
  predicate StartsOperand(t: Token) {
    var k := Kind(t);
    k == NumberKind || k == '(' || k == '{' || k == '=' || k == SqrtKind || k == PowKind || k == NameKind
  }

  /** The tokens an expression can end at: they neither continue it with
      + or - nor start another operand. */
  predicate EndsExpression(t: Token) {
    Kind(t) != '+' && Kind(t) != '-' && !StartsOperand(t)
  }

  /** The tokens a term can end at. */
  predicate EndsTerm(t: Token) {
    Kind(t) != '*' && Kind(t) != '/' && Kind(t) != '%'
  }

  // ---------------------------------------------------------------------
  // statement and declaration

  /** statement(): `let` and `const` start a declaration; any other token is
      put back and an expression is evaluated. */
  function Statement(ts: Stream, env: Env, root: real -> real): (r: Eval)
    ensures |env| <= |r.env| <= |env| + 1
    ensures Keeps(env, r.env[..|env|])
    ensures |r.env| == |env| + 1 ==>
              && r.result.Ok?
              && r.env[|env|].value == r.result.value
              && forall i :: 0 <= i < |env| ==> env[i].name != r.env[|env|].name
    ensures Unique(env) ==> Unique(r.env)
    ensures r.result.Ok? ==> Measure(r.ts) < Measure(ts)
    ensures r.result != Err(ReservedName) && r.result != Err(BufferFull)
  {
    var g := TokenStream.Get(ts);
    match g.0
    case Err(e) => Eval(Err(e), g.1, env)
    case Ok(t) =>
      if Kind(t) == LetKind then Declaration(g.1, env, true, root)
      else if Kind(t) == ConstKind then Declaration(g.1, env, false, root)
      else
        var r := Expression(Unget(g.1, t), env, root);
        assert r.env[..|env|] == r.env;
        r
  }

  /** declaration(): Name "=" Expression. The expression is evaluated before
      define() is called, so a declaration whose expression fails declares
      nothing. */
  function Declaration(ts: Stream, env: Env, mutable: bool, root: real -> real): (r: Eval)
    ensures |env| <= |r.env| <= |env| + 1
    ensures Keeps(env, r.env[..|env|])
    ensures |r.env| == |env| + 1 <==> r.result.Ok?
    ensures r.result.Ok? ==>
              && r.env[|env|].value == r.result.value
              && r.env[|env|].mutable == mutable
              && forall i :: 0 <= i < |env| ==> env[i].name != r.env[|env|].name
    ensures Unique(env) ==> Unique(r.env)
    ensures r.result.Ok? ==> Measure(r.ts) < Measure(ts)
    ensures ts.slot.None? ==> r.result != Err(ReservedName)
    ensures r.result != Err(BufferFull)
  {
    var g1 := TokenStream.Get(ts);
    match g1.0
    case Err(e) => Eval(Err(e), g1.1, env)
    case Ok(t1) =>
      if Kind(t1) != NameKind then Eval(Err(NameExpected), g1.1, env)
      else
        var g2 := TokenStream.Get(g1.1);
        match g2.0
        case Err(e) => Eval(Err(e), g2.1, env)
        case Ok(t2) =>
          if Kind(t2) != '=' then Eval(Err(AssignExpected), g2.1, env)
          else Declare(TokenName(t1), mutable, g2.1, env, root)
  }

  /** The part of a declaration after `Name =`: the expression, then
      define() with the value it yields. */
  function Declare(name: string, mutable: bool, ts: Stream, env: Env, root: real -> real): (r: Eval)
    ensures |env| <= |r.env| <= |env| + 1
    ensures Keeps(env, r.env[..|env|])
    ensures |r.env| == |env| + 1 <==> r.result.Ok?
    ensures r.result.Ok? ==>
              && r.env[|env|] == Variable(name, r.result.value, mutable)
              && forall i :: 0 <= i < |env| ==> env[i].name != name
    ensures r.result.Err? && r.result.error == ReservedName ==> IsProhibited(name)
    ensures Unique(env) ==> Unique(r.env)
    ensures r.result.Ok? ==> Measure(r.ts) < Measure(ts)
    ensures r.result != Err(BufferFull)
  {
    var val := Expression(ts, env, root);
    assert val.env[..|env|] == val.env;
    if val.result.Err? then val
    else match Define(val.env, name, val.result.value, mutable)
      case Err(e) => Eval(Err(e), val.ts, val.env)
      case Ok(env') =>
        assert env'[..|env|] == val.env;
        Eval(val.result, val.ts, env')
  }

  // ---------------------------------------------------------------------
  // expression and term

  /** expression(): a term followed by any number of `+ term` / `- term`,
      folded from the left. */
  function Expression(ts: Stream, env: Env, root: real -> real): (r: Eval)
    ensures Keeps(env, r.env)
    ensures r.result.Ok? ==> Measure(r.ts) < Measure(ts)
    ensures r.result.Ok? ==> r.ts.slot.Some? && EndsExpression(r.ts.slot.value)
    ensures r.result != Err(ReservedName) && r.result != Err(BufferFull)
    decreases Measure(ts), 2
  {
    var left := Term(ts, env, root);
    if left.result.Err? then left
    else ExpressionTail(left.result.value, left.ts, left.env, root)
  }

  /** The loop of expression(), with the value accumulated so far. A token
      that can only start an operand is an error; any other token ends the
      expression and is put back. */
  function ExpressionTail(left: real, ts: Stream, env: Env, root: real -> real): (r: Eval)
    ensures Keeps(env, r.env)
    ensures r.result.Ok? ==> Measure(r.ts) <= Measure(ts)
    ensures r.result.Ok? ==> r.ts.slot.Some? && EndsExpression(r.ts.slot.value)
    ensures r.result != Err(ReservedName) && r.result != Err(BufferFull)
    decreases Measure(ts), 0
  {
    var g := TokenStream.Get(ts);
    match g.0
    case Err(e) => Eval(Err(e), g.1, env)
    case Ok(t) =>
      if Kind(t) == '+' || Kind(t) == '-' then
        var right := Term(g.1, env, root);
        if right.result.Err? then right
        else
          var next := if Kind(t) == '+' then Add(left, right.result.value) else Sub(left, right.result.value);
          ExpressionTail(next, right.ts, right.env, root)
      else if StartsOperand(t) then Eval(Err(OperandExpected), g.1, env)
      else Eval(Ok(left), Unget(g.1, t), env)
  }

  /** term(): a primary followed by any number of `* primary`, `/ primary`
      and `% primary`, folded from the left. */
  function Term(ts: Stream, env: Env, root: real -> real): (r: Eval)
    ensures Keeps(env, r.env)
    ensures r.result.Ok? ==> Measure(r.ts) < Measure(ts)
    ensures r.result.Ok? ==> r.ts.slot.Some? && EndsTerm(r.ts.slot.value)
    ensures r.result != Err(ReservedName) && r.result != Err(BufferFull)
    decreases Measure(ts), 1
  {
    var left := Primary(ts, env, root);
    if left.result.Err? then left
    else TermTail(left.result.value, left.ts, left.env, root)
  }

  /** The loop of term(). `/` fails on a divisor that is exactly 0. `%`
      narrows its left operand before reading the right one, narrows the
      right one, fails if it is 0, and yields the truncating remainder. */
  function TermTail(left: real, ts: Stream, env: Env, root: real -> real): (r: Eval)
    ensures Keeps(env, r.env)
    ensures r.result.Ok? ==> Measure(r.ts) <= Measure(ts)
    ensures r.result.Ok? ==> r.ts.slot.Some? && EndsTerm(r.ts.slot.value)
    ensures r.result != Err(ReservedName) && r.result != Err(BufferFull)
    decreases Measure(ts), 0
  {
    var g := TokenStream.Get(ts);
    match g.0
    case Err(e) => Eval(Err(e), g.1, env)
    case Ok(t) =>
      if Kind(t) == '*' then
        var right := Primary(g.1, env, root);
        if right.result.Err? then right
        else TermTail(Mul(left, right.result.value), right.ts, right.env, root)
      else if Kind(t) == '/' then
        var right := Primary(g.1, env, root);
        if right.result.Err? then right
        else if right.result.value == 0.0 then Eval(Err(DivideByZero), right.ts, right.env)
        else TermTail(Div(left, right.result.value), right.ts, right.env, root)
      else if Kind(t) == '%' then
        match Narrow(left)
        case Err(e) => Eval(Err(e), g.1, env)
        case Ok(i1) =>
          var right := Primary(g.1, env, root);
          if right.result.Err? then right
          else match Narrow(right.result.value)
            case Err(e) => Eval(Err(e), right.ts, right.env)
            case Ok(i2) =>
              if i2 == 0 then Eval(Err(DivideByZero), right.ts, right.env)
              else TermTail(TruncRem(i1, i2) as real, right.ts, right.env, root)
      else Eval(Ok(left), Unget(g.1, t), env)
  }

  // ---------------------------------------------------------------------
  // primary

  /** primary(): dispatch on the leading token. */
  function Primary(ts: Stream, env: Env, root: real -> real): (r: Eval)
    ensures Keeps(env, r.env)
    ensures r.result.Ok? ==> Measure(r.ts) < Measure(ts)
    ensures r.result != Err(ReservedName) && r.result != Err(BufferFull)
    decreases Measure(ts), 0
  {
    var g := TokenStream.Get(ts);
    match g.0
    case Err(e) => Eval(Err(e), g.1, env)
    case Ok(t) =>
      if Kind(t) == '(' then Bracketed(')', g.1, env, root)
      else if Kind(t) == '{' then Bracketed('}', g.1, env, root)
      else if Kind(t) == NumberKind then Bang(TokenValue(t), g.1, env)
      else if Kind(t) == '-' then
        var operand := Primary(g.1, env, root);
        if operand.result.Err? then operand
        else operand.(result := Ok(Negate(operand.result.value)))
      else if Kind(t) == '+' then Primary(g.1, env, root)
      else if Kind(t) == NameKind then NameOrAssignment(TokenName(t), g.1, env, root)
      else if Kind(t) == SqrtKind then SqrtCall(g.1, env, root)
      else if Kind(t) == PowKind then PowCall(g.1, env, root)
      else Eval(Err(PrimaryExpected), g.1, env)
  }

  /** The optional `!` after a number or a closing bracket: factorial of the
      value narrowed to an integer; any other token is put back. */
  function Bang(d: real, ts: Stream, env: Env): (r: Eval)
    ensures r.env == env
    ensures Measure(r.ts) <= Measure(ts)
    ensures r.result != Err(ReservedName) && r.result != Err(BufferFull)
  {
    var g := TokenStream.Get(ts);
    match g.0
    case Err(e) => Eval(Err(e), g.1, env)
    case Ok(t) =>
      if Kind(t) == '!' then
        match Narrow(d)
        case Err(e) => Eval(Err(e), g.1, env)
        case Ok(n) => Eval(Factorial(n), g.1, env)
      else Eval(Ok(d), Unget(g.1, t), env)
  }

  /** "(" Expression ")" or "{" Expression "}", after the opening bracket,
      with the optional `!` after the closer. */
  function Bracketed(closer: char, ts: Stream, env: Env, root: real -> real): (r: Eval)
    ensures Keeps(env, r.env)
    ensures r.result.Ok? ==> Measure(r.ts) < Measure(ts)
    ensures r.result != Err(ReservedName) && r.result != Err(BufferFull)
    decreases Measure(ts), 3
  {
    var inner := Expression(ts, env, root);
    if inner.result.Err? then inner
    else
      var g := TokenStream.Get(inner.ts);
      match g.0
      case Err(e) => Eval(Err(e), g.1, inner.env)
      case Ok(t) =>
        if Kind(t) != closer then Eval(Err(Expected(closer)), g.1, inner.env)
        else Bang(inner.result.value, g.1, inner.env)
  }

  /** A name just read: followed by `=` it is an assignment, whose right-hand
      side is evaluated before set() is called and whose value is the value
      assigned; otherwise the name must be declared and yields its value. */
  function NameOrAssignment(name: string, ts: Stream, env: Env, root: real -> real): (r: Eval)
    ensures Keeps(env, r.env)
    ensures r.result.Ok? ==> Measure(r.ts) <= Measure(ts)
    ensures r.result != Err(ReservedName) && r.result != Err(BufferFull)
    decreases Measure(ts), 3
  {
    var g := TokenStream.Get(ts);
    match g.0
    case Err(e) => Eval(Err(e), g.1, env)
    case Ok(t) =>
      if Kind(t) == '=' then Assign(name, Expression(g.1, env, root))
      else
        var ts' := Unget(g.1, t);
        if !IsDeclared(env, name) then Eval(Err(UndeclaredName), ts', env)
        else Eval(SymbolTable.Get(env, name), ts', env)
  }

  /** The assignment once its right-hand side has been evaluated: set() on
      the table as the right-hand side left it. */
  function Assign(name: string, rhs: Eval): (r: Eval)
    ensures Keeps(rhs.env, r.env)
    ensures r.ts == rhs.ts
    ensures r.result.Ok? ==> r.result == rhs.result
    ensures r.result.Err? ==>
              r.result == rhs.result || r.result == Err(UndeclaredName) || r.result == Err(ImmutableAssignment)
  {
    if rhs.result.Err? then rhs
    else match Set(rhs.env, name, rhs.result.value)
      case Err(e) => Eval(Err(e), rhs.ts, rhs.env)
      case Ok(env') => Eval(rhs.result, rhs.ts, env')
  }

  /** sqrt: the next token must be '(', but it is put back, so the argument
      is the whole expression that follows, of which the bracketed part is
      only the first operand. A negative argument is an error. */
  function SqrtCall(ts: Stream, env: Env, root: real -> real): (r: Eval)
    ensures Keeps(env, r.env)
    ensures r.result.Ok? ==> Measure(r.ts) < Measure(ts)
    ensures r.result != Err(ReservedName) && r.result != Err(BufferFull)
    decreases Measure(ts), 3
  {
    var g := TokenStream.Get(ts);
    match g.0
    case Err(e) => Eval(Err(e), g.1, env)
    case Ok(t) =>
      if Kind(t) != '(' then Eval(Err(Expected('(')), g.1, env)
      else
        var arg := Expression(Unget(g.1, t), env, root);
        if arg.result.Err? then arg
        else if arg.result.value < 0.0 then Eval(Err(NegativeSqrt), arg.ts, arg.env)
        else Eval(Ok(root(arg.result.value)), arg.ts, arg.env)
  }

  /** pow "(" Expression "," Expression ")": the exponent is narrowed to an
      integer before the closing bracket is checked. */
  function PowCall(ts: Stream, env: Env, root: real -> real): (r: Eval)
    ensures Keeps(env, r.env)
    ensures r.result.Ok? ==> Measure(r.ts) < Measure(ts)
    ensures r.result != Err(ReservedName) && r.result != Err(BufferFull)
    decreases Measure(ts), 3
  {
    var g := TokenStream.Get(ts);
    match g.0
    case Err(e) => Eval(Err(e), g.1, env)
    case Ok(t) =>
      if Kind(t) != '(' then Eval(Err(Expected('(')), g.1, env)
      else
        var base := Expression(g.1, env, root);
        if base.result.Err? then base
        else PowTail(base, root)
  }

  /** The rest of a pow call, after the base expression. */
  function PowTail(base: Eval, root: real -> real): (r: Eval)
    requires base.result.Ok?
    ensures Keeps(base.env, r.env)
    ensures r.result.Ok? ==> Measure(r.ts) < Measure(base.ts)
    ensures r.result != Err(ReservedName) && r.result != Err(BufferFull)
    decreases Measure(base.ts), 3
  {
    var g := TokenStream.Get(base.ts);
    match g.0
    case Err(e) => Eval(Err(e), g.1, base.env)
    case Ok(t) =>
      if Kind(t) != ',' then Eval(Err(Expected(',')), g.1, base.env)
      else
        var exponent := Expression(g.1, base.env, root);
        if exponent.result.Err? then exponent
        else match Narrow(exponent.result.value)
          case Err(e) => Eval(Err(e), exponent.ts, exponent.env)
          case Ok(p) =>
            var g2 := TokenStream.Get(exponent.ts);
            match g2.0
            case Err(e) => Eval(Err(e), g2.1, exponent.env)
            case Ok(t2) =>
              if Kind(t2) != ')' then Eval(Err(Expected(')')), g2.1, exponent.env)
              else Eval(Numeric.Pow(base.result.value, p), g2.1, exponent.env)
  }
}
