/** Whole statements, and the productions the arithmetic fragment leaves
    out: names and assignment, declarations, the sqrt and pow calls, and
    the factorial `!`. Each fact is stated over arbitrary surrounding
    tokens; the concrete calculations at the end are put together from
    them. */
module Statements {
  import opened Failures
  import opened Tokens
  import opened TokenStream
  import opened SymbolTable
  import opened Numeric
  import opened Grammar
  import opened Precedence

  // ---------------------------------------------------------------------
  // The productions see the stream only through get()

  lemma PrimaryReadsOnce(a: Stream, b: Stream, env: Env, root: real -> real)
    requires TokenStream.Get(a) == TokenStream.Get(b)
    ensures Primary(a, env, root) == Primary(b, env, root)
  {
  }

  lemma TermReadsOnce(a: Stream, b: Stream, env: Env, root: real -> real)
    requires TokenStream.Get(a) == TokenStream.Get(b)
    ensures Term(a, env, root) == Term(b, env, root)
  {
    PrimaryReadsOnce(a, b, env, root);
  }

  /** A token read and put back is read again: expression() cannot tell the
      stream it was put back into from the stream it was read from. */
  lemma ExpressionReadsOnce(a: Stream, b: Stream, env: Env, root: real -> real)
    requires TokenStream.Get(a) == TokenStream.Get(b)
    ensures Expression(a, env, root) == Expression(b, env, root)
  {
    TermReadsOnce(a, b, env, root);
  }

  /** The token at the front of a fresh stream is what get() reads. */
  lemma GetFront(t: Lexeme, s: seq<Lexeme>)
    ensures TokenStream.Get(Stream([t] + s, None)) == (t, Stream(s, None))
  {
    Split([t], s);
  }

  /** statement(): anything but `let` and `const` is an expression, read
      from the first token on. */
  lemma StatementIsExpression(s: seq<Lexeme>, env: Env, root: real -> real)
    requires |s| > 0 && s[0].Ok?
    requires Kind(s[0].value) != LetKind && Kind(s[0].value) != ConstKind
    ensures Statement(Stream(s, None), env, root) == Expression(Stream(s, None), env, root)
  {
    ExpressionReadsOnce(Stream(s[1..], Some(s[0].value)), Stream(s, None), env, root);
  }

  /** statement(): `let` declares a variable and `const` a constant. */
  lemma StatementIsDeclaration(kw: Token, s: seq<Lexeme>, env: Env, root: real -> real)
    requires kw == LetKw || kw == ConstKw
    ensures Statement(Stream([Ok(kw)] + s, None), env, root) == Declaration(Stream(s, None), env, kw == LetKw, root)
  {
    GetFront(Ok(kw), s);
  }

  /** A primary followed by a token that ends both a term and an expression
      is a whole expression: the token is read by term(), put back, read by
      expression() and put back again. */
  lemma ExpressionIsPrimary(ts: Stream, env: Env, root: real -> real)
    requires var p := Primary(ts, env, root);
             p.result.Ok? ==>
               var g := TokenStream.Get(p.ts);
               g.0.Ok? && EndsTerm(g.0.value) && EndsExpression(g.0.value)
    ensures var p := Primary(ts, env, root);
            var r := Expression(ts, env, root);
            && r.result == p.result
            && r.env == p.env
            && (p.result.Ok? ==> r.ts == Unget(TokenStream.Get(p.ts).1, TokenStream.Get(p.ts).0.value))
            && (p.result.Err? ==> r == p)
  {
    var p := Primary(ts, env, root);
    if p.result.Ok? {
      var g := TokenStream.Get(p.ts);
      TermTailEnds(p.result.value, p.ts, p.env, root);
      ExpressionTailEnds(p.result.value, Unget(g.1, g.0.value), p.env, root);
    }
  }

  /** The loop of term() ends at a token that is not `*`, `/` or `%`, which
      it puts back. */
  lemma TermTailEnds(left: real, ts: Stream, env: Env, root: real -> real)
    requires TokenStream.Get(ts).0.Ok? && EndsTerm(TokenStream.Get(ts).0.value)
    ensures var g := TokenStream.Get(ts);
            TermTail(left, ts, env, root) == Eval(Ok(left), Unget(g.1, g.0.value), env)
  {
  }

  /** The loop of expression() ends at a token that neither continues the
      expression nor starts an operand, which it puts back. */
  lemma ExpressionTailEnds(left: real, ts: Stream, env: Env, root: real -> real)
    requires TokenStream.Get(ts).0.Ok? && EndsExpression(TokenStream.Get(ts).0.value)
    ensures var g := TokenStream.Get(ts);
            ExpressionTail(left, ts, env, root) == Eval(Ok(left), Unget(g.1, g.0.value), env)
  {
  }

  // ---------------------------------------------------------------------
  // Whole statements of the arithmetic fragment

  /** The first token of a fragment operand is a number or a symbol. */
  lemma {:induction false} FactorStart(f: Factor)
    ensures |FactorToks(f)| > 0 && FactorToks(f)[0].Ok?
    ensures FactorToks(f)[0].value.Number? || FactorToks(f)[0].value.Sym?
  {
  }

  /** statement() on the tokens of a fragment expression is that expression:
      it yields the reference value and stops at the token after it. */
  lemma StatementTokens(e: Sum, tail: seq<Lexeme>, env: Env, root: real -> real)
    requires Follows(tail) && EndsTerm(tail[0].value) && Kind(tail[0].value) != '+' && Kind(tail[0].value) != '-'
    ensures Yields(Statement(Stream(SumToks(e) + tail, None), env, root), env,
                   Ending(SumValue(e), tail[0].value), tail)
  {
    var f := e.first.first;
    FactorStart(f);
    Regroup(FactorToks(f), MulToks(e.first.rest), AddToks(e.rest), tail);
    assert (SumToks(e) + tail)[0] == FactorToks(f)[0];
    StatementIsExpression(SumToks(e) + tail, env, root);
    SumEval(e, tail, env, root);
  }

  /** A fragment expression typed as a statement and terminated by `;`:
      statement() yields its reference value, leaves the table alone, and on
      success the `;` is the token put back, with the characters after it
      still to be read. */
  lemma StatementEval(e: Sum, rest: seq<Item>, env: Env, root: real -> real)
    ensures var r := Statement(Open(SumItems(e) + [Char(';')] + rest), env, root);
            && r.result == SumValue(e)
            && r.env == env
            && (r.result.Ok? ==> r.ts == Stream(Lex(rest), Some(Sym(';'))))
  {
    Regroup3(SumItems(e), [Char(';')], rest);
    LexSum(e, [Char(';')] + rest);
    ReadSymbol(';', rest);
    Split([Ok(Sym(';'))], Lex(rest));
    StatementTokens(e, [Ok(Sym(';'))] + Lex(rest), env, root);
  }

  /** An operand right after a complete expression is an error, not the
      start of another statement. */
  lemma OperandAfterFragment(e: Sum, x: real, rest: seq<Item>, env: Env, root: real -> real)
    requires SumValue(e).Ok?
    ensures Statement(Open(SumItems(e) + [Literal(x)] + rest), env, root).result == Err(OperandExpected)
  {
    Regroup3(SumItems(e), [Literal(x)], rest);
    LexSum(e, [Literal(x)] + rest);
    ReadLiteral(x, rest);
    Split([Ok(Number(x))], Lex(rest));
    StatementTokens(e, [Ok(Number(x))] + Lex(rest), env, root);
  }

  // ---------------------------------------------------------------------
  // Names and assignment

  /** A production without declarations keeps the names in place, so every
      name is found where it was. */
  lemma KeepsFind(env: Env, env': Env, name: string)
    requires Keeps(env, env')
    ensures Find(env', name) == Find(env, name)
  {
    match Find(env, name)
    case None =>
    case Some(i) =>
      assert env'[i].name == name;
  }

  lemma KeepsUnique(env: Env, env': Env)
    requires Unique(env) && Keeps(env, env')
    ensures Unique(env')
  {
  }

  /** The name is declared and the entry set() would change is a variable,
      not a constant. */
  predicate Assignable(env: Env, name: string) {
    Find(env, name).Some? && env[Find(env, name).value].mutable
  }

  /** A name not followed by `=` is read: its value if it is declared, the
      undeclared-name error if not. The token after it is put back. */
  lemma NameRead(name: string, t: Token, tail: seq<Lexeme>, env: Env, root: real -> real)
    requires Lexable(Name(name)) && Lexable(t) && Kind(t) != '='
    ensures Primary(Stream([Ok(Name(name)), Ok(t)] + tail, None), env, root)
            == Eval(SymbolTable.Get(env, name), Stream(tail, Some(t)), env)
  {
    assert [Ok(Name(name)), Ok(t)] + tail == [Ok(Name(name))] + ([Ok(t)] + tail);
    GetFront(Ok(Name(name)), [Ok(t)] + tail);
    GetFront(Ok(t), tail);
  }

  /** A name alone is an expression when the token after it ends one. */
  lemma NameExpression(name: string, t: Token, tail: seq<Lexeme>, env: Env, root: real -> real)
    requires Lexable(Name(name)) && Lexable(t) && Kind(t) != '='
    requires EndsTerm(t) && EndsExpression(t)
    ensures Expression(Stream([Ok(Name(name)), Ok(t)] + tail, None), env, root)
            == Eval(SymbolTable.Get(env, name), Stream(tail, Some(t)), env)
  {
    NameRead(name, t, tail, env, root);
    ExpressionIsPrimary(Stream([Ok(Name(name)), Ok(t)] + tail, None), env, root);
  }

  /** A name followed by something that can only start an operand, as in
      `x y` or `x 2`, is rejected even when the name is declared. */
  lemma NameThenOperand(name: string, t: Token, tail: seq<Lexeme>, env: Env, root: real -> real)
    requires Lexable(Name(name)) && Lexable(t) && Kind(t) != '=' && StartsOperand(t)
    ensures Expression(Stream([Ok(Name(name)), Ok(t)] + tail, None), env, root).result
            == if IsDeclared(env, name) then Err(OperandExpected) else Err(UndeclaredName)
  {
    NameRead(name, t, tail, env, root);
    if IsDeclared(env, name) {
      var v := SymbolTable.Get(env, name).value;
      TermTailEnds(v, Stream(tail, Some(t)), env, root);
    }
  }

  /** Assignment: the right-hand side is evaluated first, with whatever it
      does to the table, and only then is set() called. On success the
      assignment's value is the value stored, and no other name changes. An
      undeclared name or a constant is an error that keeps the changes the
      right-hand side made. */
  lemma AssignStores(name: string, rhs: Eval, env: Env)
    requires Unique(env) && Keeps(env, rhs.env)
    ensures var r := Assign(name, rhs);
            && (rhs.result.Err? ==> r == rhs)
            && Unique(r.env)
            && (rhs.result.Ok? && !IsDeclared(env, name) ==> r.result == Err(UndeclaredName) && r.env == rhs.env)
            && (rhs.result.Ok? && IsDeclared(env, name) && !Assignable(env, name) ==>
                  r.result == Err(ImmutableAssignment) && r.env == rhs.env)
            && (rhs.result.Ok? && Assignable(env, name) ==>
                  && r.result == rhs.result
                  && SymbolTable.Get(r.env, name) == rhs.result
                  && forall other :: other != name ==> SymbolTable.Get(r.env, other) == SymbolTable.Get(rhs.env, other))
  {
    KeepsUnique(env, rhs.env);
    if rhs.result.Ok? {
      KeepsFind(env, rhs.env, name);
      var v := rhs.result.value;
      if Set(rhs.env, name, v).Ok? {
        SetPreservesUnique(rhs.env, name, v);
        GetAfterSet(rhs.env, name, v, name);
        forall other | other != name
          ensures SymbolTable.Get(Set(rhs.env, name, v).value, other) == SymbolTable.Get(rhs.env, other)
        {
          GetAfterSet(rhs.env, name, v, other);
        }
      }
    }
  }

  /** `name = ...` read as a primary is the assignment of the expression
      after the `=`. */
  lemma AssignmentReads(name: string, toks: seq<Lexeme>, env: Env, root: real -> real)
    requires Lexable(Name(name))
    ensures Primary(Stream([Ok(Name(name)), Ok(Sym('='))] + toks, None), env, root)
            == Assign(name, Expression(Stream(toks, None), env, root))
  {
    assert [Ok(Name(name)), Ok(Sym('='))] + toks == [Ok(Name(name))] + ([Ok(Sym('='))] + toks);
    GetFront(Ok(Name(name)), [Ok(Sym('='))] + toks);
    GetFront(Ok(Sym('=')), toks);
  }

  /** An assignment read where an expression begins: the assignment is the
      whole expression when its right-hand side succeeds. */
  lemma AssignmentAsExpression(name: string, toks: seq<Lexeme>, env: Env, root: real -> real)
    requires Lexable(Name(name))
    requires var rhs := Expression(Stream(toks, None), env, root);
             rhs.result.Ok? ==> EndsTerm(rhs.ts.slot.value)
    ensures Expression(Stream([Ok(Name(name)), Ok(Sym('='))] + toks, None), env, root)
         == Assign(name, Expression(Stream(toks, None), env, root))
  {
    AssignmentReads(name, toks, env, root);
    ExpressionIsPrimary(Stream([Ok(Name(name)), Ok(Sym('='))] + toks, None), env, root);
  }

  /** An assignment to a variable is an expression whose value is the value
      assigned: the right-hand side, which may itself be an assignment, is
      evaluated first, then the variable is set, and the token that ended
      the right-hand side ends the whole. */
  lemma AssignmentExpression(name: string, toks: seq<Lexeme>, env: Env, root: real -> real)
    requires Unique(env) && Lexable(Name(name)) && Assignable(env, name)
    requires var rhs := Expression(Stream(toks, None), env, root);
             rhs.result.Ok? && EndsTerm(rhs.ts.slot.value)
    ensures var rhs := Expression(Stream(toks, None), env, root);
            var r := Expression(Stream([Ok(Name(name)), Ok(Sym('='))] + toks, None), env, root);
            && r.result == rhs.result
            && r.ts == rhs.ts
            && Unique(r.env) && Keeps(env, r.env)
            && SymbolTable.Get(r.env, name) == rhs.result
            && forall other :: other != name ==> SymbolTable.Get(r.env, other) == SymbolTable.Get(rhs.env, other)
  {
    var rhs := Expression(Stream(toks, None), env, root);
    AssignmentReads(name, toks, env, root);
    AssignStores(name, rhs, env);
    ExpressionIsPrimary(Stream([Ok(Name(name)), Ok(Sym('='))] + toks, None), env, root);
  }

  // ---------------------------------------------------------------------
  // Declarations

  /** declaration(): the expression is evaluated before define() is called.
      A failing expression declares nothing; a name already declared is a
      duplicate; otherwise the new entry is appended and reads back as the
      declaration's value. No name that lexes as a name is reserved. */
  lemma DeclarationEval(name: string, toks: seq<Lexeme>, env: Env, mutable: bool, root: real -> real)
    requires Lexable(Name(name))
    ensures var r := Declaration(Stream([Ok(Name(name)), Ok(Sym('='))] + toks, None), env, mutable, root);
            var rhs := Expression(Stream(toks, None), env, root);
            && (rhs.result.Err? ==> r == rhs)
            && (rhs.result.Ok? && IsDeclared(env, name) ==> r == Eval(Err(DuplicateName), rhs.ts, rhs.env))
            && (rhs.result.Ok? && !IsDeclared(env, name) ==>
                  && r == Eval(rhs.result, rhs.ts, rhs.env + [Variable(name, rhs.result.value, mutable)])
                  && SymbolTable.Get(r.env, name) == rhs.result)
  {
    assert [Ok(Name(name)), Ok(Sym('='))] + toks == [Ok(Name(name))] + ([Ok(Sym('='))] + toks);
    GetFront(Ok(Name(name)), [Ok(Sym('='))] + toks);
    GetFront(Ok(Sym('=')), toks);
    var rhs := Expression(Stream(toks, None), env, root);
    assert !IsProhibited(name);
    if rhs.result.Ok? {
      KeepsFind(env, rhs.env, name);
      if !IsDeclared(env, name) {
        GetAfterDefine(rhs.env, name, rhs.result.value, mutable, name);
      }
    }
  }

  /** A declaration must start with a name: a keyword in its place, as in
      `let const x = 1`, is rejected before anything is evaluated. */
  lemma DeclarationNeedsName(t: Token, s: seq<Lexeme>, env: Env, mutable: bool, root: real -> real)
    requires Lexable(t) && Kind(t) != NameKind
    ensures Declaration(Stream([Ok(t)] + s, None), env, mutable, root) == Eval(Err(NameExpected), Stream(s, None), env)
  {
    GetFront(Ok(t), s);
  }

  /** The name must be followed by `=`. */
  lemma DeclarationNeedsAssign(name: string, t: Token, s: seq<Lexeme>, env: Env, mutable: bool, root: real -> real)
    requires Lexable(Name(name)) && Lexable(t) && Kind(t) != '='
    ensures Declaration(Stream([Ok(Name(name)), Ok(t)] + s, None), env, mutable, root)
            == Eval(Err(AssignExpected), Stream(s, None), env)
  {
    assert [Ok(Name(name)), Ok(t)] + s == [Ok(Name(name))] + ([Ok(t)] + s);
    GetFront(Ok(Name(name)), [Ok(t)] + s);
    GetFront(Ok(t), s);
  }

  // ---------------------------------------------------------------------
  // sqrt

  /** What sqrt yields for the outcome of its argument. */
  function SqrtOf(v: Result<real>, root: real -> real): Result<real> {
    match v
    case Err(e) => Err(e)
    case Ok(x) => if x < 0.0 then Err(NegativeSqrt) else Ok(root(x))
  }

  /** The first token of a fragment expression that begins with a round
      bracket. */
  lemma OpensRound(e: Sum, tail: seq<Lexeme>)
    requires e.first.first.Group? && !e.first.first.curly
    ensures |SumToks(e) + tail| > 0 && (SumToks(e) + tail)[0] == Ok(Sym('('))
  {
    var f := e.first.first;
    Regroup(FactorToks(f), MulToks(e.first.rest), AddToks(e.rest), tail);
    Regroup3([Ok(Sym('('))], SumToks(f.e), [Ok(Sym(')'))]);
    Split([Ok(Sym('('))], SumToks(f.e) + [Ok(Sym(')'))] + (MulToks(e.first.rest) + (AddToks(e.rest) + tail)));
  }

  /** sqrt checks for `(` but puts it back, so its argument is the whole
      expression that follows, of which the bracketed part is only the first
      operand: `sqrt(4)+1` is the root of 5. A negative argument is an
      error. */
  lemma SqrtEval(e: Sum, tail: seq<Lexeme>, env: Env, root: real -> real)
    requires e.first.first.Group? && !e.first.first.curly
    requires Follows(tail) && EndsTerm(tail[0].value) && Kind(tail[0].value) != '+' && Kind(tail[0].value) != '-'
    ensures Yields(Primary(Stream([Ok(SqrtKw)] + SumToks(e) + tail, None), env, root), env,
                   SqrtOf(Ending(SumValue(e), tail[0].value), root), tail)
  {
    var s := SumToks(e) + tail;
    Regroup3([Ok(SqrtKw)], SumToks(e), tail);
    GetFront(Ok(SqrtKw), s);
    OpensRound(e, tail);
    ExpressionReadsOnce(Stream(s[1..], Some(Sym('('))), Stream(s, None), env, root);
    SumEval(e, tail, env, root);
  }

  /** sqrt must be followed by `(`. */
  lemma SqrtNeedsBracket(t: Token, s: seq<Lexeme>, env: Env, root: real -> real)
    requires Lexable(t) && Kind(t) != '('
    ensures Primary(Stream([Ok(SqrtKw), Ok(t)] + s, None), env, root) == Eval(Err(Expected('(')), Stream(s, None), env)
  {
    assert [Ok(SqrtKw), Ok(t)] + s == [Ok(SqrtKw)] + ([Ok(t)] + s);
    GetFront(Ok(SqrtKw), [Ok(t)] + s);
    GetFront(Ok(t), s);
  }

  /** A bracketed expression must end with its own closer: any other token
      after the expression is reported as the missing closer, unless the
      expression already failed. */
  lemma BracketNeedsCloser(curly: bool, e: Sum, t: Token, tail: seq<Lexeme>, env: Env, root: real -> real)
    requires Lexable(t) && Kind(t) != Closer(curly) && Kind(t) != '!'
    requires EndsTerm(t) && Kind(t) != '+' && Kind(t) != '-'
    ensures var r := Primary(Stream([Ok(Sym(Opener(curly)))] + (SumToks(e) + ([Ok(t)] + tail)), None), env, root);
            var inner := Ending(SumValue(e), t);
            && r.env == env
            && r.result == if inner.Err? then inner else Err(Expected(Closer(curly)))
  {
    GetFront(Ok(Sym(Opener(curly))), SumToks(e) + ([Ok(t)] + tail));
    Split([Ok(t)], tail);
    SumEval(e, [Ok(t)] + tail, env, root);
  }

  /** A token that starts no primary where one is due is "primary
      expected". */
  lemma NoPrimary(t: Token, s: seq<Lexeme>, env: Env, root: real -> real)
    requires Lexable(t)
    requires Kind(t) !in {'(', '{', NumberKind, '-', '+', NameKind, SqrtKind, PowKind}
    ensures Primary(Stream([Ok(t)] + s, None), env, root) == Eval(Err(PrimaryExpected), Stream(s, None), env)
  {
    GetFront(Ok(t), s);
  }

  // ---------------------------------------------------------------------
  // pow

  /** What a pow call yields for the outcomes of its two arguments: the
      exponent must be an integer. */
  function PowOf(base: Result<real>, exponent: Result<real>): Result<real> {
    match base
    case Err(e) => Err(e)
    case Ok(a) =>
      match exponent
      case Err(e) => Err(e)
      case Ok(x) =>
        match Narrow(x)
        case Err(e) => Err(e)
        case Ok(p) => Numeric.Pow(a, p)
  }

  /** The tokens of `pow(a, b)` followed by `tail`. */
  function PowToks(a: Sum, b: Sum, tail: seq<Lexeme>): seq<Lexeme> {
    [Ok(PowKw)] + ([Ok(Sym('('))] + (SumToks(a) + ([Ok(Sym(','))] + (SumToks(b) + ([Ok(Sym(')'))] + tail)))))
  }

  /** pow "(" Expression "," Expression ")": the base, then the exponent,
      which must narrow to an integer; the call ends at the `)`, with no
      token read after it. */
  lemma PowEval(a: Sum, b: Sum, tail: seq<Lexeme>, env: Env, root: real -> real)
    ensures var r := Primary(Stream(PowToks(a, b, tail), None), env, root);
            && r.env == env
            && r.result == PowOf(SumValue(a), SumValue(b))
            && (r.result.Ok? ==> r.ts == Stream(tail, None))
  {
    var close := [Ok(Sym(')'))] + tail;
    var comma := [Ok(Sym(','))] + (SumToks(b) + close);
    GetFront(Ok(PowKw), [Ok(Sym('('))] + (SumToks(a) + comma));
    GetFront(Ok(Sym('(')), SumToks(a) + comma);
    Split([Ok(Sym(','))], SumToks(b) + close);
    SumEval(a, comma, env, root);
    var base := Expression(Stream(SumToks(a) + comma, None), env, root);
    if base.result.Ok? {
      PowTailEval(base.result.value, b, tail, env, root);
    }
  }

  lemma PowTailEval(x: real, b: Sum, tail: seq<Lexeme>, env: Env, root: real -> real)
    ensures var close := [Ok(Sym(')'))] + tail;
            var r := PowTail(Eval(Ok(x), Stream(SumToks(b) + close, Some(Sym(','))), env), root);
            && r.env == env
            && r.result == PowOf(Ok(x), SumValue(b))
            && (r.result.Ok? ==> r.ts == Stream(tail, None))
  {
    var close := [Ok(Sym(')'))] + tail;
    Split([Ok(Sym(')'))], tail);
    SumEval(b, close, env, root);
  }

  /** pow must be followed by `(`. */
  lemma PowNeedsBracket(t: Token, s: seq<Lexeme>, env: Env, root: real -> real)
    requires Lexable(t) && Kind(t) != '('
    ensures Primary(Stream([Ok(PowKw), Ok(t)] + s, None), env, root) == Eval(Err(Expected('(')), Stream(s, None), env)
  {
    assert [Ok(PowKw), Ok(t)] + s == [Ok(PowKw)] + ([Ok(t)] + s);
    GetFront(Ok(PowKw), [Ok(t)] + s);
    GetFront(Ok(t), s);
  }

  /** The base of a pow call must be followed by `,`. */
  lemma PowNeedsComma(a: Sum, t: Token, tail: seq<Lexeme>, env: Env, root: real -> real)
    requires Lexable(t) && Kind(t) != ',' && Kind(t) != '!'
    requires EndsTerm(t) && Kind(t) != '+' && Kind(t) != '-'
    ensures var r := Primary(Stream([Ok(PowKw)] + ([Ok(Sym('('))] + (SumToks(a) + ([Ok(t)] + tail))), None), env, root);
            var base := Ending(SumValue(a), t);
            && r.env == env
            && r.result == if base.Err? then base else Err(Expected(','))
  {
    GetFront(Ok(PowKw), [Ok(Sym('('))] + (SumToks(a) + ([Ok(t)] + tail)));
    GetFront(Ok(Sym('(')), SumToks(a) + ([Ok(t)] + tail));
    Split([Ok(t)], tail);
    SumEval(a, [Ok(t)] + tail, env, root);
    var inside := Stream(SumToks(a) + ([Ok(t)] + tail), None);
    var base := Expression(inside, env, root);
    assert PowCall(Stream([Ok(Sym('('))] + (SumToks(a) + ([Ok(t)] + tail)), None), env, root)
        == if base.result.Err? then base else PowTail(base, root);
    if base.result.Ok? {
      assert base.ts == Stream(tail, Some(t));
      assert TokenStream.Get(base.ts) == (Ok(t), Stream(tail, None));
    }
  }

  /** The exponent of a pow call is narrowed before the closing `)` is
      checked: a missing `)` is reported only for an integral exponent. */
  lemma PowNeedsClose(a: Sum, b: Sum, t: Token, tail: seq<Lexeme>, env: Env, root: real -> real)
    requires Lexable(t) && Kind(t) != ')' && Kind(t) != '!'
    requires EndsTerm(t) && Kind(t) != '+' && Kind(t) != '-'
    ensures var r := Primary(Stream([Ok(PowKw)] + ([Ok(Sym('('))] + (SumToks(a) + ([Ok(Sym(','))] + (SumToks(b) + ([Ok(t)] + tail))))),
                                    None), env, root);
            var exponent := Ending(SumValue(b), t);
            && r.env == env
            && r.result == if SumValue(a).Err? then SumValue(a)
                           else if exponent.Err? then exponent
                           else if Narrow(exponent.value).Err? then Err(NarrowingError)
                           else Err(Expected(')'))
  {
    var comma := [Ok(Sym(','))] + (SumToks(b) + ([Ok(t)] + tail));
    GetFront(Ok(PowKw), [Ok(Sym('('))] + (SumToks(a) + comma));
    GetFront(Ok(Sym('(')), SumToks(a) + comma);
    Split([Ok(Sym(','))], SumToks(b) + ([Ok(t)] + tail));
    SumEval(a, comma, env, root);
    var base := Expression(Stream(SumToks(a) + comma, None), env, root);
    if base.result.Ok? {
      PowTailNeedsClose(base.result.value, b, t, tail, env, root);
    }
  }

  lemma PowTailNeedsClose(x: real, b: Sum, t: Token, tail: seq<Lexeme>, env: Env, root: real -> real)
    requires Lexable(t) && Kind(t) != ')' && Kind(t) != '!'
    requires EndsTerm(t) && Kind(t) != '+' && Kind(t) != '-'
    ensures var r := PowTail(Eval(Ok(x), Stream(SumToks(b) + ([Ok(t)] + tail), Some(Sym(','))), env), root);
            var exponent := Ending(SumValue(b), t);
            && r.env == env
            && r.result == if exponent.Err? then exponent
                           else if Narrow(exponent.value).Err? then Err(NarrowingError)
                           else Err(Expected(')'))
  {
    Split([Ok(t)], tail);
    SumEval(b, [Ok(t)] + tail, env, root);
  }

  // ---------------------------------------------------------------------
  // factorial

  /** What `!` yields for the outcome of its operand: the operand must be
      an integer, and not a negative one. */
  function FactorialOf(v: Result<real>): Result<real> {
    match v
    case Err(e) => Err(e)
    case Ok(x) =>
      match Narrow(x)
      case Err(e) => Err(e)
      case Ok(n) => Factorial(n)
  }

  /** `!` succeeds exactly on the naturals, and yields their factorial. */
  lemma FactorialOfNaturals(x: real)
    ensures FactorialOf(Ok(x)).Ok? <==> x == x.Floor as real && x >= 0.0
    ensures FactorialOf(Ok(x)).Ok? ==> FactorialOf(Ok(x)).value == Fact(x.Floor) as real
    ensures x != x.Floor as real ==> FactorialOf(Ok(x)) == Err(NarrowingError)
    ensures x == x.Floor as real && x < 0.0 ==> FactorialOf(Ok(x)) == Err(NegativeFactorial)
  {
  }

  /** `!` right after a number: the factorial of the number, with the `!`
      consumed and nothing read after it. */
  lemma BangEval(x: real, tail: seq<Lexeme>, env: Env, root: real -> real)
    ensures Primary(Stream([Ok(Number(x)), Ok(Sym('!'))] + tail, None), env, root)
            == Eval(FactorialOf(Ok(x)), Stream(tail, None), env)
  {
    assert [Ok(Number(x)), Ok(Sym('!'))] + tail == [Ok(Number(x))] + ([Ok(Sym('!'))] + tail);
    GetFront(Ok(Number(x)), [Ok(Sym('!'))] + tail);
    GetFront(Ok(Sym('!')), tail);
  }

  /** `!` right after a closing bracket applies to the bracketed
      expression. */
  lemma BracketBang(e: Sum, curly: bool, tail: seq<Lexeme>, env: Env, root: real -> real)
    ensures var s := [Ok(Sym(Opener(curly)))] + (SumToks(e) + ([Ok(Sym(Closer(curly)))] + ([Ok(Sym('!'))] + tail)));
            var r := Primary(Stream(s, None), env, root);
            && r.env == env
            && r.result == FactorialOf(SumValue(e))
            && (r.result.Ok? ==> r.ts == Stream(tail, None))
  {
    var bang := [Ok(Sym('!'))] + tail;
    var close := [Ok(Sym(Closer(curly)))] + bang;
    GetFront(Ok(Sym(Opener(curly))), SumToks(e) + close);
    Split([Ok(Sym(Closer(curly)))], bang);
    SumEval(e, close, env, root);
    GetFront(Ok(Sym('!')), tail);
  }

  /** `!` applies at most once: in `3!!` the second `!` ends the expression
      and is left for the caller. */
  lemma BangOnce(x: real, tail: seq<Lexeme>, env: Env, root: real -> real)
    ensures var r := Expression(Stream([Ok(Number(x)), Ok(Sym('!')), Ok(Sym('!'))] + tail, None), env, root);
            && r.env == env
            && r.result == FactorialOf(Ok(x))
            && (r.result.Ok? ==> r.ts == Stream(tail, Some(Sym('!'))))
  {
    var s := [Ok(Number(x)), Ok(Sym('!')), Ok(Sym('!'))] + tail;
    assert s == [Ok(Number(x)), Ok(Sym('!'))] + ([Ok(Sym('!'))] + tail);
    BangEval(x, [Ok(Sym('!'))] + tail, env, root);
    GetFront(Ok(Sym('!')), tail);
    ExpressionIsPrimary(Stream(s, None), env, root);
  }

  // ---------------------------------------------------------------------
  // Statements built from the facts above

  /** A number followed by a token that ends an expression is a whole
      expression. */
  lemma NumberExpression(v: real, t: Token, tail: seq<Lexeme>, env: Env, root: real -> real)
    requires Lexable(t) && Kind(t) != '!' && EndsTerm(t) && EndsExpression(t)
    ensures Expression(Stream([Ok(Number(v)), Ok(t)] + tail, None), env, root) == Eval(Ok(v), Stream(tail, Some(t)), env)
  {
    assert [Ok(Number(v)), Ok(t)] + tail == [Ok(Number(v))] + ([Ok(t)] + tail);
    GetFront(Ok(Number(v)), [Ok(t)] + tail);
    GetFront(Ok(t), tail);
    ExpressionIsPrimary(Stream([Ok(Number(v)), Ok(t)] + tail, None), env, root);
  }

  /** s spells the chain `n1 = n2 = ... =` followed by toks. */
  ghost predicate IsChain(s: seq<Lexeme>, names: seq<string>, toks: seq<Lexeme>) {
    && |s| == 2 * |names| + |toks|
    && s[2 * |names|..] == toks
    && forall i :: 0 <= i < |names| ==> s[2 * i] == Ok(Name(names[i])) && s[2 * i + 1] == Ok(Sym('='))
  }

  lemma ChainRest(s: seq<Lexeme>, names: seq<string>, toks: seq<Lexeme>)
    requires |names| > 0 && IsChain(s, names, toks)
    ensures s == [Ok(Name(names[0])), Ok(Sym('='))] + s[2..]
    ensures IsChain(s[2..], names[1..], toks)
  {
    assert s[0] == Ok(Name(names[0])) && s[1] == Ok(Sym('='));
    forall i | 0 <= i < |names[1..]|
      ensures s[2..][2 * i] == Ok(Name(names[1..][i])) && s[2..][2 * i + 1] == Ok(Sym('='))
    {
      assert s[2 * (i + 1)] == Ok(Name(names[i + 1]));
    }
  }

  /** The table after the assignments of a chain, innermost first; a name
      that cannot be assigned is passed over. */
  function SetAll(env: Env, names: seq<string>, x: real): (r: Env)
    ensures Keeps(env, r)
    decreases |names|
  {
    if |names| == 0 then env
    else
      var e := SetAll(env, names[1..], x);
      match Set(e, names[0], x)
      case Ok(e') => e'
      case Err(_) => e
  }

  /** After a chain of assignable names, every name of the chain reads the
      assigned value and every other name reads what it read before. */
  lemma {:induction false} GetAfterSetAll(env: Env, names: seq<string>, x: real, q: string)
    requires Unique(env)
    requires forall i :: 0 <= i < |names| ==> Assignable(env, names[i])
    ensures Unique(SetAll(env, names, x))
    ensures SymbolTable.Get(SetAll(env, names, x), q) == if q in names then Ok(x) else SymbolTable.Get(env, q)
    decreases |names|
  {
    if |names| > 0 {
      var e := SetAll(env, names[1..], x);
      GetAfterSetAll(env, names[1..], x, q);
      KeepsFind(env, e, names[0]);
      SetPreservesUnique(e, names[0], x);
      GetAfterSet(e, names[0], x, q);
      assert q in names <==> q == names[0] || q in names[1..] by {
        assert names == [names[0]] + names[1..];
      }
    }
  }

  /** `n1 = n2 = ... = rhs`: assignment is right-associative, so the chain
      has the value of the innermost right-hand side and the names are
      assigned that value from the innermost outwards. */
  lemma {:induction false} ChainedAssignment(names: seq<string>, s: seq<Lexeme>, toks: seq<Lexeme>, env: Env,
                                             root: real -> real)
    requires Unique(env) && IsChain(s, names, toks)
    requires forall i :: 0 <= i < |names| ==> Assignable(env, names[i])
    requires var rhs := Expression(Stream(toks, None), env, root);
             rhs.result.Ok? && EndsTerm(rhs.ts.slot.value)
    ensures var rhs := Expression(Stream(toks, None), env, root);
            var r := Expression(Stream(s, None), env, root);
            && r.result == rhs.result && r.ts == rhs.ts
            && r.env == SetAll(rhs.env, names, rhs.result.value)
    decreases |names|
  {
    var rhs := Expression(Stream(toks, None), env, root);
    if |names| == 0 {
      assert s == toks;
    } else {
      ChainRest(s, names, toks);
      var s' := s[2..];
      var inner := Expression(Stream(s', None), env, root);
      var r := Expression(Stream(s, None), env, root);
      ChainedAssignment(names[1..], s', toks, env, root);
      AssignmentAsExpression(names[0], s', env, root);
      KeepsFind(env, inner.env, names[0]);
    }
  }

  /** The same chain read as a statement. */
  lemma ChainedStatement(names: seq<string>, s: seq<Lexeme>, toks: seq<Lexeme>, env: Env, root: real -> real)
    requires |names| > 0 && Unique(env) && IsChain(s, names, toks)
    requires forall i :: 0 <= i < |names| ==> Assignable(env, names[i])
    requires var rhs := Expression(Stream(toks, None), env, root);
             rhs.result.Ok? && EndsTerm(rhs.ts.slot.value)
    ensures var rhs := Expression(Stream(toks, None), env, root);
            var r := Statement(Stream(s, None), env, root);
            r.result == rhs.result && r.env == SetAll(rhs.env, names, rhs.result.value)
  {
    ChainedAssignment(names, s, toks, env, root);
    assert s[0] == Ok(Name(names[0]));
    StatementIsExpression(s, env, root);
  }

  /** A production without declarations leaves every constant's value as it
      was. */
  lemma KeepsConstant(env: Env, env': Env, name: string)
    requires Keeps(env, env') && IsDeclared(env, name) && !Assignable(env, name)
    ensures SymbolTable.Get(env', name) == SymbolTable.Get(env, name)
  {
    KeepsFind(env, env', name);
  }

  /** `c = n1 = ... = rhs;` with c a constant: the inner chain is assigned
      first, then the assignment to c fails; the failure does not undo the
      inner assignments. */
  lemma ConstantInChain(names: seq<string>, s: seq<Lexeme>, toks: seq<Lexeme>, env: Env, root: real -> real)
    requires |names| > 0 && Unique(env) && IsChain(s, names, toks)
    requires IsDeclared(env, names[0]) && !Assignable(env, names[0])
    requires forall i :: 1 <= i < |names| ==> Assignable(env, names[i])
    requires var rhs := Expression(Stream(toks, None), env, root);
             rhs.result.Ok? && EndsTerm(rhs.ts.slot.value)
    ensures var rhs := Expression(Stream(toks, None), env, root);
            var r := Statement(Stream(s, None), env, root);
            r.result == Err(ImmutableAssignment) && r.env == SetAll(rhs.env, names[1..], rhs.result.value)
  {
    ChainRest(s, names, toks);
    var s' := s[2..];
    var inner := Expression(Stream(s', None), env, root);
    ChainedAssignment(names[1..], s', toks, env, root);
    AssignmentAsExpression(names[0], s', env, root);
    AssignStores(names[0], inner, env);
    StatementIsExpression(s, env, root);
  }

  /** Whatever a chain assigns, a constant keeps its value. */
  lemma ConstantSurvivesChain(env: Env, env': Env, names: seq<string>, x: real, c: string)
    requires Unique(env) && Keeps(env, env') && IsDeclared(env, c) && !Assignable(env, c)
    requires forall i :: 0 <= i < |names| ==> Assignable(env, names[i])
    ensures SymbolTable.Get(SetAll(env', names, x), c) == SymbolTable.Get(env, c)
  {
    KeepsUnique(env, env');
    KeepsFind(env, env', c);
    forall i | 0 <= i < |names|
      ensures Assignable(env', names[i])
    {
      KeepsFind(env, env', names[i]);
    }
    assert c !in names;
    GetAfterSetAll(env', names, x, c);
    KeepsConstant(env, env', c);
  }

  /** `x y;`: a name followed by another is rejected. */
  lemma NamesInARow(x: string, y: string, tail: seq<Lexeme>, env: Env, root: real -> real)
    requires Lexable(Name(x)) && Lexable(Name(y)) && IsDeclared(env, x)
    ensures Statement(Stream([Ok(Name(x)), Ok(Name(y))] + tail, None), env, root).result == Err(OperandExpected)
  {
    NameThenOperand(x, Name(y), tail, env, root);
    StatementIsExpression([Ok(Name(x)), Ok(Name(y))] + tail, env, root);
  }

  /** `let x = x;` with x undeclared: the right-hand side fails, so nothing
      is declared. */
  lemma SelfDeclaration(x: string, tail: seq<Lexeme>, env: Env, root: real -> real)
    requires Lexable(Name(x)) && !IsDeclared(env, x)
    ensures var r := Statement(Stream([Ok(LetKw), Ok(Name(x)), Ok(Sym('=')), Ok(Name(x)), Ok(Sym(';'))] + tail, None),
                               env, root);
            r.result == Err(UndeclaredName) && r.env == env
  {
    var rhs := [Ok(Name(x)), Ok(Sym(';'))] + tail;
    assert [Ok(LetKw), Ok(Name(x)), Ok(Sym('=')), Ok(Name(x)), Ok(Sym(';'))] + tail
        == [Ok(LetKw)] + ([Ok(Name(x)), Ok(Sym('='))] + rhs);
    StatementIsDeclaration(LetKw, [Ok(Name(x)), Ok(Sym('='))] + rhs, env, root);
    NameExpression(x, Sym(';'), tail, env, root);
    DeclarationEval(x, rhs, env, true, root);
  }

  /** `let const ...`, the form the grammar's doc comment shows for
      constants, is rejected: `const` is read as a keyword where the name
      belongs. */
  lemma LetConstRejected(rest: seq<Lexeme>, env: Env, root: real -> real)
    ensures var r := Statement(Stream([Ok(LetKw), Ok(ConstKw)] + rest, None), env, root);
            r.result == Err(NameExpected) && r.env == env
  {
    assert [Ok(LetKw), Ok(ConstKw)] + rest == [Ok(LetKw)] + ([Ok(ConstKw)] + rest);
    StatementIsDeclaration(LetKw, [Ok(ConstKw)] + rest, env, root);
    DeclarationNeedsName(ConstKw, rest, env, true, root);
  }

  /** `const c = v;` declares a constant that reads back as v. */
  lemma ConstantDeclared(c: string, v: real, tail: seq<Lexeme>, env: Env, root: real -> real)
    requires Unique(env) && Lexable(Name(c)) && !IsDeclared(env, c)
    ensures var r := Statement(Stream([Ok(ConstKw), Ok(Name(c)), Ok(Sym('=')), Ok(Number(v)), Ok(Sym(';'))] + tail, None),
                               env, root);
            && r.result == Ok(v)
            && r.env == env + [Variable(c, v, false)]
            && Unique(r.env)
            && IsDeclared(r.env, c) && !Assignable(r.env, c)
            && SymbolTable.Get(r.env, c) == Ok(v)
  {
    var rhs := [Ok(Number(v)), Ok(Sym(';'))] + tail;
    assert [Ok(ConstKw), Ok(Name(c)), Ok(Sym('=')), Ok(Number(v)), Ok(Sym(';'))] + tail
        == [Ok(ConstKw)] + ([Ok(Name(c)), Ok(Sym('='))] + rhs);
    NumberExpression(v, Sym(';'), tail, env, root);
    StatementIsDeclaration(ConstKw, [Ok(Name(c)), Ok(Sym('='))] + rhs, env, root);
    DeclarationEval(c, rhs, env, false, root);
    DefinePreservesUnique(env, c, v, false);
    FindUnique(env + [Variable(c, v, false)], c, |env|);
  }

  /** `c = v;` with c a constant is refused and changes nothing. */
  lemma ConstantRefusesAssignment(c: string, v: real, tail: seq<Lexeme>, env: Env, root: real -> real)
    requires Unique(env) && Lexable(Name(c)) && IsDeclared(env, c) && !Assignable(env, c)
    ensures var r := Statement(Stream([Ok(Name(c)), Ok(Sym('=')), Ok(Number(v)), Ok(Sym(';'))] + tail, None), env, root);
            r.result == Err(ImmutableAssignment) && r.env == env
  {
    var rhs := [Ok(Number(v)), Ok(Sym(';'))] + tail;
    var s := [Ok(Name(c)), Ok(Sym('='))] + rhs;
    assert s == [Ok(Name(c)), Ok(Sym('=')), Ok(Number(v)), Ok(Sym(';'))] + tail;
    NumberExpression(v, Sym(';'), tail, env, root);
    AssignmentReads(c, rhs, env, root);
    AssignStores(c, Expression(Stream(rhs, None), env, root), env);
    ExpressionIsPrimary(Stream(s, None), env, root);
    StatementIsExpression(s, env, root);
  }

  /** `sqrt(v)+w;` is the root of v + w. */
  lemma SqrtOfSum(v: real, w: real, tail: seq<Lexeme>, env: Env, root: real -> real)
    ensures Statement(Stream([Ok(SqrtKw), Ok(Sym('(')), Ok(Number(v)), Ok(Sym(')')), Ok(Sym('+')), Ok(Number(w)),
                              Ok(Sym(';'))] + tail, None), env, root).result == SqrtOf(Ok(v + w), root)
  {
    var inner := Sum(Product(Lit(v), MulEnd), AddEnd);
    var e := Sum(Product(Group(inner, false), MulEnd), Plus(Product(Lit(w), MulEnd), AddEnd));
    var pv := Product(Lit(v), MulEnd);
    var pw := Product(Lit(w), MulEnd);
    assert ProductToks(pv) == [Ok(Number(v))] && ProductToks(pw) == [Ok(Number(w))];
    assert SumToks(inner) == [Ok(Number(v))] by {
      assert AddToks(AddEnd) == [];
    }
    assert ProductToks(e.first) == [Ok(Sym('(')), Ok(Number(v)), Ok(Sym(')'))];
    assert AddToks(e.rest) == [Ok(Sym('+')), Ok(Number(w))] by {
      assert AddToks(AddEnd) == [];
    }
    assert ProductValue(pv) == Ok(v) && ProductValue(pw) == Ok(w);
    assert SumValue(inner) == Ok(v);
    assert ProductValue(e.first) == Ok(v);
    assert AddFold(v, e.rest) == AddFold(Add(v, w), AddEnd) == Ok(v + w);
    assert SumValue(e) == Ok(v + w);
    var end := [Ok(Sym(';'))] + tail;
    var s := [Ok(SqrtKw)] + SumToks(e) + end;
    assert s == [Ok(SqrtKw), Ok(Sym('(')), Ok(Number(v)), Ok(Sym(')')), Ok(Sym('+')), Ok(Number(w)), Ok(Sym(';'))] + tail;
    Split([Ok(Sym(';'))], tail);
    SqrtEval(e, end, env, root);
    ExpressionIsPrimary(Stream(s, None), env, root);
    StatementIsExpression(s, env, root);
  }
}
