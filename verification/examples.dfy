/** Concrete calculations, each obtained from the general facts: the value a
    statement yields, or the error it stops at, and what it leaves in the
    table. */
module Examples {
  import opened Failures
  import opened Tokens
  import opened TokenStream
  import opened SymbolTable
  import opened Numeric
  import opened Grammar
  import opened Precedence
  import opened Statements

  /** A product of a single factor. */
  function One(f: Factor): Product { Product(f, MulEnd) }

  /** Convenience form of `StatementEval` for a fragment expression typed
      with `;` and nothing after it: the statement yields its reference
      value. */
  lemma Typed(e: Sum, items: seq<Item>, v: Result<real>, env: Env, root: real -> real)
    requires items == SumItems(e) + [Char(';')]
    requires SumValue(e) == v
    ensures Statement(Open(items), env, root).result == v
  {
    assert items == SumItems(e) + [Char(';')] + [];
    StatementEval(e, [], env, root);
  }

  // ---------------------------------------------------------------------
  // Precedence and associativity, from the characters typed

  lemma TimesBeforePlus(env: Env, root: real -> real)
    ensures Statement(Open([Literal(2.0), Char('+'), Literal(3.0), Char('*'), Literal(4.0), Char(';')]), env, root).result
            == Ok(14.0)
  {
    var e := Sum(One(Lit(2.0)), Plus(Product(Lit(3.0), Times(Lit(4.0), MulEnd)), AddEnd));
    var items := [Literal(2.0), Char('+'), Literal(3.0), Char('*'), Literal(4.0), Char(';')];
    assert SumItems(e) + [Char(';')] == items;
    assert SumValue(e) == Ok(14.0);
    Typed(e, items, Ok(14.0), env, root);
  }

  lemma BracketsFirst(env: Env, root: real -> real)
    ensures Statement(Open([Char('('), Literal(2.0), Char('+'), Literal(3.0), Char(')'), Char('*'), Literal(4.0), Char(';')]),
                      env, root).result == Ok(20.0)
  {
    var inner := Sum(One(Lit(2.0)), Plus(One(Lit(3.0)), AddEnd));
    var e := Sum(Product(Group(inner, false), Times(Lit(4.0), MulEnd)), AddEnd);
    var items := [Char('('), Literal(2.0), Char('+'), Literal(3.0), Char(')'), Char('*'), Literal(4.0), Char(';')];
    assert SumItems(e) + [Char(';')] == items;
    assert SumValue(e) == Ok(20.0);
    Typed(e, items, Ok(20.0), env, root);
  }

  lemma MinusFoldsLeft(env: Env, root: real -> real)
    ensures Statement(Open([Literal(1.0), Char('-'), Literal(2.0), Char('-'), Literal(3.0), Char(';')]), env, root).result
            == Ok(-4.0)
  {
    var e := Sum(One(Lit(1.0)), Minus(One(Lit(2.0)), Minus(One(Lit(3.0)), AddEnd)));
    var items := [Literal(1.0), Char('-'), Literal(2.0), Char('-'), Literal(3.0), Char(';')];
    assert SumItems(e) + [Char(';')] == items;
    assert SumValue(e) == Ok(-4.0);
    Typed(e, items, Ok(-4.0), env, root);
  }

  lemma DivideFoldsLeft(env: Env, root: real -> real)
    ensures Statement(Open([Literal(8.0), Char('/'), Literal(2.0), Char('/'), Literal(2.0), Char(';')]), env, root).result
            == Ok(2.0)
  {
    var e := Sum(Product(Lit(8.0), Over(Lit(2.0), Over(Lit(2.0), MulEnd))), AddEnd);
    var items := [Literal(8.0), Char('/'), Literal(2.0), Char('/'), Literal(2.0), Char(';')];
    assert SumItems(e) + [Char(';')] == items;
    assert SumValue(e) == Ok(2.0);
    Typed(e, items, Ok(2.0), env, root);
  }

  lemma DivideByZeroFails(env: Env, root: real -> real)
    ensures Statement(Open([Literal(1.0), Char('/'), Literal(0.0), Char(';')]), env, root).result == Err(DivideByZero)
  {
    var e := Sum(Product(Lit(1.0), Over(Lit(0.0), MulEnd)), AddEnd);
    var items := [Literal(1.0), Char('/'), Literal(0.0), Char(';')];
    assert SumItems(e) + [Char(';')] == items;
    assert SumValue(e) == Err(DivideByZero);
    Typed(e, items, Err(DivideByZero), env, root);
  }

  /** The remainder takes the sign of the dividend. */
  lemma RemainderOfPositive(env: Env, root: real -> real)
    ensures Statement(Open([Literal(7.0), Char('%'), Literal(2.0), Char(';')]), env, root).result == Ok(1.0)
  {
    var e := Sum(Product(Lit(7.0), Rem(Lit(2.0), MulEnd)), AddEnd);
    var items := [Literal(7.0), Char('%'), Literal(2.0), Char(';')];
    assert SumItems(e) + [Char(';')] == items;
    NarrowRoundTrip(7);
    NarrowRoundTrip(2);
    TruncRemExamples();
    assert SumValue(e) == Ok(1.0);
    Typed(e, items, Ok(1.0), env, root);
  }

  lemma RemainderOfNegative(env: Env, root: real -> real)
    ensures Statement(Open([Char('-'), Literal(7.0), Char('%'), Literal(2.0), Char(';')]), env, root).result == Ok(-1.0)
  {
    var e := Sum(Product(Neg(Lit(7.0)), Rem(Lit(2.0), MulEnd)), AddEnd);
    var items := [Char('-'), Literal(7.0), Char('%'), Literal(2.0), Char(';')];
    assert SumItems(e) + [Char(';')] == items;
    NarrowRoundTrip(-7);
    NarrowRoundTrip(2);
    TruncRemExamples();
    assert SumValue(e) == Ok(-1.0);
    Typed(e, items, Ok(-1.0), env, root);
  }

  /** `%` narrows its left operand before it looks at the right one: a
      fractional dividend fails even when the divisor is zero. */
  lemma RemainderNarrowsLeftFirst(env: Env, root: real -> real)
    ensures Statement(Open([Literal(7.5), Char('%'), Literal(0.0), Char(';')]), env, root).result == Err(NarrowingError)
  {
    var e := Sum(Product(Lit(7.5), Rem(Lit(0.0), MulEnd)), AddEnd);
    var items := [Literal(7.5), Char('%'), Literal(0.0), Char(';')];
    assert SumItems(e) + [Char(';')] == items;
    assert SumValue(e) == Err(NarrowingError);
    Typed(e, items, Err(NarrowingError), env, root);
  }

  lemma RemainderByZero(env: Env, root: real -> real)
    ensures Statement(Open([Literal(7.0), Char('%'), Literal(0.0), Char(';')]), env, root).result == Err(DivideByZero)
  {
    var e := Sum(Product(Lit(7.0), Rem(Lit(0.0), MulEnd)), AddEnd);
    var items := [Literal(7.0), Char('%'), Literal(0.0), Char(';')];
    assert SumItems(e) + [Char(';')] == items;
    NarrowRoundTrip(7);
    NarrowRoundTrip(0);
    assert SumValue(e) == Err(DivideByZero);
    Typed(e, items, Err(DivideByZero), env, root);
  }

  /** The divisor of `%` must be an integer too. */
  lemma RemainderNeedsIntegers(env: Env, root: real -> real)
    ensures Statement(Open([Literal(7.0), Char('%'), Literal(0.5), Char(';')]), env, root).result == Err(NarrowingError)
  {
    var e := Sum(Product(Lit(7.0), Rem(Lit(0.5), MulEnd)), AddEnd);
    var items := [Literal(7.0), Char('%'), Literal(0.5), Char(';')];
    assert SumItems(e) + [Char(';')] == items;
    NarrowRoundTrip(7);
    assert SumValue(e) == Err(NarrowingError);
    Typed(e, items, Err(NarrowingError), env, root);
  }

  /** `(1+1)1` is not two statements: the second number is rejected. */
  lemma NumberAfterBracket(env: Env, root: real -> real)
    ensures Statement(Open([Char('('), Literal(1.0), Char('+'), Literal(1.0), Char(')'), Literal(1.0), Char(';')]),
                      env, root).result == Err(OperandExpected)
  {
    var e := Sum(One(Group(Sum(One(Lit(1.0)), Plus(One(Lit(1.0)), AddEnd)), false)), AddEnd);
    var items := [Char('('), Literal(1.0), Char('+'), Literal(1.0), Char(')'), Literal(1.0), Char(';')];
    assert SumItems(e) + [Literal(1.0)] + [Char(';')] == items;
    assert SumValue(e) == Ok(2.0);
    OperandAfterFragment(e, 1.0, [Char(';')], env, root);
  }

  // ---------------------------------------------------------------------
  // Names, assignment and declarations, from the tokens read

  /** `x y;` is rejected even with both names declared. */
  lemma TwoNames(root: real -> real)
    ensures var env := [Variable("x", 1.0, true), Variable("y", 2.0, true)];
            Statement(Stream([Ok(Name("x")), Ok(Name("y")), Ok(Sym(';'))], None), env, root).result == Err(OperandExpected)
  {
    var env := [Variable("x", 1.0, true), Variable("y", 2.0, true)];
    assert IsDeclared(env, "x");
    assert [Ok(Name("x")), Ok(Name("y")), Ok(Sym(';'))] == [Ok(Name("x")), Ok(Name("y"))] + [Ok(Sym(';'))];
    NamesInARow("x", "y", [Ok(Sym(';'))], env, root);
  }

  /** `let x = x;` with x undeclared fails on the right-hand side and
      declares nothing. */
  lemma SelfDeclarationExample(env: Env, root: real -> real)
    requires !IsDeclared(env, "x")
    ensures var r := Statement(Stream([Ok(LetKw), Ok(Name("x")), Ok(Sym('=')), Ok(Name("x")), Ok(Sym(';'))], None), env, root);
            r.result == Err(UndeclaredName) && r.env == env
  {
    assert [Ok(LetKw), Ok(Name("x")), Ok(Sym('=')), Ok(Name("x")), Ok(Sym(';'))]
        == [Ok(LetKw), Ok(Name("x")), Ok(Sym('=')), Ok(Name("x")), Ok(Sym(';'))] + [];
    SelfDeclaration("x", [], env, root);
  }

  /** `let const c = 1;`, the form the grammar's doc comment shows, is
      rejected. */
  lemma LetConstExample(env: Env, root: real -> real)
    ensures var r := Statement(Stream([Ok(LetKw), Ok(ConstKw), Ok(Name("c")), Ok(Sym('=')), Ok(Number(1.0)), Ok(Sym(';'))],
                                      None), env, root);
            r.result == Err(NameExpected) && r.env == env
  {
    var rest := [Ok(Name("c")), Ok(Sym('=')), Ok(Number(1.0)), Ok(Sym(';'))];
    assert [Ok(LetKw), Ok(ConstKw)] + rest
        == [Ok(LetKw), Ok(ConstKw), Ok(Name("c")), Ok(Sym('=')), Ok(Number(1.0)), Ok(Sym(';'))];
    LetConstRejected(rest, env, root);
  }

  /** `const c = 1;` declares a constant that reads back as 1, and a later
      `c = 2;` is refused and leaves it at 1. */
  lemma ConstantDeclaration(env: Env, root: real -> real)
    requires Unique(env) && !IsDeclared(env, "c")
    ensures var r1 := Statement(Stream([Ok(ConstKw), Ok(Name("c")), Ok(Sym('=')), Ok(Number(1.0)), Ok(Sym(';'))], None),
                                env, root);
            var r2 := Statement(Stream([Ok(Name("c")), Ok(Sym('=')), Ok(Number(2.0)), Ok(Sym(';'))], None), r1.env, root);
            && r1.result == Ok(1.0)
            && SymbolTable.Get(r1.env, "c") == Ok(1.0)
            && r2.result == Err(ImmutableAssignment)
            && r2.env == r1.env
  {
    var s1 := [Ok(ConstKw), Ok(Name("c")), Ok(Sym('=')), Ok(Number(1.0)), Ok(Sym(';'))];
    var s2 := [Ok(Name("c")), Ok(Sym('=')), Ok(Number(2.0)), Ok(Sym(';'))];
    assert s1 == s1 + [] && s2 == s2 + [];
    ConstantDeclared("c", 1.0, [], env, root);
    ConstantRefusesAssignment("c", 2.0, [], env + [Variable("c", 1.0, false)], root);
  }

  // ---------------------------------------------------------------------
  // sqrt, pow and factorial

  /** `(1;` stops at the missing `)`. */
  lemma UnclosedBracket(env: Env, root: real -> real)
    ensures Primary(Stream([Ok(Sym('(')), Ok(Number(1.0)), Ok(Sym(';'))], None), env, root).result == Err(Expected(')'))
  {
    var e := Sum(One(Lit(1.0)), AddEnd);
    assert SumToks(e) == [Ok(Number(1.0))];
    assert [Ok(Sym('(')), Ok(Number(1.0)), Ok(Sym(';'))] == [Ok(Sym(Opener(false)))] + (SumToks(e) + ([Ok(Sym(';'))] + []));
    assert SumValue(e) == Ok(1.0);
    BracketNeedsCloser(false, e, Sym(';'), [], env, root);
  }

  /** `*3` has no operand before the `*`. */
  lemma MissingOperand(env: Env, root: real -> real)
    ensures Primary(Stream([Ok(Sym('*')), Ok(Number(3.0)), Ok(Sym(';'))], None), env, root).result == Err(PrimaryExpected)
  {
    assert [Ok(Sym('*')), Ok(Number(3.0)), Ok(Sym(';'))] == [Ok(Sym('*'))] + [Ok(Number(3.0)), Ok(Sym(';'))];
    NoPrimary(Sym('*'), [Ok(Number(3.0)), Ok(Sym(';'))], env, root);
  }

  /** `pow(2;` stops at the missing `,`. */
  lemma PowWithoutComma(env: Env, root: real -> real)
    ensures Primary(Stream([Ok(PowKw), Ok(Sym('(')), Ok(Number(2.0)), Ok(Sym(';'))], None), env, root).result
            == Err(Expected(','))
  {
    var a := Sum(One(Lit(2.0)), AddEnd);
    assert SumToks(a) == [Ok(Number(2.0))];
    assert [Ok(PowKw), Ok(Sym('(')), Ok(Number(2.0)), Ok(Sym(';'))]
        == [Ok(PowKw)] + ([Ok(Sym('('))] + (SumToks(a) + ([Ok(Sym(';'))] + [])));
    assert SumValue(a) == Ok(2.0);
    PowNeedsComma(a, Sym(';'), [], env, root);
  }

  /** `sqrt(4)+1;` is the root of 5, not the root of 4 plus 1. */
  lemma SqrtTakesWholeExpression(env: Env, root: real -> real)
    ensures Statement(Stream([Ok(SqrtKw), Ok(Sym('(')), Ok(Number(4.0)), Ok(Sym(')')), Ok(Sym('+')), Ok(Number(1.0)),
                              Ok(Sym(';'))], None), env, root).result == Ok(root(5.0))
  {
    var s := [Ok(SqrtKw), Ok(Sym('(')), Ok(Number(4.0)), Ok(Sym(')')), Ok(Sym('+')), Ok(Number(1.0)), Ok(Sym(';'))];
    assert s == s + [];
    SqrtOfSum(4.0, 1.0, [], env, root);
  }

  lemma SqrtOfNegative(env: Env, root: real -> real)
    ensures Statement(Stream([Ok(SqrtKw), Ok(Sym('(')), Ok(Sym('-')), Ok(Number(4.0)), Ok(Sym(')')), Ok(Sym(';'))], None),
                      env, root).result == Err(NegativeSqrt)
  {
    var e := Sum(One(Group(Sum(One(Neg(Lit(4.0))), AddEnd), false)), AddEnd);
    var s := [Ok(SqrtKw), Ok(Sym('(')), Ok(Sym('-')), Ok(Number(4.0)), Ok(Sym(')')), Ok(Sym(';'))];
    assert [Ok(SqrtKw)] + SumToks(e) + [Ok(Sym(';'))] == s;
    assert SumValue(e) == Ok(-4.0);
    SqrtEval(e, [Ok(Sym(';'))], env, root);
    ExpressionIsPrimary(Stream(s, None), env, root);
    StatementIsExpression(s, env, root);
  }

  lemma PowOfTwo(env: Env, root: real -> real)
    ensures Statement(Stream([Ok(PowKw), Ok(Sym('(')), Ok(Number(2.0)), Ok(Sym(',')), Ok(Number(10.0)), Ok(Sym(')')),
                              Ok(Sym(';'))], None), env, root).result == Ok(1024.0)
  {
    var a, b := Sum(One(Lit(2.0)), AddEnd), Sum(One(Lit(10.0)), AddEnd);
    var s := [Ok(PowKw), Ok(Sym('(')), Ok(Number(2.0)), Ok(Sym(',')), Ok(Number(10.0)), Ok(Sym(')')), Ok(Sym(';'))];
    assert PowToks(a, b, [Ok(Sym(';'))]) == s;
    NarrowRoundTrip(10);
    PowExamples();
    PowEval(a, b, [Ok(Sym(';'))], env, root);
    ExpressionIsPrimary(Stream(s, None), env, root);
    StatementIsExpression(s, env, root);
  }

  /** The exponent of pow must be an integer. */
  lemma PowNeedsIntegerExponent(env: Env, root: real -> real)
    ensures Statement(Stream([Ok(PowKw), Ok(Sym('(')), Ok(Number(2.0)), Ok(Sym(',')), Ok(Number(0.5)), Ok(Sym(')')),
                              Ok(Sym(';'))], None), env, root).result == Err(NarrowingError)
  {
    var a, b := Sum(One(Lit(2.0)), AddEnd), Sum(One(Lit(0.5)), AddEnd);
    var s := [Ok(PowKw), Ok(Sym('(')), Ok(Number(2.0)), Ok(Sym(',')), Ok(Number(0.5)), Ok(Sym(')')), Ok(Sym(';'))];
    assert PowToks(a, b, [Ok(Sym(';'))]) == s;
    PowEval(a, b, [Ok(Sym(';'))], env, root);
    ExpressionIsPrimary(Stream(s, None), env, root);
    StatementIsExpression(s, env, root);
  }

  /** `3!;` is 6. */
  lemma FactorialOfThree(env: Env, root: real -> real)
    ensures Statement(Stream([Ok(Number(3.0)), Ok(Sym('!')), Ok(Sym(';'))], None), env, root).result == Ok(6.0)
  {
    var s := [Ok(Number(3.0)), Ok(Sym('!')), Ok(Sym(';'))];
    FactorialOfNaturals(3.0);
    assert Fact(3) == 6;
    BangEval(3.0, [Ok(Sym(';'))], env, root);
    ExpressionIsPrimary(Stream(s, None), env, root);
    StatementIsExpression(s, env, root);
  }

  /** In `3!!` only the first `!` applies; the second ends the expression. */
  lemma DoubleBang(env: Env, root: real -> real)
    ensures var r := Expression(Stream([Ok(Number(3.0)), Ok(Sym('!')), Ok(Sym('!')), Ok(Sym(';'))], None), env, root);
            r.result == Ok(6.0) && r.ts == Stream([Ok(Sym(';'))], Some(Sym('!')))
  {
    FactorialOfNaturals(3.0);
    assert Fact(3) == 6;
    BangOnce(3.0, [Ok(Sym(';'))], env, root);
  }

  /** `-3!` is the negation of 3!: `!` binds tighter than unary minus. */
  lemma NegatedFactorial(env: Env, root: real -> real)
    ensures Primary(Stream([Ok(Sym('-')), Ok(Number(3.0)), Ok(Sym('!')), Ok(Sym(';'))], None), env, root).result == Ok(-6.0)
  {
    var rest := [Ok(Number(3.0)), Ok(Sym('!')), Ok(Sym(';'))];
    FactorialOfNaturals(3.0);
    assert Fact(3) == 6;
    GetFront(Ok(Sym('-')), rest);
    BangEval(3.0, [Ok(Sym(';'))], env, root);
  }

  /** After a name, `!` is not a factorial: it ends the expression unread. */
  lemma NoBangAfterName(root: real -> real)
    ensures var env := [Variable("x", 3.0, true)];
            var r := Expression(Stream([Ok(Name("x")), Ok(Sym('!')), Ok(Sym(';'))], None), env, root);
            r.result == Ok(3.0) && r.ts == Stream([Ok(Sym(';'))], Some(Sym('!')))
  {
    var env := [Variable("x", 3.0, true)];
    FindUnique(env, "x", 0);
    NameExpression("x", Sym('!'), [Ok(Sym(';'))], env, root);
  }
}
