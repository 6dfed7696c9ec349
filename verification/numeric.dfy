/** The numeric helpers of grammar.cpp: narrow<int>, pow, factorial, and the
    truncating remainder of C++'s `%` on int. Doubles are modelled as exact
    reals and int as unbounded integers. */
module Numeric {
  import opened Failures

  /** narrow<int>(x): the conversion succeeds only when converting back
      gives the same value, that is, when x has no fractional part. */
  function Narrow(x: real): (r: Result<int>)
    ensures r.Ok? <==> x == x.Floor as real
    ensures r.Ok? ==> r.value as real == x
    ensures r.Err? ==> r.error == NarrowingError
  {
    var t := x.Floor;
    if t as real != x then Err(NarrowingError) else Ok(t)
  }

  /** The arithmetic of doubles, modelled as exact. Naming the operations
      lets equal operands be recognised as giving equal results. */
  function Add(a: real, b: real): real { a + b }

  function Sub(a: real, b: real): real { a - b }

  function Negate(a: real): real { -a }

  function Mul(a: real, b: real): real { a * b }

  function Div(a: real, b: real): real
    requires b != 0.0
  {
    a / b
  }

  /** Every integer narrows to itself. */
  lemma NarrowRoundTrip(n: int)
    ensures Narrow(n as real) == Ok(n)
  {
  }

  // ---------------------------------------------------------------------
  // C++ integer division and remainder truncate toward zero

  function Abs(n: int): nat { if n < 0 then -n else n }

  /** The quotient of C++'s `/` on int: rounded toward zero. */
  function TruncDiv(a: int, b: int): int
    requires b != 0
  {
    var q := Abs(a) / Abs(b);
    if (a < 0) != (b < 0) then -q else q
  }

  /** The remainder of C++'s `%` on int: it takes the sign of the dividend. */
  function TruncRem(a: int, b: int): (r: int)
    requires b != 0
    ensures a == TruncDiv(a, b) * b + r
    ensures Abs(r) < Abs(b)
    ensures a >= 0 ==> r >= 0
    ensures a <= 0 ==> r <= 0
  {
    var m := Abs(a) % Abs(b);
    assert Abs(a) == (Abs(a) / Abs(b)) * Abs(b) + m;
    if a < 0 then -m else m
  }

  lemma TruncRemExamples()
    ensures TruncRem(7, 2) == 1 && TruncRem(-7, 2) == -1
    ensures TruncRem(7, -2) == 1 && TruncRem(-7, -2) == -1
  {
  }

  // ---------------------------------------------------------------------
  // pow

  /** The reference power: a multiplied by itself n times. */
  function Power(a: real, n: nat): real {
    if n == 0 then 1.0 else a * Power(a, n - 1)
  }

  /** The multiplication loop of pow(): `res *= a` while `i < p`. */
  function PowLoop(res: real, a: real, i: int, p: int): real
    decreases p - i
  {
    if i < p then PowLoop(res * a, a, i + 1, p) else res
  }

  lemma {:induction false} PowLoopIsPower(res: real, a: real, i: int, p: int)
    requires 0 <= i <= p
    ensures PowLoop(res, a, i, p) == res * Power(a, p - i)
    decreases p - i
  {
    if i < p {
      PowLoopIsPower(res * a, a, i + 1, p);
      assert Power(a, p - i) == a * Power(a, p - i - 1);
    }
  }

  lemma {:induction false} PowerNonzero(a: real, n: nat)
    requires a != 0.0
    ensures Power(a, n) != 0.0
  {
    if n > 0 {
      PowerNonzero(a, n - 1);
    }
  }

  /** The power of a reciprocal is the reciprocal of the power. */
  lemma {:induction false} PowerOfReciprocal(a: real, n: nat)
    requires a != 0.0
    ensures Power(1.0 / a, n) * Power(a, n) == 1.0
  {
    if n > 0 {
      PowerOfReciprocal(a, n - 1);
      var x := Power(1.0 / a, n - 1);
      var y := Power(a, n - 1);
      calc {
        Power(1.0 / a, n) * Power(a, n);
        (1.0 / a * x) * (a * y);
        (1.0 / a * a) * (x * y);
        1.0;
      }
    }
  }

  /** pow(a, p): integer powers by repeated multiplication; a negative power
      is the positive power of the reciprocal; zero to a negative power is a
      division by zero. */
  function Pow(a: real, p: int): (r: Result<real>)
    ensures r.Err? <==> a == 0.0 && p < 0
    ensures r.Err? ==> r.error == DivideByZero
    ensures p == 0 ==> r == Ok(1.0)
    ensures a == 0.0 && p > 0 ==> r == Ok(0.0)
    ensures p >= 0 ==> r == Ok(Power(a, p))
    ensures a != 0.0 && p < 0 ==> r.Ok? && r.value * Power(a, -p) == 1.0
    decreases if p < 0 then 1 else 0
  {
    if a == 0.0 && p < 0 then Err(DivideByZero)
    else if a == 0.0 && p > 0 then (ZeroPower(p); Ok(0.0))
    else if a == 0.0 && p == 0 then Ok(1.0)
    else if p < 0 then (PowerOfReciprocal(a, -p); Pow(1.0 / a, -p))
    else (PowLoopIsPower(1.0, a, 0, p); Ok(PowLoop(1.0, a, 0, p)))
  }

  lemma {:induction false} ZeroPower(n: nat)
    requires n > 0
    ensures Power(0.0, n) == 0.0
  {
  }

  lemma PowExamples()
    ensures Pow(2.0, 10) == Ok(1024.0)
    ensures Pow(2.0, -2) == Ok(0.25)
    ensures Pow(0.0, 0) == Ok(1.0)
    ensures Pow(0.0, -1) == Err(DivideByZero)
  {
    assert Power(2.0, 10) == 1024.0;
    var r := Pow(2.0, -2);
    assert Power(2.0, 2) == 4.0;
  }

  // ---------------------------------------------------------------------
  // factorial

  /** The reference factorial over the naturals. */
  function Fact(n: nat): nat {
    if n == 0 then 1 else n * Fact(n - 1)
  }

  lemma {:induction false} FactPositive(n: nat)
    ensures Fact(n) >= 1
  {
    if n > 0 {
      FactPositive(n - 1);
    }
  }

  /** The multiplication loop of factorial(): `res *= i` for i from 1 to n. */
  function FactLoop(res: real, i: int, n: int): real
    decreases n - i + 1
  {
    if i <= n then FactLoop(res * i as real, i + 1, n) else res
  }

  /** The product i * (i+1) * ... * n, empty (1) when i > n. */
  function Prod(i: int, n: int): int
    decreases n - i + 1
  {
    if i <= n then i * Prod(i + 1, n) else 1
  }

  lemma {:induction false} FactLoopIsProd(res: real, i: int, n: int)
    ensures FactLoop(res, i, n) == res * Prod(i, n) as real
    decreases n - i + 1
  {
    if i <= n {
      FactLoopIsProd(res * i as real, i + 1, n);
      assert Prod(i, n) as real == i as real * Prod(i + 1, n) as real;
    }
  }

  lemma {:induction false} ProdExtend(i: int, n: int)
    requires i <= n + 1
    ensures Prod(i, n + 1) == Prod(i, n) * (n + 1)
    decreases n - i + 1
  {
    if i <= n {
      ProdExtend(i + 1, n);
    }
  }

  lemma {:induction false} ProdIsFact(n: nat)
    ensures Prod(1, n) == Fact(n)
  {
    if n > 0 {
      ProdIsFact(n - 1);
      ProdExtend(1, n - 1);
    }
  }

  /** factorial(n): fails for a negative n, otherwise the product 1..n. The
      check that the product fell below 1 is kept, though it can never fire
      on exact arithmetic. */
  function Factorial(n: int): (r: Result<real>)
    ensures r.Err? <==> n < 0
    ensures r.Err? ==> r.error == NegativeFactorial
    ensures n >= 0 ==> r == Ok(Fact(n) as real) && r.value >= 1.0
  {
    if n < 0 then Err(NegativeFactorial)
    else
      var res := FactLoop(1.0, 1, n);
      FactLoopIsProd(1.0, 1, n);
      ProdIsFact(n);
      FactPositive(n);
      if res < 1.0 then Err(Overflow) else Ok(res)
  }

  lemma FactorialExamples()
    ensures Factorial(5) == Ok(120.0)
    ensures Factorial(0) == Ok(1.0)
    ensures Factorial(-1) == Err(NegativeFactorial)
  {
    assert Fact(5) == 120;
  }
}
