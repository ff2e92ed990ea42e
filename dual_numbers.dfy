/**
 * Dual numbers a + bε with ε² = 0, and forward-mode differentiation: the dual part of
 * f(x + ε) is f'(x). Python's floats are modelled by exact reals. A value is either a
 * `Dual` or a plain number, as the `isinstance` tests in the operators distinguish; a plain
 * number on the left of an operator has no operator that accepts a `Dual` on its right.
 */
module DualNumbers {
  import opened Wrappers

  datatype Dual = Dual(re: real, du: real)

  /** A value: a `Dual` or any other number, such as the right operand of an operator. */
  datatype Operand = D(d: Dual) | Scalar(s: real)

  /** The exponent of `**`: an `int`, or anything else (a float, say). */
  datatype Exponent = IntExp(n: int) | NonIntExp

  /**
   * The exceptions raised: by the operators, by a plain number meeting a `Dual` on its
   * right (`TypeError`), and by asking a plain number for its `dual` (`AttributeError`).
   */
  datatype DualError = ZeroDivisionError | ValueError | TypeError | AttributeError

  const One := Dual(1.0, 0.0)
  const Zero := Dual(0.0, 0.0)
  const Epsilon := Dual(0.0, 1.0)

  /** A plain number seen as a dual number with no dual part. */
  function Lift(c: real): Dual
  {
    Dual(c, 0.0)
  }

  /**
   * The integer `n` as a real number, counted out in steps of 1 so that the solver does not
   * have to mix integer and real arithmetic; `IntRealIsCast` shows it is `n as real`.
   */
  function IntReal(n: int): real
    decreases if n < 0 then -n else n
  {
    if n == 0 then 0.0 else if n > 0 then IntReal(n - 1) + 1.0 else IntReal(n + 1) - 1.0
  }

  lemma {:induction false} IntRealIsCast(n: int)
    ensures IntReal(n) == n as real
    decreases if n < 0 then -n else n
  {
    if n > 0 {
      IntRealIsCast(n - 1);
    } else if n < 0 {
      IntRealIsCast(n + 1);
    }
  }

  /** `a ** k` for a natural exponent. */
  function Power(a: real, k: nat): real
  {
    if k == 0 then 1.0 else Power(a, k - 1) * a
  }

  /** Python's `a ** n` for an integer exponent; a zero base with a negative exponent raises. */
  function IntPower(a: real, n: int): Result<real, DualError>
  {
    if n >= 0 then Ok(Power(a, n))
    else if a == 0.0 then Err(ZeroDivisionError)
    else
      PowerNonZero(a, -n);
      Ok(1.0 / Power(a, -n))
  }

  lemma {:induction false} PowerNonZero(a: real, k: nat)
    requires a != 0.0
    ensures Power(a, k) != 0.0
  {
    if k > 0 {
      PowerNonZero(a, k - 1);
      ProductNonZero(Power(a, k - 1), a);
    }
  }

  // Facts of real arithmetic, each stated without the others in sight: the solver copes
  // with products or with quotients, less well with both at once.

  lemma ProductNonZero(u: real, v: real)
    requires u != 0.0 && v != 0.0
    ensures u * v != 0.0
  {
  }

  /** `u / v` is the `w` with `u == w * v`. */
  lemma QuotientOf(u: real, v: real, w: real)
    requires v != 0.0 && u == w * v
    ensures u / v == w
  {
  }

  lemma TimesQuotient(u: real, v: real)
    requires v != 0.0
    ensures (u / v) * v == u
  {
  }

  /** Cancelling a non-zero factor. */
  lemma CancelFactor(u: real, w: real, c: real)
    requires c != 0.0 && u * c == w * c
    ensures u == w
  {
    assert (u - w) * c == 0.0;
  }

  // ---------------------------------------------------------------------------
  // The operators
  // ---------------------------------------------------------------------------

  /** `__eq__`: anything that is not a `Dual` is unequal; otherwise both parts are compared. */
  predicate Equals(x: Dual, other: Operand)
  {
    other.D? && x.re == other.d.re && x.du == other.d.du
  }

  /** `__add__`: componentwise, or a number added to the real part only. */
  function Add(x: Dual, other: Operand): Dual
  {
    match other
    case Scalar(c) => Dual(x.re + c, x.du)
    case D(y) => Dual(x.re + y.re, x.du + y.du)
  }

  /** `__sub__`: componentwise, or a number subtracted from the real part only. */
  function Sub(x: Dual, other: Operand): Dual
  {
    match other
    case Scalar(c) => Dual(x.re - c, x.du)
    case D(y) => Dual(x.re - y.re, x.du - y.du)
  }

  /** `__mul__`: (a + bε)(c + dε) = ac + (ad + bc)ε; a number scales both parts. */
  function Mul(x: Dual, other: Operand): Dual
  {
    match other
    case Scalar(c) => Dual(x.re * c, x.du * c)
    case D(y) => Dual(x.re * y.re, x.re * y.du + x.du * y.re)
  }

  /**
   * `__truediv__`: a number divides both parts; a `Dual` divisor c + dε gives
   * a/c + ((bc − ad)/c²)ε. A zero divisor, or a zero real part, raises `ZeroDivisionError`.
   */
  function Div(x: Dual, other: Operand): Result<Dual, DualError>
  {
    match other
    case Scalar(c) => if c == 0.0 then Err(ZeroDivisionError) else Ok(Dual(x.re / c, x.du / c))
    case D(y) =>
      if y.re == 0.0 then Err(ZeroDivisionError)
      else
        PowerNonZero(y.re, 2);
        Ok(Dual(x.re / y.re, (x.du * y.re - x.re * y.du) / Power(y.re, 2)))
  }

  /**
   * `__pow__`: a non-integer exponent raises `ValueError`, exponent 0 gives 1, and otherwise
   * (a + bε)ⁿ = aⁿ + n·aⁿ⁻¹·b ε, where a zero base with a negative power raises.
   */
  function Pow(x: Dual, p: Exponent): Result<Dual, DualError>
  {
    match p
    case NonIntExp => Err(ValueError)
    case IntExp(n) =>
      if n == 0 then Ok(One)
      else
        var an := IntPower(x.re, n);
        var an1 := IntPower(x.re, n - 1);
        if an.Err? then Err(an.error)
        else if an1.Err? then Err(an1.error)
        else Ok(Dual(an.value, IntReal(n) * an1.value * x.du))
  }

  /** `conjugate`: the dual part negated (written as 0 when it is 0, to avoid a negative zero). */
  function Conjugate(x: Dual): Dual
  {
    if x.du == 0.0 then Dual(x.re, 0.0) else Dual(x.re, -x.du)
  }

  /**
   * `differentiate(func, x)`: the dual part of `func(Dual(x, 1))`, or what `func` raises;
   * a plain number as the result has no `dual` attribute.
   */
  function Differentiate(f: Dual -> Result<Operand, DualError>, x: real): Result<real, DualError>
  {
    var y := f(Dual(x, 1.0));
    if y.Err? then Err(y.error)
    else if y.value.Scalar? then Err(AttributeError)
    else Ok(y.value.d.du)
  }

  // Python's `u + v`, `u - v`, `u * v` and `u ** k` on values: a `Dual` on the left uses its
  // own operator; a plain number on the left accepts only another plain number, since `Dual`
  // defines no reflected operators.

  function AddValues(u: Operand, v: Operand): Result<Operand, DualError>
  {
    match u
    case D(x) => Ok(D(Add(x, v)))
    case Scalar(c) => if v.D? then Err(TypeError) else Ok(Scalar(c + v.s))
  }

  function SubValues(u: Operand, v: Operand): Result<Operand, DualError>
  {
    match u
    case D(x) => Ok(D(Sub(x, v)))
    case Scalar(c) => if v.D? then Err(TypeError) else Ok(Scalar(c - v.s))
  }

  function MulValues(u: Operand, v: Operand): Result<Operand, DualError>
  {
    match u
    case D(x) => Ok(D(Mul(x, v)))
    case Scalar(c) => if v.D? then Err(TypeError) else Ok(Scalar(Product(c, v.s)))
  }

  function PowValues(u: Operand, k: nat): Result<Operand, DualError>
  {
    match u
    case D(x) =>
      var p := Pow(x, IntExp(k));
      if p.Err? then Err(p.error) else Ok(D(p.value))
    case Scalar(c) => Ok(Scalar(Power(c, k)))
  }

  // ---------------------------------------------------------------------------
  // Laws of the operators
  // ---------------------------------------------------------------------------

  /** `__eq__` is exactly equality on dual numbers, and never holds for a plain number. */
  lemma EqualsLaws(x: Dual, other: Operand)
    ensures other.Scalar? ==> !Equals(x, other)
    ensures other.D? ==> (Equals(x, other) <==> x == other.d)
  {
  }

  /** A number on the right acts as the dual number with no dual part. */
  lemma ScalarIsLifted(x: Dual, c: real)
    ensures Add(x, Scalar(c)) == Add(x, D(Lift(c)))
    ensures Sub(x, Scalar(c)) == Sub(x, D(Lift(c)))
    ensures Mul(x, Scalar(c)) == Mul(x, D(Lift(c)))
    ensures c != 0.0 ==> Div(x, Scalar(c)) == Div(x, D(Lift(c)))
  {
    if c != 0.0 {
      LiftedDivisor(x, c);
    }
  }

  lemma LiftedDivisor(x: Dual, c: real)
    requires c != 0.0
    ensures Div(x, Scalar(c)) == Div(x, D(Lift(c)))
  {
    var q := Div(x, D(Lift(c)));
    LiftedDivisorDual(x, c);
    assert q.Ok? && q.value.re == x.re / c;
    DualEq(q.value, Div(x, Scalar(c)).value);
  }

  lemma LiftedDivisorDual(x: Dual, c: real)
    requires c != 0.0
    ensures Div(x, D(Lift(c))).Ok? && Div(x, D(Lift(c))).value.du == x.du / c
  {
    SquareQuotient(x.du, x.re, c, Lift(c).du);
  }

  /** Two dual numbers with the same parts are the same. */
  lemma DualEq(p: Dual, q: Dual)
    requires p.re == q.re && p.du == q.du
    ensures p == q
  {
  }

  /** The product of a + a'ε and b + b'ε, with the dual part in the order of the product rule. */
  lemma MulOf(p: Dual, q: Dual, a: real, da: real, b: real, db: real)
    requires p == Dual(a, da) && q == Dual(b, db)
    ensures Mul(p, D(q)).re == Product(a, b)
    ensures Mul(p, D(q)).du == ProductRule(a, da, b, db)
  {
  }

  /** `c ** 2` is c·c. */
  lemma PowerTwo(c: real)
    ensures Power(c, 2) == c * c
  {
    assert Power(c, 1) == c;
  }

  /** The dual part of a quotient by c + 0ε is the dual part divided by c. */
  lemma SquareQuotient(b: real, a: real, c: real, d: real)
    requires c != 0.0 && d == 0.0
    ensures Power(c, 2) != 0.0 && (b * c - a * d) / Power(c, 2) == b / c
  {
    PowerNonZero(c, 2);
    var p := Power(c, 2);
    TimesQuotient(b, c);
    PowerTwo(c);
    assert a * d == 0.0;
    Regroup(b / c, c, c);
    QuotientOf(b * c - a * d, p, b / c);
  }

  /** Addition is commutative and associative, and subtraction undoes it. */
  lemma AddLaws(x: Dual, y: Dual, z: Dual)
    ensures Add(x, D(y)) == Add(y, D(x))
    ensures Add(Add(x, D(y)), D(z)) == Add(x, D(Add(y, D(z))))
    ensures Sub(Add(x, D(y)), D(y)) == x
    ensures Sub(x, D(x)) == Zero
  {
  }

  /** Multiplication is commutative and associative, distributes over addition, and ε² = 0. */
  lemma MulLaws(x: Dual, y: Dual, z: Dual)
    ensures Mul(x, D(y)) == Mul(y, D(x))
    ensures Mul(Mul(x, D(y)), D(z)) == Mul(x, D(Mul(y, D(z))))
    ensures Mul(x, D(Add(y, D(z)))) == Add(Mul(x, D(y)), D(Mul(x, D(z))))
    ensures Mul(x, D(One)) == x
    ensures Mul(Epsilon, D(Epsilon)) == Zero
  {
    assert (x.re * y.re) * z.du + (x.re * y.du + x.du * y.re) * z.re
        == x.re * (y.re * z.du + y.du * z.re) + x.du * (y.re * z.re);
  }

  /** Division by a dual number with a non-zero real part is the inverse of multiplication by it. */
  lemma DivLaws(x: Dual, y: Dual)
    ensures y.re == 0.0 ==> Div(x, D(y)) == Err(ZeroDivisionError)
    ensures y.re != 0.0 ==> Div(x, D(y)).Ok? && Mul(Div(x, D(y)).value, D(y)) == x
    ensures y.re != 0.0 ==> Div(Mul(x, D(y)), D(y)) == Ok(x)
  {
    if y.re != 0.0 {
      DivThenMul(x, y);
      MulThenDiv(x, y);
    }
  }

  lemma DivThenMul(x: Dual, y: Dual)
    requires y.re != 0.0
    ensures Div(x, D(y)).Ok? && Mul(Div(x, D(y)).value, D(y)) == x
  {
    PowerNonZero(y.re, 2);
    var q := Div(x, D(y)).value;
    DivThenMulParts(x.re, x.du, y.re, y.du, q.re, q.du);
    DualEq(Mul(q, D(y)), x);
  }

  /** With u = a/c and t = (bc − ad)/c²: u·c = a and u·d + t·c = b. */
  lemma DivThenMulParts(a: real, b: real, c: real, d: real, u: real, t: real)
    requires c != 0.0
    requires Power(c, 2) != 0.0 && u == a / c && t == (b * c - a * d) / Power(c, 2)
    ensures u * c == a
    ensures u * d + t * c == b
  {
    var p := Power(c, 2);
    TimesQuotient(a, c);
    TimesQuotient(b * c - a * d, p);
    PowerTwo(c);
    Regroup(t, c, c);
    Regroup(u, c, d);
    assert (u * d + t * c) * c == b * c;
    CancelFactor(u * d + t * c, b, c);
  }

  lemma MulThenDiv(x: Dual, y: Dual)
    requires y.re != 0.0
    ensures Div(Mul(x, D(y)), D(y)) == Ok(x)
  {
    var m := Mul(x, D(y));
    PowerNonZero(y.re, 2);
    MulThenDivParts(x.re, x.du, y.re, y.du, m.re, m.du);
    DualEq(Div(m, D(y)).value, x);
  }

  /** With u = ac and t = ad + bc: u/c = a and (tc − ud)/c² = b. */
  lemma MulThenDivParts(a: real, b: real, c: real, d: real, u: real, t: real)
    requires c != 0.0 && u == a * c && t == a * d + b * c
    ensures Power(c, 2) != 0.0
    ensures u / c == a
    ensures (t * c - u * d) / Power(c, 2) == b
  {
    PowerNonZero(c, 2);
    var p := Power(c, 2);
    QuotientOf(u, c, a);
    PowerTwo(c);
    assert t * c - u * d == b * p;
    QuotientOf(t * c - u * d, p, b);
  }

  /** A plain number divisor: zero raises, anything else divides both parts. */
  lemma DivByScalar(x: Dual, c: real)
    ensures c == 0.0 ==> Div(x, Scalar(c)) == Err(ZeroDivisionError)
    ensures c != 0.0 ==> Div(x, Scalar(c)).Ok? && Mul(Div(x, Scalar(c)).value, Scalar(c)) == x
  {
  }

  /** For natural exponents `**` never raises: 1 for 0, and aⁿ + n·aⁿ⁻¹·b ε otherwise. */
  lemma PowNatural(x: Dual, n: nat)
    ensures Pow(x, IntExp(n)).Ok?
    ensures Pow(x, IntExp(n)).value.re == Power(x.re, n)
    ensures Pow(x, IntExp(n)).value.du == PowerRule(n, x.re, x.du)
  {
    if n == 0 {
      PowZero(x);
    } else {
      PowPositive(x, n);
      PowClosed(x, n);
    }
  }

  lemma PowZero(x: Dual)
    ensures Pow(x, IntExp(0)) == Ok(One)
    ensures Power(x.re, 0) == 1.0 && PowerRule(0, x.re, x.du) == 0.0
  {
  }

  lemma PowClosed(x: Dual, n: nat)
    requires n > 0
    ensures Pow(x, IntExp(n)).Ok?
    ensures Pow(x, IntExp(n)).value.du == PowerRule(n, x.re, x.du)
  {
    PowPositive(x, n);
    PowerRuleAt(n, x.re, x.du);
  }

  lemma PowerRuleAt(k: nat, u: real, du: real)
    requires k > 0
    ensures PowerRule(k, u, du) == IntReal(k) * Power(u, k - 1) * du
  {
  }

  lemma PowPositive(x: Dual, n: nat)
    requires n > 0
    ensures Pow(x, IntExp(n)).Ok?
    ensures Pow(x, IntExp(n)).value.re == Power(x.re, n)
    ensures Pow(x, IntExp(n)).value.du == IntReal(n) * Power(x.re, n - 1) * x.du
  {
    assert IntPower(x.re, n) == Ok(Power(x.re, n));
    assert IntPower(x.re, n - 1) == Ok(Power(x.re, n - 1));
    assert Pow(x, IntExp(n)).Ok?;
    assert Pow(x, IntExp(n)).value.re == Power(x.re, n);
    assert Pow(x, IntExp(n)).value.du == IntReal(n) * Power(x.re, n - 1) * x.du;
  }

  /** `**` raises `ValueError` for a non-integer exponent and `ZeroDivisionError` for 0 to a negative power. */
  lemma PowErrors(x: Dual, p: Exponent)
    ensures p.NonIntExp? ==> Pow(x, p) == Err(ValueError)
    ensures p.IntExp? && p.n < 0 && x.re == 0.0 ==> Pow(x, p) == Err(ZeroDivisionError)
    ensures p.IntExp? && (p.n >= 0 || x.re != 0.0) ==> Pow(x, p).Ok?
  {
  }

  /** The closed form of `__pow__` agrees with repeated multiplication: xⁿ⁺¹ = xⁿ · x. */
  lemma PowIsRepeatedMul(x: Dual, n: nat)
    ensures Pow(x, IntExp(n + 1)) == Ok(Mul(Pow(x, IntExp(n)).value, D(x)))
  {
    if n == 0 {
      PowPositive(x, 1);
      var a, b := x.re, x.du;
      assert Power(a, 1) == 1.0 * a && IntReal(1) == 1.0;
      MulOf(One, x, 1.0, 0.0, a, b);
      DualEq(Pow(x, IntExp(1)).value, Mul(One, D(x)));
    } else {
      RepeatedMulNext(x, n);
    }
  }

  lemma RepeatedMulNext(x: Dual, n: nat)
    requires n > 0
    ensures Pow(x, IntExp(n + 1)) == Ok(Mul(Pow(x, IntExp(n)).value, D(x)))
  {
    PowPositive(x, n);
    PowPositive(x, n + 1);
    var P, Q := Pow(x, IntExp(n)).value, Pow(x, IntExp(n + 1)).value;
    PowerStep(x.re, n - 1);
    PowerStep(x.re, n);
    IntRealStep(n);
    RepeatedMulParts(x.re, x.du, Power(x.re, n - 1), Power(x.re, n), IntReal(n), IntReal(n + 1), P.re, P.du, Q.re, Q.du);
    DualEq(Q, Mul(P, D(x)));
  }

  lemma PowerStep(a: real, k: nat)
    ensures Power(a, k + 1) == Power(a, k) * a
  {
  }

  lemma IntRealStep(k: nat)
    ensures IntReal(k + 1) == IntReal(k) + 1.0
  {
  }

  /**
   * With aⁿ = aⁿ⁻¹·a, xⁿ = aⁿ + n·aⁿ⁻¹·b ε and xⁿ⁺¹ = aⁿ⁺¹ + (n + 1)·aⁿ·b ε,
   * the parts of xⁿ⁺¹ are those of xⁿ · x.
   */
  lemma RepeatedMulParts(a: real, b: real, w: real, p: real, k: real, k1: real, pre: real, pdu: real, qre: real, qdu: real)
    requires p == w * a && k1 == k + 1.0
    requires pre == p && pdu == k * w * b && qre == p * a && qdu == k1 * p * b
    ensures qre == pre * a
    ensures qdu == pre * b + pdu * a
  {
  }

  /** With a non-zero base, x⁻¹ is the quotient 1 / x. */
  lemma PowMinusOne(x: Dual)
    requires x.re != 0.0
    ensures Pow(x, IntExp(-1)) == Div(One, D(x))
  {
    var a, b := x.re, x.du;
    PowerNonZero(a, 2);
    var p2 := Power(a, 2);
    assert Power(a, 1) == a;
    assert IntPower(a, -1) == Ok(1.0 / a);
    assert IntPower(a, -2) == Ok(1.0 / p2);
    assert IntReal(-1) == -1.0;
    var p := Pow(x, IntExp(-1));
    assert p.Ok? && p.value.re == 1.0 / a && p.value.du == -1.0 * (1.0 / p2) * b;
    var q := Div(One, D(x));
    assert q.Ok? && q.value.re == 1.0 / a && q.value.du == (0.0 * a - 1.0 * b) / p2;
    assert 0.0 * a - 1.0 * b == -b;
    ReciprocalTimes(p2, b);
    DualEq(p.value, q.value);
  }

  lemma Regroup(u: real, r: real, p: real)
    ensures (u * r) * p == u * (r * p)
  {
  }

  lemma ReciprocalTimes(p: real, b: real)
    requires p != 0.0
    ensures -1.0 * (1.0 / p) * b == -b / p
  {
    var r := 1.0 / p;
    TimesQuotient(1.0, p);
    Regroup(-1.0 * b, r, p);
    assert -1.0 * r * b == -1.0 * b * r;
    QuotientOf(-b, p, -1.0 * b * r);
  }

  /** Conjugating twice gives the number back; x · x̄ and x + x̄ have no dual part. */
  lemma ConjugateLaws(x: Dual)
    ensures Conjugate(Conjugate(x)) == x
    ensures Conjugate(x) == Dual(x.re, -x.du)
    ensures Mul(x, D(Conjugate(x))) == Dual(x.re * x.re, 0.0)
    ensures Add(x, D(Conjugate(x))) == Dual(2.0 * x.re, 0.0)
  {
  }

  // ---------------------------------------------------------------------------
  // Differentiation of polynomial expressions
  // ---------------------------------------------------------------------------

  /** A polynomial expression in one variable, as a function like `f` is written. */
  datatype Expr =
    | Var
    | Const(c: real)
    | Plus(l: Expr, r: Expr)
    | Minus(l: Expr, r: Expr)
    | Times(l: Expr, r: Expr)
    | PowerOf(base: Expr, k: nat)

  /** The value of the expression at a real point. */
  function Eval(e: Expr, x: real): real
  {
    match e
    case Var => x
    case Const(c) => c
    case Plus(l, r) => Eval(l, x) + Eval(r, x)
    case Minus(l, r) => Eval(l, x) - Eval(r, x)
    case Times(l, r) => Product(Eval(l, x), Eval(r, x))
    case PowerOf(base, k) => Power(Eval(base, x), k)
  }

  /** u·v, as one term for the value of a product expression. */
  function Product(u: real, v: real): real
  {
    u * v
  }

  /** (u·v)' = u'·v + u·v'. */
  function ProductRule(u: real, du: real, v: real, dv: real): real
  {
    du * v + u * dv
  }

  /** (uᵏ)' = k·uᵏ⁻¹·u', and 0 for k = 0. */
  function PowerRule(k: nat, u: real, du: real): real
  {
    if k == 0 then 0.0 else IntReal(k) * Power(u, k - 1) * du
  }

  /** The derivative by the textbook rules: sum, difference, product and power rule. */
  function Derivative(e: Expr, x: real): real
  {
    match e
    case Var => 1.0
    case Const(_) => 0.0
    case Plus(l, r) => Derivative(l, x) + Derivative(r, x)
    case Minus(l, r) => Derivative(l, x) - Derivative(r, x)
    case Times(l, r) => ProductRule(Eval(l, x), Derivative(l, x), Eval(r, x), Derivative(r, x))
    case PowerOf(base, k) =>
      PowerRule(k, Eval(base, x), Derivative(base, x))
  }

  /** The expression evaluated with the `Dual` operators; constants act as plain numbers. */
  function EvalDual(e: Expr, x: Dual): Dual
  {
    match e
    case Var => x
    case Const(c) => Lift(c)
    case Plus(l, r) => Add(EvalDual(l, x), D(EvalDual(r, x)))
    case Minus(l, r) => Sub(EvalDual(l, x), D(EvalDual(r, x)))
    case Times(l, r) => Mul(EvalDual(l, x), D(EvalDual(r, x)))
    case PowerOf(base, k) =>
      var v := EvalDual(base, x);
      PowNatural(v, k);
      Pow(v, IntExp(k)).value
  }


  /** Evaluating at x + ε gives the value and the derivative at x. */
  lemma {:induction false} DualEvaluation(e: Expr, x: real)
    ensures EvalDual(e, Dual(x, 1.0)).re == Eval(e, x)
    ensures EvalDual(e, Dual(x, 1.0)).du == Derivative(e, x)
  {
    match e
    case Var =>
    case Const(_) =>
    case Plus(l, r) =>
      DualEvaluation(l, x);
      DualEvaluation(r, x);
    case Minus(l, r) =>
      DualEvaluation(l, x);
      DualEvaluation(r, x);
    case Times(l, r) =>
      DualEvaluation(l, x);
      DualEvaluation(r, x);
      TimesValue(l, r, x);
      TimesSlope(l, r, x);
    case PowerOf(base, k) =>
      DualEvaluation(base, x);
      PowerCase(base, k, x);
  }

  /** The value of a product, given the values of both factors. */
  lemma TimesValue(l: Expr, r: Expr, x: real)
    requires EvalDual(l, Dual(x, 1.0)) == Dual(Eval(l, x), Derivative(l, x))
    requires EvalDual(r, Dual(x, 1.0)) == Dual(Eval(r, x), Derivative(r, x))
    ensures EvalDual(Times(l, r), Dual(x, 1.0)).re == Eval(Times(l, r), x)
  {
    var p, q := EvalDual(l, Dual(x, 1.0)), EvalDual(r, Dual(x, 1.0));
    assert EvalDual(Times(l, r), Dual(x, 1.0)) == Mul(p, D(q));
    MulOf(p, q, Eval(l, x), Derivative(l, x), Eval(r, x), Derivative(r, x));
  }

  /** The product rule, given the value and derivative of both factors. */
  lemma TimesSlope(l: Expr, r: Expr, x: real)
    requires EvalDual(l, Dual(x, 1.0)) == Dual(Eval(l, x), Derivative(l, x))
    requires EvalDual(r, Dual(x, 1.0)) == Dual(Eval(r, x), Derivative(r, x))
    ensures EvalDual(Times(l, r), Dual(x, 1.0)).du == Derivative(Times(l, r), x)
  {
    var p, q := EvalDual(l, Dual(x, 1.0)), EvalDual(r, Dual(x, 1.0));
    var a, da, b, db := Eval(l, x), Derivative(l, x), Eval(r, x), Derivative(r, x);
    assert EvalDual(Times(l, r), Dual(x, 1.0)) == Mul(p, D(q));
    assert Derivative(Times(l, r), x) == ProductRule(a, da, b, db);
    MulOf(p, q, a, da, b, db);
  }

  /** The power rule, given the value and derivative of the base. */
  lemma PowerCase(base: Expr, k: nat, x: real)
    requires EvalDual(base, Dual(x, 1.0)) == Dual(Eval(base, x), Derivative(base, x))
    ensures EvalDual(PowerOf(base, k), Dual(x, 1.0)).re == Eval(PowerOf(base, k), x)
    ensures EvalDual(PowerOf(base, k), Dual(x, 1.0)).du == Derivative(PowerOf(base, k), x)
  {
    var v := EvalDual(base, Dual(x, 1.0));
    PowNatural(v, k);
  }

  /** Whether the variable occurs in the expression. */
  predicate HasVar(e: Expr)
  {
    match e
    case Var => true
    case Const(_) => false
    case Plus(l, r) => HasVar(l) || HasVar(r)
    case Minus(l, r) => HasVar(l) || HasVar(r)
    case Times(l, r) => HasVar(l) || HasVar(r)
    case PowerOf(base, _) => HasVar(base)
  }

  /**
   * No operator has a variable-free left operand and a right operand holding the variable:
   * exactly the expressions Python can evaluate on a `Dual` without a plain number meeting
   * a `Dual` on its right.
   */
  predicate NumbersOnRight(e: Expr)
  {
    match e
    case Var => true
    case Const(_) => true
    case Plus(l, r) => NumbersOnRight(l) && NumbersOnRight(r) && (HasVar(r) ==> HasVar(l))
    case Minus(l, r) => NumbersOnRight(l) && NumbersOnRight(r) && (HasVar(r) ==> HasVar(l))
    case Times(l, r) => NumbersOnRight(l) && NumbersOnRight(r) && (HasVar(r) ==> HasVar(l))
    case PowerOf(base, _) => NumbersOnRight(base)
  }

  /**
   * The expression evaluated as Python evaluates it on a `Dual`: the variable is the `Dual`,
   * constants are plain numbers, and operands are evaluated left first.
   */
  function EvalValue(e: Expr, x: Dual): Result<Operand, DualError>
  {
    match e
    case Var => Ok(D(x))
    case Const(c) => Ok(Scalar(c))
    case Plus(l, r) =>
      var u := EvalValue(l, x);
      if u.Err? then u
      else
        var v := EvalValue(r, x);
        if v.Err? then v else AddValues(u.value, v.value)
    case Minus(l, r) =>
      var u := EvalValue(l, x);
      if u.Err? then u
      else
        var v := EvalValue(r, x);
        if v.Err? then v else SubValues(u.value, v.value)
    case Times(l, r) =>
      var u := EvalValue(l, x);
      if u.Err? then u
      else
        var v := EvalValue(r, x);
        if v.Err? then v else MulValues(u.value, v.value)
    case PowerOf(base, k) =>
      var u := EvalValue(base, x);
      if u.Err? then u else PowValues(u.value, k)
  }

  /** Without the variable, evaluating with lifted constants gives the plain value with no dual part. */
  lemma {:induction false} ConstantLifted(e: Expr, x: Dual)
    requires !HasVar(e)
    ensures EvalDual(e, x) == Lift(Eval(e, x.re))
  {
    match e
    case Var =>
    case Const(_) =>
    case Plus(l, r) =>
      ConstantLifted(l, x);
      ConstantLifted(r, x);
    case Minus(l, r) =>
      ConstantLifted(l, x);
      ConstantLifted(r, x);
    case Times(l, r) =>
      ConstantLifted(l, x);
      ConstantLifted(r, x);
      var a, b := Eval(l, x.re), Eval(r, x.re);
      MulOf(Lift(a), Lift(b), a, 0.0, b, 0.0);
      DualEq(Mul(Lift(a), D(Lift(b))), Lift(Product(a, b)));
    case PowerOf(base, k) =>
      ConstantLifted(base, x);
      var a := Eval(base, x.re);
      PowNatural(Lift(a), k);
      DualEq(Pow(Lift(a), IntExp(k)).value, Lift(Power(a, k)));
  }

  /**
   * Python's evaluation raises `TypeError` exactly when a plain number meets a `Dual` on its
   * right; otherwise it gives a `Dual` when the variable occurs, equal to the evaluation with
   * lifted constants, and the plain value when it does not.
   */
  lemma {:induction false} ValueEvaluation(e: Expr, x: Dual)
    ensures NumbersOnRight(e) ==>
              EvalValue(e, x) == Ok(if HasVar(e) then D(EvalDual(e, x)) else Scalar(Eval(e, x.re)))
    ensures !NumbersOnRight(e) ==> EvalValue(e, x) == Err(TypeError)
  {
    match e
    case Var =>
    case Const(_) =>
    case Plus(l, r) =>
      ValueEvaluation(l, x);
      ValueEvaluation(r, x);
      if !HasVar(r) {
        ConstantLifted(r, x);
        ScalarIsLifted(EvalDual(l, x), Eval(r, x.re));
      }
    case Minus(l, r) =>
      ValueEvaluation(l, x);
      ValueEvaluation(r, x);
      if !HasVar(r) {
        ConstantLifted(r, x);
        ScalarIsLifted(EvalDual(l, x), Eval(r, x.re));
      }
    case Times(l, r) =>
      ValueEvaluation(l, x);
      ValueEvaluation(r, x);
      if !HasVar(r) {
        ConstantLifted(r, x);
        ScalarIsLifted(EvalDual(l, x), Eval(r, x.re));
      }
    case PowerOf(base, k) =>
      ValueEvaluation(base, x);
      if HasVar(base) {
        PowNatural(EvalDual(base, x), k);
      }
  }

  /**
   * `differentiate` applied to a polynomial expression: its derivative when the variable
   * occurs and no plain number meets a `Dual` on its right, `AttributeError` for a constant
   * function, and `TypeError` otherwise.
   */
  lemma DifferentiatePolynomial(e: Expr, x: real)
    ensures NumbersOnRight(e) && HasVar(e) ==>
              Differentiate(v => EvalValue(e, v), x) == Ok(Derivative(e, x))
    ensures NumbersOnRight(e) && !HasVar(e) ==>
              Differentiate(v => EvalValue(e, v), x) == Err(AttributeError)
    ensures !NumbersOnRight(e) ==> Differentiate(v => EvalValue(e, v), x) == Err(TypeError)
  {
    ValueEvaluation(e, Dual(x, 1.0));
    DualEvaluation(e, x);
  }

  /** `f(x) = x**2 + x*2 + 1`, with the operators applied in the order Python applies them. */
  function F(x: Dual): Result<Operand, DualError>
  {
    var square := Pow(x, IntExp(2));
    if square.Err? then Err(square.error)
    else Ok(D(Add(Add(square.value, D(Mul(x, Scalar(2.0)))), Scalar(1.0))))
  }

  /** `f` is x² + 2x + 1, so `differentiate(f, x)` is 2x + 2, which is 38 at 18. */
  lemma DifferentiateExample(x: real)
    ensures Differentiate(F, x) == Ok(2.0 * x + 2.0)
    ensures Differentiate(F, 18.0) == Ok(38.0)
  {
    var v := Dual(x, 1.0);
    PowPositive(v, 2);
    assert Power(x, 1) == x;
    assert IntReal(2) == 2.0;
    var square := Pow(v, IntExp(2)).value;
    assert square.du == 2.0 * x;
    assert F(v).Ok? && F(v).value.D? && F(v).value.d.du == 2.0 * x + 2.0;
  }
}
