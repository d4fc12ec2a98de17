/**
 * `FinancialCalculator`: compound interest and monthly loan payments taken
 * from the external math verifier, with counters of calculations and of
 * verification failures, and a conservative closed-form fallback for an
 * unverified loan payment.
 */
module FinancialCalculator {
  import opened Values

  /** `CalculationResult`. */
  datatype CalculationResult = CalculationResult(value: real, verified: bool, confidence: real, auditTrail: string)

  /** What escapes a calculation: the verifier's own exception, the
      `VerificationError` of an unverified compound interest, or an
      arithmetic error of the fallback formula. */
  datatype CalcError =
    | VerifierRaised(message: string)
    | VerificationError(message: string)
    | Arithmetic(error: PyError)

  // ---------------------------------------------------------------------
  // Powers and the fallback formula

  /** x to a natural power; never zero for a non-zero base. */
  function RPow(x: real, k: nat): (p: real)
    ensures x != 0.0 ==> p != 0.0
  {
    if k == 0 then 1.0 else x * RPow(x, k - 1)
  }

  /** Python's `x ** n` for a float and an int: a negative power of zero raises. */
  function Pow(x: real, n: int): Result<real, PyError> {
    if n >= 0 then Ok(RPow(x, n))
    else if x == 0.0 then Err(ZeroDivisionError("0.0 cannot be raised to a negative power"))
    else Ok(1.0 / RPow(x, -n))
  }

  /** The monthly rate `annual_rate / 100 / 12`. */
  function MonthlyRate(annualRate: real): real {
    annualRate / 100.0 / 12.0
  }

  /** The conservative estimate: `r = annual_rate/100/12`, `n = years*12`,
      `principal * (r * (1+r)**n) / ((1+r)**n - 1)`. */
  function Fallback(principal: real, annualRate: real, years: int): Result<real, PyError> {
    var r := MonthlyRate(annualRate);
    match Pow(1.0 + r, years * 12)
    case Err(e) => Err(e)
    case Ok(g) =>
      if g - 1.0 == 0.0 then Err(ZeroDivisionError("float division by zero"))
      else Ok(LevelPayment(principal, r, g))
  }

  /** `principal * (r * g) / (g - 1)`, for `g` the power `(1+r)**n`. */
  function LevelPayment(principal: real, r: real, g: real): real
    requires g - 1.0 != 0.0
  {
    principal * (r * g) / (g - 1.0)
  }

  lemma {:induction false} RPowProduct(x: real, y: real, k: nat)
    ensures RPow(x * y, k) == RPow(x, k) * RPow(y, k)
  {
    if k > 0 {
      RPowProduct(x, y, k - 1);
      var a, b := RPow(x, k - 1), RPow(y, k - 1);
      assert x * y * (a * b) == (x * a) * (y * b);
    }
  }

  lemma {:induction false} RPowAboveOne(y: real, k: nat)
    requires y > 1.0 && k >= 1
    ensures RPow(y, k) > 1.0
  {
    if k > 1 {
      RPowAboveOne(y, k - 1);
      var p := RPow(y, k - 1);
      assert y * p > 1.0 * p;
    }
  }

  lemma {:induction false} RPowBelowOne(y: real, k: nat)
    requires 0.0 <= y < 1.0 && k >= 1
    ensures 0.0 <= RPow(y, k) < 1.0
  {
    if k > 1 {
      RPowBelowOne(y, k - 1);
      var p := RPow(y, k - 1);
      assert y * p <= 1.0 * p;
    }
  }

  lemma {:induction false} RPowMinusOne(k: nat)
    ensures RPow(-1.0, k) == if k % 2 == 0 then 1.0 else -1.0
  {
    if k > 0 {
      RPowMinusOne(k - 1);
    }
  }

  /** A positive power is one exactly for the base 1, and for -1 when the power is even. */
  lemma RPowIsOne(x: real, k: nat)
    requires k >= 1
    ensures RPow(x, k) == 1.0 <==> x == 1.0 || (x == -1.0 && k % 2 == 0)
  {
    var s := if x < 0.0 then -1.0 else 1.0;
    var y := s * x;
    RPowProduct(s, y, k);
    assert s * y == x;
    RPowMinusOne(k);
    if y > 1.0 {
      RPowAboveOne(y, k);
    } else if y < 1.0 {
      RPowBelowOne(y, k);
    }
  }

  /** An even power, positive or negative, fails or is one exactly for the
      power 0, the bases 1 and -1, and a negative power of 0. */
  lemma PowIsOne(x: real, n: int)
    requires n % 2 == 0
    ensures Pow(x, n).Err? || Pow(x, n).value == 1.0 <==>
      n == 0 || x == 1.0 || x == -1.0 || (x == 0.0 && n < 0)
  {
    if n > 0 {
      RPowIsOne(x, n);
    } else if n < 0 {
      RPowIsOne(x, -n);
      if x != 0.0 {
        var p := RPow(x, -n);
        assert 1.0 / p == 1.0 <==> p == 1.0;
      }
    }
  }

  /** The fallback fails exactly when the power fails or is one. */
  lemma FallbackErr(principal: real, annualRate: real, years: int)
    ensures var g := Pow(1.0 + MonthlyRate(annualRate), years * 12);
      Fallback(principal, annualRate, years).Err? <==> g.Err? || g.value == 1.0
  {
  }

  /** The fallback fails exactly for a zero rate, a zero term, an annual
      rate of -2400% (a monthly factor of -1, whose power over a whole
      number of years is 1), and a -1200% rate over a negative term (a
      negative power of zero). */
  lemma FallbackFails(principal: real, annualRate: real, years: int)
    ensures Fallback(principal, annualRate, years).Err? <==>
      annualRate == 0.0 || years == 0 || annualRate == -2400.0 || (annualRate == -1200.0 && years < 0)
  {
    var x := 1.0 + MonthlyRate(annualRate);
    FallbackErr(principal, annualRate, years);
    PowIsOne(x, years * 12);
    assert x == 1.0 <==> annualRate == 0.0;
    assert x == -1.0 <==> annualRate == -2400.0;
    assert x == 0.0 <==> annualRate == -1200.0;
  }

  /** The balance of a loan of `principal` at monthly rate `r` after `k`
      payments of `m`: interest is added, then the payment is taken off. */
  function Balance(principal: real, r: real, m: real, k: nat): real {
    if k == 0 then principal else Balance(principal, r, m, k - 1) * (1.0 + r) - m
  }

  /** The closed form of the balance `b` after the payments that raised
      the growth factor to `g`: `b*r == p*g*r - m*(g-1)`. */
  predicate ClosedForm(p: real, r: real, m: real, b: real, g: real) {
    b * r == p * g * r - m * (g - 1.0)
  }

  /** One month keeps the closed form: the next balance `b2` and factor `g2`
      satisfy it when `b` and `g` do. */
  lemma ClosedFormStep(p: real, r: real, m: real, b: real, g: real, b2: real, g2: real)
    requires ClosedForm(p, r, m, b, g)
    requires b2 == b * (1.0 + r) - m && g2 == (1.0 + r) * g
    ensures ClosedForm(p, r, m, b2, g2)
  {
    calc {
      b2 * r;
      (b * r) * (1.0 + r) - m * r;
      (p * g * r - m * (g - 1.0)) * (1.0 + r) - m * r;
      p * g2 * r - m * (g2 - 1.0);
    }
  }

  lemma {:induction false} BalanceClosedForm(principal: real, r: real, m: real, k: nat)
    ensures ClosedForm(principal, r, m, Balance(principal, r, m, k), RPow(1.0 + r, k))
  {
    if k > 0 {
      BalanceClosedForm(principal, r, m, k - 1);
      ClosedFormStep(principal, r, m, Balance(principal, r, m, k - 1), RPow(1.0 + r, k - 1),
                     Balance(principal, r, m, k), RPow(1.0 + r, k));
    }
  }

  /** The level payment `m` solves `m*(g-1) == p*r*g`. */
  lemma LevelPaymentSolves(p: real, r: real, g: real)
    requires g - 1.0 != 0.0
    ensures LevelPayment(p, r, g) * (g - 1.0) == p * r * g
  {
  }

  /** The fallback is the level payment that pays the loan off: after
      `12*years` payments of it the balance is zero. */
  lemma FallbackAmortizes(principal: real, annualRate: real, years: int)
    requires years > 0
    requires Fallback(principal, annualRate, years).Ok?
    ensures var m := Fallback(principal, annualRate, years).value;
      Balance(principal, MonthlyRate(annualRate), m, years * 12) == 0.0
  {
    FallbackFails(principal, annualRate, years);
    var r := MonthlyRate(annualRate);
    var n := years * 12;
    var g := RPow(1.0 + r, n);
    assert Pow(1.0 + r, n) == Ok(g);
    var m := Fallback(principal, annualRate, years).value;
    assert m == LevelPayment(principal, r, g);
    LevelPaymentSolves(principal, r, g);
    BalanceClosedForm(principal, r, m, n);
    var b := Balance(principal, r, m, n);
    assert b * r == 0.0;
    assert r != 0.0;
  }

  lemma AboveInterest(p: real, r: real, g: real)
    requires p * r > 0.0 && g > 1.0
    ensures LevelPayment(p, r, g) > p * r
  {
    var m := LevelPayment(p, r, g);
    var d := g - 1.0;
    var i := p * r;
    LevelPaymentSolves(p, r, g);
    assert m * d == i * d + i;
    var a := m - i;
    assert a * d == i;
    PositiveFactor(a, d);
  }

  lemma PositiveFactor(a: real, b: real)
    requires a * b > 0.0 && b > 0.0
    ensures a > 0.0
  {
    assert a == (a * b) / b;
  }

  /** For a positive principal and rate, the payment is more than one
      month's interest, so the loan shrinks from the first payment on. */
  lemma FallbackCoversInterest(principal: real, annualRate: real, years: int)
    requires principal > 0.0 && annualRate > 0.0 && years > 0
    ensures Fallback(principal, annualRate, years).Ok?
    ensures Fallback(principal, annualRate, years).value > principal * MonthlyRate(annualRate)
  {
    FallbackFails(principal, annualRate, years);
    var r := MonthlyRate(annualRate);
    var g := RPow(1.0 + r, years * 12);
    assert Pow(1.0 + r, years * 12) == Ok(g);
    RPowAboveOne(1.0 + r, years * 12);
    assert principal * r > 0.0;
    assert Fallback(principal, annualRate, years) == Ok(LevelPayment(principal, r, g));
    AboveInterest(principal, r, g);
  }

  // ---------------------------------------------------------------------
  // The two calculations

  /** `compound_interest`'s result for one outcome of `verify_math`. */
  function CompoundInterestResult(call: Call): Result<CalculationResult, CalcError> {
    match call
    case Raised(e) => Err(VerifierRaised(e))
    case Returned(result) =>
      if result.verified then
        Ok(CalculationResult(result.value, true, result.confidence,
                             "Symbolic verification via " + Str(GetOr(result.evidence, "method", JNull))))
      else Err(VerificationError("Cannot verify calculation: " + OptStr(result.error)))
  }

  /** `loan_payment`'s result for one outcome of `verify_math`. */
  function LoanPaymentResult(principal: real, annualRate: real, years: int, call: Call): Result<CalculationResult, CalcError> {
    match call
    case Raised(e) => Err(VerifierRaised(e))
    case Returned(result) =>
      if result.verified then Ok(CalculationResult(result.value, true, 100.0, "Verified via SymPy"))
      else
        match Fallback(principal, annualRate, years)
        case Err(e) => Err(Arithmetic(e))
        case Ok(fallback) => Ok(CalculationResult(fallback, false, 0.0, "Fallback calculation (unverified)"))
  }

  /** A compound interest result is returned only when verified, with the
      verifier's value and confidence; an unverified answer raises
      `VerificationError` with the verifier's error. */
  lemma CompoundInterestCases(call: Call)
    ensures var r := CompoundInterestResult(call);
      && (r.Ok? <==> call.Returned? && call.result.verified)
      && (r.Ok? ==> r.value.verified && r.value.value == call.result.value && r.value.confidence == call.result.confidence)
      && (r.Err? && r.error.VerificationError? <==> call.Returned? && !call.result.verified)
      && (call.Raised? ==> r == Err(VerifierRaised(call.exception)))
  {
  }

  /** A loan payment is verified with confidence 100 exactly when the
      verifier said so; otherwise it is the unverified fallback with
      confidence 0, or the fallback's arithmetic error. */
  lemma LoanPaymentCases(principal: real, annualRate: real, years: int, call: Call)
    ensures var r := LoanPaymentResult(principal, annualRate, years, call);
      && (call.Returned? && call.result.verified ==>
            (r.Ok? && r.value.verified && r.value.confidence == 100.0 && r.value.value == call.result.value))
      && (call.Returned? && !call.result.verified ==>
            match Fallback(principal, annualRate, years)
            case Ok(m) => r.Ok? && !r.value.verified && r.value.confidence == 0.0 && r.value.value == m
            case Err(e) => r == Err(Arithmetic(e)))
      && (r.Ok? ==> (r.value.verified <==> r.value.confidence == 100.0))
      && (call.Raised? ==> r == Err(VerifierRaised(call.exception)))
  {
  }

  /** The `calculation_count` step: a call that returned is counted. */
  function Counted(call: Call): nat {
    if call.Returned? then 1 else 0
  }

  /** The `verification_failures` step: a call that returned unverified. */
  function Failed(call: Call): nat {
    if call.Returned? && !call.result.verified then 1 else 0
  }

  /** `get_stats()`. */
  datatype CalculatorStats = CalculatorStats(totalCalculations: nat, verificationFailures: nat, successRate: real)

  class Calculator {
    var calculationCount: nat
    var verificationFailures: nat

    /** Every failure belongs to a counted calculation. */
    predicate Valid()
      reads this
    {
      verificationFailures <= calculationCount
    }

    constructor()
      ensures calculationCount == 0 && verificationFailures == 0 && Valid()
    {
      calculationCount := 0;
      verificationFailures := 0;
    }

    /** `compound_interest`; the principal, rate and years only enter the
        query text. A verifier exception leaves both counters alone. */
    method CompoundInterest(principal: real, rate: real, years: int, call: Call)
      returns (r: Result<CalculationResult, CalcError>)
      requires Valid()
      modifies this
      ensures Valid()
      ensures calculationCount == old(calculationCount) + Counted(call)
      ensures verificationFailures == old(verificationFailures) + Failed(call)
      ensures r == CompoundInterestResult(call)
    {
      if call.Raised? {
        return Err(VerifierRaised(call.exception));
      }
      var result := call.result;
      calculationCount := calculationCount + 1;
      if result.verified {
        return Ok(CalculationResult(result.value, true, result.confidence,
                                    "Symbolic verification via " + Str(GetOr(result.evidence, "method", JNull))));
      }
      verificationFailures := verificationFailures + 1;
      return Err(VerificationError("Cannot verify calculation: " + OptStr(result.error)));
    }

    /** `loan_payment`: the counters move as soon as the verifier returns,
        before the fallback is computed. */
    method LoanPayment(principal: real, annualRate: real, years: int, call: Call)
      returns (r: Result<CalculationResult, CalcError>)
      requires Valid()
      modifies this
      ensures Valid()
      ensures calculationCount == old(calculationCount) + Counted(call)
      ensures verificationFailures == old(verificationFailures) + Failed(call)
      ensures r == LoanPaymentResult(principal, annualRate, years, call)
    {
      if call.Raised? {
        return Err(VerifierRaised(call.exception));
      }
      var result := call.result;
      calculationCount := calculationCount + 1;
      if result.verified {
        return Ok(CalculationResult(result.value, true, 100.0, "Verified via SymPy"));
      }
      verificationFailures := verificationFailures + 1;
      var monthlyRate := annualRate / 100.0 / 12.0;
      assert monthlyRate == MonthlyRate(annualRate);
      var nPayments := years * 12;
      var growth := Pow(1.0 + monthlyRate, nPayments);
      assert growth == Pow(1.0 + MonthlyRate(annualRate), years * 12);
      if growth.Err? {
        return Err(Arithmetic(growth.error));
      }
      var denominator := growth.value - 1.0;
      if denominator == 0.0 {
        return Err(Arithmetic(ZeroDivisionError("float division by zero")));
      }
      var fallback := principal * (monthlyRate * growth.value) / denominator;
      assert fallback == LevelPayment(principal, monthlyRate, growth.value);
      return Ok(CalculationResult(fallback, false, 0.0, "Fallback calculation (unverified)"));
    }

    /** `get_stats()`: the success rate is a percentage, 0 before any calculation. */
    function Stats(): (s: CalculatorStats)
      reads this
      ensures s.totalCalculations == calculationCount && s.verificationFailures == verificationFailures
      ensures calculationCount == 0 ==> s.successRate == 0.0
      ensures Valid() ==> 0.0 <= s.successRate <= 100.0
      ensures Valid() && calculationCount > 0 ==> (s.successRate == 100.0 <==> verificationFailures == 0)
      ensures calculationCount > 0 && verificationFailures == calculationCount ==> s.successRate == 0.0
    {
      CalculatorStats(calculationCount, verificationFailures,
                      if calculationCount > 0
                      then (calculationCount - verificationFailures) as real / calculationCount as real * 100.0
                      else 0.0)
    }
  }

  /** A failure is only ever counted with its calculation. */
  lemma FailuresWithinCount(call: Call)
    ensures Failed(call) <= Counted(call)
    ensures Failed(call) == 1 ==> Counted(call) == 1
  {
  }
}
