/**
 * `FinancialAssistant.calculate_loan_eligibility`: input validation, a
 * verified monthly payment, then the 43% debt-to-income rule.
 */
module FinancialAssistant {
  import opened Values

  /** The standard debt-to-income limit, in percent. */
  const MaxDti: int := 43

  /** `_validate_inputs`'s answer: valid, or the reason it is not. */
  datatype Validation = Accepted | Refused(reason: string)

  /** `_validate_inputs`: income, then loan, then rate, then term. */
  function ValidateInputs(income: real, loan: real, rate: real, years: int): Validation {
    if income <= 0.0 then Refused("Income must be positive")
    else if loan <= 0.0 then Refused("Loan amount must be positive")
    else if rate <= 0.0 || rate > 100.0 then Refused("Interest rate must be between 0-100")
    else if years <= 0 || years > 30 then Refused("Term must be 1-30 years")
    else Accepted
  }

  /** The ranges the validation admits. */
  predicate InRange(income: real, loan: real, rate: real, years: int) {
    income > 0.0 && loan > 0.0 && 0.0 < rate <= 100.0 && 1 <= years <= 30
  }

  /** Valid exactly in range. */
  lemma ValidateInputsAccepts(income: real, loan: real, rate: real, years: int)
    ensures ValidateInputs(income, loan, rate, years) == Accepted <==> InRange(income, loan, rate, years)
  {
  }

  /** The reason given is that of the first check, in source order, that fails. */
  lemma ValidateInputsFirstReason(income: real, loan: real, rate: real, years: int)
    ensures income <= 0.0 ==> ValidateInputs(income, loan, rate, years) == Refused("Income must be positive")
    ensures income > 0.0 && loan <= 0.0 ==>
      ValidateInputs(income, loan, rate, years) == Refused("Loan amount must be positive")
    ensures income > 0.0 && loan > 0.0 && !(0.0 < rate <= 100.0) ==>
      ValidateInputs(income, loan, rate, years) == Refused("Interest rate must be between 0-100")
    ensures income > 0.0 && loan > 0.0 && 0.0 < rate <= 100.0 && !(1 <= years <= 30) ==>
      ValidateInputs(income, loan, rate, years) == Refused("Term must be 1-30 years")
  {
  }

  /** `_calculate_monthly_payment`: the verified value, else None; an
      exception from the verifier also gives None. */
  function MonthlyPayment(call: Call): Option<real> {
    match call
    case Raised(_) => None
    case Returned(result) => if result.verified then Some(result.value) else None
  }

  /** A payment is produced exactly for a verified result, and it is the verifier's value. */
  lemma MonthlyPaymentSpec(call: Call)
    ensures MonthlyPayment(call).Some? <==> call.Returned? && call.result.verified
    ensures MonthlyPayment(call).Some? ==> MonthlyPayment(call).value == call.result.value
  {
  }

  /** The dictionary `calculate_loan_eligibility` returns. */
  datatype Eligibility =
    | Rejected(reason: string)
    | Assessed(eligible: bool, monthlyPayment: real, debtToIncomeRatio: real, maxDti: int,
               annualIncome: real, loanAmount: real, verified: bool)

  /** `(monthly_payment / (annual_income / 12)) * 100`. */
  function DebtToIncome(payment: real, income: real): real
    requires income != 0.0
  {
    (payment / (income / 12.0)) * 100.0
  }

  /** `calculate_loan_eligibility`; the rate and term only reach the
      verifier's query, whose outcome is `call`. */
  function CalculateLoanEligibility(income: real, loan: real, rate: real, years: int, call: Call): Eligibility {
    match ValidateInputs(income, loan, rate, years)
    case Refused(reason) => Rejected(reason)
    case Accepted =>
      match MonthlyPayment(call)
      case None => Rejected("Payment calculation failed")
      case Some(payment) =>
        var dti := DebtToIncome(payment, income);
        Assessed(dti <= MaxDti as real, payment, dti, MaxDti, income, loan, true)
  }

  /** For a positive income the ratio test is `payment*1200 <= 43*income`. */
  lemma DebtToIncomeBound(payment: real, income: real)
    requires income > 0.0
    ensures DebtToIncome(payment, income) <= 43.0 <==> payment * 1200.0 <= 43.0 * income
  {
    var m := income / 12.0;
    var q := payment / m;
    assert q * m == payment;
    assert DebtToIncome(payment, income) == q * 100.0;
    if q * 100.0 <= 43.0 {
      assert q * m <= 0.43 * m;
    } else {
      assert q * m > 0.43 * m;
    }
  }

  /** Invalid inputs are rejected with their reason, without consulting the verifier. */
  lemma InvalidRejected(income: real, loan: real, rate: real, years: int, call: Call)
    requires !InRange(income, loan, rate, years)
    ensures CalculateLoanEligibility(income, loan, rate, years, call)
         == Rejected(ValidateInputs(income, loan, rate, years).reason)
  {
    ValidateInputsAccepts(income, loan, rate, years);
  }

  /** Without a verified payment, valid inputs are rejected as a failed calculation. */
  lemma UnverifiedRejected(income: real, loan: real, rate: real, years: int, call: Call)
    requires InRange(income, loan, rate, years)
    requires call.Raised? || !call.result.verified
    ensures CalculateLoanEligibility(income, loan, rate, years, call) == Rejected("Payment calculation failed")
  {
  }

  /** An assessment is made exactly for valid inputs and a verified payment;
      it is marked verified, carries the 43% limit and the income and loan
      it was asked about, and is eligible exactly when the payment is at
      most 43% of the monthly income, the boundary included. */
  lemma AssessedSpec(income: real, loan: real, rate: real, years: int, call: Call)
    ensures var e := CalculateLoanEligibility(income, loan, rate, years, call);
      && (e.Assessed? <==> InRange(income, loan, rate, years) && call.Returned? && call.result.verified)
      && (e.Assessed? ==>
            && e.verified && e.maxDti == 43 && e.annualIncome == income && e.loanAmount == loan
            && e.monthlyPayment == call.result.value
            && (e.eligible <==> call.result.value * 1200.0 <= 43.0 * income))
  {
    ValidateInputsAccepts(income, loan, rate, years);
    if InRange(income, loan, rate, years) && call.Returned? && call.result.verified {
      DebtToIncomeBound(call.result.value, income);
    }
  }

  /** The boundary itself: a payment of exactly 43% of the monthly income is eligible. */
  lemma BoundaryEligible(income: real, loan: real, rate: real, years: int, call: Call)
    requires InRange(income, loan, rate, years) && call.Returned? && call.result.verified
    requires call.result.value == income / 12.0 * 0.43
    ensures CalculateLoanEligibility(income, loan, rate, years, call).Assessed?
    ensures CalculateLoanEligibility(income, loan, rate, years, call).eligible
  {
    AssessedSpec(income, loan, rate, years, call);
  }
}
