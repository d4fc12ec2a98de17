/**
 * `LiabilityGuard` of the liability exercise: a policy cap fixed when the
 * guard is made, and `check_clause`, which refuses an extracted amount
 * above it.
 */
module LiabilityGuard {
  import opened Values

  /** The guard holds nothing but its cap; being a value, no check can change it. */
  datatype LiabilityGuard = LiabilityGuard(maxCap: int)

  const WithinLimits: string := "✅ Liability within limits."

  /** `f"Risk Alert: Cap ${amount:,} exceeds policy ${max_cap:,}"`. */
  function RiskAlert(amount: int, maxCap: int): string {
    "Risk Alert: Cap $" + Grouped(amount) + " exceeds policy $" + Grouped(maxCap)
  }

  /** `check_clause(extracted_amount_usd)` (amounts in whole dollars). */
  function CheckClause(guard: LiabilityGuard, amount: int): (bool, string) {
    if amount > guard.maxCap then (false, RiskAlert(amount, guard.maxCap))
    else (true, WithinLimits)
  }

  /** Allowed exactly up to and including the cap; a refusal carries the alert. */
  lemma CheckClauseAllows(guard: LiabilityGuard, amount: int)
    ensures CheckClause(guard, amount).0 <==> amount <= guard.maxCap
    ensures !CheckClause(guard, amount).0 ==> CheckClause(guard, amount).1 == RiskAlert(amount, guard.maxCap)
    ensures CheckClause(guard, amount).0 ==> CheckClause(guard, amount).1 == WithinLimits
  {
  }

  /** Any amount below an allowed amount is allowed too. */
  lemma CheckClauseMonotone(guard: LiabilityGuard, smaller: int, larger: int)
    requires smaller <= larger && CheckClause(guard, larger).0
    ensures CheckClause(guard, smaller).0
  {
  }

  /** The alert shows both amounts: with the grouping commas taken out, the
      text is the amount's decimal digits and then the cap's. */
  lemma RiskAlertDigits(amount: nat, maxCap: nat)
    ensures RemoveChar(RiskAlert(amount, maxCap), ',')
         == "Risk Alert: Cap $" + Digits(amount) + " exceeds policy $" + Digits(maxCap)
  {
    GroupedIsDigits(amount);
    GroupedIsDigits(maxCap);
    RemoveCharFrame("Risk Alert: Cap $", GroupedNat(amount), " exceeds policy $", GroupedNat(maxCap), ',');
  }

  lemma GroupedMillions()
    ensures Grouped(500000) == "500,000"
    ensures Grouped(1000000) == "1,000,000"
    ensures Grouped(5000000) == "5,000,000"
  {
    assert Digits(500) == "500" by {
      assert Digits(5) == "5";
      assert Digits(50) == "50";
    }
    assert Pad3(0) == "000";
    assert Grouped(1000) == "1,000";
    assert Grouped(5000) == "5,000";
  }

  /** The exercise's policy of $1,000,000: the standard cap and the edge
      case pass, the high-risk cap is refused. */
  lemma PolicyDemo()
    ensures CheckClause(LiabilityGuard(1000000), 500000) == (true, WithinLimits)
    ensures CheckClause(LiabilityGuard(1000000), 1000000) == (true, WithinLimits)
    ensures CheckClause(LiabilityGuard(1000000), 5000000)
         == (false, RiskAlert(5000000, 1000000))
    ensures RiskAlert(5000000, 1000000) == "Risk Alert: Cap $" + "5,000,000" + " exceeds policy $" + "1,000,000"
  {
    GroupedMillions();
  }
}
