/**
 * `verify_payment_terms` of the clause exercise: two payment terms, in
 * days, are consistent exactly when they are equal.
 */
module ClauseGuard {
  import opened Values

  const Consistent: string := "✅ Terms are consistent."

  const ContradictionPrefix: string := "❌ CONTRADICTION FOUND: Section 1 says Net "
  const ContradictionMiddle: string := ", but Section 14 says Net "

  /** `f"❌ CONTRADICTION FOUND: Section 1 says Net {a}, but Section 14 says Net {b}."` */
  function Contradiction(a: int, b: int): string {
    ContradictionPrefix + (DecimalString(a) + (ContradictionMiddle + (DecimalString(b) + ".")))
  }

  /** `verify_payment_terms(term_a_days, term_b_days)`. */
  function VerifyPaymentTerms(a: int, b: int): (bool, string) {
    if a != b then (false, Contradiction(a, b)) else (true, Consistent)
  }

  /** Consistent exactly when the terms agree; otherwise the contradiction is reported. */
  lemma VerifyPaymentTermsIff(a: int, b: int)
    ensures VerifyPaymentTerms(a, b).0 <==> a == b
    ensures a != b ==> VerifyPaymentTerms(a, b).1 == Contradiction(a, b)
  {
  }

  /** The verdict does not depend on the order of the two clauses. */
  lemma VerdictSymmetric(a: int, b: int)
    ensures VerifyPaymentTerms(a, b).0 == VerifyPaymentTerms(b, a).0
  {
  }

  /** A term always agrees with itself. */
  lemma VerdictReflexive(a: int)
    ensures VerifyPaymentTerms(a, a) == (true, Consistent)
  {
  }

  /** The contradiction message gives A's days, then B's: different pairs
      of terms give different messages. */
  lemma ContradictionNamesTerms(a: int, b: int, a': int, b': int)
    requires Contradiction(a, b) == Contradiction(a', b')
    ensures a == a' && b == b'
  {
    var q := ContradictionMiddle;
    var x, y := DecimalString(a), DecimalString(a');
    var u, v := DecimalString(b), DecimalString(b');
    StripPrefix(ContradictionPrefix, x + (q + (u + ".")), y + (q + (v + ".")));
    DecimalStringNoComma(a);
    DecimalStringNoComma(a');
    DecimalStringNoComma(b);
    DecimalStringNoComma(b');
    assert (q + (u + "."))[0] == ',';
    assert (q + (v + "."))[0] == ',';
    SplitAtSeparator(x, q + (u + "."), y, q + (v + "."), ',');
    DecimalStringInjective(a, a');
    StripPrefix(q, u + ".", v + ".");
    SplitAtSeparator(u, ".", v, ".", '.');
    DecimalStringInjective(b, b');
  }

  /** The exercise's two scans of a contract. */
  lemma PaymentTermsDemo()
    ensures VerifyPaymentTerms(30, 30) == (true, Consistent)
    ensures VerifyPaymentTerms(30, 90) == (false, Contradiction(30, 90))
    ensures DecimalString(30) == "30" && DecimalString(90) == "90"
  {
    assert Digits(3) == "3" && Digits(9) == "9";
  }
}
