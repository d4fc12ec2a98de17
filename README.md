# QWED learning: verified models of the course's guards and calculators

This project models the executable core of the QWED course material in Dafny and proves what each piece promises. The core has four parts:

- **Course certificates.** `QWEDCertificateIssuer` builds a W3C Verifiable Credential for a course completion. It publishes a DID document whose RSA public key is a JWK, with the key's numbers Base64url-encoded. `QWEDCertificateVerifier` runs an ordered chain of checks on a credential, or on a decoded JWT.
- **Module 3 examples.**
  - `EcommercePricingEngine`: a verified or fallback final price, an itemised breakdown, bulk-discount tier selection and two counters.
  - `HIPAACompliantDosageCalculator`: a weight-based dosage with an optional cap, and an audit log that the calculator only ever appends to and that can be filtered per patient.
  - `FinancialCalculator`: compound interest, and a loan payment with a closed-form fallback, plus two counters.
  - `FinancialAssistant`: input validation and the 43% debt-to-income rule.
- **Module 11 legal guards.** The citation format-and-allow-list check, the liability cap, payment-term consistency, the jurisdiction deadline table, and the capstone audit report that combines them.
- **Python semantics these files rely on** (module `Values`):
  - dictionaries as ordered association lists;
  - `in` and `dict.get`, with the `TypeError` and `AttributeError` they raise;
  - `str()` and `repr()`, and `f"{n:,}"`;
  - `datetime.replace`, `isoformat()` and `strftime` fields (module `Calendar`);
  - Base64url of section 5 of RFC 4648 (module `Base64Url`).

The model is shaped like the source:

- **Classes where the source mutates state.**
  - `PricingEngine`, `Calculator` and `DosageCalculator` are classes with counters or an audit log, and methods that say exactly how those change.
  - `_sign_credential` works in place on a `JsonDict` object.
  - `audit_contract` builds its report in a loop.
- **Functions and lemmas for the pure parts.**
- **The foreign pieces are inputs.** These are the external QWED verifier (`verify_math` / `verify_logic`), the clocks, SHA-256, JSON canonicalisation and RSA signing. A verifier call is a `Call`: either `Returned(QwedResult)` or `Raised(message)`.

Each operation is tied to an independent description by an all-inputs lemma:

- a reference selection rule for the bulk tiers;
- an amortisation schedule for the loan fallback;
- decode for encode;
- a predicate `Accepts` for the verifier;
- filter laws for the audit trail.

## Model

| member | source | states |
|---|---|---|
| Values.ContainsGetAgree | verifier/qwed_certificate_verifier.py:40-53 | On a dict, `key in d` holds exactly when a value is stored, and `.get` then returns it, else the default. A value `in` rejects raises TypeError and has no `.get`. `.get` raises AttributeError exactly on a non-dict. |
| Values.LookupSetItem | issuer/qwed_certificate_issuer.py:141-142 | After `d[key] = value` the key maps to the value and every other key is as before. |
| Values.LookupRemove | issuer/qwed_certificate_issuer.py:124 | What `pop` leaves has no entry for the key and the same entry for every other key. |
| Values.GetOrSpec | verifier/qwed_certificate_verifier.py:52-53 | `get` returns the first stored value when the key is present, else the default. |
| Values.GetOrSetItem | issuer/qwed_certificate_issuer.py:141-142 | Assigning one key leaves the membership and `get` of every other key unchanged. |
| Values.LookupSpec | issuer/qwed_certificate_issuer.py:124 | A lookup finds a value exactly when the key is present, and it is the first entry's value. |
| Values.GroupedIsDigits | module-11-legal-auditor/exercises/ex3_liability_guard.py:16 | Removing the commas of `f"{n:,}"` leaves the decimal digits of n. |
| Values.DecimalStringInjective | module-11-legal-auditor/exercises/ex4_clause_guard.py:12 | `str()` of ints is injective, so a message built from it identifies the numbers. |
| Values.DigitsRoundTrip | issuer/qwed_certificate_issuer.py:98 | Decimal digits read back as the number. |
| Base64Url.Symbol | issuer/qwed_certificate_issuer.py:64 | Every symbol is in the URL-safe alphabet of section 5 of RFC 4648. |
| Base64Url.SymbolInjective | issuer/qwed_certificate_issuer.py:64 | Reading a symbol back gives its 6-bit value. |
| Base64Url.SextetsLength | issuer/qwed_certificate_issuer.py:64 | n octets give 4·(n div 3) sextets plus 0, 2 or 3. |
| Base64Url.OctetsOfSextets | issuer/qwed_certificate_issuer.py:64 | Regrouping the sextets into octets gives back the octets. |
| Base64Url.EncodeNoPadIsSymbols | issuer/qwed_certificate_issuer.py:64 | `rstrip('=')` removes exactly the padding the encoder appended. |
| Base64Url.EncodeNoPadShape | issuer/qwed_certificate_issuer.py:64 | The published text has only URL-safe symbols, no `=`, and length 4·(n div 3) plus 0, 2 or 3. |
| Base64Url.EncodeLength | issuer/qwed_certificate_issuer.py:64 | The padded encoding's length is a multiple of four. |
| Base64Url.EncodePadding | issuer/qwed_certificate_issuer.py:64 | The decoder finds exactly the encoder's padding. |
| Base64Url.DecodeEncode | issuer/qwed_certificate_issuer.py:64 | Decoding inverts encoding. |
| Base64Url.EncodeNoPadRoundTrip | issuer/qwed_certificate_issuer.py:138 | Re-padding and decoding the unpadded text gives back the octets. |
| Base64Url.BitLengthBounds | issuer/qwed_certificate_issuer.py:62 | `bit_length` is the least k with n < 2^k. |
| Base64Url.FromToBytes | issuer/qwed_certificate_issuer.py:63 | `to_bytes(len, 'big')` of n reads back as n when n fits. |
| Base64Url.ToBytesLeading | issuer/qwed_certificate_issuer.py:63 | With the minimal length, the first octet is non-zero. |
| Base64Url.MinimalOctets | issuer/qwed_certificate_issuer.py:62 | `(bit_length + 7) // 8` octets hold n, and one octet fewer do not. |
| Base64Url.IntToBase64Url | issuer/qwed_certificate_issuer.py:58-64 | A negative int raises; every other int encodes. |
| Base64Url.IntToBase64UrlAlphabet | issuer/qwed_certificate_issuer.py:58-64 | The output has no `=` and only URL-safe characters. |
| Base64Url.IntToBase64UrlRoundTrip | issuer/qwed_certificate_issuer.py:62-64 | Re-padded and decoded, the output is ceil(bit_length/8) big-endian octets whose value is num; for num > 0 the first octet is non-zero. |
| Base64Url.IntToBase64UrlLength | issuer/qwed_certificate_issuer.py:62-64 | For n octets the output length is 4·(n div 3) plus 0, 2 or 3. |
| Base64Url.IntToBase64UrlZero | issuer/qwed_certificate_issuer.py:62-64 | As written, 0 encodes as "", which decodes to no octets at all. |
| Base64Url.Base64UrlUIntRoundTrip | issuer/qwed_certificate_issuer.py:62-64 | The corrected Base64urlUInt decodes to at least one octet, with value num and no superfluous leading zero. |
| Base64Url.Base64UrlUIntAgrees | issuer/qwed_certificate_issuer.py:58-64 | The corrected encoding equals the issuer's on every positive int. |
| Calendar.AddYears | issuer/qwed_certificate_issuer.py:154-160 | `_add_years` yields a valid date whenever it succeeds. |
| Calendar.AddYearsFails | issuer/qwed_certificate_issuer.py:154-160 | It fails exactly when the target year leaves 1..9999, with Python's ValueError message. |
| Calendar.AddYearsFields | issuer/qwed_certificate_issuer.py:154-160 | Same month and time of day; same day, except that Feb 29 landing in a common year becomes Feb 28. |
| Calendar.AddYearsDayChanges | issuer/qwed_certificate_issuer.py:157-160 | The day changes exactly for Feb 29 into a common year. |
| Calendar.AddZeroYears | issuer/qwed_certificate_issuer.py:158 | Adding zero years changes nothing. |
| Calendar.ZeroPadFits | issuer/qwed_certificate_issuer.py:98 | A zero-padded field has exactly w digits and reads back as its value. |
| Calendar.IsoFormatFields | issuer/qwed_certificate_issuer.py:98-99 | `isoformat()` puts each field at a fixed position, where it reads back as the field's value. The text is 19 characters, or 26 with microseconds. |
| CertificateIssuer.PublicKeyJwkFields | issuer/qwed_certificate_issuer.py:44-56 | The JWK is an RSA RS256 signing key named `did:web:<domain>#key-1`. Its `n` and `e` are `_int_to_base64url` of the key's positive numbers, which is also their Base64urlUInt text. |
| CertificateIssuer.PublicKeyJwkNumbers | issuer/qwed_certificate_issuer.py:54-55 | `n` and `e` decode to ceil(bit_length/8) octets, the first non-zero, whose big-endian value is the key's number. |
| CertificateIssuer.DidDocumentFields | issuer/qwed_certificate_issuer.py:66-74 | The DID document's id is the issuer DID. It lists the JWK and authenticates and asserts with `#key-1`. |
| CertificateIssuer.LowerHex | issuer/qwed_certificate_issuer.py:151 | `hexdigest` has two characters per octet. |
| CertificateIssuer.LowerHexDigits | issuer/qwed_certificate_issuer.py:151 | Every character is a lowercase hex digit. |
| CertificateIssuer.CredentialIdFormat | issuer/qwed_certificate_issuer.py:146-152 | The id is `urn:qwed:credential:<user>:` followed by the 16 hex digits of the digest's first 8 octets. |
| CertificateIssuer.SignedCredentialFails | issuer/qwed_certificate_issuer.py:121-144 | Signing fails with KeyError('proof') exactly when there is no proof. It fails at all exactly when proof is missing or not a dict. |
| CertificateIssuer.SignedCredentialFields | issuer/qwed_certificate_issuer.py:121-144 | Every field other than proof survives unchanged. proof keeps its fields, and its signatureValue is the unpadded Base64url of the signature over the canonical text of the credential without proof. |
| CertificateIssuer.SignedCredentialIdempotent | issuer/qwed_certificate_issuer.py:121-144 | Signing an already signed credential changes nothing. |
| CertificateIssuer.SignedUnique | issuer/qwed_certificate_issuer.py:124-142 | Signing keeps the dictionary's keys distinct. |
| CertificateIssuer.JsonDict.Pop | issuer/qwed_certificate_issuer.py:124 | `pop` returns the value and removes the key, or raises KeyError and changes nothing. |
| CertificateIssuer.JsonDict.Put | issuer/qwed_certificate_issuer.py:142 | `d[key] = value` sets the key and keeps the keys distinct. |
| CertificateIssuer.SignCredential | issuer/qwed_certificate_issuer.py:121-144 | Works in place and returns the same object, whose entries become the signed credential. On failure the error matches, and the proof is already popped. |
| CertificateIssuer.SubjectFields | issuer/qwed_certificate_issuer.py:100-109 | The subject names `did:github:<user>`, the user, the course, the date and the module count. |
| CertificateIssuer.UnsignedProofFields | issuer/qwed_certificate_issuer.py:110-115 | The unsigned proof is an RsaSignature2018 made at the given time, pointing at `#key-1`. |
| CertificateIssuer.UnsignedCredentialFields | issuer/qwed_certificate_issuer.py:90-116 | The unsigned credential has both contexts, both types, the id, the issuer, the two dates, the subject and an empty proof. |
| CertificateIssuer.IssueCertificate | issuer/qwed_certificate_issuer.py:76-119 | The method returns a fresh signed dictionary equal to `IssuedCredential`, or its error. |
| CertificateIssuer.IssuedCredentialFails | issuer/qwed_certificate_issuer.py:98-99 | Issuing fails only when the expiry year would pass 9999, with that ValueError. |
| CertificateIssuer.IssuedCredentialFields | issuer/qwed_certificate_issuer.py:90-119 | The issued credential is issued by `did:web:<domain>`, has the course-completion type, the subject, the `Z`-suffixed dates and a signed proof. |
| CertificateVerifier.Check | verifier/qwed_certificate_verifier.py:38-59 | The checks run in source order, and an Err is an escaping exception. |
| CertificateVerifier.VerifyCredentialAccepts | verifier/qwed_certificate_verifier.py:34-62 | `verify_credential` answers True exactly for the credentials `Accepts` describes: a dict with the four fields, the trusted issuer, the course type and a subject certifying 11. |
| CertificateVerifier.VerifyCredentialOrder | verifier/qwed_certificate_verifier.py:40-59 | The first failing check decides the message: missing fields, then issuer, then type, then module count; otherwise the message is the verified text with the name. |
| CertificateVerifier.MissingIssuer | verifier/qwed_certificate_verifier.py:44-45 | The issuer is not a required field, so without it the answer is "Unknown issuer: None". |
| CertificateVerifier.NotIterableReported | verifier/qwed_certificate_verifier.py:61-62 | A credential that does not support `in` is reported as a verification error, not raised. |
| CertificateVerifier.NoGetReported | verifier/qwed_certificate_verifier.py:44-62 | A list or string passing the presence test fails at `.get`, and this is reported. |
| CertificateVerifier.ProofIgnored | verifier/qwed_certificate_verifier.py:56-59 | The answer does not depend on what `proof` holds. |
| CertificateVerifier.AllPresentDict | verifier/qwed_certificate_verifier.py:40 | On a dict, `all(field in credential …)` is "all four keys present". |
| CertificateVerifier.VerifyJwtCredentialResult | verifier/qwed_certificate_verifier.py:64-78 | The flag equals the dictionary's `valid`. A decode error is never valid and quotes the error. Otherwise the flag is `Accepts` of `vc`, and a missing `vc` is "Missing required fields". |
| Acceptance.IssuedIsVerified | verifier/qwed_certificate_verifier.py:34-59 | A credential issued with 11 modules is verified for `did:web:<domain>` and names the user. |
| Acceptance.IssuedWithFewerModules | verifier/qwed_certificate_verifier.py:53-54 | An issued credential with any other module count is refused, and the message names the count. |
| Acceptance.IssuedForOtherIssuer | verifier/qwed_certificate_verifier.py:44-45 | A verifier that trusts another DID refuses the credential and names the real issuer. |
| Acceptance.DefaultsAgree | verifier/qwed_certificate_verifier.py:11 | The DID the default issuer publishes is the DID the default verifier trusts. |
| Acceptance.VerifyShape | verifier/qwed_certificate_verifier.py:44-59 | The verifier's answer on any dictionary with the issued shape. |
| CitationGuard.SearchSpec | module-11-legal-auditor/exercises/ex5_citation_guard.py:23 | The scan finds the first position where `.+ v\. .+` matches, and finds one exactly when one exists. |
| CitationGuard.SearchShape | module-11-legal-auditor/exercises/ex5_citation_guard.py:23 | `re.search` succeeds exactly on texts with the citation shape. |
| CitationGuard.FormatFirst | module-11-legal-auditor/exercises/ex5_citation_guard.py:23-24 | The format check runs first: without the shape, the answer is the invalid-format message. |
| CitationGuard.RealCasesHaveShape | module-11-legal-auditor/exercises/ex5_citation_guard.py:11-24 | Every listed case passes the format check. |
| CitationGuard.VerifiedIffListed | module-11-legal-auditor/exercises/ex5_citation_guard.py:18-30 | True exactly for the four listed strings, by exact comparison. A well-formed unlisted citation gets the hallucination warning. |
| CitationGuard.MataIsHallucinated | module-11-legal-auditor/exercises/ex5_citation_guard.py:41 | "Mata v. Avianca" is well-formed but gets the hallucination warning. |
| CitationGuard.ProseIsMalformed | module-11-legal-auditor/exercises/ex5_citation_guard.py:46 | "The case about the airline" fails the format check. |
| LiabilityGuard.CheckClauseAllows | module-11-legal-auditor/exercises/ex3_liability_guard.py:14-17 | The clause is allowed exactly when amount ≤ cap. A refusal carries the risk alert. |
| LiabilityGuard.CheckClauseMonotone | module-11-legal-auditor/exercises/ex3_liability_guard.py:15 | Every amount below an allowed one is allowed. |
| LiabilityGuard.RiskAlertDigits | module-11-legal-auditor/exercises/ex3_liability_guard.py:16 | Without its grouping commas, the alert names both amounts in decimal. |
| LiabilityGuard.GroupedMillions | module-11-legal-auditor/exercises/ex3_liability_guard.py:16-28 | `f"{n:,}"` of 500000, 1000000 and 5000000. |
| LiabilityGuard.PolicyDemo | module-11-legal-auditor/exercises/ex3_liability_guard.py:22-34 | Under the $1,000,000 policy: the standard cap is allowed, the edge case equal to the cap is allowed, and the high-risk cap is refused with its alert. |
| ClauseGuard.VerifyPaymentTermsIff | module-11-legal-auditor/exercises/ex4_clause_guard.py:8-14 | The terms are consistent exactly when they are equal; otherwise the contradiction message is returned. |
| ClauseGuard.VerdictSymmetric | module-11-legal-auditor/exercises/ex4_clause_guard.py:11 | The verdict does not depend on the order of the clauses. |
| ClauseGuard.VerdictReflexive | module-11-legal-auditor/exercises/ex4_clause_guard.py:11-14 | A term always agrees with itself. |
| ClauseGuard.ContradictionNamesTerms | module-11-legal-auditor/exercises/ex4_clause_guard.py:12 | The message identifies both terms in order: distinct pairs give distinct messages. |
| ClauseGuard.PaymentTermsDemo | module-11-legal-auditor/exercises/ex4_clause_guard.py:26-31 | 30/30 is consistent; 30/90 is a contradiction. |
| DeadlineGuard.VerifyByJurisdiction | module-11-legal-auditor/exercises/ex2_deadline_guard.py:19-29 | The UK expects 2024-01-05 and the US 2024-01-04; any expected date elsewhere is missed. |
| DeadlineGuard.VerifyIgnoresStart | module-11-legal-auditor/exercises/ex2_deadline_guard.py:14-29 | Only the jurisdiction and the expected date matter. |
| DeadlineGuard.MissedMessageMentions | module-11-legal-auditor/exercises/ex2_deadline_guard.py:29 | A miss names the expected date, then the jurisdiction, then the table's date, at fixed positions. |
| DeadlineGuard.DeadlineDemo | module-11-legal-auditor/exercises/ex2_deadline_guard.py:40-56 | The US check passes; the UK check misses. |
| LegalAuditor.AuditContract | module-11-legal-auditor/exercises/capstone_contract_verifier.py:19-48 | The report has one entry per citation (its guard message), then the liability, clause and deadline messages. |
| LegalAuditor.ReportMessages | module-11-legal-auditor/exercises/capstone_contract_verifier.py:25-48 | The entries are: the hallucination warning, the verified citation, the $5,000,000 alert, Net 30 vs Net 90, and the UK deadline miss. |
| LegalAuditor.FailingChecks | module-11-legal-auditor/exercises/capstone_contract_verifier.py:25-48 | Four of the five checks fail. |
| EcommercePricing.FallbackBreakdownAddsUp | module-3-hands-on/examples/ecommerce_pricing.py:124-146 | The fallback's breakdown adds up: the amount after discount is subtotal·(1−d/100), and final = after discount + shipping + tax. |
| EcommercePricing.FinalPriceCases | module-3-hands-on/examples/ecommerce_pricing.py:79-122 | A verified price is the verifier's, with confidence 100. An unverified price is the formula, with confidence 0 and the warning. A verifier exception gives an error. An unverified price or an exception counts as a pricing error. The breakdown carries the final price. |
| EcommercePricing.PricingEngine.CalculateFinalPrice | module-3-hands-on/examples/ecommerce_pricing.py:43-122 | Every call counts. Unverified results and exceptions are also pricing errors. The result is `FinalPrice`. |
| EcommercePricing.SortSpec | module-3-hands-on/examples/ecommerce_pricing.py:165 | The sort orders tiers by descending `min_qty` and is a permutation. |
| EcommercePricing.InsertMultiset | module-3-hands-on/examples/ecommerce_pricing.py:165 | Each stable-sort step keeps every tier. |
| EcommercePricing.InsertSorted | module-3-hands-on/examples/ecommerce_pricing.py:165 | Each stable-sort step keeps the order. |
| EcommercePricing.BestTierSpec | module-3-hands-on/examples/ecommerce_pricing.py:163-171 | The reference picks an applicable tier with the largest `min_qty`, the earliest among equals, and none only when no tier applies. |
| EcommercePricing.SortedFirstIsBest | module-3-hands-on/examples/ecommerce_pricing.py:164-168 | The first applicable tier of the sorted list is the reference choice. |
| EcommercePricing.PricingEngine.ValidateBulkDiscountTier | module-3-hands-on/examples/ecommerce_pricing.py:148-190 | The loop returns the reference tier's discount and `min_qty` with the verifier's verdict and method. With no tier it returns "no tier" without consulting the verifier. |
| EcommercePricing.ExampleTiers | module-3-hands-on/examples/ecommerce_pricing.py:232-244 | Quantities 5, 15 and 75 get the 0%, 5% and 10% tiers. |
| EcommercePricing.PricingEngine.Stats | module-3-hands-on/examples/ecommerce_pricing.py:192-199 | The accuracy rate is in 0..100, equals 100 exactly without errors, and is 0 when every calculation erred. |
| HealthcareDosage.AuditIdShape | module-3-hands-on/examples/healthcare_dosage.py:174 | An audit id is "AUD-" followed by 20 digits. |
| HealthcareDosage.CapDosageSpec | module-3-hands-on/examples/healthcare_dosage.py:113-118 | The dosage is capped exactly when a truthy maximum is exceeded, and then equals the maximum. A truthy maximum is never exceeded. |
| HealthcareDosage.DosageFailures | module-3-hands-on/examples/healthcare_dosage.py:93-156 | An exception or an unverified result raises SafetyError with its message and logs exactly one unverified entry, which has no dosage and carries the error. |
| HealthcareDosage.DosageSuccess | module-3-hands-on/examples/healthcare_dosage.py:110-142 | A success logs one verified entry, whose dosage and audit id are the returned ones. The confidence is 100 and the dosage is the capped verifier value. |
| HealthcareDosage.DosagePiiNotDict | module-3-hands-on/examples/healthcare_dosage.py:124-156 | When `pii_masked` is not a dict, the success entry is already logged before `.get` fails, so a failed entry follows it. |
| HealthcareDosage.DosageCalculator.LogAuditEvent | module-3-hands-on/examples/healthcare_dosage.py:158-190 | Appends exactly the new entry and returns it. |
| HealthcareDosage.DosageCalculator.CalculateWeightBasedDosage | module-3-hands-on/examples/healthcare_dosage.py:54-156 | The result is `DosageOutcome`. The log only grows, by exactly the outcome's entries. |
| HealthcareDosage.DosageCalculator.GetAuditTrail | module-3-hands-on/examples/healthcare_dosage.py:192-196 | A falsy name gives the whole log. Otherwise the trail is the log filtered to that patient's entries in log order, so it holds exactly those entries. |
| HealthcareDosage.EventsForMembers | module-3-hands-on/examples/healthcare_dosage.py:195 | The filter keeps exactly the entries of the patient. |
| HealthcareDosage.EventsForAppend | module-3-hands-on/examples/healthcare_dosage.py:195 | The filter keeps log order: filtering a concatenation concatenates the filtered parts. |
| HealthcareDosage.TrailAfterLogging | module-3-hands-on/examples/healthcare_dosage.py:185-195 | A patient's trail after a calculation is the old trail followed by that calculation's entries. |
| HealthcareDosage.OutcomeEntriesBelongToPatient | module-3-hands-on/examples/healthcare_dosage.py:96-155 | Every appended entry names the patient. |
| FinancialCalculator.PowIsOne | module-3-hands-on/examples/financial_calculator.py:152-153 | An even float power fails or equals 1 exactly for power 0, base ±1, or a negative power of 0. |
| FinancialCalculator.FallbackFails | module-3-hands-on/examples/financial_calculator.py:150-153 | The fallback raises ZeroDivisionError exactly for rate 0, term 0, rate −2400%, or rate −1200% over a negative term. |
| FinancialCalculator.FallbackAmortizes | module-3-hands-on/examples/financial_calculator.py:150-153 | The fallback is the level payment: after 12·years payments the balance is 0. |
| FinancialCalculator.BalanceClosedForm | module-3-hands-on/examples/financial_calculator.py:152-153 | The balance after k payments obeys b·r = P·g·r − m·(g−1), where g = (1+r)^k. |
| FinancialCalculator.FallbackCoversInterest | module-3-hands-on/examples/financial_calculator.py:150-153 | For a positive principal, rate and term, the payment exceeds one month's interest. |
| FinancialCalculator.CompoundInterestCases | module-3-hands-on/examples/financial_calculator.py:87-106 | The result is returned only when verified, with the verifier's value and confidence. An unverified result raises VerificationError. An exception propagates. |
| FinancialCalculator.LoanPaymentCases | module-3-hands-on/examples/financial_calculator.py:136-160 | A verified result has confidence 100. An unverified one is the fallback with confidence 0, or its arithmetic error. |
| FinancialCalculator.Calculator.CompoundInterest | module-3-hands-on/examples/financial_calculator.py:56-106 | The count moves only after the verifier returns, and failures only when it is unverified. The invariant failures ≤ count is kept. |
| FinancialCalculator.Calculator.LoanPayment | module-3-hands-on/examples/financial_calculator.py:108-160 | Same counters and invariant as compound interest. The result is `LoanPaymentResult`. |
| FinancialCalculator.Calculator.Stats | module-3-hands-on/examples/financial_calculator.py:162-169 | The success rate is 0 before any calculation, lies in 0..100, equals 100 exactly without failures, and is 0 when all failed. |
| FinancialCalculator.FailuresWithinCount | module-3-hands-on/examples/financial_calculator.py:88-147 | A failure is only ever counted together with its calculation. |
| FinancialAssistant.ValidateInputsAccepts | module-3-hands-on/examples/financial_assistant.py:75-86 | The inputs are valid exactly when income > 0, loan > 0, 0 < rate ≤ 100 and 1 ≤ years ≤ 30. |
| FinancialAssistant.ValidateInputsFirstReason | module-3-hands-on/examples/financial_assistant.py:77-84 | The reason is that of the first failing check, in the order income, loan, rate, term. |
| FinancialAssistant.MonthlyPaymentSpec | module-3-hands-on/examples/financial_assistant.py:116-128 | A payment exists exactly for a verified result, and it is the verifier's value. |
| FinancialAssistant.InvalidRejected | module-3-hands-on/examples/financial_assistant.py:47-49 | Invalid inputs are rejected with their reason, whatever the verifier would say. |
| FinancialAssistant.UnverifiedRejected | module-3-hands-on/examples/financial_assistant.py:56-57 | Without a verified payment, the answer is "Payment calculation failed". |
| FinancialAssistant.DebtToIncomeBound | module-3-hands-on/examples/financial_assistant.py:60-63 | For a positive income, DTI ≤ 43 exactly when payment·1200 ≤ 43·income. |
| FinancialAssistant.AssessedSpec | module-3-hands-on/examples/financial_assistant.py:29-73 | An assessment is made exactly for valid inputs with a verified payment. It is verified, has max_dti 43, and echoes the income and loan. It is eligible exactly when payment·1200 ≤ 43·income. |
| FinancialAssistant.BoundaryEligible | module-3-hands-on/examples/financial_assistant.py:63 | A payment of exactly 43% of the monthly income is eligible: the boundary is inclusive. |

## Left out

- RSA key generation and loading, PEM files, JWT encoding and decoding, and the network fetch of the DID document: cryptography and I/O. `jwt.decode` is its outcome (a payload or an error message), and `create_jwt_credential` is not modelled.
- SHA-256, `json.dumps(sort_keys=True)` and RSA signing are abstract function parameters; the UTF-8 encoding is folded into them.
- `datetime.utcnow()`, `datetime.now()` and `timestamp()` are parameters: the issuer's clock readings, and two readings per audit entry.
- Floating point: prices, rates and dosages are exact reals, and `round(x, 2)` is dropped. The money amounts in the guards are whole ints. OverflowError of `(1+r)**n` is not modelled.
- JSON numbers inside credentials are ints only, so `11.0 == 11` and `True == 1` are not distinguished.
- Logging, `print`, the `__main__` demos and the query texts the verifier receives. The capstone's closing "2 Issues Found" literal is not modelled; `FailingChecks` shows four failing checks.
- The external QWED verifier is not modelled: its answer is an input. `dosage_per_kg` and the financial inputs only enter its query.
- module-11-legal-auditor/exercises/ex1_hallucination_demo.py and generate_keys.py are not part of this model.
- HealthcareDosage.AuditId: `%Y` is modelled zero-padded to four digits. Python's output for years below 1000 depends on the platform.
- CertificateIssuer.Issuer: the key's modulus and exponent are positive, as RSA numbers are, so the zero case of `_int_to_base64url` (see Findings) never reaches the JWK.
- HealthcareDosage.DosageCalculator.GetAuditTrail: the source returns the live `audit_log` list and, filtered, the live entry dicts. A caller could therefore append to, clear or edit the log. The model returns an immutable copy, so "the log only grows" holds only for the calculator's own methods.
- EcommercePricing.PricingEngine.ValidateBulkDiscountTier: tiers are records with an int `min_qty` and a real `discount_percent`. Three errors of the source are not modelled: the KeyError of a tier without `min_qty` in the sort key at line 165, the KeyError of a tier without `discount_percent` at line 178 before the verifier is called, and the TypeError for `min_qty` values that cannot be compared.
- `repr` of dictionaries and lists inside `str()` follows Python's quoting and escaping for ASCII text only; non-printable non-ASCII characters are not escaped as Python would.

## Findings

| source | as written | input that shows it | evidently intended | confidence | as-written member | corrected member |
|---|---|---|---|---|---|---|
| issuer/qwed_certificate_issuer.py:62-64 | `_int_to_base64url(0)` has `bit_length` 0, encodes no octets and returns "" | num = 0, in a direct call: `get_public_key_jwk` never passes 0, since RSA numbers are positive | Base64urlUInt of section 2 of RFC 7518: zero is the single octet 0, "AA" | not executed | Base64Url.IntToBase64UrlZero | Base64Url.Base64UrlUInt |
