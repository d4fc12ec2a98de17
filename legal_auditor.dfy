/**
 * `audit_contract` of the legal-auditor capstone: runs the four guards on
 * inputs fixed in the script (the contract text is never read) and builds
 * the report, one message per citation and then one each for liability,
 * payment terms and deadline.
 */
module LegalAuditor {
  import opened Values
  import CitationGuard
  import LiabilityGuard
  import ClauseGuard
  import DeadlineGuard

  /** The citations the script "finds". */
  const Citations: seq<string> := ["Mata v. Avianca", "Roe v. Wade"]

  function LiabilityMessage(): string {
    LiabilityGuard.CheckClause(LiabilityGuard.LiabilityGuard(1000000), 5000000).1
  }

  function ClauseMessage(): string {
    ClauseGuard.VerifyPaymentTerms(30, 90).1
  }

  function DeadlineMessage(): string {
    DeadlineGuard.Verify("2024-01-01", 3, "UK", Some("2024-01-04")).1
  }

  /** `audit_contract(contract_text)`: the report list it prints. */
  method AuditContract(contractText: string) returns (report: seq<string>)
    ensures |report| == |Citations| + 3
    ensures forall i :: 0 <= i < |Citations| ==> report[i] == CitationGuard.VerifyCitation(Citations[i]).1
    ensures report[|Citations|] == LiabilityMessage()
    ensures report[|Citations| + 1] == ClauseMessage()
    ensures report[|Citations| + 2] == DeadlineMessage()
  {
    report := [];
    var k := 0;
    while k < |Citations|
      invariant 0 <= k <= |Citations|
      invariant |report| == k
      invariant forall i :: 0 <= i < k ==> report[i] == CitationGuard.VerifyCitation(Citations[i]).1
    {
      var (_, msg) := CitationGuard.VerifyCitation(Citations[k]);
      report := report + [msg];
      k := k + 1;
    }
    var guard := LiabilityGuard.LiabilityGuard(1000000);
    var (_, liability) := LiabilityGuard.CheckClause(guard, 5000000);
    report := report + [liability];
    var (_, clause) := ClauseGuard.VerifyPaymentTerms(30, 90);
    report := report + [clause];
    var (_, deadline) := DeadlineGuard.Verify("2024-01-01", 3, "UK", Some("2024-01-04"));
    report := report + [deadline];
  }

  /** What the report says: the invented case is flagged, Roe v. Wade is
      verified, and the liability, payment-terms and deadline checks all
      report a problem. */
  lemma ReportMessages()
    ensures CitationGuard.VerifyCitation(Citations[0]).1 == CitationGuard.Hallucination
    ensures CitationGuard.VerifyCitation(Citations[1]).1 == CitationGuard.CitationVerified
    ensures LiabilityMessage() == LiabilityGuard.RiskAlert(5000000, 1000000)
    ensures ClauseMessage() == ClauseGuard.Contradiction(30, 90)
    ensures DeadlineMessage() == DeadlineGuard.DeadlineMissed(Some("2024-01-04"), "UK")
  {
    CitationGuard.MataIsHallucinated();
    CitationGuard.VerifiedIffListed("Roe v. Wade");
    LiabilityGuard.PolicyDemo();
  }

  /** Four of the five checks fail. */
  lemma FailingChecks()
    ensures !CitationGuard.VerifyCitation(Citations[0]).0
    ensures CitationGuard.VerifyCitation(Citations[1]).0
    ensures !LiabilityGuard.CheckClause(LiabilityGuard.LiabilityGuard(1000000), 5000000).0
    ensures !ClauseGuard.VerifyPaymentTerms(30, 90).0
    ensures !DeadlineGuard.Verify("2024-01-01", 3, "UK", Some("2024-01-04")).0
  {
    CitationGuard.MataIsHallucinated();
    CitationGuard.VerifiedIffListed("Roe v. Wade");
  }
}
