/**
 * `MockDeadlineGuard.verify` of the deadline exercise: a fixed table gives
 * the end date per jurisdiction, and the expected date must equal it.
 * Start date and day count are accepted but not used.
 */
module DeadlineGuard {
  import opened Values

  const DeadlineCorrect: string := "✅ Deadline Correct"

  /** `real_end_date` after the `if/elif`: None outside the UK and the US. */
  function RealEndDate(jurisdiction: string): Option<string> {
    if jurisdiction == "UK" then Some("2024-01-05")
    else if jurisdiction == "US" then Some("2024-01-04")
    else None
  }

  /** `f"❌ Deadline Missed. Expected {expected_end_date}, but {jurisdiction} calendar says {real_end_date}"` */
  function DeadlineMissed(expected: Option<string>, jurisdiction: string): string {
    "❌ Deadline Missed. Expected " + OptStr(expected) + ", but " + jurisdiction + " calendar says "
    + OptStr(RealEndDate(jurisdiction))
  }

  /** `verify(start_date, days, jurisdiction, expected_end_date)`; the
      expected date is a string or None. */
  function Verify(startDate: string, days: int, jurisdiction: string, expected: Option<string>): (bool, string) {
    if expected == RealEndDate(jurisdiction) then (true, DeadlineCorrect)
    else (false, DeadlineMissed(expected, jurisdiction))
  }

  /** Per jurisdiction: the UK wants 2024-01-05, the US 2024-01-04, and
      anywhere else no date string is ever right. */
  lemma VerifyByJurisdiction(startDate: string, days: int, jurisdiction: string, expected: Option<string>)
    ensures jurisdiction == "UK" ==> (Verify(startDate, days, jurisdiction, expected).0 <==> expected == Some("2024-01-05"))
    ensures jurisdiction == "US" ==> (Verify(startDate, days, jurisdiction, expected).0 <==> expected == Some("2024-01-04"))
    ensures jurisdiction != "UK" && jurisdiction != "US" && expected.Some? ==> !Verify(startDate, days, jurisdiction, expected).0
  {
  }

  /** Only the jurisdiction and the expected date matter. */
  lemma VerifyIgnoresStart(s1: string, d1: int, s2: string, d2: int, jurisdiction: string, expected: Option<string>)
    ensures Verify(s1, d1, jurisdiction, expected) == Verify(s2, d2, jurisdiction, expected)
  {
  }

  /** A miss names the expected date, then the jurisdiction, then the table's date. */
  lemma MissedMessageMentions(expected: Option<string>, jurisdiction: string)
    ensures var m := DeadlineMissed(expected, jurisdiction);
      var e, t := OptStr(expected), OptStr(RealEndDate(jurisdiction));
      var i, j, k := 28, 28 + |e| + 6, 28 + |e| + 6 + |jurisdiction| + 15;
      && OccursAt(e, m, i) && OccursAt(jurisdiction, m, j) && OccursAt(t, m, k) && k + |t| == |m|
  {
    var e, t := OptStr(expected), OptStr(RealEndDate(jurisdiction));
    var a, b, c := "❌ Deadline Missed. Expected ", ", but ", " calendar says ";
    assert |a| == 28 && |b| == 6 && |c| == 15;
    Pieces(a, e, b, jurisdiction, c, t);
  }

  /** Where the pieces of `a + e + b + j + c + t` sit. */
  lemma Pieces(a: string, e: string, b: string, j: string, c: string, t: string)
    ensures var m := a + e + b + j + c + t;
      && OccursAt(e, m, |a|)
      && OccursAt(j, m, |a| + |e| + |b|)
      && OccursAt(t, m, |a| + |e| + |b| + |j| + |c|)
      && |a| + |e| + |b| + |j| + |c| + |t| == |m|
  {
    var m := a + e + b + j + c + t;
    assert m[|a|..|a| + |e|] == e;
    assert m[|a| + |e| + |b|..|a| + |e| + |b| + |j|] == j;
    assert m[|a| + |e| + |b| + |j| + |c|..] == t;
  }

  /** The exercise's two checks of "3 business days after 2024-01-01". */
  lemma DeadlineDemo()
    ensures Verify("2024-01-01", 3, "US", Some("2024-01-04")) == (true, DeadlineCorrect)
    ensures Verify("2024-01-01", 3, "UK", Some("2024-01-04"))
         == (false, "❌ Deadline Missed. Expected " + "2024-01-04" + ", but " + "UK" + " calendar says " + "2024-01-05")
  {
  }
}
