/**
 * `verify_citation` of the citation exercise: a format test with the
 * pattern `.+ v\. .+`, then an exact look-up in a fixed list of real cases.
 */
module CitationGuard {
  import opened Values

  const RealCasesDb: seq<string> :=
    ["Roe v. Wade", "Brown v. Board of Education", "Miranda v. Arizona", "Marbury v. Madison"]

  const InvalidFormat: string := "❌ Invalid Format: Not a proper legal citation format."
  const Hallucination: string := "❌ HALLUCINATION WARNING: Case not found in trusted database."
  const CitationVerified: string := "✅ Citation Verified."

  /** `.` in a Python pattern matches any character but a newline. */
  predicate IsAny(c: char) {
    c != '\n'
  }

  /** The pattern matches with its ` v. ` at position i: one character
      before it and one after it are enough for the two `.+`. */
  predicate MatchesAt(text: string, i: int) {
    && 1 <= i && i + 5 <= |text|
    && text[i] == ' ' && text[i + 1] == 'v' && text[i + 2] == '.' && text[i + 3] == ' '
    && IsAny(text[i - 1]) && IsAny(text[i + 4])
  }

  /** What `re.search(r".+ v\. .+", text)` finding a match means. */
  predicate HasCitationShape(text: string) {
    exists i :: 0 <= i < |text| && MatchesAt(text, i)
  }

  /** The search: the first position from `from` on where the pattern's
      ` v. ` can sit, if any. */
  function Search(text: string, from: nat): (r: Option<nat>)
    decreases |text| - from
  {
    if from + 5 > |text| then None
    else if MatchesAt(text, from) then Some(from)
    else Search(text, from + 1)
  }

  /** The search finds the first match, and finds one exactly when there is one. */
  lemma {:induction false} SearchSpec(text: string, from: nat)
    ensures Search(text, from).Some? ==>
      var k := Search(text, from).value;
      from <= k && MatchesAt(text, k) && forall j :: from <= j < k ==> !MatchesAt(text, j)
    ensures Search(text, from).None? ==> forall j :: from <= j ==> !MatchesAt(text, j)
    decreases |text| - from
  {
    if from + 5 <= |text| && !MatchesAt(text, from) {
      SearchSpec(text, from + 1);
    }
  }

  lemma SearchShape(text: string)
    ensures Search(text, 0).Some? <==> HasCitationShape(text)
  {
    SearchSpec(text, 0);
  }

  /** `verify_citation(citation_text)`. */
  function VerifyCitation(text: string): (bool, string) {
    if Search(text, 0).None? then (false, InvalidFormat)
    else if text !in RealCasesDb then (false, Hallucination)
    else (true, CitationVerified)
  }

  /** The format test comes first: text without the shape is refused as
      malformed, whether or not it is listed. */
  lemma FormatFirst(text: string)
    requires !HasCitationShape(text)
    ensures VerifyCitation(text) == (false, InvalidFormat)
  {
    SearchShape(text);
  }

  /** Every listed case has the citation shape. */
  lemma RealCasesHaveShape(text: string)
    requires text in RealCasesDb
    ensures HasCitationShape(text)
  {
    if text == "Roe v. Wade" {
      assert MatchesAt(text, 3);
    } else if text == "Brown v. Board of Education" {
      assert MatchesAt(text, 5);
    } else if text == "Miranda v. Arizona" {
      assert MatchesAt(text, 7);
    } else {
      assert MatchesAt(text, 7);
    }
  }

  /** A citation is verified exactly when it is, character for character,
      one of the listed cases; otherwise the message says why. */
  lemma VerifiedIffListed(text: string)
    ensures VerifyCitation(text).0 <==> text in RealCasesDb
    ensures VerifyCitation(text).0 ==> VerifyCitation(text).1 == CitationVerified
    ensures HasCitationShape(text) && text !in RealCasesDb ==> VerifyCitation(text) == (false, Hallucination)
  {
    SearchShape(text);
    if text in RealCasesDb {
      RealCasesHaveShape(text);
    }
  }

  /** The famous invented case has the shape but is not listed. */
  lemma MataIsHallucinated()
    ensures VerifyCitation("Mata v. Avianca") == (false, Hallucination)
  {
    assert MatchesAt("Mata v. Avianca", 4);
    VerifiedIffListed("Mata v. Avianca");
  }

  /** Prose without ` v. ` is refused as malformed. */
  lemma ProseIsMalformed()
    ensures VerifyCitation("The case about the airline") == (false, InvalidFormat)
  {
    var text := "The case about the airline";
    forall i | 0 <= i < |text| ensures text[i] != 'v' {
    }
    FormatFirst(text);
  }
}
