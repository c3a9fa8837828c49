/**
 * The decision part of `verifyDocument` in lib/logic.ts. Both names are normalised and
 * compared; when the OCR name is missing or scores below 50 the comparison may be replaced
 * by a perfect self-comparison (the typed name occurs in the text, or, with no text, a stored
 * certificate carries it). Weighted authenticity and eligibility scores then feed two
 * propositions A and E, and the document is allowed exactly when Y = A ∧ E holds.
 */
module Decision {
  import opened Wrappers
  import opened Strings
  import opened Normalize
  import opened Comparator
  import opened DiscreteMath
  import opened Heuristics
  import opened Numeric

  /** The request: the typed name, and the OCR name and text when there are any. */
  datatype VerifyInput = VerifyInput(name: string, extractedName: Option<string>, extractedText: Option<string>)

  datatype FinalDecision = Allowed | Denied

  /** What `verifyDocument` returns, with display strings left out. */
  datatype Verdict = Verdict(
    authenticityPass: bool, authenticityScore: real,
    eligibilityPass: bool, eligibilityScore: real,
    truthA: nat, truthE: nat, truthY: nat, table: seq<Row>,
    setTheory: SetAnalysis, probability: ProbabilityAnalysis,
    combinatorics: CombinatoricsAnalysis, booleanAlgebra: BooleanAnalysis,
    finalDecision: FinalDecision, normalizedInput: string, normalizedExtracted: string,
    nameMatch: NameComparison, documentAnalysis: DocumentAnalysis, eligibilityFactors: seq<Factor>)

  // ---------------------------------------------------------------------------
  // The fallback strategies
  // ---------------------------------------------------------------------------

  /** `certs.find(cert => cert.name && normalizeName(cert.name) === normInput)` */
  function MatchingCertificate(certs: seq<Certificate>, normInput: string): (r: Option<Certificate>)
    ensures r.Some? ==> r.value in certs && |r.value.name| > 0 && NormalizeName(r.value.name) == normInput
    ensures r.None? <==> forall c :: c in certs ==> |c.name| == 0 || NormalizeName(c.name) != normInput
  {
    if |certs| == 0 then None
    else if |certs[0].name| > 0 && NormalizeName(certs[0].name) == normInput then Some(certs[0])
    else
      var r := MatchingCertificate(certs[1..], normInput);
      assert forall c :: c in certs ==> c == certs[0] || c in certs[1..];
      r
  }

  /** Replace `c` by the perfect self-comparison when that scores higher (`Object.assign`). */
  function Upgrade(c: NameComparison, normInput: string): NameComparison {
    var better := Compare(normInput, normInput);
    if better.score > c.score then better else c
  }

  /** The comparison after the two fallback strategies. */
  function Fallback(c: NameComparison, normInput: string, normExtracted: string, text: string,
                    certs: seq<Certificate>): NameComparison {
    if normExtracted == "" || c.score < 50.0 then
      var c1 := if |text| > 0 && Contains(Upper(text), Upper(normInput)) then Upgrade(c, normInput) else c;
      if |text| == 0 && MatchingCertificate(certs, normInput).Some? then Upgrade(c1, normInput) else c1
    else c
  }

  // ---------------------------------------------------------------------------
  // Scores and propositions
  // ---------------------------------------------------------------------------

  /** The authenticity score: weighted name score, structure, fields, set and combinatorics bonuses, minus 3 per suspicion. */
  function AuthenticityScore(nameScore: real, d: DocumentAnalysis, jaccard: real, combinatorial: real): real {
    MinReal(100.0,
      nameScore * 0.7 + (if d.hasValidStructure then 20.0 else 0.0) + (if d.containsExpectedFields then 10.0 else 0.0)
      + jaccard * 15.0 + combinatorial * 0.1 - |d.suspiciousPatterns| as real * 3.0)
  }

  function NameBonus(c: NameComparison): real {
    if c.exactMatch then 30.0 else if c.score >= 90.0 then 20.0 else if c.score >= 75.0 then 10.0 else 0.0
  }

  /** The eligibility score after the name and combinatorics bonuses. */
  function AdjustedEligibility(base: int, c: NameComparison, combinatorial: real): real {
    MinReal(100.0, base as real + NameBonus(c) + combinatorial * 0.1)
  }

  /** Proposition A. */
  predicate Authentic(c: NameComparison, authenticity: real, jaccard: real) {
    c.exactMatch || c.score >= 50.0 || authenticity >= 50.0 || jaccard >= 0.3
  }

  /** Proposition E. */
  predicate Eligible(adjusted: real, base: int, confidence: real, text: string) {
    adjusted >= 50.0 || base >= 40 || confidence >= 50.0 || |text| > 20
  }

  function Bit(b: bool): nat { if b then 1 else 0 }

  /** Everything after the comparison is settled, as a function of the parts computed before. */
  function Conclude(normInput: string, normExtracted: string, text: string, comparison: NameComparison,
                    documentAnalysis: DocumentAnalysis, eligibility: EligibilityAssessment): Verdict
  {
    var inputTokens := Fields(normInput);
    var extractedTokens := if normExtracted != "" then Fields(normExtracted) else [];
    var setAnalysis := AnalyzeSetTheory(inputTokens, extractedTokens);
    var combinatorics := AnalyzeCombinatorics(inputTokens, extractedTokens);
    var authenticity := AuthenticityScore(comparison.score, documentAnalysis,
      setAnalysis.jaccardSimilarity, combinatorics.combinatorialScore);
    var adjusted := AdjustedEligibility(eligibility.score, comparison, combinatorics.combinatorialScore);
    var probability := AnalyzeProbability(comparison.score, authenticity);
    var a := Authentic(comparison, authenticity, setAnalysis.jaccardSimilarity);
    var e := Eligible(adjusted, eligibility.score, probability.bayesianConfidence, text);
    var y := a && e;
    Verdict(a, authenticity, e, adjusted, Bit(a), Bit(e), Bit(y), TruthTable,
      setAnalysis, probability, combinatorics, AnalyzeBooleanAlgebra(a, e),
      if y then Allowed else Denied, normInput, normExtracted,
      comparison, documentAnalysis, eligibility.factors)
  }

  /** What `verifyDocument` returns for `input`, given the stored certificates. */
  function Verify(input: VerifyInput, certs: seq<Certificate>): Verdict {
    var normInput := NormalizeName(input.name);
    var normExtracted := NormalizeName(input.extractedName.GetOr(""));
    var text := input.extractedText.GetOr("");
    var comparison := Fallback(Compare(normInput, normExtracted), normInput, normExtracted, text, certs);
    Conclude(normInput, normExtracted, text, comparison,
      DocumentStructure(text), Eligibility(input.name, text, input.extractedName))
  }

  // ---------------------------------------------------------------------------
  // The method
  // ---------------------------------------------------------------------------

  /** The `.find` over the stored certificates. */
  method FindCertificate(certs: seq<Certificate>, normInput: string) returns (r: Option<Certificate>)
    ensures r == MatchingCertificate(certs, normInput)
  {
    var i := 0;
    while i < |certs|
      invariant 0 <= i <= |certs|
      invariant MatchingCertificate(certs, normInput) == MatchingCertificate(certs[i..], normInput)
    {
      MatchingStep(certs, i, normInput);
      if |certs[i].name| > 0 && NormalizeName(certs[i].name) == normInput {
        return Some(certs[i]);
      }
      i := i + 1;
    }
    return None;
  }

  /** One step of the `.find`: the certificate at `i` or the search beyond it. */
  lemma MatchingStep(certs: seq<Certificate>, i: nat, normInput: string)
    requires i < |certs|
    ensures MatchingCertificate(certs[i..], normInput)
      == if |certs[i].name| > 0 && NormalizeName(certs[i].name) == normInput then Some(certs[i])
         else MatchingCertificate(certs[i + 1..], normInput)
  {
    assert certs[i..][0] == certs[i];
    assert certs[i..][1..] == certs[i + 1..];
  }

  /** The recovery block of `verifyDocument`: `comparison` is overwritten in place. */
  method ApplyFallback(comparison0: NameComparison, normInput: string, normExtracted: string, extractedText: string,
                       certs: seq<Certificate>) returns (comparison: NameComparison)
    ensures comparison == Fallback(comparison0, normInput, normExtracted, extractedText, certs)
  {
    comparison := comparison0;
    if normExtracted == "" || comparison.score < 50.0 {
      if |extractedText| > 0 {
        var upperText := Upper(extractedText);
        var upperInput := Upper(normInput);
        if Contains(upperText, upperInput) {
          var fallbackComparison := CompareNamesFlexible(normInput, normInput);
          if fallbackComparison.score > comparison.score {
            comparison := fallbackComparison;
          }
        }
      }
      if |extractedText| == 0 {
        var matchingCert := FindCertificate(certs, normInput);
        if matchingCert.Some? {
          var dbComparison := CompareNamesFlexible(normInput, normInput);
          if dbComparison.score > comparison.score {
            comparison := dbComparison;
          }
        }
      }
    }
  }

  /** `verifyDocument` once the OCR text and name are known and the certificate store is read. */
  method VerifyDocument(input: VerifyInput, certs: seq<Certificate>) returns (v: Verdict)
    ensures v == Verify(input, certs)
  {
    var normInput := NormalizeName(input.name);
    var normExtracted := NormalizeName(input.extractedName.GetOr(""));
    var extractedText := input.extractedText.GetOr("");

    var comparison := CompareNamesFlexible(normInput, normExtracted);
    var documentAnalysis := AnalyzeDocumentStructure(extractedText);
    var eligibilityAssessment := AssessEligibility(input.name, extractedText, input.extractedName);
    comparison := ApplyFallback(comparison, normInput, normExtracted, extractedText, certs);
    v := Conclude(normInput, normExtracted, extractedText, comparison, documentAnalysis, eligibilityAssessment);
  }

  // ---------------------------------------------------------------------------
  // Properties
  // ---------------------------------------------------------------------------

  /**
   * The document is allowed exactly when A and E both hold; the 0/1 flags agree with the
   * propositions and the attached table is the fixed table of Y = A ∧ E.
   */
  lemma DecisionIsConjunction(input: VerifyInput, certs: seq<Certificate>)
    ensures var v := Verify(input, certs);
      && (v.finalDecision == Allowed <==> v.authenticityPass && v.eligibilityPass)
      && v.truthA == Bit(v.authenticityPass) && v.truthE == Bit(v.eligibilityPass)
      && v.truthY == Bit(v.authenticityPass && v.eligibilityPass)
      && v.table == TruthTable
      && Row(v.authenticityPass, v.eligibilityPass, v.finalDecision == Allowed) in v.table
  {
    TruthTableIsConjunction();
  }

  /** More than 20 characters of text make E hold. */
  lemma LongTextIsEligible(input: VerifyInput, certs: seq<Certificate>)
    requires |input.extractedText.GetOr("")| > 20
    ensures Verify(input, certs).eligibilityPass
  {
  }

  /** An exact (or flexible-order) name match makes A hold. */
  lemma ExactMatchIsAuthentic(input: VerifyInput, certs: seq<Certificate>)
    ensures Verify(input, certs).nameMatch.exactMatch ==> Verify(input, certs).authenticityPass
  {
  }

  /** The fallback strategies never lower the name score. */
  lemma FallbackNeverLowers(c: NameComparison, normInput: string, normExtracted: string, text: string,
                            certs: seq<Certificate>)
    ensures Fallback(c, normInput, normExtracted, text, certs).score >= c.score
    ensures c.score >= 50.0 && normExtracted != "" ==> Fallback(c, normInput, normExtracted, text, certs) == c
  {
  }

  /** A typed name with tokens found in the text replaces a weak comparison by the perfect one. */
  lemma FallbackFindsName(c: NameComparison, normInput: string, normExtracted: string, text: string,
                          certs: seq<Certificate>)
    requires |Fields(normInput)| > 0 && c.score < 50.0
    requires |text| > 0 && Contains(Upper(text), Upper(normInput))
    ensures Fallback(c, normInput, normExtracted, text, certs) == Compare(normInput, normInput)
  {
    CompareSelf(normInput);
  }

  /** With no text, a stored certificate under the typed name replaces a weak comparison by the perfect one. */
  lemma FallbackFindsCertificate(c: NameComparison, normInput: string, normExtracted: string,
                                 certs: seq<Certificate>)
    requires |Fields(normInput)| > 0 && c.score < 50.0
    requires exists cert :: cert in certs && |cert.name| > 0 && NormalizeName(cert.name) == normInput
    ensures Fallback(c, normInput, normExtracted, "", certs) == Compare(normInput, normInput)
  {
    CompareSelf(normInput);
  }

  /** The fallback result is the comparison given or a self-comparison, so its score stays in [0, 100]. */
  lemma FallbackBounds(c: NameComparison, normInput: string, normExtracted: string, text: string,
                       certs: seq<Certificate>)
    requires 0.0 <= c.score <= 100.0
    ensures 0.0 <= Fallback(c, normInput, normExtracted, text, certs).score <= 100.0
  {
    CompareBounds(normInput, normInput);
  }

  /** Verify, with the comparison after the fallback named. */
  lemma VerifyUnfolded(input: VerifyInput, certs: seq<Certificate>)
    ensures var normInput := NormalizeName(input.name);
      var normExtracted := NormalizeName(input.extractedName.GetOr(""));
      var text := input.extractedText.GetOr("");
      var c0 := Compare(normInput, normExtracted);
      && (normExtracted == "" ==> c0.score == 0.0)
      && Verify(input, certs) == Conclude(normInput, normExtracted, text,
           Fallback(c0, normInput, normExtracted, text, certs),
           DocumentStructure(text), Eligibility(input.name, text, input.extractedName))
  {
    FieldsOfSpaces("");
  }

  /**
   * When the OCR name is missing or weak and the typed name (with at least one token) occurs
   * in the text, the name match becomes a perfect one and A holds.
   */
  lemma NameInTextIsAuthentic(input: VerifyInput, certs: seq<Certificate>)
    requires var normInput := NormalizeName(input.name);
      var normExtracted := NormalizeName(input.extractedName.GetOr(""));
      var text := input.extractedText.GetOr("");
      && |Fields(normInput)| > 0 && |text| > 0 && Contains(Upper(text), Upper(normInput))
      && (normExtracted == "" || Compare(normInput, normExtracted).score < 50.0)
    ensures Verify(input, certs).nameMatch == Compare(NormalizeName(input.name), NormalizeName(input.name))
    ensures Verify(input, certs).nameMatch.exactMatch && Verify(input, certs).nameMatch.score == 100.0
    ensures Verify(input, certs).authenticityPass
  {
    var normInput := NormalizeName(input.name);
    var normExtracted := NormalizeName(input.extractedName.GetOr(""));
    var text := input.extractedText.GetOr("");
    var c := Compare(normInput, normExtracted);
    VerifyUnfolded(input, certs);
    FallbackFindsName(c, normInput, normExtracted, text, certs);
    CompareSelf(normInput);
    ConcludeKeepsComparison(normInput, normExtracted, text, Fallback(c, normInput, normExtracted, text, certs),
      DocumentStructure(text), Eligibility(input.name, text, input.extractedName));
  }

  /** With no text, a stored certificate under the typed name gives a perfect name match and A. */
  lemma StoredCertificateIsAuthentic(input: VerifyInput, certs: seq<Certificate>)
    requires var normInput := NormalizeName(input.name);
      var normExtracted := NormalizeName(input.extractedName.GetOr(""));
      && |Fields(normInput)| > 0 && |input.extractedText.GetOr("")| == 0
      && (normExtracted == "" || Compare(normInput, normExtracted).score < 50.0)
      && exists c :: c in certs && |c.name| > 0 && NormalizeName(c.name) == normInput
    ensures Verify(input, certs).nameMatch.score == 100.0 && Verify(input, certs).authenticityPass
  {
    var normInput := NormalizeName(input.name);
    var normExtracted := NormalizeName(input.extractedName.GetOr(""));
    var c := Compare(normInput, normExtracted);
    VerifyUnfolded(input, certs);
    assert input.extractedText.GetOr("") == "";
    FallbackFindsCertificate(c, normInput, normExtracted, certs);
    CompareSelf(normInput);
    ConcludeKeepsComparison(normInput, normExtracted, "", Fallback(c, normInput, normExtracted, "", certs),
      DocumentStructure(""), Eligibility(input.name, "", input.extractedName));
  }

  /** The verdict reports the comparison it was concluded from; an exact match makes A hold. */
  lemma ConcludeKeepsComparison(normInput: string, normExtracted: string, text: string, c: NameComparison,
                                d: DocumentAnalysis, e: EligibilityAssessment)
    ensures var v := Conclude(normInput, normExtracted, text, c, d, e);
      v.nameMatch == c && (c.exactMatch ==> v.authenticityPass)
  {
  }

  /** A base score in [0, 100] stays in [0, 100] after the bonuses. */
  lemma AdjustedBounds(base: int, c: NameComparison, combinatorial: real)
    requires 0 <= base <= 100 && 0.0 <= combinatorial
    ensures 0.0 <= AdjustedEligibility(base, c, combinatorial) <= 100.0
  {
  }

  /** Given bounded name and base scores, the concluded eligibility lies in [0, 100]. */
  lemma ConcludeEligibilityBounds(normInput: string, normExtracted: string, text: string, c: NameComparison,
                                  d: DocumentAnalysis, e: EligibilityAssessment)
    requires 0 <= e.score <= 100
    ensures 0.0 <= Conclude(normInput, normExtracted, text, c, d, e).eligibilityScore <= 100.0
  {
    var inputTokens := Fields(normInput);
    var extractedTokens := if normExtracted != "" then Fields(normExtracted) else [];
    CombinatoricsBounds(inputTokens, extractedTokens);
    AdjustedBounds(e.score, c, AnalyzeCombinatorics(inputTokens, extractedTokens).combinatorialScore);
  }

  /** Given bounded name and base scores, the concluded scores lie within their ranges. */
  lemma ConcludeBounds(normInput: string, normExtracted: string, text: string, c: NameComparison,
                       d: DocumentAnalysis, e: EligibilityAssessment)
    requires 0.0 <= c.score <= 100.0 && 0 <= e.score <= 100
    ensures var v := Conclude(normInput, normExtracted, text, c, d, e);
      && v.authenticityScore <= 100.0 && 0.0 <= v.eligibilityScore <= 100.0
      && 0.0 <= v.probability.low <= v.probability.bayesianConfidence <= v.probability.high <= 100.0
  {
    ConcludeEligibilityBounds(normInput, normExtracted, text, c, d, e);
  }

  /** The reported scores lie within their ranges. */
  lemma ScoreBounds(input: VerifyInput, certs: seq<Certificate>)
    ensures var v := Verify(input, certs);
      && v.authenticityScore <= 100.0 && 0.0 <= v.eligibilityScore <= 100.0
      && 0.0 <= v.nameMatch.score <= 100.0
      && 0.0 <= v.probability.low <= v.probability.bayesianConfidence <= v.probability.high <= 100.0
  {
    var normInput := NormalizeName(input.name);
    var normExtracted := NormalizeName(input.extractedName.GetOr(""));
    var text := input.extractedText.GetOr("");
    var c0 := Compare(normInput, normExtracted);
    VerifyUnfolded(input, certs);
    CompareBounds(normInput, normExtracted);
    FallbackBounds(c0, normInput, normExtracted, text, certs);
    EligibilityBounds(input.name, text, input.extractedName);
    ConcludeBounds(normInput, normExtracted, text, Fallback(c0, normInput, normExtracted, text, certs),
      DocumentStructure(text), Eligibility(input.name, text, input.extractedName));
  }

  /**
   * The authenticity score is not bounded below: a document with no name score, no structure,
   * no shared tokens, a combinatorics score of 100 and eight suspicious patterns scores -14.
   * Fed to the Bayesian analysis as written, that confidence (-9.8) gives the interval [0, -4.8].
   */
  lemma NegativeAuthenticity()
    ensures AuthenticityScore(0.0, DocumentAnalysis(false, false,
      [TooShort, NoDatesOrNumbers, FewLineBreaks, ContainsIndicator("FAKE"), ContainsIndicator("COPY"),
       ContainsIndicator("SAMPLE"), ContainsIndicator("TEMPLATE"), ContainsIndicator("DRAFT")]), 0.0, 100.0) == -14.0
    ensures var p := AnalyzeProbabilityAsWritten(0.0, -14.0); p.low == 0.0 && p.high < 0.0
  {
  }

  // ---------------------------------------------------------------------------
  // A blank typed name
  // ---------------------------------------------------------------------------

  /**
   * A typed name made of white space only (the empty request among them) is denied, whatever the
   * OCR name, text and stored certificates: the comparison is 'no-tokens' with score 0 and no
   * fallback can raise it, the Jaccard similarity is 0, and the authenticity score is at most
   * 20 + 10 + 10 < 50, so A fails.
   */
  lemma BlankNameDenied(input: VerifyInput, certs: seq<Certificate>)
    requires forall i :: 0 <= i < |input.name| ==> IsSpace(input.name[i])
    ensures Verify(input, certs).nameMatch == NoTokensResult
    ensures !Verify(input, certs).authenticityPass
    ensures Verify(input, certs).finalDecision == Denied
  {
    NormalizeEmptyIff(input.name);
    var normExtracted := NormalizeName(input.extractedName.GetOr(""));
    var text := input.extractedText.GetOr("");
    FallbackOfBlank(normExtracted, text, certs);
    ConcludeOfBlank(normExtracted, text, DocumentStructure(text),
      Eligibility(input.name, text, input.extractedName));
  }

  /** With nothing typed, the comparison is 'no-tokens' and both fallbacks leave it so. */
  lemma FallbackOfBlank(normExtracted: string, text: string, certs: seq<Certificate>)
    ensures Compare("", normExtracted) == NoTokensResult
    ensures Fallback(NoTokensResult, "", normExtracted, text, certs) == NoTokensResult
  {
    FieldsOfSpaces("");
  }

  /** With nothing typed and a score of 0, A fails. */
  lemma ConcludeOfBlank(normExtracted: string, text: string, d: DocumentAnalysis, e: EligibilityAssessment)
    ensures !Conclude("", normExtracted, text, NoTokensResult, d, e).authenticityPass
    ensures Conclude("", normExtracted, text, NoTokensResult, d, e).finalDecision == Denied
  {
    FieldsOfSpaces("");
    var extractedTokens := if normExtracted != "" then Fields(normExtracted) else [];
    assert MapUpper([]) == [];
    JaccardBounds([], extractedTokens);
    CombinatoricsBounds([], extractedTokens);
    var jaccard := AnalyzeSetTheory([], extractedTokens).jaccardSimilarity;
    var combinatorial := AnalyzeCombinatorics([], extractedTokens).combinatorialScore;
    assert jaccard == 0.0;
    AuthenticityWithoutName(d, combinatorial);
    assert !Authentic(NoTokensResult, AuthenticityScore(0.0, d, jaccard, combinatorial), jaccard);
  }

  /** With name score 0 and no shared token, structure, fields and combinatorics give at most 40. */
  lemma AuthenticityWithoutName(d: DocumentAnalysis, combinatorial: real)
    requires combinatorial <= 100.0
    ensures AuthenticityScore(0.0, d, 0.0, combinatorial) <= 40.0
  {
  }

  /** The empty request `{name: "", extractedText: ""}` is denied. */
  lemma EmptyRequestDenied(certs: seq<Certificate>)
    ensures Verify(VerifyInput("", None, Some("")), certs).finalDecision == Denied
  {
    BlankNameDenied(VerifyInput("", None, Some("")), certs);
  }
}
