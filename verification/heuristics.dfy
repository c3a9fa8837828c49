/**
 * The keyword heuristics of lib/logic.ts: `analyzeDocumentStructure`, which looks for
 * certificate words, expected fields and signs of forgery, and `assessEligibility`, which
 * scores how well the typed name is backed by the document (by the OCR name first, then by
 * the text itself) and adds bonuses for academic, achievement, date and authority cues.
 * Messages are kept as data (`Suspicion`, `Factor`) rather than display strings.
 */
module Heuristics {
  import opened Wrappers
  import opened Strings
  import opened Comparator
  import opened DiscreteMath
  import opened Numeric


  /** The words of `words` that occur in `text`, in list order (`words.filter(w => text.includes(w))`). */
  function Present(text: string, words: seq<string>): (r: seq<string>)
    ensures |r| <= |words|
  {
    if |words| == 0 then []
    else
      var init := words[..|words| - 1];
      var last := words[|words| - 1];
      assert words == init + [last];
      Present(text, init) + if Contains(text, last) then [last] else []
  }

  /** The present words are the listed words that occur, each as often as it is listed. */
  lemma {:induction false} PresentMembers(text: string, words: seq<string>)
    ensures forall w :: w in Present(text, words) <==> w in words && Contains(text, w)
    ensures NoDuplicates(words) ==> NoDuplicates(Present(text, words))
  {
    if |words| > 0 {
      var init := words[..|words| - 1];
      PresentMembers(text, init);
      assert words == init + [words[|words| - 1]];
    }
  }

  /** Present over one more word. */
  lemma PresentSnoc(text: string, words: seq<string>, i: nat)
    requires i < |words|
    ensures Present(text, words[..i + 1])
      == Present(text, words[..i]) + if Contains(text, words[i]) then [words[i]] else []
  {
    assert words[..i + 1][..i] == words[..i];
  }

  /** Two different words of a duplicate-free list occur exactly when at least two are present. */
  lemma AtLeastTwoPresent(text: string, words: seq<string>)
    requires NoDuplicates(words)
    ensures |Present(text, words)| >= 2 <==>
      exists i, j :: 0 <= i < |words| && 0 <= j < |words| && i != j && Contains(text, words[i]) && Contains(text, words[j])
  {
    if |Present(text, words)| >= 2 {
      TwoPresentOccur(text, words);
    }
    if exists i, j :: 0 <= i < |words| && 0 <= j < |words| && i != j && Contains(text, words[i]) && Contains(text, words[j]) {
      var i, j :| 0 <= i < |words| && 0 <= j < |words| && i != j && Contains(text, words[i]) && Contains(text, words[j]);
      TwoOccurPresent(text, words, i, j);
    }
  }

  lemma TwoPresentOccur(text: string, words: seq<string>)
    requires NoDuplicates(words) && |Present(text, words)| >= 2
    ensures exists i, j :: 0 <= i < |words| && 0 <= j < |words| && i != j && Contains(text, words[i]) && Contains(text, words[j])
  {
    var r := Present(text, words);
    PresentMembers(text, words);
    assert r[0] in r && r[1] in r && r[0] != r[1];
    var i :| 0 <= i < |words| && words[i] == r[0];
    var j :| 0 <= j < |words| && words[j] == r[1];
  }

  lemma TwoOccurPresent(text: string, words: seq<string>, i: nat, j: nat)
    requires NoDuplicates(words) && i < |words| && j < |words| && i != j
    requires Contains(text, words[i]) && Contains(text, words[j])
    ensures |Present(text, words)| >= 2
  {
    var r := Present(text, words);
    PresentMembers(text, words);
    Included([words[i], words[j]], r);
  }

  // ---------------------------------------------------------------------------
  // analyzeDocumentStructure
  // ---------------------------------------------------------------------------

  const ValidIndicators: seq<string> := [
    "CERTIFICATE", "CERTIFY", "AWARDED", "PRESENTED", "SCHOLARSHIP",
    "ACHIEVEMENT", "COMPLETION", "GRADUATION", "DEGREE", "DIPLOMA"]
  const ExpectedFields: seq<string> := ["NAME", "DATE", "SIGNATURE", "SEAL"]
  const ForgeryIndicators: seq<string> := ["FAKE", "COPY", "SAMPLE", "TEMPLATE", "DRAFT"]

  datatype Suspicion = TooShort | NoDatesOrNumbers | FewLineBreaks | ContainsIndicator(word: string)

  datatype DocumentAnalysis = DocumentAnalysis(
    hasValidStructure: bool, containsExpectedFields: bool, suspiciousPatterns: seq<Suspicion>)

  /** `/[0-9]/.test(text)` */
  predicate HasDigit(text: string) {
    exists i :: 0 <= i < |text| && IsDigit(text[i])
  }

  /** `text.split('\n').length` */
  function LineCount(text: string): nat {
    |SplitOn(text, '\n')|
  }

  /** The three shape checks, in the order the code pushes them. */
  function ShapeSuspicions(text: string): seq<Suspicion> {
    (if |text| < 50 then [TooShort] else [])
    + (if !HasDigit(text) then [NoDatesOrNumbers] else [])
    + (if LineCount(text) < 3 then [FewLineBreaks] else [])
  }

  function Indicated(words: seq<string>): (r: seq<Suspicion>)
    ensures |r| == |words|
    ensures forall i :: 0 <= i < |words| ==> r[i] == ContainsIndicator(words[i])
  {
    seq(|words|, i requires 0 <= i < |words| => ContainsIndicator(words[i]))
  }

  /** What `analyzeDocumentStructure` returns for `text`. */
  function DocumentStructure(text: string): DocumentAnalysis {
    var upper := Upper(text);
    DocumentAnalysis(
      ContainsAny(upper, ValidIndicators),
      |Present(upper, ExpectedFields)| >= 2,
      ShapeSuspicions(text) + Indicated(Present(upper, ForgeryIndicators)))
  }

  /** `analyzeDocumentStructure`: the forgery words are pushed one by one. */
  method AnalyzeDocumentStructure(text: string) returns (a: DocumentAnalysis)
    ensures a == DocumentStructure(text)
  {
    var upperText := Upper(text);
    var suspicious: seq<Suspicion> := [];
    var hasValidStructure := ContainsAny(upperText, ValidIndicators);
    var containsExpectedFields := |Present(upperText, ExpectedFields)| >= 2;
    if |text| < 50 {
      suspicious := suspicious + [TooShort];
    }
    if !HasDigit(text) {
      suspicious := suspicious + [NoDatesOrNumbers];
    }
    if LineCount(text) < 3 {
      suspicious := suspicious + [FewLineBreaks];
    }
    assert suspicious == ShapeSuspicions(text);
    suspicious := PushIndicated(upperText, ForgeryIndicators, suspicious);
    a := DocumentAnalysis(hasValidStructure, containsExpectedFields, suspicious);
  }

  /** The `forgeryIndicators.forEach` loop: one entry per word found in the text. */
  method PushIndicated(upperText: string, words: seq<string>, suspicious0: seq<Suspicion>)
    returns (suspicious: seq<Suspicion>)
    ensures suspicious == suspicious0 + Indicated(Present(upperText, words))
  {
    suspicious := suspicious0;
    for i := 0 to |words|
      invariant suspicious == suspicious0 + Indicated(Present(upperText, words[..i]))
    {
      PresentSnoc(upperText, words, i);
      if Contains(upperText, words[i]) {
        suspicious := suspicious + [ContainsIndicator(words[i])];
      }
    }
    assert words[..|words|] == words;
  }

  /** The expected-fields flag holds exactly when two different field words occur. */
  lemma ExpectedFieldsIff(text: string)
    ensures DocumentStructure(text).containsExpectedFields <==>
      exists i, j :: 0 <= i < |ExpectedFields| && 0 <= j < |ExpectedFields| && i != j
        && Contains(Upper(text), ExpectedFields[i]) && Contains(Upper(text), ExpectedFields[j])
  {
    AtLeastTwoPresent(Upper(text), ExpectedFields);
  }

  /**
   * Each forgery word occurring in the upper-cased text is reported exactly once and nothing
   * else is reported for it, so there are at most 3 + 5 = 8 suspicious patterns.
   */
  lemma SuspicionsAreBounded(text: string)
    ensures var s := DocumentStructure(text).suspiciousPatterns;
      && |s| <= 8
      && (forall w :: ContainsIndicator(w) in s <==> w in ForgeryIndicators && Contains(Upper(text), w))
      && (forall i, j :: 0 <= i < j < |s| ==> s[i] != s[j])
  {
    var upper := Upper(text);
    var hits := Present(upper, ForgeryIndicators);
    var shape := ShapeSuspicions(text);
    assert NoDuplicates(ForgeryIndicators);
    PresentMembers(upper, ForgeryIndicators);
    assert forall k :: 0 <= k < |shape| ==> !shape[k].ContainsIndicator?;
  }

  // ---------------------------------------------------------------------------
  // assessEligibility
  // ---------------------------------------------------------------------------

  const AcademicTerms: seq<string> := ["STUDENT", "ACADEMIC", "EDUCATION", "UNIVERSITY", "COLLEGE", "SCHOOL"]
  const AchievementTerms: seq<string> := ["ACHIEVEMENT", "EXCELLENCE", "OUTSTANDING", "MERIT", "DISTINCTION"]
  const AuthorityTerms: seq<string> := ["PRINCIPAL", "DIRECTOR", "DEAN", "REGISTRAR", "SIGNATURE", "SEAL"]

  datatype TermKind = Academic | Achievement | Authority

  /** The reasons `assessEligibility` records, with the values its messages show. */
  datatype Factor =
    | PerfectOcrMatch
    | StrongOcrMatch(score: real)
    | GoodOcrMatch(score: real)
    | NameMismatch(inputName: string, extractedName: string, score: real, overlap: nat)
    | FullNameInText
    | ReorderedNameInText(text: string)
    | PartialNameInText(found: nat, total: nat)
    | SomeTokensInText(found: nat, total: nat)
    | SingleTokenName
    | OneTokenInText
    | NoNameFound
    | Indicator(kind: TermKind, term: string)
    | DateFound

  /** The running state of the assessment: reasons so far, the score and whether the name was found. */
  datatype Tally = Tally(factors: seq<Factor>, score: int, found: bool)

  datatype EligibilityAssessment = EligibilityAssessment(factors: seq<Factor>, score: int)

  /** `/\b(19|20)\d{2}\b/` matching at position i. */
  predicate IsYearAt(text: string, i: nat) {
    && i + 4 <= |text|
    && ((text[i] == '1' && text[i + 1] == '9') || (text[i] == '2' && text[i + 1] == '0'))
    && IsDigit(text[i + 2]) && IsDigit(text[i + 3])
    && Boundary(text, i) && Boundary(text, i + 4)
  }

  predicate HasYear(text: string) {
    exists i: nat | i <= |text| :: IsYearAt(text, i)
  }

  /** How the comparison `c` of the typed name with the OCR name moves the tally. */
  function OcrOutcome(t: Tally, c: NameComparison, inputName: string, extractedName: string): Tally {
    if c.exactMatch && c.score >= 95.0 then Tally(t.factors + [PerfectOcrMatch], t.score + 50, true)
    else if c.score >= 90.0 && c.tokenOverlap >= 2 then Tally(t.factors + [StrongOcrMatch(c.score)], t.score + 30, true)
    else if c.score >= 80.0 && c.tokenOverlap >= 2 && c.overlapFraction >= 0.8
    then Tally(t.factors + [GoodOcrMatch(c.score)], t.score + 20, true)
    else Tally(t.factors + [NameMismatch(inputName, extractedName, c.score, c.tokenOverlap)],
      MaxInt(0, t.score - 60), t.found)
  }

  /** Stage 1: the OCR-extracted name, compared with `compareNamesFlexible`. */
  function OcrStage(t: Tally, inputName: string, extractedName: Option<string>): Tally {
    if extractedName.Some? && |extractedName.value| > 0
    then OcrOutcome(t, Compare(inputName, extractedName.value), inputName, extractedName.value)
    else t
  }

  /** The first ordering whose space-joined text occurs in `upperText`. */
  function FirstOccurring(upperText: string, orders: seq<seq<string>>): (r: Option<string>)
    ensures r.Some? ==> Contains(upperText, r.value)
    ensures r.None? <==> forall k :: 0 <= k < |orders| ==> !Contains(upperText, Join(orders[k], " "))
  {
    if |orders| == 0 then None
    else if Contains(upperText, Join(orders[0], " ")) then Some(Join(orders[0], " "))
    else
      var r := FirstOccurring(upperText, orders[1..]);
      assert forall k :: 1 <= k < |orders| ==> orders[k] == orders[1..][k - 1];
      r
  }

  /** Tokens of at least three characters (`token.length >= 3`). */
  function LongTokens(ts: seq<string>): (r: seq<string>)
    ensures |r| <= |ts|
    ensures forall t :: t in r <==> t in ts && |t| >= 3
  {
    if |ts| == 0 then []
    else
      var init := ts[..|ts| - 1];
      var last := ts[|ts| - 1];
      assert ts == init + [last];
      LongTokens(init) + if |last| >= 3 then [last] else []
  }

  /** How a found-token count `found` out of `total` moves the tally (no match in any order). */
  function TokenStage(t: Tally, found: nat, total: nat): Tally {
    // found >= ceil(total * 0.7)
    if found >= (7 * total + 9) / 10 then Tally(t.factors + [PartialNameInText(found, total)], t.score + 25, true)
    else if found >= 2 then Tally(t.factors + [SomeTokensInText(found, total)], t.score + 10, true)
    else if found == 1 && total == 1 then Tally(t.factors + [SingleTokenName], t.score + 15, true)
    else if found == 1 then Tally(t.factors + [OneTokenInText], t.score + 5, t.found)
    else t
  }

  /** Stage 2: the name in the document text, as typed, in another order, or token by token. */
  function TextStage(t: Tally, inputName: string, text: string): Tally {
    if !t.found && |text| > 0 then
      var upperText := Upper(text);
      var inputUpper := Upper(inputName);
      var nameTokens := Fields(inputUpper);
      if Contains(upperText, inputUpper) then Tally(t.factors + [FullNameInText], t.score + 60, true)
      else match FirstOccurring(upperText, GenerateNamePermutations(nameTokens))
        case Some(p) => Tally(t.factors + [ReorderedNameInText(p)], t.score + 55, true)
        case None => TokenStage(t, |Present(upperText, LongTokens(nameTokens))|, |nameTokens|)
    else t
  }

  /** Stage 3: the penalty when neither stage found the name. */
  function PenaltyStage(t: Tally): Tally {
    if !t.found then Tally(t.factors + [NoNameFound], MaxInt(0, t.score - 25), t.found) else t
  }

  function Indicators(kind: TermKind, terms: seq<string>): (r: seq<Factor>)
    ensures |r| == |terms|
    ensures forall i :: 0 <= i < |terms| ==> r[i] == Indicator(kind, terms[i])
  {
    seq(|terms|, i requires 0 <= i < |terms| => Indicator(kind, terms[i]))
  }

  /** A context cue: `bonus` and one reason per term of `terms` in the upper-cased text. */
  function TermStage(t: Tally, upperText: string, terms: seq<string>, kind: TermKind, bonus: nat): Tally {
    var hits := Present(upperText, terms);
    Tally(t.factors + Indicators(kind, hits), t.score + bonus * |hits|, t.found)
  }

  function DateStage(t: Tally, text: string): Tally {
    if HasYear(text) then Tally(t.factors + [DateFound], t.score + 15, t.found) else t
  }

  /** The tally once the name has been looked for (stages 1 to 3). */
  function NameTally(inputName: string, text: string, extractedName: Option<string>): Tally {
    PenaltyStage(TextStage(OcrStage(Tally([], 30, false), inputName, extractedName), inputName, text))
  }

  /** The context cues after the name stages, in the code's order. */
  function ContextTally(t: Tally, text: string): Tally {
    var upperText := Upper(text);
    TermStage(DateStage(TermStage(TermStage(t, upperText, AcademicTerms, Academic, 5),
      upperText, AchievementTerms, Achievement, 10), text), upperText, AuthorityTerms, Authority, 10)
  }

  /** What `assessEligibility` returns. */
  function Eligibility(inputName: string, text: string, extractedName: Option<string>): EligibilityAssessment {
    var t := ContextTally(NameTally(inputName, text, extractedName), text);
    EligibilityAssessment(t.factors, MinInt(100, t.score))
  }

  /** The points the context cues of `text` add. */
  function ContextBonus(text: string): nat {
    var upperText := Upper(text);
    5 * |Present(upperText, AcademicTerms)| + 10 * |Present(upperText, AchievementTerms)|
    + (if HasYear(text) then 15 else 0) + 10 * |Present(upperText, AuthorityTerms)|
  }

  /** `assessEligibility`: the same stages, with the term lists walked one by one. */
  method AssessEligibility(inputName: string, extractedText: string, extractedName: Option<string>)
    returns (r: EligibilityAssessment)
    ensures r == Eligibility(inputName, extractedText, extractedName)
  {
    var factors: seq<Factor> := [];
    var score := 30;
    var nameFoundInText := false;
    var upperText := Upper(extractedText);

    factors, score, nameFoundInText := CheckOcrName(inputName, extractedName, factors, score, nameFoundInText);
    factors, score, nameFoundInText := CheckText(inputName, extractedText, factors, score, nameFoundInText);
    if !nameFoundInText {
      factors := factors + [NoNameFound];
      score := MaxInt(0, score - 25);
    }
    ghost var t3 := Tally(factors, score, nameFoundInText);
    assert t3 == NameTally(inputName, extractedText, extractedName);

    factors, score := AddIndicators(upperText, AcademicTerms, Academic, 5, factors, score);
    factors, score := AddIndicators(upperText, AchievementTerms, Achievement, 10, factors, score);
    if HasYear(extractedText) {
      factors := factors + [DateFound];
      score := score + 15;
    }
    factors, score := AddIndicators(upperText, AuthorityTerms, Authority, 10, factors, score);
    assert Tally(factors, score, nameFoundInText) == ContextTally(t3, extractedText);
    r := EligibilityAssessment(factors, MinInt(100, score));
  }

  /** The first block of `assessEligibility`: the OCR name, when there is one. */
  method CheckOcrName(inputName: string, extractedName: Option<string>,
                      factors0: seq<Factor>, score0: int, found0: bool)
    returns (factors: seq<Factor>, score: int, nameFoundInText: bool)
    ensures Tally(factors, score, nameFoundInText) == OcrStage(Tally(factors0, score0, found0), inputName, extractedName)
  {
    factors, score, nameFoundInText := factors0, score0, found0;
    if extractedName.Some? && |extractedName.value| > 0 {
      var nameComparison := CompareNamesFlexible(inputName, extractedName.value);
      factors, score, nameFoundInText :=
        ApplyComparison(nameComparison, inputName, extractedName.value, factors, score, nameFoundInText);
    }
  }

  /** The four outcomes of the OCR comparison. */
  method ApplyComparison(nameComparison: NameComparison, inputName: string, extractedName: string,
                         factors0: seq<Factor>, score0: int, found0: bool)
    returns (factors: seq<Factor>, score: int, nameFoundInText: bool)
    ensures Tally(factors, score, nameFoundInText)
      == OcrOutcome(Tally(factors0, score0, found0), nameComparison, inputName, extractedName)
  {
    factors, score, nameFoundInText := factors0, score0, found0;
    if nameComparison.exactMatch && nameComparison.score >= 95.0 {
      factors := factors + [PerfectOcrMatch];
      score := score + 50;
      nameFoundInText := true;
    } else if nameComparison.score >= 90.0 && nameComparison.tokenOverlap >= 2 {
      factors := factors + [StrongOcrMatch(nameComparison.score)];
      score := score + 30;
      nameFoundInText := true;
    } else if nameComparison.score >= 80.0 && nameComparison.tokenOverlap >= 2 && nameComparison.overlapFraction >= 0.8 {
      factors := factors + [GoodOcrMatch(nameComparison.score)];
      score := score + 20;
      nameFoundInText := true;
    } else {
      factors := factors + [NameMismatch(inputName, extractedName, nameComparison.score, nameComparison.tokenOverlap)];
      score := MaxInt(0, score - 60);
    }
  }

  /** The second block of `assessEligibility`: the name in the text, when OCR did not find it. */
  method CheckText(inputName: string, extractedText: string,
                   factors0: seq<Factor>, score0: int, found0: bool)
    returns (factors: seq<Factor>, score: int, nameFoundInText: bool)
    ensures Tally(factors, score, nameFoundInText) == TextStage(Tally(factors0, score0, found0), inputName, extractedText)
  {
    factors, score, nameFoundInText := factors0, score0, found0;
    if !nameFoundInText && |extractedText| > 0 {
      var upperText := Upper(extractedText);
      var inputUpper := Upper(inputName);
      var nameTokens := Fields(inputUpper);
      if Contains(upperText, inputUpper) {
        factors := factors + [FullNameInText];
        score := score + 60;
        nameFoundInText := true;
      } else {
        var best := FindOrdering(upperText, GenerateNamePermutations(nameTokens));
        if best.Some? {
          factors := factors + [ReorderedNameInText(best.value)];
          score := score + 55;
          nameFoundInText := true;
        } else {
          var foundTokens := Present(upperText, LongTokens(nameTokens));
          var t := TokenStage(Tally(factors, score, nameFoundInText), |foundTokens|, |nameTokens|);
          factors, score, nameFoundInText := t.factors, t.score, t.found;
        }
      }
    }
  }

  /** The loop over the orderings, stopping at the first one found in the text. */
  method FindOrdering(upperText: string, orders: seq<seq<string>>) returns (best: Option<string>)
    ensures best == FirstOccurring(upperText, orders)
  {
    best := None;
    var i := 0;
    while i < |orders|
      invariant 0 <= i <= |orders|
      invariant FirstOccurring(upperText, orders) == FirstOccurring(upperText, orders[i..])
    {
      var permutationText := Join(orders[i], " ");
      assert orders[i..][1..] == orders[i + 1..];
      if Contains(upperText, permutationText) {
        best := Some(permutationText);
        return;
      }
      i := i + 1;
    }
  }

  lemma MulSucc(b: nat, n: nat)
    ensures b * (n + 1) == b * n + b
  {
  }

  /** One `terms.forEach` of the code: a reason and `bonus` points per term in the text. */
  method AddIndicators(upperText: string, terms: seq<string>, kind: TermKind, bonus: nat,
                       factors0: seq<Factor>, score0: int)
    returns (factors: seq<Factor>, score: int)
    ensures Tally(factors, score, false) == TermStage(Tally(factors0, score0, false), upperText, terms, kind, bonus)
  {
    factors, score := factors0, score0;
    for i := 0 to |terms|
      invariant factors == factors0 + Indicators(kind, Present(upperText, terms[..i]))
      invariant score == score0 + bonus * |Present(upperText, terms[..i])|
    {
      PresentSnoc(upperText, terms, i);
      MulSucc(bonus, |Present(upperText, terms[..i])|);
      if Contains(upperText, terms[i]) {
        factors := factors + [Indicator(kind, terms[i])];
        score := score + bonus;
      }
    }
    assert terms[..|terms|] == terms;
  }

  // ---------------------------------------------------------------------------
  // Properties of the assessment
  // ---------------------------------------------------------------------------

  /** The context cues only add points: exactly ContextBonus. */
  lemma ContextAddsBonus(t: Tally, text: string)
    ensures ContextTally(t, text).score == t.score + ContextBonus(text)
    ensures ContextTally(t, text).found == t.found
  {
  }

  /** The OCR stage from the initial tally: either it finds the name, or the score stays in [0, 30]. */
  lemma OcrStageScore(inputName: string, extractedName: Option<string>)
    ensures var t := OcrStage(Tally([], 30, false), inputName, extractedName);
      t.score >= 0 && (!t.found ==> t.score <= 30)
  {
    if extractedName.Some? && |extractedName.value| > 0 {
      var c := Compare(inputName, extractedName.value);
      OcrOutcomeScore(c, inputName, extractedName.value);
    }
  }

  /** Whatever the comparison, the outcome from the initial tally keeps the score in range. */
  lemma OcrOutcomeScore(c: NameComparison, inputName: string, extractedName: string)
    ensures var t := OcrOutcome(Tally([], 30, false), c, inputName, extractedName);
      t.score >= 0 && (!t.found ==> t.score <= 30)
  {
  }

  /** The text stage never makes the score negative and, short of finding the name, adds at most 5. */
  lemma TextStageScore(t: Tally, inputName: string, text: string)
    requires t.score >= 0
    ensures var u := TextStage(t, inputName, text);
      u.score >= t.score && (!u.found ==> u.score <= t.score + 5)
  {
  }

  /** After the name stages the score is never negative; without the name it is at most 10. */
  lemma NameTallyScore(inputName: string, text: string, extractedName: Option<string>)
    ensures var t := NameTally(inputName, text, extractedName);
      t.score >= 0 && (!t.found ==> t.score <= 10)
  {
    var t1 := OcrStage(Tally([], 30, false), inputName, extractedName);
    OcrStageScore(inputName, extractedName);
    TextStageScore(t1, inputName, text);
  }

  /** The eligibility score lies in [0, 100]. */
  lemma EligibilityBounds(inputName: string, text: string, extractedName: Option<string>)
    ensures 0 <= Eligibility(inputName, text, extractedName).score <= 100
  {
    NameTallyScore(inputName, text, extractedName);
    ContextAddsBonus(NameTally(inputName, text, extractedName), text);
  }

  /** A perfect OCR match is the first reason and gives at least 80 points. */
  lemma PerfectOcrScores(inputName: string, text: string, extractedName: string)
    requires |extractedName| > 0
    requires Compare(inputName, extractedName).exactMatch && Compare(inputName, extractedName).score >= 95.0
    ensures var e := Eligibility(inputName, text, Some(extractedName));
      e.score >= 80 && |e.factors| > 0 && e.factors[0] == PerfectOcrMatch
  {
    PerfectOcrTally(inputName, text, extractedName);
    EligibilityOfTally(inputName, text, Some(extractedName), Tally([PerfectOcrMatch], 80, true));
  }

  lemma PerfectOcrTally(inputName: string, text: string, extractedName: string)
    requires |extractedName| > 0
    requires Compare(inputName, extractedName).exactMatch && Compare(inputName, extractedName).score >= 95.0
    ensures NameTally(inputName, text, Some(extractedName)) == Tally([PerfectOcrMatch], 80, true)
  {
    assert OcrStage(Tally([], 30, false), inputName, Some(extractedName)) == Tally([PerfectOcrMatch], 80, true);
  }

  /** The assessment keeps the name stages' reasons in front and adds the context bonus. */
  lemma EligibilityOfTally(inputName: string, text: string, extractedName: Option<string>, t: Tally)
    requires NameTally(inputName, text, extractedName) == t
    ensures var e := Eligibility(inputName, text, extractedName);
      e.score == MinInt(100, t.score + ContextBonus(text)) && e.factors[..|t.factors|] == t.factors
  {
    ContextAddsBonus(t, text);
    ContextKeepsFactors(t, text);
  }

  /** Without an OCR name, the typed name occurring in the text gives at least 90 points. */
  lemma FullNameInTextScores(inputName: string, text: string)
    requires |text| > 0 && Contains(Upper(text), Upper(inputName))
    ensures var e := Eligibility(inputName, text, None);
      e.score >= 90 && |e.factors| > 0 && e.factors[0] == FullNameInText
  {
    var t := NameTally(inputName, text, None);
    assert t.score == 90 && t.factors == [FullNameInText];
    ContextAddsBonus(t, text);
  }

  /**
   * When neither the OCR name nor the text backs the name, the assessment records it and the
   * score is at most 10 beyond what the context cues give.
   */
  lemma UnfoundNameIsCapped(inputName: string, text: string, extractedName: Option<string>)
    requires !NameTally(inputName, text, extractedName).found
    ensures var e := Eligibility(inputName, text, extractedName);
      NoNameFound in e.factors && e.score <= 10 + ContextBonus(text)
  {
    var t := NameTally(inputName, text, extractedName);
    NameTallyScore(inputName, text, extractedName);
    ContextAddsBonus(t, text);
    ContextKeepsFactors(t, text);
    assert t.factors[|t.factors| - 1] == NoNameFound;
  }

  /** The context cues only append reasons. */
  lemma ContextKeepsFactors(t: Tally, text: string)
    ensures ContextTally(t, text).factors[..|t.factors|] == t.factors
  {
  }
}
