/**
 * `extractFieldsFromText` of the verify route (app/api/verify/route.ts): guesses the holder's
 * name and an e-mail address from the OCR text of a certificate.
 *
 * Lines and the comma/semicolon/"and"/slash parts of each line become scored fragments. The
 * five best fragments are cleaned into name candidates. Candidates also come from the name
 * patterns and from a direct sighting of the typed name. The best candidate scoring above -5
 * wins.
 *
 * Two regex-driven sources are parameters here:
 *  - `patternNames` is what `findNamePatterns` returns;
 *  - `phrases` gives, for a normalised line, the captures of the four certificate phrases that
 *    match it, in pattern order.
 * The keyword tests (`\b...\b`), `alphaTokens`, the separator split and the label strip are
 * modelled exactly.
 */
module Extractor {
  import opened Wrappers
  import opened Strings
  import opened Numeric
  import opened Levenshtein
  import opened Sorting
  import opened Email

  // ---------------------------------------------------------------------------
  // Keyword lists of `scoreLine`
  // ---------------------------------------------------------------------------

  const NameContext: seq<string> :=
    ["NAME", "APPLICANT", "STUDENT", "CANDIDATE", "RECIPIENT", "AWARDED TO", "PRESENTED TO"]
  const CertifyPhrases: seq<string> := ["THIS IS TO CERTIFY", "HEREBY CERTIFY", "CERTIFICATE OF"]
  const AdminWords: seq<string> := ["APPLICATION", "NUMBER", "ID", "REGISTRATION", "SERIAL", "CODE", "REF"]
  const CourseWords: seq<string> :=
    ["SCHOLARSHIP", "PROGRAM", "COURSE", "SUBJECT", "MARKS", "GRADE", "CGPA", "PERCENTAGE"]
  const SignOffWords: seq<string> := ["DATE", "YEAR", "MONTH", "SIGNATURE", "SEAL", "PRINCIPAL", "DIRECTOR"]
  const ReferenceWords: seq<string> := ["RFSCH", "CERT-", "REF", "BATCH", "ROLL"]
  const StopWords: seq<string> := ["THE", "AND", "OF", "IN", "AT", "ON", "FOR", "WITH", "BY"]

  // ---------------------------------------------------------------------------
  // Data
  // ---------------------------------------------------------------------------

  datatype Fragment = Fragment(fragment: string, score: int)

  datatype Source = Pattern | FromFragment | SingleToken | RawFragment | DirectMatch

  datatype Candidate = Candidate(name: string, score: int, source: Source)

  datatype Extracted = Extracted(name: Option<string>, email: Option<string>)

  function FragmentScore(f: Fragment): int { f.score }

  function CandidateScore(c: Candidate): int { c.score }

  // ---------------------------------------------------------------------------
  // Text helpers
  // ---------------------------------------------------------------------------

  /** The pieces of length two or more. */
  function LongPieces(ps: seq<string>): (r: seq<string>)
    ensures forall k :: 0 <= k < |r| ==> |r[k]| >= 2 && r[k] in ps
  {
    if |ps| == 0 then [] else (if |ps[0]| >= 2 then [ps[0]] else []) + LongPieces(ps[1..])
  }

  /** `alphaTokens`: split at every non-letter and keep the runs of two or more letters. */
  function AlphaTokens(s: string): (ts: seq<string>)
    ensures forall k :: 0 <= k < |ts| ==> |ts[k]| >= 2
    ensures forall k, j :: 0 <= k < |ts| && 0 <= j < |ts[k]| ==> IsLetter(ts[k][j])
  {
    var pieces := SplitWhere(s, IsNotLetter);
    var r := LongPieces(pieces);
    assert forall k :: 0 <= k < |r| ==> exists m :: 0 <= m < |pieces| && r[k] == pieces[m];
    r
  }

  function UpperAll(ts: seq<string>): (r: seq<string>)
    ensures |r| == |ts| && forall k :: 0 <= k < |ts| ==> r[k] == Upper(ts[k])
  {
    seq(|ts|, k requires 0 <= k < |ts| => Upper(ts[k]))
  }

  function TrimAll(ps: seq<string>): (r: seq<string>)
    ensures |r| == |ps| && forall k :: 0 <= k < |ps| ==> r[k] == Trim(ps[k])
  {
    seq(|ps|, k requires 0 <= k < |ps| => Trim(ps[k]))
  }

  /** `normalizeText` without the Unicode decomposition: whitespace collapsed, ends trimmed. */
  function NormalizeText(s: string): string {
    CollapseSpaces(s)
  }

  function NormalizeAll(ts: seq<string>): (r: seq<string>)
    ensures |r| == |ts| && forall k :: 0 <= k < |ts| ==> r[k] == NormalizeText(ts[k])
  {
    seq(|ts|, k requires 0 <= k < |ts| => NormalizeText(ts[k]))
  }

  /** `text.split(/\r?\n/).map(l => l.trim()).filter(Boolean)` */
  function Lines(text: string): seq<string> {
    NonEmpty(TrimAll(SplitOn(text, '\n')))
  }

  /** The upper-cased words of the typed name (`normInputTokens`). */
  function InputTokens(inputName: Option<string>): seq<string> {
    Words(Upper(inputName.GetOr("")))
  }

  /** `[^\w\s]` */
  predicate IsSpecial(c: char) { !IsWordChar(c) && !IsSpace(c) }

  /** A token of the form `^[A-Z][a-z]{2,}$`, at most 15 long and not a stop word. */
  predicate NameLike(t: string) {
    3 <= |t| <= 15 && IsUpperLetter(t[0]) && (forall j :: 1 <= j < |t| ==> IsLowerLetter(t[j]))
    && Upper(t) !in StopWords
  }

  function CountNameLike(ts: seq<string>): (n: nat)
    ensures n <= |ts|
  {
    if |ts| == 0 then 0 else (if NameLike(ts[0]) then 1 else 0) + CountNameLike(ts[1..])
  }

  /** `^[A-Z\s]{1,20}$` */
  predicate ShortCapitals(up: string) {
    1 <= |up| <= 20 && forall i :: 0 <= i < |up| ==> IsUpperLetter(up[i]) || IsSpace(up[i])
  }

  // ---------------------------------------------------------------------------
  // Overlap with the typed name
  // ---------------------------------------------------------------------------

  /** Within `max(1, floor(min(len) * 0.3))` edits. */
  predicate Close(it: string, ut: string) {
    Dist(it, ut) <= MaxInt(1, 3 * MinInt(|it|, |ut|) / 10)
  }

  predicate AnyClose(it: string, ups: seq<string>) {
    exists k | 0 <= k < |ups| :: Close(it, ups[k])
  }

  /** What one typed token earns: 30 when it is a token of the line, else 15 when one is close. */
  function Credit(it: string, ups: seq<string>): nat {
    if it in ups then 30 else if AnyClose(it, ups) then 15 else 0
  }

  function OverlapCredit(its: seq<string>, ups: seq<string>): nat {
    if |its| == 0 then 0 else OverlapCredit(its[..|its| - 1], ups) + Credit(its[|its| - 1], ups)
  }

  /** The keyword signals of `scoreLine`, on the upper-cased line. */
  function KeywordScore(up: string): int {
    (if ContainsAnyWord(up, NameContext) then 50 else 0)
    + (if ContainsAnyWord(up, CertifyPhrases) then 40 else 0)
    - (if ContainsAnyWord(up, AdminWords) then 40 else 0)
    - (if ContainsAnyWord(up, CourseWords) then 30 else 0)
    - (if ContainsAnyWord(up, SignOffWords) then 25 else 0)
  }

  /** Digits, special characters, reference words and the token count. */
  function ShapeScore(l: string, up: string, tokens: seq<string>): int {
    - (if CountWhere(l, IsDigit) > 3 then 30 else 0)
    - (if CountWhere(l, IsSpecial) > 2 then 20 else 0)
    - (if ContainsAnyWord(up, ReferenceWords) then 30 else 0)
    + (if 2 <= |tokens| <= 4 then 30 else 0)
    - (if |tokens| > 4 then 10 else 0)
    + 15 * CountNameLike(tokens)
  }

  /** The penalties for short all-capital lines, long lines and short lines. */
  function LengthScore(l: string, up: string, tokens: seq<string>): int {
    - (if ShortCapitals(up) && |tokens| <= 1 then 15 else 0)
    - (if |l| > 100 then 20 else 0)
    - (if |l| < 5 then 10 else 0)
  }

  /** The overlap with the typed name, counted only when both sides have tokens. */
  function InputScore(inputs: seq<string>, tokens: seq<string>): nat {
    if |inputs| > 0 && |tokens| > 0 then OverlapCredit(inputs, UpperAll(tokens)) else 0
  }

  /** The score of a candidate line or fragment (`scoreLine`). */
  function LineScore(l: string, inputs: seq<string>): int {
    var up := Upper(l);
    var tokens := AlphaTokens(l);
    KeywordScore(up) + ShapeScore(l, up, tokens) + InputScore(inputs, tokens) + LengthScore(l, up, tokens)
  }

  /** The inner loop over the line's tokens: is some token within the edit threshold? */
  method FindClose(it: string, ups: seq<string>) returns (found: bool)
    ensures found == AnyClose(it, ups)
  {
    for k := 0 to |ups|
      invariant forall k' :: 0 <= k' < k ==> !Close(it, ups[k'])
    {
      var ut := ups[k];
      var d := RollingDistance(it, ut);
      var maxDistance := MaxInt(1, 3 * MinInt(|it|, |ut|) / 10);
      if d <= maxDistance {
        return true;
      }
    }
    return false;
  }

  /** The overlap loop of `scoreLine`: exact and fuzzy hits of the typed tokens. */
  method CountOverlap(its: seq<string>, ups: seq<string>) returns (overlap: nat, fuzzyOverlap: nat)
    ensures overlap * 30 + fuzzyOverlap * 15 == OverlapCredit(its, ups)
    ensures overlap + fuzzyOverlap <= |its|
  {
    overlap, fuzzyOverlap := 0, 0;
    for k := 0 to |its|
      invariant overlap * 30 + fuzzyOverlap * 15 == OverlapCredit(its[..k], ups)
      invariant overlap + fuzzyOverlap <= k
    {
      assert its[..k + 1][..k] == its[..k];
      var it := its[k];
      if it in ups {
        overlap := overlap + 1;
        continue;
      }
      var found := FindClose(it, ups);
      if found {
        fuzzyOverlap := fuzzyOverlap + 1;
      }
    }
    assert its[..|its|] == its;
  }

  method ScoreLine(l: string, inputs: seq<string>) returns (score: int)
    ensures score == LineScore(l, inputs)
  {
    var up := Upper(l);
    var tokens := AlphaTokens(l);
    score := KeywordScore(up) + ShapeScore(l, up, tokens);
    if |inputs| > 0 && |tokens| > 0 {
      var overlap, fuzzyOverlap := CountOverlap(inputs, UpperAll(tokens));
      score := score + overlap * 30;
      score := score + fuzzyOverlap * 15;
    }
    score := score + LengthScore(l, up, tokens);
  }

  // ---------------------------------------------------------------------------
  // Fragments
  // ---------------------------------------------------------------------------

  /** Length of the separator of `/,|;|\sand\s|\//i` that starts at `s[0]`, or 0. */
  function SeparatorAt(s: string): nat {
    if |s| == 0 then 0
    else if s[0] == ',' || s[0] == ';' || s[0] == '/' then 1
    else if |s| >= 5 && IsSpace(s[0]) && Upper(s[1..4]) == "AND" && IsSpace(s[4]) then 5
    else 0
  }

  /** `s.split(/,|;|\sand\s|\//i)`: the pieces between separators, leftmost first. */
  function SplitSeparators(s: string): (pieces: seq<string>)
    ensures |pieces| >= 1
    ensures forall k, j :: 0 <= k < |pieces| && 0 <= j < |pieces[k]| ==>
      pieces[k][j] != ',' && pieces[k][j] != ';' && pieces[k][j] != '/'
    decreases |s|
  {
    if |s| == 0 then [""]
    else if SeparatorAt(s) > 0 then [""] + SplitSeparators(s[SeparatorAt(s)..])
    else
      var rest := SplitSeparators(s[1..]);
      [[s[0]] + rest[0]] + rest[1..]
  }

  /** The part of a normalised line before its first `(`, trimmed. */
  function PreParen(base: string): string {
    Trim(SplitOn(base, '(')[0])
  }

  /** The non-empty, trimmed separator pieces of `preParen`. */
  function Parts(preParen: string): seq<string> {
    NonEmpty(TrimAll(SplitSeparators(preParen)))
  }

  /** Fragments from the certificate-phrase captures: trimmed, 3 to 99 characters, 30 bonus points. */
  function PhraseFragments(captures: seq<string>, inputs: seq<string>): seq<Fragment> {
    if |captures| == 0 then []
    else
      var e := Trim(captures[|captures| - 1]);
      PhraseFragments(captures[..|captures| - 1], inputs)
      + (if 2 < |e| < 100 then [Scored(e, inputs, 30)] else [])
  }

  /** A fragment scored by `scoreLine` plus a bonus. */
  function Scored(text: string, inputs: seq<string>, bonus: int): Fragment {
    Fragment(text, LineScore(text, inputs) + bonus)
  }

  function PartFragments(parts: seq<string>, inputs: seq<string>): (fs: seq<Fragment>)
    ensures |fs| == |parts|
  {
    if |parts| == 0 then []
    else
      var p := parts[|parts| - 1];
      PartFragments(parts[..|parts| - 1], inputs) + [Scored(p, inputs, 0)]
  }

  /** Everything one line contributes: phrase captures, separator parts, the whole pre-`(` text. */
  function LineFragments(l: string, inputs: seq<string>, phrases: string -> seq<string>): seq<Fragment> {
    var base := NormalizeText(l);
    var preParen := PreParen(base);
    PhraseFragments(phrases(base), inputs) + PartFragments(Parts(preParen), inputs)
    + [Scored(preParen, inputs, 0)]
  }

  function AllFragments(lines: seq<string>, inputs: seq<string>, phrases: string -> seq<string>): seq<Fragment> {
    if |lines| == 0 then []
    else AllFragments(lines[..|lines| - 1], inputs, phrases) + LineFragments(lines[|lines| - 1], inputs, phrases)
  }

  lemma PhraseFragmentsSnoc(captures: seq<string>, inputs: seq<string>, k: nat)
    requires k < |captures|
    ensures var e := Trim(captures[k]);
      PhraseFragments(captures[..k + 1], inputs)
      == PhraseFragments(captures[..k], inputs) + (if 2 < |e| < 100 then [Scored(e, inputs, 30)] else [])
  {
    assert captures[..k + 1][..k] == captures[..k];
  }

  lemma PartFragmentsSnoc(parts: seq<string>, inputs: seq<string>, k: nat)
    requires k < |parts|
    ensures PartFragments(parts[..k + 1], inputs) == PartFragments(parts[..k], inputs) + [Scored(parts[k], inputs, 0)]
  {
    assert parts[..k + 1][..k] == parts[..k];
  }

  method PhraseFragmentsOf(captures: seq<string>, inputs: seq<string>) returns (fs: seq<Fragment>)
    ensures fs == PhraseFragments(captures, inputs)
  {
    fs := [];
    for k := 0 to |captures|
      invariant fs == PhraseFragments(captures[..k], inputs)
    {
      var extracted := Trim(captures[k]);
      PhraseFragmentsSnoc(captures, inputs, k);
      if 2 < |extracted| < 100 {
        var sc := ScoreLine(extracted, inputs);
        var f := Fragment(extracted, sc + 30);
        assert f == Scored(extracted, inputs, 30);
        fs := fs + [f];
      }
    }
    assert captures[..|captures|] == captures;
  }

  method PartFragmentsOf(parts: seq<string>, inputs: seq<string>) returns (fs: seq<Fragment>)
    ensures fs == PartFragments(parts, inputs)
  {
    fs := [];
    for k := 0 to |parts|
      invariant fs == PartFragments(parts[..k], inputs)
    {
      var sc := ScoreLine(parts[k], inputs);
      var f := Fragment(parts[k], sc);
      assert f == Scored(parts[k], inputs, 0);
      PartFragmentsSnoc(parts, inputs, k);
      fs := fs + [f];
    }
    assert parts[..|parts|] == parts;
  }

  /** The body of the loop over the lines. */
  method LineFragmentsOf(l: string, inputs: seq<string>, phrases: string -> seq<string>)
    returns (fs: seq<Fragment>)
    ensures fs == LineFragments(l, inputs, phrases)
  {
    var base := NormalizeText(l);
    var phraseFragments := PhraseFragmentsOf(phrases(base), inputs);
    var preParen := PreParen(base);
    var partFragments := PartFragmentsOf(Parts(preParen), inputs);
    var whole := ScoreLine(preParen, inputs);
    var f := Fragment(preParen, whole);
    assert f == Scored(preParen, inputs, 0);
    fs := phraseFragments + partFragments + [f];
  }

  lemma AllFragmentsSnoc(lines: seq<string>, inputs: seq<string>, phrases: string -> seq<string>, k: nat)
    requires k < |lines|
    ensures AllFragments(lines[..k + 1], inputs, phrases)
      == AllFragments(lines[..k], inputs, phrases) + LineFragments(lines[k], inputs, phrases)
  {
    assert lines[..k + 1][..k] == lines[..k];
  }

  method CollectFragments(lines: seq<string>, inputs: seq<string>, phrases: string -> seq<string>)
    returns (fragments: seq<Fragment>)
    ensures fragments == AllFragments(lines, inputs, phrases)
  {
    fragments := [];
    for k := 0 to |lines|
      invariant fragments == AllFragments(lines[..k], inputs, phrases)
    {
      var fs := LineFragmentsOf(lines[k], inputs, phrases);
      AllFragmentsSnoc(lines, inputs, phrases, k);
      fragments := fragments + fs;
    }
    assert lines[..|lines|] == lines;
  }

  // ---------------------------------------------------------------------------
  // Candidates
  // ---------------------------------------------------------------------------

  /** The first index at or after `i` holding `:` or `-`, or `|s|`. */
  function LabelIndex(s: string, i: nat): (p: nat)
    requires i <= |s|
    ensures i <= p <= |s|
    ensures p < |s| ==> s[p] == ':' || s[p] == '-'
    ensures forall j :: i <= j < p ==> s[j] != ':' && s[j] != '-'
    decreases |s| - i
  {
    if i == |s| || s[i] == ':' || s[i] == '-' then i else LabelIndex(s, i + 1)
  }

  /**
   * `s.match(/[:\-]\s*(.+)$/)`: the text after the first colon or dash, trimmed, when that
   * mark is not the last character; otherwise `s` itself.
   */
  function AfterLabel(s: string): string {
    var p := LabelIndex(s, 0);
    if p + 1 < |s| then Trim(s[p + 1..]) else s
  }

  /** The clean-up of one of the five best fragments. */
  function FragmentCandidate(f: Fragment, inputs: seq<string>): Option<Candidate> {
    var candidate := AfterLabel(f.fragment);
    var tokens := NormalizeAll(AlphaTokens(candidate));
    if |tokens| >= 2 then Some(Candidate(Join(tokens, " "), f.score, FromFragment))
    else if |tokens| == 1 && |inputs| > 0 then
      if tokens[0] != "" && Upper(tokens[0]) in inputs then Some(Candidate(tokens[0], f.score, SingleToken))
      else None
    else if |Trim(candidate)| > 5 then Some(Candidate(Trim(candidate), f.score - 10, RawFragment))
    else None
  }

  /** Candidates from a prefix of the sorted fragments, skipping those scoring -10 or less. */
  function TopCandidates(sorted: seq<Fragment>, inputs: seq<string>): seq<Candidate> {
    if |sorted| == 0 then []
    else
      var f := sorted[|sorted| - 1];
      TopCandidates(sorted[..|sorted| - 1], inputs)
      + (if f.score > -10 && FragmentCandidate(f, inputs).Some? then [FragmentCandidate(f, inputs).value] else [])
  }

  function PatternCandidates(names: seq<string>, inputs: seq<string>): (cs: seq<Candidate>)
    ensures |cs| == |names|
  {
    if |names| == 0 then []
    else
      var p := names[|names| - 1];
      PatternCandidates(names[..|names| - 1], inputs) + [PatternCandidate(p, inputs)]
  }

  /** A pattern name, scored with 20 bonus points. */
  function PatternCandidate(p: string, inputs: seq<string>): Candidate {
    Candidate(p, LineScore(p, inputs) + 20, Pattern)
  }

  /** Strategy 3: the typed name, word by word, inside the upper-cased text. */
  function DirectCandidates(text: string, inputName: Option<string>, inputs: seq<string>): seq<Candidate> {
    if |inputs| > 0 && Contains(Upper(text), Upper(Join(inputs, " ")))
    then [Candidate(inputName.GetOr(""), 100, DirectMatch)]
    else []
  }

  function AllCandidates(text: string, inputName: Option<string>, patternNames: seq<string>,
                         phrases: string -> seq<string>): seq<Candidate>
  {
    var inputs := InputTokens(inputName);
    var sorted := SortDesc(AllFragments(Lines(text), inputs, phrases), FragmentScore);
    PatternCandidates(patternNames, inputs)
    + TopCandidates(sorted[..MinNat(5, |sorted|)], inputs)
    + DirectCandidates(text, inputName, inputs)
  }

  /** The name of the best candidate, when it scores above -5. */
  function ChosenName(candidates: seq<Candidate>): Option<string> {
    var sorted := SortDesc(candidates, CandidateScore);
    if |sorted| > 0 && sorted[0].score > -5 then Some(sorted[0].name) else None
  }

  /** What `extractFieldsFromText(text, inputName)` returns. */
  function Extract(text: string, inputName: Option<string>, patternNames: seq<string>,
                   phrases: string -> seq<string>): Extracted
  {
    Extracted(ChosenName(AllCandidates(text, inputName, patternNames, phrases)), FirstEmail(Lines(text)))
  }

  method SelectTop(sorted: seq<Fragment>, inputs: seq<string>) returns (cs: seq<Candidate>)
    ensures cs == TopCandidates(sorted[..MinNat(5, |sorted|)], inputs)
  {
    var n := MinNat(5, |sorted|);
    cs := [];
    for i := 0 to n
      invariant cs == TopCandidates(sorted[..i], inputs)
    {
      TopCandidatesSnoc(sorted, inputs, i);
      var frag := sorted[i];
      if frag.score > -10 {
        var c := FragmentCandidate(frag, inputs);
        if c.Some? {
          cs := cs + [c.value];
        }
      }
    }
  }

  lemma TopCandidatesSnoc(sorted: seq<Fragment>, inputs: seq<string>, k: nat)
    requires k < |sorted|
    ensures var f := sorted[k];
      TopCandidates(sorted[..k + 1], inputs) == TopCandidates(sorted[..k], inputs)
        + (if f.score > -10 && FragmentCandidate(f, inputs).Some? then [FragmentCandidate(f, inputs).value] else [])
  {
    assert sorted[..k + 1][..k] == sorted[..k];
  }

  lemma PatternCandidatesSnoc(names: seq<string>, inputs: seq<string>, k: nat)
    requires k < |names|
    ensures PatternCandidates(names[..k + 1], inputs)
      == PatternCandidates(names[..k], inputs) + [PatternCandidate(names[k], inputs)]
  {
    assert names[..k + 1][..k] == names[..k];
  }

  /** Strategy 1: the names the patterns found, scored with 20 bonus points. */
  method PatternCandidatesOf(patternNames: seq<string>, inputs: seq<string>) returns (candidates: seq<Candidate>)
    ensures candidates == PatternCandidates(patternNames, inputs)
  {
    candidates := [];
    for k := 0 to |patternNames|
      invariant candidates == PatternCandidates(patternNames[..k], inputs)
    {
      var sc := ScoreLine(patternNames[k], inputs);
      var c := Candidate(patternNames[k], sc + 20, Pattern);
      assert c == PatternCandidate(patternNames[k], inputs);
      PatternCandidatesSnoc(patternNames, inputs, k);
      candidates := candidates + [c];
    }
    assert patternNames[..|patternNames|] == patternNames;
  }

  /** Strategies 1 to 3: every candidate, in the order `extractFieldsFromText` pushes them. */
  method GatherCandidates(text: string, inputName: Option<string>, patternNames: seq<string>,
                          phrases: string -> seq<string>) returns (candidates: seq<Candidate>)
    ensures candidates == AllCandidates(text, inputName, patternNames, phrases)
  {
    var inputs := InputTokens(inputName);
    candidates := PatternCandidatesOf(patternNames, inputs);
    var fragments := CollectFragments(Lines(text), inputs, phrases);
    fragments := SortDesc(fragments, FragmentScore);
    var top := SelectTop(fragments, inputs);
    candidates := candidates + top;
    var direct: seq<Candidate> := [];
    if |inputs| > 0 {
      var fullInputName := Join(inputs, " ");
      if Contains(Upper(text), Upper(fullInputName)) {
        direct := [Candidate(inputName.GetOr(""), 100, DirectMatch)];
      }
    }
    assert direct == DirectCandidates(text, inputName, inputs);
    candidates := candidates + direct;
  }

  method ExtractFieldsFromText(text: string, inputName: Option<string>, patternNames: seq<string>,
                               phrases: string -> seq<string>) returns (r: Extracted)
    ensures r == Extract(text, inputName, patternNames, phrases)
  {
    var lines := Lines(text);
    var candidates := GatherCandidates(text, inputName, patternNames, phrases);
    candidates := SortDesc(candidates, CandidateScore);
    var name := None;
    if |candidates| > 0 && candidates[0].score > -5 {
      name := Some(candidates[0].name);
    }
    var email := ScanEmail(lines);
    r := Extracted(name, email);
  }

  // ---------------------------------------------------------------------------
  // Properties
  // ---------------------------------------------------------------------------

  /**
   * Each typed token earns at most 30 points: the credit reaches 30 per token exactly when
   * every typed token is a token of the line, and it is 0 exactly when no typed token is a token
   * of the line or close to one.
   */
  lemma {:induction false} OverlapCreditBounds(its: seq<string>, ups: seq<string>)
    ensures OverlapCredit(its, ups) <= 30 * |its|
    ensures OverlapCredit(its, ups) == 30 * |its| <==> forall k :: 0 <= k < |its| ==> its[k] in ups
    ensures OverlapCredit(its, ups) == 0 <==>
      forall k :: 0 <= k < |its| ==> its[k] !in ups && !AnyClose(its[k], ups)
  {
    if |its| > 0 {
      var init := its[..|its| - 1];
      OverlapCreditBounds(init, ups);
      assert forall k :: 0 <= k < |its| - 1 ==> its[k] == init[k];
    }
  }

  /** A run of letters is left alone by `normalizeText`. */
  lemma LetterTokenIsNormal(t: string)
    requires |t| > 0 && forall j :: 0 <= j < |t| ==> IsLetter(t[j])
    ensures NormalizeText(t) == t
  {
    assert Blank(t) == t;
    SplitWhereNone(t, x => x == ' ');
    assert Words(t) == [t];
  }

  lemma NormalizedTokens(s: string)
    ensures NormalizeAll(AlphaTokens(s)) == AlphaTokens(s)
    ensures forall k :: 0 <= k < |AlphaTokens(s)| ==> AlphaTokens(s)[k] != "" && ' ' !in AlphaTokens(s)[k]
  {
    var ts := AlphaTokens(s);
    forall k | 0 <= k < |ts|
      ensures NormalizeText(ts[k]) == ts[k] && ' ' !in ts[k]
    {
      LetterTokenIsNormal(ts[k]);
    }
  }

  /**
   * The clean-up of a fragment: two or more letter tokens become the candidate, exactly those
   * tokens joined by single spaces, at the fragment's score. A single token is kept only when
   * it is one of the typed tokens. The raw text, longer than 5 characters, is kept 10 points
   * lower only when it has no letter token, or one token and no typed name.
   */
  lemma FragmentCandidateShape(f: Fragment, inputs: seq<string>)
    ensures var c := FragmentCandidate(f, inputs);
      var tokens := AlphaTokens(AfterLabel(f.fragment));
      && (c.Some? && c.value.source == FromFragment ==>
            c.value.score == f.score && |tokens| >= 2 && Fields(c.value.name) == tokens)
      && (c.Some? && c.value.source == SingleToken ==>
            c.value.score == f.score && tokens == [c.value.name] && Upper(c.value.name) in inputs)
      && (c.Some? && c.value.source == RawFragment ==>
            c.value.score == f.score - 10 && |c.value.name| > 5 && (|tokens| == 0 || (|tokens| == 1 && |inputs| == 0)))
      && (c.Some? ==> c.value.source in {FromFragment, SingleToken, RawFragment})
      && (|tokens| >= 2 ==> c.Some? && c.value.source == FromFragment)
  {
    var tokens := AlphaTokens(AfterLabel(f.fragment));
    NormalizedTokens(AfterLabel(f.fragment));
    if |tokens| >= 2 {
      FieldsOfJoin(tokens);
    }
  }

  /** A candidate comes from the fragments exactly when one of them, scoring above -10, cleans up to it. */
  lemma TopCandidatesFrom(fs: seq<Fragment>, inputs: seq<string>, c: Candidate)
    ensures |TopCandidates(fs, inputs)| <= |fs|
    ensures c in TopCandidates(fs, inputs) <==>
      exists i :: 0 <= i < |fs| && fs[i].score > -10 && FragmentCandidate(fs[i], inputs) == Some(c)
  {
    TopCandidatesLength(fs, inputs);
    if c in TopCandidates(fs, inputs) {
      TopCandidatesSound(fs, inputs, c);
    }
    if exists i :: 0 <= i < |fs| && fs[i].score > -10 && FragmentCandidate(fs[i], inputs) == Some(c) {
      var i :| 0 <= i < |fs| && fs[i].score > -10 && FragmentCandidate(fs[i], inputs) == Some(c);
      TopCandidatesComplete(fs, inputs, i);
    }
  }

  lemma {:induction false} TopCandidatesLength(fs: seq<Fragment>, inputs: seq<string>)
    ensures |TopCandidates(fs, inputs)| <= |fs|
  {
    if |fs| > 0 {
      TopCandidatesLength(fs[..|fs| - 1], inputs);
    }
  }

  lemma {:induction false} TopCandidatesSound(fs: seq<Fragment>, inputs: seq<string>, c: Candidate)
    requires c in TopCandidates(fs, inputs)
    ensures exists i :: 0 <= i < |fs| && fs[i].score > -10 && FragmentCandidate(fs[i], inputs) == Some(c)
  {
    var init, f := fs[..|fs| - 1], fs[|fs| - 1];
    if c in TopCandidates(init, inputs) {
      TopCandidatesSound(init, inputs, c);
      var i :| 0 <= i < |init| && init[i].score > -10 && FragmentCandidate(init[i], inputs) == Some(c);
      assert fs[i] == init[i];
    } else {
      assert f.score > -10 && FragmentCandidate(f, inputs) == Some(c);
    }
  }

  lemma {:induction false} TopCandidatesComplete(fs: seq<Fragment>, inputs: seq<string>, i: nat)
    requires i < |fs| && fs[i].score > -10 && FragmentCandidate(fs[i], inputs).Some?
    ensures FragmentCandidate(fs[i], inputs).value in TopCandidates(fs, inputs)
  {
    var init := fs[..|fs| - 1];
    if i < |fs| - 1 {
      assert init[i] == fs[i];
      TopCandidatesComplete(init, inputs, i);
    }
  }

  /** Only the five best fragments can become candidates. */
  lemma AtMostFiveFromFragments(sorted: seq<Fragment>, inputs: seq<string>)
    ensures |TopCandidates(sorted[..MinNat(5, |sorted|)], inputs)| <= 5
  {
    var c := Candidate("", 0, FromFragment);
    TopCandidatesFrom(sorted[..MinNat(5, |sorted|)], inputs, c);
  }

  /** A name is chosen exactly when some candidate scores above -5, and it is the earliest best one. */
  lemma ChosenNameIsBest(candidates: seq<Candidate>)
    ensures ChosenName(candidates).Some? <==> exists k :: 0 <= k < |candidates| && candidates[k].score > -5
    ensures ChosenName(candidates).Some? ==>
      ChosenName(candidates).value == candidates[FirstMaxIndex(candidates, CandidateScore)].name
  {
    if |candidates| > 0 {
      SortHead(candidates, CandidateScore);
      var i := FirstMaxIndex(candidates, CandidateScore);
      assert CandidateScore(candidates[i]) == candidates[i].score;
      assert forall k :: 0 <= k < |candidates| ==> CandidateScore(candidates[k]) == candidates[k].score;
    }
  }

  /**
   * When the typed name occurs in the text, a name is extracted and the winning candidate
   * scores at least 100. It is the typed name itself unless another candidate also reaches 100.
   */
  lemma DirectMatchIsExtracted(text: string, inputName: Option<string>, patternNames: seq<string>,
                               phrases: string -> seq<string>)
    requires var inputs := InputTokens(inputName);
      |inputs| > 0 && Contains(Upper(text), Upper(Join(inputs, " ")))
    ensures var cs := AllCandidates(text, inputName, patternNames, phrases);
      var name := Extract(text, inputName, patternNames, phrases).name;
      && name.Some?
      && (exists k :: 0 <= k < |cs| && cs[k].name == name.value && cs[k].score >= 100)
      && ((forall k :: 0 <= k < |cs| && cs[k].source != DirectMatch ==> cs[k].score < 100) ==>
            name.value == inputName.GetOr(""))
  {
    var inputs := InputTokens(inputName);
    var sorted := SortDesc(AllFragments(Lines(text), inputs, phrases), FragmentScore);
    var top := sorted[..MinNat(5, |sorted|)];
    var front := PatternCandidates(patternNames, inputs) + TopCandidates(top, inputs);
    var direct := Candidate(inputName.GetOr(""), 100, DirectMatch);
    assert DirectCandidates(text, inputName, inputs) == [direct];
    assert AllCandidates(text, inputName, patternNames, phrases) == front + [direct];
    FrontSources(patternNames, top, inputs);
    DirectWins(front, direct);
  }

  /** A direct match behind candidates that are not direct matches wins unless one of them also reaches 100. */
  lemma DirectWins(front: seq<Candidate>, direct: Candidate)
    requires direct.score == 100 && direct.source == DirectMatch
    requires forall c :: c in front ==> c.source != DirectMatch
    ensures var cs := front + [direct];
      var name := ChosenName(cs);
      && name.Some?
      && (exists k :: 0 <= k < |cs| && cs[k].name == name.value && cs[k].score >= 100)
      && ((forall k :: 0 <= k < |cs| && cs[k].source != DirectMatch ==> cs[k].score < 100) ==>
            name.value == direct.name)
  {
    var cs := front + [direct];
    BestCandidate(cs, |front|);
    if forall k :: 0 <= k < |cs| && cs[k].source != DirectMatch ==> cs[k].score < 100 {
      forall i | 0 <= i < |cs| && i != |front|
        ensures cs[i].score < cs[|front|].score
      {
        assert cs[i] == front[i] && front[i] in front;
      }
    }
  }

  /** Neither the patterns nor the fragments give a direct-match candidate. */
  lemma FrontSources(patternNames: seq<string>, top: seq<Fragment>, inputs: seq<string>)
    ensures forall c :: c in PatternCandidates(patternNames, inputs) + TopCandidates(top, inputs) ==>
      c.source != DirectMatch && (|inputs| == 0 ==> c.source != SingleToken)
  {
    PatternSource(patternNames, inputs);
    forall c | c in TopCandidates(top, inputs)
      ensures c.source != DirectMatch && (|inputs| == 0 ==> c.source != SingleToken)
    {
      TopCandidatesFrom(top, inputs, c);
      var i :| 0 <= i < |top| && top[i].score > -10 && FragmentCandidate(top[i], inputs) == Some(c);
      FragmentCandidateShape(top[i], inputs);
    }
  }

  /** Any candidate's presence guarantees a chosen name at least as good as it. */
  lemma BestCandidate(cs: seq<Candidate>, k: nat)
    requires k < |cs| && cs[k].score > -5
    ensures ChosenName(cs).Some?
    ensures exists i :: 0 <= i < |cs| && cs[i].name == ChosenName(cs).value && cs[i].score >= cs[k].score
    ensures (forall i :: 0 <= i < |cs| && i != k ==> cs[i].score < cs[k].score) ==> ChosenName(cs).value == cs[k].name
  {
    ChosenNameIsBest(cs);
    var i := FirstMaxIndex(cs, CandidateScore);
    assert CandidateScore(cs[k]) == cs[k].score && CandidateScore(cs[i]) == cs[i].score;
  }

  /** Without a typed name there is neither a single-token nor a direct-match candidate. */
  lemma NoNameNoNameCandidates(text: string, patternNames: seq<string>, phrases: string -> seq<string>)
    ensures forall c :: c in AllCandidates(text, None, patternNames, phrases) ==>
      c.source != SingleToken && c.source != DirectMatch
  {
    var inputs := InputTokens(None);
    assert Upper("") == "";
    assert inputs == [];
    var sorted := SortDesc(AllFragments(Lines(text), inputs, phrases), FragmentScore);
    var top := sorted[..MinNat(5, |sorted|)];
    FrontSources(patternNames, top, inputs);
    assert AllCandidates(text, None, patternNames, phrases)
      == PatternCandidates(patternNames, inputs) + TopCandidates(top, inputs);
  }

  lemma {:induction false} PatternSource(names: seq<string>, inputs: seq<string>)
    ensures forall c :: c in PatternCandidates(names, inputs) ==> c.source == Pattern
  {
    if |names| > 0 {
      PatternSource(names[..|names| - 1], inputs);
    }
  }

  /**
   * The extracted e-mail is a substring, in the language of the e-mail pattern, of the first
   * line that has one; no earlier line has any.
   */
  lemma ExtractedEmail(text: string, inputName: Option<string>, patternNames: seq<string>,
                       phrases: string -> seq<string>)
    ensures var lines := Lines(text);
      var email := Extract(text, inputName, patternNames, phrases).email;
      && (email.Some? <==> exists k :: 0 <= k < |lines| && HasEmail(lines[k]))
      && (email.Some? ==>
            exists k :: 0 <= k < |lines| && IsEmail(email.value) && Contains(lines[k], email.value)
              && (forall k' :: 0 <= k' < k ==> !HasEmail(lines[k'])))
  {
    FirstEmailOfLines(Lines(text));
  }

  ghost predicate HasEmail(l: string) {
    exists i, j :: 0 <= i <= j <= |l| && IsEmail(l[i..j])
  }

  lemma FirstEmailOfLines(lines: seq<string>)
    ensures var email := FirstEmail(lines);
      && (email.Some? <==> exists k :: 0 <= k < |lines| && HasEmail(lines[k]))
      && (email.Some? ==>
            exists k :: 0 <= k < |lines| && IsEmail(email.value) && Contains(lines[k], email.value)
              && (forall k' :: 0 <= k' < k ==> !HasEmail(lines[k'])))
  {
    FirstEmailIsFirst(lines);
    forall k | 0 <= k < |lines|
      ensures FindEmail(lines[k]).Some? <==> HasEmail(lines[k])
      ensures FindEmail(lines[k]).Some? ==> IsEmail(FindEmail(lines[k]).value) && Contains(lines[k], FindEmail(lines[k]).value)
    {
      FindEmailIff(lines[k]);
    }
  }
}
