# CheckMate name verification, modelled in Dafny

CheckMate decides whether a certificate belongs to the student who typed a name. These
modules model its deterministic core.

- **`Normalize`**: `normalizeName` of `lib/sample-db.ts`. It trims, collapses white space,
  upper-cases, sorts the tokens and joins them with single spaces.
- **`Levenshtein`**: both edit-distance programs, proved against one recursive definition.
  - The full matrix of `lib/logic.ts` is a method over a two-dimensional array.
  - The single rolling row of the verify route is an array updated in place.
- **`Comparator`**: `compareNamesFlexible`.
  - It compares token sets in any order and applies three "flexible order" patterns.
  - A greedy Levenshtein pass uses each extracted token at most once.
  - The result is a score from 0 to 100 with a method tag.
- **`DiscreteMath`**: the set, combinatorics, Boolean-algebra and probability analyses, and
  `generateNamePermutations`.
- **`Heuristics`**: `analyzeDocumentStructure` and `assessEligibility`, both of which push
  messages and accumulate a score.
- **`Decision`**: the pure part of `verifyDocument`. It covers:
  - the two fallback strategies, which overwrite the name comparison;
  - the weighted authenticity and eligibility scores;
  - the propositions A, E and Y = A ∧ E;
  - the fixed truth table and the final decision.
- **`Sorting`, `Email` and `Extractor`**: `extractFieldsFromText` of `app/api/verify/route.ts`.
  - Fragments are scored line by line by `scoreLine`.
  - The list is sorted by score with a stable sort, and the top five become candidates.
  - Candidates are cleaned up, a direct-match candidate is added, and the best candidate
    above -5 wins.
  - The e-mail address is the first match of the e-mail pattern, scanning lines in order.
- **`Recovery`**: the recovery of the extracted name in the verify route.
  - `isHeaderLike` decides whether the extracted name must be replaced.
  - Replacements are tried in order: the certificate named in the file name,
    `bestCertificateMatch`, and the text line with the best overlap.
  - For uploads, the raw-buffer search for the typed name or a run of its tokens follows.
  - Last comes `fuzzySubstringSearch` over `normalizeLetters` of the text and of the buffer.

Each loop of the source is a method whose `ensures` ties its result to a specification
function. The lemmas state the source's promises about those functions: idempotence, bounds,
set partitions, the conjunction, stability and maximality.

Parameters stand in for what the core obtains from outside:
- the certificate store is `certs`;
- the OCR text is `text`;
- the UTF-8 decoding of the uploaded bytes is `raw`;
- the captures of the two regex-driven name sources are `patternNames` and `phrases`.

## Model

| member | source | states |
|---|---|---|
| Normalize.NormalizeIdempotent | lib/sample-db.ts:9-11 | normalising twice gives the same string as normalising once |
| Normalize.NormalizedFields | lib/sample-db.ts:10 | the space-separated fields of the result are the upper-cased input tokens, sorted ascending, as a permutation of them, none empty and none holding a space |
| Normalize.NormalizedSpacing | lib/sample-db.ts:10 | the result has no leading, trailing or doubled space |
| Normalize.NormalizeEmptyIff | lib/sample-db.ts:10 | the result is "" exactly when every input character is white space (including the empty input) |
| Normalize.NormalizeOrderInvariant | lib/sample-db.ts:10 | inputs whose upper-cased tokens form the same multiset normalise to the same string |
| Normalize.Sort | lib/sample-db.ts:10 | `sort()` yields an ascending permutation of its input |
| Levenshtein.LevenshteinDistance | lib/logic.ts:404-424 | the matrix program returns the edit distance `Dist(a, b)` |
| Levenshtein.FillRow | lib/logic.ts:413-421 | one pass of the inner loop fills row j with the edit distances of every prefix of a against b[..j], leaving every other row as it was; each cell is the minimum of deletion, insertion and substitution from its three neighbours (the helper DStep unfolds that recurrence) |
| Levenshtein.RollingDistance | app/api/verify/route.ts:22-39 | the rolling-row program, early returns included, returns the same edit distance, so the two programs agree on every input |
| Levenshtein.NextRow | app/api/verify/route.ts:28-37 | one pass of the outer loop turns row i-1 of the distance table into row i, in place |
| Levenshtein.DistBounds | lib/logic.ts:404-424 | the length difference is at most the distance, and the distance is at most the longer length; so d("", b) = \|b\| |
| Levenshtein.DistSymmetric | lib/logic.ts:404-424 | d(a, b) = d(b, a) |
| Levenshtein.DistZeroIff | lib/logic.ts:404-424 | the distance is 0 exactly for equal strings |
| Comparator.NormalizeToken | lib/logic.ts:131 | a normalised token is no longer than the token and holds only upper-case word characters |
| Comparator.CountExactOverlap | lib/logic.ts:142-147 | the loop counts the normalised input tokens present among the extracted ones |
| Comparator.CountPresentFull | lib/logic.ts:142-147 | the count equals the number of input tokens exactly when every input token is present |
| Comparator.CountPresentMonotone | lib/logic.ts:142-147 | the exact overlap count never decreases when the extracted side holds at least the same tokens |
| Comparator.OverlapCoversCount | lib/logic.ts:179-182 | the reported `tokenOverlap` is never below the exact count, since the flexible boost only raises it |
| Comparator.TokenOverlapMonotone | lib/logic.ts:142-182 | against an extracted name holding at least the normalised tokens of another, the reported overlap is at least the other's exact count, so it does not shrink unless the boost had raised the other's |
| Comparator.OverlapDropExample | lib/logic.ts:166-182 | for distinct words of capitals x, y (say "A", "B"): "x y" against "x x x" reports overlap 2 (boosted), against "x x x x" only 1, although the second holds every token of the first |
| Comparator.BestIndexIsEarliestNearest | lib/logic.ts:189-202 | the chosen extracted index is unused and within the allowed distance; it is the nearest such token, the earliest among equals; none is chosen exactly when no token qualifies |
| Comparator.GreedyClaimsDistinct | lib/logic.ts:186-208 | each match claims a distinct extracted index, so the count equals the size of the used set |
| Comparator.GreedyCountBound | lib/logic.ts:186-208 | fuzzyOverlap ≤ min(#input tokens, #extracted tokens) |
| Comparator.GreedyFuzzyOverlap | lib/logic.ts:186-208 | the loop with its used-index set computes the greedy matching count |
| Comparator.NearestUnused | lib/logic.ts:190-202 | the scan for one input token returns -1 exactly when BestIndex finds no index, and otherwise the index BestIndex settles on, which BestIndexIsEarliestNearest shows is the earliest unused, in-tolerance token of least distance |
| Comparator.Fraction | lib/logic.ts:268 | the overlap fraction is non-negative and at most 1 when the overlap is at most the token count |
| Comparator.FourFifthsByDivision | lib/logic.ts:212 | the integer test used for "at least 80%" agrees with the division |
| Comparator.Branch | lib/logic.ts:218-262 | the exact-match branch is taken exactly when the sets are equal; the flexible branch exactly when only a pattern holds; the partial-name-match branch exactly when neither of those holds, the token lists are not both fully shared, the exact overlap reaches the shorter list and the lengths differ by at most one; the multi-token branch only at ≥2 shared tokens and a fraction ≥0.7 |
| Comparator.BranchScore | lib/logic.ts:218-262 | fixed-score branches always have a score, partial-name-match the fixed 90; the additive branches have one exactly when the fraction is defined, and it is non-negative |
| Comparator.Grade | lib/logic.ts:214-270 | exact match scores 100, flexible order 95, partial-name-match exactly 90, and every defined score lies in [0, 100] |
| Comparator.Analyze | lib/logic.ts:123-183 | the token lists and counts are consistent, and the exact overlap never exceeds the normalised input tokens |
| Comparator.Report | lib/logic.ts:265-272 | the returned score is capped at 100 and the fraction lies in [0, 1] |
| Comparator.CompareNamesFlexible | lib/logic.ts:115-273 | the imperative comparator returns the specification `Compare` |
| Comparator.NoTokensIff | lib/logic.ts:123-128 | method 'no-tokens' exactly when either side has no space-separated token, and then no match, score 0, overlap 0 |
| Comparator.ExactMatchIsSetEquality | lib/logic.ts:136-139 | the size-and-membership test is set equality |
| Comparator.ExactMatchFlag | lib/logic.ts:136-179 | the returned exactMatch is exactly set equality or one of the three flexible patterns |
| Comparator.SameTokenSetScoresFull | lib/logic.ts:218-220 | equal normalised token sets give score 100 and 'exact-match' |
| Comparator.FlexibleScores95 | lib/logic.ts:221-224 | a flexible pattern without set equality gives 95 and 'flexible-order-match' |
| Comparator.CompareSelf | lib/logic.ts:115-273 | a name with tokens matches itself exactly with score 100 |
| Comparator.CompareBounds | lib/logic.ts:260-270 | the score lies in [0, 100] and the overlap fraction in [0, 1] |
| Comparator.AllPresentMatches | lib/logic.ts:150-179 | equal-length token lists with every input token present satisfy set equality or a flexible pattern |
| Comparator.NoDeadBranch | lib/logic.ts:225-246 | the perfect-tokens, two-part and three-part reorder branches are never taken |
| Comparator.DeadBranches | lib/logic.ts:225-246 | no comparison ever reports those three methods |
| Comparator.NaNGrade | lib/logic.ts:231-262 | with no normalised input token the additive branches have no defined score (0/0) |
| Comparator.NaNScoreAsWritten | lib/logic.ts:231-236 | punctuation-only input tokens make the as-written score undefined, while the corrected score stays in [0, 100] |
| Comparator.NaNExample | lib/logic.ts:132 | "!" against "A B" meets the conditions of the previous row |
| Comparator.PartialNameMatchScores | lib/logic.ts:247-251 | a comparison reports 'partial-name-match' exactly when both sides have tokens, neither set equality nor a flexible pattern holds, the overlap reaches the shorter list and the lengths differ by at most one; it then scores exactly 90 |
| Comparator.PartialNameMatchExample | lib/logic.ts:247-251 | "A" against "A B" reaches that branch and scores 90, so it is live |
| DiscreteMath.MapUpper | lib/logic.ts:303 | tokens are upper-cased one by one |
| DiscreteMath.Distinct | lib/logic.ts:303-310 | `new Set` keeps each element once and the same members |
| DiscreteMath.Filter | lib/logic.ts:307-313 | the filter keeps exactly the members in (or not in) the other set, without duplicates |
| DiscreteMath.SetPartition | lib/logic.ts:303-313 | intersection and difference partition the upper-cased input set |
| DiscreteMath.UnionContainsBoth | lib/logic.ts:310 | the union holds exactly the members of either set, once each |
| DiscreteMath.JaccardOfCounts | lib/logic.ts:316 | the ratio lies in [0, 1], is 0 for an empty union, is 0 exactly when nothing is shared, and is 1 only for equal counts |
| DiscreteMath.JaccardBounds | lib/logic.ts:316 | Jaccard lies in [0, 1]; it is 0 exactly when no upper-cased input token is an upper-cased extracted token (so also for an empty union), and for a non-empty union 1 exactly when the sets are equal |
| DiscreteMath.Factorial | lib/logic.ts:381 | every factorial is at least 1 |
| DiscreteMath.ChooseTimesFactorials | lib/logic.ts:391-395 | C(n, k)·k!·(n-k)! = n! |
| DiscreteMath.BinomialIsChoose | lib/logic.ts:395 | the factorial quotient is the binomial coefficient |
| DiscreteMath.ChoosePositive | lib/logic.ts:395 | C(n, k) ≥ 1 for k ≤ n |
| DiscreteMath.ActualMatchesBound | lib/logic.ts:387-394 | actualMatches is the intersection size and at most the distinct input tokens, so n - k ≥ 0 always |
| DiscreteMath.ScorePerOrderingBounds | lib/logic.ts:396 | the combinatorial score lies in (0, 100] |
| DiscreteMath.CombinatoricsBounds | lib/logic.ts:384-396 | the permutation count is positive and the combinatorial score lies in (0, 100] |
| DiscreteMath.BooleanLaws | lib/logic.ts:322-344 | satisfiability is 100/50/0 exactly for conjunction/exclusive or/neither, De Morgan, and the truth table has 4 rows |
| DiscreteMath.TruthTableIsConjunction | lib/logic.ts:741-752 | the four rows list each (A, E) once, with Y = A ∧ E |
| DiscreteMath.AnalyzeProbability | lib/logic.ts:347-374 | with the confidence clamped, 0 ≤ low ≤ confidence ≤ high ≤ 100 |
| DiscreteMath.ConfidenceFormula | lib/logic.ts:355-364 | the confidence is 0.7·(nameScore + documentScore) capped at 100 |
| DiscreteMath.InvertedIntervalAsWritten | lib/logic.ts:364-371 | as written, a negative score makes the interval's lower end exceed its upper end |
| DiscreteMath.ClampAgreesOnDecision | lib/logic.ts:364 | clamping changes neither the 50% test nor any result for non-negative scores |
| DiscreteMath.GenerateNamePermutations | lib/logic.ts:276-295 | the original order comes first |
| DiscreteMath.PermutationsAreRearrangements | lib/logic.ts:276-295 | every listed order is a rearrangement of the tokens |
| DiscreteMath.PermutationsAreComplete | lib/logic.ts:283-292 | for up to three tokens every rearrangement is listed |
| Heuristics.Present | lib/logic.ts:440 | the filter keeps at most the listed words |
| Heuristics.PresentMembers | lib/logic.ts:440-451 | the kept words are exactly the listed words that occur in the text |
| Heuristics.AtLeastTwoPresent | lib/logic.ts:439-440 | at least two kept words exactly when two distinct listed words occur |
| Heuristics.ExpectedFieldsIff | lib/logic.ts:439-440 | containsExpectedFields exactly when two of NAME/DATE/SIGNATURE/SEAL occur |
| Heuristics.SuspicionsAreBounded | lib/logic.ts:443-451 | at most 8 suspicions, one per present forgery word, with no repeats |
| Heuristics.Indicated | lib/logic.ts:449-451 | one "contains" suspicion per word, in order |
| Heuristics.AnalyzeDocumentStructure | lib/logic.ts:427-454 | the pushing method returns the specified analysis |
| Heuristics.PushIndicated | lib/logic.ts:448-451 | the loop appends one suspicion per present forgery word |
| Heuristics.FirstOccurring | lib/logic.ts:500-509 | the chosen ordering occurs in the text; none is chosen exactly when no ordering occurs |
| Heuristics.FindOrdering | lib/logic.ts:503-509 | the loop with its break finds that first occurring ordering |
| Heuristics.LongTokens | lib/logic.ts:517-519 | the kept tokens are exactly those of length ≥ 3 |
| Heuristics.Indicators | lib/logic.ts:547-578 | one factor per present term, in order |
| Heuristics.AssessEligibility | lib/logic.ts:456-581 | the accumulating method returns the specified assessment |
| Heuristics.CheckOcrName | lib/logic.ts:467-488 | the OCR-name stage updates factors, score and the found flag as specified |
| Heuristics.ApplyComparison | lib/logic.ts:469-487 | the comparison's grade selects the bonus or the penalty as specified |
| Heuristics.CheckText | lib/logic.ts:491-538 | the text stage updates factors, score and the found flag as specified |
| Heuristics.AddIndicators | lib/logic.ts:547-578 | each present term adds its factor and its bonus |
| Heuristics.ContextAddsBonus | lib/logic.ts:546-578 | the context stage adds exactly the context bonus and keeps the found flag |
| Heuristics.ContextKeepsFactors | lib/logic.ts:546-578 | the context stage only appends factors |
| Heuristics.OcrStageScore | lib/logic.ts:467-488 | after the OCR stage the score is non-negative, and at most 30 when no name was found |
| Heuristics.TextStageScore | lib/logic.ts:491-538 | the text stage never lowers the score, and adds at most 5 when no name was found |
| Heuristics.NameTallyScore | lib/logic.ts:465-544 | after the name stages the score is non-negative, and at most 10 when no name was found |
| Heuristics.EligibilityBounds | lib/logic.ts:580 | the eligibility score lies in [0, 100] |
| Heuristics.PerfectOcrScores | lib/logic.ts:471-474 | a perfect OCR match records that factor first and scores at least 80 |
| Heuristics.FullNameInTextScores | lib/logic.ts:494-497 | the full name in the text records that factor first and scores at least 90 |
| Heuristics.UnfoundNameIsCapped | lib/logic.ts:541-544 | an unfound name records the no-name factor, and the score is at most 10 plus the context bonus |
| Decision.MatchingCertificate | lib/logic.ts:618-620 | the found certificate is stored and normalises to the input; none exactly when no stored name does |
| Decision.FindCertificate | lib/logic.ts:618-620 | the search loop returns that first match |
| Decision.ApplyFallback | lib/logic.ts:594-633 | the overwriting of the comparison follows the two strategies |
| Decision.VerifyDocument | lib/logic.ts:584-787 | the method returns the specified verdict |
| Decision.DecisionIsConjunction | lib/logic.ts:689-700 | the decision is "allowed" exactly when A ∧ E; the bits are those of A, E and Y; the table is the fixed one and holds the verdict's row |
| Decision.LongTextIsEligible | lib/logic.ts:694-697 | more than 20 characters of text make E hold |
| Decision.ExactMatchIsAuthentic | lib/logic.ts:689 | an exact name match makes A hold |
| Decision.FallbackNeverLowers | lib/logic.ts:594-633 | the fallback never lowers the score and leaves a good comparison alone |
| Decision.FallbackFindsName | lib/logic.ts:598-609 | the typed name in the text replaces a weak comparison by a perfect one |
| Decision.FallbackFindsCertificate | lib/logic.ts:613-628 | with no text, a stored certificate with the typed name does the same |
| Decision.FallbackBounds | lib/logic.ts:594-633 | the fallback keeps the score in [0, 100] |
| Decision.NameInTextIsAuthentic | lib/logic.ts:594-609 | a weak comparison and the typed name in the text give a perfect exact match and A |
| Decision.StoredCertificateIsAuthentic | lib/logic.ts:613-628 | a weak comparison, no text and a stored certificate give score 100 and A |
| Decision.ConcludeKeepsComparison | lib/logic.ts:644-700 | the verdict reports the comparison it was given, and an exact match passes A |
| Decision.AdjustedBounds | lib/logic.ts:664-669 | the adjusted eligibility score lies in [0, 100] |
| Decision.ConcludeEligibilityBounds | lib/logic.ts:664-669 | so does the verdict's eligibility score |
| Decision.ConcludeBounds | lib/logic.ts:654-686 | authenticity ≤ 100, eligibility in [0, 100], and the clamped interval is ordered within [0, 100] |
| Decision.ScoreBounds | lib/logic.ts:584-787 | every reported score lies in its range for every request |
| Decision.NegativeAuthenticity | lib/logic.ts:654-661 | eight suspicions and no name score give authenticity -14, and the as-written interval [0, -4.8] |
| Decision.BlankNameDenied | lib/logic.ts:101-787 | a typed name of white space only is denied for every OCR name, text and certificate store: the comparison stays 'no-tokens' through both fallbacks and A fails |
| Decision.ConcludeOfBlank | lib/logic.ts:654-700 | with nothing typed and a 'no-tokens' comparison, Jaccard is 0 and authenticity at most 40, so A fails and the decision is denied |
| Decision.EmptyRequestDenied | lib/logic.ts:101-787 | the empty request (no name, empty text) is denied |
| Sorting.InsertDesc | app/api/verify/route.ts:210 | inserting keeps the elements as a multiset |
| Sorting.SortDesc | app/api/verify/route.ts:210 | the sort yields a non-increasing permutation |
| Sorting.SortIsStable | app/api/verify/route.ts:210 | elements with equal scores keep their pushed order |
| Sorting.FirstMaxIndex | app/api/verify/route.ts:247-249 | the index of the earliest element of maximal score |
| Sorting.SortHead | app/api/verify/route.ts:247-249 | the head of the sorted list is that earliest maximal element |
| Email.LocalStart | app/api/verify/route.ts:254 | the match starts at the beginning of the run of local-part characters before the `@` |
| Email.LastDot | app/api/verify/route.ts:254 | the greedy domain backs off to the last dot followed by two letters |
| Email.ScanEmail | app/api/verify/route.ts:253-256 | the loop with its break returns the first line's match |
| Email.MatchFromIsEmail | app/api/verify/route.ts:254 | every match is a substring of the line in the language of the pattern |
| Email.MatchFromFindsEmail | app/api/verify/route.ts:254 | an `@` with an address of the pattern around it yields a match |
| Email.FindEmailIff | app/api/verify/route.ts:254 | a line yields a match exactly when some substring of it is an address |
| Email.FirstEmailIsFirst | app/api/verify/route.ts:253-256 | the result is the match of the first line that has one, and no earlier line has any |
| Extractor.AlphaTokens | app/api/verify/route.ts:49-51 | every token has at least two characters, all letters |
| Extractor.CountNameLike | app/api/verify/route.ts:124-129 | at most one name-like credit per token |
| Extractor.FindClose | app/api/verify/route.ts:143-150 | the inner loop finds a token within max(1, ⌊0.3·min length⌋) edits |
| Extractor.CountOverlap | app/api/verify/route.ts:132-155 | the loop's 30·overlap + 15·fuzzy is the overlap credit, and each input token counts at most once |
| Extractor.OverlapCreditBounds | app/api/verify/route.ts:132-155 | the credit is at most 30 per input token, is maximal exactly when every token is present, and is 0 exactly when none is present or close |
| Extractor.ScoreLine | app/api/verify/route.ts:98-163 | the accumulating method returns the specified line score |
| Extractor.SplitSeparators | app/api/verify/route.ts:201 | no piece holds a comma, semicolon or slash |
| Extractor.PartFragments | app/api/verify/route.ts:202-205 | one fragment per part |
| Extractor.PhraseFragmentsOf | app/api/verify/route.ts:188-196 | the phrase loop pushes the specified fragments |
| Extractor.PartFragmentsOf | app/api/verify/route.ts:202-205 | the part loop pushes the specified fragments |
| Extractor.LineFragmentsOf | app/api/verify/route.ts:178-207 | the fragments of one line are the specified ones |
| Extractor.CollectFragments | app/api/verify/route.ts:177-208 | the loop over lines pushes the specified fragments |
| Extractor.LabelIndex | app/api/verify/route.ts:218 | the label cut is at the first `:` or `-` |
| Extractor.NormalizedTokens | app/api/verify/route.ts:222-224 | normalising letter tokens changes nothing, and each is non-empty and space-free |
| Extractor.FragmentCandidateShape | app/api/verify/route.ts:216-234 | ≥2 tokens are joined with single spaces at the fragment's score; a single token only if it is an input token; the raw fallback needs more than 5 characters and takes score - 10 |
| Extractor.TopCandidatesFrom | app/api/verify/route.ts:213-236 | a candidate comes from the top fragments exactly when a fragment above -10 yields it |
| Extractor.AtMostFiveFromFragments | app/api/verify/route.ts:213 | at most five candidates come from fragments |
| Extractor.PatternCandidates | app/api/verify/route.ts:169-173 | one candidate per pattern name |
| Extractor.PatternSource | app/api/verify/route.ts:169-173 | pattern candidates carry the pattern source |
| Extractor.SelectTop | app/api/verify/route.ts:213-236 | the loop converts the top five fragments as specified |
| Extractor.PatternCandidatesOf | app/api/verify/route.ts:169-173 | the loop pushes the pattern candidates |
| Extractor.GatherCandidates | app/api/verify/route.ts:166-244 | the method collects pattern, fragment and direct candidates in order |
| Extractor.ExtractFieldsFromText | app/api/verify/route.ts:41-259 | the method returns the specified name and e-mail |
| Extractor.ChosenNameIsBest | app/api/verify/route.ts:246-250 | a name is chosen exactly when some candidate scores above -5, and it is the earliest of maximal score |
| Extractor.BestCandidate | app/api/verify/route.ts:246-250 | a candidate above -5 forces a name of at least its score, and it is that candidate when the others score less |
| Extractor.DirectMatchIsExtracted | app/api/verify/route.ts:239-250 | a direct sighting of the typed name yields a name backed by a 100 candidate, the typed name itself when no other candidate reaches 100 |
| Extractor.FrontSources | app/api/verify/route.ts:166-236 | pattern and fragment candidates are never direct matches, and are single tokens only when there are input tokens |
| Extractor.NoNameNoNameCandidates | app/api/verify/route.ts:226-244 | without a typed name there are no single-token or direct candidates |
| Extractor.ExtractedEmail | app/api/verify/route.ts:252-256 | an e-mail is returned exactly when a line holds one, and it is an address in the first such line |
| Recovery.FilenameCertificate | app/api/verify/route.ts:478-483 | the found certificate has an id occurring in the upper-cased file name; none exactly when no id does |
| Recovery.FindFilenameCertificate | app/api/verify/route.ts:478-483 | the loop with its break returns that first certificate |
| Recovery.CountIn | app/api/verify/route.ts:465 | the overlap is at most the number of input tokens |
| Recovery.BestCertificateMatch | app/api/verify/route.ts:458-472 | the running-best loop returns the specified certificate |
| Recovery.MostOverlapping | app/api/verify/route.ts:462-466 | the running best is empty exactly for an empty certificate list, and otherwise holds the earliest certificate of largest overlap together with that overlap |
| Recovery.BestCertificateIsBest | app/api/verify/route.ts:458-472 | a certificate is returned exactly when some certificate reaches overlap ≥ 2 or ≥ 60%; it is then the earliest of maximal overlap |
| Recovery.HeaderLikeIgnoresCase | app/api/verify/route.ts:446-455 | the header test gives the same answer for the upper-cased name |
| Recovery.LineOverlap | app/api/verify/route.ts:501-508 | each input token counts at most once |
| Recovery.FindNear | app/api/verify/route.ts:504-507 | the inner loop finds a word within 1 edit (≤4 letters) or 2 edits |
| Recovery.CountLineOverlap | app/api/verify/route.ts:501-508 | the loop counts the tokens present or near |
| Recovery.LineHits | app/api/verify/route.ts:499-508 | the overlap of one line |
| Recovery.FindBestLine | app/api/verify/route.ts:497-514 | the running-best loop returns the specified line |
| Recovery.MostOverlappingLine | app/api/verify/route.ts:497-510 | the running best is empty exactly for no lines, and otherwise holds the earliest line of largest overlap with the typed tokens, together with that overlap |
| Recovery.TextBestLine | app/api/verify/route.ts:494-514 | the text-best fallback returns the specified line |
| Recovery.BestLineIsBest | app/api/verify/route.ts:497-514 | a line is returned exactly when some line overlaps the name; it is the earliest of maximal overlap |
| Recovery.RunMatches | app/api/verify/route.ts:546-547 | every match of `[A-Z]{lo,hi}` has length within the bounds, is all capitals and occurs in the buffer |
| Recovery.TokenMatches | app/api/verify/route.ts:541-552 | at most one count per token |
| Recovery.CountTokenMatches | app/api/verify/route.ts:541-552 | the loop counts the tokens with evidence in the buffer |
| Recovery.EveryTokenMatches | app/api/verify/route.ts:541-552 | every token present in the buffer gives a full count |
| Recovery.WindowsFrom | app/api/verify/route.ts:556-564 | a found window is a run of the typed tokens occurring in the buffer |
| Recovery.WidthsFrom | app/api/verify/route.ts:555-566 | a found window is a run of 2 to 4 typed tokens occurring in the buffer |
| Recovery.FindWindow | app/api/verify/route.ts:553-566 | the two loops with their breaks find the narrowest, leftmost window |
| Recovery.ScanWidth | app/api/verify/route.ts:556-564 | the loop over the windows of one width returns the leftmost window of toks that occurs in the buffer, or nothing |
| Recovery.RawBufferSearch | app/api/verify/route.ts:532-574 | the search method returns the specified name |
| Recovery.RawSearchOutcome | app/api/verify/route.ts:532-574 | the result is the typed name, the previous name or a run of typed tokens found in the buffer; the whole name in the buffer gives the typed name |
| Recovery.RawSearchRecovers | app/api/verify/route.ts:541-573 | with no name yet, evidence for every typed token recovers a name |
| Recovery.NormalizedNonEmpty | app/api/verify/route.ts:532-534 | a typed name that normalises to something is non-empty and has a token |
| Recovery.NormalizeLettersShape | app/api/verify/route.ts:584-586 | only A to Z survive, a second pass changes nothing, and case does not matter |
| Recovery.FuzzySubstringSearch | app/api/verify/route.ts:587-601 | false when either string or its letters are empty; otherwise true exactly when some window of the needle's length is within maxDist edits |
| Recovery.SlideWindow | app/api/verify/route.ts:592-598 | the sliding loop answers true exactly when some window of the needle's length is within maxDist edits |
| Recovery.FuzzyIgnoresCase | app/api/verify/route.ts:587-591 | searching the upper-cased haystack gives the same answer |
| Recovery.FuzzyFindsExact | app/api/verify/route.ts:587-601 | an exact occurrence of the needle's letters is found at every budget |
| Recovery.FuzzyStepRecovers | app/api/verify/route.ts:603-611 | with no name yet, the needle's letters in the text recover the typed name |
| Recovery.BufferHoldsFullName | app/api/verify/route.ts:523-538 | the whole normalised name in the raw bytes makes the typed name the chosen one |
| Recovery.CertificateFallback | app/api/verify/route.ts:476-492 | the fallback returns a stored certificate's name or the given alternative |
| Recovery.JsonChosenName | app/api/verify/route.ts:319-337 | a name that is not header-like is kept; otherwise the chosen name is the extracted one or a stored certificate's |
| Recovery.ChooseJsonName | app/api/verify/route.ts:319-337 | the JSON branch's chain returns the specified name |
| Recovery.RawStepOf | app/api/verify/route.ts:523-579 | the raw-buffer step returns the specified name |
| Recovery.FuzzyStepOf | app/api/verify/route.ts:603-617 | the fuzzy step returns the specified name |
| Recovery.ChooseUploadName | app/api/verify/route.ts:474-621 | the upload branch's chain returns the specified name |
| Recovery.UploadProvenance | app/api/verify/route.ts:474-621 | the upload name is the extracted one, a certificate's, a text line, the typed name or a run of typed tokens found in the bytes; a name that is not header-like is kept |

## Left out

- The POST handler and everything around it is not modelled:
  - request parsing, the key check and the JSON response;
  - the OCR service call with retries, the PDF header test and pdf-parse;
  - the verification log, the console output and the `extractionSource` tags.
  - The model starts from the OCR text, the file name, the certificate list and the decoded
    bytes, all given as parameters.
- The certificate store (lib/cert-store.ts) is not part of this model. Its contents enter as
  the `certs` sequence, so read failures are not modelled.
- `sha256Hex`, `toHex` and `extractCertIdFromFilename` in lib/logic.ts are not modelled. They
  are crypto and unused helpers.
- Unicode is not modelled:
  - upper-casing is ASCII;
  - `normalizeText` is white-space collapse and trim, without NFKD or diacritic stripping;
  - the UTF-8 decoding of the uploaded bytes is the `raw` parameter.
- Regex-driven name sources:
  - `findNamePatterns` enters as its result list `patternNames`;
  - the four certificate phrases enter as `phrases`, the captures for a normalised line.
  - The keyword tests, `alphaTokens`, the separator split, the label cut, the e-mail pattern
    and the `[A-Z]{lo,hi}` scan are modelled exactly.
- Scores are exact reals, not IEEE doubles, so rounding is not modelled. NaN is not carried
  through the verdict: the 0/0 of the name comparator appears only in the as-written members of
  the first Findings row, and floating-point overflow not at all (both lines below).
- Comparator.Fraction, Comparator.Report, Comparator.CompareNamesFlexible,
  Decision.VerifyDocument, Decision.ScoreBounds: these model the corrected comparator (a
  fraction of 0 when no normalised input token is left) and the clamped Bayesian confidence,
  so `VerifyDocument` returns the corrected program's verdict, not the one as written.
  - The returned `overlapFraction` (lib/logic.ts:268) is 0/0 = NaN in the source whenever no
    normalised input token is left, on every branch (also "!" against "?", an exact match).
    The model reports 0.
  - The verdict can differ. Typed name "!", extracted name "A B" and extracted text
    "Certificate! awarded to A B": in the source the score is NaN, so `comparison.score < 50`
    (lib/logic.ts:594) is false and no fallback runs; exactMatch is false, NaN ≥ 50 and the NaN
    authenticity ≥ 50 are false and the Jaccard similarity is 0, so A fails
    (lib/logic.ts:689-692) and the request is denied. In the model the score is at most 20, the
    fallback finds "!" in the text and upgrades the comparison to an exact match, and the
    request is allowed.
- Comparator.TokenOverlapMonotone: the reported `tokenOverlap` is monotone in the extracted
  tokens only while the flexible boost (lib/logic.ts:179-182) does not raise it. The boost
  depends on pattern 3's length test, which one more matching token can break, so the code
  does not promise full monotonicity; Comparator.OverlapDropExample gives the input.
- DiscreteMath.ScorePerOrderingBounds, DiscreteMath.CombinatoricsBounds, Decision.ScoreBounds:
  factorials are exact, so C(n, k) is always finite. The source's `factorial`
  (lib/logic.ts:380, used at :394) overflows to Infinity once n ≥ 171 input tokens. When
  k = 0 or k = n the quotient is then Infinity/Infinity = NaN. `Math.min(100, NaN)` is NaN, so
  `combinatorialScore`, `authenticityScore` (lib/logic.ts:654-661) and the scores built from it
  become NaN. These bounds hold only for names of at most 170 tokens; that overflow is not
  modelled.
- The display strings (`detail`, `logicalOperations`, factor and suspicion messages) are kept
  as data constructors.
- `structureScore` and `temporalScore` are computed but never used, so they are left out.
- `Object.assign(comparison, …)` in `verifyDocument` is modelled as a new comparison value.
  No other reference to the object exists, so nothing observable is lost.
- The upload branch hands no OCR text to `verifyDocument`. The model shows this only as the
  `extractedText` field of the request.
- Extractor.ExtractFieldsFromText: does not model the regex engine behind `patternNames` and
  `phrases`. Its result is exact only relative to those two parameters.
- A string cut at `:` or `-` during fragment cleanup is cut at the FIRST such character,
  because the pattern `[:\-]\s*(.+)$` matches leftmost.
- The route's chosen name is modelled as written in one respect that may not be intended.
  - The token-evidence step and both fuzzy steps run only while the chosen name is empty or
    missing.
  - So a non-empty header-like name blocks them, even though the surrounding block is entered
    for header-like names.
  - This is stated only through `Recovery.RawSearch` and `Recovery.FuzzyStep`.

## Findings

| source | as written | input that shows it | evidently intended | confidence | as-written member | corrected member |
|---|---|---|---|---|---|---|
| lib/logic.ts:231-236 | When every input token is punctuation only, `inputNormalized` is empty and `exactOverlap / inputNormalized.length` is 0/0. The weak, multi-token and fuzzy scores become NaN. A NaN score skips the fallback (`score < 50` is false) and fails every score test of A, so such a request is denied where the corrected program may allow it (see "## Left out"). | typed name "!" against extracted name "A B" | a fraction of 0 when there are no normalised tokens, so the score stays in [0, 100] | not executed | Comparator.CompareScoreAsWritten, Comparator.NaNScoreAsWritten | Comparator.Compare, Comparator.CompareBounds |
| lib/logic.ts:364-371 | The Bayesian confidence is capped at 100 but not at 0. A negative authenticity score gives an interval whose lower end (0) lies above its upper end. | name score 0 with authenticity -14. This comes from a one-token name, an unrelated extracted name and the text "FAKE COPY SAMPLE TEMPLATE DRAFT". The interval is [0, -4.8]. | the confidence clamped to [0, 100], so 0 ≤ low ≤ confidence ≤ high ≤ 100 | not executed | DiscreteMath.InvertedIntervalAsWritten, Decision.NegativeAuthenticity | DiscreteMath.AnalyzeProbability, DiscreteMath.ClampAgreesOnDecision |
