/**
 * `compareNamesFlexible` of lib/logic.ts: an order-independent comparison of two names.
 * Tokens are space-separated pieces; each is upper-cased and stripped of non-word characters
 * for the set comparison and the exact overlap count, while the greedy Levenshtein pass works
 * on the raw tokens, upper-cased, and uses every extracted token at most once.
 */
module Comparator {
  import opened Wrappers
  import opened Strings
  import opened Levenshtein
  import opened Numeric

  datatype MatchMethod =
    | NoTokens
    | ExactMatch
    | FlexibleOrderMatch
    | PerfectTokens
    | TwoPartReorder
    | ThreePartReorder
    | PartialNameMatch
    | MultiToken
    | FuzzyMatch
    | WeakMatch

  /** The record `compareNamesFlexible` returns. */
  datatype NameComparison = NameComparison(
    exactMatch: bool,
    tokenOverlap: nat,
    overlapFraction: real,
    fuzzyMatch: bool,
    score: real,
    matchMethod: MatchMethod)

  /** A score and a method tag; a score of `None` stands for JavaScript's NaN. */
  datatype Grading = Grading(score: Option<real>, matchMethod: MatchMethod)


  // ---------------------------------------------------------------------------
  // Token preparation
  // ---------------------------------------------------------------------------

  /** `normalizeToken`: upper-case, then drop every character outside [A-Za-z0-9_]. */
  function NormalizeToken(t: string): (r: string)
    ensures |r| <= |t|
    ensures forall i :: 0 <= i < |r| ==> IsWordChar(r[i]) && UpperChar(r[i]) == r[i]
  {
    var u := Upper(t);
    var r := Keep(u, IsWordChar);
    assert forall i :: 0 <= i < |r| ==> UpperChar(r[i]) == r[i] by {
      forall i | 0 <= i < |r|
        ensures UpperChar(r[i]) == r[i]
      {
        var m :| 0 <= m < |u| && u[m] == r[i];
      }
    }
    r
  }

  function MapNormalize(ts: seq<string>): (r: seq<string>)
    ensures |r| == |ts|
    ensures forall i :: 0 <= i < |ts| ==> r[i] == NormalizeToken(ts[i])
  {
    if |ts| == 0 then [] else [NormalizeToken(ts[0])] + MapNormalize(ts[1..])
  }

  /** `tokens.map(normalizeToken).filter(t => t.length > 0)`. */
  function NormTokens(ts: seq<string>): seq<string> {
    NonEmpty(MapNormalize(ts))
  }

  // ---------------------------------------------------------------------------
  // Set comparison, exact overlap and the flexible patterns
  // ---------------------------------------------------------------------------

  /** The source's test: equal set sizes and every input token in the extracted set. */
  predicate IsExactMatch(inN: seq<string>, exN: seq<string>) {
    |Elems(inN)| == |Elems(exN)| && forall t :: t in Elems(inN) ==> t in Elems(exN)
  }

  predicate AllIn(xs: seq<string>, ys: seq<string>) {
    forall i :: 0 <= i < |xs| ==> xs[i] in ys
  }

  /** Pattern 1: two tokens each, swapped. */
  predicate SwappedPair(inN: seq<string>, exN: seq<string>) {
    |inN| == 2 && |exN| == 2 && inN[0] == exN[1] && inN[1] == exN[0]
  }

  /** Pattern 2: three tokens each, every input token among the extracted ones. */
  predicate ThreeAnyOrder(inN: seq<string>, exN: seq<string>) {
    |inN| == 3 && |exN| == 3 && AllIn(inN, exN)
  }

  /** Pattern 3: at least two tokens each, lengths differing by at most one, one side inside the other. */
  predicate PartialContainment(inN: seq<string>, exN: seq<string>) {
    var lo := MinNat(|inN|, |exN|);
    var hi := MaxNat(|inN|, |exN|);
    lo >= 2 && hi <= lo + 1 && (AllIn(inN, exN) || AllIn(exN, inN))
  }

  predicate HasFlexibleMatch(inN: seq<string>, exN: seq<string>) {
    SwappedPair(inN, exN) || ThreeAnyOrder(inN, exN) || PartialContainment(inN, exN)
  }

  /** Number of positions of `xs` whose token occurs in `ys` (duplicates in `xs` count again). */
  function CountPresent(xs: seq<string>, ys: seq<string>): (n: nat)
    ensures n <= |xs|
  {
    if |xs| == 0 then 0
    else CountPresent(xs[..|xs| - 1], ys) + if xs[|xs| - 1] in ys then 1 else 0
  }

  /** Every position counts exactly when every token of `xs` occurs in `ys`. */
  lemma {:induction false} CountPresentFull(xs: seq<string>, ys: seq<string>)
    ensures CountPresent(xs, ys) == |xs| <==> AllIn(xs, ys)
  {
    if |xs| > 0 {
      var init := xs[..|xs| - 1];
      CountPresentFull(init, ys);
      assert AllIn(xs, ys) <==> AllIn(init, ys) && xs[|xs| - 1] in ys;
    }
  }

  /** Counting against a list that holds at least the same tokens never counts fewer. */
  lemma {:induction false} CountPresentMonotone(xs: seq<string>, ys: seq<string>, zs: seq<string>)
    requires forall y :: y in ys ==> y in zs
    ensures CountPresent(xs, ys) <= CountPresent(xs, zs)
  {
    if |xs| > 0 {
      CountPresentMonotone(xs[..|xs| - 1], ys, zs);
    }
  }

  /** The overlap after the flexible-match boost. */
  function BoostedOverlap(count: nat, inN: seq<string>, exN: seq<string>, exact: bool, flex: bool): nat {
    if flex && !exact then MaxNat(count, MinNat(|inN|, |exN|)) else count
  }

  // ---------------------------------------------------------------------------
  // Greedy fuzzy matching
  // ---------------------------------------------------------------------------

  /** Edits allowed for an input token: 1 below five characters, else min(2, floor(len * 0.2)). */
  function Allowed(inputToken: string): nat {
    if |inputToken| >= 5 then MinNat(2, |inputToken| / 5) else 1
  }

  function TokenDist(inputToken: string, extractedToken: string): nat {
    Dist(Upper(inputToken), Upper(extractedToken))
  }

  predicate Eligible(inputToken: string, exT: seq<string>, used: set<nat>, idx: nat)
    requires idx < |exT|
  {
    idx !in used && TokenDist(inputToken, exT[idx]) <= Allowed(inputToken)
  }

  /**
   * The index the scan over exT[..k] settles on: a later index replaces the current best
   * only when it is eligible and strictly closer.
   */
  function BestIndex(inputToken: string, exT: seq<string>, used: set<nat>, k: nat): (r: Option<nat>)
    requires k <= |exT|
    ensures r.Some? ==> r.value < k && r.value !in used
  {
    if k == 0 then None
    else
      var b := BestIndex(inputToken, exT, used, k - 1);
      if Eligible(inputToken, exT, used, k - 1)
        && (b.None? || TokenDist(inputToken, exT[k - 1]) < TokenDist(inputToken, exT[b.value]))
      then Some(k - 1)
      else b
  }

  /**
   * The scan finds nothing exactly when no index is eligible; otherwise it finds an eligible
   * index of least distance, the earliest among equals.
   */
  lemma {:induction false} BestIndexIsEarliestNearest(inputToken: string, exT: seq<string>, used: set<nat>, k: nat)
    requires k <= |exT|
    ensures var r := BestIndex(inputToken, exT, used, k);
      && (r.None? <==> forall j :: 0 <= j < k ==> !Eligible(inputToken, exT, used, j))
      && (r.Some? ==> Eligible(inputToken, exT, used, r.value))
      && (r.Some? ==> forall j :: 0 <= j < k && Eligible(inputToken, exT, used, j) ==>
            (TokenDist(inputToken, exT[r.value]) < TokenDist(inputToken, exT[j])
             || (TokenDist(inputToken, exT[r.value]) == TokenDist(inputToken, exT[j]) && r.value <= j)))
  {
    if k > 0 {
      BestIndexIsEarliestNearest(inputToken, exT, used, k - 1);
    }
  }

  datatype GreedyState = GreedyState(used: set<nat>, count: nat)

  /** The state after the greedy pass has handled the first n input tokens. */
  function Greedy(inT: seq<string>, exT: seq<string>, n: nat): GreedyState
    requires n <= |inT|
  {
    if n == 0 then GreedyState({}, 0)
    else GreedyStep(Greedy(inT, exT, n - 1), inT[n - 1], exT)
  }

  /** One input token: claim the index the scan settles on, if any. */
  function GreedyStep(g: GreedyState, inputToken: string, exT: seq<string>): GreedyState {
    match BestIndex(inputToken, exT, g.used, |exT|)
    case None => g
    case Some(i) => GreedyState(g.used + {i}, g.count + 1)
  }

  /** A step claims at most one new index below |exT|. */
  lemma GreedyStepClaims(g: GreedyState, inputToken: string, exT: seq<string>)
    requires g.count == |g.used| && forall i :: i in g.used ==> i < |exT|
    ensures var h := GreedyStep(g, inputToken, exT);
      h.count == |h.used| && h.count <= g.count + 1 && forall i :: i in h.used ==> i < |exT|
  {
    var b := BestIndex(inputToken, exT, g.used, |exT|);
    if b.Some? {
      assert |g.used + {b.value}| == |g.used| + 1;
    }
  }

  /** Each matched input token claims a distinct extracted index. */
  lemma {:induction false} GreedyClaimsDistinct(inT: seq<string>, exT: seq<string>, n: nat)
    requires n <= |inT|
    ensures var g := Greedy(inT, exT, n);
      g.count == |g.used| && g.count <= n && forall i :: i in g.used ==> i < |exT|
  {
    if n > 0 {
      GreedyClaimsDistinct(inT, exT, n - 1);
      GreedyStepClaims(Greedy(inT, exT, n - 1), inT[n - 1], exT);
    }
  }

  /** A set of naturals below n has at most n elements. */
  lemma {:induction false} BoundedSetSize(s: set<nat>, n: nat)
    requires forall i :: i in s ==> i < n
    ensures |s| <= n
  {
    if n > 0 {
      var s' := s - {n - 1};
      BoundedSetSize(s', n - 1);
    } else {
      assert s == {};
    }
  }

  /** fuzzyOverlap never exceeds either token count. */
  lemma GreedyCountBound(inT: seq<string>, exT: seq<string>)
    ensures Greedy(inT, exT, |inT|).count <= MinNat(|inT|, |exT|)
  {
    var g := Greedy(inT, exT, |inT|);
    GreedyClaimsDistinct(inT, exT, |inT|);
    BoundedSetSize(g.used, |exT|);
  }

  /** The greedy pass of lines 186-208, on the raw tokens. */
  method GreedyFuzzyOverlap(inT: seq<string>, exT: seq<string>) returns (fuzzyOverlap: nat)
    ensures fuzzyOverlap == Greedy(inT, exT, |inT|).count
  {
    fuzzyOverlap := 0;
    var usedExtractedIndices: set<nat> := {};
    for n := 0 to |inT|
      invariant Greedy(inT, exT, n) == GreedyState(usedExtractedIndices, fuzzyOverlap)
    {
      var bestIndex := NearestUnused(inT[n], exT, usedExtractedIndices);
      if bestIndex != -1 {
        usedExtractedIndices := usedExtractedIndices + {bestIndex as nat};
        fuzzyOverlap := fuzzyOverlap + 1;
      }
    }
  }

  /** The edit distance of two tokens, ignoring case. */
  method TokenDistance(inputToken: string, extractedToken: string) returns (distance: nat)
    ensures distance == TokenDist(inputToken, extractedToken)
  {
    distance := LevenshteinDistance(Upper(inputToken), Upper(extractedToken));
  }

  /** The inner scan for one input token: -1, or the index BestIndex settles on. */
  method NearestUnused(inputToken: string, exT: seq<string>, usedExtractedIndices: set<nat>)
    returns (bestIndex: int)
    ensures -1 <= bestIndex < |exT|
    ensures bestIndex == -1 <==> BestIndex(inputToken, exT, usedExtractedIndices, |exT|).None?
    ensures bestIndex != -1 ==> BestIndex(inputToken, exT, usedExtractedIndices, |exT|) == Some(bestIndex as nat)
  {
    bestIndex := -1;
    var bestDistance: nat := 0;
    var maxAllowedDistance := if |inputToken| >= 5 then MinNat(2, |inputToken| / 5) else 1;
    for index := 0 to |exT|
      invariant bestIndex == -1 ==> BestIndex(inputToken, exT, usedExtractedIndices, index).None?
      invariant bestIndex != -1 ==>
        (0 <= bestIndex < |exT|
         && BestIndex(inputToken, exT, usedExtractedIndices, index) == Some(bestIndex as nat)
         && bestDistance == TokenDist(inputToken, exT[bestIndex]))
    {
      if index !in usedExtractedIndices {
        var distance := TokenDistance(inputToken, exT[index]);
        if distance <= maxAllowedDistance && (bestIndex == -1 || distance < bestDistance) {
          bestIndex := index;
          bestDistance := distance;
        }
      }
    }
  }

  // ---------------------------------------------------------------------------
  // Scoring and the whole comparison
  // ---------------------------------------------------------------------------

  /** exactOverlap / inputNormalized.length as the source computes it: NaN (None) for 0 / 0. */
  function FractionAsWritten(overlap: nat, nIn: nat): Option<real> {
    if nIn == 0 then None else Some(overlap as real / nIn as real)
  }

  /** The same fraction with 0 / 0 read as 0. */
  function Fraction(overlap: nat, nIn: nat): (r: real)
    ensures 0.0 <= r
    ensures overlap <= nIn ==> r <= 1.0
  {
    if nIn == 0 then 0.0 else overlap as real / nIn as real
  }

  /** `count / n >= 0.8`, stated without division. */
  predicate ReachesFourFifths(count: nat, n: nat) {
    5 * count >= 4 * n
  }

  lemma FourFifthsByDivision(count: nat, n: nat)
    requires n > 0
    ensures ReachesFourFifths(count, n) <==> count as real / n as real >= 0.8
  {
    var q := count as real / n as real;
    var d := q - 0.8;
    assert d * n as real == count as real - 0.8 * n as real;
    SignOfProduct(d, n as real);
  }

  lemma SignOfProduct(x: real, y: real)
    requires y > 0.0
    ensures x >= 0.0 <==> x * y >= 0.0
  {
    if x < 0.0 {
      assert x * y < 0.0;
    }
  }

  /** Everything the comparison derives from the two names before scoring. */
  datatype Features = Features(
    inT: seq<string>, exT: seq<string>, inN: seq<string>, exN: seq<string>,
    exact: bool, flex: bool, overlap: nat, fuzzy: nat, fuzzyMatch: bool)

  /**
   * The test of the partial-name-match branch: the exact overlap reaches the shorter token
   * list, and the two lists differ in length by at most one.
   */
  predicate PartialGuard(f: Features) {
    var nIn, nEx := |f.inN|, |f.exN|;
    f.overlap >= MinNat(nIn, nEx) && (if nIn >= nEx then nIn - nEx else nEx - nIn) <= 1
  }

  /** The branch of the scoring cascade of lines 214-263 that features `f` end in. */
  function Branch(f: Features, frac: Option<real>): (m: MatchMethod)
    ensures m != NoTokens
    ensures f.exact <==> m == ExactMatch
    ensures !f.exact && f.flex <==> m == FlexibleOrderMatch
    ensures m in {PerfectTokens, TwoPartReorder, ThreePartReorder} ==>
      !f.exact && !f.flex && f.overlap == |f.inN| && f.overlap == |f.exN|
    ensures m == PartialNameMatch <==>
      !f.exact && !f.flex && !(f.overlap == |f.inN| && f.overlap == |f.exN|) && PartialGuard(f)
    ensures m == MultiToken ==> frac.Some? && frac.value >= 0.7 && f.overlap >= 2
  {
    var nIn, nEx, overlap := |f.inN|, |f.exN|, f.overlap;
    if f.exact then ExactMatch
    else if f.flex then FlexibleOrderMatch
    else if overlap == nIn && overlap == nEx then PerfectTokens
    else if nIn == 2 && nEx == 2 && overlap == 2 then TwoPartReorder
    else if nIn == 3 && nEx == 3 && overlap == 3 then ThreePartReorder
    else if PartialGuard(f) then PartialNameMatch
    else if nIn >= 2 && overlap >= 2 && frac.Some? && frac.value >= 0.7 then MultiToken
    // fuzzyOverlap >= ceil(nIn * 0.8)
    else if f.fuzzyMatch && f.fuzzy >= (4 * nIn + 4) / 5 then FuzzyMatch
    else WeakMatch
  }

  /**
   * The partial score of line 227: 35 per exact overlap, 10 per further fuzzy overlap and 25
   * times the overlap fraction. A `None` fraction is NaN and poisons the sum.
   */
  function Partial(f: Features, frac: Option<real>): (p: Option<real>)
    ensures frac.Some? <==> p.Some?
    ensures frac.Some? && frac.value >= 0.0 ==> p.value >= 0.0
  {
    if frac.Some?
    then Some(f.overlap as real * 35.0 + (f.fuzzy as real - f.overlap as real) * 10.0 + frac.value * 25.0)
    else None
  }

  /**
   * The score of branch `m` before the final Math.min(100, score). A NaN partial score survives
   * Math.max(0, ...) as NaN.
   */
  function BranchScore(m: MatchMethod, partial: Option<real>): (s: Option<real>)
    ensures m !in {MultiToken, FuzzyMatch, WeakMatch} ==> s.Some?
    ensures m in {MultiToken, FuzzyMatch, WeakMatch} ==> (s.Some? <==> partial.Some?)
    ensures partial.Some? && partial.value >= 0.0 ==> 0.0 <= s.value
    ensures m == PartialNameMatch ==> s == Some(90.0)
  {
    match m
    case NoTokens => Some(0.0)
    case ExactMatch => Some(100.0)
    case FlexibleOrderMatch | PerfectTokens | TwoPartReorder | ThreePartReorder => Some(95.0)
    case PartialNameMatch => Some(90.0)
    case MultiToken => if partial.Some? then Some(partial.value + 15.0) else None
    case FuzzyMatch => if partial.Some? then Some(partial.value + 10.0) else None
    case WeakMatch => if partial.Some? then Some(MaxReal(0.0, partial.value - 20.0)) else None
  }

  /** The outcome of the cascade, capped at 100 (NaN stays NaN). */
  function Grade(f: Features, frac: Option<real>): (g: Grading)
    ensures frac.Some? ==> g.score.Some?
    ensures frac.Some? && frac.value >= 0.0 ==> 0.0 <= g.score.value <= 100.0
    ensures f.exact ==> g == Grading(Some(100.0), ExactMatch)
    ensures !f.exact && f.flex ==> g == Grading(Some(95.0), FlexibleOrderMatch)
    ensures g.matchMethod == PartialNameMatch ==> g == Grading(Some(90.0), PartialNameMatch)
    ensures frac.None? && g.matchMethod in {MultiToken, FuzzyMatch, WeakMatch} ==> g.score.None?
  {
    var m := Branch(f, frac);
    var s := BranchScore(m, Partial(f, frac));
    Grading(if s.Some? then Some(MinReal(100.0, s.value)) else None, m)
  }

  /** `f` holds what the comparison derives from its token lists `f.inT` and `f.exT`. */
  predicate Consistent(f: Features) {
    && |f.inT| > 0
    && f.inN == NormTokens(f.inT)
    && f.exN == NormTokens(f.exT)
    && f.exact == IsExactMatch(f.inN, f.exN)
    && f.flex == HasFlexibleMatch(f.inN, f.exN)
    && f.overlap == BoostedOverlap(CountPresent(f.inN, f.exN), f.inN, f.exN, f.exact, f.flex)
    && f.fuzzy == Greedy(f.inT, f.exT, |f.inT|).count
    && f.fuzzyMatch == ReachesFourFifths(f.fuzzy, |f.inT|)
  }

  function Analyze(inputName: string, extractedName: string): (f: Features)
    requires |Fields(inputName)| > 0
    ensures Consistent(f) && f.inT == Fields(inputName) && f.exT == Fields(extractedName)
    ensures f.overlap <= |f.inN|
  {
    var inT := Fields(inputName);
    var exT := Fields(extractedName);
    var inN := NormTokens(inT);
    var exN := NormTokens(exT);
    var exact := IsExactMatch(inN, exN);
    var flex := HasFlexibleMatch(inN, exN);
    var fuzzy := Greedy(inT, exT, |inT|).count;
    Features(inT, exT, inN, exN, exact, flex,
      BoostedOverlap(CountPresent(inN, exN), inN, exN, exact, flex),
      fuzzy, ReachesFourFifths(fuzzy, |inT|))
  }

  /** The returned record for features `f`, with 0 / 0 read as 0. */
  function Report(f: Features): (r: NameComparison)
    ensures 0.0 <= r.score <= 100.0
    ensures f.overlap <= |f.inN| ==> 0.0 <= r.overlapFraction <= 1.0
  {
    var frac := Fraction(f.overlap, |f.inN|);
    var g := Grade(f, Some(frac));
    NameComparison(f.exact || f.flex, f.overlap, frac, f.fuzzyMatch, g.score.value, g.matchMethod)
  }

  const NoTokensResult := NameComparison(false, 0, 0.0, false, 0.0, NoTokens)

  /** The comparison, with 0 / 0 read as 0 (see FractionAsWritten for the code as written). */
  function Compare(inputName: string, extractedName: string): NameComparison {
    if |Fields(inputName)| == 0 || |Fields(extractedName)| == 0 then NoTokensResult
    else Report(Analyze(inputName, extractedName))
  }

  /** The score the code as written returns; None is NaN. */
  function CompareScoreAsWritten(inputName: string, extractedName: string): Option<real> {
    if |Fields(inputName)| == 0 || |Fields(extractedName)| == 0 then Some(0.0)
    else
      var f := Analyze(inputName, extractedName);
      Grade(f, FractionAsWritten(f.overlap, |f.inN|)).score
  }

  /** The exact-overlap loop of lines 141-147. */
  method CountExactOverlap(inputNormalized: seq<string>, extractedNormalized: seq<string>)
    returns (exactOverlap: nat)
    ensures exactOverlap == CountPresent(inputNormalized, extractedNormalized)
  {
    exactOverlap := 0;
    for k := 0 to |inputNormalized|
      invariant exactOverlap == CountPresent(inputNormalized[..k], extractedNormalized)
    {
      assert inputNormalized[..k + 1][..k] == inputNormalized[..k];
      if inputNormalized[k] in extractedNormalized {
        exactOverlap := exactOverlap + 1;
      }
    }
    assert inputNormalized[..|inputNormalized|] == inputNormalized;
  }

  /** `compareNamesFlexible`; its two counting loops are the two methods above. */
  method CompareNamesFlexible(inputName: string, extractedName: string) returns (r: NameComparison)
    ensures r == Compare(inputName, extractedName)
  {
    var inputTokens := Fields(inputName);
    var extractedTokens := Fields(extractedName);
    if |inputTokens| == 0 || |extractedTokens| == 0 {
      return NoTokensResult;
    }
    var inputNormalized := NormTokens(inputTokens);
    var extractedNormalized := NormTokens(extractedTokens);
    var exactMatch := IsExactMatch(inputNormalized, extractedNormalized);

    var exactOverlap := CountExactOverlap(inputNormalized, extractedNormalized);
    var hasFlexibleMatch := HasFlexibleMatch(inputNormalized, extractedNormalized);
    if hasFlexibleMatch && !exactMatch {
      exactOverlap := MaxNat(exactOverlap, MinNat(|inputNormalized|, |extractedNormalized|));
    }

    var fuzzyOverlap := GreedyFuzzyOverlap(inputTokens, extractedTokens);
    var fuzzyMatch := ReachesFourFifths(fuzzyOverlap, |inputTokens|);
    var f := Features(inputTokens, extractedTokens, inputNormalized, extractedNormalized,
      exactMatch, hasFlexibleMatch, exactOverlap, fuzzyOverlap, fuzzyMatch);
    assert f == Analyze(inputName, extractedName);
    r := Report(f);
  }

  // ---------------------------------------------------------------------------
  // Properties
  // ---------------------------------------------------------------------------

  /** The size-and-every test is set equality. */
  lemma ExactMatchIsSetEquality(inN: seq<string>, exN: seq<string>)
    ensures IsExactMatch(inN, exN) <==> Elems(inN) == Elems(exN)
  {
    var a, b := Elems(inN), Elems(exN);
    if |a| == |b| && a <= b {
      assert |b - a| == |b| - |a|;
      assert b - a == {};
      assert a == b;
    }
  }

  /** 'no-tokens' exactly when one side has no space-separated token. */
  lemma NoTokensIff(inputName: string, extractedName: string)
    ensures var r := Compare(inputName, extractedName);
      r.matchMethod == NoTokens <==> (|Fields(inputName)| == 0 || |Fields(extractedName)| == 0)
    ensures (|Fields(inputName)| == 0 || |Fields(extractedName)| == 0) ==>
      var r := Compare(inputName, extractedName);
      !r.exactMatch && r.score == 0.0 && r.tokenOverlap == 0
  {
  }

  /** The reported exactMatch is set equality of the normalised tokens or a flexible pattern. */
  lemma ExactMatchFlag(inputName: string, extractedName: string)
    requires |Fields(inputName)| > 0 && |Fields(extractedName)| > 0
    ensures var f := Analyze(inputName, extractedName);
      var r := Compare(inputName, extractedName);
      r.exactMatch <==> (Elems(f.inN) == Elems(f.exN) || HasFlexibleMatch(f.inN, f.exN))
  {
    var f := Analyze(inputName, extractedName);
    ExactMatchIsSetEquality(f.inN, f.exN);
  }

  /** Equal normalised token sets score 100 as 'exact-match'. */
  lemma SameTokenSetScoresFull(inputName: string, extractedName: string)
    requires |Fields(inputName)| > 0 && |Fields(extractedName)| > 0
    requires var f := Analyze(inputName, extractedName); Elems(f.inN) == Elems(f.exN)
    ensures Compare(inputName, extractedName).score == 100.0
    ensures Compare(inputName, extractedName).matchMethod == ExactMatch
  {
    var f := Analyze(inputName, extractedName);
    ExactMatchIsSetEquality(f.inN, f.exN);
  }

  /** A flexible pattern without set equality scores 95 as 'flexible-order-match'. */
  lemma FlexibleScores95(inputName: string, extractedName: string)
    requires |Fields(inputName)| > 0 && |Fields(extractedName)| > 0
    requires var f := Analyze(inputName, extractedName);
      Elems(f.inN) != Elems(f.exN) && HasFlexibleMatch(f.inN, f.exN)
    ensures Compare(inputName, extractedName).score == 95.0
    ensures Compare(inputName, extractedName).matchMethod == FlexibleOrderMatch
  {
    var f := Analyze(inputName, extractedName);
    ExactMatchIsSetEquality(f.inN, f.exN);
  }

  /** A name compared with itself matches exactly, provided it has a token. */
  lemma CompareSelf(name: string)
    requires |Fields(name)| > 0
    ensures Compare(name, name).exactMatch
    ensures Compare(name, name).score == 100.0
  {
  }

  /** The score lies in [0, 100]; the overlap is at most the number of normalised input tokens. */
  lemma CompareBounds(inputName: string, extractedName: string)
    ensures var r := Compare(inputName, extractedName);
      0.0 <= r.score <= 100.0 && 0.0 <= r.overlapFraction <= 1.0
    ensures |Fields(inputName)| > 0 ==>
      Compare(inputName, extractedName).tokenOverlap <= |Analyze(inputName, extractedName).inN|
  {
  }

  /** Equally many normalised tokens, all present on the other side: an exact or a flexible match. */
  lemma AllPresentMatches(inN: seq<string>, exN: seq<string>)
    requires |inN| == |exN| && AllIn(inN, exN)
    ensures IsExactMatch(inN, exN) || HasFlexibleMatch(inN, exN)
  {
    if |inN| == 0 {
      assert Elems(inN) == {} == Elems(exN);
    } else if |inN| == 1 {
      assert Elems(inN) == {inN[0]} == Elems(exN);
    } else {
      assert PartialContainment(inN, exN);
    }
  }

  /**
   * The partial-name-match branch is taken exactly when neither name test holds and the overlap
   * covers the shorter token list with lengths at most one apart; it then scores 90.
   */
  lemma PartialNameMatchScores(inputName: string, extractedName: string)
    ensures var c := Compare(inputName, extractedName);
      c.matchMethod == PartialNameMatch <==>
        (&& |Fields(inputName)| > 0 && |Fields(extractedName)| > 0
         && var f := Analyze(inputName, extractedName);
            !f.exact && !f.flex && PartialGuard(f))
    ensures var c := Compare(inputName, extractedName);
      c.matchMethod == PartialNameMatch ==> c.score == 90.0
  {
    if |Fields(inputName)| > 0 && |Fields(extractedName)| > 0 {
      var f := Analyze(inputName, extractedName);
      var frac := Some(Fraction(f.overlap, |f.inN|));
      NoDeadBranch(f, frac);
    }
  }

  /** For consistent features the 'perfect-tokens', 'two-part' and 'three-part' branches are dead. */
  lemma NoDeadBranch(f: Features, frac: Option<real>)
    requires Consistent(f)
    ensures Branch(f, frac) !in {PerfectTokens, TwoPartReorder, ThreePartReorder}
  {
    // Those branches need every token present with no exact or flexible match.
    CountPresentFull(f.inN, f.exN);
    if |f.inN| == |f.exN| && AllIn(f.inN, f.exN) {
      AllPresentMatches(f.inN, f.exN);
    }
  }

  /** The 'perfect-tokens', 'two-part-reorder' and 'three-part-reorder' branches are never taken. */
  lemma DeadBranches(inputName: string, extractedName: string)
    ensures Compare(inputName, extractedName).matchMethod !in {PerfectTokens, TwoPartReorder, ThreePartReorder}
  {
    if |Fields(inputName)| > 0 && |Fields(extractedName)| > 0 {
      var f := Analyze(inputName, extractedName);
      NoDeadBranch(f, Some(Fraction(f.overlap, |f.inN|)));
    }
  }

  /** "A" against "A B": one shared token, lengths one apart, no flexible pattern; it scores 90. */
  lemma PartialNameMatchExample()
    ensures Compare("A", "A B").matchMethod == PartialNameMatch
    ensures Compare("A", "A B").score == 90.0
  {
    assert Join(["A", "B"], " ") == "A B" by {
      assert Join(["A", "B"][1..], " ") == "B";
    }
    PartialFeatures("A", "B");
    PartialNameMatchScores("A", "A B");
  }

  /** One word of capitals against itself followed by a different one: the partial branch's test. */
  lemma PartialFeatures(x: string, y: string)
    requires |x| > 0 && forall i :: 0 <= i < |x| ==> 'A' <= x[i] <= 'Z'
    requires |y| > 0 && forall i :: 0 <= i < |y| ==> 'A' <= y[i] <= 'Z'
    requires x != y
    ensures |Fields(x)| > 0 && |Fields(Join([x, y], " "))| > 0
    ensures var f := Analyze(x, Join([x, y], " ")); !f.exact && !f.flex && PartialGuard(f)
  {
    assert forall k :: 0 <= k < |[x]| ==> [x][k] == x;
    CopiesTokens([x], x);
    assert Join([x], " ") == x;
    PairTokens(x, y);
    OneAgainstTwo(x, y);
  }

  /** One token against itself and a different second token: a partial, not a flexible, match. */
  lemma OneAgainstTwo(x: string, y: string)
    requires x != y
    ensures !IsExactMatch([x], [x, y]) && !HasFlexibleMatch([x], [x, y])
    ensures CountPresent([x], [x, y]) == 1
  {
    assert Elems([x]) == {x};
    assert Elems([x, y]) == {x, y};
    assert CountPresent([x], [x, y]) == CountPresent([], [x, y]) + 1 by {
      assert [x][..0] == [];
    }
  }

  /** A non-empty word without a space is its own single field. */
  lemma FieldsOfWord(w: string)
    requires |w| > 0 && forall j :: 0 <= j < |w| ==> w[j] != ' '
    ensures Fields(w) == [w]
  {
    SplitWhereNone(w, x => x == ' ');
  }

  lemma FieldsOfTwoWords()
    ensures Fields("A B") == ["A", "B"]
  {
    var ws := ["A", "B"];
    assert Join(ws, " ") == "A B" by {
      assert Join(ws[1..], " ") == "B";
    }
    FieldsOfJoin(ws);
  }

  lemma NormTokensOfBang()
    requires NormalizeToken("!") == ""
    ensures NormTokens(["!"]) == []
  {
    var bang := MapNormalize(["!"]);
    assert bang[0] == "";
  }

  /** Two words of capitals are their own normalised tokens. */
  lemma NormTokensOfCapitals(x: string, y: string)
    requires |x| > 0 && forall i :: 0 <= i < |x| ==> 'A' <= x[i] <= 'Z'
    requires |y| > 0 && forall i :: 0 <= i < |y| ==> 'A' <= y[i] <= 'Z'
    ensures NormTokens([x, y]) == [x, y]
  {
    NormalizeCapitals(x);
    NormalizeCapitals(y);
    NormTokensOfNormal([x, y]);
  }

  /** Tokens that are non-empty and already normal pass through unchanged. */
  lemma NormTokensOfNormal(ws: seq<string>)
    requires forall k :: 0 <= k < |ws| ==> ws[k] != "" && NormalizeToken(ws[k]) == ws[k]
    ensures NormTokens(ws) == ws
  {
    var words := MapNormalize(ws);
    assert words == ws;
    NonEmptyOfNonEmpty(words);
  }

  lemma NormalizeBang()
    ensures NormalizeToken("!") == ""
  {
    var u := Upper("!");
    assert u[0] == '!' && u == "!";
    assert CountWhere(u, IsWordChar) == 0;
  }

  /** A word of capitals is its own normal form. */
  lemma NormalizeCapitals(t: string)
    requires forall i :: 0 <= i < |t| ==> 'A' <= t[i] <= 'Z'
    ensures NormalizeToken(t) == t
  {
    var u := Upper(t);
    assert forall i :: 0 <= i < |t| ==> u[i] == t[i];
    assert u == t;
  }

  /** Features with no normalised input token and at least two extracted ones grade as NaN. */
  lemma NaNGrade(f: Features)
    requires f.inN == [] && |f.exN| >= 2 && !f.exact && !f.flex && f.overlap == 0
    ensures Grade(f, FractionAsWritten(f.overlap, |f.inN|)).score == None
  {
    assert Branch(f, None) in {FuzzyMatch, WeakMatch};
  }

  /**
   * Finding: when every input token is punctuation only (so no normalised input token is left)
   * and the extracted name has two or more, the code as written divides 0 by 0 and its score
   * is NaN, whatever branch the cascade ends in.
   */
  lemma NaNScoreAsWritten(inputName: string, extractedName: string)
    requires |Fields(inputName)| > 0 && NormTokens(Fields(inputName)) == []
    requires |NormTokens(Fields(extractedName))| >= 2
    ensures CompareScoreAsWritten(inputName, extractedName) == None
    ensures 0.0 <= Compare(inputName, extractedName).score <= 100.0
  {
    var f := Analyze(inputName, extractedName);
    EmptyInputFeatures(f.inN, f.exN);
    NaNGrade(f);
    CompareBounds(inputName, extractedName);
  }

  /** No normalised input token against some extracted ones: no match of any kind, no overlap. */
  lemma EmptyInputFeatures(inN: seq<string>, exN: seq<string>)
    requires inN == [] && |exN| >= 1
    ensures !IsExactMatch(inN, exN) && !HasFlexibleMatch(inN, exN) && CountPresent(inN, exN) == 0
  {
    assert exN[0] in Elems(exN);
  }

  /** "!" against "A B" meets the conditions of NaNScoreAsWritten. */
  lemma NaNExample()
    ensures |Fields("!")| > 0 && NormTokens(Fields("!")) == []
    ensures |NormTokens(Fields("A B"))| >= 2
  {
    BangExample();
    TwoWordsExample();
  }

  lemma BangExample()
    ensures |Fields("!")| > 0 && NormTokens(Fields("!")) == []
  {
    FieldsOfWord("!");
    NormalizeBang();
    NormTokensOfBang();
  }

  lemma TwoWordsExample()
    ensures |NormTokens(Fields("A B"))| >= 2
  {
    FieldsOfTwoWords();
    NormTokensOfCapitals("A", "B");
  }

  // ---------------------------------------------------------------------------
  // Monotonicity of the token overlap
  // ---------------------------------------------------------------------------

  lemma CountPresentNone(xs: seq<string>)
    ensures CountPresent(xs, []) == 0
  {
  }

  /**
   * Against an extracted name `e2` holding at least the normalised tokens of `e`, the reported
   * overlap is at least the exact count against `e`; so it does not shrink unless the flexible
   * boost had raised the overlap against `e` (OverlapDropExample shows that it then can).
   */
  lemma TokenOverlapMonotone(inputName: string, e: string, e2: string)
    requires forall t :: t in NormTokens(Fields(e)) ==> t in NormTokens(Fields(e2))
    ensures var inN := NormTokens(Fields(inputName));
      CountPresent(inN, NormTokens(Fields(e))) <= Compare(inputName, e2).tokenOverlap
    ensures var inN := NormTokens(Fields(inputName));
      Compare(inputName, e).tokenOverlap == CountPresent(inN, NormTokens(Fields(e))) ==>
        Compare(inputName, e).tokenOverlap <= Compare(inputName, e2).tokenOverlap
  {
    var inN, ex, ex2 := NormTokens(Fields(inputName)), NormTokens(Fields(e)), NormTokens(Fields(e2));
    CountPresentMonotone(inN, ex, ex2);
    OverlapCoversCount(inputName, e2);
  }

  /** The reported overlap is never below the exact count (the boost only raises it). */
  lemma OverlapCoversCount(inputName: string, extractedName: string)
    ensures CountPresent(NormTokens(Fields(inputName)), NormTokens(Fields(extractedName)))
      <= Compare(inputName, extractedName).tokenOverlap
  {
    var inN, ex := NormTokens(Fields(inputName)), NormTokens(Fields(extractedName));
    if |Fields(inputName)| == 0 {
      assert inN == [];
    } else if |Fields(extractedName)| == 0 {
      assert ex == [];
      CountPresentNone(inN);
    } else {
      var f := Analyze(inputName, extractedName);
      assert Compare(inputName, extractedName).tokenOverlap == f.overlap;
    }
  }

  /**
   * For two distinct words of capitals x and y (say "A" and "B"), "x y" against "x x x" takes the
   * flexible boost (pattern 3, the extracted tokens inside the input ones) and reports an overlap
   * of 2; one more x breaks pattern 3's length test and the overlap falls back to the exact
   * count, 1.
   */
  lemma OverlapDropExample(x: string, y: string)
    requires |x| > 0 && forall i :: 0 <= i < |x| ==> 'A' <= x[i] <= 'Z'
    requires |y| > 0 && forall i :: 0 <= i < |y| ==> 'A' <= y[i] <= 'Z'
    requires x != y
    ensures var e3, e4 := Join([x, x, x], " "), Join([x, x, x, x], " ");
      forall t :: t in NormTokens(Fields(e3)) ==> t in NormTokens(Fields(e4))
    ensures Compare(Join([x, y], " "), Join([x, x, x], " ")).tokenOverlap == 2
    ensures Compare(Join([x, y], " "), Join([x, x, x, x], " ")).tokenOverlap == 1
  {
    DropThree(x, y);
    DropFour(x, y);
  }

  lemma DropThree(x: string, y: string)
    requires |x| > 0 && forall i :: 0 <= i < |x| ==> 'A' <= x[i] <= 'Z'
    requires |y| > 0 && forall i :: 0 <= i < |y| ==> 'A' <= y[i] <= 'Z'
    requires x != y
    ensures NormTokens(Fields(Join([x, x, x], " "))) == [x, x, x]
    ensures Compare(Join([x, y], " "), Join([x, x, x], " ")).tokenOverlap == 2
  {
    var ex := [x, x, x];
    assert forall k :: 0 <= k < |ex| ==> ex[k] == x;
    CopiesTokens(ex, x);
    PairTokens(x, y);
    OverlapOf(Join([x, y], " "), Join(ex, " "), x, y, ex);
  }

  lemma DropFour(x: string, y: string)
    requires |x| > 0 && forall i :: 0 <= i < |x| ==> 'A' <= x[i] <= 'Z'
    requires |y| > 0 && forall i :: 0 <= i < |y| ==> 'A' <= y[i] <= 'Z'
    requires x != y
    ensures NormTokens(Fields(Join([x, x, x, x], " "))) == [x, x, x, x]
    ensures Compare(Join([x, y], " "), Join([x, x, x, x], " ")).tokenOverlap == 1
  {
    var ex := [x, x, x, x];
    assert forall k :: 0 <= k < |ex| ==> ex[k] == x;
    CopiesTokens(ex, x);
    PairTokens(x, y);
    OverlapOf(Join([x, y], " "), Join(ex, " "), x, y, ex);
  }

  /** Two words of capitals joined by a space split back into themselves, already normal. */
  lemma PairTokens(x: string, y: string)
    requires |x| > 0 && forall i :: 0 <= i < |x| ==> 'A' <= x[i] <= 'Z'
    requires |y| > 0 && forall i :: 0 <= i < |y| ==> 'A' <= y[i] <= 'Z'
    ensures Fields(Join([x, y], " ")) == [x, y] && NormTokens([x, y]) == [x, y]
  {
    assert ' ' !in x && ' ' !in y by {
      assert forall i :: 0 <= i < |x| ==> x[i] != ' ';
      assert forall i :: 0 <= i < |y| ==> y[i] != ' ';
    }
    FieldsOfJoin([x, y]);
    NormTokensOfCapitals(x, y);
  }

  /** Copies of a word of capitals joined by spaces split back into themselves, already normal. */
  lemma CopiesTokens(ex: seq<string>, x: string)
    requires |x| > 0 && forall i :: 0 <= i < |x| ==> 'A' <= x[i] <= 'Z'
    requires forall k :: 0 <= k < |ex| ==> ex[k] == x
    ensures Fields(Join(ex, " ")) == ex && NormTokens(ex) == ex
  {
    assert ' ' !in x by {
      assert forall i :: 0 <= i < |x| ==> x[i] != ' ';
    }
    FieldsOfJoin(ex);
    NormTokensOfCopies(ex, x);
  }

  /** The boosted overlap of two distinct tokens against three or four copies of the first. */
  lemma OverlapOf(inputName: string, extractedName: string, x: string, y: string, ex: seq<string>)
    requires x != y && Fields(inputName) == [x, y] && NormTokens([x, y]) == [x, y]
    requires Fields(extractedName) == ex && NormTokens(ex) == ex
    requires ex == [x, x, x] || ex == [x, x, x, x]
    ensures Analyze(inputName, extractedName).overlap == if |ex| == 3 then 2 else 1
  {
    BoostDrop(x, y);
  }

  /** Copies of one word of capitals are their own normalised tokens. */
  lemma NormTokensOfCopies(ws: seq<string>, x: string)
    requires |x| > 0 && forall i :: 0 <= i < |x| ==> 'A' <= x[i] <= 'Z'
    requires forall k :: 0 <= k < |ws| ==> ws[k] == x
    ensures NormTokens(ws) == ws
  {
    NormalizeCapitals(x);
    NormTokensOfNormal(ws);
  }

  /** Two distinct tokens against three, then four, copies of the first. */
  lemma BoostDrop(x: string, y: string)
    requires x != y
    ensures !IsExactMatch([x, y], [x, x, x]) && HasFlexibleMatch([x, y], [x, x, x])
    ensures CountPresent([x, y], [x, x, x]) == 1
    ensures !IsExactMatch([x, y], [x, x, x, x]) && !HasFlexibleMatch([x, y], [x, x, x, x])
    ensures CountPresent([x, y], [x, x, x, x]) == 1
  {
    assert Elems([x, y]) == {x, y};
    assert Elems([x, x, x]) == {x};
    assert Elems([x, x, x, x]) == {x};
    assert [x, y][..1] == [x];
    assert [x][..0] == [];
    assert !AllIn([x, y], [x, x, x, x]) by { assert [x, y][1] !in [x, x, x, x]; }
  }
}
