/**
 * The "discrete mathematics" analyses of lib/logic.ts: set statistics of two token lists,
 * the factorial and binomial coefficient behind the combinatorial score, the boolean
 * connectives of A and E, the Bayesian confidence and the fixed name reorderings tried
 * against the document text.
 */
module DiscreteMath {
  import opened Strings
  import opened Numeric


  // ---------------------------------------------------------------------------
  // Sets of tokens (JavaScript Set in insertion order)
  // ---------------------------------------------------------------------------

  /** `ts.map(t => t.toUpperCase())` */
  function MapUpper(ts: seq<string>): (r: seq<string>)
    ensures |r| == |ts|
    ensures forall i :: 0 <= i < |ts| ==> r[i] == Upper(ts[i])
  {
    if |ts| == 0 then [] else [Upper(ts[0])] + MapUpper(ts[1..])
  }

  predicate NoDuplicates(xs: seq<string>) {
    forall i, j :: 0 <= i < j < |xs| ==> xs[i] != xs[j]
  }

  /** `[...new Set(xs)]`: every string of `xs` once, in order of first occurrence. */
  function Distinct(xs: seq<string>): (r: seq<string>)
    ensures NoDuplicates(r) && |r| <= |xs|
    ensures forall x :: x in r <==> x in xs
  {
    if |xs| == 0 then []
    else
      var d := Distinct(xs[..|xs| - 1]);
      var last := xs[|xs| - 1];
      assert forall x :: x in xs <==> x in xs[..|xs| - 1] || x == last by {
        assert xs == xs[..|xs| - 1] + [last];
      }
      if last in d then d else d + [last]
  }

  /** `xs.filter(x => ys.has(x))` when `keep`, `xs.filter(x => !ys.has(x))` otherwise. */
  function Filter(xs: seq<string>, ys: seq<string>, keep: bool): (r: seq<string>)
    ensures |r| <= |xs|
    ensures forall x :: x in r <==> x in xs && ((x in ys) == keep)
    ensures NoDuplicates(xs) ==> NoDuplicates(r)
  {
    if |xs| == 0 then []
    else
      var rest := Filter(xs[1..], ys, keep);
      assert forall x :: x in xs <==> x == xs[0] || x in xs[1..] by {
        assert xs == [xs[0]] + xs[1..];
      }
      if (xs[0] in ys) == keep then [xs[0]] + rest else rest
  }

  /** A sequence without duplicates has as many elements as its set. */
  lemma {:induction false} NoDuplicatesCard(xs: seq<string>)
    requires NoDuplicates(xs)
    ensures |Elems(xs)| == |xs|
  {
    if |xs| > 0 {
      var init := xs[..|xs| - 1];
      NoDuplicatesCard(init);
      assert xs == init + [xs[|xs| - 1]];
      assert Elems(xs) == Elems(init) + {xs[|xs| - 1]};
      assert xs[|xs| - 1] !in Elems(init);
    }
  }

  /** Keeping and dropping the members of `ys` split `xs` between them. */
  lemma {:induction false} FilterSplits(xs: seq<string>, ys: seq<string>)
    ensures |Filter(xs, ys, true)| + |Filter(xs, ys, false)| == |xs|
  {
    if |xs| > 0 {
      FilterSplits(xs[1..], ys);
    }
  }

  /** A duplicate-free sequence whose strings all occur in another duplicate-free one is no longer. */
  lemma Included(xs: seq<string>, ys: seq<string>)
    requires NoDuplicates(xs) && NoDuplicates(ys)
    requires forall x :: x in xs ==> x in ys
    ensures |xs| <= |ys|
    ensures |xs| == |ys| ==> forall y :: y in ys ==> y in xs
  {
    NoDuplicatesCard(xs);
    NoDuplicatesCard(ys);
    var a, b := Elems(xs), Elems(ys);
    assert a <= b;
    assert |b - a| == |b| - |a|;
    if |xs| == |ys| {
      assert b - a == {};
      forall y | y in ys ensures y in xs {
        assert y in b;
      }
    }
  }

  datatype SetAnalysis = SetAnalysis(
    intersection: seq<string>, union: seq<string>, jaccardSimilarity: real, setDifference: seq<string>)

  /** `analyzeSetTheory` */
  function AnalyzeSetTheory(inputTokens: seq<string>, extractedTokens: seq<string>): SetAnalysis {
    var inputSet := Distinct(MapUpper(inputTokens));
    var extractedSet := Distinct(MapUpper(extractedTokens));
    var intersection := Filter(inputSet, extractedSet, true);
    var union := Distinct(inputSet + extractedSet);
    var difference := Filter(inputSet, extractedSet, false);
    SetAnalysis(intersection, union, Jaccard(|intersection|, |union|), difference)
  }

  /** `intersection.length / (union.length || 1)` */
  function Jaccard(common: nat, all: nat): real {
    common as real / (if all == 0 then 1 else all) as real
  }

  /**
   * Intersection and difference split the distinct upper-cased input tokens: each holds its
   * strings once, a token is in the first exactly when the extracted side has it, in the
   * second exactly when it does not, and together they have as many as the input set.
   */
  lemma SetPartition(inputTokens: seq<string>, extractedTokens: seq<string>)
    ensures var s := AnalyzeSetTheory(inputTokens, extractedTokens);
      && NoDuplicates(s.intersection) && NoDuplicates(s.setDifference)
      && (forall x :: x in s.intersection <==> x in MapUpper(inputTokens) && x in MapUpper(extractedTokens))
      && (forall x :: x in s.setDifference <==> x in MapUpper(inputTokens) && x !in MapUpper(extractedTokens))
      && |s.intersection| + |s.setDifference| == |Distinct(MapUpper(inputTokens))|
  {
    FilterSplits(Distinct(MapUpper(inputTokens)), Distinct(MapUpper(extractedTokens)));
  }

  /** The union holds each upper-cased token of either side, once. */
  lemma UnionContainsBoth(inputTokens: seq<string>, extractedTokens: seq<string>)
    ensures var s := AnalyzeSetTheory(inputTokens, extractedTokens);
      && NoDuplicates(s.union)
      && forall x :: x in s.union <==> x in MapUpper(inputTokens) || x in MapUpper(extractedTokens)
  {
  }

  lemma JaccardOfCounts(common: nat, all: nat)
    requires common <= all
    ensures 0.0 <= Jaccard(common, all) <= 1.0
    ensures all == 0 ==> Jaccard(common, all) == 0.0
    ensures all > 0 ==> (Jaccard(common, all) == 1.0 <==> common == all)
    ensures Jaccard(common, all) == 0.0 <==> common == 0
  {
  }

  /**
   * The Jaccard similarity lies in [0, 1]; it is 0 exactly when the two sides share no
   * upper-cased token (in particular for an empty union) and, for a non-empty union, 1 exactly
   * when both sides hold the same upper-cased tokens.
   */
  lemma JaccardBounds(inputTokens: seq<string>, extractedTokens: seq<string>)
    ensures var s := AnalyzeSetTheory(inputTokens, extractedTokens);
      && 0.0 <= s.jaccardSimilarity <= 1.0
      && (|s.union| == 0 ==> s.jaccardSimilarity == 0.0)
      && (s.jaccardSimilarity == 0.0 <==>
            forall x :: x in MapUpper(inputTokens) ==> x !in MapUpper(extractedTokens))
      && (|s.union| > 0 ==>
            (s.jaccardSimilarity == 1.0 <==>
               forall x :: x in MapUpper(inputTokens) <==> x in MapUpper(extractedTokens)))
  {
    var s := AnalyzeSetTheory(inputTokens, extractedTokens);
    var a, b := MapUpper(inputTokens), MapUpper(extractedTokens);
    SetPartition(inputTokens, extractedTokens);
    UnionContainsBoth(inputTokens, extractedTokens);
    Included(s.intersection, s.union);
    JaccardOfCounts(|s.intersection|, |s.union|);
    if |s.intersection| > 0 {
      assert s.intersection[0] in s.intersection;
    }
    if forall x :: x in a <==> x in b {
      forall y | y in s.union ensures y in s.intersection { }
      Included(s.union, s.intersection);
    }
  }

  // ---------------------------------------------------------------------------
  // Combinatorics
  // ---------------------------------------------------------------------------

  /** The recursive `factorial` (n! with 0! = 1! = 1). */
  function Factorial(n: nat): (f: nat)
    ensures f >= 1
  {
    if n <= 1 then 1 else n * Factorial(n - 1)
  }

  /** The binomial coefficient by Pascal's rule: the number of k-subsets of an n-set. */
  function Choose(n: nat, k: nat): nat {
    if k == 0 then 1 else if n == 0 then 0 else Choose(n - 1, k - 1) + Choose(n - 1, k)
  }

  /** The closed form n! / (k! (n-k)!) as the code computes it, and 0 when k > n. */
  function Binomial(n: nat, k: nat): real {
    if k <= n then Factorial(n) as real / (Factorial(k) * Factorial(n - k)) as real else 0.0
  }

  lemma {:induction false} ChooseAbove(n: nat, k: nat)
    requires k > n
    ensures Choose(n, k) == 0
  {
    if n > 0 {
      ChooseAbove(n - 1, k - 1);
      ChooseAbove(n - 1, k);
    }
  }

  lemma {:induction false} ChooseAll(n: nat)
    ensures Choose(n, n) == 1
  {
    if n > 0 {
      ChooseAll(n - 1);
      ChooseAbove(n - 1, n);
    }
  }

  /** The ring identity behind Pascal's rule, over plain numbers. */
  lemma PascalArithmetic(n: int, k: int, a: int, b: int, fk1: int, fnk1: int, f: int)
    requires a * (fk1 * ((n - k) * fnk1)) == f
    requires b * ((k * fk1) * fnk1) == f
    ensures (a + b) * ((k * fk1) * ((n - k) * fnk1)) == n * f
  {
    calc {
      (a + b) * ((k * fk1) * ((n - k) * fnk1));
      k * (a * (fk1 * ((n - k) * fnk1))) + (n - k) * (b * ((k * fk1) * fnk1));
      k * f + (n - k) * f;
    }
  }

  /** Pascal's rule agrees with the factorial formula: C(n, k) k! (n-k)! = n!. */
  lemma {:induction false} ChooseTimesFactorials(n: nat, k: nat)
    requires k <= n
    ensures Choose(n, k) * (Factorial(k) * Factorial(n - k)) == Factorial(n)
  {
    if k == 0 {
    } else if k == n {
      ChooseAll(n);
    } else {
      ChooseTimesFactorials(n - 1, k - 1);
      ChooseTimesFactorials(n - 1, k);
      assert Factorial(k) == k * Factorial(k - 1);
      assert Factorial(n - k) == (n - k) * Factorial(n - k - 1);
      assert Factorial(n) == n * Factorial(n - 1);
      PascalArithmetic(n, k, Choose(n - 1, k - 1), Choose(n - 1, k),
        Factorial(k - 1), Factorial(n - k - 1), Factorial(n - 1));
    }
  }

  lemma ExactQuotient(x: int, c: int, d: int)
    requires d > 0 && x == c * d
    ensures x as real / d as real == c as real
  {
    assert x as real == c as real * d as real;
  }

  /** The code's quotient of factorials is exactly the binomial coefficient. */
  lemma BinomialIsChoose(n: nat, k: nat)
    requires k <= n
    ensures Binomial(n, k) == Choose(n, k) as real
  {
    ChooseTimesFactorials(n, k);
    ExactQuotient(Factorial(n), Choose(n, k), Factorial(k) * Factorial(n - k));
  }

  datatype CombinatoricsAnalysis = CombinatoricsAnalysis(
    possibleNamePermutations: nat, actualMatches: nat, combinatorialScore: real)

  /** `analyzeCombinatorics` */
  function AnalyzeCombinatorics(inputTokens: seq<string>, extractedTokens: seq<string>): CombinatoricsAnalysis {
    var permutations := Factorial(MinNat(|inputTokens|, 5));
    var inputSet := Distinct(MapUpper(inputTokens));
    var extractedSet := Distinct(MapUpper(extractedTokens));
    var k := |Filter(inputSet, extractedSet, true)|;
    CombinatoricsAnalysis(permutations, k, ScorePerOrdering(Binomial(|inputTokens|, k), permutations))
  }

  /** `Math.min(100, (combinatorial / possibleNamePermutations) * 100)` */
  function ScorePerOrdering(combinatorial: real, permutations: nat): real
    requires permutations > 0
  {
    MinReal(100.0, combinatorial / permutations as real * 100.0)
  }

  lemma ScorePerOrderingBounds(combinatorial: real, permutations: nat)
    requires permutations > 0 && combinatorial >= 1.0
    ensures 0.0 < ScorePerOrdering(combinatorial, permutations) <= 100.0
  {
  }

  /** The matches are the shared distinct tokens, so the `n - k >= 0` guard always holds. */
  lemma ActualMatchesBound(inputTokens: seq<string>, extractedTokens: seq<string>)
    ensures var c := AnalyzeCombinatorics(inputTokens, extractedTokens);
      && c.actualMatches == |AnalyzeSetTheory(inputTokens, extractedTokens).intersection|
      && c.actualMatches <= |Distinct(MapUpper(inputTokens))| <= |inputTokens|
  {
  }

  /** The score is C(n, k), counted by Pascal's rule, per possible ordering; it lies in (0, 100]. */
  lemma CombinatoricsBounds(inputTokens: seq<string>, extractedTokens: seq<string>)
    ensures var c := AnalyzeCombinatorics(inputTokens, extractedTokens);
      && c.possibleNamePermutations > 0
      && c.combinatorialScore
         == ScorePerOrdering(Choose(|inputTokens|, c.actualMatches) as real, c.possibleNamePermutations)
      && 0.0 < c.combinatorialScore <= 100.0
  {
    var c := AnalyzeCombinatorics(inputTokens, extractedTokens);
    var n := |inputTokens|;
    ActualMatchesBound(inputTokens, extractedTokens);
    BinomialIsChoose(n, c.actualMatches);
    ChoosePositive(n, c.actualMatches);
    ScorePerOrderingBounds(Choose(n, c.actualMatches) as real, c.possibleNamePermutations);
  }

  lemma {:induction false} ChoosePositive(n: nat, k: nat)
    requires k <= n
    ensures Choose(n, k) >= 1
  {
    if k > 0 {
      ChoosePositive(n - 1, k - 1);
    }
  }

  // ---------------------------------------------------------------------------
  // Boolean algebra
  // ---------------------------------------------------------------------------

  /** `analyzeBooleanAlgebra`, with each display string kept as the boolean it shows. */
  datatype BooleanAnalysis = BooleanAnalysis(
    conjunction: bool, disjunction: bool, notA: bool, notE: bool,
    implication: bool, biconditional: bool, exclusiveOr: bool,
    truthTableSize: nat, satisfiabilityScore: real)

  function CountTrue(a: bool, e: bool): nat {
    (if a then 1 else 0) + (if e then 1 else 0)
  }

  function AnalyzeBooleanAlgebra(a: bool, e: bool): BooleanAnalysis {
    BooleanAnalysis(a && e, a || e, !a, !e, !a || e, a == e, a != e,
      4, CountTrue(a, e) as real / 2.0 * 100.0)
  }

  /**
   * The satisfiability score is 100 exactly when A ∧ E, 0 exactly when neither holds and 50
   * otherwise; the connectives obey De Morgan and xor is the negated biconditional.
   */
  lemma BooleanLaws(a: bool, e: bool)
    ensures var b := AnalyzeBooleanAlgebra(a, e);
      && (b.satisfiabilityScore == 100.0 <==> b.conjunction)
      && (b.satisfiabilityScore == 0.0 <==> !b.disjunction)
      && (b.satisfiabilityScore == 50.0 <==> b.exclusiveOr)
      && (!b.conjunction <==> b.notA || b.notE)
      && (!b.disjunction <==> b.notA && b.notE)
      && b.exclusiveOr == !b.biconditional
      && (b.implication <==> (a ==> e))
      && b.truthTableSize == |TruthTable|
  {
  }

  /** One row of a two-variable truth table. */
  datatype Row = Row(a: bool, e: bool, y: bool)

  /** The fixed table of Y = A ∧ E returned with every verdict. */
  const TruthTable: seq<Row> := [
    Row(false, false, false), Row(false, true, false),
    Row(true, false, false), Row(true, true, true)]

  /** The table lists every assignment once, and each row's Y is A ∧ E. */
  lemma TruthTableIsConjunction()
    ensures forall r: Row :: r in TruthTable <==> r.y == (r.a && r.e)
    ensures NoDuplicateRows(TruthTable)
  {
  }

  predicate NoDuplicateRows(rows: seq<Row>) {
    forall i, j :: 0 <= i < j < |rows| ==> rows[i] != rows[j]
  }

  // ---------------------------------------------------------------------------
  // Probability
  // ---------------------------------------------------------------------------

  datatype ProbabilityAnalysis = ProbabilityAnalysis(
    bayesianConfidence: real, priorProbability: real, likelihood: real,
    posteriorProbability: real, low: real, high: real)

  const Prior: real := 0.7
  const Evidence: real := 0.5
  const Margin: real := 5.0

  /** `analyzeProbabilityTheory` as written: the confidence is capped above but not below. */
  function AnalyzeProbabilityAsWritten(nameScore: real, documentScore: real): ProbabilityAnalysis {
    var likelihood := (nameScore / 100.0 + documentScore / 100.0) / 2.0;
    var posterior := likelihood * Prior / Evidence;
    var confidence := MinReal(1.0, posterior) * 100.0;
    ProbabilityAnalysis(confidence, Prior, likelihood, posterior,
      MaxReal(0.0, confidence - Margin), MinReal(100.0, confidence + Margin))
  }

  /** The analysis with the confidence clamped to [0, 100], as a percentage is meant to be. */
  function AnalyzeProbability(nameScore: real, documentScore: real): (p: ProbabilityAnalysis)
    ensures 0.0 <= p.low <= p.bayesianConfidence <= p.high <= 100.0
  {
    var likelihood := (nameScore / 100.0 + documentScore / 100.0) / 2.0;
    var posterior := likelihood * Prior / Evidence;
    var confidence := MaxReal(0.0, MinReal(1.0, posterior)) * 100.0;
    ProbabilityAnalysis(confidence, Prior, likelihood, posterior,
      MaxReal(0.0, confidence - Margin), MinReal(100.0, confidence + Margin))
  }

  /** The confidence is 0.7 (nameScore + documentScore), capped at 100 (and, corrected, at 0). */
  lemma ConfidenceFormula(nameScore: real, documentScore: real)
    ensures AnalyzeProbabilityAsWritten(nameScore, documentScore).bayesianConfidence
      == MinReal(100.0, 0.7 * (nameScore + documentScore))
    ensures AnalyzeProbability(nameScore, documentScore).bayesianConfidence
      == MaxReal(0.0, MinReal(100.0, 0.7 * (nameScore + documentScore)))
  {
  }

  /**
   * Finding: a confidence below -5 (a negative document score suffices) makes the interval
   * as written empty, its lower end 0 above its upper end.
   */
  lemma InvertedIntervalAsWritten()
    ensures var p := AnalyzeProbabilityAsWritten(0.0, -24.0); p.low == 0.0 && p.high < -11.0
  {
  }

  /** Clamping changes nothing the decision reads: the 50% test and every in-range input agree. */
  lemma ClampAgreesOnDecision(nameScore: real, documentScore: real)
    ensures AnalyzeProbability(nameScore, documentScore).bayesianConfidence >= 50.0
      <==> AnalyzeProbabilityAsWritten(nameScore, documentScore).bayesianConfidence >= 50.0
    ensures 0.0 <= nameScore + documentScore ==>
      AnalyzeProbability(nameScore, documentScore) == AnalyzeProbabilityAsWritten(nameScore, documentScore)
  {
  }

  // ---------------------------------------------------------------------------
  // Name reorderings
  // ---------------------------------------------------------------------------

  /** The two orders of a pair. */
  function PairOrders(a: string, b: string): seq<seq<string>> {
    [[a, b], [b, a]]
  }

  /** The six orders of three names, in the order the code lists them. */
  function TripleOrders(a: string, b: string, c: string): seq<seq<string>> {
    [[a, b, c], [c, a, b], [b, c, a], [a, c, b], [c, b, a], [b, a, c]]
  }

  /**
   * `generateNamePermutations`: the tokens themselves, plus the reversed pair for two tokens
   * and the five other orders for three. Four or more tokens are tried in their own order only.
   */
  function GenerateNamePermutations(tokens: seq<string>): (r: seq<seq<string>>)
    ensures |r| >= 1 && r[0] == tokens
  {
    var t := tokens;
    if |t| <= 1 then [t]
    else if |t| == 2 then
      assert t == [t[0], t[1]];
      PairOrders(t[0], t[1])
    else if |t| == 3 then
      assert t == [t[0], t[1], t[2]];
      TripleOrders(t[0], t[1], t[2])
    else [t]
  }

  lemma PairOrdersRearrange(a: string, b: string)
    ensures forall i :: 0 <= i < 2 ==> multiset(PairOrders(a, b)[i]) == multiset{a, b}
  {
  }

  lemma TripleOrdersRearrange(a: string, b: string, c: string)
    ensures forall i :: 0 <= i < 6 ==> multiset(TripleOrders(a, b, c)[i]) == multiset{a, b, c}
  {
  }

  /** Every ordering tried is a rearrangement of the tokens. */
  lemma PermutationsAreRearrangements(tokens: seq<string>)
    ensures var r := GenerateNamePermutations(tokens);
      forall i :: 0 <= i < |r| ==> multiset(r[i]) == multiset(tokens)
  {
    var t := tokens;
    if |t| == 2 {
      assert t == [t[0], t[1]];
      PairOrdersRearrange(t[0], t[1]);
    } else if |t| == 3 {
      assert t == [t[0], t[1], t[2]];
      TripleOrdersRearrange(t[0], t[1], t[2]);
    }
  }

  /** Up to three tokens every rearrangement is tried. */
  lemma PermutationsAreComplete(tokens: seq<string>, p: seq<string>)
    requires |tokens| <= 3 && multiset(p) == multiset(tokens)
    ensures p in GenerateNamePermutations(tokens)
  {
    var t := tokens;
    assert |p| == |multiset(p)| == |t|;
    if |t| == 1 {
      assert p[0] in multiset(t);
      assert p == t;
    } else if |t| == 2 {
      PairShape(t);
      PairShape(p);
      RearrangedPair(t[0], t[1], p[0], p[1]);
    } else if |t| == 3 {
      TripleShape(t);
      TripleShape(p);
      RearrangedTriple(t[0], t[1], t[2], p[0], p[1], p[2]);
    }
  }

  lemma PairShape(s: seq<string>)
    requires |s| == 2
    ensures s == [s[0], s[1]] && multiset(s) == multiset{s[0], s[1]}
  {
    assert s == [s[0]] + [s[1]];
  }

  lemma TripleShape(s: seq<string>)
    requires |s| == 3
    ensures s == [s[0], s[1], s[2]] && multiset(s) == multiset{s[0], s[1], s[2]}
  {
    assert s == [s[0]] + [s[1]] + [s[2]];
  }

  lemma RearrangedPair(a: string, b: string, x: string, y: string)
    requires multiset{x, y} == multiset{a, b}
    ensures [x, y] in PairOrders(a, b)
  {
    assert x in multiset{a, b};
    if x == a {
      assert multiset{y} == multiset{x, y} - multiset{x} == multiset{b};
    } else {
      assert multiset{y} == multiset{x, y} - multiset{x} == multiset{a};
    }
  }

  lemma RemoveFirst(a: string, b: string, c: string, x: string, y: string, z: string)
    requires multiset{x, y, z} == multiset{a, b, c}
    ensures x == a || x == b || x == c
    ensures multiset{y, z} == multiset{a, b, c} - multiset{x}
  {
    assert x in multiset{a, b, c};
    assert multiset{y, z} == multiset{x, y, z} - multiset{x};
  }

  lemma RearrangedTriple(a: string, b: string, c: string, x: string, y: string, z: string)
    requires multiset{x, y, z} == multiset{a, b, c}
    ensures [x, y, z] in TripleOrders(a, b, c)
  {
    RemoveFirst(a, b, c, x, y, z);
    if x == a {
      assert multiset{y, z} == multiset{b, c} by { RemoveFirst(a, b, c, x, y, z); }
      RearrangedPair(b, c, y, z);
    } else if x == b {
      assert multiset{y, z} == multiset{a, c} by { RemoveFirst(a, b, c, x, y, z); }
      RearrangedPair(a, c, y, z);
    } else {
      assert multiset{y, z} == multiset{a, b} by { RemoveFirst(a, b, c, x, y, z); }
      RearrangedPair(a, b, y, z);
    }
  }
}
