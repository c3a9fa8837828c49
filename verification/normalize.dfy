/**
 * The name normaliser of lib/sample-db.ts: trim, collapse whitespace, upper-case, split on
 * spaces, drop empty pieces, sort the tokens in JavaScript's default string order and join
 * them with single spaces. Every other component compares names in this canonical form.
 */
module Normalize {
  import opened Strings
  import opened Wrappers

  /** A certificate record; `name` is stored in normalised form. */
  datatype Certificate = Certificate(id: string, name: string, hash: Option<string>, eligibility: bool)

  // ---------------------------------------------------------------------------
  // JavaScript's default sort order on strings
  // ---------------------------------------------------------------------------

  /** Code-unit lexicographic order, the order `Array.prototype.sort()` uses without a comparator. */
  predicate StrLe(a: string, b: string)
    decreases |a|
  {
    |a| == 0 || (|b| > 0 && (a[0] < b[0] || (a[0] == b[0] && StrLe(a[1..], b[1..]))))
  }

  lemma {:induction false} StrLeTotal(a: string, b: string)
    ensures StrLe(a, b) || StrLe(b, a)
    decreases |a|
  {
    if |a| > 0 && |b| > 0 && a[0] == b[0] {
      StrLeTotal(a[1..], b[1..]);
    }
  }

  lemma {:induction false} StrLeAntisymmetric(a: string, b: string)
    requires StrLe(a, b) && StrLe(b, a)
    ensures a == b
    decreases |a|
  {
    if |a| > 0 {
      StrLeAntisymmetric(a[1..], b[1..]);
      assert a == [a[0]] + a[1..] && b == [b[0]] + b[1..];
    }
  }

  lemma {:induction false} StrLeTransitive(a: string, b: string, c: string)
    requires StrLe(a, b) && StrLe(b, c)
    ensures StrLe(a, c)
    decreases |a|
  {
    if |a| > 0 && a[0] == b[0] && b[0] == c[0] {
      StrLeTransitive(a[1..], b[1..], c[1..]);
    }
  }

  lemma {:induction false} StrLeReflexive(a: string)
    ensures StrLe(a, a)
    decreases |a|
  {
    if |a| > 0 {
      StrLeReflexive(a[1..]);
    }
  }

  predicate Sorted(ts: seq<string>) {
    forall i, j :: 0 <= i < j < |ts| ==> StrLe(ts[i], ts[j])
  }

  /** Insert `x` before the first element it does not exceed. */
  function Insert(x: string, ts: seq<string>): (r: seq<string>)
    ensures multiset(r) == multiset(ts) + multiset{x}
    ensures Sorted(ts) ==> Sorted(r)
  {
    if |ts| == 0 then [x]
    else if StrLe(x, ts[0]) then
      assert Sorted(ts) ==> Sorted([x] + ts) by {
        if Sorted(ts) { InsertFrontSorted(x, ts); }
      }
      [x] + ts
    else
      var rest := Insert(x, ts[1..]);
      assert ts == [ts[0]] + ts[1..];
      StrLeTotal(x, ts[0]);
      assert Sorted(ts) ==> Sorted([ts[0]] + rest) by {
        if Sorted(ts) { InsertBehindSorted(ts[0], x, ts[1..], rest); }
      }
      [ts[0]] + rest
  }

  lemma InsertFrontSorted(x: string, ts: seq<string>)
    requires |ts| > 0 && StrLe(x, ts[0]) && Sorted(ts)
    ensures Sorted([x] + ts)
  {
    var r := [x] + ts;
    forall i, j | 0 <= i < j < |r|
      ensures StrLe(r[i], r[j])
    {
      if i == 0 && j > 1 {
        StrLeTransitive(x, ts[0], ts[j - 1]);
      } else if i > 0 {
        assert r[i] == ts[i - 1] && r[j] == ts[j - 1];
      }
    }
  }

  lemma InsertBehindSorted(h: string, x: string, tail: seq<string>, rest: seq<string>)
    requires StrLe(h, x) && Sorted([h] + tail)
    requires multiset(rest) == multiset(tail) + multiset{x}
    requires Sorted(rest)
    ensures Sorted([h] + rest)
  {
    var r := [h] + rest;
    forall i, j | 0 <= i < j < |r|
      ensures StrLe(r[i], r[j])
    {
      if i == 0 {
        var y := rest[j - 1];
        assert r[i] == h && r[j] == y;
        assert y in multiset(rest);
        if y != x {
          assert y in multiset(tail);
          var k :| 0 <= k < |tail| && tail[k] == y;
          assert ([h] + tail)[0] == h && ([h] + tail)[k + 1] == tail[k];
          assert StrLe(([h] + tail)[0], ([h] + tail)[k + 1]);
        }
      } else {
        assert r[i] == rest[i - 1] && r[j] == rest[j - 1];
      }
    }
  }

  /** Insertion sort; any correct sort gives this result, because equal strings are identical. */
  function Sort(ts: seq<string>): (r: seq<string>)
    ensures multiset(r) == multiset(ts)
    ensures Sorted(r)
  {
    if |ts| == 0 then []
    else
      assert ts == [ts[0]] + ts[1..];
      Insert(ts[0], Sort(ts[1..]))
  }

  lemma SortedTail(a: seq<string>)
    requires |a| > 0 && Sorted(a)
    ensures Sorted(a[1..])
  {
    forall p, q | 0 <= p < q < |a| - 1
      ensures StrLe(a[1..][p], a[1..][q])
    {
      assert a[1..][p] == a[p + 1] && a[1..][q] == a[q + 1];
    }
  }

  /** The head of a sorted sequence is at most every element of it. */
  lemma SortedHeadIsLeast(a: seq<string>, y: string)
    requires |a| > 0 && Sorted(a) && y in a
    ensures StrLe(a[0], y)
  {
    var i :| 0 <= i < |a| && a[i] == y;
    if i == 0 {
      StrLeReflexive(y);
    }
  }

  /** A sorted arrangement of a multiset of strings is unique. */
  lemma MultisetTail(a: seq<string>)
    requires |a| > 0
    ensures multiset(a[1..]) == multiset(a) - multiset{a[0]}
  {
    assert a == [a[0]] + a[1..];
  }

  lemma {:induction false} SortedUnique(a: seq<string>, b: seq<string>)
    requires Sorted(a) && Sorted(b) && multiset(a) == multiset(b)
    ensures a == b
    decreases |a|
  {
    if |a| > 0 {
      assert |b| == |multiset(b)| == |a|;
      assert a[0] in multiset(b) && b[0] in multiset(a);
      SortedHeadIsLeast(b, a[0]);
      SortedHeadIsLeast(a, b[0]);
      StrLeAntisymmetric(a[0], b[0]);
      MultisetTail(a);
      MultisetTail(b);
      SortedTail(a);
      SortedTail(b);
      SortedUnique(a[1..], b[1..]);
    }
  }

  // ---------------------------------------------------------------------------
  // normalizeName
  // ---------------------------------------------------------------------------

  /** The upper-cased whitespace-separated tokens of a raw name, in input order. */
  function NameTokens(raw: string): seq<string> {
    Fields(Upper(Blank(raw)))
  }

  /** `normalizeName(raw)` (lib/sample-db.ts:9-11). */
  function NormalizeName(raw: string): string {
    Join(Sort(NameTokens(raw)), " ")
  }

  /** What a token of a normalised name looks like: non-empty, no whitespace, upper-cased. */
  predicate IsToken(t: string) {
    t != "" && (forall i :: 0 <= i < |t| ==> !IsSpace(t[i])) && IsUpperCased(t)
  }

  lemma NameTokensAreTokens(raw: string)
    ensures forall t :: t in NameTokens(raw) ==> IsToken(t)
  {
    var s := Upper(Blank(raw));
    var pieces := SplitOn(s, ' ');
    forall t | t in NameTokens(raw)
      ensures IsToken(t)
    {
      var k :| 0 <= k < |pieces| && pieces[k] == t;
      forall i | 0 <= i < |t|
        ensures !IsSpace(t[i]) && UpperChar(t[i]) == t[i]
      {
        assert t[i] in s;
        var m :| 0 <= m < |s| && s[m] == t[i];
        assert t[i] != ' ';
      }
    }
  }

  /** Joining tokens with single spaces gives a string that blanking and upper-casing leave alone. */
  lemma JoinOfTokensIsStable(ts: seq<string>)
    requires forall t :: t in ts ==> IsToken(t)
    ensures Upper(Blank(Join(ts, " "))) == Join(ts, " ")
  {
    var s := Join(ts, " ");
    forall i | 0 <= i < |s|
      ensures !IsSpace(s[i]) || s[i] == ' '
      ensures UpperChar(s[i]) == s[i]
    {
      JoinChars(ts, " ", i);
      if s[i] !in " " {
        var k :| 0 <= k < |ts| && s[i] in ts[k];
        var m :| 0 <= m < |ts[k]| && ts[k][m] == s[i];
        assert IsToken(ts[k]);
      }
    }
  }

  /** Tokens contain no space character, the separator `Join` puts between them. */
  lemma TokensAreSpaceFree(ts: seq<string>)
    requires forall t :: t in ts ==> IsToken(t)
    ensures forall k :: 0 <= k < |ts| ==> ts[k] != "" && ' ' !in ts[k]
  {
    forall k | 0 <= k < |ts|
      ensures ts[k] != "" && ' ' !in ts[k]
    {
      assert IsToken(ts[k]) && IsSpace(' ');
    }
  }

  /** The sorted tokens of a raw name are tokens. */
  lemma SortedTokensAreTokens(raw: string)
    ensures forall t :: t in Sort(NameTokens(raw)) ==> IsToken(t)
  {
    var ts := Sort(NameTokens(raw));
    NameTokensAreTokens(raw);
    forall t | t in ts
      ensures IsToken(t)
    {
      assert t in multiset(ts);
    }
  }

  /** The shape of a normalised name: its space-separated fields are the sorted input tokens. */
  lemma {:induction false} NormalizedFields(raw: string)
    ensures var r := NormalizeName(raw);
      && Fields(r) == Sort(NameTokens(raw))
      && Sorted(Fields(r))
      && multiset(Fields(r)) == multiset(NameTokens(raw))
      && (forall t :: t in Fields(r) ==> IsToken(t))
  {
    var ts := Sort(NameTokens(raw));
    SortedTokensAreTokens(raw);
    TokensAreSpaceFree(ts);
    FieldsOfJoin(ts);
  }

  /** A normalised name has no leading, trailing or doubled spaces. */
  lemma {:induction false} NormalizedSpacing(raw: string)
    ensures var r := NormalizeName(raw);
      && (|r| > 0 ==> r[0] != ' ' && r[|r| - 1] != ' ')
      && (forall i :: 0 <= i < |r| - 1 ==> !(r[i] == ' ' && r[i + 1] == ' '))
  {
    var ts := Sort(NameTokens(raw));
    SortedTokensAreTokens(raw);
    TokensAreSpaceFree(ts);
    JoinHasNoStraySpaces(ts);
  }

  /** normalizeName(normalizeName(x)) == normalizeName(x). */
  lemma {:induction false} NormalizeIdempotent(raw: string)
    ensures NormalizeName(NormalizeName(raw)) == NormalizeName(raw)
  {
    var r := NormalizeName(raw);
    var ts := Sort(NameTokens(raw));
    NormalizedFields(raw);
    JoinOfTokensIsStable(ts);
    assert NameTokens(r) == ts;
    SortedUnique(Sort(ts), ts);
  }

  /** Whitespace-only or empty input, and only such input, normalises to "". */
  lemma {:induction false} NormalizeEmptyIff(raw: string)
    ensures NormalizeName(raw) == "" <==> forall i :: 0 <= i < |raw| ==> IsSpace(raw[i])
  {
    var s := Upper(Blank(raw));
    if forall i :: 0 <= i < |raw| ==> IsSpace(raw[i]) {
      FieldsOfSpaces(s);
    } else {
      var i :| 0 <= i < |raw| && !IsSpace(raw[i]);
      FieldsOfNonSpace(s, i);
      var ts := Sort(NameTokens(raw));
      assert |multiset(ts)| == |multiset(NameTokens(raw))|;
      NormalizedFields(raw);
      FieldsOfSpaces("");
      assert Fields(NormalizeName(raw)) != Fields("");
    }
  }

  /** Inputs with the same multiset of upper-cased tokens normalise to the same string. */
  lemma {:induction false} NormalizeOrderInvariant(a: string, b: string)
    requires multiset(NameTokens(a)) == multiset(NameTokens(b))
    ensures NormalizeName(a) == NormalizeName(b)
  {
    SortedUnique(Sort(NameTokens(a)), Sort(NameTokens(b)));
  }
}
