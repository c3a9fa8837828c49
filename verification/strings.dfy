/**
 * String primitives shared by the whole engine. Strings are `seq<char>`; only the
 * ASCII behaviour of JavaScript's `toUpperCase`, `\s`, `\d`, `\w` and `\b` is modelled.
 */
module Strings {

  // ---------------------------------------------------------------------------
  // Character classes
  // ---------------------------------------------------------------------------

  /** `\s` restricted to ASCII: space, tab, line feed, carriage return, vertical tab, form feed. */
  predicate IsSpace(c: char) {
    c == ' ' || c == '\t' || c == '\n' || c == '\r' || c == '\U{000B}' || c == '\U{000C}'
  }

  /** `\d` */
  predicate IsDigit(c: char) { '0' <= c <= '9' }

  predicate IsUpperLetter(c: char) { 'A' <= c <= 'Z' }

  predicate IsLowerLetter(c: char) { 'a' <= c <= 'z' }

  /** `[A-Za-z]` */
  predicate IsLetter(c: char) { IsUpperLetter(c) || IsLowerLetter(c) }

  /** `\w`, that is `[A-Za-z0-9_]` */
  predicate IsWordChar(c: char) { IsLetter(c) || IsDigit(c) || c == '_' }

  predicate IsNotLetter(c: char) { !IsLetter(c) }

  /** ASCII `toUpperCase` of one character. */
  function UpperChar(c: char): char {
    if IsLowerLetter(c) then (c as int - 32) as char else c
  }

  /** ASCII `toUpperCase`. */
  function Upper(s: string): (u: string)
    ensures |u| == |s|
    ensures forall i :: 0 <= i < |s| ==> u[i] == UpperChar(s[i])
  {
    seq(|s|, i requires 0 <= i < |s| => UpperChar(s[i]))
  }

  /** A string that upper-casing leaves unchanged. */
  predicate IsUpperCased(s: string) {
    forall i :: 0 <= i < |s| ==> UpperChar(s[i]) == s[i]
  }

  lemma UpperIsUpperCased(s: string)
    ensures IsUpperCased(Upper(s))
    ensures Upper(Upper(s)) == Upper(s)
  {
  }

  lemma UpperOfUpperCased(s: string)
    requires IsUpperCased(s)
    ensures Upper(s) == s
  {
  }

  lemma UpperConcat(a: string, b: string)
    ensures Upper(a + b) == Upper(a) + Upper(b)
  {
  }

  // ---------------------------------------------------------------------------
  // Counting and filtering characters
  // ---------------------------------------------------------------------------

  /** Number of characters of `s` that satisfy `p` (the length of `s.match(/p/g) || []`). */
  function CountWhere(s: string, p: char -> bool): (n: nat)
    ensures n <= |s|
  {
    if |s| == 0 then 0 else (if p(s[0]) then 1 else 0) + CountWhere(s[1..], p)
  }

  /** The characters of `s` that satisfy `p`, in order (`s.replace(/[^p]/g, '')`). */
  function Keep(s: string, p: char -> bool): (r: string)
    ensures |r| == CountWhere(s, p)
    ensures forall i :: 0 <= i < |r| ==> p(r[i]) && r[i] in s
    ensures (forall i :: 0 <= i < |s| ==> p(s[i])) ==> r == s
  {
    if |s| == 0 then "" else (if p(s[0]) then [s[0]] else "") + Keep(s[1..], p)
  }

  // ---------------------------------------------------------------------------
  // Splitting, filtering and joining
  // ---------------------------------------------------------------------------

  /**
   * `s.split(r)` where the separator `r` is a single character class: the pieces between
   * separator characters, empty pieces included, so there is always at least one piece.
   */
  function SplitWhere(s: string, sep: char -> bool): (pieces: seq<string>)
    ensures |pieces| >= 1
    ensures forall k, j :: 0 <= k < |pieces| && 0 <= j < |pieces[k]| ==> !sep(pieces[k][j])
    ensures forall k, j :: 0 <= k < |pieces| && 0 <= j < |pieces[k]| ==> pieces[k][j] in s
    decreases |s|
  {
    if |s| == 0 then [""]
    else
      var rest := SplitWhere(s[1..], sep);
      if sep(s[0]) then [""] + rest else [[s[0]] + rest[0]] + rest[1..]
  }

  /** `s.split(c)` for a one-character separator. */
  function SplitOn(s: string, c: char): seq<string> {
    SplitWhere(s, x => x == c)
  }

  /** `.filter(Boolean)` on a list of strings: drop the empty ones. */
  function NonEmpty(ss: seq<string>): (r: seq<string>)
    ensures |r| <= |ss|
    ensures forall i :: 0 <= i < |r| ==> r[i] != ""
    ensures forall i :: 0 <= i < |r| ==> r[i] in ss
    ensures forall x :: x in ss && x != "" ==> x in r
  {
    if |ss| == 0 then [] else (if ss[0] == "" then [] else [ss[0]]) + NonEmpty(ss[1..])
  }

  /** `.split(" ").filter(Boolean)` */
  function Fields(s: string): seq<string> {
    NonEmpty(SplitOn(s, ' '))
  }

  /** `ss.join(sep)` */
  function Join(ss: seq<string>, sep: string): string {
    if |ss| == 0 then "" else if |ss| == 1 then ss[0] else ss[0] + sep + Join(ss[1..], sep)
  }

  /** Every whitespace character replaced by a plain space. */
  function Blank(s: string): (b: string)
    ensures |b| == |s|
    ensures forall i :: 0 <= i < |s| ==> b[i] == if IsSpace(s[i]) then ' ' else s[i]
  {
    seq(|s|, i requires 0 <= i < |s| => if IsSpace(s[i]) then ' ' else s[i])
  }

  /**
   * `s.trim().replace(/\s+/g, " ").split(" ").filter(Boolean)`: the maximal runs of
   * non-whitespace characters. Trimming and collapsing change only how many empty pieces
   * the split produces, and the filter drops all of them.
   */
  function Words(s: string): seq<string> {
    Fields(Blank(s))
  }

  /** `s.replace(/\s+/g, ' ').trim()`: whitespace runs collapsed to one space, ends trimmed. */
  function CollapseSpaces(s: string): string {
    Join(Words(s), " ")
  }

  function TrimStart(s: string): (r: string)
    ensures |r| <= |s|
    ensures |r| > 0 ==> !IsSpace(r[0])
    ensures r == s[|s| - |r|..]
  {
    if |s| > 0 && IsSpace(s[0]) then TrimStart(s[1..]) else s
  }

  function TrimEnd(s: string): (r: string)
    ensures |r| <= |s|
    ensures |r| > 0 ==> !IsSpace(r[|r| - 1])
    ensures r == s[..|r|]
  {
    if |s| > 0 && IsSpace(s[|s| - 1]) then TrimEnd(s[..|s| - 1]) else s
  }

  /** `s.trim()` */
  function Trim(s: string): string {
    TrimEnd(TrimStart(s))
  }

  // ---------------------------------------------------------------------------
  // Substrings and keywords
  // ---------------------------------------------------------------------------

  predicate OccursAt(s: string, sub: string, i: nat) {
    i + |sub| <= |s| && s[i..i + |sub|] == sub
  }

  /** The set of strings a sequence holds (`new Set(ts)`). */
  function Elems(ts: seq<string>): set<string> {
    set t | t in ts
  }

  /** `s.includes(sub)` */
  predicate Contains(s: string, sub: string) {
    exists i: nat | i <= |s| :: OccursAt(s, sub, i)
  }

  /** True when some keyword of `kws` occurs in `s` (`kws.some(k => s.includes(k))`). */
  predicate ContainsAny(s: string, kws: seq<string>) {
    exists k | 0 <= k < |kws| :: Contains(s, kws[k])
  }

  predicate WordCharAt(s: string, i: int) {
    0 <= i < |s| && IsWordChar(s[i])
  }

  /** The regex assertion `\b` at position `p`: a word character on exactly one side. */
  predicate Boundary(s: string, p: int) {
    WordCharAt(s, p - 1) != WordCharAt(s, p)
  }

  /** `/\bkw\b/.test(s)` */
  predicate ContainsWord(s: string, kw: string) {
    exists i: nat | i <= |s| :: OccursAt(s, kw, i) && Boundary(s, i) && Boundary(s, i + |kw|)
  }

  /** `/\b(?:k1|k2|...)\b/.test(s)`: some alternative occurs between two boundaries. */
  predicate ContainsAnyWord(s: string, kws: seq<string>) {
    exists k | 0 <= k < |kws| :: ContainsWord(s, kws[k])
  }

  /** Every character of `s[lo..hi]` satisfies `p`. */
  predicate AllIn(s: string, lo: int, hi: int, p: char -> bool)
    requires 0 <= lo <= hi <= |s|
  {
    forall i :: lo <= i < hi ==> p(s[i])
  }

  /** The end of the run of characters satisfying `p` that starts at `i`. */
  function RunEnd(l: string, i: nat, p: char -> bool): (e: nat)
    requires i <= |l|
    ensures i <= e <= |l| && AllIn(l, i, e, p)
    ensures e < |l| ==> !p(l[e])
    decreases |l| - i
  {
    if i < |l| && p(l[i]) then RunEnd(l, i + 1, p) else i
  }

  // ---------------------------------------------------------------------------
  // Lemmas about splitting and joining
  // ---------------------------------------------------------------------------

  /** A piece free of separators followed by one separator splits off as one piece. */
  lemma {:induction false} SplitWhereCons(w: string, c: char, t: string, sep: char -> bool)
    requires sep(c)
    requires forall j :: 0 <= j < |w| ==> !sep(w[j])
    ensures SplitWhere(w + [c] + t, sep) == [w] + SplitWhere(t, sep)
    decreases |w|
  {
    if |w| == 0 {
      assert w + [c] + t == [c] + t;
      assert ([c] + t)[1..] == t;
    } else {
      assert (w + [c] + t)[1..] == w[1..] + [c] + t;
      SplitWhereCons(w[1..], c, t, sep);
      assert [w[0]] + w[1..] == w;
    }
  }

  /** A string without separators is a single piece. */
  lemma {:induction false} SplitWhereNone(w: string, sep: char -> bool)
    requires forall j :: 0 <= j < |w| ==> !sep(w[j])
    ensures SplitWhere(w, sep) == [w]
    decreases |w|
  {
    if |w| > 0 {
      SplitWhereNone(w[1..], sep);
      assert [w[0]] + w[1..] == w;
    }
  }

  /** Joining non-empty, space-free words with single spaces and splitting them again is the identity. */
  lemma {:induction false} FieldsOfJoin(ws: seq<string>)
    requires forall k :: 0 <= k < |ws| ==> ws[k] != "" && ' ' !in ws[k]
    ensures Fields(Join(ws, " ")) == ws
  {
    SplitOnJoin(ws);
    NonEmptyOfNonEmpty(ws);
  }

  lemma {:induction false} SplitOnJoin(ws: seq<string>)
    requires forall k :: 0 <= k < |ws| ==> ' ' !in ws[k]
    ensures |ws| > 0 ==> SplitOn(Join(ws, " "), ' ') == ws
    ensures |ws| == 0 ==> SplitOn(Join(ws, " "), ' ') == [""]
  {
    var sep := x => x == ' ';
    if |ws| == 0 {
    } else if |ws| == 1 {
      SplitWhereNone(ws[0], sep);
    } else {
      SplitOnJoin(ws[1..]);
      assert ws[0] + " " + Join(ws[1..], " ") == ws[0] + [' '] + Join(ws[1..], " ");
      SplitWhereCons(ws[0], ' ', Join(ws[1..], " "), sep);
      assert [ws[0]] + ws[1..] == ws;
    }
  }

  lemma {:induction false} NonEmptyOfNonEmpty(ws: seq<string>)
    requires forall k :: 0 <= k < |ws| ==> ws[k] != ""
    ensures NonEmpty(ws) == ws
  {
    if |ws| > 0 {
      NonEmptyOfNonEmpty(ws[1..]);
      assert [ws[0]] + ws[1..] == ws;
    }
  }

  /** Single-space joining of non-empty, space-free words never leaves a leading,
      trailing or doubled space. */
  lemma {:induction false} JoinHasNoStraySpaces(ws: seq<string>)
    requires forall k :: 0 <= k < |ws| ==> ws[k] != "" && ' ' !in ws[k]
    ensures var s := Join(ws, " ");
      (|s| > 0 ==> s[0] != ' ' && s[|s| - 1] != ' ') &&
      forall i :: 0 <= i < |s| - 1 ==> !(s[i] == ' ' && s[i + 1] == ' ')
  {
    if |ws| > 1 {
      JoinHasNoStraySpaces(ws[1..]);
      var t := Join(ws[1..], " ");
      var s := ws[0] + " " + t;
      assert Join(ws, " ") == s;
      forall i | 0 <= i < |s| - 1
        ensures !(s[i] == ' ' && s[i + 1] == ' ')
      {
        if i < |ws[0]| - 1 {
          assert s[i] == ws[0][i];
        } else if i == |ws[0]| - 1 {
          assert s[i] == ws[0][i];
          assert s[i] != ' ';
        } else if i == |ws[0]| {
          assert s[i + 1] == t[0];
        } else {
          assert s[i] == t[i - |ws[0]| - 1] && s[i + 1] == t[i - |ws[0]|];
        }
      }
    } else if |ws| == 1 {
      assert ws[0][0] in ws[0];
      assert ws[0][|ws[0]| - 1] in ws[0];
    }
  }

  /** The characters of a joined string are characters of the parts or of the separator. */
  lemma {:induction false} JoinChars(ws: seq<string>, sep: string, i: nat)
    requires i < |Join(ws, sep)|
    ensures Join(ws, sep)[i] in sep || exists k :: 0 <= k < |ws| && Join(ws, sep)[i] in ws[k]
  {
    if |ws| == 1 {
      assert Join(ws, sep)[i] in ws[0];
    } else if |ws| > 1 {
      var t := Join(ws[1..], sep);
      if i < |ws[0]| {
        assert Join(ws, sep)[i] == ws[0][i];
      } else if i < |ws[0]| + |sep| {
        assert Join(ws, sep)[i] == sep[i - |ws[0]|];
      } else {
        JoinChars(ws[1..], sep, i - |ws[0]| - |sep|);
        assert Join(ws, sep)[i] == t[i - |ws[0]| - |sep|];
      }
    }
  }

  /** A string made only of spaces has no fields. */
  lemma {:induction false} FieldsOfSpaces(s: string)
    requires forall i :: 0 <= i < |s| ==> s[i] == ' '
    ensures Fields(s) == []
  {
    SplitOfSpaces(s);
    NonEmptyOfEmpties(SplitOn(s, ' '));
  }

  lemma {:induction false} SplitOfSpaces(s: string)
    requires forall i :: 0 <= i < |s| ==> s[i] == ' '
    ensures forall k :: 0 <= k < |SplitOn(s, ' ')| ==> SplitOn(s, ' ')[k] == ""
  {
    if |s| > 0 {
      SplitOfSpaces(s[1..]);
      assert SplitOn(s, ' ') == [""] + SplitOn(s[1..], ' ');
    }
  }

  lemma {:induction false} NonEmptyOfEmpties(ss: seq<string>)
    requires forall k :: 0 <= k < |ss| ==> ss[k] == ""
    ensures NonEmpty(ss) == []
  {
    if |ss| > 0 {
      NonEmptyOfEmpties(ss[1..]);
    }
  }

  /** A string with a character other than a space has at least one field. */
  lemma {:induction false} FieldsOfNonSpace(s: string, i: nat)
    requires i < |s| && s[i] != ' '
    ensures Fields(s) != []
  {
    var sep := x => x == ' ';
    var pieces := SplitWhere(s, sep);
    SplitKeepsChar(s, sep, i);
    var k :| 0 <= k < |pieces| && s[i] in pieces[k];
    assert pieces[k] != "";
    assert pieces[k] in NonEmpty(pieces);
  }

  /** Every non-separator character of `s` ends up in some piece. */
  lemma {:induction false} SplitKeepsChar(s: string, sep: char -> bool, i: nat)
    requires i < |s| && !sep(s[i])
    ensures exists k :: 0 <= k < |SplitWhere(s, sep)| && s[i] in SplitWhere(s, sep)[k]
    decreases |s|
  {
    var rest := SplitWhere(s[1..], sep);
    if i == 0 {
      assert SplitWhere(s, sep)[0] == [s[0]] + rest[0];
      assert s[0] in SplitWhere(s, sep)[0];
    } else {
      SplitKeepsChar(s[1..], sep, i - 1);
      var k :| 0 <= k < |rest| && s[1..][i - 1] in rest[k];
      assert s[i] == s[1..][i - 1];
      if sep(s[0]) {
        assert SplitWhere(s, sep)[k + 1] == rest[k];
      } else if k == 0 {
        assert SplitWhere(s, sep)[0] == [s[0]] + rest[0];
        assert s[i] in SplitWhere(s, sep)[0];
      } else {
        assert SplitWhere(s, sep)[k] == rest[k];
      }
    }
  }
}
