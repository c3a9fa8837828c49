/**
 * The e-mail scan of the field extractor: the first line holding a match of
 * `[a-zA-Z0-9._%+-]+@[a-zA-Z0-9.-]+\.[a-zA-Z]{2,}`, and the leftmost match in it.
 *
 * The backtracking regex matcher is written out as the match it settles on. The local part
 * cannot hold `@`, so a match through a given `@` starts at the beginning of the run of local
 * characters before it. The greedy domain part backs off to the LAST dot that still has two
 * letters after it inside the run of domain characters. The top-level domain then takes every
 * letter that follows.
 */
module Email {
  import opened Wrappers
  import opened Strings

  /** `[a-zA-Z0-9._%+-]` */
  predicate IsLocalChar(c: char) {
    IsLetter(c) || IsDigit(c) || c == '.' || c == '_' || c == '%' || c == '+' || c == '-'
  }

  /** `[a-zA-Z0-9.-]` */
  predicate IsDomainChar(c: char) {
    IsLetter(c) || IsDigit(c) || c == '.' || c == '-'
  }

  /** `e` as a whole is in the language of the pattern: local part, `@`, domain, dot, two or more letters. */
  ghost predicate IsEmail(e: string) {
    exists a: nat, q: nat | 0 < a && a + 1 < q && q + 2 < |e| ::
      && AllIn(e, 0, a, IsLocalChar) && e[a] == '@'
      && AllIn(e, a + 1, q, IsDomainChar) && e[q] == '.'
      && AllIn(e, q + 1, |e|, IsLetter)
  }

  // ---------------------------------------------------------------------------
  // The match
  // ---------------------------------------------------------------------------

  /** The start of the run of local characters that ends just before `a`. */
  function LocalStart(l: string, a: nat): (s: nat)
    requires a <= |l|
    ensures s <= a && AllIn(l, s, a, IsLocalChar)
    ensures s > 0 ==> !IsLocalChar(l[s - 1])
  {
    if a > 0 && IsLocalChar(l[a - 1]) then LocalStart(l, a - 1) else a
  }

  /** A dot at `q` with two letters after it. */
  predicate DotAt(l: string, q: nat) {
    q + 2 < |l| && l[q] == '.' && IsLetter(l[q + 1]) && IsLetter(l[q + 2])
  }

  /** The last `q` with `lo <= q < hi` that is a dot with two letters after it. */
  function LastDot(l: string, lo: nat, hi: nat): (r: Option<nat>)
    ensures r.Some? ==> lo <= r.value < hi && DotAt(l, r.value)
    ensures r.Some? ==> forall q :: r.value < q < hi ==> !DotAt(l, q)
    ensures r.None? ==> forall q :: lo <= q < hi ==> !DotAt(l, q)
    decreases hi
  {
    if hi <= lo then None
    else if DotAt(l, hi - 1) then Some(hi - 1)
    else LastDot(l, lo, hi - 1)
  }

  /** The match through the `@` at position `a`, if there is one. */
  function MatchThrough(l: string, a: nat): Option<string>
    requires a < |l| && l[a] == '@'
  {
    var s := LocalStart(l, a);
    var e := RunEnd(l, a + 1, IsDomainChar);
    if s == a then None
    else match LastDot(l, a + 2, e) {
      case None => None
      case Some(q) => Some(l[s..RunEnd(l, q + 1, IsLetter)])
    }
  }

  /** The leftmost match in `l` at or after the `@` at `a` (`l.match(re)?.[0]`). */
  function MatchFrom(l: string, a: nat): Option<string>
    decreases |l| - a
  {
    if a >= |l| then None
    else if l[a] == '@' && MatchThrough(l, a).Some? then MatchThrough(l, a)
    else MatchFrom(l, a + 1)
  }

  function FindEmail(l: string): Option<string> {
    MatchFrom(l, 0)
  }

  /** The e-mail of the first line that holds one. */
  function FirstEmail(lines: seq<string>): Option<string> {
    if |lines| == 0 then None
    else if FindEmail(lines[0]).Some? then FindEmail(lines[0])
    else FirstEmail(lines[1..])
  }

  /** The scan over the lines, stopping at the first hit. */
  method ScanEmail(lines: seq<string>) returns (email: Option<string>)
    ensures email == FirstEmail(lines)
  {
    email := None;
    var i := 0;
    while i < |lines|
      invariant 0 <= i <= |lines|
      invariant FirstEmail(lines) == FirstEmail(lines[i..])
    {
      assert lines[i..][1..] == lines[i + 1..];
      var m := FindEmail(lines[i]);
      if m.Some? {
        email := m;
        break;
      }
      i := i + 1;
    }
  }

  // ---------------------------------------------------------------------------
  // Properties
  // ---------------------------------------------------------------------------

  /** A match through an `@` is a substring of the line in the language of the pattern. */
  lemma MatchThroughIsEmail(l: string, a: nat)
    requires a < |l| && l[a] == '@' && MatchThrough(l, a).Some?
    ensures IsEmail(MatchThrough(l, a).value)
    ensures Contains(l, MatchThrough(l, a).value)
  {
    var s := LocalStart(l, a);
    var e := RunEnd(l, a + 1, IsDomainChar);
    var q := LastDot(l, a + 2, e).value;
    var t := RunEnd(l, q + 1, IsLetter);
    assert AllIn(l, a + 1, q, IsDomainChar) by {
      forall k | a + 1 <= k < q ensures IsDomainChar(l[k]) {
        assert a + 1 <= k < e;
      }
    }
    assert MatchThrough(l, a) == Some(l[s..t]);
    SliceIsEmail(l, s, a, q, t);
  }

  /** The pieces of a match, laid out in the line, make a substring in the language. */
  lemma SliceIsEmail(l: string, s: nat, a: nat, q: nat, t: nat)
    requires s < a && a + 1 < q && q + 2 < t <= |l|
    requires AllIn(l, s, a, IsLocalChar) && l[a] == '@'
    requires AllIn(l, a + 1, q, IsDomainChar) && l[q] == '.'
    requires AllIn(l, q + 1, t, IsLetter)
    ensures IsEmail(l[s..t]) && Contains(l, l[s..t])
  {
    var m := l[s..t];
    assert OccursAt(l, m, s);
    assert m[a - s] == '@' && m[q - s] == '.';
    AllInSlice(l, s, t, s, a, IsLocalChar);
    AllInSlice(l, s, t, a + 1, q, IsDomainChar);
    AllInSlice(l, s, t, q + 1, t, IsLetter);
    EmailWitness(m, a - s, q - s);
  }

  lemma EmailWitness(e: string, a: nat, q: nat)
    requires 0 < a && a + 1 < q && q + 2 < |e|
    requires AllIn(e, 0, a, IsLocalChar) && e[a] == '@'
    requires AllIn(e, a + 1, q, IsDomainChar) && e[q] == '.'
    requires AllIn(e, q + 1, |e|, IsLetter)
    ensures IsEmail(e)
  {
  }

  /** A run inside `l[s..t]`, seen from the slice. */
  lemma AllInSlice(l: string, s: nat, t: nat, lo: nat, hi: nat, p: char -> bool)
    requires s <= lo <= hi <= t <= |l| && AllIn(l, lo, hi, p)
    ensures AllIn(l[s..t], lo - s, hi - s, p)
  {
    forall i | lo - s <= i < hi - s
      ensures p(l[s..t][i])
    {
      assert l[s..t][i] == l[i + s];
    }
  }

  lemma {:induction false} MatchFromIsEmail(l: string, a: nat)
    requires MatchFrom(l, a).Some?
    ensures IsEmail(MatchFrom(l, a).value) && Contains(l, MatchFrom(l, a).value)
    decreases |l| - a
  {
    if l[a] == '@' && MatchThrough(l, a).Some? {
      MatchThroughIsEmail(l, a);
    } else {
      MatchFromIsEmail(l, a + 1);
    }
  }

  /** An `@` with an e-mail of the pattern around it is matched through. */
  lemma MatchThroughFindsEmail(l: string, i: nat, j: nat, a: nat, q: nat)
    requires i < j <= |l|
    requires var e := l[i..j];
      && 0 < a && a + 1 < q && q + 2 < |e|
      && AllIn(e, 0, a, IsLocalChar) && e[a] == '@'
      && AllIn(e, a + 1, q, IsDomainChar) && e[q] == '.'
      && AllIn(e, q + 1, |e|, IsLetter)
    ensures MatchThrough(l, i + a).Some?
  {
    var e := l[i..j];
    assert l[i + a - 1] == e[a - 1];
    forall k | i + a + 1 <= k <= i + q + 2
      ensures IsDomainChar(l[k])
    {
      assert l[k] == e[k - i];
    }
    var run := RunEnd(l, i + a + 1, IsDomainChar);
    assert i + q + 2 < run;
    assert DotAt(l, i + q) by {
      assert l[i + q] == e[q] && l[i + q + 1] == e[q + 1] && l[i + q + 2] == e[q + 2];
    }
  }

  lemma {:induction false} MatchFromFindsEmail(l: string, b: nat, i: nat, j: nat, a: nat, q: nat)
    requires b <= i + a && i < j <= |l|
    requires var e := l[i..j];
      && 0 < a && a + 1 < q && q + 2 < |e|
      && AllIn(e, 0, a, IsLocalChar) && e[a] == '@'
      && AllIn(e, a + 1, q, IsDomainChar) && e[q] == '.'
      && AllIn(e, q + 1, |e|, IsLetter)
    ensures MatchFrom(l, b).Some?
    decreases i + a - b
  {
    if b == i + a {
      MatchThroughFindsEmail(l, i, j, a, q);
    } else if !(l[b] == '@' && MatchThrough(l, b).Some?) {
      MatchFromFindsEmail(l, b + 1, i, j, a, q);
    }
  }

  /** A line yields an e-mail exactly when some substring of it is one. */
  lemma FindEmailIff(l: string)
    ensures FindEmail(l).Some? <==> exists i, j | 0 <= i <= j <= |l| :: IsEmail(l[i..j])
    ensures FindEmail(l).Some? ==> IsEmail(FindEmail(l).value) && Contains(l, FindEmail(l).value)
  {
    if FindEmail(l).Some? {
      MatchFromIsEmail(l, 0);
      var m := FindEmail(l).value;
      var i: nat :| i <= |l| && OccursAt(l, m, i);
      assert l[i..i + |m|] == m;
    }
    if exists i, j | 0 <= i <= j <= |l| :: IsEmail(l[i..j]) {
      var i, j :| 0 <= i <= j <= |l| && IsEmail(l[i..j]);
      var e := l[i..j];
      var a: nat, q: nat :| 0 < a && a + 1 < q && q + 2 < |e|
        && AllIn(e, 0, a, IsLocalChar) && e[a] == '@'
        && AllIn(e, a + 1, q, IsDomainChar) && e[q] == '.'
        && AllIn(e, q + 1, |e|, IsLetter);
      MatchFromFindsEmail(l, 0, i, j, a, q);
    }
  }

  /** The scan returns the e-mail of the first line that has one, and no earlier line has any. */
  lemma {:induction false} FirstEmailIsFirst(lines: seq<string>)
    ensures FirstEmail(lines).Some? <==> exists k :: 0 <= k < |lines| && FindEmail(lines[k]).Some?
    ensures FirstEmail(lines).Some? ==>
      exists k :: 0 <= k < |lines| && FirstEmail(lines) == FindEmail(lines[k])
        && (forall k' :: 0 <= k' < k ==> FindEmail(lines[k']).None?)
  {
    if |lines| > 0 {
      FirstEmailIsFirst(lines[1..]);
      if FindEmail(lines[0]).None? && FirstEmail(lines).Some? {
        var k :| 0 <= k < |lines| - 1 && FirstEmail(lines[1..]) == FindEmail(lines[1..][k])
          && (forall k' :: 0 <= k' < k ==> FindEmail(lines[1..][k']).None?);
        assert FirstEmail(lines) == FindEmail(lines[k + 1]);
        forall k' | 0 <= k' < k + 1
          ensures FindEmail(lines[k']).None?
        {
          if k' > 0 {
            assert lines[k'] == lines[1..][k' - 1];
          }
        }
      }
      if exists k :: 0 <= k < |lines| && FindEmail(lines[k]).Some? {
        var k :| 0 <= k < |lines| && FindEmail(lines[k]).Some?;
        if k > 0 {
          assert lines[1..][k - 1] == lines[k];
        }
      }
    }
  }
}
