/**
 * Recovery of the extracted name in the verify route (app/api/verify/route.ts). When the
 * extractor's name is missing or looks like a header, it is replaced, in order, by:
 *  1. the name of a stored certificate whose id occurs in the file name;
 *  2. the certificate whose name shares the most tokens with the typed name;
 *  3. (uploads only) the text line overlapping the typed name most;
 * and then, for uploads whose name is still missing or header-like, by what the raw bytes of
 * the file reveal: the whole typed name, a run of 2 to 4 of its tokens, enough single tokens,
 * or a near match of its letters.
 *
 * The certificate store is the parameter `certs`. The raw bytes enter as `raw`, their UTF-8
 * decoding.
 */
module Recovery {
  import opened Wrappers
  import opened Strings
  import opened Numeric
  import opened Levenshtein
  import opened Sorting
  import opened Normalize
  import Extractor

  const HeaderKeywords: seq<string> := ["SCHOLARSHIP", "AWARD", "APPLICATION", "TOTAL VALUE", "NAME OF"]

  /** `!s` for an optional string: missing or empty. */
  predicate Falsy(s: Option<string>) {
    s.None? || s.value == ""
  }

  /** `isHeaderLike` (the JSON branch's `isHeaderLikeLocal` is the same test). */
  predicate IsHeaderLike(s: Option<string>) {
    Falsy(s) || ContainsAny(Upper(s.value), HeaderKeywords) || CountWhere(s.value, IsDigit) >= 3
    || |s.value| > 120
  }

  // ---------------------------------------------------------------------------
  // Certificates named by the file, and the best-overlapping certificate
  // ---------------------------------------------------------------------------

  /** The first certificate with an id that occurs, case-insensitively, in the file name. */
  function FilenameCertificate(filename: string, certs: seq<Certificate>): (r: Option<Certificate>)
    ensures r.Some? ==> r.value in certs && r.value.id != "" && Contains(Upper(filename), Upper(r.value.id))
    ensures r.None? <==> forall c :: c in certs ==> c.id == "" || !Contains(Upper(filename), Upper(c.id))
  {
    if |certs| == 0 then None
    else if certs[0].id != "" && Contains(Upper(filename), Upper(certs[0].id)) then Some(certs[0])
    else
      var r := FilenameCertificate(filename, certs[1..]);
      assert forall c :: c in certs ==> c == certs[0] || c in certs[1..];
      r
  }

  method FindFilenameCertificate(filename: string, certs: seq<Certificate>) returns (r: Option<Certificate>)
    ensures r == FilenameCertificate(filename, certs)
  {
    var upfname := Upper(filename);
    var i := 0;
    while i < |certs|
      invariant 0 <= i <= |certs|
      invariant FilenameCertificate(filename, certs) == FilenameCertificate(filename, certs[i..])
    {
      assert certs[i..][1..] == certs[i + 1..];
      var cert := certs[i];
      if cert.id != "" && Contains(upfname, Upper(cert.id)) {
        return Some(cert);
      }
      i := i + 1;
    }
    return None;
  }

  /** `inputTokens.filter(t => pool.includes(t)).length` */
  function CountIn(ts: seq<string>, pool: seq<string>): (n: nat)
    ensures n <= |ts|
  {
    if |ts| == 0 then 0 else CountIn(ts[..|ts| - 1], pool) + (if ts[|ts| - 1] in pool then 1 else 0)
  }

  /** The number of typed tokens a certificate's name shares. */
  function CertOverlap(inputTokens: seq<string>): Certificate -> int {
    (c: Certificate) => CountIn(inputTokens, Fields(c.name))
  }

  /** At least two shared tokens, or at least 60% of the typed tokens. */
  predicate Accepts(overlap: nat, inputCount: nat) {
    overlap >= 2 || (inputCount > 0 && 5 * overlap >= 3 * inputCount)
  }

  /** `bestCertificateMatch`: the earliest certificate of largest overlap, when it is accepted. */
  function BestCertificate(inputName: string, certs: seq<Certificate>): Option<Certificate> {
    var inputTokens := Fields(NormalizeName(inputName));
    if |certs| == 0 then None
    else
      var best := certs[FirstMaxIndex(certs, CertOverlap(inputTokens))];
      if Accepts(CountIn(inputTokens, Fields(best.name)), |inputTokens|) then Some(best) else None
  }

  /** The running best of `bestCertificateMatch`. */
  datatype Best<T> = Best(item: T, overlap: nat)

  method BestCertificateMatch(inputName: string, certs: seq<Certificate>) returns (r: Option<Certificate>)
    ensures r == BestCertificate(inputName, certs)
  {
    var normInput := NormalizeName(inputName);
    var inputTokens := Fields(normInput);
    var best := MostOverlapping(inputTokens, certs);
    if best.Some? && best.value.overlap >= 2 {
      return Some(best.value.item);
    }
    if best.Some? && |inputTokens| > 0 && 5 * best.value.overlap >= 3 * |inputTokens| {
      return Some(best.value.item);
    }
    return None;
  }

  /** The loop of `bestCertificateMatch`: the first certificate of strictly largest overlap. */
  method MostOverlapping(inputTokens: seq<string>, certs: seq<Certificate>) returns (best: Option<Best<Certificate>>)
    ensures |certs| == 0 <==> best.None?
    ensures |certs| > 0 ==> var j := FirstMaxIndex(certs, CertOverlap(inputTokens));
      best == Some(Best(certs[j], CountIn(inputTokens, Fields(certs[j].name))))
  {
    ghost var key := CertOverlap(inputTokens);
    best := None;
    for i := 0 to |certs|
      invariant i == 0 <==> best.None?
      invariant i > 0 ==> var j := FirstMaxIndex(certs[..i], key);
        best == Some(Best(certs[j], key(certs[j])))
    {
      var cert := certs[i];
      var overlap := CountIn(inputTokens, Fields(cert.name));
      if i > 0 {
        FirstMaxIndexExtend(certs, i, key);
      }
      if best.None? || overlap > best.value.overlap {
        best := Some(Best(cert, overlap));
      }
    }
    assert certs[..|certs|] == certs;
  }

  // ---------------------------------------------------------------------------
  // The text line overlapping the typed name most (uploads only)
  // ---------------------------------------------------------------------------

  predicate IsNotUpperLetter(c: char) { !IsUpperLetter(c) }

  /** `l.toUpperCase().replace(/[^A-Z ]+/g, " ").split(/\s+/).filter(Boolean)` */
  function LineWords(l: string): seq<string> {
    NonEmpty(SplitWhere(Upper(l), IsNotUpperLetter))
  }

  /** One or two edits, depending on the length of the word compared against. */
  predicate Near(t: string, w: string) {
    (|w| <= 4 && Dist(t, w) <= 1) || (|w| > 4 && Dist(t, w) <= 2)
  }

  predicate AnyNear(t: string, ws: seq<string>) {
    exists k | 0 <= k < |ws| :: Near(t, ws[k])
  }

  /** The typed tokens that are a word of the line or near one. */
  function LineOverlap(its: seq<string>, words: seq<string>): (n: nat)
    ensures n <= |its|
  {
    if |its| == 0 then 0
    else
      var it := its[|its| - 1];
      LineOverlap(its[..|its| - 1], words) + (if it in words || AnyNear(it, words) then 1 else 0)
  }

  /** How many typed tokens a line holds, exactly or nearly. */
  function LineOverlapOf(inputTokens: seq<string>, l: string): nat {
    LineOverlap(inputTokens, LineWords(l))
  }

  function LineKey(inputTokens: seq<string>): string -> int {
    (l: string) => LineOverlapOf(inputTokens, l)
  }

  /** The earliest line of largest overlap, when that overlap is at least one. */
  function BestLine(lines: seq<string>, inputTokens: seq<string>): Option<string> {
    if |lines| == 0 then None
    else
      var best := lines[FirstMaxIndex(lines, LineKey(inputTokens))];
      if LineOverlapOf(inputTokens, best) >= 1 then Some(best) else None
  }

  /** The line of the OCR text that overlaps the typed name most. */
  function TextBest(text: string, inputName: string): Option<string> {
    BestLine(Extractor.Lines(text), Fields(NormalizeName(inputName)))
  }

  method FindNear(t: string, ws: seq<string>) returns (found: bool)
    ensures found == AnyNear(t, ws)
  {
    for k := 0 to |ws|
      invariant forall k' :: 0 <= k' < k ==> !Near(t, ws[k'])
    {
      var d := RollingDistance(t, ws[k]);
      if (|ws[k]| <= 4 && d <= 1) || (|ws[k]| > 4 && d <= 2) {
        return true;
      }
    }
    return false;
  }

  method CountLineOverlap(its: seq<string>, words: seq<string>) returns (overlap: nat)
    ensures overlap == LineOverlap(its, words)
  {
    overlap := 0;
    for k := 0 to |its|
      invariant overlap == LineOverlap(its[..k], words)
    {
      assert its[..k + 1][..k] == its[..k];
      if its[k] in words {
        overlap := overlap + 1;
        continue;
      }
      var near := FindNear(its[k], words);
      if near {
        overlap := overlap + 1;
      }
    }
    assert its[..|its|] == its;
  }

  /** The overlap of one line: its words, then the count. */
  method LineHits(inputTokens: seq<string>, l: string) returns (overlap: nat)
    ensures overlap == LineOverlapOf(inputTokens, l)
  {
    var tokens := LineWords(l);
    overlap := CountLineOverlap(inputTokens, tokens);
  }

  method FindBestLine(lines: seq<string>, inputTokens: seq<string>) returns (r: Option<string>)
    ensures r == BestLine(lines, inputTokens)
  {
    var bestLine := MostOverlappingLine(lines, inputTokens);
    if bestLine.Some? && bestLine.value.overlap >= 1 {
      return Some(bestLine.value.item);
    }
    return None;
  }

  /** The loop over the text lines: the first line of strictly largest overlap. */
  method MostOverlappingLine(lines: seq<string>, inputTokens: seq<string>) returns (bestLine: Option<Best<string>>)
    ensures |lines| == 0 <==> bestLine.None?
    ensures |lines| > 0 ==> var j := FirstMaxIndex(lines, LineKey(inputTokens));
      bestLine == Some(Best(lines[j], LineOverlapOf(inputTokens, lines[j])))
  {
    ghost var key := LineKey(inputTokens);
    bestLine := None;
    for i := 0 to |lines|
      invariant i == 0 <==> bestLine.None?
      invariant i > 0 ==> var j := FirstMaxIndex(lines[..i], key);
        bestLine == Some(Best(lines[j], key(lines[j])))
    {
      var l := lines[i];
      var overlap := LineHits(inputTokens, l);
      if i > 0 {
        FirstMaxIndexExtend(lines, i, key);
      }
      if bestLine.None? || overlap > bestLine.value.overlap {
        bestLine := Some(Best(l, overlap));
      }
    }
    assert lines[..|lines|] == lines;
  }

  method TextBestLine(text: string, inputName: string) returns (r: Option<string>)
    ensures r == TextBest(text, inputName)
  {
    var lines := Extractor.Lines(text);
    var normInput := NormalizeName(inputName);
    var inputTokens := Fields(normInput);
    r := FindBestLine(lines, inputTokens);
  }

  // ---------------------------------------------------------------------------
  // The raw-buffer search
  // ---------------------------------------------------------------------------

  /** The bounds of `[A-Z]{lo,hi}` used to look for near spellings of a token. */
  function LowBound(tk: string): nat { MaxInt(2, MinInt(20, |tk| - 1)) }

  function HighBound(tk: string): nat { |tk| + 1 }

  /** The matches of `/[A-Z]{lo,hi}/g` in `s` from position `i`: greedy, left to right, not overlapping. */
  function RunMatches(s: string, lo: nat, hi: nat, i: nat): (ms: seq<string>)
    requires 1 <= lo <= hi && i <= |s|
    ensures forall k :: 0 <= k < |ms| ==> lo <= |ms[k]| <= hi
    ensures forall k :: 0 <= k < |ms| ==> Contains(s, ms[k])
    ensures forall k, j :: 0 <= k < |ms| && 0 <= j < |ms[k]| ==> IsUpperLetter(ms[k][j])
    decreases |s| - i
  {
    if i == |s| then []
    else
      var run := RunEnd(s, i, IsUpperLetter) - i;
      if run >= lo then
        var take := MinInt(run, hi);
        var m := s[i..i + take];
        assert OccursAt(s, m, i);
        [m] + RunMatches(s, lo, hi, i + take)
      else RunMatches(s, lo, hi, i + 1)
  }

  /** The buffer holds the token, or a run of capitals near it. */
  predicate TokenEvidence(buf: string, tk: string) {
    Contains(buf, Upper(tk))
    || (|tk| > 0 && var ms := RunMatches(buf, LowBound(tk), HighBound(tk), 0);
        exists k | 0 <= k < |ms| :: Near(Upper(tk), ms[k]))
  }

  function TokenMatches(buf: string, toks: seq<string>): (n: nat)
    ensures n <= |toks|
  {
    if |toks| == 0 then 0
    else TokenMatches(buf, toks[..|toks| - 1]) + (if TokenEvidence(buf, toks[|toks| - 1]) then 1 else 0)
  }

  /** The `w` tokens starting at `i`, joined with single spaces. */
  function Window(toks: seq<string>, w: nat, i: nat): string
    requires i + w <= |toks|
  {
    Join(toks[i..i + w], " ")
  }

  /** The first window of width `w`, from position `i` on, that occurs in the buffer. */
  function WindowsFrom(buf: string, toks: seq<string>, w: nat, i: nat): (r: Option<string>)
    ensures r.Some? ==>
      exists j: nat :: i <= j && j + w <= |toks| && r.value == Window(toks, w, j) && Contains(buf, Upper(r.value))
    decreases |toks| - i
  {
    if i + w > |toks| then None
    else if Contains(buf, Upper(Window(toks, w, i))) then Some(Window(toks, w, i))
    else WindowsFrom(buf, toks, w, i + 1)
  }

  /** The first window of width `w` to 4, narrowest first, that occurs in the buffer. */
  function WidthsFrom(buf: string, toks: seq<string>, w: nat): (r: Option<string>)
    ensures r.Some? ==> Contains(buf, Upper(r.value))
    ensures r.Some? ==> exists w': nat, j: nat :: w <= w' <= 4 && j + w' <= |toks| && r.value == Window(toks, w', j)
    decreases 5 - w
  {
    if w > MinNat(4, |toks|) then None
    else match WindowsFrom(buf, toks, w, 0) {
      case Some(hit) => Some(hit)
      case None => WidthsFrom(buf, toks, w + 1)
    }
  }

  /** `Math.max(1, Math.ceil(n * 0.5))` */
  function RequiredMatches(n: nat): nat { MaxInt(1, (n + 1) / 2) }

  /** The raw-buffer search, for a non-empty normalised typed name and the upper-cased buffer. */
  function RawSearch(chosen: Option<string>, inputName: string, buf: string): Option<string> {
    var normInput := NormalizeName(inputName);
    var toks := Fields(normInput);
    if Contains(buf, Upper(normInput)) then Some(inputName)
    else
      var afterWindows := match WidthsFrom(buf, toks, 2) {
        case Some(hit) => Some(hit)
        case None => chosen
      };
      if Falsy(afterWindows) && TokenMatches(buf, toks) >= RequiredMatches(|toks|) then Some(inputName)
      else afterWindows
  }

  method CountTokenMatches(buf: string, toks: seq<string>) returns (tokenMatches: nat)
    requires forall k :: 0 <= k < |toks| ==> toks[k] != ""
    ensures tokenMatches == TokenMatches(buf, toks)
  {
    tokenMatches := 0;
    for k := 0 to |toks|
      invariant tokenMatches == TokenMatches(buf, toks[..k])
    {
      assert toks[..k + 1][..k] == toks[..k];
      var tk := toks[k];
      if Contains(buf, Upper(tk)) {
        tokenMatches := tokenMatches + 1;
        continue;
      }
      var matches := RunMatches(buf, LowBound(tk), HighBound(tk), 0);
      var near := FindNear(Upper(tk), matches);
      if near {
        tokenMatches := tokenMatches + 1;
      }
    }
    assert toks[..|toks|] == toks;
  }

  method FindWindow(buf: string, toks: seq<string>) returns (hit: Option<string>)
    ensures hit == WidthsFrom(buf, toks, 2)
  {
    var w := 2;
    while w <= MinNat(4, |toks|)
      invariant 2 <= w <= 5
      invariant WidthsFrom(buf, toks, 2) == WidthsFrom(buf, toks, w)
      decreases 5 - w
    {
      var found := ScanWidth(buf, toks, w);
      if found.Some? {
        return found;
      }
      w := w + 1;
    }
    return None;
  }

  /** The inner loop over the windows of one width, leftmost first. */
  method ScanWidth(buf: string, toks: seq<string>, w: nat) returns (hit: Option<string>)
    ensures hit == WindowsFrom(buf, toks, w, 0)
  {
    var i := 0;
    while i + w <= |toks|
      invariant WindowsFrom(buf, toks, w, 0) == WindowsFrom(buf, toks, w, i)
      decreases |toks| - i
    {
      var window := Window(toks, w, i);
      if Contains(buf, Upper(window)) {
        return Some(window);
      }
      i := i + 1;
    }
    return None;
  }

  method RawBufferSearch(chosen: Option<string>, inputName: string, buf: string) returns (r: Option<string>)
    ensures r == RawSearch(chosen, inputName, buf)
  {
    var normInput := NormalizeName(inputName);
    var toks := Fields(normInput);
    if Contains(buf, Upper(normInput)) {
      return Some(inputName);
    }
    var tokenMatches := CountTokenMatches(buf, toks);
    r := chosen;
    var hit := FindWindow(buf, toks);
    if hit.Some? {
      r := hit;
    }
    var required := RequiredMatches(|toks|);
    if Falsy(r) && tokenMatches >= required {
      r := Some(inputName);
    }
  }

  // ---------------------------------------------------------------------------
  // The fuzzy substring search
  // ---------------------------------------------------------------------------

  /** `normalizeLetters`: upper-case and keep only the letters A to Z. */
  function NormalizeLetters(s: string): string {
    Keep(Upper(s), IsUpperLetter)
  }

  /** The edit distance from `n` of the window of `h` at `i` that is as long as `n`. */
  function WindowDist(h: string, n: string, i: nat): nat
    requires i + |n| <= |h|
  {
    Dist(h[i..i + |n|], n)
  }

  /** Some window of `h` as long as `n` is within `maxDist` edits of `n`. */
  predicate WindowWithin(h: string, n: string, maxDist: int) {
    exists i: nat | i + |n| <= |h| :: WindowDist(h, n, i) <= maxDist
  }

  /** What `fuzzySubstringSearch(hay, needle, maxDist)` returns. */
  predicate FuzzyFound(hay: string, needle: string, maxDist: int) {
    var h := NormalizeLetters(hay);
    var n := NormalizeLetters(needle);
    hay != "" && needle != "" && h != "" && n != "" && WindowWithin(h, n, maxDist)
  }

  method FuzzySubstringSearch(hay: string, needle: string, maxDist: int) returns (found: bool)
    ensures found == FuzzyFound(hay, needle, maxDist)
  {
    if hay == "" || needle == "" {
      return false;
    }
    var h := NormalizeLetters(hay);
    var n := NormalizeLetters(needle);
    if h == "" || n == "" {
      return false;
    }
    found := SlideWindow(h, n, maxDist);
  }

  /** The sliding loop of `fuzzySubstringSearch` over the normalised letters. */
  method SlideWindow(h: string, n: string, maxDist: int) returns (found: bool)
    ensures found == WindowWithin(h, n, maxDist)
  {
    var i := 0;
    while i + |n| <= |h|
      invariant forall i': nat :: i' < i && i' + |n| <= |h| ==> WindowDist(h, n, i') > maxDist
      decreases |h| - i
    {
      var sub := h[i..i + |n|];
      var d := RollingDistance(sub, n);
      if d <= maxDist {
        assert WindowDist(h, n, i) <= maxDist;
        return true;
      }
      i := i + 1;
    }
    return false;
  }

  // ---------------------------------------------------------------------------
  // The recovery chains
  // ---------------------------------------------------------------------------

  /** `needle.replace(/\s+/g, '')` */
  function Unspaced(s: string): string {
    Keep(s, c => !IsSpace(c))
  }

  /** `Math.max(1, Math.floor(n * 0.15))` */
  function FuzzyBudget(n: nat): nat { MaxInt(1, 3 * n / 20) }

  /** The raw-buffer search, run when the file has bytes and the typed name normalises to something. */
  function RawStep(chosen: Option<string>, inputName: string, raw: string): Option<string> {
    if |raw| > 0 && NormalizeName(inputName) != "" then RawSearch(chosen, inputName, Upper(raw)) else chosen
  }

  /** The fuzzy search over the OCR text and then over the buffer, run while no name is chosen. */
  function FuzzyStep(chosen: Option<string>, inputName: string, text: string, raw: string): Option<string> {
    var buf := Upper(raw);
    var needle := NormalizeName(inputName);
    var letters := Unspaced(needle);
    if |letters| >= 3 && Falsy(chosen) then
      var maxDist := FuzzyBudget(|letters|);
      var afterText := if |text| > 0 && FuzzyFound(text, needle, maxDist) then Some(inputName) else chosen;
      if Falsy(afterText) && |buf| > 0 && FuzzyFound(buf, needle, maxDist) then Some(inputName) else afterText
    else chosen
  }

  /** What the raw bytes reveal, for a name still missing or header-like. */
  function BufferFallbacks(chosen: Option<string>, inputName: string, text: string, raw: string): Option<string> {
    FuzzyStep(RawStep(chosen, inputName, raw), inputName, text, raw)
  }

  /** The certificate fallbacks of both branches: file name first, then the best overlap. */
  function CertificateFallback(filename: string, inputName: string, certs: seq<Certificate>,
                               orElse: Option<string>): (r: Option<string>)
    ensures r == orElse || exists c :: c in certs && r == Some(c.name)
  {
    match FilenameCertificate(filename, certs) {
      case Some(c) => Some(c.name)
      case None =>
        match BestCertificate(inputName, certs) {
          case Some(c) =>
            assert c in certs;
            Some(c.name)
          case None => orElse
        }
    }
  }

  /** The name handed to verification in the JSON (in-browser OCR) branch. */
  function JsonChosenName(extracted: Option<string>, filename: string, inputName: string,
                          certs: seq<Certificate>): (r: Option<string>)
    ensures !IsHeaderLike(extracted) ==> r == extracted
    ensures r == extracted || exists c :: c in certs && r == Some(c.name)
  {
    if IsHeaderLike(extracted) then CertificateFallback(filename, inputName, certs, extracted)
    else extracted
  }

  /** The name chosen in the upload branch before the raw bytes are consulted. */
  function UploadCertificateName(extracted: Option<string>, filename: string, inputName: string,
                                 certs: seq<Certificate>, text: string): Option<string>
  {
    if IsHeaderLike(extracted) then
      CertificateFallback(filename, inputName, certs,
        match TextBest(text, inputName) {
          case Some(l) => Some(l)
          case None => extracted
        })
    else extracted
  }

  /** The name handed to verification in the upload branch. */
  function UploadChosenName(extracted: Option<string>, filename: string, inputName: string,
                            certs: seq<Certificate>, text: string, raw: string): Option<string>
  {
    var chosen := UploadCertificateName(extracted, filename, inputName, certs, text);
    if IsHeaderLike(chosen) then BufferFallbacks(chosen, inputName, text, raw) else chosen
  }

  method ChooseJsonName(extracted: Option<string>, filename: string, inputName: string,
                        certs: seq<Certificate>) returns (chosen: Option<string>)
    ensures chosen == JsonChosenName(extracted, filename, inputName, certs)
  {
    chosen := extracted;
    if Falsy(chosen) || IsHeaderLike(chosen) {
      var certFromFilename := FindFilenameCertificate(filename, certs);
      if certFromFilename.Some? {
        chosen := Some(certFromFilename.value.name);
      } else {
        var dbMatch := BestCertificateMatch(inputName, certs);
        if dbMatch.Some? {
          chosen := Some(dbMatch.value.name);
        }
      }
    }
  }

  method RawStepOf(chosen0: Option<string>, inputName: string, raw: string) returns (chosen: Option<string>)
    ensures chosen == RawStep(chosen0, inputName, raw)
  {
    chosen := chosen0;
    if |raw| > 0 {
      var bufStr := Upper(raw);
      var normInput := NormalizeName(inputName);
      if normInput != "" {
        chosen := RawBufferSearch(chosen, inputName, bufStr);
      }
    }
  }

  method FuzzyStepOf(chosen0: Option<string>, inputName: string, text: string, raw: string)
    returns (chosen: Option<string>)
    ensures chosen == FuzzyStep(chosen0, inputName, text, raw)
  {
    chosen := chosen0;
    var bufStr := Upper(raw);
    var needle := NormalizeName(inputName);
    var needleLetters := Unspaced(needle);
    if |needleLetters| >= 3 && Falsy(chosen) {
      var maxDist := FuzzyBudget(|needleLetters|);
      if |text| > 0 {
        var inText := FuzzySubstringSearch(text, needle, maxDist);
        if inText {
          chosen := Some(inputName);
        }
      }
      if Falsy(chosen) && |bufStr| > 0 {
        var inBuffer := FuzzySubstringSearch(bufStr, needle, maxDist);
        if inBuffer {
          chosen := Some(inputName);
        }
      }
    }
  }

  method ChooseUploadName(extracted: Option<string>, filename: string, inputName: string,
                          certs: seq<Certificate>, text: string, raw: string) returns (chosen: Option<string>)
    ensures chosen == UploadChosenName(extracted, filename, inputName, certs, text, raw)
  {
    chosen := extracted;
    if Falsy(chosen) || IsHeaderLike(chosen) {
      var certFromFilename := FindFilenameCertificate(filename, certs);
      if certFromFilename.Some? {
        chosen := Some(certFromFilename.value.name);
      } else {
        var dbMatch := BestCertificateMatch(inputName, certs);
        if dbMatch.Some? {
          chosen := Some(dbMatch.value.name);
        } else {
          var bestLine := TextBestLine(text, inputName);
          if bestLine.Some? {
            chosen := bestLine;
          }
        }
      }
    }
    if Falsy(chosen) || IsHeaderLike(chosen) {
      chosen := RawStepOf(chosen, inputName, raw);
      chosen := FuzzyStepOf(chosen, inputName, text, raw);
    }
  }

  // ---------------------------------------------------------------------------
  // Properties
  // ---------------------------------------------------------------------------

  lemma {:induction false} DigitsIgnoreCase(s: string)
    ensures CountWhere(Upper(s), IsDigit) == CountWhere(s, IsDigit)
  {
    if |s| > 0 {
      assert Upper(s)[1..] == Upper(s[1..]);
      DigitsIgnoreCase(s[1..]);
    }
  }

  /** The header test reads the name without regard to case. */
  lemma HeaderLikeIgnoresCase(s: string)
    ensures IsHeaderLike(Some(Upper(s))) == IsHeaderLike(Some(s))
  {
    UpperIsUpperCased(s);
    DigitsIgnoreCase(s);
  }

  /** The shared tokens of a certificate. */
  function Overlap(inputTokens: seq<string>, c: Certificate): nat {
    CountIn(inputTokens, Fields(c.name))
  }

  /**
   * The certificate match succeeds exactly when some certificate is acceptable, and then it is
   * a certificate of largest overlap, the earliest of them.
   */
  lemma BestCertificateIsBest(inputName: string, certs: seq<Certificate>)
    ensures var ts := Fields(NormalizeName(inputName));
      var r := BestCertificate(inputName, certs);
      && (r.Some? <==> exists k | 0 <= k < |certs| :: Accepts(Overlap(ts, certs[k]), |ts|))
      && (r.Some? ==> exists i | 0 <= i < |certs| ::
            (&& r.value == certs[i]
             && (forall j | 0 <= j < |certs| :: Overlap(ts, certs[j]) <= Overlap(ts, certs[i]))
             && (forall j | 0 <= j < i :: Overlap(ts, certs[j]) < Overlap(ts, certs[i]))))
  {
    var ts := Fields(NormalizeName(inputName));
    if |certs| > 0 {
      var key := CertOverlap(ts);
      var i := FirstMaxIndex(certs, key);
      forall j | 0 <= j < |certs|
        ensures Overlap(ts, certs[j]) <= Overlap(ts, certs[i])
        ensures j < i ==> Overlap(ts, certs[j]) < Overlap(ts, certs[i])
      {
        assert key(certs[j]) == Overlap(ts, certs[j]) && key(certs[i]) == Overlap(ts, certs[i]);
      }
      assert BestCertificate(inputName, certs)
        == if Accepts(Overlap(ts, certs[i]), |ts|) then Some(certs[i]) else None;
      if exists k | 0 <= k < |certs| :: Accepts(Overlap(ts, certs[k]), |ts|) {
        var k :| 0 <= k < |certs| && Accepts(Overlap(ts, certs[k]), |ts|);
        assert Overlap(ts, certs[k]) <= Overlap(ts, certs[i]);
      }
    }
  }

  /**
   * The best line is found exactly when some line holds a typed token, and then it is a line of
   * largest overlap, the earliest of them.
   */
  lemma BestLineIsBest(lines: seq<string>, inputTokens: seq<string>)
    ensures var r := BestLine(lines, inputTokens);
      && (r.Some? <==> exists k | 0 <= k < |lines| :: LineOverlapOf(inputTokens, lines[k]) >= 1)
      && (r.Some? ==> exists i | 0 <= i < |lines| ::
            (&& r.value == lines[i]
             && (forall j | 0 <= j < |lines| :: LineOverlapOf(inputTokens, lines[j]) <= LineOverlapOf(inputTokens, lines[i]))
             && (forall j | 0 <= j < i :: LineOverlapOf(inputTokens, lines[j]) < LineOverlapOf(inputTokens, lines[i]))))
  {
    if |lines| > 0 {
      var key := LineKey(inputTokens);
      var i := FirstMaxIndex(lines, key);
      assert forall j | 0 <= j < |lines| :: key(lines[j]) == LineOverlapOf(inputTokens, lines[j]);
    }
  }

  lemma {:induction false} EveryTokenMatches(buf: string, toks: seq<string>)
    requires forall k | 0 <= k < |toks| :: Contains(buf, Upper(toks[k]))
    ensures TokenMatches(buf, toks) == |toks|
  {
    if |toks| > 0 {
      EveryTokenMatches(buf, toks[..|toks| - 1]);
    }
  }

  /** A typed name that normalises to something is not empty. */
  lemma NormalizedNonEmpty(inputName: string)
    requires NormalizeName(inputName) != ""
    ensures inputName != "" && |Fields(NormalizeName(inputName))| >= 1
  {
    NormalizeEmptyIff(inputName);
    NormalizedFields(inputName);
  }

  /**
   * What the raw-buffer search can return: the typed name, the name it was given, or a run of
   * the typed tokens that occurs in the buffer. The whole normalised name in the buffer gives
   * the typed name.
   */
  lemma RawSearchOutcome(chosen: Option<string>, inputName: string, buf: string)
    ensures var r := RawSearch(chosen, inputName, buf);
      || r == Some(inputName) || r == chosen
      || (r.Some? && Contains(buf, Upper(r.value))
          && exists w: nat, j: nat :: 2 <= w <= 4 && j + w <= |Fields(NormalizeName(inputName))|
               && r.value == Window(Fields(NormalizeName(inputName)), w, j))
    ensures Contains(buf, Upper(NormalizeName(inputName))) ==> RawSearch(chosen, inputName, buf) == Some(inputName)
  {
  }

  /** With no name chosen yet, evidence in the buffer for every typed token recovers a name. */
  lemma RawSearchRecovers(chosen: Option<string>, inputName: string, buf: string)
    requires NormalizeName(inputName) != "" && Falsy(chosen)
    requires forall k | 0 <= k < |Fields(NormalizeName(inputName))| ::
      Contains(buf, Upper(Fields(NormalizeName(inputName))[k]))
    ensures !Falsy(RawSearch(chosen, inputName, buf))
  {
    var toks := Fields(NormalizeName(inputName));
    if !Contains(buf, Upper(NormalizeName(inputName))) {
      var hit := WidthsFrom(buf, toks, 2);
      if hit.Some? {
        var w: nat, j: nat :| 2 <= w <= 4 && j + w <= |toks| && hit.value == Window(toks, w, j);
        WindowNonEmpty(toks, w, j);
      } else {
        NormalizedNonEmpty(inputName);
        EveryTokenMatches(buf, toks);
        assert TokenMatches(buf, toks) >= RequiredMatches(|toks|);
      }
    }
  }

  /** A window of two or more tokens holds at least the separator. */
  lemma WindowNonEmpty(toks: seq<string>, w: nat, j: nat)
    requires 2 <= w && j + w <= |toks|
    ensures Window(toks, w, j) != ""
  {
    assert |toks[j..j + w]| >= 2;
  }

  /** Only capitals A to Z survive, and a second pass changes nothing. */
  lemma NormalizeLettersShape(s: string)
    ensures forall i | 0 <= i < |NormalizeLetters(s)| :: IsUpperLetter(NormalizeLetters(s)[i])
    ensures NormalizeLetters(NormalizeLetters(s)) == NormalizeLetters(s)
    ensures NormalizeLetters(Upper(s)) == NormalizeLetters(s)
  {
    var n := NormalizeLetters(s);
    assert IsUpperCased(n);
    UpperOfUpperCased(n);
    UpperIsUpperCased(s);
  }

  /** The fuzzy search does not depend on the case of the haystack. */
  lemma FuzzyIgnoresCase(hay: string, needle: string, maxDist: int)
    ensures FuzzyFound(Upper(hay), needle, maxDist) == FuzzyFound(hay, needle, maxDist)
  {
    NormalizeLettersShape(hay);
  }

  /** An exact occurrence of the needle's letters among the haystack's is found at any budget. */
  lemma FuzzyFindsExact(hay: string, needle: string, maxDist: nat)
    requires NormalizeLetters(needle) != ""
    requires Contains(NormalizeLetters(hay), NormalizeLetters(needle))
    ensures FuzzyFound(hay, needle, maxDist)
  {
    var h, n := NormalizeLetters(hay), NormalizeLetters(needle);
    var i: nat :| i <= |h| && OccursAt(h, n, i);
    DistZeroIff(h[i..i + |n|], n);
    assert WindowDist(h, n, i) <= maxDist;
  }

  /** The fuzzy step leaves a chosen name alone, and recovers the typed name from its letters in the text. */
  lemma FuzzyStepRecovers(chosen: Option<string>, inputName: string, text: string, raw: string)
    requires Falsy(chosen) && |Unspaced(NormalizeName(inputName))| >= 3
    requires NormalizeLetters(NormalizeName(inputName)) != ""
    requires Contains(NormalizeLetters(text), NormalizeLetters(NormalizeName(inputName)))
    ensures FuzzyStep(chosen, inputName, text, raw) == Some(inputName)
  {
    var needle := NormalizeName(inputName);
    FuzzyFindsExact(text, needle, FuzzyBudget(|Unspaced(needle)|));
  }

  /** The whole normalised name in the raw bytes makes the typed name the chosen one. */
  lemma BufferHoldsFullName(chosen: Option<string>, inputName: string, text: string, raw: string)
    requires |raw| > 0 && NormalizeName(inputName) != ""
    requires Contains(Upper(raw), Upper(NormalizeName(inputName)))
    ensures BufferFallbacks(chosen, inputName, text, raw) == Some(inputName)
  {
    NormalizedNonEmpty(inputName);
  }

  /**
   * Where the upload branch's name comes from: the extractor, a stored certificate, a line of
   * the OCR text, the typed name, or a run of typed tokens found in the raw bytes.
   */
  lemma UploadProvenance(extracted: Option<string>, filename: string, inputName: string,
                         certs: seq<Certificate>, text: string, raw: string)
    ensures var r := UploadChosenName(extracted, filename, inputName, certs, text, raw);
      || r == extracted
      || (exists c :: c in certs && r == Some(c.name))
      || (r.Some? && r.value in Extractor.Lines(text))
      || r == Some(inputName)
      || (r.Some? && Contains(Upper(raw), Upper(r.value)))
    ensures !IsHeaderLike(extracted) ==> UploadChosenName(extracted, filename, inputName, certs, text, raw) == extracted
  {
    var chosen := UploadCertificateName(extracted, filename, inputName, certs, text);
    CertificateNameProvenance(extracted, filename, inputName, certs, text);
    BufferFallbacksProvenance(chosen, inputName, text, raw);
  }

  /** Before the raw bytes are consulted, the name comes from OCR, a certificate or a text line. */
  lemma CertificateNameProvenance(extracted: Option<string>, filename: string, inputName: string,
                                  certs: seq<Certificate>, text: string)
    ensures var r := UploadCertificateName(extracted, filename, inputName, certs, text);
      || r == extracted
      || (exists c :: c in certs && r == Some(c.name))
      || (r.Some? && r.value in Extractor.Lines(text))
  {
    if TextBest(text, inputName).Some? {
      BestLineIsBest(Extractor.Lines(text), Fields(NormalizeName(inputName)));
    }
  }

  /** The raw-byte fallbacks return their input, the typed name, or a run of tokens found in the bytes. */
  lemma BufferFallbacksProvenance(chosen: Option<string>, inputName: string, text: string, raw: string)
    ensures var r := BufferFallbacks(chosen, inputName, text, raw);
      || r == chosen
      || r == Some(inputName)
      || (r.Some? && Contains(Upper(raw), Upper(r.value)))
  {
    if |raw| > 0 && NormalizeName(inputName) != "" {
      RawSearchOutcome(chosen, inputName, Upper(raw));
    }
  }
}
