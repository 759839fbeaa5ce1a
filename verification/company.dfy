/** The company-name extractor of the heuristic parser (`extractCompanyName`):
    a header strategy on the first 100 characters, then a first-line strategy,
    each asking for a legal suffix (Inc., LLC, Corp.) and a length in bounds. */
module Company {
  import opened Wrappers
  import opened Text

  /** How much of the document the header strategy reads. */
  const HeaderLength: nat := 100
  /** A name is accepted when its length is strictly between these. */
  const MinNameLength: nat := 5
  const MaxNameLength: nat := 50
  /** The first-line strategy reads a line only when it is shorter than this. */
  const MaxLineLength: nat := 100

  /** One of ACTION, CONSENT, BOARD begins at `i`, case ignored: the split regex
      asks for no word boundary, so this also holds inside "TRANSACTION". */
  predicate KeywordAt(s: String, i: nat) {
    || OccursAtIgnoringCase(s, "action", i)
    || OccursAtIgnoringCase(s, "consent", i)
    || OccursAtIgnoringCase(s, "board", i)
  }

  /** A legal suffix begins at `i`: where `/Inc\.|LLC|Corp\./i` matches. */
  predicate SuffixAt(s: String, i: nat) {
    || OccursAtIgnoringCase(s, "inc.", i)
    || OccursAtIgnoringCase(s, "llc", i)
    || OccursAtIgnoringCase(s, "corp.", i)
  }

  /** `/Inc\.|LLC|Corp\./i.test(s)`. */
  predicate HasSuffix(s: String) {
    exists i: nat :: i < |s| && SuffixAt(s, i)
  }

  /** Two infixes with the same characters hold the same case-ignoring occurrences. */
  lemma OccursShift(x: String, a: nat, y: String, c: nat, pat: String)
    requires a + |pat| <= |x| && c + |pat| <= |y|
    requires x[a..a + |pat|] == y[c..c + |pat|]
    ensures OccursAtIgnoringCase(x, pat, a) <==> OccursAtIgnoringCase(y, pat, c)
  {
    assert Lower(x)[a..a + |pat|] == Lower(x[a..a + |pat|]);
    assert Lower(y)[c..c + |pat|] == Lower(y[c..c + |pat|]);
  }

  /** The length of the suffix that begins at `i`. */
  function SuffixLength(s: String, i: nat): (n: nat)
    requires SuffixAt(s, i)
    ensures 3 <= n <= 5 && i + n <= |s|
  {
    if OccursAtIgnoringCase(s, "inc.", i) then 4
    else if OccursAtIgnoringCase(s, "llc", i) then 3
    else 5
  }

  /** A suffix is found again wherever its characters are copied. */
  lemma SuffixShift(x: String, a: nat, y: String, c: nat)
    requires SuffixAt(x, a)
    requires c + SuffixLength(x, a) <= |y|
    requires x[a..a + SuffixLength(x, a)] == y[c..c + SuffixLength(x, a)]
    ensures SuffixAt(y, c)
  {
    if OccursAtIgnoringCase(x, "inc.", a) {
      OccursShift(x, a, y, c, "inc.");
    } else if OccursAtIgnoringCase(x, "llc", a) {
      OccursShift(x, a, y, c, "llc");
    } else {
      OccursShift(x, a, y, c, "corp.");
    }
  }

  /** Every character of `pat` is a lower-case letter or a full stop. */
  predicate LowerOrDot(pat: String) {
    forall j :: 0 <= j < |pat| ==> IsLower(pat[j]) || pat[j] == '.'
  }

  /** A case-ignoring occurrence of such a pattern holds no white space. */
  lemma OccurrenceHasNoSpace(s: String, pat: String, i: nat)
    requires LowerOrDot(pat)
    requires OccursAtIgnoringCase(s, pat, i)
    ensures forall k :: i <= k < i + |pat| ==> !IsSpace(s[k])
  {
    forall k | i <= k < i + |pat|
      ensures !IsSpace(s[k])
    {
      assert Lower(s)[i..i + |pat|][k - i] == pat[k - i];
    }
  }

  lemma SuffixHasNoSpace(s: String, i: nat)
    requires SuffixAt(s, i)
    ensures forall k :: i <= k < i + SuffixLength(s, i) ==> !IsSpace(s[k])
  {
    assert LowerOrDot("inc.") && LowerOrDot("llc") && LowerOrDot("corp.");
    if OccursAtIgnoringCase(s, "inc.", i) {
      OccurrenceHasNoSpace(s, "inc.", i);
    } else if OccursAtIgnoringCase(s, "llc", i) {
      OccurrenceHasNoSpace(s, "llc", i);
    } else {
      OccurrenceHasNoSpace(s, "corp.", i);
    }
  }

  lemma TrimKeepsSuffixAt(s: String, i: nat)
    requires SuffixAt(s, i)
    ensures TrimStart(s) <= i && SuffixAt(Trim(s), i - TrimStart(s))
  {
    SuffixHasNoSpace(s, i);
    NoSpaceInsideTrim(s, i, SuffixLength(s, i));
    SuffixShift(s, i, Trim(s), i - TrimStart(s));
  }

  /** Trimming keeps every suffix: a suffix holds no white space. */
  lemma TrimKeepsSuffix(s: String)
    requires HasSuffix(s)
    ensures HasSuffix(Trim(s))
  {
    var i: nat :| i < |s| && SuffixAt(s, i);
    TrimKeepsSuffixAt(s, i);
    assert i - TrimStart(s) < |Trim(s)|;
  }

  /** Index of the first keyword at or after `i`, or `|s|` when there is none. */
  function FirstKeyword(s: String, i: nat): (r: nat)
    requires i <= |s|
    decreases |s| - i
    ensures i <= r <= |s|
    ensures forall j: nat :: i <= j < r ==> !KeywordAt(s, j)
    ensures r < |s| ==> KeywordAt(s, r)
  {
    if i == |s| then |s| else if KeywordAt(s, i) then i else FirstKeyword(s, i + 1)
  }

  /** `s.split(/ACTION|CONSENT|BOARD/i)[0]`: the text before the first keyword. */
  function BeforeKeyword(s: String): (r: String)
    ensures |r| <= |s| && r == s[..|r|]
    ensures forall j: nat :: j < |r| ==> !KeywordAt(s, j)
    ensures |r| < |s| ==> KeywordAt(s, |r|)
  {
    s[..FirstKeyword(s, 0)]
  }

  /** The comma at `p` is followed, after optional white space, by a legal suffix:
      where `/,\s*(?=Inc\.|LLC|Corp\.)/i` matches. Backtracking the greedy `\s*`
      cannot help, since no suffix starts with white space. */
  predicate CommaBeforeSuffix(s: String, p: nat) {
    p < |s| && s[p] == ',' && SuffixAt(s, RunEnd(s, p + 1, IsSpace))
  }

  function FirstCommaBeforeSuffix(s: String, i: nat): (r: Option<nat>)
    requires i <= |s|
    decreases |s| - i
    ensures r.Some? ==> i <= r.value && CommaBeforeSuffix(s, r.value)
    ensures r.Some? ==> forall q: nat :: i <= q < r.value ==> !CommaBeforeSuffix(s, q)
    ensures r.None? ==> forall q: nat :: i <= q ==> !CommaBeforeSuffix(s, q)
  {
    if i == |s| then None
    else if CommaBeforeSuffix(s, i) then Some(i)
    else FirstCommaBeforeSuffix(s, i + 1)
  }

  /** `s.replace(/,\s*(?=Inc\.|LLC|Corp\.)/i, ' ')`: the first comma that precedes a
      suffix, with the white space after it, becomes one space. */
  function NormalizeComma(s: String): (r: String)
    ensures |r| <= |s|
  {
    match FirstCommaBeforeSuffix(s, 0)
    case None => s
    case Some(p) => s[..p] + " " + s[RunEnd(s, p + 1, IsSpace)..]
  }

  /** Without a comma before a suffix nothing changes. */
  lemma NormalizeCommaNone(s: String)
    requires forall p: nat :: !CommaBeforeSuffix(s, p)
    ensures NormalizeComma(s) == s
  {
  }

  /** The first comma before a suffix, with the white space after it, becomes one space. */
  lemma NormalizeCommaFirst(s: String, p: nat)
    requires CommaBeforeSuffix(s, p)
    requires forall q: nat :: q < p ==> !CommaBeforeSuffix(s, q)
    ensures NormalizeComma(s) == s[..p] + " " + s[RunEnd(s, p + 1, IsSpace)..]
  {
    assert FirstCommaBeforeSuffix(s, 0) == Some(p);
  }

  /** The replacement keeps a suffix. */
  lemma NormalizeCommaKeepsSuffix(s: String)
    requires HasSuffix(s)
    ensures HasSuffix(NormalizeComma(s))
  {
    match FirstCommaBeforeSuffix(s, 0)
    case None =>
    case Some(p) =>
      var q := RunEnd(s, p + 1, IsSpace);
      var r := NormalizeComma(s);
      assert r[p + 1..] == s[q..];
      SuffixShiftTail(s, q, r, p + 1);
  }

  /** A suffix is found again in a string that ends with the same characters. */
  lemma SuffixShiftTail(x: String, a: nat, y: String, c: nat)
    requires SuffixAt(x, a)
    requires a <= |x| && c <= |y| && y[c..] == x[a..]
    ensures c < |y| && SuffixAt(y, c) && HasSuffix(y)
  {
    var n := SuffixLength(x, a);
    assert x[a..a + n] == x[a..][..n];
    assert y[c..c + n] == y[c..][..n];
    SuffixShift(x, a, y, c);
  }

  /** The trimmed first 100 characters, cut before the first keyword, trimmed. */
  function HeaderCandidate(text: String): String {
    var firstPart := Trim(text[..if |text| < HeaderLength then |text| else HeaderLength]);
    Trim(BeforeKeyword(firstPart))
  }

  /** `text.split('\n')[0].trim()`. */
  function FirstLine(text: String): String {
    Trim(Split(text, '\n')[0])
  }

  /** The comma normalisation followed by `trim`. */
  function Normalized(s: String): (r: String)
    ensures HasSuffix(s) ==> HasSuffix(r)
    ensures |r| <= |s|
  {
    var n := NormalizeComma(s);
    if HasSuffix(s) then NormalizeCommaKeepsSuffix(s); TrimKeepsSuffix(n); Trim(n) else Trim(n)
  }

  /** A normalised name keeps its suffix, so it is not empty, and it is trimmed. */
  lemma NormalizedName(s: String)
    requires HasSuffix(s)
    ensures HasSuffix(Normalized(s)) && IsTrimmed(Normalized(s)) && |Normalized(s)| > 0
  {
  }

  /** The header strategy accepts its candidate; its length is checked before normalisation. */
  predicate HeaderAccepted(text: String) {
    var c := HeaderCandidate(text);
    MinNameLength < |c| < MaxNameLength && HasSuffix(c)
  }

  /** The first-line strategy accepts the line; its length is checked after normalisation. */
  predicate LineAccepted(text: String) {
    var line := FirstLine(text);
    |line| < MaxLineLength && HasSuffix(line) && MinNameLength < |Normalized(line)| < MaxNameLength
  }

  /** The header strategy's answer. */
  function HeaderName(text: String): (r: Option<String>)
    ensures r.Some? <==> HeaderAccepted(text)
    ensures r.Some? ==> r.value == Normalized(HeaderCandidate(text))
    ensures r.Some? ==> HasSuffix(r.value) && IsTrimmed(r.value) && 0 < |r.value| < MaxNameLength
  {
    var header := HeaderCandidate(text);
    if MinNameLength < |header| < MaxNameLength && HasSuffix(header) then
      NormalizedName(header);
      Some(Normalized(header))
    else
      None
  }

  /** The first-line strategy's answer. */
  function LineName(text: String): (r: Option<String>)
    ensures r.Some? <==> LineAccepted(text)
    ensures r.Some? ==> r.value == Normalized(FirstLine(text))
    ensures r.Some? ==> HasSuffix(r.value) && IsTrimmed(r.value) && MinNameLength < |r.value| < MaxNameLength
  {
    var line := FirstLine(text);
    if |line| < MaxLineLength && HasSuffix(line) then
      var name := Normalized(line);
      NormalizedName(line);
      if MinNameLength < |name| < MaxNameLength then Some(name) else None
    else
      None
  }

  /** `extractCompanyName(text)`, with `None` for `null`: the header strategy's
      answer when it has one, else the first-line strategy's. */
  function ExtractCompanyName(text: String): (r: Option<String>)
    ensures r.Some? ==> HasSuffix(r.value) && IsTrimmed(r.value) && 0 < |r.value| < MaxNameLength
    ensures r.None? <==> !HeaderAccepted(text) && !LineAccepted(text)
    ensures HeaderAccepted(text) ==> r == Some(Normalized(HeaderCandidate(text)))
    ensures !HeaderAccepted(text) && r.Some? ==>
      r.value == Normalized(FirstLine(text)) && MinNameLength < |r.value|
  {
    match HeaderName(text)
    case Some(name) => Some(name)
    case None => LineName(text)
  }
}
