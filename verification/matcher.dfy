/** The record scanner of the heuristic parser: the global regex
    `([A-Z][a-z]+\s+[A-Z][a-z]+(?:\s+[A-Z][a-z]+)?)\s+([\d,]+)\s*shares?` with the
    `i` flag, run by repeated `exec`, as an explicit leftmost, non-overlapping
    matcher. Under the `i` flag `[A-Z]` and `[a-z]` both match every ASCII
    letter and no other character, so a "word" is any run of two or more ASCII
    letters in any case; capitalisation is checked later, by the validator. */
module Matcher {
  import opened Wrappers
  import opened Text
  import opened Seqs

  datatype Span = Span(lo: nat, hi: nat)

  /** One match of the pattern: where each of its parts lies in the text. The
      white space between the parts is implied by the spans. */
  datatype Hit = Hit(first: Span, second: Span, third: Option<Span>, number: Span, keyword: Span) {
    /** Where the match, and its name capture, begins. */
    function Start(): nat {
      first.lo
    }

    /** Where the match ends, and the next search begins. */
    function End(): nat {
      keyword.hi
    }

    /** Where the name capture ends. */
    function NameEnd(): nat {
      match third
      case Some(t) => t.hi
      case None => second.hi
    }
  }

  predicate IsNumberChar(c: char) {
    IsDigit(c) || c == ','
  }

  /** `[A-Z][a-z]+` under the `i` flag: two or more letters. */
  predicate Word(s: String, w: Span) {
    && w.lo + 2 <= w.hi <= |s|
    && forall k :: w.lo <= k < w.hi ==> IsLetter(s[k])
  }

  /** `\s*` from `lo` to `hi`. */
  predicate Pad(s: String, lo: nat, hi: nat) {
    && lo <= hi <= |s|
    && forall k :: lo <= k < hi ==> IsSpace(s[k])
  }

  /** `\s+` from `lo` to `hi`. */
  predicate Gap(s: String, lo: nat, hi: nat) {
    lo < hi && Pad(s, lo, hi)
  }

  /** `[\d,]+`. */
  predicate Number(s: String, n: Span) {
    && n.lo < n.hi <= |s|
    && forall k :: n.lo <= k < n.hi ==> IsNumberChar(s[k])
  }

  /** `shares?` under the `i` flag. */
  predicate Keyword(s: String, w: Span) {
    && OccursAtIgnoringCase(s, "share", w.lo)
    && (|| w.hi == w.lo + 5
        || (w.hi == w.lo + 6 && w.hi <= |s| && LowerChar(s[w.lo + 5]) == 's'))
  }

  /** The part of the pattern after the second word: the optional third word, the
      number and the keyword, each with the white space before it. */
  predicate AfterSecond(s: String, h: Hit) {
    && (match h.third
        case None => Gap(s, h.second.hi, h.number.lo)
        case Some(t) => Gap(s, h.second.hi, t.lo) && Word(s, t) && Gap(s, t.hi, h.number.lo))
    && Number(s, h.number)
    && Pad(s, h.number.hi, h.keyword.lo)
    && Keyword(s, h.keyword)
  }

  /** The text covered by `h` is a string of the pattern's language, cut as `h` says.
      This is the pattern read as a set of strings, with no preference among matches. */
  predicate Decomposes(s: String, h: Hit) {
    && Word(s, h.first)
    && Gap(s, h.first.hi, h.second.lo)
    && Word(s, h.second)
    && AfterSecond(s, h)
  }

  lemma DecomposesBounds(s: String, h: Hit)
    requires Decomposes(s, h)
    ensures h.Start() < h.NameEnd() < h.number.lo < h.number.hi <= h.keyword.lo < h.End() <= |s|
  {
  }

  /** The number and the keyword, from `n` on: the tail the three-word and the
      two-word forms share. */
  function MatchTail(s: String, first: Span, second: Span, third: Option<Span>, n: nat): (r: Option<Hit>)
    requires n <= |s|
    ensures r.Some? ==> r.value.first == first && r.value.second == second && r.value.third == third
    ensures r.Some? ==> r.value.number.lo == n && Number(s, r.value.number)
    ensures r.Some? ==> Pad(s, r.value.number.hi, r.value.keyword.lo) && Keyword(s, r.value.keyword)
  {
    var m := RunEnd(s, n, IsNumberChar);
    if m == n then None
    else
      var g := RunEnd(s, m, IsSpace);
      if !OccursAtIgnoringCase(s, "share", g) then None
      else
        var end := if g + 5 < |s| && LowerChar(s[g + 5]) == 's' then g + 6 else g + 5;
        Some(Hit(first, second, third, Span(n, m), Span(g, end)))
  }

  /** The match tried with a third word starting at `d`. */
  function MatchThird(s: String, first: Span, second: Span, d: nat): (r: Option<Hit>)
    requires d <= |s|
    ensures r.Some? ==> r.value.first == first && r.value.second == second
    ensures r.Some? ==> r.value.third.Some? && r.value.third.value.lo == d
    ensures r.Some? ==> Word(s, r.value.third.value) && Gap(s, r.value.third.value.hi, r.value.number.lo)
    ensures r.Some? ==> Number(s, r.value.number) && Pad(s, r.value.number.hi, r.value.keyword.lo) && Keyword(s, r.value.keyword)
  {
    var e := RunEnd(s, d, IsLetter);
    if e < d + 2 then None
    else
      var f := RunEnd(s, e, IsSpace);
      if f == e then None
      else MatchTail(s, first, second, Some(Span(d, e)), f)
  }

  /** The match tried after the second word, which ends at `second.hi`: a third word
      is tried exactly when a letter follows the white space after it. */
  function MatchAfterSecond(s: String, first: Span, second: Span): (r: Option<Hit>)
    requires second.hi <= |s|
    ensures r.Some? ==> r.value.first == first && r.value.second == second && AfterSecond(s, r.value)
  {
    var d := RunEnd(s, second.hi, IsSpace);
    if d == second.hi then None
    else if d < |s| && IsLetter(s[d]) then MatchThird(s, first, second, d)
    else MatchTail(s, first, second, None, d)
  }

  /** The match the regex finds when tried at `p`, if any. Every run of letters,
      white space or number characters is taken whole: giving a character back
      always makes the next part fail, so backtracking cannot find another cut;
      and the optional third word is present exactly when a letter follows the
      second word's white space. */
  function MatchAt(s: String, p: nat): (r: Option<Hit>)
    requires p <= |s|
    ensures r.Some? ==> r.value.Start() == p && Decomposes(s, r.value)
  {
    var a := RunEnd(s, p, IsLetter);
    if a < p + 2 then None
    else
      var b := RunEnd(s, a, IsSpace);
      if b == a then None
      else
        var c := RunEnd(s, b, IsLetter);
        if c < b + 2 then None
        else MatchAfterSecond(s, Span(p, a), Span(b, c))
  }

  /** The first character of a keyword is `s` or `S`, which is neither white space nor a number character. */
  lemma KeywordStart(s: String, w: Span)
    requires Keyword(s, w)
    ensures s[w.lo] == 's' || s[w.lo] == 'S'
  {
    assert Lower(s)[w.lo..w.lo + 5][0] == 's';
  }

  /** Two hits cut the text the same way, up to the optional final `s`. */
  predicate SameCuts(m: Hit, h: Hit) {
    && m.first == h.first && m.second == h.second && m.third == h.third
    && m.number == h.number && m.keyword.lo == h.keyword.lo
  }

  /** The tail of a string of the language is found by `MatchTail`, with the same
      number and the longest keyword. */
  lemma MatchTailComplete(s: String, h: Hit)
    requires Decomposes(s, h)
    ensures var m := MatchTail(s, h.first, h.second, h.third, h.number.lo);
      && m.Some? && m.value.number == h.number && m.value.keyword.lo == h.keyword.lo
      && h.End() <= m.value.End()
  {
    KeywordStart(s, h.keyword);
    RunEndUnique(s, h.number.lo, h.number.hi, IsNumberChar);
    RunEndUnique(s, h.number.hi, h.keyword.lo, IsSpace);
  }

  /** The third word of a string of the language is found by `MatchThird`. */
  lemma MatchThirdComplete(s: String, h: Hit)
    requires Decomposes(s, h) && h.third.Some?
    ensures var m := MatchThird(s, h.first, h.second, h.third.value.lo);
      && m.Some? && SameCuts(m.value, h) && h.End() <= m.value.End()
  {
    var t := h.third.value;
    RunEndUnique(s, t.lo, t.hi, IsLetter);
    RunEndUnique(s, t.hi, h.number.lo, IsSpace);
    MatchTailComplete(s, h);
  }

  /** What follows the second word of a string of the language is found by
      `MatchAfterSecond`. */
  lemma MatchAfterSecondComplete(s: String, h: Hit)
    requires Decomposes(s, h)
    ensures var m := MatchAfterSecond(s, h.first, h.second);
      && m.Some? && SameCuts(m.value, h) && h.End() <= m.value.End()
  {
    match h.third
    case None =>
      RunEndUnique(s, h.second.hi, h.number.lo, IsSpace);
      assert !IsLetter(s[h.number.lo]);
      MatchTailComplete(s, h);
    case Some(t) =>
      RunEndUnique(s, h.second.hi, t.lo, IsSpace);
      MatchThirdComplete(s, h);
  }

  /** The regex's choice at a position: whenever a string of the pattern's language
      starts at `h.Start()`, the matcher finds a match there, cut exactly as `h`,
      and with the longest keyword (the greedy `s?`). So the language admits one
      cut per start, and the matcher returns it. */
  lemma MatchAtComplete(s: String, h: Hit)
    requires Decomposes(s, h)
    ensures MatchAt(s, h.Start()).Some?
    ensures SameCuts(MatchAt(s, h.Start()).value, h)
    ensures h.End() <= MatchAt(s, h.Start()).value.End()
  {
    RunEndUnique(s, h.first.lo, h.first.hi, IsLetter);
    RunEndUnique(s, h.first.hi, h.second.lo, IsSpace);
    RunEndUnique(s, h.second.lo, h.second.hi, IsLetter);
    MatchAfterSecondComplete(s, h);
  }

  ghost predicate NoMatchIn(s: String, lo: nat, hi: nat) {
    forall q: nat :: lo <= q < hi && q <= |s| ==> MatchAt(s, q).None?
  }

  /** No string of the pattern's language starts in `[lo, hi)`. */
  ghost predicate NoRecordIn(s: String, lo: nat, hi: nat) {
    forall h :: Decomposes(s, h) ==> !(lo <= h.Start() < hi)
  }

  lemma NoMatchNoRecord(s: String, lo: nat, hi: nat)
    requires NoMatchIn(s, lo, hi)
    ensures NoRecordIn(s, lo, hi)
  {
    forall h | Decomposes(s, h)
      ensures !(lo <= h.Start() < hi)
    {
      DecomposesBounds(s, h);
      if lo <= h.Start() < hi {
        MatchAtComplete(s, h);
      }
    }
  }

  lemma NoMatchInExtend(s: String, i: nat, hi: nat)
    requires i <= |s| && MatchAt(s, i).None? && NoMatchIn(s, i + 1, hi)
    ensures NoMatchIn(s, i, hi)
  {
  }

  /** `pattern.exec(s)` with `lastIndex == i`: the match at the first position at or
      after `i` where the regex matches. */
  function Search(s: String, i: nat): Option<Hit>
    requires i <= |s|
    decreases |s| - i
  {
    match MatchAt(s, i)
    case Some(h) => Some(h)
    case None => if i == |s| then None else Search(s, i + 1)
  }

  /** The search finds the leftmost match from `i`, and finds nothing only when no
      position from `i` to the end matches. */
  lemma {:induction false} SearchIsLeftmost(s: String, i: nat)
    requires i <= |s|
    decreases |s| - i
    ensures var r := Search(s, i);
      && (r.Some? ==> i <= r.value.Start() <= |s| && MatchAt(s, r.value.Start()) == r)
      && (r.Some? ==> NoMatchIn(s, i, r.value.Start()))
      && (r.None? ==> NoMatchIn(s, i, |s| + 1))
  {
    if MatchAt(s, i).None? && i < |s| {
      SearchIsLeftmost(s, i + 1);
      var r := Search(s, i + 1);
      if r.Some? {
        NoMatchInExtend(s, i, r.value.Start());
      } else {
        NoMatchInExtend(s, i, |s| + 1);
      }
    }
  }

  /** `hits` is what repeated `exec` returns from `lastIndex == i`: each match is
      what the search from the end of the match before finds, and the search after
      the last match finds nothing. */
  ghost predicate ExecChain(s: String, i: nat, hits: seq<Hit>)
    decreases |hits|
  {
    && i <= |s|
    && if |hits| == 0 then Search(s, i).None?
       else Search(s, i) == Some(hits[0]) && ExecChain(s, hits[0].End(), hits[1..])
  }

  /** `hits` are strings of the pattern's language, in order and not overlapping,
      and none is missed: between `i` (or the end of a match) and the next match,
      and after the last match, no string of the language starts. */
  ghost predicate LeftmostChain(s: String, i: nat, hits: seq<Hit>)
    decreases |hits|
  {
    if |hits| == 0 then NoRecordIn(s, i, |s| + 1)
    else
      && Decomposes(s, hits[0])
      && i <= hits[0].Start()
      && NoRecordIn(s, i, hits[0].Start())
      && LeftmostChain(s, hits[0].End(), hits[1..])
  }

  lemma MatchedBounds(s: String, h: Hit)
    requires h.Start() <= |s| && MatchAt(s, h.Start()) == Some(h)
    ensures Decomposes(s, h) && h.End() <= |s|
  {
    DecomposesBounds(s, h);
  }

  /** The loop `while ((match = pattern.exec(s)) !== null)` from `lastIndex == i`.
      Its contract records the chain of `exec` calls; `ExecIsLeftmost` shows that
      such a chain is leftmost, non-overlapping and misses no match. */
  function Scan(s: String, i: nat): (hits: seq<Hit>)
    requires i <= |s|
    decreases |s| - i
    ensures ExecChain(s, i, hits)
  {
    match Search(s, i)
    case None => []
    case Some(h) =>
      SearchIsLeftmost(s, i);
      MatchedBounds(s, h);
      var rest := Scan(s, h.End());
      assert ([h] + rest)[1..] == rest;
      [h] + rest
  }

  /** What repeated `exec` returns is leftmost and non-overlapping for the
      pattern's language. */
  lemma {:induction false} ExecIsLeftmost(s: String, i: nat, hits: seq<Hit>)
    requires ExecChain(s, i, hits)
    decreases |hits|
    ensures LeftmostChain(s, i, hits)
  {
    SearchIsLeftmost(s, i);
    if |hits| == 0 {
      NoMatchNoRecord(s, i, |s| + 1);
    } else {
      MatchedBounds(s, hits[0]);
      NoMatchNoRecord(s, i, hits[0].Start());
      ExecIsLeftmost(s, hits[0].End(), hits[1..]);
    }
  }

  /** Every match of a leftmost chain is a string of the language. */
  lemma {:induction false} LeftmostDecomposes(s: String, i: nat, hits: seq<Hit>)
    requires LeftmostChain(s, i, hits)
    decreases |hits|
    ensures forall k :: 0 <= k < |hits| ==> Decomposes(s, hits[k])
  {
    if |hits| > 0 {
      LeftmostDecomposes(s, hits[0].End(), hits[1..]);
      assert forall k :: 1 <= k < |hits| ==> hits[k] == hits[1..][k - 1];
    }
  }

  /** Every match the scan returns is a string of the language. */
  lemma ScanDecomposes(s: String, i: nat)
    requires i <= |s|
    ensures forall k :: 0 <= k < |Scan(s, i)| ==> Decomposes(s, Scan(s, i)[k])
  {
    ExecIsLeftmost(s, i, Scan(s, i));
    LeftmostDecomposes(s, i, Scan(s, i));
  }

  /** The name capture, `match[1]`. */
  function NameText(s: String, h: Hit): String
    requires Decomposes(s, h)
  {
    s[h.Start()..h.NameEnd()]
  }

  /** The number capture, `match[2]`. */
  function NumberText(s: String, h: Hit): (t: String)
    requires Decomposes(s, h)
    ensures |t| > 0 && forall k :: 0 <= k < |t| ==> IsNumberChar(t[k])
  {
    s[h.number.lo..h.number.hi]
  }

  /** The two or three words of the name capture. */
  function NameWords(s: String, h: Hit): (ws: seq<String>)
    requires Decomposes(s, h)
    ensures 2 <= |ws| <= 3
    ensures forall k :: 0 <= k < |ws| ==> |ws[k]| >= 2 && AllLetters(ws[k])
  {
    [s[h.first.lo..h.first.hi], s[h.second.lo..h.second.hi]]
      + match h.third
        case None => []
        case Some(t) => [s[t.lo..t.hi]]
  }

  lemma LettersHaveNoSpace(s: String, w: Span)
    requires Word(s, w)
    ensures |s[w.lo..w.hi]| > 0 && NoSpace(s[w.lo..w.hi])
    ensures !IsSpace(s[w.lo]) && !IsSpace(s[w.hi - 1])
  {
  }

  lemma GapIsSpace(s: String, lo: nat, hi: nat)
    requires Gap(s, lo, hi)
    ensures |s[lo..hi]| > 0 && AllSpace(s[lo..hi])
  {
  }

  lemma NameTextSplitTwo(s: String, h: Hit)
    requires Decomposes(s, h) && h.third.None?
    ensures IsTrimmed(NameText(s, h))
    ensures SplitWs(NameText(s, h)) == NameWords(s, h)
  {
    var a := h.first;
    var b := h.second;
    LettersHaveNoSpace(s, a);
    GapIsSpace(s, a.hi, b.lo);
    LettersHaveNoSpace(s, b);
    SliceSplit(s, a.lo, b.lo, b.hi);
    SliceSplit(s, a.lo, a.hi, b.lo);
    assert NameText(s, h) == s[a.lo..a.hi] + s[a.hi..b.lo] + s[b.lo..b.hi];
    SplitWsTwo(s[a.lo..a.hi], s[a.hi..b.lo], s[b.lo..b.hi]);
  }

  lemma NameTextSplitThree(s: String, h: Hit)
    requires Decomposes(s, h) && h.third.Some?
    ensures IsTrimmed(NameText(s, h))
    ensures SplitWs(NameText(s, h)) == NameWords(s, h)
  {
    var a := h.first;
    var b := h.second;
    var c := h.third.value;
    LettersHaveNoSpace(s, a);
    GapIsSpace(s, a.hi, b.lo);
    LettersHaveNoSpace(s, b);
    GapIsSpace(s, b.hi, c.lo);
    LettersHaveNoSpace(s, c);
    SliceSplit(s, a.lo, b.hi, c.hi);
    SliceSplit(s, b.hi, c.lo, c.hi);
    SliceSplit(s, a.lo, b.lo, b.hi);
    SliceSplit(s, a.lo, a.hi, b.lo);
    assert NameText(s, h) == s[a.lo..a.hi] + s[a.hi..b.lo] + s[b.lo..b.hi] + s[b.hi..c.lo] + s[c.lo..c.hi];
    SplitWsThree(s[a.lo..a.hi], s[a.hi..b.lo], s[b.lo..b.hi], s[b.hi..c.lo], s[c.lo..c.hi]);
  }

  /** `match[1].trim().split(/\s+/)` gives the words of the name: the capture starts
      and ends with a letter, and its words are parted by runs of white space. */
  lemma NameTextSplit(s: String, h: Hit)
    requires Decomposes(s, h)
    ensures IsTrimmed(NameText(s, h))
    ensures SplitWs(NameText(s, h)) == NameWords(s, h)
  {
    if h.third.None? {
      NameTextSplitTwo(s, h);
    } else {
      NameTextSplitThree(s, h);
    }
  }
}
