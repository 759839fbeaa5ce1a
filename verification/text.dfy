/** The JavaScript string operations the extraction engine is built from, over
    strings as sequences of characters: white space, ASCII case folding,
    `indexOf`/`includes`, `trim`, `split`, `join` and a global `replace` that
    deletes one character. */
module Text {
  import opened Wrappers
  import opened Seqs

  type String = seq<char>

  /** The characters matched by the regex class `\s` and removed by `trim`:
      ECMAScript's white-space and line-terminator characters, which include
      every space separator of Unicode. */
  predicate IsSpace(c: char) {
    if c < '\U{00A0}' then ('\t' <= c <= '\r') || c == ' '
    else
      || c == '\U{00A0}' || c == '\U{1680}' || ('\U{2000}' <= c <= '\U{200A}')
      || c == '\U{2028}' || c == '\U{2029}' || c == '\U{202F}' || c == '\U{205F}'
      || c == '\U{3000}' || c == '\U{FEFF}'
  }

  predicate IsNotSpace(c: char) {
    !IsSpace(c)
  }

  predicate IsUpper(c: char) {
    'A' <= c <= 'Z'
  }

  predicate IsLower(c: char) {
    'a' <= c <= 'z'
  }

  predicate IsLetter(c: char) {
    IsUpper(c) || IsLower(c)
  }

  predicate IsDigit(c: char) {
    '0' <= c <= '9'
  }

  predicate AllLetters(w: String) {
    forall k :: 0 <= k < |w| ==> IsLetter(w[k])
  }

  /** No character of `w` is white space. */
  predicate NoSpace(w: String) {
    forall k :: 0 <= k < |w| ==> !IsSpace(w[k])
  }

  /** `toLowerCase` on one character, for the ASCII letters. */
  function LowerChar(c: char): (r: char)
    ensures IsUpper(c) ==> IsLower(r) && r as int == c as int + 32
    ensures !IsUpper(c) ==> r == c
  {
    if IsUpper(c) then (c as int + 32) as char else c
  }

  /** `toLowerCase` on a string, for the ASCII letters; it keeps every index in place. */
  function Lower(s: String): (r: String)
    ensures |r| == |s|
    ensures forall i :: 0 <= i < |s| ==> r[i] == LowerChar(s[i])
  {
    seq(|s|, i requires 0 <= i < |s| => LowerChar(s[i]))
  }

  /** `pat` occurs in `s` at index `i`. */
  predicate OccursAt(s: String, pat: String, i: nat) {
    i + |pat| <= |s| && s[i..i + |pat|] == pat
  }

  /** `pat`, written in lower case, occurs at `i` when case is ignored: what a
      regex with the `i` flag sees, and what a search in the lowered text sees. */
  predicate OccursAtIgnoringCase(s: String, pat: String, i: nat) {
    OccursAt(Lower(s), pat, i)
  }

  ghost predicate Occurs(s: String, pat: String) {
    exists i: nat :: OccursAt(s, pat, i)
  }

  /** `s.indexOf(pat, from)`. */
  function IndexFrom(s: String, pat: String, from: nat): (r: Option<nat>)
    decreases |s| - from
    ensures r.Some? ==> from <= r.value && OccursAt(s, pat, r.value)
    ensures r.Some? ==> forall j: nat :: from <= j < r.value ==> !OccursAt(s, pat, j)
    ensures r.None? ==> forall j: nat :: from <= j ==> !OccursAt(s, pat, j)
  {
    if from + |pat| > |s| then None
    else if s[from..from + |pat|] == pat then Some(from)
    else IndexFrom(s, pat, from + 1)
  }

  /** `s.indexOf(pat)`: the first occurrence, or `None` for JavaScript's -1. */
  function IndexOf(s: String, pat: String): (r: Option<nat>)
    ensures r.Some? ==> OccursAt(s, pat, r.value)
    ensures r.Some? ==> forall j: nat :: j < r.value ==> !OccursAt(s, pat, j)
    ensures r.None? <==> !Occurs(s, pat)
  {
    IndexFrom(s, pat, 0)
  }

  /** `s.includes(pat)`. */
  predicate Includes(s: String, pat: String)
    ensures Includes(s, pat) <==> Occurs(s, pat)
  {
    IndexOf(s, pat).Some?
  }

  lemma OccursAtOne(s: String, c: char, i: nat)
    requires i < |s|
    ensures OccursAt(s, [c], i) <==> s[i] == c
  {
    if s[i] == c {
      assert s[i..i + 1] == [c];
    }
  }

  /** The end of the longest run of characters of one class starting at `i`. */
  function RunEnd(s: String, i: nat, inClass: char -> bool): (j: nat)
    requires i <= |s|
    decreases |s| - i
    ensures i <= j <= |s|
    ensures forall k :: i <= k < j ==> inClass(s[k])
    ensures j == |s| || !inClass(s[j])
  {
    if i == |s| || !inClass(s[i]) then i else RunEnd(s, i + 1, inClass)
  }

  /** A run is determined by its start: any end with the run property is `RunEnd`. */
  lemma RunEndUnique(s: String, i: nat, j: nat, inClass: char -> bool)
    requires i <= j <= |s|
    requires forall k :: i <= k < j ==> inClass(s[k])
    requires j == |s| || !inClass(s[j])
    ensures RunEnd(s, i, inClass) == j
  {
  }

  /** Index of the first character of `s` that is not white space. */
  function TrimStart(s: String): (a: nat)
    ensures a <= |s|
    ensures forall k :: 0 <= k < a ==> IsSpace(s[k])
    ensures a == |s| || !IsSpace(s[a])
  {
    RunEnd(s, 0, IsSpace)
  }

  /** Moving left from `b`, the end of `s` once its trailing white space is dropped,
      never going below `a`. */
  function TrimEndFrom(s: String, a: nat, b: nat): (e: nat)
    requires a <= b <= |s|
    requires forall k :: b <= k < |s| ==> IsSpace(s[k])
    decreases b
    ensures a <= e <= b
    ensures forall k :: e <= k < |s| ==> IsSpace(s[k])
    ensures e == a || !IsSpace(s[e - 1])
  {
    if b == a || !IsSpace(s[b - 1]) then b else TrimEndFrom(s, a, b - 1)
  }

  /** Neither end of `s` is white space. */
  predicate IsTrimmed(s: String) {
    |s| == 0 || (!IsSpace(s[0]) && !IsSpace(s[|s| - 1]))
  }

  /** `s.trim()`: the infix of `s` left once the white space at both ends is dropped. */
  function Trim(s: String): (r: String)
    ensures IsTrimmed(r)
    ensures TrimStart(s) + |r| <= |s|
    ensures r == s[TrimStart(s)..TrimStart(s) + |r|]
    ensures forall k :: 0 <= k < TrimStart(s) ==> IsSpace(s[k])
    ensures forall k :: TrimStart(s) + |r| <= k < |s| ==> IsSpace(s[k])
  {
    var a := TrimStart(s);
    s[a..TrimEndFrom(s, a, |s|)]
  }

  /** An infix without white space lies inside the trimmed string, at the same
      characters. */
  lemma NoSpaceInsideTrim(s: String, i: nat, n: nat)
    requires 0 < n && i + n <= |s|
    requires forall k :: i <= k < i + n ==> !IsSpace(s[k])
    ensures TrimStart(s) <= i && i + n <= TrimStart(s) + |Trim(s)|
    ensures Trim(s)[i - TrimStart(s)..i - TrimStart(s) + n] == s[i..i + n]
  {
    var a := TrimStart(s);
    var r := Trim(s);
    assert !IsSpace(s[i]) && !IsSpace(s[i + n - 1]);
    assert a <= i;
    assert i + n <= a + |r|;
    assert r == s[a..a + |r|];
    var u := r[i - a..i - a + n];
    var v := s[i..i + n];
    forall k | 0 <= k < n
      ensures u[k] == v[k]
    {
      assert r[i - a + k] == s[a..a + |r|][i - a + k] == s[i + k];
    }
  }

  lemma TrimOfTrimmed(s: String)
    requires IsTrimmed(s)
    ensures Trim(s) == s
  {
    if |s| > 0 {
      assert TrimStart(s) == 0;
    }
  }

  /** `parts.join(sep)`. */
  function Join(parts: seq<String>, sep: String): (r: String)
    decreases |parts|
  {
    if |parts| == 0 then []
    else if |parts| == 1 then parts[0]
    else parts[0] + sep + Join(parts[1..], sep)
  }

  lemma {:induction false} JoinStartsWithFirst(parts: seq<String>, sep: String)
    requires |parts| >= 1 && |parts[0]| >= 1
    ensures |Join(parts, sep)| >= 1 && Join(parts, sep)[0] == parts[0][0]
  {
  }

  /** Words free of white space, joined by single spaces, neither begin nor end with white space. */
  lemma {:induction false} JoinTrimmed(words: seq<String>)
    requires forall k :: 0 <= k < |words| ==> |words[k]| > 0 && NoSpace(words[k])
    ensures IsTrimmed(Join(words, " "))
    ensures |words| > 0 ==> |Join(words, " ")| > 0
  {
    if |words| > 1 {
      JoinTrimmed(words[1..]);
      assert Join(words, " ") == words[0] + " " + Join(words[1..], " ");
    }
  }

  /** Every character of `g` is white space. */
  predicate AllSpace(g: String) {
    forall k :: 0 <= k < |g| ==> IsSpace(g[k])
  }

  /** Two words parted by white space split into the two words. */
  lemma SplitWsTwo(w0: String, g0: String, w1: String)
    requires |w0| > 0 && NoSpace(w0) && |g0| > 0 && AllSpace(g0) && |w1| > 0 && NoSpace(w1)
    ensures IsTrimmed(w0 + g0 + w1)
    ensures SplitWs(w0 + g0 + w1) == [w0, w1]
  {
    SplitWsCons(w0, g0, w1);
    SplitWsOfNoSpace(w1);
  }

  /** Three words parted by white space split into the three words. */
  lemma SplitWsThree(w0: String, g0: String, w1: String, g1: String, w2: String)
    requires |w0| > 0 && NoSpace(w0) && |g0| > 0 && AllSpace(g0) && |w1| > 0 && NoSpace(w1)
    requires |g1| > 0 && AllSpace(g1) && |w2| > 0 && NoSpace(w2)
    ensures IsTrimmed(w0 + g0 + w1 + g1 + w2)
    ensures SplitWs(w0 + g0 + w1 + g1 + w2) == [w0, w1, w2]
  {
    var rest := w1 + g1 + w2;
    SplitWsTwo(w1, g1, w2);
    assert w0 + g0 + w1 + g1 + w2 == w0 + g0 + rest;
    SplitWsCons(w0, g0, rest);
  }

  /** A string of letters and single-character spaces. */
  predicate LettersAndSpaces(s: String) {
    forall k :: 0 <= k < |s| ==> IsLetter(s[k]) || s[k] == ' '
  }

  /** Words of letters joined by spaces give letters and spaces. */
  lemma {:induction false} JoinLetters(words: seq<String>)
    requires forall k :: 0 <= k < |words| ==> AllLetters(words[k])
    ensures LettersAndSpaces(Join(words, " "))
  {
    if |words| > 1 {
      JoinLetters(words[1..]);
      var r := Join(words[1..], " ");
      assert Join(words, " ") == words[0] + " " + r;
      forall k | 0 <= k < |Join(words, " ")|
        ensures IsLetter(Join(words, " ")[k]) || Join(words, " ")[k] == ' '
      {
        if k > |words[0]| {
          assert Join(words, " ")[k] == r[k - |words[0]| - 1];
        }
      }
    }
  }

  /** `s.split(sep)` for a separator of one character. */
  function Split(s: String, sep: char): (parts: seq<String>)
    decreases |s|
    ensures |parts| >= 1
    ensures forall k :: 0 <= k < |parts| ==> sep !in parts[k]
  {
    match IndexOf(s, [sep])
    case None =>
      assert forall j :: 0 <= j < |s| ==> s[j] != sep by {
        forall j | 0 <= j < |s| {
          OccursAtOne(s, sep, j);
        }
      }
      [s]
    case Some(i) =>
      assert forall j :: 0 <= j < i ==> s[j] != sep by {
        forall j | 0 <= j < i {
          OccursAtOne(s, sep, j);
        }
      }
      [s[..i]] + Split(s[i + 1..], sep)
  }

  /** Joining pieces that do not contain the separator and splitting again gives them back. */
  lemma {:induction false} SplitJoin(parts: seq<String>, sep: char)
    requires |parts| >= 1
    requires forall k :: 0 <= k < |parts| ==> sep !in parts[k]
    ensures Split(Join(parts, [sep]), sep) == parts
  {
    var p0 := parts[0];
    if |parts| == 1 {
      if IndexOf(p0, [sep]).Some? {
        OccursAtOne(p0, sep, IndexOf(p0, [sep]).value);
      }
    } else {
      var rest := Join(parts[1..], [sep]);
      var s := p0 + [sep] + rest;
      assert Join(parts, [sep]) == s;
      OccursAtOne(s, sep, |p0|);
      forall j: nat | j < |p0| ensures !OccursAt(s, [sep], j) {
        OccursAtOne(s, sep, j);
      }
      var i := IndexOf(s, [sep]).value;
      assert i == |p0|;
      assert s[..i] == p0;
      assert s[i + 1..] == rest;
      SplitJoin(parts[1..], sep);
      assert parts == [p0] + parts[1..];
    }
  }

  /** `s.split(/\s+/)`: the pieces between maximal runs of white space; a leading
      or a trailing run gives an empty first or last piece. */
  function SplitWs(s: String): (parts: seq<String>)
    decreases |s|
    ensures |parts| >= 1
    ensures forall k :: 0 <= k < |parts| ==> NoSpace(parts[k])
  {
    var i := RunEnd(s, 0, IsNotSpace);
    if i == |s| then [s]
    else [s[..i]] + SplitWs(s[RunEnd(s, i, IsSpace)..])
  }

  lemma SplitWsOfNoSpace(x: String)
    requires NoSpace(x)
    ensures SplitWs(x) == [x]
  {
    RunEndUnique(x, 0, |x|, IsNotSpace);
  }

  /** Splitting at a first run of white space from `i` to `j`. */
  lemma SplitWsStep(x: String, i: nat, j: nat)
    requires i < j <= |x|
    requires forall k :: 0 <= k < i ==> !IsSpace(x[k])
    requires forall k :: i <= k < j ==> IsSpace(x[k])
    requires j == |x| || !IsSpace(x[j])
    ensures SplitWs(x) == [x[..i]] + SplitWs(x[j..])
  {
    RunEndUnique(x, 0, i, IsNotSpace);
    RunEndUnique(x, i, j, IsSpace);
  }

  /** A word, then a run of white space, then text that does not start with white space. */
  lemma SplitWsCons(a: String, g: String, rest: String)
    requires |a| > 0 && NoSpace(a)
    requires |g| > 0 && forall k :: 0 <= k < |g| ==> IsSpace(g[k])
    requires |rest| == 0 || !IsSpace(rest[0])
    ensures SplitWs(a + g + rest) == [a] + SplitWs(rest)
  {
    var x := a + g + rest;
    SplitWsStep(x, |a|, |a| + |g|);
    assert x[..|a|] == a;
    assert x[|a| + |g|..] == rest;
  }

  /** The test `w => w.length > 0` of the token filter. */
  predicate IsToken(w: String) {
    |w| > 0
  }

  /** The white-space separated tokens of `s`:
      `s.split(/\s+/).filter(w => w.length > 0)`. */
  function Tokens(s: String): (ts: seq<String>)
    ensures forall k :: 0 <= k < |ts| ==> |ts[k]| > 0 && NoSpace(ts[k])
  {
    FilterMembers(SplitWs(s), IsToken);
    Filter(SplitWs(s), IsToken)
  }

  /** Words free of white space, joined by single spaces, split back into themselves. */
  lemma {:induction false} SplitWsJoin(words: seq<String>)
    requires |words| >= 1
    requires forall k :: 0 <= k < |words| ==> |words[k]| > 0 && NoSpace(words[k])
    ensures SplitWs(Join(words, " ")) == words
  {
    var w0 := words[0];
    RunEndUnique(w0, 0, |w0|, IsNotSpace);
    if |words| > 1 {
      var rest := Join(words[1..], " ");
      var s := w0 + " " + rest;
      assert Join(words, " ") == s;
      JoinStartsWithFirst(words[1..], " ");
      RunEndUnique(s, 0, |w0|, IsNotSpace);
      RunEndUnique(s, |w0|, |w0| + 1, IsSpace);
      assert s[..|w0|] == w0;
      assert s[|w0| + 1..] == rest;
      SplitWsJoin(words[1..]);
      assert words == [w0] + words[1..];
    }
  }

  /** Tokenising words joined by single spaces gives the words back. */
  lemma TokensJoin(words: seq<String>)
    requires forall k :: 0 <= k < |words| ==> |words[k]| > 0 && NoSpace(words[k])
    ensures Tokens(Join(words, " ")) == words
  {
    if |words| == 0 {
      assert SplitWs([]) == [[]];
    } else {
      SplitWsJoin(words);
      FilterAll(words, IsToken);
    }
  }

  /** Words free of white space joined by single spaces are already trimmed, and
      they tokenise back into themselves. */
  lemma TrimJoinWords(words: seq<String>)
    requires forall k :: 0 <= k < |words| ==> |words[k]| > 0 && NoSpace(words[k])
    ensures Trim(Join(words, " ")) == Join(words, " ")
    ensures Tokens(Join(words, " ")) == words
  {
    JoinTrimmed(words);
    TrimOfTrimmed(Join(words, " "));
    TokensJoin(words);
  }

  /** `s.replace(/c/g, '')`: `s` with every `c` deleted. */
  function Remove(s: String, c: char): (r: String)
    ensures c !in r
    ensures |r| <= |s|
  {
    if |s| == 0 then []
    else (if s[0] == c then [] else [s[0]]) + Remove(s[1..], c)
  }

  /** Deleting `c` keeps the other characters and nothing else: it changes nothing
      when `c` does not occur, and leaves nothing exactly when every character is `c`. */
  lemma {:induction false} RemoveKeeps(s: String, c: char)
    ensures c !in s ==> Remove(s, c) == s
    ensures forall k :: 0 <= k < |Remove(s, c)| ==> Remove(s, c)[k] in s
    ensures |Remove(s, c)| == 0 <==> forall k :: 0 <= k < |s| ==> s[k] == c
  {
    if |s| > 0 {
      RemoveKeeps(s[1..], c);
      var r := Remove(s, c);
      var tail := Remove(s[1..], c);
      assert r == (if s[0] == c then [] else [s[0]]) + tail;
      assert forall k :: 0 <= k < |s[1..]| ==> s[1..][k] == s[k + 1];
      forall k | 0 <= k < |r|
        ensures r[k] in s
      {
        if s[0] != c && k == 0 {
        } else {
          var j := if s[0] == c then k else k - 1;
          assert r[k] == tail[j];
          assert tail[j] in s[1..];
        }
      }
    }
  }

  lemma {:induction false} RemoveAppend(a: String, b: String, c: char)
    ensures Remove(a + b, c) == Remove(a, c) + Remove(b, c)
  {
    if |a| > 0 {
      assert (a + b)[1..] == a[1..] + b;
      RemoveAppend(a[1..], b, c);
    } else {
      assert a + b == b;
    }
  }
}
