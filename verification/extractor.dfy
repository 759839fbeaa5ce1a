/** The record extractor of the heuristic parser (`extractFromSection`,
    `extractShareholders`): every match of the record scanner becomes a candidate
    record, header words are stripped from its name, and the valid candidates are
    kept, first occurrence of each name winning. */
module Extractor {
  import opened Wrappers
  import opened Text
  import opened Numbers
  import opened Seqs
  import opened Matcher
  import opened Validator
  import opened Section

  datatype Shareholder = Shareholder(name: String, shares: Count)

  /** Table-header words dropped from a captured name, compared in lower case. */
  const ExcludedWords: seq<String> := ["schedule", "vesting", "stock", "plan", "price", "name", "shares"]

  predicate IsExcluded(part: String) {
    Lower(part) in ExcludedWords
  }

  predicate Kept(part: String) {
    !IsExcluded(part)
  }

  /** `nameParts.filter(part => !excludeWords.includes(part.toLowerCase()))`: the
      words that are not header words, in order; `KeepNamePartsCount` adds that every
      copy of such a word is kept. */
  function KeepNameParts(parts: seq<String>): (kept: seq<String>)
    ensures forall k :: 0 <= k < |kept| ==> !IsExcluded(kept[k]) && kept[k] in parts
    ensures forall p :: p in parts && !IsExcluded(p) ==> p in kept
    ensures Subsequence(kept, parts)
  {
    FilterIsSubsequence(parts, Kept);
    FilterMembers(parts, Kept);
    Filter(parts, Kept)
  }

  /** Every copy of a word that is not a header word is kept, and no copy of a
      header word; with the order of `KeepNameParts` this fixes the kept list. */
  lemma KeepNamePartsCount(parts: seq<String>)
    ensures forall w :: multiset(KeepNameParts(parts))[w] == (if IsExcluded(w) then 0 else multiset(parts)[w])
  {
    FilterCount(parts, Kept);
  }

  /** The record a match yields before validation: the name capture, trimmed, split
      at white space, stripped of header words, joined by single spaces and trimmed;
      the number capture with its commas deleted, read by `parseInt`. */
  function Candidate(s: String, h: Hit): Shareholder
    requires Decomposes(s, h)
  {
    var name := Trim(NameText(s, h));
    var cleaned := Trim(Join(KeepNameParts(SplitWs(name)), " "));
    Shareholder(cleaned, ParseInt(Remove(NumberText(s, h), ',')))
  }

  /** The candidate's name is the words of the match other than header words, joined
      by single spaces, and those words are exactly what the validator splits it into. */
  lemma CandidateName(s: String, h: Hit)
    requires Decomposes(s, h)
    ensures var kept := KeepNameParts(NameWords(s, h));
      && Candidate(s, h).name == Join(kept, " ")
      && Tokens(Candidate(s, h).name) == kept
  {
    NameTextSplit(s, h);
    TrimOfTrimmed(NameText(s, h));
    KeptWordsClean(s, h);
    TrimJoinWords(KeepNameParts(NameWords(s, h)));
  }

  /** The words kept from a match are non-empty runs of letters. */
  lemma KeptWordsClean(s: String, h: Hit)
    requires Decomposes(s, h)
    ensures var kept := KeepNameParts(NameWords(s, h));
      forall k :: 0 <= k < |kept| ==> |kept[k]| > 0 && NoSpace(kept[k]) && AllLetters(kept[k])
  {
    var ws := NameWords(s, h);
    var kept := KeepNameParts(ws);
    forall k | 0 <= k < |kept|
      ensures |kept[k]| > 0 && NoSpace(kept[k]) && AllLetters(kept[k])
    {
      assert kept[k] in ws;
      var w := kept[k];
      assert forall i :: 0 <= i < |w| ==> IsLetter(w[i]) && !IsSpace(w[i]);
    }
  }

  /** The candidate's count is NaN exactly when the number capture is all commas,
      and otherwise the value of its digits. */
  lemma CandidateShares(s: String, h: Hit)
    requires Decomposes(s, h)
    ensures var t := NumberText(s, h);
      && (Candidate(s, h).shares.NaN? <==> forall k :: 0 <= k < |t| ==> t[k] == ',')
      && AllDigits(Remove(t, ','))
      && (Candidate(s, h).shares.Whole? ==> Candidate(s, h).shares.n == Value(Remove(t, ',')))
  {
    var t := NumberText(s, h);
    var d := Remove(t, ',');
    RemoveKeeps(t, ',');
    assert AllDigits(d) by {
      forall k | 0 <= k < |d|
        ensures IsDigit(d[k])
      {
        assert d[k] in t;
        assert d[k] != ',';
      }
    }
    RunEndUnique(d, 0, |d|, IsDigit);
    assert d[..|d|] == d;
  }

  /** A candidate is taken when its name is not empty and it passes the validator. */
  predicate Accepted(c: Shareholder) {
    |c.name| > 0 && IsValidShareholder(c.name, c.shares)
  }

  /** The names of the records, in order. */
  function Names(rs: seq<Shareholder>): (ns: seq<String>)
    ensures |ns| == |rs| && forall k :: 0 <= k < |rs| ==> ns[k] == rs[k].name
  {
    seq(|rs|, k requires 0 <= k < |rs| => rs[k].name)
  }

  /** `cs[j]` is the earliest candidate named `name` that `accept` takes. */
  predicate EarliestNamed(cs: seq<Shareholder>, accept: Shareholder -> bool, name: String, j: nat) {
    && j < |cs| && cs[j].name == name && accept(cs[j])
    && forall i :: 0 <= i < j ==> !(cs[i].name == name && accept(cs[i]))
  }

  /** The earliest candidate named `name` that `accept` takes, if any. */
  function FirstNamed(cs: seq<Shareholder>, accept: Shareholder -> bool, name: String): (r: Option<Shareholder>)
    ensures r.Some? ==> exists j: nat :: EarliestNamed(cs, accept, name, j) && r.value == cs[j]
    ensures r.None? <==> forall k :: 0 <= k < |cs| && cs[k].name == name ==> !accept(cs[k])
  {
    if |cs| == 0 then None
    else
      var init := cs[..|cs| - 1];
      var c := cs[|cs| - 1];
      assert forall k :: 0 <= k < |init| ==> init[k] == cs[k];
      match FirstNamed(init, accept, name)
      case Some(r) =>
        var j: nat :| EarliestNamed(init, accept, name, j) && r == init[j];
        assert EarliestNamed(cs, accept, name, j);
        Some(r)
      case None =>
        if accept(c) && c.name == name then
          assert EarliestNamed(cs, accept, name, |cs| - 1);
          Some(c)
        else None
  }

  /** The position of the earliest candidate named `name` that `accept` takes, or
      `|cs|` when there is none. */
  function FirstIndex(cs: seq<Shareholder>, accept: Shareholder -> bool, name: String): (j: nat)
    ensures j <= |cs|
    ensures j < |cs| ==> EarliestNamed(cs, accept, name, j)
    ensures j == |cs| ==> forall k :: 0 <= k < |cs| && cs[k].name == name ==> !accept(cs[k])
  {
    if |cs| == 0 then 0
    else
      var init := cs[..|cs| - 1];
      var c := cs[|cs| - 1];
      assert forall k :: 0 <= k < |init| ==> init[k] == cs[k];
      var j := FirstIndex(init, accept, name);
      if j < |init| then j
      else if accept(c) && c.name == name then |cs| - 1
      else |cs|
  }

  /** Record `k` is the candidate at the first accepted position of its name, and
      those positions increase with `k`. */
  predicate InMatchOrder(cs: seq<Shareholder>, accept: Shareholder -> bool, rs: seq<Shareholder>) {
    && (forall k :: 0 <= k < |rs| ==>
         FirstIndex(cs, accept, rs[k].name) < |cs| && rs[k] == cs[FirstIndex(cs, accept, rs[k].name)])
    && (forall i, j :: 0 <= i < j < |rs| ==>
         FirstIndex(cs, accept, rs[i].name) < FirstIndex(cs, accept, rs[j].name))
  }

  /** One more candidate keeps the records of the shorter list in match order, and
      appending it, when it is accepted and its name is new, does too. */
  lemma InMatchOrderStep(init: seq<Shareholder>, c: Shareholder, accept: Shareholder -> bool, rs: seq<Shareholder>)
    requires InMatchOrder(init, accept, rs)
    requires forall k :: 0 <= k < |init| && accept(init[k]) ==> init[k].name in Names(rs)
    ensures InMatchOrder(init + [c], accept, rs)
    ensures accept(c) && c.name !in Names(rs) ==> InMatchOrder(init + [c], accept, rs + [c])
  {
    var cs := init + [c];
    assert cs[..|cs| - 1] == init;
    forall k | 0 <= k < |rs|
      ensures FirstIndex(cs, accept, rs[k].name) == FirstIndex(init, accept, rs[k].name)
    {
    }
    if accept(c) && c.name !in Names(rs) {
      assert FirstIndex(init, accept, c.name) == |init|;
      assert FirstIndex(cs, accept, c.name) == |init|;
      var rs' := rs + [c];
      forall k | 0 <= k < |rs'|
        ensures FirstIndex(cs, accept, rs'[k].name) < |cs| && rs'[k] == cs[FirstIndex(cs, accept, rs'[k].name)]
      {
        if k < |rs| { assert rs'[k] == rs[k]; }
      }
      forall i, j | 0 <= i < j < |rs'|
        ensures FirstIndex(cs, accept, rs'[i].name) < FirstIndex(cs, accept, rs'[j].name)
      {
        assert rs'[i] == rs[i];
        if j < |rs| { assert rs'[j] == rs[j]; }
      }
    }
  }

  /** The loop of `extractFromSection` over the candidates in match order, with
      `accept` for the test `name && isValidShareholder(name, shares)`: keep a
      candidate that is accepted unless `shareholders.find` finds a record of its
      name. Every record is an accepted candidate, no name is kept twice, every
      accepted name is kept, and the records are candidates in candidate order;
      `CollectInMatchOrder` places each record at its position. */
  function Collect(cs: seq<Shareholder>, accept: Shareholder -> bool): (rs: seq<Shareholder>)
    ensures forall k :: 0 <= k < |rs| ==> accept(rs[k])
    ensures forall i, j :: 0 <= i < j < |rs| ==> rs[i].name != rs[j].name
    ensures forall k :: 0 <= k < |cs| && accept(cs[k]) ==> cs[k].name in Names(rs)
    ensures Subsequence(rs, cs)
  {
    if |cs| == 0 then []
    else
      var init := cs[..|cs| - 1];
      var c := cs[|cs| - 1];
      assert cs == init + [c];
      var rs := Collect(init, accept);
      if accept(c) && c.name !in Names(rs) then
        CollectKeep(init, c, accept, rs);
        rs + [c]
      else
        CollectSkip(init, c, accept, rs);
        rs
  }

  /** The clauses of `Collect` for records `rs` of candidates `cs`. */
  predicate Collects(cs: seq<Shareholder>, accept: Shareholder -> bool, rs: seq<Shareholder>) {
    && (forall k :: 0 <= k < |rs| ==> accept(rs[k]))
    && (forall i, j :: 0 <= i < j < |rs| ==> rs[i].name != rs[j].name)
    && (forall k :: 0 <= k < |cs| && accept(cs[k]) ==> cs[k].name in Names(rs))
    && Subsequence(rs, cs)
  }

  /** Keeping an accepted candidate of a new name keeps the clauses of `Collect`. */
  lemma CollectKeep(init: seq<Shareholder>, c: Shareholder, accept: Shareholder -> bool, rs: seq<Shareholder>)
    requires Collects(init, accept, rs) && accept(c) && c.name !in Names(rs)
    ensures Collects(init + [c], accept, rs + [c])
  {
    var cs := init + [c];
    var rs' := rs + [c];
    assert forall k :: 0 <= k < |init| ==> init[k] == cs[k];
    assert Names(rs') == Names(rs) + [c.name];
    assert rs'[..|rs|] == rs && cs[..|init|] == init;
  }

  /** Passing over a candidate that is rejected or of a kept name keeps the clauses
      of `Collect`. */
  lemma CollectSkip(init: seq<Shareholder>, c: Shareholder, accept: Shareholder -> bool, rs: seq<Shareholder>)
    requires Collects(init, accept, rs) && !(accept(c) && c.name !in Names(rs))
    ensures Collects(init + [c], accept, rs)
  {
    var cs := init + [c];
    assert forall k :: 0 <= k < |init| ==> init[k] == cs[k];
    SubsequenceExtend(rs, init, c);
  }

  /** Record `k` is the candidate at the first accepted position of its name, and
      those positions increase with `k`: the records are in match order. */
  lemma {:induction false} CollectInMatchOrder(cs: seq<Shareholder>, accept: Shareholder -> bool)
    ensures InMatchOrder(cs, accept, Collect(cs, accept))
  {
    if |cs| > 0 {
      var init := cs[..|cs| - 1];
      var c := cs[|cs| - 1];
      assert cs == init + [c];
      CollectInMatchOrder(init, accept);
      InMatchOrderStep(init, c, accept, Collect(init, accept));
    }
  }

  /** Any list of records that keeps every accepted name and lists each at the first
      accepted position of its name, in increasing order of those positions, is the
      result of `Collect`: its clauses leave no other result. */
  lemma CollectUnique(cs: seq<Shareholder>, accept: Shareholder -> bool, rs: seq<Shareholder>)
    requires forall k :: 0 <= k < |cs| && accept(cs[k]) ==> cs[k].name in Names(rs)
    requires InMatchOrder(cs, accept, rs)
    ensures rs == Collect(cs, accept)
  {
    var ts := Collect(cs, accept);
    CollectInMatchOrder(cs, accept);
    var a := Positions(cs, accept, rs);
    var b := Positions(cs, accept, ts);
    PositionsCovered(cs, accept, rs, ts);
    PositionsCovered(cs, accept, ts, rs);
    IncreasingSame(a, b);
    forall k | 0 <= k < |rs|
      ensures rs[k] == ts[k]
    {
      assert rs[k] == cs[a[k]] && ts[k] == cs[b[k]];
    }
  }

  /** A record seen again later does not move: candidates `a, b, a` give `[a, b]`. */
  lemma RepeatKeepsPlace(a: Shareholder, b: Shareholder, accept: Shareholder -> bool)
    requires accept(a) && accept(b) && a.name != b.name
    ensures Collect([a, b, a], accept) == [a, b]
  {
    var ab := [a, b];
    CollectPair(a, b, accept);
    NamesPair(a, b);
    assert a.name in Names(Collect(ab, accept));
    CollectStep(ab, a, accept);
    assert Collect(ab + [a], accept) == ab;
    assert ab + [a] == [a, b, a];
  }

  lemma CollectPair(a: Shareholder, b: Shareholder, accept: Shareholder -> bool)
    requires accept(a) && accept(b) && a.name != b.name
    ensures Collect([a, b], accept) == [a, b]
  {
    var one := [a];
    CollectSingle(a, accept);
    NamesSingle(a);
    assert b.name !in Names(Collect(one, accept));
    CollectStep(one, b, accept);
    assert Collect(one + [b], accept) == one + [b];
    assert one + [b] == [a, b];
  }

  lemma CollectSingle(a: Shareholder, accept: Shareholder -> bool)
    requires accept(a)
    ensures Collect([a], accept) == [a]
  {
    var e: seq<Shareholder> := [];
    CollectStep(e, a, accept);
    assert e + [a] == [a];
  }

  lemma NamesSingle(a: Shareholder)
    ensures Names([a]) == [a.name]
  {
  }

  lemma NamesPair(a: Shareholder, b: Shareholder)
    ensures Names([a, b]) == [a.name, b.name]
  {
  }

  /** `Collect` over one more candidate. */
  lemma CollectStep(init: seq<Shareholder>, c: Shareholder, accept: Shareholder -> bool)
    ensures Collect(init + [c], accept) ==
      if accept(c) && c.name !in Names(Collect(init, accept)) then Collect(init, accept) + [c]
      else Collect(init, accept)
  {
    assert (init + [c])[..|init|] == init;
  }

  /** The first accepted positions of the records' names, in record order. */
  function Positions(cs: seq<Shareholder>, accept: Shareholder -> bool, rs: seq<Shareholder>): (ps: seq<int>)
    ensures |ps| == |rs| && forall k :: 0 <= k < |rs| ==> ps[k] == FirstIndex(cs, accept, rs[k].name)
    ensures InMatchOrder(cs, accept, rs) ==> Increasing(ps)
  {
    seq(|rs|, k requires 0 <= k < |rs| => FirstIndex(cs, accept, rs[k].name) as int)
  }

  /** The position of every record of `rs` is the position of a record of `ts`,
      when `ts` keeps every accepted name. */
  lemma PositionsCovered(cs: seq<Shareholder>, accept: Shareholder -> bool, rs: seq<Shareholder>, ts: seq<Shareholder>)
    requires InMatchOrder(cs, accept, rs)
    requires forall k :: 0 <= k < |cs| && accept(cs[k]) ==> cs[k].name in Names(ts)
    ensures forall x :: x in Positions(cs, accept, rs) ==> x in Positions(cs, accept, ts)
  {
    var a := Positions(cs, accept, rs);
    var b := Positions(cs, accept, ts);
    forall x | x in a
      ensures x in b
    {
      var k :| 0 <= k < |a| && a[k] == x;
      var n := rs[k].name;
      assert EarliestNamed(cs, accept, n, x);
      assert cs[x].name == n && accept(cs[x]);
      assert n in Names(ts);
      var m :| 0 <= m < |ts| && Names(ts)[m] == n;
      assert b[m] == x;
    }
  }

  /** The first accepted candidate of each name is the one kept. */
  lemma CollectKeepsFirst(cs: seq<Shareholder>, accept: Shareholder -> bool)
    ensures forall k :: 0 <= k < |Collect(cs, accept)| ==>
      FirstNamed(cs, accept, Collect(cs, accept)[k].name) == Some(Collect(cs, accept)[k])
  {
    var rs := Collect(cs, accept);
    CollectInMatchOrder(cs, accept);
    forall k | 0 <= k < |rs|
      ensures FirstNamed(cs, accept, rs[k].name) == Some(rs[k])
    {
      FirstNamedAt(cs, accept, rs[k].name, FirstIndex(cs, accept, rs[k].name));
    }
  }

  /** The earliest accepted candidate of a name is what `find` returns. */
  lemma FirstNamedAt(cs: seq<Shareholder>, accept: Shareholder -> bool, name: String, j: nat)
    requires EarliestNamed(cs, accept, name, j)
    ensures FirstNamed(cs, accept, name) == Some(cs[j])
  {
    var r := FirstNamed(cs, accept, name);
    assert r.Some?;
    var i: nat :| EarliestNamed(cs, accept, name, i) && r.value == cs[i];
    assert !(i < j) && !(j < i);
  }

  /** The candidates of the matches in order. */
  function Candidates(s: String, hits: seq<Hit>): (cs: seq<Shareholder>)
    requires forall k :: 0 <= k < |hits| ==> Decomposes(s, hits[k])
    ensures |cs| == |hits|
    ensures forall k :: 0 <= k < |hits| ==> cs[k] == Candidate(s, hits[k])
  {
    seq(|hits|, k requires 0 <= k < |hits| => Candidate(s, hits[k]))
  }

  /** The candidates of the scan of `section`, in match order. */
  function SectionCandidates(section: String): (cs: seq<Shareholder>)
    ensures |cs| == |Scan(section, 0)|
    ensures forall k :: 0 <= k < |cs| ==> Decomposes(section, Scan(section, 0)[k])
    ensures forall k :: 0 <= k < |cs| ==> cs[k] == Candidate(section, Scan(section, 0)[k])
  {
    ScanDecomposes(section, 0);
    Candidates(section, Scan(section, 0))
  }

  /** `extractFromSection(section)`. Every record passes the validator: two or more
      words of two or more characters, each a capitalised word, an acronym or an
      initial, a name of at most 50 characters, and a count in bounds or NaN; no two
      records share a name; every accepted candidate's name is kept; and record `k`
      is the candidate at the first accepted position of its name, those positions
      increasing with `k`. By `CollectUnique` no other list meets these clauses. */
  function ExtractFromSection(section: String): (rs: seq<Shareholder>)
    ensures forall k :: 0 <= k < |rs| ==> |rs[k].name| > 0 && IsValidShareholder(rs[k].name, rs[k].shares)
    ensures forall k :: 0 <= k < |rs| ==>
      && |Tokens(rs[k].name)| >= MinWords
      && (forall w :: w in Tokens(rs[k].name) ==> |w| >= MinWordLength && ProperWord(w))
      && |rs[k].name| <= MaxHolderNameLength
      && (rs[k].shares.Whole? ==> MinShares <= rs[k].shares.n <= MaxShares)
    ensures forall i, j :: 0 <= i < j < |rs| ==> rs[i].name != rs[j].name
    ensures forall k :: 0 <= k < |SectionCandidates(section)| && Accepted(SectionCandidates(section)[k]) ==>
      SectionCandidates(section)[k].name in Names(rs)
    ensures InMatchOrder(SectionCandidates(section), Accepted, rs)
  {
    CollectInMatchOrder(SectionCandidates(section), Accepted);
    Collect(SectionCandidates(section), Accepted)
  }

  /** Every record of a section is the first accepted candidate of its name among
      the matches of the scan. */
  lemma ExtractedAreFirstCandidates(section: String)
    ensures forall k :: 0 <= k < |ExtractFromSection(section)| ==>
      FirstNamed(SectionCandidates(section), Accepted, ExtractFromSection(section)[k].name)
        == Some(ExtractFromSection(section)[k])
  {
    CollectKeepsFirst(SectionCandidates(section), Accepted);
  }

  /** The name of a record is a match's words other than header words, so it holds
      no header word. */
  lemma ExtractedHaveNoHeaderWords(section: String)
    ensures forall k :: 0 <= k < |ExtractFromSection(section)| ==>
      forall w :: w in Tokens(ExtractFromSection(section)[k].name) ==> !IsExcluded(w)
  {
    var rs := ExtractFromSection(section);
    var cs := SectionCandidates(section);
    ExtractedAreFirstCandidates(section);
    forall k | 0 <= k < |rs|
      ensures forall w :: w in Tokens(rs[k].name) ==> !IsExcluded(w)
    {
      NamedCandidate(section, rs[k]);
    }
  }

  lemma NamedCandidate(section: String, r: Shareholder)
    requires FirstNamed(SectionCandidates(section), Accepted, r.name) == Some(r)
    ensures forall w :: w in Tokens(r.name) ==> !IsExcluded(w)
    ensures LettersAndSpaces(r.name)
  {
    var cs := SectionCandidates(section);
    var i: nat :| EarliestNamed(cs, Accepted, r.name, i) && r == cs[i];
    CandidateName(section, Scan(section, 0)[i]);
    CandidateLetters(section, Scan(section, 0)[i]);
  }

  /** A candidate's name is letters and single spaces. */
  lemma CandidateLetters(s: String, h: Hit)
    requires Decomposes(s, h)
    ensures LettersAndSpaces(Candidate(s, h).name)
  {
    CandidateName(s, h);
    KeptWordsClean(s, h);
    JoinLetters(KeepNameParts(NameWords(s, h)));
  }

  /** The name of every record is letters and single spaces: no comma, tab or line
      break can reach the exports. */
  lemma ExtractedNamesAreLetters(section: String)
    ensures forall k :: 0 <= k < |ExtractFromSection(section)| ==>
      LettersAndSpaces(ExtractFromSection(section)[k].name)
  {
    var rs := ExtractFromSection(section);
    ExtractedAreFirstCandidates(section);
    forall k | 0 <= k < |rs|
      ensures LettersAndSpaces(rs[k].name)
    {
      NamedCandidate(section, rs[k]);
    }
  }

  /** `extractShareholders(text)`. */
  function ExtractShareholders(text: String): (rs: seq<Shareholder>)
    ensures FindShareholderSection(text).None? ==> rs == []
    ensures FindShareholderSection(text).Some? ==> rs == ExtractFromSection(FindShareholderSection(text).value)
  {
    match FindShareholderSection(text)
    case None => []
    case Some(section) =>
      var extracted := ExtractFromSection(section);
      if |extracted| > 0 then extracted else []
  }
}
