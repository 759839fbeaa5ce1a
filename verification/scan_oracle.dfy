/** The record scanner on the line behind the test "rejects entries with
    insufficient name parts": after "SingleName 10000 shares" the scanner, blind to
    case, takes "shares John Smith 10000 shares" as a match of three words, and the
    header-word filter then leaves "John Smith". */
module ScanOracle {
  import opened Wrappers
  import opened Text
  import opened Numbers
  import opened Seqs
  import opened Matcher
  import opened Validator
  import opened Extractor
  import opened Oracles

  const Shares: String := "shares"
  const John: String := "John"
  const Smith: String := "Smith"
  const Count: String := "10000"

  /** The line, as the pieces it is made of. */
  const Line: String := Shares + " " + John + " " + Smith + " " + Count + " " + Shares

  /** The match the scanner finds at the start of the line. */
  const LineHit: Hit := Hit(Span(0, 6), Span(7, 11), Some(Span(12, 17)), Span(18, 23), Span(24, 30))

  /** A run of a class covers exactly a piece that the class fills and that the
      class does not continue past. */
  lemma RunOverPiece(pre: String, w: String, post: String, inClass: char -> bool)
    requires forall k :: 0 <= k < |w| ==> inClass(w[k])
    requires |post| == 0 || !inClass(post[0])
    ensures RunEnd(pre + w + post, |pre|, inClass) == |pre| + |w|
  {
    var s := pre + w + post;
    forall k | |pre| <= k < |pre| + |w|
      ensures inClass(s[k])
    {
      assert s[k] == w[k - |pre|];
    }
    if |post| > 0 {
      assert s[|pre| + |w|] == post[0];
    }
    RunEndUnique(s, |pre|, |pre| + |w|, inClass);
  }

  lemma FirstWordRun()
    ensures RunEnd(Line, 0, IsLetter) == 6
  {
    assert Line == [] + Shares + (" " + John + " " + Smith + " " + Count + " " + Shares);
    RunOverPiece([], Shares, " " + John + " " + Smith + " " + Count + " " + Shares, IsLetter);
  }

  lemma SecondWordRun()
    ensures RunEnd(Line, 7, IsLetter) == 11
  {
    assert Line == Shares + " " + John + (" " + Smith + " " + Count + " " + Shares);
    RunOverPiece(Shares + " ", John, " " + Smith + " " + Count + " " + Shares, IsLetter);
  }

  lemma ThirdWordRun()
    ensures RunEnd(Line, 12, IsLetter) == 17
  {
    assert Line == Shares + " " + John + " " + Smith + (" " + Count + " " + Shares);
    RunOverPiece(Shares + " " + John + " ", Smith, " " + Count + " " + Shares, IsLetter);
  }

  lemma FirstGapRun()
    ensures RunEnd(Line, 6, IsSpace) == 7
  {
    assert Line == Shares + " " + (John + " " + Smith + " " + Count + " " + Shares);
    RunOverPiece(Shares, " ", John + " " + Smith + " " + Count + " " + Shares, IsSpace);
  }

  lemma SecondGapRun()
    ensures RunEnd(Line, 11, IsSpace) == 12
  {
    assert Line == Shares + " " + John + " " + (Smith + " " + Count + " " + Shares);
    RunOverPiece(Shares + " " + John, " ", Smith + " " + Count + " " + Shares, IsSpace);
  }

  lemma ThirdGapRun()
    ensures RunEnd(Line, 17, IsSpace) == 18
  {
    assert Line == Shares + " " + John + " " + Smith + " " + (Count + " " + Shares);
    RunOverPiece(Shares + " " + John + " " + Smith, " ", Count + " " + Shares, IsSpace);
  }

  lemma PadRun()
    ensures RunEnd(Line, 23, IsSpace) == 24
  {
    assert Line == Shares + " " + John + " " + Smith + " " + Count + " " + Shares;
    RunOverPiece(Shares + " " + John + " " + Smith + " " + Count, " ", Shares, IsSpace);
  }

  lemma NumberRun()
    ensures RunEnd(Line, 18, IsNumberChar) == 23
  {
    assert Line == Shares + " " + John + " " + Smith + " " + Count + (" " + Shares);
    RunOverPiece(Shares + " " + John + " " + Smith + " ", Count, " " + Shares, IsNumberChar);
  }

  lemma LineKeyword()
    ensures OccursAtIgnoringCase(Line, "share", 24)
    ensures LowerChar(Line[29]) == 's'
  {
    var pre := Shares + " " + John + " " + Smith + " " + Count + " ";
    assert Line == pre + Shares;
    var l := Lower(Line);
    forall k | 0 <= k < 5
      ensures l[24..29][k] == "share"[k]
    {
      assert Line[24 + k] == Shares[k];
    }
    assert Line[29] == Shares[5];
  }

  /** The regex matches at the start of the line, taking "shares" as the first
      of three name words. */
  lemma LineMatch()
    ensures MatchAt(Line, 0) == Some(LineHit)
  {
    FirstWordRun();
    FirstGapRun();
    SecondWordRun();
    SecondGapRun();
    ThirdWordRun();
    ThirdGapRun();
    NumberRun();
    PadRun();
    LineKeyword();
    assert Line[12] == Smith[0];
  }

  /** The scan of the line finds that one match. */
  lemma LineScan()
    ensures Scan(Line, 0) == [LineHit]
  {
    LineMatch();
    assert MatchAt(Line, 30).None? by {
      RunEndUnique(Line, 30, 30, IsLetter);
    }
    assert Scan(Line, 30) == [];
  }

  lemma LineWordTexts()
    requires Decomposes(Line, LineHit)
    ensures NameWords(Line, LineHit) == [Shares, John, Smith]
    ensures NumberText(Line, LineHit) == Count
  {
    assert Line == Shares + " " + John + " " + Smith + " " + Count + " " + Shares;
    assert Line[0..6] == Shares;
    assert Line[7..11] == John;
    assert Line[12..17] == Smith;
    assert Line[18..23] == Count;
  }

  /** The header word the scanner took in is dropped from the name. */
  lemma LineKeptWords()
    ensures KeepNameParts([Shares, John, Smith]) == [John, Smith]
  {
    var parts := [Shares, John, Smith];
    assert Lower(Shares) == "shares";
    assert Lower(John) == "john";
    assert Lower(Smith) == "smith";
    assert !Kept(Shares) && Kept(John) && Kept(Smith);
    assert parts[..2][..1][..0] == [];
    assert parts[..2][..1] == [Shares];
    assert parts[..2] == [Shares, John];
    assert Filter([Shares], Kept) == [];
    assert Filter([Shares, John], Kept) == [John];
  }

  lemma CountValue()
    ensures ParseInt(Count) == Whole(10000)
  {
    RunEndUnique(Count, 0, 5, IsDigit);
    assert Count[..5] == Count;
    assert Count[..4] == "1000";
    assert "1000"[..3] == "100";
    assert "100"[..2] == "10";
    assert "10"[..1] == "1";
    assert "1"[..0] == "";
  }

  lemma JoinedName()
    ensures Join([John, Smith], " ") == "John Smith"
  {
    assert Join([John, Smith], " ") == John + " " + Smith;
  }

  lemma CandidateNameIs()
    requires Decomposes(Line, LineHit)
    ensures Candidate(Line, LineHit).name == "John Smith"
  {
    LineWordTexts();
    LineKeptWords();
    CandidateName(Line, LineHit);
    JoinedName();
  }

  lemma CandidateSharesIs()
    requires Decomposes(Line, LineHit)
    ensures Candidate(Line, LineHit).shares == Whole(10000)
  {
    LineWordTexts();
    RemoveKeeps(Count, ',');
    CountValue();
  }

  /** The candidate of the match is John Smith with 10,000 shares. */
  lemma LineCandidate()
    requires Decomposes(Line, LineHit)
    ensures Candidate(Line, LineHit) == Shareholder("John Smith", Whole(10000))
  {
    CandidateNameIs();
    CandidateSharesIs();
  }

  lemma JohnSmithAccepted()
    ensures Accepted(Shareholder("John Smith", Whole(10000)))
  {
    assert "John Smith" == "John" + " " + "Smith";
    TwoWordTokens("John", "Smith");
    ProperPair("John", "Smith");
  }

  /** What the engine extracts from the line: John Smith alone, with the header word
      dropped and the count read whole. */
  lemma ExtractedFromLine()
    ensures ExtractFromSection(Line) == [Shareholder("John Smith", Whole(10000))]
  {
    var c := Shareholder("John Smith", Whole(10000));
    LineScan();
    LineMatch();
    LineCandidate();
    assert SectionCandidates(Line) == [c];
    JohnSmithAccepted();
    CollectSingle(c, Accepted);
  }
}
