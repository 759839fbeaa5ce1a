/** Concrete cases from the heuristic parser's test suite, stated on the model. */
module Oracles {
  import opened Wrappers
  import opened Text
  import opened Numbers
  import opened Validator
  import opened Company
  import opened Extractor
  import opened Formatter
  import opened Seqs

  lemma DigitsOf450()
    ensures Digits(450) == "450"
  {
    assert Digits(4) == ['4'];
    assert Digits(45) == ['4', '5'];
  }

  lemma GroupOf450000()
    ensures Group(450000) == "450,000"
  {
    DigitsOf450();
    assert Pad3(0) == "000";
    assert Groups(450000) == ["450", "000"];
  }

  /** 450000 is shown as "450,000". */
  lemma GroupedOracle()
    ensures FormatShares(Whole(450000)) == "450,000"
  {
    GroupOf450000();
  }

  lemma TotalOfOne(x: Shareholder)
    ensures TotalShares([x]) == Add(Whole(0), x.shares)
  {
    assert [x][..0] == [];
  }

  lemma TotalOfTwo(x: Shareholder, y: Shareholder)
    ensures TotalShares([x, y]) == Add(Add(Whole(0), x.shares), y.shares)
  {
    assert [x, y][..1] == [x];
    TotalOfOne(x);
  }

  lemma HundredPercent()
    ensures PercentText(Ratio(100000, 100000)) == Some("100.00%")
  {
    assert Digits(1) == ['1'];
    assert Digits(10) == ['1', '0'];
    assert Digits(100) == ['1', '0', '0'];
    assert Pad2(0) == ['0', '0'];
    assert PercentText(Ratio(100000, 100000)) == Some(Digits(100) + "." + Pad2(0) + "%");
    assert Digits(100) + "." + Pad2(0) + "%" == "100.00%";
  }

  lemma ThreeQuarterPercent()
    ensures PercentText(Ratio(75000, 100000)) == Some("75.00%")
  {
    assert Digits(7) == ['7'];
    assert Digits(75) == ['7', '5'];
    assert Pad2(0) == ['0', '0'];
    assert PercentText(Ratio(75000, 100000)) == Some(Digits(75) + "." + Pad2(0) + "%");
    assert Digits(75) + "." + Pad2(0) + "%" == "75.00%";
  }

  lemma QuarterPercent()
    ensures PercentText(Ratio(25000, 100000)) == Some("25.00%")
  {
    assert Digits(2) == ['2'];
    assert Digits(25) == ['2', '5'];
    assert Pad2(0) == ['0', '0'];
    assert PercentText(Ratio(25000, 100000)) == Some(Digits(25) + "." + Pad2(0) + "%");
    assert Digits(25) + "." + Pad2(0) + "%" == "25.00%";
  }

  /** A sole holder owns 100.00%. */
  lemma SoleOwnerOracle()
    ensures var out := FormatShareholderData([Shareholder("Sole Owner", Whole(100000))]);
      PercentText(out[0].percentage) == Some("100.00%")
  {
    TotalOfOne(Shareholder("Sole Owner", Whole(100000)));
    HundredPercent();
  }

  /** Holdings of 75000 and 25000 are 75.00% and 25.00%. */
  lemma SplitOwnersOracle()
    ensures var out := FormatShareholderData([Shareholder("Majority Owner", Whole(75000)), Shareholder("Minority Owner", Whole(25000))]);
      && PercentText(out[0].percentage) == Some("75.00%")
      && PercentText(out[1].percentage) == Some("25.00%")
  {
    TotalOfTwo(Shareholder("Majority Owner", Whole(75000)), Shareholder("Minority Owner", Whole(25000)));
    ThreeQuarterPercent();
    QuarterPercent();
  }

  /** Two words parted by one space are its tokens. */
  lemma TwoWordTokens(a: String, b: String)
    requires |a| > 0 && NoSpace(a) && |b| > 0 && NoSpace(b)
    ensures Tokens(a + " " + b) == [a, b]
  {
    assert Join([a, b], " ") == a + " " + Join([b], " ");
    TokensJoin([a, b]);
  }

  /** Five shares are too few. */
  lemma JohnDoe()
    ensures !IsValidShareholder("John Doe", Whole(5))
  {
  }

  /** Two capitalised words and a thousand shares make a holder. */
  lemma JaneSmith()
    ensures IsValidShareholder("Jane Smith", Whole(1000))
  {
    assert "Jane Smith" == "Jane" + " " + "Smith";
    TwoWordTokens("Jane", "Smith");
    ProperPair("Jane", "Smith");
  }

  lemma ProperPair(a: String, b: String)
    requires Capitalized(a) && Capitalized(b)
    ensures var words := [a, b];
      && !SomeTooShort(words) && EveryProper(words)
  {
    assert ProperWord([a, b][0]) && ProperWord([a, b][1]);
  }

  /** One word is not a name. */
  lemma SingleName()
    ensures !IsValidShareholder("SingleName", Whole(10000))
  {
    SplitWsOfNoSpace("SingleName");
    FilterAll(["SingleName"], IsToken);
  }

  /** A count `parseInt` could not read passes both range checks. */
  lemma UnreadCount()
    ensures IsValidShareholder("John Smith", NaN)
  {
    assert "John Smith" == "John" + " " + "Smith";
    TwoWordTokens("John", "Smith");
    ProperPair("John", "Smith");
  }

  /** The header word in front of a name is dropped. */
  lemma HeaderWordOracle()
    ensures KeepNameParts(["Schedule", "Iryna", "Krutenko"]) == ["Iryna", "Krutenko"]
  {
    var parts := ["Schedule", "Iryna", "Krutenko"];
    assert Lower("Schedule") == "schedule";
    assert Lower("Iryna") == "iryna";
    assert Lower("Krutenko") == "krutenko";
    assert !Kept("Schedule") && Kept("Iryna") && Kept("Krutenko");
    assert parts[..2][..1][..0] == [];
    assert parts[..2][..1] == ["Schedule"];
    assert parts[..2] == ["Schedule", "Iryna"];
    assert Filter(["Schedule"], Kept) == [];
    assert Filter(["Schedule", "Iryna"], Kept) == ["Iryna"];
    assert Filter(parts, Kept) == ["Iryna", "Krutenko"];
  }

  /** The opening of the consent in the test suite. */
  const LexsyText: String := LexsyHead + LexsyBody + "..."

  const LexsyHead: String := "LEXSY, INC. "

  const LexsyBody: String := "ACTION" + " BY UNANIMOUS WRITTEN CONSENT"

  /** No keyword starts where the lowered text has neither an `a`, `b` nor `c`,
      or where the letter after it is neither `c` nor `o`. */
  lemma NoKeywordAt(s: String, i: nat)
    requires i + 1 < |s|
    requires LowerChar(s[i]) !in "abc" || LowerChar(s[i + 1]) !in "co"
    ensures !KeywordAt(s, i)
  {
    var l := Lower(s);
    assert l[i] == LowerChar(s[i]) && l[i + 1] == LowerChar(s[i + 1]);
  }

  lemma LexsyHeadChars()
    ensures forall k :: 0 <= k < 12 ==> LexsyText[k] == LexsyHead[k]
    ensures LexsyText[12..18] == "ACTION"
  {
    var s := LexsyText;
    assert s == LexsyHead + ("ACTION" + (" BY UNANIMOUS WRITTEN CONSENT" + "..."));
    assert s[12..18] == (LexsyHead + "ACTION")[12..18];
  }

  /** No keyword starts in the twelve characters before "ACTION". */
  lemma LexsyHeadHasNoKeyword()
    ensures forall j: nat :: j < 12 ==> !KeywordAt(LexsyText, j)
  {
    var s := LexsyText;
    LexsyHeadChars();
    forall j: nat | j < 12
      ensures LowerChar(s[j]) !in "abc" || LowerChar(s[j + 1]) !in "co"
    {
      if j == 0 {
        assert s[0] == LexsyHead[0];
      } else if j == 1 {
        assert s[1] == LexsyHead[1];
      } else if j == 2 {
        assert s[2] == LexsyHead[2];
      } else if j == 3 {
        assert s[3] == LexsyHead[3];
      } else if j == 4 {
        assert s[4] == LexsyHead[4];
      } else if j == 5 {
        assert s[5] == LexsyHead[5];
      } else if j == 6 {
        assert s[6] == LexsyHead[6];
      } else if j == 7 {
        assert s[7] == LexsyHead[7];
      } else if j == 8 {
        assert s[8] == LexsyHead[8];
      } else if j == 9 {
        assert s[9] == LexsyHead[9];
      } else if j == 10 {
        assert s[10] == LexsyHead[10];
      } else {
        assert s[11] == ' ';
      }
    }
    forall j: nat | j < 12
      ensures !KeywordAt(s, j)
    {
      NoKeywordAt(s, j);
    }
  }

  /** The first keyword is the one with no keyword before it. */
  lemma {:induction false} FirstKeywordAt(s: String, i: nat, r: nat)
    requires i <= r < |s|
    requires forall j: nat :: i <= j < r ==> !KeywordAt(s, j)
    requires KeywordAt(s, r)
    ensures FirstKeyword(s, i) == r
    decreases r - i
  {
    if i < r {
      FirstKeywordAt(s, i + 1, r);
    }
  }

  lemma LexsyAction()
    ensures KeywordAt(LexsyText, 12)
  {
    var s := LexsyText;
    LexsyHeadChars();
    var l := Lower(s);
    assert s[12] == 'A' && s[13] == 'C' && s[14] == 'T' && s[15] == 'I' && s[16] == 'O' && s[17] == 'N';
    assert l[12] == 'a' && l[13] == 'c' && l[14] == 't' && l[15] == 'i' && l[16] == 'o' && l[17] == 'n';
    assert l[12..18] == "action";
  }

  lemma LexsyKeyword()
    ensures FirstKeyword(LexsyText, 0) == 12
  {
    LexsyHeadHasNoKeyword();
    LexsyAction();
    FirstKeywordAt(LexsyText, 0, 12);
  }

  lemma LexsyCandidate()
    ensures HeaderCandidate(LexsyText) == "LEXSY, INC."
  {
    var s := LexsyText;
    assert s[..|s|] == s;
    assert s[0] == LexsyHead[0] == 'L';
    assert s[49] == "..."[2] == '.';
    TrimOfTrimmed(s);
    LexsyKeyword();
    var b := s[..12];
    assert BeforeKeyword(s) == b;
    assert b == LexsyHead;
    assert TrimStart(b) == 0;
    assert TrimEndFrom(b, 0, 12) == 11;
    assert b[..11] == "LEXSY, INC.";
  }

  lemma LexsyComma()
    ensures CommaBeforeSuffix("LEXSY, INC.", 5)
  {
    var c := "LEXSY, INC.";
    RunEndUnique(c, 6, 7, IsSpace);
    var l := Lower(c);
    assert l[7] == 'i' && l[8] == 'n' && l[9] == 'c' && l[10] == '.';
    assert l[7..11] == "inc.";
    assert SuffixAt(c, 7);
  }

  lemma LexsyNoEarlierComma()
    ensures forall q: nat :: q < 5 ==> !CommaBeforeSuffix("LEXSY, INC.", q)
  {
    var c := "LEXSY, INC.";
    forall q: nat | q < 5
      ensures !CommaBeforeSuffix(c, q)
    {
      assert c[q] != ',';
    }
  }

  lemma LexsyReplaced()
    ensures NormalizeComma("LEXSY, INC.") == "LEXSY INC."
  {
    var c := "LEXSY, INC.";
    LexsyComma();
    LexsyNoEarlierComma();
    RunEndUnique(c, 6, 7, IsSpace);
    NormalizeCommaFirst(c, 5);
    assert c[..5] + " " + c[7..] == "LEXSY INC.";
  }

  lemma LexsyNormalized()
    ensures Normalized("LEXSY, INC.") == "LEXSY INC."
  {
    LexsyReplaced();
    TrimOfTrimmed("LEXSY INC.");
  }

  /** "LEXSY, INC. ACTION BY ..." names the company "LEXSY INC.". */
  lemma CompanyOracle()
    ensures ExtractCompanyName(LexsyText) == Some("LEXSY INC.")
  {
    LexsyCandidate();
    LexsyComma();
    LexsyNormalized();
  }

  /** The header strategy bounds the length of its candidate before the comma is
      replaced, so it can return a name of five characters, which the first-line
      strategy would refuse. */
  lemma ShortHeaderName()
    ensures ExtractCompanyName("A,   LLC ACTION") == Some("A LLC")
  {
    ShortHeaderCandidate();
    ShortHeaderComma();
    ShortHeaderNormalized();
  }

  lemma ShortHeaderKeyword()
    ensures FirstKeyword("A,   LLC ACTION", 0) == 9
  {
    var s := "A,   LLC ACTION";
    forall j: nat | j < 9
      ensures LowerChar(s[j]) !in "abc" || LowerChar(s[j + 1]) !in "co"
    {
    }
    forall j: nat | j < 9
      ensures !KeywordAt(s, j)
    {
      NoKeywordAt(s, j);
    }
    var l := Lower(s);
    assert l[9] == 'a' && l[10] == 'c' && l[11] == 't' && l[12] == 'i' && l[13] == 'o' && l[14] == 'n';
    assert l[9..15] == "action";
    FirstKeywordAt(s, 0, 9);
  }

  lemma ShortHeaderCandidate()
    ensures HeaderCandidate("A,   LLC ACTION") == "A,   LLC"
  {
    var s := "A,   LLC ACTION";
    assert s[..|s|] == s;
    assert s[0] == 'A' && s[14] == 'N';
    TrimOfTrimmed(s);
    ShortHeaderKeyword();
    var b := s[..9];
    assert BeforeKeyword(s) == b;
    assert b == "A,   LLC ";
    assert TrimStart(b) == 0;
    assert TrimEndFrom(b, 0, 9) == 8;
    assert b[..8] == "A,   LLC";
  }

  lemma ShortHeaderComma()
    ensures CommaBeforeSuffix("A,   LLC", 1)
  {
    var c := "A,   LLC";
    RunEndUnique(c, 2, 5, IsSpace);
    var l := Lower(c);
    assert l[5] == 'l' && l[6] == 'l' && l[7] == 'c';
    assert l[5..8] == "llc";
    assert SuffixAt(c, 5);
  }

  lemma ShortHeaderNormalized()
    ensures Normalized("A,   LLC") == "A LLC"
  {
    var c := "A,   LLC";
    ShortHeaderComma();
    RunEndUnique(c, 2, 5, IsSpace);
    assert !CommaBeforeSuffix(c, 0);
    NormalizeCommaFirst(c, 1);
    assert c[..1] + " " + c[5..] == "A LLC";
    TrimOfTrimmed("A LLC");
  }
}
