/** Share counts as the engine reads and prints them: `parseInt(s, 10)` on the
    digits of a matched number, the decimal digits of an integer, and the
    thousands grouping of `toLocaleString`, fixed here to a comma before every
    group of three digits. */
module Numbers {
  import opened Text

  /** A JavaScript number as the engine can hold it in a share count: a whole
      non-negative count, or the NaN that `parseInt` returns when it finds no digit. */
  datatype Count = Whole(n: nat) | NaN

  predicate AllDigits(s: String) {
    forall k :: 0 <= k < |s| ==> IsDigit(s[k])
  }

  function DigitChar(d: nat): (c: char)
    requires d < 10
    ensures IsDigit(c)
  {
    ('0' as int + d) as char
  }

  function DigitValue(c: char): (d: nat)
    requires IsDigit(c)
    ensures d < 10
  {
    c as int - '0' as int
  }

  /** The value of a string of decimal digits, most significant first. */
  function Value(s: String): nat
    requires AllDigits(s)
  {
    if |s| == 0 then 0 else Value(s[..|s| - 1]) * 10 + DigitValue(s[|s| - 1])
  }

  /** `parseInt(s, 10)` for a string that starts with neither white space nor a
      sign: the value of its longest prefix of digits, NaN when there is none. */
  function ParseInt(s: String): (r: Count)
    ensures r.NaN? <==> |s| == 0 || !IsDigit(s[0])
  {
    var e := RunEnd(s, 0, IsDigit);
    if e == 0 then NaN else Whole(Value(s[..e]))
  }

  /** The decimal digits of `n` as `String(n)` prints them: most significant first,
      no leading zero. */
  function Digits(n: nat): (r: String)
    ensures |r| >= 1 && AllDigits(r)
    ensures |r| > 1 ==> r[0] != '0'
    ensures n < 100 ==> |r| <= 2
    ensures n < 1000 ==> |r| <= 3
  {
    if n < 10 then [DigitChar(n)] else Digits(n / 10) + [DigitChar(n % 10)]
  }

  /** Reading the digits of `n` back gives `n`. */
  lemma {:induction false} ValueOfDigits(n: nat)
    ensures Value(Digits(n)) == n
  {
    var d := Digits(n);
    if n >= 10 {
      ValueOfDigits(n / 10);
      assert d[..|d| - 1] == Digits(n / 10);
    }
  }

  /** `parseInt(String(n), 10) == n`. */
  lemma ParseIntOfDigits(n: nat)
    ensures ParseInt(Digits(n)) == Whole(n)
  {
    var d := Digits(n);
    RunEndUnique(d, 0, |d|, IsDigit);
    assert d[..|d|] == d;
    ValueOfDigits(n);
  }

  /** The three digits of `r < 1000`, zero-padded on the left. */
  function Pad3(r: nat): (g: String)
    requires r < 1000
    ensures |g| == 3 && AllDigits(g)
  {
    [DigitChar(r / 100), DigitChar(r / 10 % 10), DigitChar(r % 10)]
  }

  /** The digit groups `toLocaleString` separates with commas: a leading group of
      one to three digits, then groups of exactly three. */
  function Groups(n: nat): (gs: seq<String>)
    ensures |gs| >= 1
    ensures 1 <= |gs[0]| <= 3 && AllDigits(gs[0])
    ensures |gs[0]| > 1 ==> gs[0][0] != '0'
    ensures forall k :: 1 <= k < |gs| ==> |gs[k]| == 3 && AllDigits(gs[k])
  {
    if n < 1000 then [Digits(n)] else Groups(n / 1000) + [Pad3(n % 1000)]
  }

  /** `n.toLocaleString()` with a comma as the thousands separator. */
  function Group(n: nat): String {
    Join(Groups(n), ",")
  }

  lemma {:induction false} DigitsSplit(n: nat)
    requires n >= 1000
    ensures Digits(n) == Digits(n / 1000) + Pad3(n % 1000)
  {
    var q := n / 1000;
    var r := n % 1000;
    assert n / 10 == q * 100 + r / 10;
    assert n / 10 / 10 == q * 10 + r / 100;
    assert n / 10 / 10 / 10 == q;
    assert n % 10 == r % 10;
    assert n / 10 % 10 == r / 10 % 10;
    assert n / 10 / 10 % 10 == r / 100;
    calc {
      Digits(n);
      Digits(n / 10) + [DigitChar(n % 10)];
      Digits(n / 10 / 10) + [DigitChar(n / 10 % 10)] + [DigitChar(n % 10)];
      Digits(n / 10 / 10 / 10) + [DigitChar(n / 10 / 10 % 10)] + [DigitChar(n / 10 % 10)] + [DigitChar(n % 10)];
      Digits(q) + Pad3(r);
    }
  }

  lemma {:induction false} JoinAppend(parts: seq<String>, last: String, sep: String)
    requires |parts| >= 1
    ensures Join(parts + [last], sep) == Join(parts, sep) + sep + last
  {
    if |parts| > 1 {
      assert (parts + [last])[1..] == parts[1..] + [last];
      JoinAppend(parts[1..], last, sep);
    }
  }

  /** Deleting the commas of the grouped form gives the plain digits back. */
  lemma {:induction false} UngroupIsDigits(n: nat)
    ensures Remove(Group(n), ',') == Digits(n)
  {
    if n >= 1000 {
      var gs := Groups(n / 1000);
      var last := Pad3(n % 1000);
      var j := Join(gs, ",");
      assert Group(n) == j + "," + last by {
        assert Groups(n) == gs + [last];
        JoinAppend(gs, last, ",");
      }
      calc {
        Remove(Group(n), ',');
        { RemoveAppend(j + ",", last, ','); }
        Remove(j + ",", ',') + Remove(last, ',');
        { RemoveAppend(j, ",", ','); RemoveKeeps(last, ','); }
        Remove(j, ',') + Remove(",", ',') + last;
        { assert Remove(",", ',') == []; UngroupIsDigits(n / 1000); }
        Digits(n / 1000) + last;
        { DigitsSplit(n); }
        Digits(n);
      }
    } else {
      assert ',' !in Digits(n) by {
        var d := Digits(n);
        assert forall k :: 0 <= k < |d| ==> IsDigit(d[k]);
      }
      RemoveKeeps(Digits(n), ',');
    }
  }

  /** `parseInt(n.toLocaleString().replace(/,/g, ''), 10) == n`. */
  lemma UngroupRoundTrip(n: nat)
    ensures ParseInt(Remove(Group(n), ',')) == Whole(n)
  {
    UngroupIsDigits(n);
    ParseIntOfDigits(n);
  }

  /** Splitting the grouped form at its commas gives its groups. */
  lemma GroupSplit(n: nat)
    ensures Split(Group(n), ',') == Groups(n)
  {
    SplitJoin(Groups(n), ',');
  }
}
