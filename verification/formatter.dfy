/** The display formatter of the heuristic parser (`formatShareholderData`): each
    record's shares grouped by thousands and its share of the total. */
module Formatter {
  import opened Wrappers
  import opened Text
  import opened Numbers
  import opened Extractor

  /** A share of the total, kept as the exact ratio `part / total`; `NotApplicable`
      is the `'N/A'` shown when the total is not positive. */
  datatype Percentage = NotApplicable | Ratio(part: nat, total: nat)

  datatype FormattedRecord = FormattedRecord(name: String, shares: String, percentage: Percentage)

  /** JavaScript `+` on two counts: NaN absorbs. */
  function Add(a: Count, b: Count): (r: Count)
    ensures r.NaN? <==> a.NaN? || b.NaN?
    ensures r.Whole? ==> r.n == a.n + b.n
  {
    match (a, b)
    case (Whole(x), Whole(y)) => Whole(x + y)
    case _ => NaN
  }

  /** `shareholders.reduce((sum, s) => sum + s.shares, 0)`. */
  function TotalShares(records: seq<Shareholder>): (t: Count)
    ensures t.NaN? <==> exists k :: 0 <= k < |records| && records[k].shares.NaN?
  {
    if |records| == 0 then Whole(0)
    else Add(TotalShares(records[..|records| - 1]), records[|records| - 1].shares)
  }

  /** The total of two lists of records one after the other is the sum of their totals. */
  lemma {:induction false} TotalSharesAppend(a: seq<Shareholder>, b: seq<Shareholder>)
    ensures TotalShares(a + b) == Add(TotalShares(a), TotalShares(b))
    decreases |b|
  {
    if |b| == 0 {
      assert a + b == a;
    } else {
      var b' := b[..|b| - 1];
      assert (a + b)[..|a + b| - 1] == a + b';
      TotalSharesAppend(a, b');
    }
  }

  /** `shares.toLocaleString()`: grouped digits, or `"NaN"`. */
  function FormatShares(c: Count): (s: String)
    ensures c.Whole? ==> ParseInt(Remove(s, ',')) == c
    ensures c.Whole? ==> Split(s, ',') == Groups(c.n)
  {
    match c
    case Whole(n) =>
      UngroupRoundTrip(n);
      GroupSplit(n);
      Group(n)
    case NaN => "NaN"
  }

  /** The percentage column: the ratio to the total when the total is a positive
      number (`totalShares > 0` is false for NaN), else `'N/A'`. */
  function PercentageOf(shares: Count, total: Count): (p: Percentage)
    ensures p.NotApplicable? <==> !(total.Whole? && total.n > 0) || shares.NaN?
    ensures p.Ratio? ==> p == Ratio(shares.n, total.n) && p.total > 0
  {
    if total.Whole? && total.n > 0 && shares.Whole? then Ratio(shares.n, total.n) else NotApplicable
  }

  /** `formatShareholderData(shareholders)`: one display record per record, in order,
      names unchanged. */
  function FormatShareholderData(records: seq<Shareholder>): (out: seq<FormattedRecord>)
    ensures |out| == |records|
    ensures forall k :: 0 <= k < |out| ==> out[k].name == records[k].name
    ensures forall k :: 0 <= k < |out| ==> out[k].shares == FormatShares(records[k].shares)
    ensures forall k :: 0 <= k < |out| ==>
      (out[k].percentage.NotApplicable? <==> !(TotalShares(records).Whole? && TotalShares(records).n > 0))
    ensures forall k :: 0 <= k < |out| && out[k].percentage.Ratio? ==>
      && records[k].shares.Whole? && TotalShares(records).Whole?
      && out[k].percentage == Ratio(records[k].shares.n, TotalShares(records).n)
  {
    var total := TotalShares(records);
    seq(|records|, k requires 0 <= k < |records| =>
      FormattedRecord(records[k].name, FormatShares(records[k].shares), PercentageOf(records[k].shares, total)))
  }

  /** The numerator of a ratio; nothing for `'N/A'`. */
  function PartOf(p: Percentage): nat {
    match p
    case Ratio(part, _) => part
    case NotApplicable => 0
  }

  /** The sum of the numerators of the ratios of a formatted list. */
  function SumParts(out: seq<FormattedRecord>): nat {
    if |out| == 0 then 0 else SumParts(out[..|out| - 1]) + PartOf(out[|out| - 1].percentage)
  }

  /** The percentages of a list with a positive total add up to the whole: their
      numerators sum to the total. */
  lemma SharesAddUp(records: seq<Shareholder>)
    requires TotalShares(records).Whole? && TotalShares(records).n > 0
    ensures SumParts(FormatShareholderData(records)) == TotalShares(records).n
  {
    var out := FormatShareholderData(records);
    forall k | 0 <= k < |records|
      ensures records[k].shares.Whole? && PartOf(out[k].percentage) == records[k].shares.n
    {
      PartAt(records, k);
    }
    SumPartsPrefix(records, out, |records|);
    assert records[..|records|] == records;
    assert out[..|records|] == out;
  }

  /** With a positive total, each record's numerator is its own count. */
  lemma PartAt(records: seq<Shareholder>, k: nat)
    requires k < |records|
    requires TotalShares(records).Whole? && TotalShares(records).n > 0
    ensures records[k].shares.Whole?
    ensures PartOf(FormatShareholderData(records)[k].percentage) == records[k].shares.n
  {
    assert records[k].shares.Whole?;
  }

  lemma SumPartsStep(out: seq<FormattedRecord>, m: nat)
    requires 0 < m <= |out|
    ensures SumParts(out[..m]) == SumParts(out[..m - 1]) + PartOf(out[m - 1].percentage)
  {
    assert out[..m][..m - 1] == out[..m - 1];
  }

  lemma TotalSharesStep(records: seq<Shareholder>, m: nat)
    requires 0 < m <= |records|
    ensures TotalShares(records[..m]) == Add(TotalShares(records[..m - 1]), records[m - 1].shares)
  {
    assert records[..m][..m - 1] == records[..m - 1];
  }

  /** Numerators that are the counts of whole records add up, prefix by prefix, to
      the total of the records. */
  lemma {:induction false} SumPartsPrefix(records: seq<Shareholder>, out: seq<FormattedRecord>, m: nat)
    requires m <= |records| == |out|
    requires forall k :: 0 <= k < |records| ==> records[k].shares.Whole? && PartOf(out[k].percentage) == records[k].shares.n
    ensures TotalShares(records[..m]).Whole?
    ensures SumParts(out[..m]) == TotalShares(records[..m]).n
  {
    if m > 0 {
      SumPartsPrefix(records, out, m - 1);
      SumPartsStep(out, m);
      TotalSharesStep(records, m);
    }
  }

  /** Two digits, zero-padded on the left. */
  function Pad2(r: nat): (g: String)
    requires r < 100
    ensures |g| == 2 && AllDigits(g)
  {
    [DigitChar(r / 10), DigitChar(r % 10)]
  }

  /** The text of a percentage: `'N/A'`, or `(part / total * 100).toFixed(2) + '%'`
      when the ratio is a whole number of hundredths of a percent, where no
      floating-point rounding is involved; `None` for the other ratios. */
  function PercentText(p: Percentage): (t: Option<String>)
    ensures p.NotApplicable? ==> t == Some("N/A")
    ensures p.Ratio? && p.total > 0 && (p.part * 10000) % p.total == 0 ==>
      t.Some? && |t.value| >= 5 && t.value[|t.value| - 1] == '%' && t.value[|t.value| - 4] == '.'
  {
    match p
    case NotApplicable => Some("N/A")
    case Ratio(part, total) =>
      if total > 0 && (part * 10000) % total == 0 then
        var h := part * 10000 / total;
        Some(Digits(h / 100) + "." + Pad2(h % 100) + "%")
      else None
  }

  /** The whole part of a percentage text: everything before the point. */
  function WholePart(t: String): String
    requires |t| >= 4
  {
    t[..|t| - 4]
  }

  /** The two decimals of a percentage text: the characters between the point and `%`. */
  function Decimals(t: String): String
    requires |t| >= 4
  {
    t[|t| - 3..|t| - 1]
  }

  /** How a reader takes a text of the form `<digits>.<two digits>%`: the number of
      hundredths of a percent it shows; `None` for any other text. */
  function ReadHundredths(t: String): Option<nat> {
    if |t| >= 5 && t[|t| - 1] == '%' && t[|t| - 4] == '.'
      && AllDigits(WholePart(t)) && AllDigits(Decimals(t))
    then Some(Value(WholePart(t)) * 100 + Value(Decimals(t)))
    else None
  }

  lemma Pad2Value(r: nat)
    requires r < 100
    ensures Value(Pad2(r)) == r
  {
    var g := Pad2(r);
    assert g[..1][..0] == [];
    assert g[..1] == [DigitChar(r / 10)];
    assert DigitValue(g[0]) == r / 10 && DigitValue(g[1]) == r % 10;
    assert Value(g[..1]) == r / 10;
    assert Value(g) == Value(g[..1]) * 10 + DigitValue(g[1]);
  }

  /** A percentage rendered exactly reads back as the ratio in hundredths of a
      percent, and its whole part is written without a leading zero, as
      `toFixed` writes it. */
  lemma PercentTextRead(p: Percentage)
    requires p.Ratio? && p.total > 0 && (p.part * 10000) % p.total == 0
    ensures ReadHundredths(PercentText(p).value) == Some(p.part * 10000 / p.total)
    ensures var w := WholePart(PercentText(p).value);
      |w| >= 1 && (|w| > 1 ==> w[0] != '0')
  {
    var h := p.part * 10000 / p.total;
    var w := Digits(h / 100);
    var f := Pad2(h % 100);
    var t := w + "." + f + "%";
    assert PercentText(p) == Some(t);
    assert WholePart(t) == w;
    assert Decimals(t) == f;
    ValueOfDigits(h / 100);
    Pad2Value(h % 100);
  }
}
