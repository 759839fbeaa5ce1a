/** The results panel (`ExtractionResults`): the list it shows, the total in its
    footer, the sort state its column headers toggle, and what its exports give
    back when read. The ordering of the rows by the sort state is not modelled. */
module Results {
  import opened Wrappers
  import opened Text
  import opened Numbers
  import opened Seqs
  import opened Section
  import opened Extractor
  import opened Formatter
  import opened Export
  import opened Parser
  import opened Company

  /** The rows the panel formats: nothing when the list is missing or empty,
      otherwise the formatted list, before it is ordered. */
  function DisplayList(shareholders: Option<seq<Shareholder>>): (out: seq<FormattedRecord>)
    ensures |out| == 0 <==> shareholders.None? || |shareholders.value| == 0
    ensures shareholders.Some? ==> |out| == |shareholders.value|
    ensures shareholders.Some? ==> forall k :: 0 <= k < |out| ==>
      && out[k].name == shareholders.value[k].name
      && out[k].shares == FormatShares(shareholders.value[k].shares)
  {
    match shareholders
    case None => []
    case Some(rs) => if |rs| == 0 then [] else FormatShareholderData(rs)
  }

  /** `totalShares.toLocaleString()` in the footer, where `totalShares` adds up the
      unformatted counts: it reads back as the total, and it is `"NaN"` as soon as
      one count is NaN. */
  function FooterText(shareholders: seq<Shareholder>): (text: String)
    ensures TotalShares(shareholders).Whole? ==> ParseInt(Remove(text, ',')) == TotalShares(shareholders)
    ensures (exists k :: 0 <= k < |shareholders| && shareholders[k].shares.NaN?) ==> text == "NaN"
  {
    FormatShares(TotalShares(shareholders))
  }

  /** A list that is not empty is shown formatted, in its own order. */
  lemma DisplayOfList(shareholders: seq<Shareholder>)
    requires |shareholders| > 0
    ensures DisplayList(Some(shareholders)) == FormatShareholderData(shareholders)
  {
  }

  /** The footer shows the denominator of every percentage of the table, and the
      numerators add up to it. */
  lemma FooterIsDenominator(shareholders: seq<Shareholder>)
    requires TotalShares(shareholders).Whole? && TotalShares(shareholders).n > 0
    ensures forall k :: 0 <= k < |FormatShareholderData(shareholders)| ==>
      && FormatShareholderData(shareholders)[k].percentage.Ratio?
      && ParseInt(Remove(FooterText(shareholders), ',')) == Whole(FormatShareholderData(shareholders)[k].percentage.total)
    ensures SumParts(FormatShareholderData(shareholders)) == ParseInt(Remove(FooterText(shareholders), ',')).n
  {
    var total := TotalShares(shareholders);
    var out := FormatShareholderData(shareholders);
    forall k | 0 <= k < |out|
      ensures out[k].percentage.Ratio? && out[k].percentage.total == total.n
    {
      assert shareholders[k].shares.Whole?;
    }
    SharesAddUp(shareholders);
  }

  /** Moving one record to the end of a list keeps the total. */
  lemma TotalSharesMove(p: seq<Shareholder>, x: Shareholder, q: seq<Shareholder>)
    ensures TotalShares(p + [x] + q) == Add(TotalShares(p + q), x.shares)
  {
    TotalSharesAppend(p + [x], q);
    TotalSharesAppend(p, [x]);
    TotalSharesAppend(p, q);
    assert TotalShares([x]) == x.shares by {
      assert [x][..0] == [];
    }
  }

  /** The total does not depend on the order of the records: the table may show
      them in any order and the footer stays the same. */
  lemma {:induction false} TotalSharesPermutation(a: seq<Shareholder>, b: seq<Shareholder>)
    requires multiset(a) == multiset(b)
    ensures TotalShares(a) == TotalShares(b)
    decreases |a|
  {
    if |a| == 0 {
      assert |b| == |multiset(b)| == 0;
    } else {
      var a' := a[..|a| - 1];
      var x := a[|a| - 1];
      assert a == a' + [x];
      var i := RemoveOne(a', x, b);
      var p := b[..i];
      var q := b[i + 1..];
      TotalSharesPermutation(a', p + q);
      TotalSharesMove(p, x, q);
    }
  }

  /** The column a click on a header selects. */
  datatype SortField = ByName | ByShares

  datatype Direction = Ascending | Descending

  datatype SortState = SortState(field: SortField, direction: Direction)

  /** The panel opens sorted by name, ascending. */
  const InitialSort: SortState := SortState(ByName, Ascending)

  function Flip(d: Direction): (r: Direction)
    ensures r != d
  {
    match d
    case Ascending => Descending
    case Descending => Ascending
  }

  /** `handleSort(field)`: a click on the column already sorted by reverses the
      direction; a click on the other column sorts by it, ascending. */
  function HandleSort(st: SortState, field: SortField): (r: SortState)
    ensures r.field == field
    ensures field == st.field ==> r.direction != st.direction
    ensures field != st.field ==> r.direction == Ascending
  {
    if st.field == field then SortState(field, Flip(st.direction))
    else SortState(field, Ascending)
  }

  /** Two clicks on the same column give the state back when it was already
      sorted by that column. */
  lemma HandleSortTwice(st: SortState)
    ensures HandleSort(HandleSort(st, st.field), st.field) == st
  {
  }

  /** The state after a series of header clicks, from the opening state. */
  function Replay(clicks: seq<SortField>): SortState {
    if |clicks| == 0 then InitialSort
    else HandleSort(Replay(clicks[..|clicks| - 1]), clicks[|clicks| - 1])
  }

  /** How many of the last clicks were on the column clicked last. */
  function TrailingRun(clicks: seq<SortField>): (r: nat)
    ensures r <= |clicks|
    ensures |clicks| > 0 ==> r >= 1
  {
    if |clicks| <= 1 then |clicks|
    else if clicks[|clicks| - 2] == clicks[|clicks| - 1] then TrailingRun(clicks[..|clicks| - 1]) + 1
    else 1
  }

  /** The state a series of clicks leaves, counted rather than replayed: the column
      clicked last, descending when the clicks on it since it was selected number an
      odd count of reversals. Every click on the column already selected reverses;
      the click that selects another column does not, and the opening state counts
      as a selection of the name column. */
  function CountedSort(clicks: seq<SortField>): SortState {
    if |clicks| == 0 then InitialSort
    else
      var last := clicks[|clicks| - 1];
      var run := TrailingRun(clicks);
      var reversals := if run == |clicks| && last == ByName then run else run - 1;
      SortState(last, if reversals % 2 == 1 then Descending else Ascending)
  }

  /** Replaying the clicks one by one and counting them agree on every series. */
  lemma {:induction false} ReplayIsCounted(clicks: seq<SortField>)
    ensures Replay(clicks) == CountedSort(clicks)
  {
    if |clicks| > 1 {
      var init := clicks[..|clicks| - 1];
      ReplayIsCounted(init);
      assert init[|init| - 1] == clicks[|clicks| - 2];
    }
  }

  /** The names of every list the engine extracts are letters and single spaces,
      so they hold no comma, tab or line break. */
  lemma ExtractedNamesHaveNoSeparators(text: String)
    ensures forall k :: 0 <= k < |ExtractShareholders(text)| ==>
      var name := ExtractShareholders(text)[k].name;
      ',' !in name && '\t' !in name && '\n' !in name
  {
    var rs := ExtractShareholders(text);
    if FindShareholderSection(text).Some? {
      var section := FindShareholderSection(text).value;
      ExtractedNamesAreLetters(section);
      forall k | 0 <= k < |rs|
        ensures ',' !in rs[k].name && '\t' !in rs[k].name && '\n' !in rs[k].name
      {
        NoSeparators(rs[k].name);
      }
    }
  }

  lemma NoSeparators(s: String)
    requires LettersAndSpaces(s)
    ensures ',' !in s && '\t' !in s && '\n' !in s
  {
  }

  /** The clipboard text of every list the engine extracts reads back as the list. */
  lemma ExtractedClipboardRoundTrip(text: String)
    requires |ParseShareholderInfo(text).shareholders| > 0
    ensures ReadClipboard(ClipboardText(DisplayList(Some(ParseShareholderInfo(text).shareholders))))
      == ParseShareholderInfo(text).shareholders
  {
    ExtractedNamesHaveNoSeparators(text);
    DisplayClipboardRoundTrip(ExtractShareholders(text));
  }

  /** The CSV of every list the engine extracts reads back as the list and its
      company, when the company name holds no line break. */
  lemma ExtractedCsvRoundTrip(text: String)
    requires |ParseShareholderInfo(text).shareholders| > 0
    requires Truthy(ParseShareholderInfo(text).companyName) ==> '\n' !in ParseShareholderInfo(text).companyName.value
    ensures ReadCsv(CsvContent(DisplayList(Some(ParseShareholderInfo(text).shareholders)), ParseShareholderInfo(text).companyName))
      == CsvDocument(
        if Truthy(ParseShareholderInfo(text).companyName) then ParseShareholderInfo(text).companyName else None,
        ParseShareholderInfo(text).shareholders)
  {
    ExtractedNamesHaveNoSeparators(text);
    DisplayCsvRoundTrip(ExtractShareholders(text), ExtractCompanyName(text));
  }

  /** The clipboard text of a shown list reads back as the list. */
  lemma DisplayClipboardRoundTrip(records: seq<Shareholder>)
    requires |records| > 0
    requires forall k :: 0 <= k < |records| ==> ',' !in records[k].name && '\t' !in records[k].name && '\n' !in records[k].name
    ensures ReadClipboard(ClipboardText(DisplayList(Some(records)))) == records
  {
    DisplayOfList(records);
    ClipboardRoundTrip(records);
  }

  /** The CSV of a shown list reads back as the list and its company. */
  lemma DisplayCsvRoundTrip(records: seq<Shareholder>, companyName: Option<String>)
    requires |records| > 0
    requires forall k :: 0 <= k < |records| ==> ',' !in records[k].name && '\t' !in records[k].name && '\n' !in records[k].name
    requires Truthy(companyName) ==> '\n' !in companyName.value
    ensures ReadCsv(CsvContent(DisplayList(Some(records)), companyName))
      == CsvDocument(if Truthy(companyName) then companyName else None, records)
  {
    DisplayOfList(records);
    CsvRoundTrip(records, companyName);
  }
}
