/** The two exports of the results panel: the CSV file content and the text put on
    the clipboard. Both write the shares column as the grouped display form with
    its commas deleted, and neither quotes nor escapes anything. */
module Export {
  import opened Wrappers
  import opened Text
  import opened Numbers
  import opened Seqs
  import opened Extractor
  import opened Formatter

  const NameHeader: String := "Shareholder Name"
  const SharesHeader: String := "Number of Shares"
  const HeaderLine: String := NameHeader + "," + SharesHeader

  /** `s.shares.replace(/,/g, '')`. */
  function PlainShares(r: FormattedRecord): (s: String)
    ensures ',' !in s
  {
    Remove(r.shares, ',')
  }

  /** `companyName` is truthy: present and not empty. */
  predicate Truthy(companyName: Option<String>) {
    companyName.Some? && |companyName.value| > 0
  }

  /** One CSV row per record: its name and its plain shares. */
  function DataRows(records: seq<FormattedRecord>): (rows: seq<seq<String>>)
    ensures |rows| == |records|
    ensures forall k :: 0 <= k < |rows| ==> rows[k] == [records[k].name, PlainShares(records[k])]
  {
    seq(|records|, k requires 0 <= k < |records| => [records[k].name, PlainShares(records[k])])
  }

  /** The company row, empty when the company name is not truthy. */
  function CompanyRow(companyName: Option<String>): seq<String> {
    if Truthy(companyName) then ["Company: " + companyName.value] else []
  }

  /** The rows of the CSV before `.filter(row => row.length > 0)`: the company row,
      the header row, the data rows. */
  function CsvTable(records: seq<FormattedRecord>, companyName: Option<String>): seq<seq<String>> {
    [CompanyRow(companyName)] + ([[NameHeader, SharesHeader]] + DataRows(records))
  }

  predicate NonEmptyRow(row: seq<String>) {
    |row| > 0
  }

  /** The company row, when the company name is truthy. */
  function CompanyRows(companyName: Option<String>): (rows: seq<seq<String>>)
    ensures rows == if |CompanyRow(companyName)| > 0 then [CompanyRow(companyName)] else []
  {
    if Truthy(companyName) then [CompanyRow(companyName)] else []
  }

  /** Every row after the company row has cells. */
  lemma RestNonEmpty(records: seq<FormattedRecord>)
    ensures forall k :: 0 <= k < 1 + |records| ==> NonEmptyRow(([[NameHeader, SharesHeader]] + DataRows(records))[k])
  {
  }

  /** The filter drops exactly the empty company row. */
  lemma CsvRowsKept(records: seq<FormattedRecord>, companyName: Option<String>)
    ensures Filter(CsvTable(records, companyName), NonEmptyRow)
      == CompanyRows(companyName) + ([[NameHeader, SharesHeader]] + DataRows(records))
  {
    var rest := [[NameHeader, SharesHeader]] + DataRows(records);
    RestNonEmpty(records);
    FilterConsAll(CompanyRow(companyName), rest, NonEmptyRow);
  }

  /** The company line, when there is one. */
  function CompanyLines(companyName: Option<String>): seq<String> {
    if Truthy(companyName) then ["Company: " + companyName.value] else []
  }

  /** `.map(row => row.join(','))`. */
  function JoinRows(rows: seq<seq<String>>): (lines: seq<String>)
    ensures |lines| == |rows|
    ensures forall k :: 0 <= k < |rows| ==> lines[k] == Join(rows[k], ",")
  {
    seq(|rows|, k requires 0 <= k < |rows| => Join(rows[k], ","))
  }

  lemma JoinRowsAppend(a: seq<seq<String>>, b: seq<seq<String>>)
    ensures JoinRows(a + b) == JoinRows(a) + JoinRows(b)
  {
  }

  lemma JoinTwo(a: String, b: String, sep: String)
    ensures Join([a, b], sep) == a + sep + b
  {
    assert [a, b][1..] == [b];
  }

  /** One `name,shares` line per record, in order. */
  function DataLines(records: seq<FormattedRecord>): (lines: seq<String>)
    ensures |lines| == |records|
    ensures forall k :: 0 <= k < |records| ==> lines[k] == records[k].name + "," + PlainShares(records[k])
  {
    seq(|records|, k requires 0 <= k < |records| => records[k].name + "," + PlainShares(records[k]))
  }

  lemma DataRowsJoined(records: seq<FormattedRecord>)
    ensures JoinRows(DataRows(records)) == DataLines(records)
  {
    forall k | 0 <= k < |records|
      ensures JoinRows(DataRows(records))[k] == DataLines(records)[k]
    {
      JoinTwo(records[k].name, PlainShares(records[k]), ",");
    }
  }

  /** The lines of the CSV: every row that is not empty, joined by commas. */
  function CsvLines(records: seq<FormattedRecord>, companyName: Option<String>): seq<String> {
    JoinRows(Filter(CsvTable(records, companyName), NonEmptyRow))
  }

  /** The CSV lines are the company line when the company name is truthy, the header
      line, and one `name,shares` line per record, in order. */
  lemma CsvLinesShape(records: seq<FormattedRecord>, companyName: Option<String>)
    ensures CsvLines(records, companyName) == CompanyLines(companyName) + ([HeaderLine] + DataLines(records))
  {
    var company := CompanyRows(companyName);
    var header := [[NameHeader, SharesHeader]];
    var data := DataRows(records);
    CsvRowsKept(records, companyName);
    assert CsvLines(records, companyName) == JoinRows(company + (header + data));
    JoinRowsAppend(company, header + data);
    JoinRowsAppend(header, data);
    CompanyRowsJoined(companyName);
    HeaderRowJoined();
    DataRowsJoined(records);
  }

  lemma CompanyRowsJoined(companyName: Option<String>)
    ensures JoinRows(CompanyRows(companyName)) == CompanyLines(companyName)
  {
    if Truthy(companyName) {
      assert Join(["Company: " + companyName.value], ",") == "Company: " + companyName.value;
    }
  }

  lemma HeaderRowJoined()
    ensures JoinRows([[NameHeader, SharesHeader]]) == [HeaderLine]
  {
    JoinTwo(NameHeader, SharesHeader, ",");
  }

  /** `csvContent`: the lines joined by newlines, with no newline at the end. */
  function CsvContent(records: seq<FormattedRecord>, companyName: Option<String>): String {
    Join(CsvLines(records, companyName), "\n")
  }

  /** The clipboard lines: `name<TAB>shares` per record, in order. */
  function ClipboardLines(records: seq<FormattedRecord>): (lines: seq<String>)
    ensures |lines| == |records|
    ensures forall k :: 0 <= k < |lines| ==> lines[k] == records[k].name + "\t" + PlainShares(records[k])
  {
    seq(|records|, k requires 0 <= k < |records| => records[k].name + "\t" + PlainShares(records[k]))
  }

  /** The clipboard text: the lines joined by newlines. */
  function ClipboardText(records: seq<FormattedRecord>): String {
    Join(ClipboardLines(records), "\n")
  }

  /** The plain shares column reads back, through `parseInt`, as the count it was
      formatted from, and it holds neither a tab nor a line break. */
  lemma PlainSharesRead(c: Count)
    ensures ParseInt(Remove(FormatShares(c), ',')) == c
    ensures '\n' !in Remove(FormatShares(c), ',') && '\t' !in Remove(FormatShares(c), ',')
  {
    match c
    case Whole(n) =>
      assert FormatShares(c) == Group(n);
      DigitsHaveNoBreak(n);
    case NaN =>
      NaNRead();
  }

  lemma DigitsHaveNoBreak(n: nat)
    ensures '\n' !in Remove(Group(n), ',') && '\t' !in Remove(Group(n), ',')
  {
    UngroupIsDigits(n);
    var d := Digits(n);
    assert forall k :: 0 <= k < |d| ==> IsDigit(d[k]);
  }

  lemma NaNRead()
    ensures Remove("NaN", ',') == "NaN" && ParseInt("NaN") == NaN
  {
    assert ',' !in "NaN";
    RemoveKeeps("NaN", ',');
  }

  /** What a spreadsheet reads from the CSV: the company, when the first line is a
      company line, and one record per line after the header line. */
  datatype CsvDocument = CsvDocument(company: Option<String>, records: seq<Shareholder>)

  const CompanyPrefix: String := "Company: "

  /** A data line read back: the text before the first separator is the name, the
      second cell is read by `parseInt`. */
  function ReadRecord(line: String, sep: char): Shareholder {
    var cells := Split(line, sep);
    Shareholder(cells[0], if |cells| > 1 then ParseInt(cells[1]) else NaN)
  }

  predicate IsCompanyLine(line: String) {
    |line| >= |CompanyPrefix| && line[..|CompanyPrefix|] == CompanyPrefix
  }

  /** The records of data lines read back. */
  function ReadRecords(lines: seq<String>, sep: char): (rs: seq<Shareholder>)
    ensures |rs| == |lines| && forall k :: 0 <= k < |lines| ==> rs[k] == ReadRecord(lines[k], sep)
  {
    seq(|lines|, k requires 0 <= k < |lines| => ReadRecord(lines[k], sep))
  }

  /** The lines of a CSV read back: a company line first when there is one, then the
      header line, then the data lines. */
  function ReadLines(lines: seq<String>): CsvDocument
    requires |lines| >= 1
  {
    var c := if IsCompanyLine(lines[0]) then 1 else 0;
    CsvDocument(
      if c == 1 then Some(lines[0][|CompanyPrefix|..]) else None,
      ReadRecords(if c + 1 <= |lines| then lines[c + 1..] else [], ','))
  }

  /** The reader the CSV round trip is stated against. */
  function ReadCsv(content: String): CsvDocument {
    ReadLines(Split(content, '\n'))
  }

  /** A name and its plain shares, joined by `sep`, read back as the record. */
  lemma ReadRecordLine(r: Shareholder, sep: char)
    requires sep != ',' ==> sep == '\t'
    requires sep !in r.name
    ensures ReadRecord(r.name + [sep] + Remove(FormatShares(r.shares), ','), sep) == r
  {
    var plain := Remove(FormatShares(r.shares), ',');
    PlainSharesRead(r.shares);
    assert sep !in plain;
    JoinTwo(r.name, plain, [sep]);
    SplitJoin([r.name, plain], sep);
  }

  /** The header line is not a company line. */
  lemma HeaderIsNotCompanyLine()
    ensures !IsCompanyLine(HeaderLine)
  {
    assert HeaderLine[0] == 'S';
  }

  /** Every data line holds no line break and reads back as its record. */
  lemma DataLinesRead(records: seq<Shareholder>, sep: char)
    requires sep != ',' ==> sep == '\t'
    requires forall k :: 0 <= k < |records| ==> sep !in records[k].name
    ensures forall k :: 0 <= k < |records| ==>
      var out := FormatShareholderData(records)[k];
      && '\n' !in Remove(out.shares, ',')
      && ReadRecord(out.name + [sep] + Remove(out.shares, ','), sep) == records[k]
  {
    forall k | 0 <= k < |records|
      ensures var out := FormatShareholderData(records)[k];
        && '\n' !in Remove(out.shares, ',')
        && ReadRecord(out.name + [sep] + Remove(out.shares, ','), sep) == records[k]
    {
      PlainSharesRead(records[k].shares);
      ReadRecordLine(records[k], sep);
    }
  }

  /** The CSV splits at its line breaks into its lines when no line holds one. */
  lemma CsvSplits(out: seq<FormattedRecord>, companyName: Option<String>)
    requires forall k :: 0 <= k < |out| ==> '\n' !in out[k].name && '\n' !in PlainShares(out[k])
    requires Truthy(companyName) ==> '\n' !in companyName.value
    ensures Split(CsvContent(out, companyName), '\n') == CompanyLines(companyName) + ([HeaderLine] + DataLines(out))
  {
    var company := CompanyLines(companyName);
    var data := DataLines(out);
    var lines := company + ([HeaderLine] + data);
    CsvLinesShape(out, companyName);
    assert CsvContent(out, companyName) == Join(lines, "\n");
    LinesHaveNoBreak(company, data);
    SplitJoin(lines, '\n');
  }

  lemma LinesHaveNoBreak(company: seq<String>, data: seq<String>)
    requires forall k :: 0 <= k < |company| ==> '\n' !in company[k]
    requires forall k :: 0 <= k < |data| ==> '\n' !in data[k]
    ensures forall k :: 0 <= k < |company + ([HeaderLine] + data)| ==> '\n' !in (company + ([HeaderLine] + data))[k]
  {
    assert '\n' !in HeaderLine by {
      assert |HeaderLine| == 33;
    }
  }

  /** The reader finds the company line, skips the header line and reads the rest. */
  lemma ReadLinesShape(companyName: Option<String>, body: seq<String>)
    ensures ReadLines(CompanyLines(companyName) + ([HeaderLine] + body))
      == CsvDocument(if Truthy(companyName) then companyName else None, ReadRecords(body, ','))
  {
    var lines := CompanyLines(companyName) + ([HeaderLine] + body);
    HeaderIsNotCompanyLine();
    if Truthy(companyName) {
      assert lines[0] == CompanyPrefix + companyName.value;
      assert lines[0][..|CompanyPrefix|] == CompanyPrefix;
      assert lines[2..] == body;
    } else {
      assert lines[1..] == body;
    }
  }

  /** Reading the CSV back gives the company when it is truthy and the records the
      list was formatted from, in order, provided no name holds a comma or a line
      break and the company name holds no line break. */
  lemma CsvRoundTrip(records: seq<Shareholder>, companyName: Option<String>)
    requires forall k :: 0 <= k < |records| ==> ',' !in records[k].name && '\n' !in records[k].name
    requires Truthy(companyName) ==> '\n' !in companyName.value
    ensures ReadCsv(CsvContent(FormatShareholderData(records), companyName))
      == CsvDocument(if Truthy(companyName) then companyName else None, records)
  {
    var out := FormatShareholderData(records);
    DataLinesRead(records, ',');
    CsvSplits(out, companyName);
    ReadLinesShape(companyName, DataLines(out));
    assert ReadRecords(DataLines(out), ',') == records;
  }

  /** Reading the clipboard text back: one record per line, its cells separated by
      tabs. */
  function ReadClipboard(text: String): seq<Shareholder> {
    ReadRecords(Split(text, '\n'), '\t')
  }

  /** Reading the clipboard text back gives the records the list was formatted
      from, in order, provided the list is not empty (the panel is not shown for an
      empty list) and no name holds a tab or a line break. */
  lemma ClipboardRoundTrip(records: seq<Shareholder>)
    requires |records| > 0
    requires forall k :: 0 <= k < |records| ==> '\t' !in records[k].name && '\n' !in records[k].name
    ensures ReadClipboard(ClipboardText(FormatShareholderData(records))) == records
  {
    var out := FormatShareholderData(records);
    var lines := ClipboardLines(out);
    DataLinesRead(records, '\t');
    assert forall k :: 0 <= k < |lines| ==> '\n' !in lines[k];
    SplitJoin(lines, '\n');
    assert ReadRecords(lines, '\t') == records;
  }
}
