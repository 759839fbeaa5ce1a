/** The entry point of the heuristic parser (`parseShareholderInfo`): the company
    name, the shareholder records, and the warnings that explain what is missing. */
module Parser {
  import opened Wrappers
  import opened Text
  import opened Section
  import opened Company
  import opened Extractor

  const CompanyWarning: String :=
    "Could not automatically detect company name. Please verify results."
  const NoShareholdersWarning: String :=
    "No shareholders found. The document may not contain a \"Restricted Stock Purchasers\" table, or the table format is not recognized."
  const RestrictedStockWarning: String :=
    "Found \"Restricted Stock\" text but could not extract data. The table format may be unusual."

  datatype Extraction = Extraction(companyName: Option<String>, shareholders: seq<Shareholder>, warnings: seq<String>)

  /** The lower-cased text holds both "restricted" and "stock", anywhere. */
  ghost predicate MentionsRestrictedStock(text: String) {
    Occurs(Lower(text), "restricted") && Occurs(Lower(text), "stock")
  }

  /** The warnings of `parseShareholderInfo`, from whether a company name and any
      record were found and whether the text mentions restricted stock. */
  function Warnings(companyFound: bool, recordsFound: bool, restrictedStock: bool): (ws: seq<String>)
    ensures CompanyWarning in ws <==> !companyFound
    ensures !companyFound ==> ws[0] == CompanyWarning
    ensures NoShareholdersWarning in ws <==> !recordsFound
    ensures RestrictedStockWarning in ws <==> !recordsFound && restrictedStock
    ensures |ws| == (if companyFound then 0 else 1) + (if recordsFound then 0 else 1)
      + (if !recordsFound && restrictedStock then 1 else 0)
    ensures forall i, j :: 0 <= i < j < |ws| ==> ws[i] != ws[j]
    ensures RestrictedStockWarning in ws ==>
      |ws| >= 2 && ws[|ws| - 2] == NoShareholdersWarning && ws[|ws| - 1] == RestrictedStockWarning
  {
    DistinctWarnings();
    (if companyFound then [] else [CompanyWarning])
      + if recordsFound then []
        else [NoShareholdersWarning] + if restrictedStock then [RestrictedStockWarning] else []
  }

  /** `parseShareholderInfo(text)`. The company warning is given exactly when no
      company name was found, and then first; the no-shareholders warning exactly
      when no record was found; the restricted-stock hint exactly when no record
      was found although the lower-cased text holds both "restricted" and "stock". */
  function ParseShareholderInfo(text: String): (r: Extraction)
    ensures r.companyName == ExtractCompanyName(text)
    ensures r.shareholders == ExtractShareholders(text)
    ensures CompanyWarning in r.warnings <==> r.companyName.None?
    ensures r.companyName.None? ==> r.warnings[0] == CompanyWarning
    ensures NoShareholdersWarning in r.warnings <==> |r.shareholders| == 0
    ensures RestrictedStockWarning in r.warnings <==> |r.shareholders| == 0 && MentionsRestrictedStock(text)
    ensures |r.warnings| == (if r.companyName.None? then 1 else 0) + (if |r.shareholders| == 0 then 1 else 0)
      + (if |r.shareholders| == 0 && MentionsRestrictedStock(text) then 1 else 0)
    ensures forall i, j :: 0 <= i < j < |r.warnings| ==> r.warnings[i] != r.warnings[j]
    ensures RestrictedStockWarning in r.warnings ==>
      && |r.warnings| >= 2
      && r.warnings[|r.warnings| - 2] == NoShareholdersWarning
      && r.warnings[|r.warnings| - 1] == RestrictedStockWarning
  {
    var companyName := ExtractCompanyName(text);
    var shareholders := ExtractShareholders(text);
    var lowerText := Lower(text);
    var mentions := Includes(lowerText, "restricted") && Includes(lowerText, "stock");
    var companyFound := companyName.Some? && |companyName.value| > 0;
    Extraction(companyName, shareholders, Warnings(companyFound, |shareholders| > 0, mentions))
  }

  lemma DistinctWarnings()
    ensures CompanyWarning != NoShareholdersWarning
    ensures CompanyWarning != RestrictedStockWarning
    ensures NoShareholdersWarning != RestrictedStockWarning
  {
    assert |CompanyWarning| == 67;
    assert |NoShareholdersWarning| == 129;
    assert |RestrictedStockWarning| == 90;
  }

  /** A text with none of the section anchors yields no records, and says so. */
  lemma NoAnchorNoShareholders(text: String)
    requires !OccursIgnoringCase(text, ExhibitAnchor)
    requires !OccursIgnoringCase(text, ScheduleAnchor)
    requires !OccursIgnoringCase(text, PurchasersAnchor)
    ensures ParseShareholderInfo(text).shareholders == []
    ensures NoShareholdersWarning in ParseShareholderInfo(text).warnings
  {
  }
}
