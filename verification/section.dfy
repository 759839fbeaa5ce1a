/** The section locator of the heuristic parser (`findShareholderSection`): the
    window of the document in which the record scanner looks for shareholders. */
module Section {
  import opened Wrappers
  import opened Text

  /** The anchors, in the fixed order in which they are tried. */
  const ExhibitAnchor: String := "exhibit a"
  const ScheduleAnchor: String := "schedule a"
  const PurchasersAnchor: String := "restricted stock purchasers"

  /** The most characters a section holds. */
  const SectionLength: nat := 10000

  /** `pat`, in lower case, occurs somewhere in `text` when case is ignored. */
  ghost predicate OccursIgnoringCase(text: String, pat: String) {
    exists i: nat :: OccursAtIgnoringCase(text, pat, i)
  }

  /** `i` is where `pat` first occurs in `text` when case is ignored. */
  ghost predicate FirstOccurrence(text: String, pat: String, i: nat) {
    && OccursAtIgnoringCase(text, pat, i)
    && forall j: nat :: j < i ==> !OccursAtIgnoringCase(text, pat, j)
  }

  /** Searching the lowered text finds exactly the first case-ignoring occurrence. */
  lemma IndexOfLowered(text: String, pat: String)
    ensures IndexOf(Lower(text), pat).None? <==> !OccursIgnoringCase(text, pat)
    ensures forall i: nat :: FirstOccurrence(text, pat, i) ==> IndexOf(Lower(text), pat) == Some(i)
  {
    var r := IndexOf(Lower(text), pat);
    if r.Some? {
      assert OccursAtIgnoringCase(text, pat, r.value);
    }
    if OccursIgnoringCase(text, pat) {
      var i: nat :| OccursAtIgnoringCase(text, pat, i);
      assert OccursAt(Lower(text), pat, i);
    }
  }

  /** The original-cased text from `i` on, cut after `SectionLength` characters. */
  function Window(text: String, i: nat): (w: String)
    requires i <= |text|
    ensures |w| == if |text| - i < SectionLength then |text| - i else SectionLength
    ensures w == text[i..i + |w|]
  {
    text[i..if |text| < i + SectionLength then |text| else i + SectionLength]
  }

  /** `findShareholderSection(text)`: the window at the first occurrence of the first
      anchor, in priority order, that occurs at all; `None` for `null`. */
  function FindShareholderSection(text: String): (r: Option<String>)
    ensures r.None? <==>
      && !OccursIgnoringCase(text, ExhibitAnchor)
      && !OccursIgnoringCase(text, ScheduleAnchor)
      && !OccursIgnoringCase(text, PurchasersAnchor)
    ensures forall i: nat :: FirstOccurrence(text, ExhibitAnchor, i) ==>
      r == Some(Window(text, i))
    ensures !OccursIgnoringCase(text, ExhibitAnchor) ==>
      forall i: nat :: FirstOccurrence(text, ScheduleAnchor, i) ==> r == Some(Window(text, i))
    ensures !OccursIgnoringCase(text, ExhibitAnchor) && !OccursIgnoringCase(text, ScheduleAnchor) ==>
      forall i: nat :: FirstOccurrence(text, PurchasersAnchor, i) ==> r == Some(Window(text, i))
    ensures r.Some? ==> |r.value| > 0
  {
    var lower := Lower(text);
    IndexOfLowered(text, ExhibitAnchor);
    IndexOfLowered(text, ScheduleAnchor);
    IndexOfLowered(text, PurchasersAnchor);
    match IndexOf(lower, ExhibitAnchor)
    case Some(i) => Some(Window(text, i))
    case None =>
      match IndexOf(lower, ScheduleAnchor)
      case Some(i) => Some(Window(text, i))
      case None =>
        match IndexOf(lower, PurchasersAnchor)
        case Some(i) => Some(Window(text, i))
        case None => None
  }
}
