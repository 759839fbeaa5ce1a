/** The warning classifier of the warnings panel: each warning gets a severity
    from the words its lower-cased text contains, and the warnings are split into
    one list per severity, each in the original order. */
module Severity {
  import opened Wrappers
  import opened Text
  import opened Seqs

  datatype Level = High | Medium | Low

  datatype Categorized = Categorized(text: String, severity: Level)

  /** The words that make a warning critical, then those that make it a warning;
      anything else is for information. */
  const HighMarkers: seq<String> := ["not found", "invalid", "failed"]
  const MediumMarkers: seq<String> := ["verify", "may", "truncated"]

  /** Some marker occurs in `lower`. */
  ghost predicate MentionsAny(lower: String, markers: seq<String>) {
    exists k :: 0 <= k < |markers| && Occurs(lower, markers[k])
  }

  lemma MentionsAnyOfThree(lower: String, markers: seq<String>)
    requires |markers| == 3
    ensures MentionsAny(lower, markers) <==>
      Occurs(lower, markers[0]) || Occurs(lower, markers[1]) || Occurs(lower, markers[2])
  {
  }

  /** The severity of one warning: high when its lower-cased text holds a high marker,
      which takes precedence; medium when it holds a medium marker; low otherwise. */
  function SeverityOf(warning: String): (l: Level)
    ensures l == High <==> MentionsAny(Lower(warning), HighMarkers)
    ensures l == Medium <==> !MentionsAny(Lower(warning), HighMarkers) && MentionsAny(Lower(warning), MediumMarkers)
    ensures l == Low <==> !MentionsAny(Lower(warning), HighMarkers) && !MentionsAny(Lower(warning), MediumMarkers)
  {
    var lower := Lower(warning);
    MentionsAnyOfThree(lower, HighMarkers);
    MentionsAnyOfThree(lower, MediumMarkers);
    if Includes(lower, "not found") || Includes(lower, "invalid") || Includes(lower, "failed") then High
    else if Includes(lower, "verify") || Includes(lower, "may") || Includes(lower, "truncated") then Medium
    else Low
  }

  /** `warnings.map(warning => ({ text: warning, severity: … }))`. */
  function Categorize(warnings: seq<String>): (cs: seq<Categorized>)
    ensures |cs| == |warnings|
    ensures forall k :: 0 <= k < |cs| ==> cs[k] == Categorized(warnings[k], SeverityOf(warnings[k]))
  {
    seq(|warnings|, k requires 0 <= k < |warnings| => Categorized(warnings[k], SeverityOf(warnings[k])))
  }

  datatype Buckets = Buckets(high: seq<Categorized>, medium: seq<Categorized>, low: seq<Categorized>)

  predicate IsHigh(c: Categorized) {
    c.severity == High
  }

  predicate IsMedium(c: Categorized) {
    c.severity == Medium
  }

  predicate IsLow(c: Categorized) {
    c.severity == Low
  }

  /** The three lists of the panel; `None` where the panel shows nothing, for
      absent or empty warnings. Each list holds only its severity, keeps the order
      of the warnings, and the lists together hold every warning exactly once. */
  function Classify(warnings: Option<seq<String>>): (b: Option<Buckets>)
    ensures b.None? <==> warnings.None? || |warnings.value| == 0
    ensures b.Some? ==> forall c :: c in b.value.high ==> c.severity == High
    ensures b.Some? ==> forall c :: c in b.value.medium ==> c.severity == Medium
    ensures b.Some? ==> forall c :: c in b.value.low ==> c.severity == Low
    ensures b.Some? ==> |b.value.high| + |b.value.medium| + |b.value.low| == |warnings.value|
    ensures b.Some? ==>
      multiset(b.value.high) + multiset(b.value.medium) + multiset(b.value.low)
        == multiset(Categorize(warnings.value))
    ensures b.Some? ==>
      && Subsequence(b.value.high, Categorize(warnings.value))
      && Subsequence(b.value.medium, Categorize(warnings.value))
      && Subsequence(b.value.low, Categorize(warnings.value))
  {
    match warnings
    case None => None
    case Some(ws) =>
      if |ws| == 0 then None
      else
        var cs := Categorize(ws);
        FilterPartition(cs, IsHigh, IsMedium, IsLow);
        FilterIsSubsequence(cs, IsHigh);
        FilterIsSubsequence(cs, IsMedium);
        FilterIsSubsequence(cs, IsLow);
        Some(Buckets(Filter(cs, IsHigh), Filter(cs, IsMedium), Filter(cs, IsLow)))
  }
}
