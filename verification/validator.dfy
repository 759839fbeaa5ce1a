/** The record validator of the heuristic parser (`isValidShareholder`): a name of
    two or more properly capitalised words and a share count in bounds. */
module Validator {
  import opened Text
  import opened Numbers

  const MinWords: nat := 2
  const MinWordLength: nat := 2
  /** The longest name accepted. */
  const MaxHolderNameLength: nat := 50
  const MinShares: nat := 10
  const MaxShares: nat := 100000000

  /** `/^[A-Z][a-z]+$/`, case respected. */
  predicate Capitalized(w: String) {
    |w| >= 2 && IsUpper(w[0]) && forall k :: 1 <= k < |w| ==> IsLower(w[k])
  }

  /** `/^[A-Z]+$/`. */
  predicate Acronym(w: String) {
    |w| >= 1 && forall k :: 0 <= k < |w| ==> IsUpper(w[k])
  }

  /** `/^[A-Z]\.$/`. */
  predicate Initial(w: String) {
    |w| == 2 && IsUpper(w[0]) && w[1] == '.'
  }

  predicate ProperWord(w: String) {
    Capitalized(w) || Acronym(w) || Initial(w)
  }

  /** Neither `shares < 10` nor `shares > 100000000` holds: NaN compares false with
      both, so a count `parseInt` could not read passes. */
  predicate SharesInRange(shares: Count) {
    match shares
    case NaN => true
    case Whole(n) => MinShares <= n <= MaxShares
  }

  /** `words.some(w => w.length < 2)`. */
  function SomeTooShort(words: seq<String>): (b: bool)
    ensures b <==> exists k :: 0 <= k < |words| && |words[k]| < MinWordLength
  {
    if |words| == 0 then false
    else |words[0]| < MinWordLength || SomeTooShort(words[1..])
  }

  /** `words.every(w => /^[A-Z][a-z]+$/.test(w) || /^[A-Z]+$/.test(w) || /^[A-Z]\.$/.test(w))`. */
  function EveryProper(words: seq<String>): (b: bool)
    ensures b <==> forall k :: 0 <= k < |words| ==> ProperWord(words[k])
  {
    if |words| == 0 then true
    else ProperWord(words[0]) && EveryProper(words[1..])
  }

  /** `isValidShareholder(name, shares)`: the checks in the source's order, each a
      rejection. The contract states the conjunction they amount to. */
  function IsValidShareholder(name: String, shares: Count): (ok: bool)
    ensures ok <==>
      var words := Tokens(name);
      && |words| >= MinWords
      && (forall k :: 0 <= k < |words| ==> |words[k]| >= MinWordLength)
      && |name| <= MaxHolderNameLength
      && (forall k :: 0 <= k < |words| ==> ProperWord(words[k]))
      && SharesInRange(shares)
  {
    var words := Tokens(name);
    if |words| < MinWords then false
    else if SomeTooShort(words) then false
    else if |name| > MaxHolderNameLength then false
    else if !EveryProper(words) then false
    else if shares.Whole? && shares.n < MinShares then false
    else if shares.Whole? && shares.n > MaxShares then false
    else true
  }

}
