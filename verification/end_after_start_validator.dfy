/** The check that a trip's end date is after its start date. */
module EndAfterStartValidator {
  import opened Wrappers

  /** `EndAfterStartValidator.validate`. A date is `None` when it is missing
      or the empty string; then there is nothing to compare and the check
      passes. Otherwise the end must be strictly after the start. */
  function Validate(startDate: Option<int>, endDate: Option<int>): (ok: bool)
    ensures startDate.None? || endDate.None? ==> ok
  {
    if startDate.None? || endDate.None? then true
    else endDate.value > startDate.value
  }

  /** With both dates present the check passes exactly when the end is
      strictly later: an end equal to or before the start fails. */
  lemma StrictlyAfter(start: int, end: int)
    ensures Validate(Some(start), Some(end)) <==> start < end
    ensures !Validate(Some(start), Some(start))
  {
  }

  /** Swapping the two dates never makes both orders pass. */
  lemma NotBothWays(a: int, b: int)
    ensures !(Validate(Some(a), Some(b)) && Validate(Some(b), Some(a)))
  {
  }
}
