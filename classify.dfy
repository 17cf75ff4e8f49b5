/**
 * The four-way verdict the reconciler writes next to every dispatched row: it compares the debt
 * the sheet expects with the amount the carrier's payment page still shows.
 */
module Classify {
  import opened Wrappers

  /** The four outcomes of `compare_amounts`, one per Arabic label the report shows. */
  datatype Label = FetchFailed | ZeroedOut | Unpaid | PartiallyPaid

  /**
   * `compare_amounts`: no fetched amount is a fetch problem; a fetched zero means the balance was
   * cleared; a fetched amount at least as large as the expected debt (ties included) means
   * nothing was paid; anything smaller is a partial payment.
   */
  function CompareAmounts(expected: real, fetched: Option<real>): (r: Label)
    ensures r == FetchFailed <==> fetched.None?
    ensures r == ZeroedOut <==> fetched == Some(0.0)
    ensures r == Unpaid <==> fetched.Some? && fetched.value != 0.0 && fetched.value >= expected
    ensures r == PartiallyPaid <==> fetched.Some? && fetched.value != 0.0 && fetched.value < expected
  {
    if fetched.None? then FetchFailed
    else if fetched.value == 0.0 then ZeroedOut
    else if fetched.value >= expected then Unpaid
    else PartiallyPaid
  }

  /** The text the report stores for each label. */
  function LabelText(l: Label): (s: string)
    ensures |s| > 0
  {
    match l
    case FetchFailed => "حصلت مشكلة أثناء الجلب"
    case ZeroedOut => "مصفر في زين"
    case Unpaid => "لسه مدفعش (غير مسدد)"
    case PartiallyPaid => "سداد جزئي"
  }

  /** Reads a report cell back into its label; a cell holding any other text is no label. */
  function LabelOf(s: string): (r: Option<Label>)
    ensures r.Some? ==> LabelText(r.value) == s
  {
    if s == LabelText(FetchFailed) then Some(FetchFailed)
    else if s == LabelText(ZeroedOut) then Some(ZeroedOut)
    else if s == LabelText(Unpaid) then Some(Unpaid)
    else if s == LabelText(PartiallyPaid) then Some(PartiallyPaid)
    else None
  }

  /** Every label can be read back from its text, so no two labels share a text. */
  lemma LabelTextRoundTrip(l: Label)
    ensures LabelOf(LabelText(l)) == Some(l)
  {
    assert LabelText(FetchFailed)[0] == 'ح';
    assert LabelText(ZeroedOut)[0] == 'م';
    assert LabelText(Unpaid)[0] == 'ل';
    assert LabelText(PartiallyPaid)[0] == 'س';
  }

  /** An empty report cell is never a label: rows the reconciler never dispatched stay distinguishable. */
  lemma EmptyCellIsNoLabel()
    ensures LabelOf("") == None
  {
  }

  /**
   * With amounts that can never be negative (as the normaliser produces them), a partial payment
   * means a fetched amount strictly between zero and the expected debt, and a debt of zero can
   * only be reported as cleared, unpaid or not fetched.
   */
  lemma PartialMeansStrictlyBetween(expected: real, fetched: real)
    requires fetched >= 0.0
    ensures CompareAmounts(expected, Some(fetched)) == PartiallyPaid <==> 0.0 < fetched < expected
    ensures expected <= 0.0 ==> CompareAmounts(expected, Some(fetched)) != PartiallyPaid
  {
  }

  /**
   * For one expected debt, raising a non-zero fetched amount never turns "unpaid" back into
   * "partial": the verdict is monotone in what the page shows.
   */
  lemma VerdictMonotone(expected: real, a: real, b: real)
    requires 0.0 < a <= b
    ensures CompareAmounts(expected, Some(a)) == Unpaid ==> CompareAmounts(expected, Some(b)) == Unpaid
    ensures CompareAmounts(expected, Some(b)) == PartiallyPaid ==> CompareAmounts(expected, Some(a)) == PartiallyPaid
  {
  }
}
