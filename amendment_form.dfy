/** The administrator's amendment form (`AdminAmendLoanApplication`): only the
    requested amount can change, and a note is always needed. */
module AmendmentForm {

  import opened Wrappers
  import opened FormFields

  /** The form's values, which are also the whole submitted record. */
  datatype AmendValues = AmendValues(requestedAmount: NumberField, amendmentNote: string)

  /** The fields `AmendLoanSchema` can report an error on. */
  datatype Field = RequestedAmount | AmendmentNote

  /** The fields `AmendLoanSchema` rejects: the amount exactly when it is
      blank or not above zero, the note exactly when it is empty. */
  function Errors(v: AmendValues): (errs: set<Field>)
    ensures RequestedAmount in errs <==> v.requestedAmount.Blank? || v.requestedAmount.value <= 0.0
    ensures AmendmentNote in errs <==> v.amendmentNote == ""
  {
    (if RequiredPositive(v.requestedAmount) then {} else {RequestedAmount}) +
    (if RequiredString(v.amendmentNote) then {} else {AmendmentNote})
  }

  /** An amendment submits exactly when its amount is positive and its note is
      not empty, whether or not the amount differs from the application's. */
  predicate Accepts(v: AmendValues): (ok: bool)
    ensures ok <==> v.requestedAmount.Num? && v.requestedAmount.value > 0.0 && v.amendmentNote != ""
  {
    Errors(v) == {}
  }

  /** `initialValues`: the application's current amount, blank when the
      application or its amount is missing or zero (`x || ""`), and an empty note. */
  function InitialValues(currentAmount: Option<real>): (v: AmendValues)
    ensures v.amendmentNote == ""
    ensures currentAmount.Some? && currentAmount.value != 0.0 ==> v.requestedAmount == Num(currentAmount.value)
    ensures currentAmount.None? || currentAmount.value == 0.0 ==> v.requestedAmount == Blank
  {
    match currentAmount
    case Some(x) => if x != 0.0 then AmendValues(Num(x), "") else AmendValues(Blank, "")
    case None => AmendValues(Blank, "")
  }

  /** An untouched amendment form is always rejected, for want of a note. */
  lemma UntouchedRejected(currentAmount: Option<real>)
    ensures AmendmentNote in Errors(InitialValues(currentAmount))
    ensures !Accepts(InitialValues(currentAmount))
  {
  }

  /** Keeping the amount and writing only a note is accepted exactly when the
      note is not empty and the application's amount is positive. */
  lemma NoteOnlyAmendment(currentAmount: Option<real>, note: string)
    ensures Accepts(InitialValues(currentAmount).(amendmentNote := note)) <==>
              note != "" && currentAmount.Some? && currentAmount.value > 0.0
  {
  }
}
