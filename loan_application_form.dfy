/** The member's loan-application form (`CreateLoanApplication`): the
    `LoanApplicationSchema` rules and the form's initial values. */
module LoanApplicationForm {

  import opened FormFields

  /** Milliseconds in a day. */
  const MsPerDay: int := 86400000

  /** The `type="date"` input: empty, or a calendar day, counted in days from
      the epoch in local time. The schema reads a day as its local midnight. */
  datatype DateField = NoDate | OnDay(day: int)

  /** The instant, in local milliseconds, at which a day begins. */
  function Midnight(day: int): int
  {
    day * MsPerDay
  }

  /** The form's values. */
  datatype Values = Values(
    product: string,
    requestedAmount: NumberField,
    termMonths: NumberField,
    repaymentFrequency: string,
    startDate: DateField)

  /** The fields the schema can report an error on. */
  datatype Field = Product | RequestedAmount | TermMonths | StartDate | RepaymentFrequency

  /** `.min(new Date())` on the start date: the day must not begin before
      `schemaBuiltAt`, the instant the schema object was created. */
  predicate StartDateOk(d: DateField, schemaBuiltAt: int)
  {
    d.OnDay? && Midnight(d.day) >= schemaBuiltAt
  }

  /** The fields `LoanApplicationSchema` rejects: each field is reported
      exactly when its value breaks that field's rule. */
  function Errors(v: Values, schemaBuiltAt: int): (errs: set<Field>)
    ensures Product in errs <==> v.product == ""
    ensures RequestedAmount in errs <==> v.requestedAmount.Blank? || v.requestedAmount.value <= 0.0
    ensures TermMonths in errs <==>
              v.termMonths.Blank? || v.termMonths.value <= 0.0 || v.termMonths.value != v.termMonths.value.Floor as real
    ensures StartDate in errs <==> v.startDate.NoDate? || Midnight(v.startDate.day) < schemaBuiltAt
    ensures RepaymentFrequency in errs <==> v.repaymentFrequency == ""
  {
    (if RequiredString(v.product) then {} else {Product}) +
    (if RequiredPositive(v.requestedAmount) then {} else {RequestedAmount}) +
    (if RequiredPositive(v.termMonths) && IsInteger(v.termMonths.value) then {} else {TermMonths}) +
    (if StartDateOk(v.startDate, schemaBuiltAt) then {} else {StartDate}) +
    (if RequiredString(v.repaymentFrequency) then {} else {RepaymentFrequency})
  }

  /** The form submits exactly when a product is chosen, the amount is
      positive, the term is a positive whole number of months, the start day
      does not begin before the schema was built and a frequency is chosen. */
  predicate Accepts(v: Values, schemaBuiltAt: int): (ok: bool)
    ensures ok <==>
      v.product != "" &&
      v.requestedAmount.Num? && v.requestedAmount.value > 0.0 &&
      v.termMonths.Num? && v.termMonths.value > 0.0 && IsInteger(v.termMonths.value) &&
      v.startDate.OnDay? && Midnight(v.startDate.day) >= schemaBuiltAt &&
      v.repaymentFrequency != ""
  {
    Errors(v, schemaBuiltAt) == {}
  }

  /** `initialValues`: everything blank except the frequency, "monthly".
      Whenever the schema was built, the untouched form is rejected on
      product, amount, term and start date, and on nothing else. */
  function InitialValues(): (v: Values)
    ensures forall t :: Errors(v, t) == {Product, RequestedAmount, TermMonths, StartDate}
  {
    Values("", Blank, Blank, "monthly", NoDate)
  }

  /** The untouched form never submits, whenever the schema was built. */
  lemma InitialValuesRejected(schemaBuiltAt: int)
    ensures !Accepts(InitialValues(), schemaBuiltAt)
  {
  }

  /** The frequency select: a disabled placeholder and "monthly". */
  function FrequencyOptions(): seq<SelectOption>
  {
    [SelectOption("", true), SelectOption("monthly", false)]
  }

  /** Every enabled frequency option, and the default, passes the frequency
      rule; the disabled placeholder would not. */
  lemma FrequencyChoicesPass()
    ensures forall o :: o in FrequencyOptions() && !o.disabled ==> RequiredString(o.value)
    ensures forall o :: o in FrequencyOptions() && o.disabled ==> !RequiredString(o.value)
    ensures RequiredString(InitialValues().repaymentFrequency)
  {
  }

  /** The day containing the instant `now`, as the date input counts days. */
  function DayOf(now: int): int
  {
    now / MsPerDay
  }

  /** Because the date input is read as local midnight, a start date of the
      day the schema was built passes only when it was built exactly at
      midnight; any earlier day always fails and any later day always passes. */
  lemma StartDateAroundSchemaDay(schemaBuiltAt: int, day: int)
    ensures day == DayOf(schemaBuiltAt) ==>
              (StartDateOk(OnDay(day), schemaBuiltAt) <==> schemaBuiltAt % MsPerDay == 0)
    ensures day < DayOf(schemaBuiltAt) ==> !StartDateOk(OnDay(day), schemaBuiltAt)
    ensures day > DayOf(schemaBuiltAt) ==> StartDateOk(OnDay(day), schemaBuiltAt)
  {
    var d := DayOf(schemaBuiltAt);
    assert schemaBuiltAt == d * MsPerDay + schemaBuiltAt % MsPerDay;
    if day < d {
      assert day * MsPerDay <= (d - 1) * MsPerDay;
    } else if day > d {
      assert day * MsPerDay >= (d + 1) * MsPerDay;
    }
  }
}
