/** The field rules the Yup schemas of the loan forms use. A number input
    reaches the schema as a blank string or as a number. */
module FormFields {

  /** The value of a `type="number"` input as the schema reads it. */
  datatype NumberField = Blank | Num(value: real)

  /** `Yup.number().positive().required()`: present and above zero. A blank
      input does not cast to a number and fails. */
  predicate RequiredPositive(f: NumberField)
  {
    f.Num? && f.value > 0.0
  }

  /** `.integer()`: the number has no fractional part. */
  predicate IsInteger(x: real)
  {
    x == x.Floor as real
  }

  /** `Yup.string().required()`: present and not the empty string. */
  predicate RequiredString(s: string)
  {
    |s| > 0
  }

  /** One `<option>` of a select. */
  datatype SelectOption = SelectOption(value: string, disabled: bool)
}
