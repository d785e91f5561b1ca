/** The vocabulary shared by the three entry forms (meals, deposits, meal costs). */
module Forms {

  /**
   * A form field as the submission guard sees it: an empty input is falsy
   * and blocks submission, anything else is `Filled`.  A filled amount field
   * carries the number its text parses to.
   */
  datatype Field<T> = Blank | Filled(value: T)

  /**
   * What a submit handler did: `Skipped` when its guard returned early,
   * `Saved` when the store accepted the write, `Rejected` when the store
   * reported an error (the handler only shows an alert in that case).
   */
  datatype Status = Skipped | Saved | Rejected
}
