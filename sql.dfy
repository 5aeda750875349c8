/** The values a table cell can hold, as SQL sees them. */
module Sql {
  import opened Wrappers

  /** An instant as the clock gives it (ticket_date); its representation is immaterial here. */
  type Timestamp = int

  /** A cell: NULL, text, or an integer. DECIMAL columns are held as integers (cents). */
  datatype Value = Null | Text(text: string) | Integer(number: int)

  /** The cell for a text column whose attribute holds `s`. */
  function TextCell(s: Option<string>): Value {
    match s
    case Some(t) => Text(t)
    case None => Null
  }

  /** The cell for an integer column whose attribute holds `n`. */
  function IntegerCell(n: Option<int>): Value {
    match n
    case Some(k) => Integer(k)
    case None => Null
  }
}
