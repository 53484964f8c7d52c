/** Values shared by every operation of the text processor: the dynamically
    typed argument, the error the operations raise, and the Unicode character
    tables the operations consult. */
module Values {

  datatype Option<+T> = None | Some(value: T)

  /** An argument that the source checks with `isinstance(text, str)`:
      either a string or any other value (None, an int, ...). */
  datatype Input = Str(s: string) | NotStr

  /** The exception the source raises for a non-string argument. */
  datatype Error = ValueError(message: string)

  const NotAStringMessage: string := "Input must be a string"

  datatype Result<+T> = Success(value: T) | Failure(error: Error)

  /** Python's Unicode character classes, supplied by the caller:
      `isAlpha`, `isDigit` and `isSpace` stand for `str.isalpha`,
      `str.isdigit` and `str.isspace`; `isDecimal` stands for the regular
      expression class `\d` (the Unicode decimal digits). */
  datatype CharTables = CharTables(
    isAlpha: char -> bool,
    isDigit: char -> bool,
    isSpace: char -> bool,
    isDecimal: char -> bool)

  /** What every Unicode table satisfies and the scanner relies on:
      neither the decimal point nor the minus sign is a decimal digit. */
  predicate ValidDecimal(dec: char -> bool)
  {
    !dec('.') && !dec('-')
  }
}
