/** The ASCII control codes that structure the configuration text (pic/ascii.go). */
module Ascii {

  /** Start Of Heading: a leading SOH selects the RS/US dataset delimiters. */
  const SOH: char := 0x01 as char
  /** Start of Text: used by the host to delimit data style properties. */
  const STX: char := 0x02 as char
  /** Data Link Escape: marks a symbol reference. */
  const DLE: char := 0x10 as char
  /** Escape: marks a type-tagged value. */
  const ESC: char := 0x1b as char
  /** Record Separator: separates the sets of a dataset in the control regime. */
  const RS: char := 0x1e as char
  /** Unit Separator: separates the values of a set in the control regime. */
  const US: char := 0x1f as char

  const CR: char := '\r'
  const LF: char := '\n'
}
