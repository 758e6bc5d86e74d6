/** The structural characters and the white space of a JSON text (section 2 of RFC 8259). */
module JsonTokens {
  import opened Wrappers

  const BEGIN_ARRAY: byte := 0x5b
  const END_ARRAY: byte := 0x5d
  const BEGIN_OBJECT: byte := 0x7b
  const END_OBJECT: byte := 0x7d
  const VALUE_SEPARATOR: byte := 0x2c
  const QUOTATION_MARK: byte := 0x22
  const ESCAPE: byte := 0x5c

  predicate IsWhitespace(c: byte) { c == 0x20 || c == 0x09 || c == 0x0a || c == 0x0d }
}
