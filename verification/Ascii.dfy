/** Bytes and the character classes that the scanner and the printer test. */
module Ascii {
  newtype byte = x: int | 0 <= x < 256
  type Bytes = seq<byte>

  datatype Option<+T> = None | Some(value: T)

  const TAB: byte := 0x09
  const LF: byte := 0x0A
  const CR: byte := 0x0D
  const SPACE: byte := 0x20
  const QUOTE: byte := 0x22
  const PLUS: byte := 0x2B
  const COMMA: byte := 0x2C
  const MINUS: byte := 0x2D
  const DOT: byte := 0x2E
  const SLASH: byte := 0x2F
  const STAR: byte := 0x2A
  const ZERO: byte := 0x30
  const NINE: byte := 0x39
  const COLON: byte := 0x3A
  const LBRACKET: byte := 0x5B
  const BACKSLASH: byte := 0x5C
  const RBRACKET: byte := 0x5D
  const LBRACE: byte := 0x7B
  const RBRACE: byte := 0x7D

  const TRUE_WORD: Bytes := [0x74, 0x72, 0x75, 0x65]
  const FALSE_WORD: Bytes := [0x66, 0x61, 0x6C, 0x73, 0x65]
  const NULL_WORD: Bytes := [0x6E, 0x75, 0x6C, 0x6C]

  /** The byte order mark of UTF-8. */
  const UTF8_BOM: Bytes := [0xEF, 0xBB, 0xBF]

  predicate IsBlank(c: byte) { c == SPACE || c == TAB }

  predicate AllBlank(s: Bytes) { forall i :: 0 <= i < |s| ==> IsBlank(s[i]) }

  predicate IsDigit(c: byte) { ZERO <= c <= NINE }

  predicate IsLetter(c: byte) { 0x61 <= c <= 0x7A || 0x41 <= c <= 0x5A }

  predicate IsHex(c: byte) { IsDigit(c) || 0x61 <= c <= 0x66 || 0x41 <= c <= 0x46 }

  /** A byte that may not follow `true`, `false` or `null`. */
  predicate IsWordByte(c: byte) { IsLetter(c) || IsDigit(c) || c == 0x5F }

  predicate IsLineBreak(c: byte) { c == LF || c == CR }
}
