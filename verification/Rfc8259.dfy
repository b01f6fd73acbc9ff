/**
  The grammar of sections 2 to 7 of RFC 8259, on bytes, as derivation trees and
  the text they yield. A strict parser without limits, duplicate keys allowed,
  accepts exactly what the grammar derives.
 */
module Rfc8259 {
  import opened Ascii

  // Section 2: insignificant whitespace, and the structural characters

  predicate IsWsByte(c: byte) { c == SPACE || c == TAB || c == LF || c == CR }

  predicate IsWs(s: Bytes) { forall i :: 0 <= i < |s| ==> IsWsByte(s[i]) }

  /** The whitespace around a structural character. */
  datatype Mark = Mark(before: Bytes, after: Bytes)

  predicate MarkOk(m: Mark) { IsWs(m.before) && IsWs(m.after) }

  function Marked(m: Mark, c: byte): Bytes { m.before + [c] + m.after }

  // Section 6: numbers

  datatype Exponent = Exponent(e: byte, sign: Bytes, digits: Bytes)

  datatype Number = Number(minus: Bytes, whole: Bytes, frac: Option<Bytes>, exp: Option<Exponent>)

  predicate AllDigits(s: Bytes) { forall i :: 0 <= i < |s| ==> IsDigit(s[i]) }

  predicate NumberOk(n: Number) {
    (n.minus == [] || n.minus == [MINUS])
    && (n.whole == [ZERO] || (n.whole != [] && n.whole[0] != ZERO && AllDigits(n.whole)))
    && (n.frac.Some? ==> n.frac.value != [] && AllDigits(n.frac.value))
    && (n.exp.Some? ==>
          (n.exp.value.e == 0x65 || n.exp.value.e == 0x45)
          && (n.exp.value.sign == [] || n.exp.value.sign == [PLUS] || n.exp.value.sign == [MINUS])
          && n.exp.value.digits != [] && AllDigits(n.exp.value.digits))
  }

  function FracText(f: Option<Bytes>): Bytes { if f == None then [] else [DOT] + f.value }

  function ExpText(x: Option<Exponent>): Bytes {
    if x == None then [] else [x.value.e] + x.value.sign + x.value.digits
  }

  function NumberText(n: Number): Bytes { n.minus + (n.whole + (FracText(n.frac) + ExpText(n.exp))) }

  // Section 7: strings

  datatype Char = Unescaped(c: byte) | Escaped(c: byte) | Unicode(hex: Bytes)

  predicate CharOk(ch: Char) {
    match ch
    case Unescaped(c) => c >= 0x20 && c != QUOTE && c != BACKSLASH
    case Escaped(c) => c in {QUOTE, BACKSLASH, SLASH, 0x62, 0x66, 0x6E, 0x72, 0x74}
    case Unicode(h) => |h| == 4 && IsHex(h[0]) && IsHex(h[1]) && IsHex(h[2]) && IsHex(h[3])
  }

  predicate CharsOk(chars: seq<Char>) { forall i :: 0 <= i < |chars| ==> CharOk(chars[i]) }

  function CharText(ch: Char): Bytes {
    match ch
    case Unescaped(c) => [c]
    case Escaped(c) => [BACKSLASH, c]
    case Unicode(h) => [BACKSLASH, 0x75] + h
  }

  function CharsText(chars: seq<Char>): Bytes {
    if chars == [] then [] else CharText(chars[0]) + CharsText(chars[1..])
  }

  function StringText(chars: seq<Char>): Bytes { [QUOTE] + (CharsText(chars) + [QUOTE]) }

  // Sections 3 to 5: values, objects, arrays

  datatype Json =
    | Literal(word: Bytes)
    | Numeral(number: Number)
    | Text(chars: seq<Char>)
    | Container(obj: bool, begin: Mark, kids: Option<Kids>, end: Mark)

  datatype Kids = Last(kid: Kid) | Then(kid: Kid, comma: Mark, rest: Kids)

  datatype Kid = Element(value: Json) | Member(key: seq<Char>, colon: Mark, value: Json)

  predicate JsonOk(j: Json) {
    match j
    case Literal(w) => w in {TRUE_WORD, FALSE_WORD, NULL_WORD}
    case Numeral(n) => NumberOk(n)
    case Text(cs) => CharsOk(cs)
    case Container(obj, b, kids, e) => MarkOk(b) && MarkOk(e) && (kids.Some? ==> KidsOk(kids.value, obj))
  }

  predicate KidsOk(kids: Kids, obj: bool) {
    KidOk(kids.kid, obj) && (kids.Then? ==> MarkOk(kids.comma) && KidsOk(kids.rest, obj))
  }

  predicate KidOk(kid: Kid, obj: bool) {
    JsonOk(kid.value) && kid.Member? == obj && (obj ==> CharsOk(kid.key) && MarkOk(kid.colon))
  }

  function Yield(j: Json): Bytes {
    match j
    case Literal(w) => w
    case Numeral(n) => NumberText(n)
    case Text(cs) => StringText(cs)
    case Container(obj, b, kids, e) =>
      Marked(b, if obj then LBRACE else LBRACKET)
      + (if kids.Some? then YieldKids(kids.value) else [])
      + Marked(e, if obj then RBRACE else RBRACKET)
  }

  function YieldKids(kids: Kids): Bytes {
    match kids
    case Last(kid) => YieldKid(kid)
    case Then(kid, m, rest) => YieldKid(kid) + Marked(m, COMMA) + YieldKids(rest)
  }

  function YieldKid(kid: Kid): Bytes {
    match kid
    case Element(v) => Yield(v)
    case Member(k, m, v) => StringText(k) + Marked(m, COLON) + Yield(v)
  }

  /** JSON-text = ws value ws */
  ghost predicate Derivable(s: Bytes) {
    exists w: Bytes, j: Json, z: Bytes :: Derives(w, j, z, s)
  }

  predicate Derives(w: Bytes, j: Json, z: Bytes, s: Bytes) {
    IsWs(w) && JsonOk(j) && IsWs(z) && s == w + Yield(j) + z
  }
}
