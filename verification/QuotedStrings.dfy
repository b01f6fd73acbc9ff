/**
  JSON string tokens and the text they spell: the reading side (strings.go)
  and the writing side (encode.go) as functions, and the laws between them.
 */
module QuotedStrings {
  import opened Ascii
  import opened Utf8
  import opened Lexer

  // Reading

  function HexValue(c: byte): (v: nat)
    requires IsHex(c)
    ensures v < 16
  {
    if IsDigit(c) then (c - ZERO) as nat
    else if c >= 0x61 then (c - 0x61) as nat + 10
    else (c - 0x41) as nat + 10
  }

  /** The number that four hexadecimal digits at the start of s denote. */
  function Hex4(s: Bytes): (r: Option<nat>)
    requires |s| >= 4
    ensures r.Some? ==> r.value < 0x10000
  {
    if IsHex(s[0]) && IsHex(s[1]) && IsHex(s[2]) && IsHex(s[3]) then
      Some(((HexValue(s[0]) * 16 + HexValue(s[1])) * 16 + HexValue(s[2])) * 16 + HexValue(s[3]))
    else None
  }

  predicate IsHighSurrogate(r: nat) { 0xD800 <= r < 0xDC00 }

  predicate IsLowSurrogate(r: nat) { 0xDC00 <= r < 0xE000 }

  function CombineSurrogates(hi: nat, lo: nat): (r: nat)
    requires IsHighSurrogate(hi) && IsLowSurrogate(lo)
    ensures 0x10000 <= r <= 0x10FFFF
  {
    (hi - 0xD800) * 0x400 + (lo - 0xDC00) + 0x10000
  }

  /** What an escape sequence spells, and its length. */
  datatype Escape = Escape(out: Bytes, size: nat)

  function DecodeUnicodeEscape(s: Bytes): (r: Option<Escape>)
    requires |s| > 1
    ensures r.Some? ==> 6 <= r.value.size <= |s|
  {
    if |s| < 6 then None
    else
      match Hex4(s[2..6])
      case None => None
      case Some(hi) =>
        if !IsHighSurrogate(hi) && !IsLowSurrogate(hi) then Some(Escape(EncodeRune(hi), 6))
        else if |s| >= 12 && s[6] == BACKSLASH && s[7] == 0x75 && Hex4(s[8..12]).Some?
                && IsHighSurrogate(hi) && IsLowSurrogate(Hex4(s[8..12]).value) then
          Some(Escape(EncodeRune(CombineSurrogates(hi, Hex4(s[8..12]).value)), 12))
        else Some(Escape(REPLACEMENT, 6))
  }

  function DecodeEscape(s: Bytes): (r: Option<Escape>)
    requires |s| > 1
    ensures r.Some? ==> 2 <= r.value.size <= |s|
  {
    var c := s[1];
    if c == QUOTE || c == BACKSLASH || c == SLASH then Some(Escape([c], 2))
    else if c == 0x62 then Some(Escape([0x08], 2))
    else if c == 0x66 then Some(Escape([0x0C], 2))
    else if c == 0x6E then Some(Escape([LF], 2))
    else if c == 0x72 then Some(Escape([CR], 2))
    else if c == 0x74 then Some(Escape([TAB], 2))
    else if c == 0x75 then DecodeUnicodeEscape(s)
    else None
  }

  function Prepend(a: Bytes, r: Option<Bytes>): Option<Bytes> {
    match r
    case None => None
    case Some(b) => Some(a + b)
  }

  /** The text that the inside of a quoted string spells. */
  function Unescape(s: Bytes): (r: Option<Bytes>)
    decreases |s|
  {
    if s == [] then Some([])
    else if s[0] >= 0x80 then
      if RuneSize(s) == 0 then Prepend(REPLACEMENT, Unescape(s[1..]))
      else Prepend(s[..RuneSize(s)], Unescape(s[RuneSize(s)..]))
    else if s[0] != BACKSLASH then Prepend([s[0]], Unescape(s[1..]))
    else if |s| < 2 then None
    else
      match DecodeEscape(s)
      case None => None
      case Some(e) => Prepend(e.out, Unescape(s[e.size..]))
  }

  predicate IsQuoted(raw: Bytes) { |raw| >= 2 && raw[0] == QUOTE && raw[|raw| - 1] == QUOTE }

  function Unquote(raw: Bytes): (r: Option<Bytes>) {
    if IsQuoted(raw) then Unescape(raw[1..|raw| - 1]) else None
  }

  /** raw is, as a whole, one string token of the scanner. */
  predicate IsStringToken(raw: Bytes) {
    |raw| >= 2 && raw[0] == QUOTE && StringTail(raw[1..]) == Some(|raw| - 1)
  }

  // Writing

  function HexDigit(n: nat): (c: byte)
    requires n < 16
    ensures IsHex(c) && HexValue(c) == n
  {
    if n < 10 then ZERO + n as byte else 0x61 + (n - 10) as byte
  }

  function UnicodeEscape(n: nat): (s: Bytes)
    requires n < 0x10000
    ensures |s| == 6
  {
    [BACKSLASH, 0x75, HexDigit(n / 0x1000), HexDigit(n / 0x100 % 16), HexDigit(n / 16 % 16), HexDigit(n % 16)]
  }

  predicate IsHtmlByte(c: byte) { c == 0x3C || c == 0x3E || c == 0x26 }

  /** U+2028 or U+2029 at the start of s. */
  predicate LineSeparatorAt(s: Bytes) {
    |s| > 2 && s[0] == 0xE2 && s[1] == 0x80 && (s[2] == 0xA8 || s[2] == 0xA9)
  }

  function ShortEscape(c: byte): (r: Option<byte>) {
    if c == QUOTE || c == BACKSLASH then Some(c)
    else if c == 0x08 then Some(0x62)
    else if c == 0x0C then Some(0x66)
    else if c == LF then Some(0x6E)
    else if c == CR then Some(0x72)
    else if c == TAB then Some(0x74)
    else None
  }

  /** What is written for the first character of s, and the bytes it takes. */
  function QuoteStep(s: Bytes, html: bool): (e: Escape)
    requires |s| > 0
    ensures 1 <= e.size <= |s|
  {
    if html && LineSeparatorAt(s) then Escape(UnicodeEscape(if s[2] == 0xA8 then 0x2028 else 0x2029), 3)
    else if ShortEscape(s[0]).Some? then Escape([BACKSLASH, ShortEscape(s[0]).value], 1)
    else if s[0] < SPACE || (html && IsHtmlByte(s[0])) then Escape(UnicodeEscape(s[0] as nat), 1)
    else if s[0] < 0x80 then Escape([s[0]], 1)
    else if RuneSize(s) == 0 then Escape(REPLACEMENT, 1)
    else Escape(s[..RuneSize(s)], RuneSize(s))
  }

  function QuoteBody(s: Bytes, html: bool): Bytes
    decreases |s|
  {
    if s == [] then [] else QuoteStep(s, html).out + QuoteBody(s[QuoteStep(s, html).size..], html)
  }

  function Quote(s: Bytes, html: bool): Bytes { [QUOTE] + QuoteBody(s, html) + [QUOTE] }

  // What strings.ContainsAny(raw, "<>&\u2028\u2029") looks for.
  predicate NeedsHtmlEscape(s: Bytes)
    decreases |s|
  {
    s != [] && (IsHtmlByte(s[0]) || LineSeparatorAt(s) || NeedsHtmlEscape(s[1..]))
  }

  /** The source text raw may be written as it is. */
  predicate RawStringOk(raw: Bytes, html: bool) {
    raw != [] && Valid(raw) && (html ==> !NeedsHtmlEscape(raw))
  }

  /** The text written for a string with source text raw that spells value. */
  function SourceString(raw: Bytes, value: Bytes, html: bool): Bytes {
    if RawStringOk(raw, html) then raw else Quote(value, html)
  }
}
