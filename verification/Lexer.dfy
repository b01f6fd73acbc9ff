/**
  The lexical structure of JSONC as functions on the input that remains.
  The imperative scanner is proved against them.
 */
module Lexer {
  import opened Ascii

  datatype Kind =
    | ObjectStart | ObjectEnd | ArrayStart | ArrayEnd
    | NameSeparator | ValueSeparator
    | StringToken | NumberToken | TrueToken | FalseToken | NullToken
    | LineComment | BlockComment | Newline
    | EofToken | ErrorToken

  /** A token: its kind and its value. Positions are recovered by counting
      tokens (see `Extent` below). */
  datatype Token = Token(kind: Kind, text: Bytes)

  /** What `ScanToken` finds at the start of its input. */
  datatype Scanned = Scanned(tok: Token, size: nat)

  /** One step of the scanner: the blanks skipped, and the offset just past the
      token, both relative to the input of the step. */
  datatype Extent = Extent(tok: Token, lead: nat, size: nat)

  const EOF := Token(EofToken, [])
  const ERROR := Token(ErrorToken, [])

  function Plus(k: nat, r: Option<nat>): Option<nat> {
    match r
    case None => None
    case Some(n) => Some(k + n)
  }

  /** The number of leading spaces and tabs. */
  function Blanks(s: Bytes): (n: nat)
    ensures n <= |s|
    ensures n < |s| ==> !IsBlank(s[n])
  {
    if |s| == 0 || !IsBlank(s[0]) then 0 else 1 + Blanks(s[1..])
  }

  /** The number of leading digits. */
  function DigitRun(s: Bytes): (n: nat)
    ensures n <= |s|
    ensures n < |s| ==> !IsDigit(s[n])
  {
    if |s| == 0 || !IsDigit(s[0]) then 0 else 1 + DigitRun(s[1..])
  }

  // Strings

  /** The length of the escape sequence at the start of s, which begins with a
      backslash. */
  function EscapeLen(s: Bytes): (r: Option<nat>)
    requires |s| > 0
    ensures r.Some? ==> 2 <= r.value <= |s|
  {
    if |s| < 2 then None
    else if s[1] in {QUOTE, BACKSLASH, SLASH, 0x62, 0x66, 0x6E, 0x72, 0x74} then Some(2)
    else if s[1] == 0x75 && |s| >= 6 && IsHex(s[2]) && IsHex(s[3]) && IsHex(s[4]) && IsHex(s[5]) then Some(6)
    else None
  }

  /** s is what follows an opening quote; the result counts the bytes through
      the closing quote. */
  function StringTail(s: Bytes): (r: Option<nat>)
    ensures r.Some? ==> 1 <= r.value <= |s| && s[r.value - 1] == QUOTE
  {
    if |s| == 0 then None
    else if s[0] == QUOTE then Some(1)
    else if s[0] == BACKSLASH then
      match EscapeLen(s)
      case None => None
      case Some(k) => Plus(k, StringTail(s[k..]))
    else if s[0] < SPACE then None
    else Plus(1, StringTail(s[1..]))
  }

  // Numbers

  function IntLen(s: Bytes): (r: Option<nat>)
    ensures r.Some? ==> 1 <= r.value <= |s|
  {
    if |s| == 0 || !IsDigit(s[0]) then None
    else if s[0] == ZERO then (if |s| > 1 && IsDigit(s[1]) then None else Some(1))
    else Some(DigitRun(s))
  }

  function FracLen(s: Bytes): (r: Option<nat>)
    ensures r.Some? ==> r.value <= |s|
  {
    if |s| == 0 || s[0] != DOT then Some(0)
    else if DigitRun(s[1..]) == 0 then None
    else Some(1 + DigitRun(s[1..]))
  }

  function ExpLen(s: Bytes): (r: Option<nat>)
    ensures r.Some? ==> r.value <= |s|
  {
    if |s| == 0 || (s[0] != 0x65 && s[0] != 0x45) then Some(0)
    else
      var sign: nat := if |s| > 1 && (s[1] == PLUS || s[1] == MINUS) then 2 else 1;
      if DigitRun(s[sign..]) == 0 then None else Some(sign + DigitRun(s[sign..]))
  }

  function MinusLen(s: Bytes): (n: nat)
    ensures n <= |s|
  {
    if |s| > 0 && s[0] == MINUS then 1 else 0
  }

  /** The fraction and the exponent. */
  function TailLen(s: Bytes): (r: Option<nat>)
    ensures r.Some? ==> r.value <= |s|
  {
    match FracLen(s)
    case None => None
    case Some(f) => Plus(f, ExpLen(s[f..]))
  }

  function UnsignedLen(s: Bytes): (r: Option<nat>)
    ensures r.Some? ==> 1 <= r.value <= |s|
  {
    match IntLen(s)
    case None => None
    case Some(i) => Plus(i, TailLen(s[i..]))
  }

  function NumberLen(s: Bytes): (r: Option<nat>)
    ensures r.Some? ==> 1 <= r.value <= |s|
  {
    Plus(MinusLen(s), UnsignedLen(s[MinusLen(s)..]))
  }

  // Words and comments

  predicate WordAt(s: Bytes, word: Bytes) {
    word <= s && (|s| > |word| ==> !IsWordByte(s[|word|]))
  }

  predicate IsCommentByte(c: byte) { c >= SPACE || c == TAB }

  /** The length of a line comment's text; s follows the two slashes. */
  function LineLen(s: Bytes): (r: Option<nat>)
    ensures r.Some? ==> r.value <= |s|
    ensures r.Some? && r.value < |s| ==> IsLineBreak(s[r.value])
  {
    if |s| == 0 || IsLineBreak(s[0]) then Some(0)
    else if !IsCommentByte(s[0]) then None
    else Plus(1, LineLen(s[1..]))
  }

  /** The length of a block comment's body; s follows the opening delimiter. */
  function BlockLen(s: Bytes): (r: Option<nat>)
    ensures r.Some? ==> r.value + 2 <= |s| && s[r.value] == STAR && s[r.value + 1] == SLASH
  {
    if |s| == 0 then None
    else if s[0] == STAR && |s| > 1 && s[1] == SLASH then Some(0)
    else if !IsCommentByte(s[0]) && !IsLineBreak(s[0]) then None
    else Plus(1, BlockLen(s[1..]))
  }

  /** CR and CRLF become LF. */
  function NormalizeBreaks(s: Bytes): Bytes {
    if |s| == 0 then []
    else if s[0] == CR && |s| > 1 && s[1] == LF then [LF] + NormalizeBreaks(s[2..])
    else if s[0] == CR then [LF] + NormalizeBreaks(s[1..])
    else [s[0]] + NormalizeBreaks(s[1..])
  }

  // Tokens

  function Sized(kind: Kind, s: Bytes, r: Option<nat>): (t: Scanned)
    requires r.Some? ==> r.value <= |s|
  {
    match r
    case None => Scanned(ERROR, 0)
    case Some(n) => Scanned(Token(kind, s[..n]), n)
  }

  function Word(kind: Kind, s: Bytes, word: Bytes): (t: Scanned) {
    if WordAt(s, word) then Scanned(Token(kind, word), |word|) else Scanned(ERROR, 0)
  }

  function ScanComment(s: Bytes, strict: bool): (t: Scanned)
    requires |s| > 0
    ensures t.size <= |s|
    ensures t.tok != ERROR ==> t.size > 0
  {
    if |s| == 1 || strict then Scanned(ERROR, 0)
    else if s[1] == SLASH then
      match LineLen(s[2..])
      case None => Scanned(ERROR, 0)
      case Some(n) => Scanned(Token(LineComment, s[2..2 + n]), 2 + n)
    else if s[1] == STAR then
      match BlockLen(s[2..])
      case None => Scanned(ERROR, 0)
      case Some(n) => Scanned(Token(BlockComment, NormalizeBreaks(s[2..2 + n])), n + 4)
    else Scanned(ERROR, 0)
  }

  function ScanToken(s: Bytes, strict: bool): (t: Scanned)
    requires |s| > 0
    ensures t.size <= |s|
    ensures t.tok != ERROR ==> t.size > 0
    ensures t.tok.kind == ErrorToken ==> t.tok == ERROR
    ensures t.tok.kind != EofToken
  {
    var c := s[0];
    if c == CR then Scanned(Token(Newline, []), if |s| > 1 && s[1] == LF then 2 else 1)
    else if c == LF then Scanned(Token(Newline, []), 1)
    else if c == SLASH then ScanComment(s, strict)
    else if c == LBRACE then Scanned(Token(ObjectStart, [LBRACE]), 1)
    else if c == RBRACE then Scanned(Token(ObjectEnd, [RBRACE]), 1)
    else if c == LBRACKET then Scanned(Token(ArrayStart, [LBRACKET]), 1)
    else if c == RBRACKET then Scanned(Token(ArrayEnd, [RBRACKET]), 1)
    else if c == COLON then Scanned(Token(NameSeparator, [COLON]), 1)
    else if c == COMMA then Scanned(Token(ValueSeparator, [COMMA]), 1)
    else if c == QUOTE then Sized(StringToken, s, Plus(1, StringTail(s[1..])))
    else if c == MINUS || IsDigit(c) then Sized(NumberToken, s, NumberLen(s))
    else if c == 0x74 then Word(TrueToken, s, TRUE_WORD)
    else if c == 0x66 then Word(FalseToken, s, FALSE_WORD)
    else if c == 0x6E then Word(NullToken, s, NULL_WORD)
    else Scanned(ERROR, 0)
  }

  // Where an error is reported

  /** The first bad byte, or the first bad escape sequence, in what follows an
      opening quote; None if the closing quote comes first or nothing does. */
  function StringFault(s: Bytes): (r: Option<nat>)
    ensures r.Some? ==> r.value < |s|
  {
    if |s| == 0 || s[0] == QUOTE then None
    else if s[0] == BACKSLASH then
      match EscapeLen(s)
      case None => Some(0)
      case Some(k) => Plus(k, StringFault(s[k..]))
    else if s[0] < SPACE then Some(0)
    else Plus(1, StringFault(s[1..]))
  }

  /** The first bad byte in the text of a line comment. */
  function LineFault(s: Bytes): (r: Option<nat>)
    ensures r.Some? ==> r.value < |s|
  {
    if |s| == 0 || IsLineBreak(s[0]) then None
    else if !IsCommentByte(s[0]) then Some(0)
    else Plus(1, LineFault(s[1..]))
  }

  /** The first bad byte in the body of a block comment. */
  function BlockFault(s: Bytes): (r: Option<nat>)
    ensures r.Some? ==> r.value < |s|
  {
    if |s| == 0 || (s[0] == STAR && |s| > 1 && s[1] == SLASH) then None
    else if !IsCommentByte(s[0]) && !IsLineBreak(s[0]) then Some(0)
    else Plus(1, BlockFault(s[1..]))
  }

  /** Where the error in the token at the start of s is reported: at what is bad
      inside a string or a comment, and at its start where that is unterminated
      or anything else is wrong. */
  function Fault(s: Bytes, strict: bool): (n: nat)
    ensures n <= |s|
  {
    if |s| > 0 && s[0] == QUOTE then FaultFrom(1, StringFault(s[1..]))
    else if |s| > 1 && s[0] == SLASH && s[1] == SLASH && !strict then FaultFrom(2, LineFault(s[2..]))
    else if |s| > 1 && s[0] == SLASH && s[1] == STAR && !strict then FaultFrom(2, BlockFault(s[2..]))
    else 0
  }

  function FaultFrom(k: nat, r: Option<nat>): nat {
    match r
    case None => 0
    case Some(n) => k + n
  }

  /** One call of the scanner's next. */
  function Next(s: Bytes, strict: bool): (e: Extent)
    ensures e.lead <= e.size <= |s|
    ensures e.tok.kind == EofToken ==> e.tok == EOF && e.lead == |s|
    ensures e.tok.kind == ErrorToken ==> e.tok == ERROR
    ensures e.tok != EOF && e.tok != ERROR ==> e.lead < e.size
  {
    var b := Blanks(s);
    if b == |s| then Extent(EOF, b, b)
    else
      var t := ScanToken(s[b..], strict);
      Extent(t.tok, b, b + t.size)
  }

  /** The tokens of s, without the end of input; an error is the last token. */
  function Tokens(s: Bytes, strict: bool): (ts: seq<Token>)
    decreases |s|
  {
    var e := Next(s, strict);
    if e.tok == EOF then []
    else if e.tok == ERROR then [ERROR]
    else [e.tok] + Tokens(s[e.size..], strict)
  }
}
