/**
  The scanner as it runs: one pass over the source, a byte at a time, with line
  and column counters. Each method is proved against the lexer, and every
  position it keeps or reports is located in the source.
 */
module Scanner {
  import opened Ascii
  import opened Lexer
  import opened Positions

  datatype PlacedToken = PlacedToken(kind: Kind, value: Bytes, at: Position)

  datatype ScanError = ScanError(at: Position)

  /** A token's value; a raw scanner leaves out that of strings and numbers. */
  function ValueKept(t: Token, rawOnly: bool): Bytes {
    if rawOnly && t.kind in {StringToken, NumberToken} then [] else t.text
  }

  /** Where the error in a string or comment is reported: at its fault, counted
      from `from`, or else at its start. */
  function Reported(start: Position, from: nat, fault: Option<nat>): nat {
    match fault
    case None => start.offset
    case Some(k) => from + k
  }

  class Scanner {
    const src: Bytes
    const strictJSON: bool
    const rawOnly: bool
    var pos: nat
    var line: nat
    var col: nat
    var tok: PlacedToken

    constructor (source: Bytes, strict: bool, raw: bool)
      ensures src == source && strictJSON == strict && rawOnly == raw
      ensures pos == 0 && Valid()
    {
      src, strictJSON, rawOnly := source, strict, raw;
      pos, line, col := 0, 1, 1;
      tok := PlacedToken(ErrorToken, [], Position(1, 1, 0));
      new;
      assert LineStart(source, 1) == Some(0);
    }

    function Here(): Position
      reads this
    {
      Position(line, col, pos)
    }

    /** The position invariant. */
    predicate Valid()
      reads this
    {
      pos <= |src| && Located(src, Here())
    }

    predicate AtEnd()
      reads this
    {
      pos >= |src|
    }

    /** An error at this offset; line and column are the offset's own. */
    predicate Blames(err: Option<ScanError>, offset: nat)
      reads this
    {
      err.Some? && Located(src, err.value.at) && err.value.at.offset == offset
    }

    /** The token just scanned is t, which began at start. */
    predicate Emitted(start: nat, t: Scanned)
      reads this
    {
      pos == start + t.size && tok.kind == t.tok.kind && tok.value == ValueKept(t.tok, rawOnly)
      && Located(src, tok.at) && tok.at.offset == if tok.kind == Newline then pos else start
    }

    method Advance()
      requires Valid()
      modifies this`pos, this`line, this`col
      ensures Valid()
      ensures !old(AtEnd()) ==> Here() == Advanced(src, old(Here()))
      ensures old(AtEnd()) ==> Here() == old(Here())
    {
      hide Located;
      if pos >= |src| {
        return;
      }
      AdvancedIsLocated(src, Here());
      if src[pos] == LF {
        line := line + 1;
        col := 1;
      } else if src[pos] == CR {
        // A CRLF is counted at its LF.
        if pos + 1 < |src| && src[pos + 1] == LF {
          col := col + 1;
        } else {
          line := line + 1;
          col := 1;
        }
      } else {
        col := col + 1;
      }
      pos := pos + 1;
    }

    method AdvanceBy(n: nat)
      requires Valid() && pos + n <= |src|
      modifies this`pos, this`line, this`col
      ensures Valid() && pos == old(pos) + n
    {
      hide Located;
      for i := 0 to n
        invariant Valid() && pos == old(pos) + i
      {
        Advance();
      }
    }

    method Emit(kind: Kind, value: Bytes)
      modifies this`tok
      ensures tok == PlacedToken(kind, value, Here())
    {
      tok := PlacedToken(kind, value, Here());
    }

    method EmitAdvance(kind: Kind, value: Bytes)
      requires Valid() && !AtEnd()
      modifies this
      ensures Valid() && pos == old(pos) + 1
      ensures tok == PlacedToken(kind, value, old(Here()))
    {
      hide Located;
      Emit(kind, value);
      Advance();
    }

    method SkipDigits()
      requires Valid()
      modifies this`pos, this`line, this`col
      ensures Valid() && pos == old(pos) + DigitRun(src[old(pos)..])
    {
      hide Located;
      var start := pos;
      while !AtEnd() && IsDigit(src[pos])
        invariant Valid() && start <= pos <= |src|
        invariant DigitRun(src[start..]) == pos - start + DigitRun(src[pos..])
        decreases |src| - pos
      {
        assert src[pos..][1..] == src[pos + 1..];
        Advance();
      }
    }

    // Strings

    method ScanEscape() returns (err: Option<ScanError>)
      requires Valid() && !AtEnd()
      modifies this`pos, this`line, this`col
      ensures Valid()
      ensures match EscapeLen(src[old(pos)..])
              case None => Blames(err, old(pos))
              case Some(n) => err == None && pos == old(pos) + n
    {
      hide Located;
      var escPos := Here();
      ghost var s := src[pos..];
      Advance();
      if AtEnd() {
        return Some(ScanError(escPos));
      }
      var ch := src[pos];
      assert ch == s[1];
      if ch in {QUOTE, BACKSLASH, SLASH, 0x62, 0x66, 0x6E, 0x72, 0x74} {
        Advance();
        return None;
      }
      if ch != 0x75 {
        return Some(ScanError(escPos));
      }
      Advance();
      if pos + 4 > |src| {
        return Some(ScanError(escPos));
      }
      for i := 0 to 4
        invariant forall j :: 2 <= j < 2 + i ==> IsHex(s[j])
      {
        assert src[pos + i] == s[2 + i];
        if !IsHex(src[pos + i]) {
          return Some(ScanError(escPos));
        }
      }
      AdvanceBy(4);
      return None;
    }

    method ScanString() returns (err: Option<ScanError>)
      requires Valid() && !AtEnd() && src[pos] == QUOTE
      modifies this
      ensures Valid()
      ensures var t := ScanToken(src[old(pos)..], strictJSON);
              if t.tok == ERROR then Blames(err, old(pos) + Fault(src[old(pos)..], strictJSON))
              else err == None && Emitted(old(pos), t)
    {
      hide Located, ScanToken, StringTail, StringFault, Fault;
      var startPos := Here();
      StringScanned(src, pos, strictJSON);
      Advance();
      err := ScanStringTail(startPos);
      if err == None {
        tok := PlacedToken(StringToken, if rawOnly then [] else src[startPos.offset..pos], startPos);
      }
    }

    /** The characters of a string, through the closing quote. */
    method ScanStringTail(startPos: Position) returns (err: Option<ScanError>)
      requires Valid() && Located(src, startPos)
      modifies this`pos, this`line, this`col
      ensures Valid()
      ensures match StringTail(src[old(pos)..])
              case None => Blames(err, Reported(startPos, old(pos), StringFault(src[old(pos)..])))
              case Some(n) => err == None && pos == old(pos) + n
    {
      hide Located, EscapeLen, StringTail, StringFault, InString;
      ghost var start := pos;
      StringBegins(src, start);
      while !AtEnd()
        invariant Valid() && InString(src, start, pos)
        decreases |src| - pos
      {
        var ch := src[pos];
        StringGoesOn(src, start, pos);
        if ch == QUOTE {
          Advance();
          return None;
        } else if ch == BACKSLASH {
          err := ScanEscape();
          if err.Some? {
            return;
          }
        } else if ch < SPACE {
          return Some(ScanError(Here()));
        } else {
          Advance();
        }
      }
      StringEnds(src, start, pos);
      return Some(ScanError(startPos));
    }

    // Numbers

    /** The integer part, after a minus sign. */
    method ScanInt() returns (ok: bool)
      requires Valid() && !AtEnd()
      modifies this`pos, this`line, this`col
      ensures Valid()
      ensures match IntLen(src[old(pos)..]) case None => !ok case Some(n) => ok && pos == old(pos) + n
    {
      hide Located;
      ghost var s := src[pos..];
      var first := src[pos];
      if !IsDigit(first) {
        return false;
      }
      if first == ZERO {
        Advance();
        // After a leading 0 there must be no digit.
        if !AtEnd() {
          assert src[pos] == s[1];
          if IsDigit(src[pos]) {
            return false;
          }
        }
      } else {
        SkipDigits();
      }
      return true;
    }

    method ScanFrac() returns (ok: bool)
      requires Valid()
      modifies this`pos, this`line, this`col
      ensures Valid()
      ensures match FracLen(src[old(pos)..]) case None => !ok case Some(n) => ok && pos == old(pos) + n
    {
      hide Located;
      ghost var s := src[pos..];
      if !AtEnd() && src[pos] == DOT {
        Advance();
        assert s[1..] == src[pos..];
        if AtEnd() || !IsDigit(src[pos]) {
          return false;
        }
        SkipDigits();
      }
      return true;
    }

    method ScanExp() returns (ok: bool)
      requires Valid()
      modifies this`pos, this`line, this`col
      ensures Valid()
      ensures match ExpLen(src[old(pos)..]) case None => !ok case Some(n) => ok && pos == old(pos) + n
    {
      hide Located;
      ghost var s := src[pos..];
      if !AtEnd() && (src[pos] == 0x65 || src[pos] == 0x45) {
        Advance();
        assert s[1..] == src[pos..];
        if AtEnd() {
          return false;
        }
        assert s[1] == src[pos];
        if src[pos] == PLUS || src[pos] == MINUS {
          Advance();
          assert s[2..] == src[pos..];
          if AtEnd() {
            return false;
          }
        }
        if !IsDigit(src[pos]) {
          return false;
        }
        SkipDigits();
      }
      return true;
    }

    /** Sign, integer part, fraction and exponent. */
    method ScanNumberParts() returns (ok: bool)
      requires Valid() && !AtEnd()
      modifies this`pos, this`line, this`col
      ensures Valid()
      ensures match NumberEnd(src, old(pos)) case None => !ok case Some(end) => ok && pos == end
    {
      hide Located, IntLen, FracLen, ExpLen;
      if src[pos] == MINUS {
        Advance();
        if AtEnd() {
          assert src[pos..] == [];
          NoIntAtEnd();
          return false;
        }
      }
      ok := ScanInt();
      if ok {
        ok := ScanFrac();
      }
      if ok {
        ok := ScanExp();
      }
    }

    method ScanNumber() returns (err: Option<ScanError>)
      requires Valid() && !AtEnd() && (src[pos] == MINUS || IsDigit(src[pos]))
      modifies this
      ensures Valid()
      ensures var t := ScanToken(src[old(pos)..], strictJSON);
              if t.tok == ERROR then Blames(err, old(pos))
              else err == None && Emitted(old(pos), t)
    {
      hide Located, NumberEnd, ScanToken;
      var startPos := Here();
      NumberScanned(src, pos, strictJSON);
      var ok := ScanNumberParts();
      if !ok {
        return Some(ScanError(startPos));
      }
      tok := PlacedToken(NumberToken, if rawOnly then [] else src[startPos.offset..pos], startPos);
      return None;
    }

    // Words

    method ScanLiteralWord(word: Bytes, kind: Kind) returns (err: Option<ScanError>)
      requires Valid() && !AtEnd() && kind in {TrueToken, FalseToken, NullToken}
      modifies this
      ensures Valid()
      ensures var t := Word(kind, src[old(pos)..], word);
              if t.tok == ERROR then Blames(err, old(pos))
              else err == None && Emitted(old(pos), t)
    {
      hide Located;
      var startPos := Here();
      ghost var s := src[pos..];
      if pos + |word| > |src| {
        return Some(ScanError(startPos));
      }
      assert src[pos..pos + |word|] == s[..|word|];
      if src[pos..pos + |word|] != word {
        return Some(ScanError(startPos));
      }
      // The word must not go on, as in "nullable".
      if pos + |word| < |src| {
        assert src[pos + |word|] == s[|word|];
        if IsWordByte(src[pos + |word|]) {
          return Some(ScanError(startPos));
        }
      }
      AdvanceBy(|word|);
      tok := PlacedToken(kind, word, startPos);
      return None;
    }

    // Comments

    method ScanComment() returns (err: Option<ScanError>)
      requires Valid() && !AtEnd() && src[pos] == SLASH
      modifies this
      ensures Valid()
      ensures var t := Lexer.ScanComment(src[old(pos)..], strictJSON);
              if t.tok == ERROR then Blames(err, old(pos) + Fault(src[old(pos)..], strictJSON))
              else err == None && Emitted(old(pos), t)
    {
      hide Located, LineLen, BlockLen, LineFault, BlockFault, NormalizeBreaks;
      var startPos := Here();
      ghost var s := src[pos..];
      if pos + 1 >= |src| {
        return Some(ScanError(startPos));
      }
      assert src[pos + 1] == s[1];
      if src[pos + 1] == SLASH {
        err := ScanLineComment(startPos);
      } else if src[pos + 1] == STAR {
        err := ScanBlockComment(startPos);
      } else {
        err := Some(ScanError(startPos));
      }
    }

    method ScanLineComment(startPos: Position) returns (err: Option<ScanError>)
      requires Valid() && pos + 1 < |src| && src[pos] == SLASH && src[pos + 1] == SLASH && startPos == Here()
      modifies this
      ensures Valid()
      ensures var t := Lexer.ScanComment(src[old(pos)..], strictJSON);
              if t.tok == ERROR then Blames(err, old(pos) + Fault(src[old(pos)..], strictJSON))
              else err == None && Emitted(old(pos), t)
    {
      hide Located, Lexer.ScanComment, LineLen, LineFault, Fault;
      LineScanned(src, pos, strictJSON);
      if strictJSON {
        return Some(ScanError(startPos));
      }
      Advance();
      Advance();
      var textStart := pos;
      err := SkipLineText();
      if err == None {
        tok := PlacedToken(LineComment, src[textStart..pos], startPos);
      }
    }

    method SkipLineText() returns (err: Option<ScanError>)
      requires Valid()
      modifies this`pos, this`line, this`col
      ensures Valid()
      ensures match LineLen(src[old(pos)..])
              case None => LineFault(src[old(pos)..]).Some? && Blames(err, old(pos) + LineFault(src[old(pos)..]).value)
              case Some(n) => err == None && pos == old(pos) + n
    {
      hide Located;
      ghost var textStart := pos;
      while !AtEnd() && !IsLineBreak(src[pos])
        invariant Valid() && textStart <= pos <= |src|
        invariant LineLen(src[textStart..]) == Plus(pos - textStart, LineLen(src[pos..]))
        invariant LineFault(src[textStart..]) == Plus(pos - textStart, LineFault(src[pos..]))
        decreases |src| - pos
      {
        if !IsCommentByte(src[pos]) {
          return Some(ScanError(Here()));
        }
        assert src[pos..][1..] == src[pos + 1..];
        Advance();
      }
      return None;
    }

    method ScanBlockComment(startPos: Position) returns (err: Option<ScanError>)
      requires Valid() && pos + 1 < |src| && src[pos] == SLASH && src[pos + 1] == STAR && startPos == Here()
      modifies this
      ensures Valid()
      ensures var t := Lexer.ScanComment(src[old(pos)..], strictJSON);
              if t.tok == ERROR then Blames(err, old(pos) + Fault(src[old(pos)..], strictJSON))
              else err == None && Emitted(old(pos), t)
    {
      hide Located, Lexer.ScanComment, BlockLen, BlockFault, Fault, NormalizeBreaks;
      BlockScanned(src, pos, strictJSON);
      if strictJSON {
        return Some(ScanError(startPos));
      }
      Advance();
      Advance();
      var text;
      text, err := ScanBlockBody(startPos);
      if err == None {
        Advance();
        Advance();
        tok := PlacedToken(BlockComment, text, startPos);
      }
    }

    /** A CR, and the LF behind it if there is one. */
    method SkipBreak()
      requires Valid() && !AtEnd() && src[pos] == CR
      modifies this`pos, this`line, this`col
      ensures Valid() && pos == old(pos) + (if old(pos) + 1 < |src| && src[old(pos) + 1] == LF then 2 else 1)
      ensures InBody(src, old(pos), pos)
    {
      hide Located, InBody;
      InBodyStart(src, pos);
      InBodyByte(src, pos, pos);
      Advance();
      if !AtEnd() && src[pos] == LF {
        InBodyByte(src, pos - 1, pos);
        Advance();
      }
    }

    /** The body of a block comment, with its line breaks normalized. The copy
        is made from the first CR on. */
    method ScanBlockBody(startPos: Position) returns (text: Bytes, err: Option<ScanError>)
      requires Valid() && Located(src, startPos)
      modifies this`pos, this`line, this`col
      ensures Valid()
      ensures match BlockLen(src[old(pos)..])
              case None => Blames(err, Reported(startPos, old(pos), BlockFault(src[old(pos)..])))
              case Some(n) => err == None && pos == old(pos) + n && text == NormalizeBreaks(src[old(pos)..pos])
    {
      hide Located, NormalizeBreaks, BlockLen, BlockFault, CopySoFar, InBody;
      var textStart := pos;
      var buf: Bytes := [];
      var hasCR := false;
      NothingCopied(src, textStart);
      InBodyStart(src, textStart);
      while !AtEnd()
        invariant Valid() && textStart <= pos <= |src|
        invariant InBody(src, textStart, pos) && CopySoFar(src, textStart, pos, hasCR, buf)
        decreases |src| - pos
      {
        var ch := src[pos];
        if ch == STAR && pos + 1 < |src| && src[pos + 1] == SLASH {
          CopyDone(src, textStart, pos, hasCR, buf);
          InBodyEnds(src, textStart, pos);
          return if hasCR then buf else src[textStart..pos], None;
        }
        if ch == CR {
          CopyBreak(src, textStart, pos, hasCR, buf);
          if !hasCR {
            buf := buf + src[textStart..pos];
            hasCR := true;
          }
          buf := buf + [LF];
          ghost var at := pos;
          SkipBreak();
          InBodyThen(src, textStart, at, pos);
        } else {
          if !IsCommentByte(ch) && ch != LF {
            InBodyEnds(src, textStart, pos);
            return [], Some(ScanError(Here()));
          }
          CopyByte(src, textStart, pos, hasCR, buf);
          InBodyByte(src, textStart, pos);
          if hasCR {
            buf := buf + [ch];
          }
          Advance();
        }
      }
      InBodyEnds(src, textStart, pos);
      return [], Some(ScanError(startPos));
    }

    // Tokens

    method ScanNext() returns (err: Option<ScanError>)
      requires Valid() && !AtEnd()
      modifies this
      ensures Valid()
      ensures var t := ScanToken(src[old(pos)..], strictJSON);
              if t.tok == ERROR then Blames(err, old(pos) + Fault(src[old(pos)..], strictJSON))
              else err == None && Emitted(old(pos), t)
    {
      hide Located, StringTail, NumberLen, Lexer.ScanComment, Word, StringFault, LineFault, BlockFault;
      var ch := src[pos];
      assert src[pos..][0] == ch;
      err := None;
      if ch == CR {
        ghost var s := src[pos..];
        Advance();
        if !AtEnd() && src[pos] == LF {
          assert s[1] == LF;
          Advance();
        } else {
          assert |s| > 1 ==> s[1] != LF;
        }
        Emit(Newline, []);
      } else if ch == LF {
        Advance();
        Emit(Newline, []);
      } else if ch == SLASH {
        err := ScanComment();
      } else if ch == LBRACE {
        EmitAdvance(ObjectStart, [LBRACE]);
      } else if ch == RBRACE {
        EmitAdvance(ObjectEnd, [RBRACE]);
      } else if ch == LBRACKET {
        EmitAdvance(ArrayStart, [LBRACKET]);
      } else if ch == RBRACKET {
        EmitAdvance(ArrayEnd, [RBRACKET]);
      } else if ch == COLON {
        EmitAdvance(NameSeparator, [COLON]);
      } else if ch == COMMA {
        EmitAdvance(ValueSeparator, [COMMA]);
      } else if ch == QUOTE {
        err := ScanString();
      } else if ch == MINUS || IsDigit(ch) {
        err := ScanNumber();
      } else if ch == 0x74 {
        err := ScanLiteralWord(TRUE_WORD, TrueToken);
      } else if ch == 0x66 {
        err := ScanLiteralWord(FALSE_WORD, FalseToken);
      } else if ch == 0x6E {
        err := ScanLiteralWord(NULL_WORD, NullToken);
      } else {
        err := Some(ScanError(Here()));
      }
    }

    /** next: the token after the blanks, the end of input, or an error token
        at the start of the bad one. */
    method Next() returns (t: PlacedToken, err: Option<ScanError>)
      requires Valid()
      modifies this
      ensures Valid() && Located(src, t.at)
      ensures var e := Lexer.Next(src[old(pos)..], strictJSON);
              t.kind == e.tok.kind && t.value == ValueKept(e.tok, rawOnly)
              && t.at.offset == (if t.kind == Newline then pos else old(pos) + e.lead)
              && if e.tok == ERROR then
                   Blames(err, old(pos) + e.lead + Fault(src[old(pos) + e.lead..], strictJSON))
                 else err == None && pos == old(pos) + e.size
    {
      hide Located, ScanToken;
      SkipBlanks();
      ghost var s := src[old(pos)..];
      assert s[Blanks(s)..] == src[pos..];
      if AtEnd() {
        return PlacedToken(EofToken, [], Here()), None;
      }
      var start := Here();
      err := ScanNext();
      if err.Some? {
        return PlacedToken(ErrorToken, [], start), err;
      }
      return tok, None;
    }

    method SkipBlanks()
      requires Valid()
      modifies this`pos, this`line, this`col
      ensures Valid() && pos == old(pos) + Blanks(src[old(pos)..])
    {
      hide Located;
      var start := pos;
      while !AtEnd() && IsBlank(src[pos])
        invariant Valid() && start <= pos <= |src|
        invariant Blanks(src[start..]) == pos - start + Blanks(src[pos..])
        decreases |src| - pos
      {
        assert src[pos..][1..] == src[pos + 1..];
        Advance();
      }
    }
  }

  // What the loops compute, for the methods above

  lemma StringScanned(src: Bytes, start: nat, strict: bool)
    requires start < |src| && src[start] == QUOTE
    ensures var t := ScanToken(src[start..], strict);
            match StringTail(src[start + 1..])
            case None => t.tok == ERROR
            case Some(n) => t == Scanned(Token(StringToken, src[start..start + 1 + n]), 1 + n)
    ensures Fault(src[start..], strict) == FaultFrom(1, StringFault(src[start + 1..]))
  {
    hide StringTail;
    var s := src[start..];
    assert s[1..] == src[start + 1..];
    if StringTail(s[1..]).Some? {
      var n := StringTail(s[1..]).value;
      assert s[..1 + n] == src[start..start + 1 + n];
    }
  }

  /** One character, or one escape sequence, of a string. */
  lemma StringStep(src: Bytes, pos: nat)
    requires pos < |src|
    ensures var ch := src[pos];
            StringTail(src[pos..])
            == if ch == QUOTE then Some(1)
               else if ch == BACKSLASH then
                 (match EscapeLen(src[pos..]) case None => None case Some(k) => Plus(k, StringTail(src[pos + k..])))
               else if ch < SPACE then None
               else Plus(1, StringTail(src[pos + 1..]))
    ensures var ch := src[pos];
            StringFault(src[pos..])
            == if ch == QUOTE then None
               else if ch == BACKSLASH then
                 (match EscapeLen(src[pos..]) case None => Some(0) case Some(k) => Plus(k, StringFault(src[pos + k..])))
               else if ch < SPACE then Some(0)
               else Plus(1, StringFault(src[pos + 1..]))
  {
    hide EscapeLen;
    var s := src[pos..];
    assert s[1..] == src[pos + 1..];
    if s[0] == BACKSLASH && EscapeLen(s).Some? {
      assert s[EscapeLen(s).value..] == src[pos + EscapeLen(s).value..];
    }
  }

  /** Between start and pos the string goes on. */
  predicate InString(src: Bytes, start: nat, pos: nat) {
    && start <= pos <= |src|
    && StringTail(src[start..]) == Plus(pos - start, StringTail(src[pos..]))
    && StringFault(src[start..]) == Plus(pos - start, StringFault(src[pos..]))
  }

  lemma StringBegins(src: Bytes, start: nat)
    requires start <= |src|
    ensures InString(src, start, start)
  {
    hide StringTail, StringFault;
  }

  /** What the byte at pos does to the string. */
  lemma StringGoesOn(src: Bytes, start: nat, pos: nat)
    requires InString(src, start, pos) && pos < |src|
    ensures var ch, tail, fault := src[pos], StringTail(src[start..]), StringFault(src[start..]);
            if ch == QUOTE then tail == Some(pos + 1 - start)
            else if ch == BACKSLASH then
              (match EscapeLen(src[pos..])
               case None => tail == None && fault == Some(pos - start)
               case Some(k) => InString(src, start, pos + k))
            else if ch < SPACE then tail == None && fault == Some(pos - start)
            else InString(src, start, pos + 1)
  {
    hide StringTail, StringFault, EscapeLen;
    StringStep(src, pos);
  }

  lemma StringEnds(src: Bytes, start: nat, pos: nat)
    requires InString(src, start, pos) && pos == |src|
    ensures StringTail(src[start..]) == None && StringFault(src[start..]) == None
  {
  }

  lemma NoIntAtEnd()
    ensures IntLen([]) == None
  {
  }

  /** The end of the number that begins at start, part by part. */
  function TailEnd(src: Bytes, at: nat): Option<nat>
    requires at <= |src|
  {
    match FracLen(src[at..])
    case None => None
    case Some(f) => Plus(at + f, ExpLen(src[at + f..]))
  }

  function NumberEnd(src: Bytes, start: nat): Option<nat>
    requires start < |src|
  {
    var m: nat := if src[start] == MINUS then 1 else 0;
    match IntLen(src[start + m..])
    case None => None
    case Some(i) => TailEnd(src, start + m + i)
  }

  lemma TailEnds(src: Bytes, at: nat)
    requires at <= |src|
    ensures TailEnd(src, at) == Plus(at, TailLen(src[at..]))
  {
    hide FracLen, ExpLen;
    var r := FracLen(src[at..]);
    if r.Some? {
      assert src[at..][r.value..] == src[at + r.value..];
    }
  }

  lemma NumberEnds(src: Bytes, start: nat)
    requires start < |src|
    ensures NumberEnd(src, start) == Plus(start, NumberLen(src[start..]))
  {
    hide IntLen, TailLen, TailEnd;
    var s := src[start..];
    var m := MinusLen(s);
    assert s[m..] == src[start + m..];
    var r := IntLen(s[m..]);
    if r.Some? {
      assert s[m..][r.value..] == src[start + m + r.value..];
      TailEnds(src, start + m + r.value);
    }
  }

  lemma NumberScanned(src: Bytes, start: nat, strict: bool)
    requires start < |src| && (src[start] == MINUS || IsDigit(src[start]))
    ensures var t := ScanToken(src[start..], strict);
            match NumberEnd(src, start)
            case None => t.tok == ERROR
            case Some(end) => start < end <= |src| && t == Scanned(Token(NumberToken, src[start..end]), end - start)
  {
    hide NumberLen, NumberEnd;
    NumberEnds(src, start);
    var r := NumberLen(src[start..]);
    if r.Some? {
      assert src[start..][..r.value] == src[start..start + r.value];
    }
  }

  /** text is the normalized form of src[textStart..pos], wherever the body of
      the comment ends after that. */
  predicate BodySoFar(src: Bytes, textStart: nat, pos: nat, text: Bytes)
    requires textStart <= pos <= |src|
  {
    forall end :: pos <= end <= |src| ==>
      NormalizeBreaks(src[textStart..end]) == text + NormalizeBreaks(src[pos..end])
  }

  lemma BodyDone(src: Bytes, textStart: nat, pos: nat, text: Bytes)
    requires textStart <= pos <= |src| && BodySoFar(src, textStart, pos, text)
    ensures NormalizeBreaks(src[textStart..pos]) == text
  {
    assert src[pos..pos] == [];
    assert text + [] == text;
  }

  lemma BodyByte(src: Bytes, textStart: nat, pos: nat, text: Bytes)
    requires textStart <= pos < |src| && BodySoFar(src, textStart, pos, text) && src[pos] != CR
    ensures BodySoFar(src, textStart, pos + 1, text + [src[pos]])
    ensures text == src[textStart..pos] ==> text + [src[pos]] == src[textStart..pos + 1]
  {
    forall end | pos + 1 <= end <= |src|
      ensures NormalizeBreaks(src[textStart..end]) == text + [src[pos]] + NormalizeBreaks(src[pos + 1..end])
    {
      var u := src[pos..end];
      assert u[1..] == src[pos + 1..end];
      assert NormalizeBreaks(u) == [src[pos]] + NormalizeBreaks(u[1..]);
    }
  }

  /** A CR, with the LF behind it if there is one. */
  lemma BodyBreak(src: Bytes, textStart: nat, pos: nat, text: Bytes)
    requires textStart <= pos < |src| && BodySoFar(src, textStart, pos, text) && src[pos] == CR
    ensures BodySoFar(src, textStart, if pos + 1 < |src| && src[pos + 1] == LF then pos + 2 else pos + 1, text + [LF])
  {
    var next := if pos + 1 < |src| && src[pos + 1] == LF then pos + 2 else pos + 1;
    forall end | next <= end <= |src|
      ensures NormalizeBreaks(src[textStart..end]) == text + [LF] + NormalizeBreaks(src[next..end])
    {
      var u := src[pos..end];
      assert u[next - pos..] == src[next..end];
      assert NormalizeBreaks(u) == [LF] + NormalizeBreaks(u[next - pos..]);
    }
  }

  lemma NoBody(src: Bytes, textStart: nat)
    requires textStart <= |src|
    ensures BodySoFar(src, textStart, textStart, [])
    ensures src[textStart..textStart] == []
  {
    forall end | textStart <= end <= |src|
      ensures NormalizeBreaks(src[textStart..end]) == [] + NormalizeBreaks(src[textStart..end])
    {
    }
  }

  /** The copy of the comment's body: made from the first CR on, and until then
      the source itself. */
  predicate CopySoFar(src: Bytes, textStart: nat, pos: nat, hasCR: bool, buf: Bytes)
    requires textStart <= pos <= |src|
  {
    if hasCR then BodySoFar(src, textStart, pos, buf)
    else buf == [] && BodySoFar(src, textStart, pos, src[textStart..pos])
  }

  lemma NothingCopied(src: Bytes, textStart: nat)
    requires textStart <= |src|
    ensures CopySoFar(src, textStart, textStart, false, [])
  {
    NoBody(src, textStart);
  }

  lemma CopyDone(src: Bytes, textStart: nat, pos: nat, hasCR: bool, buf: Bytes)
    requires textStart <= pos <= |src| && CopySoFar(src, textStart, pos, hasCR, buf)
    ensures NormalizeBreaks(src[textStart..pos]) == if hasCR then buf else src[textStart..pos]
  {
    hide BodySoFar;
    BodyDone(src, textStart, pos, if hasCR then buf else src[textStart..pos]);
  }

  lemma CopyByte(src: Bytes, textStart: nat, pos: nat, hasCR: bool, buf: Bytes)
    requires textStart <= pos < |src| && CopySoFar(src, textStart, pos, hasCR, buf) && src[pos] != CR
    ensures CopySoFar(src, textStart, pos + 1, hasCR, if hasCR then buf + [src[pos]] else buf)
  {
    hide BodySoFar;
    BodyByte(src, textStart, pos, if hasCR then buf else src[textStart..pos]);
  }

  lemma CopyBreak(src: Bytes, textStart: nat, pos: nat, hasCR: bool, buf: Bytes)
    requires textStart <= pos < |src| && CopySoFar(src, textStart, pos, hasCR, buf) && src[pos] == CR
    ensures CopySoFar(src, textStart, if pos + 1 < |src| && src[pos + 1] == LF then pos + 2 else pos + 1, true,
                      (if hasCR then buf else buf + src[textStart..pos]) + [LF])
  {
    hide BodySoFar;
    assert [] + src[textStart..pos] == src[textStart..pos];
    BodyBreak(src, textStart, pos, if hasCR then buf else src[textStart..pos]);
  }

  /** The body of a block comment goes on from `from` at least to pos. */
  predicate InBody(src: Bytes, from: nat, pos: nat)
    requires from <= pos <= |src|
  {
    BlockLen(src[from..]) == Plus(pos - from, BlockLen(src[pos..]))
    && BlockFault(src[from..]) == Plus(pos - from, BlockFault(src[pos..]))
  }

  lemma InBodyStart(src: Bytes, pos: nat)
    requires pos <= |src|
    ensures InBody(src, pos, pos)
  {
    hide BlockLen, BlockFault;
  }

  lemma InBodyThen(src: Bytes, from: nat, mid: nat, pos: nat)
    requires from <= mid <= pos <= |src| && InBody(src, from, mid) && InBody(src, mid, pos)
    ensures InBody(src, from, pos)
  {
    hide BlockLen, BlockFault;
  }

  lemma InBodyByte(src: Bytes, from: nat, pos: nat)
    requires from <= pos < |src| && InBody(src, from, pos) && (IsCommentByte(src[pos]) || IsLineBreak(src[pos]))
    requires !(src[pos] == STAR && pos + 1 < |src| && src[pos + 1] == SLASH)
    ensures InBody(src, from, pos + 1)
  {
    hide BlockLen, BlockFault;
    BlockStep(src, pos);
  }

  /** Where the body ends, or cannot go on. */
  lemma InBodyEnds(src: Bytes, from: nat, pos: nat)
    requires from <= pos <= |src| && InBody(src, from, pos)
    ensures pos == |src| ==> BlockLen(src[from..]) == None && BlockFault(src[from..]) == None
    ensures pos + 1 < |src| && src[pos] == STAR && src[pos + 1] == SLASH ==> BlockLen(src[from..]) == Some(pos - from)
    ensures pos < |src| && !IsCommentByte(src[pos]) && !IsLineBreak(src[pos]) ==>
              BlockLen(src[from..]) == None && BlockFault(src[from..]) == Some(pos - from)
  {
    hide BlockLen, BlockFault;
    if pos == |src| {
      BlockEnds(src, pos);
    } else {
      BlockStep(src, pos);
    }
  }

  lemma BlockStep(src: Bytes, pos: nat)
    requires pos < |src|
    ensures BlockLen(src[pos..])
            == if src[pos] == STAR && pos + 1 < |src| && src[pos + 1] == SLASH then Some(0)
               else if IsCommentByte(src[pos]) || IsLineBreak(src[pos]) then Plus(1, BlockLen(src[pos + 1..]))
               else None
    ensures BlockFault(src[pos..])
            == if src[pos] == STAR && pos + 1 < |src| && src[pos + 1] == SLASH then None
               else if IsCommentByte(src[pos]) || IsLineBreak(src[pos]) then Plus(1, BlockFault(src[pos + 1..]))
               else Some(0)
  {
    assert src[pos..][1..] == src[pos + 1..];
  }

  lemma BlockEnds(src: Bytes, pos: nat)
    requires pos == |src|
    ensures BlockLen(src[pos..]) == None && BlockFault(src[pos..]) == None
  {
  }

  lemma LineScanned(src: Bytes, start: nat, strict: bool)
    requires start + 1 < |src| && src[start] == SLASH && src[start + 1] == SLASH
    ensures var t := Lexer.ScanComment(src[start..], strict);
            if strict then t.tok == ERROR
            else
              match LineLen(src[start + 2..])
              case None => t.tok == ERROR
              case Some(n) => t == Scanned(Token(LineComment, src[start + 2..start + 2 + n]), 2 + n)
    ensures Fault(src[start..], strict) == if strict then 0 else FaultFrom(2, LineFault(src[start + 2..]))
  {
    hide LineLen;
    var s := src[start..];
    assert s[2..] == src[start + 2..];
    if LineLen(s[2..]).Some? {
      var n := LineLen(s[2..]).value;
      assert s[2..2 + n] == src[start + 2..start + 2 + n];
    }
  }

  lemma BlockScanned(src: Bytes, start: nat, strict: bool)
    requires start + 1 < |src| && src[start] == SLASH && src[start + 1] == STAR
    ensures var t := Lexer.ScanComment(src[start..], strict);
            if strict then t.tok == ERROR
            else
              match BlockLen(src[start + 2..])
              case None => t.tok == ERROR
              case Some(n) => t == Scanned(Token(BlockComment, NormalizeBreaks(src[start + 2..start + 2 + n])), n + 4)
    ensures Fault(src[start..], strict) == if strict then 0 else FaultFrom(2, BlockFault(src[start + 2..]))
  {
    hide NormalizeBreaks, BlockLen;
    var s := src[start..];
    assert s[2..] == src[start + 2..];
    if BlockLen(s[2..]).Some? {
      var n := BlockLen(s[2..]).value;
      assert s[2..2 + n] == src[start + 2..start + 2 + n];
    }
  }
}
