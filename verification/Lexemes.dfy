/** The grammar's numbers, strings and words, and whitespace, against the
    lexer. */
module Lexemes {
  import opened Ascii
  import opened Lexer
  import opened LexerLaws
  import opened QuotedStrings
  import opened Syntax
  import opened Transparency
  import opened Rendering
  import opened RelayoutLoop
  import opened WellFormed
  import opened Slices
  import R = Rfc8259

  // Numbers

  lemma {:induction false} DigitsRun(s: Bytes, rest: Bytes)
    requires R.AllDigits(s) && NoDigitFollows(rest)
    ensures DigitRun(s + rest) == |s|
  {
    if s == [] {
      assert s + rest == rest;
    } else {
      assert (s + rest)[1..] == s[1..] + rest;
      DigitsRun(s[1..], rest);
    }
  }

  lemma {:induction false} RunIsDigits(s: Bytes)
    ensures R.AllDigits(s[..DigitRun(s)])
  {
    if s != [] && IsDigit(s[0]) {
      RunIsDigits(s[1..]);
      assert s[..DigitRun(s)] == [s[0]] + s[1..][..DigitRun(s[1..])];
    }
  }

  lemma ExpScans(x: Option<R.Exponent>)
    requires R.NumberOk(R.Number([], [ZERO], None, x))
    ensures ExpLen(R.ExpText(x)) == Some(|R.ExpText(x)|)
    ensures NoDigitFollows(R.ExpText(x)) && (R.ExpText(x) == [] || R.ExpText(x)[0] != DOT)
  {
    hide DigitRun;
    var t := R.ExpText(x);
    if x.Some? {
      var none: Bytes := [];
      DigitsRun(x.value.digits, none);
      assert x.value.digits + none == x.value.digits;
      assert t[1 + |x.value.sign|..] == x.value.digits;
      assert x.value.sign == [] ==> t[1] == x.value.digits[0];
      assert x.value.sign != [] ==> t[1] == x.value.sign[0];
    }
  }

  lemma TailScans(frac: Option<Bytes>, x: Option<R.Exponent>)
    requires R.NumberOk(R.Number([], [ZERO], frac, x))
    ensures var t := R.FracText(frac) + R.ExpText(x);
            TailLen(t) == Some(|t|) && NoDigitFollows(t)
  {
    hide DigitRun, ExpLen, R.ExpText;
    ExpScans(x);
    FracScans(frac, R.ExpText(x));
    assert (R.FracText(frac) + R.ExpText(x))[|R.FracText(frac)|..] == R.ExpText(x);
  }

  lemma FracScans(frac: Option<Bytes>, e: Bytes)
    requires R.NumberOk(R.Number([], [ZERO], frac, None)) && NoDigitFollows(e) && (e == [] || e[0] != DOT)
    ensures FracLen(R.FracText(frac) + e) == Some(|R.FracText(frac)|)
    ensures NoDigitFollows(R.FracText(frac) + e)
  {
    hide DigitRun;
    var t := R.FracText(frac) + e;
    if frac.Some? {
      assert t[1..] == frac.value + e;
      DigitsRun(frac.value, e);
    } else {
      assert t == e;
    }
  }

  lemma IntScans(whole: Bytes, tail: Bytes)
    requires R.NumberOk(R.Number([], whole, None, None)) && NoDigitFollows(tail)
    ensures IntLen(whole + tail) == Some(|whole|) && (whole + tail)[0] != MINUS
  {
    if whole == [ZERO] {
      assert tail != [] ==> (whole + tail)[1] == tail[0];
    } else {
      DigitsRun(whole, tail);
      assert (whole + tail)[0] == whole[0];
    }
  }

  /** A derived number is a number to the lexer, all of it. */
  lemma NumberScans(n: R.Number)
    requires R.NumberOk(n)
    ensures NumberLen(R.NumberText(n)) == Some(|R.NumberText(n)|)
    ensures R.NumberText(n) != [] && (R.NumberText(n)[0] == MINUS || IsDigit(R.NumberText(n)[0]))
  {
    hide IntLen, TailLen;
    var tail := R.FracText(n.frac) + R.ExpText(n.exp);
    TailScans(n.frac, n.exp);
    IntScans(n.whole, tail);
    var u := n.whole + tail;
    assert u[|n.whole|..] == tail;
    assert UnsignedLen(u) == Some(|u|);
    var t := R.NumberText(n);
    assert t == n.minus + u;
    if n.minus == [] {
      assert t == u && u[0..] == u;
    } else {
      assert t[1..] == u;
    }
    assert n.whole[0] == u[0];
  }

  lemma ExpForm(t: Bytes) returns (x: Option<R.Exponent>)
    requires ExpLen(t) == Some(|t|)
    ensures R.NumberOk(R.Number([], [ZERO], None, x)) && R.ExpText(x) == t
  {
    hide DigitRun;
    if t == [] {
      return None;
    }
    var sign: nat := if |t| > 1 && (t[1] == PLUS || t[1] == MINUS) then 2 else 1;
    var digits := t[sign..];
    RunIsDigits(digits);
    assert digits[..|digits|] == digits;
    x := Some(R.Exponent(t[0], t[1..sign], digits));
    assert t == [t[0]] + t[1..sign] + digits;
  }

  lemma TailForm(t: Bytes) returns (frac: Option<Bytes>, x: Option<R.Exponent>)
    requires TailLen(t) == Some(|t|)
    ensures R.NumberOk(R.Number([], [ZERO], frac, x)) && R.FracText(frac) + R.ExpText(x) == t
  {
    hide DigitRun, ExpLen;
    var f := FracLen(t).value;
    x := ExpForm(t[f..]);
    if f == 0 {
      frac := None;
      assert t[0..] == t;
    } else {
      var digits := t[1..f];
      RunIsDigits(t[1..]);
      assert t[1..][..f - 1] == digits;
      frac := Some(digits);
      assert t == [DOT] + digits + t[f..];
    }
  }

  lemma IntForm(u: Bytes)
    requires IntLen(u).Some?
    ensures R.NumberOk(R.Number([], u[..IntLen(u).value], None, None))
  {
    hide DigitRun;
    RunIsDigits(u);
    assert u[..1] == [u[0]];
  }

  lemma UnsignedForm(u: Bytes) returns (n: R.Number)
    requires UnsignedLen(u) == Some(|u|)
    ensures R.NumberOk(n) && R.NumberText(n) == u && n.minus == []
  {
    hide TailLen, IntLen, R.FracText, R.ExpText;
    var i := IntLen(u).value;
    IntForm(u);
    var frac, x := TailForm(u[i..]);
    n := R.Number([], u[..i], frac, x);
    Whole(u, i);
  }

  lemma Whole(u: Bytes, i: nat)
    requires i <= |u|
    ensures [] + (u[..i] + u[i..]) == u
  {
  }

  /** And conversely: what is a number to the lexer has a derivation. */
  lemma NumberForm(t: Bytes) returns (n: R.Number)
    requires NumberLen(t) == Some(|t|)
    ensures R.NumberOk(n) && R.NumberText(n) == t
  {
    hide UnsignedLen;
    var m := MinusLen(t);
    n := UnsignedForm(t[m..]);
    n := n.(minus := t[..m]);
    assert t == t[..m] + t[m..];
    assert t[m..] == n.whole + (R.FracText(n.frac) + R.ExpText(n.exp)) by {
      assert [] + (n.whole + (R.FracText(n.frac) + R.ExpText(n.exp))) == n.whole + (R.FracText(n.frac) + R.ExpText(n.exp));
    }
  }

  // Strings

  lemma {:induction false} CharsScan(chars: seq<R.Char>)
    requires R.CharsOk(chars)
    ensures StringTail(R.CharsText(chars) + [QUOTE]) == Some(|R.CharsText(chars)| + 1)
  {
    var t := R.CharsText(chars) + [QUOTE];
    if chars == [] {
      assert t == [QUOTE];
    } else {
      var first, rest := R.CharText(chars[0]), R.CharsText(chars[1..]) + [QUOTE];
      assert R.CharOk(chars[0]);
      CharsScan(chars[1..]);
      assert t == first + rest;
      assert t[|first|..] == rest;
      CharScans(chars[0], rest);
    }
  }

  lemma CharScans(ch: R.Char, rest: Bytes)
    requires R.CharOk(ch)
    ensures StringTail(R.CharText(ch) + rest) == Plus(|R.CharText(ch)|, StringTail(rest))
  {
    var first := R.CharText(ch);
    var t := first + rest;
    assert t[|first|..] == rest;
    if ch.Unicode? {
      assert t[2] == ch.hex[0] && t[3] == ch.hex[1] && t[4] == ch.hex[2] && t[5] == ch.hex[3];
    }
  }

  lemma StringScans(chars: seq<R.Char>)
    requires R.CharsOk(chars)
    ensures IsStringToken(R.StringText(chars))
  {
    hide StringTail;
    CharsScan(chars);
    assert R.StringText(chars)[1..] == R.CharsText(chars) + [QUOTE];
  }

  lemma CharsCons(ch: R.Char, rest: seq<R.Char>)
    ensures R.CharsText([ch] + rest) == R.CharText(ch) + R.CharsText(rest)
    ensures R.CharOk(ch) && R.CharsOk(rest) ==> R.CharsOk([ch] + rest)
  {
    hide R.CharOk, R.CharText;
    assert ([ch] + rest)[1..] == rest;
  }

  lemma JustQuote(s: Bytes)
    requires s != [] && s[0] == QUOTE && StringTail(s) == Some(|s|)
    ensures s == [QUOTE] == R.CharsText([]) + [QUOTE]
  {
  }

  lemma {:induction false} CharsForm(s: Bytes) returns (chars: seq<R.Char>)
    requires StringTail(s) == Some(|s|)
    ensures R.CharsOk(chars) && R.CharsText(chars) + [QUOTE] == s
    decreases |s|
  {
    hide StringTail, R.CharText, R.CharOk, R.CharsOk, R.CharsText;
    if s[0] == QUOTE {
      JustQuote(s);
      chars := [];
      assert R.CharsOk([]) by { CharsNone(); }
    } else {
      var ch := CharForm(s);
      var first := R.CharText(ch);
      CharScans(ch, s[|first|..]);
      assert s == first + s[|first|..];
      var rest := CharsForm(s[|first|..]);
      chars := [ch] + rest;
      CharsCons(ch, rest);
      assert first + (R.CharsText(rest) + [QUOTE]) == (first + R.CharsText(rest)) + [QUOTE];
    }
  }

  lemma CharsNone()
    ensures R.CharsOk([])
  {
  }

  lemma CharForm(s: Bytes) returns (ch: R.Char)
    requires s != [] && s[0] != QUOTE && StringTail(s).Some?
    ensures R.CharOk(ch) && R.CharText(ch) != [] && R.CharText(ch) <= s
  {
    if s[0] != BACKSLASH {
      ch := R.Unescaped(s[0]);
    } else if EscapeLen(s) == Some(2) {
      ch := R.Escaped(s[1]);
      assert s[..2] == [BACKSLASH, s[1]];
    } else {
      ch := R.Unicode(s[2..6]);
      assert s[..6] == [BACKSLASH, 0x75] + s[2..6];
    }
  }

  lemma StringForm(t: Bytes) returns (chars: seq<R.Char>)
    requires IsStringToken(t)
    ensures R.CharsOk(chars) && R.StringText(chars) == t
  {
    chars := CharsForm(t[1..]);
    assert t == [QUOTE] + t[1..];
  }

  // Whitespace

  /** The tokens of s that are no line breaks. */
  function Lex(s: Bytes): seq<Token> { Plain(Tokens(s, true)) }

  lemma LexUnfold(s: Bytes)
    ensures var e := Next(s, true);
            Lex(s) == if e.tok == EOF then [] else if e.tok == ERROR then [ERROR]
                      else if IsTrivia(e.tok) then Lex(s[e.size..])
                      else [e.tok] + Lex(s[e.size..])
  {
    hide Next;
    TokensUnfold(s, true);
    var e := Next(s, true);
    PlainCons(e.tok, Tokens(s[e.size..], true));
    PlainEmpty();
    assert [] + Plain(Tokens(s[e.size..], true)) == Plain(Tokens(s[e.size..], true));
    PlainCons(ERROR, []);
    assert [ERROR] + [] == [ERROR];
  }

  lemma LexBreak(s: Bytes)
    requires s != [] && IsLineBreak(s[0])
    ensures var n: nat := if s[0] == CR && |s| > 1 && s[1] == LF then 2 else 1;
            Lex(s) == Lex(s[n..])
  {
    LexUnfold(s);
    assert Blanks(s) == 0 && s[0..] == s;
  }

  lemma LexWsByte(c: byte, rest: Bytes)
    requires R.IsWsByte(c)
    ensures Lex([c] + rest) == Lex(rest)
  {
    hide Lex;
    var s := [c] + rest;
    assert s[1..] == rest;
    if IsBlank(c) {
      hide Tokens;
      LexOfTokens(s, rest);
    } else {
      LexBreak(s);
      if c == CR && |s| > 1 && s[1] == LF {
        LexBreak(rest);
        assert s[2..] == rest[1..];
      }
    }
  }

  lemma LexOfTokens(s: Bytes, rest: Bytes)
    requires s != [] && IsBlank(s[0]) && rest == s[1..]
    ensures Lex(s) == Lex(rest)
  {
    hide Tokens, Plain;
    BlanksSkipped([s[0]], rest, true);
    assert s == [s[0]] + rest;
  }

  lemma {:induction false} LexWs(w: Bytes, rest: Bytes)
    requires R.IsWs(w)
    ensures Lex(w + rest) == Lex(rest)
  {
    hide Lex;
    if w == [] {
      assert w + rest == rest;
    } else {
      LexWs(w[1..], rest);
      LexWsByte(w[0], w[1..] + rest);
      assert w + rest == [w[0]] + (w[1..] + rest);
    }
  }

  // Tokens

  predicate IsDelimiter(c: byte) {
    R.IsWsByte(c) || c == COMMA || c == COLON || c == RBRACE || c == RBRACKET
  }

  predicate Delimited(rest: Bytes) { rest == [] || IsDelimiter(rest[0]) }

  predicate AnyMayFollow(kind: Kind) { kind !in {NumberToken, TrueToken, FalseToken, NullToken} }

  /** One token of the text, and what follows it. */
  lemma LexToken(t: Token, rest: Bytes)
    requires t.text != [] && ScanToken(t.text, true) == Scanned(t, |t.text|) && !IsTrivia(t) && t != ERROR
    requires !IsBlank(t.text[0]) && (AnyMayFollow(t.kind) || Delimited(rest))
    ensures Lex(t.text + rest) == [t] + Lex(rest)
  {
    hide ScanToken, Lex, Blanks;
    var s := t.text + rest;
    LexUnfold(s);
    DelimitedFollows(t, rest);
    ScanTokenLocal(t.text, true, rest);
    assert t.text[..|t.text|] == t.text;
    NoLead(s);
    assert s[0..] == s;
    assert s[|t.text|..] == rest;
  }

  lemma NoLead(s: Bytes)
    requires s != [] && !IsBlank(s[0])
    ensures Blanks(s) == 0
  {
  }

  lemma DelimitedFollows(t: Token, rest: Bytes)
    requires !IsTrivia(t) && (AnyMayFollow(t.kind) || Delimited(rest))
    ensures LexerLaws.Follows(t.kind, t.text, |t.text|, rest)
  {
  }

  predicate Structural(c: byte) { c in {LBRACE, RBRACE, LBRACKET, RBRACKET, COLON, COMMA} }

  function StructuralKind(c: byte): Kind
    requires Structural(c)
  {
    if c == LBRACE then ObjectStart else if c == RBRACE then ObjectEnd else if c == LBRACKET then ArrayStart
    else if c == RBRACKET then ArrayEnd else if c == COLON then NameSeparator else ValueSeparator
  }

  lemma LexStructural(c: byte, rest: Bytes)
    requires Structural(c)
    ensures Lex([c] + rest) == [Token(StructuralKind(c), [c])] + Lex(rest)
  {
    hide Lex, NumberLen, StringTail;
    LexToken(Token(StructuralKind(c), [c]), rest);
  }

  lemma LexMarked(m: R.Mark, c: byte, rest: Bytes)
    requires Structural(c) && R.MarkOk(m)
    ensures Lex(R.Marked(m, c) + rest) == [Token(StructuralKind(c), [c])] + Lex(rest)
  {
    hide Lex;
    assert R.Marked(m, c) + rest == m.before + ([c] + (m.after + rest));
    LexWs(m.before, [c] + (m.after + rest));
    LexStructural(c, m.after + rest);
    LexWs(m.after, rest);
  }

  lemma LexString(chars: seq<R.Char>, rest: Bytes)
    requires R.CharsOk(chars)
    ensures var t := R.StringText(chars);
            IsStringToken(t) && Lex(t + rest) == [Token(StringToken, t)] + Lex(rest)
  {
    hide Lex, StringTail, NumberLen;
    var t := R.StringText(chars);
    StringScans(chars);
    assert t[..|t|] == t;
    LexToken(Token(StringToken, t), rest);
  }

  lemma LexNumber(n: R.Number, rest: Bytes)
    requires R.NumberOk(n) && Delimited(rest)
    ensures var t := R.NumberText(n); Lex(t + rest) == [Token(NumberToken, t)] + Lex(rest)
  {
    hide Lex, StringTail, NumberLen;
    var t := R.NumberText(n);
    NumberScans(n);
    assert t[..|t|] == t;
    LexToken(Token(NumberToken, t), rest);
  }

  function WordKind(w: Bytes): Kind {
    if w == TRUE_WORD then TrueToken else if w == FALSE_WORD then FalseToken else NullToken
  }

  lemma LexWord(w: Bytes, rest: Bytes)
    requires w in {TRUE_WORD, FALSE_WORD, NULL_WORD} && Delimited(rest)
    ensures Lex(w + rest) == [Token(WordKind(w), w)] + Lex(rest)
  {
    hide Lex, StringTail, NumberLen;
    LexToken(Token(WordKind(w), w), rest);
  }

  // The other way: the first token of the text, and the whitespace before it

  predicate Fits(t: Token) {
    Genuine(t)
    && (t.kind == ObjectStart ==> t.text == [LBRACE]) && (t.kind == ObjectEnd ==> t.text == [RBRACE])
    && (t.kind == ArrayStart ==> t.text == [LBRACKET]) && (t.kind == ArrayEnd ==> t.text == [RBRACKET])
    && (t.kind == NameSeparator ==> t.text == [COLON]) && (t.kind == ValueSeparator ==> t.text == [COMMA])
  }

  lemma ScannedFits(s: Bytes)
    requires s != []
    ensures Fits(ScanToken(s, true).tok) && !IsComment(ScanToken(s, true).tok)
  {
    hide StringTail, NumberLen, IsStringToken;
    ScannedIsGenuine(s, true);
  }

  lemma {:induction false} Peel(s: Bytes) returns (w: Bytes, rest: Bytes)
    requires Lex(s) != [] && Lex(s)[0] != ERROR
    ensures R.IsWs(w) && Fits(Lex(s)[0]) && !IsTrivia(Lex(s)[0])
    ensures s == w + Lex(s)[0].text + rest && Lex(rest) == Lex(s)[1..] && |rest| < |s|
    decreases |s|
  {
    hide Lex, Next, Fits, Plain, R.IsWs;
    LexUnfold(s);
    var e := Next(s, true);
    NextFits(s);
    var after := s[e.size..];
    if e.tok.kind == Newline {
      var w2;
      w2, rest := Peel(after);
      w := s[..e.size] + w2;
      WsConcat(s[..e.size], w2);
      assert s == s[..e.size] + after;
      assert s[..e.size] + (w2 + Lex(after)[0].text + rest) == w + Lex(after)[0].text + rest;
    } else {
      w, rest := s[..e.lead], after;
      assert s == s[..e.lead] + s[e.lead..e.size] + after;
    }
  }

  lemma WsConcat(a: Bytes, b: Bytes)
    requires R.IsWs(a) && R.IsWs(b)
    ensures R.IsWs(a + b)
  {
  }

  lemma NextFits(s: Bytes)
    requires Next(s, true).tok != EOF && Next(s, true).tok != ERROR
    ensures var e := Next(s, true);
            Fits(e.tok) && !IsComment(e.tok) && e.lead < e.size && R.IsWs(s[..e.lead])
            && (e.tok.kind == Newline ==> R.IsWs(s[..e.size]))
            && (e.tok.kind != Newline ==> s[e.lead..e.size] == e.tok.text)
  {
    hide ScanToken, Blanks, Fits, R.IsWs;
    var e := Next(s, true);
    ScannedFits(s[e.lead..]);
    SourceText(s, true);
    LeadIsWs(s);
    if e.tok.kind == Newline {
      BreakIsWs(s);
    }
  }

  lemma LeadIsWs(s: Bytes)
    ensures R.IsWs(s[..Blanks(s)])
  {
    LeadIsBlank(s);
  }

  lemma BreakIsWs(s: Bytes)
    requires Next(s, true).tok.kind == Newline
    ensures R.IsWs(s[..Next(s, true).size])
  {
    hide Blanks, StringTail, NumberLen;
    LeadIsWs(s);
    var b := Blanks(s);
    var n := ScanToken(s[b..], true).size;
    assert s[..b + n] == s[..b] + s[b..][..n];
  }

  /** Nothing left but whitespace. */
  lemma {:induction false} OnlyWs(s: Bytes)
    requires Lex(s) == []
    ensures R.IsWs(s)
    decreases |s|
  {
    hide Lex, ScanToken, Blanks;
    LexUnfold(s);
    var e := Next(s, true);
    LeadIsWs(s);
    if e.tok == EOF {
      assert s[..|s|] == s;
    } else {
      if e.tok.kind != Newline {
        ScannedFits(s[e.lead..]);
      }
      BreakIsWs(s);
      OnlyWs(s[e.size..]);
      assert s == s[..e.size] + s[e.size..];
    }
  }
}
