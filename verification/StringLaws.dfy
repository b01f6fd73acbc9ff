/** What reading and writing JSON strings preserve. */
module StringLaws {
  import opened Ascii
  import opened Utf8
  import opened Lexer
  import opened LexerLaws
  import opened QuotedStrings

  /** What may stand between the quotes of a string token. */
  predicate StringBody(b: Bytes)
    decreases |b|
  {
    b == [] ||
    if b[0] == BACKSLASH then EscapeLen(b).Some? && StringBody(b[EscapeLen(b).value..])
    else b[0] >= SPACE && b[0] != QUOTE && StringBody(b[1..])
  }

  lemma {:induction false} BodyOfTail(s: Bytes, n: nat)
    requires StringTail(s) == Some(n)
    ensures StringBody(s[..n - 1])
    decreases |s|
  {
    var b := s[..n - 1];
    if s[0] == QUOTE {
    } else if s[0] == BACKSLASH {
      var k := EscapeLen(s).value;
      BodyOfTail(s[k..], n - k);
      EscapeLenLocal(s, n - 1, []);
      assert b + [] == b;
      assert b[k..] == s[k..][..n - k - 1];
    } else {
      BodyOfTail(s[1..], n - 1);
      assert b[1..] == s[1..][..n - 2];
    }
  }

  lemma {:induction false} TailOfBody(b: Bytes, rest: Bytes)
    requires StringBody(b)
    ensures StringTail(b + [QUOTE] + rest) == Some(|b| + 1)
    decreases |b|
  {
    var t := b + [QUOTE] + rest;
    if b != [] {
      assert t[0] == b[0];
      var k: nat := if b[0] == BACKSLASH then EscapeLen(b).value else 1;
      TailOfBody(b[k..], rest);
      assert t[k..] == b[k..] + [QUOTE] + rest;
      if b[0] == BACKSLASH {
        EscapeLenLocal(b, |b|, [QUOTE] + rest);
        assert b[..|b|] + ([QUOTE] + rest) == t;
      }
    }
  }

  lemma TokenBody(raw: Bytes)
    ensures IsStringToken(raw) <==> IsQuoted(raw) && StringBody(raw[1..|raw| - 1])
  {
    hide StringTail, StringBody;
    if |raw| >= 2 {
      assert raw[1..][..|raw| - 2] == raw[1..|raw| - 1];
      if IsStringToken(raw) {
        BodyOfTail(raw[1..], |raw| - 1);
      }
      if IsQuoted(raw) && StringBody(raw[1..|raw| - 1]) {
        TailOfBody(raw[1..|raw| - 1], []);
        assert raw[1..|raw| - 1] + [QUOTE] + [] == raw[1..];
      }
    }
  }

  lemma {:induction false} BodyConcat(a: Bytes, b: Bytes)
    requires StringBody(a) && StringBody(b)
    ensures StringBody(a + b)
    decreases |a|
  {
    if a == [] {
      assert a + b == b;
    } else {
      var k: nat := if a[0] == BACKSLASH then EscapeLen(a).value else 1;
      BodyConcat(a[k..], b);
      assert (a + b)[k..] == a[k..] + b;
      assert (a + b)[0] == a[0];
      if a[0] == BACKSLASH {
        EscapeLenLocal(a, |a|, b);
        assert a[..|a|] == a;
      }
    }
  }

  // Every scanned string can be unquoted, to valid UTF-8.

  lemma {:induction false} BodySkip(b: Bytes, k: nat)
    requires StringBody(b) && k <= |b|
    requires forall i :: 0 <= i < k ==> b[i] >= 0x80
    ensures StringBody(b[k..])
    decreases |b|
  {
    if k > 0 {
      BodySkip(b[1..], k - 1);
      assert b[1..][k - 1..] == b[k..];
    } else {
      assert b[k..] == b;
    }
  }

  /** An escape the scanner accepts decodes, and the rest is again a body. */
  lemma EscapeDecodes(b: Bytes)
    requires StringBody(b) && b != [] && b[0] == BACKSLASH
    ensures |b| >= 2 && DecodeEscape(b).Some?
    ensures Valid(DecodeEscape(b).value.out)
    ensures StringBody(b[DecodeEscape(b).value.size..])
  {
    hide EncodeRune, RuneSize, Valid;
    ShortIsValid(b[1]);
    var e := DecodeEscape(b).value;
    if e.size == 12 {
      var c := b[6..];
      assert StringBody(c);
      assert c[0] == BACKSLASH && c[1] == 0x75;
      assert EscapeLen(c) == Some(6);
      assert c[6..] == b[12..];
    }
    if b[1] == 0x75 {
      var hi := Hex4(b[2..6]).value;
      RuneIsValid(hi);
      if e.size == 12 {
        RuneIsValid(CombineSurrogates(hi, Hex4(b[8..12]).value));
      }
      RuneIsValid(0xFFFD);
      ReplacementRune();
    }
  }

  lemma ShortIsValid(c: byte)
    ensures c in {QUOTE, BACKSLASH, SLASH} ==> Valid([c])
    ensures Valid([0x08]) && Valid([0x0C]) && Valid([LF]) && Valid([CR]) && Valid([TAB])
  {
    assert forall d: byte :: [d][1..] == [];
  }

  lemma RuneIsValid(r: nat)
    ensures Valid(EncodeRune(r))
  {
    EncodeRuneSize(r, []);
    assert EncodeRune(r) + [] == EncodeRune(r);
  }

  lemma {:induction false} UnescapeTotal(b: Bytes)
    requires StringBody(b)
    ensures Unescape(b).Some? && Valid(Unescape(b).value)
    decreases |b|
  {
    if b == [] {
    } else if b[0] >= 0x80 {
      var k := RuneSize(b);
      if k == 0 {
        UnescapeTotal(b[1..]);
        RuneIsValid(0xFFFD);
        ValidConcat(REPLACEMENT, Unescape(b[1..]).value);
      } else {
        BodySkip(b, k);
        UnescapeTotal(b[k..]);
        RuneSizeLocal(b, Unescape(b[k..]).value);
        ValidPrefix(b[..k], Unescape(b[k..]).value);
      }
    } else if b[0] != BACKSLASH {
      UnescapeTotal(b[1..]);
      ValidPrefix([b[0]], Unescape(b[1..]).value);
    } else {
      EscapeDecodes(b);
      var e := DecodeEscape(b).value;
      UnescapeTotal(b[e.size..]);
      ValidConcat(e.out, Unescape(b[e.size..]).value);
    }
  }

  /** Every string token that the scanner accepts spells some valid UTF-8 text. */
  lemma ScannedStringUnquotes(raw: Bytes)
    requires IsStringToken(raw)
    ensures Unquote(raw).Some? && Valid(Unquote(raw).value)
  {
    TokenBody(raw);
    UnescapeTotal(raw[1..|raw| - 1]);
  }

  /** Text without escapes spells itself. */
  lemma {:induction false} PlainTextSpellsItself(b: Bytes)
    requires Valid(b) && BACKSLASH !in b
    ensures Unescape(b) == Some(b)
    decreases |b|
  {
    if b != [] {
      var k := RuneSize(b);
      PlainTextSpellsItself(b[k..]);
      assert b == b[..k] + b[k..];
      assert b[0] < 0x80 ==> b[..k] == [b[0]];
    }
  }

  // Quote and unquote are inverse.

  lemma HexDigitsDenote(n: nat)
    requires n < 0x10000
    ensures ((n / 0x1000 * 16 + n / 0x100 % 16) * 16 + n / 16 % 16) * 16 + n % 16 == n
  {
  }

  lemma UnicodeEscapeHex(n: nat, t: Bytes)
    requires n < 0x10000 && UnicodeEscape(n) <= t
    ensures Hex4(t[2..6]) == Some(n)
  {
    HexDigitsDenote(n);
    var u := UnicodeEscape(n);
    assert forall i :: 0 <= i < 6 ==> t[i] == u[i];
  }

  lemma UnicodeEscapeDecodes(n: nat, rest: Bytes)
    requires n < 0xD800
    ensures DecodeEscape(UnicodeEscape(n) + rest) == Some(Escape(EncodeRune(n), 6))
  {
    var t := UnicodeEscape(n) + rest;
    UnicodeEscapeHex(n, t);
    assert t[1] == 0x75;
  }

  lemma UnicodeEscapeUnescapes(n: nat, rest: Bytes)
    requires n < 0xD800
    ensures Unescape(UnicodeEscape(n) + rest) == Prepend(EncodeRune(n), Unescape(rest))
  {
    hide DecodeEscape, EncodeRune, Hex4, HexDigit;
    var t := UnicodeEscape(n) + rest;
    UnicodeEscapeDecodes(n, rest);
    assert t[6..] == rest;
    assert t[0] == BACKSLASH;
  }

  lemma ShortEscapeUnescapes(c: byte, rest: Bytes)
    requires ShortEscape(c).Some?
    ensures Unescape([BACKSLASH, ShortEscape(c).value] + rest) == Prepend([c], Unescape(rest))
  {
    hide DecodeUnicodeEscape;
    var t := [BACKSLASH, ShortEscape(c).value] + rest;
    assert t[1] == ShortEscape(c).value;
    assert DecodeEscape(t) == Some(Escape([c], 2));
    assert t[2..] == rest;
  }

  lemma RuneUnescapes(s: Bytes, rest: Bytes)
    requires s != [] && RuneSize(s) > 0 && s[0] != BACKSLASH
    ensures Unescape(s[..RuneSize(s)] + rest) == Prepend(s[..RuneSize(s)], Unescape(rest))
  {
    var n := RuneSize(s);
    var t := s[..n] + rest;
    RuneSizeLocal(s, rest);
    assert t[n..] == rest;
    assert t[..n] == s[..n];
    assert t[0] == s[0];
    assert s[0] < 0x80 ==> s[..1] == [s[0]];
  }

  /** One step of quoting is undone by one or more steps of unquoting. */
  lemma QuoteStepUnescapes(s: Bytes, html: bool, rest: Bytes)
    requires s != [] && RuneSize(s) > 0
    ensures Unescape(QuoteStep(s, html).out + rest) == Prepend(s[..QuoteStep(s, html).size], Unescape(rest))
  {
    hide DecodeUnicodeEscape;
    var e := QuoteStep(s, html);
    if html && LineSeparatorAt(s) {
      var n: nat := if s[2] == 0xA8 then 0x2028 else 0x2029;
      UnicodeEscapeUnescapes(n, rest);
      assert EncodeRune(n) == s[..3];
    } else if ShortEscape(s[0]).Some? {
      ShortEscapeUnescapes(s[0], rest);
      assert s[..1] == [s[0]];
    } else if s[0] < SPACE || (html && IsHtmlByte(s[0])) {
      UnicodeEscapeUnescapes(s[0] as nat, rest);
      assert s[..1] == [s[0]] == EncodeRune(s[0] as nat);
    } else {
      RuneUnescapes(s, rest);
      assert s[0] < 0x80 ==> s[..1] == [s[0]];
    }
  }

  lemma UnescapeEmpty()
    ensures Unescape([]) == Some([])
  {
  }

  /** A step of quoting takes a whole rune. */
  lemma QuoteStepSize(s: Bytes, html: bool)
    requires s != [] && RuneSize(s) > 0
    ensures QuoteStep(s, html).size == RuneSize(s)
  {
  }

  lemma {:induction false} QuoteBodyUnescapes(s: Bytes, html: bool)
    requires Valid(s)
    ensures Unescape(QuoteBody(s, html)) == Some(s)
    decreases |s|
  {
    hide QuoteStep, Unescape, RuneSize;
    if s == [] {
      UnescapeEmpty();
    } else {
      var e := QuoteStep(s, html);
      QuoteStepSize(s, html);
      QuoteBodyUnescapes(s[e.size..], html);
      QuoteStepUnescapes(s, html, QuoteBody(s[e.size..], html));
      assert s == s[..e.size] + s[e.size..];
    }
  }

  /** Unquoting the quoted form of valid UTF-8 gives it back. */
  lemma UnquoteInvertsQuote(s: Bytes, html: bool)
    requires Valid(s)
    ensures Unquote(Quote(s, html)) == Some(s)
  {
    QuoteBodyUnescapes(s, html);
    assert Quote(s, html)[1..|Quote(s, html)| - 1] == QuoteBody(s, html);
  }

  // The quoted form of any bytes is one string token, in plain ASCII where
  // escaping is asked for, and always valid UTF-8.

  lemma QuoteStepIsBody(s: Bytes, html: bool)
    requires s != []
    ensures StringBody(QuoteStep(s, html).out)
    ensures Valid(QuoteStep(s, html).out)
  {
    hide Valid, StringBody, EncodeRune, UnicodeEscape;
    if html && LineSeparatorAt(s) {
      UnicodeEscapeIsBody(if s[2] == 0xA8 then 0x2028 else 0x2029);
    } else if ShortEscape(s[0]).Some? {
      ShortEscapeIsBody(s[0]);
    } else if s[0] < SPACE || (html && IsHtmlByte(s[0])) {
      UnicodeEscapeIsBody(s[0] as nat);
    } else if s[0] < 0x80 {
      AsciiIsBody(s[0]);
    } else if RuneSize(s) == 0 {
      BodyOfHighBytes(REPLACEMENT);
      RuneIsValid(0xFFFD);
      assert EncodeRune(0xFFFD) == REPLACEMENT by { ReplacementRune(); }
    } else {
      BodyOfHighBytes(s[..RuneSize(s)]);
      RuneSizeLocal(s, []);
      ValidPrefix(s[..RuneSize(s)], []);
      assert s[..RuneSize(s)] + [] == s[..RuneSize(s)];
      ValidAscii([]);
    }
  }

  lemma ReplacementRune()
    ensures EncodeRune(0xFFFD) == REPLACEMENT
  {
  }

  lemma UnicodeEscapeIsBody(n: nat)
    requires n < 0x10000
    ensures StringBody(UnicodeEscape(n)) && Valid(UnicodeEscape(n))
  {
    var u := UnicodeEscape(n);
    assert EscapeLen(u) == Some(6);
    assert u[6..] == [];
    ValidAscii(u);
  }

  lemma ShortEscapeIsBody(c: byte)
    requires ShortEscape(c).Some?
    ensures StringBody([BACKSLASH, ShortEscape(c).value]) && Valid([BACKSLASH, ShortEscape(c).value])
  {
    var u := [BACKSLASH, ShortEscape(c).value];
    assert EscapeLen(u) == Some(2);
    assert u[2..] == [];
    ValidAscii(u);
  }

  lemma AsciiIsBody(c: byte)
    requires SPACE <= c < 0x80 && c != QUOTE && c != BACKSLASH
    ensures StringBody([c]) && Valid([c])
  {
    assert [c][1..] == [];
    ValidAscii([c]);
  }

  lemma {:induction false} ValidAscii(s: Bytes)
    requires forall i :: 0 <= i < |s| ==> s[i] < 0x80
    ensures Valid(s)
  {
    if s != [] {
      ValidAscii(s[1..]);
    }
  }

  lemma {:induction false} BodyOfHighBytes(s: Bytes)
    requires forall i :: 0 <= i < |s| ==> s[i] >= 0x80
    ensures StringBody(s)
  {
    if s != [] {
      BodyOfHighBytes(s[1..]);
    }
  }

  lemma {:induction false} QuoteBodyIsBody(s: Bytes, html: bool)
    ensures StringBody(QuoteBody(s, html)) && Valid(QuoteBody(s, html))
    decreases |s|
  {
    if s != [] {
      var e := QuoteStep(s, html);
      QuoteBodyIsBody(s[e.size..], html);
      QuoteStepIsBody(s, html);
      BodyConcat(e.out, QuoteBody(s[e.size..], html));
      ValidConcat(e.out, QuoteBody(s[e.size..], html));
    }
  }

  lemma QuoteIsToken(s: Bytes, html: bool)
    ensures IsStringToken(Quote(s, html)) && Valid(Quote(s, html))
  {
    var q := Quote(s, html);
    QuoteBodyIsBody(s, html);
    assert q[1..|q| - 1] == QuoteBody(s, html);
    TokenBody(q);
    ValidPrefix([QUOTE], QuoteBody(s, html));
    ValidAscii([QUOTE]);
    ValidConcat([QUOTE] + QuoteBody(s, html), [QUOTE]);
  }

  // With HTML escaping, nothing that needs it is left.

  lemma {:induction false} NoHtmlConcat(a: Bytes, b: Bytes)
    requires !NeedsHtmlEscape(a) && !NeedsHtmlEscape(b)
    requires b == [] || b[0] < 0x80 || b[0] >= 0xC2
    ensures !NeedsHtmlEscape(a + b)
    decreases |a|
  {
    if a == [] {
      assert a + b == b;
    } else {
      NoHtmlConcat(a[1..], b);
      assert (a + b)[1..] == a[1..] + b;
    }
  }

  lemma QuoteStepNoHtml(s: Bytes)
    requires s != []
    ensures !NeedsHtmlEscape(QuoteStep(s, true).out)
    ensures var c := QuoteStep(s, true).out[0]; c < 0x80 || c >= 0xC2
  {
    var e := QuoteStep(s, true);
    if e.out[0] == BACKSLASH {
      NoHtmlAscii(e.out);
    } else if s[0] >= 0x80 {
      assert forall i :: 0 <= i < |e.out| ==> e.out[i] >= 0x80;
      NoHtmlRune(e.out);
    }
  }

  lemma {:induction false} NoHtmlAscii(s: Bytes)
    requires forall i :: 0 <= i < |s| ==> s[i] < 0x80 && !IsHtmlByte(s[i])
    ensures !NeedsHtmlEscape(s)
  {
    if s != [] {
      NoHtmlAscii(s[1..]);
    }
  }

  lemma {:induction false} NoHtmlRune(s: Bytes)
    requires forall i :: 0 <= i < |s| ==> s[i] >= 0x80
    requires forall i :: 1 <= i < |s| ==> s[i] < 0xC2
    requires !LineSeparatorAt(s)
    ensures !NeedsHtmlEscape(s)
  {
    if s != [] {
      NoHtmlRune(s[1..]);
    }
  }

  lemma {:induction false} QuoteBodyNoHtml(s: Bytes)
    ensures !NeedsHtmlEscape(QuoteBody(s, true))
    ensures QuoteBody(s, true) != [] ==> QuoteBody(s, true)[0] < 0x80 || QuoteBody(s, true)[0] >= 0xC2
    decreases |s|
  {
    if s != [] {
      var e := QuoteStep(s, true);
      QuoteBodyNoHtml(s[e.size..]);
      QuoteStepNoHtml(s);
      NoHtmlConcat(e.out, QuoteBody(s[e.size..], true));
    }
  }

  lemma QuoteIsRawOk(s: Bytes, html: bool)
    ensures RawStringOk(Quote(s, html), html)
  {
    QuoteIsToken(s, html);
    if html {
      QuoteBodyNoHtml(s);
      NoHtmlAscii([QUOTE]);
      NoHtmlConcat(QuoteBody(s, true), [QUOTE]);
      assert Quote(s, true) == [QUOTE] + (QuoteBody(s, true) + [QUOTE]);
      NoHtmlConcat([QUOTE], QuoteBody(s, true) + [QUOTE]);
    }
  }

  /** Whatever form a string is written in, it is one token that spells the
      same text and that would be written unchanged the next time. */
  lemma SourceStringKeepsText(raw: Bytes, html: bool)
    requires IsStringToken(raw)
    ensures Unquote(raw).Some?
    ensures var t := SourceString(raw, Unquote(raw).value, html);
            IsStringToken(t) && Unquote(t) == Unquote(raw) && RawStringOk(t, html)
  {
    ScannedStringUnquotes(raw);
    var v := Unquote(raw).value;
    UnquoteInvertsQuote(v, html);
    QuoteIsToken(v, html);
    QuoteIsRawOk(v, html);
  }
}
