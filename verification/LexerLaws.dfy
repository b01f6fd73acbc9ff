/**
  Locality of the lexer: what a token is depends on its own bytes and on at
  most one byte after it. Cutting the input at a token's end, or putting other
  text behind it, therefore leaves the token as it was.
 */
module LexerLaws {
  import opened Ascii
  import opened Lexer

  /** c, right after a token of this kind, cannot be read as part of it. */
  predicate Ends(kind: Kind, c: byte) {
    match kind
    case NumberToken => !IsDigit(c) && c != DOT && c != 0x65 && c != 0x45
    case TrueToken => !IsWordByte(c)
    case FalseToken => !IsWordByte(c)
    case NullToken => !IsWordByte(c)
    case Newline => c != LF
    case LineComment => IsLineBreak(c)
    case _ => true
  }

  /** rest may stand behind a token of size n that was read off s. */
  predicate Follows(kind: Kind, s: Bytes, n: nat, rest: Bytes)
  {
    rest == [] || (n < |s| && rest[0] == s[n]) || Ends(kind, rest[0]) || (kind == Newline && |s| > 0 && s[0] == LF)
  }

  /** Dropping k bytes commutes with cutting at n and putting rest behind. */
  lemma DropCut(s: Bytes, n: nat, rest: Bytes, k: nat)
    requires k <= n <= |s|
    ensures (s[..n] + rest)[k..] == s[k..][..n - k] + rest
    ensures s[..k] + (s[k..][..n - k] + rest) == s[..n] + rest
    ensures n > 0 ==> (s[..n] + rest)[0] == s[0]
    ensures n > 1 ==> (s[..n] + rest)[1] == s[1]
  {
  }

  lemma {:induction false} DigitRunLocal(s: Bytes, n: nat, rest: Bytes)
    requires n == DigitRun(s)
    requires rest == [] || !IsDigit(rest[0])
    ensures DigitRun(s[..n] + rest) == n
  {
    if n == 0 {
      assert s[..n] + rest == rest;
    } else {
      DigitRunLocal(s[1..], n - 1, rest);
      DropCut(s, n, rest, 1);
    }
  }

  lemma EscapeLenLocal(s: Bytes, n: nat, rest: Bytes)
    requires |s| > 0 && n <= |s| && EscapeLen(s).Some? && EscapeLen(s).value <= n
    ensures EscapeLen(s[..n] + rest) == EscapeLen(s)
  {
    var t := s[..n] + rest;
    assert forall k :: 0 <= k < n ==> t[k] == s[k];
  }

  lemma {:induction false} StringTailLocal(s: Bytes, n: nat, rest: Bytes)
    requires StringTail(s) == Some(n)
    ensures StringTail(s[..n] + rest) == Some(n)
    decreases |s|
  {
    hide EscapeLen;
    DropCut(s, n, rest, 0);
    if s[0] == BACKSLASH {
      var k := EscapeLen(s).value;
      EscapeLenLocal(s, n, rest);
      StringTailLocal(s[k..], n - k, rest);
      DropCut(s, n, rest, k);
    } else if s[0] != QUOTE {
      StringTailLocal(s[1..], n - 1, rest);
      DropCut(s, n, rest, 1);
    }
  }

  lemma IntLenLocal(s: Bytes, n: nat, rest: Bytes)
    requires IntLen(s) == Some(n)
    requires rest == [] || !IsDigit(rest[0])
    ensures IntLen(s[..n] + rest) == Some(n)
  {
    assert (s[..n] + rest)[0] == s[0];
    if s[0] == ZERO {
      assert s[..n] + rest == [ZERO] + rest;
    } else {
      DigitRunLocal(s, n, rest);
    }
  }

  lemma FracLenLocal(s: Bytes, n: nat, rest: Bytes)
    requires FracLen(s) == Some(n)
    requires rest == [] || (!IsDigit(rest[0]) && (n == 0 ==> rest[0] != DOT))
    ensures FracLen(s[..n] + rest) == Some(n)
  {
    if n == 0 {
      assert s[..n] + rest == rest;
    } else {
      DigitRunLocal(s[1..], n - 1, rest);
      DropCut(s, n, rest, 1);
    }
  }

  lemma ExpLenLocal(s: Bytes, n: nat, rest: Bytes)
    requires ExpLen(s) == Some(n)
    requires rest == [] || (!IsDigit(rest[0]) && (n == 0 ==> rest[0] != 0x65 && rest[0] != 0x45))
    ensures ExpLen(s[..n] + rest) == Some(n)
  {
    hide DigitRun;
    if n == 0 {
      assert s[..n] + rest == rest;
    } else {
      var sign: nat := if |s| > 1 && (s[1] == PLUS || s[1] == MINUS) then 2 else 1;
      DigitRunLocal(s[sign..], n - sign, rest);
      DropCut(s, n, rest, sign);
    }
  }

  predicate NoDigitFollows(rest: Bytes) { rest == [] || !IsDigit(rest[0]) }

  lemma TailLenLocal(s: Bytes, n: nat, rest: Bytes)
    requires TailLen(s) == Some(n)
    requires NoDigitFollows(rest)
    requires Follows(NumberToken, s, n, rest)
    ensures TailLen(s[..n] + rest) == Some(n)
  {
    hide DigitRun;
    var f := FracLen(s).value;
    var x := n - f;
    ExpLenLocal(s[f..], x, rest);
    DropCut(s, n, rest, f);
    FracEnd(s);
    FracLenLocal(s, f, s[f..][..x] + rest);
  }

  lemma UnsignedLenLocal(s: Bytes, n: nat, rest: Bytes)
    requires UnsignedLen(s) == Some(n)
    requires NoDigitFollows(rest)
    requires Follows(NumberToken, s, n, rest)
    ensures UnsignedLen(s[..n] + rest) == Some(n)
  {
    hide IntLen, TailLen, DigitRun;
    var i := IntLen(s).value;
    TailLenLocal(s[i..], n - i, rest);
    DropCut(s, n, rest, i);
    IntEnd(s);
    IntLenLocal(s, i, s[i..][..n - i] + rest);
  }

  lemma UnsignedEnd(s: Bytes, n: nat)
    requires UnsignedLen(s) == Some(n) && n < |s|
    ensures !IsDigit(s[n])
  {
    hide DigitRun;
    var i := IntLen(s).value;
    var f := FracLen(s[i..]).value;
    IntEnd(s);
    FracEnd(s[i..]);
    ExpEnd(s[i..][f..]);
  }

  lemma NumberLenLocal(s: Bytes, n: nat, rest: Bytes)
    requires NumberLen(s) == Some(n)
    requires Follows(NumberToken, s, n, rest)
    ensures NumberLen(s[..n] + rest) == Some(n)
  {
    hide UnsignedLen;
    var m := MinusLen(s);
    if n < |s| {
      UnsignedEnd(s[m..], n - m);
    }
    UnsignedLenLocal(s[m..], n - m, rest);
    DropCut(s, n, rest, m);
  }

  lemma IntEnd(s: Bytes)
    ensures IntLen(s).Some? && IntLen(s).value < |s| ==> !IsDigit(s[IntLen(s).value])
  {
  }

  lemma FracEnd(s: Bytes)
    ensures FracLen(s).Some? && 0 < FracLen(s).value < |s| ==> !IsDigit(s[FracLen(s).value])
  {
  }

  lemma ExpEnd(s: Bytes)
    ensures ExpLen(s).Some? && 0 < ExpLen(s).value < |s| ==> !IsDigit(s[ExpLen(s).value])
  {
  }

  lemma WordLocal(s: Bytes, kind: Kind, word: Bytes, rest: Bytes)
    requires kind in {TrueToken, FalseToken, NullToken}
    requires WordAt(s, word)
    requires Follows(kind, s, |word|, rest)
    ensures WordAt(s[..|word|] + rest, word)
  {
    assert s[..|word|] == word;
  }

  lemma {:induction false} LineLenLocal(s: Bytes, n: nat, rest: Bytes)
    requires LineLen(s) == Some(n)
    requires rest == [] || IsLineBreak(rest[0])
    ensures LineLen(s[..n] + rest) == Some(n)
  {
    if n == 0 {
      assert s[..n] + rest == rest;
    } else {
      LineLenLocal(s[1..], n - 1, rest);
      assert (s[..n] + rest)[1..] == s[1..][..n - 1] + rest;
    }
  }

  lemma {:induction false} BlockLenLocal(s: Bytes, n: nat, rest: Bytes)
    requires BlockLen(s) == Some(n)
    ensures BlockLen(s[..n + 2] + rest) == Some(n)
  {
    if n > 0 {
      BlockLenLocal(s[1..], n - 1, rest);
      assert (s[..n + 2] + rest)[1..] == s[1..][..n + 1] + rest;
      assert (s[..n + 2] + rest)[1] == s[1];
    }
  }

  lemma LineCommentLocal(s: Bytes, n: nat, rest: Bytes)
    requires |s| > 1 && s[0] == SLASH && s[1] == SLASH && LineLen(s[2..]) == Some(n)
    requires Follows(LineComment, s, n + 2, rest)
    ensures ScanComment(s[..n + 2] + rest, false) == ScanComment(s, false)
  {
    var t := s[..n + 2] + rest;
    LineLenLocal(s[2..], n, rest);
    DropCut(s, n + 2, rest, 2);
    assert t[2..2 + n] == s[2..2 + n];
  }

  lemma BlockCommentLocal(s: Bytes, n: nat, rest: Bytes)
    requires |s| > 1 && s[0] == SLASH && s[1] == STAR && BlockLen(s[2..]) == Some(n)
    ensures ScanComment(s[..n + 4] + rest, false) == ScanComment(s, false)
  {
    var t := s[..n + 4] + rest;
    BlockLenLocal(s[2..], n, rest);
    DropCut(s, n + 4, rest, 2);
    assert t[2..2 + n] == s[2..2 + n];
  }

  lemma StringLocal(s: Bytes, n: nat, rest: Bytes)
    requires |s| > 0 && s[0] == QUOTE && StringTail(s[1..]) == Some(n)
    ensures ScanToken(s[..n + 1] + rest, false) == Scanned(Token(StringToken, s[..n + 1]), n + 1)
  {
    hide StringTail, ScanComment, NumberLen, Word;
    StringTailLocal(s[1..], n, rest);
    DropCut(s, n + 1, rest, 1);
    assert (s[..n + 1] + rest)[..n + 1] == s[..n + 1];
  }

  lemma NumberLocal(s: Bytes, n: nat, rest: Bytes)
    requires |s| > 0 && (s[0] == MINUS || IsDigit(s[0])) && NumberLen(s) == Some(n)
    requires Follows(NumberToken, s, n, rest)
    ensures ScanToken(s[..n] + rest, false) == Scanned(Token(NumberToken, s[..n]), n)
  {
    hide NumberLen, ScanComment, StringTail, Word, Follows;
    NumberLenLocal(s, n, rest);
    DropCut(s, n, rest, 0);
    assert (s[..n] + rest)[..n] == s[..n];
  }

  lemma SlashScans(s: Bytes)
    requires s != [] && s[0] == SLASH
    ensures ScanToken(s, false) == ScanComment(s, false)
  {
    hide ScanComment;
  }

  lemma CommentLocal(s: Bytes, rest: Bytes)
    requires |s| > 0 && s[0] == SLASH && ScanToken(s, false).tok != ERROR
    requires Follows(ScanToken(s, false).tok.kind, s, ScanToken(s, false).size, rest)
    ensures ScanToken(s[..ScanToken(s, false).size] + rest, false) == ScanToken(s, false)
  {
    hide LineLen, BlockLen, NormalizeBreaks, Follows, ScanToken;
    SlashScans(s);
    var n := ScanToken(s, false).size;
    if s[1] == SLASH {
      LineCommentLocal(s, n - 2, rest);
    } else {
      BlockCommentLocal(s, n - 4, rest);
    }
    assert (s[..n] + rest)[0] == s[0];
    SlashScans(s[..n] + rest);
  }

  /** Strictness only turns comments into errors. */
  lemma ScanStrict(s: Bytes)
    requires |s| > 0
    ensures s[0] != SLASH ==> ScanToken(s, true) == ScanToken(s, false)
    ensures s[0] == SLASH ==> ScanToken(s, true).tok == ERROR
    ensures s[0] == SLASH && ScanToken(s, false).tok != ERROR ==> ScanToken(s, false).tok.kind in {LineComment, BlockComment}
  {
    hide LineLen, BlockLen, NormalizeBreaks, NumberLen, StringTail;
  }

  /** A token depends only on its own bytes, as long as what follows them is
      the byte it was read before, or one that cannot extend it. */
  lemma ScanTokenLocal(s: Bytes, strict: bool, rest: Bytes)
    requires |s| > 0 && ScanToken(s, strict).tok != ERROR
    requires Follows(ScanToken(s, strict).tok.kind, s, ScanToken(s, strict).size, rest)
    ensures ScanToken(s[..ScanToken(s, strict).size] + rest, strict) == ScanToken(s, strict)
  {
    ScanStrict(s);
    var n := ScanToken(s, false).size;
    DropCut(s, n, rest, 0);
    ScanStrict(s[..n] + rest);
    LaxTokenLocal(s, rest);
  }

  lemma LaxTokenLocal(s: Bytes, rest: Bytes)
    requires |s| > 0 && ScanToken(s, false).tok != ERROR
    requires Follows(ScanToken(s, false).tok.kind, s, ScanToken(s, false).size, rest)
    ensures ScanToken(s[..ScanToken(s, false).size] + rest, false) == ScanToken(s, false)
  {
    hide NumberLen, StringTail, ScanComment, Word, Follows;
    var n := ScanToken(s, false).size;
    if s[0] == SLASH {
      CommentLocal(s, rest);
    } else if s[0] == QUOTE {
      StringLocal(s, n - 1, rest);
    } else if s[0] == MINUS || IsDigit(s[0]) {
      NumberLocal(s, n, rest);
    } else {
      ShortTokenLocal(s, rest);
    }
  }

  lemma ShortTokenLocal(s: Bytes, rest: Bytes)
    requires |s| > 0 && s[0] != SLASH && s[0] != QUOTE && s[0] != MINUS && !IsDigit(s[0])
    requires ScanToken(s, false).tok != ERROR
    requires Follows(ScanToken(s, false).tok.kind, s, ScanToken(s, false).size, rest)
    ensures ScanToken(s[..ScanToken(s, false).size] + rest, false) == ScanToken(s, false)
  {
    hide NumberLen, StringTail, ScanComment;
    DropCut(s, ScanToken(s, false).size, rest, 0);
    if s[0] == CR {
      assert ScanToken(s, false).size == 1 ==> s[..1] + rest == [CR] + rest;
    } else if s[0] == 0x74 {
      WordLocal(s, TrueToken, TRUE_WORD, rest);
    } else if s[0] == 0x66 {
      WordLocal(s, FalseToken, FALSE_WORD, rest);
    } else if s[0] == 0x6E {
      WordLocal(s, NullToken, NULL_WORD, rest);
    }
  }

  lemma {:induction false} BlanksLocal(s: Bytes, n: nat, rest: Bytes)
    requires Blanks(s) <= n <= |s|
    requires Blanks(s) == n ==> rest == [] || !IsBlank(rest[0])
    ensures Blanks(s[..n] + rest) == Blanks(s)
  {
    if n == 0 {
      assert s[..n] + rest == rest;
    } else {
      DropCut(s, n, rest, 1);
      if Blanks(s) > 0 {
        BlanksLocal(s[1..], n - 1, rest);
      }
    }
  }

  lemma FollowsDrop(kind: Kind, s: Bytes, lead: nat, n: nat, rest: Bytes)
    requires Follows(kind, s, n, rest) && lead == Blanks(s) && lead <= n <= |s|
    ensures Follows(kind, s[lead..], n - lead, rest)
  {
    hide Ends;
    assert s != [] && s[0] == LF ==> lead == 0;
  }

  /** The same for a step of the scanner, blanks included. */
  lemma NextLocal(s: Bytes, strict: bool, rest: Bytes)
    requires Next(s, strict).tok != EOF && Next(s, strict).tok != ERROR
    requires Follows(Next(s, strict).tok.kind, s, Next(s, strict).size, rest)
    ensures Next(s[..Next(s, strict).size] + rest, strict) == Next(s, strict)
  {
    hide ScanToken, Blanks, Follows;
    var e := Next(s, strict);
    FollowsDrop(e.tok.kind, s, e.lead, e.size, rest);
    BlanksLocal(s, e.size, rest);
    DropCut(s, e.size, rest, e.lead);
    ScanTokenLocal(s[e.lead..], strict, rest);
  }
}
