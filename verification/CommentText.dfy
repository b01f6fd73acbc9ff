/** What a comment is in the source, and how comments are written. */
module CommentText {
  import opened Ascii
  import opened Lexer
  import opened LexerLaws
  import opened Syntax
  import opened Printer
  import opened Rendering

  // Line breaks

  datatype Break = Cr | Lf | CrLf

  datatype Line = Line(text: Bytes, end: Break)

  function BreakBytes(b: Break): Bytes {
    match b
    case Cr => [CR]
    case Lf => [LF]
    case CrLf => [CR, LF]
  }

  predicate NoBreak(s: Bytes) { forall i :: 0 <= i < |s| ==> s[i] != CR && s[i] != LF }

  /** Lines, and a last one without a break. */
  function AsWritten(ls: seq<Line>, last: Bytes): Bytes {
    if ls == [] then last else ls[0].text + (BreakBytes(ls[0].end) + AsWritten(ls[1..], last))
  }

  function WithLf(ls: seq<Line>, last: Bytes): Bytes {
    if ls == [] then last else ls[0].text + ([LF] + WithLf(ls[1..], last))
  }

  /** A CR on its own is not followed by an LF. */
  predicate AreLines(ls: seq<Line>, last: Bytes) {
    NoBreak(last) && (forall i :: 0 <= i < |ls| ==> NoBreak(ls[i].text))
    && forall i :: 0 <= i < |ls| - 1 && ls[i].end == Cr ==> !(ls[i + 1].text == [] && ls[i + 1].end == Lf)
  }

  lemma {:induction false} PlainNormalizes(a: Bytes, b: Bytes)
    requires NoBreak(a)
    ensures NormalizeBreaks(a + b) == a + NormalizeBreaks(b)
  {
    if a == [] {
      assert a + b == b;
    } else {
      var t := a + b;
      PlainNormalizes(a[1..], b);
      assert t[0] == a[0] && t[1..] == a[1..] + b;
      assert a == [a[0]] + a[1..];
    }
  }

  lemma BreakNormalizes(b: Break, s: Bytes)
    requires b == Cr ==> s == [] || s[0] != LF
    ensures NormalizeBreaks(BreakBytes(b) + s) == [LF] + NormalizeBreaks(s)
  {
    var t := BreakBytes(b) + s;
    match b {
      case Cr => assert t[1..] == s;
      case Lf => assert t[1..] == s;
      case CrLf => assert t[2..] == s && t[1] == LF;
    }
  }

  /** Whatever breaks its lines end with, a text is normalized to LF. */
  lemma {:induction false} BreaksBecomeLf(ls: seq<Line>, last: Bytes)
    requires AreLines(ls, last)
    ensures NormalizeBreaks(AsWritten(ls, last)) == WithLf(ls, last)
  {
    hide NormalizeBreaks;
    if ls == [] {
      PlainNormalizes(last, []);
      assert last + [] == last;
      assert NormalizeBreaks([]) == [] by { NothingNormalizes(); }
    } else {
      var rest := AsWritten(ls[1..], last);
      assert forall i :: 0 <= i < |ls[1..]| ==> ls[1..][i] == ls[i + 1];
      BreaksBecomeLf(ls[1..], last);
      if ls[0].end == Cr {
        BeginsNext(ls, last);
      }
      BreakNormalizes(ls[0].end, rest);
      PlainNormalizes(ls[0].text, BreakBytes(ls[0].end) + rest);
    }
  }

  lemma NothingNormalizes()
    ensures NormalizeBreaks([]) == []
  {
  }

  lemma BeginsNext(ls: seq<Line>, last: Bytes)
    requires AreLines(ls, last) && ls != [] && ls[0].end == Cr
    ensures var rest := AsWritten(ls[1..], last); rest == [] || rest[0] != LF
  {
    if |ls| > 1 {
      assert ls[1..][0] == ls[0 + 1];
    }
  }

  // Comments in the source

  /** What a line comment may hold. */
  predicate IsLineText(t: Bytes) { forall i :: 0 <= i < |t| ==> t[i] >= 0x20 || t[i] == TAB }

  lemma {:induction false} LineEnds(t: Bytes, rest: Bytes)
    requires IsLineText(t) && (rest == [] || rest[0] == CR || rest[0] == LF)
    ensures LineLen(t + rest) == Some(|t|)
  {
    var s := t + rest;
    if t == [] {
      assert s == rest;
    } else {
      assert s[0] == t[0] && s[1..] == t[1..] + rest;
      LineEnds(t[1..], rest);
    }
  }

  /** Two slashes and text up to a line break or the end are a line comment. */
  lemma LineCommentScans(t: Bytes, rest: Bytes)
    requires IsLineText(t) && (rest == [] || rest[0] == CR || rest[0] == LF)
    ensures ScanToken([SLASH, SLASH] + (t + rest), false) == Scanned(Token(LineComment, t), 2 + |t|)
  {
    var s := [SLASH, SLASH] + (t + rest);
    LineEnds(t, rest);
    assert s[2..] == t + rest && s[2..2 + |t|] == t;
  }

  lemma {:induction false} LineForm(s: Bytes)
    requires LineLen(s).Some?
    ensures var n := LineLen(s).value; IsLineText(s[..n]) && (n == |s| || s[n] == CR || s[n] == LF)
  {
    if s != [] && !IsLineBreak(s[0]) {
      LineForm(s[1..]);
      var n := LineLen(s).value;
      assert s[..n] == [s[0]] + s[1..][..n - 1];
    }
  }

  /** A line comment is that and nothing else. */
  lemma LineCommentForm(s: Bytes) returns (t: Bytes, rest: Bytes)
    requires s != [] && ScanToken(s, false).tok.kind == LineComment
    ensures s == [SLASH, SLASH] + (t + rest) && IsLineText(t) && (rest == [] || rest[0] == CR || rest[0] == LF)
    ensures ScanToken(s, false) == Scanned(Token(LineComment, t), 2 + |t|)
  {
    LineForm(s[2..]);
    var n := LineLen(s[2..]).value;
    t, rest := s[2..][..n], s[2..][n..];
    assert s[2..2 + n] == t;
    assert s == [s[0], s[1]] + s[2..];
  }

  /** What a block comment may hold: no end of it before its end. */
  predicate IsBlockBody(b: Bytes) {
    && (forall i :: 0 <= i < |b| ==> b[i] >= 0x20 || b[i] == TAB || b[i] == CR || b[i] == LF)
    && forall i :: 0 <= i < |b| && b[i] == STAR ==> (i + 1 < |b| && b[i + 1] != SLASH) || i + 1 == |b|
  }

  lemma {:induction false} BlockEnds(b: Bytes, rest: Bytes)
    requires IsBlockBody(b)
    ensures BlockLen(b + ([STAR, SLASH] + rest)) == Some(|b|)
  {
    var s := b + ([STAR, SLASH] + rest);
    if b != [] {
      var c := b[1..];
      assert forall i :: 0 <= i < |c| ==> c[i] == b[i + 1];
      BlockEnds(c, rest);
      assert s[0] == b[0] && s[1..] == c + ([STAR, SLASH] + rest);
      assert |b| > 1 ==> s[1] == b[1];
      assert |b| == 1 ==> s[1] == STAR;
    }
  }

  /** A body between delimiters is a block comment, its breaks normalized. */
  lemma BlockCommentScans(b: Bytes, rest: Bytes)
    requires IsBlockBody(b)
    ensures ScanToken([SLASH, STAR] + (b + ([STAR, SLASH] + rest)), false)
            == Scanned(Token(BlockComment, NormalizeBreaks(b)), |b| + 4)
  {
    hide BlockLen, NormalizeBreaks, IsBlockBody, ScanToken;
    var s := [SLASH, STAR] + (b + ([STAR, SLASH] + rest));
    BlockEnds(b, rest);
    SlashScans(s);
    assert s[2..] == b + ([STAR, SLASH] + rest) && s[2..2 + |b|] == b;
  }

  lemma {:induction false} BlockForm(s: Bytes)
    requires BlockLen(s).Some?
    ensures var n := BlockLen(s).value; IsBlockBody(s[..n]) && s[n..n + 2] == [STAR, SLASH]
  {
    var n := BlockLen(s).value;
    if n > 0 {
      BlockForm(s[1..]);
      var c := s[1..][..n - 1];
      assert s[..n] == [s[0]] + c;
      assert s[1..][n - 1..n + 1] == s[n..n + 2];
      BodyCons(s[0], c, s[1]);
    }
  }

  lemma BodyCons(x: byte, c: Bytes, next: byte)
    requires IsBlockBody(c) && (x >= 0x20 || x == TAB || x == CR || x == LF)
    requires c != [] ==> next == c[0]
    requires x == STAR ==> next != SLASH || c == []
    ensures IsBlockBody([x] + c)
  {
    var b := [x] + c;
    assert forall i :: 0 < i < |b| ==> b[i] == c[i - 1];
  }

  lemma BlockCommentForm(s: Bytes) returns (b: Bytes, rest: Bytes)
    requires s != [] && ScanToken(s, false).tok.kind == BlockComment
    ensures s == [SLASH, STAR] + (b + ([STAR, SLASH] + rest)) && IsBlockBody(b)
    ensures ScanToken(s, false) == Scanned(Token(BlockComment, NormalizeBreaks(b)), |b| + 4)
  {
    hide BlockLen, NormalizeBreaks;
    BlockForm(s[2..]);
    var n := BlockLen(s[2..]).value;
    b, rest := s[2..][..n], s[2..][n + 2..];
    assert s[2..2 + n] == b;
    assert s[2..] == b + (s[2..][n..n + 2] + rest);
    assert s == [s[0], s[1]] + s[2..];
  }

  // Comments in the output

  lemma {:induction false} TrimIs(s: Bytes)
    ensures var t := TrimRight(s);
            && t <= s && AllBlank(s[|t|..]) && (t != [] ==> !IsBlank(t[|t| - 1]))
    decreases |s|
  {
    if s != [] && IsBlank(s[|s| - 1]) {
      var u := s[..|s| - 1];
      TrimIs(u);
      var t := TrimRight(s);
      assert s[|t|..] == u[|t|..] + [s[|s| - 1]];
    } else {
      assert s[|s|..] == [];
    }
  }

  /** A line as a comment: without blanks at its end, and with one in front unless
      it is blank or begins with one. */
  lemma LineTextIs(s: Bytes) returns (t: Bytes)
    ensures t <= s && AllBlank(s[|t|..]) && (t != [] ==> !IsBlank(t[|t| - 1]))
    ensures LineText(s) == if t == [] || IsBlank(t[0]) then t else [SPACE] + t
  {
    hide TrimRight;
    TrimIs(s);
    t := TrimRight(s);
    assert [] + t == t;
  }

  /** The lines of a text, joined again. */
  function Rejoined(ls: seq<Bytes>): Bytes {
    if ls == [] then [] else if |ls| == 1 then ls[0] else ls[0] + ([LF] + Rejoined(ls[1..]))
  }

  lemma {:induction false} SplitIs(s: Bytes)
    ensures Rejoined(SplitLines(s)) == s && forall i :: 0 <= i < |SplitLines(s)| ==> LF !in SplitLines(s)[i]
  {
    if s != [] {
      var ls := SplitLines(s[1..]);
      SplitIs(s[1..]);
      if s[0] == LF {
        var all := [[]] + ls;
        assert all[1..] == ls;
        assert [] + ([LF] + Rejoined(ls)) == s;
      } else {
        var all := [[s[0]] + ls[0]] + ls[1..];
        assert all[1..] == ls[1..];
        if |ls| == 1 {
          assert all == [[s[0]] + ls[0]];
        } else {
          assert [s[0]] + ls[0] + ([LF] + Rejoined(ls[1..])) == [s[0]] + (ls[0] + ([LF] + Rejoined(ls[1..])));
        }
      }
    }
  }

  lemma {:induction false} DroppedIs(ls: seq<Bytes>) returns (k: nat)
    ensures k <= |ls| && DropBlankLines(ls) == ls[k..]
    ensures (forall i :: 0 <= i < k ==> IsBlankText(ls[i])) && (k < |ls| ==> !IsBlankText(ls[k]))
  {
    hide IsBlankText;
    if ls != [] && IsBlankText(ls[0]) {
      k := DroppedIs(ls[1..]);
      k := k + 1;
      assert ls[1..][k - 1..] == ls[k..];
    } else {
      k := 0;
      assert ls[0..] == ls;
    }
  }

  /** One line comment a line, each ended by a line break. */
  function LineTokens(ls: seq<Bytes>): seq<Token> {
    if ls == [] then [] else [Token(LineComment, LineText(ls[0])), Token(Newline, [])] + LineTokens(ls[1..])
  }

  lemma {:induction false} LinesAre(ls: seq<Bytes>, depth: nat, o: Layout)
    ensures Toks(CommentLines(ls, depth, o)) == LineTokens(ls)
  {
    hide LineText;
    if ls != [] {
      LinesAre(ls[1..], depth, o);
      ToksConcat(CommentLine(ls[0], depth, o), CommentLines(ls[1..], depth, o));
      OneLineIs(ls[0], depth, o);
    }
  }

  lemma OneLineIs(line: Bytes, depth: nat, o: Layout)
    ensures Toks(CommentLine(line, depth, o)) == [Token(LineComment, LineText(line)), Token(Newline, [])]
  {
    hide LineText;
    var a, b := Indent(depth, o), Lex(Token(LineComment, LineText(line)));
    var none: seq<Piece> := [];
    assert [a, b, NEWLINE][1..] == [b, NEWLINE] && [b, NEWLINE][1..] == [NEWLINE] && [NEWLINE][1..] == none;
    assert Toks(none) == [];
    assert Toks([NEWLINE]) == [NEWLINE.tok] + [];
    assert Toks([b, NEWLINE]) == [b.tok] + Toks([NEWLINE]);
  }

  /** A block of comments has a comment for every line of the text, from the first
      that is not blank on. */
  lemma CommentBlockIs(text: Bytes, depth: nat, o: Layout) returns (ls: seq<Bytes>, k: nat)
    ensures Rejoined(ls) == NormalizeBreaks(text) && forall i :: 0 <= i < |ls| ==> LF !in ls[i]
    ensures k <= |ls| && (forall i :: 0 <= i < k ==> IsBlankText(ls[i])) && (k < |ls| ==> !IsBlankText(ls[k]))
    ensures Toks(CommentBlock(text, depth, o)) == LineTokens(ls[k..])
  {
    hide NormalizeBreaks, SplitLines, DropBlankLines, CommentLines, IsBlankText;
    ls := SplitLines(NormalizeBreaks(text));
    SplitIs(NormalizeBreaks(text));
    k := DroppedIs(ls);
    LinesAre(ls[k..], depth, o);
  }
}
