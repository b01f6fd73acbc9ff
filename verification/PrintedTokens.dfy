/**
  What the printer writes is well spaced, comments included: every token is
  followed by a byte that ends it, no comment swallows what comes after it and
  none leaks into it. Without comments and line breaks, the tokens are those of
  the value alone.
 */
module PrintedTokens {
  import opened Ascii
  import opened Lexer
  import opened Tree
  import opened Syntax
  import opened Transparency
  import opened WellFormed
  import opened Printer
  import opened Rendering

  // Comment text

  predicate OneLine(s: Bytes) { forall i :: 0 <= i < |s| ==> IsCommentByte(s[i]) }

  predicate AllOneLine(ls: seq<Bytes>) { forall i :: 0 <= i < |ls| ==> OneLine(ls[i]) }

  lemma {:induction false} SplitOneLine(s: Bytes)
    requires NoteText(s)
    ensures AllOneLine(SplitLines(s))
  {
    if s != [] {
      SplitOneLine(s[1..]);
    }
  }

  lemma {:induction false} DropOneLine(ls: seq<Bytes>)
    requires AllOneLine(ls)
    ensures AllOneLine(DropBlankLines(ls))
  {
    hide OneLine;
    if ls != [] && IsBlankText(ls[0]) {
      DropOneLine(ls[1..]);
    }
  }

  lemma {:induction false} TrimOneLine(s: Bytes)
    requires OneLine(s)
    ensures OneLine(TrimRight(s))
  {
    if s != [] && IsBlank(s[|s| - 1]) {
      TrimOneLine(s[..|s| - 1]);
    }
  }

  lemma {:induction false} OneLineScans(s: Bytes)
    requires OneLine(s)
    ensures LineLen(s) == Some(|s|)
  {
    if s != [] {
      OneLineScans(s[1..]);
    }
  }

  lemma LineCommentRenders(s: Bytes)
    requires OneLine(s)
    ensures Renderable(Token(LineComment, LineText(s)))
  {
    TrimOneLine(s);
    var t := LineText(s);
    assert OneLine(t);
    OneLineScans(t);
    var r := [SLASH, SLASH] + t;
    assert r[2..] == t && r[2..2 + |t|] == t;
  }

  predicate NoStarSlash(s: Bytes) { forall i :: 0 <= i < |s| - 1 ==> !(s[i] == STAR && s[i + 1] == SLASH) }

  lemma {:induction false} Sanitized(s: Bytes)
    requires NoteText(s)
    ensures NoStarSlash(Sanitize(s)) && NoteText(Sanitize(s))
    ensures s != [] ==> Sanitize(s) != [] && Sanitize(s)[0] == s[0]
    decreases |s|
  {
    if s == [] {
    } else if |s| > 1 && s[0] == STAR && s[1] == SLASH {
      Sanitized(s[2..]);
      var t := Sanitize(s[2..]);
      assert Sanitize(s) == [STAR, SPACE, SLASH] + t;
    } else {
      Sanitized(s[1..]);
      var t := Sanitize(s[1..]);
      assert Sanitize(s) == [s[0]] + t;
    }
  }

  lemma {:induction false} BlockScans(s: Bytes)
    requires NoStarSlash(s) && NoteText(s) && (s == [] || s[|s| - 1] != STAR)
    ensures BlockLen(s + [STAR, SLASH]) == Some(|s|)
  {
    var t := s + [STAR, SLASH];
    if s != [] {
      BlockScans(s[1..]);
      assert t[1..] == s[1..] + [STAR, SLASH];
      assert t[0] == s[0];
      if |s| > 1 {
        assert t[1] == s[1];
      }
    }
  }

  lemma {:induction false} NothingToNormalize(s: Bytes)
    requires NoteText(s)
    ensures NormalizeBreaks(s) == s
  {
    if s != [] {
      NothingToNormalize(s[1..]);
      assert s == [s[0]] + s[1..];
    }
  }

  lemma BlockTextOk(s: Bytes)
    requires NoteText(s)
    ensures var t := BlockText(s); NoStarSlash(t) && NoteText(t) && t != [] && t[|t| - 1] != STAR
  {
    Sanitized(s);
  }

  lemma BlockCommentRenders(s: Bytes)
    requires NoteText(s)
    ensures Renderable(Token(BlockComment, BlockText(s)))
  {
    hide NoteText, NoStarSlash, BlockText, NormalizeBreaks, BlockLen;
    var t := BlockText(s);
    BlockTextOk(s);
    BlockScans(t);
    NothingToNormalize(t);
    var r := [SLASH, STAR] + t + [STAR, SLASH];
    assert r[2..] == t + [STAR, SLASH];
    assert r[2..2 + |t|] == t;
  }

  // Spacing of comments

  predicate BlankIndent(o: Layout) { AllBlank(o.indent) }

  lemma {:induction false} RepeatBlank(s: Bytes, n: nat)
    requires AllBlank(s)
    ensures AllBlank(Repeat(s, n))
  {
    if n > 0 {
      RepeatBlank(s, n - 1);
    }
  }

  /** ps is well spaced in front of anything, and holds no token but comments
      and line breaks. */
  predicate Quiet(ps: seq<Piece>, next: Option<byte>) { WellSpaced(ps, next) && Plain(Toks(ps)) == [] }

  lemma QuietConcat(a: seq<Piece>, b: seq<Piece>, next: Option<byte>)
    requires Quiet(a, First(b, next)) && Quiet(b, next)
    ensures Quiet(a + b, next)
  {
    SpacedConcat(a, b, next);
    ToksConcat(a, b);
    PlainConcat(Toks(a), Toks(b));
  }

  lemma NewlineRenders()
    ensures Renderable(NEWLINE.tok)
  {
    var t := Token(Newline, []);
    assert RenderToken(t) == [LF];
    assert ScanToken([LF], false) == Scanned(t, 1);
    assert NEWLINE.tok == t;
  }

  /** One piece that is a gap, a comment or a line break. */
  lemma PieceIsQuiet(p: Piece, next: Option<byte>)
    requires p.Gap? ==> AllBlank(p.text)
    requires p.Lex? ==> IsTrivia(p.tok) && Renderable(p.tok) && EndsBefore(p.tok.kind, next)
    ensures Quiet([p], next)
    ensures First([p], next) == FirstByte(RenderPiece(p), next)
  {
    hide Renderable;
    var none: seq<Piece> := [];
    assert [p][1..] == none;
    assert First(none, next) == next && WellSpaced(none, next) && Toks(none) == [];
    assert WellSpaced([p], next);
    assert Toks([p]) == PieceToks(p);
    assert Plain(PieceToks(p)) == [];
  }

  lemma NewlineIsQuiet(next: Option<byte>)
    ensures Quiet([NEWLINE], next) && First([NEWLINE], next) == Some(LF)
    ensures Quiet([], next)
  {
    NewlineRenders();
    PieceIsQuiet(NEWLINE, next);
  }

  lemma CommentLineIsQuiet(line: Bytes, depth: nat, o: Layout, next: Option<byte>)
    requires OneLine(line) && BlankIndent(o)
    ensures Quiet(CommentLine(line, depth, o), next)
  {
    hide Renderable, LineText, Quiet;
    var gap := Indent(depth, o);
    var c := Lex(Token(LineComment, LineText(line)));
    LineCommentRenders(line);
    RepeatBlank(o.indent, depth);
    NewlineIsQuiet(next);
    PieceIsQuiet(c, Some(LF));
    QuietConcat([c], [NEWLINE], next);
    PieceIsQuiet(gap, First([c] + [NEWLINE], next));
    QuietConcat([gap], [c] + [NEWLINE], next);
    assert CommentLine(line, depth, o) == [gap] + ([c] + [NEWLINE]);
  }

  lemma {:induction false} CommentLinesAreQuiet(ls: seq<Bytes>, depth: nat, o: Layout, next: Option<byte>)
    requires AllOneLine(ls) && BlankIndent(o)
    ensures Quiet(CommentLines(ls, depth, o), next)
  {
    hide OneLine, Quiet, CommentLine;
    if ls == [] {
      NewlineIsQuiet(next);
    } else {
      CommentLinesAreQuiet(ls[1..], depth, o, next);
      CommentLineIsQuiet(ls[0], depth, o, First(CommentLines(ls[1..], depth, o), next));
      QuietConcat(CommentLine(ls[0], depth, o), CommentLines(ls[1..], depth, o), next);
    }
  }

  lemma CommentBlockIsQuiet(text: Bytes, depth: nat, o: Layout, next: Option<byte>)
    requires NoteText(text) && BlankIndent(o)
    ensures Quiet(CommentBlock(text, depth, o), next)
  {
    NothingToNormalize(text);
    SplitOneLine(text);
    DropOneLine(SplitLines(text));
    CommentLinesAreQuiet(DropBlankLines(SplitLines(text)), depth, o, next);
  }

  predicate EndsLine(next: Option<byte>) { next == None || next == Some(LF) }

  lemma SpacedPair(gap: Piece, c: Token, next: Option<byte>)
    requires gap == SPACE_PIECE && IsComment(c) && Renderable(c) && EndsBefore(c.kind, next)
    ensures Quiet([gap, Lex(c)], next) && First([gap, Lex(c)], next) == Some(SPACE)
  {
    hide Renderable, Quiet;
    PieceIsQuiet(Lex(c), next);
    PieceIsQuiet(gap, First([Lex(c)], next));
    QuietConcat([gap], [Lex(c)], next);
    FirstConcat([gap], [Lex(c)], next);
    assert [gap, Lex(c)] == [gap] + [Lex(c)];
  }

  lemma InlineBlockIsQuiet(s: Bytes, next: Option<byte>)
    requires NoteText(s)
    ensures Quiet(InlineBlock(s), next) && First(InlineBlock(s), next) == Some(SPACE)
  {
    hide Renderable, Quiet, BlockText;
    BlockCommentRenders(s);
    SpacedPair(SPACE_PIECE, Token(BlockComment, BlockText(s)), next);
  }

  lemma InlineNoteIsQuiet(s: Bytes, next: Option<byte>)
    requires NoteText(s) && EndsLine(next)
    ensures Quiet(InlineNote(s), next) && First(InlineNote(s), next) == Some(SPACE)
  {
    hide Renderable, Quiet, LineText;
    if LF in s || CR in s {
      InlineBlockIsQuiet(s, next);
    } else {
      assert OneLine(s);
      LineCommentRenders(s);
      SpacedPair(SPACE_PIECE, Token(LineComment, LineText(s)), next);
    }
  }

  lemma WfInner(n: Node)
    requires WfNode(n)
    ensures NoteText(InnerLine(n)) && NoteText(n.notes.line) && NoteText(HeadText(n)) && NoteText(AfterText(n))
    ensures NoteText(n.notes.foot)
  {
    hide NoteText;
    EmptyWf(true);
    if n.kind == KeyValueNode {
      assert WfNode(n.children[0]);
      JoinedNotes(n.notes.head, n.children[0].notes.head);
      JoinedNotes(n.notes.foot, n.children[0].notes.trail);
      JoinedNotes(JoinNotes(n.notes.foot, n.children[0].notes.trail), n.notes.trail);
    } else {
      JoinedNotes([], n.notes.trail);
      JoinedNotes(n.notes.foot, n.notes.trail);
    }
  }

  lemma LineNotesAreQuiet(n: Node, next: Option<byte>)
    requires WfNode(n) && EndsLine(next)
    ensures Quiet(LineNotes(n), next)
    ensures LineNotes(n) == [] || First(LineNotes(n), next) == Some(SPACE)
  {
    hide Quiet, WfNode, InlineNote, InlineBlock, NoteText;
    WfInner(n);
    if n.notes.line != [] {
      InlineNoteIsQuiet(n.notes.line, next);
    }
    if InnerLine(n) != [] {
      InlineNoteIsQuiet(InnerLine(n), next);
      var rest := First(InlineNote(n.notes.line), next);
      InlineBlockIsQuiet(InnerLine(n), rest);
      if n.notes.line != [] {
        QuietConcat(InlineBlock(InnerLine(n)), InlineNote(n.notes.line), next);
        FirstConcat(InlineBlock(InnerLine(n)), InlineNote(n.notes.line), next);
      }
    }
    NewlineIsQuiet(next);
  }

  lemma HeadBlockIsQuiet(n: Node, depth: nat, o: Layout, next: Option<byte>)
    requires WfNode(n) && BlankIndent(o)
    ensures Quiet(HeadBlock(n, depth, o), next)
  {
    hide Quiet, NoteText;
    WfInner(n);
    NewlineIsQuiet(next);
    CommentBlockIsQuiet(HeadText(n), depth, o, next);
  }

  lemma FootBlockIsQuiet(foot: Bytes, depth: nat, o: Layout, next: Option<byte>)
    requires NoteText(foot) && BlankIndent(o)
    ensures Quiet(FootBlock(foot, depth, o), next)
  {
    hide Quiet, NoteText;
    NewlineIsQuiet(next);
    CommentBlockIsQuiet(foot, depth, o, next);
  }

  /** What may come right behind a printed value. */
  predicate Delimiter(next: Option<byte>) {
    next == None || next.value in {COMMA, LF, SPACE, RBRACE, RBRACKET}
  }

  lemma EndOfLineIsQuiet(n: Node, depth: nat, o: Layout, next: Option<byte>)
    requires WfNode(n) && BlankIndent(o)
    ensures Quiet(EndOfLine(n, depth, o), next)
    ensures Delimiter(First(EndOfLine(n, depth, o), next))
  {
    hide Quiet, NoteText, LineNotes, CommentBlock;
    NewlineIsQuiet(next);
    if o.NodeComments() {
      WfInner(n);
      var after := CommentBlock(AfterText(n), depth, o);
      CommentBlockIsQuiet(AfterText(n), depth, o, next);
      NewlineIsQuiet(First(after, next));
      LineNotesAreQuiet(n, Some(LF));
      assert LineNotes(n) + [NEWLINE] + after == LineNotes(n) + ([NEWLINE] + after);
      QuietConcat([NEWLINE], after, next);
      FirstConcat([NEWLINE], after, next);
      QuietConcat(LineNotes(n), [NEWLINE] + after, next);
      FirstConcat(LineNotes(n), [NEWLINE] + after, next);
    }
  }

  lemma EndOfDocumentIsQuiet(n: Node, o: Layout)
    requires WfNode(n) && BlankIndent(o)
    ensures Quiet(EndOfDocument(n, o), None)
    ensures Delimiter(First(EndOfDocument(n, o), None))
  {
    hide Quiet, NoteText, LineNotes, CommentBlock;
    NewlineIsQuiet(None);
    WfInner(n);
    if o.NodeComments() {
      var after := CommentBlock(AfterText(n), 0, o);
      CommentBlockIsQuiet(AfterText(n), 0, o, None);
      NewlineIsQuiet(First(after, None));
      var tail := if AfterText(n) != [] then [NEWLINE] + after else [];
      QuietConcat([NEWLINE], after, None);
      FirstConcat([NEWLINE], after, None);
      LineNotesAreQuiet(n, First(tail, None));
      QuietConcat(LineNotes(n), tail, None);
      FirstConcat(LineNotes(n), tail, None);
    }
  }
}
