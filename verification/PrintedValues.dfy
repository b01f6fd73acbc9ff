/** The tokens of a printed value, in every layout. */
module PrintedValues {
  import opened Ascii
  import opened Lexer
  import opened QuotedStrings
  import opened StringLaws
  import opened Tree
  import opened Syntax
  import opened Transparency
  import opened WellFormed
  import opened Printer
  import opened Rendering
  import opened PrintedTokens

  // The tokens of a value, without comments and line breaks

  function StringTok(raw: Bytes, value: Bytes, o: Layout): Token { StringPiece(raw, value, o).tok }

  function Core(n: Node, o: Layout): seq<Token>
    decreases n, 1
  {
    match n.kind
    case ObjectNode => [OpenPiece(n.kind).tok] + CoreKids(n.children, o, o.Spread(n.kind) && o.LastComma()) + [ClosePiece(n.kind).tok]
    case ArrayNode => [OpenPiece(n.kind).tok] + CoreKids(n.children, o, o.Spread(n.kind) && o.LastComma()) + [ClosePiece(n.kind).tok]
    case KeyValueNode =>
      [StringTok(n.rawKey, n.key, o), COLON_PIECE.tok]
      + (if n.children != [] then Core(n.children[0], o) else [Token(NullToken, NULL_WORD)])
    case StringNode => [StringTok(n.rawValue, n.value, o)]
    case _ => [Token(ScalarKind(n), ScalarText(n))]
  }

  /** The children, separated by commas; `last` is for a trailing one. */
  function CoreKids(kids: seq<Node>, o: Layout, last: bool): seq<Token>
    decreases kids, 0
  {
    if kids == [] then []
    else Core(kids[0], o) + CommaTok(|kids| > 1 || last) + CoreKids(kids[1..], o, last)
  }

  function CommaTok(comma: bool): seq<Token> { if comma then [COMMA_PIECE.tok] else [] }

  predicate Prints(ps: seq<Piece>, next: Option<byte>, ts: seq<Token>) {
    WellSpaced(ps, next) && Plain(Toks(ps)) == ts
  }

  lemma PrintsConcat(a: seq<Piece>, b: seq<Piece>, next: Option<byte>, ts: seq<Token>, us: seq<Token>)
    requires Prints(a, First(b, next), ts) && Prints(b, next, us)
    ensures Prints(a + b, next, ts + us)
    ensures First(a + b, next) == First(a, First(b, next))
  {
    SpacedConcat(a, b, next);
    FirstConcat(a, b, next);
    ToksConcat(a, b);
    PlainConcat(Toks(a), Toks(b));
  }

  lemma PrintsGap(p: Piece, next: Option<byte>)
    requires p.Gap? && AllBlank(p.text)
    ensures Prints([p], next, []) && First([p], next) == FirstByte(p.text, next)
  {
    PieceIsQuiet(p, next);
  }

  lemma PrintsToken(t: Token, next: Option<byte>)
    requires Renderable(t) && !IsTrivia(t) && EndsBefore(t.kind, next)
    ensures Prints([Lex(t)], next, [t]) && First([Lex(t)], next) == Some(RenderToken(t)[0])
  {
    hide RenderToken, EndsBefore;
    var p := Lex(t);
    var none: seq<Piece> := [];
    assert [p][1..] == none;
    assert First(none, next) == next && WellSpaced(none, next) && Toks(none) == [];
    assert WellSpaced([p], next);
    assert Toks([p]) == [t];
    assert Plain([t][1..]) == [];
    assert Plain([t]) == [t];
  }

  // Tokens of values render.

  lemma DelimiterEnds(kind: Kind, next: Option<byte>)
    requires Delimiter(next) && kind != LineComment
    ensures EndsBefore(kind, next)
  {
  }

  lemma StringRenders(t: Bytes)
    requires IsStringToken(t)
    ensures Renderable(Token(StringToken, t))
  {
    hide StringTail;
    assert t[..|t|] == t;
    assert t != [] && t[0] == QUOTE;
  }

  lemma {:induction false} NumberHead(t: Bytes)
    requires NumberLen(t).Some?
    ensures t != [] && (t[0] == MINUS || IsDigit(t[0]))
  {
  }

  lemma NumberRenders(t: Bytes)
    requires NumberLen(t) == Some(|t|)
    ensures Renderable(Token(NumberToken, t))
  {
    NumberHead(t);
    assert t[..|t|] == t;
  }

  lemma WordsRender()
    ensures Renderable(Token(TrueToken, TRUE_WORD)) && Renderable(Token(FalseToken, FALSE_WORD))
    ensures Renderable(Token(NullToken, NULL_WORD))
  {
    assert ScanToken(TRUE_WORD, false) == Scanned(Token(TrueToken, TRUE_WORD), 4);
    assert ScanToken(FALSE_WORD, false) == Scanned(Token(FalseToken, FALSE_WORD), 5);
    assert ScanToken(NULL_WORD, false) == Scanned(Token(NullToken, NULL_WORD), 4);
  }

  lemma PunctuationRenders()
    ensures Renderable(OpenPiece(ObjectNode).tok) && Renderable(OpenPiece(ArrayNode).tok)
    ensures Renderable(ClosePiece(ObjectNode).tok) && Renderable(ClosePiece(ArrayNode).tok)
    ensures Renderable(COMMA_PIECE.tok) && Renderable(COLON_PIECE.tok)
  {
    assert ScanToken([LBRACE], false) == Scanned(Token(ObjectStart, [LBRACE]), 1);
    assert ScanToken([RBRACE], false) == Scanned(Token(ObjectEnd, [RBRACE]), 1);
    assert ScanToken([LBRACKET], false) == Scanned(Token(ArrayStart, [LBRACKET]), 1);
    assert ScanToken([RBRACKET], false) == Scanned(Token(ArrayEnd, [RBRACKET]), 1);
    assert ScanToken([COMMA], false) == Scanned(Token(ValueSeparator, [COMMA]), 1);
    assert ScanToken([COLON], false) == Scanned(Token(NameSeparator, [COLON]), 1);
  }

  lemma PunctuationPrints(next: Option<byte>)
    ensures forall k :: Prints([OpenPiece(k)], next, [OpenPiece(k).tok])
    ensures forall k :: Prints([ClosePiece(k)], next, [ClosePiece(k).tok]) && Delimiter(First([ClosePiece(k)], next))
    ensures Prints([COMMA_PIECE], next, [COMMA_PIECE.tok]) && First([COMMA_PIECE], next) == Some(COMMA)
    ensures Prints([COLON_PIECE], next, [COLON_PIECE.tok])
  {
    hide Prints, Renderable, First;
    PunctuationRenders();
    forall k
      ensures Prints([OpenPiece(k)], next, [OpenPiece(k).tok])
      ensures Prints([ClosePiece(k)], next, [ClosePiece(k).tok]) && Delimiter(First([ClosePiece(k)], next))
    {
      PrintsToken(OpenPiece(k).tok, next);
      PrintsToken(ClosePiece(k).tok, next);
    }
    PrintsToken(COMMA_PIECE.tok, next);
    PrintsToken(COLON_PIECE.tok, next);
  }

  lemma StringPrints(raw: Bytes, value: Bytes, o: Layout, next: Option<byte>)
    requires IsStringToken(raw) && Unquote(raw) == Some(value)
    ensures Prints([StringPiece(raw, value, o)], next, [StringTok(raw, value, o)])
  {
    hide Prints, Renderable, SourceString, Unquote, IsStringToken;
    SourceStringKeepsText(raw, o.escapeHTML);
    StringRenders(SourceString(raw, value, o.escapeHTML));
    PrintsToken(StringTok(raw, value, o), next);
  }

  lemma ScalarPrints(n: Node, o: Layout, next: Option<byte>)
    requires WfNode(n) && n.kind in {NumberNode, BoolNode, NullNode} && Delimiter(next)
    ensures Prints([Lex(Token(ScalarKind(n), ScalarText(n)))], next, Core(n, o))
  {
    hide Prints, Renderable, NumberLen;
    WordsRender();
    if n.kind == NumberNode {
      assert n.rawValue != [] by { NumberHead(n.value); }
      NumberRenders(n.value);
    }
    DelimiterEnds(ScalarKind(n), next);
    PrintsToken(Token(ScalarKind(n), ScalarText(n)), next);
  }

  lemma {:induction false} ValuePrints(n: Node, depth: nat, o: Layout, next: Option<byte>)
    requires WfNode(n) && BlankIndent(o) && Delimiter(next)
    ensures Prints(PrintValue(n, depth, o), next, Core(n, o))
    decreases n, 2
  {
    hide Prints, StringPiece, ScalarKind, ScalarText, WfNotes, Unquote, IsStringToken, NumberLen, Delimiter;
    match n.kind {
      case ObjectNode =>
        ContainerPrints(n, depth, o, next);
      case ArrayNode =>
        ContainerPrints(n, depth, o, next);
      case KeyValueNode =>
        MemberPrints(n, depth, o, next);
      case StringNode =>
        StringPrints(n.rawValue, n.value, o, next);
      case _ =>
        ScalarPrints(n, o, next);
    }
  }

  lemma {:induction false} MemberPrints(n: Node, depth: nat, o: Layout, next: Option<byte>)
    requires WfNode(n) && n.kind == KeyValueNode && BlankIndent(o) && Delimiter(next)
    ensures Prints(PrintValue(n, depth, o), next, Core(n, o))
    decreases n, 1
  {
    hide Prints, First, SourceString, Unquote, IsStringToken, Delimiter, WfNotes;
    var v := n.children[0];
    var val := PrintValue(v, depth, o);
    var key := StringPiece(n.rawKey, n.key, o);
    ValuePrints(v, depth, o, next);
    PrintsGap(SPACE_PIECE, First(val, next));
    PrintsConcat([SPACE_PIECE], val, next, [], Core(v, o));
    var tail := [SPACE_PIECE] + val;
    PunctuationPrints(First(tail, next));
    PrintsConcat([COLON_PIECE], tail, next, [COLON_PIECE.tok], [] + Core(v, o));
    var tail2 := [COLON_PIECE] + tail;
    StringPrints(n.rawKey, n.key, o, First(tail2, next));
    PrintsConcat([key], tail2, next, [key.tok], [COLON_PIECE.tok] + ([] + Core(v, o)));
    assert PrintValue(n, depth, o) == [key] + tail2;
    assert Core(n, o) == [key.tok] + ([COLON_PIECE.tok] + ([] + Core(v, o)));
  }

  lemma {:induction false} ContainerPrints(n: Node, depth: nat, o: Layout, next: Option<byte>)
    requires WfNode(n) && n.IsContainer() && BlankIndent(o)
    ensures Prints(PrintContainer(n, depth, o), next, Core(n, o))
    decreases n, 1
  {
    hide Prints, Delimiter, NoteText, FootBlock, Quiet;
    var open, close := OpenPiece(n.kind), ClosePiece(n.kind);
    PunctuationPrints(next);
    if !o.Spread(n.kind) {
      JoinedPrints(n.children, o, First([close], next));
      Bracketed(open, PrintJoined(n.children, o), close, next, CoreKids(n.children, o, false));
    } else if n.children == [] && n.notes.foot == [] {
      EmptyPrints(First([close], next));
      Bracketed(open, [], close, next, []);
      assert [open] + [] + [close] == [open, close];
    } else {
      RepeatBlank(o.indent, depth);
      PrintsGap(Indent(depth, o), First([close], next));
      var p1 := First([Indent(depth, o)], First([close], next));
      assert WfNotes(n.notes);
      FootPrints(n.notes.foot, depth + 1, o, p1);
      var foot := FootBlock(n.notes.foot, depth + 1, o);
      LinesPrint(n.children, depth + 1, o, First(foot, p1));
      SpreadPrints(n, depth, o, next, p1);
    }
  }

  lemma FootPrints(foot: Bytes, depth: nat, o: Layout, next: Option<byte>)
    requires NoteText(foot) && BlankIndent(o)
    ensures Prints(FootBlock(foot, depth, o), next, [])
  {
    hide FootBlock, NoteText;
    FootBlockIsQuiet(foot, depth, o, next);
  }

  lemma EmptyPrints(next: Option<byte>)
    ensures Prints([], next, []) && First([], next) == next
  {
  }

  /** Opening delimiter, inside, closing delimiter. */
  lemma Bracketed(open: Piece, inside: seq<Piece>, close: Piece, next: Option<byte>, ts: seq<Token>)
    requires (open, close) == (OpenPiece(ObjectNode), ClosePiece(ObjectNode)) || (open, close) == (OpenPiece(ArrayNode), ClosePiece(ArrayNode))
    requires Prints(inside, First([close], next), ts)
    ensures Prints([open] + inside + [close], next, [open.tok] + ts + [close.tok])
  {
    hide Prints, First;
    PunctuationPrints(next);
    PrintsConcat(inside, [close], next, ts, [close.tok]);
    PunctuationPrints(First(inside + [close], next));
    PrintsConcat([open], inside + [close], next, [open.tok], ts + [close.tok]);
    assert [open] + inside + [close] == [open] + (inside + [close]);
    assert [open.tok] + ts + [close.tok] == [open.tok] + (ts + [close.tok]);
  }

  /** The multi-line layout, put together from its parts. */
  lemma SpreadPrints(n: Node, depth: nat, o: Layout, next: Option<byte>, p1: Option<byte>)
    requires n.IsContainer() && o.Spread(n.kind) && !(n.children == [] && n.notes.foot == [])
    requires Prints([Indent(depth, o)], First([ClosePiece(n.kind)], next), [])
    requires p1 == First([Indent(depth, o)], First([ClosePiece(n.kind)], next))
    requires Prints(FootBlock(n.notes.foot, depth + 1, o), p1, [])
    requires Prints(PrintLines(n.children, depth + 1, o), First(FootBlock(n.notes.foot, depth + 1, o), p1), CoreKids(n.children, o, o.LastComma()))
    ensures Prints(PrintContainer(n, depth, o), next, Core(n, o))
  {
    hide Prints, First, PrintLines, FootBlock, CoreKids;
    var open, close := OpenPiece(n.kind), ClosePiece(n.kind);
    var foot := FootBlock(n.notes.foot, depth + 1, o);
    var lines := PrintLines(n.children, depth + 1, o);
    var kids := CoreKids(n.children, o, o.LastComma());
    var indent := [Indent(depth, o)];
    var after := First([close], next);
    PrintsConcat(foot, indent, after, [], []);
    PrintsConcat(lines, foot + indent, after, kids, [] + []);
    var body := lines + (foot + indent);
    NewlinePrints(First(body, after));
    PrintsConcat([NEWLINE], body, after, [], kids + ([] + []));
    Bracketed(open, [NEWLINE] + body, close, next, [] + (kids + ([] + [])));
    assert [] + (kids + ([] + [])) == kids;
    assert PrintContainer(n, depth, o) == [open] + ([NEWLINE] + body) + [close];
  }

  lemma NewlinePrints(next: Option<byte>)
    ensures Prints([NEWLINE], next, [])
  {
    NewlineIsQuiet(next);
  }

  lemma {:induction false} JoinedPrints(kids: seq<Node>, o: Layout, next: Option<byte>)
    requires forall i :: 0 <= i < |kids| ==> WfNode(kids[i])
    requires BlankIndent(o) && Delimiter(next)
    ensures Prints(PrintJoined(kids, o), next, CoreKids(kids, o, false))
    decreases kids, 0
  {
    hide Prints, Delimiter, WfNode, First, Core, PrintValue;
    if kids == [] {
      EmptyPrints(next);
    } else if |kids| == 1 {
      ValuePrints(kids[0], 0, o, next);
      assert CoreKids(kids[1..], o, false) == [];
      assert Core(kids[0], o) + [] + [] == Core(kids[0], o);
    } else {
      var rest := PrintJoined(kids[1..], o);
      var ts := CoreKids(kids[1..], o, false);
      JoinedPrints(kids[1..], o, next);
      PrintsGap(SPACE_PIECE, First(rest, next));
      PrintsConcat([SPACE_PIECE], rest, next, [], ts);
      PunctuationPrints(First([SPACE_PIECE] + rest, next));
      PrintsConcat([COMMA_PIECE], [SPACE_PIECE] + rest, next, [COMMA_PIECE.tok], [] + ts);
      var tail := [COMMA_PIECE] + ([SPACE_PIECE] + rest);
      CommaDelimits(First(tail, next));
      ValuePrints(kids[0], 0, o, First(tail, next));
      PrintsConcat(PrintValue(kids[0], 0, o), tail, next, Core(kids[0], o), [COMMA_PIECE.tok] + ([] + ts));
      assert PrintJoined(kids, o) == PrintValue(kids[0], 0, o) + tail;
      assert CoreKids(kids, o, false) == Core(kids[0], o) + ([COMMA_PIECE.tok] + ([] + ts));
    }
  }

  lemma CommaDelimits(next: Option<byte>)
    ensures next == Some(COMMA) ==> Delimiter(next)
  {
  }

  lemma {:induction false} LinesPrint(kids: seq<Node>, depth: nat, o: Layout, next: Option<byte>)
    requires forall i :: 0 <= i < |kids| ==> WfNode(kids[i])
    requires BlankIndent(o)
    ensures Prints(PrintLines(kids, depth, o), next, CoreKids(kids, o, o.LastComma()))
    decreases kids, 1
  {
    hide Prints, WfNode, First, Core, PrintLine;
    if kids == [] {
      EmptyPrints(next);
    } else {
      var rest := PrintLines(kids[1..], depth, o);
      var ts := CoreKids(kids[1..], o, o.LastComma());
      LinesPrint(kids[1..], depth, o, next);
      LinePrints(kids, depth, o, First(rest, next));
      PrintsConcat(PrintLine(kids, depth, o), rest, next, Core(kids[0], o) + CommaTok(|kids| > 1 || o.LastComma()), ts);
    }
  }

  lemma {:induction false} LinePrints(kids: seq<Node>, depth: nat, o: Layout, next: Option<byte>)
    requires kids != [] && WfNode(kids[0]) && BlankIndent(o)
    ensures Prints(PrintLine(kids, depth, o), next, Core(kids[0], o) + CommaTok(|kids| > 1 || o.LastComma()))
    decreases kids, 0
  {
    hide Prints, WfNode, First, Core, PrintValue, Delimiter, EndOfLine, HeadBlock, BlankIndent;
    var n := kids[0];
    var more := |kids| > 1 || o.LastComma();
    var end := EndOfLine(n, depth, o);
    EndPrints(n, depth, o, next);
    SeparatorPrints(more, end, next);
    var tail := Separator(more) + end;
    ValuePrints(n, depth, o, First(tail, next));
    PrintsConcat(PrintValue(n, depth, o), tail, next, Core(n, o), CommaTok(more));
    var tail2 := PrintValue(n, depth, o) + tail;
    IndentPrints(depth, o, First(tail2, next));
    PrintsConcat([Indent(depth, o)], tail2, next, [], Core(n, o) + CommaTok(more));
    var tail3 := [Indent(depth, o)] + tail2;
    HeadPrints(n, depth, o, First(tail3, next));
    PrintsConcat(HeadBlock(n, depth, o), tail3, next, [], [] + (Core(n, o) + CommaTok(more)));
    assert PrintLine(kids, depth, o) == HeadBlock(n, depth, o) + tail3;
    assert [] + ([] + (Core(n, o) + CommaTok(more))) == Core(n, o) + CommaTok(more);
  }

  lemma IndentPrints(depth: nat, o: Layout, next: Option<byte>)
    requires BlankIndent(o)
    ensures Prints([Indent(depth, o)], next, [])
  {
    RepeatBlank(o.indent, depth);
    PrintsGap(Indent(depth, o), next);
  }

  lemma HeadPrints(n: Node, depth: nat, o: Layout, next: Option<byte>)
    requires WfNode(n) && BlankIndent(o)
    ensures Prints(HeadBlock(n, depth, o), next, [])
  {
    hide WfNode, HeadBlock;
    HeadBlockIsQuiet(n, depth, o, next);
  }

  lemma EndPrints(n: Node, depth: nat, o: Layout, next: Option<byte>)
    requires WfNode(n) && BlankIndent(o)
    ensures Prints(EndOfLine(n, depth, o), next, []) && Delimiter(First(EndOfLine(n, depth, o), next))
  {
    hide WfNode, EndOfLine;
    EndOfLineIsQuiet(n, depth, o, next);
  }

  lemma SeparatorPrints(more: bool, end: seq<Piece>, next: Option<byte>)
    requires Prints(end, next, []) && Delimiter(First(end, next))
    ensures Prints(Separator(more) + end, next, CommaTok(more)) && Delimiter(First(Separator(more) + end, next))
  {
    hide Prints, First;
    if more {
      PunctuationPrints(First(end, next));
      PrintsConcat([COMMA_PIECE], end, next, [COMMA_PIECE.tok], []);
      assert [COMMA_PIECE.tok] + [] == CommaTok(more);
    } else {
      assert Separator(more) + end == end;
    }
  }

  /** A printed document: its comments and line breaks aside, the tokens of its
      value. */
  lemma DocumentPrints(n: Node, o: Layout)
    requires WfNode(n) && BlankIndent(o)
    ensures Prints(PrintDocument(n, o), None, Core(n, o))
  {
    hide WfNode, First, Core, PrintValue, Delimiter, EndOfDocument, HeadBlock, WellSpaced, Toks;
    var end := EndOfDocument(n, o);
    EndOfDocumentIsQuiet(n, o);
    ValuePrints(n, 0, o, First(end, None));
    PrintsConcat(PrintValue(n, 0, o), end, None, Core(n, o), []);
    var tail := PrintValue(n, 0, o) + end;
    HeadPrints(n, 0, o, First(tail, None));
    PrintsConcat(HeadBlock(n, 0, o), tail, None, [], Core(n, o) + []);
    assert PrintDocument(n, o) == HeadBlock(n, 0, o) + tail;
    assert [] + (Core(n, o) + []) == Core(n, o);
  }

  /** The output, scanned. */
  lemma EncodedTokens(n: Node, o: Layout)
    requires WfNode(n) && BlankIndent(o)
    ensures Tokens(Encode(n, o), false) == Toks(PrintDocument(n, o))
    ensures Plain(Tokens(Encode(n, o), false)) == Core(n, o)
  {
    hide WellSpaced, Toks, Plain, Render, PrintDocument, Core, WfNode;
    DocumentPrints(n, o);
    ScanRendered(PrintDocument(n, o), []);
    assert Encode(n, o) + [] == Encode(n, o);
    NoTokens();
    assert Toks(PrintDocument(n, o)) + [] == Toks(PrintDocument(n, o));
  }

  lemma NoTokens()
    ensures Tokens([], false) == []
  {
  }
}
