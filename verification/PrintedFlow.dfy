/**
  What the output says, read from its tokens: the tokens of the value, and the
  lines of the comments between them. They are those of the tree, each comment in
  its place, as far as the options let comments be written.
 */
module PrintedFlow {
  import opened Ascii
  import opened Lexer
  import opened Tree
  import opened Syntax
  import opened WellFormed
  import opened Printer
  import opened Rendering
  import opened PrintedTokens
  import opened PrintedValues

  // The ink of a comment

  /** The line without its blanks: they are padding, or break up a delimiter. */
  function Ink(l: Bytes): Bytes {
    if l == [] then [] else (if l[0] == SPACE || l[0] == TAB then [] else [l[0]]) + Ink(l[1..])
  }

  /** What is left of a text once the blanks are gone: its lines that are not
      empty. The text goes on after `line`. */
  function InkFrom(line: Bytes, s: Bytes): seq<Bytes>
    decreases |s|
  {
    if s == [] then (if line == [] then [] else [line])
    else if s[0] == LF then (if line == [] then [] else [line]) + InkFrom([], s[1..])
    else if s[0] == SPACE || s[0] == TAB then InkFrom(line, s[1..])
    else InkFrom(line + [s[0]], s[1..])
  }

  function InkLines(s: Bytes): seq<Bytes> { InkFrom([], s) }

  // What tokens say

  datatype Item = Tok(tok: Token) | Note(line: Bytes)

  function Notes(lines: seq<Bytes>): seq<Item> { seq(|lines|, i requires 0 <= i < |lines| => Note(lines[i])) }

  function ItemsOf(t: Token): seq<Item> {
    if t.kind == Newline then [] else if IsComment(t) then Notes(InkLines(t.text)) else [Tok(t)]
  }

  function Flow(ts: seq<Token>): seq<Item> { if ts == [] then [] else ItemsOf(ts[0]) + Flow(ts[1..]) }

  // What a tree says

  /** The comments of one note, where the layout writes them. */
  function NoteFlow(written: bool, text: Bytes): seq<Item> { if written then Notes(InkLines(text)) else [] }

  /** Multi-line output that is not strict has all comments. */
  predicate Annotated(o: Layout) { o.indent != [] && !o.strictJSONOutput }

  /** Output that is not strict has the comments at the end of every container
      that is written on several lines. */
  predicate FootWritten(o: Layout, kind: NodeKind) {
    (o.indent != [] || (kind == ArrayNode && o.arrayMultiline)) && !o.strictJSONOutput
  }

  /** A value without the comments around it. */
  function ValueFlow(n: Node, o: Layout): seq<Item>
    decreases n, 2
  {
    match n.kind
    case KeyValueNode =>
      [Tok(StringTok(n.rawKey, n.key, o)), Tok(Token(NameSeparator, [COLON]))]
      + (if n.children == [] then [Tok(Token(NullToken, NULL_WORD))] else ValueFlow(n.children[0], o))
    case StringNode => [Tok(StringTok(n.rawValue, n.value, o))]
    case ObjectNode =>
      [Tok(Token(ObjectStart, [LBRACE]))] + KidsFlow(n.children, o, o.indent != [])
      + NoteFlow(FootWritten(o, n.kind), n.notes.foot) + [Tok(Token(ObjectEnd, [RBRACE]))]
    case ArrayNode =>
      [Tok(Token(ArrayStart, [LBRACKET]))] + KidsFlow(n.children, o, o.indent != [] || o.arrayMultiline)
      + NoteFlow(FootWritten(o, n.kind), n.notes.foot) + [Tok(Token(ArrayEnd, [RBRACKET]))]
    case _ => [Tok(Token(ScalarKind(n), ScalarText(n)))]
  }

  /** Children: each with its head comment in front, and behind its comma the
      comments of its line and those below it. */
  function KidsFlow(kids: seq<Node>, o: Layout, spread: bool): seq<Item>
    decreases kids, 3
  {
    if kids == [] then []
    else
      NoteFlow(Annotated(o), Above(kids[0])) + ValueFlow(kids[0], o)
      + CommaFlow(|kids| > 1 || (spread && o.trailingComma && !o.strictJSONOutput))
      + NoteFlow(Annotated(o), ValueLine(kids[0])) + NoteFlow(Annotated(o), kids[0].notes.line)
      + NoteFlow(Annotated(o), Below(kids[0]))
      + KidsFlow(kids[1..], o, spread)
  }

  function CommaFlow(comma: bool): seq<Item> { if comma then [Tok(Token(ValueSeparator, [COMMA]))] else [] }

  /** A member's comments and its value's. */
  function Above(n: Node): Bytes {
    if n.kind == KeyValueNode && n.children != [] then JoinNotes(n.notes.head, n.children[0].notes.head) else n.notes.head
  }

  function ValueLine(n: Node): Bytes {
    if n.kind == KeyValueNode && n.children != [] then n.children[0].notes.line else []
  }

  function Below(n: Node): Bytes {
    if n.kind == KeyValueNode && n.children != [] then
      JoinNotes(JoinNotes(n.notes.foot, n.children[0].notes.trail), n.notes.trail)
    else if n.kind == ObjectNode || n.kind == ArrayNode then n.notes.trail
    else JoinNotes(n.notes.foot, n.notes.trail)
  }

  function DocumentFlow(n: Node, o: Layout): seq<Item> {
    NoteFlow(Annotated(o), Above(n)) + ValueFlow(n, o)
    + NoteFlow(Annotated(o), ValueLine(n)) + NoteFlow(Annotated(o), n.notes.line) + NoteFlow(Annotated(o), Below(n))
  }

  // Padding has no ink.

  function OneInk(line: Bytes): seq<Bytes> { if line == [] then [] else [line] }

  lemma {:induction false} InkConcat(a: Bytes, b: Bytes)
    ensures Ink(a + b) == Ink(a) + Ink(b)
  {
    if a == [] {
      assert a + b == b;
    } else {
      InkConcat(a[1..], b);
      assert (a + b)[1..] == a[1..] + b && (a + b)[0] == a[0];
    }
  }

  /** Text on one line. */
  lemma {:induction false} InkOneLine(line: Bytes, s: Bytes)
    requires LF !in s
    ensures InkFrom(line, s) == OneInk(line + Ink(s))
    decreases |s|
  {
    if s == [] {
      assert line + Ink(s) == line;
    } else {
      assert s[0] != LF && forall i :: 0 <= i < |s[1..]| ==> s[1..][i] in s;
      if s[0] == SPACE || s[0] == TAB {
        InkOneLine(line, s[1..]);
        assert Ink(s) == [] + Ink(s[1..]) == Ink(s[1..]);
      } else {
        InkOneLine(line + [s[0]], s[1..]);
        assert line + [s[0]] + Ink(s[1..]) == line + ([s[0]] + Ink(s[1..]));
      }
    }
  }

  lemma {:induction false} InkAtEnd(line: Bytes, s: Bytes, c: byte)
    requires c == SPACE || c == TAB
    ensures InkFrom(line, s + [c]) == InkFrom(line, s)
    decreases |s|
  {
    var t := s + [c];
    if s == [] {
      assert t == [c] && t[1..] == [];
    } else {
      assert t[0] == s[0] && t[1..] == s[1..] + [c];
      if s[0] == LF {
        InkAtEnd([], s[1..], c);
      } else if s[0] == SPACE || s[0] == TAB {
        InkAtEnd(line, s[1..], c);
      } else {
        InkAtEnd(line + [s[0]], s[1..], c);
      }
    }
  }

  lemma {:induction false} InkTrimmed(s: Bytes)
    ensures InkLines(TrimRight(s)) == InkLines(s)
  {
    if s != [] && IsBlank(s[|s| - 1]) {
      InkTrimmed(s[..|s| - 1]);
      InkAtEnd([], s[..|s| - 1], s[|s| - 1]);
      assert s == s[..|s| - 1] + [s[|s| - 1]];
    }
  }

  lemma InkPadded(t: Bytes)
    ensures InkLines([SPACE] + t) == InkLines(t)
  {
    assert ([SPACE] + t)[1..] == t;
  }

  lemma InkOfLineText(s: Bytes)
    ensures InkLines(LineText(s)) == InkLines(s)
  {
    hide TrimRight;
    var t := TrimRight(s);
    InkTrimmed(s);
    InkPadded(t);
    assert [] + t == t;
  }

  lemma {:induction false} InkSanitized(line: Bytes, s: Bytes)
    ensures InkFrom(line, Sanitize(s)) == InkFrom(line, s)
    decreases |s|
  {
    if s == [] {
    } else if |s| > 1 && s[0] == STAR && s[1] == SLASH {
      InkSanitized(line + [STAR] + [SLASH], s[2..]);
      InkOfDelimiter(line, s, Sanitize(s[2..]));
    } else {
      var u := [s[0]] + Sanitize(s[1..]);
      assert u[1..] == Sanitize(s[1..]);
      if s[0] == LF {
        InkSanitized([], s[1..]);
      } else if s[0] == SPACE || s[0] == TAB {
        InkSanitized(line, s[1..]);
      } else {
        InkSanitized(line + [s[0]], s[1..]);
      }
    }
  }

  /** A delimiter has the same ink when it is broken up. */
  lemma InkOfDelimiter(line: Bytes, s: Bytes, t: Bytes)
    requires |s| > 1 && s[0] == STAR && s[1] == SLASH
    ensures InkFrom(line, s) == InkFrom(line + [STAR] + [SLASH], s[2..])
    ensures InkFrom(line, [STAR, SPACE, SLASH] + t) == InkFrom(line + [STAR] + [SLASH], t)
  {
    var u := [STAR, SPACE, SLASH] + t;
    assert s[1..][1..] == s[2..];
    assert u[1..] == [SPACE, SLASH] + t && ([SPACE, SLASH] + t)[1..] == [SLASH] + t && ([SLASH] + t)[1..] == t;
    assert InkFrom(line, u) == InkFrom(line + [STAR], [SPACE, SLASH] + t);
    assert InkFrom(line + [STAR], [SPACE, SLASH] + t) == InkFrom(line + [STAR], [SLASH] + t);
  }

  lemma PaddingJoins(t: Bytes)
    ensures [SPACE] + t + [SPACE] == [SPACE] + (t + [SPACE]) && [SPACE] + t + [] == [SPACE] + t
    ensures [] + t + [SPACE] == t + [SPACE] && [] + t + [] == t
  {
  }

  lemma InkOfBlockText(s: Bytes)
    ensures InkLines(BlockText(s)) == InkLines(s)
  {
    hide Sanitize, InkFrom;
    var t := Sanitize(s);
    InkSanitized([], s);
    InkAtEnd([], t, SPACE);
    var u := if t == [] || !IsPadding(t[|t| - 1]) then t + [SPACE] else t;
    InkPadded(u);
    PaddingJoins(t);
    assert BlockText(s) == if t == [] || !IsPadding(t[0]) then [SPACE] + u else u;
  }

  // Comments of the output

  function InkOf(ls: seq<Bytes>): seq<Bytes> { if ls == [] then [] else OneInk(Ink(ls[0])) + InkOf(ls[1..]) }

  lemma {:induction false} InkSplit(line: Bytes, s: Bytes)
    ensures InkFrom(line, s) == OneInk(line + Ink(SplitLines(s)[0])) + InkOf(SplitLines(s)[1..])
    decreases |s|
  {
    if s == [] {
      assert line + Ink([]) == line;
    } else {
      var ls := SplitLines(s[1..]);
      if s[0] == LF {
        InkSplit([], s[1..]);
        assert line + Ink([]) == line && [] + Ink(ls[0]) == Ink(ls[0]);
        assert ([[]] + ls)[1..] == ls;
      } else {
        var first := [s[0]] + ls[0];
        assert ([first] + ls[1..])[1..] == ls[1..];
        assert first[1..] == ls[0];
        if s[0] == SPACE || s[0] == TAB {
          InkSplit(line, s[1..]);
          assert Ink(first) == Ink(ls[0]);
        } else {
          InkSplit(line + [s[0]], s[1..]);
          assert line + [s[0]] + Ink(ls[0]) == line + Ink(first);
        }
      }
    }
  }

  lemma InkOfSplit(s: Bytes)
    ensures InkLines(s) == InkOf(SplitLines(s))
  {
    InkSplit([], s);
    assert [] + Ink(SplitLines(s)[0]) == Ink(SplitLines(s)[0]);
  }

  lemma {:induction false} BlankInk(l: Bytes)
    requires IsBlankText(l) && LF !in l && CR !in l
    ensures Ink(l) == []
  {
    if l != [] {
      assert l[0] in l;
      BlankInk(l[1..]);
    }
  }

  lemma {:induction false} InkOfDropped(ls: seq<Bytes>)
    requires AllOneLine(ls)
    ensures InkOf(DropBlankLines(ls)) == InkOf(ls)
  {
    if ls != [] && IsBlankText(ls[0]) {
      InkOfDropped(ls[1..]);
      assert OneLine(ls[0]);
      assert LF !in ls[0] && CR !in ls[0];
      BlankInk(ls[0]);
    }
  }

  lemma {:induction false} FlowConcat(a: seq<Token>, b: seq<Token>)
    ensures Flow(a + b) == Flow(a) + Flow(b)
  {
    hide ItemsOf;
    if a == [] {
      assert a + b == b;
    } else {
      FlowConcat(a[1..], b);
      assert (a + b)[0] == a[0] && (a + b)[1..] == a[1..] + b;
    }
  }

  /** The flow of pieces. */
  function Says(ps: seq<Piece>): seq<Item> { Flow(Toks(ps)) }

  lemma SaysConcat(a: seq<Piece>, b: seq<Piece>)
    ensures Says(a + b) == Says(a) + Says(b)
  {
    ToksConcat(a, b);
    FlowConcat(Toks(a), Toks(b));
  }

  lemma SaysOne(p: Piece)
    ensures Says([p]) == if p.Gap? then [] else ItemsOf(p.tok)
    ensures Says([]) == []
  {
    hide ItemsOf;
    var none: seq<Piece> := [];
    assert [p][1..] == none && Toks(none) == [];
    assert Toks([p]) == PieceToks(p) + [] == PieceToks(p);
    if p.Lex? {
      var nothing: seq<Token> := [];
      assert [p.tok][1..] == nothing && Flow(nothing) == [];
      assert Flow([p.tok]) == ItemsOf(p.tok) + [];
    }
  }

  lemma BreakSays()
    ensures Says([NEWLINE]) == [] && Says([]) == []
  {
    SaysOne(NEWLINE);
  }

  lemma NotesConcat(a: seq<Bytes>, b: seq<Bytes>)
    ensures Notes(a + b) == Notes(a) + Notes(b)
  {
  }

  lemma CommentLineSays(line: Bytes, depth: nat, o: Layout)
    requires OneLine(line)
    ensures Says(CommentLine(line, depth, o)) == Notes(OneInk(Ink(line)))
  {
    hide Says, LineText, InkFrom;
    var c := Lex(Token(LineComment, LineText(line)));
    SaysOne(Indent(depth, o));
    SaysOne(c);
    BreakSays();
    SaysConcat([Indent(depth, o)], [c]);
    SaysConcat([Indent(depth, o)] + [c], [NEWLINE]);
    assert CommentLine(line, depth, o) == [Indent(depth, o)] + [c] + [NEWLINE];
    InkOfLineText(line);
    assert LF !in line;
    InkOneLine([], line);
    assert [] + Ink(line) == Ink(line);
  }

  lemma {:induction false} CommentLinesSay(ls: seq<Bytes>, depth: nat, o: Layout)
    requires AllOneLine(ls)
    ensures Says(CommentLines(ls, depth, o)) == Notes(InkOf(ls))
  {
    hide Says, CommentLine, OneLine;
    if ls == [] {
      BreakSays();
    } else {
      CommentLinesSay(ls[1..], depth, o);
      CommentLineSays(ls[0], depth, o);
      SaysConcat(CommentLine(ls[0], depth, o), CommentLines(ls[1..], depth, o));
      NotesConcat(OneInk(Ink(ls[0])), InkOf(ls[1..]));
    }
  }

  lemma BlockSays(text: Bytes, depth: nat, o: Layout)
    requires NoteText(text)
    ensures Says(CommentBlock(text, depth, o)) == Notes(InkLines(text))
  {
    hide Says, NoteText, SplitLines, DropBlankLines, CommentLines, NormalizeBreaks, InkFrom, InkOf;
    NothingToNormalize(text);
    SplitOneLine(text);
    DropOneLine(SplitLines(text));
    CommentLinesSay(DropBlankLines(SplitLines(text)), depth, o);
    InkOfDropped(SplitLines(text));
    InkOfSplit(text);
  }

  lemma InlineBlockSays(text: Bytes)
    ensures Says(InlineBlock(text)) == Notes(InkLines(text))
  {
    hide Says, BlockText, InkFrom;
    var c := Lex(Token(BlockComment, BlockText(text)));
    SaysOne(SPACE_PIECE);
    SaysOne(c);
    SaysConcat([SPACE_PIECE], [c]);
    assert InlineBlock(text) == [SPACE_PIECE] + [c];
    InkOfBlockText(text);
  }

  lemma InlineSays(text: Bytes)
    ensures Says(InlineNote(text)) == Notes(InkLines(text))
  {
    hide Says, LineText, InkFrom;
    if LF in text || CR in text {
      InlineBlockSays(text);
    } else {
      var c := Lex(Token(LineComment, LineText(text)));
      SaysOne(SPACE_PIECE);
      SaysOne(c);
      SaysConcat([SPACE_PIECE], [c]);
      assert InlineNote(text) == [SPACE_PIECE] + [c];
      InkOfLineText(text);
    }
  }

  lemma NoInk()
    ensures Notes(InkLines([])) == []
  {
  }

  lemma LineNotesSay(n: Node)
    ensures Says(LineNotes(n)) == Notes(InkLines(ValueLine(n))) + Notes(InkLines(n.notes.line))
  {
    hide Says, InkFrom, InlineNote, InlineBlock;
    NoInk();
    BreakSays();
    InlineSays(n.notes.line);
    InlineSays(ValueLine(n));
    InlineBlockSays(ValueLine(n));
    SaysConcat(InlineBlock(ValueLine(n)), InlineNote(n.notes.line));
  }

  lemma HeadSays(n: Node, depth: nat, o: Layout)
    requires WfNode(n)
    ensures Says(HeadBlock(n, depth, o)) == NoteFlow(Annotated(o), Above(n))
  {
    hide Says, InkFrom, CommentBlock;
    NoInk();
    BreakSays();
    NotesAreClean(n);
    BlockSays(Above(n), depth, o);
  }

  /** The comments of a well-formed node are clean text, and so is what they are
      joined to. */
  lemma NotesAreClean(n: Node)
    requires WfNode(n)
    ensures NoteText(Above(n)) && NoteText(Below(n)) && NoteText(n.notes.foot)
  {
    if n.kind == KeyValueNode {
      assert WfNode(n.children[0]);
    }
  }

  lemma EndSays(n: Node, depth: nat, o: Layout)
    requires WfNode(n)
    ensures Says(EndOfLine(n, depth, o))
            == NoteFlow(Annotated(o), ValueLine(n)) + NoteFlow(Annotated(o), n.notes.line) + NoteFlow(Annotated(o), Below(n))
  {
    hide Says, InkFrom, CommentBlock, LineNotes, WfNode;
    BreakSays();
    if o.NodeComments() {
      NotesAreClean(n);
      LineNotesSay(n);
      BlockSays(Below(n), depth, o);
      SaysConcat(LineNotes(n), [NEWLINE]);
      SaysConcat(LineNotes(n) + [NEWLINE], CommentBlock(Below(n), depth, o));
    }
  }

  /** The comments behind the root: none is no line either. */
  lemma BelowSays(text: Bytes, o: Layout)
    requires NoteText(text)
    ensures Says(if text != [] then [NEWLINE] + CommentBlock(text, 0, o) else []) == Notes(InkLines(text))
  {
    hide Says, InkFrom, CommentBlock;
    NoInk();
    BreakSays();
    if text != [] {
      BlockSays(text, 0, o);
      SaysConcat([NEWLINE], CommentBlock(text, 0, o));
    }
  }

  lemma EndOfDocumentSays(n: Node, o: Layout)
    requires WfNode(n)
    ensures Says(EndOfDocument(n, o))
            == NoteFlow(Annotated(o), ValueLine(n)) + NoteFlow(Annotated(o), n.notes.line) + NoteFlow(Annotated(o), Below(n))
  {
    hide Says, InkLines, CommentBlock, LineNotes, WfNode, Notes;
    BreakSays();
    if o.NodeComments() {
      NotesAreClean(n);
      LineNotesSay(n);
      BelowSays(Below(n), o);
      SaysConcat(LineNotes(n), if Below(n) != [] then [NEWLINE] + CommentBlock(Below(n), 0, o) else []);
    }
  }

  // Values

  lemma TokenSays(t: Token)
    requires !IsTrivia(t)
    ensures Says([Lex(t)]) == [Tok(t)]
  {
    SaysOne(Lex(t));
  }

  lemma PunctuationSays()
    ensures Says([OpenPiece(ObjectNode)]) == [Tok(Token(ObjectStart, [LBRACE]))]
    ensures Says([OpenPiece(ArrayNode)]) == [Tok(Token(ArrayStart, [LBRACKET]))]
    ensures Says([ClosePiece(ObjectNode)]) == [Tok(Token(ObjectEnd, [RBRACE]))]
    ensures Says([ClosePiece(ArrayNode)]) == [Tok(Token(ArrayEnd, [RBRACKET]))]
    ensures Says([COMMA_PIECE]) == [Tok(Token(ValueSeparator, [COMMA]))]
    ensures Says([COLON_PIECE]) == [Tok(Token(NameSeparator, [COLON]))]
    ensures Says([SPACE_PIECE]) == []
  {
    hide Says;
    TokenSays(OpenPiece(ObjectNode).tok);
    TokenSays(OpenPiece(ArrayNode).tok);
    TokenSays(ClosePiece(ObjectNode).tok);
    TokenSays(ClosePiece(ArrayNode).tok);
    TokenSays(COMMA_PIECE.tok);
    TokenSays(COLON_PIECE.tok);
    SaysOne(SPACE_PIECE);
  }

  lemma {:induction false} ValueSays(n: Node, depth: nat, o: Layout)
    requires WfNode(n)
    ensures Says(PrintValue(n, depth, o)) == ValueFlow(n, o)
    decreases n, 2
  {
    hide Says, WfNode, StringPiece, PrintContainer, StringTok, ScalarText;
    match n.kind {
      case ObjectNode => ContainerSays(n, depth, o);
      case ArrayNode => ContainerSays(n, depth, o);
      case KeyValueNode => MemberSays(n, depth, o);
      case StringNode => StringSays(n.rawValue, n.value, o);
      case _ => TokenSays(Token(ScalarKind(n), ScalarText(n)));
    }
  }

  lemma StringSays(raw: Bytes, value: Bytes, o: Layout)
    ensures Says([StringPiece(raw, value, o)]) == [Tok(StringTok(raw, value, o))]
  {
    hide Says;
    TokenSays(StringTok(raw, value, o));
  }

  lemma {:induction false} MemberSays(n: Node, depth: nat, o: Layout)
    requires WfNode(n) && n.kind == KeyValueNode
    ensures Says(PrintValue(n, depth, o)) == ValueFlow(n, o)
    decreases n, 1
  {
    hide Says, WfNotes, StringPiece, StringTok, PrintValue, ValueFlow;
    var v := n.children[0];
    var val := PrintValue(v, depth, o);
    ValueSays(v, depth, o);
    StringSays(n.rawKey, n.key, o);
    PunctuationSays();
    var key := [StringPiece(n.rawKey, n.key, o)];
    SaysConcat(key, [COLON_PIECE]);
    SaysConcat(key + [COLON_PIECE], [SPACE_PIECE]);
    SaysConcat(key + [COLON_PIECE] + [SPACE_PIECE], val);
    var toks := [Tok(StringTok(n.rawKey, n.key, o)), Tok(Token(NameSeparator, [COLON]))];
    assert Says(key + [COLON_PIECE] + [SPACE_PIECE]) == toks;
    MemberPieces(n, depth, o);
  }

  lemma MemberPieces(n: Node, depth: nat, o: Layout)
    requires n.kind == KeyValueNode && n.children != []
    ensures PrintValue(n, depth, o)
            == [StringPiece(n.rawKey, n.key, o)] + [COLON_PIECE] + [SPACE_PIECE] + PrintValue(n.children[0], depth, o)
    ensures ValueFlow(n, o)
            == [Tok(StringTok(n.rawKey, n.key, o)), Tok(Token(NameSeparator, [COLON]))] + ValueFlow(n.children[0], o)
  {
    hide StringPiece, StringTok;
  }

  lemma {:induction false} ContainerSays(n: Node, depth: nat, o: Layout)
    requires WfNode(n) && n.IsContainer()
    ensures Says(PrintContainer(n, depth, o)) == ValueFlow(n, o)
    decreases n, 1
  {
    hide Says, WfNotes, PrintLines, PrintJoined, InkLines, CommentBlock, KidsFlow, Notes;
    var open, close := [OpenPiece(n.kind)], [ClosePiece(n.kind)];
    PunctuationSays();
    NoInk();
    BreakSays();
    NothingFlows(o, o.Spread(n.kind));
    if !o.Spread(n.kind) {
      JoinedSays(n.children, o);
      SaysConcat(open, PrintJoined(n.children, o));
      SaysConcat(open + PrintJoined(n.children, o), close);
    } else if n.children == [] && n.notes.foot == [] {
      SaysConcat(open, close);
      assert [OpenPiece(n.kind), ClosePiece(n.kind)] == open + close;
    } else {
      LinesSay(n.children, depth + 1, o);
      FootSays(n, depth + 1, o);
      SpreadSays(n, depth, o);
    }
  }

  lemma NothingFlows(o: Layout, spread: bool)
    ensures KidsFlow([], o, spread) == []
  {
  }

  lemma FootSays(n: Node, depth: nat, o: Layout)
    requires WfNode(n) && n.IsContainer() && o.Spread(n.kind)
    ensures Says(FootBlock(n.notes.foot, depth, o)) == NoteFlow(FootWritten(o, n.kind), n.notes.foot)
  {
    hide Says, InkLines, CommentBlock, Notes, WfNode;
    NotesAreClean(n);
    NoInk();
    BreakSays();
    BlockSays(n.notes.foot, depth, o);
  }

  /** The multi-line layout, put together. */
  lemma SpreadSays(n: Node, depth: nat, o: Layout)
    requires n.IsContainer() && o.Spread(n.kind) && !(n.children == [] && n.notes.foot == [])
    requires Says(PrintLines(n.children, depth + 1, o)) == KidsFlow(n.children, o, true)
    requires Says(FootBlock(n.notes.foot, depth + 1, o)) == NoteFlow(FootWritten(o, n.kind), n.notes.foot)
    ensures Says(PrintContainer(n, depth, o)) == ValueFlow(n, o)
  {
    hide Says, PrintLines, FootBlock, KidsFlow, NoteFlow;
    var open, close := [OpenPiece(n.kind)], [ClosePiece(n.kind)];
    var lines, foot := PrintLines(n.children, depth + 1, o), FootBlock(n.notes.foot, depth + 1, o);
    PunctuationSays();
    BreakSays();
    SaysOne(Indent(depth, o));
    SaysConcat(open, [NEWLINE]);
    SaysConcat(open + [NEWLINE], lines);
    SaysConcat(open + [NEWLINE] + lines, foot);
    SaysConcat(open + [NEWLINE] + lines + foot, [Indent(depth, o)]);
    SaysConcat(open + [NEWLINE] + lines + foot + [Indent(depth, o)], close);
    assert PrintContainer(n, depth, o) == open + [NEWLINE] + lines + foot + [Indent(depth, o)] + close;
  }

  lemma {:induction false} JoinedSays(kids: seq<Node>, o: Layout)
    requires forall i :: 0 <= i < |kids| ==> WfNode(kids[i])
    requires o.indent == []
    ensures Says(PrintJoined(kids, o)) == KidsFlow(kids, o, false)
    decreases kids, 0
  {
    hide Says, WfNode, PrintValue, ValueFlow, KidsFlow;
    BreakSays();
    NothingFlows(o, false);
    if kids != [] {
      ValueSays(kids[0], 0, o);
      PunctuationSays();
      JoinedFlows(kids, o);
      if |kids| > 1 {
        JoinedSays(kids[1..], o);
        var rest := PrintJoined(kids[1..], o);
        SaysConcat(PrintValue(kids[0], 0, o), [COMMA_PIECE]);
        SaysConcat(PrintValue(kids[0], 0, o) + [COMMA_PIECE], [SPACE_PIECE]);
        SaysConcat(PrintValue(kids[0], 0, o) + [COMMA_PIECE] + [SPACE_PIECE], rest);
        assert PrintJoined(kids, o) == PrintValue(kids[0], 0, o) + [COMMA_PIECE] + [SPACE_PIECE] + rest;
      } else {
        assert kids[1..] == [];
      }
    }
  }

  lemma JoinedFlows(kids: seq<Node>, o: Layout)
    requires kids != [] && o.indent == []
    ensures KidsFlow(kids, o, false) == ValueFlow(kids[0], o) + CommaFlow(|kids| > 1) + KidsFlow(kids[1..], o, false)
  {
    hide ValueFlow, Notes;
  }

  lemma {:induction false} LinesSay(kids: seq<Node>, depth: nat, o: Layout)
    requires forall i :: 0 <= i < |kids| ==> WfNode(kids[i])
    ensures Says(PrintLines(kids, depth, o)) == KidsFlow(kids, o, true)
    decreases kids, 0
  {
    hide Says, WfNode, PrintValue, ValueFlow, NoteFlow, EndOfLine, HeadBlock, PrintLine;
    BreakSays();
    if kids != [] {
      var n := kids[0];
      LinesSay(kids[1..], depth, o);
      ValueSays(n, depth, o);
      HeadSays(n, depth, o);
      EndSays(n, depth, o);
      LineSays(kids, depth, o);
      SaysConcat(PrintLine(kids, depth, o), PrintLines(kids[1..], depth, o));
    }
  }

  /** A child on a line of its own. */
  lemma LineSays(kids: seq<Node>, depth: nat, o: Layout)
    requires kids != [] && Says(PrintValue(kids[0], depth, o)) == ValueFlow(kids[0], o)
    ensures Says(PrintLine(kids, depth, o))
            == Says(HeadBlock(kids[0], depth, o)) + ValueFlow(kids[0], o) + CommaFlow(|kids| > 1 || o.LastComma())
               + Says(EndOfLine(kids[0], depth, o))
  {
    hide Says, PrintValue, ValueFlow, EndOfLine, HeadBlock;
    var head, indent, val := HeadBlock(kids[0], depth, o), [Indent(depth, o)], PrintValue(kids[0], depth, o);
    var comma, end := Separator(|kids| > 1 || o.LastComma()), EndOfLine(kids[0], depth, o);
    BreakSays();
    PunctuationSays();
    SaysOne(Indent(depth, o));
    SaysConcat(head, indent);
    SaysConcat(head + indent, val);
    SaysConcat(head + indent + val, comma);
    SaysConcat(head + indent + val + comma, end);
  }

  /** The output says what the tree says: the tokens of its value in order, and
      every comment that the options let be written in its place between them. */
  lemma OutputSaysTheTree(n: Node, o: Layout)
    requires WfNode(n) && BlankIndent(o)
    ensures Flow(Tokens(Encode(n, o), false)) == DocumentFlow(n, o)
  {
    hide Says, PrintValue, ValueFlow, NoteFlow, EndOfDocument, HeadBlock, WfNode, Tokens, Encode, BlankIndent;
    EncodedTokens(n, o);
    HeadSays(n, 0, o);
    ValueSays(n, 0, o);
    EndOfDocumentSays(n, o);
    SaysConcat(HeadBlock(n, 0, o), PrintValue(n, 0, o));
    SaysConcat(HeadBlock(n, 0, o) + PrintValue(n, 0, o), EndOfDocument(n, o));
    assert Says(PrintDocument(n, o)) == Flow(Toks(PrintDocument(n, o))) by { SaysIs(PrintDocument(n, o)); }
  }

  lemma SaysIs(ps: seq<Piece>)
    ensures Says(ps) == Flow(Toks(ps))
  {
  }
}
