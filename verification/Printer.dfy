/**
  What the encoder writes for a tree, as a sequence of pieces: tokens, and the
  spaces and tabs between them. `Render` gives the bytes.
 */
module Printer {
  import opened Ascii
  import opened Lexer
  import opened QuotedStrings
  import opened Tree
  import opened Syntax

  datatype Layout = Layout(
    indent: Bytes, escapeHTML: bool, arrayMultiline: bool, trailingComma: bool, strictJSONOutput: bool)
  {
    predicate Multiline() { indent != [] }

    /** Comment annotations are written only in multi-line output that is not
        strict JSON. */
    predicate NodeComments() { Multiline() && !strictJSONOutput }

    predicate Spread(kind: NodeKind) { Multiline() || (kind == ArrayNode && arrayMultiline) }

    predicate LastComma() { trailingComma && !strictJSONOutput }
  }

  datatype Piece = Lex(tok: Token) | Gap(text: Bytes)

  const NEWLINE := Lex(Token(Newline, []))
  const COMMA_PIECE := Lex(Token(ValueSeparator, [COMMA]))
  const COLON_PIECE := Lex(Token(NameSeparator, [COLON]))
  const SPACE_PIECE := Gap([SPACE])

  function RenderToken(t: Token): Bytes {
    match t.kind
    case LineComment => [SLASH, SLASH] + t.text
    case BlockComment => [SLASH, STAR] + t.text + [STAR, SLASH]
    case Newline => [LF]
    case _ => t.text
  }

  function RenderPiece(p: Piece): Bytes {
    match p
    case Lex(t) => RenderToken(t)
    case Gap(s) => s
  }

  function Render(ps: seq<Piece>): Bytes {
    if ps == [] then [] else RenderPiece(ps[0]) + Render(ps[1..])
  }

  // Comments

  function Repeat(s: Bytes, n: nat): Bytes {
    if n == 0 then [] else s + Repeat(s, n - 1)
  }

  function Indent(depth: nat, o: Layout): Piece { Gap(Repeat(o.indent, depth)) }

  /** strings.Split(s, "\n") */
  function SplitLines(s: Bytes): (ls: seq<Bytes>)
    ensures |ls| > 0
  {
    if s == [] then [[]]
    else
      var ls := SplitLines(s[1..]);
      if s[0] == LF then [[]] + ls else [[s[0]] + ls[0]] + ls[1..]
  }

  /** Without leading blank lines. */
  function DropBlankLines(ls: seq<Bytes>): seq<Bytes> {
    if ls != [] && IsBlankText(ls[0]) then DropBlankLines(ls[1..]) else ls
  }

  function TrimRight(s: Bytes): Bytes {
    if s != [] && IsBlank(s[|s| - 1]) then TrimRight(s[..|s| - 1]) else s
  }

  /** The text of a line comment: after the slashes comes a blank. */
  function LineText(s: Bytes): Bytes {
    var t := TrimRight(s);
    (if t != [] && !IsBlank(t[0]) then [SPACE] else []) + t
  }

  function CommentLine(line: Bytes, depth: nat, o: Layout): seq<Piece> {
    [Indent(depth, o), Lex(Token(LineComment, LineText(line))), NEWLINE]
  }

  function CommentLines(ls: seq<Bytes>, depth: nat, o: Layout): seq<Piece> {
    if ls == [] then [] else CommentLine(ls[0], depth, o) + CommentLines(ls[1..], depth, o)
  }

  function CommentBlock(text: Bytes, depth: nat, o: Layout): seq<Piece> {
    CommentLines(DropBlankLines(SplitLines(NormalizeBreaks(text))), depth, o)
  }

  /** The end of a block comment inside the text is broken up. */
  function Sanitize(s: Bytes): Bytes {
    if s == [] then []
    else if |s| > 1 && s[0] == STAR && s[1] == SLASH then [STAR, SPACE, SLASH] + Sanitize(s[2..])
    else [s[0]] + Sanitize(s[1..])
  }

  predicate IsPadding(c: byte) { c == SPACE || c == TAB || c == LF }

  function BlockText(s: Bytes): Bytes {
    var t := Sanitize(s);
    (if t == [] || !IsPadding(t[0]) then [SPACE] else [])
    + t
    + (if t == [] || !IsPadding(t[|t| - 1]) then [SPACE] else [])
  }

  function InlineBlock(s: Bytes): seq<Piece> { [SPACE_PIECE, Lex(Token(BlockComment, BlockText(s)))] }

  function InlineNote(s: Bytes): seq<Piece> {
    if LF in s || CR in s then InlineBlock(s)
    else [SPACE_PIECE, Lex(Token(LineComment, LineText(s)))]
  }

  /** The comment of a member's value. */
  function InnerLine(n: Node): Bytes {
    if n.kind == KeyValueNode && n.children != [] then n.children[0].notes.line else []
  }

  /** The comments after n on its last line. */
  function LineNotes(n: Node): seq<Piece> {
    if InnerLine(n) == [] then (if n.notes.line == [] then [] else InlineNote(n.notes.line))
    else if n.notes.line == [] then InlineNote(InnerLine(n))
    else InlineBlock(InnerLine(n)) + InlineNote(n.notes.line)
  }

  function HeadText(n: Node): Bytes {
    if n.kind == KeyValueNode && n.children != [] then JoinNotes(n.notes.head, n.children[0].notes.head)
    else n.notes.head
  }

  function HeadBlock(n: Node, depth: nat, o: Layout): seq<Piece> {
    if o.NodeComments() && HeadText(n) != [] then CommentBlock(HeadText(n), depth, o) else []
  }

  /** The comments on the lines after n. */
  function AfterText(n: Node): Bytes {
    var foot := if n.IsContainer() then [] else n.notes.foot;
    var inner := if n.kind == KeyValueNode && n.children != [] then JoinNotes(foot, n.children[0].notes.trail) else foot;
    JoinNotes(inner, n.notes.trail)
  }

  // Values

  function OpenPiece(kind: NodeKind): Piece {
    if kind == ObjectNode then Lex(Token(ObjectStart, [LBRACE])) else Lex(Token(ArrayStart, [LBRACKET]))
  }

  function ClosePiece(kind: NodeKind): Piece {
    if kind == ObjectNode then Lex(Token(ObjectEnd, [RBRACE])) else Lex(Token(ArrayEnd, [RBRACKET]))
  }

  /** The source text of a scalar, or else its value. */
  function ScalarText(n: Node): Bytes { if n.rawValue != [] then n.rawValue else n.value }

  function ScalarKind(n: Node): Kind {
    match n.kind
    case NumberNode => NumberToken
    case NullNode => NullToken
    case _ => if ScalarText(n) == TRUE_WORD then TrueToken else FalseToken
  }

  function StringPiece(raw: Bytes, value: Bytes, o: Layout): Piece {
    Lex(Token(StringToken, SourceString(raw, value, o.escapeHTML)))
  }

  function PrintValue(n: Node, depth: nat, o: Layout): seq<Piece>
    decreases n, 2
  {
    match n.kind
    case ObjectNode => PrintContainer(n, depth, o)
    case ArrayNode => PrintContainer(n, depth, o)
    case KeyValueNode =>
      [StringPiece(n.rawKey, n.key, o), COLON_PIECE, SPACE_PIECE]
      + (if n.children != [] then PrintValue(n.children[0], depth, o) else [Lex(Token(NullToken, NULL_WORD))])
    case StringNode => [StringPiece(n.rawValue, n.value, o)]
    case _ => [Lex(Token(ScalarKind(n), ScalarText(n)))]
  }

  function PrintContainer(n: Node, depth: nat, o: Layout): seq<Piece>
    decreases n, 1
  {
    if !o.Spread(n.kind) then [OpenPiece(n.kind)] + PrintJoined(n.children, o) + [ClosePiece(n.kind)]
    else if n.children == [] && n.notes.foot == [] then [OpenPiece(n.kind), ClosePiece(n.kind)]
    else
      [OpenPiece(n.kind), NEWLINE]
      + PrintLines(n.children, depth + 1, o)
      + FootBlock(n.notes.foot, depth + 1, o)
      + [Indent(depth, o), ClosePiece(n.kind)]
  }

  function FootBlock(foot: Bytes, depth: nat, o: Layout): seq<Piece> {
    if foot != [] && !o.strictJSONOutput then CommentBlock(foot, depth, o) else []
  }

  /** Children on one line. */
  function PrintJoined(kids: seq<Node>, o: Layout): seq<Piece>
    decreases kids, 0
  {
    if kids == [] then []
    else if |kids| == 1 then PrintValue(kids[0], 0, o)
    else PrintValue(kids[0], 0, o) + [COMMA_PIECE, SPACE_PIECE] + PrintJoined(kids[1..], o)
  }

  /** Children on lines of their own. */
  function PrintLines(kids: seq<Node>, depth: nat, o: Layout): seq<Piece>
    decreases kids, 1
  {
    if kids == [] then []
    else PrintLine(kids, depth, o) + PrintLines(kids[1..], depth, o)
  }

  /** The first child of kids, its separator, and its comments around it. */
  function PrintLine(kids: seq<Node>, depth: nat, o: Layout): seq<Piece>
    requires kids != []
    decreases kids, 0
  {
    HeadBlock(kids[0], depth, o)
    + [Indent(depth, o)]
    + PrintValue(kids[0], depth, o)
    + Separator(|kids| > 1 || o.LastComma())
    + EndOfLine(kids[0], depth, o)
  }

  function Separator(comma: bool): seq<Piece> { if comma then [COMMA_PIECE] else [] }

  /** The comments behind a child and on the lines after it. */
  function EndOfLine(n: Node, depth: nat, o: Layout): seq<Piece> {
    if o.NodeComments() then LineNotes(n) + [NEWLINE] + CommentBlock(AfterText(n), depth, o) else [NEWLINE]
  }

  /** encodeNode: a whole document. */
  function PrintDocument(n: Node, o: Layout): seq<Piece> {
    HeadBlock(n, 0, o) + PrintValue(n, 0, o) + EndOfDocument(n, o)
  }

  function EndOfDocument(n: Node, o: Layout): seq<Piece> {
    if !o.NodeComments() then []
    else LineNotes(n) + (if AfterText(n) != [] then [NEWLINE] + CommentBlock(AfterText(n), 0, o) else [])
  }

  function Encode(n: Node, o: Layout): Bytes { Render(PrintDocument(n, o)) }
}
