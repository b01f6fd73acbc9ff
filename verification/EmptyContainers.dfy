/** Where the closing bracket of an empty container stands in the output. */
module EmptyContainers {
  import opened Ascii
  import opened Lexer
  import opened Tree
  import opened Syntax
  import opened Transparency
  import opened WellFormed
  import opened Printer
  import opened Rendering
  import opened PrintedTokens
  import opened PrintedValues

  /** What an opening bracket is followed by so far: nothing, comments and line
      breaks alone, or a token of what is inside. */
  datatype Edge = Within | Right | Broken

  function After(e: Edge, t: Token): Edge {
    if IsOpen(t.kind) then Right else if IsTrivia(t) && e != Within then Broken else Within
  }

  function Edges(e: Edge, ts: seq<Token>): Edge
    decreases |ts|
  {
    if ts == [] then e else Edges(After(e, ts[0]), ts[1..])
  }

  /** For every container with nothing inside, whether comments or line breaks
      stand between its brackets. */
  function Empties(e: Edge, ts: seq<Token>): seq<bool>
    decreases |ts|
  {
    if ts == [] then []
    else (if IsClose(ts[0].kind) && e != Within then [e == Broken] else []) + Empties(After(e, ts[0]), ts[1..])
  }

  predicate IsClose(k: Kind) { k == ObjectEnd || k == ArrayEnd }

  /** Such a container is spread over lines only to hold its comment. */
  function Hollows(n: Node, o: Layout): seq<bool>
    decreases n, 1
  {
    if n.IsContainer() && n.children == [] then [(o.indent != [] || (n.kind == ArrayNode && o.arrayMultiline)) && n.notes.foot != []]
    else if n.IsContainer() || n.kind == KeyValueNode then KidHollows(n.children, o)
    else []
  }

  function KidHollows(kids: seq<Node>, o: Layout): seq<bool>
    decreases kids, 0
  {
    if kids == [] then [] else Hollows(kids[0], o) + KidHollows(kids[1..], o)
  }

  // Sequences of tokens

  lemma {:induction false} EdgesConcat(e: Edge, a: seq<Token>, b: seq<Token>)
    ensures Edges(e, a + b) == Edges(Edges(e, a), b)
    ensures Empties(e, a + b) == Empties(e, a) + Empties(Edges(e, a), b)
    decreases |a|
  {
    hide After, IsClose;
    if a == [] {
      assert a + b == b;
    } else {
      EdgesConcat(After(e, a[0]), a[1..], b);
      assert (a + b)[1..] == a[1..] + b && (a + b)[0] == a[0];
    }
  }

  lemma AfterTrivia(e: Edge, t: Token)
    requires IsTrivia(t)
    ensures After(e, t) == (if e == Within then e else Broken) && !IsClose(t.kind)
  {
  }

  lemma {:induction false} TriviaShowsNothing(e: Edge, ts: seq<Token>)
    requires Plain(ts) == []
    ensures Empties(e, ts) == []
    ensures Edges(e, ts) == if e == Within || ts == [] then e else Broken
    decreases |ts|
  {
    hide After, IsClose, IsTrivia;
    if ts != [] {
      AfterTrivia(e, ts[0]);
      TriviaShowsNothing(After(e, ts[0]), ts[1..]);
    }
  }

  /** From e, ps leads to f and shows hs. */
  predicate Shows(e: Edge, ps: seq<Piece>, f: Edge, hs: seq<bool>) {
    Edges(e, Toks(ps)) == f && Empties(e, Toks(ps)) == hs
  }

  lemma ShowsConcat(e: Edge, a: seq<Piece>, f: Edge, hs: seq<bool>, b: seq<Piece>, g: Edge, gs: seq<bool>)
    requires Shows(e, a, f, hs) && Shows(f, b, g, gs)
    ensures Shows(e, a + b, g, hs + gs) && (hs == [] ==> Shows(e, a + b, g, gs)) && (gs == [] ==> Shows(e, a + b, g, hs))
  {
    assert hs == [] ==> hs + gs == gs;
    ToksConcat(a, b);
    EdgesConcat(e, Toks(a), Toks(b));
  }

  lemma QuietShows(e: Edge, ps: seq<Piece>, next: Option<byte>)
    requires Quiet(ps, next) && (e == Within || e == Broken)
    ensures Shows(e, ps, e, [])
  {
    TriviaShowsNothing(e, Toks(ps));
  }

  lemma OneShows(e: Edge, p: Piece)
    ensures Shows(e, [p], if p.Gap? then e else After(e, p.tok),
                  if p.Lex? && IsClose(p.tok.kind) && e != Within then [e == Broken] else [])
    ensures Shows(e, [], e, [])
  {
    var none: seq<Piece> := [];
    var nothing: seq<Token> := [];
    assert [p][1..] == none && Toks(none) == nothing;
    assert Toks([p]) == PieceToks(p) + nothing == PieceToks(p);
    if p.Lex? {
      assert [p.tok][1..] == nothing && Edges(After(e, p.tok), nothing) == After(e, p.tok);
      assert Empties(e, [p.tok]) == (if IsClose(p.tok.kind) && e != Within then [e == Broken] else []) + [];
    }
  }

  // Values

  lemma {:induction false} ValueShows(e: Edge, n: Node, depth: nat, o: Layout)
    requires WfNode(n) && BlankIndent(o)
    ensures Shows(e, PrintValue(n, depth, o), Within, Hollows(n, o))
    decreases n, 2
  {
    hide Shows, WfNode, StringPiece, PrintContainer, Hollows, ScalarText;
    match n.kind {
      case ObjectNode => ContainerShows(e, n, depth, o);
      case ArrayNode => ContainerShows(e, n, depth, o);
      case KeyValueNode => MemberShows(e, n, depth, o);
      case StringNode => StringShows(e, n.rawValue, n.value, o); NoHollows(n, o);
      case _ => OneShows(e, Lex(Token(ScalarKind(n), ScalarText(n)))); NoHollows(n, o);
    }
  }

  lemma NoHollows(n: Node, o: Layout)
    requires !n.IsContainer() && n.kind != KeyValueNode
    ensures Hollows(n, o) == []
  {
  }

  lemma StringShows(e: Edge, raw: Bytes, value: Bytes, o: Layout)
    ensures Shows(e, [StringPiece(raw, value, o)], Within, [])
  {
    hide Shows;
    OneShows(e, StringPiece(raw, value, o));
  }

  lemma {:induction false} MemberShows(e: Edge, n: Node, depth: nat, o: Layout)
    requires WfNode(n) && n.kind == KeyValueNode && BlankIndent(o)
    ensures Shows(e, PrintValue(n, depth, o), Within, Hollows(n, o))
    decreases n, 1
  {
    hide Shows, WfNotes, StringPiece, PrintValue, Hollows;
    var v := n.children[0];
    StringShows(e, n.rawKey, n.key, o);
    var key := [StringPiece(n.rawKey, n.key, o)];
    OneShows(Within, COLON_PIECE);
    OneShows(Within, SPACE_PIECE);
    ValueShows(Within, v, depth, o);
    ShowsConcat(e, key, Within, [], [COLON_PIECE], Within, []);
    ShowsConcat(e, key + [COLON_PIECE], Within, [], [SPACE_PIECE], Within, []);
    ShowsConcat(e, key + [COLON_PIECE] + [SPACE_PIECE], Within, [], PrintValue(v, depth, o), Within, Hollows(v, o));
    MemberParts(n, depth, o);
  }

  lemma MemberParts(n: Node, depth: nat, o: Layout)
    requires n.kind == KeyValueNode && |n.children| == 1
    ensures PrintValue(n, depth, o)
            == [StringPiece(n.rawKey, n.key, o)] + [COLON_PIECE] + [SPACE_PIECE] + PrintValue(n.children[0], depth, o)
    ensures Hollows(n, o) == Hollows(n.children[0], o)
  {
    hide StringPiece;
    assert KidHollows(n.children[1..], o) == [];
    assert Hollows(n.children[0], o) + [] == Hollows(n.children[0], o);
  }

  lemma {:induction false} ContainerShows(e: Edge, n: Node, depth: nat, o: Layout)
    requires WfNode(n) && n.IsContainer() && BlankIndent(o)
    ensures Shows(e, PrintContainer(n, depth, o), Within, Hollows(n, o))
    decreases n, 1
  {
    hide Shows, WfNotes, PrintLines, PrintJoined, KidHollows;
    var open, close := [OpenPiece(n.kind)], [ClosePiece(n.kind)];
    var at := if n.children == [] then Right else Within;
    OneShows(e, open[0]);
    OneShows(at, close[0]);
    if !o.Spread(n.kind) {
      JoinedShows(Right, n.children, o);
      var inside := PrintJoined(n.children, o);
      ShowsConcat(e, open, Right, [], inside, at, KidHollows(n.children, o));
      ShowsConcat(e, open + inside, at, KidHollows(n.children, o), close, Within, if at == Within then [] else [false]);
      NoKids(o);
    } else if n.children == [] && n.notes.foot == [] {
      ShowsConcat(e, open, Right, [], close, Within, [false]);
      assert PrintContainer(n, depth, o) == open + close;
    } else {
      LinesShow(Broken, n.children, depth + 1, o);
      assert WfNotes(n.notes);
      SpreadShows(e, n, depth, o);
    }
  }

  lemma NoKids(o: Layout)
    ensures KidHollows([], o) == []
  {
  }

  /** The multi-line layout, put together. */
  lemma SpreadShows(e: Edge, n: Node, depth: nat, o: Layout)
    requires n.IsContainer() && o.Spread(n.kind) && !(n.children == [] && n.notes.foot == [])
    requires WfNotes(n.notes) && BlankIndent(o)
    requires Shows(Broken, PrintLines(n.children, depth + 1, o), if n.children == [] then Broken else Within, KidHollows(n.children, o))
    ensures Shows(e, PrintContainer(n, depth, o), Within, Hollows(n, o))
  {
    hide Shows, Quiet, NoteText, PrintLines, FootBlock, KidHollows;
    var open, close := [OpenPiece(n.kind)], [ClosePiece(n.kind)];
    var lines, foot, kids := PrintLines(n.children, depth + 1, o), FootBlock(n.notes.foot, depth + 1, o), KidHollows(n.children, o);
    var at := if n.children == [] then Broken else Within;
    FootBlockIsQuiet(n.notes.foot, depth + 1, o, None);
    QuietShows(at, foot, None);
    OneShows(e, open[0]);
    OneShows(Right, NEWLINE);
    OneShows(at, Indent(depth, o));
    OneShows(at, close[0]);
    ShowsConcat(e, open, Right, [], [NEWLINE], Broken, []);
    ShowsConcat(e, open + [NEWLINE], Broken, [], lines, at, kids);
    ShowsConcat(e, open + [NEWLINE] + lines, at, kids, foot, at, []);
    ShowsConcat(e, open + [NEWLINE] + lines + foot, at, kids, [Indent(depth, o)], at, []);
    ShowsConcat(e, open + [NEWLINE] + lines + foot + [Indent(depth, o)], at, kids, close, Within,
                if at == Within then [] else [true]);
    NoKids(o);
    assert PrintContainer(n, depth, o) == open + [NEWLINE] + lines + foot + [Indent(depth, o)] + close;
  }

  lemma {:induction false} JoinedShows(e: Edge, kids: seq<Node>, o: Layout)
    requires forall i :: 0 <= i < |kids| ==> WfNode(kids[i])
    requires BlankIndent(o)
    ensures Shows(e, PrintJoined(kids, o), if kids == [] then e else Within, KidHollows(kids, o))
    decreases kids, 0
  {
    hide Shows, WfNode, PrintValue, Hollows;
    OneShows(e, COMMA_PIECE);
    if kids != [] {
      var val, hs := PrintValue(kids[0], 0, o), Hollows(kids[0], o);
      ValueShows(e, kids[0], 0, o);
      if |kids| > 1 {
        var rest := PrintJoined(kids[1..], o);
        JoinedShows(Within, kids[1..], o);
        OneShows(Within, COMMA_PIECE);
        OneShows(Within, SPACE_PIECE);
        ShowsConcat(e, val, Within, hs, [COMMA_PIECE], Within, []);
        ShowsConcat(e, val + [COMMA_PIECE], Within, hs, [SPACE_PIECE], Within, []);
        ShowsConcat(e, val + [COMMA_PIECE] + [SPACE_PIECE], Within, hs, rest, Within, KidHollows(kids[1..], o));
        assert PrintJoined(kids, o) == val + [COMMA_PIECE] + [SPACE_PIECE] + rest;
      } else {
        NoKids(o);
        assert kids[1..] == [] && KidHollows(kids, o) == hs + [] == hs;
      }
    }
  }

  lemma {:induction false} LinesShow(e: Edge, kids: seq<Node>, depth: nat, o: Layout)
    requires forall i :: 0 <= i < |kids| ==> WfNode(kids[i])
    requires BlankIndent(o) && e != Right
    ensures Shows(e, PrintLines(kids, depth, o), if kids == [] then e else Within, KidHollows(kids, o))
    decreases kids, 1
  {
    hide Shows, WfNode, PrintLine, Hollows;
    OneShows(e, NEWLINE);
    if kids != [] {
      LineShows(e, kids, depth, o);
      LinesShow(Within, kids[1..], depth, o);
      ShowsConcat(e, PrintLine(kids, depth, o), Within, Hollows(kids[0], o), PrintLines(kids[1..], depth, o), Within,
                  KidHollows(kids[1..], o));
    }
  }

  lemma {:induction false} LineShows(e: Edge, kids: seq<Node>, depth: nat, o: Layout)
    requires kids != [] && WfNode(kids[0]) && BlankIndent(o) && e != Right
    ensures Shows(e, PrintLine(kids, depth, o), Within, Hollows(kids[0], o))
    decreases kids, 0
  {
    hide Shows, Quiet, WfNode, PrintValue, Hollows, HeadBlock, EndOfLine, BlankIndent;
    var n := kids[0];
    var head, val, end, hs := HeadBlock(n, depth, o), PrintValue(n, depth, o), EndOfLine(n, depth, o), Hollows(n, o);
    var comma := Separator(|kids| > 1 || o.LastComma());
    HeadBlockIsQuiet(n, depth, o, None);
    QuietShows(e, head, None);
    OneShows(e, Indent(depth, o));
    ValueShows(e, n, depth, o);
    OneShows(Within, COMMA_PIECE);
    EndOfLineIsQuiet(n, depth, o, None);
    QuietShows(Within, end, None);
    ShowsConcat(e, head, e, [], [Indent(depth, o)], e, []);
    ShowsConcat(e, head + [Indent(depth, o)], e, [], val, Within, hs);
    ShowsConcat(e, head + [Indent(depth, o)] + val, Within, hs, comma, Within, []);
    ShowsConcat(e, head + [Indent(depth, o)] + val + comma, Within, hs, end, Within, []);
  }

  /** A container with nothing inside is closed on the line that opens it, unless
      its own lines hold a comment. */
  lemma EmptyIsClosedAtOnce(n: Node, o: Layout)
    requires WfNode(n) && BlankIndent(o)
    ensures Empties(Within, Tokens(Encode(n, o), false)) == Hollows(n, o)
  {
    hide Shows, Quiet, WfNode, PrintValue, Hollows, HeadBlock, EndOfDocument, BlankIndent, Tokens, Encode, Toks, Empties;
    var head, val, end, hs := HeadBlock(n, 0, o), PrintValue(n, 0, o), EndOfDocument(n, o), Hollows(n, o);
    HeadBlockIsQuiet(n, 0, o, None);
    QuietShows(Within, head, None);
    ValueShows(Within, n, 0, o);
    EndOfDocumentIsQuiet(n, o);
    QuietShows(Within, end, None);
    ShowsConcat(Within, head, Within, [], val, Within, hs);
    ShowsConcat(Within, head + val, Within, hs, end, Within, []);
    EncodedTokens(n, o);
    ShownIsToks(PrintDocument(n, o), hs);
  }

  lemma ShownIsToks(ps: seq<Piece>, hs: seq<bool>)
    requires Shows(Within, ps, Within, hs)
    ensures Empties(Within, Toks(ps)) == hs
  {
  }
}
