/** The printed form of a tree without comments, built up child by child as the
    fast path writes it. */
module RelayoutText {
  import opened Ascii
  import opened Lexer
  import opened QuotedStrings
  import opened Tree
  import opened Syntax
  import opened Printer
  import opened Rendering
  import opened Relayout

  /** Neither the node nor, for a member, its value has comments. */
  predicate Unannotated(n: Node) {
    n.notes == NO_NOTES && (n.kind == KeyValueNode && n.children != [] ==> n.children[0].notes == NO_NOTES)
  }

  predicate AllUnannotated(kids: seq<Node>) { forall i :: 0 <= i < |kids| ==> Unannotated(kids[i]) }

  function ValueText(n: Node, depth: nat, o: Layout): Bytes { Render(PrintValue(n, depth, o)) }

  /** Children with what goes before each; depth is the container's. */
  function ChildrenText(kids: seq<Node>, first: bool, multiline: bool, depth: nat, o: Layout): Bytes {
    if kids == [] then []
    else
      ChildPrefix(first, multiline, depth, o) + ValueText(kids[0], depth + 1, o)
      + ChildrenText(kids[1..], false, multiline, depth, o)
  }

  lemma {:induction false} ChildrenTextAppend(kids: seq<Node>, n: Node, first: bool, multiline: bool, depth: nat, o: Layout)
    ensures ChildrenText(kids + [n], first, multiline, depth, o)
            == ChildrenText(kids, first, multiline, depth, o)
               + (ChildPrefix(first && kids == [], multiline, depth, o) + ValueText(n, depth + 1, o))
  {
    hide ValueText, ChildPrefix;
    if kids == [] {
      assert kids + [n] == [n];
      assert ChildrenText([n][1..], false, multiline, depth, o) == [];
    } else {
      ChildrenTextAppend(kids[1..], n, false, multiline, depth, o);
      assert (kids + [n])[1..] == kids[1..] + [n] && (kids + [n])[0] == kids[0];
    }
  }

  // Depth does not matter without an indent.

  lemma {:induction false} RepeatNothing(n: nat)
    ensures Repeat([], n) == []
  {
    if n > 0 {
      RepeatNothing(n - 1);
    }
  }

  lemma {:induction false} LinesIgnoreDepth(ls: seq<Bytes>, d: nat, e: nat, o: Layout)
    requires o.indent == []
    ensures CommentLines(ls, d, o) == CommentLines(ls, e, o)
  {
    RepeatNothing(d);
    RepeatNothing(e);
    if ls != [] {
      LinesIgnoreDepth(ls[1..], d, e, o);
    }
  }

  lemma {:induction false} ValueIgnoresDepth(n: Node, d: nat, e: nat, o: Layout)
    requires o.indent == []
    ensures PrintValue(n, d, o) == PrintValue(n, e, o)
    decreases n, 2
  {
    hide SourceString, PrintContainer;
    if n.IsContainer() {
      ContainerIgnoresDepth(n, d, e, o);
    } else if n.kind == KeyValueNode && n.children != [] {
      ValueIgnoresDepth(n.children[0], d, e, o);
    }
  }

  lemma {:induction false} ContainerIgnoresDepth(n: Node, d: nat, e: nat, o: Layout)
    requires o.indent == [] && n.IsContainer()
    ensures PrintContainer(n, d, o) == PrintContainer(n, e, o)
    decreases n, 1
  {
    hide PrintLines, PrintJoined, CommentLines;
    RepeatNothing(d);
    RepeatNothing(e);
    KidsIgnoreDepth(n.children, d + 1, e + 1, o);
    LinesIgnoreDepth(DropBlankLines(SplitLines(NormalizeBreaks(n.notes.foot))), d + 1, e + 1, o);
  }

  lemma {:induction false} KidsIgnoreDepth(kids: seq<Node>, d: nat, e: nat, o: Layout)
    requires o.indent == []
    ensures PrintLines(kids, d, o) == PrintLines(kids, e, o)
    decreases kids, 0
  {
    hide PrintValue;
    if kids != [] {
      RepeatNothing(d);
      RepeatNothing(e);
      ValueIgnoresDepth(kids[0], d, e, o);
      KidsIgnoreDepth(kids[1..], d, e, o);
    }
  }

  // One line

  lemma RenderOne(p: Piece)
    ensures Render([p]) == RenderPiece(p)
  {
    assert [p][1..] == [];
  }

  lemma RenderNone()
    ensures Render([]) == []
  {
  }

  lemma {:induction false} JoinedText(kids: seq<Node>, depth: nat, o: Layout)
    requires o.indent == []
    ensures Render(PrintJoined(kids, o)) == ChildrenText(kids, true, false, depth, o)
    decreases |kids|
  {
    hide PrintValue, Render;
    if kids == [] {
      RenderNone();
    } else {
      ValueIgnoresDepth(kids[0], 0, depth + 1, o);
      var v := PrintValue(kids[0], 0, o);
      if |kids| == 1 {
        assert ChildrenText(kids[1..], false, false, depth, o) == [];
      } else {
        JoinedText(kids[1..], depth, o);
        CommaText(v, PrintJoined(kids[1..], o));
        assert ChildrenText(kids[1..], false, false, depth, o) == [COMMA, SPACE] + ChildrenText(kids[1..], true, false, depth, o);
      }
    }
  }

  lemma CommaText(v: seq<Piece>, rest: seq<Piece>)
    ensures Render(v + [COMMA_PIECE, SPACE_PIECE] + rest) == Render(v) + ([COMMA, SPACE] + Render(rest))
  {
    hide Render;
    var sep := [COMMA_PIECE, SPACE_PIECE];
    assert sep == [COMMA_PIECE] + [SPACE_PIECE];
    RenderConcat([COMMA_PIECE], [SPACE_PIECE]);
    RenderOne(COMMA_PIECE);
    RenderOne(SPACE_PIECE);
    assert [COMMA] + [SPACE] == [COMMA, SPACE];
    RenderConcat(v + sep, rest);
    RenderConcat(v, sep);
  }

  // A line each

  lemma LinePieces(kids: seq<Node>, depth: nat, o: Layout)
    requires kids != [] && Unannotated(kids[0])
    ensures PrintLine(kids, depth, o)
            == [Indent(depth, o)] + PrintValue(kids[0], depth, o) + Separator(|kids| > 1 || o.LastComma()) + [NEWLINE]
  {
    hide PrintValue, CommentBlock;
    var n := kids[0];
    assert HeadText(n) == [] && AfterText(n) == [] && LineNotes(n) == [];
    NoCommentBlock(depth, o);
    assert EndOfLine(n, depth, o) == [NEWLINE];
  }

  lemma RenderLine(indent: Piece, value: seq<Piece>, comma: bool)
    ensures Render([indent] + value + Separator(comma) + [NEWLINE])
            == RenderPiece(indent) + Render(value) + (if comma then [COMMA] else []) + [LF]
  {
    hide Render;
    RenderConcat([indent] + value + Separator(comma), [NEWLINE]);
    RenderConcat([indent] + value, Separator(comma));
    RenderConcat([indent], value);
    RenderOne(indent);
    RenderOne(NEWLINE);
    RenderOne(COMMA_PIECE);
    RenderNone();
  }

  lemma ChildLineText(kids: seq<Node>, depth: nat, o: Layout)
    requires kids != [] && Unannotated(kids[0])
    ensures Render(PrintLine(kids, depth, o))
            == IndentText(depth, o) + ValueText(kids[0], depth, o) + (if |kids| > 1 || o.LastComma() then [COMMA] else []) + [LF]
  {
    hide Render, PrintValue, PrintLine, Unannotated;
    LinePieces(kids, depth, o);
    RenderLine(Indent(depth, o), PrintValue(kids[0], depth, o), |kids| > 1 || o.LastComma());
  }

  lemma NoCommentBlock(depth: nat, o: Layout)
    ensures CommentBlock([], depth, o) == []
  {
    assert SplitLines([]) == [[]];
    assert IsBlankText([]);
    var none: seq<Bytes> := [];
    assert [[]][1..] == none;
    assert DropBlankLines([[]]) == DropBlankLines(none) == none;
  }

  lemma {:induction false} LinesText(kids: seq<Node>, depth: nat, o: Layout)
    requires kids != [] && AllUnannotated(kids)
    ensures [LF] + Render(PrintLines(kids, depth + 1, o))
            == ChildrenText(kids, true, true, depth, o) + ((if o.LastComma() then [COMMA] else []) + [LF])
    decreases |kids|
  {
    hide Render, PrintLine, ValueText, Unannotated;
    var rest := PrintLines(kids[1..], depth + 1, o);
    ChildLineText(kids, depth + 1, o);
    RenderConcat(PrintLine(kids, depth + 1, o), rest);
    var head := IndentText(depth + 1, o) + ValueText(kids[0], depth + 1, o);
    if |kids| == 1 {
      RenderNone();
      assert rest == [];
      assert ChildrenText(kids[1..], false, true, depth, o) == [];
      assert [LF] + (head + (if o.LastComma() then [COMMA] else []) + [LF] + [])
          == ([LF] + IndentText(depth + 1, o)) + ValueText(kids[0], depth + 1, o) + [] + ((if o.LastComma() then [COMMA] else []) + [LF]);
    } else {
      LinesText(kids[1..], depth, o);
      OtherPrefix(kids[1..], depth, o);
      var tail := (if o.LastComma() then [COMMA] else []) + [LF];
      var more := ChildrenText(kids[1..], true, true, depth, o);
      assert [LF] + (head + [COMMA] + [LF] + Render(rest)) == [LF] + head + [COMMA] + ([LF] + Render(rest));
      assert [LF] + head + [COMMA] + (more + tail) == ([LF] + IndentText(depth + 1, o)) + ValueText(kids[0], depth + 1, o) + ([COMMA] + more) + tail;
    }
  }

  /** In multi-line layout, a later child differs from the first by the comma. */
  lemma OtherPrefix(kids: seq<Node>, depth: nat, o: Layout)
    requires kids != []
    ensures ChildrenText(kids, false, true, depth, o) == [COMMA] + ChildrenText(kids, true, true, depth, o)
  {
    hide ValueText;
    assert [COMMA, LF] + IndentText(depth + 1, o) == [COMMA] + ([LF] + IndentText(depth + 1, o));
  }

  function ContainerFrame(n: Node, depth: nat, o: Layout): Frame {
    Frame(n.kind == ObjectNode, o.Spread(n.kind), depth, |n.children|, 0)
  }

  lemma EmptyText(n: Node, depth: nat, o: Layout)
    requires n.IsContainer() && n.notes.foot == [] && n.children == []
    ensures ValueText(n, depth, o) == [OpenByte(n.kind == ObjectNode)] + [CloseByte(n.kind == ObjectNode)]
  {
    EmptyPieces(n, depth, o);
    hide Render, PrintValue;
    var open, close := OpenPiece(n.kind), ClosePiece(n.kind);
    RenderConcat([open], [close]);
    RenderOne(open);
    RenderOne(close);
  }

  lemma EmptyPieces(n: Node, depth: nat, o: Layout)
    requires n.IsContainer() && n.notes.foot == [] && n.children == []
    ensures PrintValue(n, depth, o) == [OpenPiece(n.kind)] + [ClosePiece(n.kind)]
  {
    var open, close := OpenPiece(n.kind), ClosePiece(n.kind);
    assert [open, close] == [open] + [close];
    assert PrintJoined(n.children, o) == [];
    assert [open] + [] + [close] == [open] + [close];
  }

  lemma JoinedContainerText(n: Node, depth: nat, o: Layout)
    requires n.IsContainer() && !o.Spread(n.kind)
    ensures ValueText(n, depth, o)
            == [OpenByte(n.kind == ObjectNode)] + ChildrenText(n.children, true, false, depth, o) + [CloseByte(n.kind == ObjectNode)]
  {
    JoinedPieces(n, depth, o);
    hide Render, PrintValue, PrintJoined, ChildrenText;
    var open, close := OpenPiece(n.kind), ClosePiece(n.kind);
    JoinedText(n.children, depth, o);
    RenderConcat([open] + PrintJoined(n.children, o), [close]);
    RenderConcat([open], PrintJoined(n.children, o));
    RenderOne(open);
    RenderOne(close);
  }

  lemma JoinedPieces(n: Node, depth: nat, o: Layout)
    requires n.IsContainer() && !o.Spread(n.kind)
    ensures PrintValue(n, depth, o) == [OpenPiece(n.kind)] + PrintJoined(n.children, o) + [ClosePiece(n.kind)]
  {
    hide PrintJoined;
  }

  lemma SpreadContainerText(n: Node, depth: nat, o: Layout)
    requires n.IsContainer() && n.notes.foot == [] && AllUnannotated(n.children) && o.Spread(n.kind) && n.children != []
    ensures ValueText(n, depth, o)
            == [OpenByte(n.kind == ObjectNode)] + ChildrenText(n.children, true, true, depth, o) + CloseText(ContainerFrame(n, depth, o), o)
  {
    hide Render, PrintLines, ChildrenText, Unannotated;
    var open, close := OpenPiece(n.kind), ClosePiece(n.kind);
    LinesText(n.children, depth, o);
    SpreadText(open, PrintLines(n.children, depth + 1, o), Indent(depth, o), close);
    assert FootBlock(n.notes.foot, depth + 1, o) == [];
    assert PrintContainer(n, depth, o) == [open, NEWLINE] + PrintLines(n.children, depth + 1, o) + [Indent(depth, o), close];
    var kids := ChildrenText(n.children, true, true, depth, o);
    var last := if o.LastComma() then [COMMA] else [];
    var o1, c1 := [OpenByte(n.kind == ObjectNode)], [CloseByte(n.kind == ObjectNode)];
    assert o1 + (kids + (last + [LF])) + IndentText(depth, o) + c1
        == o1 + kids + (last + [LF] + IndentText(depth, o) + c1);
  }

  /** The whole container. */
  lemma ContainerText(n: Node, depth: nat, o: Layout)
    requires n.IsContainer() && n.notes.foot == [] && AllUnannotated(n.children)
    ensures ValueText(n, depth, o)
            == [OpenByte(n.kind == ObjectNode)] + ChildrenText(n.children, true, o.Spread(n.kind), depth, o)
               + CloseText(ContainerFrame(n, depth, o), o)
  {
    hide Render, PrintValue, ValueText, Unannotated;
    if n.children == [] {
      EmptyText(n, depth, o);
      NoChildrenText(o.Spread(n.kind), depth, o);
      var o1, c1 := [OpenByte(n.kind == ObjectNode)], [CloseByte(n.kind == ObjectNode)];
      assert CloseText(ContainerFrame(n, depth, o), o) == c1;
      assert o1 + [] + c1 == o1 + c1;
    } else if o.Spread(n.kind) {
      SpreadContainerText(n, depth, o);
    } else {
      JoinedContainerText(n, depth, o);
      var c1 := [CloseByte(n.kind == ObjectNode)];
      assert CloseText(ContainerFrame(n, depth, o), o) == c1;
    }
  }

  lemma NoChildrenText(multiline: bool, depth: nat, o: Layout)
    ensures ChildrenText([], true, multiline, depth, o) == []
  {
  }

  lemma SpreadText(open: Piece, lines: seq<Piece>, indent: Piece, close: Piece)
    ensures Render([open, NEWLINE] + lines + [indent, close])
            == RenderPiece(open) + ([LF] + Render(lines)) + RenderPiece(indent) + RenderPiece(close)
  {
    hide Render;
    assert [open, NEWLINE] == [open] + [NEWLINE] && [indent, close] == [indent] + [close];
    RenderOne(open);
    RenderOne(NEWLINE);
    RenderOne(indent);
    RenderOne(close);
    RenderConcat([open], [NEWLINE]);
    RenderConcat([indent], [close]);
    RenderConcat([open, NEWLINE] + lines, [indent, close]);
    RenderConcat([open, NEWLINE], lines);
  }

  /** A member: its key, then its value at the same depth. */
  lemma MemberText(n: Node, depth: nat, o: Layout)
    requires n.kind == KeyValueNode && n.children != []
    ensures ValueText(n, depth, o)
            == SourceString(n.rawKey, n.key, o.escapeHTML) + [COLON, SPACE] + ValueText(n.children[0], depth, o)
  {
    hide Render, SourceString;
    var key := StringPiece(n.rawKey, n.key, o);
    var v := PrintValue(n.children[0], depth, o);
    assert [key, COLON_PIECE, SPACE_PIECE] == [key] + ([COLON_PIECE] + [SPACE_PIECE]);
    RenderConcat([key, COLON_PIECE, SPACE_PIECE], v);
    RenderConcat([key], [COLON_PIECE] + [SPACE_PIECE]);
    RenderConcat([COLON_PIECE], [SPACE_PIECE]);
    RenderOne(key);
    RenderOne(COLON_PIECE);
    RenderOne(SPACE_PIECE);
    assert [COLON] + [SPACE] == [COLON, SPACE];
  }
}
