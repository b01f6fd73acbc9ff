/**
  The encoder as it runs: every method appends to a buffer. Each is proved
  against the printer's pieces.
 */
module Encoder {
  import opened Ascii
  import opened Lexer
  import opened Utf8
  import opened QuotedStrings
  import opened Tree
  import opened Syntax
  import opened Printer
  import opened Rendering
  import opened Relayout
  import Machine = Relayout
  import opened RelayoutText
  import opened RelayoutLaws
  import opened RelayoutRefines
  import opened RelayoutLoop
  import opened KeySort
  import opened Texts
  import opened StringLaws
  import opened Unquoting
  import Parser
  import Scanner
  import Halts

  // Sequences of bytes and of pieces

  lemma {:induction false} RepeatOnce(s: Bytes, n: nat)
    ensures Repeat(s, n + 1) == Repeat(s, n) + s
  {
    if n > 0 {
      RepeatOnce(s, n - 1);
      Assoc(s, Repeat(s, n - 1), s);
    } else {
      assert s + [] == [] + s;
    }
  }

  lemma RenderTwo(p: Piece, q: Piece)
    ensures Render([p, q]) == RenderPiece(p) + RenderPiece(q)
  {
    assert [p, q] == [p] + [q];
    RenderConcat([p], [q]);
    RenderOne(p);
    RenderOne(q);
  }

  lemma RenderThree(p: Piece, q: Piece, r: Piece)
    ensures Render([p, q, r]) == RenderPiece(p) + RenderPiece(q) + RenderPiece(r)
  {
    hide Render, RenderPiece;
    assert [p, q, r] == [p, q] + [r];
    RenderConcat([p, q], [r]);
    RenderTwo(p, q);
    RenderOne(r);
  }

  // Comment blocks, line by line

  lemma DropOneBlank(ls: seq<Bytes>, i: nat)
    requires i < |ls| && IsBlankText(ls[i])
    ensures DropBlankLines(ls[i..]) == DropBlankLines(ls[i + 1..])
  {
    assert ls[i..][1..] == ls[i + 1..];
  }

  lemma DropNone(ls: seq<Bytes>)
    requires ls == [] || !IsBlankText(ls[0])
    ensures DropBlankLines(ls) == ls
  {
  }

  lemma OneCommentLine(ls: seq<Bytes>, i: nat, depth: nat, o: Layout)
    requires i < |ls|
    ensures Render(CommentLines(ls[i..], depth, o))
            == Repeat(o.indent, depth) + ([SLASH, SLASH] + LineText(ls[i])) + [LF]
               + Render(CommentLines(ls[i + 1..], depth, o))
  {
    hide Render, LineText, Repeat;
    assert ls[i..][1..] == ls[i + 1..];
    RenderConcat(CommentLine(ls[i], depth, o), CommentLines(ls[i + 1..], depth, o));
    RenderThree(Indent(depth, o), Lex(Token(LineComment, LineText(ls[i]))), NEWLINE);
  }

  lemma NoLinesLeft(depth: nat, o: Layout)
    ensures Render(CommentLines([], depth, o)) == []
  {
  }

  class Encoder {
    const o: Layout
    var buf: Bytes

    constructor (layout: Layout)
      ensures o == layout && buf == []
    {
      o, buf := layout, [];
    }

    method Write(s: Bytes)
      modifies this
      ensures buf == old(buf) + s
    {
      buf := buf + s;
    }

    method WriteIndent(depth: nat)
      modifies this
      ensures buf == old(buf) + Repeat(o.indent, depth)
    {
      hide Repeat;
      if o.indent == [] {
        RepeatNothing(depth);
        return;
      }
      NoRepeat(o.indent);
      for i := 0 to depth
        invariant buf == old(buf) + Repeat(o.indent, i)
      {
        RepeatOnce(o.indent, i);
        Assoc(old(buf), Repeat(o.indent, i), o.indent);
        Write(o.indent);
      }
    }

    // Comments

    method WriteLineCommentText(text: Bytes)
      modifies this
      ensures buf == old(buf) + ([SLASH, SLASH] + LineText(text))
    {
      var t := TrimRight(text);
      Write([SLASH, SLASH]);
      if t != [] && t[0] != SPACE && t[0] != TAB {
        Write([SPACE]);
      }
      Write(t);
    }

    method WriteCommentBlock(text: Bytes, depth: nat)
      modifies this
      ensures buf == old(buf) + Render(CommentBlock(text, depth, o))
    {
      hide Render, LineText, Repeat, DropBlankLines, CommentLines, SplitLines, NormalizeBreaks, IsBlankText;
      var started := false;
      var ls := SplitLines(NormalizeBreaks(text));
      ghost var all := Render(CommentLines(DropBlankLines(ls), depth, o));
      assert ls[0..] == ls;
      for i := 0 to |ls|
        invariant started ==> buf + Render(CommentLines(ls[i..], depth, o)) == old(buf) + all
        invariant !started ==> buf == old(buf) && DropBlankLines(ls[i..]) == DropBlankLines(ls)
      {
        if !started && IsBlankText(ls[i]) {
          DropOneBlank(ls, i);
        } else {
          if !started {
            DropNone(ls[i..]);
          }
          OneCommentLine(ls, i, depth, o);
          ghost var before := buf;
          started := true;
          WriteIndent(depth);
          WriteLineCommentText(ls[i]);
          Write([LF]);
          AssocFive(before, Repeat(o.indent, depth), [SLASH, SLASH] + LineText(ls[i]), [LF],
                  Render(CommentLines(ls[i + 1..], depth, o)));
        }
      }
      assert ls[|ls|..] == [];
      DropNone([]);
      NoLinesLeft(depth, o);
    }

    method WriteInlineBlockComment(text: Bytes)
      modifies this
      ensures buf == old(buf) + Render(InlineBlock(text))
    {
      hide Sanitize, Render;
      var t := Sanitize(text);
      RenderTwo(SPACE_PIECE, Lex(Token(BlockComment, BlockText(text))));
      Write([SPACE, SLASH, STAR]);
      if t == [] || !IsPadding(t[0]) {
        Write([SPACE]);
      }
      Write(t);
      if t == [] || !IsPadding(t[|t| - 1]) {
        Write([SPACE]);
      }
      Write([STAR, SLASH]);
    }

    method WriteInlineComment(text: Bytes)
      modifies this
      ensures buf == old(buf) + Render(InlineNote(text))
    {
      hide Render, LineText, InlineBlock;
      if LF in text || CR in text {
        WriteInlineBlockComment(text);
        return;
      }
      RenderTwo(SPACE_PIECE, Lex(Token(LineComment, LineText(text))));
      Write([SPACE]);
      WriteLineCommentText(text);
    }

    method WriteHeadComments(n: Node, depth: nat)
      modifies this
      ensures buf == old(buf) + Render(HeadBlock(n, depth, o))
    {
      hide CommentBlock, JoinNotes;
      if !o.NodeComments() {
        return;
      }
      var head := n.notes.head;
      if n.kind == KeyValueNode && |n.children| > 0 {
        head := JoinNotes(head, n.children[0].notes.head);
      }
      if head != [] {
        WriteCommentBlock(head, depth);
      }
    }

    /** All but the last in the block form, so that they cannot hide the ones
        after them. */
    method WriteLineComments(n: Node)
      modifies this
      ensures buf == old(buf) + Render(LineNotes(n))
    {
      hide Render, InlineBlock, InlineNote;
      var texts: seq<Bytes> := [];
      if n.kind == KeyValueNode && |n.children| > 0 && n.children[0].notes.line != [] {
        texts := texts + [n.children[0].notes.line];
      }
      if n.notes.line != [] {
        texts := texts + [n.notes.line];
      }
      ghost var all := LineNotes(n);
      NotesOfTexts(n);
      assert texts == NoteTexts(n);
      assert texts[0..] == texts;
      for i := 0 to |texts|
        invariant buf + Render(NotesOf(texts[i..])) == old(buf) + Render(NotesOf(texts))
      {
        ghost var before := buf;
        NotesStep(texts, i);
        if i < |texts| - 1 {
          WriteInlineBlockComment(texts[i]);
          Assoc(before, Render(InlineBlock(texts[i])), Render(NotesOf(texts[i + 1..])));
        } else {
          WriteInlineComment(texts[i]);
          Assoc(before, Render(InlineNote(texts[i])), Render(NotesOf(texts[i + 1..])));
        }
      }
      assert texts[|texts|..] == [];
      RenderNone();
    }

    // Strings

    method WriteQuotedString(s: Bytes)
      modifies this
      ensures buf == old(buf) + Quote(s, o.escapeHTML)
    {
      hide QuoteStep, QuoteBody;
      Write([QUOTE]);
      ghost var start := buf;
      var i := 0;
      assert s[0..] == s;
      while i < |s|
        invariant i <= |s| && buf + QuoteBody(s[i..], o.escapeHTML) == start + QuoteBody(s, o.escapeHTML)
      {
        ghost var before := buf;
        QuoteBodyStep(s, i, o.escapeHTML);
        var size := WriteQuotedChar(s, i);
        ghost var e := QuoteStep(s[i..], o.escapeHTML);
        Assoc(before, e.out, QuoteBody(s[i + size..], o.escapeHTML));
        i := i + size;
      }
      assert s[i..] == [];
      NoBody(o.escapeHTML);
      assert buf + [] == buf;
      Write([QUOTE]);
      AssocFour(old(buf), [QUOTE], QuoteBody(s, o.escapeHTML), [QUOTE]);
    }

    /** The turn of the loop at s[i]; size is how far it goes. */
    method WriteQuotedChar(s: Bytes, i: nat) returns (size: nat)
      requires i < |s|
      modifies this
      ensures var e := QuoteStep(s[i..], o.escapeHTML); buf == old(buf) + e.out && size == e.size
    {
      hide RuneSize, HexDigit;
      var c := s[i];
      var t := s[i..];
      if c == 0xE2 && o.escapeHTML && i + 2 < |s| && s[i + 1] == 0x80 && (s[i + 2] == 0xA8 || s[i + 2] == 0xA9) {
        SeparatorEscape();
        Write([BACKSLASH, 0x75, 0x32, 0x30, 0x32, if s[i + 2] == 0xA8 then 0x38 else 0x39]);
        return 3;
      }
      assert LineSeparatorAt(t) ==> !o.escapeHTML;
      if c == QUOTE || c == BACKSLASH {
        Write([BACKSLASH, c]);
      } else if c == 0x08 {
        Write([BACKSLASH, 0x62]);
      } else if c == 0x0C {
        Write([BACKSLASH, 0x66]);
      } else if c == LF {
        Write([BACKSLASH, 0x6E]);
      } else if c == CR {
        Write([BACKSLASH, 0x72]);
      } else if c == TAB {
        Write([BACKSLASH, 0x74]);
      } else if c < SPACE || (o.escapeHTML && IsHtmlByte(c)) {
        ControlEscape(c);
        Write([BACKSLASH, 0x75, 0x30, 0x30, HexDigit(c as nat / 16), HexDigit(c as nat % 16)]);
      } else if c < 0x80 {
        Write([c]);
      } else {
        size := RuneSize(t);
        if size == 0 {
          Write(REPLACEMENT);
          return 1;
        }
        assert t[..size] == s[i..i + size];
        Write(s[i..i + size]);
        return;
      }
      return 1;
    }

    method WriteSourceString(raw: Bytes, value: Bytes)
      modifies this
      ensures buf == old(buf) + SourceString(raw, value, o.escapeHTML)
    {
      hide RawStringOk, Quote;
      if RawStringOk(raw, o.escapeHTML) {
        Write(raw);
        return;
      }
      WriteQuotedString(value);
    }

    // Values

    method WriteValue(n: Node, depth: nat)
      modifies this
      ensures buf == old(buf) + Render(PrintValue(n, depth, o))
      decreases n, 3
    {
      hide Render, PrintContainer, SourceString;
      if n.kind == ObjectNode || n.kind == ArrayNode {
        WriteContainer(n, depth);
      } else if n.kind == KeyValueNode {
        MemberPieces(n, depth, o);
        WriteSourceString(n.rawKey, n.key);
        Write([COLON, SPACE]);
        if |n.children| > 0 {
          WriteValue(n.children[0], depth);
        } else {
          Write(NULL_WORD);
        }
        AssocFour(old(buf), SourceString(n.rawKey, n.key, o.escapeHTML), [COLON, SPACE], MemberValue(n, depth, o));
      } else if n.kind == StringNode {
        RenderOne(StringPiece(n.rawValue, n.value, o));
        WriteSourceString(n.rawValue, n.value);
      } else {
        RenderOne(Lex(Token(ScalarKind(n), ScalarText(n))));
        if n.rawValue != [] {
          Write(n.rawValue);
        } else {
          Write(n.value);
        }
      }
    }

    /** writeObject and writeArray. */
    method WriteContainer(n: Node, depth: nat)
      requires n.IsContainer()
      modifies this
      ensures buf == old(buf) + Render(PrintContainer(n, depth, o))
      decreases n, 2
    {
      if o.Multiline() || (n.kind == ArrayNode && o.arrayMultiline) {
        WriteMultiline(n, depth);
      } else {
        WriteCompact(n, depth);
      }
    }

    /** Children on one line. */
    method WriteCompact(n: Node, ghost depth: nat)
      requires n.IsContainer() && !o.Spread(n.kind)
      modifies this
      ensures buf == old(buf) + Render(PrintContainer(n, depth, o))
      decreases n, 1
    {
      hide Render, PrintJoined, PrintValue, JoinedFrom;
      CompactPieces(n, depth, o);
      Write([if n.kind == ObjectNode then LBRACE else LBRACKET]);
      ghost var start := buf;
      var first := true;
      JoinedFromStart(n.children, o);
      for i := 0 to |n.children|
        invariant first == (i == 0)
        invariant buf + JoinedFrom(n.children, i, o) == start + Render(PrintJoined(n.children, o))
      {
        ghost var before := buf;
        JoinedFromStep(n.children, i, o);
        if !first {
          Write([COMMA, SPACE]);
        }
        WriteValue(n.children[i], 0);
        first := false;
        AssocFour(before, if i == 0 then [] else [COMMA, SPACE], Render(PrintValue(n.children[i], 0, o)),
                   JoinedFrom(n.children, i + 1, o));
      }
      JoinedFromEnd(n.children, o);
      assert buf + [] == buf;
      Write([if n.kind == ObjectNode then RBRACE else RBRACKET]);
      AssocFour(old(buf), [if n.kind == ObjectNode then LBRACE else LBRACKET], Render(PrintJoined(n.children, o)),
               [if n.kind == ObjectNode then RBRACE else RBRACKET]);
    }

    /** Children on lines of their own. */
    method WriteMultiline(n: Node, depth: nat)
      requires n.IsContainer() && o.Spread(n.kind)
      modifies this
      ensures buf == old(buf) + Render(PrintContainer(n, depth, o))
      decreases n, 1
    {
      hide Render, PrintLines, PrintValue, CommentBlock, Repeat;
      MultilinePieces(n, depth, o);
      if |n.children| == 0 && n.notes.foot == [] {
        Write(if n.kind == ObjectNode then [LBRACE, RBRACE] else [LBRACKET, RBRACKET]);
        return;
      }
      Write([if n.kind == ObjectNode then LBRACE else LBRACKET]);
      Write([LF]);
      WriteChildren(n, depth + 1);
      if n.notes.foot != [] && !o.strictJSONOutput {
        WriteCommentBlock(n.notes.foot, depth + 1);
      } else {
        RenderNone();
      }
      WriteIndent(depth);
      Write([if n.kind == ObjectNode then RBRACE else RBRACKET]);
      AssocSeven(old(buf), OpenText(n.kind), [LF], Render(PrintLines(n.children, depth + 1, o)),
                  Render(FootBlock(n.notes.foot, depth + 1, o)), Repeat(o.indent, depth), ShutText(n.kind));
    }

    /** Each child on its own line, with its comments around it. */
    method WriteChildren(n: Node, depth: nat)
      modifies this
      ensures buf == old(buf) + Render(PrintLines(n.children, depth, o))
      decreases n, 0
    {
      hide Render, PrintLines, PrintLine, PrintValue, HeadBlock, LineNotes, CommentBlock, Repeat, AfterText;
      var kids := n.children;
      assert kids[0..] == kids;
      for i := 0 to |kids|
        invariant buf + Render(PrintLines(kids[i..], depth, o)) == old(buf) + Render(PrintLines(kids, depth, o))
      {
        ghost var before := buf;
        LinesStep(kids, i, depth, o);
        WriteHeadComments(kids[i], depth);
        WriteIndent(depth);
        WriteValue(kids[i], depth);
        if i + 1 < |kids| || (o.trailingComma && !o.strictJSONOutput) {
          Write([COMMA]);
        }
        WriteLineEnd(kids[i], depth);
        AssocSeven(before, Render(HeadBlock(kids[i], depth, o)), Repeat(o.indent, depth),
                  Render(PrintValue(kids[i], depth, o)), if i + 1 < |kids| || o.LastComma() then [COMMA] else [],
                  Render(EndOfLine(kids[i], depth, o)), Render(PrintLines(kids[i + 1..], depth, o)));
      }
      assert kids[|kids|..] == [];
      NoLines(depth, o);
      assert buf + [] == buf;
    }

    /** The comments behind a child, the line break, and the comments on the
        lines after it. */
    method WriteLineEnd(n: Node, depth: nat)
      modifies this
      ensures buf == old(buf) + Render(EndOfLine(n, depth, o))
    {
      hide Render, LineNotes, CommentBlock, AfterText;
      LineEndPieces(n, depth, o);
      if o.NodeComments() {
        WriteLineComments(n);
      }
      Write([LF]);
      if o.NodeComments() {
        var after := AfterText(n);
        if after != [] {
          WriteCommentBlock(after, depth);
        } else {
          NoCommentBlock(depth, o);
          RenderNone();
        }
        AssocFour(old(buf), Render(LineNotes(n)), [LF], Render(CommentBlock(AfterText(n), depth, o)));
      }
    }

    /** encodeNode: a whole document. */
    method EncodeNode(n: Node)
      requires buf == []
      modifies this
      ensures buf == Encode(n, o)
    {
      hide Render, PrintValue, HeadBlock, LineNotes, CommentBlock, AfterText;
      DocumentPieces(n, o);
      WriteHeadComments(n, 0);
      WriteValue(n, 0);
      if o.NodeComments() {
        WriteLineComments(n);
        var after := AfterText(n);
        if after != [] {
          Write([LF]);
          WriteCommentBlock(after, 0);
        } else {
          RenderNone();
        }
      } else {
        RenderNone();
      }
    }

    // Marshaler output

    /** The next token, and the bytes it was scanned from. */
    method NextRaw(sc: Scanner.Scanner) returns (t: Scanner.PlacedToken, raw: Bytes, err: Option<Scanner.ScanError>)
      requires sc.Valid()
      modifies sc
      ensures sc.Valid()
      ensures Took(Tokens(sc.src[old(sc.pos)..], sc.strictJSON), t.kind, raw, err == None,
                   Tokens(sc.src[sc.pos..], sc.strictJSON))
      ensures err == None && t.kind != EofToken ==> sc.pos > old(sc.pos)
    {
      hide Lexer.Next, Tokens, Took, Positions.Located;
      ghost var start := sc.pos;
      t, err := sc.Next();
      raw := if err == None && t.at.offset <= sc.pos then sc.src[t.at.offset..sc.pos] else [];
      NextTakes(sc.src, sc.strictJSON, start, t.kind, raw, sc.pos);
    }

    /** nextValueToken: the same, past line breaks. */
    method NextValueToken(sc: Scanner.Scanner)
      returns (t: Scanner.PlacedToken, raw: Bytes, err: Option<Scanner.ScanError>)
      requires sc.Valid()
      modifies sc
      ensures sc.Valid()
      ensures Took(SkipLines(Tokens(sc.src[old(sc.pos)..], sc.strictJSON)), t.kind, raw, err == None,
                   Tokens(sc.src[sc.pos..], sc.strictJSON))
    {
      hide Next, Tokens, Positions.Located;
      ghost var start := sc.pos;
      while true
        invariant sc.Valid()
        invariant SkipLines(Tokens(sc.src[sc.pos..], sc.strictJSON)) == SkipLines(Tokens(sc.src[start..], sc.strictJSON))
        decreases |sc.src| - sc.pos
      {
        t, raw, err := NextRaw(sc);
        if err.Some? || t.kind != Newline {
          return;
        }
      }
    }

    method RelayoutString(raw: Bytes) returns (ok: bool)
      modifies this
      ensures match StringText(raw, o)
              case None => !ok && buf == old(buf)
              case Some(s) => ok && buf == old(buf) + s
    {
      hide RawStringOk, Unquote, Quote;
      if RawStringOk(raw, o.escapeHTML) {
        Write(raw);
        return true;
      }
      var value := UnquoteString(raw);
      if value == None {
        return false;
      }
      WriteQuotedString(value.value);
      return true;
    }

    method RelayoutKeyText(raw: Bytes) returns (key: Option<Bytes>)
      requires IsQuoted(raw)
      ensures key == Unquote(raw)
    {
      hide Unescape, Utf8.Valid;
      var body := raw[1..|raw| - 1];
      if BACKSLASH !in body && Utf8.Valid(body) {
        PlainTextSpellsItself(body);
        return Some(body);
      }
      key := UnquoteString(raw);
    }

    /** What goes before a container's next child. */
    method RelayoutChild(f: Frame) returns (f2: Frame)
      modifies this
      ensures f2 == f.(children := f.children + 1)
      ensures buf == old(buf) + ChildPrefix(f.children == 0, f.multiline, f.depth, o)
    {
      hide Repeat;
      if f.children > 0 && f.multiline {
        Write([COMMA, LF]);
      } else if f.children > 0 {
        Write([COMMA, SPACE]);
      } else if f.multiline {
        Write([LF]);
      }
      if f.multiline {
        WriteIndent(f.depth + 1);
      }
      return f.(children := f.children + 1);
    }

    /** The check of an object's keys, and the closing delimiter. */
    method RelayoutClose(f: Frame, keys: seq<Bytes>) returns (ok: bool)
      requires f.obj ==> f.keys <= |keys|
      modifies this
      ensures if f.obj && HasDuplicate(From(keys, f.keys)) then !ok && buf == old(buf)
              else ok && buf == old(buf) + CloseText(f, o)
    {
      hide Repeat, Sorted, HasDuplicate;
      if f.obj {
        var own := keys[f.keys..];
        if |own| > 1 {
          var sorted := SortKeys(own);
          var found := HasEqualNeighbours(sorted);
          NeighboursDecide(own, sorted);
          if found {
            return false;
          }
        } else {
          NoDuplicateInOne(own);
        }
      }
      if f.children > 0 && f.multiline {
        if o.trailingComma && !o.strictJSONOutput {
          Write([COMMA]);
        }
        Write([LF]);
        WriteIndent(f.depth);
      }
      Write([CloseByte(f.obj)]);
      return true;
    }

    /** The top container closed and taken off the stack. */
    method Pop(l: Loop) returns (r: Option<Loop>)
      requires Sound(l) && l.stack != []
      modifies this
      ensures Follows(r, buf, CloseFrame(l.Conf(old(buf)), o)) && old(buf) <= buf
    {
      hide HasDuplicate, CloseText, KeysNested;
      PopKeeps(l);
      var top := l.Top();
      var ok := RelayoutClose(top, l.keys);
      if !ok {
        return None;
      }
      return Some(Loop(l.Below(), l.keys[..top.keys], WantNext, false));
    }

    /** relayoutKey: a key, or the end of an object. */
    method KeyTurn(l: Loop, kind: Kind, raw: Bytes) returns (r: Option<Loop>)
      requires Sound(l) && l.want == WantKey && TextFits(kind, raw)
      modifies this
      ensures Follows(r, buf, TakeKey(l.Conf(old(buf)), Token(kind, raw), o)) && old(buf) <= buf
    {
      hide CloseFrame, StringText, Unquote, ChildPrefix, KeysNested;
      if kind == ObjectEnd && !l.afterComma {
        r := Pop(l);
        return;
      }
      if kind != StringToken {
        return None;
      }
      var key := RelayoutKeyText(raw);
      if key == None {
        return None;
      }
      AddKeyKeeps(l, key.value);
      var top := RelayoutChild(l.Top());
      CountKeeps(l, top, |l.keys + [key.value]|);
      var ok := RelayoutString(raw);
      if !ok {
        return None;
      }
      return Some(Loop(l.Below() + [top], l.keys + [key.value], WantColon, l.afterComma));
    }

    /** relayoutValue: a value, or the end of an array. */
    method ValueTurn(l: Loop, kind: Kind, raw: Bytes, depth: nat) returns (r: Option<Loop>)
      requires Sound(l) && l.want == WantValue && TextFits(kind, raw)
      modifies this
      ensures var c := l.Conf(old(buf));
              Follows(r, buf,
                      if c.InArray() && kind == ArrayEnd && !c.afterComma then CloseFrame(c, o)
                      else TakeValue(if c.InArray() then Child(c, o) else c, Token(kind, raw), depth, o))
      ensures old(buf) <= buf
    {
      hide CloseFrame, TakeValue, ChildPrefix, KeysNested;
      if kind == ArrayEnd && l.stack != [] && !l.Top().obj && !l.afterComma {
        r := Pop(l);
        return;
      }
      var m := l;
      if l.stack != [] && !l.Top().obj {
        var top := RelayoutChild(l.Top());
        CountKeeps(l, top, |l.keys|);
        m := l.(stack := l.Below() + [top]);
      }
      r := TakeTurn(m, kind, raw, depth);
    }

    /** The first token of a value. */
    method TakeTurn(l: Loop, kind: Kind, raw: Bytes, depth: nat) returns (r: Option<Loop>)
      requires Sound(l) && l.want == WantValue && TextFits(kind, raw)
      modifies this
      ensures Follows(r, buf, TakeValue(l.Conf(old(buf)), Token(kind, raw), depth, o)) && old(buf) <= buf
    {
      hide StringText, KeysNested;
      if kind == ObjectStart || kind == ArrayStart {
        if |l.stack| >= EMBEDDED_MAX_DEPTH {
          return None;
        }
        var d := if l.stack != [] then l.Top().depth + 1 else depth;
        var obj := kind == ObjectStart;
        Write([raw[0]]);
        var f := Frame(obj, o.Multiline() || (!obj && o.arrayMultiline), d, 0, |l.keys|);
        PushKeeps(l, f);
        return Some(Loop(l.stack + [f], l.keys, if obj then WantKey else WantValue, false));
      } else if kind == StringToken {
        var ok := RelayoutString(raw);
        if !ok {
          return None;
        }
      } else if kind in {NumberToken, TrueToken, FalseToken, NullToken} {
        Write(raw);
      } else {
        return None;
      }
      return Some(l.(want := WantNext));
    }

    /** relayoutNext: a comma, or the end of the container. */
    method NextTurn(l: Loop, kind: Kind, raw: Bytes) returns (r: Option<Loop>)
      requires Sound(l) && l.want == WantNext
      modifies this
      ensures Follows(r, buf, TakeNext(l.Conf(old(buf)), Token(kind, raw), o)) && old(buf) <= buf
    {
      hide CloseFrame, KeysNested;
      if l.stack == [] {
        return None;
      } else if kind == ValueSeparator {
        return Some(l.(afterComma := true, want := if l.Top().obj then WantKey else WantValue));
      } else if (kind == ObjectEnd && l.Top().obj) || (kind == ArrayEnd && !l.Top().obj) {
        r := Pop(l);
      } else {
        return None;
      }
    }

    /** One turn of the loop in relayoutTokens. */
    method Turn(l: Loop, kind: Kind, raw: Bytes, depth: nat) returns (r: Option<Loop>)
      requires Sound(l) && TextFits(kind, raw) && kind != Newline && kind != ErrorToken
      modifies this
      ensures Follows(r, buf, Step(l.Conf(old(buf)), Token(kind, raw), depth, o)) && old(buf) <= buf
    {
      hide CloseFrame, TakeValue, TakeKey, TakeNext, Child, KeysNested;
      match l.want
      case WantKey =>
        r := KeyTurn(l, kind, raw);
      case WantColon =>
        if kind != NameSeparator {
          return None;
        }
        Write([COLON, SPACE]);
        r := Some(l.(want := WantValue, afterComma := false));
      case WantValue =>
        r := ValueTurn(l, kind, raw, depth);
      case WantNext =>
        r := NextTurn(l, kind, raw);
    }

    method RelayoutTokens(data: Bytes, strict: bool, depth: nat) returns (ok: bool)
      modifies this
      ensures old(buf) <= buf
      ensures match Machine.RelayoutTokens(Tokens(data, strict), depth, o, old(buf))
              case None => !ok
              case Some(out) => ok && buf == out
    {
      hide Run, Tokens, Step, Sound, TextFits, Positions.Located;
      var sc := new Scanner.Scanner(data, strict, true);
      var l := FRESH;
      assert data[0..] == data;
      FreshIsSound();
      while true
        invariant sc.Valid() && fresh(sc) && sc.src == data && sc.strictJSON == strict && Sound(l) && old(buf) <= buf
        invariant Run(l.Conf(buf), Tokens(data[sc.pos..], strict), depth, o)
                  == Machine.RelayoutTokens(Tokens(data, strict), depth, o, old(buf))
        decreases |data| - sc.pos
      {
        ghost var ts, c := Tokens(data[sc.pos..], strict), l.Conf(buf);
        var tok, raw, err := NextRaw(sc);
        if err.Some? {
          RunRejects(c, ts, 0, depth, o);
          return false;
        }
        if tok.kind == EofToken {
          RunEnd(c, depth, o);
          return l.want == WantNext && l.stack == [];
        }
        RunStep(c, ts, depth, o);
        SameStep(c, ts[0], raw, depth, o);
        if tok.kind != Newline {
          var r := Turn(l, tok.kind, raw, depth);
          if r == None {
            return false;
          }
          l := r.value;
        }
      }
    }

    /** relayoutScalar: data whose first token is a scalar. */
    method RelayoutScalar(data: Bytes, strict: bool, ghost depth: nat) returns (ok: bool, scalar: bool)
      modifies this
      ensures old(buf) <= buf && (!scalar ==> buf == old(buf))
      ensures scalar ==>
                match Machine.RelayoutTokens(Tokens(data, strict), depth, o, old(buf))
                case None => !ok
                case Some(out) => ok && buf == out
    {
      hide Run, Tokens, StringText, SkipLines, Positions.Located, Machine.RelayoutTokens;
      var sc := new Scanner.Scanner(data, strict, true);
      assert data[0..] == data;
      ghost var us := SkipLines(Tokens(data, strict));
      var tok, raw, err := NextValueToken(sc);
      if err.Some? {
        ScalarRun(Tokens(data, strict), depth, o, buf);
        return false, true;
      }
      if tok.kind == StringToken {
        ok := RelayoutString(raw);
        if !ok {
          ScalarRun(Tokens(data, strict), depth, o, old(buf));
          return false, true;
        }
      } else if tok.kind in {NumberToken, TrueToken, FalseToken, NullToken} {
        Write(raw);
      } else {
        return false, false;
      }
      ScalarRun(Tokens(data, strict), depth, o, old(buf));
      tok, raw, err := NextValueToken(sc);
      return err == None && tok.kind == EofToken, true;
    }

    /** relayout: all of it, or nothing. */
    method Relayout(data: Bytes, strict: bool, depth: nat) returns (ok: bool)
      modifies this
      ensures match Syntax.Parse(data, PLAIN_JSON)
              case Ok(n, _) => ok && buf == old(buf) + Render(PrintValue(n, depth, o))
              case Err(_) => !ok && buf == old(buf)
    {
      hide Run, Tokens, Render, PrintValue, Syntax.Parse, Machine.RelayoutTokens;
      RelayoutRefinesParseThenPrint(data, strict, depth, o, buf);
      var start := |buf|;
      var scalar;
      ok, scalar := RelayoutScalar(data, strict, depth);
      if !scalar {
        ok := RelayoutTokens(data, strict, depth);
      }
      if !ok {
        buf := buf[..start];
      }
    }

    /** parseEmbedded */
    method ParseEmbedded(data: Bytes, strict: bool) returns (r: Option<Node>)
      ensures r == match RelayoutRefines.ParseEmbedded(data, strict) case Ok(n, _) => Some(n) case Err(_) => None
    {
      hide Syntax.Parse, Positions.Located, Parser.Parser.Valid, Halts.ComplaintOf;
      if UTF8_BOM <= data {
        return None;
      }
      var p := new Parser.Parser(data, EmbeddedOptions(strict));
      var a := p.Parse();
      return if a.Root? then Some(a.node) else None;
    }

    /** writeEmbedded: what a marshaler gave, in the encoder's layout, or an
        error and nothing written. */
    method WriteEmbedded(data: Bytes, strict: bool, depth: nat) returns (ok: bool)
      modifies this
      ensures match RelayoutRefines.ParseEmbedded(data, strict)
              case Ok(n, _) => ok && buf == old(buf) + Render(PrintValue(n, depth, o))
              case Err(_) => !ok && buf == old(buf)
    {
      hide Render, PrintValue, Syntax.Parse, Machine.RelayoutTokens, RelayoutRefines.ParseEmbedded;
      RelayoutRefinesParseThenPrint(data, strict, depth, o, buf);
      RelayoutAgreesWithTreePath(data, strict, depth, o, buf);
      ok := Relayout(data, strict, depth);
      if ok {
        return;
      }
      var n := ParseEmbedded(data, strict);
      if n == None {
        return false;
      }
      WriteValue(n.value, depth);
      return true;
    }
  }

  lemma NoRepeat(s: Bytes)
    ensures Repeat(s, 0) == []
  {
  }

  /** The texts of the comments on n's last line. */
  function NoteTexts(n: Node): seq<Bytes> {
    (if InnerLine(n) == [] then [] else [InnerLine(n)]) + (if n.notes.line == [] then [] else [n.notes.line])
  }

  function NotesOf(texts: seq<Bytes>): seq<Piece> {
    if texts == [] then []
    else if |texts| == 1 then InlineNote(texts[0])
    else InlineBlock(texts[0]) + NotesOf(texts[1..])
  }

  lemma NotesOfTexts(n: Node)
    ensures NotesOf(NoteTexts(n)) == LineNotes(n)
  {
    hide InlineBlock, InlineNote;
    var ts := NoteTexts(n);
    if |ts| == 2 {
      assert ts[1..] == [n.notes.line];
    }
  }

  lemma NotesStep(texts: seq<Bytes>, i: nat)
    requires i < |texts|
    ensures Render(NotesOf(texts[i..]))
            == Render(if i < |texts| - 1 then InlineBlock(texts[i]) else InlineNote(texts[i])) + Render(NotesOf(texts[i + 1..]))
  {
    hide InlineBlock, InlineNote, Render;
    var us := texts[i..];
    assert us[1..] == texts[i + 1..];
    if |us| == 1 {
      RenderNone();
      assert NotesOf(us[1..]) == [];
    } else {
      RenderConcat(InlineBlock(us[0]), NotesOf(us[1..]));
    }
  }

  lemma QuoteBodyStep(s: Bytes, i: nat, html: bool)
    requires i < |s|
    ensures var e := QuoteStep(s[i..], html);
            i + e.size <= |s| && QuoteBody(s[i..], html) == e.out + QuoteBody(s[i + e.size..], html)
  {
    hide QuoteStep;
    var e := QuoteStep(s[i..], html);
    assert s[i..][e.size..] == s[i + e.size..];
  }

  lemma NoBody(html: bool)
    ensures QuoteBody([], html) == []
  {
  }

  lemma SeparatorEscape()
    ensures UnicodeEscape(0x2028) == [BACKSLASH, 0x75, 0x32, 0x30, 0x32, 0x38]
    ensures UnicodeEscape(0x2029) == [BACKSLASH, 0x75, 0x32, 0x30, 0x32, 0x39]
  {
  }

  lemma ControlEscape(c: byte)
    ensures UnicodeEscape(c as nat)
            == [BACKSLASH, 0x75, 0x30, 0x30, HexDigit(c as nat / 16), HexDigit(c as nat % 16)]
  {
    assert HexDigit(0) == 0x30;
  }

  // Containers, piece by piece

  function OpenText(kind: NodeKind): Bytes { [if kind == ObjectNode then LBRACE else LBRACKET] }

  function ShutText(kind: NodeKind): Bytes { [if kind == ObjectNode then RBRACE else RBRACKET] }

  lemma RenderOpen(kind: NodeKind)
    requires kind == ObjectNode || kind == ArrayNode
    ensures Render([OpenPiece(kind)]) == OpenText(kind)
    ensures Render([ClosePiece(kind)]) == ShutText(kind)
  {
    RenderOne(OpenPiece(kind));
    RenderOne(ClosePiece(kind));
  }

  function MemberValue(n: Node, depth: nat, o: Layout): Bytes {
    if n.children == [] then NULL_WORD else Render(PrintValue(n.children[0], depth, o))
  }

  lemma MemberPieces(n: Node, depth: nat, o: Layout)
    requires n.kind == KeyValueNode
    ensures Render(PrintValue(n, depth, o))
            == SourceString(n.rawKey, n.key, o.escapeHTML) + [COLON, SPACE] + MemberValue(n, depth, o)
  {
    hide SourceString;
    if n.children != [] {
      MemberText(n, depth, o);
    } else {
      hide Render;
      var key, none := StringPiece(n.rawKey, n.key, o), Lex(Token(NullToken, NULL_WORD));
      RenderConcat([key, COLON_PIECE, SPACE_PIECE], [none]);
      RenderThree(key, COLON_PIECE, SPACE_PIECE);
      RenderOne(none);
      Assoc(RenderPiece(key), [COLON], [SPACE]);
    }
  }

  lemma CompactPieces(n: Node, depth: nat, o: Layout)
    requires n.IsContainer() && !o.Spread(n.kind)
    ensures Render(PrintContainer(n, depth, o)) == OpenText(n.kind) + Render(PrintJoined(n.children, o)) + ShutText(n.kind)
  {
    hide Render, PrintJoined, OpenPiece, ClosePiece;
    RenderOpen(n.kind);
    RenderConcat([OpenPiece(n.kind)] + PrintJoined(n.children, o), [ClosePiece(n.kind)]);
    RenderConcat([OpenPiece(n.kind)], PrintJoined(n.children, o));
  }

  /** What is still to come behind the first i children, on one line. */
  function JoinedFrom(kids: seq<Node>, i: nat, o: Layout): Bytes
    requires i <= |kids|
  {
    if i == |kids| then [] else (if i == 0 then [] else [COMMA, SPACE]) + Render(PrintJoined(kids[i..], o))
  }

  lemma JoinedFromStart(kids: seq<Node>, o: Layout)
    ensures JoinedFrom(kids, 0, o) == Render(PrintJoined(kids, o))
  {
    hide Render, PrintValue;
    if kids == [] {
      RenderNone();
    } else {
      assert kids[0..] == kids;
      assert [] + Render(PrintJoined(kids, o)) == Render(PrintJoined(kids, o));
    }
  }

  lemma JoinedFromEnd(kids: seq<Node>, o: Layout)
    ensures JoinedFrom(kids, |kids|, o) == []
  {
  }

  lemma JoinedFromStep(kids: seq<Node>, i: nat, o: Layout)
    requires i < |kids|
    ensures JoinedFrom(kids, i, o)
            == (if i == 0 then [] else [COMMA, SPACE]) + (Render(PrintValue(kids[i], 0, o)) + JoinedFrom(kids, i + 1, o))
  {
    hide Render, PrintValue;
    var us := kids[i..];
    assert us[0] == kids[i] && us[1..] == kids[i + 1..];
    var v := PrintValue(kids[i], 0, o);
    if |us| == 1 {
      assert Render(v) + [] == Render(v);
    } else {
      RenderConcat(v + [COMMA_PIECE, SPACE_PIECE], PrintJoined(us[1..], o));
      RenderConcat(v, [COMMA_PIECE, SPACE_PIECE]);
      RenderTwo(COMMA_PIECE, SPACE_PIECE);
      assert RenderPiece(COMMA_PIECE) + RenderPiece(SPACE_PIECE) == [COMMA, SPACE];
      Assoc(Render(v), [COMMA, SPACE], Render(PrintJoined(us[1..], o)));
    }
  }

  lemma MultilinePieces(n: Node, depth: nat, o: Layout)
    requires n.IsContainer() && o.Spread(n.kind)
    ensures n.children == [] && n.notes.foot == [] ==>
              Render(PrintContainer(n, depth, o)) == OpenText(n.kind) + ShutText(n.kind)
    ensures !(n.children == [] && n.notes.foot == []) ==>
              Render(PrintContainer(n, depth, o))
              == OpenText(n.kind) + [LF] + Render(PrintLines(n.children, depth + 1, o))
                 + Render(FootBlock(n.notes.foot, depth + 1, o)) + Repeat(o.indent, depth) + ShutText(n.kind)
  {
    hide Render, PrintLines, FootBlock, OpenPiece, ClosePiece, Repeat;
    RenderOpen(n.kind);
    if n.children == [] && n.notes.foot == [] {
      RenderTwo(OpenPiece(n.kind), ClosePiece(n.kind));
      RenderOne(OpenPiece(n.kind));
      RenderOne(ClosePiece(n.kind));
    } else {
      SpreadPieces([OpenPiece(n.kind)], PrintLines(n.children, depth + 1, o), FootBlock(n.notes.foot, depth + 1, o),
                   Indent(depth, o), [ClosePiece(n.kind)]);
      assert [OpenPiece(n.kind), NEWLINE] == [OpenPiece(n.kind)] + [NEWLINE];
      assert [Indent(depth, o), ClosePiece(n.kind)] == [Indent(depth, o)] + [ClosePiece(n.kind)];
    }
  }

  lemma SpreadPieces(a: seq<Piece>, lines: seq<Piece>, foot: seq<Piece>, indent: Piece, b: seq<Piece>)
    ensures Render((a + [NEWLINE]) + lines + foot + ([indent] + b))
            == Render(a) + [LF] + Render(lines) + Render(foot) + RenderPiece(indent) + Render(b)
  {
    hide Render;
    RenderConcat((a + [NEWLINE]) + lines + foot, [indent] + b);
    RenderConcat((a + [NEWLINE]) + lines, foot);
    RenderConcat(a + [NEWLINE], lines);
    RenderConcat(a, [NEWLINE]);
    RenderConcat([indent], b);
    RenderOne(NEWLINE);
    RenderOne(indent);
    Assoc(Render(a) + [LF] + Render(lines) + Render(foot), RenderPiece(indent), Render(b));
  }

  lemma LinesStep(kids: seq<Node>, i: nat, depth: nat, o: Layout)
    requires i < |kids|
    ensures Render(PrintLines(kids[i..], depth, o))
            == Render(HeadBlock(kids[i], depth, o)) + Repeat(o.indent, depth) + Render(PrintValue(kids[i], depth, o))
               + (if i + 1 < |kids| || o.LastComma() then [COMMA] else [])
               + Render(EndOfLine(kids[i], depth, o))
               + Render(PrintLines(kids[i + 1..], depth, o))
  {
    hide Render, HeadBlock, PrintValue, EndOfLine, Repeat, PrintLine;
    var us := kids[i..];
    assert us[0] == kids[i] && us[1..] == kids[i + 1..];
    LinePiecesRender(us, depth, o);
    RenderConcat(PrintLine(us, depth, o), PrintLines(us[1..], depth, o));
  }

  lemma LinePiecesRender(kids: seq<Node>, depth: nat, o: Layout)
    requires kids != []
    ensures Render(PrintLine(kids, depth, o))
            == Render(HeadBlock(kids[0], depth, o)) + Repeat(o.indent, depth) + Render(PrintValue(kids[0], depth, o))
               + (if |kids| > 1 || o.LastComma() then [COMMA] else [])
               + Render(EndOfLine(kids[0], depth, o))
  {
    hide Render, HeadBlock, PrintValue, EndOfLine, Repeat;
    var head, v, end := HeadBlock(kids[0], depth, o), PrintValue(kids[0], depth, o), EndOfLine(kids[0], depth, o);
    var sep := Separator(|kids| > 1 || o.LastComma());
    RenderConcat(head + [Indent(depth, o)] + v + sep, end);
    RenderConcat(head + [Indent(depth, o)] + v, sep);
    RenderConcat(head + [Indent(depth, o)], v);
    RenderConcat(head, [Indent(depth, o)]);
    RenderOne(Indent(depth, o));
    RenderOne(COMMA_PIECE);
    RenderNone();
  }

  lemma NoLines(depth: nat, o: Layout)
    ensures Render(PrintLines([], depth, o)) == []
  {
  }

  lemma LineEndPieces(n: Node, depth: nat, o: Layout)
    ensures Render(EndOfLine(n, depth, o))
            == if o.NodeComments() then Render(LineNotes(n)) + [LF] + Render(CommentBlock(AfterText(n), depth, o))
               else [LF]
  {
    hide Render, LineNotes, CommentBlock, AfterText;
    RenderOne(NEWLINE);
    if o.NodeComments() {
      RenderConcat(LineNotes(n) + [NEWLINE], CommentBlock(AfterText(n), depth, o));
      RenderConcat(LineNotes(n), [NEWLINE]);
    }
  }

  lemma DocumentPieces(n: Node, o: Layout)
    ensures Encode(n, o)
            == Render(HeadBlock(n, 0, o)) + Render(PrintValue(n, 0, o))
               + if !o.NodeComments() then []
                 else Render(LineNotes(n))
                      + (if AfterText(n) != [] then [LF] + Render(CommentBlock(AfterText(n), 0, o)) else [])
  {
    hide Render, HeadBlock, PrintValue, LineNotes, CommentBlock, AfterText;
    RenderConcat(HeadBlock(n, 0, o) + PrintValue(n, 0, o), EndOfDocument(n, o));
    RenderConcat(HeadBlock(n, 0, o), PrintValue(n, 0, o));
    RenderNone();
    if o.NodeComments() {
      var block := CommentBlock(AfterText(n), 0, o);
      RenderConcat(LineNotes(n), if AfterText(n) != [] then [NEWLINE] + block else []);
      RenderConcat([NEWLINE], block);
      RenderOne(NEWLINE);
    }
  }
}
