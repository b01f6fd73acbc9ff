/**
  Strict and compact output. Strict output is accepted by a strict parser, and
  compact output is a fixed point: parsed and printed again, it is unchanged.
 */
module Compact {
  import opened Ascii
  import opened Lexer
  import opened QuotedStrings
  import opened StringLaws
  import opened Tree
  import opened Syntax
  import opened Transparency
  import opened WellFormed
  import opened Printer
  import opened Rendering
  import opened PrintedTokens
  import opened PrintedValues
  import opened RoundTrip
  import opened Sizes

  /** All on one line. */
  predicate IsCompact(o: Layout) { !o.Multiline() && !o.arrayMultiline }

  predicate WritesNoComments(o: Layout) { o.strictJSONOutput || IsCompact(o) }

  /** No comments, and in compact output no line breaks either. */
  predicate Bare(ps: seq<Piece>, o: Layout) {
    forall i :: 0 <= i < |ps| && ps[i].Lex? ==> !IsComment(ps[i].tok) && (IsCompact(o) ==> ps[i].tok.kind != Newline)
  }

  lemma {:induction false} ValueIsBare(n: Node, depth: nat, o: Layout)
    requires WritesNoComments(o)
    ensures Bare(PrintValue(n, depth, o), o)
    decreases n, 2
  {
    hide SourceString, PrintContainer;
    if n.IsContainer() {
      ContainerIsBare(n, depth, o);
    } else if n.kind == KeyValueNode && n.children != [] {
      ValueIsBare(n.children[0], depth, o);
    }
  }

  lemma {:induction false} ContainerIsBare(n: Node, depth: nat, o: Layout)
    requires WritesNoComments(o) && n.IsContainer()
    ensures Bare(PrintContainer(n, depth, o), o)
    decreases n, 1
  {
    hide PrintJoined, PrintLines;
    if o.Spread(n.kind) {
      assert FootBlock(n.notes.foot, depth + 1, o) == [];
      LinesAreBare(n.children, depth + 1, o);
    } else {
      JoinedIsBare(n.children, o);
    }
  }

  lemma {:induction false} JoinedIsBare(kids: seq<Node>, o: Layout)
    requires WritesNoComments(o)
    ensures Bare(PrintJoined(kids, o), o)
    decreases kids, 0
  {
    hide PrintValue;
    if kids != [] {
      ValueIsBare(kids[0], 0, o);
      JoinedIsBare(kids[1..], o);
    }
  }

  lemma {:induction false} LinesAreBare(kids: seq<Node>, depth: nat, o: Layout)
    requires WritesNoComments(o) && !IsCompact(o)
    ensures Bare(PrintLines(kids, depth, o), o)
    decreases kids, 1
  {
    hide PrintLine, Bare;
    if kids == [] {
      NoneIsBare(o);
    } else {
      LineIsBare(kids, depth, o);
      LinesAreBare(kids[1..], depth, o);
      BareConcat(PrintLine(kids, depth, o), PrintLines(kids[1..], depth, o), o);
    }
  }

  lemma NoneIsBare(o: Layout)
    ensures Bare([], o)
  {
  }

  lemma BareConcat(a: seq<Piece>, b: seq<Piece>, o: Layout)
    requires Bare(a, o) && Bare(b, o)
    ensures Bare(a + b, o)
  {
  }

  lemma {:induction false} LineIsBare(kids: seq<Node>, depth: nat, o: Layout)
    requires kids != [] && WritesNoComments(o) && !IsCompact(o)
    ensures Bare(PrintLine(kids, depth, o), o)
    decreases kids, 0
  {
    hide PrintValue;
    ValueIsBare(kids[0], depth, o);
    assert HeadBlock(kids[0], depth, o) == [] && EndOfLine(kids[0], depth, o) == [NEWLINE];
  }

  lemma {:induction false} BareTokens(ps: seq<Piece>, o: Layout)
    requires Bare(ps, o)
    ensures NoComments(Toks(ps))
    ensures IsCompact(o) ==> Plain(Toks(ps)) == Toks(ps)
  {
    if ps != [] {
      BareTokens(ps[1..], o);
      assert Toks(ps) == PieceToks(ps[0]) + Toks(ps[1..]);
      if ps[0].Lex? {
        PlainCons(ps[0].tok, Toks(ps[1..]));
      } else {
        assert Toks(ps) == Toks(ps[1..]);
      }
    }
  }

  lemma DocumentIsBare(n: Node, o: Layout)
    requires WritesNoComments(o)
    ensures Bare(PrintDocument(n, o), o)
  {
    hide PrintValue;
    ValueIsBare(n, 0, o);
    assert HeadBlock(n, 0, o) == [] && EndOfDocument(n, o) == [];
  }

  /** Output without comments is the same to a strict scanner. */
  lemma BareScan(n: Node, o: Layout)
    requires WfNode(n) && BlankIndent(o) && WritesNoComments(o)
    ensures Tokens(Encode(n, o), true) == Tokens(Encode(n, o), false) == Toks(PrintDocument(n, o))
    ensures Plain(Toks(PrintDocument(n, o))) == Core(n, o)
    ensures IsCompact(o) ==> Toks(PrintDocument(n, o)) == Core(n, o)
  {
    hide Toks, PrintDocument, Encode, Core, Bare, WfNode, NoComments, Tokens;
    EncodedTokens(n, o);
    DocumentIsBare(n, o);
    BareTokens(PrintDocument(n, o), o);
    StrictScan(Encode(n, o));
  }

  /** Strict output is RFC 8259 JSON: strict parsers accept it too, under exactly
      the limits that admit the tree, and it means what the tree means. */
  lemma StrictOutputIsStrict(n: Node, o: Layout, p: Options)
    requires WfNode(n) && n.kind != KeyValueNode && BlankIndent(o) && WritesNoComments(o)
    ensures ReadsAs(Parse(Encode(n, o), p), n, Admits(p, n))
  {
    hide Core, WfNode, ParseDocument, Encode, Reread, ValueOf, Toks, Tokens, PrintDocument, Admits;
    BareScan(n, o);
    DocumentTransparent(Toks(PrintDocument(n, o)), p);
    CoreReadsBack(n, o, p);
    RereadMeansTheSame(n, o);
  }

  // Printed again

  lemma {:induction false} PrintsTheSame(n: Node, depth: nat, o: Layout)
    requires WfNode(n) && IsCompact(o)
    ensures PrintValue(Reread(n, o), depth, o) == PrintValue(n, depth, o)
    decreases n, 1
  {
    hide SourceString, Unquote, IsStringToken, RawStringOk, WfNotes, NumberLen;
    var m := Reread(n, o);
    if n.kind == StringNode {
      SourceStringIsFixed(n.rawValue, n.value, o.escapeHTML);
    } else if n.kind == KeyValueNode {
      SourceStringIsFixed(n.rawKey, n.key, o.escapeHTML);
      PrintsTheSame(n.children[0], depth, o);
    } else if n.IsContainer() {
      JoinedTheSame(n.children, o);
    }
  }

  lemma SourceStringIsFixed(raw: Bytes, value: Bytes, html: bool)
    requires IsStringToken(raw) && Unquote(raw) == Some(value)
    ensures SourceString(SourceString(raw, value, html), value, html) == SourceString(raw, value, html)
  {
    SourceStringKeepsText(raw, html);
  }

  lemma {:induction false} JoinedTheSame(kids: seq<Node>, o: Layout)
    requires (forall i :: 0 <= i < |kids| ==> WfNode(kids[i])) && IsCompact(o)
    ensures PrintJoined(RereadKids(kids, o), o) == PrintJoined(kids, o)
    decreases kids, 0
  {
    hide WfNode, PrintValue, Reread, RereadKids;
    if kids == [] {
      RereadNone(o);
    } else {
      RereadSplit(kids, o);
      PrintsTheSame(kids[0], 0, o);
      JoinedTheSame(kids[1..], o);
      var r := RereadKids(kids[1..], o);
      var all := RereadKids(kids, o);
      assert all[0] == Reread(kids[0], o) && all[1..] == r;
    }
  }

  /** Compact output is a fixed point: any parser whose limits admit the tree
      reads it back to a tree that prints to the same bytes. */
  lemma CompactIsFixedPoint(n: Node, o: Layout, p: Options)
    requires WfNode(n) && n.kind != KeyValueNode && IsCompact(o)
    ensures var r := Parse(Encode(n, o), p);
            ReadsAs(r, n, Admits(p, n)) && (r.Ok? ==> Encode(r.val, o) == Encode(n, o))
  {
    hide Core, WfNode, ParseDocument, Reread, ValueOf, Toks, Tokens, PrintValue, Render, Admits;
    BareScan(n, o);
    CoreReadsBack(n, o, p);
    RereadMeansTheSame(n, o);
    PrintsTheSame(n, 0, o);
    assert HeadBlock(n, 0, o) == HeadBlock(Reread(n, o), 0, o) == [];
  }
}
