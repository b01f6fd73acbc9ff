/**
  How the output is laid out, read from its bytes: every token with the blanks in
  front of it. The rules are in `Step`; the output of the printer keeps them.
 */
module OutputLayout {
  import opened Ascii
  import opened Lexer
  import opened QuotedStrings
  import opened LexerLaws
  import opened Tree
  import opened Syntax
  import opened WellFormed
  import opened Printer
  import opened Rendering
  import opened PrintedTokens
  import opened PrintedValues

  // Tokens and blanks

  datatype Spaced = Spaced(lead: Bytes, tok: Token)

  function Spacing(s: Bytes): seq<Spaced>
    decreases |s|
  {
    var e := Next(s, false);
    if e.tok == EOF || e.tok == ERROR then [] else [Spaced(s[..e.lead], e.tok)] + Spacing(s[e.size..])
  }

  // The rules

  /** The last token that is no comment and no line break: a value that is
      complete, or what comes before one. */
  datatype Behind = Nothing | Opened | Name | Colon | Comma | Whole

  /** Right behind that token, behind a comment, or on a new line. */
  datatype Stand = Right | Remark | Fresh

  datatype Spot = Spot(open: seq<Kind>, behind: Behind, at: Stand)
  {
    predicate In(k: Kind) { open != [] && open[|open| - 1] == k }
  }

  const TOP := Spot([], Nothing, Right)

  /** What is inside is written on lines of its own. */
  predicate OnLines(p: Spot, o: Layout) { p.open == [] || o.indent != [] || (p.In(ArrayStart) && o.arrayMultiline) }

  /** lead is the indent, n times over. */
  predicate IsMargin(lead: Bytes, indent: Bytes, n: int) {
    |lead| == n * |indent|
    && (forall i :: 0 <= i < |lead| && i < |indent| ==> lead[i] == indent[i])
    && forall i, j :: 0 <= i < |lead| && 0 <= j < |lead| && j == i + |indent| ==> lead[j] == lead[i]
  }

  /** On a new line the indent, once for each open bracket but the one that is
      closed; a blank behind a colon and a comma and in front of a comment. */
  predicate IsLead(p: Spot, x: Spaced, o: Layout) {
    if p.at == Fresh then IsMargin(x.lead, o.indent, |p.open| - if IsClose(x.tok.kind) then 1 else 0)
    else x.lead == if p.behind != Nothing && (IsComment(x.tok) || p.behind in {Colon, Comma}) then [SPACE] else []
  }

  predicate IsClose(k: Kind) { k == ObjectEnd || k == ArrayEnd }

  /** Where the children of a container begin, and its closing bracket. */
  function Start(p: Spot, o: Layout): Stand { if OnLines(p, o) then Fresh else Right }

  predicate MayName(p: Spot, o: Layout) { p.In(ObjectStart) && p.behind in {Opened, Comma} && p.at == Start(p, o) }

  predicate MayBegin(p: Spot, o: Layout) {
    (p.behind == Colon && p.at == Right)
    || (p.open == [] && p.behind == Nothing && p.at != Remark)
    || (p.In(ArrayStart) && p.behind in {Opened, Comma} && p.at == Start(p, o))
  }

  /** An empty container is closed at once. Behind a last child a comma stands
      exactly where the options ask for it. */
  predicate MayClose(p: Spot, k: Kind, o: Layout) {
    && p.In(if k == ObjectEnd then ObjectStart else ArrayStart)
    && ((p.behind == Opened && (p.at == Right || (p.at == Fresh && OnLines(p, o))))
        || (p.behind in {Comma, Whole} && p.at == Start(p, o)
            && (p.behind == Comma <==> OnLines(p, o) && o.trailingComma && !o.strictJSONOutput)))
  }

  /** A line ends behind a comment, an opening bracket, a comma, or a value. */
  predicate MayBreak(p: Spot, o: Layout) {
    p.at == Remark || (p.at == Right && p.behind in {Opened, Comma, Whole} && OnLines(p, o))
  }

  predicate MayRemark(p: Spot, o: Layout) {
    !o.strictJSONOutput && OnLines(p, o) && (p.at != Right || p.behind in {Nothing, Comma, Whole})
  }

  /** Where x leads from p, if it may follow. */
  function Step(p: Spot, x: Spaced, o: Layout): Option<Spot> {
    var k := x.tok.kind;
    if k == Newline then (if x.lead == [] && MayBreak(p, o) then Some(p.(at := Fresh)) else None)
    else if !IsLead(p, x, o) then None
    else if IsComment(x.tok) then (if MayRemark(p, o) then Some(p.(at := Remark)) else None)
    else if k == ValueSeparator then
      (if p.behind == Whole && p.at == Right && p.open != [] then Some(p.(behind := Comma)) else None)
    else if k == NameSeparator then (if p.behind == Name && p.at == Right then Some(p.(behind := Colon)) else None)
    else if IsClose(k) then (if MayClose(p, k, o) then Some(Spot(p.open[..|p.open| - 1], Whole, Right)) else None)
    else if k == StringToken && MayName(p, o) then Some(Spot(p.open, Name, Right))
    else if !MayBegin(p, o) then None
    else if IsOpen(k) then Some(Spot(p.open + [k], Opened, Right))
    else Some(Spot(p.open, Whole, Right))
  }

  function Walk(p: Spot, xs: seq<Spaced>, o: Layout): Option<Spot>
    decreases xs
  {
    if xs == [] then Some(p)
    else
      match Step(p, xs[0], o)
      case None => None
      case Some(q) => Walk(q, xs[1..], o)
  }

  /** Every token stands where it may, and a whole value is there. */
  predicate IsLaidOut(s: Bytes, o: Layout) {
    var end := Walk(TOP, Spacing(s), o);
    end.Some? && end.value.open == [] && end.value.behind == Whole
  }

  // The same on pieces

  /** A spot, and the blanks written since the last token. */
  datatype Draft = Draft(p: Spot, lead: Bytes)

  function Pass(d: Draft, ps: seq<Piece>, o: Layout): Option<Draft>
    decreases ps
  {
    if ps == [] then Some(d)
    else
      match ps[0]
      case Gap(t) => Pass(d.(lead := d.lead + t), ps[1..], o)
      case Lex(t) =>
        match Step(d.p, Spaced(d.lead, t), o)
        case None => None
        case Some(q) => Pass(Draft(q, []), ps[1..], o)
  }

  lemma {:induction false} PassConcat(d: Draft, a: seq<Piece>, b: seq<Piece>, o: Layout)
    ensures Pass(d, a + b, o) == match Pass(d, a, o) case None => None case Some(e) => Pass(e, b, o)
    decreases |a|
  {
    hide Step;
    if a == [] {
      assert a + b == b;
    } else {
      ConcatParts(a, b);
      match a[0] {
        case Gap(t) => PassConcat(d.(lead := d.lead + t), a[1..], b, o);
        case Lex(t) =>
          if Step(d.p, Spaced(d.lead, t), o).Some? {
            PassConcat(Draft(Step(d.p, Spaced(d.lead, t), o).value, []), a[1..], b, o);
          }
      }
    }
  }

  lemma NextBehindBlanks(gap: Bytes, u: Bytes)
    requires AllBlank(gap)
    ensures var e := Next(u, false); Next(gap + u, false) == Extent(e.tok, |gap| + e.lead, |gap| + e.size)
  {
    hide ScanToken, Blanks, Tokens;
    var s := gap + u;
    BlanksSkipped(gap, u, false);
    assert s[|gap| + Blanks(u)..] == u[Blanks(u)..];
  }

  lemma NextRendered(t: Token, rest: Bytes)
    requires Renderable(t) && EndsBefore(t.kind, FirstByte(rest, None))
    ensures Next(RenderToken(t) + rest, false) == Extent(t, 0, |RenderToken(t)|) && t != EOF && t != ERROR
  {
    hide ScanToken, RenderToken;
    var r := RenderToken(t);
    var u := r + rest;
    NewlineIsLf(t);
    ScanTokenLocal(r, false, rest);
    assert r[..|r|] == r;
    assert u[0] == r[0] && u[0..] == u;
    NoBlanks(u);
    NotEof(r);
  }

  /** Blanks and a token, scanned. */
  lemma TokenSpaced(gap: Bytes, t: Token, rest: Bytes)
    requires AllBlank(gap) && Renderable(t) && EndsBefore(t.kind, FirstByte(rest, None))
    ensures Spacing(gap + (RenderToken(t) + rest)) == [Spaced(gap, t)] + Spacing(rest)
  {
    hide Next, RenderToken, Spacing, EndsBefore, Renderable, AllBlank;
    var u := RenderToken(t) + rest;
    var s := gap + u;
    NextRendered(t, rest);
    NextBehindBlanks(gap, u);
    SpacingUnfolds(s);
    assert s[..|gap|] == gap && s[|gap| + |RenderToken(t)|..] == rest;
  }

  lemma NoBlanks(u: Bytes)
    requires u != [] && !IsBlank(u[0])
    ensures Blanks(u) == 0
  {
  }

  lemma SpacingUnfolds(s: Bytes)
    requires Next(s, false).tok != EOF && Next(s, false).tok != ERROR
    ensures var e := Next(s, false); Spacing(s) == [Spaced(s[..e.lead], e.tok)] + Spacing(s[e.size..])
  {
    hide Next;
  }

  /** What passes as pieces is laid out as bytes. */
  lemma {:induction false} PassIsWalk(d: Draft, ps: seq<Piece>, o: Layout)
    requires WellSpaced(ps, None) && AllBlank(d.lead) && Pass(d, ps, o).Some?
    ensures Walk(d.p, Spacing(d.lead + Render(ps)), o) == Some(Pass(d, ps, o).value.p)
    decreases |ps|
  {
    hide Renderable, EndsBefore, Step, Spacing, RenderToken;
    if ps == [] {
      BlanksAlone(d.lead);
      assert d.lead + [] == d.lead;
    } else {
      var tail := ps[1..];
      match ps[0] {
        case Gap(t) =>
          PassIsWalk(d.(lead := d.lead + t), tail, o);
          assert d.lead + Render(ps) == d.lead + t + Render(tail);
        case Lex(t) =>
          var q := Step(d.p, Spaced(d.lead, t), o).value;
          PassIsWalk(Draft(q, []), tail, o);
          assert [] + Render(tail) == Render(tail);
          FirstRendered(tail);
          TokenSpaced(d.lead, t, Render(tail));
          assert ([Spaced(d.lead, t)] + Spacing(Render(tail)))[1..] == Spacing(Render(tail));
      }
    }
  }

  lemma {:induction false} FirstRendered(ps: seq<Piece>)
    ensures FirstByte(Render(ps), None) == First(ps, None)
  {
    if ps != [] {
      FirstRendered(ps[1..]);
      FirstOfConcat(RenderPiece(ps[0]), Render(ps[1..]));
    }
  }

  lemma BlanksAlone(s: Bytes)
    requires AllBlank(s)
    ensures Spacing(s) == []
  {
    hide Blanks;
    BlanksSkipped(s, [], false);
    assert s + [] == s;
    assert Blanks([]) == 0 by { NoneIsBlank(); }
  }

  lemma NoneIsBlank()
    ensures Blanks([]) == 0
  {
  }

  // Margins

  lemma {:induction false} RepeatSize(s: Bytes, n: nat)
    ensures |Repeat(s, n)| == n * |s|
  {
    if n > 0 {
      RepeatSize(s, n - 1);
    }
  }

  lemma {:induction false} RepeatAt(s: Bytes, n: nat, i: nat)
    requires i < |Repeat(s, n)|
    ensures Repeat(s, n)[i] == if i < |s| then s[i] else Repeat(s, n)[i - |s|]
    decreases n
  {
    if i >= |s| + |s| {
      RepeatAt(s, n - 1, i - |s|);
    }
  }

  lemma RepeatIsMargin(s: Bytes, n: nat)
    ensures IsMargin(Repeat(s, n), s, n)
  {
    hide Repeat;
    var t := Repeat(s, n);
    RepeatSize(s, n);
    forall i | 0 <= i < |t| && i < |s|
      ensures t[i] == s[i]
    {
      RepeatAt(s, n, i);
    }
    forall i, j | 0 <= i < |t| && 0 <= j < |t| && j == i + |s|
      ensures t[j] == t[i]
    {
      RepeatAt(s, n, j);
    }
  }

  /** The printer's depth is the number of open brackets, where that matters. */
  predicate Aligned(depth: nat, p: Spot, o: Layout) { o.indent == [] || depth == |p.open| }

  /** On a new line the margin has been written, and elsewhere what belongs in
      front of a value. */
  predicate Led(d: Draft, o: Layout) {
    if d.p.at == Fresh then IsMargin(d.lead, o.indent, |d.p.open|)
    else d.lead == if d.p.behind in {Colon, Comma} then [SPACE] else []
  }

  predicate MayStart(n: Node, p: Spot, o: Layout) { if n.kind == KeyValueNode then MayName(p, o) else MayBegin(p, o) }

  function Ended(p: Spot): Draft { Draft(Spot(p.open, Whole, Right), []) }

  lemma PassOne(d: Draft, t: Token, o: Layout)
    ensures Pass(d, [Lex(t)], o)
            == match Step(d.p, Spaced(d.lead, t), o) case None => None case Some(q) => Some(Draft(q, []))
    ensures Pass(d, [], o) == Some(d)
  {
    hide Step;
    assert [Lex(t)][1..] == [];
  }

  lemma PassGap(d: Draft, s: Bytes, o: Layout)
    ensures Pass(d, [Gap(s)], o) == Some(d.(lead := d.lead + s))
  {
    hide Step;
    assert [Gap(s)][1..] == [];
  }

  /** A scalar. */
  lemma ScalarPasses(d: Draft, t: Token, o: Layout)
    requires t.kind in {StringToken, NumberToken, TrueToken, FalseToken, NullToken} && MayBegin(d.p, o) && Led(d, o)
    ensures Pass(d, [Lex(t)], o) == Some(Ended(d.p))
  {
    PassOne(d, t, o);
  }

  lemma {:induction false} ValuePasses(n: Node, depth: nat, d: Draft, o: Layout)
    requires WfNode(n) && MayStart(n, d.p, o) && Led(d, o) && Aligned(depth, d.p, o)
    ensures Pass(d, PrintValue(n, depth, o), o) == Some(Ended(d.p))
    decreases n, 2
  {
    hide WfNotes, StringPiece, PrintContainer, ScalarText, Pass, MayBegin, MayName, Led, Aligned;
    match n.kind {
      case ObjectNode => ContainerPasses(n, depth, d, o);
      case ArrayNode => ContainerPasses(n, depth, d, o);
      case KeyValueNode => MemberPasses(n, depth, d, o);
      case StringNode =>
        StringIs(n.rawValue, n.value, o);
        ScalarPasses(d, StringTok(n.rawValue, n.value, o), o);
      case _ => ScalarPasses(d, Token(ScalarKind(n), ScalarText(n)), o);
    }
  }

  lemma {:induction false} MemberPasses(n: Node, depth: nat, d: Draft, o: Layout)
    requires WfNode(n) && n.kind == KeyValueNode && MayName(d.p, o) && Led(d, o) && Aligned(depth, d.p, o)
    ensures Pass(d, PrintValue(n, depth, o), o) == Some(Ended(d.p))
    decreases n, 1
  {
    hide WfNotes, Pass, PrintValue, Unquote, IsStringToken;
    var v := n.children[0];
    var key := StringTok(n.rawKey, n.key, o);
    var d1 := Draft(Spot(d.p.open, Name, Right), []);
    var d2 := Draft(Spot(d.p.open, Colon, Right), []);
    assert WfNode(v);
    KeyPasses(d, key, o);
    ColonPasses(d1, o);
    PassConcat(d, [Lex(key)], [COLON_PIECE], o);
    PassGap(d2, [SPACE], o);
    PassConcat(d, [Lex(key)] + [COLON_PIECE], [SPACE_PIECE], o);
    ValuePasses(v, depth, d2.(lead := [] + [SPACE]), o);
    PassConcat(d, [Lex(key)] + [COLON_PIECE] + [SPACE_PIECE], PrintValue(v, depth, o), o);
    MemberPieces(n, depth, o);
  }

  lemma StringIs(raw: Bytes, value: Bytes, o: Layout)
    ensures StringPiece(raw, value, o) == Lex(StringTok(raw, value, o)) && StringTok(raw, value, o).kind == StringToken
  {
    hide SourceString;
  }

  lemma MemberPieces(n: Node, depth: nat, o: Layout)
    requires n.kind == KeyValueNode && n.children != []
    ensures PrintValue(n, depth, o)
            == [Lex(StringTok(n.rawKey, n.key, o))] + [COLON_PIECE] + [SPACE_PIECE] + PrintValue(n.children[0], depth, o)
  {
    hide StringPiece, StringTok;
    StringIs(n.rawKey, n.key, o);
  }

  lemma KeyPasses(d: Draft, t: Token, o: Layout)
    requires t.kind == StringToken && MayName(d.p, o) && Led(d, o)
    ensures Pass(d, [Lex(t)], o) == Some(Draft(Spot(d.p.open, Name, Right), []))
  {
    PassOne(d, t, o);
  }

  lemma ColonPasses(d: Draft, o: Layout)
    requires d.p.behind == Name && d.p.at == Right && d.lead == []
    ensures Pass(d, [COLON_PIECE], o) == Some(Draft(Spot(d.p.open, Colon, Right), []))
  {
    PassOne(d, COLON_PIECE.tok, o);
  }

  lemma OpenPasses(n: Node, d: Draft, o: Layout)
    requires n.IsContainer() && MayBegin(d.p, o) && Led(d, o)
    ensures Pass(d, [OpenPiece(n.kind)], o) == Some(Draft(Spot(d.p.open + [OpenPiece(n.kind).tok.kind], Opened, Right), []))
  {
    PassOne(d, OpenPiece(n.kind).tok, o);
  }

  lemma ClosePasses(n: Node, d: Draft, o: Layout)
    requires n.IsContainer() && MayClose(d.p, ClosePiece(n.kind).tok.kind, o)
    requires if d.p.at == Fresh then IsMargin(d.lead, o.indent, |d.p.open| - 1) else d.lead == []
    requires d.p.behind == Comma ==> d.p.at == Fresh
    ensures Pass(d, [ClosePiece(n.kind)], o) == Some(Draft(Spot(d.p.open[..|d.p.open| - 1], Whole, Right), []))
  {
    PassOne(d, ClosePiece(n.kind).tok, o);
  }

  lemma BreakPasses(d: Draft, o: Layout)
    requires MayBreak(d.p, o) && d.lead == []
    ensures Pass(d, [NEWLINE], o) == Some(Draft(d.p.(at := Fresh), []))
  {
    PassOne(d, NEWLINE.tok, o);
  }

  /** Inside of n. */
  function Inside(n: Node, p: Spot): Spot { Spot(p.open + [OpenPiece(n.kind).tok.kind], Opened, Right) }

  lemma {:induction false} ContainerPasses(n: Node, depth: nat, d: Draft, o: Layout)
    requires WfNode(n) && n.IsContainer() && MayBegin(d.p, o) && Led(d, o) && Aligned(depth, d.p, o)
    ensures Pass(d, PrintContainer(n, depth, o), o) == Some(Ended(d.p))
    decreases n, 1
  {
    hide WfNotes, Pass, PrintJoined, PrintLines, FootBlock, MayBegin;
    var open, close := [OpenPiece(n.kind)], [ClosePiece(n.kind)];
    var p1 := Inside(n, d.p);
    var d1 := Draft(p1, []);
    OpenPasses(n, d, o);
    InsideIs(n, d.p, o);
    assert p1.open[..|p1.open| - 1] == d.p.open;
    if !o.Spread(n.kind) {
      JoinedPass(n.children, n.kind == ObjectNode, d1, o);
      PassConcat(d, open, PrintJoined(n.children, o), o);
      PassConcat(d, open + PrintJoined(n.children, o), close, o);
      ClosePasses(n, if n.children == [] then d1 else Ended(p1), o);
    } else if n.children == [] && n.notes.foot == [] {
      PassConcat(d, open, close, o);
      ClosePasses(n, d1, o);
      assert [OpenPiece(n.kind), ClosePiece(n.kind)] == open + close;
    } else {
      SpreadPasses(n, depth, d, o);
    }
  }

  lemma InsideIs(n: Node, p: Spot, o: Layout)
    requires n.IsContainer()
    ensures var q := Inside(n, p);
            && q.In(OpenPiece(n.kind).tok.kind) && (OnLines(q, o) <==> o.Spread(n.kind)) && |q.open| == |p.open| + 1
            && (q.In(ObjectStart) <==> n.kind == ObjectNode) && (q.In(ArrayStart) <==> n.kind == ArrayNode)
  {
  }

  lemma {:induction false} JoinedPass(kids: seq<Node>, obj: bool, d: Draft, o: Layout)
    requires forall i :: 0 <= i < |kids| ==> WfNode(kids[i]) && (kids[i].kind == KeyValueNode <==> obj)
    requires d.p.behind in {Opened, Comma} && d.p.at == Right && Led(d, o) && !OnLines(d.p, o)
    requires if obj then d.p.In(ObjectStart) else d.p.In(ArrayStart)
    ensures Pass(d, PrintJoined(kids, o), o) == Some(if kids == [] then d else Ended(d.p))
    decreases kids, 0
  {
    hide WfNode, Pass, PrintValue, PrintJoined;
    PassOne(d, COMMA_PIECE.tok, o);
    JoinedPieces(kids, o);
    if kids != [] {
      ValuePasses(kids[0], 0, d, o);
      if |kids| > 1 {
        var rest := PrintJoined(kids[1..], o);
        var val := PrintValue(kids[0], 0, o);
        var e := Draft(Spot(d.p.open, Comma, Right), []);
        CommaPasses(Ended(d.p), o);
        PassConcat(d, val, [COMMA_PIECE], o);
        PassGap(e, [SPACE], o);
        PassConcat(d, val + [COMMA_PIECE], [SPACE_PIECE], o);
        JoinedPass(kids[1..], obj, e.(lead := [] + [SPACE]), o);
        PassConcat(d, val + [COMMA_PIECE] + [SPACE_PIECE], rest, o);
        JoinedPieces(kids, o);
      }
    }
  }

  lemma JoinedPieces(kids: seq<Node>, o: Layout)
    ensures PrintJoined([], o) == []
    ensures |kids| == 1 ==> PrintJoined(kids, o) == PrintValue(kids[0], 0, o)
    ensures |kids| > 1 ==>
              PrintJoined(kids, o) == PrintValue(kids[0], 0, o) + [COMMA_PIECE] + [SPACE_PIECE] + PrintJoined(kids[1..], o)
  {
    hide PrintValue;
  }

  lemma CommaPasses(d: Draft, o: Layout)
    requires d.p.behind == Whole && d.p.at == Right && d.lead == [] && d.p.open != []
    ensures Pass(d, [COMMA_PIECE], o) == Some(Draft(Spot(d.p.open, Comma, Right), []))
  {
    PassOne(d, COMMA_PIECE.tok, o);
  }

  // Comments

  lemma RemarkPasses(d: Draft, t: Token, o: Layout)
    requires IsComment(t) && MayRemark(d.p, o) && IsLead(d.p, Spaced(d.lead, t), o)
    ensures Pass(d, [Lex(t)], o) == Some(Draft(d.p.(at := Remark), []))
  {
    PassOne(d, t, o);
  }

  lemma MarginIs(depth: nat, p: Spot, o: Layout)
    requires Aligned(depth, p, o)
    ensures IsMargin(Repeat(o.indent, depth), o.indent, |p.open|)
    ensures p.open == [] ==> Repeat(o.indent, depth) == []
  {
    RepeatIsMargin(o.indent, depth);
  }

  /** Comments may stand here on lines of their own. */
  predicate MayStack(d: Draft, o: Layout) {
    && d.lead == [] && !o.strictJSONOutput && OnLines(d.p, o)
    && (d.p.at == Fresh || (d.p.behind == Nothing && d.p.open == [] && d.p.at == Right))
  }

  lemma CommentLinePasses(line: Bytes, depth: nat, d: Draft, o: Layout)
    requires MayStack(d, o) && Aligned(depth, d.p, o)
    ensures Pass(d, CommentLine(line, depth, o), o) == Some(Draft(d.p.(at := Fresh), []))
  {
    hide Pass, LineText, Repeat;
    var c := Lex(Token(LineComment, LineText(line)));
    var margin := Repeat(o.indent, depth);
    var d1 := d.(lead := [] + margin);
    MarginIs(depth, d.p, o);
    assert [] + margin == margin;
    PassGap(d, margin, o);
    RemarkPasses(d1, c.tok, o);
    PassConcat(d, [Indent(depth, o)], [c], o);
    BreakPasses(Draft(d.p.(at := Remark), []), o);
    PassConcat(d, [Indent(depth, o)] + [c], [NEWLINE], o);
    assert CommentLine(line, depth, o) == [Indent(depth, o)] + [c] + [NEWLINE];
  }

  lemma {:induction false} CommentLinesPass(ls: seq<Bytes>, depth: nat, d: Draft, o: Layout)
    requires MayStack(d, o) && Aligned(depth, d.p, o)
    ensures Pass(d, CommentLines(ls, depth, o), o) == Some(if ls == [] then d else Draft(d.p.(at := Fresh), []))
    decreases |ls|
  {
    hide Pass, CommentLine;
    PassOne(d, NEWLINE.tok, o);
    if ls != [] {
      CommentLinePasses(ls[0], depth, d, o);
      CommentLinesPass(ls[1..], depth, Draft(d.p.(at := Fresh), []), o);
      PassConcat(d, CommentLine(ls[0], depth, o), CommentLines(ls[1..], depth, o), o);
    }
  }

  /** A block of comments, which may be empty. */
  lemma BlockPasses(text: Bytes, depth: nat, d: Draft, o: Layout) returns (q: Spot)
    requires MayStack(d, o) && Aligned(depth, d.p, o)
    ensures Pass(d, CommentBlock(text, depth, o), o) == Some(Draft(q, []))
    ensures q == d.p || q == d.p.(at := Fresh)
  {
    hide Pass, CommentLines;
    var ls := DropBlankLines(SplitLines(NormalizeBreaks(text)));
    CommentLinesPass(ls, depth, d, o);
    q := if ls == [] then d.p else d.p.(at := Fresh);
  }

  /** The comments at the end of a line may stand here. */
  predicate MayTrail(d: Draft, o: Layout) {
    && d.lead == [] && !o.strictJSONOutput && OnLines(d.p, o) && d.p.behind in {Comma, Whole} && d.p.at in {Right, Remark}
  }

  lemma NotePasses(t: Token, d: Draft, o: Layout)
    requires IsComment(t) && MayTrail(d, o)
    ensures Pass(d, [SPACE_PIECE, Lex(t)], o) == Some(Draft(d.p.(at := Remark), []))
  {
    hide Pass;
    PassGap(d, [SPACE], o);
    assert [] + [SPACE] == [SPACE];
    RemarkPasses(d.(lead := [] + [SPACE]), t, o);
    PassConcat(d, [SPACE_PIECE], [Lex(t)], o);
    assert [SPACE_PIECE, Lex(t)] == [SPACE_PIECE] + [Lex(t)];
  }

  lemma InlinePasses(text: Bytes, d: Draft, o: Layout)
    requires MayTrail(d, o)
    ensures Pass(d, InlineNote(text), o) == Some(Draft(d.p.(at := Remark), []))
    ensures Pass(d, InlineBlock(text), o) == Some(Draft(d.p.(at := Remark), []))
  {
    hide Pass, LineText, BlockText;
    NotePasses(Token(LineComment, LineText(text)), d, o);
    NotePasses(Token(BlockComment, BlockText(text)), d, o);
  }

  lemma LineNotesPass(n: Node, d: Draft, o: Layout) returns (q: Spot)
    requires MayTrail(d, o)
    ensures Pass(d, LineNotes(n), o) == Some(Draft(q, [])) && (q == d.p || q == d.p.(at := Remark))
  {
    hide Pass, InlineNote, InlineBlock;
    PassOne(d, NEWLINE.tok, o);
    InlinePasses(n.notes.line, d, o);
    InlinePasses(InnerLine(n), d, o);
    q := if InnerLine(n) == [] && n.notes.line == [] then d.p else d.p.(at := Remark);
    if InnerLine(n) != [] && n.notes.line != [] {
      InlinePasses(n.notes.line, Draft(d.p.(at := Remark), []), o);
      PassConcat(d, InlineBlock(InnerLine(n)), InlineNote(n.notes.line), o);
    }
  }

  lemma EndPasses(n: Node, depth: nat, d: Draft, o: Layout)
    requires d.lead == [] && OnLines(d.p, o) && d.p.behind in {Comma, Whole} && d.p.at == Right && Aligned(depth, d.p, o)
    ensures Pass(d, EndOfLine(n, depth, o), o) == Some(Draft(d.p.(at := Fresh), []))
  {
    hide Pass, LineNotes, CommentBlock, AfterText;
    if o.NodeComments() {
      var q := LineNotesPass(n, d, o);
      BreakPasses(Draft(q, []), o);
      PassConcat(d, LineNotes(n), [NEWLINE], o);
      var r := BlockPasses(AfterText(n), depth, Draft(q.(at := Fresh), []), o);
      PassConcat(d, LineNotes(n) + [NEWLINE], CommentBlock(AfterText(n), depth, o), o);
    } else {
      BreakPasses(d, o);
    }
  }

  lemma HeadPasses(n: Node, depth: nat, d: Draft, o: Layout) returns (q: Spot)
    requires d.lead == [] && OnLines(d.p, o) && Aligned(depth, d.p, o)
    requires d.p.at == Fresh || (d.p.behind == Nothing && d.p.open == [] && d.p.at == Right)
    ensures Pass(d, HeadBlock(n, depth, o), o) == Some(Draft(q, [])) && (q == d.p || q == d.p.(at := Fresh))
  {
    hide Pass, CommentBlock, HeadText;
    PassOne(d, NEWLINE.tok, o);
    q := d.p;
    if o.NodeComments() && HeadText(n) != [] {
      q := BlockPasses(HeadText(n), depth, d, o);
    }
  }

  // Lines

  lemma {:induction false} LinesPass(kids: seq<Node>, obj: bool, depth: nat, d: Draft, o: Layout)
    requires forall i :: 0 <= i < |kids| ==> WfNode(kids[i]) && (kids[i].kind == KeyValueNode <==> obj)
    requires d.p.behind in {Opened, Comma} && d.p.at == Fresh && d.lead == [] && OnLines(d.p, o) && Aligned(depth, d.p, o)
    requires if obj then d.p.In(ObjectStart) else d.p.In(ArrayStart)
    ensures Pass(d, PrintLines(kids, depth, o), o)
            == Some(if kids == [] then d else Draft(Spot(d.p.open, if o.LastComma() then Comma else Whole, Fresh), []))
    decreases kids, 1
  {
    hide WfNode, Pass, PrintLine;
    PassOne(d, NEWLINE.tok, o);
    if kids != [] {
      LinePasses(kids, obj, depth, d, o);
      var comma := |kids| > 1 || o.LastComma();
      var e := Draft(Spot(d.p.open, if comma then Comma else Whole, Fresh), []);
      if |kids| > 1 {
        LinesPass(kids[1..], obj, depth, e, o);
      } else {
        PassOne(e, NEWLINE.tok, o);
        assert PrintLines(kids[1..], depth, o) == [];
      }
      PassConcat(d, PrintLine(kids, depth, o), PrintLines(kids[1..], depth, o), o);
    }
  }

  lemma {:induction false} LinePasses(kids: seq<Node>, obj: bool, depth: nat, d: Draft, o: Layout)
    requires kids != [] && WfNode(kids[0]) && (kids[0].kind == KeyValueNode <==> obj)
    requires d.p.behind in {Opened, Comma} && d.p.at == Fresh && d.lead == [] && OnLines(d.p, o) && Aligned(depth, d.p, o)
    requires if obj then d.p.In(ObjectStart) else d.p.In(ArrayStart)
    ensures var comma := |kids| > 1 || o.LastComma();
            Pass(d, PrintLine(kids, depth, o), o) == Some(Draft(Spot(d.p.open, if comma then Comma else Whole, Fresh), []))
    decreases kids, 0
  {
    hide WfNode, Pass, PrintValue, HeadBlock, EndOfLine, Repeat, IsMargin;
    var n := kids[0];
    var margin := Repeat(o.indent, depth);
    var head, val := HeadBlock(n, depth, o), PrintValue(n, depth, o);
    var comma := |kids| > 1 || o.LastComma();
    var sep := Separator(comma);
    var q := HeadPasses(n, depth, d, o);
    var d1 := Draft(q, [] + margin);
    PassGap(Draft(q, []), margin, o);
    PassConcat(d, head, [Indent(depth, o)], o);
    MarginIs(depth, q, o);
    assert [] + margin == margin;
    ValuePasses(n, depth, d1, o);
    PassConcat(d, head + [Indent(depth, o)], val, o);
    var d2 := Ended(q);
    SeparatorPasses(comma, d2, o);
    PassConcat(d, head + [Indent(depth, o)] + val, sep, o);
    var d3 := Draft(Spot(q.open, if comma then Comma else Whole, Right), []);
    EndPasses(n, depth, d3, o);
    PassConcat(d, head + [Indent(depth, o)] + val + sep, EndOfLine(n, depth, o), o);
  }

  lemma SeparatorPasses(comma: bool, d: Draft, o: Layout)
    requires d.p.behind == Whole && d.p.at == Right && d.lead == [] && d.p.open != []
    ensures Pass(d, Separator(comma), o) == Some(Draft(Spot(d.p.open, if comma then Comma else Whole, Right), []))
  {
    hide Pass;
    PassOne(d, NEWLINE.tok, o);
    CommaPasses(d, o);
  }

  /** The comments in front of a closing bracket. */
  lemma FootPasses(foot: Bytes, depth: nat, d: Draft, o: Layout)
    requires d.lead == [] && OnLines(d.p, o) && d.p.at == Fresh && Aligned(depth, d.p, o)
    ensures Pass(d, FootBlock(foot, depth, o), o) == Some(d)
  {
    hide Pass, CommentBlock;
    PassOne(d, NEWLINE.tok, o);
    if foot != [] && !o.strictJSONOutput {
      var q := BlockPasses(foot, depth, d, o);
    }
  }

  lemma {:induction false} SpreadPasses(n: Node, depth: nat, d: Draft, o: Layout)
    requires WfNode(n) && n.IsContainer() && MayBegin(d.p, o) && Led(d, o) && Aligned(depth, d.p, o)
    requires o.Spread(n.kind) && !(n.children == [] && n.notes.foot == [])
    ensures Pass(d, PrintContainer(n, depth, o), o) == Some(Ended(d.p))
    decreases n, 0
  {
    hide WfNotes, Pass, PrintLines, FootBlock, MayBegin, Repeat, Led, OnLines;
    var open, close := [OpenPiece(n.kind)], [ClosePiece(n.kind)];
    var lines, foot := PrintLines(n.children, depth + 1, o), FootBlock(n.notes.foot, depth + 1, o);
    var p1 := Inside(n, d.p);
    OpenPasses(n, d, o);
    InsideIs(n, d.p, o);
    BreakPasses(Draft(p1, []), o);
    PassConcat(d, open, [NEWLINE], o);
    var d2 := Draft(p1.(at := Fresh), []);
    assert OnLines(d2.p, o) by { SameLines(p1, d2.p, o); }
    LinesPass(n.children, n.kind == ObjectNode, depth + 1, d2, o);
    PassConcat(d, open + [NEWLINE], lines, o);
    var d3 := if n.children == [] then d2 else Draft(Spot(p1.open, if o.LastComma() then Comma else Whole, Fresh), []);
    assert OnLines(d3.p, o) by { SameLines(p1, d3.p, o); }
    FootPasses(n.notes.foot, depth + 1, d3, o);
    PassConcat(d, open + [NEWLINE] + lines, foot, o);
    var margin := Repeat(o.indent, depth);
    PassGap(d3, margin, o);
    PassConcat(d, open + [NEWLINE] + lines + foot, [Indent(depth, o)], o);
    var d4 := d3.(lead := [] + margin);
    MarginIs(depth, d.p, o);
    assert [] + margin == margin;
    ClosePasses(n, d4, o);
    assert p1.open[..|p1.open| - 1] == d.p.open;
    PassConcat(d, open + [NEWLINE] + lines + foot + [Indent(depth, o)], close, o);
    assert PrintContainer(n, depth, o) == open + [NEWLINE] + lines + foot + [Indent(depth, o)] + close by {
      SpreadPieces(n, depth, o);
    }
  }

  lemma SpreadPieces(n: Node, depth: nat, o: Layout)
    requires o.Spread(n.kind) && !(n.children == [] && n.notes.foot == [])
    ensures PrintContainer(n, depth, o)
            == [OpenPiece(n.kind)] + [NEWLINE] + PrintLines(n.children, depth + 1, o)
               + FootBlock(n.notes.foot, depth + 1, o) + [Indent(depth, o)] + [ClosePiece(n.kind)]
  {
    hide PrintLines, FootBlock;
  }

  lemma SameLines(p: Spot, q: Spot, o: Layout)
    requires OnLines(p, o) && p.open == q.open
    ensures OnLines(q, o)
  {
  }

  // Documents

  lemma DocumentPasses(n: Node, o: Layout)
    requires WfNode(n) && n.kind != KeyValueNode
    ensures var d := Pass(Draft(TOP, []), PrintDocument(n, o), o);
            d.Some? && d.value.lead == [] && d.value.p.open == [] && d.value.p.behind == Whole
  {
    hide WfNode, Pass, PrintValue, HeadBlock, LineNotes, CommentBlock, AfterText;
    var top := Draft(TOP, []);
    var q := HeadPasses(n, 0, top, o);
    ValuePasses(n, 0, Draft(q, []), o);
    PassConcat(top, HeadBlock(n, 0, o), PrintValue(n, 0, o), o);
    var d := Ended(q);
    PassOne(d, NEWLINE.tok, o);
    PassConcat(top, HeadBlock(n, 0, o) + PrintValue(n, 0, o), EndOfDocument(n, o), o);
    if o.NodeComments() {
      var r := LineNotesPass(n, d, o);
      var after := if AfterText(n) != [] then [NEWLINE] + CommentBlock(AfterText(n), 0, o) else [];
      PassOne(Draft(r, []), NEWLINE.tok, o);
      if AfterText(n) != [] {
        BreakPasses(Draft(r, []), o);
        var f := BlockPasses(AfterText(n), 0, Draft(r.(at := Fresh), []), o);
        PassConcat(Draft(r, []), [NEWLINE], CommentBlock(AfterText(n), 0, o), o);
      }
      PassConcat(d, LineNotes(n), after, o);
    }
  }

  /** The output keeps to the rules, in every layout. */
  lemma OutputIsLaidOut(n: Node, o: Layout)
    requires WfNode(n) && n.kind != KeyValueNode && BlankIndent(o)
    ensures IsLaidOut(Encode(n, o), o)
  {
    hide WfNode, Pass, PrintDocument, Render, Walk, Spacing, WellSpaced, Core;
    DocumentPasses(n, o);
    DocumentPrints(n, o);
    PassIsWalk(Draft(TOP, []), PrintDocument(n, o), o);
    assert [] + Render(PrintDocument(n, o)) == Render(PrintDocument(n, o));
  }
}
