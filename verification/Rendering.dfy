/**
  Scanning what was rendered gives the tokens back, whatever blanks stand
  between them, as long as no token runs into the next.
 */
module Rendering {
  import opened Ascii
  import opened Lexer
  import opened LexerLaws
  import opened Syntax
  import opened Printer

  function Toks(ps: seq<Piece>): seq<Token> {
    if ps == [] then []
    else PieceToks(ps[0]) + Toks(ps[1..])
  }

  function PieceToks(p: Piece): seq<Token> {
    match p
    case Lex(t) => [t]
    case Gap(_) => []
  }

  function FirstByte(s: Bytes, next: Option<byte>): Option<byte> {
    if s == [] then next else Some(s[0])
  }

  /** The first byte of ps, when `next` comes behind it. */
  function First(ps: seq<Piece>, next: Option<byte>): Option<byte> {
    if ps == [] then next else FirstByte(RenderPiece(ps[0]), First(ps[1..], next))
  }

  /** Rendered alone, t is scanned as one token, t itself. */
  predicate Renderable(t: Token) {
    RenderToken(t) != [] && !IsBlank(RenderToken(t)[0])
    && ScanToken(RenderToken(t), false) == Scanned(t, |RenderToken(t)|)
    && t != ERROR
  }

  predicate EndsBefore(kind: Kind, next: Option<byte>) { next == None || kind == Newline || Ends(kind, next.value) }

  predicate WellSpaced(ps: seq<Piece>, next: Option<byte>) {
    ps == [] ||
    (WellSpaced(ps[1..], next)
     && match ps[0]
        case Gap(s) => AllBlank(s)
        case Lex(t) => Renderable(t) && EndsBefore(t.kind, First(ps[1..], next)))
  }

  // Concatenation

  lemma ConcatParts(a: seq<Piece>, b: seq<Piece>)
    requires a != []
    ensures (a + b)[0] == a[0] && (a + b)[1..] == a[1..] + b
  {
  }

  lemma {:induction false} RenderConcat(a: seq<Piece>, b: seq<Piece>)
    ensures Render(a + b) == Render(a) + Render(b)
  {
    if a == [] {
      assert a + b == b;
      assert Render(a) + Render(b) == Render(b);
    } else {
      calc {
        Render(a + b);
        { ConcatParts(a, b); }
        RenderPiece(a[0]) + Render(a[1..] + b);
        { RenderConcat(a[1..], b); }
        RenderPiece(a[0]) + (Render(a[1..]) + Render(b));
        (RenderPiece(a[0]) + Render(a[1..])) + Render(b);
        Render(a) + Render(b);
      }
    }
  }

  lemma {:induction false} ToksConcat(a: seq<Piece>, b: seq<Piece>)
    ensures Toks(a + b) == Toks(a) + Toks(b)
  {
    if a == [] {
      assert a + b == b;
      assert Toks(a) + Toks(b) == Toks(b);
    } else {
      var head := PieceToks(a[0]);
      calc {
        Toks(a + b);
        { ConcatParts(a, b); }
        head + Toks(a[1..] + b);
        { ToksConcat(a[1..], b); }
        head + (Toks(a[1..]) + Toks(b));
        (head + Toks(a[1..])) + Toks(b);
        Toks(a) + Toks(b);
      }
    }
  }

  lemma {:induction false} FirstConcat(a: seq<Piece>, b: seq<Piece>, next: Option<byte>)
    ensures First(a + b, next) == First(a, First(b, next))
  {
    if a == [] {
      assert a + b == b;
    } else {
      ConcatParts(a, b);
      FirstConcat(a[1..], b, next);
    }
  }

  lemma {:induction false} SpacedConcat(a: seq<Piece>, b: seq<Piece>, next: Option<byte>)
    ensures WellSpaced(a + b, next) <==> WellSpaced(a, First(b, next)) && WellSpaced(b, next)
  {
    if a == [] {
      assert a + b == b;
    } else {
      ConcatParts(a, b);
      SpacedConcat(a[1..], b, next);
      FirstConcat(a[1..], b, next);
    }
  }

  // Scanning

  lemma {:induction false} BlanksSkipped(s: Bytes, rest: Bytes, strict: bool)
    requires AllBlank(s)
    ensures Tokens(s + rest, strict) == Tokens(rest, strict)
    ensures Blanks(s + rest) == |s| + Blanks(rest)
  {
    hide Tokens, Blanks;
    if s == [] {
      assert s + rest == rest;
    } else {
      assert AllBlank(s[1..]);
      BlanksSkipped(s[1..], rest, strict);
      var t := s + rest;
      assert t[1..] == s[1..] + rest && t[0] == s[0];
      OneBlankSkipped(t, strict);
    }
  }

  lemma OneBlankSkipped(t: Bytes, strict: bool)
    requires t != [] && IsBlank(t[0])
    ensures Tokens(t, strict) == Tokens(t[1..], strict)
    ensures Blanks(t) == 1 + Blanks(t[1..])
  {
    hide ScanToken;
    var b := Blanks(t[1..]);
    assert Blanks(t) == 1 + b;
    assert t[1 + b..] == t[1..][b..];
    var e := Next(t, strict);
    var f := Next(t[1..], strict);
    assert e == Extent(f.tok, f.lead + 1, f.size + 1);
    assert t[e.size..] == t[1..][f.size..];
  }

  /** A rendered token is the next token. */
  lemma TokenScanned(t: Token, rest: Bytes)
    requires Renderable(t) && EndsBefore(t.kind, FirstByte(rest, None))
    ensures Tokens(RenderToken(t) + rest, false) == [t] + Tokens(rest, false)
  {
    hide ScanToken, RenderToken;
    var r := RenderToken(t);
    var s := r + rest;
    NewlineIsLf(t);
    ScanTokenLocal(r, false, rest);
    assert r[..|r|] == r;
    assert s[0] == r[0];
    assert Blanks(s) == 0;
    assert s[0..] == s;
    assert Next(s, false) == Extent(t, 0, |r|);
    assert s[|r|..] == rest;
    NotEof(r);
  }

  lemma NewlineIsLf(t: Token)
    ensures t.kind == Newline ==> RenderToken(t) == [LF]
  {
  }

  lemma NotEof(s: Bytes)
    requires s != []
    ensures ScanToken(s, false).tok != EOF
  {
  }

  lemma PieceScanned(p: Piece, tail: Bytes)
    requires p.Gap? ==> AllBlank(p.text)
    requires p.Lex? ==> Renderable(p.tok) && EndsBefore(p.tok.kind, FirstByte(tail, None))
    ensures Tokens(RenderPiece(p) + tail, false) == PieceToks(p) + Tokens(tail, false)
  {
    hide Renderable, Tokens, EndsBefore;
    match p {
      case Gap(s) =>
        BlanksSkipped(s, tail, false);
        assert [] + Tokens(tail, false) == Tokens(tail, false);
      case Lex(t) =>
        TokenScanned(t, tail);
    }
  }

  lemma {:induction false} ScanRendered(ps: seq<Piece>, rest: Bytes)
    requires WellSpaced(ps, FirstByte(rest, None))
    ensures Tokens(Render(ps) + rest, false) == Toks(ps) + Tokens(rest, false)
    ensures FirstByte(Render(ps) + rest, None) == First(ps, FirstByte(rest, None))
  {
    hide Renderable, Tokens, EndsBefore;
    if ps == [] {
      assert Render(ps) + rest == rest;
      assert Toks(ps) + Tokens(rest, false) == Tokens(rest, false);
    } else {
      var tail := Render(ps[1..]) + rest;
      var head := RenderPiece(ps[0]);
      ScanRendered(ps[1..], rest);
      assert Render(ps) + rest == head + tail;
      FirstOfConcat(head, tail);
      calc {
        Tokens(head + tail, false);
        { PieceScanned(ps[0], tail); }
        PieceToks(ps[0]) + Tokens(tail, false);
        PieceToks(ps[0]) + (Toks(ps[1..]) + Tokens(rest, false));
        (PieceToks(ps[0]) + Toks(ps[1..])) + Tokens(rest, false);
        Toks(ps) + Tokens(rest, false);
      }
    }
  }

  lemma FirstOfConcat(a: Bytes, b: Bytes)
    ensures FirstByte(a + b, None) == FirstByte(a, FirstByte(b, None))
  {
    if a == [] {
      assert a + b == b;
    }
  }

  // Strictness

  predicate NoComments(ts: seq<Token>) { forall i :: 0 <= i < |ts| ==> !IsComment(ts[i]) }

  lemma StrictNext(s: Bytes)
    ensures !IsComment(Next(s, true).tok)
    ensures IsComment(Next(s, false).tok) ==> Next(s, true).tok == ERROR
    ensures !IsComment(Next(s, false).tok) ==> Next(s, true).tok == Next(s, false).tok
    ensures Next(s, true).tok == Next(s, false).tok != ERROR ==> Next(s, true) == Next(s, false)
  {
    hide ScanToken;
    var b := Blanks(s);
    if b < |s| {
      ScanStrict(s[b..]);
      StrictTokenIsNoComment(s[b..]);
    }
  }

  lemma StrictTokenIsNoComment(s: Bytes)
    requires s != []
    ensures !IsComment(ScanToken(s, true).tok)
    ensures s[0] != SLASH ==> !IsComment(ScanToken(s, false).tok)
  {
  }

  lemma NoCommentsCons(t: Token, ts: seq<Token>)
    ensures NoComments([t] + ts) <==> !IsComment(t) && NoComments(ts)
    ensures ERROR in [t] + ts <==> t == ERROR || ERROR in ts
  {
    if NoComments([t] + ts) {
      assert ([t] + ts)[0] == t;
      forall i | 0 <= i < |ts|
        ensures !IsComment(ts[i])
      {
        assert ([t] + ts)[i + 1] == ts[i];
      }
    }
  }

  /** Strict and lax scanning differ only from the first comment on. */
  lemma {:induction false} StrictScan(s: Bytes)
    ensures NoComments(Tokens(s, false)) ==> Tokens(s, true) == Tokens(s, false)
    ensures ERROR !in Tokens(s, true) ==> Tokens(s, true) == Tokens(s, false)
    ensures NoComments(Tokens(s, true))
    decreases |s|
  {
    hide Next, NoComments;
    var e := Next(s, false);
    StrictNext(s);
    NoTokensNoComments();
    NoCommentsCons(ERROR, []);
    assert [ERROR] + [] == [ERROR];
    if e.tok != ERROR && e.tok != EOF {
      var tail := Tokens(s[e.size..], false);
      NoCommentsCons(e.tok, tail);
      if !IsComment(e.tok) {
        StrictScan(s[e.size..]);
        NoCommentsCons(e.tok, Tokens(s[e.size..], true));
      }
    }
  }

  lemma NoTokensNoComments()
    ensures NoComments([])
  {
  }
}
