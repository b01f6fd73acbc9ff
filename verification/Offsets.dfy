/** The input offset behind a decoded value: where it is, and when that is what
    the documentation says. */
module Offsets {
  import opened Ascii
  import opened Lexer
  import opened Syntax
  import opened SyntaxTurns
  import opened Slices

  /** The offset behind a value that leaves `own`. A scalar is read without a look
      at the next token. Behind a container the next token has been looked at: a
      comment was taken, and of a line break the end counts. */
  function OffsetBehind(s: Bytes, strict: bool, container: bool, own: seq<Token>): nat {
    if container && own != [] && IsComment(own[0]) then Behind(s, strict, own[1..])
    else EndSeen(s, strict, own, container)
  }

  /** It is where valueEnd finds the parser. */
  lemma EndIsOffsetBehind(s: Bytes, st: State, o: Options)
    requires ParseValue(st, 0, o).Ok?
    ensures EndSeen(s, o.strictJSON, ParseValue(st, 0, o).st.ts, LooksBehind(st, 0, o))
            == OffsetBehind(s, o.strictJSON, IsOpen(Peek(st.ts).kind), Own(st, 0, o))
  {
    hide Own, ParseValue, Behind;
    LeftIsOwn(st, 0, o);
  }

  /** The documented offset, just past the value and the blanks behind it, is the
      one kept, except where a comment or a line break follows a closing bracket
      on its line: then the offset kept is past that too. */
  lemma OffsetIsDocumented(s: Bytes, strict: bool, container: bool, own: seq<Token>)
    requires Stands(s, strict, own, EndOf(s, strict, Gone(s, strict, own)))
    ensures OffsetBehind(s, strict, container, own) == Behind(s, strict, own)
            <==> !(container && own != [] && IsTrivia(own[0]))
    ensures OffsetBehind(s, strict, container, own) >= Behind(s, strict, own)
  {
    hide Tokens, Next, Boundary, EndOf, Blanks;
    if container && own != [] && IsTrivia(own[0]) {
      var k := EndOf(s, strict, Gone(s, strict, own));
      EndOfNext(s, strict, Gone(s, strict, own));
      LeadIsBlanks(s[k..], strict);
      StandsSkips(s, strict, own, k);
      TokensUnfold(s[k..], strict);
    }
  }

  // An object with a line break behind it

  const OBJECT_LINE: Bytes := [LBRACE, RBRACE, LF]
  const BREAK := Token(Newline, [])

  lemma ObjectLineTokens()
    ensures Tokens(OBJECT_LINE, false) == [Token(ObjectStart, [LBRACE]), Token(ObjectEnd, [RBRACE]), BREAK]
    ensures EndOf(OBJECT_LINE, false, 2) == 2 && EndOf(OBJECT_LINE, false, 3) == 3
  {
    hide NumberLen, StringTail;
    var s := OBJECT_LINE;
    assert s[0..] == s && s[1..] == [RBRACE, LF] && s[1..][1..] == [LF] && [LF][1..] == [];
    assert Next(s, false) == Extent(Token(ObjectStart, [LBRACE]), 0, 1);
    assert Next(s[1..], false) == Extent(Token(ObjectEnd, [RBRACE]), 0, 1);
    assert Next([LF], false) == Extent(BREAK, 0, 1);
    assert Next([], false).tok == EOF;
    assert Tokens([], false) == [] && Tokens([LF], false) == [BREAK];
    assert Tokens(s[1..], false) == [Token(ObjectEnd, [RBRACE]), BREAK];
    EndUnfolds(s, false, 2);
    EndUnfolds(s[1..], false, 1);
    NoEnd([LF], false);
    EndUnfolds(s, false, 3);
    EndUnfolds(s[1..], false, 2);
    EndUnfolds([LF], false, 1);
    NoEnd([], false);
  }

  /** After `{}` and a line break the offset is 3, where the documented one is 2. */
  lemma BreakIsCounted()
    ensures var o := Options(false, false, 0, 0, 0);
            var st := State(Tokens(OBJECT_LINE, false), 0, 0);
            ParseValue(st, 0, o).Ok? && Own(st, 0, o) == [BREAK]
            && OffsetBehind(OBJECT_LINE, false, true, [BREAK]) == 3 && Behind(OBJECT_LINE, false, [BREAK]) == 2
  {
    hide Tokens, EndOf, ParseChildren;
    ObjectLineTokens();
    var ts := Tokens(OBJECT_LINE, false);
    assert ts[1..][1..] == [BREAK];
    assert ts[1..] == [Token(ObjectEnd, [RBRACE]), BREAK];
    assert HeadComments(ts[1..]).rest == ts[1..];
    ClosingTurn(State(ts[1..], 0, 1), 1, Options(false, false, 0, 0, 0), true, START);
    LeftIsOwn(State(ts, 0, 0), 0, Options(false, false, 0, 0, 0));
    assert OBJECT_LINE[2..] == [LF] && Blanks([LF]) == 0;
  }
}
