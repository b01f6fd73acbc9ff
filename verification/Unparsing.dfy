/**
  A parsed tree spells out the document it came from: its tokens, written one
  behind the other, are those of the source, comments, line breaks and trailing
  commas aside.
 */
module Unparsing {
  import opened Ascii
  import opened Lexer
  import opened QuotedStrings
  import opened Tree
  import opened Syntax
  import opened SyntaxTurns
  import opened WellFormed
  import opened CommentSlots
  import Duplicates
  import Limits
  import Sizes

  /** A token by its kind, and by its text where that is not the same always. */
  function Mark(t: Token): Token {
    if t.kind in {StringToken, NumberToken} then t else Token(t.kind, [])
  }

  /** The tokens of the source, as far as they matter. */
  function Signs(ts: seq<Token>): seq<Token> {
    if ts == [] then []
    else if ts[0].kind in {Newline, LineComment, BlockComment} then Signs(ts[1..])
    else if ts[0].kind == ValueSeparator && IsClose(NextKind(ts[1..])) then Signs(ts[1..])
    else [Mark(ts[0])] + Signs(ts[1..])
  }

  function Comma(): Token { Token(ValueSeparator, []) }

  /** The tokens that a tree stands for. */
  function Spelt(n: Node): seq<Token>
    decreases n, 1
  {
    match n.kind
    case ObjectNode => [Token(ObjectStart, [])] + SpeltBy(n.children) + [Token(ObjectEnd, [])]
    case ArrayNode => [Token(ArrayStart, [])] + SpeltBy(n.children) + [Token(ArrayEnd, [])]
    case KeyValueNode => [Token(StringToken, n.rawKey), Token(NameSeparator, [])] + SpeltBy(n.children)
    case StringNode => [Token(StringToken, n.rawValue)]
    case NumberNode => [Token(NumberToken, n.rawValue)]
    case BoolNode => [Token(if n.rawValue == TRUE_WORD then TrueToken else FalseToken, [])]
    case NullNode => [Token(NullToken, [])]
  }

  /** Children, with commas between them. */
  function SpeltBy(kids: seq<Node>): seq<Token>
    decreases kids, 0
  {
    if kids == [] then []
    else if |kids| == 1 then Spelt(kids[0])
    else Spelt(kids[0]) + [Comma()] + SpeltBy(kids[1..])
  }

  lemma {:induction false} SpeltAppend(kids: seq<Node>, n: Node)
    ensures SpeltBy(kids + [n]) == SpeltBy(kids) + (if kids == [] then [] else [Comma()]) + Spelt(n)
  {
    hide Spelt;
    var all := kids + [n];
    if |kids| == 0 {
      assert all == [n];
    } else {
      SpeltAppend(kids[1..], n);
      assert all[1..] == kids[1..] + [n] && all[0] == kids[0];
      if |kids| == 1 {
        assert kids[1..] == [];
      }
    }
  }

  lemma {:induction false} RunHasNoSigns(acc: Bytes, ts: seq<Token>)
    ensures Signs(Collect(acc, ts).rest) == Signs(ts)
    decreases |ts|
  {
    if IsTrivia(Peek(ts)) {
      RunHasNoSigns(if ts[0].kind == Newline then acc else (if acc == [] then [] else acc + [LF]) + ts[0].text, ts[1..]);
    }
  }

  lemma InlineHasNoSigns(ts: seq<Token>)
    ensures Signs(InlineComment(ts).rest) == Signs(ts) && NextKind(InlineComment(ts).rest) == NextKind(ts)
  {
  }

  lemma OneSign(ts: seq<Token>)
    requires ts != [] && !IsTrivia(ts[0]) && ts[0].kind != ValueSeparator
    ensures Signs(ts) == [Mark(ts[0])] + Signs(ts[1..])
  {
  }

  /** A comma and what is behind it; a trailing one is no sign. */
  lemma CommaSign(ts: seq<Token>)
    requires ts != [] && ts[0].kind == ValueSeparator
    ensures Signs(ts) == (if IsClose(NextKind(ts[1..])) then [] else [Comma()]) + Signs(ts[1..])
  {
  }

  lemma {:induction false} ValueSpells(st: State, d: nat, o: Options)
    requires !o.allowDuplicateKeys && AllGenuine(st.ts) && !IsTrivia(Peek(st.ts))
    ensures var r := ParseValue(st, d, o); r.Ok? ==> Signs(st.ts) == Spelt(r.val) + Signs(r.st.ts) && AllGenuine(r.st.ts)
    decreases |st.ts|, 1
  {
    hide ParseContainer, Unquote, Genuine, Signs;
    if IsOpen(Peek(st.ts).kind) {
      ContainerSpells(st, d, o);
    } else if ParseScalar(st, o).Ok? {
      OneSign(st.ts);
      GenuineRest(st.ts);
      ScalarSpells(st.ts[0]);
    }
  }

  lemma ScalarSpells(t: Token)
    requires Genuine(t) && ScalarNode(t).Some?
    ensures Spelt(ScalarNode(t).value) == [Mark(t)]
  {
    hide Unquote, IsStringToken, NumberLen;
  }

  lemma GenuineRest(ts: seq<Token>)
    requires AllGenuine(ts) && ts != []
    ensures AllGenuine(ts[1..]) && Genuine(ts[0])
  {
    hide Genuine;
  }

  lemma {:induction false} GenuineRun(acc: Bytes, ts: seq<Token>)
    requires AllGenuine(ts)
    ensures AllGenuine(Collect(acc, ts).rest) && !IsTrivia(Peek(Collect(acc, ts).rest))
    decreases |ts|
  {
    hide AllGenuine;
    if IsTrivia(Peek(ts)) {
      GenuineRest(ts);
      GenuineRun(if ts[0].kind == Newline then acc else (if acc == [] then [] else acc + [LF]) + ts[0].text, ts[1..]);
    }
  }

  lemma GenuineInline(ts: seq<Token>)
    requires AllGenuine(ts)
    ensures AllGenuine(InlineComment(ts).rest)
  {
    if ts != [] {
      GenuineRest(ts);
    }
  }

  lemma {:induction false} ContainerSpells(st: State, d: nat, o: Options)
    requires !o.allowDuplicateKeys && AllGenuine(st.ts) && IsOpen(Peek(st.ts).kind)
    ensures var r := ParseContainer(st, d, o); r.Ok? ==> Signs(st.ts) == Spelt(r.val) + Signs(r.st.ts) && AllGenuine(r.st.ts)
    decreases |st.ts|, 0
  {
    hide ParseChildren, InlineComment, Signs, Spelt, SpeltBy, AllGenuine, NextKind;
    var inner := State(st.ts[1..], st.keys, st.nodes + 1);
    var obj := Peek(st.ts).kind == ObjectStart;
    OneSign(st.ts);
    GenuineRest(st.ts);
    NothingSpelt();
    ChildrenSpell(inner, d + 1, o, obj, START);
    var r := ParseChildren(inner, d + 1, o, obj, START);
    if ParseContainer(st, d, o).Ok? {
      InlineHasNoSigns(r.st.ts);
      GenuineInline(r.st.ts);
      ClosedSpells(r, obj);
      var open, close := Token(Syntax.Open(obj), []), Token(Syntax.Close(obj), []);
      assert SoFar(START, inner.ts) == Signs(inner.ts);
      assert Mark(st.ts[0]) == open;
      Enclosed(open, SpeltBy(r.val.children), close, Signs(r.st.ts));
    }
  }

  lemma Enclosed(open: Token, inside: seq<Token>, close: Token, rest: seq<Token>)
    ensures [open] + (inside + [close] + rest) == [open] + inside + [close] + rest
  {
  }

  lemma ClosedSpells(r: Result<Inside>, obj: bool)
    requires r.Ok?
    ensures Spelt(Closed(r, obj).val)
            == [Token(Syntax.Open(obj), [])] + SpeltBy(r.val.children) + [Token(Syntax.Close(obj), [])]
  {
    hide SpeltBy, InlineComment;
  }

  lemma NothingSpelt()
    ensures SpeltBy([]) == []
  {
  }

  lemma {:induction false} MemberSpells(st: State, d: nat, o: Options, head: Bytes)
    requires !o.allowDuplicateKeys && AllGenuine(st.ts) && ParseChild(st, d, o, true, head).Ok?
    ensures var r := ParseChild(st, d, o, true, head);
            Signs(st.ts) == Spelt(r.val) + Signs(r.st.ts) && AllGenuine(r.st.ts)
    decreases |st.ts|, 2
  {
    hide ParseValue, Unquote, Collect, Signs, AllGenuine, Genuine, NextKind, ParseChild;
    NeedsKey(st, d, o, head);
    MemberIs(st, d, o, head);
    var key := st.ts[0];
    var colon := Collect([], st.ts[1..]).rest;
    OneSign(st.ts);
    GenuineRest(st.ts);
    RunHasNoSigns([], st.ts[1..]);
    GenuineRun([], st.ts[1..]);
    OneSign(colon);
    GenuineRest(colon);
    RunHasNoSigns([], colon[1..]);
    GenuineRun([], colon[1..]);
    var value := st.(ts := Collect([], colon[1..]).rest);
    ValueSpells(value, d, o);
    var v := ParseValue(value, d, o);
    assert SpeltBy([v.val]) == Spelt(v.val);
  }

  lemma {:induction false} ChildSpells(st: State, d: nat, o: Options, obj: bool, head: Bytes)
    requires !o.allowDuplicateKeys && AllGenuine(st.ts) && !IsTrivia(Peek(st.ts)) && ParseChild(st, d, o, obj, head).Ok?
    ensures var r := ParseChild(st, d, o, obj, head);
            Signs(st.ts) == Spelt(r.val) + Signs(r.st.ts) && AllGenuine(r.st.ts)
    decreases |st.ts|, 3
  {
    hide ParseValue, ParseChild, Signs, AllGenuine, JoinNotes;
    if obj {
      MemberSpells(st, d, o, head);
    } else {
      ElementIs(st, d, o, head);
      ValueSpells(st, d, o);
      var v := ParseValue(st, d, o).val;
      SameSpelling(v, v.WithHead(JoinNotes(v.notes.head, head)));
    }
  }

  lemma SameSpelling(n: Node, m: Node)
    requires m == n.(notes := m.notes)
    ensures Spelt(m) == Spelt(n)
  {
  }

  /** What follows a child leaves its spelling. */
  lemma FollowSpells(n: Node, ts: seq<Token>, obj: bool)
    requires AllGenuine(ts) && Follow(n, ts, obj).Some?
    ensures var f := Follow(n, ts, obj).value;
            && Spelt(f.child) == Spelt(n) && AllGenuine(f.rest)
            && Signs(ts) == (if f.comma && !IsClose(NextKind(f.rest)) then [Comma()] else []) + Signs(f.rest)
            && (!f.comma ==> NextKind(f.rest) == Syntax.Close(obj))
  {
    hide Spelt, Signs, AllGenuine, Collect, InlineComment, JoinNotes, NextKind;
    var line := InlineComment(ts);
    var between := HeadComments(line.rest);
    var f := Follow(n, ts, obj).value;
    InlineHasNoSigns(ts);
    GenuineInline(ts);
    RunHasNoSigns([], line.rest);
    GenuineRun([], line.rest);
    RunEnds(between.rest);
    FollowNotes(n, ts, obj);
    SameSpelling(n, f.child);
    if Peek(between.rest).kind == ValueSeparator {
      CommaSign(between.rest);
      GenuineRest(between.rest);
      InlineHasNoSigns(between.rest[1..]);
      GenuineInline(between.rest[1..]);
    } else {
      NothingCollected(between.rest);
    }
  }

  lemma FollowNotes(n: Node, ts: seq<Token>, obj: bool)
    requires Follow(n, ts, obj).Some?
    ensures var m := Follow(n, ts, obj).value.child; m == n.(notes := m.notes)
  {
    hide Collect, InlineComment;
  }

  /** What a container spells so far, and what is still to come. */
  function SoFar(turn: Turn, ts: seq<Token>): seq<Token> {
    SpeltBy(turn.sofar.children)
    + (if turn.sofar.children != [] && turn.afterComma && !IsClose(NextKind(ts)) then [Comma()] else [])
    + Signs(ts)
  }

  lemma {:induction false} ChildrenSpell(st: State, d: nat, o: Options, obj: bool, turn: Turn)
    requires !o.allowDuplicateKeys && AllGenuine(st.ts)
    requires turn.sofar.children != [] && !turn.afterComma ==> NextKind(st.ts) == Syntax.Close(obj)
    ensures var r := ParseChildren(st, d, o, obj, turn);
            r.Ok? ==>
              && AllGenuine(r.st.ts)
              && SoFar(turn, st.ts) == SpeltBy(r.val.children) + [Token(Syntax.Close(obj), [])] + Signs(r.st.ts)
    decreases |st.ts|, 5
  {
    hide ParseChild, ParseChildren, Attach, Signs, SpeltBy, AllGenuine, Collect, NextKind, Follow;
    var r := ParseChildren(st, d, o, obj, turn);
    var head := HeadComments(st.ts);
    RunHasNoSigns([], st.ts);
    GenuineRun([], st.ts);
    RunEnds(st.ts);
    if Peek(head.rest).kind == Syntax.Close(obj) {
      ClosingTurn(st, d, o, obj, turn);
      OneSign(head.rest);
      GenuineRest(head.rest);
    } else if r.Ok? {
      ChildTurn(st, d, o, obj, turn);
      MoreSpell(st, d, o, obj, turn);
    }
  }

  lemma {:induction false} MoreSpell(st: State, d: nat, o: Options, obj: bool, turn: Turn)
    requires !o.allowDuplicateKeys && AllGenuine(st.ts)
    requires turn.sofar.children != [] && !turn.afterComma ==> NextKind(st.ts) == Syntax.Close(obj)
    requires Peek(HeadComments(st.ts).rest).kind != Syntax.Close(obj)
    requires var head := HeadComments(st.ts);
             AfterChild(ParseChild(st.(ts := head.rest), d, o, obj, head.text), d, o, obj, turn).Ok?
    ensures var head := HeadComments(st.ts);
            var r := AfterChild(ParseChild(st.(ts := head.rest), d, o, obj, head.text), d, o, obj, turn);
            && AllGenuine(r.st.ts)
            && SoFar(turn, st.ts) == SpeltBy(r.val.children) + [Token(Syntax.Close(obj), [])] + Signs(r.st.ts)
    decreases |st.ts|, 4
  {
    hide ParseChild, ParseChildren, Attach, Signs, Spelt, SpeltBy, AllGenuine, Collect, NextKind, Follow, Put, HasKey, JoinNotes;
    var head := HeadComments(st.ts);
    RunHasNoSigns([], st.ts);
    GenuineRun([], st.ts);
    RunEnds(st.ts);
    var s1 := st.(ts := head.rest);
    ChildStarts(s1, d, o, obj, head.text);
    var c := ParseChild(s1, d, o, obj, head.text);
    ChildSpells(s1, d, o, obj, head.text);
    AttachFollows(c.val, c.st, o, obj, turn.sofar);
    FollowKeepsKey(c.val, c.st.ts, obj);
    FollowSpells(c.val, c.st.ts, obj);
    var f := Follow(c.val, c.st.ts, obj).value;
    PutIsAppend(turn.sofar.children, f.child, obj);
    var a := Attach(c.val, c.st, o, obj, turn.sofar);
    ChildrenSpell(a.st, d, o, obj, a.val);
    SpeltAppend(turn.sofar.children, f.child);
    NothingSpelt();
    OneMoreSpelt(SpeltBy(turn.sofar.children), if turn.sofar.children == [] then [] else [Comma()], Spelt(c.val),
                 if f.comma && !IsClose(NextKind(f.rest)) then [Comma()] else [], Signs(f.rest));
  }

  lemma OneMoreSpelt(a: seq<Token>, b: seq<Token>, c: seq<Token>, d: seq<Token>, e: seq<Token>)
    ensures a + b + (c + (d + e)) == a + b + c + d + e
  {
  }

  lemma FinishSpells(n: Node, st: State)
    requires Finish(n, st).Ok?
    ensures Signs(st.ts) == [] && Spelt(Finish(n, st).val) == Spelt(n)
  {
    hide Signs, Collect, InlineComment, Spelt;
    var line := if n.notes.line == [] then InlineComment(st.ts) else Noted(n.notes.line, st.ts);
    InlineHasNoSigns(st.ts);
    RunHasNoSigns([], line.rest);
    assert Signs([]) == [] by { NoSigns(); }
    SameSpelling(n, Finish(n, st).val);
  }

  lemma NoSigns()
    ensures Signs([]) == []
  {
  }

  lemma DocumentSpells(ts: seq<Token>, o: Options)
    requires !o.allowDuplicateKeys && AllGenuine(ts) && ParseDocument(ts, o).Ok?
    ensures Spelt(ParseDocument(ts, o).val) == Signs(ts)
  {
    hide ParseValue, Signs, Spelt, Finish, Collect, AllGenuine, JoinNotes;
    var lead := HeadComments(ts);
    RunHasNoSigns([], ts);
    GenuineRun([], ts);
    var st := State(lead.rest, 0, 0);
    ValueSpells(st, 0, o);
    var v := ParseValue(st, 0, o);
    var root := v.val.WithHead(JoinNotes(lead.text, v.val.notes.head));
    SameSpelling(v.val, root);
    FinishSpells(root, v.st);
  }

  /** The tree of a document spells the document: the same tokens, in the same
      order, if no member was replaced by a later one. */
  lemma TreeSpellsDocument(s: Bytes, o: Options)
    requires Parse(s, o).Ok? && Sizes.MembersIn(Parse(s, o).val) == Limits.Members(Tokens(s, o.strictJSON))
    ensures Spelt(Parse(s, o).val) == Signs(Tokens(s, o.strictJSON))
  {
    hide ParseDocument, Signs, Spelt, AllGenuine, Sizes.MembersIn, Limits.Members, Tokens;
    var ts := Tokens(s, o.strictJSON);
    TokensAreGenuine(s, o.strictJSON);
    Duplicates.DuplicatesAreExact(ts, o);
    DocumentSpells(ts, Duplicates.Refusing(o));
  }
}
