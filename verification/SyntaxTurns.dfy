/**
  The syntax functions, unfolded one turn at a time: a child of a container,
  what follows it, and the parts of a member.
 */
module SyntaxTurns {
  import opened Ascii
  import opened Lexer
  import opened QuotedStrings
  import opened Tree
  import opened Syntax

  // What follows a child inside its container

  datatype Followed = Followed(child: Node, foot: Bytes, comma: bool, rest: seq<Token>)

  function Follow(n: Node, ts: seq<Token>, obj: bool): Option<Followed> {
    var line := InlineComment(ts);
    var between := HeadComments(line.rest);
    var n1 := SetLine(n, line.text);
    if Peek(between.rest).kind == ValueSeparator then
      var after := InlineComment(between.rest[1..]);
      var n2 := AttachAfterComma(n1.WithFoot(JoinNotes(n1.notes.foot, between.text)), after.text);
      Some(Followed(n2, [], true, after.rest))
    else if Peek(between.rest).kind == Close(obj) then Some(Followed(n1, between.text, false, between.rest))
    else None
  }

  /** What the limits and the duplicate check say about a child just read. */
  function Refusal(n: Node, st: State, o: Options, obj: bool, kids: seq<Node>): Option<ParseError> {
    if obj && !o.allowDuplicateKeys && HasKey(kids, n.key) then Some(DuplicateKey(n.key))
    else if obj && Over(st.keys + 1, o.maxKeys) then Some(TooManyKeys)
    else None
  }

  lemma AttachFollows(n: Node, st: State, o: Options, obj: bool, sofar: Inside)
    ensures Refusal(n, st, o, obj, sofar.children).Some? ==>
              Attach(n, st, o, obj, sofar) == Err(Refusal(n, st, o, obj, sofar.children).value)
    ensures Refusal(n, st, o, obj, sofar.children) == None ==>
              match Follow(n, st.ts, obj)
              case None => Attach(n, st, o, obj, sofar) == Err(UnexpectedToken)
              case Some(f) =>
                Attach(n, st, o, obj, sofar)
                == Ok(Turn(Inside(Put(sofar.children, f.child, obj), JoinNotes(sofar.foot, f.foot)), f.comma),
                      State(f.rest, st.keys + (if obj then 1 else 0), st.nodes))
  {
    hide Put, HasKey, HeadComments, AttachAfterComma;
  }

  lemma FollowKeepsKey(n: Node, ts: seq<Token>, obj: bool)
    ensures Follow(n, ts, obj).Some? ==> Follow(n, ts, obj).value.child.key == n.key
    ensures Follow(n, ts, obj).Some? ==> |Follow(n, ts, obj).value.rest| <= |ts|
  {
    hide HeadComments;
  }

  // One turn of the loop over a container's children

  lemma ClosingTurn(st: State, depth: nat, o: Options, obj: bool, turn: Turn)
    requires Peek(HeadComments(st.ts).rest).kind == Close(obj)
    ensures var head := HeadComments(st.ts);
            ParseChildren(st, depth, o, obj, turn)
            == if turn.afterComma && o.strictJSON then Err(TrailingComma)
               else Ok(Inside(turn.sofar.children, JoinNotes(turn.sofar.foot, head.text)), st.(ts := head.rest[1..]))
  {
    hide HeadComments, ParseChild, Attach;
  }

  function AfterChild(child: Result<Node>, depth: nat, o: Options, obj: bool, turn: Turn): Result<Inside> {
    match child
    case Err(e) => Err(e)
    case Ok(n, st1) =>
      match Attach(n, st1, o, obj, turn.sofar)
      case Err(e) => Err(e)
      case Ok(next, st2) => ParseChildren(st2, depth, o, obj, next)
  }

  lemma ChildTurn(st: State, depth: nat, o: Options, obj: bool, turn: Turn)
    requires Peek(HeadComments(st.ts).rest).kind != Close(obj)
    ensures var head := HeadComments(st.ts);
            ParseChildren(st, depth, o, obj, turn)
            == AfterChild(ParseChild(st.(ts := head.rest), depth, o, obj, head.text), depth, o, obj, turn)
  {
    hide HeadComments, ParseChild, Attach;
  }

  function HeadedElement(r: Result<Node>, head: Bytes): Result<Node> {
    match r
    case Err(e) => Err(e)
    case Ok(n, st) => Ok(n.WithHead(JoinNotes(n.notes.head, head)), st)
  }

  lemma ElementIs(st: State, depth: nat, o: Options, head: Bytes)
    ensures ParseChild(st, depth, o, false, head) == HeadedElement(ParseValue(st, depth, o), head)
  {
    hide ParseValue;
  }

  lemma BadMember(st: State, depth: nat, o: Options, head: Bytes)
    requires st.ts != [] && (st.ts[0].kind != StringToken || Unquote(st.ts[0].text) == None)
    ensures ParseChild(st, depth, o, true, head) == Err(UnexpectedToken)
  {
    hide ParseValue, Unquote, Collect;
  }

  lemma NoMember(st: State, depth: nat, o: Options, head: Bytes)
    requires Peek(st.ts).kind != StringToken
    ensures ParseChild(st, depth, o, true, head) == Err(UnexpectedToken)
  {
  }

  function AfterValue(v: Result<Node>, key: Token, o: Options, head: Bytes): Result<Node>
    requires Unquote(key.text).Some?
  {
    match v
    case Err(e) => Err(e)
    case Ok(n, st) => Counted(KeyValue(Unquote(key.text).value, key.text, n, head), st, o)
  }

  lemma MemberIs(st: State, depth: nat, o: Options, head: Bytes)
    requires Peek(st.ts).kind == StringToken && Unquote(st.ts[0].text).Some?
    ensures var colon := Collect([], st.ts[1..]).rest;
            ParseChild(st, depth, o, true, head)
            == if Peek(colon).kind != NameSeparator then Err(UnexpectedToken)
               else
                 var value := st.(ts := Collect([], colon[1..]).rest);
                 AfterValue(ParseValue(value, depth, o), st.ts[0], o, head)
  {
    hide Unquote, Collect, ParseValue, Counted;
  }

  lemma {:induction false} CollectRestSame(a: Bytes, b: Bytes, ts: seq<Token>)
    ensures Collect(a, ts).rest == Collect(b, ts).rest
    decreases |ts|
  {
    if IsTrivia(Peek(ts)) {
      if ts[0].kind == Newline {
        CollectRestSame(a, b, ts[1..]);
      } else {
        var x := (if a == [] then [] else a + [LF]) + ts[0].text;
        var y := (if b == [] then [] else b + [LF]) + ts[0].text;
        CollectRestSame(x, y, ts[1..]);
      }
    }
  }

  lemma DropOne(ts: seq<Token>)
    requires IsTrivia(Peek(ts))
    ensures Collect([], ts).rest == Collect([], ts[1..]).rest
  {
    if ts[0].kind != Newline {
      CollectRestSame([] + ts[0].text, [], ts[1..]);
    }
  }

  lemma NothingJoined(a: Bytes)
    ensures JoinNotes(a, []) == a
  {
  }

  lemma NothingBefore(a: Bytes)
    ensures JoinNotes([], a) == a
  {
  }

  /** A value just parsed has no comments on later lines. */
  lemma NoTrailYet(st: State, depth: nat, o: Options)
    ensures var r := ParseValue(st, depth, o); r.Ok? ==> r.val.notes.trail == []
  {
    hide ParseChildren, InlineComment, Unquote;
  }

  // Where a value ends

  /** What is left behind a value's own last token: behind its closing bracket,
      before any comment there, or behind a scalar. */
  function Own(st: State, depth: nat, o: Options): seq<Token> {
    if IsOpen(Peek(st.ts).kind) then
      var r := ParseChildren(State(st.ts[1..], st.keys, st.nodes + 1), depth + 1, o, Peek(st.ts).kind == ObjectStart, START);
      if r.Ok? then r.st.ts else []
    else if st.ts == [] then []
    else st.ts[1..]
  }

  /** Reading the value ended with a look at the token behind it: that is done
      for a comment behind a closing bracket, which would have been taken. */
  predicate LooksBehind(st: State, depth: nat, o: Options) {
    IsOpen(Peek(st.ts).kind) && !IsComment(Peek(Own(st, depth, o)))
  }

  lemma LeftIsOwn(st: State, depth: nat, o: Options)
    ensures var r := ParseValue(st, depth, o);
            r.Ok? ==> r.st.ts == if IsOpen(Peek(st.ts).kind) then InlineComment(Own(st, depth, o)).rest else Own(st, depth, o)
  {
    hide ParseChildren, InlineComment;
  }
}
