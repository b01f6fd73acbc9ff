/**
  The parser as it runs: one token of lookahead over the scanner, and counters
  for the limits. Each method is proved against the syntax functions on the
  tokens that remain.
 */
module Parser {
  import opened Ascii
  import opened Lexer
  import opened Positions
  import opened QuotedStrings
  import opened Tree
  import opened MemberIndex
  import Scanner
  import opened Slices
  import opened Syntax
  import opened SyntaxTurns
  import opened Halts
  import opened Unquoting

  datatype Outcome<+T> = Parsed(val: T) | Failed(error: ParseError, at: Position)

  /** What parse returns: a scan error takes precedence. */
  datatype Answer = Root(node: Node) | Refused(error: ParseError, at: Position) | Unreadable(where: Scanner.ScanError)

  /** r is the complaint c, its offset moved by k. */
  ghost predicate Reports(r: Answer, c: Complaint, src: Bytes, k: nat) {
    match c
    case OfToken(e, n) => r.Refused? && r.error == e && Located(src, r.at) && r.at.offset == k + n
    case OfScan(n) => r.Unreadable? && Located(src, r.where.at) && r.where.at.offset == k + n
  }

  class Parser {
    const sc: Scanner.Scanner
    const opts: Options
    var tok: Scanner.PlacedToken
    var have: bool
    var err: Option<Scanner.ScanError>
    var depth: nat
    var keys: nat
    var nodes: nat

    constructor (source: Bytes, o: Options)
      ensures Valid() && fresh(sc) && sc.src == source && opts == o
      ensures Now() == State(Tokens(source, o.strictJSON), 0, 0) && depth == 0 && sc.pos == 0 && !have
    {
      opts := o;
      sc := new Scanner.Scanner(source, o.strictJSON, false);
      tok := Scanner.PlacedToken(EofToken, [], Position(1, 1, 0));
      have, err := false, None;
      depth, keys, nodes := 0, 0, 0;
      new;
      hide Valid, Rest;
      Begun();
    }

    lemma Begun()
      requires sc.Valid() && !sc.rawOnly && sc.strictJSON == opts.strictJSON && sc.pos == 0 && !have && err == None
      ensures Valid() && Rest() == Tokens(sc.src, opts.strictJSON)
    {
      hide Located, Tokens, Stands, Fault;
      assert sc.src[0..] == sc.src;
      StandsAtStart(sc.src, opts.strictJSON);
    }

    ghost predicate Valid()
      reads this`have, this`tok, this`err, sc
    {
      sc.Valid() && !sc.rawOnly && sc.strictJSON == opts.strictJSON
      && (have ==> Located(sc.src, tok.at))
      && (have && tok.kind == EofToken ==> tok.value == [])
      && (err.Some? <==> have && tok.kind == ErrorToken)
      && (err.Some? ==> tok.value == [] && Located(sc.src, err.value.at))
      && (err.Some? && tok.at.offset <= |sc.src| ==>
            err.value.at.offset == tok.at.offset + Fault(sc.src[tok.at.offset..], opts.strictJSON))
      && (if have then Holds(sc.src, opts.strictJSON, Rest(), tok.at.offset, sc.pos)
          else Stands(sc.src, opts.strictJSON, Rest(), sc.pos))
    }

    /** The tokens not yet taken, the lookahead included. */
    ghost function Rest(): seq<Token>
      reads this`have, this`tok, sc
    {
      if sc.pos > |sc.src| then []
      else if !have then Tokens(sc.src[sc.pos..], opts.strictJSON)
      else if tok.kind == EofToken then []
      else if tok.kind == ErrorToken then [ERROR]
      else [Token(tok.kind, tok.value)] + Tokens(sc.src[sc.pos..], opts.strictJSON)
    }

    ghost function Now(): State
      reads this, sc
    {
      State(Rest(), keys, nodes)
    }

    /** at is the position of the first of the tokens ts, once looked at. */
    ghost predicate Points(at: Position, ts: seq<Token>)
      reads sc
    {
      Located(sc.src, at) && at.offset == EndSeen(sc.src, opts.strictJSON, ts, true)
    }

    /** The parser has stopped there. */
    ghost predicate StoppedAt(at: Position, h: Halt)
      reads this`have, this`tok, sc
    {
      Points(at, h.at) && Rest() == h.rest && have == h.looked
    }

    /** The outcome r in this state is what the specification says. */
    ghost predicate Gives<T>(r: Outcome<T>, spec: Result<T>, h: Halt)
      reads this, sc
    {
      match spec
      case Ok(n, st) => r == Parsed(n) && Now() == st
      case Err(e) => r.Failed? && r.error == e && StoppedAt(r.at, h)
    }

    // Tokens

    method Peek() returns (t: Scanner.PlacedToken)
      requires Valid()
      modifies this`tok, this`have, this`err, sc
      ensures Valid() && have && t == tok && Rest() == old(Rest())
      ensures Token(t.kind, t.value) == Syntax.Peek(Rest()) && Points(t.at, Rest())
      ensures t.kind == EofToken <==> Rest() == []
    {
      hide Located, Next, Tokens, Holds, Stands, Fault, EndSeen, EndsAt;
      if !have {
        ghost var start := sc.pos;
        tok, err := sc.Next();
        have := true;
        ScanHolds(sc.src, opts.strictJSON, old(Rest()), start, tok.at.offset, sc.pos);
        TokensUnfold(sc.src[start..], opts.strictJSON);
        DropTwice(sc.src, start, Next(sc.src[start..], opts.strictJSON).size);
      }
      HoldsEnds(sc.src, opts.strictJSON, Rest(), tok.at.offset, sc.pos);
      return tok;
    }

    method Bump()
      requires Valid()
      modifies this`tok, this`have, this`err, sc
      ensures Valid()
      ensures Rest() == if Syntax.Peek(old(Rest())) in {EOF, ERROR} then old(Rest()) else old(Rest())[1..]
      ensures have <==> Syntax.Peek(old(Rest())) in {EOF, ERROR}
    {
      hide Located, Tokens, Holds, Stands, Fault;
      var t := Peek();
      if t.kind != EofToken && t.kind != ErrorToken {
        BumpStands(sc.src, opts.strictJSON, Rest(), tok.at.offset, sc.pos);
        have := false;
      }
    }

    // Limits

    method EnterDepth() returns (over: Option<Position>)
      requires Valid()
      modifies this, sc
      ensures Valid() && Rest() == old(Rest()) && depth == old(depth) + 1 && keys == old(keys) && nodes == old(nodes)
      ensures over.Some? <==> Over(depth, opts.maxDepth)
      ensures over.Some? ==> StoppedAt(over.value, Here(Rest()))
    {
      hide Valid, Rest, Located, Tokens, Holds, Stands, EndSeen;
      depth := depth + 1;
      if opts.maxDepth > 0 && depth > opts.maxDepth {
        var t := Peek();
        return Some(t.at);
      }
      return None;
    }

    method ExitDepth()
      requires Valid() && depth > 0
      modifies this`depth
      ensures depth == old(depth) - 1
    {
      depth := depth - 1;
    }

    method BumpNodeCount() returns (over: Option<Position>)
      requires Valid()
      modifies this, sc
      ensures Valid() && Rest() == old(Rest()) && depth == old(depth) && keys == old(keys) && nodes == old(nodes) + 1
      ensures over.Some? <==> Over(nodes, opts.maxNodes)
      ensures over == None ==> have == old(have)
      ensures over.Some? ==> StoppedAt(over.value, Here(Rest()))
    {
      hide Valid, Rest, Located, Tokens, Holds, Stands, EndSeen;
      nodes := nodes + 1;
      if opts.maxNodes > 0 && nodes > opts.maxNodes {
        var t := Peek();
        return Some(t.at);
      }
      return None;
    }

    // Comments

    method CollectHeadComments() returns (text: Bytes)
      requires Valid()
      modifies this`tok, this`have, this`err, sc
      ensures Valid()
      ensures text == HeadComments(old(Rest())).text && Rest() == HeadComments(old(Rest())).rest
      ensures have && !IsTrivia(Syntax.Peek(Rest()))
    {
      hide Valid, Rest, Located, Tokens, Holds, Stands, EndSeen, IsBlankText;
      var sb: Bytes := [];
      while true
        invariant Valid() && Collect(sb, Rest()) == Collect([], old(Rest()))
        decreases |Rest()|
      {
        var t := Peek();
        if t.kind == Newline {
          Bump();
        } else if t.kind == LineComment || t.kind == BlockComment {
          if |sb| > 0 {
            sb := sb + [LF];
          }
          sb := sb + t.value;
          Bump();
        } else {
          return NonBlank(sb);
        }
      }
    }

    method CollectTrailingInlineComment() returns (text: Bytes)
      requires Valid()
      modifies this`tok, this`have, this`err, sc
      ensures Valid()
      ensures text == InlineComment(old(Rest())).text && Rest() == InlineComment(old(Rest())).rest
      ensures have <==> !IsComment(Syntax.Peek(old(Rest())))
    {
      hide Valid, Rest, Located, Tokens, Holds, Stands, EndSeen, IsBlankText;
      var t := Peek();
      if t.kind != LineComment && t.kind != BlockComment {
        return [];
      }
      Bump();
      return NonBlank(t.value);
    }

    method AttachAfterComma(n: Node) returns (n2: Node)
      requires Valid()
      modifies this`tok, this`have, this`err, sc
      ensures Valid()
      ensures n2 == Syntax.AttachAfterComma(n, InlineComment(old(Rest())).text)
      ensures Rest() == InlineComment(old(Rest())).rest
    {
      hide Valid, Rest, Located, Tokens, Holds, Stands, EndSeen, InlineComment, JoinNotes;
      var c := CollectTrailingInlineComment();
      if c == [] {
        n2 := n;
      } else if n.notes.line == [] {
        n2 := n.WithLine(c);
      } else {
        n2 := n.WithFoot(JoinNotes(n.notes.foot, c));
      }
    }

    method SkipDroppedComments()
      requires Valid()
      modifies this`tok, this`have, this`err, sc
      ensures Valid() && Rest() == Collect([], old(Rest())).rest
    {
      hide Valid, Rest, Located, Tokens, Holds, Stands, EndSeen;
      while true
        invariant Valid() && Collect([], Rest()).rest == Collect([], old(Rest())).rest
        decreases |Rest()|
      {
        var t := Peek();
        if t.kind == Newline || t.kind == LineComment || t.kind == BlockComment {
          DropOne(Rest());
          Bump();
        } else {
          return;
        }
      }
    }

    // Scalars

    method ParseStringValue() returns (r: Outcome<Node>)
      requires Valid() && Syntax.Peek(Rest()).kind == StringToken
      modifies this, sc
      ensures Valid() && Gives(r, ParseScalar(old(Now()), opts), HaltValue(old(Now()), old(depth), opts)) && depth == old(depth)
      ensures r.Parsed? ==> !have
    {
      hide Valid, Rest, Located, Tokens, Holds, Stands, EndSeen, Unquote;
      var t := Peek();
      var val := UnquoteString(t.value);
      if val == None {
        return Failed(UnexpectedToken, t.at);
      }
      Bump();
      var over := BumpNodeCount();
      if over.Some? {
        return Failed(TooManyNodes, over.value);
      }
      return Parsed(Scalar(StringNode, val.value, t.value));
    }

    method ParseNumberValue() returns (r: Outcome<Node>)
      requires Valid() && Syntax.Peek(Rest()).kind == NumberToken
      modifies this, sc
      ensures Valid() && Gives(r, ParseScalar(old(Now()), opts), HaltValue(old(Now()), old(depth), opts)) && depth == old(depth)
      ensures r.Parsed? ==> !have
    {
      hide Valid, Rest, Located, Tokens, Holds, Stands, EndSeen, Unquote;
      var t := Peek();
      Bump();
      var over := BumpNodeCount();
      if over.Some? {
        return Failed(TooManyNodes, over.value);
      }
      return Parsed(Scalar(NumberNode, t.value, t.value));
    }

    method ParseBoolValue() returns (r: Outcome<Node>)
      requires Valid() && Syntax.Peek(Rest()).kind in {TrueToken, FalseToken}
      modifies this, sc
      ensures Valid() && Gives(r, ParseScalar(old(Now()), opts), HaltValue(old(Now()), old(depth), opts)) && depth == old(depth)
      ensures r.Parsed? ==> !have
    {
      hide Valid, Rest, Located, Tokens, Holds, Stands, EndSeen, Unquote;
      var t := Peek();
      Bump();
      var over := BumpNodeCount();
      if over.Some? {
        return Failed(TooManyNodes, over.value);
      }
      return Parsed(Scalar(BoolNode, t.value, t.value));
    }

    method ParseNullValue() returns (r: Outcome<Node>)
      requires Valid() && Syntax.Peek(Rest()).kind == NullToken
      modifies this, sc
      ensures Valid() && Gives(r, ParseScalar(old(Now()), opts), HaltValue(old(Now()), old(depth), opts)) && depth == old(depth)
      ensures r.Parsed? ==> !have
    {
      hide Valid, Rest, Located, Tokens, Holds, Stands, EndSeen, Unquote;
      Bump();
      var over := BumpNodeCount();
      if over.Some? {
        return Failed(TooManyNodes, over.value);
      }
      return Parsed(Scalar(NullNode, NULL_WORD, NULL_WORD));
    }

    // Values

    method ParseValue() returns (r: Outcome<Node>)
      requires Valid()
      modifies this, sc
      ensures Valid() && Gives(r, Syntax.ParseValue(old(Now()), old(depth), opts), HaltValue(old(Now()), old(depth), opts))
      ensures r.Parsed? ==> depth == old(depth)
      ensures r.Parsed? ==> have == LooksBehind(old(Now()), old(depth), opts)
      decreases |Rest()|, 1
    {
      hide Valid, Rest, Located, Tokens, Holds, Stands, EndSeen, ParseContainer;
      var t := Peek();
      if t.kind == ObjectStart {
        r := ParseObject();
      } else if t.kind == ArrayStart {
        r := ParseArray();
      } else if t.kind == StringToken {
        r := ParseStringValue();
      } else if t.kind == NumberToken {
        r := ParseNumberValue();
      } else if t.kind == TrueToken || t.kind == FalseToken {
        r := ParseBoolValue();
      } else if t.kind == NullToken {
        r := ParseNullValue();
      } else {
        r := Failed(UnexpectedToken, t.at);
      }
    }

    /** The comments behind a child of a container, and its comma. */
    method FollowChild(n: Node, obj: bool) returns (child: Node, foot: Bytes, comma: bool, bad: Option<Position>)
      requires Valid()
      modifies this`tok, this`have, this`err, sc
      ensures Valid()
      ensures match Follow(n, old(Rest()), obj)
              case None => bad.Some? && StoppedAt(bad.value, HaltFollow(old(Rest())))
              case Some(f) => bad == None && f == Followed(child, foot, comma, Rest())
    {
      hide Valid, Rest, Located, Tokens, Holds, Stands, EndSeen, HeadComments, InlineComment, Syntax.AttachAfterComma, JoinNotes;
      child, foot, comma, bad := n, [], false, None;
      var c := CollectTrailingInlineComment();
      if c != [] {
        child := child.WithLine(c);
      }
      var between := CollectHeadComments();
      var t := Peek();
      if t.kind == ValueSeparator {
        if between != [] {
          child := child.WithFoot(JoinNotes(child.notes.foot, between));
        }
        NothingJoined(child.notes.foot);
        Bump();
        comma := true;
        child := AttachAfterComma(child);
      } else if t.kind == Close(obj) {
        foot := between;
      } else {
        bad := Some(t.at);
      }
    }

    method ParseObject() returns (r: Outcome<Node>)
      requires Valid() && Syntax.Peek(Rest()).kind == ObjectStart
      modifies this, sc
      ensures Valid() && Gives(r, ParseContainer(old(Now()), old(depth), opts), HaltContainer(old(Now()), old(depth), opts))
      ensures r.Parsed? ==> depth == old(depth)
      ensures r.Parsed? ==> have == LooksBehind(old(Now()), old(depth), opts)
      decreases |Rest()|, 0
    {
      hide Valid, Rest, Located, Tokens, Holds, Stands, EndSeen, ParseChildren, ParseChild, Syntax.ParseValue, InlineComment;
      hide HaltChildren, Points;
      var over := EnterDepth();
      if over.Some? {
        return Failed(TooDeep, over.value);
      }
      Bump();
      over := BumpNodeCount();
      if over.Some? {
        return Failed(TooManyNodes, over.value);
      }
      var inside := ParseMembers();
      if inside.Failed? {
        return Failed(inside.error, inside.at);
      }
      var line := CollectTrailingInlineComment();
      ExitDepth();
      return Parsed(Container(ObjectNode, inside.val.children, inside.val.foot, line));
    }

    /** The duplicate check and the key limit for a member just read, which
        then joins the others. */
    method Admit(members: MemberIndex, slots: Slots, n: Node, at: Position) returns (r: Outcome<Slots>)
      requires Valid() && members.Indexes(slots) && DistinctSlots(slots)
      modifies this`keys, members
      ensures match Refusal(n, old(Now()), opts, true, Live(slots))
              case Some(e) => r == Failed(e, at)
              case None =>
                r.Parsed? && keys == old(keys) + 1 && Placed(slots, n, r.val) && members.Indexes(r.val)
    {
      hide Valid, Rest, Located, Tokens, Holds, Stands, EndSeen, DistinctSlots, FoundAt, Live, Without, HasKey, Absent;
      var i := members.Find(slots, n.key);
      FoundIsHasKey(slots, n.key, i);
      if i >= 0 && !opts.allowDuplicateKeys {
        return Failed(DuplicateKey(n.key), at);
      }
      var after := members.Place(slots, n, i);
      keys := keys + 1;
      if opts.maxKeys > 0 && keys > opts.maxKeys {
        return Failed(TooManyKeys, at);
      }
      return Parsed(after);
    }

    /** What is left to do once a member is read: the checks, its comments and
        its comma. */
    method AddMember(members: MemberIndex, slots: Slots, foot: Bytes, n: Node, at: Position)
      returns (r: Outcome<Slots>, footAfter: Bytes, comma: bool)
      requires Valid() && members.Indexes(slots) && DistinctSlots(slots)
      modifies this, sc, members
      ensures Valid() && depth == old(depth)
      ensures match Attach(n, old(Now()), opts, true, Inside(Live(slots), foot))
              case Err(e) =>
                && r.Failed? && r.error == e
                && (if Refusal(n, old(Now()), opts, true, Live(slots)).Some? then
                      r.at == at && Rest() == old(Rest()) && have == old(have)
                    else StoppedAt(r.at, HaltFollow(old(Rest()))))
              case Ok(next, st) =>
                r.Parsed? && Now() == st && next == Turn(Inside(Live(r.val), footAfter), comma)
                && members.Indexes(r.val) && DistinctSlots(r.val)
    {
      hide Valid, Rest, Located, Tokens, Holds, Stands, EndSeen, Attach, Follow, JoinNotes, DistinctSlots, Live, Put, Refusal, Placed;
      footAfter, comma := foot, false;
      AttachFollows(n, Now(), opts, true, Inside(Live(slots), foot));
      var admitted := Admit(members, slots, n, at);
      if admitted.Failed? {
        return Failed(admitted.error, admitted.at), foot, false;
      }
      FollowKeepsKey(n, Rest(), true);
      var child, more, after, bad := FollowChild(n, true);
      if bad.Some? {
        return Failed(UnexpectedToken, bad.value), foot, false;
      }
      var kept := members.Rewrite(slots, admitted.val, n, child);
      return Parsed(kept), JoinNotes(foot, more), after;
    }

    /** The members of an object, through its closing brace. */
    method ParseMembers() returns (r: Outcome<Inside>)
      requires Valid()
      modifies this, sc
      ensures Valid()
      ensures Gives(r, ParseChildren(old(Now()), old(depth), opts, true, START), HaltChildren(old(Now()), old(depth), opts, true, START))
      ensures r.Parsed? ==> depth == old(depth)
      decreases |Rest()|, 3
    {
      hide Valid, Rest, Located, Tokens, Holds, Stands, EndSeen, ParseChildren, ParseChild, HeadComments, InlineComment, Attach, Follow, JoinNotes;
      hide DistinctSlots, FoundAt, Live, HaltChildren, HaltChild, LooksBehindChild;
      var members := new MemberIndex();
      var slots: Slots := [];
      var foot: Bytes := [];
      var justConsumedComma := false;
      NoSlots();
      while true
        invariant Valid() && depth == old(depth) && |Rest()| <= old(|Rest()|)
        invariant fresh(members) && members.Indexes(slots) && DistinctSlots(slots)
        invariant ParseChildren(Now(), depth, opts, true, Turn(Inside(Live(slots), foot), justConsumedComma))
                  == ParseChildren(old(Now()), old(depth), opts, true, START)
        invariant HaltChildren(Now(), depth, opts, true, Turn(Inside(Live(slots), foot), justConsumedComma))
                  == HaltChildren(old(Now()), old(depth), opts, true, START)
        decreases |Rest()|
      {
        ghost var st, turn := Now(), Turn(Inside(Live(slots), foot), justConsumedComma);
        HaltTurn(st, depth, opts, true, turn);
        var head := CollectHeadComments();
        var t := Peek();
        if t.kind == ObjectEnd {
          ClosingTurn(st, depth, opts, true, turn);
          if justConsumedComma && opts.strictJSON {
            return Failed(TrailingComma, t.at);
          }
          Bump();
          return Parsed(Inside(Live(slots), JoinNotes(foot, head)));
        }
        ChildTurn(st, depth, opts, true, turn);
        if t.kind != StringToken {
          NoMember(Now(), depth, opts, head);
          HaltNoMember(Now(), depth, opts, head);
          return Failed(UnexpectedToken, t.at);
        }
        var member, at := ParseMember(head);
        if member.Failed? {
          return Failed(member.error, member.at);
        }
        var added;
        added, foot, justConsumedComma := AddMember(members, slots, foot, member.val, at);
        if added.Failed? {
          return Failed(added.error, added.at);
        }
        slots := added.val;
      }
    }

    method ParseMember(head: Bytes) returns (r: Outcome<Node>, at: Position)
      requires Valid()
      modifies this, sc
      ensures Valid() && Points(at, old(Rest()))
      ensures Gives(r, ParseChild(old(Now()), old(depth), opts, true, head), HaltChild(old(Now()), old(depth), opts, true, head))
      ensures r.Parsed? ==> have == LooksBehindChild(old(Now()), old(depth), opts, true)
      ensures r.Parsed? ==> depth == old(depth)
      decreases |Rest()|, 2
    {
      hide Valid, Rest, Located, Tokens, Holds, Stands, EndSeen, Syntax.ParseValue, ParseChild, Collect, Unquote;
      hide HaltChild, HaltValue, LooksBehindChild, LooksBehind;
      var t := Peek();
      at := t.at;
      if t.kind != StringToken {
        NoMember(Now(), depth, opts, head);
        HaltNoMember(Now(), depth, opts, head);
        return Failed(UnexpectedToken, t.at), at;
      }
      var key := UnquoteString(t.value);
      if key == None {
        BadMember(Now(), depth, opts, head);
        HaltNoMember(Now(), depth, opts, head);
        return Failed(UnexpectedToken, t.at), at;
      }
      MemberIs(Now(), depth, opts, head);
      HaltMember(Now(), depth, opts, head);
      Bump();
      SkipDroppedComments();
      var colon := Peek();
      if colon.kind != NameSeparator {
        return Failed(UnexpectedToken, colon.at), at;
      }
      Bump();
      SkipDroppedComments();
      r := ParseValue();
      if r.Failed? {
        return;
      }
      var over := BumpNodeCount();
      if over.Some? {
        return Failed(TooManyNodes, over.value), at;
      }
      r := Parsed(KeyValue(key.value, t.value, r.val, head));
    }

    method ParseArray() returns (r: Outcome<Node>)
      requires Valid() && Syntax.Peek(Rest()).kind == ArrayStart
      modifies this, sc
      ensures Valid() && Gives(r, ParseContainer(old(Now()), old(depth), opts), HaltContainer(old(Now()), old(depth), opts))
      ensures r.Parsed? ==> depth == old(depth)
      ensures r.Parsed? ==> have == LooksBehind(old(Now()), old(depth), opts)
      decreases |Rest()|, 0
    {
      hide Valid, Rest, Located, Tokens, Holds, Stands, EndSeen, ParseChildren, ParseChild, Syntax.ParseValue, InlineComment;
      hide HaltChildren, Points;
      var over := EnterDepth();
      if over.Some? {
        return Failed(TooDeep, over.value);
      }
      Bump();
      over := BumpNodeCount();
      if over.Some? {
        return Failed(TooManyNodes, over.value);
      }
      var inside := ParseElements();
      if inside.Failed? {
        return Failed(inside.error, inside.at);
      }
      var line := CollectTrailingInlineComment();
      ExitDepth();
      return Parsed(Container(ArrayNode, inside.val.children, inside.val.foot, line));
    }

    /** The elements of an array, through its closing bracket. */
    method ParseElements() returns (r: Outcome<Inside>)
      requires Valid()
      modifies this, sc
      ensures Valid()
      ensures Gives(r, ParseChildren(old(Now()), old(depth), opts, false, START), HaltChildren(old(Now()), old(depth), opts, false, START))
      ensures r.Parsed? ==> depth == old(depth)
      decreases |Rest()|, 3
    {
      hide Valid, Rest, Located, Tokens, Holds, Stands, EndSeen, ParseChildren, HeadComments, InlineComment, Attach, Follow, JoinNotes;
      hide Syntax.ParseValue, HaltChildren, HaltValue, Points;
      var kids: seq<Node> := [];
      var foot: Bytes := [];
      var justConsumedComma := false;
      while true
        invariant Valid() && depth == old(depth) && |Rest()| <= old(|Rest()|)
        invariant ParseChildren(Now(), depth, opts, false, Turn(Inside(kids, foot), justConsumedComma))
                  == ParseChildren(old(Now()), old(depth), opts, false, START)
        invariant HaltChildren(Now(), depth, opts, false, Turn(Inside(kids, foot), justConsumedComma))
                  == HaltChildren(old(Now()), old(depth), opts, false, START)
        decreases |Rest()|
      {
        ghost var st, turn := Now(), Turn(Inside(kids, foot), justConsumedComma);
        HaltTurn(st, depth, opts, false, turn);
        var head := CollectHeadComments();
        var t := Peek();
        if t.kind == ArrayEnd {
          ClosingTurn(st, depth, opts, false, turn);
          if justConsumedComma && opts.strictJSON {
            return Failed(TrailingComma, t.at);
          }
          Bump();
          return Parsed(Inside(kids, JoinNotes(foot, head)));
        }
        ChildTurn(st, depth, opts, false, turn);
        var val := ParseValue();
        if val.Failed? {
          return Failed(val.error, val.at);
        }
        var element := val.val.WithHead(JoinNotes(val.val.notes.head, head));
        AttachFollows(element, Now(), opts, false, turn.sofar);
        FollowKeepsKey(element, Rest(), false);
        var child, more, comma, bad := FollowChild(element, false);
        if bad.Some? {
          return Failed(UnexpectedToken, bad.value);
        }
        kids := kids + [child];
        foot := JoinNotes(foot, more);
        justConsumedComma := comma;
      }
    }

    // Documents

    /** The comments behind the root value, and nothing else. */
    method ConsumeTrailing(root: Node) returns (r: Outcome<Node>)
      requires Valid()
      modifies this`tok, this`have, this`err, sc
      ensures Valid()
      ensures var trail := Collect([], old(Rest()));
              if trail.rest == [] then
                r == Parsed(root.WithTrail(JoinNotes(root.notes.trail, NonBlank(trail.text)))) && Rest() == []
              else r.Failed? && r.error == ExtraData && StoppedAt(r.at, Here(trail.rest))
    {
      hide Valid, Rest, Located, Tokens, Holds, Stands, EndSeen, IsBlankText, JoinNotes;
      var sb: Bytes := [];
      while true
        invariant Valid() && Collect(sb, Rest()) == Collect([], old(Rest()))
        decreases |Rest()|
      {
        var t := Peek();
        if t.kind == EofToken {
          return Parsed(root.WithTrail(JoinNotes(root.notes.trail, NonBlank(sb))));
        } else if t.kind == Newline {
          Bump();
        } else if t.kind == LineComment || t.kind == BlockComment {
          if |sb| > 0 {
            sb := sb + [LF];
          }
          sb := sb + t.value;
          Bump();
        } else {
          return Failed(ExtraData, t.at);
        }
      }
    }

    method ParseRoot() returns (r: Outcome<Node>)
      requires Valid() && depth == 0 && keys == 0 && nodes == 0
      modifies this, sc
      ensures Valid()
      ensures match ParseDocument(old(Rest()), opts)
              case Ok(n, st) => r == Parsed(n) && Rest() == []
              case Err(e) => r.Failed? && r.error == e && StoppedAt(r.at, HaltDocument(old(Rest()), opts))
    {
      hide Valid, Rest, Located, Tokens, Holds, Stands, EndSeen, HeadComments, InlineComment, Collect, Syntax.ParseValue, JoinNotes, NonBlank;
      hide HaltValue;
      var lead := CollectHeadComments();
      var t := Peek();
      if t.kind == EofToken {
        return Failed(NoValue, t.at);
      }
      NoTrailYet(Now(), depth, opts);
      r := ParseValue();
      if r.Failed? {
        return;
      }
      var root := r.val.WithHead(JoinNotes(lead, r.val.notes.head));
      if root.notes.line == [] {
        var line := CollectTrailingInlineComment();
        root := root.WithLine(line);
      }
      NothingBefore(NonBlank(Collect([], Rest()).text));
      r := ConsumeTrailing(root);
    }

    /** The scan error that the parser has come to, if any. */
    ghost predicate Stopped(e: Option<Scanner.ScanError>)
      reads this`have, this`tok, sc
    {
      (e.Some? <==> have && Rest() == [ERROR])
      && (e.Some? ==>
            Located(sc.src, e.value.at) && e.value.at.offset == ErrorOffset(sc.src, opts.strictJSON)
            && ERROR in Tokens(sc.src, opts.strictJSON))
    }

    lemma ErrorIsStop()
      requires Valid()
      ensures Stopped(err)
    {
      hide Located, Tokens, Holds, Stands, Fault, Behind, EndSeen;
      if err.Some? {
        HeldIsToken(sc.src, opts.strictJSON, [ERROR], tok.at.offset, sc.pos);
        HoldsEnds(sc.src, opts.strictJSON, [ERROR], tok.at.offset, sc.pos);
        SeenError(sc.src, opts.strictJSON);
      } else if have && Rest() != [] {
        assert Rest()[0] == Token(tok.kind, tok.value);
      }
    }

    /** parse: a document, whole, or what it complains of. */
    method Parse() returns (r: Answer)
      requires Valid() && sc.pos == 0 && !have && depth == 0 && keys == 0 && nodes == 0
      modifies this, sc
      ensures Valid()
      ensures match Syntax.Parse(sc.src, opts)
              case Ok(n, _) => r == Root(n)
              case Err(_) => Reports(r, ComplaintOf(sc.src, opts).value, sc.src, 0)
    {
      hide Valid, Located, Tokens, Holds, Stands, ParseDocument, EndSeen, HaltDocument, ErrorOffset;
      StartsWhole();
      var root := ParseRoot();
      ErrorIsStop();
      if root.Failed? {
        if err.Some? {
          return Unreadable(err.value);
        }
        return Refused(root.error, root.at);
      }
      return Root(root.val);
    }

    lemma StartsWhole()
      requires Valid() && sc.pos == 0 && !have
      ensures Rest() == Tokens(sc.src, opts.strictJSON)
    {
      assert sc.src[0..] == sc.src;
    }

    /** valueEnd: the offset just past the value parsed last and the blanks
        after it. */
    method ValueEnd() returns (end: nat)
      requires Valid()
      modifies this`tok, this`have, this`err, sc
      ensures Valid() && Rest() == old(Rest()) && EndsAt(sc.src, opts.strictJSON, Rest(), end)
      ensures end == EndSeen(sc.src, opts.strictJSON, Rest(), old(have))
    {
      hide Located, Tokens, Holds, Stands, EndsAt, EndSeen, Blanks;
      if have {
        HoldsEnds(sc.src, opts.strictJSON, Rest(), tok.at.offset, sc.pos);
        return tok.at.offset;
      }
      StandsFurther(sc.src, opts.strictJSON, Rest(), sc.pos);
      TokensFurther(sc.src, opts.strictJSON, sc.pos);
      sc.SkipBlanks();
      return sc.pos;
    }
  }
}
