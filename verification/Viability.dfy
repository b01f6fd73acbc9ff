/**
  Where an error is reported: at the first token with which the tokens so far can
  no longer be continued to a document. Limits on keys and nodes, and the check
  for duplicate keys, are another matter: they are reported where they are hit.
 */
module Viability {
  import opened Ascii
  import opened Lexer
  import opened QuotedStrings
  import opened Tree
  import opened Syntax
  import opened SyntaxTurns
  import opened Transparency
  import opened Locality
  import opened Halts

  /** No check but that of the nesting. */
  function Unchecked(o: Options): Options { o.(allowDuplicateKeys := true, maxKeys := 0, maxNodes := 0) }

  predicate IsUnchecked(o: Options) { o.allowDuplicateKeys && o.maxKeys <= 0 && o.maxNodes <= 0 }

  /** Errors of the syntax, and of the nesting. */
  predicate IsSyntactic(e: ParseError) { e in {UnexpectedToken, ExtraData, NoValue, TrailingComma, TooDeep} }

  // Without the checks, the same tokens are taken and the same errors found.

  predicate Agrees<T(==)>(r: Result<T>, q: Result<T>, h: Halt, g: Halt) {
    (r.Ok? ==> q == r) && (r.Err? && IsSyntactic(r.error) ==> q == r && g == h)
  }

  lemma {:induction false} ValueUnchecked(st: State, d: nat, o: Options)
    ensures var u := Unchecked(o);
            Agrees(ParseValue(st, d, o), ParseValue(st, d, u), HaltValue(st, d, o), HaltValue(st, d, u))
    decreases |st.ts|, 1
  {
    hide ParseContainer, HaltContainer, Unquote;
    if IsOpen(Peek(st.ts).kind) {
      ContainerUnchecked(st, d, o);
    }
  }

  lemma {:induction false} ContainerUnchecked(st: State, d: nat, o: Options)
    requires IsOpen(Peek(st.ts).kind)
    ensures var u := Unchecked(o);
            Agrees(ParseContainer(st, d, o), ParseContainer(st, d, u), HaltContainer(st, d, o), HaltContainer(st, d, u))
    decreases |st.ts|, 0
  {
    hide ParseChildren, HaltChildren, InlineComment;
    ChildrenUnchecked(State(st.ts[1..], st.keys, st.nodes + 1), d + 1, o, Peek(st.ts).kind == ObjectStart, START);
  }

  lemma {:induction false} ChildUnchecked(st: State, d: nat, o: Options, obj: bool, head: Bytes)
    ensures var u := Unchecked(o);
            Agrees(ParseChild(st, d, o, obj, head), ParseChild(st, d, u, obj, head),
                   HaltChild(st, d, o, obj, head), HaltChild(st, d, u, obj, head))
    decreases |st.ts|, 2
  {
    hide ParseValue, HaltValue, Unquote, Collect;
    if !obj {
      ValueUnchecked(st, d, o);
    } else if Peek(st.ts).kind == StringToken {
      var colon := Collect([], st.ts[1..]).rest;
      if Peek(colon).kind == NameSeparator {
        ValueUnchecked(st.(ts := Collect([], colon[1..]).rest), d, o);
      }
    }
  }

  lemma {:induction false} ChildrenUnchecked(st: State, d: nat, o: Options, obj: bool, turn: Turn)
    ensures var u := Unchecked(o);
            Agrees(ParseChildren(st, d, o, obj, turn), ParseChildren(st, d, u, obj, turn),
                   HaltChildren(st, d, o, obj, turn), HaltChildren(st, d, u, obj, turn))
    decreases |st.ts|, 3
  {
    hide ParseChild, HaltChild, Attach, HeadComments, LooksBehindChild, Refusal, HaltFollow, ParseChildren, HaltChildren, HaltAtChild;
    var u := Unchecked(o);
    var head := HeadComments(st.ts);
    HaltTurn(st, d, o, obj, turn);
    HaltTurn(st, d, u, obj, turn);
    if Peek(head.rest).kind == Close(obj) {
      ClosingTurn(st, d, o, obj, turn);
      ClosingTurn(st, d, u, obj, turn);
    } else {
      var child := st.(ts := head.rest);
      ChildTurn(st, d, o, obj, turn);
      ChildTurn(st, d, u, obj, turn);
      ChildUnchecked(child, d, o, obj, head.text);
      var c := ParseChild(child, d, o, obj, head.text);
      AtChild(child, d, o, obj, head.text, turn);
      AtChild(child, d, u, obj, head.text, turn);
      if c.Ok? {
        AttachUnchecked(c.val, c.st, o, obj, turn.sofar);
        var a := Attach(c.val, c.st, o, obj, turn.sofar);
        if a.Ok? {
          ChildrenUnchecked(a.st, d, o, obj, a.val);
        }
      }
    }
  }

  lemma AtChild(child: State, d: nat, o: Options, obj: bool, head: Bytes, turn: Turn)
    ensures var c := ParseChild(child, d, o, obj, head);
            HaltAtChild(child, d, o, obj, head, turn)
            == if c.Err? then HaltChild(child, d, o, obj, head) else HaltAfter(child, d, o, obj, turn, c.val, c.st)
  {
    hide ParseChild, HaltChild, HaltAfter;
  }

  lemma AttachUnchecked(n: Node, st: State, o: Options, obj: bool, sofar: Inside)
    ensures var r, q := Attach(n, st, o, obj, sofar), Attach(n, st, Unchecked(o), obj, sofar);
            (r.Ok? ==> q == r) && (r.Err? && IsSyntactic(r.error) ==> q == r)
    ensures var r := Attach(n, st, o, obj, sofar);
            r.Err? && IsSyntactic(r.error) ==>
              Refusal(n, st, o, obj, sofar.children) == None && Refusal(n, st, Unchecked(o), obj, sofar.children) == None
  {
    hide Put, HasKey, HeadComments, AttachAfterComma, Follow;
    AttachFollows(n, st, o, obj, sofar);
  }

  lemma DocumentUnchecked(ts: seq<Token>, o: Options)
    ensures var u := Unchecked(o);
            Agrees(ParseDocument(ts, o), ParseDocument(ts, u), HaltDocument(ts, o), HaltDocument(ts, u))
  {
    hide ParseValue, HaltValue, HeadComments, Finish, HaltFinish, JoinNotes;
    ValueUnchecked(State(HeadComments(ts).rest, 0, 0), 0, o);
  }

  // Comments and line breaks make no difference to where that is.

  /** h is at a token of the syntax, and at the same one as g. */
  predicate SameHalt(h: Halt, g: Halt) { Plain(h.at) == g.at && !IsTrivia(Peek(h.at)) }

  lemma {:induction false} ValueHaltsSame(st: State, d: nat, o: Options)
    requires IsUnchecked(o) && !IsTrivia(Peek(st.ts)) && ParseValue(st, d, o).Err?
    ensures SameHalt(HaltValue(st, d, o), HaltValue(PlainState(st), d, o))
    decreases |st.ts|, 1
  {
    hide ParseContainer, HaltContainer, Unquote;
    if st.ts != [] {
      PlainStep(st.ts);
      if IsOpen(st.ts[0].kind) {
        ContainerHaltsSame(st, d, o);
      }
    }
  }

  lemma {:induction false} ContainerHaltsSame(st: State, d: nat, o: Options)
    requires IsUnchecked(o) && IsOpen(Peek(st.ts).kind) && IsOpen(Peek(Plain(st.ts)).kind) && ParseContainer(st, d, o).Err?
    ensures SameHalt(HaltContainer(st, d, o), HaltContainer(PlainState(st), d, o))
    decreases |st.ts|, 0
  {
    hide ParseChildren, HaltChildren, Plain, InlineComment;
    OpenIsPlain(st.ts);
    PlainStep(st.ts);
    if !Over(d + 1, o.maxDepth) {
      var obj := st.ts[0].kind == ObjectStart;
      ChildrenHaltSame(State(st.ts[1..], st.keys, st.nodes + 1), d + 1, o, obj, START, START);
    }
  }

  lemma {:induction false} ChildHaltsSame(st: State, d: nat, o: Options, obj: bool, head: Bytes, head': Bytes)
    requires IsUnchecked(o) && !IsTrivia(Peek(st.ts)) && ParseChild(st, d, o, obj, head).Err?
    ensures SameHalt(HaltChild(st, d, o, obj, head), HaltChild(PlainState(st), d, o, obj, head'))
    decreases |st.ts|, 2
  {
    hide ParseValue, HaltValue, ParseChild, HaltChild, Plain, Unquote, Collect;
    if !obj {
      ElementIs(st, d, o, head);
      ElementHalts(st, d, o, head);
      ElementHalts(PlainState(st), d, o, head');
      ValueHaltsSame(st, d, o);
    } else if st.ts == [] {
      PlainEmpty();
      HaltNoMember(st, d, o, head);
      HaltNoMember(PlainState(st), d, o, head');
    } else {
      PlainStep(st.ts);
      if st.ts[0].kind != StringToken || Unquote(st.ts[0].text) == None {
        HaltNoMember(st, d, o, head);
        HaltNoMember(PlainState(st), d, o, head');
      } else {
        MemberHaltsSame(st, d, o, head, head');
      }
    }
  }

  lemma ElementHalts(st: State, d: nat, o: Options, head: Bytes)
    ensures HaltChild(st, d, o, false, head) == HaltValue(st, d, o)
  {
    hide HaltValue;
  }

  lemma {:induction false} MemberHaltsSame(st: State, d: nat, o: Options, head: Bytes, head': Bytes)
    requires IsUnchecked(o) && st.ts != [] && st.ts[0].kind == StringToken && Unquote(st.ts[0].text).Some?
    requires ParseChild(st, d, o, true, head).Err?
    ensures SameHalt(HaltChild(st, d, o, true, head), HaltChild(PlainState(st), d, o, true, head'))
    decreases |st.ts|, 1
  {
    hide ParseValue, HaltValue, ParseChild, HaltChild, Plain, Unquote, Collect;
    PlainStep(st.ts);
    MemberIs(st, d, o, head);
    HaltMember(st, d, o, head);
    HaltMember(PlainState(st), d, o, head');
    var colon := Collect([], st.ts[1..]).rest;
    CollectIsPlain([], st.ts[1..]);
    SkipsNothing([], st.ts[1..]);
    CollectNotLonger([], st.ts[1..]);
    if Peek(colon).kind == NameSeparator {
      PlainStep(colon);
      CollectIsPlain([], colon[1..]);
      SkipsNothing([], colon[1..]);
      CollectNotLonger([], colon[1..]);
      var value := st.(ts := Collect([], colon[1..]).rest);
      ValueTransparent(value, d, o);
      if ParseValue(value, d, o).Err? {
        ValueHaltsSame(value, d, o);
      }
    }
  }

  lemma {:induction false} ChildrenHaltSame(st: State, d: nat, o: Options, obj: bool, turn: Turn, turn': Turn)
    requires IsUnchecked(o) && ParseChildren(st, d, o, obj, turn).Err?
    requires ValuesOf(turn.sofar.children) == ValuesOf(turn'.sofar.children) && turn.afterComma == turn'.afterComma
    ensures SameHalt(HaltChildren(st, d, o, obj, turn), HaltChildren(PlainState(st), d, o, obj, turn'))
    decreases |st.ts|, 3
  {
    hide ParseChild, HaltChild, Plain, Attach, ValuesOf, ParseChildren, HaltChildren, Collect, HaltAfter, Refusal, HaltAtChild;
    var head := HeadComments(st.ts);
    CollectIsPlain([], st.ts);
    SkipsNothing([], st.ts);
    CollectNotLonger([], st.ts);
    HaltTurn(st, d, o, obj, turn);
    HaltTurn(PlainState(st), d, o, obj, turn');
    if Peek(head.rest).kind != Close(obj) {
      var st0 := st.(ts := head.rest);
      ChildTurn(st, d, o, obj, turn);
      ChildTransparent(st0, d, o, obj, head.text, []);
      var r := ParseChild(st0, d, o, obj, head.text);
      AtChild(st0, d, o, obj, head.text, turn);
      AtChild(PlainState(st0), d, o, obj, [], turn');
      if r.Ok? {
        var r' := ParseChild(PlainState(st0), d, o, obj, []);
        AfterHaltsSame(st0, r, r', d, o, obj, turn, turn');
      } else {
        ChildHaltsSame(st0, d, o, obj, head.text, []);
      }
    }
  }

  lemma {:induction false} AfterHaltsSame(
    child: State, r: Result<Node>, r': Result<Node>, d: nat, o: Options, obj: bool, turn: Turn, turn': Turn)
    requires IsUnchecked(o) && r.Ok? && SameNode(r, r') && |r.st.ts| < |child.ts|
    requires AfterChild(r, d, o, obj, turn).Err?
    requires ValuesOf(turn.sofar.children) == ValuesOf(turn'.sofar.children) && turn.afterComma == turn'.afterComma
    ensures SameHalt(HaltAfter(child, d, o, obj, turn, r.val, r.st), HaltAfter(PlainState(child), d, o, obj, turn', r'.val, r'.st))
    decreases |child.ts|, 2
  {
    hide Plain, Attach, ValuesOf, ParseChildren, HaltChildren, LooksBehindChild, HaltFollow;
    AttachTransparent(r.val, r'.val, r.st, o, obj, turn.sofar, turn'.sofar);
    var a := Attach(r.val, r.st, o, obj, turn.sofar);
    var a' := Attach(r'.val, r'.st, o, obj, turn'.sofar);
    if a.Ok? {
      ChildrenHaltSame(a.st, d, o, obj, a.val, a'.val);
    } else {
      FollowHaltsSame(r.st.ts);
    }
  }

  lemma FollowHaltsSame(ts: seq<Token>)
    ensures SameHalt(HaltFollow(ts), HaltFollow(Plain(ts)))
  {
    hide Plain, Collect;
    var line := InlineComment(ts).rest;
    InlineIsPlain(ts);
    SkipsNothing([], ts);
    CollectIsPlain([], line);
    CollectNotLonger([], line);
  }

  lemma DocumentHaltsSame(ts: seq<Token>, o: Options)
    requires IsUnchecked(o) && ParseDocument(ts, o).Err?
    ensures SameHalt(HaltDocument(ts, o), HaltDocument(Plain(ts), o))
  {
    hide Plain, ParseValue, HaltValue, Collect;
    var lead := HeadComments(ts);
    CollectIsPlain([], ts);
    SkipsNothing([], ts);
    CollectNotLonger([], ts);
    if lead.rest == [] {
      PlainEmpty();
    } else {
      var st := State(lead.rest, 0, 0);
      ValueTransparent(st, 0, o);
      var r, r' := ParseValue(st, 0, o), ParseValue(PlainState(st), 0, o);
      SomePlain(lead.rest);
      if r.Ok? {
        FinishHaltsSame(r.val.WithHead(JoinNotes(lead.text, r.val.notes.head)), r'.val.WithHead(JoinNotes([], r'.val.notes.head)), r.st);
      } else {
        ValueHaltsSame(st, 0, o);
      }
    }
  }

  lemma SomePlain(ts: seq<Token>)
    requires ts != [] && !IsTrivia(ts[0])
    ensures Plain(ts) != []
  {
  }

  lemma FinishHaltsSame(n: Node, n': Node, st: State)
    ensures SameHalt(HaltFinish(n, st), HaltFinish(n', PlainState(st)))
  {
    hide Plain, Collect;
    InlineIsPlain(st.ts);
    SkipsNothing([], st.ts);
    var line := if n.notes.line == [] then InlineComment(st.ts) else Noted(n.notes.line, st.ts);
    CollectIsPlain([], line.rest);
    CollectNotLonger([], line.rest);
  }

  // Plain tokens: us in front of where parsing stops, qs from there on.

  const ANY := Token(NullToken, NULL_WORD)
  const KEY := Token(StringToken, [QUOTE, QUOTE])
  const COLON_TOKEN := Token(NameSeparator, [COLON])

  function Closing(obj: bool): Token { Token(Close(obj), [CloseByte(obj)]) }

  /** What a child may be. */
  function Filler(obj: bool): seq<Token> { if obj then [KEY, COLON_TOKEN, ANY] else [ANY] }

  predicate Leaves<T>(r: Result<T>, rest: seq<Token>) { r.Ok? && r.st.ts == rest }

  lemma CleanFiller(obj: bool)
    ensures NoTrivia(Filler(obj)) && NoTrivia([Closing(obj)]) && NoTrivia([ANY]) && NoTrivia([COLON_TOKEN, ANY])
    ensures NoTrivia([])
  {
  }

  lemma EmptyKey()
    ensures Unquote(KEY.text) == Some([])
  {
    assert KEY.text[1..1] == [];
  }

  lemma AnyValue(tail: seq<Token>, keys: nat, nodes: nat, d: nat, o: Options)
    requires IsUnchecked(o)
    ensures Leaves(ParseValue(State([ANY] + tail, keys, nodes), d, o), tail)
  {
    assert ([ANY] + tail)[1..] == tail;
  }

  /** A member whose value is read. */
  lemma MemberReads(us: seq<Token>, value: seq<Token>, rest: seq<Token>, keys: nat, nodes: nat, d: nat, o: Options)
    requires IsUnchecked(o) && NoTrivia(us) && NoTrivia(value)
    requires |us| == 2 && us[0].kind == StringToken && Unquote(us[0].text).Some? && us[1].kind == NameSeparator
    ensures var r := ParseChild(State(us + value, keys, nodes), d, o, true, []);
            var v := ParseValue(State(value, keys, nodes), d, o);
            if v.Ok? then Leaves(r, v.st.ts) else r.Err?
  {
    hide ParseValue, Unquote, Collect, NoTrivia, ParseChild;
    var st := State(us + value, keys, nodes);
    CleanParts(us, value);
    MemberTokens(us, value);
    MemberIs(st, d, o, []);
  }

  /** The tokens of a member before its value. */
  lemma MemberTokens(us: seq<Token>, value: seq<Token>)
    requires |us| == 2 && NoTrivia(us) && NoTrivia(value)
    ensures Peek(us + value) == us[0] && (us + value)[0] == us[0]
    ensures Collect([], (us + value)[1..]).rest == [us[1]] + value && Peek([us[1]] + value) == us[1]
    ensures ([us[1]] + value)[1..] == value && Collect([], value).rest == value
  {
    hide NoTrivia;
    assert us == [us[0]] + [us[1]];
    CleanParts([us[0]], [us[1]]);
    CleanParts([us[1]], value);
    assert (us + value)[1..] == [us[1]] + value;
    NothingSkipped([], [us[1]] + value);
    NothingSkipped([], value);
  }

  lemma FillerReads(obj: bool, tail: seq<Token>, keys: nat, nodes: nat, d: nat, o: Options)
    requires IsUnchecked(o) && NoTrivia(tail)
    ensures Leaves(ParseChild(State(Filler(obj) + tail, keys, nodes), d, o, obj, []), tail)
  {
    hide ParseValue, ParseChild, Unquote, NoTrivia;
    CleanFiller(obj);
    AnyValue(tail, keys, nodes, d, o);
    if obj {
      EmptyKey();
      var us := [KEY, COLON_TOKEN];
      assert Filler(obj) + tail == us + ([ANY] + tail);
      CleanParts(us, [ANY]);
      assert us + [ANY] == Filler(obj);
      CleanParts([ANY], tail);
      MemberReads(us, [ANY] + tail, tail, keys, nodes, d, o);
    } else {
      ElementIs(State(Filler(obj) + tail, keys, nodes), d, o, []);
    }
  }

  lemma ChildStarts(st: State, d: nat, o: Options, obj: bool)
    requires ParseChild(st, d, o, obj, []).Ok?
    ensures st.ts != [] && Peek(st.ts).kind != Close(obj)
  {
    hide ParseContainer, Unquote, Collect;
  }

  /** A child and then the closing bracket. */
  lemma CloseReads(st: State, d: nat, o: Options, obj: bool, turn: Turn, tail: seq<Token>)
    requires IsUnchecked(o) && NoTrivia(st.ts) && NoTrivia(tail)
    requires Leaves(ParseChild(st, d, o, obj, []), [Closing(obj)] + tail)
    ensures Leaves(ParseChildren(st, d, o, obj, turn), tail)
  {
    hide ParseChild, ParseChildren, Attach, NoTrivia, Put, HasKey, JoinNotes, HeadComments;
    var c := ParseChild(st, d, o, obj, []);
    ChildStarts(st, d, o, obj);
    NothingSkipped([], st.ts);
    ChildTurn(st, d, o, obj, turn);
    CleanFiller(obj);
    CleanParts([Closing(obj)], tail);
    AttachIs(c.val, c.st, o, obj, turn.sofar);
    var a := Attach(c.val, c.st, o, obj, turn.sofar);
    NothingSkipped([], a.st.ts);
    ClosingTurn(a.st, d, o, obj, a.val);
    assert ([Closing(obj)] + tail)[1..] == tail;
  }

  // They can be continued.

  lemma {:induction false} ValueCompletes(
    us: seq<Token>, qs: seq<Token>, tail: seq<Token>, keys: nat, nodes: nat, d: nat, o: Options) returns (more: seq<Token>)
    requires IsUnchecked(o) && NoTrivia(us) && NoTrivia(qs) && NoTrivia(tail)
    requires ParseValue(State(us + qs, keys, nodes), d, o).Err? && HaltValue(State(us + qs, keys, nodes), d, o).at == qs
    ensures NoTrivia(more) && Leaves(ParseValue(State(us + (more + tail), keys, nodes), d, o), tail)
    decreases |us|, 1
  {
    hide ParseContainer, ParseChildren, HaltChildren, Unquote, NoTrivia;
    if us == [] {
      more := [ANY];
      CleanFiller(false);
      AnyValue(tail, keys, nodes, d, o);
      assert us + (more + tail) == [ANY] + tail;
    } else {
      Ahead(us, qs);
      assert IsOpen(us[0].kind);
      more := ContainerCompletes(us, qs, tail, keys, nodes, d, o);
      Ahead(us, more + tail);
    }
  }

  lemma {:induction false} ContainerCompletes(
    us: seq<Token>, qs: seq<Token>, tail: seq<Token>, keys: nat, nodes: nat, d: nat, o: Options) returns (more: seq<Token>)
    requires IsUnchecked(o) && NoTrivia(us) && NoTrivia(qs) && NoTrivia(tail) && us != [] && IsOpen(us[0].kind)
    requires Peek(us + qs) == us[0]
    requires var st := State(us + qs, keys, nodes); ParseContainer(st, d, o).Err? && HaltContainer(st, d, o).at == qs
    ensures NoTrivia(more) && Peek(us + (more + tail)) == us[0]
    ensures Leaves(ParseContainer(State(us + (more + tail), keys, nodes), d, o), tail)
    decreases |us|, 0
  {
    hide ParseChildren, HaltChildren, InlineComment, NoTrivia;
    var obj := us[0].kind == ObjectStart;
    Ahead(us, qs);
    assert us == [us[0]] + us[1..];
    CleanParts([us[0]], us[1..]);
    assert |us + qs| > |qs|;
    more := ChildrenComplete(us[1..], qs, tail, keys, nodes + 1, d + 1, o, obj, START);
    Ahead(us, more + tail);
    NothingSkipped([], tail);
  }

  lemma {:induction false} ChildCompletes(
    us: seq<Token>, qs: seq<Token>, tail: seq<Token>, keys: nat, nodes: nat, d: nat, o: Options, obj: bool)
    returns (more: seq<Token>)
    requires IsUnchecked(o) && NoTrivia(us) && NoTrivia(qs) && NoTrivia(tail)
    requires var st := State(us + qs, keys, nodes); ParseChild(st, d, o, obj, []).Err? && HaltChild(st, d, o, obj, []).at == qs
    ensures NoTrivia(more) && Leaves(ParseChild(State(us + (more + tail), keys, nodes), d, o, obj, []), tail)
    decreases |us|, 2
  {
    hide ParseValue, HaltValue, ParseChild, HaltChild, NoTrivia;
    var st := State(us + qs, keys, nodes);
    if !obj {
      ElementIs(st, d, o, []);
      ElementHalts(st, d, o, []);
      more := ValueCompletes(us, qs, tail, keys, nodes, d, o);
      ElementIs(State(us + (more + tail), keys, nodes), d, o, []);
    } else if us == [] {
      more := Filler(obj);
      CleanFiller(obj);
      FillerReads(obj, tail, keys, nodes, d, o);
      assert us + (more + tail) == Filler(obj) + tail;
    } else {
      more := MemberCompletes(us, qs, tail, keys, nodes, d, o);
    }
  }

  lemma {:induction false} MemberCompletes(
    us: seq<Token>, qs: seq<Token>, tail: seq<Token>, keys: nat, nodes: nat, d: nat, o: Options)
    returns (more: seq<Token>)
    requires IsUnchecked(o) && NoTrivia(us) && NoTrivia(qs) && NoTrivia(tail) && us != []
    requires var st := State(us + qs, keys, nodes); ParseChild(st, d, o, true, []).Err? && HaltChild(st, d, o, true, []).at == qs
    ensures NoTrivia(more) && Leaves(ParseChild(State(us + (more + tail), keys, nodes), d, o, true, []), tail)
    decreases |us|, 1
  {
    hide ParseValue, HaltValue, ParseChild, HaltChild, NoTrivia, Unquote, Collect;
    var st := State(us + qs, keys, nodes);
    CleanFiller(true);
    var key := MemberHalted(us, qs, keys, nodes, d, o);
    if |us| == 1 {
      more := [COLON_TOKEN, ANY];
      var head := us + [COLON_TOKEN];
      assert us + (more + tail) == head + ([ANY] + tail);
      CleanParts([COLON_TOKEN], [ANY]);
      assert [COLON_TOKEN] + [ANY] == more;
      CleanParts(us, [COLON_TOKEN]);
      CleanParts([ANY], tail);
      AnyValue(tail, keys, nodes, d, o);
      MemberReads(head, [ANY] + tail, tail, keys, nodes, d, o);
    } else {
      assert us == us[..2] + us[2..];
      CleanParts(us[..2], us[2..]);
      more := ValueCompletes(us[2..], qs, tail, keys, nodes, d, o);
      CleanParts(more, tail);
      CleanParts(us[2..], more + tail);
      assert us + (more + tail) == us[..2] + (us[2..] + (more + tail));
      MemberReads(us[..2], us[2..] + (more + tail), tail, keys, nodes, d, o);
    }
  }

  /** Where a member stops that has begun. */
  lemma MemberHalted(us: seq<Token>, qs: seq<Token>, keys: nat, nodes: nat, d: nat, o: Options) returns (key: Token)
    requires IsUnchecked(o) && NoTrivia(us) && NoTrivia(qs) && us != []
    requires var st := State(us + qs, keys, nodes); ParseChild(st, d, o, true, []).Err? && HaltChild(st, d, o, true, []).at == qs
    ensures key == us[0] && key.kind == StringToken && Unquote(key.text).Some?
    ensures |us| > 1 ==>
              var v := State(us[2..] + qs, keys, nodes);
              us[1].kind == NameSeparator && ParseValue(v, d, o).Err? && HaltValue(v, d, o).at == qs
    ensures |us| == 1 && qs != [] ==> qs[0].kind != NameSeparator
  {
    hide ParseValue, HaltValue, ParseChild, HaltChild, NoTrivia, Unquote, Collect;
    var ts := us + qs;
    var st := State(ts, keys, nodes);
    key := us[0];
    Ahead(us, qs);
    CleanParts(us, qs);
    assert ts == [ts[0]] + ts[1..];
    CleanParts([ts[0]], ts[1..]);
    assert |ts| > |qs|;
    if key.kind != StringToken || Unquote(key.text) == None {
      HaltNoMember(st, d, o, []);
      assert false;
    }
    MemberIs(st, d, o, []);
    HaltMember(st, d, o, []);
    NothingSkipped([], ts[1..]);
    var colon := ts[1..];
    assert colon == us[1..] + qs;
    if Peek(colon).kind == NameSeparator {
      assert colon == [colon[0]] + colon[1..];
      CleanParts([colon[0]], colon[1..]);
      NothingSkipped([], colon[1..]);
      var value := State(colon[1..], keys, nodes);
      HaltsInValueShort(value, d, o);
      assert |us| > 1;
      assert colon[1..] == us[2..] + qs && colon[0] == us[1];
    } else {
      assert |colon| == |qs|;
    }
  }

  lemma HaltsInValueShort(st: State, d: nat, o: Options)
    requires ParseValue(st, d, o).Err?
    ensures |HaltValue(st, d, o).at| <= |st.ts|
  {
    hide ParseValue, HaltValue;
    HaltsInValue(st, d, o);
  }

  lemma {:induction false} ChildrenComplete(
    us: seq<Token>, qs: seq<Token>, tail: seq<Token>, keys: nat, nodes: nat, d: nat, o: Options, obj: bool, turn: Turn)
    returns (more: seq<Token>)
    requires IsUnchecked(o) && NoTrivia(us) && NoTrivia(qs) && NoTrivia(tail)
    requires var st := State(us + qs, keys, nodes);
             ParseChildren(st, d, o, obj, turn).Err? && HaltChildren(st, d, o, obj, turn).at == qs
    ensures NoTrivia(more) && Leaves(ParseChildren(State(us + (more + tail), keys, nodes), d, o, obj, turn), tail)
    decreases |us|, 4
  {
    hide ParseChild, ParseChildren, HaltChild, HaltChildren, HaltAtChild, Attach, NoTrivia, HeadComments, Follow;
    var ts := us + qs;
    var st := State(ts, keys, nodes);
    var close := [Closing(obj)];
    CleanFiller(obj);
    CleanParts(us, qs);
    CleanParts(close, tail);
    NothingSkipped([], ts);
    HaltTurn(st, d, o, obj, turn);
    if Peek(ts).kind == Close(obj) {
      assert |us + qs| == |qs| && us == [];
      more := Filler(obj) + close;
      CleanParts(Filler(obj), close);
      CleanParts(Filler(obj), close + tail);
      FillerReads(obj, close + tail, keys, nodes, d, o);
      assert us + (more + tail) == Filler(obj) + (close + tail);
      CloseReads(State(Filler(obj) + (close + tail), keys, nodes), d, o, obj, turn, tail);
    } else {
      ChildTurn(st, d, o, obj, turn);
      AtChild(st, d, o, obj, [], turn);
      if ParseChild(st, d, o, obj, []).Err? {
        var m := ChildCompletes(us, qs, close + tail, keys, nodes, d, o, obj);
        more := m + close;
        CleanParts(m, close);
        CleanParts(m, close + tail);
        CleanParts(us, m + (close + tail));
        assert more + tail == m + (close + tail);
        CloseReads(State(us + (more + tail), keys, nodes), d, o, obj, turn, tail);
      } else {
        more := RestCompletes(us, qs, tail, keys, nodes, d, o, obj, turn);
      }
    }
  }

  /** The first child is read. */
  lemma {:induction false} RestCompletes(
    us: seq<Token>, qs: seq<Token>, tail: seq<Token>, keys: nat, nodes: nat, d: nat, o: Options, obj: bool, turn: Turn)
    returns (more: seq<Token>)
    requires IsUnchecked(o) && NoTrivia(us) && NoTrivia(qs) && NoTrivia(tail)
    requires var c := ParseChild(State(us + qs, keys, nodes), d, o, obj, []);
             c.Ok? && AfterChild(c, d, o, obj, turn).Err?
             && HaltAfter(State(us + qs, keys, nodes), d, o, obj, turn, c.val, c.st).at == qs
    ensures NoTrivia(more) && Leaves(ParseChildren(State(us + (more + tail), keys, nodes), d, o, obj, turn), tail)
    decreases |us|, 3
  {
    hide ParseChild, ParseChildren, HaltChildren, Attach, NoTrivia, HeadComments, Put, HasKey, JoinNotes, LooksBehindChild;
    var st := State(us + qs, keys, nodes);
    var c := ParseChild(st, d, o, obj, []);
    var close := [Closing(obj)];
    CleanFiller(obj);
    CleanParts(close, tail);
    var k := ChildTakes(us, qs, keys, nodes, d, o, obj, turn);
    var v, w := us[..k], us[k..];
    assert us == v + w;
    CleanParts(v, w);
    CleanParts(w, qs);
    assert us + qs == v + (w + qs);
    AttachIs(c.val, c.st, o, obj, turn.sofar);
    var a := Attach(c.val, c.st, o, obj, turn.sofar);
    if w == [] {
      more := close;
      assert us + (more + tail) == v + (close + tail) && w + qs == qs;
      ChildLocal(v, qs, close + tail, keys, nodes, d, o, obj);
      CleanParts(v, close + tail);
      CloseReads(State(us + (more + tail), keys, nodes), d, o, obj, turn, tail);
    } else {
      Ahead(w, qs);
      assert w == [w[0]] + w[1..];
      CleanParts([w[0]], w[1..]);
      more := ChildrenComplete(w[1..], qs, tail, a.st.keys, a.st.nodes, d, o, obj, a.val);
      var rest := w + (more + tail);
      CleanParts(more, tail);
      CleanParts(w, more + tail);
      CleanParts(v, rest);
      assert us + (more + tail) == v + rest;
      assert v != [];
      ChildLocal(v, w + qs, rest, keys, nodes, d, o, obj);
      Ahead(w, more + tail);
      AttachIs(c.val, c.st.(ts := rest), o, obj, turn.sofar);
      var st' := State(v + rest, keys, nodes);
      ChildStarts(st', d, o, obj);
      NothingSkipped([], v + rest);
      ChildTurn(st', d, o, obj, turn);
    }
  }

  /** How many of the tokens us the first child takes; a comma follows, or that
      is where parsing stops. */
  lemma ChildTakes(us: seq<Token>, qs: seq<Token>, keys: nat, nodes: nat, d: nat, o: Options, obj: bool, turn: Turn)
    returns (k: nat)
    requires IsUnchecked(o) && NoTrivia(us) && NoTrivia(qs)
    requires var c := ParseChild(State(us + qs, keys, nodes), d, o, obj, []);
             c.Ok? && AfterChild(c, d, o, obj, turn).Err?
             && HaltAfter(State(us + qs, keys, nodes), d, o, obj, turn, c.val, c.st).at == qs
    ensures var c := ParseChild(State(us + qs, keys, nodes), d, o, obj, []);
            var a := Attach(c.val, c.st, o, obj, turn.sofar);
            && 0 < k <= |us| && c.st.ts == us[k..] + qs
            && (if k == |us| then a.Err? && (qs != [] ==> qs[0].kind != ValueSeparator && qs[0].kind != Close(obj))
                else us[k].kind == ValueSeparator && a.Ok? && a.st.ts == us[k + 1..] + qs
                     && ParseChildren(a.st, d, o, obj, a.val).Err? && HaltChildren(a.st, d, o, obj, a.val).at == qs)
  {
    hide ParseChild, ParseChildren, HaltChildren, Attach, NoTrivia, LooksBehindChild, HeadComments, LeftOf, Refusal;
    var st := State(us + qs, keys, nodes);
    var c := ParseChild(st, d, o, obj, []);
    CleanParts(us, qs);
    ChildLeaves(st, d, o, obj, []);
    LeftClean(c.st.ts, st.ts);
    AttachCases(c.val, c.st, o, obj, turn.sofar);
    var a := Attach(c.val, c.st, o, obj, turn.sofar);
    NothingSkipped([], c.st.ts);
    ChildShorter(st, d, o, obj);
    if a.Ok? {
      LeftClean(a.st.ts, c.st.ts);
      ClosesWell(c, a, d, o, obj);
      HaltsBehind(a, d, o, obj, qs, c.st.ts);
      k := Split(us, qs, c.st.ts);
      CommaSplit(us, qs, k, c.st.ts);
    } else {
      LeftItself(c.st.ts);
      k := Split(us, qs, c.st.ts);
    }
  }

  lemma HaltsBehind(a: Result<Turn>, d: nat, o: Options, obj: bool, qs: seq<Token>, ts: seq<Token>)
    requires a.Ok? && ParseChildren(a.st, d, o, obj, a.val).Err? && HaltChildren(a.st, d, o, obj, a.val).at == qs
    requires LeftOf(a.st.ts, ts) && |a.st.ts| < |ts|
    ensures LeftOf(qs, ts) && |qs| < |ts|
  {
    hide ParseChildren, HaltChildren;
    HaltsInChildren(a.st, d, o, obj, a.val);
    LeftTwice(qs, a.st.ts, ts);
  }

  lemma CommaSplit(us: seq<Token>, qs: seq<Token>, k: nat, ts: seq<Token>)
    requires k <= |us| && ts == us[k..] + qs && |ts| > |qs|
    ensures k < |us| && ts[0] == us[k] && ts[1..] == us[k + 1..] + qs
  {
    assert us[k..] == [us[k]] + us[k + 1..];
    assert ts == [us[k]] + (us[k + 1..] + qs);
  }

  /** What may follow a child, in plain tokens. */
  lemma AttachCases(n: Node, st: State, o: Options, obj: bool, sofar: Inside)
    requires IsUnchecked(o) && NoTrivia(st.ts)
    ensures Refusal(n, st, o, obj, sofar.children) == None
    ensures var a := Attach(n, st, o, obj, sofar);
            var k := Peek(st.ts).kind;
            && (a.Ok? <==> k == ValueSeparator || k == Close(obj))
            && (a.Ok? ==> st.ts != [] && LeftOf(a.st.ts, st.ts))
            && (k == ValueSeparator ==> a.st.ts == st.ts[1..])
            && (k == Close(obj) ==> a.st.ts == st.ts && !a.val.afterComma)
  {
    hide Put, HasKey, JoinNotes, NoTrivia;
    AttachIs(n, st, o, obj, sofar);
    LeftItself(st.ts);
    if st.ts != [] {
      LeftNext(st.ts, st.ts);
    }
  }

  /** A closing bracket right behind a child ends the container. */
  lemma ClosesWell(c: Result<Node>, a: Result<Turn>, d: nat, o: Options, obj: bool)
    requires c.Ok? && a.Ok? && NoTrivia(a.st.ts) && ParseChildren(a.st, d, o, obj, a.val).Err?
    requires Peek(c.st.ts).kind == Close(obj) ==> a.st.ts == c.st.ts && !a.val.afterComma
    ensures Peek(c.st.ts).kind != Close(obj)
  {
    hide ParseChildren, NoTrivia, HeadComments;
    NothingSkipped([], a.st.ts);
    if Peek(c.st.ts).kind == Close(obj) {
      ClosingTurn(a.st, d, o, obj, a.val);
    }
  }

  lemma ChildShorter(st: State, d: nat, o: Options, obj: bool)
    ensures var c := ParseChild(st, d, o, obj, []); c.Ok? ==> |c.st.ts| < |st.ts|
  {
  }

  // With one token more they can not be.

  /** rest goes on with the token at which parsing stops. */
  predicate GoesOn(rest: seq<Token>, qs: seq<Token>) { rest != [] && qs != [] && rest[0] == qs[0] }

  lemma {:induction false} ValueStuck(
    us: seq<Token>, qs: seq<Token>, rest: seq<Token>, keys: nat, nodes: nat, d: nat, o: Options)
    requires IsUnchecked(o) && NoTrivia(us) && NoTrivia(qs) && NoTrivia(rest) && GoesOn(rest, qs)
    requires ParseValue(State(us + qs, keys, nodes), d, o).Err? && HaltValue(State(us + qs, keys, nodes), d, o).at == qs
    ensures ParseValue(State(us + rest, keys, nodes), d, o).Err?
    decreases |us|, 1
  {
    hide ParseChildren, HaltChildren, Unquote, NoTrivia;
    if us == [] {
      assert us + qs == qs && us + rest == rest;
      FirstStuck(qs, rest, keys, nodes, d, o);
    } else {
      Ahead(us, qs);
      Ahead(us, rest);
      assert us == [us[0]] + us[1..];
      CleanParts([us[0]], us[1..]);
      assert |us + qs| > |qs|;
      if !Over(d + 1, o.maxDepth) {
        ChildrenStuck(us[1..], qs, rest, keys, nodes + 1, d + 1, o, us[0].kind == ObjectStart, START);
      }
    }
  }

  /** A value that can not begin. */
  lemma FirstStuck(qs: seq<Token>, rest: seq<Token>, keys: nat, nodes: nat, d: nat, o: Options)
    requires IsUnchecked(o) && GoesOn(rest, qs)
    requires ParseValue(State(qs, keys, nodes), d, o).Err? && HaltValue(State(qs, keys, nodes), d, o).at == qs
    ensures ParseValue(State(rest, keys, nodes), d, o).Err?
  {
    hide ParseChildren, HaltChildren, Unquote;
    if IsOpen(qs[0].kind) && !Over(d + 1, o.maxDepth) {
      var inner := State(qs[1..], keys, nodes + 1);
      HaltsInChildren(inner, d + 1, o, qs[0].kind == ObjectStart, START);
      assert false;
    }
  }

  lemma {:induction false} ChildStuck(
    us: seq<Token>, qs: seq<Token>, rest: seq<Token>, keys: nat, nodes: nat, d: nat, o: Options, obj: bool)
    requires IsUnchecked(o) && NoTrivia(us) && NoTrivia(qs) && NoTrivia(rest) && GoesOn(rest, qs)
    requires var st := State(us + qs, keys, nodes); ParseChild(st, d, o, obj, []).Err? && HaltChild(st, d, o, obj, []).at == qs
    ensures ParseChild(State(us + rest, keys, nodes), d, o, obj, []).Err?
    decreases |us|, 2
  {
    hide ParseValue, HaltValue, ParseChild, HaltChild, NoTrivia, Unquote, Collect;
    var st := State(us + qs, keys, nodes);
    if !obj {
      ElementIs(st, d, o, []);
      ElementHalts(st, d, o, []);
      ElementIs(State(us + rest, keys, nodes), d, o, []);
      ValueStuck(us, qs, rest, keys, nodes, d, o);
    } else if us == [] {
      assert us + qs == qs && us + rest == rest;
      KeyStuck(qs, rest, keys, nodes, d, o);
    } else {
      var key := MemberHalted(us, qs, keys, nodes, d, o);
      if |us| == 1 {
        ColonStuck(us, rest, keys, nodes, d, o);
      } else {
        assert us == us[..2] + us[2..];
        CleanParts(us[..2], us[2..]);
        CleanParts(us[2..], rest);
        assert us + rest == us[..2] + (us[2..] + rest);
        ValueStuck(us[2..], qs, rest, keys, nodes, d, o);
        MemberReads(us[..2], us[2..] + rest, rest, keys, nodes, d, o);
      }
    }
  }

  /** A member that can not begin. */
  lemma KeyStuck(qs: seq<Token>, rest: seq<Token>, keys: nat, nodes: nat, d: nat, o: Options)
    requires IsUnchecked(o) && NoTrivia(qs) && GoesOn(rest, qs)
    requires var st := State(qs, keys, nodes); ParseChild(st, d, o, true, []).Err? && HaltChild(st, d, o, true, []).at == qs
    ensures ParseChild(State(rest, keys, nodes), d, o, true, []).Err?
  {
    hide ParseValue, HaltValue, ParseChild, HaltChild, NoTrivia, Unquote, Collect;
    if qs[0].kind == StringToken && Unquote(qs[0].text).Some? {
      var one := [qs[0]];
      var us := qs[1..];
      assert qs == one + us;
      CleanParts(one, us);
      HaltsPastKey(qs, keys, nodes, d, o);
      assert false;
    }
    if rest[0].kind == StringToken {
      BadMember(State(rest, keys, nodes), d, o, []);
    } else {
      NoMember(State(rest, keys, nodes), d, o, []);
    }
  }

  lemma HaltsPastKey(qs: seq<Token>, keys: nat, nodes: nat, d: nat, o: Options)
    requires NoTrivia(qs) && qs != [] && qs[0].kind == StringToken && Unquote(qs[0].text).Some?
    requires ParseChild(State(qs, keys, nodes), d, o, true, []).Err? && IsUnchecked(o)
    ensures |HaltChild(State(qs, keys, nodes), d, o, true, []).at| < |qs|
  {
    hide ParseValue, HaltValue, ParseChild, HaltChild, NoTrivia, Unquote, Collect;
    var st := State(qs, keys, nodes);
    assert qs == [qs[0]] + qs[1..];
    CleanParts([qs[0]], qs[1..]);
    HaltMember(st, d, o, []);
    MemberIs(st, d, o, []);
    NothingSkipped([], qs[1..]);
    if Peek(qs[1..]).kind == NameSeparator {
      assert qs[1..] == [qs[1]] + qs[2..] && qs[1..][1..] == qs[2..];
      CleanParts([qs[1]], qs[2..]);
      NothingSkipped([], qs[2..]);
      HaltsInValueShort(State(qs[2..], keys, nodes), d, o);
    }
  }

  lemma ColonStuck(us: seq<Token>, rest: seq<Token>, keys: nat, nodes: nat, d: nat, o: Options)
    requires NoTrivia(us) && NoTrivia(rest) && |us| == 1 && us[0].kind == StringToken && Unquote(us[0].text).Some?
    requires rest != [] && rest[0].kind != NameSeparator
    ensures ParseChild(State(us + rest, keys, nodes), d, o, true, []).Err?
  {
    hide ParseValue, ParseChild, NoTrivia, Unquote, Collect;
    Ahead(us, rest);
    assert us[1..] + rest == rest;
    NothingSkipped([], rest);
    MemberIs(State(us + rest, keys, nodes), d, o, []);
  }

  lemma {:induction false} ChildrenStuck(
    us: seq<Token>, qs: seq<Token>, rest: seq<Token>, keys: nat, nodes: nat, d: nat, o: Options, obj: bool, turn: Turn)
    requires IsUnchecked(o) && NoTrivia(us) && NoTrivia(qs) && NoTrivia(rest) && GoesOn(rest, qs)
    requires var st := State(us + qs, keys, nodes);
             ParseChildren(st, d, o, obj, turn).Err? && HaltChildren(st, d, o, obj, turn).at == qs
    ensures ParseChildren(State(us + rest, keys, nodes), d, o, obj, turn).Err?
    decreases |us|, 4
  {
    hide ParseChild, ParseChildren, HaltChild, HaltChildren, HaltAtChild, HaltAfter, NoTrivia, HeadComments, Attach;
    var ts := us + qs;
    var st, st' := State(ts, keys, nodes), State(us + rest, keys, nodes);
    CleanParts(us, qs);
    CleanParts(us, rest);
    NothingSkipped([], ts);
    NothingSkipped([], us + rest);
    assert Peek(us + rest) == Peek(ts);
    HaltTurn(st, d, o, obj, turn);
    if Peek(ts).kind == Close(obj) {
      ClosingTurn(st, d, o, obj, turn);
      ClosingTurn(st', d, o, obj, turn);
    } else {
      ChildTurn(st, d, o, obj, turn);
      ChildTurn(st', d, o, obj, turn);
      AtChild(st, d, o, obj, [], turn);
      if ParseChild(st, d, o, obj, []).Err? {
        ChildStuck(us, qs, rest, keys, nodes, d, o, obj);
      } else {
        RestStuck(us, qs, rest, keys, nodes, d, o, obj, turn);
      }
    }
  }

  lemma {:induction false} RestStuck(
    us: seq<Token>, qs: seq<Token>, rest: seq<Token>, keys: nat, nodes: nat, d: nat, o: Options, obj: bool, turn: Turn)
    requires IsUnchecked(o) && NoTrivia(us) && NoTrivia(qs) && NoTrivia(rest) && GoesOn(rest, qs)
    requires var c := ParseChild(State(us + qs, keys, nodes), d, o, obj, []);
             c.Ok? && AfterChild(c, d, o, obj, turn).Err?
             && HaltAfter(State(us + qs, keys, nodes), d, o, obj, turn, c.val, c.st).at == qs
    ensures AfterChild(ParseChild(State(us + rest, keys, nodes), d, o, obj, []), d, o, obj, turn).Err?
    decreases |us|, 3
  {
    hide ParseChild, ParseChildren, HaltChildren, HaltAfter, Attach, NoTrivia, HeadComments, Put, HasKey, JoinNotes;
    var st := State(us + qs, keys, nodes);
    var c := ParseChild(st, d, o, obj, []);
    var k := ChildTakes(us, qs, keys, nodes, d, o, obj, turn);
    var v, w := us[..k], us[k..];
    assert us == v + w;
    CleanParts(v, w);
    CleanParts(w, qs);
    CleanParts(w, rest);
    assert us + qs == v + (w + qs) && us + rest == v + (w + rest);
    ChildLocal(v, w + qs, w + rest, keys, nodes, d, o, obj);
    var st1 := c.st.(ts := w + rest);
    AttachIs(c.val, c.st, o, obj, turn.sofar);
    AttachIs(c.val, st1, o, obj, turn.sofar);
    if w == [] {
      assert w + rest == rest;
      AttachCases(c.val, st1, o, obj, turn.sofar);
    } else {
      var a := Attach(c.val, c.st, o, obj, turn.sofar);
      Ahead(w, qs);
      Ahead(w, rest);
      assert w == [w[0]] + w[1..];
      CleanParts([w[0]], w[1..]);
      ChildrenStuck(w[1..], qs, rest, a.st.keys, a.st.nodes, d, o, obj, a.val);
    }
  }

  // Documents

  lemma PlainDocument(ts: seq<Token>, o: Options)
    requires NoTrivia(ts)
    ensures var v := ParseValue(State(ts, 0, 0), 0, o);
            ParseDocument(ts, o).Ok? <==> ts != [] && v.Ok? && v.st.ts == []
    ensures var v := ParseValue(State(ts, 0, 0), 0, o);
            HaltDocument(ts, o).at
            == if ts == [] then [] else if v.Err? then HaltValue(State(ts, 0, 0), 0, o).at else v.st.ts
  {
    hide ParseValue, HaltValue, HeadComments, Collect, InlineComment, NoTrivia;
    NothingSkipped([], ts);
    ValueLeaves(State(ts, 0, 0), 0, o);
    var v := ParseValue(State(ts, 0, 0), 0, o);
    if v.Ok? {
      LeftClean(v.st.ts, ts);
      NothingSkipped([], v.st.ts);
    }
  }

  lemma PlainCompletes(us: seq<Token>, qs: seq<Token>, o: Options) returns (more: seq<Token>)
    requires IsUnchecked(o) && NoTrivia(us) && NoTrivia(qs)
    requires ParseDocument(us + qs, o).Err? && HaltDocument(us + qs, o).at == qs
    ensures NoTrivia(more) && ParseDocument(us + more, o).Ok?
  {
    hide ParseValue, HaltValue, ParseDocument, HaltDocument, NoTrivia;
    var ts := us + qs;
    var none: seq<Token> := [];
    CleanParts(us, qs);
    CleanFiller(false);
    PlainDocument(ts, o);
    var v := ParseValue(State(ts, 0, 0), 0, o);
    if ts == [] {
      more := [ANY];
      AnyValue(none, 0, 0, 0, o);
      assert [ANY] + none == us + more;
    } else if v.Err? {
      more := ValueCompletes(us, qs, none, 0, 0, 0, o);
      assert us + (more + none) == us + more;
    } else {
      more := none;
      ValueLocal(us, qs, none, 0, 0, 0, o);
    }
    CleanParts(us, more);
    NothingIsNoValue(o);
    PlainDocument(us + more, o);
  }

  lemma NothingIsNoValue(o: Options)
    ensures ParseValue(State([], 0, 0), 0, o).Err?
  {
  }

  lemma PlainStuck(us: seq<Token>, qs: seq<Token>, rest: seq<Token>, o: Options)
    requires IsUnchecked(o) && NoTrivia(us) && NoTrivia(qs) && NoTrivia(rest) && GoesOn(rest, qs)
    requires ParseDocument(us + qs, o).Err? && HaltDocument(us + qs, o).at == qs
    ensures ParseDocument(us + rest, o).Err?
  {
    hide ParseValue, HaltValue, ParseDocument, HaltDocument, NoTrivia;
    CleanParts(us, qs);
    CleanParts(us, rest);
    PlainDocument(us + qs, o);
    PlainDocument(us + rest, o);
    var v := ParseValue(State(us + qs, 0, 0), 0, o);
    if v.Err? {
      ValueStuck(us, qs, rest, 0, 0, 0, o);
    } else {
      ValueLocal(us, qs, rest, 0, 0, 0, o);
    }
  }

  /** A continuation of ts that is a document, key and node limits and duplicate
      keys aside. */
  ghost predicate Viable(ts: seq<Token>, o: Options) { exists more: seq<Token> :: Completes(ts, more, o) }

  predicate Completes(ts: seq<Token>, more: seq<Token>, o: Options) { ParseDocument(ts + more, Unchecked(o)).Ok? }

  /** A syntax error, or nesting that is too deep, is reported at the first token
      with which the tokens so far can no longer be continued to a document. */
  lemma HaltsWhereStuck(ts: seq<Token>, o: Options)
    requires ParseDocument(ts, o).Err? && IsSyntactic(ParseDocument(ts, o).error)
    ensures var at := HaltDocument(ts, o).at;
            && LeftOf(at, ts)
            && Viable(ts[..|ts| - |at|], o)
            && (at != [] ==> !Viable(ts[..|ts| - |at| + 1], o))
  {
    hide ParseDocument, HaltDocument, Plain, NoTrivia;
    var u := Unchecked(o);
    DocumentUnchecked(ts, o);
    DocumentHaltsSame(ts, u);
    DocumentTransparent(ts, u);
    HaltsInDocument(ts, u);
    var at := HaltDocument(ts, u).at;
    var k := |ts| - |at|;
    var us, qs := Plain(ts[..k]), Plain(at);
    assert ts == ts[..k] + at;
    PlainConcat(ts[..k], at);
    PlainClean(ts[..k]);
    PlainClean(at);
    var more := PlainCompletes(us, qs, u);
    PlainConcat(ts[..k], more);
    PlainIsItself(more);
    DocumentTransparent(ts[..k] + more, u);
    assert Completes(ts[..k], more, o);
    if at != [] && Viable(ts[..k + 1], o) {
      var rest :| Completes(ts[..k + 1], rest, o);
      OneMoreIsStuck(ts, k, rest, u);
    }
  }

  lemma OneMoreIsStuck(ts: seq<Token>, k: nat, more: seq<Token>, u: Options)
    requires IsUnchecked(u) && k < |ts| && !IsTrivia(ts[k]) && ParseDocument(Plain(ts), u).Err?
    requires HaltDocument(Plain(ts), u).at == Plain(ts[k..])
    ensures ParseDocument(ts[..k + 1] + more, u).Err?
  {
    hide ParseDocument, HaltDocument, Plain, NoTrivia;
    var us, qs := Plain(ts[..k]), Plain(ts[k..]);
    var rest := [ts[k]] + Plain(more);
    assert ts == ts[..k] + ts[k..];
    PlainConcat(ts[..k], ts[k..]);
    PlainStep(ts[k..]);
    assert ts[..k + 1] + more == ts[..k] + ([ts[k]] + more);
    PlainConcat(ts[..k], [ts[k]] + more);
    PlainStep([ts[k]] + more);
    assert ([ts[k]] + more)[1..] == more;
    PlainClean(ts[..k]);
    PlainClean(ts[k..]);
    PlainClean([ts[k]] + more);
    PlainStuck(us, qs, rest, u);
    DocumentTransparent(ts[..k + 1] + more, u);
  }

  lemma PlainClean(ts: seq<Token>)
    ensures NoTrivia(Plain(ts))
  {
    PlainHasNoTrivia(ts);
  }

  lemma {:induction false} PlainIsItself(ts: seq<Token>)
    requires NoTrivia(ts)
    ensures Plain(ts) == ts
  {
    if ts != [] {
      assert ts == [ts[0]] + ts[1..];
      PlainIsItself(ts[1..]);
    }
  }

  lemma HaltsInDocument(ts: seq<Token>, o: Options)
    requires ParseDocument(ts, o).Err?
    ensures HaltsIn(HaltDocument(ts, o), ts)
  {
    hide ParseValue, HaltValue, LeftOf, HeadComments, Collect, InlineComment;
    var lead := HeadComments(ts);
    HeadLeft(ts);
    if lead.rest != [] {
      var st := State(lead.rest, 0, 0);
      var v := ParseValue(st, 0, o);
      if v.Err? {
        HaltsInValue(st, 0, o);
        HaltsFurther(HaltValue(st, 0, o), lead.rest, ts);
      } else {
        ValueLeft(st, 0, o);
        LeftTwice(v.st.ts, lead.rest, ts);
        InlineLeft(v.st.ts);
        var line := if v.val.WithHead(JoinNotes(lead.text, v.val.notes.head)).notes.line == [] then InlineComment(v.st.ts).rest else v.st.ts;
        LeftTwice(line, v.st.ts, ts);
        CollectLeft([], line);
        LeftTwice(Collect([], line).rest, line, ts);
      }
    }
  }
}
