/**
  Comments and line breaks between tokens change nothing but annotations: the
  parser accepts the same inputs, fails with the same error, and finds the same
  value, whether they are there or not.
 */
module Transparency {
  import opened Ascii
  import opened Lexer
  import opened QuotedStrings
  import opened Tree
  import opened Syntax
  import opened SyntaxTurns

  /** The tokens without comments and line breaks. */
  function Plain(ts: seq<Token>): (ps: seq<Token>)
    ensures |ps| <= |ts|
  {
    if ts == [] then [] else PlainOne(ts[0]) + Plain(ts[1..])
  }

  function PlainOne(t: Token): seq<Token> { if IsTrivia(t) then [] else [t] }

  function PlainState(st: State): State { st.(ts := Plain(st.ts)) }

  predicate SameNode(a: Result<Node>, b: Result<Node>) {
    match (a, b)
    case (Ok(n, s), Ok(m, t)) => ValueOf(n) == ValueOf(m) && t == PlainState(s)
    case (Err(e), Err(f)) => e == f
    case _ => false
  }

  predicate SameInside(a: Result<Inside>, b: Result<Inside>) {
    match (a, b)
    case (Ok(n, s), Ok(m, t)) => ValuesOf(n.children) == ValuesOf(m.children) && t == PlainState(s)
    case (Err(e), Err(f)) => e == f
    case _ => false
  }

  lemma PlainCons(t: Token, ts: seq<Token>)
    ensures Plain([t] + ts) == PlainOne(t) + Plain(ts)
  {
    assert ([t] + ts)[1..] == ts;
  }

  lemma {:induction false} PlainConcat(a: seq<Token>, b: seq<Token>)
    ensures Plain(a + b) == Plain(a) + Plain(b)
  {
    if a == [] {
      assert a + b == b;
      assert Plain(a) + Plain(b) == Plain(b);
    } else {
      hide Plain, PlainOne;
      var head, tail := a[0], a[1..];
      calc {
        Plain(a + b);
        { assert a + b == [head] + (tail + b); }
        Plain([head] + (tail + b));
        { PlainCons(head, tail + b); }
        PlainOne(head) + Plain(tail + b);
        { PlainConcat(tail, b); }
        PlainOne(head) + (Plain(tail) + Plain(b));
        (PlainOne(head) + Plain(tail)) + Plain(b);
        { PlainCons(head, tail); assert a == [head] + tail; }
        Plain(a) + Plain(b);
      }
    }
  }

  lemma {:induction false} CollectIsPlain(acc: Bytes, ts: seq<Token>)
    ensures Plain(Collect(acc, ts).rest) == Plain(ts)
    ensures Peek(Plain(ts)) == Peek(Collect(acc, ts).rest)
    decreases |ts|
  {
    if IsTrivia(Peek(ts)) {
      var acc' := if Peek(ts).kind == Newline then acc else (if acc == [] then [] else acc + [LF]) + ts[0].text;
      CollectIsPlain(acc', ts[1..]);
    }
  }

  lemma {:induction false} PlainHasNoTrivia(ts: seq<Token>)
    ensures forall i :: 0 <= i < |Plain(ts)| ==> !IsTrivia(Plain(ts)[i])
  {
    if ts != [] {
      PlainHasNoTrivia(ts[1..]);
    }
  }

  lemma PlainEmpty()
    ensures Plain([]) == []
  {
  }

  /** Plain tokens have nothing to skip. */
  lemma SkipsNothing(acc: Bytes, ts: seq<Token>)
    ensures Collect(acc, Plain(ts)) == Noted(acc, Plain(ts))
    ensures InlineComment(Plain(ts)) == Noted([], Plain(ts))
  {
    PlainHasNoTrivia(ts);
  }

  lemma InlineIsPlain(ts: seq<Token>)
    ensures Plain(InlineComment(ts).rest) == Plain(ts)
  {
  }

  /** Taking one token that is not a comment or a line break. */
  lemma PlainStep(ts: seq<Token>)
    requires ts != [] && !IsTrivia(ts[0])
    ensures Plain(ts) == [ts[0]] + Plain(ts[1..])
    ensures Plain(ts)[1..] == Plain(ts[1..])
  {
  }

  lemma SplitValues(ns: seq<Node>)
    requires ns != []
    ensures ValuesOf(ns) == [ValueOf(ns[0])] + ValuesOf(ns[1..])
  {
  }

  lemma {:induction false} WithoutValues(a: seq<Node>, b: seq<Node>, key: Bytes)
    requires ValuesOf(a) == ValuesOf(b)
    ensures ValuesOf(Without(a, key)) == ValuesOf(Without(b, key))
  {
    assert |a| == |b|;
    if a != [] {
      hide ValuesOf;
      SplitValues(a);
      SplitValues(b);
      assert ValuesOf(a)[0] == ValuesOf(b)[0] && ValuesOf(a)[1..] == ValuesOf(b)[1..];
      WithoutValues(a[1..], b[1..], key);
      if a[0].key != key {
        ValuesOfConcat([a[0]], Without(a[1..], key));
        ValuesOfConcat([b[0]], Without(b[1..], key));
        SplitValues([a[0]]);
        SplitValues([b[0]]);
      }
    }
  }

  lemma ValuesOfConcat(a: seq<Node>, b: seq<Node>)
    ensures ValuesOf(a + b) == ValuesOf(a) + ValuesOf(b)
  {
  }

  lemma SameKeys(a: seq<Node>, b: seq<Node>, key: Bytes)
    requires ValuesOf(a) == ValuesOf(b)
    ensures HasKey(a, key) == HasKey(b, key)
  {
    assert |a| == |b|;
    forall i | 0 <= i < |a|
      ensures a[i].key == b[i].key
    {
      assert ValuesOf(a)[i] == ValuesOf(b)[i];
    }
  }

  lemma PutValues(a: seq<Node>, b: seq<Node>, n: Node, m: Node, obj: bool)
    requires ValuesOf(a) == ValuesOf(b) && ValueOf(n) == ValueOf(m)
    ensures ValuesOf(Put(a, n, obj)) == ValuesOf(Put(b, m, obj))
  {
    WithoutValues(a, b, n.key);
    ValuesOfConcat(if obj then Without(a, n.key) else a, [n]);
    ValuesOfConcat(if obj then Without(b, m.key) else b, [m]);
    assert ValuesOf([n]) == [ValueOf(n)] && ValuesOf([m]) == [ValueOf(m)];
  }

  lemma {:induction false} ValueTransparent(st: State, depth: nat, o: Options)
    requires !IsTrivia(Peek(st.ts))
    ensures SameNode(ParseValue(st, depth, o), ParseValue(PlainState(st), depth, o))
    decreases |st.ts|, 1
  {
    if st.ts != [] {
      PlainStep(st.ts);
      if IsOpen(st.ts[0].kind) {
        ContainerTransparent(st, depth, o);
      }
    }
  }

  lemma OpenIsPlain(ts: seq<Token>)
    requires ts != [] && IsOpen(ts[0].kind)
    ensures !IsTrivia(ts[0]) && Plain(ts) != [] && Plain(ts)[0] == ts[0]
  {
  }

  lemma {:induction false} ContainerTransparent(st: State, depth: nat, o: Options)
    requires IsOpen(Peek(st.ts).kind) && IsOpen(Peek(Plain(st.ts)).kind)
    ensures SameNode(ParseContainer(st, depth, o), ParseContainer(PlainState(st), depth, o))
    decreases |st.ts|, 0
  {
    hide ParseChildren, Plain, Closed;
    var obj := st.ts[0].kind == ObjectStart;
    var inner := State(st.ts[1..], st.keys, st.nodes + 1);
    OpenIsPlain(st.ts);
    PlainStep(st.ts);
    ChildrenTransparent(inner, depth + 1, o, obj, START, START);
    ClosedTransparent(ParseChildren(inner, depth + 1, o, obj, START),
                      ParseChildren(PlainState(inner), depth + 1, o, obj, START), obj);
  }

  lemma ClosedTransparent(r: Result<Inside>, r': Result<Inside>, obj: bool)
    requires SameInside(r, r')
    ensures SameNode(Closed(r, obj), Closed(r', obj))
  {
    if r.Ok? {
      InlineIsPlain(r.st.ts);
      SkipsNothing([], r.st.ts);
    }
  }

  lemma {:induction false} ChildTransparent(st: State, depth: nat, o: Options, obj: bool, head: Bytes, head': Bytes)
    requires !IsTrivia(Peek(st.ts))
    ensures SameNode(ParseChild(st, depth, o, obj, head), ParseChild(PlainState(st), depth, o, obj, head'))
    decreases |st.ts|, 2
  {
    hide ParseValue, ParseChild, Plain, Unquote, Collect;
    if !obj {
      ElementIs(st, depth, o, head);
      ElementIs(PlainState(st), depth, o, head');
      ValueTransparent(st, depth, o);
    } else if st.ts == [] {
      PlainEmpty();
      NoMember(st, depth, o, head);
      NoMember(PlainState(st), depth, o, head');
    } else {
      PlainStep(st.ts);
      if st.ts[0].kind != StringToken || Unquote(st.ts[0].text) == None {
        BadMember(st, depth, o, head);
        BadMember(PlainState(st), depth, o, head');
      } else {
        MemberTransparent(st, depth, o, head, head');
      }
    }
  }

  lemma {:induction false} MemberTransparent(st: State, depth: nat, o: Options, head: Bytes, head': Bytes)
    requires st.ts != [] && st.ts[0].kind == StringToken && Unquote(st.ts[0].text).Some?
    ensures SameNode(ParseChild(st, depth, o, true, head), ParseChild(PlainState(st), depth, o, true, head'))
    decreases |st.ts|, 1
  {
    hide ParseValue, ParseChild, Plain, Unquote, Collect;
    PlainStep(st.ts);
    MemberIs(st, depth, o, head);
    MemberIs(PlainState(st), depth, o, head');
    var colon := Collect([], st.ts[1..]).rest;
    CollectIsPlain([], st.ts[1..]);
    SkipsNothing([], st.ts[1..]);
    if Peek(colon).kind == NameSeparator {
      CollectNotLonger([], st.ts[1..]);
      PlainStep(colon);
      CollectIsPlain([], colon[1..]);
      SkipsNothing([], colon[1..]);
      CollectNotLonger([], colon[1..]);
      var st1 := st.(ts := Collect([], colon[1..]).rest);
      ValueTransparent(st1, depth, o);
      MemberValues(ParseValue(st1, depth, o), ParseValue(PlainState(st1), depth, o));
    }
  }

  lemma CollectNotLonger(acc: Bytes, ts: seq<Token>)
    ensures |Collect(acc, ts).rest| <= |ts| && !IsTrivia(Peek(Collect(acc, ts).rest))
  {
  }

  lemma MemberValues(r: Result<Node>, q: Result<Node>)
    requires SameNode(r, q)
    ensures r.Ok? ==> ValuesOf([r.val]) == ValuesOf([q.val])
  {
  }

  predicate SameTurn(a: Result<Turn>, b: Result<Turn>) {
    match (a, b)
    case (Ok(n, s), Ok(m, t)) =>
      ValuesOf(n.sofar.children) == ValuesOf(m.sofar.children) && n.afterComma == m.afterComma && t == PlainState(s)
    case (Err(e), Err(f)) => e == f
    case _ => false
  }

  lemma AttachTransparent(n: Node, n': Node, st: State, o: Options, obj: bool, sofar: Inside, sofar': Inside)
    requires ValueOf(n) == ValueOf(n') && ValuesOf(sofar.children) == ValuesOf(sofar'.children)
    ensures SameTurn(Attach(n, st, o, obj, sofar), Attach(n', PlainState(st), o, obj, sofar'))
  {
    hide Plain, ValuesOf, Put, HasKey, Collect;
    var line := InlineComment(st.ts);
    var between := HeadComments(line.rest);
    SameKeys(sofar.children, sofar'.children, n.key);
    InlineIsPlain(st.ts);
    SkipsNothing([], st.ts);
    CollectIsPlain([], line.rest);
    var n1 := SetLine(n, line.text);
    PutValues(sofar.children, sofar'.children, n1, n', obj);
    if Peek(between.rest).kind == ValueSeparator {
      var after := InlineComment(between.rest[1..]);
      PlainStep(between.rest);
      InlineIsPlain(between.rest[1..]);
      SkipsNothing([], between.rest[1..]);
      var n2 := AttachAfterComma(n1.WithFoot(JoinNotes(n1.notes.foot, between.text)), after.text);
      var n2' := n'.WithFoot(JoinNotes(n'.notes.foot, []));
      PutValues(sofar.children, sofar'.children, n2, n2', obj);
    }
  }

  lemma {:induction false} ChildrenTransparent(st: State, depth: nat, o: Options, obj: bool, turn: Turn, turn': Turn)
    requires ValuesOf(turn.sofar.children) == ValuesOf(turn'.sofar.children) && turn.afterComma == turn'.afterComma
    ensures SameInside(ParseChildren(st, depth, o, obj, turn), ParseChildren(PlainState(st), depth, o, obj, turn'))
    decreases |st.ts|, 3
  {
    hide ParseChild, Plain, Attach, ValuesOf;
    var head := HeadComments(st.ts);
    CollectIsPlain([], st.ts);
    SkipsNothing([], st.ts);
    if Peek(head.rest).kind == Close(obj) {
      PlainStep(head.rest);
    } else {
      var st0 := st.(ts := head.rest);
      ChildTransparent(st0, depth, o, obj, head.text, []);
      var r := ParseChild(st0, depth, o, obj, head.text);
      if r.Ok? {
        var r' := ParseChild(PlainState(st0), depth, o, obj, []);
        AttachTransparent(r.val, r'.val, r.st, o, obj, turn.sofar, turn'.sofar);
        var a := Attach(r.val, r.st, o, obj, turn.sofar);
        if a.Ok? {
          var a' := Attach(r'.val, r'.st, o, obj, turn'.sofar);
          ChildrenTransparent(a.st, depth, o, obj, a.val, a'.val);
        }
      }
    }
  }

  /** Comment transparency: a document parses exactly as its tokens without
      comments and line breaks do, to the same value or the same error. */
  lemma DocumentTransparent(ts: seq<Token>, o: Options)
    ensures SameNode(ParseDocument(ts, o), ParseDocument(Plain(ts), o))
  {
    var lead := HeadComments(ts);
    CollectIsPlain([], ts);
    SkipsNothing([], ts);
    if lead.rest != [] {
      var st := State(lead.rest, 0, 0);
      ValueTransparent(st, 0, o);
      var r := ParseValue(st, 0, o);
      if r.Ok? {
        var r' := ParseValue(PlainState(st), 0, o);
        FinishTransparent(r.val.WithHead(JoinNotes(lead.text, r.val.notes.head)),
                          r'.val.WithHead(JoinNotes([], r'.val.notes.head)), r.st);
      }
    }
  }

  lemma FinishTransparent(n: Node, n': Node, st: State)
    requires ValueOf(n) == ValueOf(n')
    ensures SameNode(Finish(n, st), Finish(n', PlainState(st)))
  {
    InlineIsPlain(st.ts);
    SkipsNothing([], st.ts);
    var line := if n.notes.line == [] then InlineComment(st.ts) else Noted(n.notes.line, st.ts);
    CollectIsPlain([], line.rest);
    PlainHasNoTrivia(line.rest);
  }

  /** So two inputs that differ only in where comments and line breaks stand
      mean the same. */
  lemma SameTokensSameValue(ts: seq<Token>, us: seq<Token>, o: Options)
    requires Plain(ts) == Plain(us)
    ensures ParseDocument(ts, o).Ok? <==> ParseDocument(us, o).Ok?
    ensures ParseDocument(ts, o).Ok? ==> ValueOf(ParseDocument(ts, o).val) == ValueOf(ParseDocument(us, o).val)
  {
    DocumentTransparent(ts, o);
    DocumentTransparent(us, o);
  }
}
