/**
  Where the checks stop a parse: at the key that is a duplicate or one too many,
  behind the node that is one too many. How many have been counted by then is
  told from the tokens: a member counts when its value is read, so those whose
  objects are still open do not count yet.
 */
module LimitHalts {
  import opened Ascii
  import opened Lexer
  import opened QuotedStrings
  import opened Tree
  import opened Syntax
  import opened SyntaxTurns
  import opened Limits
  import opened Halts

  /** The objects opened and not closed. */
  function Braces(ts: seq<Token>): int {
    if ts == [] then 0
    else Braces(ts[1..]) + if ts[0].kind == ObjectStart then 1 else if ts[0].kind == ObjectEnd then -1 else 0
  }

  /** From a to b the tokens were counted, except for `due` members still to be,
      and `open` objects were left open. */
  predicate Counts(a: State, b: State, due: int, open: int) {
    && b.keys + due + Members(b.ts) == a.keys + Members(a.ts)
    && b.nodes + Nodes(b.ts) == a.nodes + Nodes(a.ts)
    && open + Braces(b.ts) == Braces(a.ts)
  }

  lemma {:induction false} CollectCounts(acc: Bytes, ts: seq<Token>)
    ensures var rest := Collect(acc, ts).rest;
            Members(rest) == Members(ts) && Nodes(rest) == Nodes(ts) && Braces(rest) == Braces(ts)
    decreases |ts|
  {
    if IsTrivia(Peek(ts)) {
      CollectCounts(if ts[0].kind == Newline then acc else (if acc == [] then [] else acc + [LF]) + ts[0].text, ts[1..]);
    }
  }

  lemma InlineCounts(ts: seq<Token>)
    ensures var rest := InlineComment(ts).rest;
            Members(rest) == Members(ts) && Nodes(rest) == Nodes(ts) && Braces(rest) == Braces(ts)
  {
  }

  lemma {:induction false} ValueCounts(st: State, d: nat, o: Options)
    ensures var r := ParseValue(st, d, o); r.Ok? ==> Counts(st, r.st, 0, 0)
    decreases |st.ts|, 1
  {
    hide ParseContainer, Unquote;
    if IsOpen(Peek(st.ts).kind) {
      ContainerCounts(st, d, o);
    }
  }

  lemma {:induction false} ContainerCounts(st: State, d: nat, o: Options)
    requires IsOpen(Peek(st.ts).kind)
    ensures var r := ParseContainer(st, d, o); r.Ok? ==> Counts(st, r.st, 0, 0)
    decreases |st.ts|, 0
  {
    hide ParseChildren, InlineComment;
    var inner := State(st.ts[1..], st.keys, st.nodes + 1);
    var obj := Peek(st.ts).kind == ObjectStart;
    ChildrenCount(inner, d + 1, o, obj, START);
    var r := ParseChildren(inner, d + 1, o, obj, START);
    if r.Ok? {
      InlineCounts(r.st.ts);
    }
  }

  /** A key and its colon: one member is begun, and its node is not counted. */
  lemma KeyCounts(ts: seq<Token>)
    requires Peek(ts).kind == StringToken
    ensures var colon := Collect([], ts[1..]).rest;
            && Members(colon) == Members(ts) && Nodes(colon) == Nodes(ts) - 1 && Braces(colon) == Braces(ts)
            && (Peek(colon).kind == NameSeparator ==>
                  var value := Collect([], colon[1..]).rest;
                  Members(value) == Members(ts) - 1 && Nodes(value) == Nodes(ts) - 1 && Braces(value) == Braces(ts))
  {
    hide Collect;
    CollectCounts([], ts[1..]);
    var colon := Collect([], ts[1..]).rest;
    if colon != [] {
      CollectCounts([], colon[1..]);
    }
  }

  lemma {:induction false} ChildCounts(st: State, d: nat, o: Options, obj: bool, head: Bytes)
    ensures var r := ParseChild(st, d, o, obj, head); r.Ok? ==> Counts(st, r.st, if obj then 1 else 0, 0)
    decreases |st.ts|, 2
  {
    hide ParseValue, Unquote, Collect, Members, Nodes, Braces;
    if !obj {
      ValueCounts(st, d, o);
    } else if Peek(st.ts).kind == StringToken {
      KeyCounts(st.ts);
      var colon := Collect([], st.ts[1..]).rest;
      if Peek(colon).kind == NameSeparator {
        ValueCounts(st.(ts := Collect([], colon[1..]).rest), d, o);
      }
    }
  }

  lemma AttachCounts(n: Node, st: State, o: Options, obj: bool, sofar: Inside)
    ensures var r := Attach(n, st, o, obj, sofar); r.Ok? ==> Counts(st, r.st, if obj then -1 else 0, 0)
  {
    hide InlineComment, Collect, Put, HasKey;
    var line := InlineComment(st.ts).rest;
    InlineCounts(st.ts);
    CollectCounts([], line);
    var between := HeadComments(line).rest;
    if Peek(between).kind == ValueSeparator {
      InlineCounts(between[1..]);
    }
  }

  lemma {:induction false} ChildrenCount(st: State, d: nat, o: Options, obj: bool, turn: Turn)
    ensures var r := ParseChildren(st, d, o, obj, turn); r.Ok? ==> Counts(st, r.st, 0, if obj then -1 else 0)
    decreases |st.ts|, 3
  {
    hide ParseChild, Attach, Collect, Members, Nodes, Braces;
    var head := HeadComments(st.ts);
    CollectCounts([], st.ts);
    if Peek(head.rest).kind == Close(obj) {
      OneToken(head.rest);
    } else {
      var child := st.(ts := head.rest);
      ChildCounts(child, d, o, obj, head.text);
      var c := ParseChild(child, d, o, obj, head.text);
      if c.Ok? {
        AttachCounts(c.val, c.st, o, obj, turn.sofar);
        var a := Attach(c.val, c.st, o, obj, turn.sofar);
        if a.Ok? {
          ChildrenCount(a.st, d, o, obj, a.val);
        }
      }
    }
  }

  lemma OneToken(ts: seq<Token>)
    requires ts != []
    ensures Members(ts) == Members(ts[1..]) + if ts[0].kind == NameSeparator then 1 else 0
    ensures Nodes(ts) == Nodes(ts[1..]) + if IsScalar(ts[0].kind) || IsOpen(ts[0].kind) then 1 else 0
    ensures Braces(ts) == Braces(ts[1..]) + if ts[0].kind == ObjectStart then 1 else if ts[0].kind == ObjectEnd then -1 else 0
  {
  }

  // Where a check fails

  predicate IsCheck(e: ParseError) { e.DuplicateKey? || e == TooManyKeys || e == TooManyNodes }

  /** The error e at h, from st on, `own` being 1 inside of an object whose brace
      was read before st. */
  predicate CheckFails(e: ParseError, h: Halt, st: State, o: Options, own: int) {
    match e
    case DuplicateKey(key) => h.at != [] && h.at[0].kind == StringToken && Unquote(h.at[0].text) == Some(key)
    case TooManyKeys =>
      && h.at != [] && h.at[0].kind == StringToken && o.maxKeys > 0
      && st.keys + (Members(st.ts) - Members(h.rest)) - (own + Braces(st.ts) - Braces(h.rest)) == o.maxKeys
    case TooManyNodes =>
      && h.at == h.rest && o.maxNodes > 0
      && o.maxNodes <= st.nodes + (Nodes(st.ts) - Nodes(h.rest)) - (own + Braces(st.ts) - Braces(h.rest)) <= o.maxNodes + 1
    case _ => true
  }

  predicate Within(st: State, o: Options) { !Over(st.keys, o.maxKeys) && !Over(st.nodes, o.maxNodes) }

  lemma {:induction false} ValueCheck(st: State, d: nat, o: Options)
    requires Within(st, o)
    ensures var r := ParseValue(st, d, o);
            if r.Err? then CheckFails(r.error, HaltValue(st, d, o), st, o, 0) else Within(r.st, o)
    decreases |st.ts|, 1
  {
    hide ParseContainer, HaltContainer, Unquote, Members;
    if IsOpen(Peek(st.ts).kind) {
      ContainerCheck(st, d, o);
    }
  }

  lemma {:induction false} ContainerCheck(st: State, d: nat, o: Options)
    requires Within(st, o) && IsOpen(Peek(st.ts).kind)
    ensures var r := ParseContainer(st, d, o);
            if r.Err? then CheckFails(r.error, HaltContainer(st, d, o), st, o, 0) else Within(r.st, o)
    decreases |st.ts|, 0
  {
    hide ParseChildren, HaltChildren, InlineComment, Members, Nodes, Braces, Unquote;
    var inner := State(st.ts[1..], st.keys, st.nodes + 1);
    var obj := Peek(st.ts).kind == ObjectStart;
    OneToken(st.ts);
    if Within(inner, o) {
      ChildrenCheck(inner, d + 1, o, obj, START);
    }
  }

  lemma {:induction false} ChildCheck(st: State, d: nat, o: Options, obj: bool, head: Bytes)
    requires Within(st, o)
    ensures var r := ParseChild(st, d, o, obj, head);
            if r.Err? then CheckFails(r.error, HaltChild(st, d, o, obj, head), st, o, if obj then 1 else 0) else Within(r.st, o)
    decreases |st.ts|, 2
  {
    hide ParseValue, HaltValue, Unquote, Collect, Members, Nodes, Braces;
    if !obj {
      ValueCheck(st, d, o);
    } else if Peek(st.ts).kind == StringToken {
      KeyCounts(st.ts);
      var colon := Collect([], st.ts[1..]).rest;
      if Peek(colon).kind == NameSeparator {
        var value := st.(ts := Collect([], colon[1..]).rest);
        ValueCheck(value, d, o);
        ValueCounts(value, d, o);
      }
    }
  }

  lemma {:induction false} ChildrenCheck(st: State, d: nat, o: Options, obj: bool, turn: Turn)
    requires Within(st, o)
    ensures var r := ParseChildren(st, d, o, obj, turn);
            if r.Err? then CheckFails(r.error, HaltChildren(st, d, o, obj, turn), st, o, if obj then 1 else 0)
            else Within(r.st, o)
    decreases |st.ts|, 3
  {
    hide ParseChild, HaltChild, Attach, Collect, Members, Nodes, Braces, Unquote, LooksBehindChild, HaltFollow, Refusal;
    var head := HeadComments(st.ts);
    CollectCounts([], st.ts);
    if Peek(head.rest).kind != Close(obj) {
      var child := st.(ts := head.rest);
      ChildCheck(child, d, o, obj, head.text);
      var c := ParseChild(child, d, o, obj, head.text);
      if c.Ok? {
        ChildCounts(child, d, o, obj, head.text);
        AttachCheck(child, c, d, o, obj, head.text, turn.sofar);
        var a := Attach(c.val, c.st, o, obj, turn.sofar);
        if a.Ok? {
          AttachCounts(c.val, c.st, o, obj, turn.sofar);
          ChildrenCheck(a.st, d, o, obj, a.val);
        }
      }
    }
  }

  /** The checks of a member just read. */
  lemma AttachCheck(child: State, c: Result<Node>, d: nat, o: Options, obj: bool, head: Bytes, sofar: Inside)
    requires Within(child, o) && c == ParseChild(child, d, o, obj, head) && c.Ok? && Within(c.st, o)
    ensures var a := Attach(c.val, c.st, o, obj, sofar);
            match a
            case Ok(_, st2) => Within(st2, o)
            case Err(e) =>
              if e == UnexpectedToken then Refusal(c.val, c.st, o, obj, sofar.children) == None
              else
                && Refusal(c.val, c.st, o, obj, sofar.children) == Some(e) && obj
                && child.ts != [] && child.ts[0].kind == StringToken && Unquote(child.ts[0].text) == Some(c.val.key)
                && (e == DuplicateKey(c.val.key) || (e == TooManyKeys && c.st.keys == o.maxKeys && o.maxKeys > 0))
  {
    hide ParseValue, Unquote, HasKey, Put, Collect, InlineComment;
    if obj {
      MemberIs(child, d, o, head);
    }
  }

  /** A check of a document fails at the key that is a duplicate, or at the key of
      the member that is one too many, or behind the node that is one too many. */
  lemma ChecksAreExact(ts: seq<Token>, o: Options)
    requires ParseDocument(ts, o).Err? && IsCheck(ParseDocument(ts, o).error)
    ensures CheckFails(ParseDocument(ts, o).error, HaltDocument(ts, o), State(ts, 0, 0), o, 0)
  {
    hide ParseValue, HaltValue, Collect, Members, Nodes, Braces, Unquote, Finish, JoinNotes;
    CollectCounts([], ts);
    ValueCheck(State(HeadComments(ts).rest, 0, 0), 0, o);
    var v := ParseValue(State(HeadComments(ts).rest, 0, 0), 0, o);
    if v.Ok? {
      FinishIsNoCheck(v.val.WithHead(JoinNotes(HeadComments(ts).text, v.val.notes.head)), v.st);
    }
  }

  lemma FinishIsNoCheck(n: Node, st: State)
    ensures Finish(n, st).Err? ==> Finish(n, st).error == ExtraData
  {
  }
}
