/**
  Where parsing stops: the token that an error is reported at, and what has been
  read by then.
 */
module Halts {
  import opened Ascii
  import opened Lexer
  import opened QuotedStrings
  import opened Tree
  import opened Syntax
  import opened SyntaxTurns
  import opened Positions
  import opened Slices
  import opened Locality

  /** An error at the first of the tokens `at`, with `rest` still to be taken; the
      first of those has been looked at, or not. */
  datatype Halt = Halt(at: seq<Token>, rest: seq<Token>, looked: bool)

  /** The error is at the token just looked at. */
  function Here(ts: seq<Token>): Halt { Halt(ts, ts, true) }

  /** Where ParseValue stops, if it fails. */
  function HaltValue(st: State, depth: nat, o: Options): Halt
    decreases |st.ts|, 1
  {
    if IsOpen(Peek(st.ts).kind) then HaltContainer(st, depth, o)
    else if ScalarNode(Peek(st.ts)) == None then Here(st.ts)
    else Here(st.ts[1..])
  }

  function HaltContainer(st: State, depth: nat, o: Options): Halt
    requires IsOpen(Peek(st.ts).kind)
    decreases |st.ts|, 0
  {
    if Over(depth + 1, o.maxDepth) then Here(st.ts)
    else if Over(st.nodes + 1, o.maxNodes) then Here(st.ts[1..])
    else
      HaltChildren(State(st.ts[1..], st.keys, st.nodes + 1), depth + 1, o, Peek(st.ts).kind == ObjectStart, START)
  }

  function HaltChild(st: State, depth: nat, o: Options, obj: bool, head: Bytes): Halt
    decreases |st.ts|, 2
  {
    if !obj then HaltValue(st, depth, o)
    else if Peek(st.ts).kind != StringToken || Unquote(st.ts[0].text) == None then Here(st.ts)
    else
      var colon := Collect([], st.ts[1..]).rest;
      if Peek(colon).kind != NameSeparator then Here(colon)
      else
        var value := st.(ts := Collect([], colon[1..]).rest);
        match ParseValue(value, depth, o)
        case Err(_) => HaltValue(value, depth, o)
        case Ok(_, st1) => Here(st1.ts)
  }

  /** Reading the child ended with a look at the token behind it. */
  predicate LooksBehindChild(st: State, depth: nat, o: Options, obj: bool) {
    if !obj then LooksBehind(st, depth, o)
    else if st.ts == [] then false
    else
      var colon := Collect([], st.ts[1..]).rest;
      colon != [] && LooksBehind(st.(ts := Collect([], colon[1..]).rest), depth, o)
  }

  /** What follows a child is neither a comma nor the closing bracket. */
  function HaltFollow(ts: seq<Token>): Halt { Here(HeadComments(InlineComment(ts).rest).rest) }

  function HaltChildren(st: State, depth: nat, o: Options, obj: bool, turn: Turn): Halt
    decreases |st.ts|, 3
  {
    var head := HeadComments(st.ts);
    if Peek(head.rest).kind == Close(obj) then Here(head.rest)
    else
      var child := st.(ts := head.rest);
      match ParseChild(child, depth, o, obj, head.text)
      case Err(_) => HaltChild(child, depth, o, obj, head.text)
      case Ok(n, st1) =>
        match Attach(n, st1, o, obj, turn.sofar)
        case Ok(next, st2) => HaltChildren(st2, depth, o, obj, next)
        case Err(_) =>
          if Refusal(n, st1, o, obj, turn.sofar.children).Some? then
            Halt(head.rest, st1.ts, LooksBehindChild(child, depth, o, obj))
          else HaltFollow(st1.ts)
  }

  function HaltDocument(ts: seq<Token>, o: Options): Halt {
    var lead := HeadComments(ts);
    if lead.rest == [] then Here([])
    else
      match ParseValue(State(lead.rest, 0, 0), 0, o)
      case Err(_) => HaltValue(State(lead.rest, 0, 0), 0, o)
      case Ok(n, st) => HaltFinish(n.WithHead(JoinNotes(lead.text, n.notes.head)), st)
  }

  function HaltFinish(root: Node, st: State): Halt {
    var line := if root.notes.line == [] then InlineComment(st.ts) else Noted(root.notes.line, st.ts);
    Here(Collect([], line.rest).rest)
  }

  /** What the parser complains of: a token, or a scan error that it has come to. */
  datatype Complaint = OfToken(error: ParseError, offset: nat) | OfScan(offset: nat)

  function ComplaintAt(s: Bytes, strict: bool, e: ParseError, h: Halt): Complaint {
    if h.looked && h.rest == [ERROR] then OfScan(ErrorOffset(s, strict)) else OfToken(e, EndSeen(s, strict, h.at, true))
  }

  /** What parsing a document complains of. */
  function ComplaintOf(s: Bytes, o: Options): Option<Complaint> {
    match Parse(s, o)
    case Ok(_, _) => None
    case Err(e) => Some(ComplaintAt(s, o.strictJSON, e, HaltDocument(Tokens(s, o.strictJSON), o)))
  }

  // One turn at a time

  function HaltAfter(child: State, depth: nat, o: Options, obj: bool, turn: Turn, n: Node, st1: State): Halt {
    match Attach(n, st1, o, obj, turn.sofar)
    case Ok(next, st2) => HaltChildren(st2, depth, o, obj, next)
    case Err(_) =>
      if Refusal(n, st1, o, obj, turn.sofar.children).Some? then
        Halt(child.ts, st1.ts, LooksBehindChild(child, depth, o, obj))
      else HaltFollow(st1.ts)
  }

  function HaltAtChild(child: State, depth: nat, o: Options, obj: bool, head: Bytes, turn: Turn): Halt {
    var c := ParseChild(child, depth, o, obj, head);
    if c.Err? then HaltChild(child, depth, o, obj, head) else HaltAfter(child, depth, o, obj, turn, c.val, c.st)
  }

  lemma HaltTurn(st: State, depth: nat, o: Options, obj: bool, turn: Turn)
    ensures var head := HeadComments(st.ts);
            var child := st.(ts := head.rest);
            HaltChildren(st, depth, o, obj, turn)
            == if Peek(head.rest).kind == Close(obj) then Here(head.rest)
               else HaltAtChild(child, depth, o, obj, head.text, turn)
  {
    hide HeadComments, ParseChild, Attach, HaltChild, LooksBehindChild;
  }

  lemma HaltMember(st: State, depth: nat, o: Options, head: Bytes)
    requires Peek(st.ts).kind == StringToken && Unquote(st.ts[0].text).Some?
    ensures var colon := Collect([], st.ts[1..]).rest;
            HaltChild(st, depth, o, true, head)
            == if Peek(colon).kind != NameSeparator then Here(colon)
               else
                 var value := st.(ts := Collect([], colon[1..]).rest);
                 var v := ParseValue(value, depth, o);
                 if v.Err? then HaltValue(value, depth, o) else Here(v.st.ts)
    ensures var colon := Collect([], st.ts[1..]).rest;
            colon != [] ==>
              LooksBehindChild(st, depth, o, true) == LooksBehind(st.(ts := Collect([], colon[1..]).rest), depth, o)
  {
    hide Unquote, Collect, ParseValue, HaltValue, LooksBehind;
  }

  lemma HaltNoMember(st: State, depth: nat, o: Options, head: Bytes)
    requires Peek(st.ts).kind != StringToken || Unquote(st.ts[0].text) == None
    ensures HaltChild(st, depth, o, true, head) == Here(st.ts)
  {
    hide Unquote, Collect, ParseValue, HaltValue;
  }

  // What is left is the end of what there was.

  lemma {:induction false} CollectLeft(acc: Bytes, ts: seq<Token>)
    ensures LeftOf(Collect(acc, ts).rest, ts)
    decreases |ts|
  {
    if IsTrivia(Peek(ts)) {
      var more := if ts[0].kind == Newline then acc else (if acc == [] then [] else acc + [LF]) + ts[0].text;
      CollectLeft(more, ts[1..]);
      LeftTwice(Collect(more, ts[1..]).rest, ts[1..], ts);
    } else {
      LeftItself(ts);
    }
  }

  lemma InlineLeft(ts: seq<Token>)
    ensures LeftOf(InlineComment(ts).rest, ts)
  {
    LeftItself(ts);
  }

  /** One token taken from what is left. */
  lemma LeftNext(b: seq<Token>, a: seq<Token>)
    requires LeftOf(b, a) && b != []
    ensures LeftOf(b[1..], a)
  {
    LeftTwice(b[1..], b, a);
  }

  lemma {:induction false} ValueLeft(st: State, depth: nat, o: Options)
    ensures var r := ParseValue(st, depth, o); r.Ok? ==> LeftOf(r.st.ts, st.ts)
    decreases |st.ts|, 1
  {
    hide ParseContainer, Unquote;
    if IsOpen(Peek(st.ts).kind) {
      ContainerLeft(st, depth, o);
    }
  }

  lemma {:induction false} ContainerLeft(st: State, depth: nat, o: Options)
    requires IsOpen(Peek(st.ts).kind)
    ensures var r := ParseContainer(st, depth, o); r.Ok? ==> LeftOf(r.st.ts, st.ts)
    decreases |st.ts|, 0
  {
    hide ParseChildren, InlineComment, LeftOf;
    var inner := State(st.ts[1..], st.keys, st.nodes + 1);
    var obj := Peek(st.ts).kind == ObjectStart;
    LeftItself(st.ts);
    LeftNext(st.ts, st.ts);
    ChildrenLeft(inner, depth + 1, o, obj, START);
    var r := ParseChildren(inner, depth + 1, o, obj, START);
    if r.Ok? {
      InlineLeft(r.st.ts);
      LeftTwice(r.st.ts, inner.ts, st.ts);
      LeftTwice(InlineComment(r.st.ts).rest, r.st.ts, st.ts);
    }
  }

  /** The tokens of a member in front of its value. */
  lemma KeyLeft(ts: seq<Token>)
    requires ts != []
    ensures var colon := Collect([], ts[1..]).rest;
            LeftOf(colon, ts) && (colon != [] ==> LeftOf(Collect([], colon[1..]).rest, ts))
  {
    hide Collect, LeftOf;
    LeftItself(ts);
    LeftNext(ts, ts);
    CollectLeft([], ts[1..]);
    var colon := Collect([], ts[1..]).rest;
    LeftTwice(colon, ts[1..], ts);
    if colon != [] {
      LeftNext(colon, ts);
      CollectLeft([], colon[1..]);
      LeftTwice(Collect([], colon[1..]).rest, colon[1..], ts);
    }
  }

  lemma {:induction false} ChildLeft(st: State, depth: nat, o: Options, obj: bool, head: Bytes)
    ensures var r := ParseChild(st, depth, o, obj, head); r.Ok? ==> LeftOf(r.st.ts, st.ts)
    decreases |st.ts|, 2
  {
    hide Unquote, ParseValue, LeftOf, Collect;
    if !obj {
      ValueLeft(st, depth, o);
    } else if Peek(st.ts).kind == StringToken {
      KeyLeft(st.ts);
      var colon := Collect([], st.ts[1..]).rest;
      if Peek(colon).kind == NameSeparator {
        var value := st.(ts := Collect([], colon[1..]).rest);
        ValueLeft(value, depth, o);
        var v := ParseValue(value, depth, o);
        if v.Ok? {
          LeftTwice(v.st.ts, value.ts, st.ts);
        }
      }
    }
  }

  lemma FollowLeft(ts: seq<Token>)
    ensures var between := HeadComments(InlineComment(ts).rest).rest;
            LeftOf(between, ts) && (between != [] ==> LeftOf(InlineComment(between[1..]).rest, ts))
  {
    hide InlineComment, Collect, LeftOf;
    var line := InlineComment(ts).rest;
    var between := HeadComments(line).rest;
    InlineLeft(ts);
    CollectLeft([], line);
    LeftTwice(between, line, ts);
    if between != [] {
      LeftNext(between, ts);
      InlineLeft(between[1..]);
      LeftTwice(InlineComment(between[1..]).rest, between[1..], ts);
    }
  }

  lemma AttachLeft(n: Node, st: State, o: Options, obj: bool, sofar: Inside)
    ensures var r := Attach(n, st, o, obj, sofar); r.Ok? ==> LeftOf(r.st.ts, st.ts)
  {
    hide InlineComment, HeadComments, LeftOf, Put, HasKey;
    FollowLeft(st.ts);
  }

  lemma HeadLeft(ts: seq<Token>)
    ensures LeftOf(HeadComments(ts).rest, ts)
  {
    CollectLeft([], ts);
  }

  lemma {:induction false} ChildrenLeft(st: State, depth: nat, o: Options, obj: bool, turn: Turn)
    ensures var r := ParseChildren(st, depth, o, obj, turn); r.Ok? ==> LeftOf(r.st.ts, st.ts)
    decreases |st.ts|, 3
  {
    hide ParseChild, Attach, HeadComments, LeftOf;
    var head := HeadComments(st.ts);
    HeadLeft(st.ts);
    if Peek(head.rest).kind == Close(obj) {
      LeftNext(head.rest, st.ts);
    } else {
      var child := st.(ts := head.rest);
      ChildLeft(child, depth, o, obj, head.text);
      var c := ParseChild(child, depth, o, obj, head.text);
      if c.Ok? {
        AttachLeft(c.val, c.st, o, obj, turn.sofar);
        LeftTwice(c.st.ts, head.rest, st.ts);
        var a := Attach(c.val, c.st, o, obj, turn.sofar);
        if a.Ok? {
          LeftTwice(a.st.ts, c.st.ts, st.ts);
          ChildrenLeft(a.st, depth, o, obj, a.val);
          var r := ParseChildren(a.st, depth, o, obj, a.val);
          if r.Ok? {
            LeftTwice(r.st.ts, a.st.ts, st.ts);
          }
        }
      }
    }
  }

  // The same for where parsing stops.

  predicate HaltsIn(h: Halt, ts: seq<Token>) { LeftOf(h.at, ts) && LeftOf(h.rest, ts) }

  lemma HaltsFurther(h: Halt, b: seq<Token>, a: seq<Token>)
    requires HaltsIn(h, b) && LeftOf(b, a)
    ensures HaltsIn(h, a)
  {
    LeftTwice(h.at, b, a);
    LeftTwice(h.rest, b, a);
  }

  lemma {:induction false} HaltsInValue(st: State, depth: nat, o: Options)
    requires ParseValue(st, depth, o).Err?
    ensures HaltsIn(HaltValue(st, depth, o), st.ts)
    decreases |st.ts|, 1
  {
    hide ParseContainer, HaltContainer, Unquote, LeftOf;
    LeftItself(st.ts);
    if IsOpen(Peek(st.ts).kind) {
      HaltsInContainer(st, depth, o);
    } else if st.ts != [] {
      LeftNext(st.ts, st.ts);
    }
  }

  lemma {:induction false} HaltsInContainer(st: State, depth: nat, o: Options)
    requires IsOpen(Peek(st.ts).kind) && ParseContainer(st, depth, o).Err?
    ensures HaltsIn(HaltContainer(st, depth, o), st.ts)
    decreases |st.ts|, 0
  {
    hide ParseChildren, HaltChildren, InlineComment, LeftOf;
    LeftItself(st.ts);
    LeftNext(st.ts, st.ts);
    var inner := State(st.ts[1..], st.keys, st.nodes + 1);
    var obj := Peek(st.ts).kind == ObjectStart;
    if !Over(depth + 1, o.maxDepth) && !Over(st.nodes + 1, o.maxNodes) {
      HaltsInChildren(inner, depth + 1, o, obj, START);
      HaltsFurther(HaltChildren(inner, depth + 1, o, obj, START), inner.ts, st.ts);
    }
  }

  lemma {:induction false} HaltsInChild(st: State, depth: nat, o: Options, obj: bool, head: Bytes)
    requires ParseChild(st, depth, o, obj, head).Err?
    ensures HaltsIn(HaltChild(st, depth, o, obj, head), st.ts)
    decreases |st.ts|, 2
  {
    hide Unquote, ParseValue, HaltValue, LeftOf, Collect;
    LeftItself(st.ts);
    if !obj {
      HaltsInValue(st, depth, o);
    } else if Peek(st.ts).kind == StringToken && Unquote(st.ts[0].text).Some? {
      KeyLeft(st.ts);
      var colon := Collect([], st.ts[1..]).rest;
      if Peek(colon).kind == NameSeparator {
        var value := st.(ts := Collect([], colon[1..]).rest);
        if ParseValue(value, depth, o).Ok? {
          ValueLeft(value, depth, o);
          LeftTwice(ParseValue(value, depth, o).st.ts, value.ts, st.ts);
        } else {
          HaltsInValue(value, depth, o);
          HaltsFurther(HaltValue(value, depth, o), value.ts, st.ts);
        }
      }
    }
  }

  lemma {:induction false} HaltsInChildren(st: State, depth: nat, o: Options, obj: bool, turn: Turn)
    requires ParseChildren(st, depth, o, obj, turn).Err?
    ensures HaltsIn(HaltChildren(st, depth, o, obj, turn), st.ts)
    decreases |st.ts|, 3
  {
    hide ParseChild, HaltChild, Attach, HeadComments, LeftOf, LooksBehindChild, Refusal, HaltFollow;
    var head := HeadComments(st.ts);
    HeadLeft(st.ts);
    if Peek(head.rest).kind != Close(obj) {
      var child := st.(ts := head.rest);
      var c := ParseChild(child, depth, o, obj, head.text);
      if c.Err? {
        HaltsInChild(child, depth, o, obj, head.text);
        HaltsFurther(HaltChild(child, depth, o, obj, head.text), head.rest, st.ts);
      } else {
        ChildLeft(child, depth, o, obj, head.text);
        LeftTwice(c.st.ts, head.rest, st.ts);
        var a := Attach(c.val, c.st, o, obj, turn.sofar);
        if a.Ok? {
          AttachLeft(c.val, c.st, o, obj, turn.sofar);
          LeftTwice(a.st.ts, c.st.ts, st.ts);
          HaltsInChildren(a.st, depth, o, obj, a.val);
          HaltsFurther(HaltChildren(a.st, depth, o, obj, a.val), a.st.ts, st.ts);
        } else {
          HaltsInFollow(c.st.ts);
          HaltsFurther(HaltFollow(c.st.ts), c.st.ts, st.ts);
        }
      }
    }
  }

  lemma HaltsInFollow(ts: seq<Token>)
    ensures HaltsIn(HaltFollow(ts), ts)
  {
    hide InlineComment, HeadComments, LeftOf;
    FollowLeft(ts);
  }

  // Offsets, seen from further on in the source

  function Moved(c: Complaint, k: nat): Complaint {
    match c
    case OfToken(e, n) => OfToken(e, k + n)
    case OfScan(n) => OfScan(k + n)
  }

  lemma TokensAtBoundary(src: Bytes, strict: bool, n: nat, from: nat)
    requires Boundary(src, strict, n, from)
    ensures n <= |Tokens(src, strict)| && from <= |src| && Tokens(src[from..], strict) == Tokens(src, strict)[n..]
  {
    hide Tokens, EndOf;
    var ts := Tokens(src, strict);
    assert ts[|ts| - |ts[n..]|..] == ts[n..];
    StandsSkips(src, strict, ts[n..], from);
  }

  /** The offset behind the j-th token from a boundary on. */
  lemma {:induction false} EndMoves(src: Bytes, strict: bool, n: nat, from: nat, j: nat)
    requires Boundary(src, strict, n, from) && from <= |src| && j > 0
    ensures EndOf(src, strict, n + j) == from + EndOf(src[from..], strict, j)
    decreases j
  {
    hide Tokens, EndOf, Next, Boundary;
    var t := src[from..];
    EndOfNext(src, strict, n + j - 1);
    EndOfNext(t, strict, j - 1);
    if j == 1 {
      NoEnd(t, strict);
      SameFrom(src, strict, n, from);
      assert t[0..] == t;
    } else {
      EndMoves(src, strict, n, from, j - 1);
      DropTwice(src, from, EndOf(t, strict, j - 1));
    }
  }

  /** The same past the blanks, the j-th token being that in front of the rest. */
  lemma BlanksMove(src: Bytes, strict: bool, n: nat, from: nat, j: nat)
    requires Boundary(src, strict, n, from) && from <= |src|
    ensures var k, i := EndOf(src, strict, n + j), EndOf(src[from..], strict, j);
            k + Blanks(src[k..]) == from + (i + Blanks(src[from..][i..]))
  {
    hide Tokens, EndOf, Next, Boundary, Blanks;
    var t := src[from..];
    if j == 0 {
      NoEnd(t, strict);
      SameFrom(src, strict, n, from);
      LeadIsBlanks(src[EndOf(src, strict, n)..], strict);
      LeadIsBlanks(t, strict);
      assert t[0..] == t;
    } else {
      EndMoves(src, strict, n, from, j);
      DropTwice(src, from, EndOf(t, strict, j));
    }
  }

  lemma SameFrom(src: Bytes, strict: bool, n: nat, from: nat)
    requires Boundary(src, strict, n, from)
    ensures from <= |src|
    ensures var k := EndOf(src, strict, n);
            var e, f := Next(src[k..], strict), Next(src[from..], strict);
            e.tok == f.tok && k + e.lead == from + f.lead && k + e.size == from + f.size
  {
    hide Tokens, EndOf, Next;
    var ts := Tokens(src, strict);
    assert ts[|ts| - |ts[n..]|..] == ts[n..];
    StandsSkips(src, strict, ts[n..], from);
  }

  lemma SeenMoves(src: Bytes, strict: bool, n: nat, from: nat, ts: seq<Token>)
    requires Boundary(src, strict, n, from) && from <= |src| && LeftOf(ts, Tokens(src[from..], strict))
    ensures Behind(src, strict, ts) == from + Behind(src[from..], strict, ts)
    ensures EndSeen(src, strict, ts, true) == from + EndSeen(src[from..], strict, ts, true)
  {
    hide Tokens, EndOf, Next, Boundary, Blanks;
    TokensAtBoundary(src, strict, n, from);
    var j := |Tokens(src[from..], strict)| - |ts|;
    assert Gone(src, strict, ts) == n + j && Gone(src[from..], strict, ts) == j;
    BlanksMove(src, strict, n, from, j);
    EndMoves(src, strict, n, from, j + 1);
  }

  /** What is complained of in the source is what is complained of in its slice,
      further on. */
  lemma ComplaintMoves(src: Bytes, strict: bool, n: nat, from: nat, e: ParseError, h: Halt)
    requires Boundary(src, strict, n, from) && from <= |src| && HaltsIn(h, Tokens(src[from..], strict))
    ensures ComplaintAt(src, strict, e, h) == Moved(ComplaintAt(src[from..], strict, e, h), from)
  {
    hide Tokens, EndOf, Next, Boundary, Blanks, Fault, EndSeen, Behind;
    SeenMoves(src, strict, n, from, h.at);
    SeenMoves(src, strict, n, from, h.rest);
    var k := Behind(src[from..], strict, h.rest);
    assert src[from + k..] == src[from..][k..] by {
      BehindFits(src[from..], strict, h.rest);
    }
  }

  lemma BehindFits(s: Bytes, strict: bool, ts: seq<Token>)
    ensures Behind(s, strict, ts) <= |s|
  {
  }
}
