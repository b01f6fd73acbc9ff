/**
  Printing preserves meaning: in every layout, the output parses back to the
  same value. Compact output is strict JSON and a fixed point.
 */
module RoundTrip {
  import opened Ascii
  import opened Lexer
  import opened QuotedStrings
  import opened StringLaws
  import opened Tree
  import opened Syntax
  import opened SyntaxTurns
  import opened Transparency
  import opened Limits
  import opened Sizes
  import opened WellFormed
  import opened Printer
  import opened PrintedTokens
  import opened PrintedValues

  /** The tree that the tokens of n parse back to. */
  function Reread(n: Node, o: Layout): Node
    decreases n, 1
  {
    Node(n.kind, n.key,
         if n.kind == KeyValueNode then SourceString(n.rawKey, n.key, o.escapeHTML) else [],
         n.value,
         if n.kind == StringNode then SourceString(n.rawValue, n.value, o.escapeHTML) else n.rawValue,
         NO_NOTES, RereadKids(n.children, o))
  }

  function RereadKids(kids: seq<Node>, o: Layout): (r: seq<Node>)
    ensures |r| == |kids|
    ensures forall i :: 0 <= i < |kids| ==> r[i] == Reread(kids[i], o)
    decreases kids, 0
  {
    seq(|kids|, i requires 0 <= i < |kids| => Reread(kids[i], o))
  }

  lemma {:induction false} RereadMeansTheSame(n: Node, o: Layout)
    ensures ValueOf(Reread(n, o)) == ValueOf(n)
    decreases n, 1
  {
    forall i | 0 <= i < |n.children|
      ensures ValueOf(RereadKids(n.children, o)[i]) == ValueOf(n.children[i])
    {
      RereadMeansTheSame(n.children[i], o);
    }
    assert ValuesOf(RereadKids(n.children, o)) == ValuesOf(n.children);
  }

  predicate NoLimits(o: Options) { o.maxDepth <= 0 && o.maxKeys <= 0 && o.maxNodes <= 0 }

  /** A strict parser is given no trailing commas. */
  predicate Readable(p: Options, o: Layout) {
    p.strictJSON ==> !((o.Multiline() || o.arrayMultiline) && o.LastComma())
  }

  lemma NothingToSkip(acc: Bytes, ts: seq<Token>)
    requires !IsTrivia(Peek(ts))
    ensures Collect(acc, ts) == Noted(acc, ts) && HeadComments(ts) == Noted([], ts) && InlineComment(ts) == Noted([], ts)
  {
  }

  predicate StartsChild(k: Kind) { IsOpen(k) || IsScalar(k) }

  lemma CoreHead(n: Node, o: Layout)
    ensures Core(n, o) != []
    ensures StartsChild(Core(n, o)[0].kind)
    ensures n.kind == KeyValueNode ==> Core(n, o)[0] == StringTok(n.rawKey, n.key, o)
    ensures n.kind == ObjectNode ==> Core(n, o)[0].kind == ObjectStart
    ensures n.kind == ArrayNode ==> Core(n, o)[0].kind == ArrayStart
  {
    hide SourceString;
  }

  lemma PeekConcat(a: seq<Token>, b: seq<Token>)
    requires a != []
    ensures Peek(a + b) == a[0] && (a + b)[1..] == a[1..] + b
  {
  }

  lemma {:induction false} ValueReadsBack(n: Node, o: Layout, us: seq<Token>, keys: nat, nodes: nat, depth: nat, p: Options)
    requires WfNode(n) && n.kind != KeyValueNode && NoLimits(p) && Readable(p, o) && !IsComment(Peek(us))
    ensures var r := ParseValue(State(Core(n, o) + us, keys, nodes), depth, p);
            r.Ok? && r.val == Reread(n, o) && r.st.ts == us
    decreases n, 1
  {
    hide Core, WfNode, ParseContainer, Reread, ParseScalar;
    var ts := Core(n, o) + us;
    CoreHead(n, o);
    PeekConcat(Core(n, o), us);
    if n.IsContainer() {
      ContainerReadsBack(n, o, us, keys, nodes, depth, p);
    } else {
      ScalarReadsBack(n, o, us, keys, nodes, p);
    }
  }

  lemma ScalarReadsBack(n: Node, o: Layout, us: seq<Token>, keys: nat, nodes: nat, p: Options)
    requires WfNode(n) && n.kind != KeyValueNode && !n.IsContainer() && NoLimits(p)
    ensures !IsOpen(Peek(Core(n, o) + us).kind)
    ensures var r := ParseScalar(State(Core(n, o) + us, keys, nodes), p);
            r.Ok? && r.val == Reread(n, o) && r.st.ts == us
  {
    hide SourceString, Unquote, IsStringToken, NumberLen, WfNotes;
    var t := Core(n, o)[0];
    assert Core(n, o) == [t];
    PeekConcat(Core(n, o), us);
    assert [t][1..] + us == us;
    if n.kind == StringNode {
      SourceStringKeepsText(n.rawValue, o.escapeHTML);
    }
    assert ScalarNode(t) == Some(Reread(n, o)) by { ScalarIsReread(n, o); }
  }

  lemma NoneReread(o: Layout)
    ensures RereadKids([], o) == []
  {
  }

  lemma ScalarIsReread(n: Node, o: Layout)
    requires WfNode(n) && n.kind != KeyValueNode && !n.IsContainer()
    ensures ScalarNode(Core(n, o)[0]) == Some(Reread(n, o))
  {
    hide SourceString, Unquote, IsStringToken, WfNotes, NumberLen;
    NoneReread(o);
    if n.kind == StringNode {
      SourceStringKeepsText(n.rawValue, o.escapeHTML);
    } else if n.kind == NumberNode {
      NumberHead(n.value);
    }
  }

  lemma {:induction false} ContainerReadsBack(n: Node, o: Layout, us: seq<Token>, keys: nat, nodes: nat, depth: nat, p: Options)
    requires WfNode(n) && n.IsContainer() && NoLimits(p) && Readable(p, o) && !IsComment(Peek(us))
    ensures IsOpen(Peek(Core(n, o) + us).kind)
    ensures var r := ParseContainer(State(Core(n, o) + us, keys, nodes), depth, p);
            r.Ok? && r.val == Reread(n, o) && r.st.ts == us
    decreases n, 0
  {
    hide ParseChildren, CoreKids, RereadKids;
    var obj := n.kind == ObjectNode;
    var last := o.Spread(n.kind) && o.LastComma();
    var kids := CoreKids(n.children, o, last);
    var close := ClosePiece(n.kind).tok;
    var inner := kids + ([close] + us);
    var ts := Core(n, o) + us;
    assert ts == [OpenPiece(n.kind).tok] + inner;
    assert ts[1..] == inner;
    KidsReadBack(n.children, [], o, last, us, keys, nodes + 1, depth + 1, p, obj, false);
    assert [] + RereadKids(n.children, o) == RereadKids(n.children, o);
    assert InlineComment(us) == Noted([], us);
  }

  predicate NewKeys(done: seq<Node>, kids: seq<Node>) {
    DistinctKeys(kids) && forall i :: 0 <= i < |kids| ==> !HasKey(done, kids[i].key)
  }

  lemma NewKeysStep(done: seq<Node>, kids: seq<Node>, n: Node)
    requires NewKeys(done, kids) && kids != [] && n.key == kids[0].key
    ensures NewKeys(done + [n], kids[1..])
    ensures Put(done, n, true) == done + [n] && !HasKey(done, n.key)
  {
    WithoutAbsent(done, n.key);
    forall i | 0 <= i < |kids[1..]|
      ensures !HasKey(done + [n], kids[1..][i].key)
    {
      assert kids[1..][i] == kids[i + 1];
      assert kids[0].key != kids[i + 1].key;
    }
  }

  lemma KidsSplit(kids: seq<Node>, o: Layout, last: bool, tail: seq<Token>)
    requires kids != []
    ensures CoreKids(kids, o, last) + tail
            == Core(kids[0], o) + (CommaTok(|kids| > 1 || last) + (CoreKids(kids[1..], o, last) + tail))
  {
    hide Core, CommaTok;
  }

  lemma NoKids(o: Layout, last: bool, tail: seq<Token>)
    ensures CoreKids([], o, last) + tail == tail
  {
  }

  /** One turn of the loop over a container's children. */
  lemma OneTurn(st: State, depth: nat, p: Options, obj: bool, turn: Turn)
    requires !IsTrivia(Peek(st.ts)) && Peek(st.ts).kind != Close(obj)
    requires ParseChild(st, depth, p, obj, []).Ok?
    requires var c := ParseChild(st, depth, p, obj, []); Attach(c.val, c.st, p, obj, turn.sofar).Ok?
    ensures var c := ParseChild(st, depth, p, obj, []);
            var a := Attach(c.val, c.st, p, obj, turn.sofar);
            ParseChildren(st, depth, p, obj, turn) == ParseChildren(a.st, depth, p, obj, a.val)
  {
    hide ParseChild, Attach;
    NothingToSkip([], st.ts);
  }

  function CloseTok(obj: bool): Token { Token(Close(obj), if obj then [RBRACE] else [RBRACKET]) }

  lemma LastTurn(us: seq<Token>, keys: nat, nodes: nat, depth: nat, p: Options, obj: bool, done: seq<Node>, afterComma: bool)
    requires p.strictJSON ==> !afterComma
    ensures ParseChildren(State([CloseTok(obj)] + us, keys, nodes), depth, p, obj, Turn(Inside(done, []), afterComma))
            == Ok(Inside(done, []), State(us, keys, nodes))
  {
    hide ParseChild, Attach;
    var ts := [CloseTok(obj)] + us;
    NothingToSkip([], ts);
    assert ts[1..] == us;
  }

  /** The children still to come, the ones done, and a closing delimiter. */
  lemma {:induction false} KidsReadBack(
    kids: seq<Node>, done: seq<Node>, o: Layout, last: bool, us: seq<Token>,
    keys: nat, nodes: nat, depth: nat, p: Options, obj: bool, afterComma: bool)
    requires WfKids(kids, obj) && NoLimits(p) && Readable(p, o)
    requires obj ==> NewKeys(done, kids)
    requires p.strictJSON ==> !last && (kids == [] ==> !afterComma)
    ensures var r := ParseChildren(State(CoreKids(kids, o, last) + ([CloseTok(obj)] + us), keys, nodes), depth, p, obj, Turn(Inside(done, []), afterComma));
            r.Ok? && r.val == Inside(done + RereadKids(kids, o), []) && r.st.ts == us
    decreases kids, 0
  {
    hide Core, CoreKids, WfNode, Reread, Attach, ParseChild, ParseChildren, RereadKids, NewKeys, CommaTok, Put, HasKey, IsTrivia;
    var tail := [CloseTok(obj)] + us;
    if kids == [] {
      NoKids(o, last, tail);
      LastTurn(us, keys, nodes, depth, p, obj, done, afterComma);
      RereadNone(o);
      assert done + [] == done;
    } else {
      var n := kids[0];
      var m := Reread(n, o);
      var comma := |kids| > 1 || last;
      var rest := CoreKids(kids[1..], o, last) + tail;
      var us1 := CommaTok(comma) + rest;
      var st := State(Core(n, o) + us1, keys, nodes);
      KidsSplit(kids, o, last, tail);
      KidStarts(n, o, us1, obj);
      RestStarts(kids[1..], o, last, obj, us, comma);
      ChildReadsBack(n, o, us1, keys, nodes, depth, p, obj);
      var c := ParseChild(st, depth, p, obj, []);
      RereadShape(n, o);
      if obj {
        NewKeysStep(done, kids, m);
      }
      AttachReadsBack(m, c.st, p, obj, done, comma, rest);
      var a := Attach(m, c.st, p, obj, Inside(done, []));
      OneTurn(st, depth, p, obj, Turn(Inside(done, []), afterComma));
      KidsReadBack(kids[1..], done + [m], o, last, us, a.st.keys, a.st.nodes, depth, p, obj, comma);
      RereadSplit(kids, o);
      assert done + [m] + RereadKids(kids[1..], o) == done + ([m] + RereadKids(kids[1..], o));
    }
  }

  lemma KidStarts(n: Node, o: Layout, us: seq<Token>, obj: bool)
    ensures !IsTrivia(Peek(Core(n, o) + us)) && Peek(Core(n, o) + us).kind != Close(obj)
  {
    hide Core;
    CoreHead(n, o);
    PeekConcat(Core(n, o), us);
  }

  lemma RereadNone(o: Layout)
    ensures RereadKids([], o) == []
  {
  }

  lemma RereadSplit(kids: seq<Node>, o: Layout)
    requires kids != []
    ensures RereadKids(kids, o) == [Reread(kids[0], o)] + RereadKids(kids[1..], o)
  {
  }

  lemma RereadShape(n: Node, o: Layout)
    ensures Reread(n, o).key == n.key && Reread(n, o).kind == n.kind && Reread(n, o).notes == NO_NOTES
  {
  }

  /** Behind a child come a comma or the closing delimiter, and no comment. */
  lemma RestStarts(kids: seq<Node>, o: Layout, last: bool, obj: bool, us: seq<Token>, comma: bool)
    requires !comma ==> kids == []
    ensures var rest := CoreKids(kids, o, last) + ([CloseTok(obj)] + us);
            var us1 := CommaTok(comma) + rest;
            !IsTrivia(Peek(rest)) && !IsTrivia(Peek(us1))
            && if comma then us1 != [] && us1[0] == COMMA_PIECE.tok && us1[1..] == rest else us1 == rest && Peek(rest) == CloseTok(obj)
  {
    hide Core, CoreKids;
    var tail := [CloseTok(obj)] + us;
    var rest := CoreKids(kids, o, last) + tail;
    if kids == [] {
      NoKids(o, last, tail);
    } else {
      KidsSplit(kids, o, last, tail);
      KidStarts(kids[0], o, CommaTok(|kids| > 1 || last) + (CoreKids(kids[1..], o, last) + tail), true);
    }
  }

  lemma AttachReadsBack(m: Node, st: State, p: Options, obj: bool, done: seq<Node>, comma: bool, rest: seq<Token>)
    requires NoLimits(p) && m.notes == NO_NOTES && !IsTrivia(Peek(rest)) && !IsTrivia(Peek(st.ts))
    requires obj ==> !HasKey(done, m.key) && Put(done, m, true) == done + [m]
    requires if comma then st.ts != [] && st.ts[0] == COMMA_PIECE.tok && st.ts[1..] == rest else st.ts == rest && Peek(rest).kind == Close(obj)
    ensures var a := Attach(m, st, p, obj, Inside(done, []));
            a.Ok? && a.val == Turn(Inside(done + [m], []), comma) && a.st.ts == rest
  {
    hide HasKey, Without, HeadComments, InlineComment;
    assert m.WithFoot(JoinNotes(m.notes.foot, [])) == m;
    NothingToSkip([], st.ts);
    NothingToSkip([], rest);
  }

  lemma {:induction false} ChildReadsBack(n: Node, o: Layout, us: seq<Token>, keys: nat, nodes: nat, depth: nat, p: Options, obj: bool)
    requires WfNode(n) && (n.kind == KeyValueNode <==> obj) && NoLimits(p) && Readable(p, o) && !IsComment(Peek(us))
    ensures var r := ParseChild(State(Core(n, o) + us, keys, nodes), depth, p, obj, []);
            r.Ok? && r.val == Reread(n, o) && r.st.ts == us
    decreases n, 2
  {
    hide ParseValue, ParseChild, Core, Reread, WfNode, NoLimits, Readable;
    if !obj {
      ValueReadsBack(n, o, us, keys, nodes, depth, p);
      RereadShape(n, o);
      ElementReadsBack(Reread(n, o), State(Core(n, o) + us, keys, nodes), depth, p);
    } else {
      HasOneChild(n);
      var v := n.children[0];
      ValueReadsBack(v, o, us, keys, nodes, depth, p);
      CoreBegins(v, o, us);
      MemberReadsBack(n, o, us, Core(v, o) + us, keys, nodes, depth, p, ParseValue(State(Core(v, o) + us, keys, nodes), depth, p));
    }
  }

  lemma HasOneChild(n: Node)
    requires WfNode(n) && n.kind == KeyValueNode
    ensures |n.children| == 1 && WfNode(n.children[0]) && n.children[0].kind != KeyValueNode && n.children[0] < n
  {
    hide Unquote, IsStringToken;
  }

  lemma CoreBegins(n: Node, o: Layout, us: seq<Token>)
    requires WfNode(n) && n.kind != KeyValueNode
    ensures !IsTrivia(Peek(Core(n, o) + us))
  {
    hide Core, WfNode;
    CoreHead(n, o);
    PeekConcat(Core(n, o), us);
  }

  lemma ElementReadsBack(n: Node, st: State, depth: nat, p: Options)
    requires var r := ParseValue(st, depth, p); r.Ok? && r.val == n
    requires n.notes == NO_NOTES
    ensures ParseChild(st, depth, p, false, []) == ParseValue(st, depth, p)
  {
    hide ParseValue, ParseChild;
    ElementIs(st, depth, p, []);
    assert n.WithHead(JoinNotes(n.notes.head, [])) == n;
  }

  /** A key and a colon in front of a value. */
  lemma MemberReadsBack(n: Node, o: Layout, us: seq<Token>, tail: seq<Token>, keys: nat, nodes: nat, depth: nat, p: Options, v: Result<Node>)
    requires WfNode(n) && n.kind == KeyValueNode && NoLimits(p) && !IsTrivia(Peek(tail))
    requires tail == Core(n.children[0], o) + us
    requires v == ParseValue(State(tail, keys, nodes), depth, p) && v.Ok? && v.val == Reread(n.children[0], o)
    ensures var r := ParseChild(State(Core(n, o) + us, keys, nodes), depth, p, true, []);
            r.Ok? && r.val == Reread(n, o) && r.st.ts == v.st.ts
  {
    hide ParseValue, SourceString, Unquote, IsStringToken, Collect, WfNotes, Core, Reread, IsTrivia;
    var key := StringTok(n.rawKey, n.key, o);
    var colon := [COLON_PIECE.tok] + tail;
    MemberTokens(n, o, us);
    NothingToSkip([], tail);
    SourceStringKeepsText(n.rawKey, o.escapeHTML);
    MemberIsReread(n, o);
    MemberParses(key, tail, keys, nodes, depth, p);
  }

  lemma MemberTokens(n: Node, o: Layout, us: seq<Token>)
    requires n.kind == KeyValueNode && n.children != []
    ensures Core(n, o) + us == [StringTok(n.rawKey, n.key, o)] + ([COLON_PIECE.tok] + (Core(n.children[0], o) + us))
  {
    hide SourceString;
  }

  lemma MemberIsReread(n: Node, o: Layout)
    requires WfNode(n) && n.kind == KeyValueNode
    ensures Reread(n, o) == KeyValue(n.key, StringTok(n.rawKey, n.key, o).text, Reread(n.children[0], o), [])
  {
    hide SourceString, Unquote, IsStringToken, WfNotes;
    assert RereadKids(n.children, o) == [Reread(n.children[0], o)];
  }

  lemma MemberParses(key: Token, tail: seq<Token>, keys: nat, nodes: nat, depth: nat, p: Options)
    requires key.kind == StringToken && Unquote(key.text).Some? && NoLimits(p) && !IsTrivia(Peek(tail))
    requires ParseValue(State(tail, keys, nodes), depth, p).Ok?
    ensures var v := ParseValue(State(tail, keys, nodes), depth, p);
            var r := ParseChild(State([key] + ([COLON_PIECE.tok] + tail), keys, nodes), depth, p, true, []);
            r.Ok? && r.val == KeyValue(Unquote(key.text).value, key.text, v.val, []) && r.st.ts == v.st.ts
  {
    hide ParseValue, Unquote, Collect;
    var colon := [COLON_PIECE.tok] + tail;
    var ts := [key] + colon;
    assert ts[1..] == colon && colon[1..] == tail;
    NothingToSkip([], colon);
    NothingToSkip([], tail);
  }

  // The sizes of printed values

  lemma TallyConcat(a: seq<Token>, b: seq<Token>, d: nat)
    requires Net(a) == 0
    ensures Members(a + b) == Members(a) + Members(b) && Nodes(a + b) == Nodes(a) + Nodes(b)
    ensures Net(a + b) == Net(b) && Nesting(a + b, d) == Max(Nesting(a, d), Nesting(b, d))
  {
    CountsConcat(a, b);
    NestingConcat(a, b, d);
  }

  lemma {:induction false} CountsConcat(a: seq<Token>, b: seq<Token>)
    ensures Members(a + b) == Members(a) + Members(b) && Nodes(a + b) == Nodes(a) + Nodes(b)
  {
    if a == [] {
      assert a + b == b;
    } else {
      assert (a + b)[0] == a[0] && (a + b)[1..] == a[1..] + b;
      CountsConcat(a[1..], b);
    }
  }

  lemma NestingOfNone(d: int)
    ensures Net([]) == 0 && Nesting([], d) == 0
  {
  }

  lemma NestingStep(ts: seq<Token>, d: int)
    requires ts != []
    ensures Net(ts) == Net(ts[1..]) + Rise(ts[0].kind)
    ensures Nesting(ts, d) == Max(if IsOpen(ts[0].kind) then d + 1 else 0, Nesting(ts[1..], d + Rise(ts[0].kind)))
  {
  }

  lemma {:induction false} NestingConcat(a: seq<Token>, b: seq<Token>, d: int)
    ensures Net(a + b) == Net(a) + Net(b) && Nesting(a + b, d) == Max(Nesting(a, d), Nesting(b, d + Net(a)))
  {
    hide Net, Nesting;
    if a == [] {
      NestingOfNone(d);
      NestingNatural(b, d);
      assert a + b == b;
    } else {
      assert (a + b)[0] == a[0] && (a + b)[1..] == a[1..] + b;
      NestingStep(a, d);
      NestingStep(a + b, d);
      NestingConcat(a[1..], b, d + Rise(a[0].kind));
    }
  }

  /** ts has as many members, nodes and levels as a tree with these. */
  predicate Tallies(ts: seq<Token>, members: nat, nodes: nat, deep: nat, d: nat) {
    Members(ts) == members && Nodes(ts) == nodes && Net(ts) == 0
    && Nesting(ts, d) == if deep == 0 then 0 else d + deep
  }

  lemma TalliesConcat(a: seq<Token>, b: seq<Token>, m: nat, n: nat, p: nat, m': nat, n': nat, p': nat, d: nat)
    requires Tallies(a, m, n, p, d) && Tallies(b, m', n', p', d)
    ensures Tallies(a + b, m + m', n + n', Max(p, p'), d)
  {
    hide Members, Nodes, Net, Nesting;
    TallyConcat(a, b, d);
  }

  lemma TallyOne(t: Token, d: nat)
    requires !IsOpen(t.kind) && !IsClose(t.kind)
    ensures Tallies([t], if t.kind == NameSeparator then 1 else 0, if IsScalar(t.kind) then 1 else 0, 0, d)
  {
    var none: seq<Token> := [];
    assert [t][1..] == none && Members(none) == 0 && Nodes(none) == 0 && Net(none) == 0 && Nesting(none, d) == 0;
  }

  lemma TallyNone(d: nat)
    ensures Tallies([], 0, 0, 0, d)
  {
  }

  lemma TallyBracketed(open: Token, kids: seq<Token>, close: Token, members: nat, nodes: nat, deep: nat, d: nat)
    requires IsOpen(open.kind) && IsClose(close.kind) && Tallies(kids, members, nodes, deep, d + 1)
    ensures Tallies([open] + kids + [close], members, nodes + 1, deep + 1, d)
  {
    hide Members, Nodes, Net, Nesting;
    TallyClose(close, d + 1);
    TallyConcat(kids, [close], d + 1);
    TallyOpen(open, kids + [close], d);
    assert [open] + kids + [close] == [open] + (kids + [close]);
  }

  lemma TallyClose(close: Token, d: nat)
    requires IsClose(close.kind)
    ensures Members([close]) == 0 && Nodes([close]) == 0 && Net([close]) == -1 && Nesting([close], d) == 0
  {
    var none: seq<Token> := [];
    assert [close][1..] == none && Members(none) == 0 && Nodes(none) == 0 && Net(none) == 0;
  }

  lemma TallyOpen(open: Token, ts: seq<Token>, d: nat)
    requires IsOpen(open.kind)
    ensures var all := [open] + ts;
            Members(all) == Members(ts) && Nodes(all) == Nodes(ts) + 1 && Net(all) == Net(ts) + 1
            && Nesting(all, d) == Max(d + 1, Nesting(ts, d + 1))
  {
    assert ([open] + ts)[1..] == ts;
  }

  /** A value prints with the members, nodes and levels it has. */
  lemma {:induction false} CoreTallies(n: Node, o: Layout, d: nat)
    requires WfNode(n)
    ensures Tallies(Core(n, o), MembersIn(n), NodesIn(n), DepthOf(n), d)
    decreases n, 1
  {
    hide Tallies, CoreKids, SourceString, NumberLen, IsStringToken, Unquote, WfNotes, DistinctKeys;
    if n.IsContainer() {
      hide MembersOf, NodesOf, DepthsOf;
      var last := o.Spread(n.kind) && o.LastComma();
      KidsTally(n.children, o, last, d + 1);
      TallyBracketed(OpenPiece(n.kind).tok, CoreKids(n.children, o, last), ClosePiece(n.kind).tok,
                     MembersOf(n.children), NodesOf(n.children), DepthsOf(n.children), d);
    } else if n.kind == KeyValueNode {
      hide MembersIn, NodesIn, DepthOf;
      OwnSizes(n);
      CoreTallies(n.children[0], o, d);
      MemberTallies(StringTok(n.rawKey, n.key, o), Core(n.children[0], o), n.children[0], d);
      assert Core(n, o) == [StringTok(n.rawKey, n.key, o)] + ([COLON_PIECE.tok] + Core(n.children[0], o));
    } else {
      OwnSizes(n);
      TallyOne(Core(n, o)[0], d);
    }
  }

  lemma MemberTallies(key: Token, value: seq<Token>, v: Node, d: nat)
    requires key.kind == StringToken && Tallies(value, MembersIn(v), NodesIn(v), DepthOf(v), d)
    ensures Tallies([key] + ([COLON_PIECE.tok] + value), 1 + MembersIn(v), 1 + NodesIn(v), DepthOf(v), d)
  {
    hide MembersIn, NodesIn, DepthOf, Tallies;
    TallyOne(key, d);
    TallyOne(COLON_PIECE.tok, d);
    TalliesConcat([COLON_PIECE.tok], value, 1, 0, 0, MembersIn(v), NodesIn(v), DepthOf(v), d);
    TalliesConcat([key], [COLON_PIECE.tok] + value, 0, 1, 0, 1 + MembersIn(v), NodesIn(v), DepthOf(v), d);
  }

  lemma {:induction false} KidsTally(kids: seq<Node>, o: Layout, last: bool, d: nat)
    requires forall i :: 0 <= i < |kids| ==> WfNode(kids[i])
    ensures Tallies(CoreKids(kids, o, last), MembersOf(kids), NodesOf(kids), DepthsOf(kids), d)
    decreases kids, 0
  {
    hide WfNode, MembersIn, MembersOf, NodesIn, NodesOf, DepthOf, DepthsOf, Core, CoreKids, Tallies;
    TallyNone(d);
    if kids == [] {
      NoKids(o, last, []);
      NoSizes();
    } else {
      var comma := CommaTok(|kids| > 1 || last);
      var rest := CoreKids(kids[1..], o, last);
      var m, n, p := MembersOf(kids[1..]), NodesOf(kids[1..]), DepthsOf(kids[1..]);
      CoreTallies(kids[0], o, d);
      KidsTally(kids[1..], o, last, d);
      TallyOne(COMMA_PIECE.tok, d);
      TalliesConcat(comma, rest, 0, 0, 0, m, n, p, d);
      TalliesConcat(Core(kids[0], o), comma + rest, MembersIn(kids[0]), NodesIn(kids[0]), DepthOf(kids[0]), m, n, p, d);
      KidsSplit(kids, o, last, []);
      FirstSizes(kids);
      assert rest + [] == rest && CoreKids(kids, o, last) + [] == CoreKids(kids, o, last);
    }
  }

  lemma FirstSizes(kids: seq<Node>)
    requires kids != []
    ensures MembersOf(kids) == MembersIn(kids[0]) + MembersOf(kids[1..])
    ensures NodesOf(kids) == NodesIn(kids[0]) + NodesOf(kids[1..])
    ensures DepthsOf(kids) == Max(DepthOf(kids[0]), DepthsOf(kids[1..]))
  {
  }

  /** The tokens of a value are a document of their own: read under any limits
      that admit the value, and under no others. */
  lemma CoreReadsBack(n: Node, o: Layout, p: Options)
    requires WfNode(n) && n.kind != KeyValueNode && Readable(p, o)
    ensures var r := ParseDocument(Core(n, o), p);
            if Admits(p, n) then r.Ok? && r.val == Reread(n, o) else r.Err?
  {
    hide Core, WfNode, ParseDocument, Reread, MembersIn, NodesIn, DepthOf, Members, Nodes, Net, Nesting;
    UnlimitedReadsBack(n, o, Unlimited(p));
    LimitsAreExact(Core(n, o), p);
    CoreTallies(n, o, 0);
  }

  lemma UnlimitedReadsBack(n: Node, o: Layout, p: Options)
    requires WfNode(n) && n.kind != KeyValueNode && NoLimits(p) && Readable(p, o)
    ensures var r := ParseDocument(Core(n, o), p); r.Ok? && r.val == Reread(n, o)
  {
    hide Core, WfNode, ParseValue, Reread;
    CoreHead(n, o);
    assert Core(n, o) + [] == Core(n, o);
    NothingToSkip([], Core(n, o));
    ValueReadsBack(n, o, [], 0, 0, 0, p);
    NothingToSkip([], []);
    RereadShape(n, o);
  }

  /** What a parse reads, if it accepts, means what n means. */
  predicate ReadsAs(r: Result<Node>, n: Node, accepted: bool) {
    if accepted then r.Ok? && ValueOf(r.val) == ValueOf(n) else r.Err?
  }

  /** Printing preserves meaning: in every layout with a blank indent, comments
      and all, the output is accepted under exactly the limits that admit the
      tree, and means what the tree means. */
  lemma PrintingPreservesMeaning(n: Node, o: Layout, p: Options)
    requires WfNode(n) && n.kind != KeyValueNode && BlankIndent(o) && !p.strictJSON
    ensures ReadsAs(Parse(Encode(n, o), p), n, Admits(p, n))
  {
    hide Core, WfNode, ParseDocument, Encode, Reread, ValueOf, Admits;
    EncodedTokens(n, o);
    DocumentTransparent(Tokens(Encode(n, o), false), p);
    CoreReadsBack(n, o, p);
    RereadMeansTheSame(n, o);
  }
}
