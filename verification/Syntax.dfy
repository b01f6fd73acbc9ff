/**
  What the parser accepts and the tree it builds, as functions on the tokens
  that remain. Every function is total: past the last token the parser sees
  the end of the input.
 */
module Syntax {
  import opened Ascii
  import opened Lexer
  import opened QuotedStrings
  import opened Tree

  /** A limit of 0 or less is no limit. */
  datatype Options = Options(
    strictJSON: bool, allowDuplicateKeys: bool, maxDepth: int, maxKeys: int, maxNodes: int)

  datatype ParseError =
    | UnexpectedToken | ExtraData | NoValue
    | DuplicateKey(key: Bytes) | TrailingComma
    | TooDeep | TooManyKeys | TooManyNodes

  /** The tokens left and the counters behind the key and node limits. */
  datatype State = State(ts: seq<Token>, keys: nat, nodes: nat)

  datatype Result<+T> = Ok(val: T, st: State) | Err(error: ParseError)

  /** Comment text taken off the front of the tokens. */
  datatype Noted = Noted(text: Bytes, rest: seq<Token>)

  /** The inside of a container: its children and its foot comment. */
  datatype Inside = Inside(children: seq<Node>, foot: Bytes)

  /** Where the loop over a container's children stands. */
  datatype Turn = Turn(sofar: Inside, afterComma: bool)

  const START := Turn(Inside([], []), false)

  function Peek(ts: seq<Token>): Token { if ts == [] then EOF else ts[0] }

  predicate IsComment(t: Token) { t.kind == LineComment || t.kind == BlockComment }

  predicate IsTrivia(t: Token) { t.kind == Newline || IsComment(t) }

  // Comments

  predicate IsBlankText(s: Bytes) { forall i :: 0 <= i < |s| ==> IsBlank(s[i]) || IsLineBreak(s[i]) }

  function NonBlank(s: Bytes): Bytes { if IsBlankText(s) then [] else s }

  /** Comment blocks, joined by a line break. */
  function JoinNotes(a: Bytes, b: Bytes): Bytes {
    if a == [] then b else if b == [] then a else a + [LF] + b
  }

  /** Line breaks and comments skipped, the comments added to acc. */
  function Collect(acc: Bytes, ts: seq<Token>): (r: Noted)
    ensures |r.rest| <= |ts|
    ensures !IsTrivia(Peek(r.rest))
    decreases |ts|
  {
    if !IsTrivia(Peek(ts)) then Noted(acc, ts)
    else if Peek(ts).kind == Newline then Collect(acc, ts[1..])
    else Collect((if acc == [] then [] else acc + [LF]) + ts[0].text, ts[1..])
  }

  function HeadComments(ts: seq<Token>): (r: Noted)
    ensures |r.rest| <= |ts|
    ensures !IsTrivia(Peek(r.rest))
  {
    var c := Collect([], ts);
    Noted(NonBlank(c.text), c.rest)
  }

  /** A comment right after the last token taken, if there is one. */
  function InlineComment(ts: seq<Token>): (r: Noted)
    ensures |r.rest| <= |ts|
  {
    if IsComment(Peek(ts)) then Noted(NonBlank(ts[0].text), ts[1..]) else Noted([], ts)
  }

  function SetLine(n: Node, text: Bytes): Node { if text == [] then n else n.WithLine(text) }

  /** n with a comment that follows its comma on the same line. */
  function AttachAfterComma(n: Node, text: Bytes): Node {
    if text == [] then n
    else if n.notes.line == [] then n.WithLine(text)
    else n.WithFoot(JoinNotes(n.notes.foot, text))
  }

  // Members of objects

  predicate HasKey(kids: seq<Node>, key: Bytes) { exists i :: 0 <= i < |kids| && kids[i].key == key }

  function Without(kids: seq<Node>, key: Bytes): seq<Node> {
    if kids == [] then []
    else (if kids[0].key == key then [] else [kids[0]]) + Without(kids[1..], key)
  }

  /** kids with n added; a member replaces the one with the same key. */
  function Put(kids: seq<Node>, n: Node, obj: bool): seq<Node> {
    (if obj then Without(kids, n.key) else kids) + [n]
  }

  // Values

  predicate Over(count: int, limit: int) { limit > 0 && count > limit }

  function Counted(n: Node, st: State, o: Options): Result<Node> {
    if Over(st.nodes + 1, o.maxNodes) then Err(TooManyNodes) else Ok(n, st.(nodes := st.nodes + 1))
  }

  function ScalarNode(t: Token): Option<Node> {
    match t.kind
    case StringToken =>
      (match Unquote(t.text)
       case None => None
       case Some(v) => Some(Scalar(StringNode, v, t.text)))
    case NumberToken => Some(Scalar(NumberNode, t.text, t.text))
    case TrueToken => Some(Scalar(BoolNode, t.text, t.text))
    case FalseToken => Some(Scalar(BoolNode, t.text, t.text))
    case NullToken => Some(Scalar(NullNode, NULL_WORD, NULL_WORD))
    case _ => None
  }

  function Close(obj: bool): Kind { if obj then ObjectEnd else ArrayEnd }

  function Open(obj: bool): Kind { if obj then ObjectStart else ArrayStart }

  function OpenByte(obj: bool): byte { if obj then LBRACE else LBRACKET }

  function CloseByte(obj: bool): byte { if obj then RBRACE else RBRACKET }

  function ContainerKind(obj: bool): NodeKind { if obj then ObjectNode else ArrayNode }

  predicate IsOpen(k: Kind) { k == ObjectStart || k == ArrayStart }

  /** The rest of the loop body once a child is parsed: the duplicate check, the
      comments behind the child, and its comma if it has one. */
  function Attach(n: Node, st: State, o: Options, obj: bool, sofar: Inside): (r: Result<Turn>)
    ensures r.Ok? ==> |r.st.ts| <= |st.ts|
  {
    if obj && !o.allowDuplicateKeys && HasKey(sofar.children, n.key) then Err(DuplicateKey(n.key))
    else if obj && Over(st.keys + 1, o.maxKeys) then Err(TooManyKeys)
    else
      var line := InlineComment(st.ts);
      var between := HeadComments(line.rest);
      var n1 := SetLine(n, line.text);
      var st1 := State(between.rest, st.keys + if obj then 1 else 0, st.nodes);
      if Peek(between.rest).kind == ValueSeparator then
        var after := InlineComment(between.rest[1..]);
        var n2 := AttachAfterComma(n1.WithFoot(JoinNotes(n1.notes.foot, between.text)), after.text);
        Ok(Turn(Inside(Put(sofar.children, n2, obj), sofar.foot), true), st1.(ts := after.rest))
      else if Peek(between.rest).kind == Close(obj) then
        Ok(Turn(Inside(Put(sofar.children, n1, obj), JoinNotes(sofar.foot, between.text)), false), st1)
      else Err(UnexpectedToken)
  }

  /** The container around its inside, with the comment behind its closing
      delimiter. */
  function Closed(r: Result<Inside>, obj: bool): (n: Result<Node>)
    ensures n.Ok? ==> r.Ok? && |n.st.ts| <= |r.st.ts|
  {
    match r
    case Err(e) => Err(e)
    case Ok(inside, st) =>
      var line := InlineComment(st.ts);
      Ok(Container(ContainerKind(obj), inside.children, inside.foot, line.text), st.(ts := line.rest))
  }

  function ParseScalar(st: State, o: Options): (r: Result<Node>)
    ensures r.Ok? ==> |r.st.ts| < |st.ts|
  {
    match ScalarNode(Peek(st.ts))
    case None => Err(UnexpectedToken)
    case Some(n) => Counted(n, st.(ts := st.ts[1..]), o)
  }

  function ParseValue(st: State, depth: nat, o: Options): (r: Result<Node>)
    ensures r.Ok? ==> |r.st.ts| < |st.ts|
    decreases |st.ts|, 1
  {
    if IsOpen(Peek(st.ts).kind) then ParseContainer(st, depth, o) else ParseScalar(st, o)
  }

  function ParseContainer(st: State, depth: nat, o: Options): (r: Result<Node>)
    requires IsOpen(Peek(st.ts).kind)
    ensures r.Ok? ==> |r.st.ts| < |st.ts|
    decreases |st.ts|, 0
  {
    var obj := Peek(st.ts).kind == ObjectStart;
    if Over(depth + 1, o.maxDepth) then Err(TooDeep)
    else if Over(st.nodes + 1, o.maxNodes) then Err(TooManyNodes)
    else Closed(ParseChildren(State(st.ts[1..], st.keys, st.nodes + 1), depth + 1, o, obj, START), obj)
  }

  /** A member of an object, or an element of an array, with its head comment. */
  function ParseChild(st: State, depth: nat, o: Options, obj: bool, head: Bytes): (r: Result<Node>)
    ensures r.Ok? ==> |r.st.ts| < |st.ts|
    decreases |st.ts|, 2
  {
    if !obj then
      match ParseValue(st, depth, o)
      case Err(e) => Err(e)
      case Ok(n, st1) => Ok(n.WithHead(JoinNotes(n.notes.head, head)), st1)
    else if Peek(st.ts).kind != StringToken || Unquote(st.ts[0].text) == None then Err(UnexpectedToken)
    else
      var colon := Collect([], st.ts[1..]).rest;
      if Peek(colon).kind != NameSeparator then Err(UnexpectedToken)
      else
        match ParseValue(st.(ts := Collect([], colon[1..]).rest), depth, o)
        case Err(e) => Err(e)
        case Ok(v, st1) => Counted(KeyValue(Unquote(st.ts[0].text).value, st.ts[0].text, v, head), st1, o)
  }

  /** From a container's opening delimiter, or from behind a child, through its
      closing delimiter. */
  function ParseChildren(st: State, depth: nat, o: Options, obj: bool, turn: Turn): (r: Result<Inside>)
    ensures r.Ok? ==> |r.st.ts| < |st.ts|
    decreases |st.ts|, 3
  {
    var head := HeadComments(st.ts);
    if Peek(head.rest).kind == Close(obj) then
      if turn.afterComma && o.strictJSON then Err(TrailingComma)
      else Ok(turn.sofar.(foot := JoinNotes(turn.sofar.foot, head.text)), st.(ts := head.rest[1..]))
    else
      match ParseChild(st.(ts := head.rest), depth, o, obj, head.text)
      case Err(e) => Err(e)
      case Ok(n, st1) =>
        match Attach(n, st1, o, obj, turn.sofar)
        case Err(e) => Err(e)
        case Ok(next, st2) => ParseChildren(st2, depth, o, obj, next)
  }

  function ParseDocument(ts: seq<Token>, o: Options): (r: Result<Node>) {
    var lead := HeadComments(ts);
    if lead.rest == [] then Err(NoValue)
    else
      match ParseValue(State(lead.rest, 0, 0), 0, o)
      case Err(e) => Err(e)
      case Ok(n, st) => Finish(n.WithHead(JoinNotes(lead.text, n.notes.head)), st)
  }

  /** The comments behind the root value, and nothing else. */
  function Finish(root: Node, st: State): (r: Result<Node>) {
    var line := if root.notes.line == [] then InlineComment(st.ts) else Noted(root.notes.line, st.ts);
    var trail := Collect([], line.rest);
    if trail.rest != [] then Err(ExtraData)
    else Ok(root.WithLine(line.text).WithTrail(NonBlank(trail.text)), st.(ts := []))
  }

  /** parse of a whole input, already free of a byte order mark. */
  function Parse(src: Bytes, o: Options): Result<Node> {
    ParseDocument(Tokens(src, o.strictJSON), o)
  }
}
