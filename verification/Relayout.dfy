/**
  The encoder's fast path for marshaler output, as a machine that takes one
  token at a time. It keeps a stack of open containers and the keys of the open
  objects, and writes as it goes.
 */
module Relayout {
  import opened Ascii
  import opened Lexer
  import opened QuotedStrings
  import opened Syntax
  import opened Printer

  /** The nesting that marshaler output may have. */
  const EMBEDDED_MAX_DEPTH: nat := 10000

  datatype Want = WantValue | WantKey | WantColon | WantNext

  /** An open container: `children` are the ones written so far, and `keys` is
      where its keys begin among those of all open objects. */
  datatype Frame = Frame(obj: bool, multiline: bool, depth: nat, children: nat, keys: nat)

  datatype Config = Config(stack: seq<Frame>, keys: seq<Bytes>, want: Want, afterComma: bool, out: Bytes)
  {
    function Top(): Frame
      requires stack != []
    {
      stack[|stack| - 1]
    }

    function Below(): seq<Frame>
      requires stack != []
    {
      stack[..|stack| - 1]
    }

    predicate InArray() { stack != [] && !Top().obj }

    function Write(s: Bytes): Config { this.(out := out + s) }
  }

  function IndentText(depth: nat, o: Layout): Bytes { Repeat(o.indent, depth) }

  /** What goes before a container's next child. */
  function ChildPrefix(first: bool, multiline: bool, depth: nat, o: Layout): Bytes {
    if multiline then (if first then [LF] else [COMMA, LF]) + IndentText(depth + 1, o)
    else if first then []
    else [COMMA, SPACE]
  }

  /** relayoutChild */
  function Child(c: Config, o: Layout): Config
    requires c.stack != []
  {
    var f := c.Top();
    c.(stack := c.Below() + [f.(children := f.children + 1)],
       out := c.out + ChildPrefix(f.children == 0, f.multiline, f.depth, o))
  }

  predicate HasDuplicate(keys: seq<Bytes>) { exists i, j :: 0 <= i < j < |keys| && keys[i] == keys[j] }

  function From(keys: seq<Bytes>, n: nat): seq<Bytes> { if n <= |keys| then keys[n..] else [] }

  function UpTo(keys: seq<Bytes>, n: nat): seq<Bytes> { if n <= |keys| then keys[..n] else keys }

  /** What goes behind a container's last child. */
  function CloseText(f: Frame, o: Layout): Bytes {
    (if f.children > 0 && f.multiline then (if o.LastComma() then [COMMA] else []) + [LF] + IndentText(f.depth, o) else [])
    + [CloseByte(f.obj)]
  }

  /** relayoutClose, with the frame popped: an object with a duplicate key is
      not closed. */
  function CloseFrame(c: Config, o: Layout): Option<Config>
    requires c.stack != []
  {
    var f := c.Top();
    if f.obj && HasDuplicate(From(c.keys, f.keys)) then None
    else Some(Config(c.Below(), UpTo(c.keys, f.keys), WantNext, false, c.out + CloseText(f, o)))
  }

  /** relayoutString */
  function StringText(raw: Bytes, o: Layout): Option<Bytes> {
    if RawStringOk(raw, o.escapeHTML) then Some(raw)
    else match Unquote(raw) case None => None case Some(v) => Some(Quote(v, o.escapeHTML))
  }

  function ValueDepth(stack: seq<Frame>, depth: nat): nat {
    if stack == [] then depth else stack[|stack| - 1].depth + 1
  }

  function NewFrame(c: Config, obj: bool, depth: nat, o: Layout): Frame {
    Frame(obj, o.Spread(ContainerKind(obj)), ValueDepth(c.stack, depth), 0, |c.keys|)
  }

  /** The first token of a value. */
  function TakeValue(c: Config, t: Token, depth: nat, o: Layout): Option<Config> {
    match t.kind
    case ObjectStart => TakeOpen(c, true, depth, o)
    case ArrayStart => TakeOpen(c, false, depth, o)
    case StringToken =>
      (match StringText(t.text, o)
       case None => None
       case Some(s) => Some(c.Write(s).(want := WantNext)))
    case NumberToken => Some(c.Write(t.text).(want := WantNext))
    case TrueToken => Some(c.Write(t.text).(want := WantNext))
    case FalseToken => Some(c.Write(t.text).(want := WantNext))
    case NullToken => Some(c.Write(t.text).(want := WantNext))
    case _ => None
  }

  function TakeOpen(c: Config, obj: bool, depth: nat, o: Layout): Option<Config> {
    if |c.stack| >= EMBEDDED_MAX_DEPTH then None
    else
      Some(Config(c.stack + [NewFrame(c, obj, depth, o)], c.keys, if obj then WantKey else WantValue, false,
                  c.out + [OpenByte(obj)]))
  }

  function TakeKey(c: Config, t: Token, o: Layout): Option<Config>
    requires c.stack != []
  {
    if t.kind == ObjectEnd && !c.afterComma then CloseFrame(c, o)
    else if t.kind != StringToken || Unquote(t.text) == None || StringText(t.text, o) == None then None
    else
      Some(Child(c.(keys := c.keys + [Unquote(t.text).value]), o).Write(StringText(t.text, o).value).(want := WantColon))
  }

  function TakeNext(c: Config, t: Token, o: Layout): Option<Config> {
    if c.stack == [] then None
    else if t.kind == ValueSeparator then Some(c.(afterComma := true, want := if c.Top().obj then WantKey else WantValue))
    else if t.kind == Close(c.Top().obj) then CloseFrame(c, o)
    else None
  }

  /** One turn of the loop; None is failure. */
  function Step(c: Config, t: Token, depth: nat, o: Layout): Option<Config> {
    if t.kind == Newline then Some(c)
    else if t.kind == ErrorToken then None
    else
      match c.want
      case WantKey => if c.stack == [] then None else TakeKey(c, t, o)
      case WantColon =>
        if t.kind == NameSeparator then Some(c.Write([COLON, SPACE]).(want := WantValue, afterComma := false)) else None
      case WantValue =>
        if c.InArray() && t.kind == ArrayEnd && !c.afterComma then CloseFrame(c, o)
        else TakeValue(if c.InArray() then Child(c, o) else c, t, depth, o)
      case WantNext => TakeNext(c, t, o)
  }

  /** The bytes written in the end, if all tokens are taken and everything is
      closed. */
  function Run(c: Config, ts: seq<Token>, depth: nat, o: Layout): Option<Bytes>
    decreases |ts|
  {
    if ts == [] then (if c.want == WantNext && c.stack == [] then Some(c.out) else None)
    else
      match Step(c, ts[0], depth, o)
      case None => None
      case Some(c') => Run(c', ts[1..], depth, o)
  }

  /** relayoutTokens from the start of data, with `out` already written. */
  function RelayoutTokens(ts: seq<Token>, depth: nat, o: Layout, out: Bytes): Option<Bytes> {
    Run(Config([], [], WantValue, false, out), ts, depth, o)
  }

  /** What parseEmbedded passes to the parser. */
  function EmbeddedOptions(strictJSON: bool): Options { Options(strictJSON, true, EMBEDDED_MAX_DEPTH, 0, 0) }

  /** The documents that the fast path takes: strict, without duplicate keys. */
  const PLAIN_JSON := Options(true, false, EMBEDDED_MAX_DEPTH, 0, 0)
}
