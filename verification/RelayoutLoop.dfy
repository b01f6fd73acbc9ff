/** The state of the loop that lays marshaler output out again, and how its
    turns follow the machine. */
module RelayoutLoop {
  import opened Ascii
  import opened Lexer
  import opened QuotedStrings
  import opened Syntax
  import opened Printer
  import opened Relayout
  import opened Slices
  import opened Positions

  /** The variables of the loop. */
  datatype Loop = Loop(stack: seq<Frame>, keys: seq<Bytes>, want: Want, afterComma: bool)
  {
    function Conf(out: Bytes): Config { Config(stack, keys, want, afterComma, out) }

    function Top(): Frame
      requires stack != []
    {
      stack[|stack| - 1]
    }

    function Below(): seq<Frame>
      requires stack != []
    {
      stack[..|stack| - 1]
    }
  }

  const FRESH := Loop([], [], WantValue, false)

  /** Where the keys of frame i end. */
  function KeysEnd(stack: seq<Frame>, n: nat, i: nat): nat
  {
    if i + 1 < |stack| then stack[i + 1].keys else n
  }

  /** Every frame's keys lie below those of the frames inside it; an array has
      none of its own. */
  predicate KeysNested(stack: seq<Frame>, n: nat) {
    forall i :: 0 <= i < |stack| ==>
      stack[i].keys <= KeysEnd(stack, n, i) && (!stack[i].obj ==> stack[i].keys == KeysEnd(stack, n, i))
  }

  predicate Sound(l: Loop) {
    KeysNested(l.stack, |l.keys|)
    && (l.want == WantKey || l.want == WantColon ==> l.stack != [] && l.Top().obj)
  }

  /** What a turn gave is what the machine's step gives. */
  predicate Follows(r: Option<Loop>, out: Bytes, spec: Option<Config>) {
    match spec
    case None => r == None
    case Some(c) => r.Some? && r.value.Conf(out) == c && Sound(r.value)
  }

  /** raw is the text of a token of this kind. */
  predicate TextFits(kind: Kind, raw: Bytes) {
    (kind == ObjectStart ==> raw == [LBRACE]) && (kind == ArrayStart ==> raw == [LBRACKET])
    && (kind == StringToken ==> IsQuoted(raw))
  }

  predicate HasSourceText(kind: Kind) {
    kind !in {LineComment, BlockComment, Newline, EofToken, ErrorToken}
  }

  /** The bytes a scan went over are the token's text. */
  lemma SourceText(s: Bytes, strict: bool)
    ensures var e := Next(s, strict);
            (HasSourceText(e.tok.kind) ==> e.tok.text == s[e.lead..e.size]) && TextFits(e.tok.kind, e.tok.text)
  {
    hide ScanToken, Blanks;
    var b := Blanks(s);
    if b < |s| {
      TokenText(s[b..], strict);
      var n := ScanToken(s[b..], strict).size;
      assert s[b..][..n] == s[b..b + n];
    }
  }

  lemma TokenText(s: Bytes, strict: bool)
    requires s != []
    ensures var t := ScanToken(s, strict);
            (HasSourceText(t.tok.kind) ==> t.tok.text == s[..t.size]) && TextFits(t.tok.kind, t.tok.text)
  {
    hide NumberLen, LineLen, BlockLen, NormalizeBreaks, StringTail;
    if s[0] == QUOTE && StringTail(s[1..]).Some? {
      var n := StringTail(s[1..]).value;
      assert s[..1 + n][n] == s[1..][n - 1];
    }
  }

  lemma PushKeeps(l: Loop, f: Frame)
    requires KeysNested(l.stack, |l.keys|) && f.keys == |l.keys|
    ensures KeysNested(l.stack + [f], |l.keys|)
  {
    var stack := l.stack + [f];
    forall i | 0 <= i < |stack|
      ensures stack[i].keys <= KeysEnd(stack, |l.keys|, i) && (!stack[i].obj ==> stack[i].keys == KeysEnd(stack, |l.keys|, i))
    {
      if i < |l.stack| {
        assert KeysEnd(stack, |l.keys|, i) == KeysEnd(l.stack, |l.keys|, i);
      }
    }
  }

  lemma PopKeeps(l: Loop)
    requires KeysNested(l.stack, |l.keys|) && l.stack != []
    ensures l.Top().keys <= |l.keys| && (!l.Top().obj ==> l.Top().keys == |l.keys|)
    ensures KeysNested(l.Below(), l.Top().keys)
  {
    var last := |l.stack| - 1;
    assert KeysEnd(l.stack, |l.keys|, last) == |l.keys|;
    var stack := l.Below();
    forall i | 0 <= i < |stack|
      ensures stack[i].keys <= KeysEnd(stack, l.Top().keys, i) && (!stack[i].obj ==> stack[i].keys == KeysEnd(stack, l.Top().keys, i))
    {
      assert KeysEnd(stack, l.Top().keys, i) == KeysEnd(l.stack, |l.keys|, i);
    }
  }

  lemma AddKeyKeeps(l: Loop, key: Bytes)
    requires KeysNested(l.stack, |l.keys|) && l.stack != [] && l.Top().obj
    ensures KeysNested(l.stack, |l.keys + [key]|)
  {
    forall i | 0 <= i < |l.stack|
      ensures l.stack[i].keys <= KeysEnd(l.stack, |l.keys + [key]|, i)
              && (!l.stack[i].obj ==> l.stack[i].keys == KeysEnd(l.stack, |l.keys + [key]|, i))
    {
      assert i + 1 < |l.stack| ==> KeysEnd(l.stack, |l.keys|, i) == KeysEnd(l.stack, |l.keys + [key]|, i);
      assert KeysEnd(l.stack, |l.keys|, i) <= KeysEnd(l.stack, |l.keys + [key]|, i);
    }
  }

  /** Only the top frame's count of children changed. */
  lemma CountKeeps(l: Loop, f: Frame, n: nat)
    requires KeysNested(l.stack, n) && l.stack != [] && f.keys == l.Top().keys && f.obj == l.Top().obj
    ensures KeysNested(l.Below() + [f], n)
  {
    var stack := l.Below() + [f];
    assert |stack| == |l.stack|;
    forall i | 0 <= i < |stack|
      ensures stack[i].keys <= KeysEnd(stack, n, i) && (!stack[i].obj ==> stack[i].keys == KeysEnd(stack, n, i))
    {
      assert forall j :: 0 <= j < |stack| ==> stack[j].keys == l.stack[j].keys && stack[j].obj == l.stack[j].obj;
      assert KeysEnd(stack, n, i) == KeysEnd(l.stack, n, i);
    }
  }

  // Line breaks and the end of the tokens

  /** The tokens without the line breaks in front. */
  function SkipLines(ts: seq<Token>): (r: seq<Token>)
    ensures |r| <= |ts| && (r != [] ==> r[0].kind != Newline)
  {
    if ts != [] && ts[0].kind == Newline then SkipLines(ts[1..]) else ts
  }

  lemma {:induction false} RunSkipsLines(c: Config, ts: seq<Token>, depth: nat, o: Layout)
    ensures Run(c, ts, depth, o) == Run(c, SkipLines(ts), depth, o)
    decreases |ts|
  {
    hide TakeValue, TakeKey, TakeNext;
    if ts != [] && ts[0].kind == Newline {
      assert Step(c, ts[0], depth, o) == Some(c);
      RunSkipsLines(c, ts[1..], depth, o);
    }
  }

  lemma RunStep(c: Config, ts: seq<Token>, depth: nat, o: Layout)
    requires ts != []
    ensures Run(c, ts, depth, o)
            == match Step(c, ts[0], depth, o)
               case None => None
               case Some(d) => Run(d, ts[1..], depth, o)
  {
    hide Step;
  }

  lemma RunEnd(c: Config, depth: nat, o: Layout)
    ensures Run(c, [], depth, o) == if c.want == WantNext && c.stack == [] then Some(c.out) else None
  {
  }

  /** Behind a root scalar nothing but line breaks may come. */
  lemma RunAfterScalar(c: Config, ts: seq<Token>, depth: nat, o: Layout)
    requires c.want == WantNext && c.stack == []
    ensures Run(c, ts, depth, o) == if SkipLines(ts) == [] then Some(c.out) else None
  {
    RunSkipsLines(c, ts, depth, o);
    var us := SkipLines(ts);
    if us != [] {
      assert Step(c, us[0], depth, o) == None;
    }
  }

  /** The root's first token, when it is no opening delimiter. */
  lemma ScalarRun(ts: seq<Token>, depth: nat, o: Layout, out: Bytes)
    requires var us := SkipLines(ts); us == [] || !IsOpen(us[0].kind)
    ensures var us := SkipLines(ts);
            var c := FRESH.Conf(out);
            RelayoutTokens(ts, depth, o, out)
            == if us == [] then None
               else
                 match TakeValue(c, us[0], depth, o)
                 case None => None
                 case Some(d) => if SkipLines(us[1..]) == [] then Some(d.out) else None
  {
    hide StringText, Unquote, Run;
    var c := FRESH.Conf(out);
    var us := SkipLines(ts);
    RunSkipsLines(c, ts, depth, o);
    if us == [] {
      RunEnd(c, depth, o);
    } else {
      RunStep(c, us, depth, o);
      var d := TakeValue(c, us[0], depth, o);
      assert Step(c, us[0], depth, o) == d;
      if d.Some? {
        RunAfterScalar(d.value, us[1..], depth, o);
      }
    }
  }

  /** A scan took the first of ts: rest is left, and raw is the token's source
      text. */
  predicate Took(ts: seq<Token>, kind: Kind, raw: Bytes, ok: bool, rest: seq<Token>) {
    if !ok then ts == [ERROR]
    else if kind == EofToken then ts == []
    else
      ts != [] && ts[0].kind == kind && kind != ErrorToken && ts[1..] == rest
      && TextFits(kind, raw) && (HasSourceText(kind) ==> ts[0].text == raw)
  }

  /** A scan from `from` to pos. */
  lemma NextTakes(src: Bytes, strict: bool, from: nat, kind: Kind, raw: Bytes, pos: nat)
    requires from <= |src| && pos <= |src|
    requires var e := Next(src[from..], strict);
             kind == e.tok.kind
             && (e.tok == ERROR || pos == from + e.size)
             && (HasSourceText(kind) ==> raw == src[from + e.lead..pos])
    ensures var ok := Next(src[from..], strict).tok != ERROR;
            Took(Tokens(src[from..], strict), kind, raw, ok, Tokens(src[pos..], strict))
  {
    hide Next, Tokens, TextFits;
    var s := src[from..];
    var e := Next(s, strict);
    TokensUnfold(s, strict);
    SourceText(s, strict);
    DropTwice(src, from, e.size);
    if HasSourceText(kind) && e.tok != ERROR {
      assert s[e.lead..e.size] == src[from + e.lead..pos];
    } else {
      NothingToFit(kind, raw);
    }
  }

  lemma NothingToFit(kind: Kind, raw: Bytes)
    requires !HasSourceText(kind)
    ensures TextFits(kind, raw)
  {
  }

  lemma FreshIsSound()
    ensures Sound(FRESH)
  {
  }

  lemma NoDuplicateInOne(keys: seq<Bytes>)
    requires |keys| <= 1
    ensures !HasDuplicate(keys)
  {
  }

  /** A token whose source text is not its text is a line break, or ends the
      run whatever its text. */
  lemma SameStep(c: Config, t: Token, raw: Bytes, depth: nat, o: Layout)
    requires HasSourceText(t.kind) ==> t.text == raw
    requires t.kind != EofToken
    ensures Step(c, t, depth, o) == Step(c, Token(t.kind, raw), depth, o)
    ensures t.kind == Newline ==> Step(c, t, depth, o) == Some(c)
  {
    hide StringText, Unquote, CloseFrame;
    if HasSourceText(t.kind) {
      assert t == Token(t.kind, raw);
    }
  }
}
