/** The main theorems about the fast path, on the bytes that it is given. */
module RelayoutRefines {
  import opened Ascii
  import opened Lexer
  import opened QuotedStrings
  import opened Tree
  import opened Syntax
  import opened WellFormed
  import opened Printer
  import opened Rendering
  import opened Relayout
  import opened RelayoutText
  import opened RelayoutLaws

  // A parse that succeeds under the plain JSON options succeeds under looser
  // ones, with the same tree.

  predicate Looser(q: Options) { q.maxDepth == EMBEDDED_MAX_DEPTH && q.maxKeys == 0 && q.maxNodes == 0 }

  lemma {:induction false} LooserValue(st: State, depth: nat, q: Options)
    requires Looser(q)
    ensures var r := ParseValue(st, depth, PLAIN_JSON); r.Ok? ==> ParseValue(st, depth, q) == r
    decreases |st.ts|, 1
  {
    hide ParseContainer, ScalarNode;
    if IsOpen(Peek(st.ts).kind) {
      LooserContainer(st, depth, q);
    }
  }

  lemma {:induction false} LooserContainer(st: State, depth: nat, q: Options)
    requires Looser(q) && IsOpen(Peek(st.ts).kind)
    ensures var r := ParseContainer(st, depth, PLAIN_JSON); r.Ok? ==> ParseContainer(st, depth, q) == r
    decreases |st.ts|, 0
  {
    hide ParseChildren;
    LooserChildren(State(st.ts[1..], st.keys, st.nodes + 1), depth + 1, q, Peek(st.ts).kind == ObjectStart, START);
  }

  lemma {:induction false} LooserChild(st: State, depth: nat, q: Options, obj: bool, head: Bytes)
    requires Looser(q)
    ensures var r := ParseChild(st, depth, PLAIN_JSON, obj, head); r.Ok? ==> ParseChild(st, depth, q, obj, head) == r
    decreases |st.ts|, 2
  {
    hide ParseValue, Unquote, Collect;
    if !obj {
      LooserValue(st, depth, q);
    } else if Peek(st.ts).kind == StringToken {
      var colon := Collect([], st.ts[1..]).rest;
      if Peek(colon).kind == NameSeparator {
        LooserValue(st.(ts := Collect([], colon[1..]).rest), depth, q);
      }
    }
  }

  lemma {:induction false} LooserChildren(st: State, depth: nat, q: Options, obj: bool, turn: Turn)
    requires Looser(q)
    ensures var r := ParseChildren(st, depth, PLAIN_JSON, obj, turn); r.Ok? ==> ParseChildren(st, depth, q, obj, turn) == r
    decreases |st.ts|, 3
  {
    hide ParseChild, Attach, Collect;
    var head := HeadComments(st.ts);
    if Peek(head.rest).kind != Close(obj) {
      var st0 := st.(ts := head.rest);
      LooserChild(st0, depth, q, obj, head.text);
      var c := ParseChild(st0, depth, PLAIN_JSON, obj, head.text);
      if c.Ok? {
        LooserAttach(c.val, c.st, q, obj, turn.sofar);
        var a := Attach(c.val, c.st, PLAIN_JSON, obj, turn.sofar);
        if a.Ok? {
          LooserChildren(a.st, depth, q, obj, a.val);
        }
      }
    }
  }

  lemma LooserAttach(n: Node, st: State, q: Options, obj: bool, sofar: Inside)
    requires Looser(q)
    ensures var a := Attach(n, st, PLAIN_JSON, obj, sofar); a.Ok? ==> Attach(n, st, q, obj, sofar) == a
  {
    hide Collect, HasKey, Put;
  }

  lemma LooserDocument(ts: seq<Token>, q: Options)
    requires Looser(q)
    ensures var r := ParseDocument(ts, PLAIN_JSON); r.Ok? ==> ParseDocument(ts, q) == r
  {
    hide ParseValue, Finish, Collect;
    LooserValue(State(HeadComments(ts).rest, 0, 0), 0, q);
  }

  // The machine from its start

  lemma TokensRefine(ts: seq<Token>, depth: nat, o: Layout, out: Bytes)
    requires Clean(ts)
    ensures var q := ParseDocument(ts, PLAIN_JSON);
            RelayoutTokens(ts, depth, o, out)
            == if q.Ok? then Some(out + ValueText(q.val, depth, o)) else None
  {
    hide Run, ParseValue, NoComments, AllGenuine, ValueText, Finish;
    var c := Config([], [], WantValue, false, out);
    SkipsLineBreaks(c, ts, depth, o);
    var hs := Collect([], ts).rest;
    if hs == [] {
      NoChild(c, 0, 0, 0, false, depth, o);
    } else {
      StartsWithValue(c, hs, depth, o);
      ValueRuns(c, hs, 0, 0, depth, o);
      var r := ParseValue(State(hs, 0, 0), 0, PLAIN_JSON);
      if r.Ok? {
        assert r.val.WithHead(JoinNotes([], r.val.notes.head)) == r.val;
        RootEnds(Written(c, r.val, depth, o), r.val, r.st, depth, o);
      }
    }
  }

  lemma StartsWithValue(c: Config, hs: seq<Token>, depth: nat, o: Layout)
    requires hs != [] && !IsTrivia(hs[0]) && c.stack == [] && c.want == WantValue
    ensures Run(c, hs, depth, o) == RunValue(c, hs, depth, o)
  {
    hide TakeOpen, StringText;
  }

  /** Behind the root there may be line breaks only. */
  lemma RootEnds(w: Config, n: Node, st: State, depth: nat, o: Layout)
    requires Clean(st.ts) && n.notes == NO_NOTES && w.stack == [] && w.want == WantNext
    ensures var rest := Collect([], st.ts).rest;
            Run(w, rest, depth, o) == if rest == [] then Some(w.out) else None
    ensures var f := Finish(n, st); if Collect([], st.ts).rest == [] then f.Ok? && f.val == n else f.Err?
  {
    hide NoComments, AllGenuine;
    SkipsLineBreaks(w, st.ts, depth, o);
    NoInline(st.ts);
  }

  // The bytes

  /** parseEmbedded: exactly one value, without a byte order mark. */
  function ParseEmbedded(data: Bytes, strictJSON: bool): Result<Node> {
    if UTF8_BOM <= data then Err(UnexpectedToken) else Parse(data, EmbeddedOptions(strictJSON))
  }

  lemma CleanScan(data: Bytes, strict: bool)
    requires NoComments(Tokens(data, strict))
    ensures Clean(Tokens(data, strict))
  {
    hide Tokens;
    TokensAreGenuine(data, strict);
  }

  lemma {:induction false} RunTakesAll(c: Config, ts: seq<Token>, depth: nat, o: Layout)
    requires Run(c, ts, depth, o).Some?
    ensures NoComments(ts) && ERROR !in ts
  {
    hide Run, IsComment;
    forall i | 0 <= i < |ts|
      ensures !IsComment(ts[i]) && ts[i] != ERROR
    {
      if IsComment(ts[i]) || ts[i] == ERROR {
        RunRejects(c, ts, i, depth, o);
      }
    }
  }

  /** A byte order mark is no token. */
  lemma BomIsRejected(data: Bytes, o: Options)
    requires UTF8_BOM <= data
    ensures Parse(data, o).Err?
  {
    hide ParseDocument, Tokens;
    assert data[0] == 0xEF;
    BadFirstByte(data, o.strictJSON);
    ErrorIsNoDocument(o);
  }

  lemma BadFirstByte(data: Bytes, strict: bool)
    requires data != [] && (data[0] >= 0x80 || data[0] == 0)
    ensures Tokens(data, strict) == [ERROR]
  {
    hide ScanComment;
    assert Blanks(data) == 0 && data[0..] == data;
    assert Next(data, strict).tok == ERROR;
  }

  lemma ErrorIsNoDocument(o: Options)
    ensures ParseDocument([ERROR], o).Err?
  {
    hide ParseContainer, Finish;
    assert HeadComments([ERROR]) == Noted([], [ERROR]);
  }

  /** The fast path refines parse-then-print, and is complete: whichever
      strictness it is given, it succeeds exactly when a strict parser without
      duplicate keys accepts the data, and then it has written what the printer
      writes for the parsed tree, at that depth and in that layout. */
  lemma RelayoutRefinesParseThenPrint(data: Bytes, strict: bool, depth: nat, o: Layout, out: Bytes)
    ensures var r := RelayoutTokens(Tokens(data, strict), depth, o, out);
            var q := Parse(data, PLAIN_JSON);
            r == if q.Ok? then Some(out + Render(PrintValue(q.val, depth, o))) else None
  {
    hide ParseDocument, Run, Tokens, Render, PrintValue, NoComments, AllGenuine;
    StrictScan(data);
    CleanScan(data, true);
    TokensRefine(Tokens(data, true), depth, o, out);
    if Parse(data, PLAIN_JSON).Ok? {
      RunTakesAll(Config([], [], WantValue, false, out), Tokens(data, true), depth, o);
    } else if RelayoutTokens(Tokens(data, strict), depth, o, out).Some? {
      RunTakesAll(Config([], [], WantValue, false, out), Tokens(data, strict), depth, o);
    }
  }

  /** What it writes is what the tree path writes for the same data: where it
      succeeds, parseEmbedded accepts and gives the tree that was printed. */
  lemma RelayoutAgreesWithTreePath(data: Bytes, strict: bool, depth: nat, o: Layout, out: Bytes)
    ensures var r := RelayoutTokens(Tokens(data, strict), depth, o, out);
            r.Some? ==> ParseEmbedded(data, strict).Ok?
                        && r.value == out + Render(PrintValue(ParseEmbedded(data, strict).val, depth, o))
  {
    hide ParseDocument, Run, Tokens, Render, PrintValue, NoComments, AllGenuine;
    RelayoutRefinesParseThenPrint(data, strict, depth, o, out);
    var r := RelayoutTokens(Tokens(data, strict), depth, o, out);
    if r.Some? {
      RunTakesAll(Config([], [], WantValue, false, out), Tokens(data, strict), depth, o);
      StrictScan(data);
      LooserDocument(Tokens(data, true), EmbeddedOptions(strict));
      if UTF8_BOM <= data {
        BomIsRejected(data, PLAIN_JSON);
      }
    }
  }
}
