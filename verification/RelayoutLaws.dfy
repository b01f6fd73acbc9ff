/**
  The fast path refines parse-then-print. It succeeds exactly on the documents
  that a strict parser without duplicate keys accepts, and then it has written
  what printing the parsed tree writes.
 */
module RelayoutLaws {
  import opened Ascii
  import opened Lexer
  import opened QuotedStrings
  import opened StringLaws
  import opened Tree
  import opened Syntax
  import opened SyntaxTurns
  import opened WellFormed
  import opened Printer
  import opened Rendering
  import opened RoundTrip
  import opened Relayout
  import opened RelayoutText
  import opened Texts

  // A comment or an error ends the run.

  lemma StepRejects(c: Config, t: Token, depth: nat, o: Layout)
    requires IsComment(t) || t.kind == ErrorToken
    ensures Step(c, t, depth, o) == None
  {
    hide StringText, Unquote;
  }

  lemma {:induction false} RunRejects(c: Config, ts: seq<Token>, i: nat, depth: nat, o: Layout)
    requires i < |ts| && (IsComment(ts[i]) || ts[i].kind == ErrorToken)
    ensures Run(c, ts, depth, o) == None
    decreases |ts|
  {
    hide Step;
    if i == 0 {
      StepRejects(c, ts[0], depth, o);
    } else {
      var r := Step(c, ts[0], depth, o);
      if r.Some? {
        RunRejects(r.value, ts[1..], i - 1, depth, o);
      }
    }
  }

  // A duplicate key in an open object dooms the run.

  predicate Doomed(c: Config, i: nat, a: nat, b: nat) {
    i < |c.stack| && c.stack[i].obj && c.stack[i].keys <= a < b < |c.keys| && c.keys[a] == c.keys[b]
    && forall j :: i < j < |c.stack| ==> b < c.stack[j].keys
  }

  lemma ChildStaysDoomed(c: Config, o: Layout, i: nat, a: nat, b: nat)
    requires Doomed(c, i, a, b)
    ensures Doomed(Child(c, o), i, a, b)
  {
    hide ChildPrefix;
    var d := Child(c, o);
    assert |d.stack| == |c.stack| && d.keys == c.keys;
    assert forall j :: 0 <= j < |c.stack| ==> d.stack[j].keys == c.stack[j].keys && d.stack[j].obj == c.stack[j].obj;
  }

  lemma WriteStaysDoomed(c: Config, d: Config, i: nat, a: nat, b: nat)
    requires Doomed(c, i, a, b) && d.stack == c.stack && c.keys <= d.keys
    ensures Doomed(d, i, a, b)
  {
  }

  lemma CloseStaysDoomed(c: Config, o: Layout, i: nat, a: nat, b: nat)
    requires Doomed(c, i, a, b)
    ensures var r := CloseFrame(c, o); r.Some? ==> Doomed(r.value, i, a, b)
  {
    hide CloseText;
    var f := c.Top();
    if i == |c.stack| - 1 {
      var own := From(c.keys, f.keys);
      assert own[a - f.keys] == own[b - f.keys];
    }
  }

  lemma OpenStaysDoomed(c: Config, obj: bool, depth: nat, o: Layout, i: nat, a: nat, b: nat)
    requires Doomed(c, i, a, b)
    ensures var r := TakeOpen(c, obj, depth, o); r.Some? ==> Doomed(r.value, i, a, b)
  {
    hide ValueDepth;
  }

  lemma ValueStaysDoomed(c: Config, t: Token, depth: nat, o: Layout, i: nat, a: nat, b: nat)
    requires Doomed(c, i, a, b)
    ensures var r := TakeValue(c, t, depth, o); r.Some? ==> Doomed(r.value, i, a, b)
  {
    hide Doomed, TakeOpen, StringText;
    var r := TakeValue(c, t, depth, o);
    if t.kind == ObjectStart || t.kind == ArrayStart {
      OpenStaysDoomed(c, t.kind == ObjectStart, depth, o, i, a, b);
    } else if r.Some? {
      WriteStaysDoomed(c, r.value, i, a, b);
    }
  }

  lemma KeyStaysDoomed(c: Config, t: Token, o: Layout, i: nat, a: nat, b: nat)
    requires Doomed(c, i, a, b)
    ensures var r := TakeKey(c, t, o); r.Some? ==> Doomed(r.value, i, a, b)
  {
    hide Doomed, StringText, Unquote, CloseFrame, Child;
    DoomedHasFrame(c, i, a, b);
    CloseStaysDoomed(c, o, i, a, b);
    if t.kind == StringToken && Unquote(t.text) != None && StringText(t.text, o) != None {
      var c1 := c.(keys := c.keys + [Unquote(t.text).value]);
      WriteStaysDoomed(c, c1, i, a, b);
      ChildStaysDoomed(c1, o, i, a, b);
      var c2 := Child(c1, o);
      WriteStaysDoomed(c2, c2.Write(StringText(t.text, o).value).(want := WantColon), i, a, b);
    }
  }

  lemma DoomedHasFrame(c: Config, i: nat, a: nat, b: nat)
    requires Doomed(c, i, a, b)
    ensures c.stack != []
  {
  }

  lemma StepStaysDoomed(c: Config, t: Token, depth: nat, o: Layout, i: nat, a: nat, b: nat)
    requires Doomed(c, i, a, b)
    ensures var r := Step(c, t, depth, o); r.Some? ==> Doomed(r.value, i, a, b)
  {
    hide Doomed, TakeKey, CloseFrame, Child, TakeValue;
    DoomedHasFrame(c, i, a, b);
    CloseStaysDoomed(c, o, i, a, b);
    match c.want {
      case WantKey =>
        KeyStaysDoomed(c, t, o, i, a, b);
      case WantColon =>
        WriteStaysDoomed(c, c.Write([COLON, SPACE]).(want := WantValue, afterComma := false), i, a, b);
      case WantValue =>
        ChildStaysDoomed(c, o, i, a, b);
        ValueStaysDoomed(if c.InArray() then Child(c, o) else c, t, depth, o, i, a, b);
      case WantNext =>
        WriteStaysDoomed(c, c.(afterComma := true, want := if c.Top().obj then WantKey else WantValue), i, a, b);
    }
  }

  lemma {:induction false} DoomedFails(c: Config, ts: seq<Token>, depth: nat, o: Layout, i: nat, a: nat, b: nat)
    requires Doomed(c, i, a, b)
    ensures Run(c, ts, depth, o) == None
    decreases |ts|
  {
    hide Doomed, Step;
    DoomedHasFrame(c, i, a, b);
    if ts != [] {
      StepStaysDoomed(c, ts[0], depth, o, i, a, b);
      var r := Step(c, ts[0], depth, o);
      if r.Some? {
        DoomedFails(r.value, ts[1..], depth, o, i, a, b);
      }
    }
  }

  // Line breaks are skipped by both.

  lemma {:induction false} SkipsLineBreaks(c: Config, ts: seq<Token>, depth: nat, o: Layout)
    requires NoComments(ts) && AllGenuine(ts)
    ensures var h := Collect([], ts);
            h.text == [] && NoComments(h.rest) && AllGenuine(h.rest) && Run(c, ts, depth, o) == Run(c, h.rest, depth, o)
    decreases |ts|
  {
    hide Genuine;
    if IsTrivia(Peek(ts)) {
      assert ts[0].kind == Newline;
      assert Step(c, ts[0], depth, o) == Some(c);
      TailNoComments(ts);
      SkipsLineBreaks(c, ts[1..], depth, o);
    }
  }

  lemma TailNoComments(ts: seq<Token>)
    requires ts != [] && NoComments(ts) && AllGenuine(ts)
    ensures NoComments(ts[1..]) && AllGenuine(ts[1..]) && Genuine(ts[0]) && !IsComment(ts[0])
  {
  }

  lemma NoInline(ts: seq<Token>)
    requires NoComments(ts)
    ensures InlineComment(ts) == Noted([], ts)
  {
  }

  /** After a value it does not matter whether a comma came before it. */
  lemma NextIgnoresComma(c: Config, b: bool, ts: seq<Token>, depth: nat, o: Layout)
    requires c.want == WantNext && !IsTrivia(Peek(ts))
    ensures Run(c.(afterComma := b), ts, depth, o) == Run(c, ts, depth, o)
  {
    if ts != [] {
      assert Step(c.(afterComma := b), ts[0], depth, o) == Step(c, ts[0], depth, o);
    }
  }

  // The equation between the machine and the parser

  function RunValue(c: Config, ts: seq<Token>, depth: nat, o: Layout): Option<Bytes> {
    if ts == [] then None
    else
      match TakeValue(c, ts[0], depth, o)
      case None => None
      case Some(c') => Run(c', ts[1..], depth, o)
  }

  /** c behind a value that was printed. */
  function Written(c: Config, n: Node, depth: nat, o: Layout): Config {
    c.Write(ValueText(n, ValueDepth(c.stack, depth), o)).(want := WantNext, afterComma := false)
  }

  /** The outcome that the parser predicts for a run. */
  function Predict(r: Result<Node>, c: Config, depth: nat, o: Layout): Option<Bytes> {
    match r
    case Err(_) => None
    case Ok(n, st) => Run(Written(c, n, depth, o), Collect([], st.ts).rest, depth, o)
  }

  lemma ScalarIsWritten(t: Token, o: Layout)
    requires Genuine(t) && ScalarNode(t).Some?
    ensures var n := ScalarNode(t).value;
            ValueText(n, 0, o) == (if t.kind == StringToken then SourceString(t.text, Unquote(t.text).value, o.escapeHTML) else t.text)
            && forall d: nat :: PrintValue(n, d, o) == PrintValue(n, 0, o)
  {
    hide Unquote, IsStringToken, SourceString, NumberLen;
    var n := ScalarNode(t).value;
    assert |PrintValue(n, 0, o)| == 1;
    RenderOne(PrintValue(n, 0, o)[0]);
    assert PrintValue(n, 0, o) == [PrintValue(n, 0, o)[0]];
  }

  lemma ScalarRuns(c: Config, ts: seq<Token>, keys: nat, nodes: nat, depth: nat, o: Layout)
    requires NoComments(ts) && AllGenuine(ts) && !IsOpen(Peek(ts).kind)
    ensures var r := ParseScalar(State(ts, keys, nodes), PLAIN_JSON);
            RunValue(c, ts, depth, o) == Predict(r, c, depth, o)
            && (r.Ok? ==> r.val.notes == NO_NOTES && NoComments(r.st.ts) && AllGenuine(r.st.ts))
  {
    hide Unquote, SourceString, Genuine, IsStringToken, ValueText, PrintValue, Run, ValueDepth, RawStringOk;
    if ts != [] {
      TailNoComments(ts);
      var t := ts[0];
      StringTextOk(t, o);
      if ScalarNode(t).Some? {
        ScalarIsWritten(t, o);
        var n := ScalarNode(t).value;
        ScalarDepth(n, ValueDepth(c.stack, depth), o);
        var w := Written(c, n, depth, o);
        assert TakeValue(c, t, depth, o) == Some(w.(afterComma := c.afterComma));
        SkipsLineBreaks(w.(afterComma := c.afterComma), ts[1..], depth, o);
        NextIgnoresComma(w, c.afterComma, Collect([], ts[1..]).rest, depth, o);
      }
    }
  }

  lemma ScalarDepth(n: Node, d: nat, o: Layout)
    requires forall e: nat :: PrintValue(n, e, o) == PrintValue(n, 0, o)
    ensures ValueText(n, d, o) == ValueText(n, 0, o)
  {
    hide PrintValue;
  }

  lemma StringTextOk(t: Token, o: Layout)
    requires Genuine(t)
    ensures t.kind == StringToken ==> Unquote(t.text).Some? && StringText(t.text, o) == Some(SourceString(t.text, Unquote(t.text).value, o.escapeHTML))
  {
    hide Unquote, IsStringToken, RawStringOk, Quote;
    if t.kind == StringToken {
      ScannedStringUnquotes(t.text);
    }
  }

  // Containers

  /** A frame with its children so far, and what has been written for it since
      `base`. */
  predicate AtChildren(c: Config, base: Bytes, f: Frame, below: seq<Frame>, outer: seq<Bytes>, done: seq<Node>, o: Layout) {
    c.stack == below + [f.(children := |done|)]
    && f.keys == |outer|
    && c.keys == outer + (if f.obj then KeysOf(done) else [])
    && c.out == base + [OpenByte(f.obj)] + ChildrenText(done, true, f.multiline, f.depth, o)
    && f.multiline == o.Spread(ContainerKind(f.obj))
  }

  function KeysOf(kids: seq<Node>): (ks: seq<Bytes>)
    ensures |ks| == |kids|
    ensures forall i :: 0 <= i < |kids| ==> ks[i] == kids[i].key
  {
    seq(|kids|, i requires 0 <= i < |kids| => kids[i].key)
  }

  lemma NoDuplicates(outer: seq<Bytes>, kids: seq<Node>)
    ensures HasDuplicate(From(outer + KeysOf(kids), |outer|)) <==> !DistinctKeys(kids)
  {
    assert (outer + KeysOf(kids))[|outer|..] == KeysOf(kids);
    if !DistinctKeys(kids) {
      var i, j :| 0 <= i < j < |kids| && kids[i].key == kids[j].key;
      assert KeysOf(kids)[i] == KeysOf(kids)[j];
    }
  }

  /** The container is complete. */
  lemma ClosingWrites(c: Config, base: Bytes, f: Frame, below: seq<Frame>, outer: seq<Bytes>, done: seq<Node>, depth: nat, o: Layout)
    requires AtChildren(c, base, f, below, outer, done, o) && AllUnannotated(done) && (f.obj ==> DistinctKeys(done))
    requires f.depth == ValueDepth(below, depth)
    ensures var n := Container(ContainerKind(f.obj), done, [], []);
            CloseFrame(c, o) == Some(Written(Config(below, outer, WantNext, false, base), n, depth, o))
  {
    hide ChildrenText, PrintValue, ValueText, CloseText, Unannotated, HasDuplicate, DistinctKeys, KeysOf, OpenByte;
    var n := Container(ContainerKind(f.obj), done, [], []);
    NoDuplicates(outer, done);
    ContainerText(n, f.depth, o);
    CloseTextIgnoresKeys(f.(children := |done|), 0, o);
    assert c.Top() == f.(children := |done|);
    assert c.Below() == below;
    KeysCut(outer, if f.obj then KeysOf(done) else []);
    AssocFour(base, [OpenByte(f.obj)], ChildrenText(done, true, f.multiline, f.depth, o), CloseText(c.Top(), o));
  }

  lemma KeysCut(outer: seq<Bytes>, own: seq<Bytes>)
    ensures UpTo(outer + own, |outer|) == outer && outer + [] == outer
  {
  }

  lemma CloseTextIgnoresKeys(f: Frame, k: nat, o: Layout)
    ensures CloseText(f, o) == CloseText(f.(keys := k), o)
  {
  }

  /** c, behind one more child. */
  function BehindChild(c: Config, f: Frame, n: Node, o: Layout): Config
    requires c.stack != []
  {
    var d := Child(c, o);
    Config(d.stack, if f.obj then c.keys + [n.key] else c.keys, WantNext, false, d.out + ValueText(n, f.depth + 1, o))
  }

  /** One more child is written. */
  lemma ChildWrites(c: Config, base: Bytes, f: Frame, below: seq<Frame>, outer: seq<Bytes>, done: seq<Node>, n: Node, o: Layout)
    requires AtChildren(c, base, f, below, outer, done, o)
    ensures AtChildren(BehindChild(c, f, n, o), base, f, below, outer, done + [n], o)
  {
    hide ChildrenText, ValueText, ChildPrefix, KeysOf, OpenByte;
    ChildrenTextAppend(done, n, true, f.multiline, f.depth, o);
    assert c.Top() == f.(children := |done|);
    assert c.Below() == below;
    KeysOfAppend(outer, done, n);
    AssocFive(base, [OpenByte(f.obj)], ChildrenText(done, true, f.multiline, f.depth, o),
              ChildPrefix(done == [], f.multiline, f.depth, o), ValueText(n, f.depth + 1, o));
  }

  lemma KeysOfAppend(outer: seq<Bytes>, done: seq<Node>, n: Node)
    ensures outer + KeysOf(done + [n]) == (outer + KeysOf(done)) + [n.key]
  {
    assert KeysOf(done + [n]) == KeysOf(done) + [n.key];
  }

  // The equation

  predicate Clean(ts: seq<Token>) { NoComments(ts) && AllGenuine(ts) }

  lemma {:induction false} ValueRuns(c: Config, ts: seq<Token>, keys: nat, nodes: nat, depth: nat, o: Layout)
    requires Clean(ts)
    ensures var r := ParseValue(State(ts, keys, nodes), |c.stack|, PLAIN_JSON);
            RunValue(c, ts, depth, o) == Predict(r, c, depth, o)
            && (r.Ok? ==> r.val.notes == NO_NOTES && Clean(r.st.ts))
    decreases |ts|, 1
  {
    hide ParseContainer, ParseScalar, RunValue, Predict, NoComments, AllGenuine;
    if IsOpen(Peek(ts).kind) {
      ContainerRuns(c, ts, keys, nodes, depth, o);
    } else {
      ScalarRuns(c, ts, keys, nodes, depth, o);
    }
  }

  /** The outcome predicted for the inside of a container. */
  function PredictInside(r: Result<Inside>, base: Bytes, f: Frame, below: seq<Frame>, outer: seq<Bytes>, depth: nat, o: Layout): Option<Bytes> {
    match r
    case Err(_) => None
    case Ok(inside, st) =>
      Run(Written(Config(below, outer, WantNext, false, base), Container(ContainerKind(f.obj), inside.children, [], []), depth, o),
          Collect([], st.ts).rest, depth, o)
  }

  lemma {:induction false} ContainerRuns(c: Config, ts: seq<Token>, keys: nat, nodes: nat, depth: nat, o: Layout)
    requires Clean(ts) && IsOpen(Peek(ts).kind)
    ensures var r := ParseContainer(State(ts, keys, nodes), |c.stack|, PLAIN_JSON);
            RunValue(c, ts, depth, o) == Predict(r, c, depth, o)
            && (r.Ok? ==> r.val.notes == NO_NOTES && Clean(r.st.ts))
    decreases |ts|, 0
  {
    hide ParseChildren, Run, NoComments, AllGenuine, ValueText, ChildrenText, ValueDepth, Collect, KeysOf;
    TailNoComments(ts);
    var obj := ts[0].kind == ObjectStart;
    if |c.stack| < EMBEDDED_MAX_DEPTH {
      var f := NewFrame(c, obj, depth, o);
      var d := TakeOpen(c, obj, depth, o).value;
      NothingDone(c, d, f, o);
      ChildrenRuns(d, c.out, f, c.stack, c.keys, ts[1..], keys, nodes + 1, START, depth, o);
      var q := ParseChildren(State(ts[1..], keys, nodes + 1), |c.stack| + 1, PLAIN_JSON, obj, START);
      if q.Ok? {
        NoInline(q.st.ts);
      }
    }
  }

  lemma NothingDone(c: Config, d: Config, f: Frame, o: Layout)
    requires d.stack == c.stack + [f] && d.keys == c.keys && f.children == 0 && f.keys == |c.keys|
    requires d.out == c.out + [OpenByte(f.obj)] && f.multiline == o.Spread(ContainerKind(f.obj))
    ensures AtChildren(d, c.out, f, c.stack, c.keys, [], o)
    ensures AllUnannotated([]) && DistinctKeys([])
  {
    hide ChildPrefix;
    assert KeysOf([]) == [];
    assert ChildrenText([], true, f.multiline, f.depth, o) == [];
  }

  /** Where the loop over a container's children stands, in the machine and in
      the parser. */
  predicate InLoop(c: Config, base: Bytes, f: Frame, below: seq<Frame>, outer: seq<Bytes>, turn: Turn, depth: nat, o: Layout) {
    AtChildren(c, base, f, below, outer, turn.sofar.children, o)
    && turn.sofar.foot == [] && c.afterComma == turn.afterComma
    && c.want == (if f.obj then WantKey else WantValue)
    && f.depth == ValueDepth(below, depth)
    && AllUnannotated(turn.sofar.children)
    && (f.obj ==> DistinctKeys(turn.sofar.children))
  }

  lemma {:induction false} ChildrenRuns(
    c: Config, base: Bytes, f: Frame, below: seq<Frame>, outer: seq<Bytes>, ts: seq<Token>, keys: nat, nodes: nat,
    turn: Turn, depth: nat, o: Layout)
    requires Clean(ts) && InLoop(c, base, f, below, outer, turn, depth, o)
    ensures var r := ParseChildren(State(ts, keys, nodes), |below| + 1, PLAIN_JSON, f.obj, turn);
            Run(c, ts, depth, o) == PredictInside(r, base, f, below, outer, depth, o)
            && (r.Ok? ==> r.val.foot == [] && Clean(r.st.ts))
    decreases |ts|, 4
  {
    assert turn.sofar.foot == [];
    hide Attach, ParseChild, Run, InLoop, NoComments, AllGenuine;
    SkipsLineBreaks(c, ts, depth, o);
    var hs := Collect([], ts).rest;
    if Peek(hs).kind == Close(f.obj) {
      ClosingRuns(c, base, f, below, outer, hs, turn, depth, o);
    } else {
      var r := ParseChild(State(hs, keys, nodes), |below| + 1, PLAIN_JSON, f.obj, []);
      ChildRuns(c, base, f, below, outer, hs, keys, nodes, turn, depth, o);
      if r.Ok? {
        RestRuns(c, base, f, below, outer, r.val, r.st, turn, depth, o);
      }
    }
  }

  /** Behind a child: a comma, the closing delimiter, or a duplicate key. */
  lemma {:induction false} RestRuns(
    c: Config, base: Bytes, f: Frame, below: seq<Frame>, outer: seq<Bytes>, n: Node, st: State, turn: Turn, depth: nat, o: Layout)
    requires Clean(st.ts) && InLoop(c, base, f, below, outer, turn, depth, o) && Unannotated(n) && c.stack != []
    ensures var a := Attach(n, st, PLAIN_JSON, f.obj, turn.sofar);
            var r := match a case Err(e) => Err(e) case Ok(next, st2) => ParseChildren(st2, |below| + 1, PLAIN_JSON, f.obj, next);
            Run(BehindChild(c, f, n, o), Collect([], st.ts).rest, depth, o) == PredictInside(r, base, f, below, outer, depth, o)
            && (r.Ok? ==> r.val.foot == [] && Clean(r.st.ts))
    decreases |st.ts|, 5
  {
    assert n.notes == NO_NOTES;
    hide Attach, ParseChildren, Run, NoComments, AllGenuine, Unannotated, ChildrenText, ValueText, Child, HasKey, DistinctKeys;
    var done := turn.sofar.children;
    var d := BehindChild(c, f, n, o);
    var bs := Collect([], st.ts).rest;
    SkipsLineBreaks(d, st.ts, depth, o);
    ChildWrites(c, base, f, below, outer, done, n, o);
    if f.obj && HasKey(done, n.key) {
      DuplicateFails(d, base, f, below, outer, done, n, bs, depth, o);
      DuplicateErr(n, st, turn.sofar);
    } else {
      AttachClean(n, st, f.obj, turn.sofar, bs);
      NextKeys(done, n, f.obj);
      var next := Turn(Inside(done + [n], []), Peek(bs).kind == ValueSeparator);
      if Peek(bs).kind == ValueSeparator {
        TailNoComments(bs);
        var e := d.(afterComma := true, want := if f.obj then WantKey else WantValue);
        CommaTaken(d, e, f, bs, depth, o);
        ChildrenRuns(e, base, f, below, outer, bs[1..], st.keys + if f.obj then 1 else 0, st.nodes, next, depth, o);
      } else if Peek(bs).kind == Close(f.obj) {
        var e := d.(want := if f.obj then WantKey else WantValue);
        CloseTaken(d, e, f, bs, depth, o);
        ClosingRuns(e, base, f, below, outer, bs, next, depth, o);
        ClosingParses(bs, st.keys + if f.obj then 1 else 0, st.nodes, |below| + 1, f.obj, next);
      } else {
        NextRejects(d, f, bs, depth, o);
      }
    }
  }

  lemma DuplicateErr(n: Node, st: State, sofar: Inside)
    requires HasKey(sofar.children, n.key)
    ensures Attach(n, st, PLAIN_JSON, true, sofar).Err?
  {
    hide HasKey;
  }

  lemma DuplicateFails(
    d: Config, base: Bytes, f: Frame, below: seq<Frame>, outer: seq<Bytes>, done: seq<Node>, n: Node, bs: seq<Token>, depth: nat, o: Layout)
    requires f.obj && AtChildren(d, base, f, below, outer, done + [n], o) && HasKey(done, n.key)
    ensures Run(d, bs, depth, o) == None
  {
    hide Run, ChildrenText;
    var i :| 0 <= i < |done| && done[i].key == n.key;
    var ks := KeysOf(done + [n]);
    assert ks[i] == ks[|done|];
    assert d.keys[|outer| + i] == ks[i] && d.keys[|outer| + |done|] == ks[|done|];
    assert Doomed(d, |below|, |outer| + i, |outer| + |done|);
    DoomedFails(d, bs, depth, o, |below|, |outer| + i, |outer| + |done|);
  }

  /** Without comments, attaching a child only adds it. */
  lemma AttachClean(n: Node, st: State, obj: bool, sofar: Inside, bs: seq<Token>)
    requires Clean(st.ts) && bs == Collect([], st.ts).rest && Collect([], st.ts).text == [] && Clean(bs)
    requires n.notes == NO_NOTES && sofar.foot == [] && !(obj && HasKey(sofar.children, n.key))
    ensures var a := Attach(n, st, PLAIN_JSON, obj, sofar);
            var keys := st.keys + if obj then 1 else 0;
            if Peek(bs).kind == ValueSeparator then
              a == Ok(Turn(Inside(sofar.children + [n], []), true), State(bs[1..], keys, st.nodes))
            else if Peek(bs).kind == Close(obj) then
              a == Ok(Turn(Inside(sofar.children + [n], []), false), State(bs, keys, st.nodes))
            else a.Err?
  {
    hide Collect, AllGenuine, NoComments;
    NoInline(st.ts);
    WithoutAbsentKey(sofar.children, n, obj);
    assert n.WithFoot(JoinNotes([], [])) == n;
    if Peek(bs).kind == ValueSeparator {
      TailNoComments(bs);
      NoInline(bs[1..]);
    }
  }

  lemma WithoutAbsentKey(kids: seq<Node>, n: Node, obj: bool)
    requires !(obj && HasKey(kids, n.key))
    ensures Put(kids, n, obj) == kids + [n]
  {
    if obj {
      WithoutAbsent(kids, n.key);
    }
  }

  lemma NextKeys(done: seq<Node>, n: Node, obj: bool)
    requires obj ==> DistinctKeys(done) && !HasKey(done, n.key)
    ensures obj ==> DistinctKeys(done + [n])
    ensures AllUnannotated(done) && Unannotated(n) ==> AllUnannotated(done + [n])
  {
    hide Unannotated;
  }

  lemma CommaTaken(d: Config, e: Config, f: Frame, bs: seq<Token>, depth: nat, o: Layout)
    requires d.want == WantNext && d.stack != [] && d.Top().obj == f.obj && Peek(bs).kind == ValueSeparator
    requires e == d.(afterComma := true, want := if f.obj then WantKey else WantValue)
    ensures Run(d, bs, depth, o) == Run(e, bs[1..], depth, o)
  {
    hide CloseFrame;
  }

  /** Behind a child or before the first one, closing is the same. */
  lemma CloseTaken(d: Config, e: Config, f: Frame, bs: seq<Token>, depth: nat, o: Layout)
    requires d.want == WantNext && !d.afterComma && d.stack != [] && d.Top().obj == f.obj && Peek(bs).kind == Close(f.obj)
    requires e == d.(want := if f.obj then WantKey else WantValue)
    ensures Run(d, bs, depth, o) == Run(e, bs, depth, o)
  {
    hide CloseFrame, Child;
    ClosingStep(e, f, bs[0], depth, o);
    assert CloseFrame(d, o) == CloseFrame(e, o) by { CloseIgnoresWant(d, e, o); }
    assert Step(d, bs[0], depth, o) == CloseFrame(d, o);
  }

  lemma CloseIgnoresWant(d: Config, e: Config, o: Layout)
    requires d.stack != [] && e == d.(want := e.want)
    ensures CloseFrame(d, o) == CloseFrame(e, o)
  {
    hide CloseText, HasDuplicate;
  }

  lemma ClosingParses(bs: seq<Token>, keys: nat, nodes: nat, depth: nat, obj: bool, turn: Turn)
    requires Peek(bs).kind == Close(obj) && !turn.afterComma && turn.sofar.foot == []
    ensures ParseChildren(State(bs, keys, nodes), depth, PLAIN_JSON, obj, turn) == Ok(turn.sofar, State(bs[1..], keys, nodes))
  {
    hide ParseChild, Attach;
    NothingToSkip([], bs);
  }

  lemma NextRejects(d: Config, f: Frame, bs: seq<Token>, depth: nat, o: Layout)
    requires d.want == WantNext && d.stack != [] && d.Top().obj == f.obj
    requires Peek(bs).kind != ValueSeparator && Peek(bs).kind != Close(f.obj) && !IsTrivia(Peek(bs))
    ensures Run(d, bs, depth, o) == None
  {
    hide CloseFrame;
  }

  lemma ClosingRuns(
    c: Config, base: Bytes, f: Frame, below: seq<Frame>, outer: seq<Bytes>, hs: seq<Token>, turn: Turn, depth: nat, o: Layout)
    requires Clean(hs) && InLoop(c, base, f, below, outer, turn, depth, o)
    requires Peek(hs).kind == Close(f.obj)
    ensures hs != [] && Clean(hs[1..])
    ensures Run(c, hs, depth, o)
            == if turn.afterComma then None
               else PredictInside(Ok(turn.sofar, State(hs[1..], 0, 0)), base, f, below, outer, depth, o)
  {
    hide CloseFrame, ChildrenText, ValueText, Unannotated, DistinctKeys, Child, Unquote, StringText, ValueDepth;
    TailNoComments(hs);
    ClosingStep(c, f, hs[0], depth, o);
    if !turn.afterComma {
      ClosingWrites(c, base, f, below, outer, turn.sofar.children, depth, o);
      SkipsLineBreaks(CloseFrame(c, o).value, hs[1..], depth, o);
    }
  }

  lemma ClosingStep(c: Config, f: Frame, t: Token, depth: nat, o: Layout)
    requires c.stack != [] && c.Top().obj == f.obj && c.want == (if f.obj then WantKey else WantValue) && t.kind == Close(f.obj)
    ensures Step(c, t, depth, o) == if c.afterComma then None else CloseFrame(c, o)
  {
    hide CloseFrame, Child, Unquote, StringText;
  }

  /** A child, in the machine and in the parser. */
  lemma {:induction false} ChildRuns(
    c: Config, base: Bytes, f: Frame, below: seq<Frame>, outer: seq<Bytes>, hs: seq<Token>, keys: nat, nodes: nat,
    turn: Turn, depth: nat, o: Layout)
    requires Clean(hs) && InLoop(c, base, f, below, outer, turn, depth, o)
    requires Peek(hs).kind != Close(f.obj) && !IsTrivia(Peek(hs))
    ensures var r := ParseChild(State(hs, keys, nodes), |below| + 1, PLAIN_JSON, f.obj, []);
            c.stack != []
            && Run(c, hs, depth, o)
               == (match r case Err(_) => None case Ok(n, st) => Run(BehindChild(c, f, n, o), Collect([], st.ts).rest, depth, o))
            && (r.Ok? ==> Unannotated(r.val) && Clean(r.st.ts))
    decreases |hs|, 3
  {
    hide Run, AllUnannotated, DistinctKeys, ChildrenText, NoComments, AllGenuine, ParseChild;
    assert c.Top() == f.(children := |turn.sofar.children|);
    if hs == [] {
      NoChild(c, keys, nodes, |below| + 1, f.obj, depth, o);
    } else if f.obj {
      MemberRuns(c, f, hs, keys, nodes, depth, o);
    } else {
      ElementRuns(c, f, hs, keys, nodes, depth, o);
    }
  }

  lemma NoChild(c: Config, keys: nat, nodes: nat, d: nat, obj: bool, depth: nat, o: Layout)
    requires c.want != WantNext
    ensures Run(c, [], depth, o) == None && ParseChild(State([], keys, nodes), d, PLAIN_JSON, obj, []).Err?
  {
  }

  lemma {:induction false} ElementRuns(c: Config, f: Frame, hs: seq<Token>, keys: nat, nodes: nat, depth: nat, o: Layout)
    requires Clean(hs) && hs != [] && !IsTrivia(hs[0]) && hs[0].kind != ArrayEnd
    requires c.stack != [] && c.want == WantValue && !f.obj && !c.Top().obj && c.Top().depth == f.depth
    ensures var r := ParseChild(State(hs, keys, nodes), |c.stack|, PLAIN_JSON, false, []);
            Run(c, hs, depth, o)
            == (match r case Err(_) => None case Ok(n, st) => Run(BehindChild(c, f, n, o), Collect([], st.ts).rest, depth, o))
            && (r.Ok? ==> Unannotated(r.val) && Clean(r.st.ts))
    decreases |hs|, 2
  {
    hide ParseValue, TakeValue, ValueText, NoComments, AllGenuine, ChildPrefix;
    var d := Child(c, o);
    ValueRuns(d, hs, keys, nodes, depth, o);
    if hs[0].kind != ErrorToken {
      assert Step(c, hs[0], depth, o) == TakeValue(d, hs[0], depth, o);
    } else {
      ErrorIsNoValue(d, hs, keys, nodes, depth, o);
    }
    assert Run(c, hs, depth, o) == RunValue(d, hs, depth, o);
    var r := ParseValue(State(hs, keys, nodes), |c.stack|, PLAIN_JSON);
    if r.Ok? {
      ValueKind(hs, keys, nodes, |c.stack|);
      assert r.val.WithHead(JoinNotes(r.val.notes.head, [])) == r.val;
      assert Written(d, r.val, depth, o) == BehindChild(c, f, r.val, o);
    }
  }

  lemma ErrorIsNoValue(d: Config, hs: seq<Token>, keys: nat, nodes: nat, depth: nat, o: Layout)
    requires hs != [] && hs[0].kind == ErrorToken
    ensures TakeValue(d, hs[0], depth, o) == None
  {
  }

  lemma ValueKind(ts: seq<Token>, keys: nat, nodes: nat, depth: nat)
    ensures var r := ParseValue(State(ts, keys, nodes), depth, PLAIN_JSON); r.Ok? ==> r.val.kind != KeyValueNode
  {
    hide ParseChildren, Unquote;
  }

  lemma {:induction false} MemberRuns(c: Config, f: Frame, hs: seq<Token>, keys: nat, nodes: nat, depth: nat, o: Layout)
    requires Clean(hs) && hs != [] && !IsTrivia(hs[0]) && hs[0].kind != ObjectEnd
    requires c.stack != [] && c.want == WantKey && f.obj && c.Top().obj && c.Top().depth == f.depth
    ensures var r := ParseChild(State(hs, keys, nodes), |c.stack|, PLAIN_JSON, true, []);
            Run(c, hs, depth, o)
            == (match r case Err(_) => None case Ok(n, st) => Run(BehindChild(c, f, n, o), Collect([], st.ts).rest, depth, o))
            && (r.Ok? ==> Unannotated(r.val) && Clean(r.st.ts))
    decreases |hs|, 2
  {
    hide ParseValue, ValueText, NoComments, AllGenuine, ChildPrefix, Unquote, StringText, TakeValue, SourceString, Run, Genuine;
    hide BehindChild, ParseChild, Unannotated, Collect, Written;
    var t := hs[0];
    TailNoComments(hs);
    StringTextOk(t, o);
    if t.kind != StringToken {
      BadMember(State(hs, keys, nodes), |c.stack|, PLAIN_JSON, []);
      KeyRejects(c, hs, depth, o);
    } else {
      MemberIs(State(hs, keys, nodes), |c.stack|, PLAIN_JSON, []);
      var key := Unquote(t.text).value;
      var c1 := Child(c.(keys := c.keys + [key]), o).Write(SourceString(t.text, key, o.escapeHTML)).(want := WantColon);
      KeyTaken(c, c1, hs, depth, o);
      SkipsLineBreaks(c1, hs[1..], depth, o);
      var cs := Collect([], hs[1..]).rest;
      if Peek(cs).kind != NameSeparator {
        ColonRejects(c1, cs, depth, o);
      } else {
        var c2 := c1.Write([COLON, SPACE]).(want := WantValue, afterComma := false);
        TailNoComments(cs);
        ColonTaken(c1, c2, cs, depth, o);
        SkipsLineBreaks(c2, cs[1..], depth, o);
        var vs := Collect([], cs[1..]).rest;
        MemberValueRuns(c2, vs, keys, nodes, depth, o);
        var v := ParseValue(State(vs, keys, nodes), |c2.stack|, PLAIN_JSON);
        if v.Ok? {
          MemberWritten(c, c2, f, t, v.val, depth, o);
        }
      }
    }
  }

  lemma KeyRejects(c: Config, hs: seq<Token>, depth: nat, o: Layout)
    requires hs != [] && hs[0].kind != StringToken && hs[0].kind != ObjectEnd && !IsTrivia(hs[0])
    requires c.stack != [] && c.want == WantKey
    ensures Run(c, hs, depth, o) == None
  {
  }

  lemma KeyTaken(c: Config, c1: Config, hs: seq<Token>, depth: nat, o: Layout)
    requires hs != [] && hs[0].kind == StringToken && c.stack != [] && c.want == WantKey
    requires Unquote(hs[0].text).Some? && StringText(hs[0].text, o).Some?
    requires c1 == Child(c.(keys := c.keys + [Unquote(hs[0].text).value]), o).Write(StringText(hs[0].text, o).value).(want := WantColon)
    ensures Run(c, hs, depth, o) == Run(c1, hs[1..], depth, o)
  {
    hide Unquote, StringText, Child;
  }

  lemma ColonRejects(c: Config, cs: seq<Token>, depth: nat, o: Layout)
    requires c.want == WantColon && Peek(cs).kind != NameSeparator && !IsTrivia(Peek(cs))
    ensures Run(c, cs, depth, o) == None
  {
  }

  lemma ColonTaken(c1: Config, c2: Config, cs: seq<Token>, depth: nat, o: Layout)
    requires c1.want == WantColon && Peek(cs).kind == NameSeparator
    requires c2 == c1.Write([COLON, SPACE]).(want := WantValue, afterComma := false)
    ensures Run(c1, cs, depth, o) == Run(c2, cs[1..], depth, o)
  {
  }

  /** A member's value: the machine is not in an array. */
  lemma {:induction false} MemberValueRuns(c2: Config, vs: seq<Token>, keys: nat, nodes: nat, depth: nat, o: Layout)
    requires Clean(vs) && !IsTrivia(Peek(vs)) && c2.want == WantValue && c2.stack != [] && c2.Top().obj
    ensures var v := ParseValue(State(vs, keys, nodes), |c2.stack|, PLAIN_JSON);
            Run(c2, vs, depth, o) == Predict(v, c2, depth, o) && (v.Ok? ==> v.val.notes == NO_NOTES && Clean(v.st.ts))
    decreases |vs|, 2
  {
    hide ParseValue, TakeValue, NoComments, AllGenuine;
    ValueRuns(c2, vs, keys, nodes, depth, o);
    if vs != [] {
      if vs[0].kind == ErrorToken {
        ErrorIsNoValue(c2, vs, keys, nodes, depth, o);
      } else {
        assert Step(c2, vs[0], depth, o) == TakeValue(c2, vs[0], depth, o);
      }
    } else {
      assert ParseValue(State(vs, keys, nodes), |c2.stack|, PLAIN_JSON).Err? by { NoValueAtEnd(keys, nodes, |c2.stack|); }
    }
  }

  lemma NoValueAtEnd(keys: nat, nodes: nat, depth: nat)
    ensures ParseValue(State([], keys, nodes), depth, PLAIN_JSON).Err?
  {
  }

  lemma MemberWritten(c: Config, c2: Config, f: Frame, t: Token, v: Node, depth: nat, o: Layout)
    requires c.stack != [] && f.obj && c.Top().depth == f.depth && Unquote(t.text).Some? && v.notes == NO_NOTES
    requires var key := Unquote(t.text).value;
             var c1 := Child(c.(keys := c.keys + [key]), o).Write(SourceString(t.text, key, o.escapeHTML)).(want := WantColon);
             c2 == c1.Write([COLON, SPACE]).(want := WantValue, afterComma := false)
    ensures var n := KeyValue(Unquote(t.text).value, t.text, v, []);
            Written(c2, v, depth, o) == BehindChild(c, f, n, o) && Unannotated(n)
  {
    hide ValueText, ChildPrefix, Unquote, SourceString;
    var n := KeyValue(Unquote(t.text).value, t.text, v, []);
    MemberText(n, f.depth + 1, o);
    var d := Child(c, o);
    assert d.out + SourceString(t.text, n.key, o.escapeHTML) + [COLON, SPACE] + ValueText(v, f.depth + 1, o)
        == d.out + (SourceString(t.text, n.key, o.escapeHTML) + [COLON, SPACE] + ValueText(v, f.depth + 1, o));
  }
}
