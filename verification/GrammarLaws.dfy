/** The strict parser accepts exactly what the grammar of RFC 8259 derives. */
module GrammarLaws {
  import opened Ascii
  import opened Lexer
  import opened QuotedStrings
  import opened StringLaws
  import opened Tree
  import opened Syntax
  import opened SyntaxTurns
  import opened Transparency
  import opened Locality
  import opened Lexemes
  import opened Texts
  import opened WellFormed
  import opened R = Rfc8259

  /** Strict JSON, duplicate keys allowed, no limits. */
  const RFC_8259 := Options(true, true, 0, 0, 0)

  /** Strict JSON, with or without a depth limit and with or without duplicate
      keys. */
  type Strict = o: Options | o.strictJSON && o.maxKeys <= 0 && o.maxNodes <= 0 witness RFC_8259

  // What options ask of a derivation

  /** The name that the string of a member spells, its escapes undone. */
  function NameOf(chars: seq<Char>): Bytes {
    match Unquote(StringText(chars))
    case Some(name) => name
    case None => []
  }

  /** The names of the members of an object, in order. */
  function Names(kids: Kids): seq<Bytes> {
    (if kids.kid.Member? then [NameOf(kids.kid.key)] else []) + if kids.Then? then Names(kids.rest) else []
  }

  predicate Differ(names: seq<Bytes>) { forall i, j :: 0 <= i < j < |names| ==> names[i] != names[j] }

  /** No object has two members of one name. */
  predicate NamesDiffer(j: Json) {
    j.Container? && j.kids.Some? ==> (j.obj ==> Differ(Names(j.kids.value))) && NamesDifferInside(j.kids.value)
  }

  predicate NamesDifferInside(kids: Kids) {
    NamesDiffer(kids.kid.value) && (kids.Then? ==> NamesDifferInside(kids.rest))
  }

  function Higher(a: nat, b: nat): nat { if a < b then b else a }

  /** How deep the containers nest. */
  function Depth(j: Json): nat {
    if !j.Container? then 0 else 1 + if j.kids.Some? then DepthInside(j.kids.value) else 0
  }

  function DepthInside(kids: Kids): nat {
    Higher(Depth(kids.kid.value), if kids.Then? then DepthInside(kids.rest) else 0)
  }

  /** j may stand at level d. */
  predicate Allowed(j: Json, d: nat, o: Strict) {
    (o.allowDuplicateKeys || NamesDiffer(j)) && !Over(d + Depth(j), o.maxDepth)
  }

  /** kids may go on at level d, behind sofar. */
  predicate AllowedInside(kids: Kids, d: nat, o: Strict, sofar: seq<Node>) {
    && (o.allowDuplicateKeys || (NamesDifferInside(kids) && NewNames(Names(kids), sofar)))
    && !Over(d + DepthInside(kids), o.maxDepth)
  }

  predicate NewNames(names: seq<Bytes>, sofar: seq<Node>) {
    Differ(names) && forall i :: 0 <= i < |names| ==> !HasKey(sofar, names[i])
  }

  lemma KeyAfter(sofar: seq<Node>, n: Node, key: Bytes)
    ensures HasKey(sofar + [n], key) <==> HasKey(sofar, key) || n.key == key
  {
    var all := sofar + [n];
    assert all[|sofar|] == n;
    assert forall i :: 0 <= i < |sofar| ==> all[i] == sofar[i];
  }

  /** One name more is new, and those behind it are new when it is there. */
  lemma NewName(name: Bytes, names: seq<Bytes>, sofar: seq<Node>, n: Node)
    requires n.key == name
    ensures NewNames([name] + names, sofar)
            <==> !HasKey(sofar, name) && NewNames(names, Put(sofar, n, true))
  {
    hide HasKey, Without;
    var all := [name] + names;
    assert all[0] == name && forall i :: 0 <= i < |names| ==> all[i + 1] == names[i];
    assert forall i :: 1 <= i < |all| ==> all[i] == names[i - 1];
    if !HasKey(sofar, name) {
      WithoutAbsent(sofar, name);
      forall i | 0 <= i < |names|
        ensures HasKey(sofar + [n], names[i]) <==> HasKey(sofar, names[i]) || name == names[i]
      {
        KeyAfter(sofar, n, names[i]);
      }
    }
  }

  lemma {:induction false} ElementsHaveNoNames(kids: Kids)
    requires KidsOk(kids, false)
    ensures Names(kids) == [] && Differ(Names(kids))
  {
    if kids.Then? {
      ElementsHaveNoNames(kids.rest);
    }
  }

  /** What is asked of a container is asked of its inside. */
  lemma AllowedContainer(j: Json, d: nat, o: Strict)
    requires JsonOk(j) && j.Container? && j.kids.Some?
    ensures Allowed(j, d, o) <==> AllowedInside(j.kids.value, d + 1, o, [])
  {
    hide KidOk, NamesDifferInside, DepthInside, NewNames, Differ, Names;
    NothingSofar(Names(j.kids.value));
    if !j.obj {
      ElementsHaveNoNames(j.kids.value);
    }
  }

  /** What is asked of children is asked of the first, and of the rest behind it. */
  lemma AllowedStep(kids: Kids, obj: bool, d: nat, o: Strict, sofar: seq<Node>, n: Node)
    requires KidsOk(kids, obj) && kids.kid.Member? == obj && (obj ==> n.key == NameOf(kids.kid.key))
    ensures AllowedInside(kids, d, o, sofar)
            <==> && Allowed(kids.kid.value, d, o)
                 && !(obj && !o.allowDuplicateKeys && HasKey(sofar, n.key))
                 && (kids.Then? ==> AllowedInside(kids.rest, d, o, Put(sofar, n, obj)))
  {
    hide JsonOk, CharsOk, HasKey, Put, NameOf, NamesDiffer, Depth;
    if obj {
      NewName(n.key, if kids.Then? then Names(kids.rest) else [], sofar, n);
    } else {
      ElementsHaveNoNames(kids);
      if kids.Then? {
        ElementsHaveNoNames(kids.rest);
      }
    }
  }

  lemma AllowedAt(kids: Kids, obj: bool, d: nat, o: Strict, sofar: seq<Node>)
    requires KidsOk(kids, obj) && AllowedInside(kids, d, o, sofar)
    ensures Allowed(kids.kid.value, d, o)
  {
    hide KidOk, NewNames;
  }

  lemma NothingSofar(names: seq<Bytes>)
    ensures NewNames(names, []) <==> Differ(names)
  {
  }

  lemma LexIsClean(s: Bytes)
    ensures NoTrivia(Lex(s))
  {
    PlainHasNoTrivia(Tokens(s, true));
  }

  // What is derived is accepted.

  function Read(s: Bytes, keys: nat, nodes: nat, d: nat, o: Strict): Result<Node> {
    ParseValue(State(Lex(s), keys, nodes), d, o)
  }

  predicate Leaves<T>(r: Result<T>, rest: Bytes) { r.Ok? && r.st.ts == Lex(rest) }

  lemma ScalarAccepted(t: Token, s: Bytes, rest: Bytes, keys: nat, nodes: nat, d: nat, o: Strict)
    requires Lex(s) == [t] + Lex(rest) && ScalarNode(t).Some?
    ensures Leaves(Read(s, keys, nodes, d, o), rest)
  {
    hide Lex, Unquote;
    assert Lex(s)[1..] == Lex(rest);
  }

  lemma MarkDelimits(m: Mark, c: byte, rest: Bytes)
    requires MarkOk(m) && IsDelimiter(c)
    ensures Delimited(Marked(m, c) + rest)
  {
    var t := Marked(m, c) + rest;
    assert t[0] == if m.before == [] then c else m.before[0];
  }

  lemma {:induction false} JsonAccepted(j: Json, rest: Bytes, keys: nat, nodes: nat, d: nat, o: Strict)
    requires JsonOk(j) && Delimited(rest) && Allowed(j, d, o)
    ensures Leaves(Read(Yield(j) + rest, keys, nodes, d, o), rest)
    decreases j, 3
  {
    hide Lex, Read, Leaves, Unquote, Delimited, NumberOk, CharsOk, IsStringToken, NumberText, StringText;
    match j {
      case Literal(w) =>
        LexWord(w, rest);
        ScalarAccepted(Token(WordKind(w), w), w + rest, rest, keys, nodes, d, o);
      case Numeral(n) =>
        LexNumber(n, rest);
        ScalarAccepted(Token(NumberToken, NumberText(n)), NumberText(n) + rest, rest, keys, nodes, d, o);
      case Text(chars) =>
        LexString(chars, rest);
        ScannedStringUnquotes(StringText(chars));
        ScalarAccepted(Token(StringToken, StringText(chars)), StringText(chars) + rest, rest, keys, nodes, d, o);
      case Container(_, _, _, _) =>
        ContainerAccepted(j, rest, keys, nodes, d, o);
    }
  }

  lemma {:induction false} ContainerAccepted(j: Json, rest: Bytes, keys: nat, nodes: nat, d: nat, o: Strict)
    requires JsonOk(j) && j.Container? && Allowed(j, d, o)
    ensures Leaves(Read(Yield(j) + rest, keys, nodes, d, o), rest)
    decreases j, 2
  {
    hide Lex, ParseChildren, Marked, KidsOk, YieldKids, MarkOk, InlineComment;
    var open := OpenByte(j.obj);
    var tail := Marked(j.end, CloseByte(j.obj)) + rest;
    var body := if j.kids.Some? then YieldKids(j.kids.value) else [];
    AssocFour(Marked(j.begin, open), body, Marked(j.end, CloseByte(j.obj)), rest);
    LexMarked(j.begin, open, body + tail);
    LexMarked(j.end, CloseByte(j.obj), rest);
    var inner := State(Lex(body + tail), keys, nodes + 1);
    if j.kids.Some? {
      AllowedContainer(j, d, o);
      KidsAccepted(j.kids.value, j.obj, j.end, rest, keys, nodes + 1, d + 1, o, START);
    } else {
      assert body + tail == tail;
      LexIsClean(tail);
      CloseAccepted(inner.ts, rest, j.obj, keys, nodes + 1, d + 1, o, START);
    }
    LexIsClean(rest);
    NothingSkipped([], Lex(rest));
    ContainerReads(Lex(Yield(j) + rest), inner.ts, Token(StructuralKind(open), [open]), j.obj, keys, nodes, d, o);
  }

  lemma ContainerReads(ts: seq<Token>, inner: seq<Token>, t: Token, obj: bool, keys: nat, nodes: nat, d: nat, o: Strict)
    requires ts == [t] + inner && t.kind == Open(obj) && !Over(d + 1, o.maxDepth)
    ensures ParseValue(State(ts, keys, nodes), d, o)
            == Closed(ParseChildren(State(inner, keys, nodes + 1), d + 1, o, obj, START), obj)
  {
    hide ParseChildren, Closed;
    assert ts[1..] == inner;
  }

  /** The end of a container. */
  lemma CloseAccepted(ts: seq<Token>, rest: Bytes, obj: bool, keys: nat, nodes: nat, d: nat, o: Strict, turn: Turn)
    requires ts == [Token(StructuralKind(CloseByte(obj)), [CloseByte(obj)])] + Lex(rest) && !turn.afterComma && NoTrivia(ts)
    ensures Leaves(ParseChildren(State(ts, keys, nodes), d, o, obj, turn), rest)
  {
    hide Lex, ParseChildren, NoTrivia;
    NothingSkipped([], ts);
    ClosingTurn(State(ts, keys, nodes), d, o, obj, turn);
    assert ts[1..] == Lex(rest);
  }

  lemma {:induction false} KidsAccepted(
    kids: Kids, obj: bool, end: Mark, rest: Bytes, keys: nat, nodes: nat, d: nat, o: Strict, turn: Turn)
    requires KidsOk(kids, obj) && MarkOk(end)
    requires AllowedInside(kids, d, o, turn.sofar.children)
    ensures var s := YieldKids(kids) + (Marked(end, CloseByte(obj)) + rest);
            Leaves(ParseChildren(State(Lex(s), keys, nodes), d, o, obj, turn), rest)
    decreases kids, 1
  {
    hide AllowedInside, HasKey, Put, Allowed, NameOf;
    hide Lex, ParseChildren, ParseChild, Attach, Marked, MarkOk, KidOk, NoTrivia, Delimited, YieldKid;
    var tail := Marked(end, CloseByte(obj)) + rest;
    var s := YieldKids(kids) + tail;
    var more := if kids.Last? then tail else Marked(kids.comma, COMMA) + (YieldKids(kids.rest) + tail);
    assert s == YieldKid(kids.kid) + more by {
      if kids.Then? {
        AssocFour(YieldKid(kids.kid), Marked(kids.comma, COMMA), YieldKids(kids.rest), tail);
      }
    }
    if kids.Last? {
      MarkDelimits(end, CloseByte(obj), rest);
      LexMarked(end, CloseByte(obj), rest);
    } else {
      MarkDelimits(kids.comma, COMMA, YieldKids(kids.rest) + tail);
      LexMarked(kids.comma, COMMA, YieldKids(kids.rest) + tail);
    }
    AllowedAt(kids, obj, d, o, turn.sofar.children);
    KidAccepted(kids.kid, obj, more, keys, nodes, d, o);
    var st := State(Lex(s), keys, nodes);
    LexIsClean(s);
    LexIsClean(more);
    NothingSkipped([], Lex(s));
    ChildTurn(st, d, o, obj, turn);
    var c := ParseChild(st, d, o, obj, []);
    AttachIs(c.val, c.st, o, obj, turn.sofar);
    var n := if kids.Last? then c.val else c.val.WithFoot(JoinNotes(c.val.notes.foot, []));
    AllowedStep(kids, obj, d, o, turn.sofar.children, n);
    var a := Attach(c.val, c.st, o, obj, turn.sofar);
    if kids.Last? {
      CloseAccepted(Lex(more), rest, obj, a.st.keys, a.st.nodes, d, o, a.val);
    } else {
      assert Lex(more)[1..] == Lex(YieldKids(kids.rest) + tail);
      KidsAccepted(kids.rest, obj, end, rest, a.st.keys, a.st.nodes, d, o, a.val);
    }
  }

  lemma {:induction false} KidAccepted(kid: Kid, obj: bool, rest: Bytes, keys: nat, nodes: nat, d: nat, o: Strict)
    requires KidOk(kid, obj) && Delimited(rest) && Allowed(kid.value, d, o)
    ensures var st := State(Lex(YieldKid(kid) + rest), keys, nodes);
            Leaves(ParseChild(st, d, o, obj, []), rest) && Peek(st.ts).kind != Close(obj)
            && kid.Member? == obj && (obj ==> ParseChild(st, d, o, obj, []).val.key == NameOf(kid.key))
    decreases kid, 4
  {
    hide Lex, ParseValue, Marked, Yield, JsonOk, StringText, MarkOk, CharsOk, Delimited, Unquote, Collect, IsStringToken;
    var s := YieldKid(kid) + rest;
    var st := State(Lex(s), keys, nodes);
    if kid.Member? {
      var value := Yield(kid.value) + rest;
      assert s == StringText(kid.key) + (Marked(kid.colon, COLON) + value) by {
        AssocFour(StringText(kid.key), Marked(kid.colon, COLON), Yield(kid.value), rest);
      }
      LexString(kid.key, Marked(kid.colon, COLON) + value);
      LexMarked(kid.colon, COLON, value);
      ScannedStringUnquotes(StringText(kid.key));
      JsonAccepted(kid.value, rest, keys, nodes, d, o);
      LexIsClean(value);
      MemberReads(st, Lex(value), StringText(kid.key), d, o);
    } else {
      JsonAccepted(kid.value, rest, keys, nodes, d, o);
      ValueIsNoClose(st, d, o);
    }
  }

  lemma ValueIsNoClose(st: State, d: nat, o: Strict)
    requires ParseValue(st, d, o).Ok?
    ensures Peek(st.ts).kind != ObjectEnd && Peek(st.ts).kind != ArrayEnd
  {
    hide ParseContainer, Unquote;
  }

  lemma MemberReads(st: State, value: seq<Token>, key: Bytes, d: nat, o: Strict)
    requires st.ts == [Token(StringToken, key)] + ([Token(NameSeparator, [COLON])] + value)
    requires Unquote(key).Some? && NoTrivia(value)
    requires ParseValue(st.(ts := value), d, o).Ok?
    ensures var r, v := ParseChild(st, d, o, true, []), ParseValue(st.(ts := value), d, o);
            r.Ok? && r.st.ts == v.st.ts && r.val.key == Unquote(key).value
  {
    hide ParseValue, Unquote, NoTrivia, Collect;
    var colon := [Token(NameSeparator, [COLON])] + value;
    assert st.ts[1..] == colon && colon[1..] == value;
    CleanOne(Token(NameSeparator, [COLON]), value);
    NothingSkipped([], colon);
    NothingSkipped([], value);
    MemberIs(st, d, o, []);
  }

  lemma CleanOne(t: Token, ts: seq<Token>)
    requires !IsTrivia(t) && NoTrivia(ts)
    ensures NoTrivia([t] + ts)
  {
  }

  // What is accepted is derived.

  lemma ScalarDerives(t: Token) returns (j: Json)
    requires Fits(t) && ScalarNode(t).Some?
    ensures JsonOk(j) && Yield(j) == t.text && !j.Container?
  {
    hide NumberOk, CharsOk, NumberText, StringText, Unquote, IsStringToken, NumberLen;
    if t.kind == StringToken {
      var chars := StringForm(t.text);
      j := Text(chars);
    } else if t.kind == NumberToken {
      var n := NumberForm(t.text);
      j := Numeral(n);
    } else {
      j := Literal(t.text);
    }
  }

  lemma {:induction false} ValueDerives(s: Bytes, keys: nat, nodes: nat, d: nat, o: Strict) returns (w: Bytes, j: Json, rest: Bytes)
    requires Read(s, keys, nodes, d, o).Ok? && !Over(d, o.maxDepth)
    ensures IsWs(w) && JsonOk(j) && s == w + Yield(j) + rest && |rest| < |s|
    ensures Lex(rest) == Read(s, keys, nodes, d, o).st.ts && Allowed(j, d, o)
    decreases |s|, 1
  {
    hide Lex, Unquote, Fits, IsWs, ParseContainer;
    assert Lex(s) != [] && Lex(s)[0] != ERROR by {
      hide JsonOk, Yield;
    }
    var t := Lex(s)[0];
    var after;
    w, after := Peel(s);
    if IsOpen(t.kind) {
      j, rest := ContainerDerives(after, t, keys, nodes, d, o, s);
      assert s == w + Yield(j) + rest by {
        assert w + t.text + after == w + (t.text + after);
        assert w + Yield(j) + rest == w + (Yield(j) + rest);
      }
    } else {
      j := ScalarDerives(t);
      rest := after;
    }
  }

  lemma ContainerIsRead(s: Bytes, after: Bytes, t: Token, keys: nat, nodes: nat, d: nat, o: Strict)
    requires Lex(s) == [t] + Lex(after) && IsOpen(t.kind) && Read(s, keys, nodes, d, o).Ok?
    ensures var inside := ParseChildren(State(Lex(after), keys, nodes + 1), d + 1, o, t.kind == ObjectStart, START);
            !Over(d + 1, o.maxDepth) && inside.Ok? && Read(s, keys, nodes, d, o).st.ts == InlineComment(inside.st.ts).rest
  {
    hide Lex, ParseChildren;
    assert Read(s, keys, nodes, d, o) == ParseContainer(State(Lex(s), keys, nodes), d, o);
    ContainerReads(Lex(s), Lex(after), t, t.kind == ObjectStart, keys, nodes, d, o);
  }

  lemma {:induction false} ContainerDerives(after: Bytes, t: Token, keys: nat, nodes: nat, d: nat, o: Strict, s: Bytes)
    returns (j: Json, rest: Bytes)
    requires Lex(s) == [t] + Lex(after) && IsOpen(t.kind) && Fits(t) && |after| < |s|
    requires Read(s, keys, nodes, d, o).Ok?
    ensures JsonOk(j) && t.text + after == Yield(j) + rest && |rest| < |s|
    ensures Lex(rest) == Read(s, keys, nodes, d, o).st.ts && Allowed(j, d, o)
    decreases |s|, 0
  {
    hide NamesDifferInside, DepthInside, AllowedInside, Names, Differ;
    hide Lex, Read, ParseChildren, InlineComment, IsWs, KidsOk, YieldKids;
    ContainerIsRead(s, after, t, keys, nodes, d, o);
    var obj := t.kind == ObjectStart;
    var inner := State(Lex(after), keys, nodes + 1);
    var w, kids, z;
    w, kids, z, rest := ChildrenDerive(after, keys, nodes + 1, d + 1, o, obj, START);
    LexIsClean(rest);
    NothingSkipped([], Lex(rest));
    NoWs();
    j := Container(obj, Mark([], w), kids, Mark(z, []));
    if kids.Some? {
      AllowedContainer(j, d, o);
    }
    ContainerYields(obj, w, if kids.Some? then YieldKids(kids.value) else [], z, rest);
  }

  lemma NoWs()
    ensures IsWs([])
  {
  }

  lemma ContainerYields(obj: bool, w: Bytes, body: Bytes, z: Bytes, rest: Bytes)
    ensures [OpenByte(obj)] + (w + body + z + [CloseByte(obj)] + rest)
            == Marked(Mark([], w), OpenByte(obj)) + body + Marked(Mark(z, []), CloseByte(obj)) + rest
  {
  }

  /** The inside of a container, from where its children may go on. */
  lemma {:induction false} ChildrenDerive(s: Bytes, keys: nat, nodes: nat, d: nat, o: Strict, obj: bool, turn: Turn)
    returns (w: Bytes, kids: Option<Kids>, z: Bytes, rest: Bytes)
    requires ParseChildren(State(Lex(s), keys, nodes), d, o, obj, turn).Ok? && !Over(d, o.maxDepth)
    ensures IsWs(w) && IsWs(z) && (kids.Some? ==> KidsOk(kids.value, obj)) && |rest| < |s|
    ensures s == w + (if kids.Some? then YieldKids(kids.value) else []) + z + [CloseByte(obj)] + rest
    ensures kids == None ==> z == []
    ensures kids.Some? ==> AllowedInside(kids.value, d, o, turn.sofar.children)
    ensures turn.afterComma ==> kids.Some?
    ensures Peek(Lex(s)).kind == Close(obj) ==> kids == None
    ensures Lex(rest) == ParseChildren(State(Lex(s), keys, nodes), d, o, obj, turn).st.ts
    decreases |s|, 3
  {
    hide AllowedInside, HasKey, Put, Allowed, NameOf;
    hide Lex, ParseChildren, ParseChild, Attach, IsWs, Fits, KidOk, YieldKid, NoTrivia;
    var st := State(Lex(s), keys, nodes);
    LexIsClean(s);
    NothingSkipped([], Lex(s));
    NoWs();
    if Peek(Lex(s)).kind == Close(obj) {
      ClosingTurn(st, d, o, obj, turn);
      w, rest := Peel(s);
      CloseFits(Lex(s)[0], obj);
      kids, z := None, [];
      assert w + [] + [] + [CloseByte(obj)] + rest == w + [CloseByte(obj)] + rest;
    } else {
      ChildTurn(st, d, o, obj, turn);
      var kid, s1;
      w, kid, s1 := KidDerives(s, keys, nodes, d, o, obj);
      LexIsClean(s1);
      var c := ParseChild(st, d, o, obj, []);
      AttachIs(c.val, c.st, o, obj, turn.sofar);
      var a := Attach(c.val, c.st, o, obj, turn.sofar);
      if Peek(Lex(s1)).kind == ValueSeparator {
        var w1, s2 := Peel(s1);
        CommaFits(Lex(s1)[0]);
        var w2, more;
        w2, more, z, rest := ChildrenDerive(s2, a.st.keys, a.st.nodes, d, o, obj, a.val);
        kids := Some(Then(kid, Mark(w1, w2), more.value));
        AllowedStep(kids.value, obj, d, o, turn.sofar.children, c.val.WithFoot(JoinNotes(c.val.notes.foot, [])));
        ThenYields(w, YieldKid(kid), w1, w2, YieldKids(more.value), z, [CloseByte(obj)], rest);
      } else {
        var none, empty;
        z, none, empty, rest := ChildrenDerive(s1, a.st.keys, a.st.nodes, d, o, obj, a.val);
        kids := Some(Last(kid));
        AllowedStep(kids.value, obj, d, o, turn.sofar.children, c.val);
        LastYields(w, YieldKid(kid), z, [CloseByte(obj)], rest);
      }
    }
  }

  lemma CloseFits(t: Token, obj: bool)
    requires Fits(t) && t.kind == Close(obj)
    ensures t.text == [CloseByte(obj)] && t != ERROR
  {
  }

  lemma CommaFits(t: Token)
    requires Fits(t) && t.kind == ValueSeparator
    ensures t.text == [COMMA]
  {
  }

  lemma ThenYields(w: Bytes, kid: Bytes, w1: Bytes, w2: Bytes, more: Bytes, z: Bytes, c: Bytes, rest: Bytes)
    ensures w + kid + (w1 + [COMMA] + (w2 + more + z + c + rest))
            == w + (kid + Marked(Mark(w1, w2), COMMA) + more) + z + c + rest
  {
  }

  lemma LastYields(w: Bytes, kid: Bytes, z: Bytes, c: Bytes, rest: Bytes)
    ensures w + kid + (z + [] + [] + c + rest) == w + kid + z + c + rest
  {
  }

  lemma {:induction false} KidDerives(s: Bytes, keys: nat, nodes: nat, d: nat, o: Strict, obj: bool)
    returns (w: Bytes, kid: Kid, rest: Bytes)
    requires ParseChild(State(Lex(s), keys, nodes), d, o, obj, []).Ok? && !Over(d, o.maxDepth)
    ensures IsWs(w) && KidOk(kid, obj) && s == w + YieldKid(kid) + rest && |rest| < |s|
    ensures Lex(rest) == ParseChild(State(Lex(s), keys, nodes), d, o, obj, []).st.ts && Allowed(kid.value, d, o)
    ensures kid.Member? == obj && (obj ==> ParseChild(State(Lex(s), keys, nodes), d, o, obj, []).val.key == NameOf(kid.key))
    decreases |s|, 2
  {
    hide Lex, ParseValue, IsWs, Fits, JsonOk, Yield, CharsOk, StringText, Unquote, NoTrivia, Collect, IsStringToken;
    var st := State(Lex(s), keys, nodes);
    if !obj {
      var j;
      w, j, rest := ValueDerives(s, keys, nodes, d, o);
      kid := Element(j);
    } else {
      var s1;
      KeyIsString(st, d, o);
      w, s1 := Peel(s);
      LexIsClean(s1);
      NothingSkipped([], Lex(s1));
      MemberIs(st, d, o, []);
      var chars := KeyForm(Lex(s)[0]);
      var w1, s2 := Peel(s1);
      ColonFits(Lex(s1)[0]);
      LexIsClean(s2);
      NothingSkipped([], Lex(s2));
      var w2, j;
      w2, j, rest := ValueDerives(s2, keys, nodes, d, o);
      kid := Member(chars, Mark(w1, w2), j);
      MemberYields(w, StringText(chars), w1, w2, Yield(j), rest);
    }
  }

  lemma KeyIsString(st: State, d: nat, o: Strict)
    requires ParseChild(st, d, o, true, []).Ok?
    ensures Peek(st.ts).kind == StringToken && Unquote(st.ts[0].text).Some? && st.ts != []
  {
    hide ParseValue, Unquote, Collect;
  }

  lemma KeyForm(t: Token) returns (chars: seq<Char>)
    requires Fits(t) && t.kind == StringToken
    ensures CharsOk(chars) && StringText(chars) == t.text
  {
    hide CharsOk, StringText, IsStringToken;
    chars := StringForm(t.text);
  }

  lemma ColonFits(t: Token)
    requires Fits(t) && t.kind == NameSeparator
    ensures t.text == [COLON]
  {
  }

  lemma MemberYields(w: Bytes, key: Bytes, w1: Bytes, w2: Bytes, value: Bytes, rest: Bytes)
    ensures w + key + (w1 + [COLON] + (w2 + value + rest)) == w + (key + Marked(Mark(w1, w2), COLON) + value) + rest
  {
  }

  // Documents

  lemma DocumentReads(s: Bytes, o: Strict)
    ensures Parse(s, o).Ok? <==> Lex(s) != [] && Read(s, 0, 0, 0, o).Ok? && Read(s, 0, 0, 0, o).st.ts == []
  {
    hide ParseValue, HeadComments, Collect, InlineComment, Plain, Tokens;
    DocumentTransparent(Tokens(s, true), o);
    LexIsClean(s);
    var ts := Lex(s);
    NothingSkipped([], ts);
    ValueLeaves(State(ts, 0, 0), 0, o);
    var r := ParseValue(State(ts, 0, 0), 0, o);
    if ts != [] && r.Ok? {
      LeftClean(r.st.ts, ts);
      NothingSkipped([], r.st.ts);
    }
  }

  /** The grammar derives s, with names and nesting as o asks. */
  ghost predicate DerivableUnder(s: Bytes, o: Strict) {
    exists w: Bytes, j: Json, z: Bytes :: Derives(w, j, z, s) && Allowed(j, 0, o)
  }

  /** A strict parser accepts a byte string exactly when the grammar derives it,
      in its objects no two names are equal, unless duplicate keys are allowed,
      and its containers nest no deeper than the limit, if there is one. */
  lemma AcceptsWhatIsDerivable(s: Bytes, o: Strict)
    ensures Parse(s, o).Ok? <==> DerivableUnder(s, o)
  {
    hide Lex, ParseValue, IsWs, JsonOk, Yield, Parse, Allowed;
    DocumentReads(s, o);
    if DerivableUnder(s, o) {
      var w, j, z :| Derives(w, j, z, s) && Allowed(j, 0, o);
      WsDelimits(z);
      LexWs(w, Yield(j) + z);
      assert s == w + (Yield(j) + z);
      JsonAccepted(j, z, 0, 0, 0, o);
      NothingButWs(z);
      NothingIsNoValue(o);
    }
    if Parse(s, o).Ok? {
      var w, j, z := ValueDerives(s, 0, 0, 0, o);
      OnlyWs(z);
      assert Derives(w, j, z, s);
    }
  }

  /** With duplicate keys allowed and no limit, the grammar alone decides. */
  lemma AcceptsRfc8259(s: Bytes)
    ensures Parse(s, RFC_8259).Ok? <==> Derivable(s)
  {
    hide Parse, Derives, NamesDiffer, Depth;
    AcceptsWhatIsDerivable(s, RFC_8259);
    if Derivable(s) {
      var w, j, z :| Derives(w, j, z, s);
      assert Allowed(j, 0, RFC_8259);
    }
  }

  lemma WsDelimits(z: Bytes)
    requires IsWs(z)
    ensures Delimited(z)
  {
  }

  lemma NothingButWs(z: Bytes)
    requires IsWs(z)
    ensures Lex(z) == []
  {
    hide Lex;
    var none: Bytes := [];
    LexWs(z, none);
    assert z + none == z;
    LexUnfold(none);
    assert Next(none, true).tok == EOF;
  }

  lemma NothingIsNoValue(o: Strict)
    ensures ParseValue(State([], 0, 0), 0, o).Err?
  {
  }
}
