/** What holds of every tree that the parser builds from scanned tokens. */
module WellFormed {
  import opened Ascii
  import opened Lexer
  import opened LexerLaws
  import opened QuotedStrings
  import opened Tree
  import opened Syntax

  /** The characters of comment text: line breaks are LF, and there is no other
      control character than a tab. */
  predicate NoteText(s: Bytes) { forall i :: 0 <= i < |s| ==> s[i] >= SPACE || s[i] == TAB || s[i] == LF }

  predicate Genuine(t: Token) {
    match t.kind
    case StringToken => IsStringToken(t.text)
    case NumberToken => NumberLen(t.text) == Some(|t.text|)
    case TrueToken => t.text == TRUE_WORD
    case FalseToken => t.text == FALSE_WORD
    case NullToken => t.text == NULL_WORD
    case LineComment => NoteText(t.text)
    case BlockComment => NoteText(t.text)
    case _ => true
  }

  predicate AllGenuine(ts: seq<Token>) { forall i :: 0 <= i < |ts| ==> Genuine(ts[i]) }

  predicate WfNotes(n: Notes) { NoteText(n.head) && NoteText(n.line) && NoteText(n.foot) && NoteText(n.trail) }

  predicate DistinctKeys(kids: seq<Node>) {
    forall i, j :: 0 <= i < j < |kids| ==> kids[i].key != kids[j].key
  }

  predicate WfNode(n: Node)
    decreases n, 1
  {
    WfNotes(n.notes)
    && (n.kind != KeyValueNode ==> n.key == [] && n.rawKey == [])
    && match n.kind
       case StringNode => n.children == [] && IsStringToken(n.rawValue) && Unquote(n.rawValue) == Some(n.value)
       case NumberNode => n.children == [] && n.rawValue == n.value && NumberLen(n.value) == Some(|n.value|)
       case BoolNode => n.children == [] && n.rawValue == n.value && (n.value == TRUE_WORD || n.value == FALSE_WORD)
       case NullNode => n.children == [] && n.rawValue == n.value == NULL_WORD
       case KeyValueNode =>
         n.value == [] && n.rawValue == [] && IsStringToken(n.rawKey) && Unquote(n.rawKey) == Some(n.key)
         && |n.children| == 1 && WfKids(n.children, false)
       case ArrayNode => n.value == [] && n.rawValue == [] && WfKids(n.children, false)
       case ObjectNode => n.value == [] && n.rawValue == [] && WfKids(n.children, true) && DistinctKeys(n.children)
  }

  /** Members of an object, or else values. */
  predicate WfKids(kids: seq<Node>, members: bool)
    decreases kids, 0
  {
    forall i :: 0 <= i < |kids| ==> WfNode(kids[i]) && (kids[i].kind == KeyValueNode <==> members)
  }

  // Scanned tokens are genuine.

  lemma {:induction false} LineBytes(s: Bytes, n: nat)
    requires LineLen(s) == Some(n)
    ensures NoteText(s[..n])
  {
    if n > 0 {
      LineBytes(s[1..], n - 1);
      assert s[..n] == [s[0]] + s[1..][..n - 1];
    }
  }

  predicate BlockBytes(s: Bytes) { forall i :: 0 <= i < |s| ==> IsCommentByte(s[i]) || IsLineBreak(s[i]) }

  lemma {:induction false} BlockBody(s: Bytes, n: nat)
    requires BlockLen(s) == Some(n)
    ensures BlockBytes(s[..n])
  {
    if n > 0 {
      BlockBody(s[1..], n - 1);
      assert s[..n] == [s[0]] + s[1..][..n - 1];
    }
  }

  lemma {:induction false} NormalizedBytes(s: Bytes)
    requires BlockBytes(s)
    ensures NoteText(NormalizeBreaks(s))
    decreases |s|
  {
    if s != [] {
      NormalizedBytes(s[1..]);
      if |s| > 1 {
        NormalizedBytes(s[2..]);
      }
    }
  }

  lemma ScannedString(s: Bytes, n: nat)
    requires s != [] && s[0] == QUOTE && StringTail(s[1..]) == Some(n)
    ensures IsStringToken(s[..n + 1])
  {
    StringTailLocal(s[1..], n, []);
    assert s[1..][..n] + [] == s[..n + 1][1..];
  }

  lemma ScannedNumber(s: Bytes, n: nat)
    requires NumberLen(s) == Some(n)
    ensures NumberLen(s[..n]) == Some(n)
  {
    NumberLenLocal(s, n, []);
    assert s[..n] + [] == s[..n];
  }

  lemma ScannedComment(s: Bytes, strict: bool)
    requires s != [] && s[0] == SLASH
    ensures Genuine(ScanComment(s, strict).tok)
  {
    var t := ScanComment(s, strict);
    if t.tok.kind == LineComment {
      LineBytes(s[2..], t.size - 2);
      assert s[2..][..t.size - 2] == s[2..t.size];
    } else if t.tok.kind == BlockComment {
      BlockBody(s[2..], t.size - 4);
      assert s[2..][..t.size - 4] == s[2..t.size - 2];
      NormalizedBytes(s[2..t.size - 2]);
    }
  }

  lemma ScannedIsGenuine(s: Bytes, strict: bool)
    requires s != []
    ensures Genuine(ScanToken(s, strict).tok)
  {
    hide ScanComment, StringTail, NumberLen, NoteText, IsStringToken;
    if s[0] == SLASH {
      ScannedComment(s, strict);
    } else if s[0] == QUOTE {
      if StringTail(s[1..]).Some? {
        ScannedString(s, StringTail(s[1..]).value);
      }
    } else if s[0] == MINUS || IsDigit(s[0]) {
      if NumberLen(s).Some? {
        ScannedNumber(s, NumberLen(s).value);
      }
    }
  }

  lemma {:induction false} TokensAreGenuine(s: Bytes, strict: bool)
    ensures AllGenuine(Tokens(s, strict))
    decreases |s|
  {
    hide ScanToken, Genuine;
    var e := Next(s, strict);
    ErrorIsGenuine();
    if e.tok != EOF && e.tok != ERROR {
      ScannedIsGenuine(s[e.lead..], strict);
      TokensAreGenuine(s[e.size..], strict);
    }
  }

  lemma ErrorIsGenuine()
    ensures Genuine(ERROR)
  {
  }

  // The parser builds well-formed trees.

  lemma GenuineTail(ts: seq<Token>)
    requires AllGenuine(ts) && ts != []
    ensures Genuine(ts[0]) && AllGenuine(ts[1..])
  {
  }

  lemma JoinedNotes(a: Bytes, b: Bytes)
    requires NoteText(a) && NoteText(b)
    ensures NoteText(JoinNotes(a, b)) && NoteText(NonBlank(a))
  {
  }

  lemma {:induction false} CollectWf(acc: Bytes, ts: seq<Token>)
    requires NoteText(acc) && AllGenuine(ts)
    ensures NoteText(Collect(acc, ts).text) && AllGenuine(Collect(acc, ts).rest)
    decreases |ts|
  {
    hide Genuine;
    if IsTrivia(Peek(ts)) {
      GenuineTail(ts);
      if Peek(ts).kind == Newline {
        CollectWf(acc, ts[1..]);
      } else {
        CommentWf(ts[0]);
        CollectWf((if acc == [] then [] else acc + [LF]) + ts[0].text, ts[1..]);
      }
    }
  }

  lemma CommentWf(t: Token)
    requires Genuine(t) && IsComment(t)
    ensures NoteText(t.text)
  {
  }

  lemma HeadWf(ts: seq<Token>)
    requires AllGenuine(ts)
    ensures NoteText(HeadComments(ts).text) && AllGenuine(HeadComments(ts).rest)
  {
    CollectWf([], ts);
    JoinedNotes(Collect([], ts).text, []);
  }

  lemma InlineWf(ts: seq<Token>)
    requires AllGenuine(ts)
    ensures NoteText(InlineComment(ts).text) && AllGenuine(InlineComment(ts).rest)
  {
    if IsComment(Peek(ts)) {
      GenuineTail(ts);
      JoinedNotes(ts[0].text, []);
    }
  }

  /** Notes may be replaced by other well-formed notes. */
  lemma NotesWf(n: Node, notes: Notes)
    requires WfNode(n) && WfNotes(notes)
    ensures WfNode(n.(notes := notes))
  {
  }

  lemma {:induction false} ValueWf(st: State, depth: nat, o: Options)
    requires AllGenuine(st.ts)
    ensures var r := ParseValue(st, depth, o);
            r.Ok? ==> WfNode(r.val) && r.val.kind != KeyValueNode && AllGenuine(r.st.ts)
    decreases |st.ts|, 1
  {
    hide AllGenuine, WfNode, ParseContainer, ParseScalar;
    if IsOpen(Peek(st.ts).kind) {
      ContainerWf(st, depth, o);
    } else {
      ScalarWf(st, o);
    }
  }

  lemma ScalarWf(st: State, o: Options)
    requires AllGenuine(st.ts)
    ensures var r := ParseScalar(st, o);
            r.Ok? ==> WfNode(r.val) && r.val.kind != KeyValueNode && AllGenuine(r.st.ts)
  {
    hide Unquote, IsStringToken, NumberLen;
    if st.ts != [] {
      GenuineTail(st.ts);
    }
  }

  lemma {:induction false} ContainerWf(st: State, depth: nat, o: Options)
    requires AllGenuine(st.ts) && IsOpen(Peek(st.ts).kind)
    ensures var r := ParseContainer(st, depth, o);
            r.Ok? ==> WfNode(r.val) && r.val.kind != KeyValueNode && AllGenuine(r.st.ts)
    decreases |st.ts|, 0
  {
    hide AllGenuine, NoteText, ParseChildren, DistinctKeys;
    var obj := Peek(st.ts).kind == ObjectStart;
    var st1 := State(st.ts[1..], st.keys, st.nodes + 1);
    GenuineTail(st.ts);
    EmptyWf(obj);
    ChildrenWf(st1, depth + 1, o, obj, START);
    var q := ParseChildren(st1, depth + 1, o, obj, START);
    if q.Ok? {
      InlineWf(q.st.ts);
    }
  }

  lemma EmptyWf(obj: bool)
    ensures NoteText([]) && WfKids([], obj) && DistinctKeys([])
  {
  }

  lemma {:induction false} ChildWf(st: State, depth: nat, o: Options, obj: bool, head: Bytes)
    requires AllGenuine(st.ts) && NoteText(head)
    ensures var r := ParseChild(st, depth, o, obj, head);
            r.Ok? ==> WfNode(r.val) && (r.val.kind == KeyValueNode <==> obj) && AllGenuine(r.st.ts)
    decreases |st.ts|, 2
  {
    hide AllGenuine, NoteText, ParseValue, Unquote, IsStringToken;
    if !obj {
      ValueWf(st, depth, o);
      var r := ParseValue(st, depth, o);
      if r.Ok? {
        assert NoteText(r.val.notes.head);
        JoinedNotes(r.val.notes.head, head);
        NotesWf(r.val, r.val.notes.(head := JoinNotes(r.val.notes.head, head)));
      }
    } else if Peek(st.ts).kind == StringToken {
      GenuineTail(st.ts);
      EmptyWf(obj);
      CollectWf([], st.ts[1..]);
      var colon := Collect([], st.ts[1..]).rest;
      if Peek(colon).kind == NameSeparator {
        GenuineTail(colon);
        CollectWf([], colon[1..]);
        ValueWf(st.(ts := Collect([], colon[1..]).rest), depth, o);
      }
    }
  }

  predicate WfInside(inside: Inside, obj: bool) {
    NoteText(inside.foot) && WfKids(inside.children, obj) && (obj ==> DistinctKeys(inside.children))
  }

  lemma HasKeyTail(kids: seq<Node>, key: Bytes)
    requires kids != []
    ensures HasKey(kids[1..], key) ==> HasKey(kids, key)
    ensures DistinctKeys(kids) ==> !HasKey(kids[1..], kids[0].key) && DistinctKeys(kids[1..])
  {
    if j :| 0 <= j < |kids[1..]| && kids[1..][j].key == key {
      assert kids[j + 1].key == key;
    }
  }

  lemma {:induction false} WithoutKeys(kids: seq<Node>, key: Bytes, k: Bytes)
    ensures HasKey(Without(kids, key), k) ==> k != key && HasKey(kids, k)
  {
    if kids != [] {
      WithoutKeys(kids[1..], key, k);
      HasKeyTail(kids, k);
      if kids[0].key != key {
        FirstKey(kids[0], Without(kids[1..], key), k);
      }
    }
  }

  lemma {:induction false} WithoutAbsent(kids: seq<Node>, key: Bytes)
    requires !HasKey(kids, key)
    ensures Without(kids, key) == kids
  {
    if kids != [] {
      assert kids[0].key != key;
      assert forall i :: 0 <= i < |kids[1..]| ==> kids[1..][i] == kids[i + 1];
      WithoutAbsent(kids[1..], key);
    }
  }

  lemma FirstKey(n: Node, rest: seq<Node>, k: Bytes)
    ensures HasKey([n] + rest, k) ==> n.key == k || HasKey(rest, k)
  {
    if i :| 0 <= i < |[n] + rest| && ([n] + rest)[i].key == k {
      if i > 0 {
        assert rest[i - 1].key == k;
      }
    }
  }

  lemma DistinctCons(n: Node, rest: seq<Node>)
    requires DistinctKeys(rest) && !HasKey(rest, n.key)
    ensures DistinctKeys([n] + rest)
  {
    forall i, j | 0 <= i < j < |[n] + rest|
      ensures ([n] + rest)[i].key != ([n] + rest)[j].key
    {
      assert ([n] + rest)[j] == rest[j - 1];
      if i > 0 {
        assert ([n] + rest)[i] == rest[i - 1];
      }
    }
  }

  lemma {:induction false} WithoutWf(kids: seq<Node>, key: Bytes, obj: bool)
    requires WfKids(kids, obj) && DistinctKeys(kids)
    ensures var w := Without(kids, key);
            WfKids(w, obj) && DistinctKeys(w) && !HasKey(w, key)
  {
    hide WfNode, DistinctKeys, HasKey;
    WithoutKeys(kids, key, key);
    if kids == [] {
      NoKeys();
    } else {
      HasKeyTail(kids, key);
      WithoutWf(kids[1..], key, obj);
      WithoutKeys(kids[1..], key, kids[0].key);
      if kids[0].key != key {
        DistinctCons(kids[0], Without(kids[1..], key));
      } else {
        assert [] + Without(kids[1..], key) == Without(kids[1..], key);
      }
    }
  }

  lemma NoKeys()
    ensures DistinctKeys([])
  {
  }

  lemma PutWf(kids: seq<Node>, n: Node, obj: bool)
    requires WfKids(kids, obj) && (obj ==> DistinctKeys(kids)) && WfNode(n) && (n.kind == KeyValueNode <==> obj)
    ensures WfKids(Put(kids, n, obj), obj) && (obj ==> DistinctKeys(Put(kids, n, obj)))
  {
    hide WfNode, Without;
    if obj {
      WithoutWf(kids, n.key, obj);
      var w := Without(kids, n.key);
      assert forall i :: 0 <= i < |w| ==> w[i].key != n.key;
    }
  }

  lemma AttachWf(n: Node, st: State, o: Options, obj: bool, sofar: Inside)
    requires AllGenuine(st.ts) && WfNode(n) && (n.kind == KeyValueNode <==> obj) && WfInside(sofar, obj)
    ensures var r := Attach(n, st, o, obj, sofar);
            r.Ok? ==> WfInside(r.val.sofar, obj) && AllGenuine(r.st.ts)
  {
    hide AllGenuine, NoteText, Put, HasKey, WfKids, DistinctKeys;
    var line := InlineComment(st.ts);
    InlineWf(st.ts);
    HeadWf(line.rest);
    var between := HeadComments(line.rest);
    var n1 := SetLine(n, line.text);
    assert WfNotes(n.notes);
    NotesWf(n, n.notes.(line := line.text));
    JoinedNotes(n1.notes.foot, between.text);
    JoinedNotes(sofar.foot, between.text);
    if Peek(between.rest).kind == ValueSeparator {
      GenuineTail(between.rest);
      var after := InlineComment(between.rest[1..]);
      InlineWf(between.rest[1..]);
      var m := n1.WithFoot(JoinNotes(n1.notes.foot, between.text));
      NotesWf(n1, m.notes);
      JoinedNotes(m.notes.foot, after.text);
      NotesWf(m, m.notes.(line := after.text));
      NotesWf(m, m.notes.(foot := JoinNotes(m.notes.foot, after.text)));
      PutWf(sofar.children, AttachAfterComma(m, after.text), obj);
    } else {
      PutWf(sofar.children, n1, obj);
    }
  }

  lemma {:induction false} ChildrenWf(st: State, depth: nat, o: Options, obj: bool, turn: Turn)
    requires AllGenuine(st.ts) && WfInside(turn.sofar, obj)
    ensures var r := ParseChildren(st, depth, o, obj, turn);
            r.Ok? ==> WfInside(r.val, obj) && AllGenuine(r.st.ts)
    decreases |st.ts|, 3
  {
    hide AllGenuine, NoteText, ParseChild, Attach, WfKids, DistinctKeys, WfNode;
    var head := HeadComments(st.ts);
    HeadWf(st.ts);
    if Peek(head.rest).kind == Close(obj) {
      GenuineTail(head.rest);
      JoinedNotes(turn.sofar.foot, head.text);
    } else {
      ChildWf(st.(ts := head.rest), depth, o, obj, head.text);
      var r := ParseChild(st.(ts := head.rest), depth, o, obj, head.text);
      if r.Ok? {
        AttachWf(r.val, r.st, o, obj, turn.sofar);
        var a := Attach(r.val, r.st, o, obj, turn.sofar);
        if a.Ok? {
          ChildrenWf(a.st, depth, o, obj, a.val);
        }
      }
    }
  }

  /** Every document parses to a well-formed value. */
  lemma ParsedIsWf(ts: seq<Token>, o: Options)
    requires AllGenuine(ts)
    ensures var r := ParseDocument(ts, o); r.Ok? ==> WfNode(r.val) && r.val.kind != KeyValueNode
  {
    hide AllGenuine, NoteText, ParseValue, WfNode;
    var lead := HeadComments(ts);
    HeadWf(ts);
    var st := State(lead.rest, 0, 0);
    ValueWf(st, 0, o);
    var r := ParseValue(st, 0, o);
    if r.Ok? {
      var n := r.val;
      WfHasNotes(n);
      JoinedNotes(lead.text, n.notes.head);
      var root := n.WithHead(JoinNotes(lead.text, n.notes.head));
      NotesWf(n, root.notes);
      FinishWf(root, r.st);
    }
  }

  lemma WfHasNotes(n: Node)
    requires WfNode(n)
    ensures WfNotes(n.notes)
  {
  }

  lemma FinishWf(root: Node, st: State)
    requires AllGenuine(st.ts) && WfNode(root) && root.kind != KeyValueNode
    ensures var r := Finish(root, st); r.Ok? ==> WfNode(r.val) && r.val.kind != KeyValueNode
  {
    hide AllGenuine, NoteText;
    assert WfNotes(root.notes);
    InlineWf(st.ts);
    EmptyWf(true);
    var line := if root.notes.line == [] then InlineComment(st.ts) else Noted(root.notes.line, st.ts);
    CollectWf([], line.rest);
    var trail := Collect([], line.rest);
    JoinedNotes(trail.text, []);
    NotesWf(root, root.notes.(line := line.text, trail := NonBlank(trail.text)));
  }
}
