/** How large a tree is, in the terms of the parser's limits, and that a parsed
    tree is within the limits it was parsed under. */
module Sizes {
  import opened Ascii
  import opened Lexer
  import opened QuotedStrings
  import opened Tree
  import opened Syntax
  import opened SyntaxTurns
  import opened Limits

  /** The members of all the objects in a tree. */
  function MembersIn(n: Node): nat
    decreases n, 1
  {
    (if n.kind == KeyValueNode then 1 else 0) + MembersOf(n.children)
  }

  function MembersOf(ns: seq<Node>): nat
    decreases ns, 0
  {
    if ns == [] then 0 else MembersIn(ns[0]) + MembersOf(ns[1..])
  }

  /** All the nodes of a tree. */
  function NodesIn(n: Node): nat
    decreases n, 1
  {
    1 + NodesOf(n.children)
  }

  function NodesOf(ns: seq<Node>): nat
    decreases ns, 0
  {
    if ns == [] then 0 else NodesIn(ns[0]) + NodesOf(ns[1..])
  }

  /** How many containers are inside one another at most. */
  function DepthOf(n: Node): nat
    decreases n, 1
  {
    (if n.IsContainer() then 1 else 0) + DepthsOf(n.children)
  }

  function DepthsOf(ns: seq<Node>): nat
    decreases ns, 0
  {
    if ns == [] then 0
    else if DepthOf(ns[0]) < DepthsOf(ns[1..]) then DepthsOf(ns[1..])
    else DepthOf(ns[0])
  }

  /** The limits leave room for the tree. */
  predicate Admits(o: Options, n: Node) {
    !Over(DepthOf(n), o.maxDepth) && !Over(MembersIn(n), o.maxKeys) && !Over(NodesIn(n), o.maxNodes)
  }

  predicate SameLimits(p: Options, q: Options) {
    p.maxDepth == q.maxDepth && p.maxKeys == q.maxKeys && p.maxNodes == q.maxNodes
  }

  predicate AllMembers(kids: seq<Node>) { forall i :: 0 <= i < |kids| ==> kids[i].kind == KeyValueNode }

  // Lists of children

  lemma OwnSizes(n: Node)
    ensures n.children == [] && n.kind != KeyValueNode ==> MembersIn(n) == 0
    ensures n.children == [] ==> NodesIn(n) == 1 && DepthOf(n) == if n.IsContainer() then 1 else 0
    ensures |n.children| == 1 && n.kind == KeyValueNode ==>
              MembersIn(n) == 1 + MembersIn(n.children[0]) && NodesIn(n) == 1 + NodesIn(n.children[0])
              && DepthOf(n) == DepthOf(n.children[0])
  {
    if |n.children| == 1 {
      var none: seq<Node> := [];
      assert n.children[1..] == none;
      assert MembersOf(n.children) == MembersIn(n.children[0]) + MembersOf(none) && MembersOf(none) == 0;
      assert NodesOf(n.children) == NodesIn(n.children[0]) + NodesOf(none) && NodesOf(none) == 0;
      assert DepthsOf(none) == 0 && DepthsOf(n.children) == DepthOf(n.children[0]);
    }
  }

  lemma {:induction false} SizesAppend(kids: seq<Node>, n: Node)
    ensures MembersOf(kids + [n]) == MembersOf(kids) + MembersIn(n)
    ensures NodesOf(kids + [n]) == NodesOf(kids) + NodesIn(n)
    ensures DepthsOf(kids + [n]) == Max(DepthsOf(kids), DepthOf(n))
  {
    hide MembersIn, NodesIn, DepthOf;
    if kids == [] {
      assert kids + [n] == [n] && [n][1..] == [];
    } else {
      assert (kids + [n])[1..] == kids[1..] + [n];
      SizesAppend(kids[1..], n);
    }
  }

  /** Taking out the members of a key makes nothing larger, and the members fewer
      exactly when there are any. */
  lemma {:induction false} WithoutFewer(kids: seq<Node>, key: Bytes)
    requires AllMembers(kids)
    ensures AllMembers(Without(kids, key)) && MembersOf(Without(kids, key)) <= MembersOf(kids)
    ensures MembersOf(Without(kids, key)) == MembersOf(kids) <==> !HasKey(kids, key)
    ensures NodesOf(Without(kids, key)) <= NodesOf(kids) && DepthsOf(Without(kids, key)) <= DepthsOf(kids)
  {
    hide NodesIn, DepthOf, HasKey;
    if kids == [] {
      NoKey(key);
    } else {
      var rest := Without(kids[1..], key);
      WithoutFewer(kids[1..], key);
      FirstHasKey(kids, key);
      assert ([kids[0]] + rest)[1..] == rest;
      assert [] + rest == rest;
    }
  }

  lemma NoKey(key: Bytes)
    ensures !HasKey([], key)
  {
  }

  lemma FirstHasKey(kids: seq<Node>, key: Bytes)
    requires kids != []
    ensures HasKey(kids, key) <==> kids[0].key == key || HasKey(kids[1..], key)
  {
    if HasKey(kids[1..], key) {
      var i :| 0 <= i < |kids[1..]| && kids[1..][i].key == key;
      assert kids[i + 1].key == key;
    }
    if HasKey(kids, key) && kids[0].key != key {
      var i :| 0 <= i < |kids| && kids[i].key == key;
      assert kids[1..][i - 1].key == key;
    }
  }

  lemma PutSizes(kids: seq<Node>, n: Node, obj: bool)
    requires obj ==> AllMembers(kids) && n.kind == KeyValueNode
    ensures MembersOf(Put(kids, n, obj)) <= MembersOf(kids) + MembersIn(n)
    ensures MembersOf(Put(kids, n, obj)) == MembersOf(kids) + MembersIn(n) <==> !(obj && HasKey(kids, n.key))
    ensures NodesOf(Put(kids, n, obj)) <= NodesOf(kids) + NodesIn(n)
    ensures DepthsOf(Put(kids, n, obj)) <= Max(DepthsOf(kids), DepthOf(n))
    ensures obj ==> AllMembers(Put(kids, n, obj))
  {
    hide Without, HasKey, MembersIn, MembersOf, NodesIn, NodesOf, DepthOf, DepthsOf;
    if obj {
      WithoutFewer(kids, n.key);
      SizesAppend(Without(kids, n.key), n);
    } else {
      SizesAppend(kids, n);
    }
  }

  lemma FollowKeepsSizes(n: Node, ts: seq<Token>, obj: bool)
    ensures var f := Follow(n, ts, obj);
            f.Some? ==>
              var m := f.value.child;
              m.kind == n.kind && MembersIn(m) == MembersIn(n) && NodesIn(m) == NodesIn(n) && DepthOf(m) == DepthOf(n)
  {
    hide InlineComment, HeadComments, JoinNotes, MembersOf, NodesOf, DepthsOf;
  }

  // A parsed tree is within the limits.

  predicate WithinDepth(deep: nat, d: nat, o: Options) { deep > 0 ==> !Over(d + deep, o.maxDepth) }

  /** The counters went up by what n takes at least; `due` members are still to
      be charged. */
  predicate Charged(n: Node, st: State, s: State, d: nat, due: nat, o: Options) {
    MembersIn(n) <= s.keys - st.keys + due && NodesIn(n) <= s.nodes - st.nodes && WithinDepth(DepthOf(n), d, o)
    && (Sound(st, o) ==> Sound(s, o))
  }

  predicate ChargedInside(kids: seq<Node>, before: seq<Node>, st: State, s: State, d: nat, o: Options) {
    MembersOf(kids) <= MembersOf(before) + s.keys - st.keys && NodesOf(kids) <= NodesOf(before) + s.nodes - st.nodes
    && WithinDepth(DepthsOf(kids), d, o)
    && (Sound(st, o) ==> Sound(s, o))
  }

  lemma {:induction false} ValueCharged(st: State, d: nat, o: Options)
    ensures var r := ParseValue(st, d, o); r.Ok? ==> Charged(r.val, st, r.st, d, 0, o)
    decreases |st.ts|, 1
  {
    hide ParseContainer, Unquote, MembersIn, NodesIn, DepthOf;
    if IsOpen(Peek(st.ts).kind) {
      ContainerCharged(st, d, o);
    } else if ScalarNode(Peek(st.ts)).Some? {
      OwnSizes(ScalarNode(Peek(st.ts)).value);
    }
  }

  lemma {:induction false} ContainerCharged(st: State, d: nat, o: Options)
    requires IsOpen(Peek(st.ts).kind)
    ensures var r := ParseContainer(st, d, o); r.Ok? ==> Charged(r.val, st, r.st, d, 0, o)
    decreases |st.ts|, 0
  {
    hide ParseChildren, InlineComment, MembersOf, NodesOf, DepthsOf;
    NoSizes();
    ChildrenCharged(State(st.ts[1..], st.keys, st.nodes + 1), d + 1, o, Peek(st.ts).kind == ObjectStart, START);
  }

  lemma NoSizes()
    ensures MembersOf([]) == 0 && NodesOf([]) == 0 && DepthsOf([]) == 0 && AllMembers([])
  {
  }

  lemma {:induction false} ChildCharged(st: State, d: nat, o: Options, obj: bool, head: Bytes)
    ensures var r := ParseChild(st, d, o, obj, head);
            r.Ok? ==> Charged(r.val, st, r.st, d, if obj then 1 else 0, o) && (obj ==> r.val.kind == KeyValueNode)
    decreases |st.ts|, 2
  {
    hide ParseValue, Unquote, Collect, JoinNotes, MembersOf, NodesOf, DepthsOf;
    if !obj {
      ValueCharged(st, d, o);
    } else if Peek(st.ts).kind == StringToken {
      var colon := Collect([], st.ts[1..]).rest;
      if Peek(colon).kind == NameSeparator {
        var value := st.(ts := Collect([], colon[1..]).rest);
        ValueCharged(value, d, o);
        var v := ParseValue(value, d, o);
        if v.Ok? && Unquote(st.ts[0].text).Some? {
          OwnSizes(KeyValue(Unquote(st.ts[0].text).value, st.ts[0].text, v.val, head));
        }
      }
    }
  }

  lemma {:induction false} ChildrenCharged(st: State, d: nat, o: Options, obj: bool, turn: Turn)
    requires (obj ==> AllMembers(turn.sofar.children)) && WithinDepth(DepthsOf(turn.sofar.children), d, o)
    ensures var r := ParseChildren(st, d, o, obj, turn);
            r.Ok? ==> ChargedInside(r.val.children, turn.sofar.children, st, r.st, d, o)
    decreases |st.ts|, 3
  {
    hide ParseChild, ParseChildren, Attach, Follow, HeadComments, JoinNotes, Put, HasKey;
    hide MembersIn, MembersOf, NodesIn, NodesOf, DepthOf, DepthsOf, AllMembers;
    var head := HeadComments(st.ts);
    if Peek(head.rest).kind == Close(obj) {
      ClosingTurn(st, d, o, obj, turn);
    } else {
      ChildTurn(st, d, o, obj, turn);
      var st0 := st.(ts := head.rest);
      var c := ParseChild(st0, d, o, obj, head.text);
      ChildCharged(st0, d, o, obj, head.text);
      if c.Ok? {
        AttachFollows(c.val, c.st, o, obj, turn.sofar);
        FollowKeepsKey(c.val, c.st.ts, obj);
        FollowKeepsSizes(c.val, c.st.ts, obj);
        var f := Follow(c.val, c.st.ts, obj);
        if Attach(c.val, c.st, o, obj, turn.sofar).Ok? {
          PutSizes(turn.sofar.children, f.value.child, obj);
          var a := Attach(c.val, c.st, o, obj, turn.sofar);
          ChildrenCharged(a.st, d, o, obj, a.val);
        }
      }
    }
  }

  /** The tree of an accepted document is within the limits: they admit it. */
  lemma ParsedIsAdmitted(ts: seq<Token>, o: Options)
    ensures var r := ParseDocument(ts, o); r.Ok? ==> Admits(o, r.val)
  {
    hide ParseValue, HeadComments, InlineComment, Collect, JoinNotes, MembersOf, NodesOf, DepthsOf;
    var lead := HeadComments(ts);
    if lead.rest != [] {
      ValueCharged(State(lead.rest, 0, 0), 0, o);
    }
  }
}
