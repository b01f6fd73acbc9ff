/** Which members an object keeps: those with no later member of their key. */
module LastWins {
  import opened Ascii
  import opened Lexer
  import opened MemberIndex
  import opened SyntaxTurns
  import opened RoundTrip
  import opened Tree
  import opened WellFormed
  import opened Syntax

  /** The members that no later member shares a key with, in order. */
  function KeepLast(ms: seq<Node>): seq<Node> {
    if ms == [] then []
    else (if HasKey(ms[1..], ms[0].key) then [] else [ms[0]]) + KeepLast(ms[1..])
  }

  /** Every member read from here to the closing brace, replaced ones included,
      each with its comments. */
  function MembersRead(st: State, depth: nat, o: Options): seq<Node>
    decreases |st.ts|
  {
    var head := HeadComments(st.ts);
    if Peek(head.rest).kind == ObjectEnd then []
    else
      match ParseChild(st.(ts := head.rest), depth, o, true, head.text)
      case Err(_) => []
      case Ok(n, st1) =>
        FollowKeepsKey(n, st1.ts, true);
        match Follow(n, st1.ts, true)
        case None => []
        case Some(f) => [f.child] + MembersRead(State(f.rest, st1.keys + 1, st1.nodes), depth, o)
  }

  /** One turn of the reading above. */
  lemma ReadOne(st: State, depth: nat, o: Options)
    ensures var head := HeadComments(st.ts);
            var r := ParseChild(st.(ts := head.rest), depth, o, true, head.text);
            Peek(head.rest).kind != ObjectEnd && r.Ok? && Follow(r.val, r.st.ts, true).Some? ==>
              var f := Follow(r.val, r.st.ts, true).value;
              MembersRead(st, depth, o) == [f.child] + MembersRead(State(f.rest, r.st.keys + 1, r.st.nodes), depth, o)
    ensures Peek(HeadComments(st.ts).rest).kind == ObjectEnd ==> MembersRead(st, depth, o) == []
  {
    hide HeadComments, ParseChild, Follow;
  }

  lemma OneKey(n: Node, key: Bytes)
    ensures HasKey([n], key) <==> n.key == key
  {
    assert [n][0] == n;
  }

  /** Adding a member to those kept is keeping one more of those read. */
  lemma {:induction false} PutIsKeepLast(ms: seq<Node>, n: Node)
    ensures KeepLast(ms + [n]) == Put(KeepLast(ms), n, true)
  {
    if ms == [] {
      assert ms + [n] == [n] && [n][1..] == [];
      assert KeepLast([n]) == [n] + [];
    } else {
      var rest := ms[1..];
      var first := if HasKey(rest, ms[0].key) then [] else [ms[0]];
      PutIsKeepLast(rest, n);
      assert (ms + [n])[0] == ms[0] && (ms + [n])[1..] == rest + [n];
      HasKeyConcat(rest, [n], ms[0].key);
      OneKey(n, ms[0].key);
      WithoutConcat(first, KeepLast(rest), n.key);
      if ms[0].key == n.key {
        DropsFirst(first, n.key);
      } else {
        KeepsFirst(first, n.key);
      }
    }
  }

  lemma DropsFirst(first: seq<Node>, key: Bytes)
    requires |first| <= 1 && (first == [] || first[0].key == key)
    ensures Without(first, key) == []
  {
    if first != [] {
      assert first == [first[0]];
      WithoutOne(first[0]);
    }
  }

  lemma KeepsFirst(first: seq<Node>, key: Bytes)
    requires |first| <= 1 && (first == [] || first[0].key != key)
    ensures Without(first, key) == first
  {
    if first != [] {
      assert first[1..] == [];
    }
  }

  /** With duplicate keys allowed or not, what an object keeps is each member
      it read with no later member of the same key, in source order. */
  lemma {:induction false} LastMemberWins(st: State, depth: nat, o: Options, turn: Turn, before: seq<Node>)
    requires turn.sofar.children == KeepLast(before)
    ensures var r := ParseChildren(st, depth, o, true, turn);
            r.Ok? ==> r.val.children == KeepLast(before + MembersRead(st, depth, o))
    decreases |st.ts|
  {
    hide HeadComments, ParseChild, ParseChildren, Attach, Follow, MembersRead, KeepLast, Put;
    var r := ParseChildren(st, depth, o, true, turn);
    var head := HeadComments(st.ts);
    ReadOne(st, depth, o);
    if Peek(head.rest).kind == ObjectEnd {
      ClosingTurn(st, depth, o, true, turn);
      assert before + [] == before;
    } else if r.Ok? {
      ChildTurn(st, depth, o, true, turn);
      var child := ParseChild(st.(ts := head.rest), depth, o, true, head.text);
      AttachFollows(child.val, child.st, o, true, turn.sofar);
      FollowKeepsKey(child.val, child.st.ts, true);
      var f := Follow(child.val, child.st.ts, true).value;
      PutIsKeepLast(before, f.child);
      var next := Turn(Inside(Put(turn.sofar.children, f.child, true), JoinNotes(turn.sofar.foot, f.foot)), f.comma);
      LastMemberWins(State(f.rest, child.st.keys + 1, child.st.nodes), depth, o, next, before + [f.child]);
      var more := MembersRead(State(f.rest, child.st.keys + 1, child.st.nodes), depth, o);
      assert before + ([f.child] + more) == before + [f.child] + more;
    }
  }

  lemma PutNew(was: seq<Node>, n: Node)
    requires DistinctKeys(was) && !HasKey(was, n.key)
    ensures Put(was, n, true) == was + [n] && DistinctKeys(was + [n])
  {
    WithoutAbsent(was, n.key);
  }

  /** Where duplicates are refused, an object that is read keeps every member,
      and no two have the same key. */
  lemma {:induction false} NoneReplaced(st: State, depth: nat, o: Options, turn: Turn)
    requires !o.allowDuplicateKeys && DistinctKeys(turn.sofar.children)
    ensures var r := ParseChildren(st, depth, o, true, turn);
            r.Ok? ==> r.val.children == turn.sofar.children + MembersRead(st, depth, o) && DistinctKeys(r.val.children)
    decreases |st.ts|
  {
    hide HeadComments, ParseChild, ParseChildren, Attach, Follow, MembersRead, Put, HasKey, DistinctKeys;
    var r := ParseChildren(st, depth, o, true, turn);
    var head := HeadComments(st.ts);
    ReadOne(st, depth, o);
    if Peek(head.rest).kind == ObjectEnd {
      ClosingTurn(st, depth, o, true, turn);
      assert turn.sofar.children + [] == turn.sofar.children;
    } else if r.Ok? {
      ChildTurn(st, depth, o, true, turn);
      var child := ParseChild(st.(ts := head.rest), depth, o, true, head.text);
      AttachFollows(child.val, child.st, o, true, turn.sofar);
      FollowKeepsKey(child.val, child.st.ts, true);
      var f := Follow(child.val, child.st.ts, true).value;
      var was := turn.sofar.children;
      PutNew(was, f.child);
      var next := Turn(Inside(was + [f.child], JoinNotes(turn.sofar.foot, f.foot)), f.comma);
      var after := State(f.rest, child.st.keys + 1, child.st.nodes);
      NoneReplaced(after, depth, o, next);
      assert was + ([f.child] + MembersRead(after, depth, o)) == was + [f.child] + MembersRead(after, depth, o);
    }
  }
}
