/** The duplicate check is exact: a document is refused for its keys exactly when
    some member of it would have been replaced by a later one. */
module Duplicates {
  import opened Ascii
  import opened Lexer
  import opened QuotedStrings
  import opened Tree
  import opened Syntax
  import opened SyntaxTurns
  import opened Sizes

  function Refusing(o: Options): Options { o.(allowDuplicateKeys := false) }

  function Allowing(o: Options): Options { o.(allowDuplicateKeys := true) }

  /** r refuses duplicates and q allows them, both from st. A tree has at most as
      many members as were read, `due` of which are still to be charged; with as
      many, the two agree, and with fewer r fails. */
  predicate Agree(r: Result<Node>, q: Result<Node>, st: State, due: nat) {
    match q
    case Err(_) => r.Err?
    case Ok(n, s) =>
      MembersIn(n) <= s.keys - st.keys + due && if MembersIn(n) == s.keys - st.keys + due then r == q else r.Err?
  }

  predicate AgreeInside(r: Result<Inside>, q: Result<Inside>, st: State, before: seq<Node>) {
    match q
    case Err(_) => r.Err?
    case Ok(inside, s) =>
      var read := MembersOf(before) + s.keys - st.keys;
      MembersOf(inside.children) <= read && if MembersOf(inside.children) == read then r == q else r.Err?
  }

  lemma {:induction false} ValueAgrees(st: State, depth: nat, o: Options)
    ensures Agree(ParseValue(st, depth, Refusing(o)), ParseValue(st, depth, Allowing(o)), st, 0)
    decreases |st.ts|, 1
  {
    hide ParseContainer, Unquote;
    if IsOpen(Peek(st.ts).kind) {
      ContainerAgrees(st, depth, o);
    } else if ScalarNode(Peek(st.ts)).Some? {
      OwnSizes(ScalarNode(Peek(st.ts)).value);
    }
  }

  lemma {:induction false} ContainerAgrees(st: State, depth: nat, o: Options)
    requires IsOpen(Peek(st.ts).kind)
    ensures Agree(ParseContainer(st, depth, Refusing(o)), ParseContainer(st, depth, Allowing(o)), st, 0)
    decreases |st.ts|, 0
  {
    hide ParseChildren, InlineComment;
    ChildrenAgree(State(st.ts[1..], st.keys, st.nodes + 1), depth + 1, o, Peek(st.ts).kind == ObjectStart, START);
  }

  lemma {:induction false} ChildAgrees(st: State, depth: nat, o: Options, obj: bool, head: Bytes)
    ensures var q := ParseChild(st, depth, Allowing(o), obj, head);
            Agree(ParseChild(st, depth, Refusing(o), obj, head), q, st, if obj then 1 else 0)
            && (obj && q.Ok? ==> q.val.kind == KeyValueNode)
    decreases |st.ts|, 2
  {
    hide ParseValue, Unquote, Collect, JoinNotes;
    if !obj {
      ValueAgrees(st, depth, o);
    } else if Peek(st.ts).kind == StringToken {
      var colon := Collect([], st.ts[1..]).rest;
      if Peek(colon).kind == NameSeparator {
        var value := st.(ts := Collect([], colon[1..]).rest);
        ValueAgrees(value, depth, o);
        var v := ParseValue(value, depth, Allowing(o));
        if v.Ok? && Unquote(st.ts[0].text).Some? {
          OwnSizes(KeyValue(Unquote(st.ts[0].text).value, st.ts[0].text, v.val, head));
        }
      }
    }
  }

  lemma AttachAgrees(n: Node, st: State, o: Options, obj: bool, sofar: Inside)
    requires obj ==> AllMembers(sofar.children) && n.kind == KeyValueNode
    ensures var a := Attach(n, st, Refusing(o), obj, sofar);
            var b := Attach(n, st, Allowing(o), obj, sofar);
            if b.Err? then a.Err?
            else
              var most := MembersOf(sofar.children) + MembersIn(n);
              var all := MembersOf(b.val.sofar.children);
              all <= most && (obj ==> AllMembers(b.val.sofar.children))
              && b.st.keys == st.keys + (if obj then 1 else 0)
              && if all == most then a == b else a.Err?
  {
    hide Attach, Follow, HasKey, Put, MembersIn, MembersOf, AllMembers;
    AttachFollows(n, st, Refusing(o), obj, sofar);
    AttachFollows(n, st, Allowing(o), obj, sofar);
    var f := Follow(n, st.ts, obj);
    if f.Some? {
      FollowKeepsSizes(n, st.ts, obj);
      FollowKeepsKey(n, st.ts, obj);
      PutSizes(sofar.children, f.value.child, obj);
    }
  }

  lemma {:induction false} ChildrenAgree(st: State, depth: nat, o: Options, obj: bool, turn: Turn)
    requires obj ==> AllMembers(turn.sofar.children)
    ensures AgreeInside(ParseChildren(st, depth, Refusing(o), obj, turn), ParseChildren(st, depth, Allowing(o), obj, turn),
                        st, turn.sofar.children)
    decreases |st.ts|, 3
  {
    hide ParseChild, Attach, HeadComments, JoinNotes, MembersIn, MembersOf;
    var head := HeadComments(st.ts);
    if Peek(head.rest).kind != Close(obj) {
      var st0 := st.(ts := head.rest);
      ChildAgrees(st0, depth, o, obj, head.text);
      var c := ParseChild(st0, depth, Allowing(o), obj, head.text);
      if c.Ok? {
        AttachAgrees(c.val, c.st, o, obj, turn.sofar);
        var b := Attach(c.val, c.st, Allowing(o), obj, turn.sofar);
        if b.Ok? {
          ChildrenAgree(b.st, depth, o, obj, b.val);
        }
      }
    }
  }

  /** A document is accepted with duplicate keys refused exactly when it is
      accepted with them allowed, and then has a member for every colon: none was
      replaced. The trees are the same. */
  lemma DuplicatesAreExact(ts: seq<Token>, o: Options)
    ensures var r, q := ParseDocument(ts, Refusing(o)), ParseDocument(ts, Allowing(o));
            (q.Ok? ==> MembersIn(q.val) <= Limits.Members(ts))
            && if q.Ok? && MembersIn(q.val) == Limits.Members(ts) then r == q else r.Err?
  {
    hide ParseValue, Finish, HeadComments, JoinNotes, Limits.Members;
    var lead := HeadComments(ts);
    var st := State(lead.rest, 0, 0);
    if lead.rest != [] {
      ValueAgrees(st, 0, o);
      var q := ParseValue(st, 0, Allowing(o));
      if q.Ok? {
        var root := q.val.WithHead(JoinNotes(lead.text, q.val.notes.head));
        FinishKeeps(root, q.st);
        if Finish(root, q.st).Ok? {
          KeysRead(ts, o);
        }
      }
    }
  }

  lemma FinishKeeps(root: Node, st: State)
    ensures var r := Finish(root, st); r.Ok? ==> MembersIn(r.val) == MembersIn(root)
  {
    hide Collect, InlineComment, MembersOf;
  }

  /** The counter of a document that was read to its end. */
  lemma KeysRead(ts: seq<Token>, o: Options)
    requires HeadComments(ts).rest != [] && ParseValue(State(HeadComments(ts).rest, 0, 0), 0, Allowing(o)).Ok?
    requires var v := ParseValue(State(HeadComments(ts).rest, 0, 0), 0, Allowing(o));
             Finish(v.val.WithHead(JoinNotes(HeadComments(ts).text, v.val.notes.head)), v.st).Ok?
    ensures ParseValue(State(HeadComments(ts).rest, 0, 0), 0, Allowing(o)).st.keys == Limits.Members(ts)
  {
    hide ParseValue, Finish, JoinNotes, Limits.Members, Limits.Nodes, Limits.Net, Limits.Nesting, Collect;
    var st := State(HeadComments(ts).rest, 0, 0);
    var v := ParseValue(st, 0, Allowing(o));
    var p := Limits.ValueLimits(st, 0, Allowing(o));
    Limits.SkipTakesNothing([], State(ts, 0, 0), 0);
    Limits.FinishTakesNothing(v.val.WithHead(JoinNotes(HeadComments(ts).text, v.val.notes.head)), v.st);
  }
}
